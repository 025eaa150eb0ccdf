/** The in-process fixed-window rate limiter: what one window admits, and the bound this implies for
    every sliding interval of the window's length. Times are seconds since the epoch. */
module RateLimit {

  /** `(count, window_expires_at_epoch)`. */
  datatype Bucket = Bucket(count: nat, expires: real)

  const FRESH := Bucket(0, 0.0)

  datatype Answer = Answer(allowed: bool, remaining: nat, retryAfter: nat)

  /** Python's `round`: to the nearest integer, ties to the even one. */
  function Round(x: real): int {
    var low := x.Floor;
    var part := x - low as real;
    if part < 0.5 || (part == 0.5 && low % 2 == 0) then low else low + 1
  }

  lemma RoundIsNearest(x: real)
    ensures -0.5 <= Round(x) as real - x <= 0.5
    ensures x == x.Floor as real + 0.5 ==> Round(x) % 2 == 0
  {
  }

  function Next(b: Bucket, window: int, now: real): Bucket {
    if now >= b.expires then Bucket(1, now + window as real) else Bucket(b.count + 1, b.expires)
  }

  function Reply(b: Bucket, limit: int, now: real): Answer {
    Answer(b.count <= limit,
           if limit - b.count > 0 then limit - b.count else 0,
           if Round(b.expires - now) > 1 then Round(b.expires - now) else 1)
  }

  class MemoryStore {
    var buckets: map<string, Bucket>

    constructor ()
      ensures buckets == map[]
    {
      buckets := map[];
    }

    method Hit(key: string, limit: int, window: int, now: real) returns (answer: Answer)
      modifies this
      ensures buckets == old(buckets)[key := Next(BucketOf(old(buckets), key), window, now)]
      ensures answer == Reply(Next(BucketOf(old(buckets), key), window, now), limit, now)
    {
      var b := if key in buckets then buckets[key] else FRESH;
      var count, expires := b.count, b.expires;
      if now >= expires {
        count, expires := 0, now + window as real;
      }
      count := count + 1;
      buckets := buckets[key := Bucket(count, expires)];
      var remaining := if limit - count > 0 then limit - count else 0;
      var retryAfter := if Round(expires - now) > 1 then Round(expires - now) else 1;
      answer := Answer(count <= limit, remaining, retryAfter);
    }
  }

  function BucketOf(buckets: map<string, Bucket>, key: string): Bucket {
    if key in buckets then buckets[key] else FRESH
  }

  // ------------------------------------------------------------------ whole runs ---

  datatype Call = Call(key: string, now: real)

  /** The store after `c`. */
  function After(buckets: map<string, Bucket>, c: Call, window: int): map<string, Bucket> {
    buckets[c.key := Next(BucketOf(buckets, c.key), window, c.now)]
  }

  /** The answers to a run of calls with one limit and one window length. */
  function Answers(buckets: map<string, Bucket>, calls: seq<Call>, limit: int, window: int): (r: seq<Answer>)
    ensures |r| == |calls|
    decreases |calls|
  {
    if calls == [] then []
    else
      var next := After(buckets, calls[0], window);
      [Reply(next[calls[0].key], limit, calls[0].now)] + Answers(next, calls[1..], limit, window)
  }

  /** How many calls of `key` at a time in `[from, from + window)` got a positive answer. */
  function Count(calls: seq<Call>, answers: seq<Answer>, key: string, window: int, from: real): nat
    requires |answers| == |calls|
  {
    if calls == [] then 0
    else
      var c := calls[0];
      (if c.key == key && from <= c.now < from + window as real && answers[0].allowed then 1 else 0)
      + Count(calls[1..], answers[1..], key, window, from)
  }

  function Admitted(buckets: map<string, Bucket>, calls: seq<Call>, key: string,
                    limit: int, window: int, from: real): nat
  {
    Count(calls, Answers(buckets, calls, limit, window), key, window, from)
  }

  /** The clock starts no earlier than `start` and does not go back. */
  ghost predicate Clocked(calls: seq<Call>, start: real)
    decreases |calls|
  {
    calls == [] || (start <= calls[0].now && Clocked(calls[1..], calls[0].now))
  }

  function Max0(x: int): nat {
    if x > 0 then x else 0
  }

  /** What may still be admitted in `[from, from + window)` when the bucket of the key is `b`. */
  function Quota(b: Bucket, limit: int, window: int, from: real): nat {
    if b.expires >= from + window as real then Max0(limit - b.count)
    else if b.expires >= from then Max0(limit - b.count) + Max0(limit)
    else Max0(limit - 1) + Max0(limit)
  }

  lemma {:induction false} NothingLater(buckets: map<string, Bucket>, calls: seq<Call>, key: string,
                                        limit: int, window: int, from: real, start: real)
    requires Clocked(calls, start) && start >= from + window as real
    ensures Admitted(buckets, calls, key, limit, window, from) == 0
    decreases |calls|
  {
    if calls == [] {
    } else {
      NothingLater(After(buckets, calls[0], window), calls[1..], key, limit, window, from, calls[0].now);
    }
  }

  /** From a bucket that has been hit before, no more than the quota is admitted. */
  lemma {:induction false} QuotaBounds(buckets: map<string, Bucket>, calls: seq<Call>, key: string,
                                       limit: int, window: int, from: real, start: real)
    requires Clocked(calls, start) && key in buckets && buckets[key].count >= 1
    ensures Admitted(buckets, calls, key, limit, window, from) <= Quota(buckets[key], limit, window, from)
    decreases |calls|
  {
    if calls == [] {
    } else {
      var next := After(buckets, calls[0], window);
      QuotaBounds(next, calls[1..], key, limit, window, from, calls[0].now);
      if calls[0].now >= from + window as real {
        NothingLater(next, calls[1..], key, limit, window, from, calls[0].now);
      }
    }
  }

  /** Sliding bound. From a store without the key and with a clock that does not go back, any interval
      `[from, from + window)` admits at most `2 * limit - 1` calls of a key, and none if `limit <= 0`. */
  lemma {:induction false} SlidingBound(buckets: map<string, Bucket>, calls: seq<Call>, key: string,
                                        limit: int, window: int, from: real, start: real)
    requires key !in buckets && Clocked(calls, start) && 0.0 <= start
    ensures Admitted(buckets, calls, key, limit, window, from) <= Max0(2 * limit - 1)
    decreases |calls|
  {
    if calls == [] {
    } else {
      var c, next := calls[0], After(buckets, calls[0], window);
      if c.key != key {
        SlidingBound(next, calls[1..], key, limit, window, from, c.now);
      } else {
        QuotaBounds(next, calls[1..], key, limit, window, from, c.now);
        if c.now >= from + window as real {
          NothingLater(next, calls[1..], key, limit, window, from, c.now);
        }
      }
    }
  }

  function Burst(key: string, now: real, n: nat): (calls: seq<Call>)
    ensures |calls| == n
  {
    if n == 0 then [] else [Call(key, now)] + Burst(key, now, n - 1)
  }

  /** A burst inside an open window, followed by `rest`. */
  lemma {:induction false} BurstAdmits(b: Bucket, key: string, now: real, n: nat, rest: seq<Call>,
                                       limit: int, window: int, from: real)
    requires now < b.expires && from <= now < from + window as real && b.count + n <= limit
    ensures Admitted(map[key := b], Burst(key, now, n) + rest, key, limit, window, from)
         == n + Admitted(map[key := Bucket(b.count + n, b.expires)], rest, key, limit, window, from)
    decreases n
  {
    var calls := Burst(key, now, n) + rest;
    if n == 0 {
      assert calls == rest;
    } else {
      assert calls[0] == Call(key, now) && calls[1..] == Burst(key, now, n - 1) + rest;
      var b' := Bucket(b.count + 1, b.expires);
      assert After(map[key := b], calls[0], window) == map[key := b'];
      BurstAdmits(b', key, now, n - 1, rest, limit, window, from);
    }
  }

  lemma {:induction false} BurstClocked(key: string, now: real, n: nat, rest: seq<Call>)
    requires Clocked(rest, now)
    ensures Clocked(Burst(key, now, n) + rest, now)
  {
    if n == 0 {
      assert Burst(key, now, n) + rest == rest;
    } else {
      BurstClocked(key, now, n - 1, rest);
      var calls := Burst(key, now, n) + rest;
      assert calls[0] == Call(key, now) && calls[1..] == Burst(key, now, n - 1) + rest;
    }
  }

  lemma ClockedFromEarlier(calls: seq<Call>, start: real, earlier: real)
    requires Clocked(calls, start) && earlier <= start
    ensures Clocked(calls, earlier)
  {
  }

  /** The calls of a fresh window: the one that opens it and `limit - 1` more at the same time. */
  function Opening(key: string, now: real, limit: nat): seq<Call>
    requires limit >= 1
  {
    [Call(key, now)] + Burst(key, now, limit - 1)
  }

  /** Half a second before a window opened at 0 closes. */
  function LateIn(window: nat): real {
    window as real - 0.5
  }

  /** One call opens a window at 0; `limit - 1` calls come half a second before it closes and `limit`
      more when it closes. */
  function WorstCase(key: string, limit: nat, window: nat): seq<Call>
    requires limit >= 1
  {
    [Call(key, 0.0)]
    + (Burst(key, LateIn(window), limit - 1) + Opening(key, window as real, limit))
  }

  lemma OpeningAdmits(b: Bucket, key: string, now: real, limit: nat, window: nat, from: real)
    requires limit >= 1 && b.expires <= now && from <= now < from + window as real
    ensures Admitted(map[key := b], Opening(key, now, limit), key, limit, window, from) == limit
  {
    var burst := Burst(key, now, limit - 1);
    assert Opening(key, now, limit)[1..] == burst;
    assert burst + [] == burst;
    var renewed := Bucket(1, now + window as real);
    assert After(map[key := b], Call(key, now), window) == map[key := renewed];
    BurstAdmits(renewed, key, now, limit - 1, [], limit, window, from);
  }

  lemma OpeningClocked(key: string, now: real, limit: nat)
    requires limit >= 1
    ensures Clocked(Opening(key, now, limit), now)
  {
    var burst := Burst(key, now, limit - 1);
    assert burst + [] == burst;
    BurstClocked(key, now, limit - 1, []);
    assert Opening(key, now, limit)[1..] == burst;
  }

  lemma WorstCaseClocked(key: string, limit: nat, window: nat)
    requires limit >= 1 && window >= 1
    ensures Clocked(WorstCase(key, limit, window), 0.0)
  {
    var from, w := LateIn(window), window as real;
    var second := Opening(key, w, limit);
    var first := Burst(key, from, limit - 1) + second;
    OpeningClocked(key, w, limit);
    ClockedFromEarlier(second, w, from);
    BurstClocked(key, from, limit - 1, second);
    ClockedFromEarlier(first, from, 0.0);
    assert WorstCase(key, limit, window)[1..] == first;
  }

  /** The sliding bound is reached, for every limit and every window. */
  lemma BoundIsReached(key: string, limit: nat, window: nat)
    requires limit >= 1 && window >= 1
    ensures Clocked(WorstCase(key, limit, window), 0.0)
    ensures Admitted(map[], WorstCase(key, limit, window), key, limit, window, LateIn(window)) == 2 * limit - 1
  {
    WorstCaseClocked(key, limit, window);
    var from, w := LateIn(window), window as real;
    var second := Opening(key, w, limit);
    OpeningAdmits(Bucket(limit, w), key, w, limit, window, from);
    BurstAdmits(Bucket(1, w), key, from, limit - 1, second, limit, window, from);
    assert WorstCase(key, limit, window)[1..] == Burst(key, from, limit - 1) + second;
    assert After(map[], Call(key, 0.0), window) == map[key := Bucket(1, w)];
  }

  /** How many calls of `key` there are. */
  function Hits(calls: seq<Call>, key: string): nat {
    if calls == [] then 0 else (if calls[0].key == key then 1 else 0) + Hits(calls[1..], key)
  }

  /** Inside an open window that has seen `count` hits, exactly the hits up to the `limit`-th are allowed. */
  lemma {:induction false} OpenWindowAdmitsFirst(buckets: map<string, Bucket>, calls: seq<Call>, key: string,
                                                 limit: int, window: int, i: nat)
    requires key in buckets && i < |calls| && calls[i].key == key
    requires forall j :: 0 <= j < |calls| ==> calls[j].now < buckets[key].expires
    ensures Answers(buckets, calls, limit, window)[i].allowed
       <==> buckets[key].count + Hits(calls[..i], key) < limit
    decreases |calls|
  {
    if i == 0 {
    } else {
      OpenWindowAdmitsFirst(After(buckets, calls[0], window), calls[1..], key, limit, window, i - 1);
      assert calls[..i][1..] == calls[1..][..i - 1];
    }
  }

  /** A fixed window admits exactly its first `limit` hits: `calls` starts with the hit that opens a
      window of the key and stays inside that window, whatever other keys do in between. */
  lemma WindowAdmitsFirst(buckets: map<string, Bucket>, calls: seq<Call>, key: string,
                          limit: int, window: int, i: nat)
    requires i < |calls| && calls[0].key == key && calls[i].key == key
    requires calls[0].now >= BucketOf(buckets, key).expires
    requires forall j :: 0 <= j < |calls| ==> calls[j].now < calls[0].now + window as real
    ensures Answers(buckets, calls, limit, window)[i].allowed <==> Hits(calls[..i], key) < limit
  {
    if i > 0 {
      OpenWindowAdmitsFirst(After(buckets, calls[0], window), calls[1..], key, limit, window, i - 1);
      assert calls[..i][1..] == calls[1..][..i - 1];
    }
  }

  function OnlyKey(calls: seq<Call>, key: string): seq<Call> {
    if calls == [] then []
    else if calls[0].key == key then [calls[0]] + OnlyKey(calls[1..], key) else OnlyKey(calls[1..], key)
  }

  function AnswersTo(calls: seq<Call>, answers: seq<Answer>, key: string): seq<Answer>
    requires |answers| == |calls|
  {
    if calls == [] then []
    else if calls[0].key == key then [answers[0]] + AnswersTo(calls[1..], answers[1..], key)
    else AnswersTo(calls[1..], answers[1..], key)
  }

  /** Calls of other keys never change an answer: a key is served as if it were alone. */
  lemma {:induction false} KeysAreIndependent(buckets: map<string, Bucket>, alone: map<string, Bucket>,
                                              calls: seq<Call>, key: string, limit: int, window: int)
    requires BucketOf(buckets, key) == BucketOf(alone, key)
    ensures AnswersTo(calls, Answers(buckets, calls, limit, window), key)
         == Answers(alone, OnlyKey(calls, key), limit, window)
    decreases |calls|
  {
    if calls == [] {
    } else {
      var next := After(buckets, calls[0], window);
      if calls[0].key == key {
        KeysAreIndependent(next, After(alone, calls[0], window), calls[1..], key, limit, window);
        assert OnlyKey(calls, key)[1..] == OnlyKey(calls[1..], key);
      } else {
        KeysAreIndependent(next, alone, calls[1..], key, limit, window);
      }
    }
  }

  /** What `remaining` promises: of the further hits of the key before its window ends, exactly so many are let in. */
  lemma {:induction false} RemainingIsLeft(b: Bucket, limit: int, window: int, now: real, k: nat, later: nat -> real)
    requires k >= 1 && forall i :: later(i) < b.expires
    ensures Reply(AfterHits(b, window, later, k), limit, later(k - 1)).allowed <==> k <= Reply(b, limit, now).remaining
    ensures AfterHits(b, window, later, k) == Bucket(b.count + k, b.expires)
  {
    if k == 1 {
      assert AfterHits(b, window, later, 0) == b;
    } else {
      RemainingIsLeft(b, limit, window, now, k - 1, later);
    }
  }

  /** The bucket after `k` hits at the times `later(0)`, `later(1)`, ... */
  function AfterHits(b: Bucket, window: int, later: nat -> real, k: nat): Bucket {
    if k == 0 then b else Next(AfterHits(b, window, later, k - 1), window, later(k - 1))
  }

  /** When the wait is too short: more than a second is left, and its fraction of a second is lost in
      rounding, being under a half, or a half over an even number of seconds. */
  predicate RoundedAway(left: real) {
    var part := left - left.Floor as real;
    left > 1.0 && 0.0 < part && (part < 0.5 || (part == 0.5 && left.Floor % 2 == 0))
  }

  /** A refused caller who waits `retryAfter` seconds, with no hits in between, is let in exactly when no
      part of the time left is rounded away. */
  lemma RetryAfterWait(b: Bucket, limit: int, window: int, now: real)
    requires limit >= 1 && b.count > limit && now < b.expires
    ensures var answer := Reply(b, limit, now);
      var later := now + answer.retryAfter as real;
      !answer.allowed && (Reply(Next(b, window, later), limit, later).allowed <==> !RoundedAway(b.expires - now))
  {
    RoundIsNearest(b.expires - now);
  }

  /** The wait can be too short: with 1.4 seconds left the caller is told one second and refused again. */
  lemma WaitTooShort()
    ensures var b := Bucket(6, 61.4);
      var answer := Reply(b, 5, 60.0);
      !answer.allowed && answer.retryAfter == 1 && !Reply(Next(b, 60, 61.0), 5, 61.0).allowed
  {
    assert (61.4 - 60.0).Floor == 1;
    assert Round(61.4 - 60.0) == 1;
  }
}
