/** Pacing helpers: per-account caps, delays, active hours, and stateless rotation. */
module Pacing {
  import opened Core
  import opened Ordering

  predicate UnderDailyCap(actionsToday: int, dailyCap: int) {
    actionsToday < dailyCap
  }

  predicate DelayOk(lastActionAt: Option<Time>, now: Time, minDelaySeconds: int) {
    lastActionAt.None? || now - lastActionAt.value >= Seconds(minDelaySeconds)
  }

  /** `start` and `end` are minutes after midnight; the window may run over midnight. */
  predicate InWindow(now: Time, start: int, end: int) {
    var current := TimeOfDay(now);
    var s, e := start * MINUTE, end * MINUTE;
    if s <= e then s <= current <= e else current >= s || current <= e
  }

  /** A window is the arc of the clock from its start to its end, over midnight or not; in microseconds. */
  lemma InWindowIsArc(now: Time, start: int, end: int)
    requires 0 <= start < 24 * 60 && 0 <= end < 24 * 60
    ensures InWindow(now, start, end)
       <==> (now % 86_400_000_000 - start * 60_000_000) % 86_400_000_000
            <= (end * 60_000_000 - start * 60_000_000) % 86_400_000_000
  {
    var c, s, e := TimeOfDay(now), start * MINUTE, end * MINUTE;
    WrapDifference(c, s);
    WrapDifference(e, s);
  }

  lemma WrapDifference(a: int, b: int)
    requires 0 <= a < DAY && 0 <= b < DAY
    ensures (a - b) % DAY == if a >= b then a - b else a - b + DAY
  {
  }

  /** The default window, "00:00" to "23:59", leaves out the last minute of the day after its first instant. */
  lemma DefaultWindow(now: Time)
    ensures InWindow(now, 0, 23 * 60 + 59) <==> now % 86_400_000_000 <= 86_340_000_000
  {
  }

  // ------------------------------------------------------------------- rotation ---

  predicate Ascending(s: seq<int>) {
    forall i, j :: 0 <= i < j < |s| ==> s[i] <= s[j]
  }

  function Insert(x: int, s: seq<int>): seq<int> {
    if s == [] || x <= s[0] then [x] + s else [s[0]] + Insert(x, s[1..])
  }

  /** Python's `sorted`. */
  function Sorted(s: seq<int>): seq<int> {
    if s == [] then [] else Insert(s[0], Sorted(s[1..]))
  }

  function IndexOf(x: int, s: seq<int>): (i: nat)
    requires x in s
    ensures i < |s| && s[i] == x && x !in s[..i]
  {
    if s[0] == x then 0 else 1 + IndexOf(x, s[1..])
  }

  /** Round-robin order: the sorted ids, cut after the last-used one. */
  function Rotate(ids: seq<int>, last: Option<int>): seq<int> {
    if ids == [] then []
    else
      var ordered := Sorted(ids);
      if last.Some? && last.value in ordered && |ordered| > 1 then
        var i := IndexOf(last.value, ordered);
        ordered[i + 1..] + ordered[..i + 1]
      else
        ordered
  }

  lemma {:induction false} InsertAdds(x: int, s: seq<int>)
    ensures multiset(Insert(x, s)) == multiset(s) + multiset{x}
  {
    if s == [] || x <= s[0] {
    } else {
      InsertAdds(x, s[1..]);
      assert s == [s[0]] + s[1..];
    }
  }

  lemma {:induction false} InsertSorts(x: int, s: seq<int>)
    requires Ascending(s)
    ensures Ascending(Insert(x, s))
    ensures forall y :: y in Insert(x, s) ==> y == x || y in s
  {
    if s == [] || x <= s[0] {
    } else {
      InsertSorts(x, s[1..]);
      var r := Insert(x, s[1..]);
      forall j | 0 <= j < |r| ensures s[0] <= r[j] {
        assert r[j] in r;
      }
    }
  }

  lemma {:induction false} SortedSorts(s: seq<int>)
    ensures Ascending(Sorted(s)) && multiset(Sorted(s)) == multiset(s)
  {
    if s == [] {
    } else {
      SortedSorts(s[1..]);
      InsertSorts(s[0], Sorted(s[1..]));
      InsertAdds(s[0], Sorted(s[1..]));
      assert s == [s[0]] + s[1..];
    }
  }

  lemma {:induction false} SortedKeepsAscending(s: seq<int>)
    requires Ascending(s)
    ensures Sorted(s) == s
  {
    if s == [] {
    } else {
      SortedKeepsAscending(s[1..]);
      assert s == [s[0]] + s[1..];
      assert |s| > 1 ==> s[1..][0] == s[1];
    }
  }

  /** Where the ring is entered: after the last-used id, or at the first one. */
  function StartOf(ids: seq<int>, last: Option<int>): (start: nat)
    requires ids != []
    ensures start < |ids|
  {
    if last.Some? && last.value in ids then
      var next := IndexOf(last.value, ids) + 1;
      if next == |ids| then 0 else next
    else 0
  }

  /** Position after `k` steps round a ring of `n` places. */
  function Walk(start: nat, k: nat, n: nat): (i: nat)
    requires start < n
    ensures i < n
  {
    if k == 0 then start
    else
      var i := Walk(start, k - 1, n);
      if i + 1 == n then 0 else i + 1
  }

  lemma {:induction false} WalkLessThanRound(start: nat, k: nat, n: nat)
    requires start < n && k <= n
    ensures Walk(start, k, n) == if start + k < n then start + k else start + k - n
  {
    if k == 0 {
    } else {
      WalkLessThanRound(start, k - 1, n);
    }
  }

  lemma {:induction false} WalkAgain(start: nat, a: nat, b: nat, n: nat)
    requires start < n
    ensures Walk(start, a + b, n) == Walk(Walk(start, a, n), b, n)
  {
    if b == 0 {
    } else {
      WalkAgain(start, a, b - 1, n);
    }
  }

  /** Walking round the ring is counting modulo its size. */
  lemma {:induction false} WalkIsModulo(start: nat, k: nat, n: nat)
    requires start < n
    ensures Walk(start, k, n) == (start + k) % n
    ensures 0 <= (start + k) % n < n
  {
    if k == 0 {
      RemainderIs(start, 0, start, n);
    } else {
      WalkIsModulo(start, k - 1, n);
      var a := start + (k - 1);
      var d, r := a / n, a % n;
      assert a == d * n + r;
      if r + 1 == n {
        assert (d + 1) * n == d * n + n;
        RemainderIs(a + 1, d + 1, 0, n);
      } else {
        RemainderIs(a + 1, d, r + 1, n);
      }
    }
  }

  lemma RotateCuts(ids: seq<int>, last: Option<int>)
    requires ids != [] && Sorted(ids) == ids
    ensures Rotate(ids, last) == ids[StartOf(ids, last)..] + ids[..StartOf(ids, last)]
  {
    if last.Some? && last.value in ids && |ids| > 1 {
      var i := IndexOf(last.value, ids);
      assert Rotate(ids, last) == ids[i + 1..] + ids[..i + 1];
    } else {
      assert Rotate(ids, last) == ids;
    }
  }

  lemma CutWalks(ids: seq<int>, start: nat, k: nat)
    requires start < |ids| && k < |ids|
    ensures (ids[start..] + ids[..start])[k] == ids[Walk(start, k, |ids|)]
  {
    WalkLessThanRound(start, k, |ids|);
  }

  /** On distinct ascending ids the rotation walks the ring of the ids, entered after the last-used one. */
  lemma RotateIsRing(ids: seq<int>, last: Option<int>, k: nat)
    requires k < |ids| && Climbs(ids)
    ensures |Rotate(ids, last)| == |ids|
    ensures Rotate(ids, last)[k] == ids[Walk(StartOf(ids, last), k, |ids|)]
  {
    SortedKeepsAscending(ids);
    RotateCuts(ids, last);
    CutWalks(ids, StartOf(ids, last), k);
  }

  lemma RemainderIs(a: int, d: int, r: int, n: nat)
    requires 0 <= r < n && a == d * n + r
    ensures a % n == r
  {
    var e := a / n;
    assert a == e * n + a % n;
    if d > e {
      GapGrows(d, e, n);
    } else if e > d {
      GapGrows(e, d, n);
    }
  }

  lemma {:induction false} GapGrows(d: int, e: int, n: nat)
    requires d > e
    ensures d * n >= e * n + n
    decreases d - e
  {
    assert d * n == (d - 1) * n + n;
    if d - 1 <= e {
    } else {
      GapGrows(d - 1, e, n);
    }
  }

  /** Every account appears as often as it was given. */
  lemma RotateKeepsAll(ids: seq<int>, last: Option<int>)
    ensures multiset(Rotate(ids, last)) == multiset(ids)
  {
    SortedSorts(ids);
    var ordered := Sorted(ids);
    if last.Some? && last.value in ordered && |ordered| > 1 {
      var i := IndexOf(last.value, ordered);
      assert ordered == ordered[..i + 1] + ordered[i + 1..];
    }
  }

  lemma {:induction false} DistinctCounts(s: seq<int>, x: int)
    requires Distinct(s)
    ensures multiset(s)[x] <= 1
  {
    if s == [] {
    } else {
      var front := s[..|s| - 1];
      assert s == front + [s[|s| - 1]];
      DistinctCounts(front, x);
    }
  }

  lemma {:induction false} CountsDistinct(s: seq<int>)
    requires forall x :: multiset(s)[x] <= 1
    ensures Distinct(s)
  {
    if s == [] {
    } else {
      var front, last := s[..|s| - 1], s[|s| - 1];
      assert s == front + [last];
      assert multiset(s)[last] == multiset(front)[last] + 1;
      forall x ensures multiset(front)[x] <= 1 {
        assert multiset(front)[x] <= multiset(s)[x];
      }
      CountsDistinct(front);
    }
  }

  lemma SameCountsDistinct(s: seq<int>, t: seq<int>)
    requires multiset(s) == multiset(t) && Distinct(s)
    ensures Distinct(t) && |s| == |t|
  {
    forall x ensures multiset(t)[x] <= 1 {
      DistinctCounts(s, x);
    }
    CountsDistinct(t);
    assert |multiset(s)| == |s| && |multiset(t)| == |t|;
  }

  /** The order does not begin with the last-used account when there is any other. With an account
      listed twice it could: the promise needs distinct ids. */
  lemma RotateAvoidsLast(ids: seq<int>, last: Option<int>)
    requires |ids| > 1 && Distinct(ids)
    ensures Rotate(ids, last) != [] && Some(Rotate(ids, last)[0]) != last
  {
    SortedSorts(ids);
    SameCountsDistinct(ids, Sorted(ids));
    var ordered, r := Sorted(ids), Rotate(ids, last);
    if last.Some? && last.value in ordered {
      var i := IndexOf(last.value, ordered);
      if i + 1 < |ordered| {
        DistinctAt(ordered, i + 1);
        assert ordered[i] in ordered[..i + 1];
      } else {
        DistinctAt(ordered, i);
        assert ordered[0] in ordered[..i];
      }
    } else {
      assert r[0] in ordered;
    }
  }
}
