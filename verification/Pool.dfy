/** The account pool shared by the three outreach engines: who may act, and what a tick's attempts do
    to the accounts. Every engine walks an order of accounts; each attempt charges the account,
    quarantines it (and ends the tick) or leaves it alone. */
module Pool {
  import opened Core
  import opened Ordering
  import opened Models
  import Pacing

  /** `eligible_accounts`: active and logged in, by id. */
  predicate Eligible(a: Account) {
    a.status.Active? && a.hasSession
  }

  predicate Usable(a: Account, now: Time, minDelay: int) {
    Eligible(a) && Pacing.UnderDailyCap(a.actionsToday, a.dailyCap) && Pacing.DelayOk(a.lastActionAt, now, minDelay)
  }

  function UsableSet(accounts: Accounts, now: Time, minDelay: int): set<int> {
    set id | id in accounts && Usable(accounts[id], now, minDelay)
  }

  /** The usable accounts in the order a tick takes them. */
  function Order(accounts: Accounts, now: Time, minDelay: int, last: Option<int>): seq<int> {
    Pacing.Rotate(ById(UsableSet(accounts, now, minDelay)), last)
  }

  ghost predicate AllUsable(order: seq<int>, accounts: Accounts, now: Time, minDelay: int) {
    AllIn(order, accounts) && forall i :: 0 <= i < |order| ==> Usable(accounts[order[i]], now, minDelay)
  }

  lemma OrderIsUsable(accounts: Accounts, now: Time, minDelay: int, last: Option<int>)
    ensures var order := Order(accounts, now, minDelay, last);
      && Distinct(order)
      && AllUsable(order, accounts, now, minDelay)
      && (forall id :: id in UsableSet(accounts, now, minDelay) ==> id in order)
      && |order| == |UsableSet(accounts, now, minDelay)|
  {
    var usable := UsableSet(accounts, now, minDelay);
    var ids, order := ById(usable), Order(accounts, now, minDelay, last);
    Pacing.RotateKeepsAll(ids, last);
    ByIdDistinct(usable);
    Pacing.SameCountsDistinct(ids, order);
    forall id ensures id in order <==> id in usable {
      assert id in order <==> id in multiset(order);
      assert id in ids <==> id in multiset(ids);
    }
    forall i | 0 <= i < |order| ensures order[i] in accounts && Usable(accounts[order[i]], now, minDelay) {
      assert order[i] in usable;
    }
  }

  datatype Effect = Charge | Quarantine | Spare

  /** What each attempt of a tick, counted from 0, does to its account. */
  type Effects = nat -> Effect

  function Apply(a: Account, e: Effect, now: Time): Account {
    match e
    case Charge => a.(actionsToday := a.actionsToday + 1, lastActionAt := Some(now))
    case Quarantine => a.(status := Quarantined)
    case Spare => a
  }

  /** How many of at most `n` attempts are made: up to and including the first that quarantines. */
  function Made(effects: Effects, n: nat): (m: nat)
    ensures m <= n
  {
    if n == 0 then 0
    else
      var m := Made(effects, n - 1);
      if m < n - 1 || Stopped(effects, m) then m else n
  }

  lemma {:induction false} MadeStops(effects: Effects, n: nat)
    ensures var m := Made(effects, n);
      && (forall i :: 0 <= i < m - 1 ==> !effects(i).Quarantine?)
      && (m < n ==> Stopped(effects, m))
  {
    if n == 0 {
    } else {
      MadeStops(effects, n - 1);
    }
  }

  lemma MadeSome(effects: Effects, n: nat)
    requires n > 0
    ensures Made(effects, n) > 0
  {
    MadeStops(effects, n);
  }

  // -------------------------------------------------------------------- answers ---

  /** How many of the first `k` attempts were answered with `answer`. */
  function Tally<A(==)>(answers: nat -> A, answer: A, k: nat): nat {
    if k == 0 then 0 else (if answers(k - 1) == answer then 1 else 0) + Tally(answers, answer, k - 1)
  }

  /** The ids the first `k` attempts of which were answered with `answer`. */
  ghost function Answered<A>(answers: nat -> A, answer: A, ids: seq<int>, k: nat): set<int>
    requires k <= |ids|
  {
    if k == 0 then {}
    else
      var before := Answered(answers, answer, ids, k - 1);
      if answers(k - 1) == answer then before + {ids[k - 1]} else before
  }

  lemma {:induction false} AnsweredAt<A>(answers: nat -> A, answer: A, ids: seq<int>, k: nat, i: nat)
    requires Distinct(ids) && k <= |ids| && i < |ids|
    ensures ids[i] in Answered(answers, answer, ids, k) <==> i < k && answers(i) == answer
  {
    hide Distinct;
    if k == 0 {
    } else {
      AnsweredAt(answers, answer, ids, k - 1, i);
      if ids[i] == ids[k - 1] {
        OnePlace(ids, i, k - 1);
      }
    }
  }

  lemma {:induction false} AnsweredFrom<A>(answers: nat -> A, answer: A, ids: seq<int>, k: nat, id: int)
      returns (i: nat)
    requires k <= |ids| && id in Answered(answers, answer, ids, k)
    ensures i < k && ids[i] == id && answers(i) == answer
  {
    if id in Answered(answers, answer, ids, k - 1) {
      i := AnsweredFrom(answers, answer, ids, k - 1, id);
    } else {
      i := k - 1;
    }
  }

  lemma {:induction false} AnsweredCount<A>(answers: nat -> A, answer: A, ids: seq<int>, k: nat)
    requires Distinct(ids) && k <= |ids|
    ensures |Answered(answers, answer, ids, k)| == Tally(answers, answer, k)
  {
    hide Distinct;
    if k == 0 {
    } else {
      AnsweredCount(answers, answer, ids, k - 1);
      AnsweredAt(answers, answer, ids, k - 1, k - 1);
    }
  }

  /** `k` attempts were made if only the last of them may have been a warning, and either there were no more
      to make or it was one. */
  lemma MadeUpTo(effects: Effects, n: nat, k: nat)
    requires k <= n && (forall i :: 0 <= i < k - 1 ==> !effects(i).Quarantine?) && (k == n || Stopped(effects, k))
    ensures Made(effects, n) == k
  {
    MadeStops(effects, n);
  }

  predicate Stopped(effects: Effects, m: nat) {
    m > 0 && effects(m - 1).Quarantine?
  }

  function Stamp(effects: Effects, now: Time): (nat, Account) -> Account {
    (i: nat, a: Account) => Apply(a, effects(i), now)
  }

  /** The accounts after the first `k` attempts. */
  function After(accounts: Accounts, order: seq<int>, effects: Effects, now: Time, k: nat): (r: Accounts)
    ensures r.Keys == accounts.Keys
  {
    Marked(accounts, order, Stamp(effects, now), k)
  }

  // -------------------------------------------------------------------- charges ---

  /** One recorded action of an account, and the delay the tick was asked to keep. */
  datatype ChargeEntry = ChargeEntry(account: int, at: Time, minDelay: int)

  /** The actions recorded by the first `k` attempts of a tick. */
  function Charges(order: seq<int>, effects: Effects, now: Time, minDelay: int, k: nat): (r: seq<ChargeEntry>)
    requires k <= |order|
  {
    if k == 0 then []
    else
      var before := Charges(order, effects, now, minDelay, k - 1);
      before + Entry(effects(k - 1), order[k - 1], now, minDelay)
  }

  function Entry(e: Effect, id: int, now: Time, minDelay: int): seq<ChargeEntry> {
    if e.Charge? then [ChargeEntry(id, now, minDelay)] else []
  }

  /** The last time the log charges `id`; `start` if it never does. */
  function LastCharge(log: seq<ChargeEntry>, id: int, start: Option<Time>): Option<Time> {
    if log == [] then start
    else
      var e := log[|log| - 1];
      if e.account == id then Some(e.at) else LastCharge(log[..|log| - 1], id, start)
  }

  function ChargeCount(log: seq<ChargeEntry>, id: int): nat {
    if log == [] then 0
    else (if log[|log| - 1].account == id then 1 else 0) + ChargeCount(log[..|log| - 1], id)
  }

  /** Every charge came at least its minimum delay after the previous action of its account. */
  ghost predicate Spaced(start: Accounts, log: seq<ChargeEntry>) {
    log == []
    || (var e, earlier := log[|log| - 1], log[..|log| - 1];
        && Spaced(start, earlier)
        && e.account in start
        && Pacing.DelayOk(LastCharge(earlier, e.account, start[e.account].lastActionAt), e.at, e.minDelay))
  }

  /** An account agrees with the log since `was`: its last action and its count are what the log says,
      and it was never charged at or over its daily cap. */
  ghost predicate Agrees(was: Account, a: Account, log: seq<ChargeEntry>, id: int) {
    && a.lastActionAt == LastCharge(log, id, was.lastActionAt)
    && a.actionsToday == was.actionsToday + ChargeCount(log, id)
    && a.dailyCap == was.dailyCap
    && (a.actionsToday <= a.dailyCap || ChargeCount(log, id) == 0)
  }

  ghost predicate Paced(start: Accounts, accounts: Accounts, log: seq<ChargeEntry>) {
    && accounts.Keys == start.Keys
    && (forall id :: id in start ==> Agrees(start[id], accounts[id], log, id))
    && Spaced(start, log)
  }

  lemma PacedStart(start: Accounts)
    ensures Paced(start, start, [])
  {
  }

  /** Only status, session and warm-up fields may differ. */
  ghost predicate SamePacing(accounts: Accounts, other: Accounts) {
    && accounts.Keys == other.Keys
    && forall id :: id in accounts ==>
         && accounts[id].lastActionAt == other[id].lastActionAt
         && accounts[id].actionsToday == other[id].actionsToday
         && accounts[id].dailyCap == other[id].dailyCap
  }

  lemma PacedIgnoresStatus(start: Accounts, accounts: Accounts, other: Accounts, log: seq<ChargeEntry>)
    requires Paced(start, accounts, log) && SamePacing(accounts, other)
    ensures Paced(start, other, log)
  {
    forall id | id in start ensures Agrees(start[id], other[id], log, id) {
      assert Agrees(start[id], accounts[id], log, id);
    }
  }

  /** One more charge of an account that was usable keeps the pool paced. */
  lemma ChargeKeepsPaced(start: Accounts, accounts: Accounts, log: seq<ChargeEntry>, id: int, now: Time, minDelay: int)
    requires Paced(start, accounts, log) && id in accounts && Usable(accounts[id], now, minDelay)
    ensures Paced(start, accounts[id := Apply(accounts[id], Charge, now)], log + [ChargeEntry(id, now, minDelay)])
  {
    var log' := log + [ChargeEntry(id, now, minDelay)];
    assert log'[..|log'| - 1] == log;
    var accounts' := accounts[id := Apply(accounts[id], Charge, now)];
    forall x | x in start ensures Agrees(start[x], accounts'[x], log', x) {
      assert Agrees(start[x], accounts[x], log, x);
    }
  }

  lemma AttemptKeepsPaced(start: Accounts, accounts: Accounts, log: seq<ChargeEntry>, id: int, e: Effect,
                          now: Time, minDelay: int)
    requires Paced(start, accounts, log) && id in accounts && Usable(accounts[id], now, minDelay)
    ensures Paced(start, accounts[id := Apply(accounts[id], e, now)], log + Entry(e, id, now, minDelay))
  {
    if e.Charge? {
      ChargeKeepsPaced(start, accounts, log, id, now, minDelay);
    } else {
      assert log + [] == log;
      PacedIgnoresStatus(start, accounts, accounts[id := Apply(accounts[id], e, now)], log);
    }
  }

  lemma LogGrows(log: seq<ChargeEntry>, entries: seq<ChargeEntry>, more: seq<ChargeEntry>)
    ensures (log + entries) + more == log + (entries + more)
  {
  }

  lemma {:induction false} AttemptsKeepPaced(start: Accounts, accounts: Accounts, log: seq<ChargeEntry>,
                                             order: seq<int>, effects: Effects, now: Time, minDelay: int, k: nat)
    requires Paced(start, accounts, log) && k <= |order| && Distinct(order)
    requires AllUsable(order, accounts, now, minDelay)
    ensures Paced(start, After(accounts, order, effects, now, k), log + Charges(order, effects, now, minDelay, k))
    decreases k
  {
    hide Paced, Usable, Distinct, Apply;
    if k == 0 {
      assert log + [] == log;
    } else {
      var id, e := order[k - 1], effects(k - 1);
      var before, entries := After(accounts, order, effects, now, k - 1), Charges(order, effects, now, minDelay, k - 1);
      assert Paced(start, before, log + entries) by {
        AttemptsKeepPaced(start, accounts, log, order, effects, now, minDelay, k - 1);
      }
      assert before[id] == accounts[id] by { BeforeItsTurn(accounts, order, Stamp(effects, now), k - 1); }
      LogGrows(log, entries, Entry(e, id, now, minDelay));
      AttemptKeepsPaced(start, before, log + entries, id, e, now, minDelay);
    }
  }

  ghost predicate DistinctAccounts(log: seq<ChargeEntry>) {
    forall i, j :: 0 <= i < j < |log| ==> log[i].account != log[j].account
  }

  /** No account is charged twice by one tick. */
  lemma {:induction false} OneChargePerTick(order: seq<int>, effects: Effects, now: Time, minDelay: int, k: nat)
    requires k <= |order| && Distinct(order)
    ensures var log := Charges(order, effects, now, minDelay, k);
      DistinctAccounts(log) && forall i :: 0 <= i < |log| ==> log[i].account in order[..k]
  {
    if k == 0 {
    } else {
      OneChargePerTick(order, effects, now, minDelay, k - 1);
      var before, id := Charges(order, effects, now, minDelay, k - 1), order[k - 1];
      assert order[..k] == order[..k - 1] + [id];
      DistinctAt(order, k - 1);
      ExtendDistinct(before, effects(k - 1), id, now, minDelay, order[..k - 1]);
    }
  }

  lemma ExtendDistinct(log: seq<ChargeEntry>, e: Effect, id: int, now: Time, minDelay: int, used: seq<int>)
    requires DistinctAccounts(log) && (forall i :: 0 <= i < |log| ==> log[i].account in used) && id !in used
    ensures var log' := log + Entry(e, id, now, minDelay);
      DistinctAccounts(log') && forall i :: 0 <= i < |log'| ==> log'[i].account in used + [id]
  {
  }

  /** The plain reading of spacing: two charges of an account with none in between are at least the
      later one's minimum delay apart. */
  lemma SpacedMeans(start: Accounts, accounts: Accounts, log: seq<ChargeEntry>, i: nat, j: nat)
    requires Paced(start, accounts, log)
    requires i < j < |log| && log[i].account == log[j].account
    requires forall k :: i < k < j ==> log[k].account != log[j].account
    ensures log[j].at - log[i].at >= Seconds(log[j].minDelay)
  {
    SpacedPrefix(start, log, j + 1);
    assert log[..j + 1][..j] == log[..j];
    LastChargeSkips(log[..j], log[j].account, start[log[j].account].lastActionAt, i);
  }

  lemma {:induction false} SpacedPrefix(start: Accounts, log: seq<ChargeEntry>, k: nat)
    requires Spaced(start, log) && k <= |log|
    ensures Spaced(start, log[..k])
    decreases |log|
  {
    if k == |log| {
      assert log[..k] == log;
    } else {
      SpacedPrefix(start, log[..|log| - 1], k);
      assert log[..|log| - 1][..k] == log[..k];
    }
  }

  lemma {:induction false} LastChargeSkips(log: seq<ChargeEntry>, id: int, start: Option<Time>, i: nat)
    requires i < |log| && log[i].account == id && forall k :: i < k < |log| ==> log[k].account != id
    ensures LastCharge(log, id, start) == Some(log[i].at)
  {
    if i >= |log| - 1 {
    } else {
      LastChargeSkips(log[..|log| - 1], id, start, i);
    }
  }

  // ----------------------------------------------------------------- quarantine ---

  /** Accounts that could still be quarantined by a flood warning. */
  function Sound(accounts: Accounts): set<int> {
    set id | id in accounts && (accounts[id].status.Active? || accounts[id].status.Warming?)
  }

  /** A tick never makes an account sound; a tick stopped by a warning makes exactly one unsound. */
  lemma AttemptsAndSound(accounts: Accounts, order: seq<int>, effects: Effects, now: Time, n: nat)
    requires n <= |order| && Distinct(order) && AllIn(order, accounts)
    requires forall i :: 0 <= i < |order| ==> Eligible(accounts[order[i]])
    ensures var m := Made(effects, n);
      Sound(After(accounts, order, effects, now, m))
      == if Stopped(effects, m) then Sound(accounts) - {order[m - 1]} else Sound(accounts)
  {
    var m := Made(effects, n);
    MadeStops(effects, n);
    var r := After(accounts, order, effects, now, m);
    forall id | id in accounts
      ensures id in Sound(r) <==> id in Sound(accounts) && !(Stopped(effects, m) && id == order[m - 1])
    {
      MarkedAt(accounts, order, Stamp(effects, now), m, id);
      if id in order[..m] {
        var i :| 0 <= i < m && order[i] == id;
        assert r[id] == Apply(accounts[id], effects(i), now);
      }
    }
  }

  /** Each warning costs the pool exactly one sound account; nothing else does. */
  lemma WarningCostsOne(accounts: Accounts, order: seq<int>, effects: Effects, now: Time, minDelay: int, n: nat)
    requires n <= |order| && Distinct(order) && AllUsable(order, accounts, now, minDelay)
    ensures var m := Made(effects, n);
      var later := After(accounts, order, effects, now, m);
      Sound(later) <= Sound(accounts) && |Sound(accounts)| == |Sound(later)| + if Stopped(effects, m) then 1 else 0
  {
    hide After, Made, Distinct;
    var m := Made(effects, n);
    assert forall i :: 0 <= i < |order| ==> Usable(accounts[order[i]], now, minDelay);
    AttemptsAndSound(accounts, order, effects, now, n);
    if Stopped(effects, m) {
      assert order[m - 1] in Sound(accounts);
    }
  }
}
