/** Fairness of the rotation: a stateless order computed anew by each tick still serves the accounts like a
    ring that remembers its place, so no account gets more than one action ahead of another. */
module Rotation {
  import opened Core
  import opened Ordering
  import opened Models
  import opened Pacing
  import Pool
  import Sender
  import SenderLaws
  import Campaigns
  import CampaignLaws
  import SendTargets

  // ------------------------------------------------------------------- the ring itself ---

  /** The account used last after a tick that served the first `m` of the order. */
  function LastAfter(ids: seq<int>, last: Option<int>, m: nat): Option<int>
    requires m <= |Rotate(ids, last)|
  {
    if m == 0 then last else Some(Rotate(ids, last)[m - 1])
  }

  lemma IndexOfDistinct(ids: seq<int>, i: nat)
    requires Climbs(ids) && i < |ids|
    ensures ids[i] in ids && IndexOf(ids[i], ids) == i
  {
    var j := IndexOf(ids[i], ids);
    assert ids[j] == ids[i];
  }

  /** The next tick enters the ring where this one stopped. */
  lemma NextStart(ids: seq<int>, last: Option<int>, m: nat)
    requires ids != [] && Climbs(ids) && m <= |ids|
    ensures |Rotate(ids, last)| == |ids|
    ensures StartOf(ids, LastAfter(ids, last, m)) == Walk(StartOf(ids, last), m, |ids|)
  {
    hide Climbs, Rotate;
    RotateIsRing(ids, last, 0);
    if m > 0 {
      RotateIsRing(ids, last, m - 1);
      IndexOfDistinct(ids, Walk(StartOf(ids, last), m - 1, |ids|));
    }
  }

  /** One tick's part of the ring, and the rest walked from where it stopped. */
  lemma RingStep(ids: seq<int>, last: Option<int>, m: nat, part: seq<int>, rest: seq<int>, k: nat)
    requires ids != [] && Climbs(ids) && m <= |ids| && |Rotate(ids, last)| == |ids| && part == Rotate(ids, last)[..m]
    requires k < |part + rest|
    requires k >= m ==> rest[k - m] == ids[Walk(StartOf(ids, LastAfter(ids, last, m)), k - m, |ids|)]
    ensures (part + rest)[k] == ids[Walk(StartOf(ids, last), k, |ids|)]
  {
    hide Climbs, Rotate, StartOf;
    if k < m {
      RotateIsRing(ids, last, k);
    } else {
      NextStart(ids, last, m);
      WalkAgain(StartOf(ids, last), m, k - m, |ids|);
    }
  }

  // ------------------------------------------------------------------------- fairness ---

  /** How many of the first `k` steps round a ring of `n` places from `start` stand at place `j`. */
  function Visits(start: nat, k: nat, n: nat, j: nat): nat
    requires start < n
  {
    if k == 0 then 0 else Visits(start, k - 1, n, j) + if Walk(start, k - 1, n) == j then 1 else 0
  }

  /** Whole rounds and steps left over after `k` steps. */
  function Rounds(k: nat, n: nat): (r: (nat, nat))
    requires n > 0
    ensures r.1 < n
  {
    if k == 0 then (0, 0)
    else
      var (full, rest) := Rounds(k - 1, n);
      if rest + 1 == n then (full + 1, 0) else (full, rest + 1)
  }

  /** Place `j` is among the first `r` of the round that began at `start`. */
  predicate Passed(start: nat, r: nat, n: nat, j: nat) {
    if start <= j then j < start + r else j + n < start + r
  }

  /** Every place was visited once per whole round, and once more if this round passed it. */
  lemma {:induction false} VisitsAre(start: nat, k: nat, n: nat, j: nat)
    requires start < n && j < n
    ensures var (full, rest) := Rounds(k, n);
      && Walk(start, k, n) == Walk(start, rest, n)
      && Visits(start, k, n, j) == full + if Passed(start, rest, n, j) then 1 else 0
  {
    if k == 0 {
    } else {
      VisitsAre(start, k - 1, n, j);
      var (full, rest) := Rounds(k - 1, n);
      WalkLessThanRound(start, rest, n);
      assert Walk(start, k, n) == Walk(start, if rest + 1 == n then 0 else rest + 1, n) by {
        WalkLessThanRound(start, rest + 1, n);
      }
    }
  }

  lemma VisitsDifferByOne(start: nat, k: nat, n: nat, i: nat, j: nat)
    requires start < n && i < n && j < n
    ensures Visits(start, k, n, i) <= Visits(start, k, n, j) + 1
  {
    VisitsAre(start, k, n, i);
    VisitsAre(start, k, n, j);
  }

  function CountOf(accounts: seq<int>, a: int): nat {
    if accounts == [] then 0
    else CountOf(accounts[..|accounts| - 1], a) + if accounts[|accounts| - 1] == a then 1 else 0
  }

  lemma ClimbsOnePlace(ids: seq<int>, i: nat, j: nat)
    requires Climbs(ids) && i < |ids| && j < |ids|
    ensures ids[i] == ids[j] <==> i == j
  {
  }

  lemma {:induction false} CountIsVisits(ids: seq<int>, start: nat, accounts: seq<int>, j: nat)
    requires Climbs(ids) && start < |ids| && j < |ids|
    requires forall k :: 0 <= k < |accounts| ==> accounts[k] == ids[Walk(start, k, |ids|)]
    ensures CountOf(accounts, ids[j]) == Visits(start, |accounts|, |ids|, j)
  {
    hide Walk, Climbs;
    if accounts == [] {
    } else {
      var k := |accounts| - 1;
      var i := Walk(start, k, |ids|);
      assert accounts[k] == ids[i];
      CountIsVisits(ids, start, accounts[..k], j);
      ClimbsOnePlace(ids, i, j);
    }
  }

  /** Walking the ring, no account is ever more than one action ahead of another. */
  lemma RingIsFair(ids: seq<int>, start: nat, accounts: seq<int>, i: nat, j: nat)
    requires Climbs(ids) && start < |ids| && i < |ids| && j < |ids|
    requires forall k :: 0 <= k < |accounts| ==> accounts[k] == ids[Walk(start, k, |ids|)]
    ensures CountOf(accounts, ids[i]) <= CountOf(accounts, ids[j]) + 1
  {
    CountIsVisits(ids, start, accounts, i);
    CountIsVisits(ids, start, accounts, j);
    VisitsDifferByOne(start, |accounts|, |ids|, i, j);
  }

  // ------------------------------------------------------------------------ campaigns ---

  function Actors(actions: seq<(int, int)>): (r: seq<int>)
    ensures |r| == |actions|
  {
    seq(|actions|, i requires 0 <= i < |actions| => actions[i].0)
  }

  /** The account used last before the `i`-th tick. */
  function LastBefore(ticks: seq<Campaigns.Scene>, last: Option<int>, i: nat): Option<int>
    requires i <= |ticks|
  {
    if i == 0 then last else Campaigns.Tick(ticks[i - 1]).campaign.lastAccountId
  }

  /** Campaign ticks over a pool in which the same accounts are usable each time; each tick finds the
      last-used account the one before left. Nothing answers with a warning. */
  ghost predicate Steady(ticks: seq<Campaigns.Scene>, usable: set<int>, last: Option<int>) {
    forall i :: 0 <= i < |ticks| ==>
      && Pool.UsableSet(ticks[i].accounts, ticks[i].now, ticks[i].minDelay) == usable
      && ticks[i].campaign.lastAccountId == LastBefore(ticks, last, i)
      && NoWarning(ticks[i])
  }

  ghost predicate NoWarning(x: Campaigns.Scene) {
    forall k: nat :: !x.execute(k).reply.Warned?
  }

  /** How many actions a tick records. */
  function ActionsOf(x: Campaigns.Scene): nat {
    |Campaigns.Tick(x).summary.actions|
  }

  /** The accounts of all recorded actions, in order. */
  function Recorded(ticks: seq<Campaigns.Scene>): seq<int> {
    if ticks == [] then [] else Actors(Campaigns.Tick(ticks[0]).summary.actions) + Recorded(ticks[1..])
  }

  lemma {:induction false} RecordedIsPrefix(execute: Campaigns.Executor, order: seq<int>, cids: seq<int>, k: nat)
    requires k <= |order| && k <= |cids| && forall i: nat :: !execute(i).reply.Warned?
    ensures Actors(Campaigns.Recorded(execute, order, cids, k)) == order[..k]
  {
    if k == 0 {
    } else {
      RecordedIsPrefix(execute, order, cids, k - 1);
      assert order[..k] == order[..k - 1] + [order[k - 1]];
    }
  }

  /** What a working tick reports, in terms of its plan. */
  lemma WorkingTick(x: Campaigns.Scene)
    requires Campaigns.Works(x)
    ensures var p, r := Campaigns.PlanOf(x), Campaigns.Tick(x);
      && p.order == Rotate(ById(Pool.UsableSet(x.accounts, x.now, x.minDelay)), x.campaign.lastAccountId)
      && p.attempts <= |p.order| && p.attempts <= |p.cids|
      && p.attempts == Pool.Made(Campaigns.Effects(x.execute), Min(|p.order|, |p.valid|))
      && r.summary.actions == Campaigns.Recorded(x.execute, p.order, p.cids, p.attempts)
      && r.campaign.lastAccountId == Campaigns.LastUsed(x.execute, p.order, x.campaign.lastAccountId, p.attempts)
  {
    hide Campaigns.TargetsAfter, Campaigns.StatusAfter, Campaigns.AccountsAfter, Campaigns.ContactsAfter,
      Campaigns.Recorded, Campaigns.LastUsed, Pool.Tally, Campaigns.Valid, Rotate, ById, Pool.UsableSet, Pool.Made,
        Campaigns.SkippedBy;
  }

  lemma IdleTick(x: Campaigns.Scene)
    requires !Campaigns.Works(x)
    ensures Campaigns.Tick(x).summary.actions == [] && Campaigns.Tick(x).campaign == x.campaign
  {
  }

  /** A tick without warnings serves a first part of the rotated order and remembers where it stopped. */
  lemma TickServes(x: Campaigns.Scene)
    requires NoWarning(x)
    ensures var order := Rotate(ById(Pool.UsableSet(x.accounts, x.now, x.minDelay)), x.campaign.lastAccountId);
      var m := ActionsOf(x);
      && m <= |order|
      && Actors(Campaigns.Tick(x).summary.actions) == order[..m]
      && Campaigns.Tick(x).campaign.lastAccountId == if m == 0 then x.campaign.lastAccountId else Some(order[m - 1])
  {
    hide ById, Rotate, Pool.UsableSet, Campaigns.Tick, Campaigns.PlanOf, Campaigns.Works;
    if !Campaigns.Works(x) {
      IdleTick(x);
    } else {
      WorkingTick(x);
      var p := Campaigns.PlanOf(x);
      RecordedIsPrefix(x.execute, p.order, p.cids, p.attempts);
      assert |Campaigns.Tick(x).summary.actions| == |p.order[..p.attempts]|;
    }
  }

  lemma SteadyRest(ticks: seq<Campaigns.Scene>, usable: set<int>, last: Option<int>)
    requires Steady(ticks, usable, last) && ticks != []
    ensures Steady(ticks[1..], usable, Campaigns.Tick(ticks[0]).campaign.lastAccountId)
  {
  }

  lemma SteadyFirst(ticks: seq<Campaigns.Scene>, usable: set<int>, last: Option<int>)
    requires Steady(ticks, usable, last) && ticks != []
    ensures NoWarning(ticks[0]) && ticks[0].campaign.lastAccountId == last
    ensures Pool.UsableSet(ticks[0].accounts, ticks[0].now, ticks[0].minDelay) == usable
  {
  }

  /** The recorded accounts of a steady run are the ring's, in the ring's order. */
  lemma {:induction false} RecordedWalks(ticks: seq<Campaigns.Scene>, usable: set<int>, last: Option<int>, k: nat)
    requires usable != {} && Steady(ticks, usable, last) && k < |Recorded(ticks)|
    ensures ById(usable) != []
      && Recorded(ticks)[k] == ById(usable)[Walk(StartOf(ById(usable), last), k, |ById(usable)|)]
    decreases |ticks|
  {
    hide Steady, ById, Rotate, Climbs, Campaigns.Tick, NoWarning, Pool.UsableSet, StartOf, Walk;
    var ids, x := ById(usable), ticks[0];
    Inhabited(usable);
    ByIdClimbs(usable);
    SteadyFirst(ticks, usable, last);
    SteadyRest(ticks, usable, last);
    TickServes(x);
    RotateIsRing(ids, last, 0);
    var m, part, rest := ActionsOf(x), Actors(Campaigns.Tick(x).summary.actions), Recorded(ticks[1..]);
    if k < m {
    } else {
      RecordedWalks(ticks[1..], usable, Campaigns.Tick(x).campaign.lastAccountId, k - m);
    }
    RingStep(ids, last, m, part, rest, k);
  }

  lemma Inhabited(usable: set<int>)
    requires usable != {}
    ensures ById(usable) != []
  {
    EmptyOrInhabited(usable);
    var x :| x in usable;
    assert x in ById(usable);
  }

  /** Stateless rotation refines a ring that remembers its place: over any run of campaign ticks without
      warnings in which the usable set stays the same n accounts, the k-th recorded action comes from the
      (start + k) mod n-th of them, however many targets each tick finds ... */
  lemma CampaignTicksWalkTheRing(ticks: seq<Campaigns.Scene>, usable: set<int>, last: Option<int>, k: nat)
    requires usable != {} && Steady(ticks, usable, last)
    ensures k < |Recorded(ticks)| ==>
      var ids := ById(usable);
      ids != [] && 0 <= (StartOf(ids, last) + k) % |ids| < |ids|
      && Recorded(ticks)[k] == ids[(StartOf(ids, last) + k) % |ids|]
  {
    hide Steady, Recorded, Walk, StartOf, ById;
    if k < |Recorded(ticks)| {
      RecordedWalks(ticks, usable, last, k);
      WalkIsModulo(StartOf(ById(usable), last), k, |ById(usable)|);
    }
  }

  /** ... so the accounts' action counts differ by at most one. */
  lemma CampaignTicksAreFair(ticks: seq<Campaigns.Scene>, usable: set<int>, last: Option<int>, a: int, b: int)
    requires Steady(ticks, usable, last) && a in usable && b in usable
    ensures CountOf(Recorded(ticks), a) <= CountOf(Recorded(ticks), b) + 1
  {
    hide Steady, Recorded, CountOf, Climbs;
    var ids := ById(usable);
    Inhabited(usable);
    ByIdClimbs(usable);
    assert a in ids && b in ids;
    var i :| 0 <= i < |ids| && ids[i] == a;
    var j :| 0 <= j < |ids| && ids[j] == b;
    forall k | 0 <= k < |Recorded(ticks)| ensures Recorded(ticks)[k] == ids[Walk(StartOf(ids, last), k, |ids|)] {
      RecordedWalks(ticks, usable, last, k);
    }
    RingIsFair(ids, StartOf(ids, last), Recorded(ticks), i, j);
  }

  // --------------------------------------------------------------------------- sender ---

  function SenderLastBefore(ticks: seq<Sender.Scene>, last: Option<int>, i: nat): Option<int>
    requires i <= |ticks|
  {
    if i == 0 then last else Sender.Tick(ticks[i - 1]).job.lastAccountId
  }

  ghost predicate AllDelivered(x: Sender.Scene) {
    forall k: nat :: x.execute(k).outcome.Delivered?
  }

  /** Sender ticks over a pool in which the same accounts are usable each time, and every attempt succeeds. */
  ghost predicate SteadySending(ticks: seq<Sender.Scene>, usable: set<int>, last: Option<int>) {
    forall i :: 0 <= i < |ticks| ==>
      && Pool.UsableSet(ticks[i].accounts, ticks[i].now, ticks[i].minDelay) == usable
      && ticks[i].job.lastAccountId == SenderLastBefore(ticks, last, i)
      && AllDelivered(ticks[i])
  }

  function Sendings(ticks: seq<Sender.Scene>): seq<int> {
    if ticks == [] then [] else Actors(Sender.Tick(ticks[0]).summary.actions) + Sendings(ticks[1..])
  }

  lemma {:induction false} DeliveriesArePrefix(execute: Sender.Executor, order: seq<int>, cids: seq<int>, k: nat)
    requires k <= |order| && k <= |cids| && forall i: nat :: execute(i).outcome.Delivered?
    ensures Actors(Sender.Deliveries(execute, order, cids, k)) == order[..k]
  {
    if k == 0 {
    } else {
      DeliveriesArePrefix(execute, order, cids, k - 1);
      assert order[..k] == order[..k - 1] + [order[k - 1]];
    }
  }

  /** What a working tick reports, in terms of its plan. */
  lemma WorkingSender(x: Sender.Scene)
    requires Sender.Works(x)
    ensures var p, r := Sender.PlanOf(x), Sender.Tick(x);
      && p.order == Rotate(ById(Pool.UsableSet(x.accounts, x.now, x.minDelay)), x.job.lastAccountId)
      && p.attempts <= |p.order| && p.attempts <= |p.cids|
      && r.summary.actions == Sender.Deliveries(x.execute, p.order, p.cids, p.attempts)
      && r.job.lastAccountId == Sender.LastUsed(x.execute, p.order, x.job.lastAccountId, p.attempts)
  {
    hide Sender.TargetsAfter, Sender.StatusAfter, Sender.AccountsAfter, Sender.ContactsAfter, Sender.Deliveries,
      Sender.LastUsed, Pool.Tally, Sender.Valid, Rotate, ById, Pool.UsableSet, Pool.Made, Sender.QueuedSet,
        Sender.ReachableSet;
  }

  lemma IdleSender(x: Sender.Scene)
    requires !Sender.Works(x)
    ensures Sender.Tick(x).summary.actions == [] && Sender.Tick(x).job == x.job
  {
  }

  lemma SenderTickServes(x: Sender.Scene)
    requires AllDelivered(x)
    ensures var order := Rotate(ById(Pool.UsableSet(x.accounts, x.now, x.minDelay)), x.job.lastAccountId);
      var m := |Sender.Tick(x).summary.actions|;
      && m <= |order|
      && Actors(Sender.Tick(x).summary.actions) == order[..m]
      && Sender.Tick(x).job.lastAccountId == if m == 0 then x.job.lastAccountId else Some(order[m - 1])
  {
    hide ById, Rotate, Pool.UsableSet, Sender.Tick, Sender.PlanOf, Sender.Works;
    if !Sender.Works(x) {
      IdleSender(x);
    } else {
      WorkingSender(x);
      var p := Sender.PlanOf(x);
      DeliveriesArePrefix(x.execute, p.order, p.cids, p.attempts);
      assert |Sender.Tick(x).summary.actions| == |p.order[..p.attempts]|;
    }
  }

  lemma SteadySendingFirst(ticks: seq<Sender.Scene>, usable: set<int>, last: Option<int>)
    requires SteadySending(ticks, usable, last) && ticks != []
    ensures AllDelivered(ticks[0]) && ticks[0].job.lastAccountId == last
    ensures Pool.UsableSet(ticks[0].accounts, ticks[0].now, ticks[0].minDelay) == usable
    ensures SteadySending(ticks[1..], usable, Sender.Tick(ticks[0]).job.lastAccountId)
  {
  }

  lemma {:induction false} SendingsWalk(ticks: seq<Sender.Scene>, usable: set<int>, last: Option<int>, k: nat)
    requires usable != {} && SteadySending(ticks, usable, last) && k < |Sendings(ticks)|
    ensures ById(usable) != []
      && Sendings(ticks)[k] == ById(usable)[Walk(StartOf(ById(usable), last), k, |ById(usable)|)]
    decreases |ticks|
  {
    hide SteadySending, ById, Rotate, Climbs, Sender.Tick, AllDelivered, Pool.UsableSet, StartOf, Walk;
    var ids, x := ById(usable), ticks[0];
    Inhabited(usable);
    ByIdClimbs(usable);
    SteadySendingFirst(ticks, usable, last);
    SenderTickServes(x);
    RotateIsRing(ids, last, 0);
    var m, part, rest := |Sender.Tick(x).summary.actions|, Actors(Sender.Tick(x).summary.actions), Sendings(ticks[1..]);
    if k < m {
    } else {
      SendingsWalk(ticks[1..], usable, Sender.Tick(x).job.lastAccountId, k - m);
    }
    RingStep(ids, last, m, part, rest, k);
  }

  /** The same refinement for sender ticks in which every attempt is delivered. */
  lemma SenderTicksWalkTheRing(ticks: seq<Sender.Scene>, usable: set<int>, last: Option<int>, k: nat)
    requires usable != {} && SteadySending(ticks, usable, last)
    ensures k < |Sendings(ticks)| ==>
      var ids := ById(usable);
      ids != [] && 0 <= (StartOf(ids, last) + k) % |ids| < |ids|
      && Sendings(ticks)[k] == ids[(StartOf(ids, last) + k) % |ids|]
  {
    hide SteadySending, Sendings, Walk, StartOf, ById;
    if k < |Sendings(ticks)| {
      SendingsWalk(ticks, usable, last, k);
      WalkIsModulo(StartOf(ById(usable), last), k, |ById(usable)|);
    }
  }

  lemma SenderTicksAreFair(ticks: seq<Sender.Scene>, usable: set<int>, last: Option<int>, a: int, b: int)
    requires SteadySending(ticks, usable, last) && a in usable && b in usable
    ensures CountOf(Sendings(ticks), a) <= CountOf(Sendings(ticks), b) + 1
  {
    hide SteadySending, Sendings, CountOf, Climbs;
    var ids := ById(usable);
    Inhabited(usable);
    ByIdClimbs(usable);
    assert a in ids && b in ids;
    var i :| 0 <= i < |ids| && ids[i] == a;
    var j :| 0 <= j < |ids| && ids[j] == b;
    forall k | 0 <= k < |Sendings(ticks)| ensures Sendings(ticks)[k] == ids[Walk(StartOf(ids, last), k, |ids|)] {
      SendingsWalk(ticks, usable, last, k);
    }
    RingIsFair(ids, StartOf(ids, last), Sendings(ticks), i, j);
  }

  // -------------------------------------------------------------- the same account again ---

  /** The last-used account stands last in the order, and nowhere else. */
  lemma LastComesLast(ids: seq<int>, last: Option<int>, k: nat)
    requires Climbs(ids) && k < |ids| && last.Some? && last.value in ids
    ensures |Rotate(ids, last)| == |ids|
    ensures Rotate(ids, last)[k] == last.value <==> k == |ids| - 1
  {
    hide Climbs, Rotate, Walk;
    RotateIsRing(ids, last, k);
    WalkLessThanRound(StartOf(ids, last), k, |ids|);
    ClimbsIsDistinct(ids);
    hide Distinct;
    if Rotate(ids, last)[k] == last.value {
      OnePlace(ids, Walk(StartOf(ids, last), k, |ids|), IndexOf(last.value, ids));
    }
  }

  /** The first delivery among `k` attempts. */
  lemma {:induction false} FirstDelivery(execute: Sender.Executor, order: seq<int>, cids: seq<int>, k: nat, first: nat)
    requires k <= |order| && k <= |cids| && first < k && execute(first).outcome.Delivered?
    requires forall i :: 0 <= i < first ==> !execute(i).outcome.Delivered?
    ensures var r := Sender.Deliveries(execute, order, cids, k); r != [] && r[0].0 == order[first]
  {
    if first < k - 1 {
      FirstDelivery(execute, order, cids, k - 1, first);
    } else {
      NoDelivery(execute, order, cids, k - 1);
    }
  }

  lemma {:induction false} NoDelivery(execute: Sender.Executor, order: seq<int>, cids: seq<int>, k: nat)
    requires forall i :: 0 <= i < k ==> !execute(i).outcome.Delivered?
    ensures Sender.Deliveries(execute, order, cids, k) == []
  {
    if k == 0 {
    } else {
      NoDelivery(execute, order, cids, k - 1);
    }
  }

  lemma {:induction false} SomeDelivery(execute: Sender.Executor, order: seq<int>, cids: seq<int>, k: nat)
      returns (first: nat)
    requires Sender.Deliveries(execute, order, cids, k) != []
    ensures first < k && execute(first).outcome.Delivered?
      && forall i :: 0 <= i < first ==> !execute(i).outcome.Delivered?
  {
    if k > 1 && Sender.Deliveries(execute, order, cids, k - 1) != [] {
      first := SomeDelivery(execute, order, cids, k - 1);
    } else {
      first := 0;
      while first < k && !execute(first).outcome.Delivered?
        invariant first <= k && forall i :: 0 <= i < first ==> !execute(i).outcome.Delivered?
      {
        first := first + 1;
      }
      if first == k {
        NoDelivery(execute, order, cids, k);
      }
    }
  }

  /** Exactly when a sender tick sends again from the account that sent last: that account is usable and
      every other usable account was tried first without a delivery. Plain failures are not remembered, so
      consecutive sends may come from one account. */
  lemma SameSenderAgain(x: Sender.Scene)
    requires x.job.lastAccountId.Some?
    ensures Sender.Tick(x).summary.actions != [] ==>
      var usable := Pool.UsableSet(x.accounts, x.now, x.minDelay);
      (Sender.Tick(x).summary.actions[0].0 == x.job.lastAccountId.value
       <==> x.job.lastAccountId.value in usable
            && forall k :: 0 <= k < |usable| - 1 ==> !x.execute(k).outcome.Delivered?)
  {
    if Sender.Tick(x).summary.actions != [] {
      var usable, last := Pool.UsableSet(x.accounts, x.now, x.minDelay), x.job.lastAccountId;
      var ids, p := ById(usable), Sender.PlanOf(x);
      hide Pool.UsableSet, Rotate, Climbs, ById, Sender.Tick, Sender.PlanOf, Sender.Works;
      SomeActionWorks(x);
      WorkingSender(x);
      ByIdClimbs(usable);
      var first := SomeDelivery(x.execute, p.order, p.cids, p.attempts);
      FirstDelivery(x.execute, p.order, p.cids, p.attempts, first);
      RotateKeepsAll(ids, last);
      SameSize(ids, p.order);
      if last.value in usable {
        LastComesLast(ids, last, first);
      } else {
        NeverGiven(ids, p.order, first, last.value);
      }
    }
  }

  /** The contact of the `k`-th reachable target has nothing to send to. */
  predicate Unaddressed(x: Sender.Scene, k: nat)
    requires k < |Sender.PlanOf(x).cids|
  {
    var c := Sender.PlanOf(x).cids[k];
    c in x.contacts && SendTargets.SendIdentifier(x.contacts[c]).None?
  }

  /** The tick sends, and first from the account that sent last. */
  ghost predicate SendsAgain(x: Sender.Scene) {
    Sender.Tick(x).summary.actions != [] && Some(Sender.Tick(x).summary.actions[0].0) == x.job.lastAccountId
  }

  /** The last account is usable, and its turn, the last one, comes. */
  predicate TurnComes(x: Sender.Scene) {
    var usable := Pool.UsableSet(x.accounts, x.now, x.minDelay);
    && Sender.Works(x) && x.job.lastAccountId.Some? && x.job.lastAccountId.value in usable
    && |usable| <= |Sender.PlanOf(x).cids|
  }

  /** By the answers, with no premise on them: a tick sends first from the account that sent last if and only if
      that account's turn comes, all the turns before it are plain failures, and it delivers. */
  lemma SameSenderByAnswers(x: Sender.Scene)
    ensures SendsAgain(x)
       <==> TurnComes(x) && FirstDelivered(x, |Pool.UsableSet(x.accounts, x.now, x.minDelay)| - 1)
  {
    hide Sender.Tick, Sender.PlanOf, Sender.Works, Pool.UsableSet;
    var n := |Pool.UsableSet(x.accounts, x.now, x.minDelay)|;
    if SendsAgain(x) {
      SameSenderAgain(x);
      DeliveryCameBefore(x);
      SomeActionWorks(x);
      var first: nat :| first < Sender.PlanOf(x).attempts && first < n && FirstDelivered(x, first);
      assert first == n - 1;
    }
    if TurnComes(x) && FirstDelivered(x, n - 1) {
      TurnDelivers(x, n - 1);
      SameSenderAgain(x);
    }
  }

  lemma TurnDelivers(x: Sender.Scene, k: nat)
    requires Sender.Works(x) && |Pool.UsableSet(x.accounts, x.now, x.minDelay)| == k + 1
    requires k < |Sender.PlanOf(x).cids| && FirstDelivered(x, k)
    ensures Sender.Tick(x).summary.actions != []
  {
    hide Sender.Tick, Sender.PlanOf, Sender.Works, Pool.UsableSet, Pool.Made, Rotate, ById;
    var p, effects := Sender.PlanOf(x), Sender.Effects(x.execute);
    WorkingSender(x);
    OrderSize(x);
    PlanPairs(x);
    SenderLaws.AttemptsMade(x);
    Pool.MadeUpTo(effects, Min(|p.order|, |p.valid|), k + 1);
    FirstDelivery(x.execute, p.order, p.cids, p.attempts, k);
  }

  lemma PlanPairs(x: Sender.Scene)
    ensures |Sender.PlanOf(x).cids| == |Sender.PlanOf(x).valid|
  {
  }

  /** The engine answers with a plain failure on a contact without an identifier. It may do so on others too: a
      warning without a text counts as one. */
  ghost predicate MissingFails(x: Sender.Scene) {
    forall k: nat :: k < |Sender.PlanOf(x).cids| && Unaddressed(x, k) ==> x.execute(k).outcome.Unreached?
  }

  /** The last account's turn comes, at a target that can be addressed. */
  predicate TurnCanSend(x: Sender.Scene) {
    TurnComes(x) && !Unaddressed(x, |Pool.UsableSet(x.accounts, x.now, x.minDelay)| - 1)
  }

  /** Before the tick: some answers of the engine make it send again from the account that sent last, if and
      only if that account's turn comes at a target that can be addressed. */
  lemma SameSenderPossible(x: Sender.Scene)
    ensures (exists e: Sender.Executor :: MissingFails(x.(execute := e)) && SendsAgain(x.(execute := e)))
        <==> TurnCanSend(x)
  {
    hide Sender.Tick, Sender.PlanOf, Sender.Works, Pool.UsableSet, Unaddressed, SendsAgain, MissingFails;
    if e: Sender.Executor :| MissingFails(x.(execute := e)) && SendsAgain(x.(execute := e)) {
      AgainCanSend(x.(execute := e));
      PlanIgnoresAnswers(x, e);
    }
    if TurnCanSend(x) {
      var n := |Pool.UsableSet(x.accounts, x.now, x.minDelay)|;
      PlanIgnoresAnswers(x, OnlyAt(n - 1));
      OnlyTurnDelivers(x.(execute := OnlyAt(n - 1)));
    }
  }

  /** Attempt `n` is delivered, every other one a plain failure. */
  function OnlyAt(n: nat): Sender.Executor {
    (k: nat) => Sender.Execution(if k == n then Sender.Delivered else Sender.Unreached, false)
  }

  lemma PlanIgnoresAnswers(x: Sender.Scene, e: Sender.Executor)
    ensures TurnCanSend(x.(execute := e)) == TurnCanSend(x)
  {
    var y := x.(execute := e);
    hide Sender.Valid, Sender.TickOrder, Pool.UsableSet, SendTargets.SendIdentifier;
    assert Sender.PlanOf(y).cids == Sender.PlanOf(x).cids;
    assert forall k: nat :: k < |Sender.PlanOf(x).cids| ==> Unaddressed(y, k) == Unaddressed(x, k);
  }

  lemma AgainCanSend(x: Sender.Scene)
    requires MissingFails(x) && SendsAgain(x)
    ensures TurnCanSend(x)
  {
    hide Sender.Tick, Sender.PlanOf, Sender.Works, Pool.UsableSet, Unaddressed, SendsAgain;
    SameSenderByAnswers(x);
  }

  lemma OnlyTurnDelivers(x: Sender.Scene)
    requires TurnCanSend(x) && x.execute == OnlyAt(|Pool.UsableSet(x.accounts, x.now, x.minDelay)| - 1)
    ensures MissingFails(x) && SendsAgain(x)
  {
    hide Sender.Tick, Sender.PlanOf, Sender.Works, Pool.UsableSet, Unaddressed, SendsAgain;
    SameSenderByAnswers(x);
  }

  lemma SomeActionWorks(x: Sender.Scene)
    requires Sender.Tick(x).summary.actions != []
    ensures Sender.Works(x)
  {
    hide Sender.Works, Sender.PlanOf;
  }

  lemma OrderSize(x: Sender.Scene)
    requires Sender.Works(x)
    ensures |Sender.PlanOf(x).order| == |Pool.UsableSet(x.accounts, x.now, x.minDelay)|
  {
    Pool.OrderIsUsable(x.accounts, x.now, x.minDelay, x.job.lastAccountId);
  }

  /** Attempt `k` delivers, and the ones before it are plain failures. */
  ghost predicate FirstDelivered(x: Sender.Scene, k: nat) {
    x.execute(k).outcome.Delivered? && forall i :: 0 <= i < k ==> x.execute(i).outcome.Unreached?
  }

  /** A tick that sends anything has a first delivery, and only plain failures before it. */
  lemma DeliveryCameBefore(x: Sender.Scene)
    requires Sender.Tick(x).summary.actions != []
    ensures var p := Sender.PlanOf(x);
      p.attempts <= |p.cids| && |p.order| == |Pool.UsableSet(x.accounts, x.now, x.minDelay)|
      && exists first: nat :: first < p.attempts && first < |p.order| && FirstDelivered(x, first)
  {
    hide Sender.Tick, Sender.PlanOf, Sender.Works, Rotate, ById, Pool.UsableSet, Sender.Effects;
    SomeActionWorks(x);
    WorkingSender(x);
    OrderSize(x);
    var p := Sender.PlanOf(x);
    var first := SomeDelivery(x.execute, p.order, p.cids, p.attempts);
    SenderLaws.OnlyLastWarned(x);
    assert FirstDelivered(x, first);
  }

  lemma SameSize(a: seq<int>, b: seq<int>)
    requires multiset(a) == multiset(b)
    ensures |a| == |b|
  {
    SameCounts(a, b);
  }

  lemma NeverGiven(ids: seq<int>, order: seq<int>, i: nat, a: int)
    requires multiset(order) == multiset(ids) && i < |order| && a !in ids
    ensures order[i] != a
  {
    SameCounts(ids, order);
    assert order[i] in order;
  }

  lemma SameCounts(a: seq<int>, b: seq<int>)
    requires multiset(a) == multiset(b)
    ensures |a| == |b| && forall x :: x in a <==> x in b
  {
    assert |multiset(a)| == |a| && |multiset(b)| == |b|;
    forall x ensures x in a <==> x in b {
      assert x in a <==> x in multiset(a);
      assert x in b <==> x in multiset(b);
    }
  }

  lemma {:induction false} FirstRecorded(execute: Campaigns.Executor, order: seq<int>, cids: seq<int>, k: nat)
    requires 0 < k <= |order| && k <= |cids| && !execute(0).reply.Warned?
    ensures var r := Campaigns.Recorded(execute, order, cids, k); r != [] && r[0].0 == order[0]
  {
    if k <= 1 {
    } else {
      FirstRecorded(execute, order, cids, k - 1);
    }
  }

  /** Campaigns record failures too, so a campaign acts twice in a row from one account only when that is the
      only usable one. */
  lemma CampaignNeverRepeats(x: Campaigns.Scene)
    requires x.campaign.lastAccountId.Some?
    ensures Campaigns.Tick(x).summary.actions != [] ==>
      (Campaigns.Tick(x).summary.actions[0].0 == x.campaign.lastAccountId.value
       <==> Pool.UsableSet(x.accounts, x.now, x.minDelay) == {x.campaign.lastAccountId.value})
  {
    if Campaigns.Tick(x).summary.actions != [] {
      var usable, last := Pool.UsableSet(x.accounts, x.now, x.minDelay), x.campaign.lastAccountId;
      var ids, p := ById(usable), Campaigns.PlanOf(x);
      hide Pool.UsableSet, Rotate, Climbs, ById, Campaigns.Tick, Campaigns.PlanOf, Campaigns.Works;
      RecordingWorks(x);
      WorkingTick(x);
      WarnedFirst(x);
      ByIdClimbs(usable);
      FirstRecorded(x.execute, p.order, p.cids, p.attempts);
      RotateKeepsAll(ids, last);
      SameSize(ids, p.order);
      if last.value in usable {
        LastComesLast(ids, last, 0);
        OneOnly(usable, last.value);
      } else {
        NeverGiven(ids, p.order, 0, last.value);
      }
    }
  }

  lemma OneOnly(s: set<int>, a: int)
    requires a in s
    ensures |s| == 1 <==> s == {a}
  {
    if |s| == 1 {
      assert |s - {a}| == 0;
      assert s == {a} + (s - {a});
    }
  }

  lemma RecordingWorks(x: Campaigns.Scene)
    requires Campaigns.Tick(x).summary.actions != []
    ensures Campaigns.Works(x)
  {
    hide Campaigns.Works, Campaigns.PlanOf;
  }

  /** A tick that recorded anything was not warned at its first attempt. */
  lemma WarnedFirst(x: Campaigns.Scene)
    requires Campaigns.Tick(x).summary.actions != []
    ensures Campaigns.PlanOf(x).attempts > 0 && !x.execute(0).reply.Warned?
  {
    hide Campaigns.Tick, Campaigns.PlanOf, Campaigns.Works, Rotate, ById, Pool.UsableSet, Pool.Made, Campaigns.Effects;
    RecordingWorks(x);
    WorkingTick(x);
    CampaignLaws.OnlyLastWarned(x);
  }
}
