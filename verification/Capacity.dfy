/** Who may act, over the rows' own fields, and that the daily cap is not only kept but reached. */
module Capacity {
  import opened Core
  import opened Ordering
  import opened Models
  import Pacing
  import Pool
  import opened Sender
  import SenderLaws
  import Campaigns
  import Destinations

  /** The account may act now. */
  ghost predicate MayAct(accounts: Accounts, now: Time, minDelay: int, id: int) {
    && id in accounts && accounts[id].status.Active? && accounts[id].hasSession
    && accounts[id].actionsToday < accounts[id].dailyCap
    && (accounts[id].lastActionAt.None? || now - accounts[id].lastActionAt.value >= minDelay * 1_000_000)
  }

  lemma UsableIs(accounts: Accounts, now: Time, minDelay: int, id: int)
    ensures id in Pool.UsableSet(accounts, now, minDelay) <==> MayAct(accounts, now, minDelay, id)
  {
  }

  /** The accounts a tick may take, exactly: active, logged in, below their cap, and idle for the delay, in whole
      microseconds. */
  lemma InOrder(accounts: Accounts, now: Time, minDelay: int, last: Option<int>, id: int)
    ensures id in Pool.Order(accounts, now, minDelay, last) <==>
      && id in accounts && accounts[id].status.Active? && accounts[id].hasSession
      && accounts[id].actionsToday < accounts[id].dailyCap
      && (accounts[id].lastActionAt.None? || now - accounts[id].lastActionAt.value >= minDelay * 1_000_000)
  {
    UsableIs(accounts, now, minDelay, id);
    Pool.OrderIsUsable(accounts, now, minDelay, last);
    hide Pool.Order, Distinct, Pool.UsableSet;
    var order := Pool.Order(accounts, now, minDelay, last);
    if id in order {
      var i :| 0 <= i < |order| && order[i] == id;
      assert Pool.Usable(accounts[order[i]], now, minDelay);
    }
  }

  lemma OrderIsEmpty(accounts: Accounts, now: Time, minDelay: int, last: Option<int>)
    ensures Pool.Order(accounts, now, minDelay, last) == [] <==> forall id :: !MayAct(accounts, now, minDelay, id)
  {
    hide Pool.Order;
    var order := Pool.Order(accounts, now, minDelay, last);
    forall id ensures id in order <==> MayAct(accounts, now, minDelay, id) {
      InOrder(accounts, now, minDelay, last, id);
    }
    hide MayAct;
    if order != [] {
      assert order[0] in order && MayAct(accounts, now, minDelay, order[0]);
    }
    if id :| MayAct(accounts, now, minDelay, id) {
      assert id in order;
    }
  }

  /** When a sender tick does anything: a running job, within its hours, and some account that may act. */
  lemma SenderWorks(x: Scene)
    ensures Works(x) <==> x.job.status.Running? && Pacing.InWindow(x.now, x.job.activeStart, x.job.activeEnd)
                          && exists id :: MayAct(x.accounts, x.now, x.minDelay, id)
    ensures !Works(x) ==> Tick(x).accounts == x.accounts && Tick(x).contacts == x.contacts && Tick(x).job == x.job
                          && Tick(x).summary == Summary(0, 0, 0, false, [])
  {
    hide Pool.Order, MayAct, PlanOf;
    OrderIsEmpty(x.accounts, x.now, x.minDelay, x.job.lastAccountId);
  }

  /** When a campaign tick does anything: hours do not matter. */
  lemma CampaignWorks(x: Campaigns.Scene)
    ensures Campaigns.Works(x) <==> x.campaign.status.Running? && exists id :: MayAct(x.accounts, x.now, x.minDelay, id)
    ensures !Campaigns.Works(x) ==>
      var r := Campaigns.Tick(x);
      r.accounts == x.accounts && r.contacts == x.contacts && r.campaign == x.campaign
      && r.summary == Campaigns.Summary(0, 0, 0, 0, false, [])
  {
    hide Pool.Order, MayAct, Campaigns.PlanOf;
    OrderIsEmpty(x.accounts, x.now, x.minDelay, x.campaign.lastAccountId);
  }

  /** When an add tick does anything: the group must be known. Its accounts come in the order of their ids, and its
      memberships too. */
  lemma AddWorks(x: Destinations.Scene)
    ensures Destinations.Works(x) <==> x.destination.resolved && exists id :: MayAct(x.accounts, x.now, x.minDelay, id)
    ensures !Destinations.Works(x) ==>
      var r := Destinations.Tick(x);
      r.accounts == x.accounts && r.destination == x.destination
      && r.summary == Destinations.Summary(0, 0, 0, false, [])
    ensures Climbs(Destinations.TickOrder(x)) && Climbs(Destinations.Queue(x.destination.memberships))
  {
    OrderIsEmpty(x.accounts, x.now, x.minDelay, None);
    var usable := Pool.UsableSet(x.accounts, x.now, x.minDelay);
    ByIdClimbs(usable);
    ByIdClimbs(Destinations.PendingSet(x.destination.memberships));
    Pacing.SortedKeepsAscending(ById(usable));
    hide Pool.UsableSet, ById, MayAct;
  }

  /** The targets of a sender tick come in the order of their ids. */
  lemma TargetsByIdOrder(targets: map<int, SendTarget>, contacts: Contacts)
    ensures Climbs(Valid(targets, contacts))
  {
    var queued := QueuedSet(targets);
    OrderByOrders(queued, Self(queued));
    FilterOrdered(ById(queued), ReachableSet(targets, contacts), Self(queued));
    var valid := Valid(targets, contacts);
    forall i, j | 0 <= i < j < |valid| ensures valid[i] < valid[j] {
      assert valid[i] in valid && valid[j] in valid;
      assert Before(Self(queued), valid[i], valid[j]);
    }
  }

  /** A tick that finds the job running, within its hours, more reachable targets than accounts, and delivers
      everything. */
  ghost predicate Busy(x: Scene) {
    && x.job.status.Running? && Pacing.InWindow(x.now, x.job.activeStart, x.job.activeEnd)
    && |Valid(x.job.targets, x.contacts)| >= |x.accounts| && Valid(x.job.targets, x.contacts) != []
    && forall k: nat :: x.execute(k).outcome.Delivered?
  }

  /** The account is active and logged in, and has been idle for the delay. */
  ghost predicate Fit(a: Account, now: Time, minDelay: int) {
    a.status.Active? && a.hasSession && (a.lastActionAt.None? || now - a.lastActionAt.value >= minDelay * 1_000_000)
  }

  ghost predicate FitBelowCap(a: Account, now: Time, minDelay: int) {
    a.actionsToday < a.dailyCap ==> Fit(a, now, minDelay)
  }

  lemma AllTried(x: Scene)
    requires Busy(x) && TickOrder(x.accounts, x.job, x.now, x.minDelay) != []
    ensures Works(x) && PlanOf(x).attempts == |PlanOf(x).order| && forall k: nat :: x.execute(k).outcome.Delivered?
  {
    hide Valid, Pool.Order, Effects, Pool.Made, Fits;
    var p := PlanOf(x);
    SenderLaws.AttemptsMade(x);
    OrderFits(x);
    assert forall k: nat :: !Effects(x.execute)(k).Quarantine? by { NoneQuarantined(x); }
    Pool.MadeStops(Effects(x.execute), Min(|p.order|, |p.valid|));
  }

  lemma NoneQuarantined(x: Scene)
    requires Busy(x)
    ensures forall k: nat :: !Effects(x.execute)(k).Quarantine?
  {
  }

  lemma OrderFits(x: Scene)
    requires Busy(x)
    ensures |PlanOf(x).order| <= |PlanOf(x).valid|
  {
    Pool.OrderIsUsable(x.accounts, x.now, x.minDelay, x.job.lastAccountId);
    var usable := Pool.UsableSet(x.accounts, x.now, x.minDelay);
    SubsetSize(usable, x.accounts.Keys);
    hide Valid, Pool.Order, Pool.UsableSet, Pool.Made;
  }

  lemma SubsetSize(a: set<int>, b: set<int>)
    requires a <= b
    ensures |a| <= |b|
  {
    assert b == a + (b - a);
  }

  /** One busy tick charges an account that is below its cap and fit, once, and leaves one at its cap alone. */
  lemma BusyTick(x: Scene, id: int)
    requires Busy(x) && id in x.accounts && FitBelowCap(x.accounts[id], x.now, x.minDelay)
    ensures id in Tick(x).accounts
    ensures var a := x.accounts[id];
      Tick(x).accounts[id] == if a.actionsToday < a.dailyCap
                              then a.(actionsToday := a.actionsToday + 1, lastActionAt := Some(x.now)) else a
  {
    hide Pool.Order, Valid, Tick, PlanOf, Works, Busy;
    var order := TickOrder(x.accounts, x.job, x.now, x.minDelay);
    OrderInHours(x);
    InOrder(x.accounts, x.now, x.minDelay, x.job.lastAccountId, id);
    if order == [] {
      IdleTick(x);
    } else {
      AllTried(x);
      TriedAccount(x, id);
    }
  }

  lemma OrderInHours(x: Scene)
    requires Busy(x)
    ensures TickOrder(x.accounts, x.job, x.now, x.minDelay)
         == Pool.Order(x.accounts, x.now, x.minDelay, x.job.lastAccountId)
  {
  }

  lemma IdleTick(x: Scene)
    requires TickOrder(x.accounts, x.job, x.now, x.minDelay) == []
    ensures Tick(x).accounts == x.accounts
  {
    hide TickOrder, PlanOf;
  }

  lemma TriedAccount(x: Scene, id: int)
    requires Works(x) && PlanOf(x).attempts == |PlanOf(x).order| && id in x.accounts
    requires forall k: nat :: x.execute(k).outcome.Delivered?
    ensures id in Tick(x).accounts
    ensures var a := x.accounts[id];
      Tick(x).accounts[id] == if id in TickOrder(x.accounts, x.job, x.now, x.minDelay)
                              then a.(actionsToday := a.actionsToday + 1, lastActionAt := Some(x.now)) else a
  {
    hide Tick, Works, PlanOf, Fits, TargetsAfter, StatusAfter, Effects, TickOrder, Distinct, Pool.Tally,
      SenderLaws.SkippedBy;
    SenderLaws.WorkingTick(x);
    PlanTakesOrder(x);
    var p := PlanOf(x);
    PlanIsSound(x);
    assert p.order[..|p.order|] == p.order;
    MarkedAt(x.accounts, p.order, Pool.Stamp(Effects(x.execute), x.now), p.attempts, id);
    if id in p.order {
      var k :| 0 <= k < |p.order| && p.order[k] == id;
      SenderLaws.PlannedAccount(x, p, k);
    }
  }

  lemma PlanTakesOrder(x: Scene)
    ensures PlanOf(x).order == TickOrder(x.accounts, x.job, x.now, x.minDelay)
  {
  }

  lemma PlanIsSound(x: Scene)
    ensures Fits(PlanOf(x), x) && Distinct(PlanOf(x).order)
  {
  }

  // ------------------------------------------------------------------- runs of ticks ---

  /** Busy ticks in a row: each finds the accounts and the job as the one before left them, at least its minimum
      delay later. */
  ghost predicate BusyRun(ticks: seq<Scene>)
    decreases |ticks|
  {
    |ticks| > 0 ==>
      && Busy(ticks[0])
      && (|ticks| > 1 ==>
            && ticks[1].accounts == Tick(ticks[0]).accounts && ticks[1].job == Tick(ticks[0]).job
            && ticks[1].now - ticks[0].now >= ticks[1].minDelay * 1_000_000)
      && BusyRun(ticks[1..])
  }

  function Least(a: int, b: int): int {
    if a <= b then a else b
  }

  /** The cap is reached: in a busy run every account that is fit at the start and within its cap is charged by every
      tick until its cap is full, so `n` ticks leave it at its count plus `n`, or at its cap. */
  lemma {:induction false} CapIsReached(ticks: seq<Scene>, id: int)
    requires ticks != [] && BusyRun(ticks) && id in ticks[0].accounts
    requires var a := ticks[0].accounts[id];
      FitBelowCap(a, ticks[0].now, ticks[0].minDelay) && a.actionsToday <= a.dailyCap
    ensures var a, later := ticks[0].accounts[id], Tick(ticks[|ticks| - 1]).accounts;
      id in later && later[id].actionsToday == Least(a.actionsToday + |ticks|, a.dailyCap)
    decreases |ticks|
  {
    hide Tick, Busy;
    BusyTick(ticks[0], id);
    if |ticks| > 1 {
      assert ticks[1..][0] == ticks[1] && ticks[1..][|ticks| - 2] == ticks[|ticks| - 1];
      NextIsFit(ticks[0], ticks[1], id);
      CapIsReached(ticks[1..], id);
    }
  }

  lemma NextIsFit(x: Scene, y: Scene, id: int)
    requires Busy(x) && id in x.accounts && FitBelowCap(x.accounts[id], x.now, x.minDelay)
    requires y.accounts == Tick(x).accounts && y.now - x.now >= y.minDelay * 1_000_000
    ensures id in y.accounts
    ensures FitBelowCap(y.accounts[id], y.now, y.minDelay)
  {
    hide Tick, Busy;
    BusyTick(x, id);
  }
}
