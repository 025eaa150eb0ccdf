/** The engines together: whole runs in which sender, campaign, add-member and warm-up ticks, warm-up
    commands and operators follow each other in any order over one account pool. Each event brings its
    own job, targets, contacts, clock and answers, so everything but the pool may change freely in between. */
module Outreach {
  import opened Core
  import opened Ordering
  import opened Models
  import opened Pool
  import Sender
  import Campaigns
  import Destinations
  import Warmup
  import WarmupLaws

  /** `OperatorAct` is anything that changes statuses and sessions but no pacing fields. */
  datatype Event =
    | SenderTick(job: Sender.Scene)
    | CampaignTick(campaign: Campaigns.Scene)
    | AddTick(adding: Destinations.Scene)
    | WarmupTick(warming: Warmup.Scene)
    | WarmupStart(pool: Accounts, run: WarmupRun, now: Time)
    | WarmupStop(pool: Accounts, run: WarmupRun)
    | OperatorAct(pool: Accounts, later: Accounts)

  /** The accounts an event finds and leaves. */
  function Found(e: Event): Accounts {
    match e
    case SenderTick(x) => x.accounts
    case CampaignTick(x) => x.accounts
    case AddTick(x) => x.accounts
    case WarmupTick(x) => x.accounts
    case WarmupStart(pool, _, _) => pool
    case WarmupStop(pool, _) => pool
    case OperatorAct(pool, _) => pool
  }

  function Left(e: Event): Accounts {
    match e
    case SenderTick(x) => Sender.Tick(x).accounts
    case CampaignTick(x) => Campaigns.Tick(x).accounts
    case AddTick(x) => Destinations.Tick(x).accounts
    case WarmupTick(x) => Warmup.Tick(x).accounts
    case WarmupStart(pool, run, now) =>
      Warmup.StartedAccounts(pool, run, ById(run.participants.Keys), now, |run.participants|)
    case WarmupStop(pool, run) => Warmup.StoppedAccounts(pool, run, ById(run.participants.Keys), |run.participants|)
    case OperatorAct(_, later) => later
  }

  predicate Paces(e: Event) {
    e.SenderTick? || e.CampaignTick? || e.AddTick?
  }

  /** The event ended with a warning that paused it. */
  predicate Warns(e: Event) {
    match e
    case SenderTick(x) => Sender.Tick(x).summary.paused
    case CampaignTick(x) => Campaigns.Tick(x).summary.paused
    case AddTick(x) => Destinations.Tick(x).summary.paused
    case _ => false
  }

  // -------------------------------------------------------------------- pacing ticks ---

  /** What a pacing tick does to the pool: `attempts` attempts on `order`. */
  datatype Beat = Beat(order: seq<int>, effects: Effects, now: Time, minDelay: int, attempts: nat)

  function BeatOf(e: Event): (b: Beat)
    requires Paces(e)
    ensures b.attempts <= |b.order|
  {
    match e
    case SenderTick(x) =>
      if Sender.Works(x) then
        Beat(Sender.PlanOf(x).order, Sender.Effects(x.execute), x.now, x.minDelay, Sender.PlanOf(x).attempts)
      else Beat([], Sender.Effects(x.execute), x.now, x.minDelay, 0)
    case CampaignTick(x) =>
      if Campaigns.Works(x) then
        Beat(Campaigns.PlanOf(x).order, Campaigns.Effects(x.execute), x.now, x.minDelay, Campaigns.PlanOf(x).attempts)
      else Beat([], Campaigns.Effects(x.execute), x.now, x.minDelay, 0)
    case AddTick(x) =>
      var effects := Destinations.Effects(x, Destinations.Queue(x.destination.memberships));
      if Destinations.Works(x)
      then Beat(Destinations.TickOrder(x), effects, x.now, x.minDelay, Destinations.Attempts(x))
      else Beat([], effects, x.now, x.minDelay, 0)
  }

  /** A tick's order is of usable accounts, each once; its attempts stop with the first warning. */
  ghost predicate BeatFits(b: Beat, accounts: Accounts, later: Accounts, warned: bool) {
    && b.attempts <= |b.order| && Distinct(b.order) && AllUsable(b.order, accounts, b.now, b.minDelay)
    && later == After(accounts, b.order, b.effects, b.now, b.attempts)
    && warned == Stopped(b.effects, b.attempts)
    && exists n: nat :: n <= |b.order| && b.attempts == Made(b.effects, n)
  }

  lemma NoBeat(accounts: Accounts, effects: Effects, now: Time, minDelay: int)
    ensures BeatFits(Beat([], effects, now, minDelay, 0), accounts, accounts, false)
  {
    assert Made(effects, 0) == 0;
  }

  lemma SenderBeat(x: Sender.Scene)
    ensures BeatFits(BeatOf(SenderTick(x)), x.accounts, Sender.Tick(x).accounts, Sender.Tick(x).summary.paused)
  {
    hide Distinct, AllUsable, Order, After, Stopped, Made, Sender.Valid, Sender.Fits, Sender.ContactsAfter,
      Sender.TargetsAfter, Sender.StatusAfter;
    if Sender.Works(x) {
      OrderIsUsable(x.accounts, x.now, x.minDelay, x.job.lastAccountId);
      var p := Sender.PlanOf(x);
      assert p.attempts == Made(Sender.Effects(x.execute), Min(|p.order|, |p.valid|));
    } else {
      NoBeat(x.accounts, Sender.Effects(x.execute), x.now, x.minDelay);
    }
  }

  lemma CampaignBeat(x: Campaigns.Scene)
    ensures BeatFits(BeatOf(CampaignTick(x)), x.accounts, Campaigns.Tick(x).accounts, Campaigns.Tick(x).summary.paused)
  {
    hide Distinct, AllUsable, Order, After, Stopped, Made, Campaigns.Valid, Campaigns.Fits, Campaigns.ContactsAfter,
      Campaigns.TargetsAfter, Campaigns.StatusAfter;
    if Campaigns.Works(x) {
      OrderIsUsable(x.accounts, x.now, x.minDelay, x.campaign.lastAccountId);
      var p := Campaigns.PlanOf(x);
      assert p.attempts == Made(Campaigns.Effects(x.execute), Min(|p.order|, |p.valid|));
    } else {
      NoBeat(x.accounts, Campaigns.Effects(x.execute), x.now, x.minDelay);
    }
  }

  /** An add tick reports a pause exactly when its last attempt was flooded. */
  lemma {:induction false} PausedMeans(x: Destinations.Scene, k: nat)
    requires forall i :: 0 <= i < k - 1 ==>
               !Destinations.Effects(x, Destinations.Queue(x.destination.memberships))(i).Quarantine?
    ensures Destinations.SummaryAfter(x, k).paused
         == Stopped(Destinations.Effects(x, Destinations.Queue(x.destination.memberships)), k)
  {
    hide Destinations.Queue, Destinations.TickOrder;
    if k == 0 {
    } else {
      PausedMeans(x, k - 1);
    }
  }

  lemma AddBeat(x: Destinations.Scene)
    ensures BeatFits(BeatOf(AddTick(x)), x.accounts, Destinations.Tick(x).accounts, Destinations.Tick(x).summary.paused)
  {
    var effects := Destinations.Effects(x, Destinations.Queue(x.destination.memberships));
    if Destinations.Works(x) {
      Destinations.OrderInPool(x);
      var n := Min(|Destinations.TickOrder(x)|, |Destinations.Queue(x.destination.memberships)|);
      MadeStops(effects, n);
      hide Destinations.Queue, Destinations.TickOrder, Destinations.SummaryAfter;
      PausedMeans(x, Destinations.Attempts(x));
    } else {
      NoBeat(x.accounts, effects, x.now, x.minDelay);
    }
  }

  lemma BeatOfFits(e: Event)
    requires Paces(e)
    ensures BeatFits(BeatOf(e), Found(e), Left(e), Warns(e))
  {
    hide BeatFits, BeatOf, Sender.Tick, Campaigns.Tick, Destinations.Tick;
    match e {
      case SenderTick(x) => SenderBeat(x);
      case CampaignTick(x) => CampaignBeat(x);
      case AddTick(x) => AddBeat(x);
    }
  }

  /** The actions an event charges. */
  function ChargesOf(e: Event): seq<ChargeEntry> {
    if Paces(e) then
      var b := BeatOf(e);
      Charges(b.order, b.effects, b.now, b.minDelay, b.attempts)
    else []
  }

  // ----------------------------------------------------------------------------- runs ---

  /** The pool after the events; each finds the pool as the event before left it. */
  function PoolAfter(start: Accounts, events: seq<Event>): Accounts {
    if events == [] then start else Left(events[|events| - 1])
  }

  ghost predicate Chained(start: Accounts, events: seq<Event>) {
    events == []
    || (var front, e := events[..|events| - 1], events[|events| - 1];
        && Chained(start, front) && Found(e) == PoolAfter(start, front)
        && (e.OperatorAct? ==> SamePacing(e.pool, e.later)))
  }

  function Log(events: seq<Event>): seq<ChargeEntry> {
    if events == [] then [] else Log(events[..|events| - 1]) + ChargesOf(events[|events| - 1])
  }

  lemma {:induction false} StartKeepsPacing(accounts: Accounts, run: WarmupRun, ids: seq<int>, now: Time, k: nat)
    ensures SamePacing(accounts, Warmup.StartedAccounts(accounts, run, ids, now, k))
  {
    if k == 0 || k > |ids| {
    } else {
      StartKeepsPacing(accounts, run, ids, now, k - 1);
    }
  }

  lemma {:induction false} StopKeepsPacing(accounts: Accounts, run: WarmupRun, ids: seq<int>, k: nat)
    ensures SamePacing(accounts, Warmup.StoppedAccounts(accounts, run, ids, k))
  {
    if k == 0 || k > |ids| {
    } else {
      StopKeepsPacing(accounts, run, ids, k - 1);
    }
  }

  lemma {:induction false} WarmupKeepsPacing(x: Warmup.Scene, ids: seq<int>, k: nat)
    ensures SamePacing(x.accounts, Warmup.AccountsAfter(x, ids, k))
  {
    if k == 0 || k > |ids| {
    } else {
      WarmupKeepsPacing(x, ids, k - 1);
    }
  }

  lemma OthersKeepPacing(e: Event)
    requires !Paces(e) && (e.OperatorAct? ==> SamePacing(e.pool, e.later))
    ensures SamePacing(Found(e), Left(e))
  {
    hide SamePacing, Warmup.AccountsAfter, Warmup.StartedAccounts, Warmup.StoppedAccounts;
    match e {
      case WarmupTick(x) => WarmupKeepsPacing(x, Warmup.Visited(x.run), |Warmup.Visited(x.run)|);
      case WarmupStart(pool, run, now) =>
        StartKeepsPacing(pool, run, ById(run.participants.Keys), now, |run.participants|);
      case WarmupStop(pool, run) => StopKeepsPacing(pool, run, ById(run.participants.Keys), |run.participants|);
      case OperatorAct(_, _) =>
    }
  }

  lemma EventKeepsPaced(start: Accounts, e: Event, log: seq<ChargeEntry>)
    requires Paced(start, Found(e), log) && (e.OperatorAct? ==> SamePacing(e.pool, e.later))
    ensures Paced(start, Left(e), log + ChargesOf(e))
  {
    hide Paced, SamePacing, BeatOf, Found, Left, AllUsable, After, Charges, Made;
    if Paces(e) {
      BeatOfFits(e);
      var b := BeatOf(e);
      AttemptsKeepPaced(start, Found(e), log, b.order, b.effects, b.now, b.minDelay, b.attempts);
    } else {
      OthersKeepPacing(e);
      PacedIgnoresStatus(start, Found(e), Left(e), log);
      assert log + [] == log;
    }
  }

  /** Whatever the interleaving, the pool agrees with the log of charges, each charge kept its delay, and
      none was made at or over the cap. */
  lemma {:induction false} RunIsPaced(start: Accounts, events: seq<Event>)
    requires Chained(start, events)
    ensures Paced(start, PoolAfter(start, events), Log(events))
  {
    hide Paced, SamePacing, Found, Left, ChargesOf;
    if events == [] {
      PacedStart(start);
    } else {
      RunIsPaced(start, events[..|events| - 1]);
      EventKeepsPaced(start, events[|events| - 1], Log(events[..|events| - 1]));
    }
  }

  /** Two successive charges of one account, by whichever engines, are at least the later one's minimum
      delay apart. */
  lemma ChargesAreSpaced(start: Accounts, events: seq<Event>, i: nat, j: nat)
    requires Chained(start, events)
    requires var log := Log(events);
      i < j < |log| && log[i].account == log[j].account && forall k :: i < k < j ==> log[k].account != log[j].account
    ensures Log(events)[j].at - Log(events)[i].at >= Seconds(Log(events)[j].minDelay)
  {
    hide Chained, PoolAfter, Log, Paced;
    RunIsPaced(start, events);
    SpacedMeans(start, PoolAfter(start, events), Log(events), i, j);
  }

  /** The cap over whole runs: nothing resets the count, so an account is charged at most as often as its
      cap leaves room for at the start, and a pool within its caps stays within them. */
  lemma CapsHold(start: Accounts, events: seq<Event>, id: int)
    requires Chained(start, events) && id in start
    ensures var accounts, count := PoolAfter(start, events), ChargeCount(Log(events), id);
      && id in accounts && accounts[id].dailyCap == start[id].dailyCap
      && accounts[id].actionsToday == start[id].actionsToday + count
      && (count > 0 ==> start[id].actionsToday + count <= start[id].dailyCap)
      && (start[id].actionsToday <= start[id].dailyCap ==> accounts[id].actionsToday <= accounts[id].dailyCap)
  {
    hide Chained, PoolAfter, Log, ChargeCount, LastCharge;
    RunIsPaced(start, events);
    assert Agrees(start[id], PoolAfter(start, events)[id], Log(events), id);
  }

  /** No tick charges an account twice. */
  lemma OneChargeEach(e: Event)
    ensures DistinctAccounts(ChargesOf(e))
  {
    hide BeatOf, AllUsable, After;
    if Paces(e) {
      BeatOfFits(e);
      var b := BeatOf(e);
      OneChargePerTick(b.order, b.effects, b.now, b.minDelay, b.attempts);
    }
  }

  // ------------------------------------------------------------------------- warnings ---

  /** The events that never bring an account back: ticks of all four engines and the end of a warm-up. */
  predicate Automatic(e: Event) {
    Paces(e) || e.WarmupTick? || e.WarmupStop?
  }

  lemma BeatAndSound(b: Beat, accounts: Accounts, later: Accounts, warned: bool)
    requires BeatFits(b, accounts, later, warned)
    ensures Sound(later) <= Sound(accounts)
    ensures |Sound(accounts)| == |Sound(later)| + if warned then 1 else 0
  {
    hide After, Made, AllUsable, Distinct, Sound;
    var n: nat :| n <= |b.order| && b.attempts == Made(b.effects, n);
    WarningCostsOne(accounts, b.order, b.effects, b.now, b.minDelay, n);
  }

  lemma EventAndSound(e: Event)
    requires Automatic(e)
    ensures Sound(Left(e)) <= Sound(Found(e))
    ensures |Sound(Found(e))| == |Sound(Left(e))| + if Warns(e) then 1 else 0
  {
    hide Sound, BeatOf, BeatFits, Warmup.AccountsAfter, Warmup.StoppedAccounts, Sender.Tick, Campaigns.Tick,
      Destinations.Tick;
    if Paces(e) {
      BeatOfFits(e);
      BeatAndSound(BeatOf(e), Found(e), Left(e), Warns(e));
    } else if e.WarmupTick? {
      WarmupLaws.TickKeepsSound(e.warming, Warmup.Visited(e.warming.run), |Warmup.Visited(e.warming.run)|);
    } else {
      WarmupLaws.StopKeepsSound(e.pool, e.run, ById(e.run.participants.Keys), |e.run.participants|);
    }
  }

  function Warnings(events: seq<Event>): nat {
    if events == [] then 0 else Warnings(events[..|events| - 1]) + if Warns(events[|events| - 1]) then 1 else 0
  }

  /** Warnings are bounded: in a run of ticks and warm-up stops no quarantined, banned or logged-out account
      comes back, and every warning costs one account that was active or warming. */
  lemma {:induction false} WarningsAreBounded(start: Accounts, events: seq<Event>)
    requires Chained(start, events) && forall i :: 0 <= i < |events| ==> Automatic(events[i])
    ensures Sound(PoolAfter(start, events)) <= Sound(start)
    ensures Warnings(events) == |Sound(start)| - |Sound(PoolAfter(start, events))| <= |Sound(start)|
  {
    hide Sound, Found, Left, Warns;
    if events == [] {
    } else {
      WarningsAreBounded(start, events[..|events| - 1]);
      EventAndSound(events[|events| - 1]);
    }
  }
}
