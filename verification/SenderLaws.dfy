/** What one sender tick and a run of sender ticks keep: every target's fate, conservation, progress,
    exact completion under stale reads, and whom a tick may write to. */
module SenderLaws {
  import opened Core
  import opened Ordering
  import opened Models
  import Pacing
  import Pool
  import Spintax
  import SpintaxLaws
  import opened Sender

  /** The targets a tick attempts. */
  ghost function Attempted(x: Scene): seq<int> {
    PlanOf(x).valid[..PlanOf(x).attempts]
  }

  ghost function SkippedBy(x: Scene): set<int> {
    QueuedSet(x.job.targets) - ReachableSet(x.job.targets, x.contacts)
  }

  lemma SkippingAt(x: Scene, t: int)
    requires t in x.job.targets
    ensures Skipping(x.job.targets, x.contacts)[t]
         == if t in SkippedBy(x) then x.job.targets[t].(state := Skipped) else x.job.targets[t]
  {
  }

  /** A target after the first `k` attempts. */
  lemma TargetAfter(x: Scene, p: Plan, k: nat, t: int)
    requires Fits(p, x) && k <= |p.valid| && t in x.job.targets
    ensures var old', new' := x.job.targets[t], TargetsAfter(x, p, k)[t];
      && (t !in p.valid[..k] ==> new' == if t in SkippedBy(x) then old'.(state := Skipped) else old')
      && (forall i :: 0 <= i < k && p.valid[i] == t ==>
            new'.contactId == old'.contactId
            && new'.state == if x.execute(i).outcome.Delivered? && i < |p.order| then Sent else Failed)
  {
    var mark := Mark(x.execute, p.order, Bodies(x.job, x.contacts, p.cids, x.execute, x.draws, x.now), x.now);
    MarkedAt(Skipping(x.job.targets, x.contacts), p.valid, mark, k, t);
    SkippingAt(x, t);
  }

  /** The four fates of a target in a working tick: finished targets never change, queued ones without a
      reachable contact are skipped, attempted ones end as sent or failed, the others stay queued. */
  lemma TargetFate(x: Scene, t: int)
    requires Works(x) && t in x.job.targets
    ensures t in Tick(x).job.targets
    ensures var old', new' := x.job.targets[t], Tick(x).job.targets[t];
      && (!old'.state.Queued? ==> new' == old')
      && (old'.state.Queued? && !Reachable(x.contacts, old'.contactId) ==> new' == old'.(state := Skipped))
      && (t in Attempted(x) ==>
          old'.state.Queued? && new'.contactId == old'.contactId && (new'.state.Sent? || new'.state.Failed?))
      && (old'.state.Queued? && Reachable(x.contacts, old'.contactId) && t !in Attempted(x) ==> new' == old')
  {
    hide TargetsAfter, AccountsAfter, StatusAfter, Tick, Works, PlanOf, Fits, QueuedSet, SkippedBy;
    var p := PlanOf(x);
    WorkingTick(x);
    TargetAfter(x, p, p.attempts, t);
    SkippedMeans(x, t);
    if t in Attempted(x) {
      var i :| 0 <= i < p.attempts && p.valid[i] == t;
      PlanMember(x, i);
    }
  }

  lemma SkippedMeans(x: Scene, t: int)
    requires t in x.job.targets
    ensures t in SkippedBy(x) <==> x.job.targets[t].state.Queued? && !Reachable(x.contacts, x.job.targets[t].contactId)
  {
  }

  lemma PlanMember(x: Scene, i: nat)
    requires i < |PlanOf(x).valid|
    ensures var t := PlanOf(x).valid[i];
      t in x.job.targets && x.job.targets[t].state.Queued? && Reachable(x.contacts, x.job.targets[t].contactId)
  {
  }

  /** Which targets are still queued after a working tick. */
  lemma QueuedAfter(x: Scene)
    requires Works(x)
    ensures QueuedSet(Tick(x).job.targets)
         == QueuedSet(x.job.targets) - SkippedBy(x) - (set t | t in Attempted(x))
  {
    hide StatusAfter, AccountsAfter, ContactsAfter, SummaryOf, TargetsAfter, Fits;
    forall t | t in x.job.targets
      ensures t in QueuedSet(Tick(x).job.targets)
         <==> t in QueuedSet(x.job.targets) && t !in SkippedBy(x) && t !in Attempted(x)
    {
      TargetFate(x, t);
    }
    assert Tick(x).job.targets.Keys == x.job.targets.Keys;
  }

  lemma {:induction false} TallySplits(execute: Executor, k: nat)
    ensures Pool.Tally(Outcomes(execute), Delivered, k) + Pool.Tally(Outcomes(execute), Warned, k)
            + Pool.Tally(Outcomes(execute), Unreached, k) == k
  {
    if k == 0 {
    } else {
      TallySplits(execute, k - 1);
      var outcome := Outcomes(execute)(k - 1);
      assert outcome.Delivered? || outcome.Warned? || outcome.Unreached?;
    }
  }

  lemma Partition(a: set<int>, b: set<int>, c: set<int>)
    requires b <= a && c <= a - b
    ensures |a| == |a - b - c| + |b| + |c|
  {
    assert a == (a - b - c) + b + c;
  }

  lemma CountAttempted(x: Scene)
    requires Works(x)
    ensures |set t | t in Attempted(x)| == PlanOf(x).attempts
  {
    DistinctPrefix(PlanOf(x).valid, PlanOf(x).attempts);
    SetOfDistinct(Attempted(x));
  }

  /** The counts a working tick reports. */
  lemma ReportedCounts(x: Scene)
    requires Works(x)
    ensures var s := Tick(x).summary;
      s.sent + s.failed == PlanOf(x).attempts && s.skipped == |SkippedBy(x)|
  {
    hide Fits, Valid, TargetsAfter, AccountsAfter, ContactsAfter, StoredAfter, QueuedSet, ReachableSet, Deliveries,
      LastUsed, Pool.Order;
    TallySplits(x.execute, PlanOf(x).attempts);
  }

  /** Conservation: what leaves the queue is exactly what the tick reports as sent, failed or skipped. */
  lemma Conservation(x: Scene)
    ensures var r := Tick(x);
      |QueuedSet(x.job.targets)|
      == |QueuedSet(r.job.targets)| + r.summary.sent + r.summary.failed + r.summary.skipped
  {
    hide QueuedSet, Attempted, SkippedBy, PlanOf, TargetsAfter, StatusAfter, AccountsAfter, ContactsAfter;
    if Works(x) {
      QueuedAfter(x);
      AttemptedAreValid(x);
      SkippedAreQueued(x);
      Partition(QueuedSet(x.job.targets), SkippedBy(x), set t | t in Attempted(x));
      CountAttempted(x);
      ReportedCounts(x);
    }
  }

  lemma SkippedAreQueued(x: Scene)
    ensures SkippedBy(x) <= QueuedSet(x.job.targets)
  {
  }

  lemma AttemptedAreValid(x: Scene)
    ensures (set t | t in Attempted(x)) <= QueuedSet(x.job.targets) - SkippedBy(x)
  {
    var p := PlanOf(x);
    forall t | t in Attempted(x) ensures t in QueuedSet(x.job.targets) && t !in SkippedBy(x) {
      var i :| 0 <= i < p.attempts && p.valid[i] == t;
    }
  }

  /** Progress: a working tick that finds anything queued shortens the queue, whatever `execute` answers. */
  lemma Progress(x: Scene)
    requires Works(x) && QueuedSet(x.job.targets) != {}
    ensures |QueuedSet(Tick(x).job.targets)| < |QueuedSet(x.job.targets)|
  {
    hide Tick, PlanOf, QueuedSet, SkippedBy, Effects;
    var p := PlanOf(x);
    Conservation(x);
    ReportedCounts(x);
    if p.valid == [] {
      NothingReachable(x);
    } else {
      WorkingOrder(x);
      AttemptsMade(x);
      Pool.MadeSome(Effects(x.execute), Min(|p.order|, |p.valid|));
    }
  }

  lemma WorkingOrder(x: Scene)
    requires Works(x)
    ensures PlanOf(x).order != []
  {
  }

  lemma NothingReachable(x: Scene)
    requires PlanOf(x).valid == []
    ensures SkippedBy(x) == QueuedSet(x.job.targets)
  {
    hide Fits, Pool.Made;
    forall t | t in QueuedSet(x.job.targets) ensures t in SkippedBy(x) {
      assert t !in Valid(x.job.targets, x.contacts);
    }
  }

  /** The stored rows a working tick counts still hold a queued target whenever there was one at its start:
      a flush comes before the attempted target's own change. */
  lemma {:induction false} StoredStillQueued(x: Scene, p: Plan, k: nat)
    requires Fits(p, x) && k <= |p.valid| && QueuedSet(x.job.targets) != {}
    ensures QueuedSet(StoredAfter(x, p, k)) != {}
  {
    if k == 0 {
    } else {
      if x.execute(k - 1).flushed {
        UnmarkedYet(x, p, k - 1);
        assert p.valid[k - 1] in QueuedSet(TargetsAfter(x, p, k - 1));
      } else {
        StoredStillQueued(x, p, k - 1);
      }
    }
  }

  /** Completion, exactly: a working tick completes the job if and only if nothing was queued when the
      tick began. In particular done means nothing is queued, and the tick that empties the queue never
      completes the job itself. */
  lemma CompletionExact(x: Scene)
    requires Works(x)
    ensures Tick(x).job.status.Done? <==> QueuedSet(x.job.targets) == {}
    ensures Tick(x).job.status.Done? ==> QueuedSet(Tick(x).job.targets) == {}
  {
    var p := PlanOf(x);
    if QueuedSet(x.job.targets) == {} {
      assert |p.valid| == 0;
      QueuedAfter(x);
    } else {
      StoredStillQueued(x, p, p.attempts);
    }
  }

  // -------------------------------------------------------------- pairing and reporting ---

  /** The `k`-th attempt pairs the `k`-th usable account with the `k`-th reachable target. A delivery marks
      the target with that account, the time and the text and charges the account; a warning quarantines
      the account and fails the target; a plain failure fails the target and leaves the account alone. */
  lemma AttemptRecord(x: Scene, k: nat)
    requires Works(x)
    ensures k < PlanOf(x).attempts ==>
      var p, r := PlanOf(x), Tick(x);
      var t, a := p.valid[k], p.order[k];
      && t in r.job.targets && a in r.accounts
      && match x.execute(k).outcome
         case Delivered =>
           && r.job.targets[t].state.Sent? && r.job.targets[t].accountId == Some(a)
           && r.job.targets[t].sentAt == Some(x.now)
           && r.job.targets[t].body == Some(Body(x.job, x.contacts, p.cids, x.execute, x.draws, x.now, k))
           && r.accounts[a]
              == x.accounts[a].(actionsToday := x.accounts[a].actionsToday + 1, lastActionAt := Some(x.now))
         case Warned =>
           && r.job.targets[t] == x.job.targets[t].(state := Failed)
           && r.accounts[a] == x.accounts[a].(status := Quarantined) && r.job.status.Paused? && k == p.attempts - 1
         case Unreached => r.job.targets[t] == x.job.targets[t].(state := Failed) && r.accounts[a] == x.accounts[a]
  {
    hide Works, PlanOf, Tick, Fits, Body, TargetsAfter, AccountsAfter, StatusAfter, Pool.Tally, SkippedBy, Effects;
    var p := PlanOf(x);
    WorkingTick(x);
    if k < p.attempts {
      PlannedTarget(x, p, k);
      PlannedAccount(x, p, k);
      if x.execute(k).outcome.Warned? {
        WarningEnds(x, k);
      }
    }
  }

  /** What a working tick leaves, in terms of its plan. */
  lemma WorkingTick(x: Scene)
    requires Works(x)
    ensures var p, r := PlanOf(x), Tick(x);
      && Fits(p, x) && p.attempts <= |p.order| && p.attempts <= |p.valid|
      && r.accounts == AccountsAfter(x, p, p.attempts) && r.job.targets == TargetsAfter(x, p, p.attempts)
      && r.job.targets.Keys == x.job.targets.Keys
      && r.job.status == StatusAfter(x, p)
      && r.summary.sent == Pool.Tally(Outcomes(x.execute), Delivered, p.attempts) && r.summary.skipped == |SkippedBy(x)|
      && r.summary.paused == Pool.Stopped(Effects(x.execute), p.attempts)
  {
    hide Fits, TargetsAfter, AccountsAfter, ContactsAfter, StoredAfter, QueuedSet, ReachableSet;
  }

  lemma WarningEnds(x: Scene, k: nat)
    requires Works(x) && k < PlanOf(x).attempts && x.execute(k).outcome.Warned?
    ensures k == PlanOf(x).attempts - 1 && StatusAfter(x, PlanOf(x)).Paused?
  {
    hide PlanOf, Works, StoredAfter, QueuedSet, Effects;
    OnlyLastWarned(x);
  }

  lemma AttemptsMade(x: Scene)
    ensures var p := PlanOf(x); p.attempts == Pool.Made(Effects(x.execute), Min(|p.order|, |p.valid|))
  {
    hide Fits, Pool.Made, Effects;
  }

  /** Only the last attempt of a tick may be answered with a warning. */
  lemma OnlyLastWarned(x: Scene)
    ensures var m := PlanOf(x).attempts;
      && (forall k :: 0 <= k < m - 1 ==> !x.execute(k).outcome.Warned?)
      && (Pool.Stopped(Effects(x.execute), m) <==> m > 0 && x.execute(m - 1).outcome.Warned?)
  {
    hide PlanOf, Pool.Made;
    var p := PlanOf(x);
    AttemptsMade(x);
    Pool.MadeStops(Effects(x.execute), Min(|p.order|, |p.valid|));
    assert forall k: nat :: Effects(x.execute)(k).Quarantine? == x.execute(k).outcome.Warned?;
  }

  lemma PlannedTarget(x: Scene, p: Plan, k: nat)
    requires Fits(p, x) && k < p.attempts
    ensures var t, r := p.valid[k], TargetsAfter(x, p, p.attempts);
      && t in r
      && r[t] == if x.execute(k).outcome.Delivered?
                 then SendTarget(x.job.targets[t].contactId, Sent, Some(p.order[k]), Some(x.now),
                                 Some(Body(x.job, x.contacts, p.cids, x.execute, x.draws, x.now, k)))
                 else x.job.targets[t].(state := Failed)
  {
    hide Body, RenderMessage;
    var t, bodies := p.valid[k], Bodies(x.job, x.contacts, p.cids, x.execute, x.draws, x.now);
    MarkedAt(Skipping(x.job.targets, x.contacts), p.valid, Mark(x.execute, p.order, bodies, x.now), p.attempts, t);
    SkippingAt(x, t);
    assert bodies(k) == Body(x.job, x.contacts, p.cids, x.execute, x.draws, x.now, k);
  }

  lemma PlannedAccount(x: Scene, p: Plan, k: nat)
    requires Fits(p, x) && k < p.attempts
    ensures var a, r := p.order[k], AccountsAfter(x, p, p.attempts);
      && a in r
      && r[a] == match x.execute(k).outcome
                 case Delivered =>
                   x.accounts[a].(actionsToday := x.accounts[a].actionsToday + 1, lastActionAt := Some(x.now))
                 case Warned => x.accounts[a].(status := Quarantined)
                 case Unreached => x.accounts[a]
  {
    MarkedAt(x.accounts, p.order, Pool.Stamp(Effects(x.execute), x.now), p.attempts, p.order[k]);
    assert AccountsAfter(x, p, p.attempts)[p.order[k]]
        == Pool.Apply(x.accounts[p.order[k]], Effects(x.execute)(k), x.now);
  }

  /** The targets a tick sent to, and those it skipped. */
  ghost function NewlySent(x: Scene): set<int> {
    set t | t in x.job.targets && x.job.targets[t].state.Queued? && t in Tick(x).job.targets
            && Tick(x).job.targets[t].state.Sent?
  }

  ghost function NewlySkipped(x: Scene): set<int> {
    set t | t in x.job.targets && x.job.targets[t].state.Queued? && t in Tick(x).job.targets
            && Tick(x).job.targets[t].state.Skipped?
  }

  lemma NotAttempted(x: Scene, t: int)
    requires t !in Attempted(x)
    ensures forall i :: 0 <= i < PlanOf(x).attempts ==> PlanOf(x).valid[i] != t
  {
    forall i | 0 <= i < |Attempted(x)| ensures PlanOf(x).valid[i] != t {
      assert Attempted(x)[i] == PlanOf(x).valid[i];
    }
  }

  lemma SentIfAttempted(x: Scene, i: nat)
    requires Works(x) && i < PlanOf(x).attempts
    ensures PlanOf(x).valid[i] in NewlySent(x) <==> x.execute(i).outcome.Delivered?
  {
    AttemptRecord(x, i);
    WorkingTick(x);
    var t := PlanOf(x).valid[i];
    assert t in Attempted(x) by { assert Attempted(x)[i] == t; }
    hide Tick, Works, PlanOf, Body, Fits, Distinct, AccountsAfter, TargetsAfter, StatusAfter, Attempted;
    TargetFate(x, t);
  }

  lemma SentMember(x: Scene, t: int)
    requires Works(x)
    ensures t in NewlySent(x)
        <==> t in Pool.Answered(Outcomes(x.execute), Delivered, PlanOf(x).valid, PlanOf(x).attempts)
  {
    var p := PlanOf(x);
    PlanIsDistinct(p, x);
    if t in Attempted(x) {
      var i :| 0 <= i < p.attempts && p.valid[i] == t;
      hide Tick, Works, PlanOf, Fits, Distinct, Pool.Answered, NewlySent;
      Pool.AnsweredAt(Outcomes(x.execute), Delivered, p.valid, p.attempts, i);
      SentIfAttempted(x, i);
    } else {
      NotAttempted(x, t);
      hide Tick, Works, PlanOf, Fits, Distinct, Pool.Answered, QueuedSet;
      if t in Pool.Answered(Outcomes(x.execute), Delivered, p.valid, p.attempts) {
        var i := Pool.AnsweredFrom(Outcomes(x.execute), Delivered, p.valid, p.attempts, t);
      }
      if t in x.job.targets {
        TargetFate(x, t);
      }
    }
  }

  lemma SentAre(x: Scene)
    requires Works(x)
    ensures NewlySent(x) == Pool.Answered(Outcomes(x.execute), Delivered, PlanOf(x).valid, PlanOf(x).attempts)
  {
    hide NewlySent, Pool.Answered, PlanOf, Works;
    forall t ensures t in NewlySent(x)
        <==> t in Pool.Answered(Outcomes(x.execute), Delivered, PlanOf(x).valid, PlanOf(x).attempts) {
      SentMember(x, t);
    }
  }

  lemma PlanIsDistinct(p: Plan, x: Scene)
    requires Fits(p, x)
    ensures Distinct(p.valid)
  {
  }

  lemma SkippedAre(x: Scene)
    requires Works(x)
    ensures NewlySkipped(x) == SkippedBy(x)
  {
    hide Tick, Works, PlanOf, Fits, Attempted;
    forall t ensures t in NewlySkipped(x) <==> t in SkippedBy(x) {
      if t in x.job.targets {
        TargetFate(x, t);
      }
    }
  }

  /** What a tick reports is what happened to the targets: as many were sent to as it says, as many
      skipped, and the job is paused exactly when it says so. */
  lemma ReportIsTrue(x: Scene)
    requires Works(x)
    ensures var r := Tick(x);
      r.summary.sent == |NewlySent(x)| && r.summary.skipped == |NewlySkipped(x)|
      && (r.summary.paused <==> r.job.status.Paused?)
  {
    WorkingTick(x);
    PlanIsDistinct(PlanOf(x), x);
    SentAre(x);
    SkippedAre(x);
    hide Tick, Works, PlanOf, Fits, AccountsAfter, TargetsAfter, Pool.Answered, NewlySent, NewlySkipped, QueuedSet,
      StoredAfter;
    Pool.AnsweredCount(Outcomes(x.execute), Delivered, PlanOf(x).valid, PlanOf(x).attempts);
  }

  // ------------------------------------------------------------------ runs of ticks ---

  /** A job driven by a run of ticks; everything but the job may change freely in between. */
  function Driven(job: SendJob, ticks: seq<Scene>): SendJob
    decreases |ticks|
  {
    if ticks == [] then job else Driven(Tick(ticks[0].(job := job)).job, ticks[1..])
  }

  /** Some account can act now, within the job's hours. */
  ghost predicate Staffed(x: Scene, job: SendJob) {
    Pacing.InWindow(x.now, job.activeStart, job.activeEnd) && Pool.UsableSet(x.accounts, x.now, x.minDelay) != {}
  }

  lemma StaffedWorks(x: Scene)
    requires x.job.status.Running? && Staffed(x, x.job)
    ensures Works(x)
  {
    Pool.OrderIsUsable(x.accounts, x.now, x.minDelay, x.job.lastAccountId);
    assert |TickOrder(x.accounts, x.job, x.now, x.minDelay)| > 0;
  }

  /** Termination: more staffed ticks than there are queued targets leave the job paused or done. */
  lemma {:induction false} RunEnds(job: SendJob, ticks: seq<Scene>)
    requires |ticks| > |QueuedSet(job.targets)|
    requires forall i :: 0 <= i < |ticks| ==> Staffed(ticks[i], job)
    ensures !Driven(job, ticks).status.Running?
    decreases |ticks|
  {
    var x := ticks[0].(job := job);
    var next := Tick(x).job;
    if !job.status.Running? {
      assert next == job;
      IdleStays(job, ticks);
    } else {
      assert Staffed(ticks[0], job);
      StaffedWorks(x);
      CompletionExact(x);
      if next.status.Running? {
        Progress(x);
        forall i | 0 <= i < |ticks[1..]| ensures Staffed(ticks[1..][i], next) {
          assert Staffed(ticks[i + 1], job);
        }
        RunEnds(next, ticks[1..]);
      } else {
        IdleStays(next, ticks[1..]);
      }
    }
  }

  lemma {:induction false} IdleStays(job: SendJob, ticks: seq<Scene>)
    requires !job.status.Running?
    ensures Driven(job, ticks) == job
    decreases |ticks|
  {
    if ticks == [] {
    } else {
      IdleStays(job, ticks[1..]);
    }
  }

  // ------------------------------------------------------------- who is written to ---

  /** The contacts a tick calls `execute` for. */
  ghost function Approached(x: Scene): seq<int> {
    if Works(x) then PlanOf(x).cids[..PlanOf(x).attempts] else []
  }

  /** A tick acts only on contacts that consented and did not opt out. */
  lemma OnlyReachable(x: Scene, c: int)
    requires c in Approached(x)
    ensures Reachable(x.contacts, c)
  {
    var p := PlanOf(x);
    var i :| 0 <= i < p.attempts && p.cids[i] == c;
  }

  /** Consent and identity are the same; a tick may change stage and time of contact only. */
  predicate SameConsent(c: Contact, d: Contact) {
    c.consent == d.consent && c.optedOut == d.optedOut && c.phone == d.phone && c.username == d.username
  }

  lemma GreetingKeepsConsent(execute: Executor, now: Time, k: nat, c: Contact)
    ensures SameConsent(c, Greet(execute, now)(k, c))
  {
    assert Greet(execute, now)(k, c) == if execute(k).outcome.Delivered? then Touch(c, now) else c;
  }

  lemma {:induction false} GreetKeepsConsent(x: Scene, p: Plan, k: nat, c: int)
    requires c in x.contacts
    ensures SameConsent(x.contacts[c], ContactsAfter(x, p, k)[c])
  {
    if k == 0 || k > |p.cids| {
    } else {
      GreetKeepsConsent(x, p, k - 1, c);
      var before, id := ContactsAfter(x, p, k - 1), p.cids[k - 1];
      if id in before {
        var greeted := Greet(x.execute, x.now)(k - 1, before[id]);
        GreetingKeepsConsent(x.execute, x.now, k - 1, before[id]);
        assert ContactsAfter(x, p, k) == before[id := greeted];
      }
    }
  }

  /** Some of the first `k` attempts delivered to contact `c`. */
  ghost predicate WrittenTo(x: Scene, p: Plan, k: nat, c: int) {
    exists i :: 0 <= i < k && i < |p.cids| && p.cids[i] == c && x.execute(i).outcome.Delivered?
  }

  /** Exactly the contacts that were delivered to are touched: a new lead becomes contacted, and the time of
      contact is the tick's. */
  lemma {:induction false} ContactFate(x: Scene, p: Plan, k: nat, c: int)
    requires c in x.contacts && k <= |p.cids|
    ensures var was := x.contacts[c];
      ContactsAfter(x, p, k)[c]
      == if WrittenTo(x, p, k, c)
         then was.(stage := if was.stage.NewLead? then Contacted else was.stage,
                   lastContactedAt := Some(x.now)) else was
  {
    if k == 0 {
    } else {
      ContactFate(x, p, k - 1, c);
      var before, id := ContactsAfter(x, p, k - 1), p.cids[k - 1];
      assert ContactsAfter(x, p, k) == if id in before then before[id := Greet(x.execute, x.now)(k - 1, before[id])]
                                       else before;
      assert WrittenTo(x, p, k, c) <==> WrittenTo(x, p, k - 1, c) || (id == c && x.execute(k - 1).outcome.Delivered?);
    }
  }

  /** The recorded text of attempt `k` is one of the meanings of the template, with the link line exactly
      when there is a link and it is not held back from a contact never written to before. */
  lemma BodyLaw(x: Scene, p: Plan, k: nat)
    requires Fits(p, x) && k < |p.cids|
    ensures var contact := ContactsAfter(x, p, k)[p.cids[k]];
      var text := Spintax.SpinFrom(x.job.template, x.draws(k), 0);
      var linked := x.job.includeLink && x.job.linkUrl.Some? && x.job.linkUrl.value != ""
                    && !(x.job.suppressLinkFirst && contact.lastContactedAt.None?);
      && text in Spintax.Meaning(Spintax.Parse(x.job.template))
      && Body(x.job, x.contacts, p.cids, x.execute, x.draws, x.now, k)
         == if linked then text + "\n" + x.job.linkUrl.value else text
  {
    Spintax.ParseShows(x.job.template);
    SpintaxLaws.SpinMeansTemplate(Spintax.Parse(x.job.template), x.draws(k), 0);
  }
}
