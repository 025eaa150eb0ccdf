/** What a campaign keeps over whole runs: targets made once for every contact and step, executed in
    schedule order and never early, completion exact under stale reads, only reachable contacts. */
module CampaignLaws {
  import opened Core
  import opened Ordering
  import opened Models
  import Pool
  import opened Campaigns

  // ------------------------------------------------------------------ one tick ---

  ghost function Attempted(x: Scene): seq<int> {
    PlanOf(x).valid[..PlanOf(x).attempts]
  }

  lemma SkippingAt(x: Scene, t: int)
    requires t in x.campaign.targets
    ensures Skipping(x)[t] == if t in SkippedBy(x) then x.campaign.targets[t].(state := Skipped)
                              else x.campaign.targets[t]
  {
  }

  lemma TargetAfter(x: Scene, p: Plan, k: nat, t: int)
    requires Fits(p, x) && k <= |p.valid| && k <= |p.order| && t in x.campaign.targets
    ensures var old', new' := x.campaign.targets[t], TargetsAfter(x, p, k)[t];
      && (t !in p.valid[..k] ==> new' == if t in SkippedBy(x) then old'.(state := Skipped) else old')
      && (forall i :: 0 <= i < k && p.valid[i] == t ==>
            new' == if x.execute(i).reply.Warned? then old'
                    else old'.(state := StateOf(x.execute(i).reply), accountId := Some(p.order[i]),
                               sentAt := Some(x.now)))
  {
    MarkedAt(Skipping(x), p.valid, Mark(x.execute, p.order, x.now), k, t);
    SkippingAt(x, t);
  }

  predicate Executed(t: CampaignTarget) {
    t.state.Sent? || t.state.Joined? || t.state.Failed?
  }

  /** Attempt `i` of the tick recorded a result for `t`. */
  ghost predicate RecordedAt(x: Scene, t: int, i: nat) {
    var p := PlanOf(x);
    i < p.attempts && p.valid[i] == t && !x.execute(i).reply.Warned?
  }

  /** A tick touches the targets' results, the last-used account and the status only. */
  lemma TickKeepsShape(x: Scene)
    ensures var c, r := x.campaign, Tick(x).campaign;
      r.targets.Keys == c.targets.Keys && r.steps == c.steps && r.startedAt == c.startedAt && r.segment == c.segment
  {
  }

  lemma TickTarget(x: Scene, t: int)
    requires Works(x) && t in x.campaign.targets
    ensures t in Tick(x).campaign.targets
    ensures Tick(x).campaign.targets[t] == TargetsAfter(x, PlanOf(x), PlanOf(x).attempts)[t]
  {
  }

  /** A target's fate in a working tick: recorded by its attempt, skipped when due and unreachable, or
      left as it was. */
  lemma TargetFate(x: Scene, t: int)
    requires Works(x) && t in x.campaign.targets
    ensures t in Tick(x).campaign.targets
    ensures var old', new' := x.campaign.targets[t], Tick(x).campaign.targets[t];
      && (forall i :: RecordedAt(x, t, i) ==>
            old'.state.Queued? && Executed(new') && new'.sentAt == Some(x.now) && old'.scheduledAt <= x.now)
      && ((forall i :: !RecordedAt(x, t, i)) ==> new' == if t in SkippedBy(x) then old'.(state := Skipped) else old')
      && new'.contactId == old'.contactId && new'.step == old'.step && new'.scheduledAt == old'.scheduledAt
  {
    hide TargetsAfter, Tick, SkippedBy, Works, Fits, PlanOf;
    var p := PlanOf(x);
    PlanBounds(x);
    TickTarget(x, t);
    TargetAfter(x, p, p.attempts, t);
    if t in p.valid[..p.attempts] {
      var i :| 0 <= i < p.attempts && p.valid[i] == t;
      PlanMember(x, i);
      assert RecordedAt(x, t, i) || x.execute(i).reply.Warned?;
    }
  }

  lemma PlanBounds(x: Scene)
    ensures var p := PlanOf(x); Fits(p, x) && p.attempts <= |p.valid| && p.attempts <= |p.order|
  {
  }

  lemma PlanMember(x: Scene, i: nat)
    requires i < |PlanOf(x).valid|
    ensures var t := PlanOf(x).valid[i];
      && t in x.campaign.targets && t in Valid(x) && t !in SkippedBy(x)
      && x.campaign.targets[t].state.Queued? && x.campaign.targets[t].scheduledAt <= x.now
  {
    assert PlanOf(x).valid[i] in Valid(x);
  }

  lemma {:induction false} StoredStillQueued(x: Scene, p: Plan, k: nat)
    requires Fits(p, x) && k <= |p.valid| && QueuedSet(x.campaign.targets) != {}
    ensures QueuedSet(StoredAfter(x, p, k)) != {}
  {
    if k == 0 {
    } else {
      if x.execute(k - 1).flushed {
        UnmarkedYet(x, p, k - 1);
        assert p.valid[k - 1] in QueuedSet(TargetsAfter(x, p, k - 1));
      } else {
        StoredStillQueued(x, p, k - 1);
      }
    }
  }

  /** Completion, exactly: a working tick completes the campaign if and only if nothing was queued when
      the tick began, due or not; so done means nothing is queued. */
  lemma CompletionExact(x: Scene)
    requires Works(x)
    ensures Tick(x).campaign.status.Done? <==> QueuedSet(x.campaign.targets) == {}
    ensures Tick(x).campaign.status.Done? ==> QueuedSet(Tick(x).campaign.targets) == {}
  {
    var p := PlanOf(x);
    if QueuedSet(x.campaign.targets) == {} {
      assert |p.valid| == 0;
      forall t | t in x.campaign.targets ensures !Tick(x).campaign.targets[t].state.Queued? {
        TargetFate(x, t);
      }
    } else {
      StoredStillQueued(x, p, p.attempts);
    }
  }

  /** The contacts a tick executes targets for. */
  ghost function Approached(x: Scene): seq<int> {
    if Works(x) then PlanOf(x).cids[..PlanOf(x).attempts] else []
  }

  /** A tick acts only on contacts that consented and did not opt out. */
  lemma OnlyReachable(x: Scene, c: int)
    requires c in Approached(x)
    ensures Reachable(x.contacts, c)
  {
    var p := PlanOf(x);
    var i :| 0 <= i < p.attempts && p.cids[i] == c;
  }

  lemma GreetingKeepsConsent(execute: Executor, now: Time, k: nat, c: Contact)
    ensures var d := Greet(execute, now)(k, c);
      d.consent == c.consent && d.optedOut == c.optedOut && d.phone == c.phone && d.username == c.username
  {
  }

  lemma {:induction false} GreetKeepsConsent(x: Scene, p: Plan, k: nat, c: int)
    requires c in x.contacts
    ensures var old', new' := x.contacts[c], ContactsAfter(x, p, k)[c];
      new'.consent == old'.consent && new'.optedOut == old'.optedOut
      && new'.phone == old'.phone && new'.username == old'.username
  {
    if k == 0 || k > |p.cids| {
    } else {
      GreetKeepsConsent(x, p, k - 1, c);
      var before, id := ContactsAfter(x, p, k - 1), p.cids[k - 1];
      if id in before {
        GreetingKeepsConsent(x.execute, x.now, k - 1, before[id]);
        assert ContactsAfter(x, p, k) == before[id := Greet(x.execute, x.now)(k - 1, before[id])];
      }
    }
  }

  /** Some of the first `k` attempts sent contact `c` a message. */
  ghost predicate WrittenTo(x: Scene, p: Plan, k: nat, c: int) {
    exists i :: 0 <= i < k && i < |p.cids| && p.cids[i] == c && x.execute(i).reply.DidSend?
  }

  /** Exactly the new leads that were sent a message become contacted at the tick's time; every other
      contact stays as it was. */
  lemma {:induction false} ContactFate(x: Scene, p: Plan, k: nat, c: int)
    requires c in x.contacts && k <= |p.cids|
    ensures ContactsAfter(x, p, k)[c]
         == if WrittenTo(x, p, k, c) && x.contacts[c].stage.NewLead?
            then x.contacts[c].(stage := Contacted, lastContactedAt := Some(x.now)) else x.contacts[c]
  {
    if k == 0 {
    } else {
      ContactFate(x, p, k - 1, c);
      var before, id := ContactsAfter(x, p, k - 1), p.cids[k - 1];
      assert ContactsAfter(x, p, k) == if id in before then before[id := Greet(x.execute, x.now)(k - 1, before[id])]
                                       else before;
      assert WrittenTo(x, p, k, c) <==> WrittenTo(x, p, k - 1, c) || (id == c && x.execute(k - 1).reply.DidSend?);
    }
  }

  // -------------------------------------------------------------- pairing and reporting ---

  /** What a working tick leaves, in terms of its plan. */
  lemma WorkingTick(x: Scene)
    requires Works(x)
    ensures var p, r := PlanOf(x), Tick(x);
      && Fits(p, x) && p.attempts <= |p.order| && p.attempts <= |p.valid|
      && r.accounts == AccountsAfter(x, p, p.attempts) && r.campaign.targets == TargetsAfter(x, p, p.attempts)
      && r.campaign.targets.Keys == x.campaign.targets.Keys
      && r.campaign.status == StatusAfter(x, p)
      && r.summary.sent == Pool.Tally(Replies(x.execute), DidSend, p.attempts)
      && r.summary.joined == Pool.Tally(Replies(x.execute), DidJoin, p.attempts)
      && r.summary.failed == Pool.Tally(Replies(x.execute), DidFail, p.attempts) && r.summary.skipped == |SkippedBy(x)|
      && r.summary.paused == Pool.Stopped(Effects(x.execute), p.attempts)
  {
    hide Fits, TargetsAfter, AccountsAfter, ContactsAfter, StoredAfter, QueuedSet, SkippedBy;
  }

  lemma WarningEnds(x: Scene, k: nat)
    requires Works(x) && k < PlanOf(x).attempts && x.execute(k).reply.Warned?
    ensures k == PlanOf(x).attempts - 1 && StatusAfter(x, PlanOf(x)).Paused?
  {
    var p := PlanOf(x);
    Pool.MadeStops(Effects(x.execute), Min(|p.order|, |p.valid|));
    assert Effects(x.execute)(k).Quarantine?;
    hide Fits, StoredAfter, QueuedSet;
  }

  lemma PlannedAccount(x: Scene, p: Plan, k: nat)
    requires Fits(p, x) && k < p.attempts
    ensures var a, r := p.order[k], AccountsAfter(x, p, p.attempts);
      && a in r
      && r[a] == if x.execute(k).reply.Warned? then x.accounts[a].(status := Quarantined)
                 else x.accounts[a].(actionsToday := x.accounts[a].actionsToday + 1, lastActionAt := Some(x.now))
  {
    MarkedAt(x.accounts, p.order, Pool.Stamp(Effects(x.execute), x.now), p.attempts, p.order[k]);
    assert AccountsAfter(x, p, p.attempts)[p.order[k]]
        == Pool.Apply(x.accounts[p.order[k]], Effects(x.execute)(k), x.now);
  }

  lemma PlannedTarget(x: Scene, p: Plan, k: nat)
    requires Fits(p, x) && k < p.attempts
    ensures var t, r := p.valid[k], TargetsAfter(x, p, p.attempts);
      && t in r && t in x.campaign.targets
      && r[t] == if x.execute(k).reply.Warned? then x.campaign.targets[t]
                 else x.campaign.targets[t].(state := StateOf(x.execute(k).reply), accountId := Some(p.order[k]),
                                             sentAt := Some(x.now))
  {
    var t := p.valid[k];
    TargetAfter(x, p, p.attempts, t);
    assert p.valid[..p.attempts][k] == t;
  }

  /** The `k`-th attempt pairs the `k`-th usable account with the `k`-th due target. Whatever is answered but
      a warning is recorded on the target with that account and the time, and charges the account; a
      warning quarantines the account, leaves the target queued and pauses the campaign. */
  lemma AttemptRecord(x: Scene, k: nat)
    requires Works(x) && k < PlanOf(x).attempts
    ensures var p, r := PlanOf(x), Tick(x);
      var t, a := p.valid[k], p.order[k];
      && t in x.campaign.targets && t in r.campaign.targets && a in r.accounts
      && if x.execute(k).reply.Warned? then
           r.campaign.targets[t] == x.campaign.targets[t] && r.campaign.status.Paused? && k == p.attempts - 1
           && r.accounts[a] == x.accounts[a].(status := Quarantined)
         else
           && r.campaign.targets[t]
              == x.campaign.targets[t].(state := StateOf(x.execute(k).reply), accountId := Some(a),
                                        sentAt := Some(x.now))
           && r.accounts[a]
              == x.accounts[a].(actionsToday := x.accounts[a].actionsToday + 1, lastActionAt := Some(x.now))
  {
    hide Works, PlanOf, Tick, Fits, TargetsAfter, AccountsAfter, StatusAfter, Pool.Tally, SkippedBy, Effects;
    var p := PlanOf(x);
    WorkingTick(x);
    PlannedTarget(x, p, k);
    PlannedAccount(x, p, k);
    if x.execute(k).reply.Warned? {
      WarningEnds(x, k);
    }
  }

  /** The targets a tick moved from queued to `state`. */
  ghost function Moved(x: Scene, state: TargetState): set<int> {
    set t | t in x.campaign.targets && x.campaign.targets[t].state.Queued?
            && t in Tick(x).campaign.targets && Tick(x).campaign.targets[t].state == state
  }

  lemma PlanIsDistinct(p: Plan, x: Scene)
    requires Fits(p, x)
    ensures Distinct(p.valid)
  {
  }

  lemma MovedIfAttempted(x: Scene, reply: Reply, i: nat)
    requires Works(x) && i < PlanOf(x).attempts && !reply.Warned?
    ensures PlanOf(x).valid[i] in Moved(x, StateOf(reply)) <==> x.execute(i).reply == reply
  {
    PlanBounds(x);
    hide Tick, Works, PlanOf, Fits, SkippedBy;
    AttemptRecord(x, i);
    PlanMember(x, i);
  }

  lemma MovedMember(x: Scene, reply: Reply, t: int)
    requires Works(x) && !reply.Warned?
    ensures t in Moved(x, StateOf(reply))
        <==> t in Pool.Answered(Replies(x.execute), reply, PlanOf(x).valid, PlanOf(x).attempts)
  {
    var p := PlanOf(x);
    hide Tick, Works, PlanOf, Fits, Distinct, Pool.Answered, SkippedBy;
    PlanBounds(x);
    if t in Attempted(x) {
      hide Moved;
      PlanIsDistinct(p, x);
      var i :| 0 <= i < p.attempts && p.valid[i] == t;
      Pool.AnsweredAt(Replies(x.execute), reply, p.valid, p.attempts, i);
      MovedIfAttempted(x, reply, i);
    } else {
      NotAttempted(x, t);
      if t in Pool.Answered(Replies(x.execute), reply, p.valid, p.attempts) {
        var i := Pool.AnsweredFrom(Replies(x.execute), reply, p.valid, p.attempts, t);
      }
      if t in x.campaign.targets {
        TargetFate(x, t);
      }
    }
  }

  lemma MovedAre(x: Scene, reply: Reply)
    requires Works(x) && !reply.Warned?
    ensures Moved(x, StateOf(reply)) == Pool.Answered(Replies(x.execute), reply, PlanOf(x).valid, PlanOf(x).attempts)
  {
    hide Moved, Pool.Answered, PlanOf, Works;
    forall t ensures t in Moved(x, StateOf(reply))
        <==> t in Pool.Answered(Replies(x.execute), reply, PlanOf(x).valid, PlanOf(x).attempts) {
      MovedMember(x, reply, t);
    }
  }

  lemma NotAttempted(x: Scene, t: int)
    requires t !in Attempted(x)
    ensures forall i :: 0 <= i < PlanOf(x).attempts ==> PlanOf(x).valid[i] != t
    ensures forall i :: !RecordedAt(x, t, i)
  {
    forall i | 0 <= i < |Attempted(x)| ensures PlanOf(x).valid[i] != t {
      assert Attempted(x)[i] == PlanOf(x).valid[i];
    }
  }

  lemma SkippedAre(x: Scene)
    requires Works(x)
    ensures Moved(x, Skipped) == SkippedBy(x)
  {
    hide Tick, Works, PlanOf, Fits, RecordedAt;
    forall t ensures t in Moved(x, Skipped) <==> t in SkippedBy(x) {
      if t in x.campaign.targets {
        TargetFate(x, t);
        SkippedWasQueued(x, t);
        if i :| RecordedAt(x, t, i) {
          RecordedNotSkipped(x, t, i);
        }
      }
    }
  }

  lemma SkippedWasQueued(x: Scene, t: int)
    ensures t in SkippedBy(x) ==> t in x.campaign.targets && x.campaign.targets[t].state.Queued?
  {
  }

  lemma RecordedNotSkipped(x: Scene, t: int, i: nat)
    requires RecordedAt(x, t, i)
    ensures t !in SkippedBy(x)
  {
    PlanMember(x, i);
  }

  /** What a tick reports is what happened to the targets: as many were sent to, invited in, failed and
      skipped as it says, and the campaign is paused exactly when it says so. */
  lemma ReportIsTrue(x: Scene)
    requires Works(x)
    ensures var r := Tick(x);
      && r.summary.sent == |Moved(x, Sent)| && r.summary.joined == |Moved(x, Joined)|
      && r.summary.failed == |Moved(x, Failed)|
      && r.summary.skipped == |Moved(x, Skipped)|
      && (r.summary.paused <==> r.campaign.status.Paused?)
  {
    hide Tick, Works, PlanOf, Fits, AccountsAfter, TargetsAfter, Pool.Answered, Pool.Tally, Moved, QueuedSet,
      StoredAfter, SkippedBy;
    var p := PlanOf(x);
    WorkingTick(x);
    PlanIsDistinct(p, x);
    MovedAre(x, DidSend);
    MovedAre(x, DidJoin);
    MovedAre(x, DidFail);
    SkippedAre(x);
    Pool.AnsweredCount(Replies(x.execute), DidSend, p.valid, p.attempts);
    Pool.AnsweredCount(Replies(x.execute), DidJoin, p.valid, p.attempts);
    Pool.AnsweredCount(Replies(x.execute), DidFail, p.valid, p.attempts);
  }

  // ------------------------------------------------------- conservation and progress ---

  /** A queued target stays queued, is executed or is skipped; no other target becomes queued. */
  lemma QueuedMoves(x: Scene, t: int)
    requires Works(x) && t in x.campaign.targets
    ensures t in Tick(x).campaign.targets
    ensures var old', new' := x.campaign.targets[t].state, Tick(x).campaign.targets[t].state;
      && (new'.Queued? ==> old'.Queued?)
      && (old'.Queued? ==> new'.Queued? || new'.Sent? || new'.Joined? || new'.Failed? || new'.Skipped?)
  {
    hide Tick, Works, PlanOf, Fits, RecordedAt;
    TargetFate(x, t);
    SkippedWasQueued(x, t);
  }

  lemma QueuedSplits(x: Scene)
    requires Works(x)
    ensures QueuedSet(x.campaign.targets)
         == QueuedSet(Tick(x).campaign.targets) + Moved(x, Sent) + Moved(x, Joined) + Moved(x, Failed)
            + Moved(x, Skipped)
  {
    TickKeepsShape(x);
    hide Tick, Works;
    forall t | t in x.campaign.targets
      ensures t in QueuedSet(x.campaign.targets)
         <==> t in QueuedSet(Tick(x).campaign.targets) + Moved(x, Sent) + Moved(x, Joined) + Moved(x, Failed)
              + Moved(x, Skipped)
    {
      QueuedMoves(x, t);
    }
  }

  lemma FiveParts(q: set<int>, a: set<int>, b: set<int>, c: set<int>, d: set<int>)
    requires q !! a !! b !! c !! d
    ensures |q + a + b + c + d| == |q| + |a| + |b| + |c| + |d|
  {
  }

  lemma MovedApart(x: Scene)
    ensures QueuedSet(Tick(x).campaign.targets) !! Moved(x, Sent) !! Moved(x, Joined) !! Moved(x, Failed)
        !! Moved(x, Skipped)
  {
    hide Tick;
  }

  /** Conservation: what leaves the queue is exactly what is reported as sent, joined, failed or skipped. */
  lemma Conservation(x: Scene)
    ensures var r := Tick(x);
      |QueuedSet(x.campaign.targets)|
      == |QueuedSet(r.campaign.targets)| + r.summary.sent + r.summary.joined + r.summary.failed + r.summary.skipped
  {
    if Works(x) {
      hide Tick, Works, QueuedSet, Moved;
      ReportIsTrue(x);
      QueuedSplits(x);
      MovedApart(x);
      FiveParts(QueuedSet(Tick(x).campaign.targets), Moved(x, Sent), Moved(x, Joined), Moved(x, Failed),
                Moved(x, Skipped));
    }
  }

  lemma {:induction false} TallySplits(execute: Executor, k: nat)
    ensures var t := Replies(execute);
      Pool.Tally(t, DidSend, k) + Pool.Tally(t, DidJoin, k) + Pool.Tally(t, DidFail, k) + Pool.Tally(t, Warned, k) == k
  {
    if k == 0 {
    } else {
      TallySplits(execute, k - 1);
      var reply := Replies(execute)(k - 1);
      assert reply.DidSend? || reply.DidJoin? || reply.DidFail? || reply.Warned?;
    }
  }

  lemma {:induction false} NoneWarned(execute: Executor, k: nat)
    requires forall i :: 0 <= i < k ==> !execute(i).reply.Warned?
    ensures Pool.Tally(Replies(execute), Warned, k) == 0
  {
    if k == 0 {
    } else {
      NoneWarned(execute, k - 1);
    }
  }

  lemma AttemptsMade(x: Scene)
    ensures var p := PlanOf(x); p.attempts == Pool.Made(Effects(x.execute), Min(|p.order|, |p.valid|))
  {
    hide Fits, Pool.Made, Effects;
  }

  /** Only the last attempt of a tick may be answered with a warning. */
  lemma OnlyLastWarned(x: Scene)
    ensures var m := PlanOf(x).attempts;
      && (forall k :: 0 <= k < m - 1 ==> !x.execute(k).reply.Warned?)
      && (Pool.Stopped(Effects(x.execute), m) <==> m > 0 && x.execute(m - 1).reply.Warned?)
  {
    hide PlanOf, Pool.Made;
    var p := PlanOf(x);
    AttemptsMade(x);
    Pool.MadeStops(Effects(x.execute), Min(|p.order|, |p.valid|));
    assert forall k: nat :: Effects(x.execute)(k).Quarantine? == x.execute(k).reply.Warned?;
  }

  lemma WarnedOnce(x: Scene)
    requires Works(x)
    ensures var m := PlanOf(x).attempts;
      Pool.Tally(Replies(x.execute), Warned, m) == if Pool.Stopped(Effects(x.execute), m) then 1 else 0
  {
    hide PlanOf, Works, Pool.Made, Effects;
    var p := PlanOf(x);
    OnlyLastWarned(x);
    if p.attempts > 0 {
      NoneWarned(x.execute, p.attempts - 1);
    }
  }

  /** How a working tick's plan uses the pool. */
  lemma PlanUsesPool(x: Scene)
    ensures var p := PlanOf(x);
      && p.order == TickOrder(x) && Distinct(p.order) && Pool.AllUsable(p.order, x.accounts, x.now, x.minDelay)
      && p.attempts == Pool.Made(Effects(x.execute), Min(|p.order|, |p.valid|))
  {
    Pool.OrderIsUsable(x.accounts, x.now, x.minDelay, x.campaign.lastAccountId);
    hide Valid, Pool.Order, Pool.Made, ContactsOf;
  }

  lemma SoundAfter(x: Scene)
    requires Works(x)
    ensures |Pool.Sound(x.accounts)| == |Pool.Sound(Tick(x).accounts)| + if Tick(x).summary.paused then 1 else 0
  {
    hide Tick, PlanOf, Works, TickOrder, Pool.After, Pool.Made, Pool.AllUsable, Pool.Sound, Pool.Tally, Distinct, Fits,
      TargetsAfter, StatusAfter, SkippedBy;
    var p := PlanOf(x);
    WorkingTick(x);
    PlanUsesPool(x);
    Pool.WarningCostsOne(x.accounts, p.order, Effects(x.execute), x.now, x.minDelay, Min(|p.order|, |p.valid|));
  }

  /** Queued targets and sound accounts together fall by one for every skip and every attempt. */
  lemma AttemptsAddUp(x: Scene)
    requires Works(x)
    ensures |QueuedSet(x.campaign.targets)| + |Pool.Sound(x.accounts)|
         == |QueuedSet(Tick(x).campaign.targets)| + |Pool.Sound(Tick(x).accounts)| + Tick(x).summary.skipped
            + PlanOf(x).attempts
  {
    hide Tick, PlanOf, Works, QueuedSet, Pool.Sound, Pool.Tally, SkippedBy, StatusAfter, TargetsAfter, AccountsAfter,
      Fits;
    WorkingTick(x);
    Conservation(x);
    TallySplits(x.execute, PlanOf(x).attempts);
    WarnedOnce(x);
    SoundAfter(x);
  }

  /** So ticks that find a due target end: each lowers the number of queued targets and sound accounts. */
  lemma Progress(x: Scene, t: int)
    requires Works(x) && t in QueuedSet(x.campaign.targets) && x.campaign.targets[t].scheduledAt <= x.now
    ensures |QueuedSet(Tick(x).campaign.targets)| + |Pool.Sound(Tick(x).accounts)|
          < |QueuedSet(x.campaign.targets)| + |Pool.Sound(x.accounts)|
  {
    AttemptsAddUp(x);
    WorkingTick(x);
    SomethingToDo(x, t);
    hide Tick, PlanOf, Works, QueuedSet, Pool.Sound, SkippedBy, StatusAfter, TargetsAfter, AccountsAfter, Fits;
    assert |SkippedBy(x)| > 0 || PlanOf(x).attempts > 0;
  }

  lemma SomethingToDo(x: Scene, t: int)
    requires Works(x) && t in QueuedSet(x.campaign.targets) && x.campaign.targets[t].scheduledAt <= x.now
    ensures |SkippedBy(x)| > 0 || PlanOf(x).attempts > 0
  {
    if t in SkippedBy(x) {
      assert |SkippedBy(x)| > 0;
    } else {
      var p := PlanOf(x);
      assert t in Valid(x);
      assert |p.order| > 0 && |p.valid| > 0;
      hide Valid, TickOrder, SkippedBy;
      Pool.MadeSome(Effects(x.execute), Min(|p.order|, |p.valid|));
    }
  }

  // ------------------------------------------------------------------ runs of ticks ---

  /** A campaign driven by a run of ticks; everything but the campaign may change freely in between. */
  function Driven(c: Campaign, ticks: seq<Scene>): Campaign
    decreases |ticks|
  {
    if ticks == [] then c else Driven(Tick(ticks[0].(campaign := c)).campaign, ticks[1..])
  }

  /** Some account can act, and every target of the campaign is due. */
  ghost predicate Ready(x: Scene, c: Campaign) {
    Pool.UsableSet(x.accounts, x.now, x.minDelay) != {}
    && forall t :: t in c.targets ==> c.targets[t].scheduledAt <= x.now
  }

  ghost function ReadyTicks(c: Campaign, ticks: seq<Scene>): nat
    decreases |ticks|
  {
    if ticks == [] then 0 else (if Ready(ticks[0], c) then 1 else 0) + ReadyTicks(c, ticks[1..])
  }

  /** The same targets at the same times. */
  ghost predicate SameSchedule(c: Campaign, d: Campaign) {
    c.targets.Keys == d.targets.Keys
    && forall t :: t in c.targets ==> c.targets[t].scheduledAt == d.targets[t].scheduledAt
  }

  lemma TickKeepsSchedule(x: Scene)
    ensures SameSchedule(x.campaign, Tick(x).campaign)
  {
    hide PlanOf, Works, SkippedBy, RecordedAt, TargetsAfter;
    if Works(x) {
      TickKeepsShape(x);
      forall t | t in x.campaign.targets
        ensures t in Tick(x).campaign.targets
          && Tick(x).campaign.targets[t].scheduledAt == x.campaign.targets[t].scheduledAt
      {
        TargetFate(x, t);
      }
    }
  }

  lemma {:induction false} ReadyAgain(c: Campaign, d: Campaign, ticks: seq<Scene>)
    requires SameSchedule(c, d)
    ensures ReadyTicks(c, ticks) == ReadyTicks(d, ticks)
    decreases |ticks|
  {
    if ticks == [] {
    } else {
      ReadyAgain(c, d, ticks[1..]);
    }
  }

  lemma ReadyWorks(x: Scene)
    requires x.campaign.status.Running? && Ready(x, x.campaign)
    ensures Works(x)
  {
    Pool.OrderIsUsable(x.accounts, x.now, x.minDelay, x.campaign.lastAccountId);
    assert |TickOrder(x)| > 0;
  }

  /** A ready tick of a running campaign ends it or shortens its queue: a warning that leaves the queue as it
      was pauses the campaign. */
  lemma ReadyTickMoves(x: Scene)
    requires x.campaign.status.Running? && Ready(x, x.campaign)
    ensures Tick(x).campaign.status.Running? ==> |QueuedSet(Tick(x).campaign.targets)| < |QueuedSet(x.campaign.targets)|
  {
    ReadyWorks(x);
    hide Tick, PlanOf, Works, Pool.Tally, SkippedBy, TargetsAfter, AccountsAfter, Fits, StatusAfter, Pool.UsableSet;
    WorkingTick(x);
    ReportIsTrue(x);
    CompletionExact(x);
    if QueuedSet(x.campaign.targets) != {} && !Tick(x).summary.paused {
      EmptyOrInhabited(QueuedSet(x.campaign.targets));
      var t :| t in QueuedSet(x.campaign.targets);
      SomethingToDo(x, t);
      Conservation(x);
      TallySplits(x.execute, PlanOf(x).attempts);
      WarnedOnce(x);
    }
  }

  lemma QueueOnlyShrinks(x: Scene)
    ensures |QueuedSet(Tick(x).campaign.targets)| <= |QueuedSet(x.campaign.targets)|
  {
    hide Tick, QueuedSet;
    Conservation(x);
  }

  /** Termination: more ready ticks than there are queued targets leave the campaign paused or done, whatever
      is answered and whatever other ticks come in between. */
  lemma {:induction false} RunEnds(c: Campaign, ticks: seq<Scene>)
    requires ReadyTicks(c, ticks) > |QueuedSet(c.targets)|
    ensures !Driven(c, ticks).status.Running?
    decreases |ticks|
  {
    hide Tick, Works, QueuedSet, Ready, SameSchedule;
    if !c.status.Running? {
      IdleStays(c, ticks);
    } else {
      var x := ticks[0].(campaign := c);
      var next := Tick(x).campaign;
      QueueOnlyShrinks(x);
      TickKeepsSchedule(x);
      ReadyAgain(c, next, ticks[1..]);
      if !next.status.Running? {
        IdleStays(next, ticks[1..]);
      } else {
        if Ready(ticks[0], c) {
          ReadyForOwn(ticks[0], c);
          ReadyTickMoves(x);
        }
        RunEnds(next, ticks[1..]);
      }
    }
  }

  lemma ReadyForOwn(x: Scene, c: Campaign)
    requires Ready(x, c)
    ensures Ready(x.(campaign := c), c)
  {
  }

  lemma {:induction false} IdleStays(c: Campaign, ticks: seq<Scene>)
    requires !c.status.Running?
    ensures Driven(c, ticks) == c
    decreases |ticks|
  {
    if ticks == [] {
    } else {
      IdleStays(c, ticks[1..]);
    }
  }

  // ----------------------------------------------------------------- first start ---

  lemma {:induction false} StepRowsAre(campaign: Campaign, variants: Variants, now: Time, contacts: seq<int>, s: nat,
                                       j: nat, i: nat)
    requires s < |Steps(campaign)| && i < j <= |contacts|
    ensures StepRows(campaign, variants, now, contacts, s, j)[i] == TargetFor(campaign, variants, now, s, contacts[i])
  {
    if i >= j - 1 {
    } else {
      StepRowsAre(campaign, variants, now, contacts, s, j - 1, i);
    }
  }

  /** Where the row of step `s` and the `j`-th contact stands among the rows of `k` steps. */
  lemma {:induction false} RowOf(campaign: Campaign, variants: Variants, now: Time, contacts: seq<int>, k: nat, s: nat,
                                 j: nat)
    returns (i: nat)
    requires s < k <= |Steps(campaign)| && j < |contacts|
    ensures i < |Rows(campaign, variants, now, contacts, k)|
    ensures Rows(campaign, variants, now, contacts, k)[i] == TargetFor(campaign, variants, now, s, contacts[j])
  {
    var before := Rows(campaign, variants, now, contacts, k - 1);
    if s < k - 1 {
      i := RowOf(campaign, variants, now, contacts, k - 1, s, j);
    } else {
      i := |before| + j;
      StepRowsAre(campaign, variants, now, contacts, s, |contacts|, j);
    }
  }

  /** Which step and contact the `i`-th row is for. */
  lemma {:induction false} PairOf(campaign: Campaign, variants: Variants, now: Time, contacts: seq<int>, k: nat, i: nat)
    returns (s: nat, j: nat)
    requires k <= |Steps(campaign)| && i < |Rows(campaign, variants, now, contacts, k)|
    ensures s < k && j < |contacts|
    ensures Rows(campaign, variants, now, contacts, k)[i] == TargetFor(campaign, variants, now, s, contacts[j])
  {
    var before := Rows(campaign, variants, now, contacts, k - 1);
    if i < |before| {
      s, j := PairOf(campaign, variants, now, contacts, k - 1, i);
    } else {
      s, j := k - 1, i - |before|;
      StepRowsAre(campaign, variants, now, contacts, s, |contacts|, j);
    }
  }

  /** No two rows are for the same contact and step. */
  lemma {:induction false} RowsDiffer(campaign: Campaign, variants: Variants, now: Time, contacts: seq<int>, k: nat,
                                      a: nat, b: nat)
    requires Distinct(contacts) && k <= |Steps(campaign)|
    requires a < b < |Rows(campaign, variants, now, contacts, k)|
    ensures var rows := Rows(campaign, variants, now, contacts, k);
      rows[a].contactId != rows[b].contactId || rows[a].step != rows[b].step
  {
    var before := Rows(campaign, variants, now, contacts, k - 1);
    if b < |before| {
      RowsDiffer(campaign, variants, now, contacts, k - 1, a, b);
    } else {
      StepRowsAre(campaign, variants, now, contacts, k - 1, |contacts|, b - |before|);
      if a < |before| {
        var s, j := PairOf(campaign, variants, now, contacts, k - 1, a);
      } else {
        StepRowsAre(campaign, variants, now, contacts, k - 1, |contacts|, a - |before|);
        DistinctPair(contacts, a - |before|, b - |before|);
      }
    }
  }

  lemma {:induction false} InsertedIs(next: int, rows: seq<CampaignTarget>, t: int)
    ensures t in Inserted(map[], next, rows) <==> next <= t < next + |rows|
    ensures next <= t < next + |rows| ==> Inserted(map[], next, rows)[t] == rows[t - next]
  {
    if rows == [] {
    } else {
      InsertedIs(next, rows[..|rows| - 1], t);
    }
  }

  /** The contacts and the rows of a first start. */
  ghost function StartIds(campaign: Campaign, contacts: Contacts, already: set<int>): seq<int> {
    ById(Segmented(contacts, campaign.segment, already))
  }

  ghost function StartRows(campaign: Campaign, contacts: Contacts, already: set<int>, variants: Variants,
                           now: Time): seq<CampaignTarget> {
    Rows(campaign, variants, now, StartIds(campaign, contacts, already), |Steps(campaign)|)
  }

  lemma {:induction false} RowsIgnoreStatus(c: Campaign, d: Campaign, variants: Variants, now: Time, contacts: seq<int>,
                                            k: nat)
    requires c.steps == d.steps && c.abTest == d.abTest && k <= |Steps(c)|
    ensures Rows(c, variants, now, contacts, k) == Rows(d, variants, now, contacts, k)
  {
    if k == 0 {
    } else {
      RowsIgnoreStatus(c, d, variants, now, contacts, k - 1);
      StepRowsIgnoreStatus(c, d, variants, now, contacts, k - 1, |contacts|);
    }
  }

  lemma {:induction false} StepRowsIgnoreStatus(c: Campaign, d: Campaign, variants: Variants, now: Time,
                                                contacts: seq<int>, s: nat, j: nat)
    requires c.steps == d.steps && c.abTest == d.abTest && s < |Steps(c)| && j <= |contacts|
    ensures StepRows(c, variants, now, contacts, s, j) == StepRows(d, variants, now, contacts, s, j)
  {
    if j == 0 {
    } else {
      StepRowsIgnoreStatus(c, d, variants, now, contacts, s, j - 1);
    }
  }

  lemma FirstStartTargets(campaign: Campaign, contacts: Contacts, already: set<int>, variants: Variants, now: Time,
                          next: int)
    requires campaign.startedAt.None? && campaign.targets == map[]
    ensures Started(campaign, contacts, already, variants, now, next)
         == campaign.(status := Running, startedAt := Some(now),
                      targets := Inserted(map[], next, StartRows(campaign, contacts, already, variants, now)))
  {
    var started := campaign.(status := Running, startedAt := Some(now));
    RowsIgnoreStatus(started, campaign, variants, now, StartIds(campaign, contacts, already), |Steps(campaign)|);
  }

  /** Every consenting contact of the segment gets a target for every step ... */
  lemma FirstStartReachesAll(campaign: Campaign, contacts: Contacts, already: set<int>, variants: Variants,
                             now: Time, next: int, s: nat, c: int) returns (t: int)
    requires campaign.startedAt.None? && campaign.targets == map[] && s < |Steps(campaign)|
    requires c in Segmented(contacts, campaign.segment, already)
    ensures var targets := Started(campaign, contacts, already, variants, now, next).targets;
      t in targets && targets[t] == TargetFor(campaign, variants, now, s, c)
  {
    hide Segmented, ById, TargetFor;
    FirstStartTargets(campaign, contacts, already, variants, now, next);
    var ids, rows := StartIds(campaign, contacts, already), StartRows(campaign, contacts, already, variants, now);
    var j :| 0 <= j < |ids| && ids[j] == c;
    var i := RowOf(campaign, variants, now, ids, |Steps(campaign)|, s, j);
    InsertedIs(next, rows, next + i);
    t := next + i;
  }

  /** ... at the start plus the step's offset, and nobody else gets one ... */
  lemma FirstStartOnlyThese(campaign: Campaign, contacts: Contacts, already: set<int>, variants: Variants,
                            now: Time, next: int, t: int)
    requires campaign.startedAt.None? && campaign.targets == map[]
    requires t in Started(campaign, contacts, already, variants, now, next).targets
    ensures var row := Started(campaign, contacts, already, variants, now, next).targets[t];
      && row.contactId in Segmented(contacts, campaign.segment, already)
      && row.step < |Steps(campaign)|
      && row == TargetFor(campaign, variants, now, row.step, row.contactId)
  {
    hide Segmented, ById;
    FirstStartTargets(campaign, contacts, already, variants, now, next);
    var ids, rows := StartIds(campaign, contacts, already), StartRows(campaign, contacts, already, variants, now);
    InsertedIs(next, rows, t);
    var s, j := PairOf(campaign, variants, now, ids, |Steps(campaign)|, t - next);
    assert ids[j] in ids;
  }

  /** ... and no contact gets the same step twice. */
  lemma FirstStartNoDuplicates(campaign: Campaign, contacts: Contacts, already: set<int>, variants: Variants,
                               now: Time, next: int, t: int, u: int)
    requires campaign.startedAt.None? && campaign.targets == map[]
    requires t in Started(campaign, contacts, already, variants, now, next).targets
    requires u in Started(campaign, contacts, already, variants, now, next).targets && t < u
    ensures var targets := Started(campaign, contacts, already, variants, now, next).targets;
      targets[t].contactId != targets[u].contactId || targets[t].step != targets[u].step
  {
    hide Segmented, ById;
    FirstStartTargets(campaign, contacts, already, variants, now, next);
    var ids, rows := StartIds(campaign, contacts, already), StartRows(campaign, contacts, already, variants, now);
    InsertedIs(next, rows, t);
    InsertedIs(next, rows, u);
    ByIdDistinct(Segmented(contacts, campaign.segment, already));
    RowsDiffer(campaign, variants, now, ids, |Steps(campaign)|, t - next, u - next);
  }

  // ------------------------------------------------------------------ drip order ---

  ghost predicate HasRun(c: Campaign, t: int) {
    t in c.targets && Executed(c.targets[t])
  }

  ghost predicate Waits(c: Campaign, t: int) {
    t in c.targets && c.targets[t].state.Queued?
  }

  /** Every queued target comes after every executed one in `(scheduled_at, id)` order. */
  ghost predicate FirstInFirstOut(c: Campaign) {
    forall e, q :: HasRun(c, e) && Waits(c, q) ==> Before(Schedule(c.targets), e, q)
  }

  ghost predicate TargetOnTime(c: Campaign, t: CampaignTarget) {
    && c.startedAt.Some? && t.step < |Steps(c)|
    && t.scheduledAt == c.startedAt.value + Hours(Steps(c)[t.step].offsetHours)
    && (Executed(t) ==> t.sentAt.Some? && t.sentAt.value >= t.scheduledAt)
  }

  /** Each target is scheduled at the start plus its step's offset, and none ran before that. */
  ghost predicate OnTime(c: Campaign) {
    forall t :: t in c.targets ==> TargetOnTime(c, c.targets[t])
  }

  /** Targets are made by the first start only, so a campaign never started has none. */
  ghost predicate Drip(c: Campaign) {
    FirstInFirstOut(c) && OnTime(c) && (c.startedAt.None? ==> c.targets == map[])
  }

  /** Positions in a list in order are ordered like their keys. */
  lemma OrderedAt(ids: seq<int>, key: map<int, int>, i: nat, j: nat)
    requires (forall id :: id in ids ==> id in key) && Ordered(ids, key) && i < j < |ids|
    ensures Before(key, ids[i], ids[j])
  {
  }

  /** A recorded attempt comes before any attempt that records nothing. */
  lemma RecordedComesFirst(x: Scene, e: int, i: nat, q: int, j: nat)
    requires RecordedAt(x, e, i) && j < |PlanOf(x).valid| && PlanOf(x).valid[j] == q && q != e && !RecordedAt(x, q, j)
    ensures i < j
  {
    hide PlanOf;
    OnlyLastWarned(x);
  }

  lemma InValid(x: Scene, q: int)
    requires Waits(x.campaign, q) && q !in SkippedBy(x) && x.campaign.targets[q].scheduledAt <= x.now
    ensures q in Valid(x)
  {
  }

  lemma RecordedBeforeWaiting(x: Scene, e: int, i: nat, q: int)
    requires RecordedAt(x, e, i) && Waits(x.campaign, q) && q !in SkippedBy(x)
    requires forall j :: !RecordedAt(x, q, j)
    ensures e in x.campaign.targets && Before(Schedule(x.campaign.targets), e, q)
  {
    hide SkippedBy;
    var p, ts := PlanOf(x), x.campaign.targets;
    ValidInOrder(x);
    if ts[q].scheduledAt <= x.now {
      InValid(x, q);
      var j :| 0 <= j < |p.valid| && p.valid[j] == q;
      assert !RecordedAt(x, q, j);
      RecordedComesFirst(x, e, i, q, j);
      OrderedAt(p.valid, Schedule(ts), i, j);
    }
  }

  lemma TickKeepsOrder(x: Scene)
    requires Works(x) && FirstInFirstOut(x.campaign)
    ensures FirstInFirstOut(Tick(x).campaign)
  {
    hide Tick, Works, SkippedBy, PlanOf, RecordedAt;
    var c, r := x.campaign, Tick(x).campaign;
    TickKeepsShape(x);
    forall e, q | HasRun(r, e) && Waits(r, q) ensures Before(Schedule(r.targets), e, q) {
      TargetFate(x, e);
      TargetFate(x, q);
      assert forall i :: !RecordedAt(x, q, i);
      if i :| RecordedAt(x, e, i) {
        RecordedBeforeWaiting(x, e, i, q);
      } else {
        assert HasRun(c, e) && Waits(c, q);
      }
    }
  }

  lemma TickKeepsTime(x: Scene)
    requires Works(x) && OnTime(x.campaign)
    ensures OnTime(Tick(x).campaign)
  {
    hide Tick, Works, SkippedBy, PlanOf, RecordedAt;
    var r := Tick(x).campaign;
    TickKeepsShape(x);
    forall t | t in r.targets ensures TargetOnTime(r, r.targets[t]) {
      TargetFate(x, t);
      assert TargetOnTime(x.campaign, x.campaign.targets[t]);
      if i :| RecordedAt(x, t, i) {
        assert r.targets[t].sentAt == Some(x.now);
      }
    }
  }

  lemma TickKeepsDrip(x: Scene)
    requires Drip(x.campaign)
    ensures Drip(Tick(x).campaign)
  {
    hide FirstInFirstOut, OnTime, PlanOf, TickOrder, Fits;
    if Works(x) {
      TickKeepsOrder(x);
      TickKeepsTime(x);
      TickKeepsShape(x);
    }
  }

  lemma StartKeepsDrip(c: Campaign, contacts: Contacts, already: set<int>, variants: Variants, now: Time, next: int)
    requires Drip(c)
    ensures Drip(Started(c, contacts, already, variants, now, next))
  {
    hide Materialized, Segmented;
    var r := Started(c, contacts, already, variants, now, next);
    if c.startedAt.None? {
      forall t | t in r.targets ensures TargetOnTime(r, r.targets[t]) && r.targets[t].state.Queued? {
        FirstStartOnlyThese(c, contacts, already, variants, now, next, t);
      }
    } else {
      StatusKeepsDrip(c, Running);
    }
  }

  lemma StatusKeepsDrip(c: Campaign, status: JobStatus)
    requires Drip(c)
    ensures Drip(c.(status := status))
  {
    var r := c.(status := status);
    forall e, q | HasRun(r, e) && Waits(r, q) ensures Before(Schedule(r.targets), e, q) {
      assert HasRun(c, e) && Waits(c, q);
    }
    forall t | t in r.targets ensures TargetOnTime(r, r.targets[t]) {
      assert TargetOnTime(c, c.targets[t]);
    }
  }

  // ------------------------------------------------------------------- whole runs ---

  /** What can happen to a campaign; a tick brings its own accounts, contacts, clock and answers. */
  datatype Event =
    | StartIt(contacts: Contacts, already: set<int>, variants: Variants, now: Time, next: int)
    | PauseIt
    | StopIt
    | TickIt(scene: Scene)

  function Step(c: Campaign, e: Event): Campaign {
    match e
    case StartIt(contacts, already, variants, now, next) => Started(c, contacts, already, variants, now, next)
    case PauseIt => c.(status := Paused)
    case StopIt => c.(status := Done)
    case TickIt(scene) => Tick(scene.(campaign := c)).campaign
  }

  function Run(c: Campaign, events: seq<Event>): Campaign {
    if events == [] then c else Step(Run(c, events[..|events| - 1]), events[|events| - 1])
  }

  /** Every reachable state of a campaign drips in order and on time, through warnings, skips, pauses,
      stops and restarts, and with any clock. */
  lemma {:induction false} RunKeepsDrip(c: Campaign, events: seq<Event>)
    requires c.startedAt.None? && c.targets == map[]
    ensures Drip(Run(c, events))
  {
    if events == [] {
    } else {
      var before, e := Run(c, events[..|events| - 1]), events[|events| - 1];
      RunKeepsDrip(c, events[..|events| - 1]);
      match e {
        case StartIt(contacts, already, variants, now, next) =>
          StartKeepsDrip(before, contacts, already, variants, now, next);
        case PauseIt => StatusKeepsDrip(before, Paused);
        case StopIt => StatusKeepsDrip(before, Done);
        case TickIt(scene) => TickKeepsDrip(scene.(campaign := before));
      }
    }
  }

  /** So no contact gets a later-scheduled step while an earlier one is still queued, and no step runs
      before the campaign's start plus its offset. */
  lemma NoStepOvertakes(c: Campaign, events: seq<Event>, e: int, q: int)
    requires c.startedAt.None? && c.targets == map[]
    requires HasRun(Run(c, events), e)
    ensures var r := Run(c, events);
      && r.startedAt.Some? && r.targets[e].step < |Steps(r)| && r.targets[e].sentAt.Some?
      && r.targets[e].sentAt.value >= r.startedAt.value + Hours(Steps(r)[r.targets[e].step].offsetHours)
      && (Waits(r, q) && r.targets[q].contactId == r.targets[e].contactId ==>
            r.targets[q].scheduledAt >= r.targets[e].scheduledAt)
  {
    RunKeepsDrip(c, events);
    var r := Run(c, events);
    assert TargetOnTime(r, r.targets[e]);
    if Waits(r, q) {
      assert Before(Schedule(r.targets), e, q);
    }
  }
}
