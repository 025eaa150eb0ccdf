/** What ticks report against what happened: the actions listed are exactly the charges, each with its own contact or
    state, and the counts of add ticks and warm-up ticks are the numbers of rows that moved. */
module Reports {
  import opened Core
  import opened Ordering
  import opened Models
  import Pool
  import Sender
  import SenderLaws
  import Campaigns
  import CampaignLaws
  import Destinations
  import DestinationLaws
  import Warmup
  import WarmupFates

  // -------------------------------------------------------------------------- actions ---

  /** The accounts charged by the first `k` attempts, in order. */
  ghost function Charged(order: seq<int>, effects: Pool.Effects, k: nat): seq<int>
    requires k <= |order|
  {
    if k == 0 then []
    else Charged(order, effects, k - 1) + if effects(k - 1).Charge? then [order[k - 1]] else []
  }

  /** They are the accounts of the charge log. */
  lemma {:induction false} ChargedAreLogged(order: seq<int>, effects: Pool.Effects, now: Time, minDelay: int, k: nat)
    requires k <= |order|
    ensures var log := Pool.Charges(order, effects, now, minDelay, k);
      |log| == |Charged(order, effects, k)|
      && forall i :: 0 <= i < |log| ==> log[i].account == Charged(order, effects, k)[i]
  {
    if k == 0 {
    } else {
      ChargedAreLogged(order, effects, now, minDelay, k - 1);
    }
  }

  /** A sender tick lists one action for each charge, with the contact of that attempt. */
  lemma {:induction false} SenderActions(execute: Sender.Executor, order: seq<int>, cids: seq<int>, k: nat)
    requires k <= |order| && k <= |cids|
    ensures var actions := Sender.Deliveries(execute, order, cids, k);
      && |actions| == |Charged(order, Sender.Effects(execute), k)|
      && forall i :: 0 <= i < |actions| ==>
           && actions[i].0 == Charged(order, Sender.Effects(execute), k)[i]
           && exists n :: 0 <= n < k && actions[i] == (order[n], cids[n]) && execute(n).outcome.Delivered?
  {
    if k == 0 {
    } else {
      SenderActions(execute, order, cids, k - 1);
      assert Sender.Effects(execute)(k - 1).Charge? <==> execute(k - 1).outcome.Delivered?;
    }
  }

  /** So does a campaign tick; failures count as actions. */
  lemma {:induction false} CampaignActions(execute: Campaigns.Executor, order: seq<int>, cids: seq<int>, k: nat)
    requires k <= |order| && k <= |cids|
    ensures var actions := Campaigns.Recorded(execute, order, cids, k);
      && |actions| == |Charged(order, Campaigns.Effects(execute), k)|
      && forall i :: 0 <= i < |actions| ==>
           && actions[i].0 == Charged(order, Campaigns.Effects(execute), k)[i]
           && exists n :: 0 <= n < k && actions[i] == (order[n], cids[n]) && !execute(n).reply.Warned?
  {
    if k == 0 {
    } else {
      CampaignActions(execute, order, cids, k - 1);
      assert Campaigns.Effects(execute)(k - 1).Charge? <==> !execute(k - 1).reply.Warned?;
    }
  }

  /** The action is that of one of the first `k` attempts, with the state the engine answered. */
  ghost predicate AnsweredBefore(x: Destinations.Scene, k: nat, action: (int, MemberState))
    requires k <= |Destinations.TickOrder(x)|
  {
    exists n :: 0 <= n < k && x.execute(n).Result? && action == (Destinations.TickOrder(x)[n], x.execute(n).state)
  }

  /** And an add tick, with the state the engine answered. */
  lemma {:induction false} AddActions(x: Destinations.Scene, k: nat)
    requires k <= |Destinations.TickOrder(x)|
    ensures var queue, order := Destinations.Queue(x.destination.memberships), Destinations.TickOrder(x);
      var actions := Destinations.SummaryAfter(x, k).actions;
      && |actions| == |Charged(order, Destinations.Effects(x, queue), k)|
      && forall i :: 0 <= i < |actions| ==>
           actions[i].0 == Charged(order, Destinations.Effects(x, queue), k)[i] && AnsweredBefore(x, k, actions[i])
  {
    hide Destinations.Queue, Destinations.TickOrder;
    if k == 0 {
    } else {
      AddActions(x, k - 1);
      var queue := Destinations.Queue(x.destination.memberships);
      var before := Destinations.SummaryAfter(x, k - 1).actions;
      assert Destinations.Effects(x, queue)(k - 1).Charge?
          <==> !Destinations.Gone(x, queue, k - 1) && !x.execute(k - 1).Flood?;
      forall i | 0 <= i < |before| ensures AnsweredBefore(x, k, before[i]) {
        assert AnsweredBefore(x, k - 1, before[i]);
      }
      if x.execute(k - 1).Result? {
        assert AnsweredBefore(x, k, (Destinations.TickOrder(x)[k - 1], x.execute(k - 1).state));
      }
    }
  }

  // ------------------------------------------------------------------ what is remembered ---

  /** The account remembered by a job is that of the last action its tick lists; without one it stays. */
  lemma {:induction false} SenderRemembers(execute: Sender.Executor, order: seq<int>, cids: seq<int>, last: Option<int>,
                                           k: nat)
    requires k <= |order| && k <= |cids|
    ensures var actions := Sender.Deliveries(execute, order, cids, k);
      Sender.LastUsed(execute, order, last, k) == if actions == [] then last else Some(actions[|actions| - 1].0)
  {
    if k == 0 {
    } else {
      SenderRemembers(execute, order, cids, last, k - 1);
    }
  }

  lemma {:induction false} CampaignRemembers(execute: Campaigns.Executor, order: seq<int>, cids: seq<int>,
                                             last: Option<int>, k: nat)
    requires k <= |order| && k <= |cids|
    ensures var actions := Campaigns.Recorded(execute, order, cids, k);
      Campaigns.LastUsed(execute, order, last, k) == if actions == [] then last else Some(actions[|actions| - 1].0)
  {
    if k == 0 {
    } else {
      CampaignRemembers(execute, order, cids, last, k - 1);
    }
  }

  /** What a working sender tick leaves of the job: paused by a warning, done when nothing was queued, else running; the
      account of the last action; the targets; and nothing else. */
  lemma SenderJobAfter(x: Sender.Scene)
    requires Sender.Works(x)
    ensures var r := Sender.Tick(x); var actions := r.summary.actions;
      && r.job == x.job.(targets := r.job.targets, status := r.job.status, lastAccountId := r.job.lastAccountId)
      && r.job.status == (if r.summary.paused then Paused
                          else if Sender.QueuedSet(x.job.targets) == {} then Done else Running)
      && r.job.lastAccountId == (if actions == [] then x.job.lastAccountId else Some(actions[|actions| - 1].0))
  {
    SenderLaws.CompletionExact(x);
    SenderLaws.ReportIsTrue(x);
    SenderJobParts(x);
    hide Sender.Tick, Sender.PlanOf, Sender.Works, Sender.QueuedSet, Sender.StatusAfter;
    var p := Sender.PlanOf(x);
    SenderRemembers(x.execute, p.order, p.cids, x.job.lastAccountId, p.attempts);
  }

  lemma SenderJobParts(x: Sender.Scene)
    requires Sender.Works(x)
    ensures var r, p := Sender.Tick(x), Sender.PlanOf(x);
      && p.attempts <= |p.order| && p.attempts <= |p.cids|
      && r.job == x.job.(targets := r.job.targets, status := r.job.status, lastAccountId := r.job.lastAccountId)
      && r.job.status in {Paused, Done, Running}
      && r.job.lastAccountId == Sender.LastUsed(x.execute, p.order, x.job.lastAccountId, p.attempts)
      && r.summary.actions == Sender.Deliveries(x.execute, p.order, p.cids, p.attempts)
  {
    hide Sender.TargetsAfter, Sender.AccountsAfter, Sender.ContactsAfter, Sender.LastUsed, Sender.Deliveries,
      Sender.StoredAfter, Pool.Tally;
  }

  /** The same for campaigns, which remember failures too. */
  lemma CampaignAfterTick(x: Campaigns.Scene)
    requires Campaigns.Works(x)
    ensures var r := Campaigns.Tick(x); var actions := r.summary.actions;
      && r.campaign == x.campaign.(targets := r.campaign.targets, status := r.campaign.status,
                                   lastAccountId := r.campaign.lastAccountId)
      && r.campaign.status == (if r.summary.paused then Paused
                               else if Campaigns.QueuedSet(x.campaign.targets) == {} then Done else Running)
      && r.campaign.lastAccountId
         == (if actions == [] then x.campaign.lastAccountId else Some(actions[|actions| - 1].0))
  {
    CampaignLaws.CompletionExact(x);
    CampaignLaws.ReportIsTrue(x);
    CampaignParts(x);
    hide Campaigns.Tick, Campaigns.PlanOf, Campaigns.Works, Campaigns.QueuedSet, Campaigns.StatusAfter;
    var p := Campaigns.PlanOf(x);
    CampaignRemembers(x.execute, p.order, p.cids, x.campaign.lastAccountId, p.attempts);
  }

  lemma CampaignParts(x: Campaigns.Scene)
    requires Campaigns.Works(x)
    ensures var r, p := Campaigns.Tick(x), Campaigns.PlanOf(x);
      && p.attempts <= |p.order| && p.attempts <= |p.cids|
      && r.campaign == x.campaign.(targets := r.campaign.targets, status := r.campaign.status,
                                   lastAccountId := r.campaign.lastAccountId)
      && r.campaign.status in {Paused, Done, Running}
      && r.campaign.lastAccountId == Campaigns.LastUsed(x.execute, p.order, x.campaign.lastAccountId, p.attempts)
      && r.summary.actions == Campaigns.Recorded(x.execute, p.order, p.cids, p.attempts)
  {
    hide Campaigns.TargetsAfter, Campaigns.AccountsAfter, Campaigns.ContactsAfter, Campaigns.LastUsed,
      Campaigns.Recorded, Campaigns.StoredAfter, Pool.Tally, Campaigns.SkippedBy;
  }

  // ------------------------------------------------------------------------ add ticks ---

  datatype Kind = Adds | Invites | Fails | Floods

  /** What attempt `k` comes to. */
  function Kinds(x: Destinations.Scene, queue: seq<int>): nat -> Kind {
    (k: nat) => if Destinations.Gone(x, queue, k) then Fails
                else match x.execute(k)
                     case Flood => Floods
                     case Result(state) => if state.Added? then Adds else if state.Invited? then Invites else Fails
  }

  lemma {:induction false} SummaryCounts(x: Destinations.Scene, k: nat)
    requires k <= |Destinations.TickOrder(x)|
    ensures var s, kinds := Destinations.SummaryAfter(x, k), Kinds(x, Destinations.Queue(x.destination.memberships));
      && s.added == Pool.Tally(kinds, Adds, k) && s.invited == Pool.Tally(kinds, Invites, k)
      && s.failed == Pool.Tally(kinds, Fails, k)
      && s.added + s.invited + s.failed + Pool.Tally(kinds, Floods, k) == k
  {
    hide Destinations.Queue, Destinations.TickOrder;
    if k == 0 {
    } else {
      SummaryCounts(x, k - 1);
    }
  }

  /** The memberships a tick turned from pending into `state`. */
  ghost function Turned(x: Destinations.Scene, state: MemberState): set<int> {
    set m | m in x.destination.memberships && x.destination.memberships[m].state.Pending?
            && m in Destinations.Tick(x).destination.memberships
            && Destinations.Tick(x).destination.memberships[m].state == state
  }

  lemma TurnedAt(x: Destinations.Scene, kind: Kind, state: MemberState, k: nat)
    requires Destinations.Works(x) && k < DestinationLaws.Settled(x)
    requires (kind == Adds && state == Added) || (kind == Invites && state == Invited)
    ensures var queue := Destinations.Queue(x.destination.memberships);
      queue[k] in Turned(x, state) <==> Kinds(x, queue)(k) == kind
  {
    hide Destinations.Queue, Destinations.Tick, Destinations.Works, DestinationLaws.Settled;
    var queue := Destinations.Queue(x.destination.memberships);
    Destinations.QueueInOrder(x);
    var m := queue[k];
    assert m in x.destination.memberships && x.destination.memberships[m].state.Pending?;
    DestinationLaws.MemberFate(x, m);
    assert Destinations.Gone(x, queue, k) <==> x.destination.memberships[m].contactId !in x.contacts;
  }

  lemma TurnedAre(x: Destinations.Scene, kind: Kind, state: MemberState)
    requires Destinations.Works(x)
    requires (kind == Adds && state == Added) || (kind == Invites && state == Invited)
    ensures var queue := Destinations.Queue(x.destination.memberships);
      Turned(x, state) == Pool.Answered(Kinds(x, queue), kind, queue, DestinationLaws.Settled(x))
  {
    hide Destinations.Queue, Destinations.Tick, Destinations.Works, DestinationLaws.Settled, Turned, Kinds;
    var queue, n := Destinations.Queue(x.destination.memberships), DestinationLaws.Settled(x);
    Destinations.QueueInOrder(x);
    forall m ensures m in Turned(x, state) <==> m in Pool.Answered(Kinds(x, queue), kind, queue, n) {
      if m in queue[..n] {
        var k :| 0 <= k < n && queue[k] == m;
        TurnedAt(x, kind, state, k);
        Pool.AnsweredAt(Kinds(x, queue), kind, queue, n, k);
      } else {
        NotTurned(x, state, m);
        DestinationLaws.NotInPrefix(queue, n, m);
        if m in Pool.Answered(Kinds(x, queue), kind, queue, n) {
          var k := Pool.AnsweredFrom(Kinds(x, queue), kind, queue, n, m);
        }
      }
    }
  }

  lemma NotTurned(x: Destinations.Scene, state: MemberState, m: int)
    requires Destinations.Works(x) && m !in Destinations.Queue(x.destination.memberships)[..DestinationLaws.Settled(x)]
    requires !state.Pending?
    ensures m !in Turned(x, state)
  {
    hide Destinations.Queue, Destinations.Tick, Destinations.Works, DestinationLaws.Settled;
    if m in x.destination.memberships {
      DestinationLaws.MemberFate(x, m);
    }
  }

  /** The attempts up to the flooded one, if any, count the same. */
  lemma FloodCounts(x: Destinations.Scene, kind: Kind)
    requires kind != Floods
    ensures var kinds := Kinds(x, Destinations.Queue(x.destination.memberships));
      Pool.Tally(kinds, kind, Destinations.Attempts(x)) == Pool.Tally(kinds, kind, DestinationLaws.Settled(x))
  {
    hide Destinations.Queue, Destinations.TickOrder;
  }

  /** What an add tick reports is what happened to the memberships: as many were added and invited as it says. */
  lemma AddReportIsTrue(x: Destinations.Scene)
    requires Destinations.Works(x)
    ensures var s := Destinations.Tick(x).summary;
      && s.added == |Turned(x, Added)| && s.invited == |Turned(x, Invited)|
      && s.added + s.invited + s.failed == DestinationLaws.Settled(x)
      && (s.paused <==> DestinationLaws.Settled(x) < Destinations.Attempts(x))
  {
    var queue, n := Destinations.Queue(x.destination.memberships), DestinationLaws.Settled(x);
    AttemptsFit(x);
    TickReports(x);
    hide Destinations.Queue, Destinations.TickOrder, Destinations.Tick, Destinations.Works, DestinationLaws.Settled,
      Turned, Kinds, Destinations.SummaryAfter, Destinations.Attempts;
    Destinations.QueueInOrder(x);
    TurnedAre(x, Adds, Added);
    TurnedAre(x, Invites, Invited);
    Pool.AnsweredCount(Kinds(x, queue), Adds, queue, n);
    Pool.AnsweredCount(Kinds(x, queue), Invites, queue, n);
    SummaryCounts(x, Destinations.Attempts(x));
    FloodCounts(x, Adds);
    FloodCounts(x, Invites);
    FloodCounts(x, Fails);
    FloodsLast(x);
    SummaryPaused(x, Destinations.Attempts(x));
  }

  lemma AttemptsFit(x: Destinations.Scene)
    ensures Destinations.Attempts(x) <= |Destinations.TickOrder(x)|
    ensures Destinations.Attempts(x) <= |Destinations.Queue(x.destination.memberships)|
  {
  }

  lemma TickReports(x: Destinations.Scene)
    requires Destinations.Works(x)
    ensures Destinations.Tick(x).summary == Destinations.SummaryAfter(x, Destinations.Attempts(x))
  {
  }

  /** At most the last attempt is flooded, and then it is not settled. */
  lemma FloodsLast(x: Destinations.Scene)
    ensures var kinds := Kinds(x, Destinations.Queue(x.destination.memberships));
      && Pool.Tally(kinds, Floods, Destinations.Attempts(x)) == Destinations.Attempts(x) - DestinationLaws.Settled(x)
  {
    hide Destinations.Queue, Destinations.TickOrder;
    var queue := Destinations.Queue(x.destination.memberships);
    var kinds := Kinds(x, queue);
    DestinationLaws.StopsOnlyAtTheEnd(x);
    assert forall k: nat :: kinds(k) == Floods <==> Destinations.Effects(x, queue)(k).Quarantine?;
    hide Kinds;
    NoneOf(kinds, Floods, DestinationLaws.Settled(x));
  }

  lemma {:induction false} NoneOf(kinds: nat -> Kind, kind: Kind, k: nat)
    requires forall i :: 0 <= i < k ==> kinds(i) != kind
    ensures Pool.Tally(kinds, kind, k) == 0
  {
    if k == 0 {
    } else {
      NoneOf(kinds, kind, k - 1);
    }
  }

  lemma {:induction false} SummaryPaused(x: Destinations.Scene, k: nat)
    requires k <= |Destinations.TickOrder(x)|
    ensures Destinations.SummaryAfter(x, k).paused
       <==> Pool.Tally(Kinds(x, Destinations.Queue(x.destination.memberships)), Floods, k) > 0
  {
    hide Destinations.Queue, Destinations.TickOrder;
    if k == 0 {
    } else {
      SummaryPaused(x, k - 1);
    }
  }

  // -------------------------------------------------------------------- warm-up ticks ---

  /** The participants among `done` that advance, or complete, and whose account is there. */
  ghost function Advanced(x: Warmup.Scene, done: seq<int>): set<int> {
    set id | id in done && id in x.run.participants && x.run.participants[id].accountId in x.accounts
             && WarmupFates.Advancing(x.run, x.run.participants[id], x.now)
  }

  ghost function Completed(x: Warmup.Scene, done: seq<int>): set<int> {
    set id | id in done && id in x.run.participants && x.run.participants[id].accountId in x.accounts
             && WarmupFates.Completing(x.run, x.run.participants[id], x.now)
  }

  /** The actions and the errors of the visits of `done`, in order. */
  ghost function ActsOf(x: Warmup.Scene, done: seq<int>, failed: bool): seq<(int, Warmup.Act)> {
    if done == [] then []
    else
      var id := done[|done| - 1];
      var before := ActsOf(x, done[..|done| - 1], failed);
      if id in x.run.participants && x.run.participants[id].accountId in x.accounts && x.fails(id) == failed
         && Warmup.Tried(x, x.run.participants[id]).Some?
      then before + [(x.run.participants[id].accountId, Warmup.Tried(x, x.run.participants[id]).value)] else before
  }

  /** What a warm-up tick reports: the numbers of participants that advanced and completed, the actions carried out and
      the accounts whose action failed, in the order of the visits. */
  lemma {:induction false} WarmupReportIs(x: Warmup.Scene, ids: seq<int>, k: nat)
    requires k <= |ids| && Distinct(ids) && forall i :: 0 <= i < |ids| ==>
      ids[i] in x.run.participants && x.run.participants[ids[i]].status.Ongoing?
    ensures var s := Warmup.SummaryAfter(x, ids, k);
      && s.advanced == |Advanced(x, ids[..k])| && s.completed == |Completed(x, ids[..k])|
      && s.actions == ActsOf(x, ids[..k], false)
      && |s.errors| == |ActsOf(x, ids[..k], true)|
      && forall i :: 0 <= i < |s.errors| ==> s.errors[i] == ActsOf(x, ids[..k], true)[i].0
    decreases k
  {
    hide Warmup.Tried, Warmup.MoveOf, Warmup.StagesOf, Advanced, Completed, ActsOf;
    if k == 0 {
      NothingReported(x, ids);
    } else {
      var before := ids[..k - 1];
      WarmupReportIs(x, ids, k - 1);
      DistinctAt(ids, k - 1);
      assert ids[..k] == before + [ids[k - 1]];
      VisitReports(x, before, ids[k - 1]);
    }
  }

  lemma NothingReported(x: Warmup.Scene, ids: seq<int>)
    ensures Advanced(x, ids[..0]) == {} && Completed(x, ids[..0]) == {}
    ensures ActsOf(x, ids[..0], false) == [] && ActsOf(x, ids[..0], true) == []
  {
  }

  /** What one more visit adds to the report. */
  lemma VisitReports(x: Warmup.Scene, before: seq<int>, id: int)
    requires id !in before && id in x.run.participants && x.run.participants[id].status.Ongoing?
    ensures var done, p := before + [id], x.run.participants[id];
      var known, move, tried := p.accountId in x.accounts, Warmup.MoveOf(p, Warmup.StagesOf(x.run), x.now),
        Warmup.Tried(x, p);
      && |Advanced(x, done)| == |Advanced(x, before)| + (if known && move.Advances? then 1 else 0)
      && |Completed(x, done)| == |Completed(x, before)| + (if known && move.Completes? then 1 else 0)
      && (forall failed :: ActsOf(x, done, failed)
            == ActsOf(x, before, failed)
               + if known && tried.Some? && x.fails(id) == failed then [(p.accountId, tried.value)] else [])
  {
    hide Warmup.Tried, Warmup.MoveOf, Warmup.StagesOf, Advanced, Completed, WarmupFates.Advancing,
      WarmupFates.Completing;
    var done := before + [id];
    WarmupFates.MoveIs(x.run, x.run.participants[id], x.now);
    assert done[..|done| - 1] == before;
    OneMoreAdvanced(x, before, id);
    OneMoreCompleted(x, before, id);
  }

  lemma OneMoreAdvanced(x: Warmup.Scene, before: seq<int>, id: int)
    requires id !in before && id in x.run.participants
    ensures var p := x.run.participants[id];
      var moves := p.accountId in x.accounts && WarmupFates.Advancing(x.run, p, x.now);
      |Advanced(x, before + [id])| == |Advanced(x, before)| + if moves then 1 else 0
  {
    hide WarmupFates.Advancing;
    var p := x.run.participants[id];
    assert Advanced(x, before + [id]) == Advanced(x, before)
      + (if p.accountId in x.accounts && WarmupFates.Advancing(x.run, p, x.now) then {id} else {});
  }

  lemma OneMoreCompleted(x: Warmup.Scene, before: seq<int>, id: int)
    requires id !in before && id in x.run.participants
    ensures var p := x.run.participants[id];
      var moves := p.accountId in x.accounts && WarmupFates.Completing(x.run, p, x.now);
      |Completed(x, before + [id])| == |Completed(x, before)| + if moves then 1 else 0
  {
    hide WarmupFates.Completing;
    var p := x.run.participants[id];
    assert Completed(x, before + [id]) == Completed(x, before)
      + (if p.accountId in x.accounts && WarmupFates.Completing(x.run, p, x.now) then {id} else {});
  }
}
