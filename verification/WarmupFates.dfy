/** What warm-up does to each row, in terms of the rows' own fields: the account of a participant in a tick, whom
    and what a visit acts on, and what starting, stopping and adding leave. */
module WarmupFates {
  import opened Core
  import opened Ordering
  import opened Models
  import opened Warmup
  import WarmupLaws

  // ------------------------------------------------------------------------ the plan ---

  /** The plan of a run, or the default one: 3, 4 and 5 days with 2, 5 and 12 actions a day. */
  ghost function StageCount(run: WarmupRun): nat {
    if run.stages == [] then 3 else |run.stages|
  }

  ghost function DaysIn(run: WarmupRun, stage: nat): int {
    if run.stages == [] then (match stage case 0 => 3 case 1 => 4 case 2 => 5 case _ => 0)
    else if stage < |run.stages| then run.stages[stage].days else 0
  }

  /** Actions a day in a stage; 30 when the stage does not say, or is not in the plan. */
  ghost function ActionsIn(run: WarmupRun, stage: nat): int {
    if run.stages == [] then (match stage case 0 => 2 case 1 => 5 case 2 => 12 case _ => 30)
    else if stage < |run.stages| && run.stages[stage].maxActions.Some? then run.stages[stage].maxActions.value else 30
  }

  lemma PlanIs(run: WarmupRun, stage: nat)
    ensures |StagesOf(run)| == StageCount(run)
    ensures Days(StageDays(StagesOf(run), stage)) == DaysIn(run, stage) * 86_400_000_000
    ensures StageCap(StagesOf(run), stage) == ActionsIn(run, stage)
  {
  }

  /** The days of a participant's stage are over. */
  ghost predicate Over(run: WarmupRun, p: Participant, now: Time) {
    now - (if p.stageStartedAt.Some? then p.stageStartedAt.value else now) >= DaysIn(run, p.stage) * 86_400_000_000
  }

  ghost predicate Advancing(run: WarmupRun, p: Participant, now: Time) {
    p.status.Ongoing? && Over(run, p, now) && p.stage < StageCount(run) - 1
  }

  ghost predicate Completing(run: WarmupRun, p: Participant, now: Time) {
    p.status.Ongoing? && Over(run, p, now) && p.stage >= StageCount(run) - 1
  }

  lemma MoveIs(run: WarmupRun, p: Participant, now: Time)
    requires p.status.Ongoing?
    ensures MoveOf(p, StagesOf(run), now).Advances? <==> Advancing(run, p, now)
    ensures MoveOf(p, StagesOf(run), now).Completes? <==> Completing(run, p, now)
  {
    PlanIs(run, p.stage);
    hide StagesOf, StageDays, Days, DaysIn;
  }

  // ------------------------------------------------------------------------ accounts ---

  ghost predicate AdvancesNow(x: Scene, id: int, a: int) {
    id in x.run.participants && x.run.participants[id].accountId == a && Advancing(x.run, x.run.participants[id], x.now)
  }

  ghost predicate CompletesNow(x: Scene, id: int, a: int) {
    id in x.run.participants && x.run.participants[id].accountId == a
    && Completing(x.run, x.run.participants[id], x.now)
  }

  ghost predicate SomeCompletes(x: Scene, done: set<int>, a: int) {
    exists id :: id in done && CompletesNow(x, id, a)
  }

  /** Participant `id` is the last of the account's that advances. */
  ghost predicate LastToAdvance(x: Scene, done: set<int>, id: int, a: int) {
    id in done && AdvancesNow(x, id, a) && forall other :: other in done && AdvancesNow(x, other, a) ==> other <= id
  }

  /** An account after the visits of `done`: a warming one is active if and only if an ongoing participant of it is
      past the days of the last stage, every other status stays; its stage is that of its last participant that
      advanced; nothing else changes. */
  ghost predicate Fate(x: Scene, done: set<int>, a: int, was: Account, later: Account) {
    && later == was.(status := later.status, warmupStage := later.warmupStage)
    && later.status == (if was.status.Warming? && SomeCompletes(x, done, a) then Active else was.status)
    && ((forall id :: id in done ==> !AdvancesNow(x, id, a)) ==> later.warmupStage == was.warmupStage)
    && (forall id :: LastToAdvance(x, done, id, a) ==> later.warmupStage == x.run.participants[id].stage + 1)
  }

  /** What one visit does to the account. */
  lemma AccountAfterVisit(x: Scene, p: Participant, a: Account)
    requires p.status.Ongoing?
    ensures AccountTurn(x, p, a)
         == if Advancing(x.run, p, x.now) then a.(warmupStage := p.stage + 1)
            else if Completing(x.run, p, x.now) && a.status.Warming? then a.(status := Active)
            else a
  {
    MoveIs(x.run, p, x.now);
    hide StagesOf, MoveOf, Over, StageCount;
  }

  lemma FateStep(x: Scene, done: set<int>, id: int, a: int, was: Account, before: Account, later: Account)
    requires Fate(x, done, a, was, before) && forall d :: d in done ==> d < id
    requires id in x.run.participants && x.run.participants[id].status.Ongoing?
    requires var p := x.run.participants[id]; later == if p.accountId == a then AccountTurn(x, p, before) else before
    ensures Fate(x, done + {id}, a, was, later)
  {
    AccountAfterVisit(x, x.run.participants[id], before);
    hide Advancing, Completing, AccountTurn;
    assert SomeCompletes(x, done + {id}, a) <==> SomeCompletes(x, done, a) || CompletesNow(x, id, a);
    if AdvancesNow(x, id, a) {
      assert forall other :: LastToAdvance(x, done + {id}, other, a) ==> other == id;
    } else {
      assert forall other :: LastToAdvance(x, done + {id}, other, a) ==> LastToAdvance(x, done, other, a);
    }
  }

  ghost function FirstIds(ids: seq<int>, k: nat): set<int>
    requires k <= |ids|
  {
    set id | id in ids[..k]
  }

  lemma {:induction false} Fates(x: Scene, ids: seq<int>, k: nat, a: int)
    requires k <= |ids| && a in x.accounts && Climbs(ids)
    requires forall i :: 0 <= i < |ids| ==> ids[i] in x.run.participants && x.run.participants[ids[i]].status.Ongoing?
    ensures Fate(x, FirstIds(ids, k), a, x.accounts[a], AccountsAfter(x, ids, k)[a])
    decreases k
  {
    hide Fate, AccountTurn;
    if k == 0 {
      FateAtFirst(x, a);
      assert FirstIds(ids, 0) == {};
    } else {
      Fates(x, ids, k - 1, a);
      var id, done := ids[k - 1], FirstIds(ids, k - 1);
      assert ids[..k] == ids[..k - 1] + [id];
      assert FirstIds(ids, k) == done + {id};
      FateStep(x, done, id, a, x.accounts[a], AccountsAfter(x, ids, k - 1)[a], AccountsAfter(x, ids, k)[a]);
    }
  }

  lemma FateAtFirst(x: Scene, a: int)
    requires a in x.accounts
    ensures Fate(x, {}, a, x.accounts[a], x.accounts[a])
  {
  }

  /** The fate of every account in a tick, from the rows. */
  lemma AccountFate(x: Scene, a: int)
    requires a in x.accounts
    ensures Tick(x).accounts.Keys == x.accounts.Keys
    ensures Fate(x, x.run.participants.Keys, a, x.accounts[a], Tick(x).accounts[a])
  {
    hide Fate, AccountsAfter;
    var ids := Visited(x.run);
    var done := FirstIds(ids, |ids|);
    VisitedInOrder(x.run);
    Fates(x, ids, |ids|, a);
    assert Tick(x).accounts == AccountsAfter(x, ids, |ids|);
    assert forall id :: id in done <==> id in ids;
    OthersDoNotCount(x, done, a, x.accounts[a], Tick(x).accounts[a]);
  }

  /** Only ongoing participants matter. */
  lemma OthersDoNotCount(x: Scene, done: set<int>, a: int, was: Account, later: Account)
    requires Fate(x, done, a, was, later) && done <= x.run.participants.Keys
    requires forall id :: id in x.run.participants && x.run.participants[id].status.Ongoing? ==> id in done
    ensures Fate(x, x.run.participants.Keys, a, was, later)
  {
    var all := x.run.participants.Keys;
    assert forall id :: AdvancesNow(x, id, a) || CompletesNow(x, id, a) ==> id in done;
    hide AdvancesNow, CompletesNow;
    assert forall id :: LastToAdvance(x, all, id, a) ==> LastToAdvance(x, done, id, a);
  }

  lemma VisitedInOrder(run: WarmupRun)
    ensures var ids := Visited(run);
      && Climbs(ids)
      && (forall i :: 0 <= i < |ids| ==> ids[i] in run.participants && run.participants[ids[i]].status.Ongoing?)
      && (forall id :: id in run.participants && run.participants[id].status.Ongoing? ==> id in ids)
  {
    ByIdClimbs(OngoingSet(run.participants));
    var ids := Visited(run);
    forall i | 0 <= i < |ids| ensures ids[i] in OngoingSet(run.participants) {
      assert ids[i] in ids;
    }
    forall id | id in run.participants && run.participants[id].status.Ongoing? ensures id in ids {
      assert id in OngoingSet(run.participants);
    }
  }

  // -------------------------------------------------------------------- participants ---

  /** How many actions a participant has done on the day of `now`. */
  ghost function DoneToday(p: Participant, now: Time): nat {
    if p.dayKey == Some(now / 86_400_000_000) then p.actionsToday else 0
  }

  /** The stage a visit acts in. */
  ghost function StageNow(run: WarmupRun, p: Participant, now: Time): nat {
    if Advancing(run, p, now) then p.stage + 1 else p.stage
  }

  /** A visit tries an action if and only if its participant does not complete, is below its new stage's actions a day
      and idle for the run's delay, and there is a group to join or a message and someone to send it to. */
  lemma TriesExactly(x: Scene, p: Participant)
    requires p.status.Ongoing?
    ensures Tried(x, p).Some? <==>
      && !Completing(x.run, p, x.now)
      && DoneToday(p, x.now) < ActionsIn(x.run, StageNow(x.run, p, x.now))
      && (p.lastActionAt.None? || x.now - p.lastActionAt.value >= x.run.minDelaySeconds * 1_000_000)
      && ((exists g :: g in x.run.groups && g !in p.joined)
          || (x.run.messages != [] && ChatTargets(x, p.accountId) != []))
  {
    MoveIs(x.run, p, x.now);
    PlanIs(x.run, p.stage);
    PlanIs(x.run, p.stage + 1);
    SomethingToJoin(x.run.groups, p.joined);
    hide StagesOf, StageCap, ChatTargets, ActionsIn, Over, StageCount, MoveOf, Remaining;
  }

  lemma SomethingToJoin(groups: seq<string>, joined: seq<string>)
    ensures Remaining(groups, joined) == [] <==> forall g :: g in groups ==> g in joined
  {
    var r := Remaining(groups, joined);
    if r != [] {
      assert r[0] in r;
    }
  }

  /** The first group of the list that was not joined. */
  lemma {:induction false} FirstToJoin(groups: seq<string>, joined: seq<string>) returns (i: nat)
    requires Remaining(groups, joined) != []
    ensures i < |groups| && groups[i] == Remaining(groups, joined)[0] && groups[i] !in joined
    ensures forall j :: 0 <= j < i ==> groups[j] in joined
  {
    if groups[0] in joined {
      var rest := FirstToJoin(groups[1..], joined);
      i := rest + 1;
      forall j | 0 <= j < i ensures groups[j] in joined {
        assert j > 0 ==> groups[1..][j - 1] == groups[j];
      }
    } else {
      i := 0;
    }
  }

  /** Somebody an account may chat with: a partner, or another ongoing participant's account that has a phone. */
  ghost predicate MayChatWith(x: Scene, self: int, target: string) {
    target in x.run.partners
    || exists id :: id in x.run.participants && IsPeer(x, self, x.run.participants[id], target)
  }

  ghost predicate IsPeer(x: Scene, self: int, p: Participant, target: string) {
    && p.status.Ongoing? && p.accountId != self && p.accountId in x.accounts
    && x.accounts[p.accountId].phone == Some(target) && target != ""
  }

  lemma {:induction false} PeersAre(x: Scene, ids: seq<int>, self: int, k: nat, target: string)
    requires k <= |ids| && forall i :: 0 <= i < |ids| ==>
      ids[i] in x.run.participants && x.run.participants[ids[i]].status.Ongoing?
    ensures target in PeerPhones(x.accounts, x.run.participants, ids, self, k)
       <==> exists i :: 0 <= i < k && IsPeer(x, self, x.run.participants[ids[i]], target)
  {
    if k == 0 {
    } else {
      PeersAre(x, ids, self, k - 1, target);
      assert ids[k - 1] in x.run.participants;
    }
  }

  /** Whom an account may chat with, exactly; never with itself. */
  lemma TargetsAre(x: Scene, self: int, target: string)
    ensures target in ChatTargets(x, self) <==> MayChatWith(x, self, target)
  {
    hide PeerPhones;
    var ids := Visited(x.run);
    VisitedInOrder(x.run);
    PeersAre(x, ids, self, |ids|, target);
    if exists id :: id in x.run.participants && IsPeer(x, self, x.run.participants[id], target) {
      var id :| id in x.run.participants && IsPeer(x, self, x.run.participants[id], target);
      var i :| 0 <= i < |ids| && ids[i] == id;
    }
    var phones := PeerPhones(x.accounts, x.run.participants, ids, self, |ids|);
    assert ChatTargets(x, self) == x.run.partners + phones;
  }

  ghost predicate PeerAt(x: Scene, self: int, id: int, target: string) {
    id in x.run.participants && IsPeer(x, self, x.run.participants[id], target)
  }

  /** The phones of the peers among the first `k` visits, one for each and in the order of the participants' ids. */
  lemma {:induction false} PeersUpTo(x: Scene, ids: seq<int>, self: int, k: nat) returns (who: seq<int>)
    requires k <= |ids| && Climbs(ids) && forall i :: 0 <= i < |ids| ==>
      ids[i] in x.run.participants && x.run.participants[ids[i]].status.Ongoing?
    ensures var phones := PeerPhones(x.accounts, x.run.participants, ids, self, k);
      && |phones| == |who| && Climbs(who) && (forall i :: 0 <= i < |who| ==> PeerAt(x, self, who[i], phones[i]))
      && (forall id :: id in who ==> id in ids[..k])
      && (forall id, target :: id in ids[..k] && PeerAt(x, self, id, target) ==> id in who)
  {
    if k == 0 {
      who := [];
    } else {
      var before := PeersUpTo(x, ids, self, k - 1);
      var id := ids[k - 1];
      var peer := x.run.participants[id].accountId;
      assert ids[..k] == ids[..k - 1] + [id];
      if peer in x.accounts && peer != self && x.accounts[peer].phone.Some? && x.accounts[peer].phone.value != "" {
        who := before + [id];
        assert PeerAt(x, self, id, x.accounts[peer].phone.value);
        LaterId(ids, k, before);
      } else {
        who := before;
      }
    }
  }

  lemma LaterId(ids: seq<int>, k: nat, before: seq<int>)
    requires 0 < k <= |ids| && Climbs(ids) && Climbs(before) && forall id :: id in before ==> id in ids[..k - 1]
    ensures Climbs(before + [ids[k - 1]])
  {
    var who := before + [ids[k - 1]];
    forall i, j | 0 <= i < j < |who| ensures who[i] < who[j] {
      if j == |before| {
        assert before[i] in before;
        var n :| 0 <= n < k - 1 && ids[..k - 1][n] == before[i];
        assert ids[n] < ids[k - 1];
      }
    }
  }

  /** The list an account chats from: the partners, then the phone of each peer in the order of the ids. */
  lemma TargetsInOrder(x: Scene, self: int) returns (who: seq<int>)
    ensures var targets, n := ChatTargets(x, self), |x.run.partners|;
      && |targets| == n + |who| && targets[..n] == x.run.partners && Climbs(who)
      && (forall i :: 0 <= i < |who| ==> PeerAt(x, self, who[i], targets[n + i]))
      && (forall id, target :: PeerAt(x, self, id, target) ==> id in who)
  {
    hide PeerPhones;
    var ids := Visited(x.run);
    VisitedInOrder(x.run);
    who := PeersUpTo(x, ids, self, |ids|);
    assert ids[..|ids|] == ids;
    var phones := PeerPhones(x.accounts, x.run.participants, ids, self, |ids|);
    assert ChatTargets(x, self) == x.run.partners + phones;
  }

  /** What is tried: the first group not joined yet; when all are joined, a message and a target, each the next one
      in its list by the number of the day's actions. */
  lemma TriedIs(x: Scene, p: Participant)
    requires p.status.Ongoing? && Tried(x, p).Some?
    ensures match Tried(x, p).value
            case Join(link) =>
              exists i :: 0 <= i < |x.run.groups| && x.run.groups[i] == link && link !in p.joined
                          && forall j :: 0 <= j < i ==> x.run.groups[j] in p.joined
            case Chat(target, text) =>
              && (forall g :: g in x.run.groups ==> g in p.joined)
              && var n, targets := DoneToday(p, x.now), ChatTargets(x, p.accountId);
                 && targets != [] && target == targets[n % |targets|] && MayChatWith(x, p.accountId, target)
                 && x.run.messages != [] && text == x.run.messages[n % |x.run.messages|]
  {
    hide ChatTargets, StagesOf, StageCap, MoveOf;
    SomethingToJoin(x.run.groups, p.joined);
    match Tried(x, p).value {
      case Join(link) =>
        var i := FirstToJoin(x.run.groups, p.joined);
      case Chat(target, text) =>
        TargetsAre(x, p.accountId, target);
    }
  }

  /** A participant after its visit, field by field. */
  lemma TurnIs(x: Scene, id: int, p: Participant)
    requires p.status.Ongoing? && p.accountId in x.accounts
    ensures var q, acts := Turn(x, id, p), Tried(x, p).Some? && !x.fails(id);
      && q.accountId == p.accountId && q.stage == StageNow(x.run, p, x.now)
      && q.status == (if Completing(x.run, p, x.now) then Finished else Ongoing)
      && q.stageStartedAt
         == (if Advancing(x.run, p, x.now) || p.stageStartedAt.None? then Some(x.now) else p.stageStartedAt)
      && q.dayKey == Some(x.now / 86_400_000_000)
      && q.actionsToday == DoneToday(p, x.now) + (if acts then 1 else 0)
      && q.lastActionAt == (if acts then Some(x.now) else p.lastActionAt)
      && q.joined == (if acts && Tried(x, p).value.Join? then p.joined + [Tried(x, p).value.link] else p.joined)
  {
    MoveIs(x.run, p, x.now);
    hide Tried, StagesOf, MoveOf, Over, StageCount;
  }

  // ------------------------------------------------------------------ over whole runs ---

  /** The tick that completes a participant leaves its account not warming, so outreach may use it again. */
  lemma FinishedIsFree(d: WarmupLaws.Desk, events: seq<WarmupLaws.Event>, id: int)
    requires WarmupLaws.NewRun(d) && events != []
    requires var front := events[..|events| - 1];
      WarmupLaws.Follow(d, events, id).finishedAt != WarmupLaws.Follow(d, front, id).finishedAt
    ensures var before, e := WarmupLaws.Run(d, events[..|events| - 1]).run, events[|events| - 1];
      && e.TickIt? && id in before.participants && before.participants[id].accountId in e.accounts
      && var x, a := WarmupLaws.SceneOf(before, e), before.participants[id].accountId;
         && WarmupLaws.Run(d, events).run == Tick(x).run && WarmupLaws.Follow(d, events, id).finishedAt == Some(e.now)
         && a in Tick(x).accounts && !Tick(x).accounts[a].status.Warming?
         && (x.accounts[a].status.Warming? ==> Tick(x).accounts[a].status.Active?)
  {
    var front, e := events[..|events| - 1], events[|events| - 1];
    var before, h := WarmupLaws.Run(d, front).run, WarmupLaws.Follow(d, front, id);
    FinishIsByTick(d, events, id);
    hide WarmupLaws.Follow, WarmupLaws.Run, Tick, Fate;
    var x := WarmupLaws.SceneOf(before, e);
    var p := before.participants[id];
    MoveIs(before, p, e.now);
    AccountFate(x, p.accountId);
    CompletedIsNotWarming(x, id, x.accounts[p.accountId], Tick(x).accounts[p.accountId]);
  }

  lemma FinishIsByTick(d: WarmupLaws.Desk, events: seq<WarmupLaws.Event>, id: int)
    requires WarmupLaws.NewRun(d) && events != []
    requires var front := events[..|events| - 1];
      WarmupLaws.Follow(d, events, id).finishedAt != WarmupLaws.Follow(d, front, id).finishedAt
    ensures var before, e := WarmupLaws.Run(d, events[..|events| - 1]).run, events[|events| - 1];
      && e.TickIt? && id in before.participants && before.participants[id].status.Ongoing?
      && before.participants[id].accountId in e.accounts
      && MoveOf(before.participants[id], StagesOf(before), e.now).Completes?
      && WarmupLaws.Run(d, events).run == Tick(WarmupLaws.SceneOf(before, e)).run
      && WarmupLaws.Follow(d, events, id).finishedAt == Some(e.now)
  {
    hide Tick, MoveOf, StagesOf, Tried, Ramped, Started, Stopped, Enrolled, StartedParticipant;
    var front := events[..|events| - 1];
    if id !in WarmupLaws.Run(d, front).run.participants {
      NoHistoryYet(d, front, id);
    }
  }

  /** Before a participant has a row nothing is recorded of it. */
  lemma {:induction false} NoHistoryYet(d: WarmupLaws.Desk, events: seq<WarmupLaws.Event>, id: int)
    requires WarmupLaws.NewRun(d) && id !in WarmupLaws.Run(d, events).run.participants
    ensures WarmupLaws.Follow(d, events, id) == WarmupLaws.BLANK
  {
    hide WarmupLaws.Step, WarmupLaws.HistoryAfter;
    if events == [] {
    } else {
      var front := events[..|events| - 1];
      WarmupLaws.RunKeepsPlan(d, front);
      WarmupLaws.StepKeepsPlan(WarmupLaws.Run(d, front), events[|events| - 1]);
    }
  }

  lemma CompletedIsNotWarming(x: Scene, id: int, was: Account, later: Account)
    requires id in x.run.participants && Completing(x.run, x.run.participants[id], x.now)
    requires Fate(x, x.run.participants.Keys, x.run.participants[id].accountId, was, later)
    ensures !later.status.Warming? && (was.status.Warming? ==> later.status.Active?)
  {
    assert CompletesNow(x, id, x.run.participants[id].accountId);
  }

  // ------------------------------------------------------------------------ commands ---

  /** The run itself: running from the first start, or done; nothing else but the participants changes. */
  lemma RunAfter(run: WarmupRun, next: int, accounts: Accounts, asked: seq<int>, now: Time)
    ensures var r := Started(run, now);
      && r == run.(status := Running, startedAt := r.startedAt, participants := r.participants)
      && r.startedAt == (if run.startedAt.Some? then run.startedAt else Some(now))
      && r.participants.Keys == run.participants.Keys
    ensures Stopped(run) == run.(status := Done, participants := Stopped(run).participants)
    ensures Stopped(run).participants.Keys == run.participants.Keys
    ensures var r := Enrolled(run, next, accounts, asked, now); r == run.(participants := r.participants)
  {
    hide ById, Newcomers, NoRepeats, ParticipantsAfter;
  }

  /** A tick changes nothing of the run but the participants. */
  lemma TickKeepsRun(x: Scene)
    ensures Tick(x).run == x.run.(participants := Tick(x).run.participants)
    ensures Tick(x).run.participants.Keys == x.run.participants.Keys
  {
    hide ParticipantsAfter, AccountsAfter, SummaryAfter, Visited;
  }

  /** Starting: waiting and paused participants are ongoing, in the stage they were in, from when it began or now;
      the others stay. */
  lemma StartedRow(run: WarmupRun, now: Time, id: int)
    requires id in run.participants
    ensures id in Started(run, now).participants
    ensures var p, q := run.participants[id], Started(run, now).participants[id];
      if p.status.Waiting? || p.status.OnHold?
      then q == p.(status := Ongoing, stageStartedAt := if p.stageStartedAt.None? then Some(now) else p.stageStartedAt)
      else q == p
  {
    WarmupLaws.MarkedRow(run.participants, StartMark(now), id);
  }

  /** Participant `id` of account `a` is set going. */
  ghost predicate SetGoing(run: WarmupRun, done: set<int>, id: int, a: int) {
    id in done && id in run.participants && run.participants[id].accountId == a
    && (run.participants[id].status.Waiting? || run.participants[id].status.OnHold?)
  }

  /** An account after the participants `done` were started: it is warming if one of its own was set going, from the
      first such time, and shows the stage of the last one. */
  ghost predicate StartFate(run: WarmupRun, now: Time, done: set<int>, a: int, was: Account, later: Account) {
    if forall id :: !SetGoing(run, done, id, a) then later == was
    else
      && later == was.(status := Warming, warmupStage := later.warmupStage,
                       warmupStartedAt := if was.warmupStartedAt.None? then Some(now) else was.warmupStartedAt)
      && forall id :: SetGoing(run, done, id, a) && (forall other :: SetGoing(run, done, other, a) ==> other <= id) ==>
           later.warmupStage == run.participants[id].stage
  }

  lemma StartStep(run: WarmupRun, now: Time, done: set<int>, id: int, a: int, was: Account, before: Account,
                  later: Account)
    requires StartFate(run, now, done, a, was, before) && (forall d :: d in done ==> d < id) && id in run.participants
    requires var p := run.participants[id];
      later == if (p.status.Waiting? || p.status.OnHold?) && p.accountId == a
               then before.(status := Warming, warmupStage := p.stage,
                            warmupStartedAt := if before.warmupStartedAt.None? then Some(now)
                                               else before.warmupStartedAt)
               else before
    ensures StartFate(run, now, done + {id}, a, was, later)
  {
    var all := done + {id};
    if SetGoing(run, all, id, a) {
      assert forall other :: SetGoing(run, all, other, a) ==> other <= id;
    } else {
      assert forall other :: SetGoing(run, all, other, a) <==> SetGoing(run, done, other, a);
    }
  }

  lemma {:induction false} StartFates(accounts: Accounts, run: WarmupRun, ids: seq<int>, now: Time, k: nat, a: int)
    requires k <= |ids| && a in accounts && Climbs(ids) && AllIn(ids, run.participants)
    ensures a in StartedAccounts(accounts, run, ids, now, k)
    ensures StartFate(run, now, FirstIds(ids, k), a, accounts[a], StartedAccounts(accounts, run, ids, now, k)[a])
    decreases k
  {
    hide StartFate;
    if k == 0 {
      NotStartedYet(run, now, a, accounts[a]);
      assert FirstIds(ids, 0) == {};
    } else {
      StartFates(accounts, run, ids, now, k - 1, a);
      var id, done := ids[k - 1], FirstIds(ids, k - 1);
      assert ids[..k] == ids[..k - 1] + [id];
      assert FirstIds(ids, k) == done + {id};
      StartStep(run, now, done, id, a, accounts[a], StartedAccounts(accounts, run, ids, now, k - 1)[a],
                StartedAccounts(accounts, run, ids, now, k)[a]);
    }
  }

  lemma NotStartedYet(run: WarmupRun, now: Time, a: int, was: Account)
    ensures StartFate(run, now, {}, a, was, was)
  {
  }

  /** The fate of every account when a run is started, from the rows. */
  lemma StartedAccount(accounts: Accounts, run: WarmupRun, now: Time, a: int)
    requires a in accounts
    ensures var ids := ById(run.participants.Keys); var later := StartedAccounts(accounts, run, ids, now, |ids|);
      a in later && StartFate(run, now, run.participants.Keys, a, accounts[a], later[a])
  {
    hide StartFate, StartedAccounts, ById;
    var ids := ById(run.participants.Keys);
    ByIdClimbs(run.participants.Keys);
    forall i | 0 <= i < |ids| ensures ids[i] in run.participants {
      assert ids[i] in ids;
    }
    StartFates(accounts, run, ids, now, |ids|, a);
    assert ids[..|ids|] == ids;
    assert FirstIds(ids, |ids|) == run.participants.Keys;
  }

  /** Stopping: every participant is done, and nothing else about it changes. */
  lemma StoppedRow(run: WarmupRun, id: int)
    requires id in run.participants
    ensures id in Stopped(run).participants
    ensures Stopped(run).participants[id] == run.participants[id].(status := Finished)
  {
    WarmupLaws.MarkedRow(run.participants, StopMark(), id);
  }

  /** The account has no participant in the run. */
  ghost predicate Seatless(run: WarmupRun, a: int) {
    forall id :: id in run.participants ==> run.participants[id].accountId != a
  }

  lemma {:induction false} StopFates(accounts: Accounts, run: WarmupRun, ids: seq<int>, k: nat, a: int)
    requires k <= |ids| && a in accounts && AllIn(ids, run.participants)
    ensures a in StoppedAccounts(accounts, run, ids, k)
    ensures StoppedAccounts(accounts, run, ids, k)[a]
         == if accounts[a].status.Warming? && exists i :: 0 <= i < k && run.participants[ids[i]].accountId == a
            then accounts[a].(status := Active) else accounts[a]
  {
    if k == 0 {
    } else {
      StopFates(accounts, run, ids, k - 1, a);
    }
  }

  lemma HasSeat(run: WarmupRun, id: int)
    requires id in run.participants
    ensures !Seatless(run, run.participants[id].accountId)
  {
  }

  /** The fate of every account when a run is stopped: the warming accounts of its participants become active. */
  lemma StoppedAccount(accounts: Accounts, run: WarmupRun, a: int)
    requires a in accounts
    ensures var ids := ById(run.participants.Keys); var later := StoppedAccounts(accounts, run, ids, |ids|);
      && a in later
      && later[a] == if accounts[a].status.Warming? && !Seatless(run, a) then accounts[a].(status := Active)
                     else accounts[a]
  {
    hide StoppedAccounts, ById;
    var ids := ById(run.participants.Keys);
    forall i | 0 <= i < |ids| ensures ids[i] in run.participants {
      assert ids[i] in ids;
    }
    StopFates(accounts, run, ids, |ids|, a);
    if !Seatless(run, a) {
      var id :| id in run.participants && run.participants[id].accountId == a;
      assert id in ids;
      var i :| 0 <= i < |ids| && ids[i] == id;
      assert run.participants[ids[i]].accountId == a;
    }
    if i :| 0 <= i < |ids| && run.participants[ids[i]].accountId == a {
      var id := ids[i];
      assert id in run.participants;
      HasSeat(run, id);
    }
  }

  lemma {:induction false} NewcomersAre(run: WarmupRun, accounts: Accounts, asked: seq<int>, k: nat, a: int)
    requires k <= |asked|
    ensures a in Newcomers(run, accounts, asked, k) <==> a in asked[..k] && a in accounts && Seatless(run, a)
  {
    if k == 0 {
    } else {
      NewcomersAre(run, accounts, asked, k - 1, a);
      assert asked[..k] == asked[..k - 1] + [asked[k - 1]];
      assert asked[k - 1] in Seated(run) <==> !Seatless(run, asked[k - 1]);
    }
  }

  /** The row of an account that has just been added. */
  ghost function FirstRow(run: WarmupRun, a: int, now: Time): Participant {
    if run.status.Running? then Participant(a, 0, Some(now), 0, None, None, [], Ongoing)
    else Participant(a, 0, None, 0, None, None, [], Waiting)
  }

  /** Adding, exactly: the accounts asked for that exist and have no participant get one, in the first stage, on
      the way at once if the run is; old participants stay; if one of them was asked for twice, nothing changes. */
  lemma AddedRows(run: WarmupRun, next: int, accounts: Accounts, asked: seq<int>, now: Time)
    requires forall id :: id in run.participants ==> id < next
    ensures var r, newcomers := Enrolled(run, next, accounts, asked, now), Newcomers(run, accounts, asked, |asked|);
      && (!NoRepeats(newcomers) ==> r == run)
      && (forall a :: a in newcomers <==> a in asked && a in accounts && Seatless(run, a))
      && (NoRepeats(newcomers) ==>
            && (forall id :: id in r.participants <==> id in run.participants || next <= id < next + |newcomers|)
            && (forall id :: id in run.participants ==> r.participants[id] == run.participants[id])
            && (forall id :: next <= id < next + |newcomers| ==>
                  r.participants[id] == FirstRow(run, newcomers[id - next], now)))
  {
    hide Newcomers, NoRepeats;
    var newcomers := Newcomers(run, accounts, asked, |asked|);
    assert asked[..|asked|] == asked;
    forall a ensures a in newcomers <==> a in asked && a in accounts && Seatless(run, a) {
      NewcomersAre(run, accounts, asked, |asked|, a);
    }
    forall id | id in run.participants || next <= id < next + |newcomers|
      ensures id in run.participants ==> SeatedRows(run, next, newcomers, now)[id] == run.participants[id]
      ensures id !in run.participants ==>
        SeatedRows(run, next, newcomers, now)[id] == NewParticipant(run, newcomers[id - next], now)
    {
      WarmupLaws.SeatedRow(run, next, newcomers, now, id);
    }
  }
}
