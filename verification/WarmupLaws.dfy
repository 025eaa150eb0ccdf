/** Warm-up over whole runs: time spent in the stages, the daily caps, the spacing of actions, and joining
    every group before chatting. */
module WarmupLaws {
  import opened Core
  import opened Ordering
  import opened Models
  import Pacing
  import Pool
  import opened Warmup

  // ------------------------------------------------------------------------- events ---

  /** A run and the next free participant id. */
  datatype Desk = Desk(run: WarmupRun, next: int)

  /** What can happen to a run. Accounts, partners, the clock and the answers are whatever they are;
      `taken` counts the participant ids given to other runs meanwhile. */
  datatype Event =
    | StartIt(now: Time)
    | PauseIt
    | StopIt
    | AddIt(accounts: Accounts, asked: seq<int>, now: Time, taken: nat)
    | PartnersAre(partners: seq<string>)
    | TickIt(accounts: Accounts, now: Time, fails: int -> bool)

  function SceneOf(run: WarmupRun, e: Event): Scene
    requires e.TickIt?
  {
    Scene(e.accounts, run, e.now, e.fails)
  }

  function Step(d: Desk, e: Event): Desk {
    match e
    case StartIt(now) => d.(run := Started(d.run, now))
    case PauseIt => d.(run := d.run.(status := Paused))
    case StopIt => d.(run := Stopped(d.run))
    case AddIt(accounts, asked, now, taken) =>
      Desk(Enrolled(d.run, d.next + taken, accounts, asked, now),
           d.next + taken + |Newcomers(d.run, accounts, asked, |asked|)|)
    case PartnersAre(partners) => d.(run := d.run.(partners := partners))
    case TickIt(_, _, _) => d.(run := Tick(SceneOf(d.run, e)).run)
  }

  function Run(d: Desk, events: seq<Event>): Desk {
    if events == [] then d else Step(Run(d, events[..|events| - 1]), events[|events| - 1])
  }

  ghost predicate IdsBelow(d: Desk) {
    forall id :: id in d.run.participants ==> id < d.next
  }

  // ----------------------------------------------------- what an event does to a row ---

  /** A participant after an event. */
  function RowAfter(run: WarmupRun, e: Event, id: int, p: Participant): Participant {
    match e
    case StartIt(now) => StartedParticipant(p, now)
    case StopIt => StoppedParticipant(p)
    case TickIt(_, _, _) => if p.status.Ongoing? then Turn(SceneOf(run, e), id, p) else p
    case _ => p
  }

  lemma {:induction false} VisitedOnce(x: Scene, ids: seq<int>, k: nat, id: int)
    requires k <= |ids| && Distinct(ids) && id in x.run.participants
    ensures ParticipantsAfter(x, ids, k)[id]
         == if id in ids[..k] then Turn(x, id, x.run.participants[id]) else x.run.participants[id]
  {
    if k == 0 {
    } else {
      VisitedOnce(x, ids, k - 1, id);
      assert ids[..k] == ids[..k - 1] + [ids[k - 1]];
    }
  }

  lemma TickRow(x: Scene, id: int)
    requires id in x.run.participants
    ensures var p := x.run.participants[id];
      Tick(x).run.participants[id] == if p.status.Ongoing? then Turn(x, id, p) else p
  {
    var ids := Visited(x.run);
    VisitedAreIn(x.run);
    VisitedOnce(x, ids, |ids|, id);
    assert ids[..|ids|] == ids;
    assert id in ids <==> id in OngoingSet(x.run.participants);
  }

  lemma MarkedRow(before: map<int, Participant>, mark: (nat, Participant) -> Participant, id: int)
    requires id in before && forall i, j, p :: mark(i, p) == mark(j, p)
    ensures var ids := ById(before.Keys); Marked(before, ids, mark, |ids|)[id] == mark(0, before[id])
  {
    var ids := ById(before.Keys);
    ByIdDistinct(before.Keys);
    assert id in ids;
    var i :| 0 <= i < |ids| && ids[i] == id;
    MarkedAt(before, ids, mark, |ids|, id);
  }

  lemma {:induction false} SeatedRow(run: WarmupRun, next: int, newcomers: seq<int>, now: Time, id: int)
    requires forall x :: x in run.participants ==> x < next
    ensures id in run.participants ==> SeatedRows(run, next, newcomers, now)[id] == run.participants[id]
    ensures id !in run.participants && next <= id < next + |newcomers| ==>
      SeatedRows(run, next, newcomers, now)[id] == NewParticipant(run, newcomers[id - next], now)
  {
    if newcomers == [] {
    } else {
      SeatedRow(run, next, newcomers[..|newcomers| - 1], now, id);
    }
  }

  /** An event leaves the plan of the run alone and adds rows only under new ids. */
  lemma StepKeepsPlan(d: Desk, e: Event)
    requires IdsBelow(d)
    ensures var r := Step(d, e).run;
      r.stages == d.run.stages && r.groups == d.run.groups && r.minDelaySeconds == d.run.minDelaySeconds
    ensures IdsBelow(Step(d, e)) && d.run.participants.Keys <= Step(d, e).run.participants.Keys
    ensures !e.AddIt? ==> Step(d, e).run.participants.Keys == d.run.participants.Keys
  {
    hide ParticipantsAfter, ById, Newcomers, NoRepeats, Marked, AccountsAfter, SummaryAfter;
  }

  /** Every event treats each participant by itself. */
  lemma StepRow(d: Desk, e: Event, id: int)
    requires IdsBelow(d) && id in d.run.participants
    ensures id in Step(d, e).run.participants
    ensures Step(d, e).run.participants[id] == RowAfter(d.run, e, id, d.run.participants[id])
  {
    StepKeepsPlan(d, e);
    hide Turn, ById, Newcomers, NoRepeats, Tick;
    match e {
      case StartIt(now) => MarkedRow(d.run.participants, StartMark(now), id);
      case StopIt => MarkedRow(d.run.participants, StopMark(), id);
      case AddIt(accounts, asked, now, taken) =>
        SeatedRow(d.run, d.next + taken, Newcomers(d.run, accounts, asked, |asked|), now, id);
      case TickIt(_, _, _) => TickRow(SceneOf(d.run, e), id);
      case _ =>
    }
  }

  lemma StepNewRow(d: Desk, e: Event, id: int)
    requires IdsBelow(d) && id in Step(d, e).run.participants && id !in d.run.participants
    ensures e.AddIt? && exists a :: Step(d, e).run.participants[id] == NewParticipant(d.run, a, e.now)
  {
    StepKeepsPlan(d, e);
    hide Turn, ById, Newcomers, NoRepeats, Tick, Started, Stopped;
    if e.AddIt? {
      SeatedRow(d.run, d.next + e.taken, Newcomers(d.run, e.accounts, e.asked, |e.asked|), e.now, id);
    }
  }

  // ---------------------------------------------------------------------- histories ---

  /** A recorded action, and the stage it was done in. */
  datatype Entry = Entry(at: Time, stage: nat, act: Act)

  /** What became of a participant: when its first stage began, when it completed its ramp, its actions. */
  datatype History = History(begunAt: Option<Time>, finishedAt: Option<Time>, log: seq<Entry>)

  const BLANK := History(None, None, [])

  /** The history after a visit by a tick. */
  function AfterVisit(x: Scene, id: int, p: Participant, h: History): History {
    if p.accountId !in x.accounts then h
    else
      var tried := Tried(x, p);
      History(if h.begunAt.None? then Some(StageStart(p, x.now)) else h.begunAt,
              if MoveOf(p, StagesOf(x.run), x.now).Completes? then Some(x.now) else h.finishedAt,
              if tried.Some? && !x.fails(id)
              then h.log + [Entry(x.now, Ramped(p, StagesOf(x.run), x.now).stage, tried.value)]
              else h.log)
  }

  function HistoryAfter(run: WarmupRun, e: Event, id: int, p: Participant, h: History): History {
    match e
    case StartIt(now) => h.(begunAt := if h.begunAt.None? then StartedParticipant(p, now).stageStartedAt else h.begunAt)
    case TickIt(_, _, _) => if p.status.Ongoing? then AfterVisit(SceneOf(run, e), id, p, h) else h
    case _ => h
  }

  /** The history of participant `id` over a run of events. */
  function Follow(d: Desk, events: seq<Event>, id: int): History {
    if events == [] then BLANK
    else
      var before, h := Run(d, events[..|events| - 1]).run, Follow(d, events[..|events| - 1], id);
      if id in before.participants then HistoryAfter(before, events[|events| - 1], id, before.participants[id], h)
      else
        var after := Run(d, events).run;
        if id in after.participants then BLANK.(begunAt := after.participants[id].stageStartedAt) else BLANK
  }

  ghost predicate NewRun(d: Desk) {
    d.run.participants == map[]
  }

  lemma RunOfNothing(d: Desk, id: int)
    ensures Run(d, []) == d && Follow(d, [], id) == BLANK
  {
  }

  lemma {:induction false} RunKeepsPlan(d: Desk, events: seq<Event>)
    requires NewRun(d)
    ensures var r := Run(d, events).run;
      IdsBelow(Run(d, events)) && r.stages == d.run.stages && r.groups == d.run.groups
      && r.minDelaySeconds == d.run.minDelaySeconds
  {
    hide Step;
    if events == [] {
    } else {
      RunKeepsPlan(d, events[..|events| - 1]);
      StepKeepsPlan(Run(d, events[..|events| - 1]), events[|events| - 1]);
    }
  }

  /** The last event of a run either changed an existing row or made a new one. */
  lemma LastEvent(d: Desk, events: seq<Event>, id: int)
    requires NewRun(d) && events != [] && id in Run(d, events).run.participants
    ensures var before, e := Run(d, events[..|events| - 1]).run, events[|events| - 1];
      if id in before.participants then
        Run(d, events).run.participants[id] == RowAfter(before, e, id, before.participants[id])
        && Follow(d, events, id)
           == HistoryAfter(before, e, id, before.participants[id], Follow(d, events[..|events| - 1], id))
      else
        e.AddIt? && (exists a :: Run(d, events).run.participants[id] == NewParticipant(before, a, e.now))
        && Follow(d, events, id) == BLANK.(begunAt := Run(d, events).run.participants[id].stageStartedAt)
  {
    hide Step, RowAfter, HistoryAfter;
    var before, e := Run(d, events[..|events| - 1]), events[|events| - 1];
    RunKeepsPlan(d, events[..|events| - 1]);
    if id in before.run.participants {
      StepRow(before, e, id);
    } else {
      StepNewRow(before, e, id);
    }
  }

  // ------------------------------------------------------------------- time in stages ---

  /** The time of the first `k` stages. */
  function TimeUpTo(stages: seq<WarmupStage>, k: nat): int {
    if k == 0 then 0 else TimeUpTo(stages, k - 1) + Days(StageDays(stages, k - 1))
  }

  ghost predicate OnSchedule(p: Participant, h: History, stages: seq<WarmupStage>) {
    && p.stage < |stages|
    && (h.begunAt.None? <==> p.stageStartedAt.None?)
    && (h.begunAt.None? ==> p.stage == 0)
    && (h.begunAt.Some? ==> p.stageStartedAt.value >= h.begunAt.value + TimeUpTo(stages, p.stage))
    && (h.finishedAt.Some? ==>
          h.begunAt.Some? && p.status.Finished? && h.finishedAt.value >= h.begunAt.value + TimeUpTo(stages, |stages|))
  }

  lemma VisitKeepsSchedule(x: Scene, id: int, p: Participant, h: History)
    requires OnSchedule(p, h, StagesOf(x.run)) && p.status.Ongoing?
    ensures OnSchedule(Turn(x, id, p), AfterVisit(x, id, p, h), StagesOf(x.run))
  {
    var stages := StagesOf(x.run);
    hide Tried, StagesOf, Days;
    assert TimeUpTo(stages, p.stage + 1) == TimeUpTo(stages, p.stage) + Days(StageDays(stages, p.stage));
  }

  lemma EventKeepsSchedule(run: WarmupRun, e: Event, id: int, p: Participant, h: History)
    requires OnSchedule(p, h, StagesOf(run))
    ensures OnSchedule(RowAfter(run, e, id, p), HistoryAfter(run, e, id, p, h), StagesOf(run))
  {
    hide Turn, AfterVisit, StagesOf;
    match e {
      case TickIt(_, _, _) => if p.status.Ongoing? { VisitKeepsSchedule(SceneOf(run, e), id, p, h); }
      case StartIt(now) => assert StartedParticipant(p, now).stage == p.stage;
      case _ =>
    }
  }

  lemma {:induction false} RunOnSchedule(d: Desk, events: seq<Event>, id: int)
    requires NewRun(d) && id in Run(d, events).run.participants
    ensures OnSchedule(Run(d, events).run.participants[id], Follow(d, events, id), StagesOf(d.run))
  {
    hide Run, Follow, RowAfter, HistoryAfter;
    if events == [] {
      RunOfNothing(d, id);
    } else {
      var front := events[..|events| - 1];
      LastEvent(d, events, id);
      RunKeepsPlan(d, front);
      if id in Run(d, front).run.participants {
        RunOnSchedule(d, front, id);
        EventKeepsSchedule(Run(d, front).run, events[|events| - 1], id, Run(d, front).run.participants[id],
                           Follow(d, front, id));
      }
    }
  }

  /** A participant has spent at least the days of every earlier stage, and completes no sooner than the
      days of all stages, whatever the clock, the pauses and the answers. */
  lemma RampTakesItsTime(d: Desk, events: seq<Event>, id: int)
    requires NewRun(d)
    ensures id in Run(d, events).run.participants ==>
      var p, h, stages := Run(d, events).run.participants[id], Follow(d, events, id), StagesOf(d.run);
      && p.stage < |stages|
      && (p.stageStartedAt.Some? ==>
            h.begunAt.Some? && p.stageStartedAt.value - h.begunAt.value >= TimeUpTo(stages, p.stage))
      && (h.finishedAt.Some? ==>
            h.begunAt.Some? && h.finishedAt.value - h.begunAt.value >= TimeUpTo(stages, |stages|))
  {
    hide Run, Follow;
    if id in Run(d, events).run.participants {
      RunOnSchedule(d, events, id);
    }
  }

  /** A stage never goes down and rises by one at most with each event; a finished participant never
      changes again. */
  lemma StageClimbs(d: Desk, e: Event, id: int)
    requires IdsBelow(d) && id in d.run.participants
    ensures id in Step(d, e).run.participants
    ensures var p, q := d.run.participants[id], Step(d, e).run.participants[id];
      && p.stage <= q.stage <= p.stage + 1 && (q.stage > p.stage ==> e.TickIt?)
      && (p.status.Finished? ==> q == p)
  {
    hide Step;
    StepRow(d, e, id);
  }

  // -------------------------------------------------------------------- ticks in time ---

  /** The time by which stage `k` is reached: each earlier stage takes its days and one gap between ticks. */
  function Budget(stages: seq<WarmupStage>, gap: int, k: nat): int {
    if k == 0 then 0
    else Budget(stages, gap, k - 1) + gap + if StageDays(stages, k - 1) > 0 then Days(StageDays(stages, k - 1)) else 0
  }

  /** The time of the last tick among the events, or the start if there was none. */
  function LastTick(start: Time, events: seq<Event>): Time {
    if events == [] then start
    else
      var e := events[|events| - 1];
      if e.TickIt? then e.now else LastTick(start, events[..|events| - 1])
  }

  /** Nobody stops the run; ticks come at most `gap` apart, the first within `gap` of the start, and find
      the account. Anything else may happen in between. */
  ghost predicate Punctual(accountId: int, start: Time, events: seq<Event>, gap: int) {
    events == []
    || (var front, e := events[..|events| - 1], events[|events| - 1];
        && Punctual(accountId, start, front, gap)
        && !e.StopIt?
        && (e.TickIt? ==> e.now - LastTick(start, front) <= gap && accountId in e.accounts))
  }

  ghost predicate InTime(p: Participant, start: Time, now: Time, stages: seq<WarmupStage>, gap: int) {
    && p.status.Ongoing? && p.stage < |stages| && p.stageStartedAt.Some?
    && p.stageStartedAt.value <= start + Budget(stages, gap, p.stage)
    && now <= p.stageStartedAt.value + if StageDays(stages, p.stage) > 0 then Days(StageDays(stages, p.stage)) else 0
  }

  lemma VisitInTime(x: Scene, id: int, p: Participant, start: Time, before: Time, gap: int)
    requires InTime(p, start, before, StagesOf(x.run), gap)
    requires x.now - before <= gap && p.accountId in x.accounts
    ensures var q, stages := Turn(x, id, p), StagesOf(x.run);
      && q.accountId == p.accountId
      && (if q.status.Finished? then p.stage == |stages| - 1 else InTime(q, start, x.now, stages, gap))
      && x.now <= start + Budget(stages, gap, p.stage + 1)
  {
    hide Tried, StagesOf;
  }

  lemma {:induction false} BudgetGrows(stages: seq<WarmupStage>, gap: int, j: nat, k: nat)
    requires j <= k && gap >= 0
    ensures Budget(stages, gap, j) <= Budget(stages, gap, k)
    decreases k
  {
    if j >= k {
    } else {
      BudgetGrows(stages, gap, j, k - 1);
    }
  }

  /** Participant `id` of account `accountId` is still on time, or has finished. */
  ghost predicate StillInTime(run: WarmupRun, id: int, accountId: int, stages: seq<WarmupStage>, start: Time, now: Time,
                              gap: int) {
    && StagesOf(run) == stages && id in run.participants && run.participants[id].accountId == accountId
    && (run.participants[id].status.Finished? || InTime(run.participants[id], start, now, stages, gap))
  }

  /** An ongoing participant is changed by ticks and by a stop only. */
  lemma OthersLeaveOngoing(run: WarmupRun, e: Event, id: int, p: Participant)
    requires !e.TickIt? && !e.StopIt? && (p.status.Ongoing? || p.status.Finished?)
    ensures RowAfter(run, e, id, p) == p
  {
  }

  /** What one event does to the row of a participant that is on time or has finished. */
  lemma RowInTime(run: WarmupRun, e: Event, id: int, p: Participant, start: Time, before: Time, gap: int)
    requires gap >= 0 && (p.status.Finished? || InTime(p, start, before, StagesOf(run), gap))
    requires !e.StopIt? && (e.TickIt? ==> e.now - before <= gap && p.accountId in e.accounts)
    ensures var q, stages := RowAfter(run, e, id, p), StagesOf(run);
      && q.accountId == p.accountId
      && (q.status.Finished? || InTime(q, start, if e.TickIt? then e.now else before, stages, gap))
      && (!p.status.Finished? && q.status.Finished? ==> e.TickIt? && e.now <= start + Budget(stages, gap, |stages|))
  {
    hide Turn, InTime, Budget, StagesOf;
    if !p.status.Finished? {
      InTimeIsOngoing(p, start, before, StagesOf(run), gap);
    }
    if !e.TickIt? {
      OthersLeaveOngoing(run, e, id, p);
    } else if !p.status.Finished? {
      VisitInTime(SceneOf(run, e), id, p, start, before, gap);
    }
  }

  lemma EventInTime(d: Desk, e: Event, id: int, accountId: int, stages: seq<WarmupStage>, start: Time, before: Time,
                    gap: int)
    requires IdsBelow(d) && gap >= 0 && StillInTime(d.run, id, accountId, stages, start, before, gap)
    requires !e.StopIt? && (e.TickIt? ==> e.now - before <= gap && accountId in e.accounts)
    ensures StillInTime(Step(d, e).run, id, accountId, stages, start, if e.TickIt? then e.now else before, gap)
    ensures !d.run.participants[id].status.Finished? && Step(d, e).run.participants[id].status.Finished? ==>
      e.TickIt? && e.now <= start + Budget(stages, gap, |stages|)
  {
    hide Step, InTime, RowAfter, Budget, Turn;
    StepKeepsPlan(d, e);
    StepRow(d, e, id);
    RowInTime(d.run, e, id, d.run.participants[id], start, before, gap);
  }

  lemma InTimeIsOngoing(p: Participant, start: Time, now: Time, stages: seq<WarmupStage>, gap: int)
    requires InTime(p, start, now, stages, gap)
    ensures p.status.Ongoing?
  {
  }

  lemma {:induction false} RunInTime(d: Desk, events: seq<Event>, id: int, accountId: int, start: Time, gap: int)
    requires IdsBelow(d) && gap >= 0 && StillInTime(d.run, id, accountId, StagesOf(d.run), start, start, gap)
    requires Punctual(accountId, start, events, gap)
    ensures IdsBelow(Run(d, events))
    ensures StillInTime(Run(d, events).run, id, accountId, StagesOf(d.run), start, LastTick(start, events), gap)
  {
    hide StillInTime, Step, IdsBelow, StagesOf;
    if events == [] {
    } else {
      var front := events[..|events| - 1];
      RunInTime(d, front, id, accountId, start, gap);
      StepKeepsPlan(Run(d, front), events[|events| - 1]);
      EventInTime(Run(d, front), events[|events| - 1], id, accountId, StagesOf(d.run), start, LastTick(start, front),
                  gap);
    }
  }

  /** When ticks come at most `gap` apart and nobody stops the run, a participant completes no later than the
      days of all stages plus one gap per stage after its start, whatever is started, paused, added or
      answered in between: the tick that completes it comes by then, and a run that has ticked past that
      time has completed it. */
  lemma RampEndsInTime(d: Desk, events: seq<Event>, id: int, start: Time, gap: int)
    requires IdsBelow(d) && gap >= 0 && id in d.run.participants
    requires var p := d.run.participants[id]; p.status.Ongoing? && p.stage == 0 && p.stageStartedAt == Some(start)
    requires Punctual(d.run.participants[id].accountId, start, events, gap)
    ensures id in Run(d, events).run.participants
    ensures var stages, after := StagesOf(d.run), Run(d, events).run.participants[id];
      var deadline := start + Budget(stages, gap, |stages|);
      && (LastTick(start, events) > deadline ==> after.status.Finished?)
      && (events != [] && after.status.Finished? && id in Run(d, events[..|events| - 1]).run.participants
          && !Run(d, events[..|events| - 1]).run.participants[id].status.Finished? ==>
            events[|events| - 1].TickIt? && LastTick(start, events) <= deadline)
  {
    hide Step, StagesOf, InTime, IdsBelow;
    var p, stages := d.run.participants[id], StagesOf(d.run);
    InTimeAtStart(p, start, stages, gap);
    RunInTime(d, events, id, p.accountId, start, gap);
    var after := Run(d, events).run.participants[id];
    if !after.status.Finished? {
      InTimeBounds(after, start, LastTick(start, events), stages, gap);
    }
    if events != [] {
      var front := events[..|events| - 1];
      RunInTime(d, front, id, p.accountId, start, gap);
      EventInTime(Run(d, front), events[|events| - 1], id, p.accountId, stages, start, LastTick(start, front), gap);
    }
  }

  lemma InTimeAtStart(p: Participant, start: Time, stages: seq<WarmupStage>, gap: int)
    requires p.status.Ongoing? && p.stage == 0 && p.stageStartedAt == Some(start) && stages != []
    ensures InTime(p, start, start, stages, gap)
  {
  }

  lemma InTimeBounds(p: Participant, start: Time, now: Time, stages: seq<WarmupStage>, gap: int)
    requires InTime(p, start, now, stages, gap) && gap >= 0
    ensures now <= start + Budget(stages, gap, |stages|)
  {
    BudgetGrows(stages, gap, p.stage + 1, |stages|);
  }

  // ------------------------------------------------------------------------ actions ---

  function LastAt(log: seq<Entry>): Option<Time> {
    if log == [] then None else Some(log[|log| - 1].at)
  }

  /** Successive actions are at least the run's delay apart. */
  ghost predicate Spaced(log: seq<Entry>, minDelay: int) {
    forall i :: 0 < i < |log| ==> log[i].at - log[i - 1].at >= Seconds(minDelay)
  }

  /** The groups joined, in order. */
  function JoinsOf(log: seq<Entry>): seq<string> {
    if log == [] then []
    else
      var before, e := JoinsOf(log[..|log| - 1]), log[|log| - 1];
      if e.act.Join? then before + [e.act.link] else before
  }

  /** The groups that are not in `seen`, each at its first place. */
  function Unseen(groups: seq<string>, seen: seq<string>): (r: seq<string>)
    ensures forall g :: g in r <==> g in groups && g !in seen
  {
    if groups == [] then []
    else if groups[0] in seen then Unseen(groups[1..], seen)
    else [groups[0]] + Unseen(groups[1..], seen + [groups[0]])
  }

  /** The groups without repetitions. */
  function Deduplicated(groups: seq<string>): seq<string> {
    Unseen(groups, [])
  }

  lemma {:induction false} UnseenHasNoRepeats(groups: seq<string>, seen: seq<string>)
    ensures NoRepeats(Unseen(groups, seen))
  {
    if groups == [] {
    } else {
      if groups[0] in seen {
        UnseenHasNoRepeats(groups[1..], seen);
      } else {
        var rest := Unseen(groups[1..], seen + [groups[0]]);
        UnseenHasNoRepeats(groups[1..], seen + [groups[0]]);
        forall j | 0 <= j < |rest| ensures rest[j] != groups[0] {
          assert rest[j] in rest;
        }
      }
    }
  }

  /** The next group to join is the next one not seen. */
  lemma {:induction false} RemainingIsUnseen(groups: seq<string>, seen: seq<string>)
    ensures var r := Remaining(groups, seen);
      Unseen(groups, seen) == if r == [] then [] else [r[0]] + Unseen(groups, seen + [r[0]])
  {
    if groups == [] || groups[0] !in seen {
    } else {
      RemainingIsUnseen(groups[1..], seen);
    }
  }

  /** What the log and the row agree on: the joins follow the deduplicated groups, chats come after all
      of them, and actions are spaced. */
  ghost predicate Disciplined(p: Participant, log: seq<Entry>, groups: seq<string>, minDelay: int) {
    && p.lastActionAt == LastAt(log) && Spaced(log, minDelay)
    && p.joined == JoinsOf(log) && p.joined + Unseen(groups, p.joined) == Deduplicated(groups)
    && forall i :: 0 <= i < |log| && log[i].act.Chat? ==> JoinsOf(log[..i]) == Deduplicated(groups)
  }

  lemma RecordKeepsDiscipline(p: Participant, log: seq<Entry>, run: WarmupRun, targets: seq<string>, now: Time,
                              stage: nat)
    requires Disciplined(p, log, run.groups, run.minDelaySeconds)
    requires Pacing.DelayOk(p.lastActionAt, now, run.minDelaySeconds) && ChooseAction(p, run, targets).Some?
    ensures var act := ChooseAction(p, run, targets).value;
      Disciplined(Record(p, act, now), log + [Entry(now, stage, act)], run.groups, run.minDelaySeconds)
  {
    hide ChooseAction, Unseen, JoinsOf, Deduplicated, Seconds, Pacing.DelayOk;
    var act := ChooseAction(p, run, targets).value;
    ChoiceFollowsList(p, run, targets);
    SpacedAfter(log, Entry(now, stage, act), run.minDelaySeconds);
    JoinsAfter(log, Entry(now, stage, act));
    ChatsComeAfter(log, Entry(now, stage, act), Deduplicated(run.groups));
  }

  /** The chosen group is the next unseen one; a chat means that none is left. */
  lemma ChoiceFollowsList(p: Participant, run: WarmupRun, targets: seq<string>)
    requires ChooseAction(p, run, targets).Some?
    ensures var act, unseen := ChooseAction(p, run, targets).value, Unseen(run.groups, p.joined);
      if act.Join? then p.joined + unseen == p.joined + [act.link] + Unseen(run.groups, p.joined + [act.link])
      else p.joined + unseen == p.joined
  {
    hide Unseen, Remaining;
    RemainingIsUnseen(run.groups, p.joined);
  }

  lemma SpacedAfter(log: seq<Entry>, e: Entry, minDelay: int)
    requires Spaced(log, minDelay) && Pacing.DelayOk(LastAt(log), e.at, minDelay)
    ensures Spaced(log + [e], minDelay) && LastAt(log + [e]) == Some(e.at)
  {
  }

  lemma JoinsAfter(log: seq<Entry>, e: Entry)
    ensures JoinsOf(log + [e]) == if e.act.Join? then JoinsOf(log) + [e.act.link] else JoinsOf(log)
  {
    assert (log + [e])[..|log|] == log;
  }

  lemma ChatsComeAfter(log: seq<Entry>, e: Entry, all: seq<string>)
    requires forall i :: 0 <= i < |log| && log[i].act.Chat? ==> JoinsOf(log[..i]) == all
    requires e.act.Chat? ==> JoinsOf(log) == all
    ensures var log' := log + [e]; forall i :: 0 <= i < |log'| && log'[i].act.Chat? ==> JoinsOf(log'[..i]) == all
  {
    hide JoinsOf;
    var log' := log + [e];
    forall i | 0 <= i < |log'| && log'[i].act.Chat? ensures JoinsOf(log'[..i]) == all {
      assert log'[..i] == if i < |log| then log[..i] else log;
    }
  }

  lemma RampKeepsDiscipline(p: Participant, q: Participant, log: seq<Entry>, groups: seq<string>, minDelay: int)
    requires Disciplined(p, log, groups, minDelay) && q.lastActionAt == p.lastActionAt && q.joined == p.joined
    ensures Disciplined(q, log, groups, minDelay)
  {
  }

  lemma VisitKeepsDiscipline(x: Scene, id: int, p: Participant, h: History)
    requires Disciplined(p, h.log, x.run.groups, x.run.minDelaySeconds)
    ensures Disciplined(Turn(x, id, p), AfterVisit(x, id, p, h).log, x.run.groups, x.run.minDelaySeconds)
  {
    hide Disciplined, ChooseAction, ChatTargets, StagesOf, StageCap;
    var q := Ramped(p, StagesOf(x.run), x.now);
    RampKeepsDiscipline(p, q, h.log, x.run.groups, x.run.minDelaySeconds);
    if p.accountId in x.accounts && Tried(x, p).Some? && !x.fails(id) {
      RecordKeepsDiscipline(q, h.log, x.run, ChatTargets(x, p.accountId), x.now, q.stage);
    }
  }

  lemma EventKeepsDiscipline(run: WarmupRun, e: Event, id: int, p: Participant, h: History)
    requires Disciplined(p, h.log, run.groups, run.minDelaySeconds)
    ensures Disciplined(RowAfter(run, e, id, p), HistoryAfter(run, e, id, p, h).log, run.groups, run.minDelaySeconds)
  {
    hide Turn, AfterVisit, Disciplined;
    if e.TickIt? && p.status.Ongoing? {
      VisitKeepsDiscipline(SceneOf(run, e), id, p, h);
    } else {
      RampKeepsDiscipline(p, RowAfter(run, e, id, p), h.log, run.groups, run.minDelaySeconds);
    }
  }

  lemma NewRowIsDisciplined(p: Participant, groups: seq<string>, minDelay: int)
    requires p.lastActionAt.None? && p.joined == []
    ensures Disciplined(p, [], groups, minDelay)
  {
    assert [] + Unseen(groups, []) == Unseen(groups, []);
  }

  lemma {:induction false} RunIsDisciplined(d: Desk, events: seq<Event>, id: int)
    requires NewRun(d) && id in Run(d, events).run.participants
    ensures Disciplined(Run(d, events).run.participants[id], Follow(d, events, id).log, d.run.groups,
                        d.run.minDelaySeconds)
  {
    hide Run, Follow, RowAfter, HistoryAfter, Disciplined;
    if events == [] {
      RunOfNothing(d, id);
    } else {
      var front := events[..|events| - 1];
      LastEvent(d, events, id);
      RunKeepsPlan(d, front);
      if id in Run(d, front).run.participants {
        RunIsDisciplined(d, front, id);
        EventKeepsDiscipline(Run(d, front).run, events[|events| - 1], id, Run(d, front).run.participants[id],
                             Follow(d, front, id));
      } else {
        NewRowIsDisciplined(Run(d, events).run.participants[id], d.run.groups, d.run.minDelaySeconds);
      }
    }
  }

  /** Over any run of events: the joined groups are a prefix of the deduplicated list and have no
      repetitions; nobody chats before joining them all; successive actions keep the run's delay. */
  lemma JoinsBeforeChats(d: Desk, events: seq<Event>, id: int)
    requires NewRun(d)
    ensures id in Run(d, events).run.participants ==>
      var p, log := Run(d, events).run.participants[id], Follow(d, events, id).log;
      && p.joined == JoinsOf(log) && p.joined <= Deduplicated(d.run.groups) && NoRepeats(p.joined)
      && (forall i :: 0 <= i < |log| && log[i].act.Chat? ==> JoinsOf(log[..i]) == Deduplicated(d.run.groups))
      && Spaced(log, d.run.minDelaySeconds)
  {
    hide Run, Follow;
    if id in Run(d, events).run.participants {
      RunIsDisciplined(d, events, id);
      UnseenHasNoRepeats(d.run.groups, []);
      PrefixHasNoRepeats(Run(d, events).run.participants[id].joined, Deduplicated(d.run.groups));
    }
  }

  lemma PrefixHasNoRepeats(s: seq<string>, t: seq<string>)
    requires NoRepeats(t)
    ensures s <= t ==> NoRepeats(s)
  {
  }

  // ----------------------------------------------------------------------- daily caps ---

  /** The actions of a UTC day. */
  function CountOn(log: seq<Entry>, day: int): nat {
    if log == [] then 0
    else (if DayOf(log[|log| - 1].at) == day then 1 else 0) + CountOn(log[..|log| - 1], day)
  }

  /** Each action is within the cap of the stage it was done in, counting that day's earlier ones. */
  ghost predicate Capped(log: seq<Entry>, stages: seq<WarmupStage>) {
    forall i :: 0 <= i < |log| ==> CountOn(log[..i + 1], DayOf(log[i].at)) <= StageCap(stages, log[i].stage)
  }

  /** The row's counter counts the actions of its day, and no action is later than that day. */
  ghost predicate Counted(p: Participant, log: seq<Entry>) {
    match p.dayKey
    case None => log == []
    case Some(day) => CountOn(log, day) == p.actionsToday && forall i :: 0 <= i < |log| ==> DayOf(log[i].at) <= day
  }

  ghost predicate WithinDay(p: Participant, log: seq<Entry>, stages: seq<WarmupStage>, now: Time) {
    Counted(p, log) && Capped(log, stages) && (p.dayKey.Some? ==> p.dayKey.value <= DayOf(now))
  }

  lemma {:induction false} NoneYet(log: seq<Entry>, day: int)
    requires forall i :: 0 <= i < |log| ==> DayOf(log[i].at) < day
    ensures CountOn(log, day) == 0
  {
    if log == [] {
    } else {
      NoneYet(log[..|log| - 1], day);
    }
  }

  lemma FreshDayCounts(p: Participant, log: seq<Entry>, now: Time)
    requires Counted(p, log) && (p.dayKey.Some? ==> p.dayKey.value <= DayOf(now))
    ensures Counted(FreshDay(p, now), log) && FreshDay(p, now).dayKey == Some(DayOf(now))
  {
    hide DayOf;
    if p.dayKey != Some(DayOf(now)) {
      NoneYet(log, DayOf(now));
    }
  }

  lemma RecordCounts(p: Participant, log: seq<Entry>, act: Act, now: Time, stages: seq<WarmupStage>, stage: nat)
    requires Counted(p, log) && Capped(log, stages) && p.dayKey == Some(DayOf(now))
      && p.actionsToday < StageCap(stages, stage)
    ensures var log' := log + [Entry(now, stage, act)]; Counted(Record(p, act, now), log') && Capped(log', stages)
  {
    hide DayOf, StageCap;
    var log' := log + [Entry(now, stage, act)];
    assert log'[..|log'| - 1] == log;
    forall i | 0 <= i < |log'| ensures CountOn(log'[..i + 1], DayOf(log'[i].at)) <= StageCap(stages, log'[i].stage) {
      if i < |log| {
        assert log'[..i + 1] == log[..i + 1];
      } else {
        assert log'[..i + 1] == log';
      }
    }
  }

  lemma VisitWithinDay(x: Scene, id: int, p: Participant, h: History, before: Time)
    requires WithinDay(p, h.log, StagesOf(x.run), before) && DayOf(before) <= DayOf(x.now)
    ensures WithinDay(Turn(x, id, p), AfterVisit(x, id, p, h).log, StagesOf(x.run), x.now)
  {
    hide Capped, ChooseAction, ChatTargets, StagesOf, StageCap, DayOf, CountOn;
    var stages := StagesOf(x.run);
    FreshDayCounts(p, h.log, x.now);
    var q := Ramped(p, stages, x.now);
    assert q.dayKey == FreshDay(p, x.now).dayKey && q.actionsToday == FreshDay(p, x.now).actionsToday;
    if p.accountId in x.accounts && Tried(x, p).Some? && !x.fails(id) {
      RecordCounts(q, h.log, Tried(x, p).value, x.now, stages, q.stage);
    }
  }

  lemma EventWithinDay(run: WarmupRun, e: Event, id: int, p: Participant, h: History, before: Time, now: Time)
    requires WithinDay(p, h.log, StagesOf(run), before) && DayOf(before) <= DayOf(now) && (e.TickIt? ==> e.now == now)
    ensures WithinDay(RowAfter(run, e, id, p), HistoryAfter(run, e, id, p, h).log, StagesOf(run), now)
  {
    hide Turn, AfterVisit, Capped, CountOn, StagesOf;
    if e.TickIt? && p.status.Ongoing? {
      VisitWithinDay(SceneOf(run, e), id, p, h, before);
    }
  }

  /** The clock of the ticks never goes back, and has not passed `now`. */
  ghost predicate Clocked(events: seq<Event>, now: Time) {
    && (forall i, j :: 0 <= i < j < |events| && events[i].TickIt? && events[j].TickIt? ==>
          events[i].now <= events[j].now)
    && (forall i :: 0 <= i < |events| && events[i].TickIt? ==> events[i].now <= now)
  }

  /** The clock at the last event. */
  ghost function ClockAt(events: seq<Event>, now: Time): Time
    requires events != []
  {
    if events[|events| - 1].TickIt? then events[|events| - 1].now else now
  }

  lemma ClockedBefore(events: seq<Event>, now: Time)
    requires events != [] && Clocked(events, now)
    ensures Clocked(events[..|events| - 1], ClockAt(events, now)) && ClockAt(events, now) <= now
  {
  }

  lemma LaterDay(a: Time, b: Time)
    requires a <= b
    ensures DayOf(a) <= DayOf(b)
  {
  }

  lemma LaterWithinDay(p: Participant, log: seq<Entry>, stages: seq<WarmupStage>, a: Time, b: Time)
    requires WithinDay(p, log, stages, a) && a <= b
    ensures WithinDay(p, log, stages, b)
  {
    hide Counted, Capped;
    LaterDay(a, b);
  }

  lemma {:induction false} RunWithinDay(d: Desk, events: seq<Event>, id: int, now: Time)
    requires NewRun(d) && id in Run(d, events).run.participants && Clocked(events, now)
    ensures WithinDay(Run(d, events).run.participants[id], Follow(d, events, id).log, StagesOf(d.run), now)
  {
    hide Run, Follow, RowAfter, HistoryAfter, WithinDay, Clocked;
    if events == [] {
      RunOfNothing(d, id);
    } else {
      var front, at := events[..|events| - 1], ClockAt(events, now);
      LastEvent(d, events, id);
      RunKeepsPlan(d, front);
      ClockedBefore(events, now);
      if id in Run(d, front).run.participants {
        RunWithinDay(d, front, id, at);
        EventWithinDay(Run(d, front).run, events[|events| - 1], id, Run(d, front).run.participants[id],
                       Follow(d, front, id), at, at);
      } else {
        NewRowWithinDay(Run(d, events).run.participants[id], StagesOf(d.run), at);
      }
      LaterWithinDay(Run(d, events).run.participants[id], Follow(d, events, id).log, StagesOf(d.run), at, now);
    }
  }

  lemma NewRowWithinDay(p: Participant, stages: seq<WarmupStage>, now: Time)
    requires p.dayKey.None?
    ensures WithinDay(p, [], stages, now)
  {
  }

  /** When the clock never goes back, every action is within the daily cap of the stage it was done in,
      counting all actions of its UTC day up to it. */
  lemma DailyCapsHold(d: Desk, events: seq<Event>, id: int, now: Time)
    requires NewRun(d) && Clocked(events, now)
    ensures id in Run(d, events).run.participants ==> Capped(Follow(d, events, id).log, StagesOf(d.run))
  {
    hide Run, Follow, Capped, Clocked;
    if id in Run(d, events).run.participants {
      RunWithinDay(d, events, id, now);
    }
  }

  /** Day by day: a UTC day with any action holds no more of them than the cap of the stage its last action was
      done in. */
  lemma DayTotalsHold(d: Desk, events: seq<Event>, id: int, now: Time, day: int)
    requires NewRun(d) && Clocked(events, now)
    ensures id in Run(d, events).run.participants ==>
      var log := Follow(d, events, id).log;
      CountOn(log, day) > 0 ==>
        exists i :: LastOn(log, day, i) && CountOn(log, day) <= StageCap(StagesOf(d.run), log[i].stage)
  {
    hide Run, Follow, Capped, Clocked, StagesOf, StageCap;
    DailyCapsHold(d, events, id, now);
    var log := Follow(d, events, id).log;
    if id in Run(d, events).run.participants && CountOn(log, day) > 0 {
      var i := TotalIsCapped(log, StagesOf(d.run), day);
    }
  }

  /** Action `i` is the last one of the day. */
  ghost predicate LastOn(log: seq<Entry>, day: int, i: int) {
    0 <= i < |log| && DayOf(log[i].at) == day && forall j :: i < j < |log| ==> DayOf(log[j].at) != day
  }

  lemma TotalIsCapped(log: seq<Entry>, stages: seq<WarmupStage>, day: int) returns (i: nat)
    requires Capped(log, stages) && CountOn(log, day) > 0
    ensures LastOn(log, day, i) && CountOn(log, day) <= StageCap(stages, log[i].stage)
  {
    hide StageCap;
    i := LastOfDay(log, day);
  }

  /** The last action of a day ends that day's count. */
  lemma {:induction false} LastOfDay(log: seq<Entry>, day: int) returns (i: nat)
    requires CountOn(log, day) > 0
    ensures LastOn(log, day, i) && CountOn(log[..i + 1], day) == CountOn(log, day)
  {
    var last := |log| - 1;
    if DayOf(log[last].at) == day {
      i := last;
      assert log[..i + 1] == log;
    } else {
      i := LastOfDay(log[..last], day);
      assert log[..last][..i + 1] == log[..i + 1];
    }
  }

  // --------------------------------------------------------------------------- pool ---

  /** A tick and a stop turn warming accounts into active ones and change no other status: no
      quarantined, banned or logged-out account comes back. */
  lemma {:induction false} TickKeepsSound(x: Scene, ids: seq<int>, k: nat)
    ensures Pool.Sound(AccountsAfter(x, ids, k)) == Pool.Sound(x.accounts)
  {
    if k == 0 || k > |ids| {
    } else {
      TickKeepsSound(x, ids, k - 1);
    }
  }

  lemma {:induction false} StopKeepsSound(accounts: Accounts, run: WarmupRun, ids: seq<int>, k: nat)
    ensures Pool.Sound(StoppedAccounts(accounts, run, ids, k)) == Pool.Sound(accounts)
  {
    if k == 0 || k > |ids| {
    } else {
      StopKeepsSound(accounts, run, ids, k - 1);
    }
  }
}
