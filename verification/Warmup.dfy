/** Warm-up: runs, participants, the staged ramp, and the tick that advances stages and performs one
    paced action per participant. */
module Warmup {
  import opened Core
  import opened Ordering
  import opened Models
  import Pacing

  const DEFAULT_STAGES := [WarmupStage(3, Some(2)), WarmupStage(4, Some(5)), WarmupStage(5, Some(12))]

  /** `warmup_full_daily_cap`. */
  const FULL_CAP := 30

  function StageCap(stages: seq<WarmupStage>, stage: int): int {
    if 0 <= stage < |stages| && stages[stage].maxActions.Some? then stages[stage].maxActions.value else FULL_CAP
  }

  function StagesOf(run: WarmupRun): (stages: seq<WarmupStage>)
    ensures stages != []
  {
    if run.stages == [] then DEFAULT_STAGES else run.stages
  }

  // ------------------------------------------------------------------ specification ---

  /** Everything one tick is given; `fails` tells for which participants carrying out an action raises. */
  datatype Scene = Scene(accounts: Accounts, run: WarmupRun, now: Time, fails: int -> bool)

  datatype Act = Join(link: string) | Chat(target: string, text: string)

  /** The participants a tick visits, by id. */
  function OngoingSet(participants: map<int, Participant>): set<int> {
    set p | p in participants && participants[p].status.Ongoing?
  }

  function Visited(run: WarmupRun): (ids: seq<int>)
    ensures forall id :: id in ids ==> id in run.participants
  {
    ById(OngoingSet(run.participants))
  }

  /** The phones of the first `k` visited participants' accounts, without `self`. */
  function PeerPhones(accounts: Accounts, participants: map<int, Participant>, ids: seq<int>, self: int,
                      k: nat): seq<string>
    requires k <= |ids| && AllIn(ids, participants)
  {
    if k == 0 then []
    else
      var before, peer := PeerPhones(accounts, participants, ids, self, k - 1), participants[ids[k - 1]].accountId;
      if peer in accounts && peer != self && accounts[peer].phone.Some? && accounts[peer].phone.value != ""
      then before + [accounts[peer].phone.value] else before
  }

  /** Whom an account may chat with: the partners, then the other participants' phones. */
  function ChatTargets(x: Scene, self: int): seq<string> {
    var ids := Visited(x.run);
    x.run.partners + PeerPhones(x.accounts, x.run.participants, ids, self, |ids|)
  }

  /** The groups not joined yet. */
  function Remaining(groups: seq<string>, joined: seq<string>): (r: seq<string>)
    ensures forall g :: g in r <==> g in groups && g !in joined
  {
    if groups == [] then []
    else if groups[0] in joined then Remaining(groups[1..], joined)
    else [groups[0]] + Remaining(groups[1..], joined)
  }

  function ChooseAction(p: Participant, run: WarmupRun, targets: seq<string>): Option<Act> {
    var remaining := Remaining(run.groups, p.joined);
    if remaining != [] then Some(Join(remaining[0]))
    else if run.messages == [] || targets == [] then None
    else Some(Chat(targets[p.actionsToday % |targets|], run.messages[p.actionsToday % |run.messages|]))
  }

  function StageDays(stages: seq<WarmupStage>, stage: nat): int {
    if stage < |stages| then stages[stage].days else 0
  }

  /** The daily counter starts again on a new UTC day. */
  function FreshDay(p: Participant, now: Time): Participant {
    if p.dayKey != Some(DayOf(now)) then p.(actionsToday := 0, dayKey := Some(DayOf(now))) else p
  }

  datatype Move = Stays | Advances | Completes

  function StageStart(p: Participant, now: Time): Time {
    if p.stageStartedAt.Some? then p.stageStartedAt.value else now
  }

  function MoveOf(p: Participant, stages: seq<WarmupStage>, now: Time): Move {
    if now - StageStart(p, now) < Days(StageDays(stages, p.stage)) then Stays
    else if p.stage < |stages| - 1 then Advances
    else Completes
  }

  /** A participant after the new day and the stage change. */
  function Ramped(p: Participant, stages: seq<WarmupStage>, now: Time): Participant {
    var q := FreshDay(p, now).(stageStartedAt := Some(StageStart(p, now)));
    match MoveOf(p, stages, now)
    case Stays => q
    case Advances => q.(stage := q.stage + 1, stageStartedAt := Some(now))
    case Completes => q.(status := Finished)
  }

  predicate MayAct(p: Participant, stages: seq<WarmupStage>, minDelay: int, now: Time) {
    p.actionsToday < StageCap(stages, p.stage) && Pacing.DelayOk(p.lastActionAt, now, minDelay)
  }

  function Record(p: Participant, act: Act, now: Time): Participant {
    p.(actionsToday := p.actionsToday + 1, lastActionAt := Some(now),
       joined := if act.Join? then p.joined + [act.link] else p.joined)
  }

  /** The action a visit tries to carry out. */
  function Tried(x: Scene, p: Participant): Option<Act> {
    var stages := StagesOf(x.run);
    var q := Ramped(p, stages, x.now);
    if MoveOf(p, stages, x.now).Completes? || !MayAct(q, stages, x.run.minDelaySeconds, x.now) then None
    else ChooseAction(q, x.run, ChatTargets(x, p.accountId))
  }

  /** A participant after its visit. */
  function Turn(x: Scene, id: int, p: Participant): Participant {
    if p.accountId !in x.accounts then p
    else
      var q := Ramped(p, StagesOf(x.run), x.now);
      match Tried(x, p)
      case None => q
      case Some(act) => if x.fails(id) then q else Record(q, act, x.now)
  }

  /** An account after its participant's visit. */
  function AccountTurn(x: Scene, p: Participant, a: Account): Account {
    match MoveOf(p, StagesOf(x.run), x.now)
    case Stays => a
    case Advances => a.(warmupStage := p.stage + 1)
    case Completes => if a.status.Warming? then a.(status := Active) else a
  }

  /** The participants after the first `k` visits. */
  function ParticipantsAfter(x: Scene, ids: seq<int>, k: nat): (r: map<int, Participant>)
    ensures r.Keys == x.run.participants.Keys
  {
    if k == 0 || k > |ids| then x.run.participants
    else
      var before, id := ParticipantsAfter(x, ids, k - 1), ids[k - 1];
      if id in before then before[id := Turn(x, id, x.run.participants[id])] else before
  }

  /** The accounts after the first `k` visits. */
  function AccountsAfter(x: Scene, ids: seq<int>, k: nat): (r: Accounts)
    ensures r.Keys == x.accounts.Keys
  {
    if k == 0 || k > |ids| then x.accounts
    else if ids[k - 1] !in x.run.participants then AccountsAfter(x, ids, k - 1)
    else
      var before, p := AccountsAfter(x, ids, k - 1), x.run.participants[ids[k - 1]];
      if p.accountId in before then before[p.accountId := AccountTurn(x, p, before[p.accountId])] else before
  }

  datatype Summary = Summary(advanced: nat, completed: nat, actions: seq<(int, Act)>, errors: seq<int>)

  /** What the first `k` visits report. */
  function SummaryAfter(x: Scene, ids: seq<int>, k: nat): Summary {
    if k == 0 || k > |ids| then Summary(0, 0, [], [])
    else if ids[k - 1] !in x.run.participants then SummaryAfter(x, ids, k - 1)
    else
      var s, p := SummaryAfter(x, ids, k - 1), x.run.participants[ids[k - 1]];
      if p.accountId !in x.accounts then s
      else
        var move, tried := MoveOf(p, StagesOf(x.run), x.now), Tried(x, p);
        Summary(if move.Advances? then s.advanced + 1 else s.advanced,
                if move.Completes? then s.completed + 1 else s.completed,
                if tried.Some? && !x.fails(ids[k - 1]) then s.actions + [(p.accountId, tried.value)] else s.actions,
                if tried.Some? && x.fails(ids[k - 1]) then s.errors + [p.accountId] else s.errors)
  }

  datatype TickResult = TickResult(accounts: Accounts, run: WarmupRun, summary: Summary)

  function Tick(x: Scene): TickResult {
    var ids := Visited(x.run);
    TickResult(AccountsAfter(x, ids, |ids|), x.run.(participants := ParticipantsAfter(x, ids, |ids|)),
               SummaryAfter(x, ids, |ids|))
  }

  lemma VisitedAreIn(run: WarmupRun)
    ensures AllIn(Visited(run), run.participants) && Distinct(Visited(run))
  {
    ByIdDistinct(OngoingSet(run.participants));
    var ids := Visited(run);
    forall i | 0 <= i < |ids| ensures ids[i] in run.participants {
      assert ids[i] in ids;
    }
  }

  // ------------------------------------------------------------------------ the tick ---

  /** A participant not visited yet is as the tick found it. */
  lemma {:induction false} NotYet(x: Scene, ids: seq<int>, k: nat, id: int)
    requires k <= |ids| && id in x.run.participants && id !in ids[..k]
    ensures ParticipantsAfter(x, ids, k)[id] == x.run.participants[id]
  {
    if k == 0 {
    } else {
      assert ids[..k] == ids[..k - 1] + [ids[k - 1]];
      NotYet(x, ids, k - 1, id);
    }
  }

  method PhonesOf(accounts: Accounts, participants: map<int, Participant>, ids: seq<int>, self: int)
    returns (phones: seq<string>)
    requires AllIn(ids, participants)
    ensures phones == PeerPhones(accounts, participants, ids, self, |ids|)
  {
    phones := [];
    for k := 0 to |ids|
      invariant phones == PeerPhones(accounts, participants, ids, self, k)
    {
      var peer := participants[ids[k]].accountId;
      if peer in accounts && peer != self && accounts[peer].phone.Some? && accounts[peer].phone.value != "" {
        phones := phones + [accounts[peer].phone.value];
      }
    }
  }

  ghost predicate Reached(x: Scene, ids: seq<int>, k: nat, accounts: Accounts, participants: map<int, Participant>,
                          s: Summary) {
    && accounts == AccountsAfter(x, ids, k)
    && participants == ParticipantsAfter(x, ids, k)
    && s == SummaryAfter(x, ids, k)
  }

  lemma StartReached(x: Scene, ids: seq<int>)
    ensures Reached(x, ids, 0, x.accounts, x.run.participants, Summary(0, 0, [], []))
  {
  }

  /** A visit whose account is gone changes nothing. */
  lemma VisitNobody(x: Scene, ids: seq<int>, k: nat, accounts: Accounts, participants: map<int, Participant>,
                    s: Summary)
    requires k < |ids| && Distinct(ids) && AllIn(ids, x.run.participants)
    requires Reached(x, ids, k, accounts, participants, s)
    requires x.run.participants[ids[k]].accountId !in x.accounts
    ensures Reached(x, ids, k + 1, accounts, participants, s)
  {
    DistinctAt(ids, k);
    NotYet(x, ids, k, ids[k]);
    assert participants == participants[ids[k] := participants[ids[k]]];
  }

  /** A visit, in the terms of the code. */
  lemma VisitReaches(x: Scene, ids: seq<int>, k: nat, accounts: Accounts, participants: map<int, Participant>,
                     s: Summary)
    requires k < |ids| && Distinct(ids) && AllIn(ids, x.run.participants)
    requires Reached(x, ids, k, accounts, participants, s)
    requires x.run.participants[ids[k]].accountId in x.accounts
    ensures var p := x.run.participants[ids[k]];
      && p.accountId in accounts && ids[k] in participants && participants[ids[k]] == p
      && var move, tried := MoveOf(p, StagesOf(x.run), x.now), Tried(x, p);
         Reached(x, ids, k + 1, accounts[p.accountId := AccountTurn(x, p, accounts[p.accountId])],
                 participants[ids[k] := Turn(x, ids[k], p)],
                 Summary(if move.Advances? then s.advanced + 1 else s.advanced,
                         if move.Completes? then s.completed + 1 else s.completed,
                         if tried.Some? && !x.fails(ids[k]) then s.actions + [(p.accountId, tried.value)]
                         else s.actions,
                         if tried.Some? && x.fails(ids[k]) then s.errors + [p.accountId] else s.errors))
  {
    DistinctAt(ids, k);
    NotYet(x, ids, k, ids[k]);
  }

  /** One visit: the day, the stage, and at most one action. */
  method Visit(x: Scene, ids: seq<int>, id: int, participant: Participant, before: Account)
    returns (p: Participant, account: Account, move: Move, tried: Option<Act>)
    requires participant.accountId in x.accounts && ids == Visited(x.run) && AllIn(ids, x.run.participants)
    ensures p == Turn(x, id, participant) && account == AccountTurn(x, participant, before)
    ensures move == MoveOf(participant, StagesOf(x.run), x.now) && tried == Tried(x, participant)
  {
    hide Visited, PeerPhones, Remaining, ChooseAction, StageCap, StagesOf, AllIn;
    var run, now, stages := x.run, x.now, StagesOf(x.run);
    p, account, move, tried := participant, before, Stays, None;

    // Another UTC day: the count starts again.
    if p.dayKey != Some(DayOf(now)) {
      p := p.(actionsToday := 0, dayKey := Some(DayOf(now)));
    }

    // The stage is over: on to the next, or done after the last.
    var started := if p.stageStartedAt.Some? then p.stageStartedAt.value else now;
    if p.stageStartedAt.None? {
      p := p.(stageStartedAt := Some(now));
    }
    if now - started >= Days(StageDays(stages, p.stage)) {
      if p.stage < |stages| - 1 {
        p := p.(stage := p.stage + 1, stageStartedAt := Some(now));
        account := account.(warmupStage := p.stage);
        move := Advances;
      } else {
        p := p.(status := Finished);
        if account.status.Warming? {
          account := account.(status := Active);
        }
        move := Completes;
        return;
      }
    }

    // At most one action, if the cap and the delay leave room.
    if p.actionsToday >= StageCap(stages, p.stage) || !Pacing.DelayOk(p.lastActionAt, now, run.minDelaySeconds) {
      return;
    }
    var phones := PhonesOf(x.accounts, run.participants, ids, p.accountId);
    tried := ChooseAction(p, run, run.partners + phones);
    if tried.None? || x.fails(id) {
      return;
    }
    p := p.(actionsToday := p.actionsToday + 1, lastActionAt := Some(now));
    if tried.value.Join? {
      p := p.(joined := p.joined + [tried.value.link]);
    }
  }

  method RunTick(db: Database, runId: int, now: Time, fails: int -> bool) returns (summary: Summary)
    requires runId in db.runs
    modifies db`accounts, db`runs
    ensures var r := Tick(Scene(old(db.accounts), old(db.runs[runId]), now, fails));
      && db.accounts == r.accounts
      && db.runs == old(db.runs)[runId := r.run]
      && summary == r.summary
  {
    hide Reached, AccountsAfter, ParticipantsAfter, SummaryAfter, ById, Tried, Turn, AccountTurn, MoveOf;
    var run := db.runs[runId];
    var x := Scene(db.accounts, run, now, fails);
    var ids := Visited(run);
    VisitedAreIn(run);

    var participants := run.participants;
    var advanced, completed, actions, errors := 0, 0, [], [];
    StartReached(x, ids);
    for k := 0 to |ids|
      invariant db.runs == old(db.runs)
      invariant Reached(x, ids, k, db.accounts, participants, Summary(advanced, completed, actions, errors))
    {
      var id := ids[k];
      var accountId := run.participants[id].accountId;
      if accountId !in x.accounts {
        VisitNobody(x, ids, k, db.accounts, participants, Summary(advanced, completed, actions, errors));
        continue;
      }
      VisitReaches(x, ids, k, db.accounts, participants, Summary(advanced, completed, actions, errors));
      var p, account, move, tried := Visit(x, ids, id, run.participants[id], db.accounts[accountId]);
      db.accounts := db.accounts[accountId := account];
      participants := participants[id := p];
      advanced := if move.Advances? then advanced + 1 else advanced;
      completed := if move.Completes? then completed + 1 else completed;
      if tried.Some? && fails(id) {
        errors := errors + [accountId];
      } else if tried.Some? {
        actions := actions + [(accountId, tried.value)];
      }
    }
    db.runs := db.runs[runId := run.(participants := participants)];
    summary := Summary(advanced, completed, actions, errors);
    ReachedIsTick(x, db.accounts, participants, summary);
  }

  lemma ReachedIsTick(x: Scene, accounts: Accounts, participants: map<int, Participant>, s: Summary)
    requires Reached(x, Visited(x.run), |Visited(x.run)|, accounts, participants, s)
    ensures Tick(x) == TickResult(accounts, x.run.(participants := participants), s)
  {
  }

  // ------------------------------------------------------------------------ commands ---

  function StartedParticipant(p: Participant, now: Time): Participant {
    if p.status.Waiting? || p.status.OnHold? then p.(status := Ongoing, stageStartedAt := Some(StageStart(p, now)))
    else p
  }

  function StartMark(now: Time): (nat, Participant) -> Participant {
    (_: nat, p: Participant) => StartedParticipant(p, now)
  }

  /** Starting a run; paused participants go on, finished ones stay finished. */
  function Started(run: WarmupRun, now: Time): WarmupRun {
    var ids := ById(run.participants.Keys);
    run.(status := Running, startedAt := if run.startedAt.None? then Some(now) else run.startedAt,
         participants := Marked(run.participants, ids, StartMark(now), |ids|))
  }

  /** The accounts after the first `k` participants were started: each one set going is warming. */
  function StartedAccounts(accounts: Accounts, run: WarmupRun, ids: seq<int>, now: Time, k: nat): Accounts {
    if k == 0 || k > |ids| then accounts
    else
      var before := StartedAccounts(accounts, run, ids, now, k - 1);
      if ids[k - 1] !in run.participants then before
      else
        var p := run.participants[ids[k - 1]];
        if (p.status.Waiting? || p.status.OnHold?) && p.accountId in before then
          var a := before[p.accountId];
          before[p.accountId := a.(status := Warming, warmupStage := p.stage,
                                   warmupStartedAt := if a.warmupStartedAt.None? then Some(now) else a.warmupStartedAt)]
        else before
  }

  /** A participant whose turn has not come is as it was. */
  lemma UnmarkedYet(before: map<int, Participant>, mark: (nat, Participant) -> Participant, k: nat)
    requires k < |ById(before.Keys)|
    ensures var ids := ById(before.Keys); ids[k] in before && Marked(before, ids, mark, k)[ids[k]] == before[ids[k]]
  {
    var ids := ById(before.Keys);
    ByIdDistinct(before.Keys);
    assert ids[k] in ids;
    BeforeItsTurn(before, ids, mark, k);
  }

  method StartRun(db: Database, runId: int, now: Time)
    requires runId in db.runs
    modifies db`accounts, db`runs
    ensures var run := old(db.runs[runId]); var ids := ById(run.participants.Keys);
      && db.runs == old(db.runs)[runId := Started(run, now)]
      && db.accounts == StartedAccounts(old(db.accounts), run, ids, now, |ids|)
  {
    hide ById;
    var run := db.runs[runId];
    var ids, participants := ById(run.participants.Keys), run.participants;
    for k := 0 to |ids|
      invariant db.runs == old(db.runs)
      invariant participants == Marked(run.participants, ids, StartMark(now), k)
      invariant db.accounts == StartedAccounts(old(db.accounts), run, ids, now, k)
    {
      UnmarkedYet(run.participants, StartMark(now), k);
      var p := participants[ids[k]];
      if p.status.Waiting? || p.status.OnHold? {
        participants := participants[ids[k] := p.(status := Ongoing, stageStartedAt := Some(StageStart(p, now)))];
        if p.accountId in db.accounts {
          var a := db.accounts[p.accountId];
          db.accounts := db.accounts[p.accountId := a.(status := Warming, warmupStage := p.stage,
            warmupStartedAt := if a.warmupStartedAt.None? then Some(now) else a.warmupStartedAt)];
        }
      }
      assert participants == participants[ids[k] := participants[ids[k]]];
    }
    db.runs := db.runs[runId := run.(status := Running,
                                     startedAt := if run.startedAt.None? then Some(now) else run.startedAt,
                                     participants := participants)];
  }

  method PauseRun(db: Database, runId: int)
    requires runId in db.runs
    modifies db`runs
    ensures db.runs == old(db.runs)[runId := old(db.runs[runId]).(status := Paused)]
  {
    db.runs := db.runs[runId := db.runs[runId].(status := Paused)];
  }

  function StoppedParticipant(p: Participant): Participant {
    p.(status := Finished)
  }

  function StopMark(): (nat, Participant) -> Participant {
    (_: nat, p: Participant) => StoppedParticipant(p)
  }

  function Stopped(run: WarmupRun): WarmupRun {
    var ids := ById(run.participants.Keys);
    run.(status := Done, participants := Marked(run.participants, ids, StopMark(), |ids|))
  }

  /** The accounts after the first `k` participants were stopped: warming ones become active. */
  function StoppedAccounts(accounts: Accounts, run: WarmupRun, ids: seq<int>, k: nat): (r: Accounts) {
    if k == 0 || k > |ids| then accounts
    else
      var before := StoppedAccounts(accounts, run, ids, k - 1);
      if ids[k - 1] !in run.participants then before
      else
        var id := run.participants[ids[k - 1]].accountId;
        if id in before && before[id].status.Warming? then before[id := before[id].(status := Active)] else before
  }

  method StopRun(db: Database, runId: int)
    requires runId in db.runs
    modifies db`accounts, db`runs
    ensures var run := old(db.runs[runId]); var ids := ById(run.participants.Keys);
      && db.runs == old(db.runs)[runId := Stopped(run)]
      && db.accounts == StoppedAccounts(old(db.accounts), run, ids, |ids|)
  {
    hide ById;
    var run := db.runs[runId];
    var ids, participants := ById(run.participants.Keys), run.participants;
    for k := 0 to |ids|
      invariant db.runs == old(db.runs)
      invariant participants == Marked(run.participants, ids, StopMark(), k)
      invariant db.accounts == StoppedAccounts(old(db.accounts), run, ids, k)
    {
      UnmarkedYet(run.participants, StopMark(), k);
      var p := participants[ids[k]];
      participants := participants[ids[k] := p.(status := Finished)];
      if p.accountId in db.accounts && db.accounts[p.accountId].status.Warming? {
        db.accounts := db.accounts[p.accountId := db.accounts[p.accountId].(status := Active)];
      }
    }
    db.runs := db.runs[runId := run.(status := Done, participants := participants)];
  }

  function Seated(run: WarmupRun): set<int> {
    set id | id in run.participants :: run.participants[id].accountId
  }

  /** The accounts among the first `k` asked for that exist and have no seat in the run. */
  function Newcomers(run: WarmupRun, accounts: Accounts, asked: seq<int>, k: nat): (r: seq<int>)
    requires k <= |asked|
    ensures forall a :: a in r ==> a !in Seated(run) && a in accounts
  {
    if k == 0 then []
    else
      var before, a := Newcomers(run, accounts, asked, k - 1), asked[k - 1];
      if a in Seated(run) || a !in accounts then before else before + [a]
  }

  function NewParticipant(run: WarmupRun, accountId: int, now: Time): Participant {
    Participant(accountId, 0, if run.status.Running? then Some(now) else None, 0, None, None, [],
                if run.status.Running? then Ongoing else Waiting)
  }

  /** The rows of `newcomers` under consecutive ids. */
  function SeatedRows(run: WarmupRun, next: int, newcomers: seq<int>, now: Time): (r: map<int, Participant>)
    ensures forall id :: id in r <==> id in run.participants || next <= id < next + |newcomers|
  {
    if newcomers == [] then run.participants
    else
      var last := |newcomers| - 1;
      SeatedRows(run, next, newcomers[..last], now)[next + last := NewParticipant(run, newcomers[last], now)]
  }

  /** Adding accounts to a run. An account asked for twice breaks the table's unique key, and then
      nothing is stored. */
  function Enrolled(run: WarmupRun, next: int, accounts: Accounts, asked: seq<int>, now: Time): WarmupRun {
    var newcomers := Newcomers(run, accounts, asked, |asked|);
    if NoRepeats(newcomers) then run.(participants := SeatedRows(run, next, newcomers, now)) else run
  }

  lemma NobodyYet(run: WarmupRun, accounts: Accounts, asked: seq<int>, next: int, now: Time)
    ensures Newcomers(run, accounts, asked, 0) == [] && SeatedRows(run, next, [], now) == run.participants
  {
  }

  lemma NextNewcomer(run: WarmupRun, accounts: Accounts, asked: seq<int>, k: nat)
    requires k < |asked|
    ensures var before, a := Newcomers(run, accounts, asked, k), asked[k];
      Newcomers(run, accounts, asked, k + 1) == if a in Seated(run) || a !in accounts then before else before + [a]
  {
  }

  lemma OneMoreSeat(run: WarmupRun, next: int, newcomers: seq<int>, a: int, now: Time)
    ensures SeatedRows(run, next, newcomers + [a], now)
         == SeatedRows(run, next, newcomers, now)[next + |newcomers| := NewParticipant(run, a, now)]
  {
    assert (newcomers + [a])[..|newcomers|] == newcomers;
  }

  method AddParticipants(db: Database, runId: int, asked: seq<int>, now: Time) returns (ok: bool)
    requires runId in db.runs
    modifies db`runs, db`nextParticipant
    ensures var run := old(db.runs[runId]); var newcomers := Newcomers(run, db.accounts, asked, |asked|);
      && ok == NoRepeats(newcomers)
      && db.runs == old(db.runs)[runId := Enrolled(run, old(db.nextParticipant), db.accounts, asked, now)]
      && db.nextParticipant == old(db.nextParticipant) + if ok then |newcomers| else 0
  {
    hide Seated, NoRepeats, NewParticipant, Newcomers, SeatedRows;
    var run, existing := db.runs[runId], Seated(db.runs[runId]);
    var newcomers, participants, next := [], run.participants, db.nextParticipant;
    NobodyYet(run, db.accounts, asked, next, now);
    for k := 0 to |asked|
      invariant db.runs == old(db.runs) && db.nextParticipant == old(db.nextParticipant)
      invariant newcomers == Newcomers(run, db.accounts, asked, k)
      invariant next == db.nextParticipant + |newcomers|
      invariant participants == SeatedRows(run, db.nextParticipant, newcomers, now)
    {
      NextNewcomer(run, db.accounts, asked, k);
      if asked[k] in existing || asked[k] !in db.accounts {
        continue;
      }
      OneMoreSeat(run, db.nextParticipant, newcomers, asked[k], now);
      participants := participants[next := NewParticipant(run, asked[k], now)];
      newcomers := newcomers + [asked[k]];
      next := next + 1;
    }
    ok := NoRepeats(newcomers);
    if ok {
      db.runs := db.runs[runId := run.(participants := participants)];
      db.nextParticipant := next;
    }
  }
}
