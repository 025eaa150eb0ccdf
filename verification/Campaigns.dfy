/** Campaigns: segments, drip targets, start/pause/stop, and one tick over the shared account pool. */
module Campaigns {
  import opened Core
  import opened Ordering
  import opened Models
  import Pool

  // ------------------------------------------------------------ segments and targets ---

  /** `build_segment`: consented, not opted out, and matching every filter that is set. */
  function Segmented(contacts: Contacts, segment: Segment, already: set<int>): set<int> {
    set c | c in contacts && Matches(contacts[c], segment)
            && Reachable(contacts, c) && (segment.excludeInDestination.Some? ==> c !in already)
  }

  predicate Matches(c: Contact, segment: Segment) {
    && (segment.source.Some? && segment.source.value != "" ==> c.source == segment.source)
    && (segment.stage.Some? ==> c.stage == segment.stage.value)
    && (segment.tag.Some? && segment.tag.value != "" ==> segment.tag.value in c.tags)
  }

  function InDestination(d: Destination): set<int> {
    set m | m in d.memberships
            && (d.memberships[m].state.Added? || d.memberships[m].state.Invited? || d.memberships[m].state.InGroup?)
      :: d.memberships[m].contactId
  }

  function Already(destinations: map<int, Destination>, segment: Segment): set<int> {
    if segment.excludeInDestination.Some? && segment.excludeInDestination.value in destinations
    then InDestination(destinations[segment.excludeInDestination.value]) else {}
  }

  /** Template ids by variant group, in id order. */
  type Variants = map<string, seq<int>>

  function TemplateFor(variants: Variants, step: DripStep, abTest: bool, contactId: int): Option<int> {
    if step.variantGroup.Some? && step.variantGroup.value != "" && step.variantGroup.value in variants
       && variants[step.variantGroup.value] != []
    then
      var group := variants[step.variantGroup.value];
      Some(group[if abTest then contactId % |group| else 0])
    else None
  }

  function Steps(campaign: Campaign): (steps: seq<DripStep>)
    ensures steps != []
  {
    if campaign.steps == [] then [DripStep(0, None)] else campaign.steps
  }

  /** The target of one contact in one step of a campaign started at `now`. */
  function TargetFor(campaign: Campaign, variants: Variants, now: Time, s: nat, contactId: int): CampaignTarget
    requires s < |Steps(campaign)|
  {
    var step := Steps(campaign)[s];
    CampaignTarget(contactId, s, TemplateFor(variants, step, campaign.abTest, contactId),
                   now + Hours(step.offsetHours), Queued, None, None)
  }

  /** The targets of the first `j` contacts in step `s`. */
  function StepRows(campaign: Campaign, variants: Variants, now: Time, contacts: seq<int>, s: nat,
                    j: nat): (r: seq<CampaignTarget>)
    requires s < |Steps(campaign)| && j <= |contacts|
    ensures |r| == j
  {
    if j == 0 then []
    else StepRows(campaign, variants, now, contacts, s, j - 1)
         + [TargetFor(campaign, variants, now, s, contacts[j - 1])]
  }

  /** The targets of the first `k` steps, step by step. */
  function Rows(campaign: Campaign, variants: Variants, now: Time, contacts: seq<int>, k: nat): seq<CampaignTarget>
    requires k <= |Steps(campaign)|
  {
    if k == 0 then []
    else Rows(campaign, variants, now, contacts, k - 1)
         + StepRows(campaign, variants, now, contacts, k - 1, |contacts|)
  }

  /** A table with rows added under consecutive ids. */
  function Inserted(targets: map<int, CampaignTarget>, next: int, rows: seq<CampaignTarget>): map<int, CampaignTarget> {
    if rows == [] then targets
    else Inserted(targets, next, rows[..|rows| - 1])[next + |rows| - 1 := rows[|rows| - 1]]
  }

  lemma InsertNone(targets: map<int, CampaignTarget>, next: int)
    ensures Inserted(targets, next, []) == targets
  {
  }

  lemma InsertOneMore(targets: map<int, CampaignTarget>, next: int, rows: seq<CampaignTarget>, row: CampaignTarget)
    ensures Inserted(targets, next, rows + [row]) == Inserted(targets, next, rows)[next + |rows| := row]
  {
    var more := rows + [row];
    assert more[..|more| - 1] == rows && more[|more| - 1] == row;
  }

  /** The campaign's rows when it is started for the first time. */
  function Materialized(campaign: Campaign, contacts: Contacts, already: set<int>, variants: Variants,
                        now: Time): seq<CampaignTarget> {
    Rows(campaign, variants, now, ById(Segmented(contacts, campaign.segment, already)), |Steps(campaign)|)
  }

  lemma RowsStep(campaign: Campaign, variants: Variants, now: Time, contacts: seq<int>, s: nat, j: nat)
    requires s < |Steps(campaign)| && j < |contacts|
    ensures Rows(campaign, variants, now, contacts, s) + StepRows(campaign, variants, now, contacts, s, j + 1)
         == Rows(campaign, variants, now, contacts, s) + StepRows(campaign, variants, now, contacts, s, j)
            + [TargetFor(campaign, variants, now, s, contacts[j])]
  {
  }

  lemma RowsStart(campaign: Campaign, variants: Variants, now: Time, contacts: seq<int>, s: nat)
    requires s < |Steps(campaign)|
    ensures Rows(campaign, variants, now, contacts, 0) == []
    ensures Rows(campaign, variants, now, contacts, s) + StepRows(campaign, variants, now, contacts, s, 0)
         == Rows(campaign, variants, now, contacts, s)
  {
  }

  lemma RowsEnd(campaign: Campaign, variants: Variants, now: Time, contacts: seq<int>, s: nat)
    requires s < |Steps(campaign)|
    ensures Rows(campaign, variants, now, contacts, s) + StepRows(campaign, variants, now, contacts, s, |contacts|)
         == Rows(campaign, variants, now, contacts, s + 1)
  {
  }

  method MaterializeTargets(db: Database, campaignId: int, variants: Variants, now: Time) returns (created: nat)
    requires campaignId in db.campaigns
    modifies db`campaigns, db`nextCampaignTarget
    ensures var c := old(db.campaigns[campaignId]);
      var rows := Materialized(c, db.contacts, Already(db.destinations, c.segment), variants, now);
      && created == |rows|
      && db.nextCampaignTarget == old(db.nextCampaignTarget) + |rows|
      && db.campaigns
         == old(db.campaigns)[campaignId := c.(targets := Inserted(c.targets, old(db.nextCampaignTarget), rows))]
  {
    hide Segmented, Already, TemplateFor, ById;
    var campaign := db.campaigns[campaignId];
    var contacts := ById(Segmented(db.contacts, campaign.segment, Already(db.destinations, campaign.segment)));
    var steps := Steps(campaign);
    var first := db.nextCampaignTarget;
    var targets, next := campaign.targets, first;
    ghost var rows := Rows(campaign, variants, now, contacts, 0);
    created := 0;
    RowsStart(campaign, variants, now, contacts, 0);
    InsertNone(campaign.targets, first);
    for s := 0 to |steps|
      invariant db.campaigns == old(db.campaigns)
      invariant rows == Rows(campaign, variants, now, contacts, s)
      invariant targets == Inserted(campaign.targets, first, rows)
      invariant created == |rows| && next == first + |rows|
    {
      RowsStart(campaign, variants, now, contacts, s);
      for j := 0 to |contacts|
        invariant db.campaigns == old(db.campaigns)
        invariant rows == Rows(campaign, variants, now, contacts, s) + StepRows(campaign, variants, now, contacts, s, j)
        invariant targets == Inserted(campaign.targets, first, rows)
        invariant created == |rows| && next == first + |rows|
      {
        var row := TargetFor(campaign, variants, now, s, contacts[j]);
        InsertOneMore(campaign.targets, first, rows, row);
        RowsStep(campaign, variants, now, contacts, s, j);
        targets := targets[next := row];
        next := next + 1;
        rows := rows + [row];
        created := created + 1;
      }
      RowsEnd(campaign, variants, now, contacts, s);
    }
    db.campaigns := db.campaigns[campaignId := campaign.(targets := targets)];
    db.nextCampaignTarget := next;
  }

  // ---------------------------------------------------------------------- commands ---

  /** Starting makes the targets the first time only. */
  function Started(campaign: Campaign, contacts: Contacts, already: set<int>, variants: Variants, now: Time,
                   next: int): Campaign {
    if campaign.startedAt.Some? then campaign.(status := Running)
    else
      var c := campaign.(status := Running, startedAt := Some(now));
      c.(targets := Inserted(c.targets, next, Materialized(c, contacts, already, variants, now)))
  }

  method StartCampaign(db: Database, campaignId: int, variants: Variants, now: Time)
    requires campaignId in db.campaigns
    modifies db`campaigns, db`nextCampaignTarget
    ensures var c := old(db.campaigns[campaignId]);
      db.campaigns == old(db.campaigns)[campaignId :=
        Started(c, db.contacts, Already(db.destinations, c.segment), variants, now, old(db.nextCampaignTarget))]
  {
    var campaign := db.campaigns[campaignId];
    var firstStart := campaign.startedAt.None?;
    db.campaigns := db.campaigns[campaignId := campaign.(status := Running, startedAt := if firstStart then Some(now)
                                                                                         else campaign.startedAt)];
    if firstStart {
      var _ := MaterializeTargets(db, campaignId, variants, now);
    }
  }

  method PauseCampaign(db: Database, campaignId: int)
    requires campaignId in db.campaigns
    modifies db`campaigns
    ensures db.campaigns == old(db.campaigns)[campaignId := old(db.campaigns[campaignId]).(status := Paused)]
  {
    db.campaigns := db.campaigns[campaignId := db.campaigns[campaignId].(status := Paused)];
  }

  method StopCampaign(db: Database, campaignId: int)
    requires campaignId in db.campaigns
    modifies db`campaigns
    ensures db.campaigns == old(db.campaigns)[campaignId := old(db.campaigns[campaignId]).(status := Done)]
  {
    db.campaigns := db.campaigns[campaignId := db.campaigns[campaignId].(status := Done)];
  }

  // ------------------------------------------------------------------ specification ---

  /** What executing a target may answer. */
  datatype Reply = DidSend | DidJoin | DidFail | Warned

  /** `flushed`: the call wrote the session's pending changes to the store. */
  datatype Execution = Execution(reply: Reply, flushed: bool)

  type Executor = nat -> Execution

  type Targets = map<int, CampaignTarget>

  /** Everything one tick is given. */
  datatype Scene = Scene(
    accounts: Accounts, contacts: Contacts, campaign: Campaign, now: Time, execute: Executor, minDelay: int)

  function QueuedSet(targets: Targets): set<int> {
    set t | t in targets && targets[t].state.Queued?
  }

  function DueSet(targets: Targets, now: Time): set<int> {
    set t | t in targets && targets[t].scheduledAt <= now
  }

  function ReachableSet(targets: Targets, contacts: Contacts): set<int> {
    set t | t in targets && Reachable(contacts, targets[t].contactId)
  }

  function Schedule(targets: Targets): (key: map<int, int>)
    ensures key.Keys == targets.Keys
  {
    map t | t in targets :: targets[t].scheduledAt
  }

  /** The queued targets in `(scheduled_at, id)` order. */
  function Queue(targets: Targets): (r: seq<int>)
    ensures |r| == |QueuedSet(targets)| && forall t :: t in r <==> t in QueuedSet(targets)
  {
    OrderBy(QueuedSet(targets), Schedule(targets))
  }

  /** The due, queued targets of reachable contacts, in schedule order. */
  function Valid(x: Scene): (r: seq<int>)
    ensures |r| <= |QueuedSet(x.campaign.targets)|
    ensures forall t :: t in r <==> (t in QueuedSet(x.campaign.targets)
      && t in DueSet(x.campaign.targets, x.now) && t in ReachableSet(x.campaign.targets, x.contacts))
  {
    var ts := x.campaign.targets;
    Filter(Queue(ts), DueSet(ts, x.now) * ReachableSet(ts, x.contacts))
  }

  /** Due, queued targets whose contact is gone, without consent or opted out. */
  function SkippedBy(x: Scene): set<int> {
    var ts := x.campaign.targets;
    QueuedSet(ts) * DueSet(ts, x.now) - ReachableSet(ts, x.contacts)
  }

  function SkipSet(targets: Targets, skip: set<int>): (r: Targets)
    ensures r.Keys == targets.Keys
  {
    map t | t in targets :: if t in skip then targets[t].(state := Skipped) else targets[t]
  }

  function Effects(execute: Executor): Pool.Effects {
    (k: nat) => if execute(k).reply.Warned? then Pool.Quarantine else Pool.Charge
  }

  function StateOf(reply: Reply): TargetState {
    match reply
    case DidSend => Sent
    case DidJoin => Joined
    case DidFail => Failed
    case Warned => Queued
  }

  /** What attempt `k` does to its target; a warning leaves it queued. */
  function Mark(execute: Executor, order: seq<int>, now: Time): (nat, CampaignTarget) -> CampaignTarget {
    (k: nat, t: CampaignTarget) =>
      if execute(k).reply.Warned? || k >= |order| then t
      else t.(state := StateOf(execute(k).reply), accountId := Some(order[k]), sentAt := Some(now))
  }

  /** A sent message moves a new contact on; other contacts are not touched. */
  function Greet(execute: Executor, now: Time): (nat, Contact) -> Contact {
    (k: nat, c: Contact) =>
      if execute(k).reply.DidSend? && c.stage.NewLead? then c.(stage := Contacted, lastContactedAt := Some(now)) else c
  }

  function ContactsOf(targets: Targets, ids: seq<int>): (r: seq<int>)
    requires AllIn(ids, targets)
    ensures |r| == |ids| && forall i :: 0 <= i < |r| ==> r[i] == targets[ids[i]].contactId
  {
    seq(|ids|, i requires 0 <= i < |ids| => targets[ids[i]].contactId)
  }

  /** The account of the last attempt without a warning. */
  function LastUsed(execute: Executor, order: seq<int>, last: Option<int>, k: nat): Option<int> {
    if k == 0 then last
    else if !execute(k - 1).reply.Warned? && k <= |order| then Some(order[k - 1])
    else LastUsed(execute, order, last, k - 1)
  }

  function Replies(execute: Executor): nat -> Reply {
    (k: nat) => execute(k).reply
  }

  /** Account and contact of every recorded attempt. */
  function Recorded(execute: Executor, order: seq<int>, cids: seq<int>, k: nat): seq<(int, int)> {
    if k == 0 then []
    else
      var before := Recorded(execute, order, cids, k - 1);
      if !execute(k - 1).reply.Warned? && k <= |order| && k <= |cids| then before + [(order[k - 1], cids[k - 1])]
      else before
  }

  datatype Summary = Summary(sent: nat, joined: nat, failed: nat, skipped: nat, paused: bool, actions: seq<(int, int)>)

  const NOTHING := Summary(0, 0, 0, 0, false, [])

  datatype TickResult = TickResult(accounts: Accounts, contacts: Contacts, campaign: Campaign, summary: Summary)

  function TickOrder(x: Scene): seq<int> {
    Pool.Order(x.accounts, x.now, x.minDelay, x.campaign.lastAccountId)
  }

  predicate Works(x: Scene) {
    x.campaign.status.Running? && TickOrder(x) != []
  }

  datatype Plan = Plan(order: seq<int>, valid: seq<int>, cids: seq<int>, attempts: nat)

  ghost predicate Fits(p: Plan, x: Scene) {
    && Distinct(p.order) && AllIn(p.order, x.accounts)
    && Distinct(p.valid) && AllIn(p.valid, x.campaign.targets)
    && |p.cids| == |p.valid| && AllIn(p.cids, x.contacts)
    && p.attempts <= |p.order| && p.attempts <= |p.valid|
    && forall k :: 0 <= k < |p.valid| ==>
         var t := x.campaign.targets[p.valid[k]];
         p.cids[k] == t.contactId && t.state.Queued? && t.scheduledAt <= x.now && Reachable(x.contacts, t.contactId)
  }

  lemma ValidInOrder(x: Scene)
    ensures var valid := Valid(x);
      && Distinct(valid) && AllIn(valid, x.campaign.targets) && Ordered(valid, Schedule(x.campaign.targets))
      && forall i :: 0 <= i < |valid| ==>
           var t := x.campaign.targets[valid[i]];
           t.state.Queued? && t.scheduledAt <= x.now && Reachable(x.contacts, t.contactId)
  {
    var ts := x.campaign.targets;
    OrderByOrders(QueuedSet(ts), Schedule(ts));
    FilterOrdered(Queue(ts), DueSet(ts, x.now) * ReachableSet(ts, x.contacts), Schedule(ts));
    var valid := Valid(x);
    assert forall i :: 0 <= i < |valid| ==>
      valid[i] in QueuedSet(ts) && valid[i] in DueSet(ts, x.now) && valid[i] in ReachableSet(ts, x.contacts);
    OrderedIsDistinct(valid, Schedule(ts));
  }

  function PlanOf(x: Scene): (p: Plan)
    ensures Fits(p, x)
  {
    ValidInOrder(x);
    Pool.OrderIsUsable(x.accounts, x.now, x.minDelay, x.campaign.lastAccountId);
    var order, valid := TickOrder(x), Valid(x);
    Plan(order, valid, ContactsOf(x.campaign.targets, valid), Pool.Made(Effects(x.execute), Min(|order|, |valid|)))
  }

  function Skipping(x: Scene): Targets {
    SkipSet(x.campaign.targets, SkippedBy(x))
  }

  function AccountsAfter(x: Scene, p: Plan, k: nat): Accounts {
    Pool.After(x.accounts, p.order, Effects(x.execute), x.now, k)
  }

  function ContactsAfter(x: Scene, p: Plan, k: nat): Contacts {
    Marked(x.contacts, p.cids, Greet(x.execute, x.now), k)
  }

  function TargetsAfter(x: Scene, p: Plan, k: nat): (r: Targets)
    ensures r.Keys == x.campaign.targets.Keys
  {
    Marked(Skipping(x), p.valid, Mark(x.execute, p.order, x.now), k)
  }

  /** The stored targets after `k` attempts: as of the last flush, which came before that attempt's own
      change to its target. */
  function StoredAfter(x: Scene, p: Plan, k: nat): Targets {
    if k == 0 then x.campaign.targets
    else if x.execute(k - 1).flushed then TargetsAfter(x, p, k - 1)
    else StoredAfter(x, p, k - 1)
  }

  function StatusAfter(x: Scene, p: Plan): JobStatus {
    if Pool.Stopped(Effects(x.execute), p.attempts) then Paused
    else if QueuedSet(StoredAfter(x, p, p.attempts)) == {} then Done
    else Running
  }

  function SummaryOf(x: Scene, p: Plan): Summary {
    var m := p.attempts;
    Summary(Pool.Tally(Replies(x.execute), DidSend, m), Pool.Tally(Replies(x.execute), DidJoin, m),
            Pool.Tally(Replies(x.execute), DidFail, m),
            |SkippedBy(x)|, Pool.Stopped(Effects(x.execute), m), Recorded(x.execute, p.order, p.cids, m))
  }

  function CampaignAfter(x: Scene, p: Plan): Campaign {
    x.campaign.(targets := TargetsAfter(x, p, p.attempts),
                lastAccountId := LastUsed(x.execute, p.order, x.campaign.lastAccountId, p.attempts),
                status := StatusAfter(x, p))
  }

  /** One tick of a campaign. */
  function Tick(x: Scene): TickResult {
    if !Works(x) then TickResult(x.accounts, x.contacts, x.campaign, NOTHING)
    else
      var p := PlanOf(x);
      TickResult(AccountsAfter(x, p, p.attempts), ContactsAfter(x, p, p.attempts), CampaignAfter(x, p), SummaryOf(x, p))
  }

  // --------------------------------------------------------------------- the code ---

  lemma SkipOneMore(before: Targets, gone: set<int>, t: int)
    requires t in before && t !in gone
    ensures var r := SkipSet(before, gone);
      r[t] == before[t] && SkipSet(before, gone + {t}) == r[t := r[t].(state := Skipped)]
  {
  }

  /** The ids among the first `i` of a queue that are due and not to be kept. */
  ghost function Dropped(queue: seq<int>, due: set<int>, keep: set<int>, i: nat): set<int>
    requires i <= |queue|
  {
    set t | t in queue[..i] && t in due - keep
  }

  lemma DroppedStep(queue: seq<int>, due: set<int>, keep: set<int>, i: nat)
    requires i < |queue| && Distinct(queue)
    ensures Dropped(queue, due, keep, i + 1)
         == if queue[i] in due - keep then Dropped(queue, due, keep, i) + {queue[i]} else Dropped(queue, due, keep, i)
    ensures queue[i] !in Dropped(queue, due, keep, i)
  {
    assert queue[..i + 1] == queue[..i] + [queue[i]];
    DistinctAt(queue, i);
  }

  /** The due targets of reachable contacts. */
  function KeepSet(x: Scene): set<int> {
    DueSet(x.campaign.targets, x.now) * ReachableSet(x.campaign.targets, x.contacts)
  }

  lemma QueueIsDistinct(x: Scene)
    ensures Distinct(Queue(x.campaign.targets))
  {
    OrderByOrders(QueuedSet(x.campaign.targets), Schedule(x.campaign.targets));
    OrderedIsDistinct(Queue(x.campaign.targets), Schedule(x.campaign.targets));
  }

  lemma DroppedBounds(x: Scene)
    ensures var queue, due := Queue(x.campaign.targets), DueSet(x.campaign.targets, x.now);
      && Dropped(queue, due, KeepSet(x), 0) == {} && SkipSet(x.campaign.targets, {}) == x.campaign.targets
      && Dropped(queue, due, KeepSet(x), |queue|) == SkippedBy(x)
  {
    var queue := Queue(x.campaign.targets);
    assert queue[..|queue|] == queue;
  }

  lemma QueueMember(x: Scene, i: nat)
    requires i < |Queue(x.campaign.targets)|
    ensures var ts := x.campaign.targets;
      var t := Queue(ts)[i];
      && t in ts
      && (t in KeepSet(x) <==> ts[t].scheduledAt <= x.now && Reachable(x.contacts, ts[t].contactId))
      && (t in DueSet(ts, x.now) - KeepSet(x)
          <==> ts[t].scheduledAt <= x.now && !Reachable(x.contacts, ts[t].contactId))
  {
    assert Queue(x.campaign.targets)[i] in QueuedSet(x.campaign.targets);
  }

  /** Walks the queue in schedule order: later targets are passed over, unreachable ones skipped. */
  method FilterQueue(contacts: Contacts, before: Targets, now: Time, ghost x: Scene)
    returns (targets: Targets, valid: seq<int>, skipped: nat)
    requires x.contacts == contacts && x.campaign.targets == before && x.now == now
    ensures targets == Skipping(x) && valid == Valid(x) && skipped == |SkippedBy(x)|
  {
    hide Queue, DueSet, KeepSet, SkipSet, Dropped, Reachable, SkippedBy, Distinct, Filter;
    var queue := Queue(before);
    ghost var due, keep := DueSet(before, now), KeepSet(x);
    QueueIsDistinct(x);
    DroppedBounds(x);
    ValidIsFilter(x);
    FilterNone(queue, keep);
    targets, valid, skipped := before, [], 0;
    for i := 0 to |queue|
      invariant valid == Filter(queue[..i], keep)
      invariant targets == SkipSet(before, Dropped(queue, due, keep, i))
      invariant skipped == |Dropped(queue, due, keep, i)|
    {
      var t := queue[i];
      QueueMember(x, i);
      FilterStep(queue, keep, i);
      DroppedStep(queue, due, keep, i);
      if before[t].scheduledAt > now {
        continue;
      }
      if Reachable(contacts, before[t].contactId) {
        valid := valid + [t];
      } else {
        SkipOneMore(before, Dropped(queue, due, keep, i), t);
        targets := targets[t := targets[t].(state := Skipped)];
        skipped := skipped + 1;
      }
    }
    assert queue[..|queue|] == queue;
  }

  lemma ValidIsFilter(x: Scene)
    ensures Valid(x) == Filter(Queue(x.campaign.targets), KeepSet(x))
  {
  }

  lemma AccountsAdvance(x: Scene, p: Plan, k: nat)
    requires Fits(p, x) && k < |p.order|
    ensures var accounts, a := AccountsAfter(x, p, k), p.order[k];
      AccountsAfter(x, p, k + 1) ==
      if x.execute(k).reply.Warned? then accounts[a := accounts[a].(status := Quarantined)]
      else accounts[a := accounts[a].(actionsToday := accounts[a].actionsToday + 1, lastActionAt := Some(x.now))]
  {
    var accounts, a := AccountsAfter(x, p, k), p.order[k];
    assert AccountsAfter(x, p, k + 1) == accounts[a := Pool.Apply(accounts[a], Effects(x.execute)(k), x.now)];
  }

  lemma ContactsAdvance(x: Scene, p: Plan, k: nat)
    requires Fits(p, x) && k < |p.cids|
    ensures var contacts, c := ContactsAfter(x, p, k), p.cids[k];
      ContactsAfter(x, p, k + 1)
      == if x.execute(k).reply.DidSend? && contacts[c].stage.NewLead?
         then contacts[c := contacts[c].(stage := Contacted, lastContactedAt := Some(x.now))] else contacts
  {
    var contacts, c := ContactsAfter(x, p, k), p.cids[k];
    assert contacts == contacts[c := contacts[c]];
  }

  /** Until its own attempt a target of the plan is as the tick found it. */
  lemma UnmarkedYet(x: Scene, p: Plan, k: nat)
    requires Fits(p, x) && k < |p.valid|
    ensures TargetsAfter(x, p, k)[p.valid[k]] == x.campaign.targets[p.valid[k]]
  {
    BeforeItsTurn(Skipping(x), p.valid, Mark(x.execute, p.order, x.now), k);
  }

  lemma TargetsAdvance(x: Scene, p: Plan, k: nat)
    requires Fits(p, x) && k < |p.order| && k < |p.valid|
    ensures var targets, t := TargetsAfter(x, p, k), p.valid[k];
      && targets[t] == x.campaign.targets[t]
      && TargetsAfter(x, p, k + 1)
         == if x.execute(k).reply.Warned? then targets
            else targets[t := targets[t].(state := StateOf(x.execute(k).reply), accountId := Some(p.order[k]),
                                          sentAt := Some(x.now))]
  {
    UnmarkedYet(x, p, k);
    var targets, t := TargetsAfter(x, p, k), p.valid[k];
    assert targets == targets[t := targets[t]];
  }

  ghost predicate Reached(x: Scene, p: Plan, k: nat, accounts: Accounts, contacts: Contacts, targets: Targets,
                          stored: Targets) {
    && accounts == AccountsAfter(x, p, k)
    && contacts == ContactsAfter(x, p, k)
    && targets == TargetsAfter(x, p, k)
    && stored == StoredAfter(x, p, k)
  }

  lemma StartReached(x: Scene, p: Plan)
    ensures Reached(x, p, 0, x.accounts, x.contacts, Skipping(x), x.campaign.targets)
  {
  }

  /** One attempt, in the terms of the code. */
  lemma AttemptReaches(x: Scene, p: Plan, k: nat, accounts: Accounts, contacts: Contacts, targets: Targets,
                       stored: Targets)
    requires Fits(p, x) && k < |p.order| && k < |p.valid|
    requires Reached(x, p, k, accounts, contacts, targets, stored)
    ensures var a, t, c, result := p.order[k], p.valid[k], p.cids[k], x.execute(k);
      && a in accounts && t in targets && c in contacts && targets[t].contactId == c
      && var stored' := if result.flushed then targets else stored;
         if result.reply.Warned? then
           Reached(x, p, k + 1, accounts[a := accounts[a].(status := Quarantined)], contacts, targets, stored')
         else
           Reached(x, p, k + 1,
                   accounts[a := accounts[a].(actionsToday := accounts[a].actionsToday + 1,
                                              lastActionAt := Some(x.now))],
                   if result.reply.DidSend? && contacts[c].stage.NewLead?
                   then contacts[c := contacts[c].(stage := Contacted, lastContactedAt := Some(x.now))] else contacts,
                   targets[t := targets[t].(state := StateOf(result.reply), accountId := Some(a),
                                            sentAt := Some(x.now))],
                   stored')
  {
    AccountsAdvance(x, p, k);
    ContactsAdvance(x, p, k);
    TargetsAdvance(x, p, k);
  }

  lemma PlanSizes(x: Scene, p: Plan)
    requires Fits(p, x)
    ensures |p.cids| == |p.valid|
  {
  }

  /** The loop over the accounts: pairs accounts and targets in order and stops at a warning. */
  method AttemptAll(db: Database, ghost x: Scene, ghost p: Plan, order: seq<int>, valid: seq<int>,
                    campaign: Campaign, skipping: Targets, now: Time, execute: Executor)
    returns (targets: Targets, stored: Targets, last: Option<int>, sent: nat, joined: nat, failed: nat,
             paused: bool, actions: seq<(int, int)>)
    requires Fits(p, x) && order == p.order && valid == p.valid && campaign == x.campaign
    requires now == x.now && execute == x.execute && db.accounts == x.accounts && db.contacts == x.contacts
    requires skipping == Skipping(x)
    requires p.attempts == Pool.Made(Effects(execute), Min(|order|, |valid|))
    modifies db`accounts, db`contacts
    ensures Reached(x, p, p.attempts, db.accounts, db.contacts, targets, stored)
    ensures last == LastUsed(execute, order, campaign.lastAccountId, p.attempts)
    ensures sent == Pool.Tally(Replies(execute), DidSend, p.attempts)
      && joined == Pool.Tally(Replies(execute), DidJoin, p.attempts)
    ensures failed == Pool.Tally(Replies(execute), DidFail, p.attempts)
    ensures paused == Pool.Stopped(Effects(execute), p.attempts)
    ensures actions == Recorded(execute, order, p.cids, p.attempts)
  {
    hide Fits, Reached, Skipping, Pool.Made, StoredAfter, TargetsAfter;
    var ti := 0;
    targets, stored, last := skipping, campaign.targets, campaign.lastAccountId;
    sent, joined, failed, paused, actions := 0, 0, 0, false, [];
    StartReached(x, p);
    PlanSizes(x, p);
    while ti < |order| && ti < |valid| && !paused
      invariant ti <= |order| && ti <= |valid|
      invariant Reached(x, p, ti, db.accounts, db.contacts, targets, stored)
      invariant last == LastUsed(execute, order, campaign.lastAccountId, ti)
      invariant sent == Pool.Tally(Replies(execute), DidSend, ti) && joined == Pool.Tally(Replies(execute), DidJoin, ti)
      invariant failed == Pool.Tally(Replies(execute), DidFail, ti)
      invariant actions == Recorded(execute, order, p.cids, ti)
      invariant forall k :: 0 <= k < ti - 1 ==> !Effects(execute)(k).Quarantine?
      invariant paused == Pool.Stopped(Effects(execute), ti)
      decreases |order| - ti
    {
      AttemptReaches(x, p, ti, db.accounts, db.contacts, targets, stored);
      var a, t := order[ti], valid[ti];
      var account, contactId := db.accounts[a], targets[t].contactId;
      var contact := db.contacts[contactId];
      var result := execute(ti);
      if result.flushed {
        stored := targets;
      }
      if result.reply.Warned? {
        db.accounts := db.accounts[a := account.(status := Quarantined)];
        paused := true;
      } else {
        targets := targets[t := targets[t].(state := StateOf(result.reply), accountId := Some(a), sentAt := Some(now))];
        db.accounts := db.accounts[a := account.(actionsToday := account.actionsToday + 1, lastActionAt := Some(now))];
        last := Some(a);
        if result.reply.DidSend? && contact.stage.NewLead? {
          db.contacts := db.contacts[contactId := contact.(stage := Contacted, lastContactedAt := Some(now))];
        }
        match result.reply {
          case DidSend => sent := sent + 1;
          case DidJoin => joined := joined + 1;
          case DidFail => failed := failed + 1;
        }
        actions := actions + [(a, contactId)];
      }
      ti := ti + 1;
    }
    Pool.MadeUpTo(Effects(execute), Min(|order|, |valid|), ti);
  }

  method RunTick(db: Database, campaignId: int, now: Time, execute: Executor, minDelay: int) returns (summary: Summary)
    requires campaignId in db.campaigns
    modifies db`accounts, db`contacts, db`campaigns
    ensures var r := Tick(Scene(old(db.accounts), old(db.contacts), old(db.campaigns[campaignId]), now, execute,
                                minDelay));
      && db.accounts == r.accounts
      && db.contacts == r.contacts
      && db.campaigns == old(db.campaigns)[campaignId := r.campaign]
      && summary == r.summary
  {
    hide Fits, Skipping, Valid, QueuedSet, SkippedBy, TargetsAfter, Pool.Order, ContactsOf;
    var campaign := db.campaigns[campaignId];
    ghost var x := Scene(db.accounts, db.contacts, campaign, now, execute, minDelay);
    var order := Pool.Order(db.accounts, now, minDelay, campaign.lastAccountId);
    if !campaign.status.Running? || order == [] {
      assert db.campaigns == db.campaigns[campaignId := campaign];
      return NOTHING;
    }

    var skipping, valid, skipped := FilterQueue(db.contacts, campaign.targets, now, x);
    var targets, stored, last, sent, joined, failed, paused, actions :=
      AttemptAll(db, x, PlanOf(x), order, valid, campaign, skipping, now, execute);

    // What decides completion is the rows as stored.
    var status := if paused then Paused else if QueuedSet(stored) == {} then Done else Running;
    db.campaigns := db.campaigns[campaignId := campaign.(targets := targets, lastAccountId := last, status := status)];
    summary := Summary(sent, joined, failed, skipped, paused, actions);
  }
}
