/** The sender engine: one tick of a send job over the shared account pool. */
module Sender {
  import opened Core
  import opened Ordering
  import opened Models
  import Pacing
  import Pool
  import Spintax

  // ------------------------------------------------------- what execute may answer ---

  /** `ok`, a warning (flood, ban, engine down), or a plain failure such as no reachable identifier. */
  datatype Outcome = Delivered | Warned | Unreached

  /** `flushed`: the call wrote the session's pending changes to the store, as recording a sent message
      does. The session itself never flushes before a query. */
  datatype Execution = Execution(outcome: Outcome, flushed: bool)

  /** The answer to a tick's k-th attempt, and the random draws used to render its message. */
  type Executor = nat -> Execution
  type Draws = nat -> (nat -> nat)

  function RenderMessage(job: SendJob, contact: Contact, rng: nat -> nat): string {
    var body := Spintax.SpinFrom(job.template, rng, 0);
    if job.includeLink && job.linkUrl.Some? && job.linkUrl.value != ""
       && !(job.suppressLinkFirst && contact.lastContactedAt.None?)
    then body + "\n" + job.linkUrl.value
    else body
  }

  // ----------------------------------------------------------------- specification ---

  function QueuedSet(targets: map<int, SendTarget>): set<int> {
    set t | t in targets && targets[t].state.Queued?
  }

  function ReachableSet(targets: map<int, SendTarget>, contacts: Contacts): set<int> {
    set t | t in targets && Reachable(contacts, targets[t].contactId)
  }

  /** The queued targets of reachable contacts, by id. */
  function Valid(targets: map<int, SendTarget>, contacts: Contacts): (r: seq<int>)
    ensures forall t :: t in r <==> t in QueuedSet(targets) && t in ReachableSet(targets, contacts)
    ensures |r| <= |QueuedSet(targets)|
  {
    Filter(ById(QueuedSet(targets)), ReachableSet(targets, contacts))
  }

  /** Queued targets whose contact is gone, without consent or opted out become skipped. */
  function SkipSet(targets: map<int, SendTarget>, skip: set<int>): (r: map<int, SendTarget>)
    ensures r.Keys == targets.Keys
  {
    map t | t in targets :: if t in skip then targets[t].(state := Skipped) else targets[t]
  }

  function Skipping(targets: map<int, SendTarget>, contacts: Contacts): map<int, SendTarget> {
    SkipSet(targets, QueuedSet(targets) - ReachableSet(targets, contacts))
  }

  function Effects(execute: Executor): Pool.Effects {
    (k: nat) => match execute(k).outcome
                case Delivered => Pool.Charge
                case Warned => Pool.Quarantine
                case Unreached => Pool.Spare
  }

  /** What attempt `k` does to its target. */
  function Mark(execute: Executor, order: seq<int>, bodies: nat -> string, now: Time): (nat, SendTarget) -> SendTarget {
    (k: nat, t: SendTarget) =>
      if execute(k).outcome.Delivered? && k < |order| then
        SendTarget(t.contactId, Sent, Some(order[k]), Some(now), Some(bodies(k)))
      else
        t.(state := Failed)
  }

  function Touch(c: Contact, now: Time): Contact {
    c.(stage := if c.stage.NewLead? then Contacted else c.stage, lastContactedAt := Some(now))
  }

  /** What attempt `k` does to its contact. */
  function Greet(execute: Executor, now: Time): (nat, Contact) -> Contact {
    (k: nat, c: Contact) => if execute(k).outcome.Delivered? then Touch(c, now) else c
  }

  /** The contacts of a list of targets. */
  function ContactsOf(targets: map<int, SendTarget>, ids: seq<int>): (r: seq<int>)
    requires AllIn(ids, targets)
    ensures |r| == |ids| && forall i :: 0 <= i < |r| ==> r[i] == targets[ids[i]].contactId
  {
    seq(|ids|, i requires 0 <= i < |ids| => targets[ids[i]].contactId)
  }

  /** The text of attempt `k`, rendered for the contact as the earlier attempts left it. */
  function Body(job: SendJob, contacts: Contacts, cids: seq<int>, execute: Executor, draws: Draws, now: Time,
                k: nat): string {
    var current := Marked(contacts, cids, Greet(execute, now), k);
    if k < |cids| && cids[k] in current then RenderMessage(job, current[cids[k]], draws(k)) else ""
  }

  function Bodies(job: SendJob, contacts: Contacts, cids: seq<int>, execute: Executor, draws: Draws,
                  now: Time): nat -> string {
    (k: nat) => Body(job, contacts, cids, execute, draws, now, k)
  }

  /** The account of the last delivery among the first `k` attempts. */
  function LastUsed(execute: Executor, order: seq<int>, last: Option<int>, k: nat): Option<int> {
    if k == 0 then last
    else if execute(k - 1).outcome.Delivered? && k <= |order| then Some(order[k - 1])
    else LastUsed(execute, order, last, k - 1)
  }

  function Outcomes(execute: Executor): nat -> Outcome {
    (k: nat) => execute(k).outcome
  }

  /** Account and contact of every delivery. */
  function Deliveries(execute: Executor, order: seq<int>, cids: seq<int>, k: nat): seq<(int, int)> {
    if k == 0 then []
    else
      var before := Deliveries(execute, order, cids, k - 1);
      if execute(k - 1).outcome.Delivered? && k <= |order| && k <= |cids|
      then before + [(order[k - 1], cids[k - 1])] else before
  }

  datatype Summary = Summary(sent: nat, skipped: nat, failed: nat, paused: bool, actions: seq<(int, int)>)

  const NOTHING := Summary(0, 0, 0, false, [])

  datatype TickResult = TickResult(accounts: Accounts, contacts: Contacts, job: SendJob, summary: Summary)

  /** The accounts a tick may use, in order; none outside the job's hours. */
  function TickOrder(accounts: Accounts, job: SendJob, now: Time, minDelay: int): seq<int> {
    if Pacing.InWindow(now, job.activeStart, job.activeEnd)
    then Pool.Order(accounts, now, minDelay, job.lastAccountId)
    else []
  }

  /** Everything one tick is given. */
  datatype Scene = Scene(
    accounts: Accounts, contacts: Contacts, job: SendJob,
    now: Time, execute: Executor, draws: Draws, minDelay: int)

  predicate Works(x: Scene) {
    x.job.status.Running? && TickOrder(x.accounts, x.job, x.now, x.minDelay) != []
  }

  /** What a tick is going to do: the accounts in order, the targets in order and their contacts, and
      how many times it calls `execute`. */
  datatype Plan = Plan(order: seq<int>, valid: seq<int>, cids: seq<int>, attempts: nat)

  ghost predicate Fits(p: Plan, x: Scene) {
    && Distinct(p.order) && AllIn(p.order, x.accounts)
    && Distinct(p.valid) && AllIn(p.valid, x.job.targets)
    && |p.cids| == |p.valid| && AllIn(p.cids, x.contacts)
    && p.attempts <= |p.order| && p.attempts <= |p.valid|
    && forall k :: 0 <= k < |p.valid| ==>
         var t := x.job.targets[p.valid[k]];
         p.cids[k] == t.contactId && t.state.Queued? && Reachable(x.contacts, t.contactId)
  }

  lemma ValidInOrder(targets: map<int, SendTarget>, contacts: Contacts)
    ensures var valid := Valid(targets, contacts);
      && Distinct(valid) && AllIn(valid, targets)
      && forall i :: 0 <= i < |valid| ==>
           targets[valid[i]].state.Queued? && Reachable(contacts, targets[valid[i]].contactId)
  {
    var queue := ById(QueuedSet(targets));
    var key := Self(QueuedSet(targets));
    OrderByOrders(QueuedSet(targets), key);
    FilterOrdered(queue, ReachableSet(targets, contacts), key);
    var valid := Valid(targets, contacts);
    OrderedIsDistinct(valid, key);
    hide Valid, Distinct, Filter, OrderBy;
    assert forall i :: 0 <= i < |valid| ==>
             valid[i] in QueuedSet(targets) && valid[i] in ReachableSet(targets, contacts);
  }

  function PlanOf(x: Scene): (p: Plan)
    ensures Fits(p, x)
  {
    ValidInOrder(x.job.targets, x.contacts);
    Pool.OrderIsUsable(x.accounts, x.now, x.minDelay, x.job.lastAccountId);
    var order := TickOrder(x.accounts, x.job, x.now, x.minDelay);
    var valid := Valid(x.job.targets, x.contacts);
    Plan(order, valid, ContactsOf(x.job.targets, valid), Pool.Made(Effects(x.execute), Min(|order|, |valid|)))
  }

  /** The targets after the first `k` attempts of a plan. */
  function TargetsAfter(x: Scene, p: Plan, k: nat): (r: map<int, SendTarget>)
    ensures r.Keys == x.job.targets.Keys
  {
    Marked(Skipping(x.job.targets, x.contacts), p.valid,
           Mark(x.execute, p.order, Bodies(x.job, x.contacts, p.cids, x.execute, x.draws, x.now), x.now), k)
  }

  /** The stored targets after the first `k` attempts: as of the last flush, which came before that
      attempt's own change to its target. */
  function StoredAfter(x: Scene, p: Plan, k: nat): map<int, SendTarget> {
    if k == 0 then x.job.targets
    else if x.execute(k - 1).flushed then TargetsAfter(x, p, k - 1)
    else StoredAfter(x, p, k - 1)
  }

  function AccountsAfter(x: Scene, p: Plan, k: nat): Accounts {
    Pool.After(x.accounts, p.order, Effects(x.execute), x.now, k)
  }

  function ContactsAfter(x: Scene, p: Plan, k: nat): Contacts {
    Marked(x.contacts, p.cids, Greet(x.execute, x.now), k)
  }

  /** How a tick ends: paused by a warning, done when no stored row is queued, else still running. */
  function StatusAfter(x: Scene, p: Plan): JobStatus {
    if Pool.Stopped(Effects(x.execute), p.attempts) then Paused
    else if QueuedSet(StoredAfter(x, p, p.attempts)) == {} then Done
    else Running
  }

  function SummaryOf(x: Scene, p: Plan): Summary {
    var m := p.attempts;
    Summary(
      Pool.Tally(Outcomes(x.execute), Delivered, m),
      |QueuedSet(x.job.targets) - ReachableSet(x.job.targets, x.contacts)|,
      Pool.Tally(Outcomes(x.execute), Warned, m) + Pool.Tally(Outcomes(x.execute), Unreached, m),
      Pool.Stopped(Effects(x.execute), m),
      Deliveries(x.execute, p.order, p.cids, m))
  }

  function JobAfter(x: Scene, p: Plan): SendJob {
    x.job.(targets := TargetsAfter(x, p, p.attempts),
           lastAccountId := LastUsed(x.execute, p.order, x.job.lastAccountId, p.attempts),
           status := StatusAfter(x, p))
  }

  /** One tick of a job. */
  function Tick(x: Scene): TickResult {
    if !Works(x) then TickResult(x.accounts, x.contacts, x.job, NOTHING)
    else
      var p := PlanOf(x);
      TickResult(AccountsAfter(x, p, p.attempts), ContactsAfter(x, p, p.attempts), JobAfter(x, p), SummaryOf(x, p))
  }

  // ------------------------------------------------------------------- the code ---

  lemma SkipOneMore(before: map<int, SendTarget>, gone: set<int>, t: int)
    requires t in before && t !in gone
    ensures var r := SkipSet(before, gone);
      r[t] == before[t] && SkipSet(before, gone + {t}) == r[t := r[t].(state := Skipped)]
  {
  }

  /** The ids among the first `i` of a queue that are not to be kept. */
  ghost function Dropped(queue: seq<int>, keep: set<int>, i: nat): set<int>
    requires i <= |queue|
  {
    set t | t in queue[..i] && t !in keep
  }

  lemma DroppedStep(queue: seq<int>, keep: set<int>, i: nat)
    requires i < |queue| && Distinct(queue)
    ensures Dropped(queue, keep, i + 1)
         == if queue[i] in keep then Dropped(queue, keep, i) else Dropped(queue, keep, i) + {queue[i]}
    ensures queue[i] !in Dropped(queue, keep, i)
  {
    assert queue[..i + 1] == queue[..i] + [queue[i]];
    DistinctAt(queue, i);
  }

  lemma DroppedAll(targets: map<int, SendTarget>, keep: set<int>)
    ensures var queue := ById(QueuedSet(targets)); Dropped(queue, keep, |queue|) == QueuedSet(targets) - keep
  {
    var queue := ById(QueuedSet(targets));
    assert queue[..|queue|] == queue;
  }

  lemma DroppedNone(before: map<int, SendTarget>, queue: seq<int>, keep: set<int>)
    ensures Dropped(queue, keep, 0) == {} && SkipSet(before, Dropped(queue, keep, 0)) == before
  {
  }

  /** Whether a queued target is kept depends on its contact alone. */
  lemma QueueMember(before: map<int, SendTarget>, contacts: Contacts, i: nat)
    requires i < |ById(QueuedSet(before))|
    ensures var t := ById(QueuedSet(before))[i];
      t in before && (t in ReachableSet(before, contacts) <==> Reachable(contacts, before[t].contactId))
  {
    assert ById(QueuedSet(before))[i] in QueuedSet(before);
  }

  /** Splits the queue: reachable targets in order, the others marked skipped. */
  method FilterQueue(contacts: Contacts, before: map<int, SendTarget>)
    returns (targets: map<int, SendTarget>, valid: seq<int>, skipped: nat)
    ensures targets == Skipping(before, contacts)
    ensures valid == Valid(before, contacts)
    ensures skipped == |QueuedSet(before) - ReachableSet(before, contacts)|
  {
    hide ById, QueuedSet, ReachableSet, SkipSet, Dropped, Reachable, Filter, Distinct;
    var queue := ById(QueuedSet(before));
    ghost var reach := ReachableSet(before, contacts);
    ByIdDistinct(QueuedSet(before));
    targets, valid, skipped := before, [], 0;
    DroppedNone(before, queue, reach);
    FilterNone(queue, reach);
    for i := 0 to |queue|
      invariant valid == Filter(queue[..i], reach)
      invariant targets == SkipSet(before, Dropped(queue, reach, i))
      invariant skipped == |Dropped(queue, reach, i)|
    {
      var t := queue[i];
      QueueMember(before, contacts, i);
      FilterStep(queue, reach, i);
      DroppedStep(queue, reach, i);
      if Reachable(contacts, before[t].contactId) {
        valid := valid + [t];
      } else {
        SkipOneMore(before, Dropped(queue, reach, i), t);
        targets := targets[t := targets[t].(state := Skipped)];
        skipped := skipped + 1;
      }
    }
    DroppedAll(before, reach);
    assert queue[..|queue|] == queue;
  }

  lemma AccountsAdvance(x: Scene, p: Plan, k: nat)
    requires Fits(p, x) && k < |p.order|
    ensures var accounts, a := AccountsAfter(x, p, k), p.order[k];
      AccountsAfter(x, p, k + 1) ==
      match x.execute(k).outcome
      case Delivered =>
        accounts[a := accounts[a].(actionsToday := accounts[a].actionsToday + 1, lastActionAt := Some(x.now))]
      case Warned => accounts[a := accounts[a].(status := Quarantined)]
      case Unreached => accounts
  {
    var accounts, a := AccountsAfter(x, p, k), p.order[k];
    assert AccountsAfter(x, p, k + 1) == accounts[a := Pool.Apply(accounts[a], Effects(x.execute)(k), x.now)];
    if x.execute(k).outcome.Unreached? {
      assert accounts == accounts[a := accounts[a]];
    }
  }

  lemma ContactsAdvance(x: Scene, p: Plan, k: nat)
    requires Fits(p, x) && k < |p.cids|
    ensures var contacts, c := ContactsAfter(x, p, k), p.cids[k];
      ContactsAfter(x, p, k + 1)
      == if x.execute(k).outcome.Delivered? then contacts[c := Touch(contacts[c], x.now)] else contacts
  {
    var contacts, c := ContactsAfter(x, p, k), p.cids[k];
    assert contacts == contacts[c := contacts[c]];
  }

  lemma TargetsAdvance(x: Scene, p: Plan, k: nat)
    requires Fits(p, x) && k < |p.order| && k < |p.valid|
    ensures var targets, t, c := TargetsAfter(x, p, k), p.valid[k], p.cids[k];
      && targets[t] == x.job.targets[t]
      && TargetsAfter(x, p, k + 1)
         == targets[t := if x.execute(k).outcome.Delivered?
                         then SendTarget(c, Sent, Some(p.order[k]), Some(x.now),
                                         Some(RenderMessage(x.job, ContactsAfter(x, p, k)[c], x.draws(k))))
                         else targets[t].(state := Failed)]
  {
    UnmarkedYet(x, p, k);
  }

  /** Until its own attempt a target of the plan is as the tick found it. */
  lemma UnmarkedYet(x: Scene, p: Plan, k: nat)
    requires Fits(p, x) && k < |p.valid|
    ensures TargetsAfter(x, p, k)[p.valid[k]] == x.job.targets[p.valid[k]]
  {
    BeforeItsTurn(Skipping(x.job.targets, x.contacts), p.valid,
             Mark(x.execute, p.order, Bodies(x.job, x.contacts, p.cids, x.execute, x.draws, x.now), x.now), k);
  }

  /** What the loop over the accounts leaves behind after `k` attempts. */
  ghost predicate Reached(x: Scene, p: Plan, k: nat, accounts: Accounts, contacts: Contacts,
                          targets: map<int, SendTarget>, stored: map<int, SendTarget>)
  {
    && accounts == AccountsAfter(x, p, k)
    && contacts == ContactsAfter(x, p, k)
    && targets == TargetsAfter(x, p, k)
    && stored == StoredAfter(x, p, k)
  }

  lemma StartReached(x: Scene, p: Plan)
    ensures Reached(x, p, 0, x.accounts, x.contacts, Skipping(x.job.targets, x.contacts), x.job.targets)
  {
  }

  /** One attempt, in the terms of the code. */
  lemma AttemptReaches(x: Scene, p: Plan, k: nat, accounts: Accounts, contacts: Contacts,
                       targets: map<int, SendTarget>, stored: map<int, SendTarget>)
    requires Fits(p, x) && k < |p.order| && k < |p.valid|
    requires Reached(x, p, k, accounts, contacts, targets, stored)
    ensures var a, t, c, result := p.order[k], p.valid[k], p.cids[k], x.execute(k);
      && a in accounts && t in targets && c in contacts && targets[t].contactId == c
      && var stored' := if result.flushed then targets else stored;
         match result.outcome
         case Delivered =>
           var body := RenderMessage(x.job, contacts[c], x.draws(k));
           Reached(x, p, k + 1,
                   accounts[a := accounts[a].(actionsToday := accounts[a].actionsToday + 1,
                                              lastActionAt := Some(x.now))],
                   contacts[c := Touch(contacts[c], x.now)],
                   targets[t := SendTarget(c, Sent, Some(a), Some(x.now), Some(body))],
                   stored')
         case Warned =>
           Reached(x, p, k + 1, accounts[a := accounts[a].(status := Quarantined)], contacts,
                   targets[t := targets[t].(state := Failed)], stored')
         case Unreached =>
           Reached(x, p, k + 1, accounts, contacts, targets[t := targets[t].(state := Failed)], stored')
  {
    AccountsAdvance(x, p, k);
    ContactsAdvance(x, p, k);
    TargetsAdvance(x, p, k);
  }

  /** The loop over the accounts: pairs accounts and targets in order and stops after a warning. */
  method AttemptAll(db: Database, ghost x: Scene, ghost p: Plan, order: seq<int>, valid: seq<int>,
                    job: SendJob, skipping: map<int, SendTarget>, now: Time, execute: Executor, draws: Draws)
    returns (targets: map<int, SendTarget>, stored: map<int, SendTarget>, last: Option<int>,
             sent: nat, failed: nat, paused: bool, actions: seq<(int, int)>)
    requires Fits(p, x) && order == p.order && valid == p.valid && job == x.job
    requires now == x.now && execute == x.execute && draws == x.draws
    requires db.accounts == x.accounts && db.contacts == x.contacts
    requires skipping == Skipping(x.job.targets, x.contacts)
    requires p.attempts == Pool.Made(Effects(execute), Min(|order|, |valid|))
    modifies db`accounts, db`contacts
    ensures Reached(x, p, p.attempts, db.accounts, db.contacts, targets, stored)
    ensures last == LastUsed(execute, order, job.lastAccountId, p.attempts)
    ensures sent == Pool.Tally(Outcomes(execute), Delivered, p.attempts)
    ensures failed
        == Pool.Tally(Outcomes(execute), Warned, p.attempts) + Pool.Tally(Outcomes(execute), Unreached, p.attempts)
    ensures paused == Pool.Stopped(Effects(execute), p.attempts)
    ensures actions == Deliveries(execute, order, p.cids, p.attempts)
  {
    hide Fits, Reached, RenderMessage, Skipping, Touch, Pool.Made, StoredAfter, TargetsAfter;
    var ti := 0;
    targets, stored, last := skipping, job.targets, job.lastAccountId;
    sent, failed, paused, actions := 0, 0, false, [];
    StartReached(x, p);
    PlanSizes(x, p);
    while ti < |order| && ti < |valid| && !paused
      invariant ti <= |order| && ti <= |valid|
      invariant Reached(x, p, ti, db.accounts, db.contacts, targets, stored)
      invariant last == LastUsed(execute, order, job.lastAccountId, ti)
      invariant sent == Pool.Tally(Outcomes(execute), Delivered, ti)
      invariant failed == Pool.Tally(Outcomes(execute), Warned, ti) + Pool.Tally(Outcomes(execute), Unreached, ti)
      invariant actions == Deliveries(execute, order, p.cids, ti)
      invariant forall k :: 0 <= k < ti - 1 ==> !Effects(execute)(k).Quarantine?
      invariant paused == Pool.Stopped(Effects(execute), ti)
      decreases |order| - ti
    {
      AttemptReaches(x, p, ti, db.accounts, db.contacts, targets, stored);
      var a, t := order[ti], valid[ti];
      var account, contactId := db.accounts[a], targets[t].contactId;
      var contact := db.contacts[contactId];
      var body := RenderMessage(job, contact, draws(ti));
      var result := execute(ti);
      if result.flushed {
        stored := targets;
      }
      match result.outcome {
        case Delivered =>
          targets := targets[t := SendTarget(contactId, Sent, Some(a), Some(now), Some(body))];
          db.accounts := db.accounts[a := account.(actionsToday := account.actionsToday + 1,
                                                   lastActionAt := Some(now))];
          last := Some(a);
          db.contacts := db.contacts[contactId := Touch(contact, now)];
          sent := sent + 1;
          actions := actions + [(a, contactId)];
        case Warned =>
          db.accounts := db.accounts[a := account.(status := Quarantined)];
          targets := targets[t := targets[t].(state := Failed)];
          failed := failed + 1;
          paused := true;
        case Unreached =>
          targets := targets[t := targets[t].(state := Failed)];
          failed := failed + 1;
      }
      ti := ti + 1;
    }
    Pool.MadeUpTo(Effects(execute), Min(|order|, |valid|), ti);
  }

  lemma PlanSizes(x: Scene, p: Plan)
    requires Fits(p, x)
    ensures |p.cids| == |p.valid|
  {
  }

  method RunTick(db: Database, jobId: int, now: Time, execute: Executor, draws: Draws, minDelay: int)
    returns (summary: Summary)
    requires jobId in db.jobs
    modifies db`accounts, db`contacts, db`jobs
    ensures var r := Tick(Scene(old(db.accounts), old(db.contacts), old(db.jobs[jobId]), now, execute, draws,
                                minDelay));
      && db.accounts == r.accounts
      && db.contacts == r.contacts
      && db.jobs == old(db.jobs)[jobId := r.job]
      && summary == r.summary
  {
    hide Fits, Skipping, Valid, QueuedSet, ReachableSet, TargetsAfter, Pool.Order, ContactsOf;
    var job := db.jobs[jobId];
    ghost var x := Scene(db.accounts, db.contacts, job, now, execute, draws, minDelay);
    var order := TickOrder(db.accounts, job, now, minDelay);
    if !job.status.Running? || order == [] {
      assert db.jobs == db.jobs[jobId := job];
      return NOTHING;
    }

    var skipping, valid, skipped := FilterQueue(db.contacts, job.targets);
    var targets, stored, last, sent, failed, paused, actions :=
      AttemptAll(db, x, PlanOf(x), order, valid, job, skipping, now, execute, draws);

    // What decides completion is the rows as stored.
    var status := if paused then Paused else if QueuedSet(stored) == {} then Done else Running;
    db.jobs := db.jobs[jobId := job.(targets := targets, lastAccountId := last, status := status)];
    summary := Summary(sent, skipped, failed, paused, actions);
  }
}
