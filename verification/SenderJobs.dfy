/** Send jobs under the operator's hands: adding targets, starting, pausing and stopping. */
module SenderJobs {
  import opened Core
  import opened Ordering
  import opened Models
  import opened Text

  /** The contacts a request selects: consented, not opted out, and within the filters that are given. */
  function Selected(contacts: Contacts, ids: seq<int>, source: Option<string>): set<int> {
    set c | c in contacts && Reachable(contacts, c) && (ids != [] ==> c in ids)
            && (Given(source) ==> contacts[c].source == source)
  }

  function TargetedContacts(targets: map<int, SendTarget>): set<int> {
    set t | t in targets :: targets[t].contactId
  }

  function NewTarget(contactId: int): SendTarget {
    SendTarget(contactId, Queued, None, None, None)
  }

  /** Targets of `contacts` under consecutive ids. */
  function Appended(targets: map<int, SendTarget>, next: int, contacts: seq<int>): map<int, SendTarget> {
    if contacts == [] then targets
    else
      var last := |contacts| - 1;
      Appended(targets, next, contacts[..last])[next + last := NewTarget(contacts[last])]
  }

  /** The selected contacts that are not targets yet, in order. */
  function Newcomers(job: SendJob, contacts: Contacts, ids: seq<int>, source: Option<string>): seq<int> {
    var selected := Selected(contacts, ids, source);
    Filter(ById(selected), selected - TargetedContacts(job.targets))
  }

  lemma AppendOneMore(targets: map<int, SendTarget>, next: int, contacts: seq<int>, c: int)
    ensures Appended(targets, next, contacts + [c])
        == Appended(targets, next, contacts)[next + |contacts| := NewTarget(c)]
    ensures Appended(targets, next, []) == targets
  {
    assert (contacts + [c])[..|contacts|] == contacts;
  }

  /** Makes targets of the contacts that are not among `existing`. */
  method AppendNew(targets: map<int, SendTarget>, next: int, contacts: seq<int>, existing: set<int>,
                   ghost keep: set<int>)
    returns (later: map<int, SendTarget>, added: nat)
    requires forall i :: 0 <= i < |contacts| ==> (contacts[i] in keep <==> contacts[i] !in existing)
    ensures later == Appended(targets, next, Filter(contacts, keep)) && added == |Filter(contacts, keep)|
  {
    hide Appended, Filter, NewTarget;
    ghost var newcomers := Filter(contacts[..0], keep);
    later, added := targets, 0;
    AppendOneMore(targets, next, [], 0);
    assert newcomers == [] by { assert contacts[..0] == []; }
    for i := 0 to |contacts|
      invariant newcomers == Filter(contacts[..i], keep)
      invariant added == |newcomers| && later == Appended(targets, next, newcomers)
    {
      FilterStep(contacts, keep, i);
      if contacts[i] in existing {
        continue;
      }
      AppendOneMore(targets, next, newcomers, contacts[i]);
      newcomers := newcomers + [contacts[i]];
      later := later[next + added := NewTarget(contacts[i])];
      added := added + 1;
    }
    assert contacts[..|contacts|] == contacts;
  }

  method AddTargets(db: Database, jobId: int, ids: seq<int>, source: Option<string>) returns (added: nat)
    requires jobId in db.jobs
    modifies db`jobs, db`nextSendTarget
    ensures var job := old(db.jobs[jobId]); var newcomers := Newcomers(job, db.contacts, ids, source);
      && added == |newcomers|
      && db.nextSendTarget == old(db.nextSendTarget) + |newcomers|
      && db.jobs == old(db.jobs)[jobId := job.(targets := Appended(job.targets, old(db.nextSendTarget), newcomers))]
  {
    hide Selected, TargetedContacts, Appended, Filter;
    var job := db.jobs[jobId];
    var contacts := ById(Selected(db.contacts, ids, source));
    var existing := TargetedContacts(job.targets);
    forall i | 0 <= i < |contacts| ensures contacts[i] in Selected(db.contacts, ids, source) {
      assert contacts[i] in contacts;
    }
    hide ById;
    var targets;
    targets, added := AppendNew(job.targets, db.nextSendTarget, contacts, existing,
                                Selected(db.contacts, ids, source) - existing);
    db.jobs := db.jobs[jobId := job.(targets := targets)];
    db.nextSendTarget := db.nextSendTarget + added;
  }

  method StartJob(db: Database, jobId: int, now: Time)
    requires jobId in db.jobs
    modifies db`jobs
    ensures var job := old(db.jobs[jobId]);
      db.jobs == old(db.jobs)[jobId := job.(status := Running,
                                            startedAt := if job.startedAt.None? then Some(now) else job.startedAt)]
  {
    var job := db.jobs[jobId].(status := Running);
    if job.startedAt.None? {
      job := job.(startedAt := Some(now));
    }
    db.jobs := db.jobs[jobId := job];
  }

  method PauseJob(db: Database, jobId: int)
    requires jobId in db.jobs
    modifies db`jobs
    ensures db.jobs == old(db.jobs)[jobId := old(db.jobs[jobId]).(status := Paused)]
  {
    db.jobs := db.jobs[jobId := db.jobs[jobId].(status := Paused)];
  }

  method StopJob(db: Database, jobId: int)
    requires jobId in db.jobs
    modifies db`jobs
    ensures db.jobs == old(db.jobs)[jobId := old(db.jobs[jobId]).(status := Done)]
  {
    db.jobs := db.jobs[jobId := db.jobs[jobId].(status := Done)];
  }

  // --------------------------------------------------------------------------- laws ---

  lemma {:induction false} AppendedAt(targets: map<int, SendTarget>, next: int, contacts: seq<int>, t: int)
    requires forall x :: x in targets ==> x < next
    ensures t in Appended(targets, next, contacts) <==> t in targets || next <= t < next + |contacts|
    ensures t in targets ==> Appended(targets, next, contacts)[t] == targets[t]
    ensures next <= t < next + |contacts| ==> Appended(targets, next, contacts)[t] == NewTarget(contacts[t - next])
  {
    if contacts == [] {
    } else {
      AppendedAt(targets, next, contacts[..|contacts| - 1], t);
    }
  }

  lemma {:induction false} FilterDistinct(ids: seq<int>, keep: set<int>)
    requires Distinct(ids)
    ensures Distinct(Filter(ids, keep))
  {
    if ids == [] {
    } else {
      var front := ids[..|ids| - 1];
      FilterDistinct(front, keep);
      var r := Filter(front, keep);
      assert (r + [ids[|ids| - 1]])[..|r|] == r;
    }
  }

  /** A contact is a target of a job at most once. */
  ghost predicate OneEach(targets: map<int, SendTarget>) {
    forall t, u :: t in targets && u in targets && targets[t].contactId == targets[u].contactId ==> t == u
  }

  /** What the newcomers are: the selected contacts without a target, each once. */
  lemma NewcomersAre(job: SendJob, contacts: Contacts, ids: seq<int>, source: Option<string>)
    ensures var added := Newcomers(job, contacts, ids, source);
      Distinct(added)
      && forall c :: c in added <==> c in Selected(contacts, ids, source) && c !in TargetedContacts(job.targets)
  {
    hide Selected, TargetedContacts;
    var selected := Selected(contacts, ids, source);
    ByIdDistinct(selected);
    FilterDistinct(ById(selected), selected - TargetedContacts(job.targets));
    hide ById;
  }

  /** Adding targets keeps the old ones as they are, and new ones are queued for selected contacts. */
  lemma AddingKeepsTargets(job: SendJob, next: int, contacts: Contacts, ids: seq<int>, source: Option<string>, t: int)
    requires forall x :: x in job.targets ==> x < next
    ensures var later := Appended(job.targets, next, Newcomers(job, contacts, ids, source));
      && (t in job.targets ==> t in later && later[t] == job.targets[t])
      && (t in later && t !in job.targets ==>
          later[t].state.Queued? && later[t].contactId in Selected(contacts, ids, source))
  {
    hide Selected, Newcomers, TargetedContacts;
    NewcomersAre(job, contacts, ids, source);
    AppendedAt(job.targets, next, Newcomers(job, contacts, ids, source), t);
  }

  /** After adding, every selected contact is a target, and nobody is one twice. */
  lemma AddingCoversAll(job: SendJob, next: int, contacts: Contacts, ids: seq<int>, source: Option<string>)
    requires OneEach(job.targets) && forall x :: x in job.targets ==> x < next
    ensures var later := Appended(job.targets, next, Newcomers(job, contacts, ids, source));
      OneEach(later) && Selected(contacts, ids, source) <= TargetedContacts(later)
  {
    hide Selected, Newcomers;
    var added := Newcomers(job, contacts, ids, source);
    var later := Appended(job.targets, next, added);
    NewcomersAre(job, contacts, ids, source);
    forall t, u | t in later && u in later && later[t].contactId == later[u].contactId ensures t == u {
      OneEachAfter(job.targets, next, added, t, u);
    }
    forall c | c in Selected(contacts, ids, source) ensures c in TargetedContacts(later) {
      TargetOf(job.targets, next, added, c);
    }
  }

  /** The contacts a request takes: known, consenting, not opted out, among the ids if any are given, and of the source
      if one is given. */
  ghost predicate Takes(contacts: Contacts, ids: seq<int>, source: Option<string>, c: int) {
    && c in contacts && contacts[c].consent && !contacts[c].optedOut
    && (ids == [] || c in ids)
    && (source.None? || source == Some("") || contacts[c].source == source)
  }

  ghost predicate IsTarget(targets: map<int, SendTarget>, c: int) {
    exists t :: t in targets && targets[t].contactId == c
  }

  /** Adding, exactly: a contact is a target afterwards if and only if it was one or the request takes it; new targets
      are queued, for nobody's account, under the next ids. */
  lemma AddingIs(job: SendJob, next: int, contacts: Contacts, ids: seq<int>, source: Option<string>, c: int)
    requires forall x :: x in job.targets ==> x < next
    ensures var added := Newcomers(job, contacts, ids, source);
      var later := Appended(job.targets, next, added);
      && (IsTarget(later, c) <==> IsTarget(job.targets, c) || Takes(contacts, ids, source, c))
      && (forall t :: t in later <==> t in job.targets || next <= t < next + |added|)
      && (forall t :: t in job.targets ==> later[t] == job.targets[t])
      && (forall t :: t in later && t !in job.targets ==>
            later[t] == SendTarget(later[t].contactId, Queued, None, None, None))
  {
    hide Newcomers, Appended, Selected;
    var added := Newcomers(job, contacts, ids, source);
    var later := Appended(job.targets, next, added);
    NewcomersAre(job, contacts, ids, source);
    forall t ensures t in later <==> t in job.targets || next <= t < next + |added|
      ensures t in job.targets ==> later[t] == job.targets[t]
      ensures next <= t < next + |added| ==> later[t] == NewTarget(added[t - next])
    {
      AppendedAt(job.targets, next, added, t);
    }
    SelectedIs(contacts, ids, source, c);
    assert IsTarget(job.targets, c) <==> c in TargetedContacts(job.targets);
    if c in added || IsTarget(job.targets, c) {
      TargetOf(job.targets, next, added, c);
      assert c in TargetedContacts(later);
    }
    if IsTarget(later, c) {
      var t :| t in later && later[t].contactId == c;
      assert t !in job.targets ==> added[t - next] == c;
    }
  }

  lemma SelectedIs(contacts: Contacts, ids: seq<int>, source: Option<string>, c: int)
    ensures c in Selected(contacts, ids, source) <==> Takes(contacts, ids, source, c)
  {
  }

  lemma TargetOf(targets: map<int, SendTarget>, next: int, added: seq<int>, c: int)
    requires (forall x :: x in targets ==> x < next) && (c in added || c in TargetedContacts(targets))
    ensures c in TargetedContacts(Appended(targets, next, added))
  {
    var later := Appended(targets, next, added);
    if c in added {
      var i :| 0 <= i < |added| && added[i] == c;
      AppendedAt(targets, next, added, next + i);
      assert later[next + i].contactId == c;
    } else {
      var t :| t in targets && targets[t].contactId == c;
      AppendedAt(targets, next, added, t);
      assert later[t].contactId == c;
    }
  }

  lemma OneEachAfter(targets: map<int, SendTarget>, next: int, added: seq<int>, t: int, u: int)
    requires OneEach(targets) && (forall x :: x in targets ==> x < next)
    requires Distinct(added) && forall c :: c in added ==> c !in TargetedContacts(targets)
    requires var later := Appended(targets, next, added);
      t in later && u in later && later[t].contactId == later[u].contactId
    ensures t == u
  {
    AppendedAt(targets, next, added, t);
    AppendedAt(targets, next, added, u);
    assert t in targets ==> targets[t].contactId in TargetedContacts(targets);
    assert u in targets ==> targets[u].contactId in TargetedContacts(targets);
    if t !in targets && u !in targets {
      OnePlace(added, t - next, u - next);
    }
  }
}
