/** Destinations: building the list of members to add, and one add tick over the shared account pool. */
module Destinations {
  import opened Core
  import opened Ordering
  import opened Models
  import opened ContactBook
  import Pool

  // --------------------------------------------------------------- building the list ---

  /** The contacts of the typed identifiers so far; a lookup with several matches raises. */
  datatype Gathering = Gathered(rows: Contacts, next: int, found: seq<int>) | Raised

  function Gather(rows: Contacts, next: int, identifiers: seq<string>): Gathering {
    if identifiers == [] then Gathered(rows, next, [])
    else
      match Gather(rows, next, identifiers[..|identifiers| - 1])
      case Raised => Raised
      case Gathered(r, n, found) =>
        match FindOrCreate(r, n, identifiers[|identifiers| - 1])
        case Stored(r', n', id) => Gathered(r', n', found + [id])
        case Ambiguous => Raised
        case _ => Gathered(r, n, found)
  }

  lemma GatherStep(rows: Contacts, next: int, identifiers: seq<string>, i: nat)
    requires i < |identifiers|
    ensures var g := Gather(rows, next, identifiers[..i]);
      Gather(rows, next, identifiers[..i + 1]) ==
      if g.Raised? then Raised
      else match FindOrCreate(g.rows, g.next, identifiers[i])
           case Stored(r, n, id) => Gathered(r, n, g.found + [id])
           case Ambiguous => Raised
           case _ => g
  {
    assert identifiers[..i + 1][..i] == identifiers[..i];
  }

  lemma {:induction false} RaisedStays(rows: Contacts, next: int, identifiers: seq<string>, i: nat)
    requires i <= |identifiers| && Gather(rows, next, identifiers[..i]).Raised?
    ensures Gather(rows, next, identifiers).Raised?
    decreases |identifiers| - i
  {
    if i < |identifiers| {
      GatherStep(rows, next, identifiers, i);
      RaisedStays(rows, next, identifiers, i + 1);
    } else {
      assert identifiers[..i] == identifiers;
    }
  }

  /** The asked-for contacts that gave consent and did not opt out. */
  function Consenting(contacts: Contacts, ids: seq<int>): set<int> {
    set c | c in ids && Reachable(contacts, c)
  }

  function Members(memberships: map<int, Membership>): set<int> {
    set m | m in memberships :: memberships[m].contactId
  }

  /** The first `k` contacts, without those already listed and without repetitions. */
  function Newly(existing: set<int>, contacts: seq<int>, k: nat): (r: seq<int>)
    requires k <= |contacts|
    ensures |r| <= k
  {
    if k == 0 then []
    else
      var before, c := Newly(existing, contacts, k - 1), contacts[k - 1];
      if c in existing || c in before then before else before + [c]
  }

  /** Pending memberships of `queued` under consecutive ids. */
  function Listed(memberships: map<int, Membership>, next: int, queued: seq<int>): map<int, Membership> {
    if queued == [] then memberships
    else
      var last := |queued| - 1;
      Listed(memberships, next, queued[..last])[next + last := Membership(queued[last], Pending, None)]
  }

  datatype Listing = Listing(queued: nat, skipped: nat, raised: bool)

  method AddMembers(db: Database, destinationId: int, ids: seq<int>, identifiers: seq<string>) returns (r: Listing)
    requires destinationId in db.destinations
    modifies db`contacts, db`nextContact, db`destinations, db`nextMembership
    ensures var d := old(db.destinations[destinationId]);
      var g := Gather(old(db.contacts), old(db.nextContact), identifiers);
      match g
      case Raised =>
        r == Listing(0, 0, true) && db.contacts == old(db.contacts) && db.nextContact == old(db.nextContact)
        && db.destinations == old(db.destinations) && db.nextMembership == old(db.nextMembership)
      case Gathered(rows, next, found) =>
        var contacts := ById(Consenting(old(db.contacts), ids)) + found;
        var queued := Newly(Members(d.memberships), contacts, |contacts|);
        && r == Listing(|queued|, |contacts| - |queued|, false)
        && db.contacts == rows && db.nextContact == next
        && db.destinations == old(db.destinations)[destinationId :=
             d.(memberships := Listed(d.memberships, old(db.nextMembership), queued))]
        && db.nextMembership == old(db.nextMembership) + |queued|
  {
    hide ById, Consenting, FindOrCreate, Members;
    var destination := db.destinations[destinationId];
    var contacts := ById(Consenting(db.contacts, ids));
    ghost var asked := contacts;
    var rows, next := db.contacts, db.nextContact;
    ghost var found := [];
    for i := 0 to |identifiers|
      invariant db.contacts == old(db.contacts) && db.nextContact == old(db.nextContact)
      invariant db.destinations == old(db.destinations) && db.nextMembership == old(db.nextMembership)
      invariant Gather(db.contacts, db.nextContact, identifiers[..i]) == Gathered(rows, next, found)
      invariant contacts == asked + found
    {
      GatherStep(db.contacts, db.nextContact, identifiers, i);
      match FindOrCreate(rows, next, identifiers[i]) {
        case Stored(rows', next', id) =>
          rows, next := rows', next';
          found := found + [id];
          contacts := contacts + [id];
        case Ambiguous =>
          RaisedStays(db.contacts, db.nextContact, identifiers, i + 1);
          return Listing(0, 0, true);
        case _ =>
      }
    }
    assert identifiers[..|identifiers|] == identifiers;

    var existing := Members(destination.memberships);
    var memberships, seen, queued, skipped := destination.memberships, {}, 0, 0;
    ghost var newly := [];
    for k := 0 to |contacts|
      invariant db.contacts == old(db.contacts) && db.nextContact == old(db.nextContact)
      invariant db.destinations == old(db.destinations) && db.nextMembership == old(db.nextMembership)
      invariant newly == Newly(existing, contacts, k)
      invariant forall c :: c in seen <==> c in newly
      invariant queued == |newly| && skipped == k - |newly|
      invariant memberships == Listed(destination.memberships, db.nextMembership, newly)
    {
      var c := contacts[k];
      if c in existing || c in seen {
        skipped := skipped + 1;
        continue;
      }
      seen := seen + {c};
      assert (newly + [c])[..|newly|] == newly;
      newly := newly + [c];
      memberships := memberships[db.nextMembership + queued := Membership(c, Pending, None)];
      queued := queued + 1;
    }
    db.contacts, db.nextContact := rows, next;
    db.destinations := db.destinations[destinationId := destination.(memberships := memberships)];
    db.nextMembership := db.nextMembership + queued;
    r := Listing(queued, skipped, false);
  }

  // ------------------------------------------------------------------ specification ---

  /** What adding a member may answer: a flood warning, or the membership's new state. */
  datatype Reply = Flood | Result(state: MemberState)

  type Executor = nat -> Reply

  type Memberships = map<int, Membership>

  /** Everything one tick is given. */
  datatype Scene = Scene(
    accounts: Accounts, contacts: Contacts, destination: Destination, now: Time, execute: Executor, minDelay: int)

  function PendingSet(memberships: Memberships): set<int> {
    set m | m in memberships && memberships[m].state.Pending?
  }

  /** The pending memberships, by id. Consent is not looked at. */
  function Queue(memberships: Memberships): (r: seq<int>)
    ensures |r| == |PendingSet(memberships)| && forall m :: m in r <==> m in PendingSet(memberships)
  {
    ById(PendingSet(memberships))
  }

  function TickOrder(x: Scene): seq<int> {
    Pool.Order(x.accounts, x.now, x.minDelay, None)
  }

  predicate Works(x: Scene) {
    x.destination.resolved && TickOrder(x) != []
  }

  /** Attempt `k` finds its contact removed. */
  predicate Gone(x: Scene, queue: seq<int>, k: nat) {
    k < |queue| && queue[k] in x.destination.memberships
    && x.destination.memberships[queue[k]].contactId !in x.contacts
  }

  /** An attempt without a contact leaves its account alone; any answer but a flood warning charges it. */
  function Effects(x: Scene, queue: seq<int>): Pool.Effects {
    (k: nat) => if Gone(x, queue, k) then Pool.Spare
                else if x.execute(k).Flood? then Pool.Quarantine else Pool.Charge
  }

  /** What attempt `k` does to its membership; a flood warning leaves it pending. */
  function Mark(x: Scene, queue: seq<int>, order: seq<int>): (nat, Membership) -> Membership {
    (k: nat, m: Membership) =>
      if Gone(x, queue, k) then m.(state := AddFailed)
      else if x.execute(k).Flood? || k >= |order| then m
      else m.(state := x.execute(k).state, accountId := Some(order[k]))
  }

  function Attempts(x: Scene): nat {
    Pool.Made(Effects(x, Queue(x.destination.memberships)), Min(|TickOrder(x)|, |Queue(x.destination.memberships)|))
  }

  function AccountsAfter(x: Scene, k: nat): Accounts {
    Pool.After(x.accounts, TickOrder(x), Effects(x, Queue(x.destination.memberships)), x.now, k)
  }

  function MembershipsAfter(x: Scene, k: nat): (r: Memberships)
    ensures r.Keys == x.destination.memberships.Keys
  {
    var queue := Queue(x.destination.memberships);
    Marked(x.destination.memberships, queue, Mark(x, queue, TickOrder(x)), k)
  }

  datatype Summary = Summary(added: nat, invited: nat, failed: nat, paused: bool, actions: seq<(int, MemberState)>)

  const NOTHING := Summary(0, 0, 0, false, [])

  /** What the first `k` attempts report. */
  function SummaryAfter(x: Scene, k: nat): Summary {
    if k == 0 then NOTHING
    else
      var s, queue, order := SummaryAfter(x, k - 1), Queue(x.destination.memberships), TickOrder(x);
      if Gone(x, queue, k - 1) then s.(failed := s.failed + 1)
      else if x.execute(k - 1).Flood? then s.(paused := true)
      else if k > |order| then s
      else
        var state := x.execute(k - 1).state;
        Summary(if state.Added? then s.added + 1 else s.added, if state.Invited? then s.invited + 1 else s.invited,
                if state.Added? || state.Invited? then s.failed else s.failed + 1, s.paused,
                s.actions + [(order[k - 1], state)])
  }

  datatype TickResult = TickResult(accounts: Accounts, destination: Destination, summary: Summary)

  /** One add tick of a destination. */
  function Tick(x: Scene): TickResult {
    if !Works(x) then TickResult(x.accounts, x.destination, NOTHING)
    else
      TickResult(AccountsAfter(x, Attempts(x)), x.destination.(memberships := MembershipsAfter(x, Attempts(x))),
                 SummaryAfter(x, Attempts(x)))
  }

  // ------------------------------------------------------------------------ the code ---

  lemma QueueInOrder(x: Scene)
    ensures var queue := Queue(x.destination.memberships); Distinct(queue) && AllIn(queue, x.destination.memberships)
    ensures forall k :: 0 <= k < |Queue(x.destination.memberships)| ==>
      x.destination.memberships[Queue(x.destination.memberships)[k]].state.Pending?
  {
    var queue := Queue(x.destination.memberships);
    ByIdDistinct(PendingSet(x.destination.memberships));
    forall i | 0 <= i < |queue| ensures queue[i] in PendingSet(x.destination.memberships) {
      assert queue[i] in queue;
    }
  }

  lemma OrderInPool(x: Scene)
    ensures var order := TickOrder(x);
      Distinct(order) && AllIn(order, x.accounts) && Pool.AllUsable(order, x.accounts, x.now, x.minDelay)
  {
    Pool.OrderIsUsable(x.accounts, x.now, x.minDelay, None);
  }

  ghost predicate Reached(x: Scene, k: nat, accounts: Accounts, memberships: Memberships, s: Summary) {
    accounts == AccountsAfter(x, k) && memberships == MembershipsAfter(x, k) && s == SummaryAfter(x, k)
  }

  lemma StartReached(x: Scene)
    ensures Reached(x, 0, x.accounts, x.destination.memberships, NOTHING)
  {
  }

  /** Until its own attempt a membership is as the tick found it. */
  lemma UnmarkedYet(x: Scene, k: nat)
    requires k < |Queue(x.destination.memberships)|
    ensures var m := Queue(x.destination.memberships)[k];
      m in x.destination.memberships && MembershipsAfter(x, k)[m] == x.destination.memberships[m]
  {
    var queue := Queue(x.destination.memberships);
    QueueInOrder(x);
    BeforeItsTurn(x.destination.memberships, queue, Mark(x, queue, TickOrder(x)), k);
  }

  lemma AccountsAdvance(x: Scene, k: nat)
    requires k < |TickOrder(x)|
    ensures var queue, a, accounts := Queue(x.destination.memberships), TickOrder(x)[k], AccountsAfter(x, k);
      a in accounts && AccountsAfter(x, k + 1) ==
      if Gone(x, queue, k) then accounts
      else if x.execute(k).Flood? then accounts[a := accounts[a].(status := Quarantined)]
      else accounts[a := accounts[a].(actionsToday := accounts[a].actionsToday + 1, lastActionAt := Some(x.now))]
  {
    OrderInPool(x);
    hide Queue, TickOrder;
    var queue, a, accounts := Queue(x.destination.memberships), TickOrder(x)[k], AccountsAfter(x, k);
    assert AccountsAfter(x, k + 1) == accounts[a := Pool.Apply(accounts[a], Effects(x, queue)(k), x.now)];
    assert accounts == accounts[a := accounts[a]];
  }

  lemma MembershipsAdvance(x: Scene, k: nat)
    requires k < |Queue(x.destination.memberships)| && k < |TickOrder(x)|
    ensures var queue, before := Queue(x.destination.memberships), MembershipsAfter(x, k);
      var m := queue[k];
      m in before && before[m] == x.destination.memberships[m] && MembershipsAfter(x, k + 1) ==
      if Gone(x, queue, k) then before[m := before[m].(state := AddFailed)]
      else if x.execute(k).Flood? then before
      else before[m := before[m].(state := x.execute(k).state, accountId := Some(TickOrder(x)[k]))]
  {
    UnmarkedYet(x, k);
    var queue, before := Queue(x.destination.memberships), MembershipsAfter(x, k);
    assert before == before[queue[k] := before[queue[k]]];
  }

  method RunAddTick(db: Database, destinationId: int, now: Time, execute: Executor, minDelay: int)
      returns (summary: Summary)
    requires destinationId in db.destinations
    modifies db`accounts, db`destinations
    ensures var r := Tick(Scene(old(db.accounts), db.contacts, old(db.destinations[destinationId]), now, execute,
                                minDelay));
      && db.accounts == r.accounts
      && db.destinations == old(db.destinations)[destinationId := r.destination]
      && summary == r.summary
  {
    hide Pool.Order, Queue, PendingSet, Reached, AccountsAfter, MembershipsAfter, Pool.Made;
    var destination := db.destinations[destinationId];
    ghost var x := Scene(db.accounts, db.contacts, destination, now, execute, minDelay);
    var order := Pool.Order(db.accounts, now, minDelay, None);
    if !destination.resolved || order == [] {
      assert db.destinations == db.destinations[destinationId := destination];
      return NOTHING;
    }

    var pending, memberships := Queue(destination.memberships), destination.memberships;
    var ti, added, invited, failed, paused, actions := 0, 0, 0, 0, false, [];
    StartReached(x);
    while ti < |order| && ti < |pending| && !paused
      invariant ti <= |order| && ti <= |pending|
      invariant db.destinations == old(db.destinations)
      invariant Reached(x, ti, db.accounts, memberships, Summary(added, invited, failed, paused, actions))
      invariant forall i :: 0 <= i < ti - 1 ==> !Effects(x, pending)(i).Quarantine?
      invariant paused == Pool.Stopped(Effects(x, pending), ti)
      decreases |order| - ti
    {
      AttemptReaches(x, ti, db.accounts, memberships, Summary(added, invited, failed, paused, actions));
      var a, m := order[ti], pending[ti];
      var account, membership := db.accounts[a], memberships[m];
      if membership.contactId !in db.contacts {
        memberships := memberships[m := membership.(state := AddFailed)];
        failed := failed + 1;
      } else {
        var result := execute(ti);
        if result.Flood? {
          db.accounts := db.accounts[a := account.(status := Quarantined)];
          paused := true;
        } else {
          memberships := memberships[m := membership.(state := result.state, accountId := Some(a))];
          db.accounts := db.accounts[a := account.(actionsToday := account.actionsToday + 1,
                                                   lastActionAt := Some(now))];
          added := if result.state.Added? then added + 1 else added;
          invited := if result.state.Invited? then invited + 1 else invited;
          failed := if result.state.Added? || result.state.Invited? then failed else failed + 1;
          actions := actions + [(a, result.state)];
        }
      }
      ti := ti + 1;
    }
    Pool.MadeUpTo(Effects(x, pending), Min(|order|, |pending|), ti);
    db.destinations := db.destinations[destinationId := destination.(memberships := memberships)];
    summary := Summary(added, invited, failed, paused, actions);
    ReachedIsTick(x, db.accounts, memberships, summary);
  }

  lemma ReachedIsTick(x: Scene, accounts: Accounts, memberships: Memberships, s: Summary)
    requires Works(x) && Reached(x, Attempts(x), accounts, memberships, s)
    ensures Tick(x) == TickResult(accounts, x.destination.(memberships := memberships), s)
  {
  }

  /** One attempt, in the terms of the code. */
  lemma AttemptReaches(x: Scene, k: nat, accounts: Accounts, memberships: Memberships, s: Summary)
    requires k < |TickOrder(x)| && k < |Queue(x.destination.memberships)| && Reached(x, k, accounts, memberships, s)
    ensures var queue, a := Queue(x.destination.memberships), TickOrder(x)[k];
      var m := queue[k];
      && a in accounts && m in memberships && m in x.destination.memberships
      && memberships[m] == x.destination.memberships[m]
      && Gone(x, queue, k) == (memberships[m].contactId !in x.contacts)
      && if Gone(x, queue, k) then
           Reached(x, k + 1, accounts, memberships[m := memberships[m].(state := AddFailed)],
                   s.(failed := s.failed + 1))
         else if x.execute(k).Flood? then
           Reached(x, k + 1, accounts[a := accounts[a].(status := Quarantined)], memberships, s.(paused := true))
         else
           var state := x.execute(k).state;
           Reached(x, k + 1,
                   accounts[a := accounts[a].(actionsToday := accounts[a].actionsToday + 1,
                                              lastActionAt := Some(x.now))],
                   memberships[m := memberships[m].(state := state, accountId := Some(a))],
                   Summary(if state.Added? then s.added + 1 else s.added,
                           if state.Invited? then s.invited + 1 else s.invited,
                           if state.Added? || state.Invited? then s.failed else s.failed + 1, s.paused,
                           s.actions + [(a, state)]))
  {
    hide TickOrder, Queue, AccountsAfter, MembershipsAfter;
    AccountsAdvance(x, k);
    MembershipsAdvance(x, k);
  }
}
