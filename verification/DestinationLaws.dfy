/** What adding members keeps: nobody is listed twice, who gets listed, what becomes of each membership,
    progress, and that an add tick does not look at consent. */
module DestinationLaws {
  import opened Core
  import opened Ordering
  import opened Models
  import opened Text
  import opened ContactBook
  import Pool
  import opened Destinations

  // --------------------------------------------------------------- building the list ---

  lemma {:induction false} NewlyIs(existing: set<int>, contacts: seq<int>, k: nat)
    requires k <= |contacts|
    ensures Distinct(Newly(existing, contacts, k))
    ensures forall c :: c in Newly(existing, contacts, k) <==> c in contacts[..k] && c !in existing
  {
    if k == 0 {
    } else {
      NewlyIs(existing, contacts, k - 1);
      assert contacts[..k] == contacts[..k - 1] + [contacts[k - 1]];
      var before := Newly(existing, contacts, k - 1);
      assert (before + [contacts[k - 1]])[..|before|] == before;
    }
  }

  lemma {:induction false} ListedAt(memberships: Memberships, next: int, queued: seq<int>, m: int)
    requires forall x :: x in memberships ==> x < next
    ensures m in Listed(memberships, next, queued) <==> m in memberships || next <= m < next + |queued|
    ensures m in memberships ==> Listed(memberships, next, queued)[m] == memberships[m]
    ensures next <= m < next + |queued| ==>
      Listed(memberships, next, queued)[m] == Membership(queued[m - next], Pending, None)
  {
    if queued == [] {
    } else {
      ListedAt(memberships, next, queued[..|queued| - 1], m);
    }
  }

  /** Each contact has at most one membership in a destination. */
  ghost predicate OneEach(memberships: Memberships) {
    forall m, n :: m in memberships && n in memberships && memberships[m].contactId == memberships[n].contactId ==>
      m == n
  }

  /** After listing, exactly the old members and the contacts asked for are members, each once. */
  lemma ListingCoversAll(memberships: Memberships, next: int, contacts: seq<int>)
    requires OneEach(memberships) && forall x :: x in memberships ==> x < next
    ensures var later := Listed(memberships, next, Newly(Members(memberships), contacts, |contacts|));
      OneEach(later) && forall c :: c in Members(later) <==> c in Members(memberships) || c in contacts
  {
    var queued := Newly(Members(memberships), contacts, |contacts|);
    var later := Listed(memberships, next, queued);
    NewlyIs(Members(memberships), contacts, |contacts|);
    assert contacts[..|contacts|] == contacts;
    forall m, n | m in later && n in later && later[m].contactId == later[n].contactId ensures m == n {
      ListedAt(memberships, next, queued, m);
      ListedAt(memberships, next, queued, n);
      NewIsNotOld(memberships, next, queued, m, n);
    }
    forall c ensures c in Members(later) <==> c in Members(memberships) || c in contacts {
      MembersAfter(memberships, next, queued, c);
    }
  }

  lemma NewIsNotOld(memberships: Memberships, next: int, queued: seq<int>, m: int, n: int)
    requires OneEach(memberships) && Distinct(queued) && forall c :: c in queued ==> c !in Members(memberships)
    requires m in memberships || next <= m < next + |queued|
    requires n in memberships || next <= n < next + |queued|
    requires (if m in memberships then memberships[m].contactId else queued[m - next])
          == (if n in memberships then memberships[n].contactId else queued[n - next])
    ensures m == n
  {
    assert m in memberships ==> memberships[m].contactId in Members(memberships);
    assert n in memberships ==> memberships[n].contactId in Members(memberships);
    if m !in memberships && n !in memberships {
      OnePlace(queued, m - next, n - next);
    }
  }

  lemma MembersAfter(memberships: Memberships, next: int, queued: seq<int>, c: int)
    requires forall x :: x in memberships ==> x < next
    ensures c in Members(Listed(memberships, next, queued)) <==> c in Members(memberships) || c in queued
  {
    var later := Listed(memberships, next, queued);
    if c in Members(later) {
      var m :| m in later && later[m].contactId == c;
      ListedAt(memberships, next, queued, m);
    }
    if c in Members(memberships) {
      var m :| m in memberships && memberships[m].contactId == c;
      ListedAt(memberships, next, queued, m);
      assert later[m].contactId == c;
    }
    if c in queued {
      var i :| 0 <= i < |queued| && queued[i] == c;
      ListedAt(memberships, next, queued, next + i);
      assert later[next + i].contactId == c;
    }
  }

  /** The contacts an identifier names: those that carry its normal form. */
  function NamedBy(rows: Contacts, identifier: string): set<int> {
    var ident := Strip(identifier);
    if ident == "" then {}
    else if ident[0] == '+' || IsNumeral(WithoutPlus(ident)) then
      match NormalizePhone(Some(ident))
      case None => {}
      case Some(p) => ByPhone(rows, p)
    else
      match NormalizeUsername(Some(ident))
      case None => {}
      case Some(u) => ByUsername(rows, u)
  }

  /** Typing an identifier: the contact it names if there is just one, an error if there are several, a new
      consenting contact or nothing if there is none. Other contacts stay as they are. */
  lemma TypingMeans(rows: Contacts, next: int, identifier: string)
    requires next !in rows
    ensures var r, named := FindOrCreate(rows, next, identifier), NamedBy(rows, identifier);
      && (r.Ambiguous? <==> |named| > 1)
      && (|named| == 1 ==> r.Stored? && r.rows == rows && r.next == next && named == {r.id})
      && (r.Stored? && named == {} ==>
            r.id == next && r.next == next + 1 && next in r.rows && r.rows == rows[next := r.rows[next]]
            && Reachable(r.rows, next))
  {
    hide Strip, IsNumeral, NormalizePhone, NormalizeUsername, ByPhone, ByUsername;
    var named, r := NamedBy(rows, identifier), FindOrCreate(rows, next, identifier);
    if |named| == 1 {
      OnlyOne(named, First(named, Self(named)));
    }
  }

  lemma OnlyOne(s: set<int>, a: int)
    requires |s| == 1 && a in s
    ensures s == {a}
  {
    assert |s - {a}| == 0;
    assert s == {a} + (s - {a});
  }

  /** What typing identifiers keeps: known contacts as they were, and new ones can be written to. */
  ghost predicate Extends(rows: Contacts, later: Contacts) {
    && (forall c :: c in rows ==> c in later && later[c] == rows[c])
    && (forall c :: c in later && c !in rows ==> Reachable(later, c))
  }

  /** A known contact is named by the same identifiers before and after. */
  lemma NamedAgain(rows: Contacts, later: Contacts, identifier: string, c: int)
    requires Extends(rows, later) && c in rows
    ensures c in NamedBy(later, identifier) <==> c in NamedBy(rows, identifier)
  {
    hide Strip, IsNumeral, NormalizePhone, NormalizeUsername;
  }

  lemma TypingExtends(rows: Contacts, later: Contacts, next: int, identifier: string)
    requires Extends(rows, later) && IdsBelow(later, next) && FindOrCreate(later, next, identifier).Stored?
    ensures var r := FindOrCreate(later, next, identifier); Extends(rows, r.rows) && IdsBelow(r.rows, r.next)
  {
    assert next !in later;
    hide FindOrCreate;
    TypingMeans(later, next, identifier);
    var named := NamedBy(later, identifier);
    assert named == {} || |named| >= 1;
  }

  lemma {:induction false} GatherExtends(rows: Contacts, next: int, identifiers: seq<string>)
    requires IdsBelow(rows, next) && Gather(rows, next, identifiers).Gathered?
    ensures var g := Gather(rows, next, identifiers); Extends(rows, g.rows) && IdsBelow(g.rows, g.next)
  {
    if identifiers == [] {
    } else {
      var front, last := identifiers[..|identifiers| - 1], identifiers[|identifiers| - 1];
      GatherExtends(rows, next, front);
      var g := Gather(rows, next, front);
      hide Extends, IdsBelow, FindOrCreate;
      if FindOrCreate(g.rows, g.next, last).Stored? {
        TypingExtends(rows, g.rows, g.next, last);
      }
    }
  }

  ghost predicate NamedByAny(rows: Contacts, identifiers: seq<string>, c: int) {
    exists i :: 0 <= i < |identifiers| && c in NamedBy(rows, identifiers[i])
  }

  /** Among the contacts known before, typing finds exactly those that an identifier names. */
  lemma {:induction false} FoundExactly(rows: Contacts, next: int, identifiers: seq<string>, c: int)
    requires IdsBelow(rows, next) && Gather(rows, next, identifiers).Gathered? && c in rows
    ensures c in Gather(rows, next, identifiers).found <==> NamedByAny(rows, identifiers, c)
  {
    if identifiers == [] {
    } else {
      var front, last := identifiers[..|identifiers| - 1], identifiers[|identifiers| - 1];
      FoundExactly(rows, next, front, c);
      GatherExtends(rows, next, front);
      var g := Gather(rows, next, front);
      assert c in g.rows && g.next !in g.rows;
      TypingMeans(g.rows, g.next, last);
      NamedAgain(rows, g.rows, last, c);
      NamedByMore(rows, identifiers, c);
      hide Extends, IdsBelow, FindOrCreate, NamedBy, NamedByAny;
      assert NamedBy(g.rows, last) == {} || |NamedBy(g.rows, last)| >= 1;
    }
  }

  lemma NamedByMore(rows: Contacts, identifiers: seq<string>, c: int)
    requires identifiers != []
    ensures NamedByAny(rows, identifiers, c)
       <==> NamedByAny(rows, identifiers[..|identifiers| - 1], c) || c in NamedBy(rows, identifiers[|identifiers| - 1])
  {
    hide NamedBy;
    var front := identifiers[..|identifiers| - 1];
    if NamedByAny(rows, front, c) {
      var i :| 0 <= i < |front| && c in NamedBy(rows, front[i]);
      assert identifiers[i] == front[i];
    }
    if i :| 0 <= i < |identifiers| && c in NamedBy(rows, identifiers[i]) {
      assert i < |front| ==> front[i] == identifiers[i];
    }
  }

  /** The contacts a request newly lists. */
  function NewlyListed(rows: Contacts, memberships: Memberships, ids: seq<int>, found: seq<int>): seq<int> {
    var contacts := ById(Consenting(rows, ids)) + found;
    Newly(Members(memberships), contacts, |contacts|)
  }

  /** Consent is checked only for contacts chosen by id. Exactly these are listed although they may not be
      written to: known contacts without consent or opted out, not members yet, that a typed identifier
      names. */
  lemma ListedThoughUnreachable(rows: Contacts, next: int, memberships: Memberships, ids: seq<int>,
                                identifiers: seq<string>, c: int)
    requires IdsBelow(rows, next) && Gather(rows, next, identifiers).Gathered?
    ensures var g := Gather(rows, next, identifiers);
      c in NewlyListed(rows, memberships, ids, g.found) && !Reachable(g.rows, c)
      <==> c in rows && !Reachable(rows, c) && c !in Members(memberships) && NamedByAny(rows, identifiers, c)
  {
    var g := Gather(rows, next, identifiers);
    var contacts := ById(Consenting(rows, ids)) + g.found;
    GatherExtends(rows, next, identifiers);
    FoundIsKnown(rows, next, identifiers);
    NewlyIs(Members(memberships), contacts, |contacts|);
    assert contacts[..|contacts|] == contacts;
    if c in rows {
      FoundExactly(rows, next, identifiers, c);
    }
    hide Gather, ById, Newly, NamedByAny, Members, IdsBelow;
  }

  lemma {:induction false} FoundIsKnown(rows: Contacts, next: int, identifiers: seq<string>)
    requires IdsBelow(rows, next) && Gather(rows, next, identifiers).Gathered?
    ensures var g := Gather(rows, next, identifiers); forall c :: c in g.found ==> c in g.rows
  {
    if identifiers == [] {
    } else {
      var front, last := identifiers[..|identifiers| - 1], identifiers[|identifiers| - 1];
      FoundIsKnown(rows, next, front);
      GatherExtends(rows, next, front);
      var g := Gather(rows, next, front);
      assert g.next !in g.rows;
      TypingMeans(g.rows, g.next, last);
      var named := NamedBy(g.rows, last);
      NamedAreKnown(g.rows, last);
      hide Extends, IdsBelow, FindOrCreate, NamedBy;
      assert named == {} || |named| >= 1;
    }
  }

  lemma NamedAreKnown(rows: Contacts, identifier: string)
    ensures forall c :: c in NamedBy(rows, identifier) ==> c in rows
  {
    hide Strip, IsNumeral, NormalizePhone, NormalizeUsername;
  }

  // ----------------------------------------------------------------------- one tick ---

  /** The engine answers with a settled state. */
  ghost predicate Settles(x: Scene) {
    forall k: nat :: x.execute(k).Result? ==> !x.execute(k).state.Pending?
  }

  /** How many attempts of the tick settle a membership: all of them but one that was flooded. */
  function Settled(x: Scene): (n: nat)
    ensures n <= Attempts(x) <= |Queue(x.destination.memberships)| && n <= |TickOrder(x)|
  {
    if Pool.Stopped(Effects(x, Queue(x.destination.memberships)), Attempts(x)) then Attempts(x) - 1 else Attempts(x)
  }

  /** The fate of a membership: removed contacts fail, attempted ones take the engine's answer and the
      account, the others stay as they were. */
  lemma MemberFate(x: Scene, m: int)
    requires Works(x) && m in x.destination.memberships
    ensures m in Tick(x).destination.memberships
    ensures var queue, order := Queue(x.destination.memberships), TickOrder(x);
      var old', new' := x.destination.memberships[m], Tick(x).destination.memberships[m];
      && (forall k :: 0 <= k < Settled(x) && queue[k] == m ==>
            if old'.contactId !in x.contacts then new' == old'.(state := AddFailed)
            else x.execute(k).Result? && new' == old'.(state := x.execute(k).state, accountId := Some(order[k])))
      && (m !in queue[..Settled(x)] ==> new' == old')
  {
    hide Pool.Made, TickOrder, Queue;
    var queue, order, n := Queue(x.destination.memberships), TickOrder(x), Attempts(x);
    QueueInOrder(x);
    StopsOnlyAtTheEnd(x);
    MarkedAt(x.destination.memberships, queue, Mark(x, queue, order), n, m);
    forall k | 0 <= k < Settled(x) && queue[k] == m
      ensures Gone(x, queue, k) == (x.destination.memberships[m].contactId !in x.contacts)
      ensures MembershipsAfter(x, n)[m] == Mark(x, queue, order)(k, x.destination.memberships[m])
      ensures Gone(x, queue, k) || x.execute(k).Result?
    {
      assert !Effects(x, queue)(k).Quarantine?;
    }
    if m in queue[..n] && m !in queue[..Settled(x)] {
      var k :| 0 <= k < n && queue[k] == m;
      NotInPrefix(queue, Settled(x), m);
      assert Pool.Stopped(Effects(x, queue), n) && k == n - 1;
      assert Effects(x, queue)(k).Quarantine?;
      assert Mark(x, queue, order)(k, x.destination.memberships[m]) == x.destination.memberships[m];
    }
  }

  lemma NotInPrefix(ids: seq<int>, n: nat, m: int)
    requires n <= |ids| && m !in ids[..n]
    ensures forall k :: 0 <= k < n ==> ids[k] != m
  {
    forall k | 0 <= k < n ensures ids[k] != m {
      assert ids[..n][k] == ids[k];
    }
  }

  lemma StopsOnlyAtTheEnd(x: Scene)
    ensures forall k :: 0 <= k < Settled(x) ==> !Effects(x, Queue(x.destination.memberships))(k).Quarantine?
  {
    var queue := Queue(x.destination.memberships);
    Pool.MadeStops(Effects(x, queue), Min(|TickOrder(x)|, |queue|));
  }

  lemma PendingAfter(x: Scene)
    requires Works(x) && Settles(x)
    ensures var queue := Queue(x.destination.memberships);
      PendingSet(Tick(x).destination.memberships)
      == PendingSet(x.destination.memberships) - (set m | m in queue[..Settled(x)])
  {
    hide Tick, Works, Settled, Queue, TickOrder;
    var queue := Queue(x.destination.memberships);
    QueueInOrder(x);
    StopsOnlyAtTheEnd(x);
    SameMembers(x);
    forall m | m in x.destination.memberships
      ensures m in PendingSet(Tick(x).destination.memberships)
         <==> m in PendingSet(x.destination.memberships) && m !in queue[..Settled(x)]
    {
      MemberFate(x, m);
      if m in queue[..Settled(x)] {
        var k :| 0 <= k < Settled(x) && queue[k] == m;
        assert !Effects(x, queue)(k).Quarantine?;
      }
    }
  }

  lemma SameMembers(x: Scene)
    ensures Tick(x).destination.memberships.Keys == x.destination.memberships.Keys
  {
  }

  /** Progress, exactly: a working tick settles memberships or loses accounts, one for each attempt. */
  lemma AttemptsAddUp(x: Scene)
    requires Works(x) && Settles(x)
    ensures |PendingSet(x.destination.memberships)| + |Pool.Sound(x.accounts)|
         == |PendingSet(Tick(x).destination.memberships)| + |Pool.Sound(Tick(x).accounts)| + Attempts(x)
  {
    var queue := Queue(x.destination.memberships);
    PendingAfter(x);
    QueueInOrder(x);
    DistinctPrefix(queue, Settled(x));
    SetOfDistinct(queue[..Settled(x)]);
    assert (set m | m in queue[..Settled(x)]) <= PendingSet(x.destination.memberships) by { PrefixIsPending(x); }
    SoundAfter(x);
    hide Pool.Sound, Attempts, Settled, PendingSet, Queue, TickOrder;
  }

  lemma PrefixIsPending(x: Scene)
    ensures forall m :: m in Queue(x.destination.memberships)[..Settled(x)] ==>
              m in PendingSet(x.destination.memberships)
  {
    var queue := Queue(x.destination.memberships);
    forall m | m in queue[..Settled(x)] ensures m in PendingSet(x.destination.memberships) {
      assert m in queue;
    }
  }

  lemma SoundAfter(x: Scene)
    requires Works(x)
    ensures |Pool.Sound(Tick(x).accounts)| == |Pool.Sound(x.accounts)| - (Attempts(x) - Settled(x))
  {
    var effects := Effects(x, Queue(x.destination.memberships));
    OrderInPool(x);
    hide TickOrder, Queue, Pool.Sound, Pool.After, Pool.Made, Pool.AllUsable, Distinct;
    Pool.WarningCostsOne(x.accounts, TickOrder(x), effects, x.now, x.minDelay,
                         Min(|TickOrder(x)|, |Queue(x.destination.memberships)|));
  }

  /** So ticks that find something pending end: the sum of pending memberships and sound accounts falls. */
  lemma Progress(x: Scene)
    requires Works(x) && Settles(x) && PendingSet(x.destination.memberships) != {}
    ensures |PendingSet(Tick(x).destination.memberships)| + |Pool.Sound(Tick(x).accounts)|
          < |PendingSet(x.destination.memberships)| + |Pool.Sound(x.accounts)|
  {
    hide Tick, Pool.Sound, Pool.Order;
    AttemptsAddUp(x);
    assert |Queue(x.destination.memberships)| > 0;
    Pool.MadeSome(Effects(x, Queue(x.destination.memberships)),
                  Min(|TickOrder(x)|, |Queue(x.destination.memberships)|));
  }

  /** A destination driven by a run of ticks. */
  function Driven(d: Destination, ticks: seq<Scene>): Destination
    decreases |ticks|
  {
    if ticks == [] then d else Driven(Tick(ticks[0].(destination := d)).destination, ticks[1..])
  }

  /** Every tick works on the destination as the one before left it and gets settled answers, and no account
      outside `sound` is made sound before the first or between two of them. */
  ghost predicate Pushed(d: Destination, sound: set<int>, ticks: seq<Scene>)
    decreases |ticks|
  {
    ticks == []
    || (var x := ticks[0].(destination := d);
        && Works(x) && Settles(x) && Pool.Sound(x.accounts) <= sound
        && Pushed(Tick(x).destination, Pool.Sound(Tick(x).accounts), ticks[1..]))
  }

  /** Termination: as many such ticks as there are pending memberships and sound accounts leave nothing
      pending, whatever is answered. */
  lemma {:induction false} RunEnds(d: Destination, sound: set<int>, ticks: seq<Scene>)
    requires Pushed(d, sound, ticks) && |ticks| >= |PendingSet(d.memberships)| + |sound|
    ensures PendingSet(Driven(d, ticks).memberships) == {}
    decreases |ticks|
  {
    hide Tick, Works, Settles, PendingSet, Pool.Sound;
    if ticks == [] {
    } else {
      var x := ticks[0].(destination := d);
      var r := Tick(x);
      SubsetSize(Pool.Sound(x.accounts), sound);
      if PendingSet(d.memberships) == {} {
        NothingPendingEver(d, sound, ticks);
      } else {
        Progress(x);
        RunEnds(r.destination, Pool.Sound(r.accounts), ticks[1..]);
      }
    }
  }

  lemma SubsetSize(a: set<int>, b: set<int>)
    requires a <= b
    ensures |a| <= |b|
  {
    assert b == a + (b - a);
  }

  lemma NothingPendingStays(x: Scene)
    requires Works(x) && Settles(x) && PendingSet(x.destination.memberships) == {}
    ensures PendingSet(Tick(x).destination.memberships) == {}
  {
    hide Tick, Works, Settles, PendingSet, Queue, TickOrder;
    PendingAfter(x);
  }

  lemma {:induction false} NothingPendingEver(d: Destination, sound: set<int>, ticks: seq<Scene>)
    requires Pushed(d, sound, ticks) && PendingSet(d.memberships) == {}
    ensures PendingSet(Driven(d, ticks).memberships) == {}
    decreases |ticks|
  {
    hide Tick, Works, Settles, PendingSet, Pool.Sound;
    if ticks == [] {
    } else {
      var x := ticks[0].(destination := d);
      NothingPendingStays(x);
      NothingPendingEver(Tick(x).destination, Pool.Sound(Tick(x).accounts), ticks[1..]);
    }
  }

  /** The contact attempt `k` is for. */
  function ContactAt(x: Scene, k: nat): int
    requires k < |Queue(x.destination.memberships)|
  {
    var queue := Queue(x.destination.memberships);
    assert queue[k] in queue;
    x.destination.memberships[queue[k]].contactId
  }

  /** The contacts a tick has the engine add. */
  ghost function Approached(x: Scene): set<int> {
    if !Works(x) then {}
    else set k | 0 <= k < Attempts(x) && ContactAt(x, k) in x.contacts :: ContactAt(x, k)
  }

  ghost predicate ActsOnReachable(x: Scene) {
    forall c :: c in Approached(x) ==> Reachable(x.contacts, c)
  }

  /** Every contact a tick may get to is gone or may be written to. */
  ghost predicate QueueConsents(x: Scene) {
    var n := Min(|TickOrder(x)|, |Queue(x.destination.memberships)|);
    forall k :: 0 <= k < n && ContactAt(x, k) in x.contacts ==> Reachable(x.contacts, ContactAt(x, k))
  }

  /** The engine answers every attempt of this tick with a settled state. */
  function Unwarned(x: Scene): Scene {
    x.(execute := (_: nat) => Result(AddFailed))
  }

  lemma UnwarnedTriesAll(x: Scene)
    ensures Attempts(Unwarned(x)) == Min(|TickOrder(x)|, |Queue(x.destination.memberships)|)
  {
    var y := Unwarned(x);
    var n, effects := Min(|TickOrder(x)|, |Queue(x.destination.memberships)|),
      Effects(y, Queue(x.destination.memberships));
    Pool.MadeStops(effects, n);
    assert forall k: nat :: !effects(k).Quarantine?;
  }

  /** When an add tick keeps to the consent of the contacts, exactly: whatever the engine answers it acts only
      on contacts that may be written to, if and only if the destination is not resolved or each of the
      pending memberships its accounts suffice for has a contact that is gone or may be written to. */
  lemma ConsentHoldsExactly(x: Scene)
    ensures (forall e: Executor :: ActsOnReachable(x.(execute := e))) <==> (Works(x) ==> QueueConsents(x))
  {
    if Works(x) ==> QueueConsents(x) {
      forall e: Executor ensures ActsOnReachable(x.(execute := e)) {
        AttemptsFew(x, e);
      }
    } else {
      var k :| 0 <= k < Min(|TickOrder(x)|, |Queue(x.destination.memberships)|)
        && ContactAt(x, k) in x.contacts && !Reachable(x.contacts, ContactAt(x, k));
      UnwarnedTriesAll(x);
      var y := Unwarned(x);
      assert y == x.(execute := y.execute);
      assert ContactAt(y, k) in Approached(y);
    }
  }

  lemma AttemptsFew(x: Scene, e: Executor)
    requires Works(x) ==> QueueConsents(x)
    ensures ActsOnReachable(x.(execute := e))
  {
    var y := x.(execute := e);
    SameQueue(x, e);
    hide Queue, TickOrder, Works, Pool.Made;
    if Works(x) {
      forall k | 0 <= k < Attempts(y) && ContactAt(y, k) in y.contacts ensures Reachable(y.contacts, ContactAt(y, k)) {
        assert ContactAt(y, k) == ContactAt(x, k);
      }
    }
  }

  lemma SameQueue(x: Scene, e: Executor)
    ensures var y := x.(execute := e);
      TickOrder(y) == TickOrder(x) && Works(y) == Works(x) && y.destination == x.destination && y.contacts == x.contacts
  {
  }

  /** An add tick does not look at consent: it does the same whatever the contacts' flags are, as long as
      the same contacts exist. */
  lemma ConsentIsNotLookedAt(x: Scene, y: Scene)
    requires y == x.(contacts := y.contacts) && y.contacts.Keys == x.contacts.Keys
    ensures Tick(x) == Tick(y)
  {
    hide Queue, TickOrder, Pool.Made;
    var queue := Queue(x.destination.memberships);
    SameOrder(x, y);
    SameAttempts(x, y, Min(|TickOrder(x)|, |queue|));
    SameAccounts(x, y, Attempts(x));
    SameMemberships(x, y, Attempts(x));
    SameSummary(x, y, Attempts(x));
  }

  lemma SameOrder(x: Scene, y: Scene)
    requires y == x.(contacts := y.contacts)
    ensures TickOrder(y) == TickOrder(x) && y.destination == x.destination
  {
  }

  lemma SameEffect(x: Scene, y: Scene, queue: seq<int>, order: seq<int>, k: nat, m: Membership)
    requires y == x.(contacts := y.contacts) && y.contacts.Keys == x.contacts.Keys
    ensures Gone(x, queue, k) == Gone(y, queue, k)
    ensures Effects(x, queue)(k) == Effects(y, queue)(k) && Mark(x, queue, order)(k, m) == Mark(y, queue, order)(k, m)
  {
    assert forall c :: c in x.contacts <==> c in y.contacts.Keys;
    assert y.destination == x.destination && y.execute == x.execute;
    assert Gone(x, queue, k) == Gone(y, queue, k);
  }

  lemma {:induction false} SameAttempts(x: Scene, y: Scene, n: nat)
    requires y == x.(contacts := y.contacts) && y.contacts.Keys == x.contacts.Keys
    ensures var queue := Queue(x.destination.memberships);
      Pool.Made(Effects(x, queue), n) == Pool.Made(Effects(y, queue), n)
  {
    if n == 0 {
    } else {
      SameAttempts(x, y, n - 1);
      forall k: nat | k < n
        ensures Effects(x, Queue(x.destination.memberships))(k) == Effects(y, Queue(x.destination.memberships))(k)
      {
        SameEffect(x, y, Queue(x.destination.memberships), [], k, Membership(0, Pending, None));
      }
    }
  }

  lemma {:induction false} SameAccounts(x: Scene, y: Scene, k: nat)
    requires y == x.(contacts := y.contacts) && y.contacts.Keys == x.contacts.Keys
    ensures AccountsAfter(x, k) == AccountsAfter(y, k)
  {
    var queue, order := Queue(x.destination.memberships), TickOrder(x);
    hide Queue, Pool.Order;
    if k == 0 || k > |order| {
    } else {
      SameAccounts(x, y, k - 1);
      SameEffect(x, y, queue, order, k - 1, Membership(0, Pending, None));
      var before, id := AccountsAfter(x, k - 1), order[k - 1];
      assert AccountsAfter(x, k)
          == if id in before then before[id := Pool.Apply(before[id], Effects(x, queue)(k - 1), x.now)] else before;
      assert AccountsAfter(y, k)
          == if id in before then before[id := Pool.Apply(before[id], Effects(y, queue)(k - 1), x.now)] else before;
    }
  }

  lemma {:induction false} SameMemberships(x: Scene, y: Scene, k: nat)
    requires y == x.(contacts := y.contacts) && y.contacts.Keys == x.contacts.Keys
    ensures MembershipsAfter(x, k) == MembershipsAfter(y, k)
  {
    var queue, order := Queue(x.destination.memberships), TickOrder(x);
    hide Queue, TickOrder;
    if k == 0 || k > |queue| {
    } else {
      SameMemberships(x, y, k - 1);
      SameOrder(x, y);
      var before, m := MembershipsAfter(x, k - 1), queue[k - 1];
      if m in before { SameEffect(x, y, queue, order, k - 1, before[m]); }
      assert MembershipsAfter(x, k) == if m in before then before[m := Mark(x, queue, order)(k - 1, before[m])]
                                       else before;
      assert MembershipsAfter(y, k) == if m in before then before[m := Mark(y, queue, order)(k - 1, before[m])]
                                       else before;
    }
  }

  lemma {:induction false} SameSummary(x: Scene, y: Scene, k: nat)
    requires y == x.(contacts := y.contacts) && y.contacts.Keys == x.contacts.Keys
    ensures SummaryAfter(x, k) == SummaryAfter(y, k)
  {
    hide Queue, TickOrder;
    if k == 0 {
    } else {
      SameSummary(x, y, k - 1);
      SameOrder(x, y);
      SameEffect(x, y, Queue(x.destination.memberships), [], k - 1, Membership(0, Pending, None));
    }
  }
}
