/** The proxy pool: bulk import, assignment and release, and the account edits that rebind proxies. */
module ProxyPool {
  import opened Core
  import opened Ordering
  import opened Models

  /** The two tables an assignment is written in. */
  datatype Rack = Rack(accounts: Accounts, proxies: Proxies)

  // ------------------------------------------------------------------ specification ---

  predicate IsFree(p: Proxy) {
    p.isActive && p.assignedAccountId.None? && !p.health.Dead?
  }

  function FreeSet(proxies: Proxies): set<int> {
    set p | p in proxies && IsFree(proxies[p])
  }

  /** The free proxy with the lowest id. */
  function NextFree(proxies: Proxies): (r: Option<int>)
    ensures r.None? <==> FreeSet(proxies) == {}
    ensures r.Some? ==> r.value in FreeSet(proxies) && forall p :: p in FreeSet(proxies) ==> r.value <= p
  {
    if FreeSet(proxies) == {} then None else Some(First(FreeSet(proxies), Self(FreeSet(proxies))))
  }

  /** Writes both sides of an assignment. */
  function Bound(r: Rack, a: int, p: int): Rack
    requires a in r.accounts && p in r.proxies
  {
    Rack(r.accounts[a := r.accounts[a].(proxyId := Some(p))],
         r.proxies[p := r.proxies[p].(assignedAccountId := Some(a))])
  }

  /** `assign_free_proxy`: an account that has a proxy keeps it. */
  function AssignFree(r: Rack, a: int): Rack
    requires a in r.accounts
  {
    if r.accounts[a].proxyId.Some? || NextFree(r.proxies).None? then r else Bound(r, a, NextFree(r.proxies).value)
  }

  /** `release_proxy`. */
  function Release(r: Rack, a: int): Rack
    requires a in r.accounts
  {
    match r.accounts[a].proxyId
    case None => r
    case Some(p) =>
      Rack(r.accounts[a := r.accounts[a].(proxyId := None)],
           if p in r.proxies then r.proxies[p := r.proxies[p].(assignedAccountId := None)] else r.proxies)
  }

  /** The proxy part of an account edit: which fields the caller sent. */
  datatype Selection = Absent | Present(proxyId: Option<int>)

  datatype Answer = Ok | NotFound | Conflict

  function Answered(r: Rack, a: int, assign: Option<bool>, selection: Selection): Answer {
    if assign == Some(false) || selection.Absent? || selection.proxyId.None? then Ok
    else
      var p := selection.proxyId.value;
      if p !in r.proxies then NotFound
      else if r.proxies[p].assignedAccountId.Some? && r.proxies[p].assignedAccountId != Some(a) then Conflict
      else Ok
  }

  /** An account edit; refused ones change nothing. */
  function Edited(r: Rack, a: int, assign: Option<bool>, selection: Selection): Rack
    requires a in r.accounts
  {
    if assign == Some(false) then Release(r, a)
    else if assign != Some(true) && selection.Absent? then r
    else if selection.Present? && selection.proxyId.Some? then
      if Answered(r, a, assign, selection).Ok? then Bound(Release(r, a), a, selection.proxyId.value) else r
    else AssignFree(r, a)
  }

  function Removed(r: Rack, a: int): Rack
    requires a in r.accounts
  {
    var s := Release(r, a);
    Rack(map x | x in s.accounts && x != a :: s.accounts[x], s.proxies)
  }

  /** One line of a pasted list. */
  datatype Line = Blank | Malformed(text: string) | Parsed(host: string, port: int)

  predicate Stored(proxies: Proxies, host: string, port: int) {
    exists p :: p in proxies && proxies[p].host == host && proxies[p].port == port
  }

  function NewProxy(host: string, port: int): Proxy {
    Proxy(host, port, true, Unknown, None)
  }

  datatype Importing = Importing(proxies: Proxies, next: int, seen: set<(string, int)>, imported: nat, skipped: nat,
                                 invalid: seq<string>)

  /** The import after a list of lines. The store is asked with the rows it had at the start: rows added
      by the import are not flushed, which is why the batch keeps its own record. */
  function Imported(start: Proxies, next: int, lines: seq<Line>): Importing {
    if lines == [] then Importing(start, next, {}, 0, 0, [])
    else
      var s := Imported(start, next, lines[..|lines| - 1]);
      match lines[|lines| - 1]
      case Blank => s
      case Malformed(text) => s.(invalid := s.invalid + [text])
      case Parsed(host, port) =>
        if (host, port) in s.seen || Stored(start, host, port) then s.(skipped := s.skipped + 1)
        else s.(proxies := s.proxies[s.next := NewProxy(host, port)], next := s.next + 1,
                seen := s.seen + {(host, port)}, imported := s.imported + 1)
  }

  // ----------------------------------------------------------------------- the code ---

  method AssignFreeProxy(db: Database, a: int) returns (proxy: Option<int>)
    requires a in db.accounts
    modifies db`accounts, db`proxies
    ensures Rack(db.accounts, db.proxies) == AssignFree(Rack(old(db.accounts), old(db.proxies)), a)
    ensures proxy == db.accounts[a].proxyId
  {
    if db.accounts[a].proxyId.Some? {
      return db.accounts[a].proxyId;
    }
    proxy := NextFree(db.proxies);
    if proxy.None? {
      return;
    }
    db.proxies := db.proxies[proxy.value := db.proxies[proxy.value].(assignedAccountId := Some(a))];
    db.accounts := db.accounts[a := db.accounts[a].(proxyId := proxy)];
  }

  method ReleaseProxy(db: Database, a: int)
    requires a in db.accounts
    modifies db`accounts, db`proxies
    ensures Rack(db.accounts, db.proxies) == Release(Rack(old(db.accounts), old(db.proxies)), a)
  {
    var held := db.accounts[a].proxyId;
    if held.None? {
      return;
    }
    if held.value in db.proxies {
      db.proxies := db.proxies[held.value := db.proxies[held.value].(assignedAccountId := None)];
    }
    db.accounts := db.accounts[a := db.accounts[a].(proxyId := None)];
  }

  method UpdateAccount(db: Database, a: int, assign: Option<bool>, selection: Selection) returns (answer: Answer)
    requires a in db.accounts
    modifies db`accounts, db`proxies
    ensures Rack(db.accounts, db.proxies) == Edited(Rack(old(db.accounts), old(db.proxies)), a, assign, selection)
    ensures answer == Answered(Rack(old(db.accounts), old(db.proxies)), a, assign, selection)
  {
    answer := Ok;
    if assign == Some(false) {
      ReleaseProxy(db, a);
    } else if assign == Some(true) || selection.Present? {
      if selection.Present? && selection.proxyId.Some? {
        var chosen := selection.proxyId.value;
        if chosen !in db.proxies {
          return NotFound;
        }
        if db.proxies[chosen].assignedAccountId.Some? && db.proxies[chosen].assignedAccountId.value != a {
          return Conflict;
        }
        // The account lets go of its proxy before it gets another.
        ReleaseProxy(db, a);
        db.proxies := db.proxies[chosen := db.proxies[chosen].(assignedAccountId := Some(a))];
        db.accounts := db.accounts[a := db.accounts[a].(proxyId := Some(chosen))];
      } else if db.accounts[a].proxyId.None? {
        var _ := AssignFreeProxy(db, a);
      }
    }
  }

  method DeleteAccount(db: Database, a: int)
    requires a in db.accounts
    modifies db`accounts, db`proxies
    ensures Rack(db.accounts, db.proxies) == Removed(Rack(old(db.accounts), old(db.proxies)), a)
  {
    ReleaseProxy(db, a);
    db.accounts := map x | x in db.accounts && x != a :: db.accounts[x];
  }

  method ImportProxies(db: Database, lines: seq<Line>)
      returns (imported: nat, skipped: nat, invalid: seq<string>, total: nat)
    modifies db`proxies, db`nextProxy
    ensures var s := Imported(old(db.proxies), old(db.nextProxy), lines);
      && db.proxies == s.proxies && db.nextProxy == s.next
      && imported == s.imported && skipped == s.skipped && invalid == s.invalid && total == |db.proxies|
  {
    var added, next, seen := db.proxies, db.nextProxy, {};
    imported, skipped, invalid := 0, 0, [];
    for i := 0 to |lines|
      invariant db.proxies == old(db.proxies) && db.nextProxy == old(db.nextProxy)
      invariant Importing(added, next, seen, imported, skipped, invalid)
          == Imported(db.proxies, db.nextProxy, lines[..i])
    {
      assert lines[..i + 1][..i] == lines[..i];
      match lines[i] {
        case Blank =>
        case Malformed(text) => invalid := invalid + [text];
        case Parsed(host, port) =>
          if (host, port) in seen || Stored(db.proxies, host, port) {
            skipped := skipped + 1;
          } else {
            seen := seen + {(host, port)};
            added := added[next := NewProxy(host, port)];
            next := next + 1;
            imported := imported + 1;
          }
      }
    }
    assert lines[..|lines|] == lines;
    db.proxies := added;
    db.nextProxy := next;
    total := |db.proxies|;
  }

  // --------------------------------------------------------------------------- laws ---

  /** Proxy `p` names account `a` exactly when `a` names `p`. */
  ghost predicate OneToOne(r: Rack) {
    && (forall a :: a in r.accounts && r.accounts[a].proxyId.Some? ==>
          r.accounts[a].proxyId.value in r.proxies
          && r.proxies[r.accounts[a].proxyId.value].assignedAccountId == Some(a))
    && (forall p :: p in r.proxies && r.proxies[p].assignedAccountId.Some? ==>
          r.proxies[p].assignedAccountId.value in r.accounts
          && r.accounts[r.proxies[p].assignedAccountId.value].proxyId == Some(p))
  }

  ghost predicate AddressesUnique(proxies: Proxies) {
    forall p, q ::
      p in proxies && q in proxies && proxies[p].host == proxies[q].host && proxies[p].port == proxies[q].port ==>
        p == q
  }

  ghost predicate SameAddresses(proxies: Proxies, later: Proxies) {
    proxies.Keys == later.Keys
    && forall p :: p in proxies ==> later[p].host == proxies[p].host && later[p].port == proxies[p].port
  }

  lemma ReleaseFrees(r: Rack, a: int)
    requires OneToOne(r) && a in r.accounts
    ensures OneToOne(Release(r, a)) && SameAddresses(r.proxies, Release(r, a).proxies)
    ensures var s := Release(r, a);
      && s.accounts.Keys == r.accounts.Keys && s.accounts[a].proxyId.None?
      && (forall p :: p in s.proxies ==> s.proxies[p].assignedAccountId != Some(a))
      && (forall p :: p in s.proxies && r.proxies[p].assignedAccountId != Some(a) ==> s.proxies[p] == r.proxies[p])
  {
  }

  lemma BindingKeeps(r: Rack, a: int, p: int)
    requires OneToOne(r) && a in r.accounts && p in r.proxies
    requires r.accounts[a].proxyId.None? && r.proxies[p].assignedAccountId.None?
    ensures OneToOne(Bound(r, a, p)) && SameAddresses(r.proxies, Bound(r, a, p).proxies)
  {
  }

  lemma AssignKeeps(r: Rack, a: int)
    requires OneToOne(r) && a in r.accounts
    ensures OneToOne(AssignFree(r, a)) && SameAddresses(r.proxies, AssignFree(r, a).proxies)
  {
    hide OneToOne, SameAddresses;
    if r.accounts[a].proxyId.None? && NextFree(r.proxies).Some? {
      BindingKeeps(r, a, NextFree(r.proxies).value);
    } else {
      SameIsSame(r.proxies);
    }
  }

  lemma SameIsSame(proxies: Proxies)
    ensures SameAddresses(proxies, proxies)
  {
  }

  lemma SameThenSame(a: Proxies, b: Proxies, c: Proxies)
    requires SameAddresses(a, b) && SameAddresses(b, c)
    ensures SameAddresses(a, c)
  {
  }

  /** The chosen proxy is free once the account's own was released, whether or not it was that one. */
  lemma ChosenIsFree(r: Rack, a: int, p: int)
    requires OneToOne(r) && a in r.accounts && p in r.proxies
    requires r.proxies[p].assignedAccountId.None? || r.proxies[p].assignedAccountId == Some(a)
    ensures p in Release(r, a).proxies && Release(r, a).proxies[p].assignedAccountId.None?
  {
  }

  lemma EditKeeps(r: Rack, a: int, assign: Option<bool>, selection: Selection)
    requires OneToOne(r) && a in r.accounts
    ensures OneToOne(Edited(r, a, assign, selection))
      && SameAddresses(r.proxies, Edited(r, a, assign, selection).proxies)
  {
    hide OneToOne, SameAddresses, Release, AssignFree, Bound;
    SameIsSame(r.proxies);
    ReleaseFrees(r, a);
    AssignKeeps(r, a);
    if selection.Present? && selection.proxyId.Some? && assign != Some(false) && Answered(r, a, assign, selection).Ok? {
      var s, p := Release(r, a), selection.proxyId.value;
      ChosenIsFree(r, a, p);
      BindingKeeps(s, a, p);
      SameThenSame(r.proxies, s.proxies, Bound(s, a, p).proxies);
    }
  }

  /** Choosing the proxy an account already holds changes nothing. */
  lemma ChoosingOwnChangesNothing(r: Rack, a: int, assign: Option<bool>)
    requires OneToOne(r) && a in r.accounts && r.accounts[a].proxyId.Some? && assign != Some(false)
    ensures Edited(r, a, assign, Present(r.accounts[a].proxyId)) == r
      && Answered(r, a, assign, Present(r.accounts[a].proxyId)).Ok?
  {
    var p := r.accounts[a].proxyId.value;
    var s := Release(r, a);
    assert s.accounts[a := s.accounts[a].(proxyId := Some(p))] == r.accounts;
    assert s.proxies[p := s.proxies[p].(assignedAccountId := Some(a))] == r.proxies;
  }

  lemma RemoveKeeps(r: Rack, a: int)
    requires OneToOne(r) && a in r.accounts
    ensures OneToOne(Removed(r, a)) && SameAddresses(r.proxies, Removed(r, a).proxies)
  {
    hide Release;
    ReleaseFrees(r, a);
  }

  ghost predicate ProxyIdsBelow(proxies: Proxies, next: int) {
    forall p :: p in proxies ==> p < next
  }

  /** The import so far: the stored rows are untouched, new ones are unassigned and their addresses are
      the ones seen, none of them stored before. */
  ghost predicate ImportSound(start: Proxies, s: Importing) {
    && ProxyIdsBelow(s.proxies, s.next)
    && (forall p :: p in start ==> p in s.proxies && s.proxies[p] == start[p])
    && (forall p :: p in s.proxies && p !in start ==>
          s.proxies[p].assignedAccountId.None? && (s.proxies[p].host, s.proxies[p].port) in s.seen)
    && (forall key :: key in s.seen ==> !Stored(start, key.0, key.1))
  }

  lemma {:induction false} ImportKeeps(start: Proxies, next: int, lines: seq<Line>)
    requires AddressesUnique(start) && ProxyIdsBelow(start, next)
    ensures var s := Imported(start, next, lines);
      && ImportSound(start, s) && AddressesUnique(s.proxies)
      && |s.proxies| == |start| + s.imported && s.next == next + s.imported
  {
    if lines == [] {
    } else {
      ImportKeeps(start, next, lines[..|lines| - 1]);
      var s := Imported(start, next, lines[..|lines| - 1]);
      var line := lines[|lines| - 1];
      assert s.next !in s.proxies;
      if line.Parsed? && (line.host, line.port) !in s.seen && !Stored(start, line.host, line.port) {
        AddressIsNew(start, s, line.host, line.port);
        AddKeepsUnique(s.proxies, s.next, NewProxy(line.host, line.port));
      }
    }
  }

  lemma AddressIsNew(start: Proxies, s: Importing, host: string, port: int)
    requires ImportSound(start, s) && (host, port) !in s.seen && !Stored(start, host, port)
    ensures !Stored(s.proxies, host, port)
  {
    forall p | p in s.proxies ensures !(s.proxies[p].host == host && s.proxies[p].port == port) {
      if p in start {
        assert s.proxies[p] == start[p];
      }
    }
  }

  lemma AddKeepsUnique(proxies: Proxies, id: int, p: Proxy)
    requires AddressesUnique(proxies) && !Stored(proxies, p.host, p.port)
    ensures AddressesUnique(proxies[id := p])
  {
  }

  lemma ImportKeepsOneToOne(r: Rack, next: int, lines: seq<Line>)
    requires OneToOne(r) && AddressesUnique(r.proxies) && ProxyIdsBelow(r.proxies, next)
    ensures OneToOne(Rack(r.accounts, Imported(r.proxies, next, lines).proxies))
  {
    ImportKeeps(r.proxies, next, lines);
    hide Imported, AddressesUnique;
  }

  /** Every address of an upload is in the pool afterwards, imported or already there. */
  lemma {:induction false} ImportCovers(start: Proxies, next: int, lines: seq<Line>, i: nat)
    requires AddressesUnique(start) && ProxyIdsBelow(start, next) && i < |lines| && lines[i].Parsed?
    ensures Stored(Imported(start, next, lines).proxies, lines[i].host, lines[i].port)
  {
    hide AddressesUnique, Imported, Stored;
    if i < |lines| - 1 {
      var front := lines[..|lines| - 1];
      ImportCovers(start, next, front, i);
      StoredStays(start, next, lines, lines[i].host, lines[i].port);
    } else {
      LineIsStored(start, next, lines);
    }
  }

  lemma StoredStays(start: Proxies, next: int, lines: seq<Line>, host: string, port: int)
    requires AddressesUnique(start) && ProxyIdsBelow(start, next) && lines != []
    requires Stored(Imported(start, next, lines[..|lines| - 1]).proxies, host, port)
    ensures Stored(Imported(start, next, lines).proxies, host, port)
  {
    var front := lines[..|lines| - 1];
    var s, r := Imported(start, next, front), Imported(start, next, lines);
    ImportKeeps(start, next, front);
    hide AddressesUnique;
    var p :| p in s.proxies && s.proxies[p].host == host && s.proxies[p].port == port;
    assert p != s.next;
    assert r.proxies[p] == s.proxies[p];
  }

  lemma LineIsStored(start: Proxies, next: int, lines: seq<Line>)
    requires AddressesUnique(start) && ProxyIdsBelow(start, next) && lines != [] && lines[|lines| - 1].Parsed?
    ensures var line := lines[|lines| - 1]; Stored(Imported(start, next, lines).proxies, line.host, line.port)
  {
    hide AddressesUnique, Stored;
    var front, line := lines[..|lines| - 1], lines[|lines| - 1];
    var s, r := Imported(start, next, front), Imported(start, next, lines);
    if (line.host, line.port) !in s.seen && !Stored(start, line.host, line.port) {
      assert r.proxies[s.next] == NewProxy(line.host, line.port);
      HasIsStored(r.proxies, s.next);
    } else {
      SeenIsStored(start, next, front);
      ImportKeeps(start, next, front);
      if Stored(start, line.host, line.port) {
        StaysStored(start, s.proxies, line.host, line.port);
      }
    }
  }

  lemma HasIsStored(proxies: Proxies, p: int)
    requires p in proxies
    ensures Stored(proxies, proxies[p].host, proxies[p].port)
  {
  }

  lemma StaysStored(start: Proxies, later: Proxies, host: string, port: int)
    requires Stored(start, host, port) && forall p :: p in start ==> p in later && later[p] == start[p]
    ensures Stored(later, host, port)
  {
    var p :| p in start && start[p].host == host && start[p].port == port;
    assert later[p] == start[p];
  }

  lemma {:induction false} SeenIsStored(start: Proxies, next: int, lines: seq<Line>)
    requires AddressesUnique(start) && ProxyIdsBelow(start, next)
    ensures var s := Imported(start, next, lines); forall key :: key in s.seen ==> Stored(s.proxies, key.0, key.1)
  {
    if lines == [] {
    } else {
      var front := lines[..|lines| - 1];
      SeenIsStored(start, next, front);
      ImportKeeps(start, next, front);
      var s, r := Imported(start, next, front), Imported(start, next, lines);
      forall key | key in r.seen ensures Stored(r.proxies, key.0, key.1) {
        if key in s.seen {
          StoredStays(start, next, lines, key.0, key.1);
        } else {
          assert r.proxies[s.next] == NewProxy(key.0, key.1);
        }
      }
    }
  }

  // --------------------------------------------------------------------- whole runs ---

  datatype Op =
    | CreateIt(id: int, account: Account, assign: bool)
    | EditIt(id: int, choice: Option<bool>, selection: Selection)
    | DeleteIt(id: int)
    | ImportIt(lines: seq<Line>)
    | HealthIt(proxy: int, health: Health, isActive: bool)

  datatype Pool = Pool(rack: Rack, next: int)

  /** What an operation does; a new account has a new id and no proxy. */
  function Apply(s: Pool, op: Op): Pool {
    match op
    case CreateIt(id, account, assign) =>
      if id in s.rack.accounts then s
      else
        var r := Rack(s.rack.accounts[id := account.(proxyId := None)], s.rack.proxies);
        s.(rack := if assign then AssignFree(r, id) else r)
    case EditIt(id, choice, selection) =>
      if id in s.rack.accounts then s.(rack := Edited(s.rack, id, choice, selection)) else s
    case DeleteIt(id) => if id in s.rack.accounts then s.(rack := Removed(s.rack, id)) else s
    case ImportIt(lines) =>
      var i := Imported(s.rack.proxies, s.next, lines);
      Pool(Rack(s.rack.accounts, i.proxies), i.next)
    case HealthIt(p, health, isActive) =>
      if p in s.rack.proxies then
        s.(rack := Rack(s.rack.accounts,
                        s.rack.proxies[p := s.rack.proxies[p].(health := health, isActive := isActive)]))
      else s
  }

  function Run(s: Pool, ops: seq<Op>): Pool {
    if ops == [] then s else Apply(Run(s, ops[..|ops| - 1]), ops[|ops| - 1])
  }

  ghost predicate Sound(s: Pool) {
    OneToOne(s.rack) && AddressesUnique(s.rack.proxies) && ProxyIdsBelow(s.rack.proxies, s.next)
  }

  lemma SameKeepsUnique(proxies: Proxies, later: Proxies, next: int)
    requires AddressesUnique(proxies) && ProxyIdsBelow(proxies, next) && SameAddresses(proxies, later)
    ensures AddressesUnique(later) && ProxyIdsBelow(later, next)
  {
  }

  lemma NewAccountKeeps(r: Rack, id: int, account: Account)
    requires OneToOne(r) && id !in r.accounts && account.proxyId.None?
    ensures OneToOne(Rack(r.accounts[id := account], r.proxies))
  {
  }

  lemma OpKeepsSound(s: Pool, op: Op)
    requires Sound(s)
    ensures Sound(Apply(s, op))
  {
    hide OneToOne, AddressesUnique, ProxyIdsBelow, SameAddresses, AssignFree, Edited, Removed, Imported;
    var r := s.rack;
    match op {
      case CreateIt(id, account, assign) =>
        if id !in r.accounts {
          var a := account.(proxyId := None);
          NewAccountKeeps(r, id, a);
          AssignKeeps(Rack(r.accounts[id := a], r.proxies), id);
          SameIsSame(r.proxies);
          SameKeepsUnique(r.proxies, Apply(s, op).rack.proxies, s.next);
        }
      case EditIt(id, choice, selection) =>
        if id in r.accounts {
          EditKeeps(r, id, choice, selection);
          SameKeepsUnique(r.proxies, Apply(s, op).rack.proxies, s.next);
        }
      case DeleteIt(id) =>
        if id in r.accounts {
          RemoveKeeps(r, id);
          SameKeepsUnique(r.proxies, Apply(s, op).rack.proxies, s.next);
        }
      case ImportIt(lines) =>
        ImportKeeps(r.proxies, s.next, lines);
        ImportKeepsOneToOne(r, s.next, lines);
      case HealthIt(p, health, isActive) =>
        if p in r.proxies {
          HealthKeeps(r, p, health, isActive);
          SameKeepsUnique(r.proxies, Apply(s, op).rack.proxies, s.next);
        }
    }
  }

  lemma HealthKeeps(r: Rack, p: int, health: Health, isActive: bool)
    requires OneToOne(r) && p in r.proxies
    ensures var later := r.proxies[p := r.proxies[p].(health := health, isActive := isActive)];
      OneToOne(Rack(r.accounts, later)) && SameAddresses(r.proxies, later)
  {
  }

  /** In every reachable state assignment is one-to-one and no address is in the pool twice. */
  lemma {:induction false} PoolStaysOneToOne(s: Pool, ops: seq<Op>)
    requires Sound(s)
    ensures Sound(Run(s, ops))
  {
    hide Sound, Apply;
    if ops == [] {
    } else {
      PoolStaysOneToOne(s, ops[..|ops| - 1]);
      OpKeepsSound(Run(s, ops[..|ops| - 1]), ops[|ops| - 1]);
    }
  }

  /** No two accounts share a proxy. */
  lemma NoSharedProxy(s: Pool, ops: seq<Op>, a: int, b: int)
    requires Sound(s)
    requires var r := Run(s, ops).rack;
      a in r.accounts && b in r.accounts && r.accounts[a].proxyId.Some?
      && r.accounts[a].proxyId == r.accounts[b].proxyId
    ensures a == b
  {
    PoolStaysOneToOne(s, ops);
  }
}
