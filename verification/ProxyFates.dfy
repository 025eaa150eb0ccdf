/** Which proxy an account gets and what an import reports, over the fields of the rows. */
module ProxyFates {
  import opened Core
  import opened Ordering
  import opened Models
  import opened ProxyPool

  /** The proxy is active, not known dead and not taken. */
  ghost predicate Free(proxies: Proxies, p: int) {
    && p in proxies && proxies[p].isActive && proxies[p].assignedAccountId.None?
    && (proxies[p].health == HealthOk || proxies[p].health == Unknown)
  }

  ghost predicate LowestFree(proxies: Proxies, p: int) {
    Free(proxies, p) && forall q :: Free(proxies, q) ==> p <= q
  }

  /** Both rows of an assignment, and no others, are written. */
  ghost predicate Takes(r: Rack, s: Rack, a: int, p: int) {
    && a in r.accounts && p in r.proxies
    && s.accounts == r.accounts[a := r.accounts[a].(proxyId := Some(p))]
    && s.proxies == r.proxies[p := r.proxies[p].(assignedAccountId := Some(a))]
  }

  /** Assignment, exactly: an account with a proxy keeps it; else it takes the free one with the lowest id, if any. */
  lemma AssignIs(r: Rack, a: int)
    requires a in r.accounts
    ensures var s := AssignFree(r, a);
      && (r.accounts[a].proxyId.Some? ==> s == r)
      && ((forall p :: !Free(r.proxies, p)) ==> s == r)
      && (forall p :: r.accounts[a].proxyId.None? && LowestFree(r.proxies, p) ==>
            Takes(r, s, a, p))
  {
    assert forall p :: p in FreeSet(r.proxies) <==> Free(r.proxies, p);
    if NextFree(r.proxies).None? {
      assert FreeSet(r.proxies) == {};
    }
  }

  /** Both rows of an assignment are cleared, and no others. */
  ghost predicate LetsGo(r: Rack, s: Rack, a: int) {
    a in r.accounts
    && match r.accounts[a].proxyId
       case None => s == r
       case Some(p) =>
         && s.accounts == r.accounts[a := r.accounts[a].(proxyId := None)]
         && s.proxies.Keys == r.proxies.Keys
         && forall q :: q in r.proxies ==>
              s.proxies[q] == if q == p then r.proxies[q].(assignedAccountId := None) else r.proxies[q]
  }

  lemma ReleaseIs(r: Rack, a: int)
    requires a in r.accounts
    ensures LetsGo(r, Release(r, a), a)
  {
  }

  /** An account edit, exactly: releasing comes first; a proxy that is not there or is another account's is refused
      and changes nothing; one that may be chosen replaces the account's own; asking for one without choosing
      assigns; and an edit that asks for nothing changes nothing. */
  lemma EditIs(r: Rack, a: int, assign: Option<bool>, selection: Selection)
    requires a in r.accounts
    ensures var s, answer := Edited(r, a, assign, selection), ProxyPool.Answered(r, a, assign, selection);
      var releases := assign == Some(false);
      var chooses := !releases && selection.Present? && selection.proxyId.Some?;
      && (releases ==> answer.Ok? && LetsGo(r, s, a))
      && (chooses ==>
            var p := selection.proxyId.value;
            && (answer.NotFound? <==> p !in r.proxies)
            && (answer.Conflict? <==> p in r.proxies && r.proxies[p].assignedAccountId.Some?
                                      && r.proxies[p].assignedAccountId.value != a)
            && (!answer.Ok? ==> s == r)
            && (answer.Ok? ==> LetsGo(r, Release(r, a), a) && Takes(Release(r, a), s, a, p)))
      && (!releases && !chooses ==> answer.Ok?)
      && (!releases && !chooses && (assign == Some(true) || selection.Present?) ==> s == AssignFree(r, a))
      && (assign.None? && selection.Absent? ==> s == r)
  {
    ReleaseIs(r, a);
    hide AssignFree;
  }

  /** Deleting: the account lets go of its proxy and is gone; the other accounts stay. */
  lemma DeleteIs(r: Rack, a: int)
    requires a in r.accounts
    ensures var s := Removed(r, a);
      && s.accounts.Keys == r.accounts.Keys - {a}
      && (forall x :: x in r.accounts && x != a ==> s.accounts[x] == r.accounts[x])
      && s.proxies == Release(r, a).proxies && LetsGo(r, Release(r, a), a)
  {
    ReleaseIs(r, a);
  }

  // --------------------------------------------------------------------------- imports ---

  ghost function Lines(lines: seq<Line>): nat {
    if lines == [] then 0
    else Lines(lines[..|lines| - 1]) + if lines[|lines| - 1].Parsed? then 1 else 0
  }

  /** The texts that could not be read, in order. */
  ghost function Unreadable(lines: seq<Line>): seq<string> {
    if lines == [] then []
    else
      match lines[|lines| - 1]
      case Malformed(text) => Unreadable(lines[..|lines| - 1]) + [text]
      case _ => Unreadable(lines[..|lines| - 1])
  }

  /** What an import reports: every address is added or skipped, and texts that are none are listed. */
  lemma {:induction false} ImportReports(start: Proxies, next: int, lines: seq<Line>)
    ensures var s := Imported(start, next, lines);
      s.imported + s.skipped == Lines(lines) && s.invalid == Unreadable(lines)
  {
    hide Stored;
    if lines == [] {
    } else {
      ImportReports(start, next, lines[..|lines| - 1]);
    }
  }

  /** The row is active, of unknown health, unassigned, and carries the address of some line. */
  ghost predicate NewRow(lines: seq<Line>, p: Proxy) {
    p.isActive && p.health.Unknown? && p.assignedAccountId.None? && Parsed(p.host, p.port) in lines
  }

  /** Every row an import adds is such, under the next ids. */
  lemma {:induction false} ImportAdds(start: Proxies, next: int, lines: seq<Line>)
    ensures var s := Imported(start, next, lines);
      && next <= s.next
      && forall p :: p in s.proxies && p !in start ==> next <= p < s.next && NewRow(lines, s.proxies[p])
  {
    hide Stored, NewRow;
    if lines == [] {
    } else {
      var front, line := lines[..|lines| - 1], lines[|lines| - 1];
      var s := Imported(start, next, front);
      assert lines == front + [line];
      ImportAdds(start, next, front);
      forall p | p in s.proxies && p !in start ensures NewRow(lines, s.proxies[p]) {
        NewRowStays(front, line, s.proxies[p]);
      }
      if line.Parsed? {
        NewRowHere(lines, line.host, line.port);
      }
    }
  }

  lemma NewRowStays(front: seq<Line>, line: Line, p: Proxy)
    requires NewRow(front, p)
    ensures NewRow(front + [line], p)
  {
  }

  lemma NewRowHere(lines: seq<Line>, host: string, port: int)
    requires Parsed(host, port) in lines
    ensures NewRow(lines, NewProxy(host, port))
  {
  }
}
