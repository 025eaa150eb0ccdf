/** Who is a member after a request, in terms of the fields of contacts and memberships and the typed texts. */
module Listings {
  import opened Core
  import opened Ordering
  import opened Models
  import opened Text
  import TextLaws
  import opened ContactBook
  import opened Destinations
  import ImportLaws
  import DestinationLaws

  // ---------------------------------------------------------------------- typed texts ---

  /** The stripped text begins with a plus, or holds nothing but digits and pluses. */
  ghost predicate LooksLikePhone(t: string) {
    t != "" && (t[0] == '+' || forall i :: 0 <= i < |t| ==> t[i] == '+' || '0' <= t[i] <= '9')
  }

  lemma {:induction false} WithoutPlusIs(t: string)
    ensures AllDigits(WithoutPlus(t)) <==> forall i :: 0 <= i < |t| ==> t[i] == '+' || '0' <= t[i] <= '9'
    ensures t != "" && t[0] != '+' ==> WithoutPlus(t) != ""
  {
    if t == "" {
    } else {
      WithoutPlusIs(t[1..]);
      assert t == [t[0]] + t[1..];
      var r, rest := WithoutPlus(t), WithoutPlus(t[1..]);
      if t[0] != '+' {
        assert r[1..] == rest && r[0] == t[0];
        assert AllDigits(r) <==> IsDigit(t[0]) && AllDigits(rest) by { ConsDigits(t[0], rest); }
      }
      assert forall i :: 0 <= i < |t[1..]| ==> t[1..][i] == t[i + 1];
      assert forall i :: 0 < i < |t| ==> t[i] == t[1..][i - 1];
    }
  }

  lemma ConsDigits(c: char, s: string)
    ensures AllDigits([c] + s) <==> IsDigit(c) && AllDigits(s)
  {
    var t := [c] + s;
    assert t[0] == c && forall i :: 0 < i < |t| ==> t[i] == s[i - 1];
    assert forall i :: 0 <= i < |s| ==> s[i] == t[i + 1];
  }

  lemma PhoneTyped(t: string)
    requires t != ""
    ensures t[0] == '+' || IsNumeral(WithoutPlus(t)) <==> LooksLikePhone(t)
  {
    WithoutPlusIs(t);
  }

  /** The typed text names contact `c`: by the digits of a phone, or by a username without its at signs. */
  ghost predicate Names(rows: Contacts, typed: string, c: int) {
    var t := Strip(typed);
    && c in rows && t != ""
    && if LooksLikePhone(t) then DigitsOf(t) != "" && rows[c].phone == Some("+" + DigitsOf(t))
       else DropLeading(t, '@') != "" && rows[c].username == Some(Lower(DropLeading(t, '@')))
  }

  lemma StrippedStays(s: string)
    ensures Strip(Strip(s)) == Strip(s)
  {
    var a, b := TextLaws.StripMeans(s);
    if Strip(s) != "" {
      NothingToStrip(Strip(s));
    }
  }

  lemma NamesIs(rows: Contacts, typed: string, c: int)
    ensures c in DestinationLaws.NamedBy(rows, typed) <==> Names(rows, typed, c)
  {
    var t := Strip(typed);
    StrippedStays(typed);
    if t != "" {
      PhoneTyped(t);
      ImportLaws.PhoneForm(Some(t));
      assert |Lower(DropLeading(t, '@'))| == |DropLeading(t, '@')|;
    }
    hide Strip, LooksLikePhone, DigitsOf, IsNumeral, WithoutPlus, NormalizePhone;
  }

  /** The typed text is an identifier at all. */
  ghost predicate IsIdentifier(typed: string) {
    var t := Strip(typed);
    t != "" && if LooksLikePhone(t) then DigitsOf(t) != "" else DropLeading(t, '@') != ""
  }

  /** Typing finds or adds a contact exactly for an identifier; the added one consents and has it as its only
      address. */
  lemma TypingIs(rows: Contacts, next: int, typed: string)
    requires next !in rows
    ensures var r := FindOrCreate(rows, next, typed);
      && (r.Stored? || r.Ambiguous? <==> IsIdentifier(typed))
      && (r.Stored? && r.next != next ==>
            && r.id == next && r.next == next + 1 && next in r.rows && r.rows == rows[next := r.rows[next]]
            && var d := r.rows[next];
               && d.consent && !d.optedOut && d.stage.NewLead? && d.source == Some("add_members") && d.name.None?
               && d.telegramUserId.None? && d.tags == {} && d.notes.None? && d.resolution.Unresolved?
               && d.lastContactedAt.None?
               && if LooksLikePhone(Strip(typed))
                  then d.phone == Some("+" + DigitsOf(Strip(typed))) && d.username.None? && d.leadType.PhoneLead?
                  else d.username == Some(Lower(DropLeading(Strip(typed), '@'))) && d.phone.None?
                       && d.leadType.UsernameLead?)
  {
    var t := Strip(typed);
    StrippedStays(typed);
    if t != "" {
      PhoneTyped(t);
      ImportLaws.PhoneForm(Some(t));
      assert |Lower(DropLeading(t, '@'))| == |DropLeading(t, '@')|;
    }
    hide Strip, LooksLikePhone, DigitsOf, IsNumeral, WithoutPlus, NormalizePhone, ByPhone, ByUsername;
  }

  // -------------------------------------------------------------------------- members ---

  ghost predicate IsMember(memberships: Memberships, c: int) {
    exists m :: m in memberships && memberships[m].contactId == c
  }

  lemma MemberIs(memberships: Memberships, c: int)
    ensures c in Members(memberships) <==> IsMember(memberships, c)
  {
  }

  /** The contacts of a request: those picked that may be written to, then those the typed texts found. */
  function Asked(rows: Contacts, ids: seq<int>, found: seq<int>): seq<int> {
    ById(Consenting(rows, ids)) + found
  }

  ghost predicate NamedSomewhere(rows: Contacts, identifiers: seq<string>, c: int) {
    exists i :: 0 <= i < |identifiers| && Names(rows, identifiers[i], c)
  }

  /** Members after a request, exactly, for a contact known before: it was one, or it was picked, consents and did not
      opt out, or a typed text names it. */
  lemma MembersExact(rows: Contacts, next: int, memberships: Memberships, nextMembership: int, ids: seq<int>,
                     identifiers: seq<string>, c: int)
    requires IdsBelow(rows, next) && (forall m :: m in memberships ==> m < nextMembership)
    requires Gather(rows, next, identifiers).Gathered? && c in rows
    ensures var contacts := Asked(rows, ids, Gather(rows, next, identifiers).found);
      var later := Listed(memberships, nextMembership, Newly(Members(memberships), contacts, |contacts|));
      IsMember(later, c)
      <==> (IsMember(memberships, c) || (c in ids && rows[c].consent && !rows[c].optedOut)
            || NamedSomewhere(rows, identifiers, c))
  {
    var g := Gather(rows, next, identifiers);
    var contacts := Asked(rows, ids, g.found);
    var queued := Newly(Members(memberships), contacts, |contacts|);
    DestinationLaws.NewlyIs(Members(memberships), contacts, |contacts|);
    assert contacts[..|contacts|] == contacts;
    DestinationLaws.MembersAfter(memberships, nextMembership, queued, c);
    MemberIs(memberships, c);
    MemberIs(Listed(memberships, nextMembership, queued), c);
    DestinationLaws.FoundExactly(rows, next, identifiers, c);
    NamedAlike(rows, identifiers, c);
    hide Gather, ById, Newly, Members, IsMember, NamedSomewhere, DestinationLaws.NamedByAny;
  }

  lemma NamedAlike(rows: Contacts, identifiers: seq<string>, c: int)
    ensures DestinationLaws.NamedByAny(rows, identifiers, c) <==> NamedSomewhere(rows, identifiers, c)
  {
    hide DestinationLaws.NamedBy, Names;
    forall i | 0 <= i < |identifiers|
      ensures c in DestinationLaws.NamedBy(rows, identifiers[i]) <==> Names(rows, identifiers[i], c)
    {
      NamesIs(rows, identifiers[i], c);
    }
  }

  /** How many of the typed texts are identifiers. */
  ghost function Identifiers(identifiers: seq<string>): nat {
    if identifiers == [] then 0
    else Identifiers(identifiers[..|identifiers| - 1]) + if IsIdentifier(identifiers[|identifiers| - 1]) then 1 else 0
  }

  lemma {:induction false} FoundCount(rows: Contacts, next: int, identifiers: seq<string>)
    requires IdsBelow(rows, next) && Gather(rows, next, identifiers).Gathered?
    ensures |Gather(rows, next, identifiers).found| == Identifiers(identifiers)
  {
    if identifiers == [] {
    } else {
      var front, last := identifiers[..|identifiers| - 1], identifiers[|identifiers| - 1];
      FoundCount(rows, next, front);
      DestinationLaws.GatherExtends(rows, next, front);
      var g := Gather(rows, next, front);
      assert g.next !in g.rows;
      TypingIs(g.rows, g.next, last);
      hide FindOrCreate, IsIdentifier, IdsBelow, DestinationLaws.Extends;
    }
  }

  /** The contacts asked for that consent and did not opt out. */
  ghost function Willing(rows: Contacts, ids: seq<int>): set<int> {
    set c | c in ids && c in rows && rows[c].consent && !rows[c].optedOut
  }

  /** What the request reports: queued is the number of members gained, all pending, under the next ids; skipped is
      what is left of the willing contacts and the identifiers. Old memberships stay. */
  lemma ReportIs(rows: Contacts, next: int, memberships: Memberships, nextMembership: int, ids: seq<int>,
                 identifiers: seq<string>)
    requires IdsBelow(rows, next) && (forall m :: m in memberships ==> m < nextMembership)
    requires Gather(rows, next, identifiers).Gathered?
    ensures var contacts := Asked(rows, ids, Gather(rows, next, identifiers).found);
      var queued := Newly(Members(memberships), contacts, |contacts|);
      var later := Listed(memberships, nextMembership, queued);
      && |later| == |memberships| + |queued|
      && |contacts| == |Willing(rows, ids)| + Identifiers(identifiers)
      && (forall m :: m in memberships ==> m in later && later[m] == memberships[m])
      && (forall m :: m in later && m !in memberships ==>
            && nextMembership <= m < nextMembership + |queued|
            && later[m].state.Pending? && later[m].accountId.None? && !IsMember(memberships, later[m].contactId))
  {
    var g := Gather(rows, next, identifiers);
    var contacts := Asked(rows, ids, g.found);
    var queued := Newly(Members(memberships), contacts, |contacts|);
    FoundCount(rows, next, identifiers);
    assert Consenting(rows, ids) == Willing(rows, ids);
    DestinationLaws.NewlyIs(Members(memberships), contacts, |contacts|);
    assert contacts[..|contacts|] == contacts;
    var later := Listed(memberships, nextMembership, queued);
    hide Gather, Newly, ById, Willing, Consenting;
    forall m ensures m in later <==> m in memberships || nextMembership <= m < nextMembership + |queued|
      ensures m in memberships ==> later[m] == memberships[m]
      ensures nextMembership <= m < nextMembership + |queued| ==>
        later[m] == Membership(queued[m - nextMembership], Pending, None)
    {
      DestinationLaws.ListedAt(memberships, nextMembership, queued, m);
    }
    ListedSize(memberships, nextMembership, queued);
    forall c | c in queued ensures !IsMember(memberships, c) {
      MemberIs(memberships, c);
    }
  }

  lemma {:induction false} ListedSize(memberships: Memberships, next: int, queued: seq<int>)
    requires forall m :: m in memberships ==> m < next
    ensures |Listed(memberships, next, queued)| == |memberships| + |queued|
  {
    if queued == [] {
    } else {
      var front := queued[..|queued| - 1];
      ListedSize(memberships, next, front);
      DestinationLaws.ListedAt(memberships, next, front, next + |front|);
    }
  }
}
