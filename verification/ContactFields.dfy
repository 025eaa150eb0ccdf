/** What creating, editing and saving store, field by field, and when each is refused: over the fields of the rows. */
module ContactFields {
  import opened Core
  import opened Ordering
  import opened Models
  import opened Text
  import opened ContactBook

  // ------------------------------------------------------------------------- lookups ---

  /** A contact other than `but` has the phone; or the username. */
  ghost predicate PhoneUsed(rows: Contacts, phone: Option<string>, but: Option<int>) {
    phone.Some? && phone.value != "" && exists c :: c in rows && rows[c].phone == phone && but != Some(c)
  }

  ghost predicate UsernameUsed(rows: Contacts, username: Option<string>, but: Option<int>) {
    username.Some? && username.value != "" && exists c :: c in rows && rows[c].username == username && but != Some(c)
  }

  /** A conflict about the phone is found first. */
  lemma ConflictIs(rows: Contacts, phone: Option<string>, username: Option<string>, but: Option<int>)
    ensures var r := FindConflict(rows, phone, username, but);
      && (r == Some(PhoneField) <==> PhoneUsed(rows, phone, but))
      && (r == Some(UsernameField) <==> !PhoneUsed(rows, phone, but) && UsernameUsed(rows, username, but))
  {
    assert PhoneTaken(rows, phone, but) <==> PhoneUsed(rows, phone, but);
    assert UsernameTaken(rows, username, but) <==> UsernameUsed(rows, username, but);
  }

  lemma LookIs(ids: set<int>)
    ensures Look(ids).Nobody? <==> ids == {}
    ensures forall c :: Look(ids) == One(c) <==> ids == {c}
    ensures Look(ids).Several? <==> exists a, b :: a in ids && b in ids && a != b
  {
    if |ids| == 0 {
      assert ids == {};
    } else {
      NonEmptySet(ids);
      EmptyOrInhabited(ids);
      var a :| a in ids;
      var rest := ids - {a};
      assert ids == {a} + rest && |rest| == |ids| - 1;
      if |ids| == 1 {
        assert rest == {};
        assert ids == {a};
      } else {
        assert rest != {};
        EmptyOrInhabited(rest);
        var b :| b in rest;
        assert b in ids && a != b;
      }
    }
  }

  ghost predicate HasTelegramId(rows: Contacts, c: int, peerId: Option<int>) {
    c in rows && peerId.Some? && rows[c].telegramUserId == peerId
  }

  /** The peer's username, without at signs and in lower case, is the contact's. */
  ghost predicate HasPeerName(rows: Contacts, c: int, peerUsername: Option<string>) {
    c in rows && peerUsername.Some? && peerUsername.value != ""
    && rows[c].username == Some(Lower(DropLeading(peerUsername.value, '@')))
  }

  /** The contact of a peer, exactly: the only one with its Telegram id; when nobody has that, the only one with its
      username; two such contacts are an error. */
  lemma PeerIs(rows: Contacts, peerId: Option<int>, peerUsername: Option<string>)
    ensures var r, byId := FindByPeer(rows, peerId, peerUsername), exists c :: HasTelegramId(rows, c, peerId);
      && (r.Several? <==> if byId
                          then exists a, b :: HasTelegramId(rows, a, peerId) && HasTelegramId(rows, b, peerId) && a != b
                          else exists a, b :: HasPeerName(rows, a, peerUsername) && HasPeerName(rows, b, peerUsername)
                                 && a != b)
      && (r.One? ==> if byId then HasTelegramId(rows, r.id, peerId) else HasPeerName(rows, r.id, peerUsername))
      && (r.Nobody? <==> !byId && forall c :: !HasPeerName(rows, c, peerUsername))
  {
    if peerId.Some? {
      LookIs(ByTelegramId(rows, peerId.value));
      assert forall c :: c in ByTelegramId(rows, peerId.value) <==> HasTelegramId(rows, c, peerId);
    }
    if Given(peerUsername) {
      var u := Lower(DropLeading(peerUsername.value, '@'));
      LookIs(ByUsername(rows, u));
      assert forall c :: c in ByUsername(rows, u) <==> HasPeerName(rows, c, peerUsername);
    }
    hide Look, ByTelegramId, ByUsername;
  }

  // -------------------------------------------------------------------------- creating ---

  ghost predicate IsLead(c: Contact) {
    c.leadType.PhoneLead? <==> c.phone.Some? && c.phone.value != ""
  }

  /** Creating, exactly: refused for a phone or username in use, else one contact more, with everything as given. */
  lemma CreateIs(rows: Contacts, next: int, name: Option<string>, phone: Option<string>, username: Option<string>,
                 source: Option<string>, consent: bool, tags: set<string>, notes: Option<string>)
    ensures var p, u := NormalizePhone(phone), NormalizeUsername(username);
      var r := Create(rows, next, name, phone, username, source, consent, tags, notes);
      && (r == Duplicate(PhoneField) <==> PhoneUsed(rows, p, None))
      && (r == Duplicate(UsernameField) <==> !PhoneUsed(rows, p, None) && UsernameUsed(rows, u, None))
      && (r.Duplicate? || r.Stored?)
      && (r.Stored? ==>
            && r.id == next && r.next == next + 1 && next in r.rows && r.rows == rows[next := r.rows[next]]
            && IsLead(r.rows[next])
            && r.rows[next]
               == Contact(name, r.rows[next].leadType, p, u, None, Unresolved, source, notes, NewLead, consent,
                                       false, tags, None))
  {
    hide NormalizePhone, NormalizeUsername, PhoneUsed, UsernameUsed, FindConflict;
    ConflictIs(rows, NormalizePhone(phone), NormalizeUsername(username), None);
  }

  /** The field after an edit. */
  ghost function Chosen(change: Change, value: Option<string>, current: Option<string>): Option<string> {
    match change
    case Keep => current
    case SetTo(_) => value
  }

  ghost function SetValue(change: Change): Option<string> {
    match change
    case Keep => None
    case SetTo(value) => value
  }

  /** Editing, exactly: refused when no identifier would be left, or for one in use by another contact; else the
      fields sent are set, phone and username in normal form, and nothing else changes. */
  lemma EditIs(rows: Contacts, next: int, id: int, name: Change, phone: Change, username: Change, source: Change,
               notes: Change)
    requires id in rows
    ensures var r, c := Edit(rows, next, id, name, phone, username, source, notes), rows[id];
      var p, u := NormalizePhone(SetValue(phone)), NormalizeUsername(SetValue(username));
      var p', u' := Chosen(phone, p, c.phone), Chosen(username, u, c.username);
      var nameless := (p'.None? || p'.value == "") && (u'.None? || u'.value == "");
      && (r.NoIdentifier? <==> nameless)
      && (r == Duplicate(PhoneField) <==> !nameless && PhoneUsed(rows, p, Some(id)))
      && (r == Duplicate(UsernameField) <==>
            !nameless && !PhoneUsed(rows, p, Some(id)) && UsernameUsed(rows, u, Some(id)))
      && (r.Stored? || r.NoIdentifier? || r.Duplicate?)
      && (r.Stored? ==>
            && r.id == id && r.next == next && id in r.rows && r.rows == rows[id := r.rows[id]] && IsLead(r.rows[id])
            && r.rows[id] == c.(phone := p', username := u', leadType := r.rows[id].leadType,
                                name := Chosen(name, SetValue(name), c.name),
                                source := Chosen(source, SetValue(source), c.source),
                                notes := Chosen(notes, SetValue(notes), c.notes)))
  {
    assert NormalizePhone(None).None? && NormalizeUsername(None).None?;
    hide NormalizePhone, NormalizeUsername, PhoneUsed, UsernameUsed, FindConflict;
    ConflictIs(rows, NormalizePhone(SetValue(phone)), NormalizeUsername(SetValue(username)), Some(id));
  }

  // ---------------------------------------------------------------------- saving a peer ---

  ghost predicate TypedFor(rows: Contacts, c: int, phone: Option<string>, username: Option<string>) {
    c in rows && ((phone.Some? && phone.value != "" && rows[c].phone == phone)
                  || (username.Some? && username.value != "" && rows[c].username == username))
  }

  /** Whom a save is about, exactly: a contact with a typed identifier, the picked one if it has one; else the
      peer's own. */
  lemma SubjectIs(rows: Contacts, conv: Conversation, phone: Option<string>, username: Option<string>, pick: int)
    ensures var r := SaveSubject(rows, conv, phone, username, pick);
      if exists c :: TypedFor(rows, c, phone, username)
      then r.One? && TypedFor(rows, r.id, phone, username) && (TypedFor(rows, pick, phone, username) ==> r.id == pick)
      else r == FindByPeer(rows, conv.peerId, conv.peerUsername)
  {
    hide FindByPeer;
    var typed := TypedMatches(rows, phone, username);
    assert forall c :: c in typed <==> TypedFor(rows, c, phone, username);
    if |typed| > 0 {
      NonEmptySet(typed);
    } else {
      assert typed == {};
    }
  }

  ghost function Nonblank(s: Option<string>): Option<string> {
    if s == Some("") then None else s
  }

  ghost function OrElse(s: Option<string>, t: Option<string>): Option<string> {
    if s.Some? then s else t
  }

  /** A contact as saving a peer adds it: what was typed, else what the conversation knows; consent unless refused. */
  ghost predicate AddedFor(c: Contact, conv: Conversation, d: PeerDetails) {
    var p, u := NormalizePhone(Nonblank(d.phone)), NormalizeUsername(Nonblank(d.username));
    && c.name == OrElse(Nonblank(d.name), conv.peerName) && c.phone == p
    && c.username == OrElse(u, PeerUsername(conv.peerUsername))
    && c.source == OrElse(Nonblank(d.source), Some("inbox"))
    && c.consent == (d.consent != Some(false)) && !c.optedOut
    && c.telegramUserId == conv.peerId
    && c.resolution == (if conv.peerId.None? || conv.peerId == Some(0) then Unresolved else Resolved)
    && c.stage == (if d.stage.Some? then d.stage.value else if conv.status.At? then conv.status.stage else Replied)
    && IsLead(c) && c.tags == {} && c.notes.None? && c.lastContactedAt.None?
  }

  /** A known contact as saving a peer leaves it: what was typed is taken over, a missing Telegram id is filled in. */
  ghost predicate UpdatedFor(c: Contact, e: Contact, conv: Conversation, d: PeerDetails) {
    var p, u := NormalizePhone(Nonblank(d.phone)), NormalizeUsername(Nonblank(d.username));
    var fills := c.telegramUserId.None? && conv.peerId.Some?;
    && IsLead(e)
    && e == c.(name := OrElse(Nonblank(d.name), c.name), phone := OrElse(p, c.phone), username := OrElse(u, c.username),
               source := OrElse(Nonblank(d.source), c.source), leadType := e.leadType,
               stage := if d.stage.Some? then d.stage.value else c.stage,
               consent := if d.consent.Some? then d.consent.value else c.consent,
               telegramUserId := if fills then conv.peerId else c.telegramUserId,
               resolution := if fills then Resolved else c.resolution)
  }

  /** Saving a peer, exactly: an error when its contact is not clear, refused for an identifier another contact has,
      else its contact is updated, or one is added. */
  lemma SaveIs(rows: Contacts, next: int, conv: Conversation, d: PeerDetails, pick: int)
    ensures var p, u := NormalizePhone(Nonblank(d.phone)), NormalizeUsername(Nonblank(d.username));
      var r, subject := SavePeer(rows, next, conv, d, pick), SaveSubject(rows, conv, p, u, pick);
      var own := if subject.One? then Some(subject.id) else None;
      && (r.Ambiguous? <==> subject.Several?)
      && (r == Duplicate(PhoneField) <==> !subject.Several? && PhoneUsed(rows, p, own))
      && (r == Duplicate(UsernameField)
          <==> !subject.Several? && !PhoneUsed(rows, p, own) && UsernameUsed(rows, u, own))
      && (r.Stored? || r.Ambiguous? || r.Duplicate?)
      && (r.Stored? ==> r.id in r.rows && r.rows == rows[r.id := r.rows[r.id]])
      && (r.Stored? && subject.Nobody? ==> r.id == next && r.next == next + 1 && AddedFor(r.rows[next], conv, d))
      && (r.Stored? && subject.One? ==>
            r.id == subject.id && r.id in rows && r.next == next && UpdatedFor(rows[r.id], r.rows[r.id], conv, d))
  {
    hide NormalizePhone, NormalizeUsername, PhoneUsed, UsernameUsed, FindConflict, SaveSubject, PeerUsername;
    var p, u := NormalizePhone(Nonblank(d.phone)), NormalizeUsername(Nonblank(d.username));
    assert Typed(d.phone) == Nonblank(d.phone) && Typed(d.username) == Nonblank(d.username);
    var subject := SaveSubject(rows, conv, p, u, pick);
    ConflictIs(rows, p, u, if subject.One? then Some(subject.id) else None);
  }

  /** The stored form of a peer's username. */
  lemma PeerNameIs(username: Option<string>)
    ensures PeerUsername(username).Some?
       <==> username.Some? && exists i :: 0 <= i < |username.value| && username.value[i] != '@'
    ensures PeerUsername(username).Some? ==> PeerUsername(username) == Some(Lower(DropLeading(username.value, '@')))
  {
    if username.Some? {
      SomethingLeft(username.value, '@');
    }
  }

  lemma {:induction false} SomethingLeft(s: string, c: char)
    ensures DropLeading(s, c) != "" <==> exists i :: 0 <= i < |s| && s[i] != c
  {
    if s == "" {
    } else {
      SomethingLeft(s[1..], c);
      assert s == [s[0]] + s[1..];
    }
  }

  // ---------------------------------------------------------------- consent and stage ---

  /** Consent set in bulk, exactly, and how many contacts it counts. */
  lemma ConsentIs(rows: Contacts, ids: seq<int>, consent: bool, c: int)
    requires c in rows
    ensures SetConsent(rows, ids, consent)[c]
         == if c !in ids then rows[c]
            else if consent then rows[c].(consent := true, optedOut := false) else rows[c].(consent := false)
  {
    SetConsentMeans(rows, ids, consent, c);
  }

  /** The ids of known contacts are counted as often as they are given. */
  lemma {:induction false} KnownCount(rows: Contacts, ids: seq<int>)
    ensures CountKnown(rows, ids) == |set i | 0 <= i < |ids| && ids[i] in rows|
  {
    var known := set i | 0 <= i < |ids| && ids[i] in rows;
    if ids == [] {
      assert known == {};
    } else {
      var front, last := ids[..|ids| - 1], |ids| - 1;
      KnownCount(rows, front);
      var before := set i | 0 <= i < |front| && front[i] in rows;
      assert forall i :: 0 <= i < |front| ==> front[i] == ids[i];
      assert known == before + (if ids[last] in rows then {last} else {});
    }
  }

  /** What an edit of stage and flags, an opt-out reply and a status set by an operator do to a contact. */
  lemma FlagsAre(c: Contact, stage: Option<Stage>, consent: Option<bool>, optedOut: Option<bool>, status: Stage)
    ensures Patched(c, stage, consent, optedOut)
         == c.(stage := if stage.None? then c.stage else stage.value,
               consent := if consent.None? then c.consent else consent.value,
               optedOut := stage == Some(OptedOut) || (if optedOut.None? then c.optedOut else optedOut.value))
    ensures OptedOutNow(c) == c.(stage := OptedOut, optedOut := true)
    ensures Staged(c, status) == c.(stage := status, optedOut := c.optedOut || status == OptedOut)
  {
  }
}
