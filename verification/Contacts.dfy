/** Contacts: normalising identifiers, the batch import with its two in-memory indexes, and the paths
    that check the store directly (create, edit, find-or-create, save an inbox peer). */
module ContactBook {
  import opened Core
  import opened Ordering
  import opened Models
  import opened Text

  // ------------------------------------------------------------------ normalising ---

  function NormalizePhone(value: Option<string>): Option<string> {
    if value.None? || Strip(value.value) == "" then None
    else
      var digits := DigitsOf(Strip(value.value));
      if digits == "" then None else Some("+" + digits)
  }

  function NormalizeUsername(value: Option<string>): Option<string> {
    if value.None? then None else NonEmpty(Lower(DropLeading(Strip(value.value), '@')))
  }

  const TRUE_VALUES := {"true", "1", "yes", "y", "t"}

  predicate ParseBool(value: Option<string>) {
    value.Some? && Lower(Strip(value.value)) in TRUE_VALUES
  }

  /** A free-text cell: stripped, and missing when nothing is left. */
  function CellText(value: Option<string>): Option<string> {
    if Given(value) then NonEmpty(Strip(value.value)) else None
  }

  function LeadTypeFor(phone: Option<string>): LeadType {
    if Given(phone) then PhoneLead else UsernameLead
  }

  function NewContact(name: Option<string>, phone: Option<string>, username: Option<string>, source: Option<string>,
                      consent: bool): Contact {
    Contact(name, LeadTypeFor(phone), phone, username, None, Unresolved, source, None, NewLead, consent, false, {},
            None)
  }

  // --------------------------------------------------------------------- uniqueness ---

  ghost predicate PhonesUnique(rows: Contacts) {
    forall a, b :: a in rows && b in rows && Given(rows[a].phone) && rows[a].phone == rows[b].phone ==> a == b
  }

  ghost predicate UsernamesUnique(rows: Contacts) {
    forall a, b :: a in rows && b in rows && Given(rows[a].username) && rows[a].username == rows[b].username ==> a == b
  }

  /** Ids below `next` are taken, the others are free. */
  ghost predicate IdsBelow(rows: Contacts, next: int) {
    forall c :: c in rows ==> c < next
  }

  // ------------------------------------------------------------------------- import ---

  /** One parsed row of an upload; converting an unreadable one raises. */
  datatype Row =
    | Row(name: Option<string>, phone: Option<string>, username: Option<string>, source: Option<string>,
          consent: Option<string>)
    | Unreadable

  type Index = map<string, int>

  datatype Tally = Tally(imported: nat, updated: nat, rejected: nat, invalid: nat, errors: nat)

  datatype Importing = Importing(rows: Contacts, next: int, byPhone: Index, byUsername: Index, tally: Tally)

  function Put(index: Index, key: Option<string>, id: int): Index {
    if Given(key) then index[key.value := id] else index
  }

  /** The contact a row refers to: by phone first, else by username. */
  function Matched(s: Importing, phone: Option<string>, username: Option<string>): Option<int> {
    if phone.Some? && phone.value in s.byPhone then Some(s.byPhone[phone.value])
    else if username.Some? && username.value in s.byUsername then Some(s.byUsername[username.value])
    else None
  }

  function Or(a: Option<string>, b: Option<string>): Option<string> {
    if a.Some? then a else b
  }

  /** An existing contact refreshed by a row. */
  function Refreshed(c: Contact, name: Option<string>, phone: Option<string>, username: Option<string>,
                     source: Option<string>): Contact {
    var d := c.(name := Or(name, c.name), phone := Or(phone, c.phone), username := Or(username, c.username),
                source := Or(source, c.source), consent := true);
    d.(leadType := LeadTypeFor(d.phone))
  }

  /** `errors` counts rows whose handling raised; nothing was changed by then. */
  function ImportRow(s: Importing, row: Row): Importing {
    if row.Unreadable? then s.(tally := s.tally.(errors := s.tally.errors + 1))
    else
      var phone, username := NormalizePhone(row.phone), NormalizeUsername(row.username);
      if phone.None? && username.None? then s.(tally := s.tally.(invalid := s.tally.invalid + 1))
      else if !ParseBool(row.consent) then s.(tally := s.tally.(rejected := s.tally.rejected + 1))
      else
        var name, source := CellText(row.name), CellText(row.source);
        var m := Matched(s, phone, username);
        if m.Some? && m.value in s.rows then
          var c := Refreshed(s.rows[m.value], name, phone, username, source);
          Importing(s.rows[m.value := c], s.next, Put(s.byPhone, c.phone, m.value),
                    Put(s.byUsername, c.username, m.value),
                    s.tally.(updated := s.tally.updated + 1))
        else
          Importing(s.rows[s.next := NewContact(name, phone, username, source, true)], s.next + 1,
                    Put(s.byPhone, phone, s.next), Put(s.byUsername, username, s.next),
                    s.tally.(imported := s.tally.imported + 1))
  }

  function ImportRows(s: Importing, rows: seq<Row>): Importing {
    if rows == [] then s else ImportRow(ImportRows(s, rows[..|rows| - 1]), rows[|rows| - 1])
  }

  /** The phone index of the first `k` of `ids`: a later contact takes over an earlier one's entry. */
  function PhoneIndex(rows: Contacts, ids: seq<int>, k: nat): Index
    requires k <= |ids|
  {
    if k == 0 then map[]
    else
      var index := PhoneIndex(rows, ids, k - 1);
      if ids[k - 1] in rows then Put(index, rows[ids[k - 1]].phone, ids[k - 1]) else index
  }

  function UsernameIndex(rows: Contacts, ids: seq<int>, k: nat): Index
    requires k <= |ids|
  {
    if k == 0 then map[]
    else
      var index := UsernameIndex(rows, ids, k - 1);
      if ids[k - 1] in rows then Put(index, rows[ids[k - 1]].username, ids[k - 1]) else index
  }

  /** An import about to start. */
  function Loaded(rows: Contacts, next: int): Importing {
    var ids := ById(rows.Keys);
    Importing(rows, next, PhoneIndex(rows, ids, |ids|), UsernameIndex(rows, ids, |ids|), Tally(0, 0, 0, 0, 0))
  }

  method ImportContacts(db: Database, rows: seq<Row>) returns (summary: Tally, total: nat)
    modifies db`contacts, db`nextContact
    ensures var s := ImportRows(Loaded(old(db.contacts), old(db.nextContact)), rows);
      db.contacts == s.rows && db.nextContact == s.next && summary == s.tally && total == |db.contacts|
  {
    hide NormalizePhone, NormalizeUsername, ParseBool, CellText, Refreshed, NewContact, ById;
    var ids := ById(db.contacts.Keys);
    var byPhone: Index, byUsername: Index := map[], map[];
    for k := 0 to |ids|
      invariant db.contacts == old(db.contacts) && db.nextContact == old(db.nextContact)
      invariant byPhone == PhoneIndex(db.contacts, ids, k)
      invariant byUsername == UsernameIndex(db.contacts, ids, k)
    {
      var c := db.contacts[ids[k]];
      if Given(c.phone) {
        byPhone := byPhone[c.phone.value := ids[k]];
      }
      if Given(c.username) {
        byUsername := byUsername[c.username.value := ids[k]];
      }
    }

    ghost var start := Loaded(db.contacts, db.nextContact);
    var imported, updated, rejected, invalid, errors := 0, 0, 0, 0, 0;
    for i := 0 to |rows|
      invariant Importing(db.contacts, db.nextContact, byPhone, byUsername,
                          Tally(imported, updated, rejected, invalid, errors))
             == ImportRows(start, rows[..i])
    {
      ghost var s := ImportRows(start, rows[..i]);
      assert rows[..i + 1][..i] == rows[..i];
      assert ImportRows(start, rows[..i + 1]) == ImportRow(s, rows[i]);
      var row := rows[i];
      if row.Unreadable? {
        errors := errors + 1;
        continue;
      }
      var phone, username := NormalizePhone(row.phone), NormalizeUsername(row.username);
      if phone.None? && username.None? {
        invalid := invalid + 1;
        continue;
      }
      if !ParseBool(row.consent) {
        rejected := rejected + 1;
        continue;
      }
      var name, source := CellText(row.name), CellText(row.source);
      var existing: Option<int> := None;
      if phone.Some? && phone.value in byPhone {
        existing := Some(byPhone[phone.value]);
      } else if username.Some? && username.value in byUsername {
        existing := Some(byUsername[username.value]);
      }
      if existing.Some? && existing.value in db.contacts {
        var id := existing.value;
        var c := Refreshed(db.contacts[id], name, phone, username, source);
        db.contacts := db.contacts[id := c];
        if Given(c.phone) {
          byPhone := byPhone[c.phone.value := id];
        }
        if Given(c.username) {
          byUsername := byUsername[c.username.value := id];
        }
        updated := updated + 1;
      } else {
        var id := db.nextContact;
        db.contacts := db.contacts[id := NewContact(name, phone, username, source, true)];
        db.nextContact := id + 1;
        byPhone := Put(byPhone, phone, id);
        byUsername := Put(byUsername, username, id);
        imported := imported + 1;
      }
    }
    assert rows[..|rows|] == rows;
    summary := Tally(imported, updated, rejected, invalid, errors);
    total := |db.contacts|;
  }

  // ------------------------------------------------------------ checking the store ---

  datatype Field = PhoneField | UsernameField

  predicate PhoneTaken(rows: Contacts, phone: Option<string>, exclude: Option<int>) {
    Given(phone) && exists c :: c in rows && rows[c].phone == phone && Some(c) != exclude
  }

  predicate UsernameTaken(rows: Contacts, username: Option<string>, exclude: Option<int>) {
    Given(username) && exists c :: c in rows && rows[c].username == username && Some(c) != exclude
  }

  /** `find_conflict`: phone is checked before username. */
  function FindConflict(rows: Contacts, phone: Option<string>, username: Option<string>,
                        exclude: Option<int>): Option<Field> {
    if PhoneTaken(rows, phone, exclude) then Some(PhoneField)
    else if UsernameTaken(rows, username, exclude) then Some(UsernameField)
    else None
  }

  /** The store after an operation and the contact it is about, or why it was refused. */
  datatype Outcome =
    | Stored(rows: Contacts, next: int, id: int)
    | Duplicate(field: Field)
    | NoIdentifier
    | Ambiguous

  function Added(rows: Contacts, next: int, c: Contact): Outcome {
    Stored(rows[next := c], next + 1, next)
  }

  function Create(rows: Contacts, next: int, name: Option<string>, phone: Option<string>, username: Option<string>,
                  source: Option<string>, consent: bool, tags: set<string>, notes: Option<string>): Outcome
  {
    var p, u := NormalizePhone(phone), NormalizeUsername(username);
    match FindConflict(rows, p, u, None)
    case Some(field) => Duplicate(field)
    case None => Added(rows, next, NewContact(name, p, u, source, consent).(tags := tags, notes := notes))
  }

  /** A field of an edit: left alone, or set to a value that may be missing. */
  datatype Change = Keep | SetTo(value: Option<string>)

  function Changed(change: Change, current: Option<string>): Option<string> {
    if change.Keep? then current else change.value
  }

  function Edit(rows: Contacts, next: int, id: int, name: Change, phone: Change, username: Change,
                source: Change, notes: Change): Outcome
    requires id in rows
  {
    var c := rows[id];
    var p := if phone.Keep? then Keep else SetTo(NormalizePhone(phone.value));
    var u := if username.Keep? then Keep else SetTo(NormalizeUsername(username.value));
    if !Given(Changed(p, c.phone)) && !Given(Changed(u, c.username)) then NoIdentifier
    else
      match FindConflict(rows, if p.Keep? then None else p.value, if u.Keep? then None else u.value, Some(id))
      case Some(field) => Duplicate(field)
      case None =>
        var d := c.(name := Changed(name, c.name), phone := Changed(p, c.phone), username := Changed(u, c.username),
                    source := Changed(source, c.source), notes := Changed(notes, c.notes));
        Stored(rows[id := d.(leadType := LeadTypeFor(d.phone))], next, id)
  }

  /** The lookups that raise when several rows match. */
  datatype Lookup = Nobody | One(id: int) | Several

  function Look(ids: set<int>): (r: Lookup)
    ensures r.One? ==> r.id in ids
  {
    if |ids| == 0 then Nobody else if |ids| == 1 then One(First(ids, Self(ids))) else Several
  }

  lemma NonEmptySet(ids: set<int>)
    requires |ids| > 0
    ensures ids != {}
  {
  }

  function ByPhone(rows: Contacts, p: string): set<int> {
    set c | c in rows && rows[c].phone == Some(p)
  }

  function ByUsername(rows: Contacts, u: string): set<int> {
    set c | c in rows && rows[c].username == Some(u)
  }

  function ByTelegramId(rows: Contacts, n: int): set<int> {
    set c | c in rows && rows[c].telegramUserId == Some(n)
  }

  function WithoutPlus(s: string): string {
    if s == "" then "" else if s[0] == '+' then WithoutPlus(s[1..]) else [s[0]] + WithoutPlus(s[1..])
  }

  /** `_find_or_create_contact`: a typed phone or username, found by its normal form or added with consent. */
  function FindOrCreate(rows: Contacts, next: int, identifier: string): Outcome {
    var ident := Strip(identifier);
    if ident == "" then NoIdentifier
    else if ident[0] == '+' || IsNumeral(WithoutPlus(ident)) then
      match NormalizePhone(Some(ident))
      case None => NoIdentifier
      case Some(p) =>
        (match Look(ByPhone(rows, p))
         case One(id) => Stored(rows, next, id)
         case Several => Ambiguous
         case Nobody => Added(rows, next, NewContact(None, Some(p), None, Some("add_members"), true)))
    else
      match NormalizeUsername(Some(ident))
      case None => NoIdentifier
      case Some(u) =>
        (match Look(ByUsername(rows, u))
         case One(id) => Stored(rows, next, id)
         case Several => Ambiguous
         case Nobody => Added(rows, next, NewContact(None, None, Some(u), Some("add_members"), true)))
  }

  /** `_norm_username` and the form in which a peer's username is looked up. */
  function PeerUsername(username: Option<string>): Option<string> {
    if Given(username) then NonEmpty(Lower(DropLeading(username.value, '@'))) else None
  }

  /** `_find_contact_by_peer`. */
  function FindByPeer(rows: Contacts, peerId: Option<int>, peerUsername: Option<string>): (r: Lookup)
    ensures r.One? ==> r.id in rows
  {
    var byId := if peerId.Some? then Look(ByTelegramId(rows, peerId.value)) else Nobody;
    if !byId.Nobody? then byId
    else if Given(peerUsername) then Look(ByUsername(rows, Lower(DropLeading(peerUsername.value, '@'))))
    else Nobody
  }

  /** What an operator may type when saving a peer. */
  datatype PeerDetails = PeerDetails(
    name: Option<string>, phone: Option<string>, username: Option<string>, source: Option<string>,
    stage: Option<Stage>, consent: Option<bool>)

  /** The contacts that carry a typed identifier. */
  function TypedMatches(rows: Contacts, phone: Option<string>, username: Option<string>): set<int> {
    set c | c in rows && ((Given(phone) && rows[c].phone == phone) || (Given(username) && rows[c].username == username))
  }

  /** The contact a save is about: one matching a typed identifier (`pick` stands for whichever row the
      query returns first), else the peer's own. */
  function SaveSubject(rows: Contacts, conv: Conversation, phone: Option<string>, username: Option<string>,
                       pick: int): (r: Lookup)
    ensures r.One? ==> r.id in rows
  {
    var typed := TypedMatches(rows, phone, username);
    if pick in typed then One(pick)
    else if |typed| > 0 then NonEmptySet(typed); One(First(typed, Self(typed)))
    else FindByPeer(rows, conv.peerId, conv.peerUsername)
  }

  function Typed(value: Option<string>): Option<string> {
    if Given(value) then value else None
  }

  /** `save_peer_as_contact`. */
  function SavePeer(rows: Contacts, next: int, conv: Conversation, d: PeerDetails, pick: int): Outcome {
    var phone, username := NormalizePhone(Typed(d.phone)), NormalizeUsername(Typed(d.username));
    match SaveSubject(rows, conv, phone, username, pick)
    case Several => Ambiguous
    case Nobody =>
      (match FindConflict(rows, phone, username, None)
       case Some(field) => Duplicate(field)
       case None =>
         var stage := match conv.status case At(s) => s case Blocked => Replied;
         Added(rows, next,
               NewContact(if Given(d.name) then d.name else conv.peerName, phone,
                          Or(username, PeerUsername(conv.peerUsername)),
                          Some(if Given(d.source) then d.source.value else "inbox"),
                          d.consent.Some? ==> d.consent.value)
               .(telegramUserId := conv.peerId,
                 resolution := if conv.peerId.Some? && conv.peerId.value != 0 then Resolved else Unresolved,
                 stage := if d.stage.Some? then d.stage.value else stage)))
    case One(id) =>
      (match FindConflict(rows, phone, username, Some(id))
       case Some(field) => Duplicate(field)
       case None =>
         var c := rows[id];
         var fill := c.telegramUserId.None? && conv.peerId.Some?;
         var e := c.(name := if Given(d.name) then d.name else c.name,
                     phone := Or(phone, c.phone), username := Or(username, c.username),
                     source := if Given(d.source) then d.source else c.source,
                     stage := if d.stage.Some? then d.stage.value else c.stage,
                     consent := if d.consent.Some? then d.consent.value else c.consent,
                     telegramUserId := if fill then conv.peerId else c.telegramUserId,
                     resolution := if fill then Resolved else c.resolution);
         Stored(rows[id := e.(leadType := LeadTypeFor(e.phone))], next, id))
  }

  // ---------------------------------------------------------------- the same, in place ---

  method CreateContact(db: Database, name: Option<string>, phone: Option<string>, username: Option<string>,
                       source: Option<string>, consent: bool, tags: set<string>, notes: Option<string>)
    returns (refused: Option<Field>, id: int)
    modifies db`contacts, db`nextContact
    ensures match Create(old(db.contacts), old(db.nextContact), name, phone, username, source, consent, tags, notes)
            case Stored(rows, next, stored) =>
              refused.None? && db.contacts == rows && db.nextContact == next && id == stored
            case Duplicate(field) =>
              refused == Some(field) && db.contacts == old(db.contacts) && db.nextContact == old(db.nextContact)
            case _ => false
  {
    hide NormalizePhone, NormalizeUsername, FindConflict;
    var p, u := NormalizePhone(phone), NormalizeUsername(username);
    id := db.nextContact;
    refused := FindConflict(db.contacts, p, u, None);
    if refused.Some? {
      return;
    }
    db.contacts := db.contacts[id := NewContact(name, p, u, source, consent).(tags := tags, notes := notes)];
    db.nextContact := id + 1;
  }

  /** `error`: neither identifier would remain, or another contact has one. */
  method EditContact(db: Database, id: int, name: Change, phone: Change, username: Change, source: Change,
                     notes: Change)
    returns (error: Option<Outcome>)
    requires id in db.contacts
    modifies db`contacts
    ensures match Edit(old(db.contacts), db.nextContact, id, name, phone, username, source, notes)
            case Stored(rows, _, _) => error.None? && db.contacts == rows
            case failure => error == Some(failure) && db.contacts == old(db.contacts)
  {
    hide NormalizePhone, NormalizeUsername, FindConflict;
    var contact := db.contacts[id];
    var p := if phone.Keep? then Keep else SetTo(NormalizePhone(phone.value));
    var u := if username.Keep? then Keep else SetTo(NormalizeUsername(username.value));
    var newPhone, newUsername := Changed(p, contact.phone), Changed(u, contact.username);
    if !Given(newPhone) && !Given(newUsername) {
      return Some(NoIdentifier);
    }
    var conflict := FindConflict(db.contacts, if p.Keep? then None else p.value, if u.Keep? then None else u.value,
                                 Some(id));
    if conflict.Some? {
      return Some(Duplicate(conflict.value));
    }
    contact := contact.(name := Changed(name, contact.name), phone := newPhone, username := newUsername,
                        source := Changed(source, contact.source), notes := Changed(notes, contact.notes));
    db.contacts := db.contacts[id := contact.(leadType := LeadTypeFor(contact.phone))];
    error := None;
  }

  /** The contact of a typed identifier; nothing when the text is no identifier. Several matches raise. */
  method FindOrCreateContact(db: Database, identifier: string) returns (found: Option<int>, raised: bool)
    modifies db`contacts, db`nextContact
    ensures match FindOrCreate(old(db.contacts), old(db.nextContact), identifier)
            case Stored(rows, next, id) => db.contacts == rows && db.nextContact == next && found == Some(id) && !raised
            case failure =>
              found.None? && raised == failure.Ambiguous? && db.contacts == old(db.contacts)
              && db.nextContact == old(db.nextContact)
  {
    hide NormalizePhone, NormalizeUsername, Strip, ByPhone, ByUsername, Look, IsNumeral;
    var ident := Strip(identifier);
    found, raised := None, false;
    if ident == "" {
      return;
    }
    var contact: Contact;
    if ident[0] == '+' || IsNumeral(WithoutPlus(ident)) {
      var phone := NormalizePhone(Some(ident));
      if phone.None? {
        return;
      }
      match Look(ByPhone(db.contacts, phone.value)) {
        case One(id) => return Some(id), false;
        case Several => return None, true;
        case Nobody => contact := NewContact(None, phone, None, Some("add_members"), true);
      }
    } else {
      var username := NormalizeUsername(Some(ident));
      if username.None? {
        return;
      }
      match Look(ByUsername(db.contacts, username.value)) {
        case One(id) => return Some(id), false;
        case Several => return None, true;
        case Nobody => contact := NewContact(None, None, username, Some("add_members"), true);
      }
    }
    found := Some(db.nextContact);
    db.contacts := db.contacts[db.nextContact := contact];
    db.nextContact := db.nextContact + 1;
  }

  /** Saving a peer also links the conversation to the contact. */
  method SavePeerAsContact(db: Database, conversationId: int, d: PeerDetails, pick: int)
      returns (error: Option<Outcome>)
    requires conversationId in db.conversations
    modifies db`contacts, db`nextContact, db`conversations
    ensures var conv := old(db.conversations[conversationId]);
      match SavePeer(old(db.contacts), old(db.nextContact), conv, d, pick)
      case Stored(rows, next, id) =>
        error.None? && db.contacts == rows && db.nextContact == next
        && db.conversations == old(db.conversations)[conversationId := conv.(contactId := Some(id))]
      case failure =>
        error == Some(failure) && db.contacts == old(db.contacts) && db.nextContact == old(db.nextContact)
        && db.conversations == old(db.conversations)
  {
    hide NormalizePhone, NormalizeUsername, FindConflict, SaveSubject, PeerUsername;
    var conversation := db.conversations[conversationId];
    var phone, username := NormalizePhone(Typed(d.phone)), NormalizeUsername(Typed(d.username));
    var subject := SaveSubject(db.contacts, conversation, phone, username, pick);
    if subject.Several? {
      return Some(Ambiguous);
    }
    var conflict := FindConflict(db.contacts, phone, username, if subject.One? then Some(subject.id) else None);
    if conflict.Some? {
      return Some(Duplicate(conflict.value));
    }
    var contact: Contact;
    var id := db.nextContact;
    if subject.Nobody? {
      var stage := match conversation.status case At(s) => s case Blocked => Replied;
      contact := NewContact(if Given(d.name) then d.name else conversation.peerName, phone,
                            Or(username, PeerUsername(conversation.peerUsername)),
                            Some(if Given(d.source) then d.source.value else "inbox"),
                            d.consent.None? || d.consent.value);
      contact := contact.(telegramUserId := conversation.peerId,
                          resolution := if conversation.peerId.Some? && conversation.peerId.value != 0 then Resolved
                                        else Unresolved,
                          stage := if d.stage.Some? then d.stage.value else stage);
      db.nextContact := id + 1;
    } else {
      id := subject.id;
      contact := db.contacts[id];
      contact := contact.(name := if Given(d.name) then d.name else contact.name,
                          phone := Or(phone, contact.phone), username := Or(username, contact.username),
                          source := if Given(d.source) then d.source else contact.source,
                          stage := if d.stage.Some? then d.stage.value else contact.stage,
                          consent := if d.consent.Some? then d.consent.value else contact.consent);
      if contact.telegramUserId.None? && conversation.peerId.Some? {
        contact := contact.(telegramUserId := conversation.peerId, resolution := Resolved);
      }
      contact := contact.(leadType := LeadTypeFor(contact.phone));
    }
    db.contacts := db.contacts[id := contact];
    db.conversations := db.conversations[conversationId := conversation.(contactId := Some(id))];
    error := None;
  }

  // ------------------------------------------------------------------ consent and stage ---

  /** Giving consent again clears the opt-out; taking it away leaves the opt-out as it is. */
  function WithConsent(c: Contact, consent: bool): Contact {
    c.(consent := consent, optedOut := if consent then false else c.optedOut)
  }

  /** `bulk_set_consent`: ids without a contact are passed over. */
  function SetConsent(rows: Contacts, ids: seq<int>, consent: bool): (r: Contacts)
    ensures r.Keys == rows.Keys
  {
    if ids == [] then rows
    else
      var before, id := SetConsent(rows, ids[..|ids| - 1], consent), ids[|ids| - 1];
      if id in before then before[id := WithConsent(before[id], consent)] else before
  }

  /** What a bulk change means for each contact. */
  lemma {:induction false} SetConsentMeans(rows: Contacts, ids: seq<int>, consent: bool, c: int)
    requires c in rows
    ensures SetConsent(rows, ids, consent)[c] == if c in ids then WithConsent(rows[c], consent) else rows[c]
  {
    if ids == [] {
    } else {
      SetConsentMeans(rows, ids[..|ids| - 1], consent, c);
      assert ids == ids[..|ids| - 1] + [ids[|ids| - 1]];
    }
  }

  function CountKnown(rows: Contacts, ids: seq<int>): nat {
    if ids == [] then 0
    else CountKnown(rows, ids[..|ids| - 1]) + if ids[|ids| - 1] in rows then 1 else 0
  }

  method BulkSetConsent(db: Database, ids: seq<int>, consent: bool) returns (count: nat)
    modifies db`contacts
    ensures db.contacts == SetConsent(old(db.contacts), ids, consent)
    ensures count == CountKnown(old(db.contacts), ids)
  {
    count := 0;
    for i := 0 to |ids|
      invariant db.contacts == SetConsent(old(db.contacts), ids[..i], consent)
      invariant count == CountKnown(old(db.contacts), ids[..i])
    {
      assert ids[..i + 1][..i] == ids[..i];
      var id := ids[i];
      if id !in db.contacts {
        continue;
      }
      var contact := db.contacts[id].(consent := consent);
      if consent {
        contact := contact.(optedOut := false);
      }
      db.contacts := db.contacts[id := contact];
      count := count + 1;
    }
    assert ids[..|ids|] == ids;
  }

  /** The part of a contact update beside the identity: fields that are given are set, and choosing the
      opted-out stage sets the flag too. */
  function Patched(c: Contact, stage: Option<Stage>, consent: Option<bool>, optedOut: Option<bool>): Contact {
    c.(stage := if stage.Some? then stage.value else c.stage,
       consent := if consent.Some? then consent.value else c.consent,
       optedOut := if stage == Some(OptedOut) then true else if optedOut.Some? then optedOut.value else c.optedOut)
  }

  /** An opt-out reply from the contact. */
  function OptedOutNow(c: Contact): Contact {
    c.(optedOut := true, stage := OptedOut)
  }

  /** The stage set through a conversation's status. */
  function Staged(c: Contact, status: Stage): Contact {
    c.(stage := status, optedOut := if status.OptedOut? then true else c.optedOut)
  }
}
