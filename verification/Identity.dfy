/** The contact book over whole runs of operations: phones and usernames stay unique, and an opt-out
    stays until somebody clears it. */
module Identity {
  import opened Core
  import opened Ordering
  import opened Models
  import opened Text
  import opened ContactBook
  import ContactLaws

  datatype Book = Book(rows: Contacts, next: int)

  /** What can happen to the book. `StopReply` is an opt-out reply from a known contact, `SetStatus` a
      conversation status set by an operator. */
  datatype Op =
    | CreateIt(name: Option<string>, phone: Option<string>, username: Option<string>, source: Option<string>,
               consent: bool, tags: set<string>, notes: Option<string>)
    | EditIt(id: int, newName: Change, newPhone: Change, newUsername: Change, newSource: Change, newNotes: Change)
    | SavePeerIt(conv: Conversation, details: PeerDetails, pick: int)
    | FindOrCreateIt(identifier: string)
    | ImportIt(upload: seq<Row>)
    | ConsentIt(ids: seq<int>, given: bool)
    | PatchIt(id: int, stage: Option<Stage>, consented: Option<bool>, optedOut: Option<bool>)
    | StopReply(id: int)
    | SetStatus(id: int, status: Stage)
    | ResolveIt(id: int, userId: Option<int>, resolution: Resolution)
    | DeleteIt(id: int)

  function After(b: Book, r: Outcome): Book {
    match r
    case Stored(rows, next, _) => Book(rows, next)
    case _ => b
  }

  function Apply(b: Book, op: Op): Book {
    match op
    case CreateIt(name, phone, username, source, consent, tags, notes) =>
      After(b, Create(b.rows, b.next, name, phone, username, source, consent, tags, notes))
    case EditIt(id, name, phone, username, source, notes) =>
      if id in b.rows then After(b, Edit(b.rows, b.next, id, name, phone, username, source, notes)) else b
    case SavePeerIt(conv, details, pick) => After(b, SavePeer(b.rows, b.next, conv, details, pick))
    case FindOrCreateIt(identifier) => After(b, FindOrCreate(b.rows, b.next, identifier))
    case ImportIt(upload) => var s := ImportRows(Loaded(b.rows, b.next), upload); Book(s.rows, s.next)
    case ConsentIt(ids, given) => b.(rows := SetConsent(b.rows, ids, given))
    case PatchIt(id, stage, consent, optedOut) =>
      if id in b.rows then b.(rows := b.rows[id := Patched(b.rows[id], stage, consent, optedOut)]) else b
    case StopReply(id) => if id in b.rows then b.(rows := b.rows[id := OptedOutNow(b.rows[id])]) else b
    case SetStatus(id, status) => if id in b.rows then b.(rows := b.rows[id := Staged(b.rows[id], status)]) else b
    case ResolveIt(id, userId, resolution) =>
      if id in b.rows then b.(rows := b.rows[id := b.rows[id].(telegramUserId := userId, resolution := resolution)])
      else b
    case DeleteIt(id) => b.(rows := map c | c in b.rows && c != id :: b.rows[c])
  }

  function Run(b: Book, ops: seq<Op>): Book {
    if ops == [] then b else Apply(Run(b, ops[..|ops| - 1]), ops[|ops| - 1])
  }

  // --------------------------------------------------------------------- uniqueness ---

  ghost predicate Unique(b: Book) {
    PhonesUnique(b.rows) && UsernamesUnique(b.rows) && IdsBelow(b.rows, b.next)
  }

  ghost predicate UniquePhones(b: Book) {
    PhonesUnique(b.rows) && IdsBelow(b.rows, b.next)
  }

  /** No contact but `id` has `phone`. */
  ghost predicate PhoneFree(rows: Contacts, phone: Option<string>, id: int) {
    Given(phone) ==> forall x :: x in rows && rows[x].phone == phone ==> x == id
  }

  ghost predicate UsernameFree(rows: Contacts, username: Option<string>, id: int) {
    Given(username) ==> forall x :: x in rows && rows[x].username == username ==> x == id
  }

  lemma StoreKeepsPhones(rows: Contacts, id: int, c: Contact)
    requires PhonesUnique(rows) && PhoneFree(rows, c.phone, id)
    ensures PhonesUnique(rows[id := c])
  {
  }

  lemma StoreKeepsUsernames(rows: Contacts, id: int, c: Contact)
    requires UsernamesUnique(rows) && UsernameFree(rows, c.username, id)
    ensures UsernamesUnique(rows[id := c])
  {
  }

  /** Without a conflict, what was typed is free for contact `id`. */
  lemma NoConflict(rows: Contacts, phone: Option<string>, username: Option<string>, id: int, exclude: Option<int>)
    requires FindConflict(rows, phone, username, exclude).None? && (exclude.Some? ==> exclude.value == id)
    ensures PhoneFree(rows, phone, id) && UsernameFree(rows, username, id)
  {
  }

  /** A contact's own phone and username are free for it. */
  lemma OwnAreFree(b: Book, id: int)
    requires UniquePhones(b) && id in b.rows
    ensures PhoneFree(b.rows, b.rows[id].phone, id)
    ensures UsernamesUnique(b.rows) ==> UsernameFree(b.rows, b.rows[id].username, id)
  {
  }

  /** `after` is the book with contact `c` stored as `id`, under a phone and a username nobody else has. */
  ghost predicate Stores(b: Book, after: Book, id: int, c: Contact) {
    && after.rows == b.rows[id := c]
    && (if id in b.rows then after.next == b.next else id == b.next && after.next == b.next + 1)
    && PhoneFree(b.rows, c.phone, id)
    && (UsernamesUnique(b.rows) ==> UsernameFree(b.rows, c.username, id))
  }

  ghost predicate StoresOne(b: Book, after: Book) {
    after == b || exists id, c :: Stores(b, after, id, c)
  }

  lemma StoreKeepsUnique(b: Book, after: Book)
    requires UniquePhones(b) && StoresOne(b, after)
    ensures UniquePhones(after) && (UsernamesUnique(b.rows) ==> UsernamesUnique(after.rows))
  {
    if after != b {
      var id, c :| Stores(b, after, id, c);
      StoreKeepsPhones(b.rows, id, c);
      if UsernamesUnique(b.rows) {
        StoreKeepsUsernames(b.rows, id, c);
      }
    }
  }

  lemma CreateStores(b: Book, op: Op)
    requires UniquePhones(b) && op.CreateIt?
    ensures StoresOne(b, Apply(b, op))
  {
    hide PhonesUnique, UsernamesUnique, PhoneFree, UsernameFree, FindConflict, NormalizePhone, NormalizeUsername;
    var p, u := NormalizePhone(op.phone), NormalizeUsername(op.username);
    if FindConflict(b.rows, p, u, None).None? {
      NoConflict(b.rows, p, u, b.next, None);
      var c := NewContact(op.name, p, u, op.source, op.consent).(tags := op.tags, notes := op.notes);
      assert Stores(b, Apply(b, op), b.next, c);
    }
  }

  lemma EditStores(b: Book, op: Op)
    requires UniquePhones(b) && op.EditIt?
    ensures StoresOne(b, Apply(b, op))
  {
    hide PhonesUnique, UsernamesUnique, PhoneFree, UsernameFree, FindConflict, NormalizePhone, NormalizeUsername;
    if op.id in b.rows {
      var p := if op.newPhone.Keep? then None else NormalizePhone(op.newPhone.value);
      var u := if op.newUsername.Keep? then None else NormalizeUsername(op.newUsername.value);
      OwnAreFree(b, op.id);
      if FindConflict(b.rows, p, u, Some(op.id)).None? && Apply(b, op) != b {
        NoConflict(b.rows, p, u, op.id, Some(op.id));
        assert Stores(b, Apply(b, op), op.id, Apply(b, op).rows[op.id]);
      }
    }
  }

  /** An identifier nobody was found by is free. */
  lemma NobodyHas(rows: Contacts, p: string, id: int)
    ensures Look(ByPhone(rows, p)).Nobody? ==> PhoneFree(rows, Some(p), id)
    ensures Look(ByUsername(rows, p)).Nobody? ==> UsernameFree(rows, Some(p), id)
  {
    if Look(ByPhone(rows, p)).Nobody? {
      assert ByPhone(rows, p) == {};
      assert forall x :: x in rows && rows[x].phone == Some(p) ==> x in ByPhone(rows, p);
    }
    if Look(ByUsername(rows, p)).Nobody? {
      assert ByUsername(rows, p) == {};
      assert forall x :: x in rows && rows[x].username == Some(p) ==> x in ByUsername(rows, p);
    }
  }

  lemma FindOrCreateStores(b: Book, op: Op)
    requires UniquePhones(b) && op.FindOrCreateIt?
    ensures StoresOne(b, Apply(b, op))
  {
    hide PhonesUnique, UsernamesUnique, NormalizePhone, NormalizeUsername, Look, ByPhone, ByUsername, Strip, IsNumeral;
    var r := FindOrCreate(b.rows, b.next, op.identifier);
    var ident := Strip(op.identifier);
    assert b.next !in b.rows;
    if r.Stored? && r.rows != b.rows {
      if NormalizePhone(Some(ident)).Some? {
        NobodyHas(b.rows, NormalizePhone(Some(ident)).value, b.next);
      }
      if NormalizeUsername(Some(ident)).Some? {
        NobodyHas(b.rows, NormalizeUsername(Some(ident)).value, b.next);
      }
      assert Stores(b, Apply(b, op), b.next, r.rows[b.next]);
    }
  }

  /** A peer that is no contact has a username nobody else has. */
  lemma PeerIsFree(rows: Contacts, conv: Conversation, id: int)
    requires FindByPeer(rows, conv.peerId, conv.peerUsername).Nobody?
    ensures UsernameFree(rows, PeerUsername(conv.peerUsername), id)
  {
    hide Look, ByUsername, ByTelegramId, UsernameFree;
    if Given(conv.peerUsername) {
      NobodyHas(rows, Lower(DropLeading(conv.peerUsername.value, '@')), id);
    }
    NoneIsFree(rows, id);
  }

  lemma NoneIsFree(rows: Contacts, id: int)
    ensures UsernameFree(rows, None, id) && PhoneFree(rows, None, id)
  {
  }

  lemma SubjectNobody(rows: Contacts, conv: Conversation, phone: Option<string>, username: Option<string>, pick: int)
    requires SaveSubject(rows, conv, phone, username, pick).Nobody?
    ensures FindByPeer(rows, conv.peerId, conv.peerUsername).Nobody?
  {
  }

  lemma SavePeerStores(b: Book, op: Op)
    requires UniquePhones(b) && op.SavePeerIt?
    ensures StoresOne(b, Apply(b, op))
  {
    hide PhonesUnique, UsernamesUnique, PhoneFree, UsernameFree, FindConflict, NormalizePhone, NormalizeUsername,
      SaveSubject, FindByPeer, PeerUsername;
    var conv, d := op.conv, op.details;
    var phone, username := NormalizePhone(Typed(d.phone)), NormalizeUsername(Typed(d.username));
    var subject := SaveSubject(b.rows, conv, phone, username, op.pick);
    var r := SavePeer(b.rows, b.next, conv, d, op.pick);
    if r.Stored? {
      if subject.Nobody? {
        NoConflict(b.rows, phone, username, b.next, None);
        SubjectNobody(b.rows, conv, phone, username, op.pick);
        PeerIsFree(b.rows, conv, b.next);
      } else {
        NoConflict(b.rows, phone, username, subject.id, Some(subject.id));
        OwnAreFree(b, subject.id);
      }
      assert Stores(b, Apply(b, op), r.id, r.rows[r.id]);
    }
  }

  /** A change that leaves every contact's phone and username alone. */
  lemma OthersKeepUnique(rows: Contacts, later: Contacts)
    requires later.Keys <= rows.Keys
    requires forall c :: c in later ==> later[c].phone == rows[c].phone && later[c].username == rows[c].username
    ensures PhonesUnique(rows) ==> PhonesUnique(later)
    ensures UsernamesUnique(rows) ==> UsernamesUnique(later)
    ensures forall next :: IdsBelow(rows, next) ==> IdsBelow(later, next)
  {
  }

  lemma OthersLeaveIdentity(b: Book, op: Op)
    requires op.ConsentIt? || op.PatchIt? || op.StopReply? || op.SetStatus? || op.ResolveIt? || op.DeleteIt?
    ensures var later := Apply(b, op).rows;
      && Apply(b, op).next == b.next && later.Keys <= b.rows.Keys
      && forall c :: c in later ==> later[c].phone == b.rows[c].phone && later[c].username == b.rows[c].username
  {
    if op.ConsentIt? {
      forall c | c in b.rows
        ensures var d := SetConsent(b.rows, op.ids, op.given)[c];
          d.phone == b.rows[c].phone && d.username == b.rows[c].username
      {
        SetConsentMeans(b.rows, op.ids, op.given, c);
      }
    }
  }

  /** A row of an upload matched by phone that carries another contact's username. */
  ghost predicate Clashes(b: Book, op: Op) {
    op.ImportIt? && exists i :: 0 <= i < |op.upload|
                      && ContactLaws.Clash(ContactLaws.Upto(b.rows, b.next, op.upload, i), op.upload[i])
  }

  lemma ImportKeepsUnique(b: Book, op: Op)
    requires UniquePhones(b) && op.ImportIt?
    ensures UniquePhones(Apply(b, op))
    ensures UsernamesUnique(b.rows) && !Clashes(b, op) ==> UsernamesUnique(Apply(b, op).rows)
  {
    hide PhonesUnique, UsernamesUnique, ContactLaws.Clash, ContactBook.ImportRows, ContactBook.Loaded;
    ContactLaws.ImportKeepsPhonesUnique(b.rows, b.next, op.upload);
    if UsernamesUnique(b.rows) && !Clashes(b, op) {
      ContactLaws.ImportUsernamesExact(b.rows, b.next, op.upload);
      assert UsernamesUnique(ContactLaws.Upto(b.rows, b.next, op.upload, |op.upload|).rows);
      assert op.upload[..|op.upload|] == op.upload;
    }
  }

  lemma OpKeepsUnique(b: Book, op: Op)
    requires UniquePhones(b)
    ensures UniquePhones(Apply(b, op))
    ensures UsernamesUnique(b.rows) && !Clashes(b, op) ==> UsernamesUnique(Apply(b, op).rows)
  {
    hide StoresOne, Apply, PhonesUnique, UsernamesUnique, Clashes;
    match op {
      case CreateIt(_, _, _, _, _, _, _) => CreateStores(b, op); StoreKeepsUnique(b, Apply(b, op));
      case EditIt(_, _, _, _, _, _) => EditStores(b, op); StoreKeepsUnique(b, Apply(b, op));
      case SavePeerIt(_, _, _) => SavePeerStores(b, op); StoreKeepsUnique(b, Apply(b, op));
      case FindOrCreateIt(_) => FindOrCreateStores(b, op); StoreKeepsUnique(b, Apply(b, op));
      case ImportIt(_) => ImportKeepsUnique(b, op);
      case _ => OthersLeaveIdentity(b, op); OthersKeepUnique(b.rows, Apply(b, op).rows);
    }
  }

  /** Phones stay unique under every sequence of operations, imports included. */
  lemma {:induction false} PhonesStayUnique(b: Book, ops: seq<Op>)
    requires UniquePhones(b)
    ensures UniquePhones(Run(b, ops))
  {
    hide Apply, UniquePhones;
    if ops == [] {
    } else {
      PhonesStayUnique(b, ops[..|ops| - 1]);
      OpKeepsUnique(Run(b, ops[..|ops| - 1]), ops[|ops| - 1]);
    }
  }

  /** Phone and username both stay unique under every sequence of creating, editing, saving inbox peers,
      finding or creating, consent, status and deletion, and of imports without a clashing row. */
  lemma {:induction false} IdentitiesStayUnique(b: Book, ops: seq<Op>)
    requires Unique(b)
    requires forall i :: 0 <= i < |ops| ==> !Clashes(Run(b, ops[..i]), ops[i])
    ensures Unique(Run(b, ops))
  {
    hide Apply, PhonesUnique, UsernamesUnique, Clashes;
    if ops == [] {
    } else {
      var front := ops[..|ops| - 1];
      forall i | 0 <= i < |front| ensures !Clashes(Run(b, front[..i]), front[i]) {
        assert front[..i] == ops[..i] && front[i] == ops[i];
      }
      IdentitiesStayUnique(b, front);
      OpKeepsUnique(Run(b, front), ops[|ops| - 1]);
    }
  }

  /** In particular under every sequence of operations without uploads. */
  lemma IdentitiesStayUniqueByHand(b: Book, ops: seq<Op>)
    requires Unique(b) && forall i :: 0 <= i < |ops| ==> !ops[i].ImportIt?
    ensures Unique(Run(b, ops))
  {
    hide Run, Unique;
    forall i | 0 <= i < |ops| ensures !Clashes(Run(b, ops[..i]), ops[i]) {
      assert !ops[i].ImportIt?;
    }
    IdentitiesStayUnique(b, ops);
  }

  /** When both typed identifiers match and belong to two contacts, whichever row the query returns first
      the save is refused; so that choice never decides anything but which duplicate is reported. */
  lemma FirstMatchDoesNotMatter(rows: Contacts, next: int, conv: Conversation, d: PeerDetails, x: int, y: int)
    requires PhonesUnique(rows) && UsernamesUnique(rows) && x != y
    requires var phone, username := NormalizePhone(Typed(d.phone)), NormalizeUsername(Typed(d.username));
      x in TypedMatches(rows, phone, username) && y in TypedMatches(rows, phone, username)
    ensures SavePeer(rows, next, conv, d, x).Duplicate? && SavePeer(rows, next, conv, d, y).Duplicate?
  {
    hide NormalizePhone, NormalizeUsername;
  }

  // ------------------------------------------------------------------------ opt-outs ---

  /** The operations that clear an opt-out of contact `c`: giving consent in bulk, un-ticking the flag, and
      deleting the contact. */
  predicate Clears(op: Op, c: int) {
    match op
    case ConsentIt(ids, given) => given && c in ids
    case PatchIt(id, stage, _, optedOut) => id == c && optedOut == Some(false) && stage != Some(OptedOut)
    case DeleteIt(id) => id == c
    case _ => false
  }

  /** An opt-out survives an operation exactly when the operation is none of those that clear it. */
  lemma OptOutSurvives(b: Book, op: Op, c: int)
    requires IdsBelow(b.rows, b.next) && c in b.rows && b.rows[c].optedOut
    ensures c in Apply(b, op).rows && Apply(b, op).rows[c].optedOut <==> !Clears(op, c)
  {
    hide NormalizePhone, NormalizeUsername, FindConflict, SaveSubject, PeerUsername, ImportRows, Look, Strip, IsNumeral;
    match op {
      case ImportIt(upload) => ContactLaws.ImportKeepsOptOuts(b.rows, b.next, upload);
      case ConsentIt(ids, given) => SetConsentMeans(b.rows, ids, given, c);
      case _ =>
    }
  }

  lemma OpKeepsIds(b: Book, op: Op)
    requires IdsBelow(b.rows, b.next)
    ensures IdsBelow(Apply(b, op).rows, Apply(b, op).next)
  {
    hide NormalizePhone, NormalizeUsername, FindConflict, SaveSubject, PeerUsername, ImportRows, Look, Strip, IsNumeral;
    if op.ImportIt? {
      ContactLaws.ImportKeepsOptOuts(b.rows, b.next, op.upload);
    }
  }
}
