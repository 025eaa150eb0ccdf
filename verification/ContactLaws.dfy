/** Identity laws of the contact book: the import keeps phones unique through stale index entries, what
    it does to usernames exactly, and uniqueness under every sequence of the other operations. */
module ContactLaws {
  import opened Core
  import opened Ordering
  import opened Models
  import opened Text
  import opened ContactBook

  // ------------------------------------------------------------------------- import ---

  /** Every contact with a phone is the one the index points to. */
  ghost predicate PhonePointed(rows: Contacts, index: Index) {
    forall c :: c in rows && Given(rows[c].phone) ==> rows[c].phone.value in index && index[rows[c].phone.value] == c
  }

  ghost predicate UsernamePointed(rows: Contacts, index: Index) {
    forall c :: c in rows && Given(rows[c].username) ==>
      rows[c].username.value in index && index[rows[c].username.value] == c
  }

  /** Entries may be stale, but they always point to a contact. */
  ghost predicate Points(rows: Contacts, index: Index) {
    forall key :: key in index ==> index[key] in rows
  }

  ghost predicate PhoneIndexed(s: Importing) {
    && PhonePointed(s.rows, s.byPhone)
    && Points(s.rows, s.byPhone) && Points(s.rows, s.byUsername)
    && IdsBelow(s.rows, s.next)
  }

  lemma PointedIsUnique(rows: Contacts, index: Index)
    ensures PhonePointed(rows, index) ==> PhonesUnique(rows)
    ensures UsernamePointed(rows, index) ==> UsernamesUnique(rows)
  {
  }

  lemma NormalForms(value: Option<string>)
    ensures NormalizePhone(value).Some? ==> Given(NormalizePhone(value)) && NormalizePhone(value).value[0] == '+'
    ensures NormalizeUsername(value).Some? ==> Given(NormalizeUsername(value))
  {
  }

  /** Storing contact `id` with phone `key` in the table and the index keeps them in step, when no other
      contact has that phone. */
  lemma PutPhone(rows: Contacts, index: Index, id: int, c: Contact)
    requires PhonePointed(rows, index)
    requires Given(c.phone) ==> forall x :: x in rows && rows[x].phone == c.phone ==> x == id
    ensures PhonePointed(rows[id := c], Put(index, c.phone, id))
  {
  }

  lemma PutUsername(rows: Contacts, index: Index, id: int, c: Contact)
    requires UsernamePointed(rows, index)
    requires Given(c.username) ==> forall x :: x in rows && rows[x].username == c.username ==> x == id
    ensures UsernamePointed(rows[id := c], Put(index, c.username, id))
  {
  }

  lemma PutPoints(rows: Contacts, index: Index, key: Option<string>, id: int, c: Contact)
    requires Points(rows, index)
    ensures Points(rows[id := c], index) && Points(rows[id := c], Put(index, key, id))
  {
  }

  /** The rows that change the book: readable, identified and consented. */
  ghost predicate Accepted(row: Row) {
    row.Row? && (NormalizePhone(row.phone).Some? || NormalizeUsername(row.username).Some?) && ParseBool(row.consent)
  }

  /** The contact an accepted row is stored as, and its id. */
  ghost function StoredAs(s: Importing, row: Row): (int, Contact)
    requires Accepted(row)
  {
    var phone, username := NormalizePhone(row.phone), NormalizeUsername(row.username);
    var m := Matched(s, phone, username);
    if m.Some? && m.value in s.rows
    then (m.value, Refreshed(s.rows[m.value], CellText(row.name), phone, username, CellText(row.source)))
    else (s.next, NewContact(CellText(row.name), phone, username, CellText(row.source), true))
  }

  lemma RowStores(s: Importing, row: Row)
    ensures var r := ImportRow(s, row);
      if Accepted(row) then
        var (id, c) := StoredAs(s, row);
        && r.rows == s.rows[id := c]
        && r.byPhone == Put(s.byPhone, c.phone, id) && r.byUsername == Put(s.byUsername, c.username, id)
        && r.next == if id in s.rows then s.next else s.next + 1
      else r.rows == s.rows && r.byPhone == s.byPhone && r.byUsername == s.byUsername && r.next == s.next
    requires IdsBelow(s.rows, s.next)
  {
  }

  /** No other contact has the phone a row is about to store: the index would have found it. */
  lemma PhoneIsFree(s: Importing, row: Row, x: int)
    requires PhoneIndexed(s) && Accepted(row) && x in s.rows
    requires Given(StoredAs(s, row).1.phone) && s.rows[x].phone == StoredAs(s, row).1.phone
    ensures x == StoredAs(s, row).0
  {
    NormalForms(row.phone);
    hide NormalizePhone, NormalizeUsername, ParseBool, CellText;
  }

  /** Phones survive every row, whatever index entries went stale on the way. */
  lemma ImportRowKeepsPhones(s: Importing, row: Row)
    requires PhoneIndexed(s)
    ensures PhoneIndexed(ImportRow(s, row))
  {
    hide StoredAs, Accepted, ImportRow, PhonePointed, Points;
    RowStores(s, row);
    if Accepted(row) {
      var (id, c) := StoredAs(s, row);
      forall x | x in s.rows && Given(c.phone) && s.rows[x].phone == c.phone ensures x == id {
        PhoneIsFree(s, row, x);
      }
      PutPhone(s.rows, s.byPhone, id, c);
      PutPoints(s.rows, s.byPhone, c.phone, id, c);
      PutPoints(s.rows, s.byUsername, c.username, id, c);
      StoredBelow(s, row);
    }
  }

  lemma StoredBelow(s: Importing, row: Row)
    requires IdsBelow(s.rows, s.next) && Accepted(row)
    ensures StoredAs(s, row).0 in s.rows || StoredAs(s, row).0 == s.next
  {
  }

  /** A row matched by its phone that carries another contact's username. */
  ghost predicate Clash(s: Importing, row: Row) {
    Accepted(row)
    && var phone, username := NormalizePhone(row.phone), NormalizeUsername(row.username);
       phone.Some? && phone.value in s.byPhone && username.Some? && username.value in s.byUsername
       && s.byUsername[username.value] != s.byPhone[phone.value]
       && s.byUsername[username.value] in s.rows
       && s.rows[s.byUsername[username.value]].username == username
  }

  lemma UsernameIsFree(s: Importing, row: Row, x: int)
    requires PhoneIndexed(s) && UsernamePointed(s.rows, s.byUsername) && Accepted(row) && !Clash(s, row) && x in s.rows
    requires Given(StoredAs(s, row).1.username) && s.rows[x].username == StoredAs(s, row).1.username
    ensures x == StoredAs(s, row).0
  {
    NormalForms(row.username);
    hide NormalizePhone, NormalizeUsername, ParseBool, CellText;
  }

  lemma ImportRowKeepsUsernames(s: Importing, row: Row)
    requires PhoneIndexed(s) && UsernamePointed(s.rows, s.byUsername) && !Clash(s, row)
    ensures UsernamePointed(ImportRow(s, row).rows, ImportRow(s, row).byUsername)
  {
    hide StoredAs, Accepted, ImportRow, UsernamePointed, PhonePointed, Points, Clash;
    RowStores(s, row);
    if Accepted(row) {
      var (id, c) := StoredAs(s, row);
      forall x | x in s.rows && Given(c.username) && s.rows[x].username == c.username ensures x == id {
        UsernameIsFree(s, row, x);
      }
      PutUsername(s.rows, s.byUsername, id, c);
    }
  }

  lemma ClashBreaksUsernames(s: Importing, row: Row)
    requires PhoneIndexed(s) && Clash(s, row)
    ensures !UsernamesUnique(ImportRow(s, row).rows)
  {
    NormalForms(row.username);
    RowStores(s, row);
    var r, u := ImportRow(s, row).rows, NormalizeUsername(row.username);
    var a, b := s.byPhone[NormalizePhone(row.phone).value], s.byUsername[u.value];
    hide NormalizePhone, NormalizeUsername, ParseBool, CellText, ImportRow;
    assert a in r && b in r && r[a].username == u && r[b].username == u;
  }

  lemma {:induction false} PhoneIndexIs(rows: Contacts, ids: seq<int>, k: nat)
    requires k <= |ids| && PhonesUnique(rows) && AllIn(ids, rows)
    ensures Points(rows, PhoneIndex(rows, ids, k))
    ensures forall i :: 0 <= i < k && Given(rows[ids[i]].phone) ==>
      rows[ids[i]].phone.value in PhoneIndex(rows, ids, k)
      && PhoneIndex(rows, ids, k)[rows[ids[i]].phone.value] == ids[i]
  {
    if k == 0 {
    } else {
      PhoneIndexIs(rows, ids, k - 1);
    }
  }

  lemma {:induction false} UsernameIndexIs(rows: Contacts, ids: seq<int>, k: nat)
    requires k <= |ids| && AllIn(ids, rows)
    ensures Points(rows, UsernameIndex(rows, ids, k))
    ensures forall i :: 0 <= i < k && UsernamesUnique(rows) && Given(rows[ids[i]].username) ==>
      rows[ids[i]].username.value in UsernameIndex(rows, ids, k)
      && UsernameIndex(rows, ids, k)[rows[ids[i]].username.value] == ids[i]
  {
    if k == 0 {
    } else {
      UsernameIndexIs(rows, ids, k - 1);
    }
  }

  lemma AllListed(rows: Contacts)
    ensures var ids := ById(rows.Keys);
      AllIn(ids, rows) && forall c :: c in rows ==> exists i :: 0 <= i < |ids| && ids[i] == c
  {
    var ids := ById(rows.Keys);
    forall i | 0 <= i < |ids| ensures ids[i] in rows {
      assert ids[i] in ids;
    }
    forall c | c in rows ensures exists i :: 0 <= i < |ids| && ids[i] == c {
      assert c in ids;
    }
  }

  lemma LoadedIsIndexed(rows: Contacts, next: int)
    requires PhonesUnique(rows) && IdsBelow(rows, next)
    ensures PhoneIndexed(Loaded(rows, next))
    ensures UsernamesUnique(rows) ==> UsernamePointed(rows, Loaded(rows, next).byUsername)
  {
    var ids := ById(rows.Keys);
    AllListed(rows);
    hide ById, PhonesUnique, UsernamesUnique;
    PhoneIndexIs(rows, ids, |ids|);
    UsernameIndexIs(rows, ids, |ids|);
  }

  lemma {:induction false} ImportIsIndexed(rows: Contacts, next: int, upload: seq<Row>)
    requires PhonesUnique(rows) && IdsBelow(rows, next)
    ensures PhoneIndexed(ImportRows(Loaded(rows, next), upload))
  {
    hide PhoneIndexed, PhonesUnique, Loaded, ImportRow;
    if upload == [] {
      LoadedIsIndexed(rows, next);
    } else {
      ImportIsIndexed(rows, next, upload[..|upload| - 1]);
      ImportRowKeepsPhones(ImportRows(Loaded(rows, next), upload[..|upload| - 1]), upload[|upload| - 1]);
    }
  }

  /** An upload never makes two contacts share a phone. */
  lemma ImportKeepsPhonesUnique(rows: Contacts, next: int, upload: seq<Row>)
    requires PhonesUnique(rows) && IdsBelow(rows, next)
    ensures var s := ImportRows(Loaded(rows, next), upload);
      PhonesUnique(s.rows) && IdsBelow(s.rows, s.next)
  {
    ImportIsIndexed(rows, next, upload);
    var s := ImportRows(Loaded(rows, next), upload);
    PointedIsUnique(s.rows, s.byPhone);
  }

  function Counted(t: ContactBook.Tally): nat {
    t.imported + t.updated + t.rejected + t.invalid + t.errors
  }

  lemma RowAddsUp(s: Importing, row: Row)
    requires PhoneIndexed(s)
    ensures var r := ImportRow(s, row);
      && Counted(r.tally) == Counted(s.tally) + 1
      && |r.rows| - |s.rows| == r.tally.imported - s.tally.imported
      && r.next - s.next == r.tally.imported - s.tally.imported
      && KeepsOptOuts(s.rows, r.rows)
  {
    hide NormalizePhone, NormalizeUsername, ParseBool, CellText, PhonePointed, Matched, Put;
    assert s.next !in s.rows;
  }

  /** Nobody is removed and no opt-out is set or cleared. */
  ghost predicate KeepsOptOuts(rows: Contacts, later: Contacts) {
    forall c :: c in rows ==> c in later && later[c].optedOut == rows[c].optedOut
  }

  lemma RowKeepsOptOuts(s: Importing, row: Row)
    requires IdsBelow(s.rows, s.next)
    ensures var r := ImportRow(s, row); IdsBelow(r.rows, r.next) && KeepsOptOuts(s.rows, r.rows)
  {
    assert s.next !in s.rows;
    hide NormalizePhone, NormalizeUsername, ParseBool, CellText;
  }

  /** An upload sets and clears no opt-out, whatever the state of the indexes. */
  lemma {:induction false} ImportKeepsOptOuts(rows: Contacts, next: int, upload: seq<Row>)
    requires IdsBelow(rows, next)
    ensures var s := ImportRows(Loaded(rows, next), upload); IdsBelow(s.rows, s.next) && KeepsOptOuts(rows, s.rows)
  {
    hide ImportRow, Loaded, KeepsOptOuts, IdsBelow;
    LoadedCounts(rows, next);
    if upload == [] {
    } else {
      var front := upload[..|upload| - 1];
      var s := ImportRows(Loaded(rows, next), front);
      ImportKeepsOptOuts(rows, next, front);
      RowKeepsOptOuts(s, upload[|upload| - 1]);
      OptOutsAgain(rows, s.rows, ImportRow(s, upload[|upload| - 1]).rows);
    }
  }

  /** Every row is counted once, and the book grows by the rows counted as imported; nobody is removed
      and no opt-out is cleared. */
  lemma {:induction false} ImportAddsUp(rows: Contacts, next: int, upload: seq<Row>)
    requires PhonesUnique(rows) && IdsBelow(rows, next)
    ensures var s := ImportRows(Loaded(rows, next), upload);
      && Counted(s.tally) == |upload|
      && |s.rows| == |rows| + s.tally.imported
      && s.next == next + s.tally.imported
      && KeepsOptOuts(rows, s.rows)
  {
    hide PhonesUnique, PhoneIndexed, ImportRow, Loaded, KeepsOptOuts;
    LoadedCounts(rows, next);
    if upload == [] {
    } else {
      var front := upload[..|upload| - 1];
      var s := ImportRows(Loaded(rows, next), front);
      ImportAddsUp(rows, next, front);
      ImportIsIndexed(rows, next, front);
      RowAddsUp(s, upload[|upload| - 1]);
      OptOutsAgain(rows, s.rows, ImportRow(s, upload[|upload| - 1]).rows);
    }
  }

  lemma LoadedCounts(rows: Contacts, next: int)
    ensures var s := Loaded(rows, next);
      s.rows == rows && s.next == next && Counted(s.tally) == 0 && s.tally.imported == 0 && KeepsOptOuts(rows, s.rows)
  {
  }

  lemma OptOutsAgain(rows: Contacts, later: Contacts, last: Contacts)
    requires KeepsOptOuts(rows, later) && KeepsOptOuts(later, last)
    ensures KeepsOptOuts(rows, last)
  {
  }

  /** The state of an upload before its `i`-th row. */
  ghost function Upto(rows: Contacts, next: int, upload: seq<Row>, i: nat): Importing
    requires i <= |upload|
  {
    ImportRows(Loaded(rows, next), upload[..i])
  }

  /** Usernames, exactly: they stay unique after every row of an upload if and only if no row clashes. */
  lemma ImportUsernamesExact(rows: Contacts, next: int, upload: seq<Row>)
    requires PhonesUnique(rows) && UsernamesUnique(rows) && IdsBelow(rows, next)
    ensures (forall i :: 0 <= i <= |upload| ==> UsernamesUnique(Upto(rows, next, upload, i).rows))
       <==> (forall i :: 0 <= i < |upload| ==> !Clash(Upto(rows, next, upload, i), upload[i]))
  {
    hide PhonesUnique, UsernamesUnique, Clash, Upto, PhoneIndexed, UsernamePointed, ImportRow;
    if forall i :: 0 <= i < |upload| ==> !Clash(Upto(rows, next, upload, i), upload[i]) {
      forall i | 0 <= i <= |upload| ensures UsernamesUnique(Upto(rows, next, upload, i).rows) {
        NoClashSoFar(rows, next, upload, i);
        PointedIsUnique(Upto(rows, next, upload, i).rows, Upto(rows, next, upload, i).byUsername);
      }
    } else {
      var i :| 0 <= i < |upload| && Clash(Upto(rows, next, upload, i), upload[i]);
      UptoStep(rows, next, upload, i);
      ClashBreaksUsernames(Upto(rows, next, upload, i), upload[i]);
    }
  }

  lemma UptoStep(rows: Contacts, next: int, upload: seq<Row>, i: nat)
    requires i < |upload| && PhonesUnique(rows) && IdsBelow(rows, next)
    ensures Upto(rows, next, upload, i + 1) == ImportRow(Upto(rows, next, upload, i), upload[i])
    ensures PhoneIndexed(Upto(rows, next, upload, i))
  {
    ImportIsIndexed(rows, next, upload[..i]);
    hide PhonesUnique, PhoneIndexed, ImportRow, Loaded;
    assert upload[..i + 1][..i] == upload[..i];
  }

  lemma {:induction false} NoClashSoFar(rows: Contacts, next: int, upload: seq<Row>, k: nat)
    requires PhonesUnique(rows) && UsernamesUnique(rows) && IdsBelow(rows, next) && k <= |upload|
    requires forall i :: 0 <= i < k ==> !Clash(Upto(rows, next, upload, i), upload[i])
    ensures UsernamePointed(Upto(rows, next, upload, k).rows, Upto(rows, next, upload, k).byUsername)
    decreases k
  {
    hide PhonesUnique, UsernamesUnique, Clash, PhoneIndexed, UsernamePointed, ImportRow;
    if k == 0 {
      LoadedIsIndexed(rows, next);
    } else {
      NoClashSoFar(rows, next, upload, k - 1);
      UptoStep(rows, next, upload, k - 1);
      ImportRowKeepsUsernames(Upto(rows, next, upload, k - 1), upload[k - 1]);
    }
  }

  /** The row stores a contact with a username that contact `x` already has. */
  ghost predicate Shares(s: Importing, row: Row, x: int) {
    Accepted(row)
    && var (id, c) := StoredAs(s, row);
       x != id && x in s.rows && Given(c.username) && s.rows[x].username == c.username
  }

  /** The row does not change the username of contact `id`. */
  ghost predicate KeepsUsername(s: Importing, row: Row, id: int) {
    Accepted(row) && StoredAs(s, row).0 == id && id in s.rows ==> StoredAs(s, row).1.username == s.rows[id].username
  }

  /** Rows `i` to `k - 1` leave the usernames of `a` and `b` alone. */
  ghost predicate KeptFrom(rows: Contacts, next: int, upload: seq<Row>, i: nat, k: nat, a: int, b: int)
    requires k <= |upload|
  {
    forall j :: i <= j < k ==>
      KeepsUsername(Upto(rows, next, upload, j), upload[j], a)
      && KeepsUsername(Upto(rows, next, upload, j), upload[j], b)
  }

  ghost predicate SameUsername(rows: Contacts, a: int, b: int) {
    a != b && a in rows && b in rows && Given(rows[a].username) && rows[a].username == rows[b].username
  }

  /** Row `i` gave its contact the username of `x`, and no row from then to row `k - 1` took it from either. */
  ghost predicate SharedSince(rows: Contacts, next: int, upload: seq<Row>, i: nat, k: nat, x: int)
    requires i < k <= |upload|
  {
    var s := Upto(rows, next, upload, i);
    Shares(s, upload[i], x) && KeptFrom(rows, next, upload, i + 1, k, StoredAs(s, upload[i]).0, x)
  }

  /** The book an upload leaves, exactly: two contacts share a username if and only if some row gave its
      contact another one's username and no later row took it from either of the two. */
  lemma CommittedUsernamesExact(rows: Contacts, next: int, upload: seq<Row>)
    requires PhonesUnique(rows) && UsernamesUnique(rows) && IdsBelow(rows, next)
    ensures !UsernamesUnique(ImportRows(Loaded(rows, next), upload).rows)
       <==> exists i: nat, x :: i < |upload| && SharedSince(rows, next, upload, i, |upload|, x)
  {
    hide PhonesUnique, UsernamesUnique, IdsBelow, ImportRows, Loaded, SharedSince, SameUsername;
    var n := |upload|;
    assert upload[..n] == upload;
    var last := Upto(rows, next, upload, n).rows;
    UniqueMeans(last);
    if !UsernamesUnique(last) {
      var a, b :| SameUsername(last, a, b);
      var i, x := ShareBegan(rows, next, upload, n, a, b);
    }
    if i: nat, x :| i < n && SharedSince(rows, next, upload, i, n, x) {
      var id := ShareLasts(rows, next, upload, i, n, x);
      assert SameUsername(last, id, x);
    }
  }

  lemma UniqueMeans(rows: Contacts)
    ensures !UsernamesUnique(rows) <==> exists a, b :: SameUsername(rows, a, b)
  {
    if !UsernamesUnique(rows) {
      var a, b :| a in rows && b in rows && Given(rows[a].username) && rows[a].username == rows[b].username && a != b;
      assert SameUsername(rows, a, b);
    }
  }

  /** What a row means for the usernames of two contacts. */
  lemma RowAndPair(s: Importing, row: Row, a: int, b: int)
    requires IdsBelow(s.rows, s.next)
    ensures var r := ImportRow(s, row).rows;
      && (SameUsername(s.rows, a, b) && KeepsUsername(s, row, a) && KeepsUsername(s, row, b) ==> SameUsername(r, a, b))
      && (SameUsername(r, a, b) ==>
            || (SameUsername(s.rows, a, b) && KeepsUsername(s, row, a) && KeepsUsername(s, row, b))
            || (Shares(s, row, b) && StoredAs(s, row).0 == a)
            || (Shares(s, row, a) && StoredAs(s, row).0 == b))
      && (forall x :: Shares(s, row, x) ==> SameUsername(r, StoredAs(s, row).0, x))
  {
    hide StoredAs, Accepted, ImportRow;
    RowStores(s, row);
  }

  lemma {:induction false} ShareLasts(rows: Contacts, next: int, upload: seq<Row>, i: nat, k: nat, x: int)
      returns (id: int)
    requires PhonesUnique(rows) && IdsBelow(rows, next) && i < k <= |upload| && SharedSince(rows, next, upload, i, k, x)
    ensures id == StoredAs(Upto(rows, next, upload, i), upload[i]).0
    ensures SameUsername(Upto(rows, next, upload, k).rows, id, x)
    decreases k
  {
    hide PhonesUnique, ImportRow, Accepted, StoredAs, Upto, KeepsUsername, SameUsername;
    var before := Upto(rows, next, upload, k - 1);
    id := StoredAs(Upto(rows, next, upload, i), upload[i]).0;
    UptoStep(rows, next, upload, k - 1);
    RowAndPair(before, upload[k - 1], id, x);
    if i < k - 1 {
      id := ShareLasts(rows, next, upload, i, k - 1, x);
    }
  }

  /** Whenever two contacts share a username there was a row that began it. */
  lemma {:induction false} ShareBegan(rows: Contacts, next: int, upload: seq<Row>, k: nat, a: int, b: int)
      returns (i: nat, x: int)
    requires PhonesUnique(rows) && UsernamesUnique(rows) && IdsBelow(rows, next) && k <= |upload|
    requires SameUsername(Upto(rows, next, upload, k).rows, a, b)
    ensures i < k && SharedSince(rows, next, upload, i, k, x)
    ensures var id := StoredAs(Upto(rows, next, upload, i), upload[i]).0; (id == a && x == b) || (id == b && x == a)
    decreases k
  {
    hide PhonesUnique, ImportRow, Accepted, StoredAs, Upto, KeepsUsername, SameUsername, UsernamesUnique;
    if k == 0 {
      NoShareAtFirst(rows, next, upload, a, b);
    } else {
      var s, row := Upto(rows, next, upload, k - 1), upload[k - 1];
      UptoStep(rows, next, upload, k - 1);
      RowAndPair(s, row, a, b);
      if SameUsername(s.rows, a, b) && KeepsUsername(s, row, a) && KeepsUsername(s, row, b) {
        i, x := ShareBegan(rows, next, upload, k - 1, a, b);
      } else {
        i, x := k - 1, if Shares(s, row, b) && StoredAs(s, row).0 == a then b else a;
      }
    }
  }

  lemma NoShareAtFirst(rows: Contacts, next: int, upload: seq<Row>, a: int, b: int)
    requires UsernamesUnique(rows)
    ensures !SameUsername(Upto(rows, next, upload, 0).rows, a, b)
  {
    LoadedCounts(rows, next);
    hide Loaded;
  }

  function ExampleBook(): Contacts {
    map[1 := NewContact(None, Some("+1"), Some("a"), None, true),
        2 := NewContact(None, None, Some("b"), None, true)]
  }

  const EXAMPLE_ROW := Row(None, Some("1"), Some("b"), None, Some("y"))

  lemma ExampleIsUnique()
    ensures PhonesUnique(ExampleBook()) && UsernamesUnique(ExampleBook()) && IdsBelow(ExampleBook(), 3)
  {
  }

  lemma ExampleIsIndexed()
    ensures PhoneIndexed(Loaded(ExampleBook(), 3))
    ensures UsernamePointed(Loaded(ExampleBook(), 3).rows, Loaded(ExampleBook(), 3).byUsername)
    ensures Loaded(ExampleBook(), 3).rows == ExampleBook()
  {
    ExampleIsUnique();
    hide ExampleBook, ById, PhonesUnique, UsernamesUnique;
    LoadedIsIndexed(ExampleBook(), 3);
  }

  /** A clash happens: a row with one contact's phone and another's username gives both the username. */
  lemma UsernameClashExample()
    ensures PhonesUnique(ExampleBook()) && UsernamesUnique(ExampleBook())
    ensures !UsernamesUnique(ImportRow(Loaded(ExampleBook(), 3), EXAMPLE_ROW).rows)
  {
    ExampleIsUnique();
    ExampleIsIndexed();
    ExampleRow();
    hide ImportRow, NormalizePhone, NormalizeUsername, ParseBool, UsernamesUnique, PhonesUnique, Loaded;
    var rows := ExampleBook();
    assert rows[1].phone == Some("+1") && rows[2].username == Some("b");
    ClashBreaksUsernames(Loaded(rows, 3), EXAMPLE_ROW);
  }

  lemma ExampleRow()
    ensures NormalizePhone(Some("1")) == Some("+1") && NormalizeUsername(Some("b")) == Some("b") && ParseBool(Some("y"))
  {
    assert Strip("1") == "1" && DigitsOf("1") == "1" && "+" + "1" == "+1";
    assert Strip("b") == "b" && DropLeading("b", '@') == "b" && Lower("b") == "b";
    assert Strip("y") == "y" && Lower("y") == "y" && "y" in TRUE_VALUES;
  }

  // -------------------------------------------------------------------- normal forms ---

  lemma {:induction false} DigitsOfDigits(s: string)
    requires AllDigits(s)
    ensures DigitsOf(s) == s
  {
    if s == "" {
    } else {
      assert AllDigits(s[1..]);
      DigitsOfDigits(s[1..]);
    }
  }

  /** Normalising a phone again changes nothing. */
  lemma NormalizePhoneIsStable(value: Option<string>)
    ensures NormalizePhone(NormalizePhone(value)) == NormalizePhone(value)
  {
    var p := NormalizePhone(value);
    if p.Some? {
      var digits := DigitsOf(Strip(value.value));
      assert p.value == "+" + digits && p.value[1..] == digits;
      NothingToStrip(p.value);
      DigitsOfDigits(digits);
      assert DigitsOf(p.value) == DigitsOf(p.value[1..]);
    }
  }

  ghost predicate EndsWell(s: string) {
    s == "" || !IsSpace(s[|s| - 1])
  }

  lemma {:induction false} TrimRightEndsWell(s: string)
    ensures EndsWell(TrimRight(s))
  {
    if s == "" || !IsSpace(s[|s| - 1]) {
    } else {
      TrimRightEndsWell(s[..|s| - 1]);
    }
  }

  lemma {:induction false} DropLeadingEndsWell(s: string, c: char)
    requires EndsWell(s)
    ensures EndsWell(DropLeading(s, c)) && (DropLeading(s, c) != "" ==> DropLeading(s, c)[0] != c)
  {
    if s == "" || s[0] != c {
    } else {
      DropLeadingEndsWell(s[1..], c);
    }
  }

  lemma {:induction false} LowerAt(s: string, i: nat)
    requires i < |s|
    ensures Lower(s)[i] == LowerChar(s[i])
  {
    if i == 0 {
    } else {
      LowerAt(s[1..], i - 1);
    }
  }

  lemma {:induction false} LowerTwice(s: string)
    ensures Lower(Lower(s)) == Lower(s)
  {
    if s == "" {
    } else {
      LowerTwice(s[1..]);
      assert Lower(s) == [LowerChar(s[0])] + Lower(s[1..]);
      assert Lower(s)[1..] == Lower(s[1..]);
    }
  }

  lemma {:induction false} TrimRightKeepsStart(s: string)
    ensures TrimRight(s) <= s
  {
    if s == "" || !IsSpace(s[|s| - 1]) {
    } else {
      TrimRightKeepsStart(s[..|s| - 1]);
    }
  }

  lemma {:induction false} DropLeadingShrinks(s: string, c: char)
    ensures |DropLeading(s, c)| <= |s|
  {
    if s == "" || s[0] != c {
    } else {
      DropLeadingShrinks(s[1..], c);
    }
  }

  lemma StripShrinks(s: string)
    requires s != "" && IsSpace(s[0])
    ensures |Strip(s)| < |s|
  {
    TrimRightKeepsStart(TrimLeft(s));
    TrimLeftShrinks(s[1..]);
  }

  lemma {:induction false} TrimLeftShrinks(s: string)
    ensures |TrimLeft(s)| <= |s|
  {
    if s == "" || !IsSpace(s[0]) {
    } else {
      TrimLeftShrinks(s[1..]);
    }
  }

  /** Normalising a username again changes nothing exactly when the first result does not begin with a
      space, as it does when spaces follow the leading `@`. */
  lemma NormalizeUsernameIsStable(value: Option<string>)
    ensures NormalizeUsername(NormalizeUsername(value)) == NormalizeUsername(value)
       <==> NormalizeUsername(value).None? || !IsSpace(NormalizeUsername(value).value[0])
  {
    var u := NormalizeUsername(value);
    if u.Some? {
      var bare := DropLeading(Strip(value.value), '@');
      TrimRightEndsWell(TrimLeft(value.value));
      DropLeadingEndsWell(Strip(value.value), '@');
      LowerAt(bare, 0);
      LowerAt(bare, |bare| - 1);
      if IsSpace(u.value[0]) {
        StripShrinks(u.value);
        DropLeadingShrinks(Strip(u.value), '@');
      } else {
        NothingToStrip(u.value);
        LowerTwice(bare);
      }
    }
  }

  /** It happens: "@ a" becomes " a" and then "a". */
  lemma UsernameNotStable()
    ensures NormalizeUsername(Some("@ a")) == Some(" a") && NormalizeUsername(Some(" a")) == Some("a")
  {
    assert Strip("@ a") == "@ a" && DropLeading("@ a", '@') == DropLeading(" a", '@') == " a";
    assert Lower(" a") == [LowerChar(' ')] + Lower("a") == " a";
    assert TrimLeft(" a") == TrimLeft("a") == "a" && Strip(" a") == "a";
    assert DropLeading("a", '@') == "a" && Lower("a") == [LowerChar('a')] + Lower("") == "a";
  }
}
