/** What an upload does, row by row, in terms of the raw cells: which rows are counted where, which contact a
    row changes and how, and who gains consent. */
module ImportLaws {
  import opened Core
  import opened Models
  import opened Text
  import TextLaws
  import opened ContactBook
  import ContactLaws

  // ---------------------------------------------------------------------- the cells ---

  /** A phone is a plus and the digits of the cell; without a digit there is none. */
  lemma PhoneForm(cell: Option<string>)
    ensures NormalizePhone(cell)
         == if cell.Some? && DigitsOf(cell.value) != "" then Some("+" + DigitsOf(cell.value)) else None
    ensures NormalizePhone(cell).Some?
       <==> cell.Some? && exists i :: 0 <= i < |cell.value| && '0' <= cell.value[i] <= '9'
  {
    if cell.Some? {
      TextLaws.StripKeepsDigits(cell.value);
      TextLaws.SomeDigit(cell.value);
    }
  }

  /** A cell cut into whitespace, at signs, the username and whitespace. */
  ghost predicate UsernameCut(s: string, a: string, ats: string, t: string, b: string) {
    && s == a + ats + t + b && TextLaws.Blank(a) && TextLaws.Blank(b)
    && (forall i :: 0 <= i < |ats| ==> ats[i] == '@')
    && (t != "" ==> t[0] != '@' && !IsSpace(t[|t| - 1])) && (ats + t != "" ==> !IsSpace((ats + t)[0]))
  }

  /** A username is what stands after the at signs of the stripped cell, in lower case. */
  lemma UsernameForm(cell: string) returns (a: string, ats: string, t: string, b: string)
    ensures UsernameCut(cell, a, ats, t, b)
    ensures t == "" ==> NormalizeUsername(Some(cell)).None?
    ensures t != "" ==> NormalizeUsername(Some(cell)) == Some(Lower(t))
  {
    a, b := TextLaws.StripMeans(cell);
    var s := Strip(cell);
    var k := TextLaws.DropLeadingMeans(s, '@');
    ats, t := s[..k], s[k..];
    assert s == ats + t;
    assert |Lower(t)| == |t|;
  }

  /** The cell holds one of the five words that mean consent. */
  ghost predicate Yes(cell: Option<string>) {
    cell.Some? && Lower(Strip(cell.value)) in {"true", "1", "yes", "y", "t"}
  }

  lemma ConsentCell(cell: Option<string>)
    ensures ParseBool(cell) <==> Yes(cell)
  {
  }

  /** The text of a name or source cell: stripped, missing when blank. */
  ghost predicate TextIs(cell: Option<string>, text: Option<string>) {
    && (text.Some? <==> cell.Some? && Strip(cell.value) != "")
    && (text.Some? ==> text.value == Strip(cell.value))
  }

  lemma TextCell(cell: Option<string>)
    ensures TextIs(cell, CellText(cell))
  {
  }

  // ------------------------------------------------------------------------ one row ---

  datatype Fate = Unread | Nameless | Refused | Refreshing(id: int) | Adding

  /** What becomes of a row: unreadable, without identifier, without consent, about the contact its phone or else
      its username is listed for, or about a new one. */
  ghost function FateOf(s: Importing, row: Row): Fate {
    if row.Unreadable? then Unread
    else
      var p, u := NormalizePhone(row.phone), NormalizeUsername(row.username);
      if p.None? && u.None? then Nameless
      else if !Yes(row.consent) then Refused
      else if p.Some? && p.value in s.byPhone then Refreshing(s.byPhone[p.value])
      else if u.Some? && u.value in s.byUsername then Refreshing(s.byUsername[u.value])
      else Adding
  }

  /** A contact as a row leaves it: what the row gives is taken over, what it does not give stays. */
  ghost predicate RefreshedBy(c: Contact, d: Contact, row: Row)
    requires row.Row?
  {
    && d.phone == (if NormalizePhone(row.phone).Some? then NormalizePhone(row.phone) else c.phone)
    && d.username == (if NormalizeUsername(row.username).Some? then NormalizeUsername(row.username) else c.username)
    && (if row.name.Some? && Strip(row.name.value) != "" then d.name == Some(Strip(row.name.value))
        else d.name == c.name)
    && (if row.source.Some? && Strip(row.source.value) != "" then d.source == Some(Strip(row.source.value))
        else d.source == c.source)
    && d.consent
    && (d.leadType.PhoneLead? <==> d.phone.Some? && d.phone.value != "")
    && d.telegramUserId == c.telegramUserId && d.resolution == c.resolution && d.notes == c.notes && d.stage == c.stage
    && d.optedOut == c.optedOut && d.tags == c.tags && d.lastContactedAt == c.lastContactedAt
  }

  /** A contact as a row adds it. */
  ghost predicate AddedBy(d: Contact, row: Row)
    requires row.Row?
  {
    && d.phone == NormalizePhone(row.phone) && d.username == NormalizeUsername(row.username)
    && TextIs(row.name, d.name) && TextIs(row.source, d.source)
    && d.consent && !d.optedOut && d.stage.NewLead? && d.resolution.Unresolved?
    && (d.leadType.PhoneLead? <==> d.phone.Some?)
    && d.telegramUserId.None? && d.notes.None? && d.tags == {} && d.lastContactedAt.None?
  }

  ghost predicate CountedAs(t: ContactBook.Tally, r: ContactBook.Tally, f: Fate) {
    && r.errors == t.errors + (if f.Unread? then 1 else 0)
    && r.invalid == t.invalid + (if f.Nameless? then 1 else 0)
    && r.rejected == t.rejected + (if f.Refused? then 1 else 0)
    && r.updated == t.updated + (if f.Refreshing? then 1 else 0)
    && r.imported == t.imported + (if f.Adding? then 1 else 0)
  }

  /** A row, exactly: it is counted once, by its fate, and changes the book only if it has an identifier and a
      cell that gives consent; then it refreshes the contact it is about, or adds one. */
  lemma RowFate(s: Importing, row: Row)
    requires ContactLaws.PhoneIndexed(s)
    ensures var r, f := ImportRow(s, row), FateOf(s, row);
      && CountedAs(s.tally, r.tally, f)
      && (f.Unread? || f.Nameless? || f.Refused? ==> r.rows == s.rows && r.next == s.next)
      && (f.Refreshing? ==>
            && f.id in s.rows && f.id in r.rows && r.rows == s.rows[f.id := r.rows[f.id]] && r.next == s.next
            && RefreshedBy(s.rows[f.id], r.rows[f.id], row))
      && (f.Adding? ==>
            && s.next !in s.rows && s.next in r.rows && r.rows == s.rows[s.next := r.rows[s.next]]
            && r.next == s.next + 1
            && AddedBy(r.rows[s.next], row))
  {
    assert s.next !in s.rows;
    if row.Row? {
      ConsentCell(row.consent);
      TextCell(row.name);
      TextCell(row.source);
      ContactLaws.NormalForms(row.phone);
      hide NormalizePhone, NormalizeUsername, ParseBool, Yes, Strip, CellText, ContactLaws.PhonePointed;
    }
  }

  // --------------------------------------------------------------------- an upload ---

  /** How many of the rows of an upload are such. */
  ghost function RowsThat(upload: seq<Row>, such: Row -> bool): nat {
    if upload == [] then 0
    else RowsThat(upload[..|upload| - 1], such) + if such(upload[|upload| - 1]) then 1 else 0
  }

  ghost predicate Identified(row: Row) {
    row.Row? && (NormalizePhone(row.phone).Some? || NormalizeUsername(row.username).Some?)
  }

  ghost predicate Consents(row: Row) {
    Identified(row) && Yes(row.consent)
  }

  /** The counts of an upload, in terms of its cells. */
  lemma {:induction false} CountsAre(rows: Contacts, next: int, upload: seq<Row>)
    requires PhonesUnique(rows) && IdsBelow(rows, next)
    ensures var t := ImportRows(Loaded(rows, next), upload).tally;
      && t.errors == RowsThat(upload, (row: Row) => row.Unreadable?)
      && t.invalid == RowsThat(upload, (row: Row) => row.Row? && !Identified(row))
      && t.rejected == RowsThat(upload, (row: Row) => Identified(row) && !Yes(row.consent))
      && t.updated + t.imported == RowsThat(upload, (row: Row) => Consents(row))
  {
    hide PhonesUnique, Loaded, ImportRow, NormalizePhone, NormalizeUsername, Yes, ContactLaws.PhoneIndexed;
    if upload == [] {
      LoadedIsNew(rows, next);
    } else {
      var front, row := upload[..|upload| - 1], upload[|upload| - 1];
      var s := ImportRows(Loaded(rows, next), front);
      CountsAre(rows, next, front);
      ContactLaws.ImportIsIndexed(rows, next, front);
      RowFate(s, row);
      assert CountedAs(s.tally, ImportRow(s, row).tally, FateOf(s, row));
    }
  }

  lemma LoadedIsNew(rows: Contacts, next: int)
    ensures var s := Loaded(rows, next); s.rows == rows && s.tally == ContactBook.Tally(0, 0, 0, 0, 0)
  {
  }

  ghost predicate ConsentingIn(rows: Contacts, c: int) {
    c in rows && rows[c].consent
  }

  /** Row `i` of the upload stored contact `c`. */
  ghost predicate StoredBy(rows: Contacts, next: int, upload: seq<Row>, i: nat, c: int)
    requires i < |upload|
  {
    var s := ContactLaws.Upto(rows, next, upload, i);
    var f := FateOf(s, upload[i]);
    (f.Refreshing? && f.id == c) || (f.Adding? && s.next == c)
  }

  /** Consent after an upload, exactly: a contact consents if it did before, or if some row with an identifier and a
      cell that gives consent stored it. */
  lemma {:induction false} ConsentIsGiven(rows: Contacts, next: int, upload: seq<Row>, k: nat, c: int)
    requires PhonesUnique(rows) && IdsBelow(rows, next) && k <= |upload|
    ensures ConsentingIn(ContactLaws.Upto(rows, next, upload, k).rows, c)
       <==> ConsentingIn(rows, c) || exists i: nat :: i < k && StoredBy(rows, next, upload, i, c) && Consents(upload[i])
    decreases k
  {
    hide PhonesUnique, Loaded, ImportRow, NormalizePhone, NormalizeUsername, Yes, ContactLaws.PhoneIndexed,
      ContactLaws.Upto;
    if k == 0 {
      UptoNothing(rows, next, upload);
    } else {
      var s := ContactLaws.Upto(rows, next, upload, k - 1);
      ConsentIsGiven(rows, next, upload, k - 1, c);
      ContactLaws.UptoStep(rows, next, upload, k - 1);
      RowFate(s, upload[k - 1]);
      var f := FateOf(s, upload[k - 1]);
      assert f.Refreshing? || f.Adding? ==> Consents(upload[k - 1]);
      assert StoredBy(rows, next, upload, k - 1, c) <==> (f.Refreshing? && f.id == c) || (f.Adding? && s.next == c);
    }
  }

  lemma UptoNothing(rows: Contacts, next: int, upload: seq<Row>)
    ensures ContactLaws.Upto(rows, next, upload, 0).rows == rows
  {
    LoadedIsNew(rows, next);
    assert upload[..0] == [];
    hide Loaded;
  }
}
