/** How a contact is addressed when sending, and how the engine reads that address back. */
module SendTargets {
  import opened Core
  import opened Models
  import opened Text

  /** What Telethon is given: an integer id, a text, or nothing because reading the id raised. */
  datatype Peer = Id(n: int) | Name(s: string) | BadNumeral

  /** `coerce_target` on a text. */
  function CoerceTarget(target: string): Peer {
    var t := Strip(target);
    if t == "" || t[0] == '@' || t[0] == '+' then Name(t)
    else if IsNumeral(DropLeading(t, '-')) then
      if AllDigits(t) then Id(Number(t))
      else if AllDigits(t[1..]) then Id(0 - Number(t[1..]))
      else BadNumeral
    else Name(t)
  }

  /** `send_identifier`: `@username`, else `+phone`, else the numeric id. */
  function SendIdentifier(c: Contact): Option<string> {
    if Given(c.username) then Some("@" + c.username.value)
    else if Given(c.phone) then Some(if c.phone.value[0] == '+' then c.phone.value else "+" + c.phone.value)
    else if c.telegramUserId.Some? && c.telegramUserId.value != 0 then Some(Numeral(c.telegramUserId.value))
    else None
  }

  /** The address, exactly: the username after an at sign; without one the phone, with one plus in front; without
      either the Telegram id, if it is not zero. */
  lemma AddressIs(c: Contact)
    ensures var named, phoned := c.username.Some? && c.username.value != "", c.phone.Some? && c.phone.value != "";
      var r := SendIdentifier(c);
      && (named ==> r == Some(['@'] + c.username.value))
      && (!named && phoned ==> r == Some((if c.phone.value[0] == '+' then "" else ['+']) + c.phone.value))
      && (!named && !phoned && c.telegramUserId.Some? && c.telegramUserId.value > 0 ==>
            r == Some(Decimal(c.telegramUserId.value)))
      && (!named && !phoned && c.telegramUserId.Some? && c.telegramUserId.value < 0 ==>
            r == Some(['-'] + Decimal(-c.telegramUserId.value)))
      && (r.None? <==> !named && !phoned && (c.telegramUserId.None? || c.telegramUserId.value == 0))
  {
    if c.phone.Some? {
      assert "" + c.phone.value == c.phone.value;
    }
  }

  lemma {:induction false} TrimRightKeepsHead(s: string)
    requires s != "" && !IsSpace(s[0])
    ensures TrimRight(s) != "" && TrimRight(s)[0] == s[0]
  {
    if !IsSpace(s[|s| - 1]) {
    } else {
      TrimRightKeepsHead(s[..|s| - 1]);
    }
  }

  lemma DropNothing(s: string, c: char)
    requires s != "" && s[0] != c
    ensures DropLeading(s, c) == s
  {
  }

  /** Round trip of ids: printing an id and reading it back gives the same id, negative ones included. */
  lemma CoerceNumeral(n: int)
    ensures CoerceTarget(Numeral(n)) == Id(n)
  {
    var s := Numeral(n);
    var d := Decimal(if n < 0 then -n else n);
    assert IsDigit(d[|d| - 1]) && IsDigit(d[0]);
    if n < 0 {
      assert s[1..] == d && s[|s| - 1] == d[|d| - 1];
      assert DropLeading(s, '-') == DropLeading(d, '-');
    }
    DropNothing(d, '-');
    NothingToStrip(s);
    NumberOfDecimal(if n < 0 then -n else n);
  }

  /** A contact is sent to by number exactly when it has neither username nor phone; then the number is
      the stored Telegram id. Otherwise the engine gets the same `@` or `+` address as a text. */
  lemma SendTargetRoundTrip(c: Contact)
    requires SendIdentifier(c).Some?
    ensures var peer := CoerceTarget(SendIdentifier(c).value);
      && (peer.Id? <==> !Given(c.username) && !Given(c.phone))
      && (peer.Id? ==> c.telegramUserId == Some(peer.n))
      && (peer.Name? ==>
          peer.s == Strip(SendIdentifier(c).value) && (StartsWith(peer.s, '@') || StartsWith(peer.s, '+')))
      && !peer.BadNumeral?
      && (StartsWith(SendIdentifier(c).value, '@') <==> Given(c.username))
  {
    var s := SendIdentifier(c).value;
    if Given(c.username) || Given(c.phone) {
      assert s[0] == '@' || s[0] == '+';
      TrimRightKeepsHead(s);
    } else {
      CoerceNumeral(c.telegramUserId.value);
      assert s[0] == '-' || IsDigit(s[0]);
    }
  }

  /** Reading a target raises exactly on two or more minus signs before a numeral. */
  lemma CoerceRaises(target: string)
    ensures CoerceTarget(target).BadNumeral? <==>
      (var t := Strip(target); |t| >= 3 && t[0] == '-' && t[1] == '-' && IsNumeral(DropLeading(t, '-')))
  {
    var t := Strip(target);
    if t != "" && IsNumeral(DropLeading(t, '-')) {
      if t[0] != '-' {
        DropNothing(t, '-');
      } else if |t| > 1 && t[1] != '-' {
        DropNothing(t[1..], '-');
        assert DropLeading(t, '-') == t[1..];
      } else if |t| > 1 {
        assert !IsDigit(t[1..][0]);
        assert DropLeading(t, '-') == DropLeading(t[1..][1..], '-');
      }
    }
  }
}
