/** What the string methods mean, in terms of the characters alone. */
module TextLaws {
  import opened Core
  import opened Text

  /** The whitespace of `str.strip()`, by code. */
  lemma SpaceCodes(c: char)
    ensures IsSpace(c) <==> 9 <= c as int <= 13 || 28 <= c as int <= 32
  {
  }

  ghost predicate Blank(s: string) {
    forall i :: 0 <= i < |s| ==> IsSpace(s[i])
  }

  /** The text is `a + t + b` with nothing but whitespace in `a` and `b`, and `t` has none at its ends. */
  ghost predicate StripsTo(s: string, a: string, t: string, b: string) {
    && s == a + t + b && Blank(a) && Blank(b)
    && (t != "" ==> !IsSpace(t[0]) && !IsSpace(t[|t| - 1]))
  }

  lemma {:induction false} TrimLeftCuts(s: string) returns (a: string)
    ensures s == a + TrimLeft(s) && Blank(a) && (TrimLeft(s) != "" ==> !IsSpace(TrimLeft(s)[0]))
  {
    if s == "" || !IsSpace(s[0]) {
      a := "";
    } else {
      var rest := TrimLeftCuts(s[1..]);
      a := [s[0]] + rest;
      assert s == [s[0]] + s[1..];
    }
  }

  lemma {:induction false} TrimRightCuts(s: string) returns (b: string)
    ensures s == TrimRight(s) + b && Blank(b) && (TrimRight(s) != "" ==> !IsSpace(TrimRight(s)[|TrimRight(s)| - 1]))
  {
    if s == "" || !IsSpace(s[|s| - 1]) {
      b := "";
    } else {
      var rest := TrimRightCuts(s[..|s| - 1]);
      b := rest + [s[|s| - 1]];
      assert s == s[..|s| - 1] + [s[|s| - 1]];
    }
  }

  /** `strip` takes away exactly the whitespace at both ends. */
  lemma StripMeans(s: string) returns (a: string, b: string)
    ensures StripsTo(s, a, Strip(s), b)
  {
    a := TrimLeftCuts(s);
    var t := TrimLeft(s);
    b := TrimRightCuts(t);
    assert t == TrimRight(t) + b;
    if Strip(s) != "" {
      assert Strip(s)[0] == t[0];
    }
    assert s == a + Strip(s) + b;
  }

  /** `lstrip` of a character takes away exactly its leading copies. */
  lemma {:induction false} DropLeadingMeans(s: string, c: char) returns (k: nat)
    ensures k <= |s| && DropLeading(s, c) == s[k..]
    ensures (forall i :: 0 <= i < k ==> s[i] == c) && (k < |s| ==> s[k] != c)
  {
    if s == "" || s[0] != c {
      k := 0;
    } else {
      var rest := DropLeadingMeans(s[1..], c);
      k := rest + 1;
      forall i | 0 <= i < k ensures s[i] == c {
        assert i > 0 ==> s[1..][i - 1] == s[i];
      }
    }
  }

  /** `lower` changes the letters A to Z only, one by one. */
  lemma {:induction false} LowerMeans(s: string, i: nat)
    requires i < |s|
    ensures Lower(s)[i] as int == if 65 <= s[i] as int <= 90 then s[i] as int + 32 else s[i] as int
  {
    if i == 0 {
    } else {
      LowerMeans(s[1..], i - 1);
    }
  }

  /** Only the digits stay, in order. */
  lemma {:induction false} DigitsOfConcat(a: string, b: string)
    ensures DigitsOf(a + b) == DigitsOf(a) + DigitsOf(b)
  {
    if a == "" {
      assert a + b == b;
    } else {
      assert (a + b)[1..] == a[1..] + b;
      DigitsOfConcat(a[1..], b);
    }
  }

  lemma DigitsOfChar(c: char)
    ensures DigitsOf([c]) == if 48 <= c as int <= 57 then [c] else ""
  {
    assert DigitsOf([c][1..]) == "";
  }

  lemma {:induction false} NoDigitsInBlank(s: string)
    requires Blank(s)
    ensures DigitsOf(s) == ""
  {
    if s == "" {
    } else {
      assert IsSpace(s[0]);
      NoDigitsInBlank(s[1..]);
    }
  }

  /** Stripping loses no digit. */
  lemma StripKeepsDigits(s: string)
    ensures DigitsOf(Strip(s)) == DigitsOf(s)
  {
    var a, b := StripMeans(s);
    NoDigitsInBlank(a);
    NoDigitsInBlank(b);
    DigitsOfConcat(a + Strip(s), b);
    DigitsOfConcat(a, Strip(s));
  }

  lemma {:induction false} SomeDigit(s: string)
    ensures DigitsOf(s) != "" <==> exists i :: 0 <= i < |s| && '0' <= s[i] <= '9'
  {
    if s == "" {
    } else {
      SomeDigit(s[1..]);
      assert s == [s[0]] + s[1..];
    }
  }
}
