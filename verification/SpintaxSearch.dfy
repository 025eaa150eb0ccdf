/** The leftmost innermost group of a template tree is the very group the loop finds in its text. */
module SpintaxSearch {
  import opened Spintax

  predicate HasGroup(t: Template) {
    match t
    case End => false
    case Lit(_, rest) => HasGroup(rest)
    case Group(_, _) => true
  }

  /** The body of the leftmost innermost group. */
  function First(t: Template): Template
    requires HasGroup(t)
  {
    match t
    case Lit(_, rest) => First(rest)
    case Group(body, _) => if HasGroup(body) then First(body) else body
  }

  function Chars(s: string, rest: Template): Template {
    if s == "" then rest else Lit(s[0], Chars(s[1..], rest))
  }

  /** The template with its leftmost innermost group replaced by the characters of `s`. */
  function Plug(t: Template, s: string): Template
    requires HasGroup(t)
  {
    match t
    case Lit(c, rest) => Lit(c, Plug(rest, s))
    case Group(body, rest) => if HasGroup(body) then Group(Plug(body, s), rest) else Chars(s, rest)
  }

  function Before(t: Template): string
    requires HasGroup(t)
  {
    match t
    case Lit(c, rest) => [c] + Before(rest)
    case Group(body, _) => if HasGroup(body) then "{" + Before(body) else ""
  }

  function After(t: Template): string
    requires HasGroup(t)
  {
    match t
    case Lit(_, rest) => After(rest)
    case Group(body, rest) => if HasGroup(body) then After(body) + "}" + Show(rest) else Show(rest)
  }

  function Groups(t: Template): nat {
    match t
    case End => 0
    case Lit(_, rest) => Groups(rest)
    case Group(body, rest) => 1 + Groups(body) + Groups(rest)
  }

  lemma {:induction false} CharsKeepShape(s: string, rest: Template, afterOpen: bool)
    requires BraceFree(s)
    ensures Groups(Chars(s, rest)) == Groups(rest)
    ensures Clean(rest) ==> Clean(Chars(s, rest))
    ensures WellNested(rest, afterOpen) ==> WellNested(Chars(s, rest), afterOpen)
  {
    if s == "" {
    } else {
      assert BraceFree(s[1..]);
      CharsKeepShape(s[1..], rest, afterOpen);
    }
  }

  lemma {:induction false} ShowChars(s: string, rest: Template)
    ensures Show(Chars(s, rest)) == s + Show(rest)
  {
    if |s| == 0 {
      assert s + Show(rest) == Show(rest);
    } else {
      var more := Chars(s[1..], rest);
      assert Show(more) == s[1..] + Show(rest) by { ShowChars(s[1..], rest); }
      assert Show(Lit(s[0], more)) == [s[0]] + Show(more);
      ConsTail(s, Show(rest));
    }
  }

  lemma ConsTail(s: string, r: string)
    requires |s| > 0
    ensures [s[0]] + (s[1..] + r) == s + r
  {
  }

  lemma {:induction false} GroupFreeIsBraceFree(t: Template)
    requires Clean(t) && !HasGroup(t)
    ensures BraceFree(Show(t))
  {
    match t
    case End =>
    case Lit(c, rest) => GroupFreeIsBraceFree(rest);
  }

  /** Replacing the leftmost innermost group keeps the text well nested and removes one group. */
  lemma {:induction false} PlugKeepsShape(t: Template, s: string, afterOpen: bool)
    requires HasGroup(t) && BraceFree(s)
    ensures Clean(t) ==> Clean(Plug(t, s))
    ensures WellNested(t, afterOpen) ==> WellNested(Plug(t, s), afterOpen)
    ensures Groups(Plug(t, s)) < Groups(t)
    ensures Clean(t) || WellNested(t, afterOpen) ==> Clean(First(t)) && !HasGroup(First(t))
  {
    match t
    case Lit(c, rest) => PlugKeepsShape(rest, s, afterOpen || c == '{');
    case Group(body, rest) =>
      if HasGroup(body) {
        PlugKeepsShape(body, s, afterOpen);
      } else {
        CharsKeepShape(s, rest, afterOpen);
      }
  }

  lemma {:induction false} ShowPlug(t: Template, s: string)
    requires HasGroup(t)
    ensures Show(Plug(t, s)) == Before(t) + s + After(t)
  {
    match t
    case Lit(c, rest) =>
      ShowPlug(rest, s);
      assert [c] + (Before(rest) + s + After(rest)) == ([c] + Before(rest)) + s + After(rest);
    case Group(body, rest) =>
      if HasGroup(body) {
        ShowPlug(body, s);
        Enclose(Before(body), s, After(body), Show(rest));
      } else {
        ShowChars(s, rest);
      }
  }

  lemma Enclose(a: string, b: string, c: string, d: string)
    ensures "{" + (a + b + c) + "}" + d == ("{" + a) + b + (c + "}" + d)
  {
  }

  // ----------------------------------------------- the loop finds that very group ---

  lemma {:induction false} FirstBraceOfConcat(a: string, b: string)
    ensures FirstBrace(a + b) == if FirstBrace(a) < |a| then FirstBrace(a) else |a| + FirstBrace(b)
  {
    if a == "" {
      assert a + b == b;
    } else {
      assert (a + b)[1..] == a[1..] + b;
      FirstBraceOfConcat(a[1..], b);
    }
  }

  /** A match found in a prefix is the match found in the whole. */
  lemma {:induction false} SearchOfConcat(a: string, b: string)
    requires Search(a).Found?
    ensures var m := Search(a); Search(a + b) == Found(m.before, m.body, m.after + b)
  {
    assert (a + b)[1..] == a[1..] + b;
    FirstBraceOfConcat(a[1..], b);
    var k := FirstBrace(a[1..]);
    if a[0] == '{' && k < |a[1..]| && a[1..][k] == '}' {
      assert (a[1..] + b)[..k] == a[1..][..k];
      assert (a[1..] + b)[k + 1..] == a[1..][k + 1..] + b;
    } else {
      SearchOfConcat(a[1..], b);
      FoundHasBrace(a[1..]);
    }
  }

  lemma FoundHasBrace(s: string)
    requires Search(s).Found?
    ensures FirstBrace(s) < |s|
  {
    SearchSplits(s);
    var m := Search(s);
    assert s[|m.before|] == '{';
    var k := FirstBrace(s);
    assert forall i :: 0 <= i < k ==> s[..k][i] == s[i];
  }

  /** The first brace of a text in which no literal `}` may occur is an opening one. */
  lemma {:induction false} FirstBraceOpens(t: Template)
    requires WellNested(t, true)
    ensures var k := FirstBrace(Show(t)); k < |Show(t)| ==> Show(t)[k] == '{'
    ensures HasGroup(t) ==> FirstBrace(Show(t)) < |Show(t)|
  {
    match t
    case End =>
    case Lit(c, rest) => FirstBraceOpens(rest);
    case Group(_, _) =>
  }

  lemma {:induction false} SearchFindsFirst(t: Template, afterOpen: bool)
    requires WellNested(t, afterOpen)
    ensures Search(Show(t)) == if HasGroup(t) then Found(Before(t), Show(First(t)), After(t)) else NoMatch
    decreases t, 1
  {
    match t
    case End =>
    case Lit(c, rest) =>
      SearchFindsFirst(rest, afterOpen || c == '{');
      if c == '{' {
        FirstBraceOpens(rest);
      }
    case Group(body, rest) => SearchFindsInGroup(body, rest);
  }

  lemma {:induction false} SearchFindsInGroup(body: Template, rest: Template)
    requires Clean(body)
    ensures var t := Group(body, rest); Search(Show(t)) == Found(Before(t), Show(First(t)), After(t))
    decreases Group(body, rest), 0
  {
    if HasGroup(body) {
      CleanIsWellNested(body, true);
      FirstBraceOpens(body);
      SearchFindsFirst(body, true);
      SearchInside(Show(body), Show(rest));
    } else {
      GroupFreeIsBraceFree(body);
      SearchBraced(Show(body), Show(rest));
    }
  }

  lemma SearchBraced(b: string, r: string)
    requires BraceFree(b)
    ensures Search("{" + b + "}" + r) == Found("", b, r)
  {
    hide Search, FirstBrace, BraceFree;
    var s, tail := "{" + b + "}" + r, "}" + r;
    BraceFreeHasNoFirst(b);
    FirstBraceOfConcat(b, tail);
    FirstBraceAt(tail);
    BracedTail(b, r);
    SearchAtOnce(s, |b|);
  }

  lemma BracedTail(b: string, r: string)
    ensures var t := ("{" + b + "}" + r)[1..];
      t == b + ("}" + r) && t[..|b|] == b && t[|b|..] == "}" + r && t[|b| + 1..] == r
  {
    assert ("{" + b + "}" + r)[1..] == b + ("}" + r);
  }

  lemma FirstBraceAt(s: string)
    requires s != "" && s[0] == '}'
    ensures FirstBrace(s) == 0
  {
  }

  /** A text that opens a group without another brace before its end is matched there. */
  lemma SearchAtOnce(s: string, k: nat)
    requires s != "" && s[0] == '{' && k < |s[1..]| && FirstBrace(s[1..]) == k && s[1..][k] == '}'
    ensures Search(s) == Found("", s[1..][..k], s[1..][k + 1..])
  {
  }

  lemma SearchInside(b: string, r: string)
    requires Search(b).Found? && FirstBrace(b) < |b| && b[FirstBrace(b)] == '{'
    ensures var m := Search(b); Search("{" + b + "}" + r) == Found("{" + m.before, m.body, m.after + "}" + r)
  {
    var s, tail := "{" + b + "}" + r, "}" + r;
    FirstBraceOfConcat(b, tail);
    assert s[1..] == b + tail;
    SearchOfConcat(b, tail);
    var m := Search(b);
    assert m.after + tail == m.after + "}" + r;
  }

  lemma BraceFreeHasNoFirst(s: string)
    requires BraceFree(s)
    ensures FirstBrace(s) == |s|
  {
  }
}
