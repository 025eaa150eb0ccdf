/** Spintax rendering: the rewriting loop of `spin`, and the meaning of nested templates.

    The first part is the code's steps: search for the leftmost `{...}` without inner braces, split its body
    at the bars, replace the group by one of the pieces, repeat. The second part gives every text a
    template tree (braces without a partner are plain characters) and says what the tree means: a
    group stands for any one of its top-level options, the groups inside that option being chosen in
    the same way. The last part shows that every text is the written form of such a tree. */
module Spintax {

  // ------------------------------------------------------------------ the code ---

  datatype Match = NoMatch | Found(before: string, body: string, after: string)

  predicate IsBrace(c: char) {
    c == '{' || c == '}'
  }

  predicate BraceFree(s: string) {
    forall i :: 0 <= i < |s| ==> !IsBrace(s[i])
  }

  predicate BarFree(s: string) {
    forall i :: 0 <= i < |s| ==> s[i] != '|'
  }

  /** The index of the first brace of `s`, or `|s|`. */
  function FirstBrace(s: string): (k: nat)
    ensures k <= |s| && BraceFree(s[..k])
    ensures k < |s| ==> IsBrace(s[k])
  {
    if s == "" || IsBrace(s[0]) then 0 else 1 + FirstBrace(s[1..])
  }

  /** `_GROUP.search`: the first position where `\{([^{}]*)\}` matches. */
  function Search(s: string): Match {
    if s == "" then
      NoMatch
    else
      var k := FirstBrace(s[1..]);
      if s[0] == '{' && k < |s[1..]| && s[1..][k] == '}' then
        Found("", s[1..][..k], s[1..][k + 1..])
      else
        match Search(s[1..])
        case NoMatch => NoMatch
        case Found(before, body, after) => Found([s[0]] + before, body, after)
  }

  lemma {:induction false} SearchSplits(s: string)
    requires Search(s).Found?
    ensures var m := Search(s); s == m.before + "{" + m.body + "}" + m.after && BraceFree(m.body)
  {
    var tail := s[1..];
    var k := FirstBrace(tail);
    if s[0] == '{' && k < |tail| && tail[k] == '}' {
      CutAt(s, k);
    } else {
      SearchSplits(tail);
      var m := Search(tail);
      ConsOntoCut(s, m.before, m.body, m.after);
    }
  }

  lemma CutAt(s: string, k: nat)
    requires s != "" && s[0] == '{' && k < |s[1..]| && s[1..][k] == '}'
    ensures s == "" + "{" + s[1..][..k] + "}" + s[1..][k + 1..]
  {
  }

  lemma ConsOntoCut(s: string, a: string, b: string, c: string)
    requires s != "" && s[1..] == a + "{" + b + "}" + c
    ensures s == ([s[0]] + a) + "{" + b + "}" + c
  {
  }

  /** `body.split("|")`. */
  function Split(s: string): (pieces: seq<string>)
    ensures |pieces| >= 1
    ensures forall i :: 0 <= i < |pieces| ==> BarFree(pieces[i])
    ensures BraceFree(s) ==> forall i :: 0 <= i < |pieces| ==> BraceFree(pieces[i])
  {
    if s == "" then
      [""]
    else
      var rest := Split(s[1..]);
      if s[0] == '|' then [""] + rest else [[s[0]] + rest[0]] + rest[1..]
  }

  /** How many opening braces a text has; every pass of the loop removes one. */
  function Opens(s: string): nat {
    if s == "" then 0 else (if s[0] == '{' then 1 else 0) + Opens(s[1..])
  }

  lemma {:induction false} OpensOfConcat(a: string, b: string)
    ensures Opens(a + b) == Opens(a) + Opens(b)
  {
    if a == "" {
      assert a + b == b;
    } else {
      assert (a + b)[1..] == a[1..] + b;
      OpensOfConcat(a[1..], b);
    }
  }

  lemma {:induction false} BraceFreeOpens(s: string)
    requires BraceFree(s)
    ensures Opens(s) == 0
  {
    if s == "" {
    } else {
      BraceFreeOpens(s[1..]);
    }
  }

  /** Replacing a match by one of its options lowers the number of opening braces. */
  lemma ReplacingLowersOpens(s: string, choice: string)
    requires Search(s).Found? && BraceFree(choice)
    ensures var m := Search(s); Opens(m.before + choice + m.after) < Opens(s)
  {
    var m := Search(s);
    SearchSplits(s);
    OpensOfConcat(m.before + choice, m.after);
    OpensOfConcat(m.before, choice);
    BraceFreeOpens(choice);
    OpensOfConcat(m.before + "{" + m.body + "}", m.after);
    OpensOfConcat(m.before + "{" + m.body, "}");
    OpensOfConcat(m.before + "{", m.body);
    OpensOfConcat(m.before, "{");
  }

  /** What the loop returns when its `n`-th and later draws are `rng(n)`, `rng(n + 1)`, ...; a draw
      picks the option whose index is the draw modulo the number of options. */
  function SpinFrom(s: string, rng: nat -> nat, n: nat): string
    decreases Opens(s)
  {
    match Search(s)
    case NoMatch => s
    case Found(before, body, after) =>
      var options := Split(body);
      var choice := options[rng(n) % |options|];
      SearchSplits(s);
      ReplacingLowersOpens(s, choice);
      SpinFrom(before + choice + after, rng, n + 1)
  }

  // ----------------------------------------------------------------- templates ---

  /** A text as a list of characters and groups; a bar inside a group's body separates options. */
  datatype Template = End | Lit(c: char, rest: Template) | Group(body: Template, rest: Template)

  function Show(t: Template): string {
    match t
    case End => ""
    case Lit(c, rest) => [c] + Show(rest)
    case Group(body, rest) => "{" + Show(body) + "}" + Show(rest)
  }

  /** No literal braces: the bodies of groups are like this. */
  predicate Clean(t: Template) {
    match t
    case End => true
    case Lit(c, rest) => !IsBrace(c) && Clean(rest)
    case Group(body, rest) => Clean(body) && Clean(rest)
  }

  /** A whole text: literal braces have no partner, so no literal `}` follows a literal `{`. */
  predicate WellNested(t: Template, afterOpen: bool) {
    match t
    case End => true
    case Lit(c, rest) => (c == '}' ==> !afterOpen) && WellNested(rest, afterOpen || c == '{')
    case Group(body, rest) => Clean(body) && WellNested(rest, afterOpen)
  }

  ghost function Size(t: Template): nat {
    match t
    case End => 0
    case Lit(_, rest) => 1 + Size(rest)
    case Group(body, rest) => 1 + Size(body) + Size(rest)
  }

  /** The top-level options of a group's body. */
  ghost function Options(t: Template): (options: seq<Template>)
    ensures |options| >= 1
    ensures forall i :: 0 <= i < |options| ==> Size(options[i]) <= Size(t)
  {
    match t
    case End => [End]
    case Lit(c, rest) =>
      var os := Options(rest);
      if c == '|' then [End] + os else [Lit(c, os[0])] + os[1..]
    case Group(body, rest) =>
      var os := Options(rest);
      [Group(body, os[0])] + os[1..]
  }

  ghost function Cat(a: set<string>, b: set<string>): set<string> {
    set x, y {:trigger x + y} | x in a && y in b :: x + y
  }

  /** The strings a template stands for: characters stand for themselves (a bar outside groups too),
      a group for whatever one of its options stands for. */
  ghost function Meaning(t: Template): set<string>
    decreases Size(t), 0
  {
    match t
    case End => {""}
    case Lit(c, rest) => Cat({[c]}, Meaning(rest))
    case Group(body, rest) => Cat(Chosen(body), Meaning(rest))
  }

  ghost function Chosen(body: Template): set<string>
    decreases Size(body), 1
  {
    set option, x | option in Options(body) && x in Meaning(option) :: x
  }

  // ------------------------------------------------------ every text is a template ---

  function Append(t: Template, u: Template): Template {
    match t
    case End => u
    case Lit(c, rest) => Lit(c, Append(rest, u))
    case Group(body, rest) => Group(body, Append(rest, u))
  }

  /** Reads `s` with the pieces before each still-open brace on a stack, outermost first. */
  function ParseFrom(outer: Template, open: seq<Template>, s: string): Template
    decreases |s|, |open|
  {
    if s == "" then
      // The braces still open have no partner.
      if open == [] then outer else ParseFrom(Append(outer, Lit('{', open[0])), open[1..], s)
    else if s[0] == '{' then
      ParseFrom(outer, open + [End], s[1..])
    else if s[0] == '}' && open != [] then
      var group := Group(open[|open| - 1], End);
      if |open| == 1 then
        ParseFrom(Append(outer, group), [], s[1..])
      else
        ParseFrom(outer, open[..|open| - 2] + [Append(open[|open| - 2], group)], s[1..])
    else if open == [] then
      ParseFrom(Append(outer, Lit(s[0], End)), [], s[1..])
    else
      ParseFrom(outer, open[..|open| - 1] + [Append(open[|open| - 1], Lit(s[0], End))], s[1..])
  }

  function Parse(s: string): Template {
    ParseFrom(End, [], s)
  }

  function ShowOpen(open: seq<Template>): string {
    if open == [] then "" else "{" + Show(open[0]) + ShowOpen(open[1..])
  }

  lemma {:induction false} ShowAppend(t: Template, u: Template)
    ensures Show(Append(t, u)) == Show(t) + Show(u)
  {
    match t
    case End =>
    case Lit(c, rest) => ShowAppend(rest, u);
    case Group(body, rest) => ShowAppend(rest, u);
  }

  lemma {:induction false} ShowOpenSnoc(open: seq<Template>, t: Template)
    ensures ShowOpen(open + [t]) == ShowOpen(open) + "{" + Show(t)
  {
    if open == [] {
      assert ShowOpen([t]) == "{" + Show(t) + ShowOpen([t][1..]);
    } else {
      assert (open + [t])[1..] == open[1..] + [t];
      ShowOpenSnoc(open[1..], t);
    }
  }

  lemma {:induction false} CleanAppend(t: Template, u: Template)
    requires Clean(t) && Clean(u)
    ensures Clean(Append(t, u))
  {
    match t
    case End =>
    case Lit(_, rest) => CleanAppend(rest, u);
    case Group(_, rest) => CleanAppend(rest, u);
  }

  predicate HasOpen(t: Template) {
    match t
    case End => false
    case Lit(c, rest) => c == '{' || HasOpen(rest)
    case Group(_, rest) => HasOpen(rest)
  }

  lemma {:induction false} WellNestedAppend(t: Template, u: Template, afterOpen: bool)
    requires WellNested(t, afterOpen) && WellNested(u, afterOpen || HasOpen(t))
    ensures WellNested(Append(t, u), afterOpen)
    ensures HasOpen(Append(t, u)) == (HasOpen(t) || HasOpen(u))
  {
    match t
    case End =>
    case Lit(c, rest) => WellNestedAppend(rest, u, afterOpen || c == '{');
    case Group(_, rest) => WellNestedAppend(rest, u, afterOpen);
  }

  lemma {:induction false} CleanIsWellNested(t: Template, afterOpen: bool)
    requires Clean(t)
    ensures WellNested(t, afterOpen) && !HasOpen(t)
  {
    match t
    case End =>
    case Lit(c, rest) => CleanIsWellNested(rest, afterOpen || c == '{');
    case Group(_, rest) => CleanIsWellNested(rest, afterOpen);
  }

  ghost predicate Readable(outer: Template, open: seq<Template>, s: string) {
    && WellNested(outer, false)
    && (forall i :: 0 <= i < |open| ==> Clean(open[i]))
    && (HasOpen(outer) ==> s == "")
  }

  lemma {:induction false} ParseFromShows(outer: Template, open: seq<Template>, s: string)
    requires Readable(outer, open, s)
    ensures var t := ParseFrom(outer, open, s);
      WellNested(t, false) && Show(t) == Show(outer) + ShowOpen(open) + s
    decreases |s|, |open|
  {
    if s == "" {
      if open != [] {
        var next := Lit('{', open[0]);
        CleanIsWellNested(open[0], true);
        WellNestedAppend(outer, next, false);
        ShowAppend(outer, next);
        ParseFromShows(Append(outer, next), open[1..], s);
        KeepBrace(Show(outer), Show(open[0]), ShowOpen(open[1..]));
      }
    } else if s[0] == '{' {
      ShowOpenSnoc(open, End);
      ParseFromShows(outer, open + [End], s[1..]);
      PushBrace(Show(outer), ShowOpen(open), s);
    } else {
      ParseCharShows(outer, open, s);
    }
  }

  lemma KeepBrace(a: string, b: string, c: string)
    ensures a + ("{" + b) + c == a + ("{" + b + c)
  {
  }

  lemma PushBrace(a: string, b: string, s: string)
    requires s != "" && s[0] == '{'
    ensures a + (b + "{" + "") + s[1..] == a + b + s
  {
    assert s == "{" + s[1..];
  }

  lemma {:induction false} ParseCharShows(outer: Template, open: seq<Template>, s: string)
    requires Readable(outer, open, s) && s != "" && s[0] != '{'
    ensures var t := ParseFrom(outer, open, s);
      WellNested(t, false) && Show(t) == Show(outer) + ShowOpen(open) + s
    decreases |s|, |open|, 1
  {
    if open == [] {
      var lit := Lit(s[0], End);
      WellNestedAppend(outer, lit, false);
      ShowAppend(outer, lit);
      ParseFromShows(Append(outer, lit), [], s[1..]);
    } else if s[0] == '}' {
      assert open == open[..|open| - 1] + [open[|open| - 1]];
      ParseCloseShows(outer, open[..|open| - 1], open[|open| - 1], s);
    } else {
      assert open == open[..|open| - 1] + [open[|open| - 1]];
      ParsePlainShows(outer, open[..|open| - 1], open[|open| - 1], s);
    }
  }

  lemma {:induction false} ParsePlainShows(outer: Template, below: seq<Template>, top: Template, s: string)
    requires Readable(outer, below + [top], s) && s != "" && !IsBrace(s[0])
    ensures var t := ParseFrom(outer, below + [top], s);
      WellNested(t, false) && Show(t) == Show(outer) + ShowOpen(below + [top]) + s
    decreases |s|, |below + [top]|, 0
  {
    var open, lit, top' := below + [top], Lit(s[0], End), Append(top, Lit(s[0], End));
    assert open[|open| - 1] == top && open[..|open| - 1] == below;
    assert Clean(top') by {
      assert Clean(open[|open| - 1]);
      CleanAppend(top, lit);
    }
    assert Readable(outer, below + [top'], s[1..]) by {
      assert forall i :: 0 <= i < |below| ==> below[i] == open[i];
    }
    ParseFromShows(outer, below + [top'], s[1..]);
    assert ShowOpen(open) == ShowOpen(below) + "{" + Show(top) by { ShowOpenSnoc(below, top); }
    assert ShowOpen(below + [top']) == ShowOpen(below) + "{" + (Show(top) + [s[0]]) by {
      ShowOpenSnoc(below, top');
      ShowAppend(top, lit);
      assert Show(lit) == [s[0]];
    }
    MoveChar(Show(outer), ShowOpen(below), Show(top), s);
  }

  lemma MoveChar(a: string, b: string, c: string, s: string)
    requires s != ""
    ensures a + (b + "{" + (c + [s[0]])) + s[1..] == a + (b + "{" + c) + s
  {
    assert s == [s[0]] + s[1..];
  }

  lemma {:induction false} ParseCloseShows(outer: Template, below: seq<Template>, top: Template, s: string)
    requires Readable(outer, below + [top], s) && s != "" && s[0] == '}'
    ensures var t := ParseFrom(outer, below + [top], s);
      WellNested(t, false) && Show(t) == Show(outer) + ShowOpen(below + [top]) + s
    decreases |s|, |below + [top]|, 0
  {
    var open := below + [top];
    assert open[|open| - 1] == top;
    if below == [] {
      ParseLastCloseShows(outer, top, s);
    } else {
      var lower, under := below[..|below| - 1], below[|below| - 1];
      var under' := Append(under, Group(top, End));
      assert below == lower + [under];
      assert open[|open| - 2] == under && open[..|open| - 2] == lower;
      assert Readable(outer, lower + [under'], s[1..]) by {
        CleanAppend(under, Group(top, End));
        assert forall i :: 0 <= i < |lower| ==> lower[i] == open[i];
      }
      ParseFromShows(outer, lower + [under'], s[1..]);
      ShowOpenClose(lower, under, top);
      MoveBrace(Show(outer), ShowOpen(open), s);
    }
  }

  lemma {:induction false} ParseLastCloseShows(outer: Template, top: Template, s: string)
    requires Readable(outer, [top], s) && s != "" && s[0] == '}'
    ensures var t := ParseFrom(outer, [top], s);
      WellNested(t, false) && Show(t) == Show(outer) + ShowOpen([top]) + s
    decreases |s|, 0
  {
    var outer' := Append(outer, Group(top, End));
    assert [top][0] == top;
    WellNestedAppend(outer, Group(top, End), false);
    ParseFromShows(outer', [], s[1..]);
    assert ShowOpen([top]) == "{" + Show(top) by { ShowOpenSnoc([], top); }
    assert Show(outer') == Show(outer) + (("{" + Show(top)) + "}") by {
      ShowAppend(outer, Group(top, End));
      ShowGroup(top);
    }
    MoveBrace(Show(outer), "{" + Show(top), s);
  }

  lemma MoveBrace(a: string, b: string, s: string)
    requires s != "" && s[0] == '}'
    ensures a + (b + "}") + s[1..] == a + b + s
  {
    assert s == "}" + s[1..];
  }

  lemma ShowOpenClose(lower: seq<Template>, under: Template, top: Template)
    ensures ShowOpen(lower + [Append(under, Group(top, End))]) == ShowOpen(lower + [under] + [top]) + "}"
  {
    var group := Group(top, End);
    ShowGroup(top);
    ShowAppend(under, group);
    ShowOpenSnoc(lower, Append(under, group));
    ShowOpenSnoc(lower, under);
    ShowOpenSnoc(lower + [under], top);
    Regroup(ShowOpen(lower), Show(under), Show(top));
  }

  lemma ShowGroup(body: Template)
    ensures Show(Group(body, End)) == "{" + Show(body) + "}"
  {
  }

  lemma Regroup(a: string, b: string, c: string)
    ensures a + "{" + (b + ("{" + c + "}")) == (a + "{" + b) + "{" + c + "}"
  {
  }

  /** Every text, well-formed or not, is the written form of a template. */
  lemma ParseShows(s: string)
    ensures WellNested(Parse(s), false) && Show(Parse(s)) == s
  {
    ParseFromShows(End, [], s);
  }
}
