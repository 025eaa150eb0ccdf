/** One pass of the rewriting loop keeps the meaning of a template: resolving the first innermost group adds
    no meaning, and its pieces together lose none. */
module SpintaxMeaning {
  import opened Spintax
  import opened SpintaxSearch

  ghost function Head(t: Template): set<string> {
    Meaning(Options(t)[0])
  }

  ghost function Others(t: Template): set<string> {
    set i, x | 1 <= i < |Options(t)| && x in Meaning(Options(t)[i]) :: x
  }

  lemma ChosenSplits(t: Template)
    ensures Chosen(t) == Head(t) + Others(t)
  {
    var os := Options(t);
    forall x | x in Chosen(t) ensures x in Head(t) + Others(t) {
      var option :| option in os && x in Meaning(option);
      var i :| 0 <= i < |os| && os[i] == option;
      if i > 0 {
        assert x in Meaning(os[i]);
      }
    }
    forall x | x in Others(t) ensures x in Chosen(t) {
      var i :| 1 <= i < |os| && x in Meaning(os[i]);
      assert os[i] in os;
    }
  }

  lemma OptionsOfLit(c: char, rest: Template)
    ensures c == '|' ==> Head(Lit(c, rest)) == {""} && Others(Lit(c, rest)) == Chosen(rest)
    ensures c != '|' ==> Head(Lit(c, rest)) == Cat({[c]}, Head(rest)) && Others(Lit(c, rest)) == Others(rest)
  {
    var os, rs := Options(Lit(c, rest)), Options(rest);
    if c == '|' {
      assert os[1..] == rs;
      forall x | x in Chosen(rest) ensures x in Others(Lit(c, rest)) {
        var option :| option in rs && x in Meaning(option);
        var i :| 0 <= i < |rs| && rs[i] == option;
        assert x in Meaning(os[i + 1]);
      }
      forall x | x in Others(Lit(c, rest)) ensures x in Chosen(rest) {
        var i :| 1 <= i < |os| && x in Meaning(os[i]);
        assert os[i] == rs[i - 1];
      }
    } else {
      SameOthers(os, rs, Lit(c, rest), rest);
    }
  }

  lemma OptionsOfGroup(body: Template, rest: Template)
    ensures Head(Group(body, rest)) == Cat(Chosen(body), Head(rest))
    ensures Others(Group(body, rest)) == Others(rest)
  {
    SameOthers(Options(Group(body, rest)), Options(rest), Group(body, rest), rest);
  }

  lemma SameOthers(os: seq<Template>, rs: seq<Template>, t: Template, u: Template)
    requires os == Options(t) && rs == Options(u) && os[1..] == rs[1..]
    ensures Others(t) == Others(u)
  {
    assert |os| == |rs|;
    assert forall i :: 1 <= i < |os| ==> os[i] == os[1..][i - 1];
    assert forall i :: 1 <= i < |rs| ==> rs[i] == rs[1..][i - 1];
  }

  ghost predicate CharsThen(s: string, t: Template, rest: Template) {
    Head(t) == Cat({s}, Head(rest)) && Others(t) == Others(rest)
  }

  lemma {:induction false} OptionsOfChars(s: string, rest: Template)
    requires BarFree(s)
    ensures CharsThen(s, Chars(s, rest), rest)
    decreases |s|
  {
    if |s| == 0 {
      assert CharsThen(s, rest, rest) by { CatUnit(Head(rest)); }
      assert Chars(s, rest) == rest;
    } else {
      var tail := s[1..];
      assert BarFree(tail);
      var more := Chars(tail, rest);
      assert CharsThen(tail, more, rest) by { OptionsOfChars(tail, rest); }
      assert CharsThen(s, Lit(s[0], more), rest) by { OptionsOfCons(s, more, rest); }
      assert Chars(s, rest) == Lit(s[0], more);
    }
  }

  lemma OptionsOfCons(s: string, more: Template, rest: Template)
    requires s != "" && s[0] != '|'
    requires CharsThen(s[1..], more, rest)
    ensures CharsThen(s, Lit(s[0], more), rest)
  {
    OptionsOfLit(s[0], more);
    CatCons(s, Head(rest));
  }

  lemma MeaningOfLit(c: char, rest: Template)
    ensures Meaning(Lit(c, rest)) == Cat({[c]}, Meaning(rest))
  {
  }

  lemma {:induction false} MeaningOfChars(s: string, rest: Template)
    ensures Meaning(Chars(s, rest)) == Cat({s}, Meaning(rest))
  {
    if s == "" {
      CatUnit(Meaning(rest));
    } else {
      var more, m := Chars(s[1..], rest), Meaning(rest);
      assert Meaning(more) == Cat({s[1..]}, m) by { MeaningOfChars(s[1..], rest); }
      assert Meaning(Lit(s[0], more)) == Cat({[s[0]]}, Meaning(more)) by { MeaningOfLit(s[0], more); }
      assert Cat({[s[0]]}, Cat({s[1..]}, m)) == Cat({s}, m) by { CatCons(s, m); }
    }
  }

  lemma CatCons(s: string, a: set<string>)
    requires s != ""
    ensures Cat({[s[0]]}, Cat({s[1..]}, a)) == Cat({s}, a)
  {
    CatAssoc([s[0]], s[1..], a);
    assert [s[0]] + s[1..] == s;
  }

  lemma CatUnit(a: set<string>)
    ensures Cat({""}, a) == a
  {
    forall x | x in a ensures x in Cat({""}, a) {
      assert "" + x == x;
    }
    forall z | z in Cat({""}, a) ensures z in a {
      var x, y :| x in {""} && y in a && z == x + y;
      assert z == y;
    }
  }

  lemma CatAssoc(s: string, t: string, a: set<string>)
    ensures Cat({s}, Cat({t}, a)) == Cat({s + t}, a)
  {
    forall z | z in Cat({s}, Cat({t}, a)) ensures z in Cat({s + t}, a) {
      var x, u :| x in {s} && u in Cat({t}, a) && z == x + u;
      var y, v :| y in {t} && v in a && u == y + v;
      assert z == (s + t) + v;
    }
    forall z | z in Cat({s + t}, a) ensures z in Cat({s}, Cat({t}, a)) {
      var x, v :| x in {s + t} && v in a && z == x + v;
      assert t + v in Cat({t}, a);
      assert z == s + (t + v);
    }
  }

  lemma CatMono(a: set<string>, b: set<string>, c: set<string>)
    requires a <= b
    ensures Cat(a, c) <= Cat(b, c)
    ensures Cat(c, a) <= Cat(c, b)
  {
  }

  /** The body of an innermost group means exactly the pieces `split` returns. */
  ghost predicate SamePieces(options: seq<Template>, pieces: seq<string>) {
    && |options| == |pieces|
    && forall i :: 0 <= i < |options| ==> Meaning(options[i]) == {pieces[i]}
  }

  lemma {:induction false} PiecesAreOptions(t: Template)
    requires Clean(t) && !HasGroup(t)
    ensures SamePieces(Options(t), Split(Show(t)))
  {
    match t
    case End =>
    case Lit(c, rest) =>
      PiecesAreOptions(rest);
      SplitCons(c, Show(rest));
      if c != '|' {
        var os, ps := Options(rest), Split(Show(rest));
        MeaningOfLit(c, os[0]);
        CatPiece([c], ps[0]);
        assert SamePieces([Lit(c, os[0])] + os[1..], [[c] + ps[0]] + ps[1..]);
      }
  }

  lemma SplitCons(c: char, s: string)
    ensures Split([c] + s) == if c == '|' then [""] + Split(s) else [[c] + Split(s)[0]] + Split(s)[1..]
  {
    assert ([c] + s)[1..] == s;
  }

  lemma CatPiece(a: string, b: string)
    ensures Cat({a}, {b}) == {a + b}
  {
    assert a + b in Cat({a}, {b});
  }

  lemma ChosenIsPieces(t: Template, x: string)
    requires Clean(t) && !HasGroup(t)
    ensures x in Chosen(t) <==> x in Split(Show(t))
  {
    PiecesAreOptions(t);
    var os, ps := Options(t), Split(Show(t));
    if x in Chosen(t) {
      var option :| option in os && x in Meaning(option);
      var i :| 0 <= i < |os| && os[i] == option;
      assert x == ps[i];
    }
    if x in ps {
      var i :| 0 <= i < |ps| && ps[i] == x;
      assert os[i] in os && x in Meaning(os[i]);
    }
  }

  ghost predicate Piece(t: Template, o: string)
    requires HasGroup(t)
  {
    o in Split(Show(First(t)))
  }

  lemma {:induction false} PlugOptionsSound(t: Template, o: string)
    requires Clean(t) && HasGroup(t) && Piece(t, o)
    ensures Head(Plug(t, o)) <= Head(t) && Others(Plug(t, o)) <= Others(t)
    ensures Chosen(Plug(t, o)) <= Chosen(t)
  {
    ChosenSplits(t);
    ChosenSplits(Plug(t, o));
    match t
    case Lit(c, rest) =>
      PlugOptionsSound(rest, o);
      OptionsOfLit(c, rest);
      OptionsOfLit(c, Plug(rest, o));
      CatMono(Head(Plug(rest, o)), Head(rest), {[c]});
    case Group(body, rest) =>
      OptionsOfGroup(body, rest);
      if HasGroup(body) {
        PlugOptionsSound(body, o);
        OptionsOfGroup(Plug(body, o), rest);
        CatMono(Chosen(Plug(body, o)), Chosen(body), Head(rest));
      } else {
        OptionsOfChars(o, rest);
        ChosenIsPieces(body, o);
        CatMono({o}, Chosen(body), Head(rest));
      }
  }

  /** Whatever is left possible after one pass was possible before. */
  lemma {:induction false} PlugSound(t: Template, o: string, afterOpen: bool)
    requires WellNested(t, afterOpen) && HasGroup(t) && Piece(t, o)
    ensures Meaning(Plug(t, o)) <= Meaning(t)
  {
    match t
    case Lit(c, rest) =>
      PlugSound(rest, o, afterOpen || c == '{');
      CatMono(Meaning(Plug(rest, o)), Meaning(rest), {[c]});
    case Group(body, rest) =>
      if HasGroup(body) {
        PlugOptionsSound(body, o);
        CatMono(Chosen(Plug(body, o)), Chosen(body), Meaning(rest));
      } else {
        MeaningOfChars(o, rest);
        ChosenIsPieces(body, o);
        CatMono({o}, Chosen(body), Meaning(rest));
      }
  }

  lemma CatIn(a: set<string>, b: set<string>, z: string) returns (x: string, y: string)
    requires z in Cat(a, b)
    ensures x in a && y in b && z == x + y
  {
    x, y :| x in a && y in b && z == x + y;
  }

  lemma PlugLitOptions(c: char, rest: Template, o: string)
    requires Clean(rest) && HasGroup(rest) && Piece(rest, o)
    ensures var t := Plug(Lit(c, rest), o);
      if c == '|' then Head(t) == {""} && Others(t) == Chosen(Plug(rest, o))
      else Head(t) == Cat({[c]}, Head(Plug(rest, o))) && Others(t) == Others(Plug(rest, o))
  {
    OptionsOfLit(c, Plug(rest, o));
  }

  lemma PlugGroupOptions(body: Template, rest: Template, o: string)
    requires Clean(body) && Piece(Group(body, rest), o)
    ensures var t := Plug(Group(body, rest), o);
      && Others(t) == Others(rest)
      && Head(t) == Cat(if HasGroup(body) then Chosen(Plug(body, o)) else {o}, Head(rest))
  {
    if HasGroup(body) {
      OptionsOfGroup(Plug(body, o), rest);
    } else {
      OptionsOfChars(o, rest);
    }
  }

  /** Each option keeps its possibilities: those of the first option and those of the others. */
  lemma {:induction false} PlugOptionsComplete(t: Template, x: string, inHead: bool) returns (o: string)
    requires Clean(t) && HasGroup(t) && x in (if inHead then Head(t) else Others(t))
    ensures Piece(t, o) && x in (if inHead then Head(Plug(t, o)) else Others(Plug(t, o)))
    decreases t, 0
  {
    match t
    case Lit(c, rest) =>
      OptionsOfLit(c, rest);
      if inHead && c == '|' {
        o := Split(Show(First(t)))[0];
      } else if inHead {
        var a, y := CatIn({[c]}, Head(rest), x);
        o := PlugOptionsComplete(rest, y, true);
      } else if c == '|' {
        o := PlugChosenComplete(rest, x);
      } else {
        o := PlugOptionsComplete(rest, x, false);
      }
      PlugLitOptions(c, rest, o);
    case Group(body, rest) =>
      OptionsOfGroup(body, rest);
      if inHead {
        var u, y := CatIn(Chosen(body), Head(rest), x);
        if HasGroup(body) {
          o := PlugChosenComplete(body, u);
        } else {
          ChosenIsPieces(body, u);
          o := u;
        }
      } else {
        o := Split(Show(First(t)))[0];
      }
      PlugGroupOptions(body, rest, o);
  }

  lemma {:induction false} PlugChosenComplete(t: Template, x: string) returns (o: string)
    requires Clean(t) && HasGroup(t) && x in Chosen(t)
    ensures Piece(t, o) && x in Chosen(Plug(t, o))
    decreases t, 1
  {
    ChosenSplits(t);
    o := PlugOptionsComplete(t, x, x in Head(t));
    ChosenSplits(Plug(t, o));
  }

  /** Whatever was possible before one pass is still possible for some option of that pass. */
  lemma {:induction false} PlugComplete(t: Template, x: string, afterOpen: bool) returns (o: string)
    requires WellNested(t, afterOpen) && HasGroup(t) && x in Meaning(t)
    ensures Piece(t, o) && x in Meaning(Plug(t, o))
  {
    match t
    case Lit(c, rest) =>
      var a, y :| a in {[c]} && y in Meaning(rest) && x == a + y;
      o := PlugComplete(rest, y, afterOpen || c == '{');
    case Group(body, rest) =>
      var u, y :| u in Chosen(body) && y in Meaning(rest) && x == u + y;
      if HasGroup(body) {
        o := PlugChosenComplete(body, u);
      } else {
        ChosenIsPieces(body, u);
        o := u;
        MeaningOfChars(o, rest);
      }
  }

  lemma {:induction false} GroupFreeMeaning(t: Template)
    requires !HasGroup(t)
    ensures Meaning(t) == {Show(t)}
  {
    match t
    case End =>
    case Lit(c, rest) =>
      GroupFreeMeaning(rest);
      assert Cat({[c]}, {Show(rest)}) == {[c] + Show(rest)};
  }
}
