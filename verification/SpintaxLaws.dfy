/** The loop of `spin`, and the theorem that it returns exactly the strings its text means. */
module SpintaxLaws {
  import opened Spintax
  import opened SpintaxSearch
  import opened SpintaxMeaning

  /** Soundness: whatever the draws are, the loop returns a string the template stands for. */
  lemma {:induction false} SpinMeansTemplate(t: Template, rng: nat -> nat, n: nat)
    requires WellNested(t, false)
    ensures SpinFrom(Show(t), rng, n) in Meaning(t)
    decreases Groups(t)
  {
    SearchFindsFirst(t, false);
    if HasGroup(t) {
      var options := Split(Show(First(t)));
      var o := options[rng(n) % |options|];
      PickKeepsShape(t, o);
      SpinMeansTemplate(Plug(t, o), rng, n + 1);
      PlugSound(t, o, false);
    } else {
      GroupFreeMeaning(t);
    }
  }

  /** The loop itself. */
  method Spin(text: string, rng: nat -> nat) returns (result: string)
    ensures result == SpinFrom(text, rng, 0)
    ensures result in Meaning(Parse(text))
    ensures Search(result).NoMatch?
  {
    result := text;
    var drawn: nat := 0;
    while true
      invariant SpinFrom(result, rng, drawn) == SpinFrom(text, rng, 0)
      decreases Opens(result)
    {
      var m := Search(result);
      if m.NoMatch? {
        break;
      }
      var options := Split(m.body);
      var choice := options[rng(drawn) % |options|];
      SearchSplits(result);
      ReplacingLowersOpens(result, choice);
      result := m.before + choice + m.after;
      drawn := drawn + 1;
    }
    ParseShows(text);
    SpinMeansTemplate(Parse(text), rng, 0);
  }

  lemma PickKeepsShape(t: Template, o: string)
    requires WellNested(t, false) && HasGroup(t) && Piece(t, o)
    ensures BraceFree(o) && WellNested(Plug(t, o), false) && Groups(Plug(t, o)) < Groups(t)
    ensures Show(Plug(t, o)) == Before(t) + o + After(t)
  {
    PlugKeepsShape(t, "", false);
    GroupFreeIsBraceFree(First(t));
    PlugKeepsShape(t, o, false);
    ShowPlug(t, o);
  }

  /** Completeness: every string the template stands for is returned for some draws. */
  lemma {:induction false} SpinReachesMeaning(t: Template, x: string, n: nat) returns (rng: nat -> nat)
    requires WellNested(t, false) && x in Meaning(t)
    ensures SpinFrom(Show(t), rng, n) == x
    decreases Groups(t)
  {
    SearchFindsFirst(t, false);
    if HasGroup(t) {
      var o := PlugComplete(t, x, false);
      PickKeepsShape(t, o);
      var later := SpinReachesMeaning(Plug(t, o), x, n + 1);
      rng := DrawFirst(t, o, later, n);
    } else {
      GroupFreeMeaning(t);
      rng := (k: nat) => 0;
    }
  }

  lemma DrawFirst(t: Template, o: string, later: nat -> nat, n: nat) returns (rng: nat -> nat)
    requires WellNested(t, false) && HasGroup(t) && Piece(t, o)
    ensures SpinFrom(Show(t), rng, n) == SpinFrom(Show(Plug(t, o)), later, n + 1)
  {
    SearchFindsFirst(t, false);
    PickKeepsShape(t, o);
    rng := DrawPiece(Show(t), o, later, n);
  }

  lemma DrawPiece(s: string, o: string, later: nat -> nat, n: nat) returns (rng: nat -> nat)
    requires Search(s).Found? && o in Split(Search(s).body)
    ensures var m := Search(s); SpinFrom(s, rng, n) == SpinFrom(m.before + o + m.after, later, n + 1)
  {
    var m := Search(s);
    var i := IndexOf(Split(m.body), o);
    rng := (k: nat) => if k == n then i else later(k);
    SmallRemainder(rng(n), |Split(m.body)|);
    SpinIgnoresPastDraws(m.before + o + m.after, later, rng, n + 1);
  }

  lemma IndexOf(pieces: seq<string>, o: string) returns (i: nat)
    requires o in pieces
    ensures i < |pieces| && pieces[i] == o
  {
    i :| 0 <= i < |pieces| && pieces[i] == o;
  }

  lemma SmallRemainder(i: nat, m: nat)
    requires i < m
    ensures i % m == i
  {
  }

  lemma {:induction false} SpinIgnoresPastDraws(s: string, r1: nat -> nat, r2: nat -> nat, n: nat)
    requires forall k :: k >= n ==> r1(k) == r2(k)
    ensures SpinFrom(s, r1, n) == SpinFrom(s, r2, n)
    decreases Opens(s)
  {
    match Search(s)
    case NoMatch =>
    case Found(before, body, after) =>
      var options := Split(body);
      var choice := options[r1(n) % |options|];
      SearchSplits(s);
      ReplacingLowersOpens(s, choice);
      SpinIgnoresPastDraws(before + choice + after, r1, r2, n + 1);
  }

  ghost predicate Spins(text: string, x: string) {
    exists rng :: SpinFrom(text, rng, 0) == x
  }

  /** For every text at all, over all draws, `spin` returns exactly what the text means. */
  lemma SpinIsMeaning(text: string, x: string)
    ensures Spins(text, x) <==> x in Meaning(Parse(text))
  {
    ParseShows(text);
    var t := Parse(text);
    if x in Meaning(t) {
      var rng := SpinReachesMeaning(t, x, 0);
      assert SpinFrom(text, rng, 0) == x;
    }
    if Spins(text, x) {
      var rng :| SpinFrom(text, rng, 0) == x;
      SpinMeansTemplate(t, rng, 0);
    }
  }

  /** The meaning does not depend on which template a text is read as. */
  lemma MeaningIsOfTheText(t: Template)
    requires WellNested(t, false)
    ensures Meaning(t) == Meaning(Parse(Show(t)))
  {
    forall x ensures x in Meaning(t) <==> x in Meaning(Parse(Show(t))) {
      SpinIsMeaning(Show(t), x);
      if x in Meaning(t) {
        var rng := SpinReachesMeaning(t, x, 0);
        assert SpinFrom(Show(t), rng, 0) == x;
      }
      if Spins(Show(t), x) {
        var rng :| SpinFrom(Show(t), rng, 0) == x;
        SpinMeansTemplate(t, rng, 0);
      }
    }
  }
}
