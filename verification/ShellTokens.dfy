/**
  The tokens of a text, as gettoken finds them, and the texts that spell a
  sequence of tokens, with white space between them.
 */
module ShellTokens {
  import opened ShellGrammar

  predicate OrdinaryWord(w: string) {
    |w| > 0 && forall k | 0 <= k < |w| :: Ordinary(w[k])
  }

  datatype Tok =
    | Mark(c: char)     // one of < | > & ; ( )
    | Double            // >>
    | Name(w: string)

  predicate Proper(t: Tok) {
    match t
    case Mark(c) => Special(c)
    case Double => true
    case Name(w) => OrdinaryWord(w)
  }

  /*** The tokens of a text ***/

  function TokAt(s: string, i: nat): Tok
    requires i <= |s|
  {
    var t := GetToken(s, i);
    if t.token.Symbol? then Mark(t.token.c) else if t.token.Append? then Double else Name(Read(s, t.span))
  }

  // The tokens from position i on.
  function Toks(s: string, i: nat): (r: seq<Tok>)
    requires i <= |s|
    decreases |s| - i
  {
    if SkipWhite(s, i) == |s| then [] else [TokAt(s, i)] + Toks(s, GetToken(s, i).next)
  }

  lemma SkipTwice(s: string, i: nat)
    requires i <= |s|
    ensures SkipWhite(s, SkipWhite(s, i)) == SkipWhite(s, i)
    ensures GetToken(s, SkipWhite(s, i)) == GetToken(s, i)
  {
    SkipWhiteStops(s, i);
  }

  // White space in front does not matter.
  lemma ToksSkip(s: string, i: nat)
    requires i <= |s|
    ensures Toks(s, SkipWhite(s, i)) == Toks(s, i)
  {
    SkipTwice(s, i);
  }

  lemma ToksStep(s: string, i: nat, t: Tok, rest: seq<Tok>)
    requires i <= |s| && Toks(s, i) == [t] + rest
    ensures SkipWhite(s, i) < |s| && TokAt(s, i) == t && Toks(s, GetToken(s, i).next) == rest
  {
    assert Toks(s, i)[1..] == rest;
  }

  /*** Spelling ***/

  predicate Blank(g: string) {
    forall k | 0 <= k < |g| :: White(g[k])
  }

  function Spell(t: Tok): string {
    match t
    case Mark(c) => [c]
    case Double => ">>"
    case Name(w) => w
  }

  // The tokens in order, with gaps[k] in front of the k-th and the last gap at the end.
  function Spelled(toks: seq<Tok>, gaps: seq<string>): string
    requires |gaps| == |toks| + 1
  {
    if toks == [] then gaps[0] else gaps[0] + Spell(toks[0]) + Spelled(toks[1..], gaps[1..])
  }

  // Without a gap these two would be read as one token or as two others.
  predicate Touchy(a: Tok, b: Tok) {
    (a.Name? && b.Name?) || (a == Mark('>') && (b == Mark('>') || b == Double))
  }

  predicate GapsOk(toks: seq<Tok>, gaps: seq<string>) {
    && |gaps| == |toks| + 1
    && (forall k | 0 <= k < |gaps| :: Blank(gaps[k]))
    && (forall k | 0 <= k < |toks| :: Proper(toks[k]))
    && forall k | 1 <= k < |toks| && Touchy(toks[k - 1], toks[k]) :: gaps[k] != ""
  }

  lemma GapsRest(toks: seq<Tok>, gaps: seq<string>)
    requires GapsOk(toks, gaps) && toks != []
    ensures GapsOk(toks[1..], gaps[1..])
  {
    var toks1, gaps1 := toks[1..], gaps[1..];
    forall k | 1 <= k < |toks1| && Touchy(toks1[k - 1], toks1[k])
      ensures gaps1[k] != ""
    {
      assert Touchy(toks[k], toks[k + 1]);
    }
  }

  lemma {:induction false} SkipTo(s: string, i: nat, j: nat)
    requires i <= j <= |s| && (forall k | i <= k < j :: White(s[k])) && (j == |s| || !White(s[j]))
    ensures SkipWhite(s, i) == j
    decreases j - i
  {
    if i < j {
      SkipTo(s, i + 1, j);
    }
  }

  lemma {:induction false} WordEndAt(s: string, i: nat, e: nat)
    requires i <= e <= |s| && (forall k | i <= k < e :: Ordinary(s[k])) && (e == |s| || !Ordinary(s[e]))
    ensures WordEnd(s, i) == e
    decreases e - i
  {
    if i < e {
      WordEndAt(s, i + 1, e);
    }
  }

  // What the spelling of tokens begins with.
  lemma SpelledHead(toks: seq<Tok>, gaps: seq<string>)
    requires GapsOk(toks, gaps) && Spelled(toks, gaps) != ""
    ensures if gaps[0] != "" then White(Spelled(toks, gaps)[0])
            else toks != [] && Spelled(toks, gaps)[0] == Spell(toks[0])[0]
  {
    assert Blank(gaps[0]);
    if toks != [] {
      assert Proper(toks[0]);
    }
  }

  // The token t that ends at e, before the spelling of others, does not go on there.
  lemma EndsThere(s: string, e: nat, t: Tok, toks: seq<Tok>, gaps: seq<string>)
    requires e < |s| && GapsOk(toks, gaps) && s[e..] == Spelled(toks, gaps)
    requires toks != [] && Touchy(t, toks[0]) ==> gaps[0] != ""
    ensures t.Name? ==> !Ordinary(s[e])
    ensures t == Mark('>') ==> s[e] != '>'
  {
    assert s[e] == s[e..][0];
    SpelledHead(toks, gaps);
    if toks != [] {
      assert Proper(toks[0]);
    }
  }

  // The token whose text stands from q to e.
  lemma TokIs(s: string, q: nat, e: nat, t: Tok)
    requires Proper(t) && q <= e <= |s| && s[q..e] == Spell(t)
    requires e < |s| && t.Name? ==> !Ordinary(s[e])
    requires e < |s| && t == Mark('>') ==> s[e] != '>'
    ensures q < e && !White(s[q]) && TokAt(s, q) == t && GetToken(s, q).next == SkipWhite(s, e)
  {
    var w := s[q..e];
    forall k | q <= k < e
      ensures s[k] == Spell(t)[k - q]
    {
      assert w[k - q] == s[k];
    }
    if t.Name? {
      WordEndAt(s, q, e);
    }
    assert SkipWhite(s, q) == q;
  }

  // Where the parts of g + w + rest stand.
  lemma Parts(s: string, i: nat, g: string, w: string, rest: string)
    requires i <= |s| && s[i..] == g + w + rest && Blank(g)
    ensures var q := i + |g|; var e := q + |w|;
            && e <= |s| && s[q..e] == w && s[e..] == rest && forall k | i <= k < q :: White(s[k])
  {
    var t, q, e := s[i..], i + |g|, i + |g| + |w|;
    assert s[q..e] == t[|g|..|g| + |w|] == w;
    assert s[e..] == t[|g| + |w|..] == rest;
    forall k | i <= k < q
      ensures White(s[k])
    {
      assert s[k] == t[k - i];
    }
  }

  lemma ToksFrom(s: string, i: nat, q: nat, e: nat, t: Tok)
    requires i <= q < |s| && SkipWhite(s, i) == q && TokAt(s, q) == t
    requires e <= |s| && GetToken(s, q).next == SkipWhite(s, e)
    ensures Toks(s, i) == [t] + Toks(s, e)
  {
    SkipTwice(s, i);
    ToksSkip(s, e);
  }

  lemma SpelledParts(s: string, i: nat, toks: seq<Tok>, gaps: seq<string>, q: nat, e: nat)
    requires i <= |s| && GapsOk(toks, gaps) && s[i..] == Spelled(toks, gaps)
    requires toks != [] && q == i + |gaps[0]| && e == q + |Spell(toks[0])|
    ensures GapsOk(toks[1..], gaps[1..]) && e <= |s| && s[e..] == Spelled(toks[1..], gaps[1..])
    ensures s[q..e] == Spell(toks[0]) && (forall k | i <= k < q :: White(s[k])) && Proper(toks[0])
    ensures |toks| > 1 && Touchy(toks[0], toks[1]) ==> gaps[1] != ""
  {
    assert Blank(gaps[0]);
    Parts(s, i, gaps[0], Spell(toks[0]), Spelled(toks[1..], gaps[1..]));
    GapsRest(toks, gaps);
  }

  // The first token t of a spelling, with its gap from i to q and its text from q to e, and the rest.
  lemma TokThen(s: string, i: nat, q: nat, e: nat, t: Tok, toks: seq<Tok>, gaps: seq<string>)
    requires i <= q <= e <= |s| && (forall k | i <= k < q :: White(s[k])) && Proper(t) && s[q..e] == Spell(t)
    requires GapsOk(toks, gaps) && s[e..] == Spelled(toks, gaps)
    requires toks != [] && Touchy(t, toks[0]) ==> gaps[0] != ""
    ensures Toks(s, i) == [t] + Toks(s, e)
  {
    if e < |s| {
      EndsThere(s, e, t, toks, gaps);
    }
    TokIs(s, q, e, t);
    SkipTo(s, i, q);
    ToksFrom(s, i, q, e, t);
  }

  lemma NoToks(s: string, i: nat, g: string)
    requires i <= |s| && Blank(g) && s[i..] == g
    ensures Toks(s, i) == []
  {
    Parts(s, i, g, "", "");
    SkipTo(s, i, |s|);
  }

  /** Every spelling of tokens, whatever the white space, is read as those tokens. */
  lemma {:induction false} SpelledToks(s: string, i: nat, toks: seq<Tok>, gaps: seq<string>)
    requires i <= |s| && GapsOk(toks, gaps) && s[i..] == Spelled(toks, gaps)
    ensures Toks(s, i) == toks
    decreases |toks|
  {
    if toks == [] {
      NoToks(s, i, gaps[0]);
    } else {
      var q := i + |gaps[0]|;
      var e := q + |Spell(toks[0])|;
      SpelledParts(s, i, toks, gaps, q, e);
      TokThen(s, i, q, e, toks[0], toks[1..], gaps[1..]);
      SpelledToks(s, e, toks[1..], gaps[1..]);
      assert [toks[0]] + toks[1..] == toks;
    }
  }

  /*** Every text is a spelling of its tokens ***/

  lemma {:induction false} SkipWhites(s: string, i: nat)
    requires i <= |s|
    ensures Blank(s[i..SkipWhite(s, i)])
    decreases |s| - i
  {
    if i < |s| && White(s[i]) {
      SkipWhites(s, i + 1);
      assert s[i..SkipWhite(s, i)] == [s[i]] + s[i + 1..SkipWhite(s, i + 1)];
    }
  }

  lemma {:induction false} WordEndStops(s: string, i: nat)
    requires i <= |s|
    ensures forall k | i <= k < WordEnd(s, i) :: Ordinary(s[k])
    ensures WordEnd(s, i) == |s| || !Ordinary(s[WordEnd(s, i)])
    decreases |s| - i
  {
    if i < |s| && Ordinary(s[i]) {
      WordEndStops(s, i + 1);
    }
  }

  // The token at q and the end of its text; what stands right behind it does not belong to it.
  lemma TokText(s: string, q: nat) returns (e: nat)
    requires q < |s| && !White(s[q])
    ensures q < e <= |s| && s[q..e] == Spell(TokAt(s, q)) && Proper(TokAt(s, q))
    ensures GetToken(s, q).next == SkipWhite(s, e)
    ensures e < |s| && TokAt(s, q).Name? ==> !Ordinary(s[e])
    ensures e < |s| && TokAt(s, q) == Mark('>') ==> s[e] != '>'
  {
    e := TokenAt(s, q).1;
    WordEndStops(s, q);
  }

  // The first token, if there is one.
  lemma ToksHead(s: string, i: nat)
    requires i <= |s| && Toks(s, i) != []
    ensures Toks(s, i)[0] == TokAt(s, i) && Proper(TokAt(s, i)) && SkipWhite(s, i) < |s|
    ensures Toks(s, i) == [TokAt(s, i)] + Toks(s, GetToken(s, i).next)
  {
    SkipTwice(s, i);
    SkipWhiteStops(s, i);
    var e := TokText(s, SkipWhite(s, i));
  }

  // How the next token begins.
  lemma TokHead(s: string, q: nat)
    requires q < |s| && !White(s[q])
    ensures TokAt(s, q).Name? <==> Ordinary(s[q])
    ensures TokAt(s, q) == Mark('>') || TokAt(s, q) == Double ==> s[q] == '>'
  {
  }

  lemma TokensTouch(s: string, i: nat, q: nat, e: nat)
    requires i <= q < e <= |s| && SkipWhite(s, i) == q && GetToken(s, q).next == SkipWhite(s, e)
    requires e < |s| && TokAt(s, q).Name? ==> !Ordinary(s[e])
    requires e < |s| && TokAt(s, q) == Mark('>') ==> s[e] != '>'
    ensures Toks(s, i) == [TokAt(s, q)] + Toks(s, e)
    ensures Toks(s, e) != [] && Touchy(TokAt(s, q), Toks(s, e)[0]) ==> SkipWhite(s, e) > e
  {
    ToksFrom(s, i, q, e, TokAt(s, q));
    if SkipWhite(s, e) == e < |s| {
      SkipWhiteStops(s, e);
      TokHead(s, e);
    }
  }

  lemma SpelledMore(s: string, i: nat, q: nat, e: nat, t: Tok, toks: seq<Tok>, gaps: seq<string>)
    requires i <= q < e <= |s| && Blank(s[i..q]) && s[q..e] == Spell(t) && Proper(t)
    requires GapsOk(toks, gaps) && s[e..] == Spelled(toks, gaps) && (toks != [] && Touchy(t, toks[0]) ==> gaps[0] != "")
    ensures GapsOk([t] + toks, [s[i..q]] + gaps) && s[i..] == Spelled([t] + toks, [s[i..q]] + gaps)
  {
    var toks1, gaps1 := [t] + toks, [s[i..q]] + gaps;
    assert toks1[1..] == toks && gaps1[1..] == gaps;
    assert s[i..] == s[i..q] + s[q..e] + s[e..];
    forall k | 1 <= k < |toks1| && Touchy(toks1[k - 1], toks1[k])
      ensures gaps1[k] != ""
    {
      assert k > 1 ==> toks1[k - 1] == toks[k - 2];
    }
  }

  /** Every text spells its tokens. */
  lemma {:induction false} EveryText(s: string, i: nat) returns (gaps: seq<string>)
    requires i <= |s|
    ensures GapsOk(Toks(s, i), gaps) && s[i..] == Spelled(Toks(s, i), gaps) && |gaps[0]| == SkipWhite(s, i) - i
    decreases |s| - i
  {
    var q := SkipWhite(s, i);
    SkipWhites(s, i);
    if q == |s| {
      gaps := [s[i..q]];
    } else {
      SkipWhiteStops(s, i);
      var e := TokText(s, q);
      TokensTouch(s, i, q, e);
      var gaps1 := EveryText(s, e);
      SpelledMore(s, i, q, e, TokAt(s, q), Toks(s, e), gaps1);
      gaps := [s[i..q]] + gaps1;
    }
  }
}
