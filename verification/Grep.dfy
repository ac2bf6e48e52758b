/**
  grep.c's matcher.  A pattern means a sequence of items; a match is a choice
  of cut positions in the text, one piece per item.
 */
module Grep {

  datatype Item =
    | One(c: char)    // one character; '.' stands for any
    | Star(c: char)   // any number of such characters
    | AtEnd           // a final, unstarred '$'

  // How matchhere reads a pattern.
  function Items(re: string): (r: seq<Item>) {
    if re == "" then []
    else if |re| >= 2 && re[1] == '*' then [Star(re[0])] + Items(re[2..])
    else if re == "$" then [AtEnd]
    else [One(re[0])] + Items(re[1..])
  }

  // The pattern that spells the items.
  function Spell(items: seq<Item>): string {
    if items == [] then ""
    else (match items[0] case One(c) => [c] case Star(c) => [c, '*'] case AtEnd => "$") + Spell(items[1..])
  }

  /** Reading a pattern loses nothing. */
  lemma {:induction false} SpellItems(re: string)
    ensures Spell(Items(re)) == re
    decreases |re|
  {
    if |re| >= 2 && re[1] == '*' {
      SpellItems(re[2..]);
      assert ([Star(re[0])] + Items(re[2..]))[1..] == Items(re[2..]);
    } else if re != "" && re != "$" {
      SpellItems(re[1..]);
      assert ([One(re[0])] + Items(re[1..]))[1..] == Items(re[1..]);
    }
  }

  predicate Fits(c: char, x: char) {
    c == '.' || c == x
  }

  // Item a matches text[i..j].
  ghost predicate Piece(a: Item, text: string, i: nat, j: nat) {
    && i <= j <= |text|
    && match a
       case One(c) => j == i + 1 && Fits(c, text[i])
       case Star(c) => forall k | i <= k < j :: Fits(c, text[k])
       case AtEnd => i == j == |text|
  }

  // cuts[k]..cuts[k + 1] is the piece of the text that item k matches.
  ghost predicate Cuts(items: seq<Item>, text: string, cuts: seq<nat>) {
    && |cuts| == |items| + 1
    && (forall k | 0 <= k < |cuts| :: cuts[k] <= |text|)
    && forall k: nat | k < |items| :: PieceAt(items, text, cuts, k)
  }

  ghost predicate PieceAt(items: seq<Item>, text: string, cuts: seq<nat>, k: nat)
    requires k < |items| && |cuts| == |items| + 1
  {
    Piece(items[k], text, cuts[k], cuts[k + 1])
  }

  // The items match at position i of the text.
  ghost predicate MatchesAt(items: seq<Item>, text: string, i: nat) {
    exists cuts | Cuts(items, text, cuts) :: cuts[0] == i
  }

  /** The meaning of a whole pattern: '^' at the front pins the match to the start of the text. */
  ghost predicate Means(re: string, text: string) {
    if re != "" && re[0] == '^' then MatchesAt(Items(re[1..]), text, 0)
    else exists i: nat :: i <= |text| && MatchesAt(Items(re), text, i)
  }

  lemma MatchesNothing(text: string, i: nat)
    requires i <= |text|
    ensures MatchesAt([], text, i)
  {
    var cuts: seq<nat> := [i];
    assert Cuts([], text, cuts);
  }

  lemma MatchesFirst(a: Item, rest: seq<Item>, text: string, i: nat, j: nat)
    requires Piece(a, text, i, j) && MatchesAt(rest, text, j)
    ensures MatchesAt([a] + rest, text, i)
  {
    var cuts :| Cuts(rest, text, cuts) && cuts[0] == j;
    var all, more := [a] + rest, [i] + cuts;
    forall k: nat | k < |all|
      ensures PieceAt(all, text, more, k)
    {
      assert k > 0 ==> PieceAt(rest, text, cuts, k - 1);
    }
    assert Cuts(all, text, more);
  }

  lemma MatchesSplit(a: Item, rest: seq<Item>, text: string, i: nat) returns (j: nat)
    requires MatchesAt([a] + rest, text, i)
    ensures Piece(a, text, i, j) && MatchesAt(rest, text, j)
  {
    var all := [a] + rest;
    var cuts :| Cuts(all, text, cuts) && cuts[0] == i;
    j := cuts[1];
    assert PieceAt(all, text, cuts, 0);
    forall k: nat | k < |rest|
      ensures PieceAt(rest, text, cuts[1..], k)
    {
      assert PieceAt(all, text, cuts, k + 1);
    }
    assert Cuts(rest, text, cuts[1..]);
  }

  // A star either matches nothing or takes one fitting character more.
  lemma StarUnfolds(c: char, rest: seq<Item>, text: string, i: nat)
    requires i <= |text|
    ensures MatchesAt([Star(c)] + rest, text, i) <==>
              MatchesAt(rest, text, i) || (i < |text| && Fits(c, text[i]) && MatchesAt([Star(c)] + rest, text, i + 1))
  {
    if MatchesAt([Star(c)] + rest, text, i) {
      var j := MatchesSplit(Star(c), rest, text, i);
      if j > i {
        MatchesFirst(Star(c), rest, text, i + 1, j);
      }
    }
    if MatchesAt(rest, text, i) {
      MatchesFirst(Star(c), rest, text, i, i);
    }
    if i < |text| && Fits(c, text[i]) && MatchesAt([Star(c)] + rest, text, i + 1) {
      var j := MatchesSplit(Star(c), rest, text, i + 1);
      MatchesFirst(Star(c), rest, text, i, j);
    }
  }

  lemma OneUnfolds(a: Item, rest: seq<Item>, text: string, i: nat)
    requires i <= |text| && !a.Star?
    ensures MatchesAt([a] + rest, text, i) <==>
              if a.AtEnd? then i == |text| && MatchesAt(rest, text, i)
              else i < |text| && Fits(a.c, text[i]) && MatchesAt(rest, text, i + 1)
  {
    if MatchesAt([a] + rest, text, i) {
      var j := MatchesSplit(a, rest, text, i);
    }
    if a.AtEnd? && i == |text| && MatchesAt(rest, text, i) {
      MatchesFirst(a, rest, text, i, i);
    }
    if a.One? && i < |text| && Fits(a.c, text[i]) && MatchesAt(rest, text, i + 1) {
      MatchesFirst(a, rest, text, i, i + 1);
    }
  }

  /*** What patterns mean, by their characters: the empty one always matches, and these cases are all the others ***/

  // The n characters from i on fit c.
  predicate Run(c: char, text: string, i: nat, n: nat) {
    i + n <= |text| && forall k | i <= k < i + n :: Fits(c, text[k])
  }

  /** c* stands for any number of characters that fit c, none included; c may be any character. */
  lemma StarLaw(c: char, re: string, text: string, i: nat)
    ensures MatchesAt(Items([c, '*'] + re), text, i) <==>
              exists n: nat :: Run(c, text, i, n) && MatchesAt(Items(re), text, i + n)
  {
    var all := [c, '*'] + re;
    assert all[2..] == re;
    if MatchesAt(Items(all), text, i) {
      var j := MatchesSplit(Star(c), Items(re), text, i);
      assert Run(c, text, i, j - i);
    }
    if n: nat :| Run(c, text, i, n) && MatchesAt(Items(re), text, i + n) {
      MatchesFirst(Star(c), Items(re), text, i, i + n);
    }
  }

  /** A $ at the end of the pattern matches only the end of the text. */
  lemma EndLaw(text: string, i: nat)
    requires i <= |text|
    ensures MatchesAt(Items("$"), text, i) <==> i == |text|
  {
    OneUnfolds(AtEnd, [], text, i);
    assert Items("$") == [AtEnd] + [];
    MatchesNothing(text, i);
  }

  /** Any other character, $ included, matches itself, and . any one character. */
  lemma CharLaw(c: char, re: string, text: string, i: nat)
    requires i <= |text| && (re == "" || re[0] != '*') && !(c == '$' && re == "")
    ensures MatchesAt(Items([c] + re), text, i) <==>
              i < |text| && (c == '.' || c == text[i]) && MatchesAt(Items(re), text, i + 1)
  {
    var all := [c] + re;
    assert all[1..] == re && (re != "" ==> all[1] == re[0]);
    OneUnfolds(One(c), Items(re), text, i);
  }

  /*** The code: `text` is scanned from position i; its end plays the NUL ***/

  method MatchHere(re: string, text: string, i: nat) returns (r: bool)
    requires i <= |text|
    ensures r <==> MatchesAt(Items(re), text, i)
    decreases |re|, 0
  {
    if re == "" {
      MatchesNothing(text, i);
      return true;
    }
    if |re| >= 2 && re[1] == '*' {
      r := MatchStar(re[0], re[2..], text, i);
      return;
    }
    if re[0] == '$' && |re| == 1 {
      assert Items(re) == [AtEnd] + [];
      OneUnfolds(AtEnd, [], text, i);
      MatchesNothing(text, i);
      return i == |text|;
    }
    OneUnfolds(One(re[0]), Items(re[1..]), text, i);
    if i < |text| && (re[0] == '.' || re[0] == text[i]) {
      r := MatchHere(re[1..], text, i + 1);
      return;
    }
    return false;
  }

  method MatchStar(c: char, re: string, text: string, i: nat) returns (r: bool)
    requires i <= |text|
    ensures r <==> MatchesAt([Star(c)] + Items(re), text, i)
    decreases |re|, 1
  {
    var j := i;
    while true
      invariant i <= j <= |text|
      invariant MatchesAt([Star(c)] + Items(re), text, i) <==> MatchesAt([Star(c)] + Items(re), text, j)
      decreases |text| - j
    {
      StarUnfolds(c, Items(re), text, j);
      var here := MatchHere(re, text, j);
      if here {
        return true;
      }
      if j < |text| && (text[j] == c || c == '.') {
        j := j + 1;
      } else {
        return false;
      }
    }
  }

  /** match terminates and finds a match exactly when there is one. */
  method Match(re: string, text: string) returns (r: bool)
    ensures r <==> Means(re, text)
  {
    if re != "" && re[0] == '^' {
      r := MatchHere(re[1..], text, 0);
      return;
    }
    var i := 0;
    while true
      invariant 0 <= i <= |text|
      invariant forall k: nat | k < i :: !MatchesAt(Items(re), text, k)
      decreases |text| - i
    {
      var here := MatchHere(re, text, i);
      if here {
        return true;
      }
      if i == |text| {
        return false;
      }
      i := i + 1;
    }
  }
}
