/** userspace/programs/grep.c: the backtracking matcher of Kernighan and Pike. Strings are
    sequences of the characters before the terminating NUL. */
module Grep {

  // ----- what a pattern means ----------------------------------------------

  /** One character, or any number of characters; '.' stands for every character. */
  datatype Item = One(c: char) | Star(c: char)

  /** `dollar`: the match must end at the end of the text. */
  datatype Pattern = Pattern(items: seq<Item>, dollar: bool)

  function Parse(re: string): (p: Pattern)
    decreases |re|
  {
    if re == "" then Pattern([], false)
    else if |re| >= 2 && re[1] == '*' then var p := Parse(re[2..]); Pattern([Star(re[0])] + p.items, p.dollar)
    else if re == "$" then Pattern([], true)
    else var p := Parse(re[1..]); Pattern([One(re[0])] + p.items, p.dollar)
  }

  /** The pattern, written out. */
  function Written(p: Pattern): (re: string)
    decreases |p.items|
  {
    if p.items == [] then if p.dollar then "$" else ""
    else (if p.items[0].One? then [p.items[0].c] else [p.items[0].c, '*']) + Written(p.(items := p.items[1..]))
  }

  /** A single character is not read as something else: no star follows it, and a final '$'
      that is not the last one of the pattern is no character. */
  predicate Readable(p: Pattern)
    decreases |p.items|
  {
    p.items == [] ||
    (&& (p.items[0].One? ==> if |p.items| > 1 then p.items[1].c != '*' else p.dollar || p.items[0].c != '$')
     && Readable(p.(items := p.items[1..])))
  }

  /** Every string is some pattern written out, ... */
  lemma {:induction false} WrittenParse(re: string)
    ensures Written(Parse(re)) == re && Readable(Parse(re))
    decreases |re|
  {
    if re != "" && re != "$" {
      var n := if |re| >= 2 && re[1] == '*' then 2 else 1;
      var p, q := Parse(re), Parse(re[n..]);
      WrittenParse(re[n..]);
      FirstItem(re[n..]);
      assert p.(items := p.items[1..]) == q;
      hide Parse;
      assert re == re[..n] + re[n..];
    }
  }

  /** The first item is of the first character. */
  lemma FirstItem(re: string)
    ensures Parse(re).items != [] ==> re != "" && Parse(re).items[0].c == re[0]
    ensures Parse(re).items == [] ==> re == if Parse(re).dollar then "$" else ""
  {
  }

  lemma WrittenFirst(p: Pattern)
    ensures p.items != [] ==> Written(p) != "" && Written(p)[0] == p.items[0].c
    ensures p.items == [] ==> Written(p) == if p.dollar then "$" else ""
  {
  }

  /** ... and a pattern written out reads as itself exactly if it is readable. */
  lemma ParseWritten(p: Pattern)
    ensures Parse(Written(p)) == p <==> Readable(p)
  {
    if Readable(p) {
      ParseReadable(p);
    } else {
      WrittenParse(Written(p));
    }
  }

  lemma {:induction false} ParseReadable(p: Pattern)
    requires Readable(p)
    ensures Parse(Written(p)) == p
    decreases |p.items|
  {
    if p.items != [] {
      var q := p.(items := p.items[1..]);
      ParseReadable(q);
      WrittenFirst(q);
      var re, n := Written(p), if p.items[0].One? then 1 else 2;
      assert re[n..] == Written(q);
      hide Written;
      assert p.items == [p.items[0]] + q.items;
    }
  }

  /** What a pattern character stands for. */
  ghost predicate StandsFor(c: char, x: char) {
    c != '.' ==> x == c
  }

  /** Every character, exactly for the dot; otherwise itself and nothing else. */
  lemma DotIsAny(c: char, x: char)
    ensures (forall y :: StandsFor(c, y)) <==> c == '.'
    ensures c != '.' ==> (StandsFor(c, x) <==> x == c)
  {
    if c != '.' {
      var y := if c == 'a' then 'b' else 'a';
      assert !StandsFor(c, y);
    }
  }

  ghost predicate Fits(item: Item, w: string) {
    match item
    case One(c) => |w| == 1 && StandsFor(c, w[0])
    case Star(c) => forall i :: 0 <= i < |w| ==> StandsFor(c, w[i])
  }

  /** The test of matchhere and matchstar. */
  predicate Accepts(c: char, x: char)
    ensures Accepts(c, x) <==> StandsFor(c, x)
  {
    c == '.' || c == x
  }

  /** The piece of `w` between cuts `i` and `i + 1` fits item `i`. */
  ghost predicate Piece(items: seq<Item>, w: string, cuts: seq<nat>, i: nat) {
    i < |items| && i + 1 < |cuts| && cuts[i] <= cuts[i + 1] <= |w| && Fits(items[i], w[cuts[i]..cuts[i + 1]])
  }

  /** `cuts` divides `w` into consecutive pieces, one for each item. */
  ghost predicate Pieces(items: seq<Item>, w: string, cuts: seq<nat>) {
    && |cuts| == |items| + 1 && cuts[0] == 0 && cuts[|items|] == |w|
    && forall i: nat :: i < |items| ==> Piece(items, w, cuts, i)
  }

  ghost predicate InLanguage(items: seq<Item>, w: string) {
    exists cuts: seq<nat> :: Pieces(items, w, cuts)
  }

  /** Some text[i..j] is in the language of the pattern; a leading '^' ties i to the
      beginning of the text, a final '$' ties j to its end. */
  ghost predicate Matches(re: string, text: string) {
    var caret := re != "" && re[0] == '^';
    var p := Parse(if caret then re[1..] else re);
    exists i, j :: 0 <= i <= j <= |text| && (caret ==> i == 0) && (p.dollar ==> j == |text|)
      && InLanguage(p.items, text[i..j])
  }

  /** The same of matches that begin where the text begins. */
  ghost predicate Here(p: Pattern, text: string) {
    exists j :: 0 <= j <= |text| && (p.dollar ==> j == |text|) && InLanguage(p.items, text[..j])
  }

  // ----- how languages are taken apart -------------------------------------

  lemma LanguageNil(w: string)
    ensures InLanguage([], w) <==> w == ""
  {
    if w == "" {
      assert Pieces([], w, [0]);
    }
  }

  lemma SliceOfRest(w: string, k: nat, a: nat, b: nat)
    requires k <= |w| && a <= b <= |w| - k
    ensures w[k..][a..b] == w[k + a..k + b]
  {
  }

  /** The cuts of `w` when those of w[k..] are `cuts` and the first piece ends at `k`. */
  ghost function Shift(cuts: seq<nat>, k: nat): (r: seq<nat>)
    ensures |r| == |cuts| + 1 && r[0] == 0 && forall i :: 0 < i < |r| ==> r[i] == k + cuts[i - 1]
  {
    seq(|cuts| + 1, i requires 0 <= i <= |cuts| => if i == 0 then 0 else k + cuts[i - 1])
  }

  lemma PieceUp(x: Item, rest: seq<Item>, w: string, k: nat, cuts: seq<nat>, i: nat)
    requires k <= |w| && Piece(rest, w[k..], cuts, i)
    ensures Piece([x] + rest, w, Shift(cuts, k), i + 1)
  {
    hide Fits;
    var all := Shift(cuts, k);
    assert all[i + 1] == k + cuts[i] && all[i + 2] == k + cuts[i + 1];
    SliceOfRest(w, k, cuts[i], cuts[i + 1]);
    assert ([x] + rest)[i + 1] == rest[i];
  }

  lemma LanguageCons(x: Item, rest: seq<Item>, w: string, k: nat)
    requires k <= |w| && Fits(x, w[..k]) && InLanguage(rest, w[k..])
    ensures InLanguage([x] + rest, w)
  {
    hide Fits, Shift;
    var cuts: seq<nat> :| Pieces(rest, w[k..], cuts);
    var all, items := Shift(cuts, k), [x] + rest;
    assert all[1] == k + cuts[0] == k && all[|items|] == k + cuts[|rest|] == |w|;
    forall i: nat | i < |items| ensures Piece(items, w, all, i) {
      if i > 0 {
        assert Piece(rest, w[k..], cuts, i - 1);
        hide Piece;
        PieceUp(x, rest, w, k, cuts, i - 1);
      } else {
        assert w[0..k] == w[..k];
      }
    }
    assert Pieces(items, w, all);
  }

  /** The cuts of the rest of `w`. */
  ghost function Unshift(cuts: seq<nat>, k: nat): (r: seq<nat>)
    requires |cuts| > 0 && forall i :: 1 <= i < |cuts| ==> k <= cuts[i]
    ensures |r| == |cuts| - 1 && forall i :: 0 <= i < |r| ==> k + r[i] == cuts[i + 1]
  {
    seq<nat>(|cuts| - 1, i requires 0 <= i < |cuts| - 1 => cuts[i + 1] - k)
  }

  lemma PieceDown(x: Item, rest: seq<Item>, w: string, k: nat, cuts: seq<nat>, i: nat)
    requires k <= |w| && |cuts| == |rest| + 2 && (forall j :: 1 <= j < |cuts| ==> k <= cuts[j])
             && Piece([x] + rest, w, cuts, i + 1)
    ensures Piece(rest, w[k..], Unshift(cuts, k), i)
  {
    hide Fits;
    var tail := Unshift(cuts, k);
    assert k + tail[i] == cuts[i + 1] && k + tail[i + 1] == cuts[i + 2];
    SliceOfRest(w, k, tail[i], tail[i + 1]);
    assert ([x] + rest)[i + 1] == rest[i];
  }

  lemma LanguageUncons(x: Item, rest: seq<Item>, w: string) returns (k: nat)
    requires InLanguage([x] + rest, w)
    ensures k <= |w| && Fits(x, w[..k]) && InLanguage(rest, w[k..])
  {
    hide Fits, Unshift;
    var items := [x] + rest;
    var cuts: seq<nat> :| Pieces(items, w, cuts);
    k := cuts[1];
    assert Piece(items, w, cuts, 0) && w[0..k] == w[..k];
    Rising(items, w, cuts, 1);
    var tail := Unshift(cuts, k);
    assert k + tail[0] == cuts[1] && k + tail[|rest|] == cuts[|items|];
    forall i: nat | i < |rest| ensures Piece(rest, w[k..], tail, i) {
      assert Piece(items, w, cuts, i + 1);
      hide Piece;
      PieceDown(x, rest, w, k, cuts, i);
    }
    assert Pieces(rest, w[k..], tail);
  }

  lemma {:induction false} Rising(items: seq<Item>, w: string, cuts: seq<nat>, from: nat)
    requires Pieces(items, w, cuts) && from <= |items|
    ensures forall i :: from <= i <= |items| ==> cuts[from] <= cuts[i]
    decreases |items| - from
  {
    hide Fits;
    if from < |items| {
      Rising(items, w, cuts, from + 1);
      assert Piece(items, w, cuts, from);
    }
  }

  // ----- the four cases of matchhere ---------------------------------------

  lemma HereEmpty(text: string)
    ensures Here(Pattern([], false), text)
    ensures Here(Pattern([], true), text) <==> text == ""
  {
    LanguageNil(text[..0]);
    LanguageNil(text);
    assert text[..|text|] == text;
  }

  lemma HereCons(x: Item, p: Pattern, text: string, k: nat)
    requires k <= |text| && Fits(x, text[..k]) && Here(p, text[k..])
    ensures Here(Pattern([x] + p.items, p.dollar), text)
  {
    var j :| 0 <= j <= |text[k..]| && (p.dollar ==> j == |text[k..]|) && InLanguage(p.items, text[k..][..j]);
    var w := text[..k + j];
    assert w[..k] == text[..k] && w[k..] == text[k..][..j];
    LanguageCons(x, p.items, w, k);
  }

  lemma HereUncons(x: Item, p: Pattern, text: string) returns (k: nat)
    requires Here(Pattern([x] + p.items, p.dollar), text)
    ensures k <= |text| && Fits(x, text[..k]) && Here(p, text[k..])
  {
    var j :| 0 <= j <= |text| && (p.dollar ==> j == |text|) && InLanguage([x] + p.items, text[..j]);
    k := LanguageUncons(x, p.items, text[..j]);
    assert text[..j][..k] == text[..k];
    assert text[..j][k..] == text[k..][..j - k];
  }

  // ----- the matcher -------------------------------------------------------

  /** matchhere: does the pattern match at the beginning of the text? */
  method MatchHere(re: string, text: string) returns (b: bool)
    ensures b <==> Here(Parse(re), text)
    decreases |re|, 0
  {
    HereEmpty(text);
    if re == "" {
      return true;
    }
    if |re| >= 2 && re[1] == '*' {
      b := MatchStar(re[0], re[2..], text);
      return;
    }
    if re == "$" {
      return text == "";
    }
    var rest := Parse(re[1..]);
    ghost var x := One(re[0]);
    if Here(Pattern([x] + rest.items, rest.dollar), text) {
      var k := HereUncons(x, rest, text);
    }
    if text != "" && Accepts(re[0], text[0]) {
      b := MatchHere(re[1..], text[1..]);
      if b { HereCons(x, rest, text, 1); }
      return;
    }
    return false;
  }

  /** Where `c*` cannot be stretched further, all its matches have been tried. */
  lemma StarStuck(c: char, p: Pattern, text: string, i: nat)
    requires i <= |text| && (i < |text| ==> !Accepts(c, text[i])) && forall k :: 0 <= k <= i ==> !Here(p, text[k..])
    ensures !Here(Pattern([Star(c)] + p.items, p.dollar), text)
  {
    if Here(Pattern([Star(c)] + p.items, p.dollar), text) {
      var k := HereUncons(Star(c), p, text);
    }
  }

  /** matchstar: zero or more characters accepted by `c`, then the pattern. */
  method MatchStar(c: char, re: string, text: string) returns (b: bool)
    ensures b <==> Here(Pattern([Star(c)] + Parse(re).items, Parse(re).dollar), text)
    decreases |re|, 1
  {
    ghost var p := Parse(re);
    var i := 0;
    while true
      invariant 0 <= i <= |text|
      invariant Fits(Star(c), text[..i])
      invariant forall k :: 0 <= k < i ==> !Here(p, text[k..])
      decreases |text| - i
    {
      b := MatchHere(re, text[i..]);
      if b {
        HereCons(Star(c), p, text, i);
        return;
      }
      if i == |text| || !Accepts(c, text[i]) {
        StarStuck(c, p, text, i);
        return false;
      }
      assert text[..i + 1] == text[..i] + [text[i]];
      i := i + 1;
    }
  }

  /** match is sound and complete: it reports a match exactly if one exists. */
  method Match(re: string, text: string) returns (b: bool)
    ensures b <==> Matches(re, text)
  {
    if re != "" && re[0] == '^' {
      b := MatchHere(re[1..], text);
      AnchoredHere(Parse(re[1..]), text);
      return;
    }
    var i := 0;
    ghost var p := Parse(re);
    while true
      invariant 0 <= i <= |text|
      invariant forall k :: 0 <= k < i ==> !Here(p, text[k..])
      decreases |text| - i
    {
      b := MatchHere(re, text[i..]);
      if b {
        ghost var j :| 0 <= j <= |text[i..]| && (p.dollar ==> j == |text[i..]|) && InLanguage(p.items, text[i..][..j]);
        assert text[i..][..j] == text[i..i + j];
        return;
      }
      if i == |text| {
        break;
      }
      i := i + 1;
    }
    forall k, j | 0 <= k <= j <= |text| && (p.dollar ==> j == |text|)
      ensures !InLanguage(p.items, text[k..j])
    {
      assert !Here(p, text[k..]);
      assert text[k..][..j - k] == text[k..j];
    }
  }

  lemma AnchoredHere(p: Pattern, text: string)
    ensures Here(p, text) <==>
            exists i, j :: 0 <= i <= j <= |text| && i == 0 && (p.dollar ==> j == |text|)
              && InLanguage(p.items, text[i..j])
  {
    if Here(p, text) {
      var j :| 0 <= j <= |text| && (p.dollar ==> j == |text|) && InLanguage(p.items, text[..j]);
      assert text[0..j] == text[..j];
    }
    if exists i, j :: 0 <= i <= j <= |text| && i == 0 && (p.dollar ==> j == |text|) && InLanguage(p.items, text[i..j]) {
      var i, j :| 0 <= i <= j <= |text| && i == 0 && (p.dollar ==> j == |text|) && InLanguage(p.items, text[i..j]);
      assert text[0..j] == text[..j];
    }
  }
}
