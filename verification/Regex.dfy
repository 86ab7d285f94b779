/** The pattern matcher of grep.c against a declarative meaning of patterns.  Strings are the
    characters before the terminating NUL. */
module Regex {
  /** One character, or any number of copies of one; '.' stands for every character. */
  datatype Item = One(c: char) | Star(c: char)

  /** A pattern without its leading '^': its items, and whether it must end at the end of the text. */
  datatype Pattern = Pattern(items: seq<Item>, anchored: bool)

  /** How the matcher reads a pattern: a star binds before '$', and '$' is special only at the end. */
  function Parse(re: string): Pattern {
    if re == "" then Pattern([], false)
    else if |re| >= 2 && re[1] == '*' then
      var rest := Parse(re[2..]);
      rest.(items := [Star(re[0])] + rest.items)
    else if re == "$" then Pattern([], true)
    else
      var rest := Parse(re[1..]);
      rest.(items := [One(re[0])] + rest.items)
  }

  predicate Fits(c: char, x: char) {
    c == '.' || c == x
  }

  /** The strings that a sequence of items stands for. */
  ghost predicate Denotes(items: seq<Item>, s: string) {
    if items == [] then s == ""
    else match items[0]
      case One(c) => s != "" && Fits(c, s[0]) && Denotes(items[1..], s[1..])
      case Star(c) => exists k :: 0 <= k <= |s| && AllFit(c, s[..k]) && Denotes(items[1..], s[k..])
  }

  predicate AllFit(c: char, s: string) {
    forall i :: 0 <= i < |s| ==> Fits(c, s[i])
  }

  /** The substring text[i..j] satisfies the pattern. */
  ghost predicate Satisfies(re: string, text: string, i: nat, j: nat) {
    i <= j <= |text| && Denotes(Parse(re).items, text[i..j]) && (Parse(re).anchored ==> j == |text|)
  }

  /** Some prefix of the text satisfies the pattern. */
  ghost predicate Here(re: string, text: string) {
    exists j: nat :: Satisfies(re, text, 0, j)
  }

  /** What match promises. */
  ghost predicate Matches(re: string, text: string) {
    if re != "" && re[0] == '^' then exists j: nat :: Satisfies(re[1..], text, 0, j)
    else exists i: nat, j: nat :: Satisfies(re, text, i, j)
  }

  lemma HereEmpty(text: string)
    ensures Here("", text)
  {
    assert text[0..0] == "";
    assert Satisfies("", text, 0, 0);
  }

  lemma HereEnd(text: string)
    ensures Here("$", text) <==> text == ""
  {
    if text == "" { assert Satisfies("$", text, 0, 0); }
  }

  lemma HereOne(re: string, text: string)
    requires re != "" && re != "$" && !(|re| >= 2 && re[1] == '*')
    ensures Here(re, text) <==> text != "" && Fits(re[0], text[0]) && Here(re[1..], text[1..])
  {
    if j: nat :| Satisfies(re, text, 0, j) {
      assert text[0..j][1..] == text[1..][0..j - 1];
      assert Satisfies(re[1..], text[1..], 0, j - 1);
    }
    if text != "" && Fits(re[0], text[0]) && Here(re[1..], text[1..]) {
      var j: nat :| Satisfies(re[1..], text[1..], 0, j);
      assert text[0..j + 1][1..] == text[1..][0..j];
      assert Satisfies(re, text, 0, j + 1);
    }
  }

  /** Some number of fitting characters can be skipped so that the rest of the pattern matches. */
  ghost predicate StarHere(c: char, re: string, text: string) {
    exists k :: 0 <= k <= |text| && AllFit(c, text[..k]) && Here(re, text[k..])
  }

  lemma HereStar(re: string, text: string)
    requires |re| >= 2 && re[1] == '*'
    ensures Here(re, text) <==> StarHere(re[0], re[2..], text)
  {
    var c, rest := re[0], re[2..];
    assert Parse(re).items[1..] == Parse(rest).items;
    if j: nat :| Satisfies(re, text, 0, j) {
      var s := text[0..j];
      var k :| 0 <= k <= |s| && AllFit(c, s[..k]) && Denotes(Parse(rest).items, s[k..]);
      assert s[..k] == text[..k] && s[k..] == text[k..][0..j - k];
      assert Satisfies(rest, text[k..], 0, j - k);
    }
    if StarHere(c, rest, text) {
      var k :| 0 <= k <= |text| && AllFit(c, text[..k]) && Here(rest, text[k..]);
      var j: nat :| Satisfies(rest, text[k..], 0, j);
      var s := text[0..k + j];
      assert s[..k] == text[..k] && s[k..] == text[k..][0..j];
      assert Satisfies(re, text, 0, k + j);
    }
  }

  method MatchHere(re: string, text: string) returns (r: bool)
    ensures r <==> Here(re, text)
    decreases |re|, 0
  {
    if re == "" {
      HereEmpty(text);
      return true;
    }
    if |re| >= 2 && re[1] == '*' {
      HereStar(re, text);
      r := MatchStar(re[0], re[2..], text);
      return;
    }
    if re == "$" {
      HereEnd(text);
      return text == "";
    }
    HereOne(re, text);
    if text != "" && (re[0] == '.' || re[0] == text[0]) {
      r := MatchHere(re[1..], text[1..]);
      return;
    }
    return false;
  }

  method MatchStar(c: char, re: string, text: string) returns (r: bool)
    ensures r <==> StarHere(c, re, text)
    decreases |re|, 1
  {
    var k := 0;
    while true
      invariant 0 <= k <= |text| && AllFit(c, text[..k])
      invariant forall i :: 0 <= i < k ==> !Here(re, text[i..])
      decreases |text| - k
    {
      r := MatchHere(re, text[k..]);
      if r {
        return;
      }
      if !(k < |text| && (text[k] == c || c == '.')) {
        forall i | 0 <= i <= |text| && AllFit(c, text[..i]) ensures i <= k {
          assert i > k ==> Fits(c, text[..i][k]);
        }
        return false;
      }
      k := k + 1;
    }
  }

  /** match: some substring of the text satisfies the pattern, from its start if the pattern begins with '^'. */
  method Match(re: string, text: string) returns (r: bool)
    ensures r <==> Matches(re, text)
  {
    if re != "" && re[0] == '^' {
      r := MatchHere(re[1..], text);
      return;
    }
    var i := 0;
    while true
      invariant 0 <= i <= |text| && forall k :: 0 <= k < i ==> !Here(re, text[k..])
      decreases |text| - i
    {
      r := MatchHere(re, text[i..]);
      if r {
        ghost var j: nat :| Satisfies(re, text[i..], 0, j);
        ShiftSatisfies(re, text, i, j);
        return;
      }
      if i == |text| {
        forall k: nat, j: nat ensures !Satisfies(re, text, k, j) {
          if k <= |text| && k <= j { ShiftSatisfies(re, text, k, j - k); }
        }
        return false;
      }
      i := i + 1;
    }
  }

  lemma ShiftSatisfies(re: string, text: string, i: nat, j: nat)
    requires i <= |text|
    ensures Satisfies(re, text[i..], 0, j) <==> Satisfies(re, text, i, i + j)
  {
    if i + j <= |text| { assert text[i..][0..j] == text[i..i + j]; }
  }
}
