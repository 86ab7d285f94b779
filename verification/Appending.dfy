/** The operator >> of sh.c: it gives the same command as >, for every line. */
module Appending {
  import opened Prelude
  import opened Shell

  /** A run of > starts at j; the operators >> in it are at j, j + 2 and so on, and i is one of them. */
  ghost predicate Operator(s: string, j: nat, i: nat) {
    && j <= i && (i - j) % 2 == 0 && i + 1 < |s|
    && (forall k :: j <= k < i + 2 ==> s[k] == '>') && (j > 0 ==> s[j - 1] != '>')
  }

  /** The lines differ in one place: an operator >> of s, at i, is > and a blank in t. */
  ghost predicate Twins(s: string, t: string, j: nat, i: nat) {
    Operator(s, j, i) && t == s[i + 1 := ' ']
  }

  /** No position that the parser reaches is inside an operator of the run. */
  predicate Aligned(j: nat, i: nat, p: nat) {
    !(j <= p <= i + 1 && (p - j) % 2 == 1)
  }

  lemma {:induction false} SkipSame(s: string, t: string, j: nat, i: nat, p: nat)
    requires Twins(s, t, j, i) && p <= |s| && Aligned(j, i, p)
    ensures SkipBlanks(t, p) == SkipBlanks(s, p) && Aligned(j, i, SkipBlanks(s, p))
    decreases |s| - p
  {
    if p < |s| && Blank(s[p]) { SkipSame(s, t, j, i, p + 1); }
  }

  lemma {:induction false} WordSame(s: string, t: string, j: nat, i: nat, p: nat)
    requires Twins(s, t, j, i) && p <= |s| && Aligned(j, i, p)
    ensures WordEnd(t, p) == WordEnd(s, p) && Aligned(j, i, WordEnd(s, p))
    decreases |s| - p
  {
    if p < |s| && WordChar(s[p]) { WordSame(s, t, j, i, p + 1); }
  }

  lemma SeesSame(s: string, t: string, j: nat, i: nat, p: nat)
    requires Twins(s, t, j, i) && p <= |s| && Aligned(j, i, p)
    ensures SkipBlanks(t, p) == SkipBlanks(s, p) && forall c :: Sees(t, p, c) <==> Sees(s, p, c)
  {
    hide SkipBlanks;
    SkipSame(s, t, j, i, p);
  }

  /** The same tokens, but for the operator itself. */
  lemma EndSame(s: string, t: string, j: nat, i: nat, q: nat)
    requires Twins(s, t, j, i) && q <= |s| && Aligned(j, i, q)
    ensures var a, b := TokenEnd(s, q), TokenEnd(t, q);
      && Aligned(j, i, a.1) && if q == i then a == (Append, i + 2) && b == (Sym('>'), i + 1) else b == a
  {
    hide SkipBlanks, WordEnd;
    WordSame(s, t, j, i, q);
  }

  lemma TokenSame(s: string, t: string, j: nat, i: nat, p: nat)
    requires Twins(s, t, j, i) && p <= |s| && Aligned(j, i, p)
    ensures var a, b := FindToken(s, p), FindToken(t, p);
      && b.q == a.q && b.next == a.next && Aligned(j, i, a.next)
      && if a.q == i then a.kind == Append && b.kind == Sym('>') else b == a
  {
    hide SkipBlanks, WordEnd, TokenEnd, Aligned;
    SkipSame(s, t, j, i, p);
    var q := SkipBlanks(s, p);
    EndSame(s, t, j, i, q);
    SkipSame(s, t, j, i, TokenEnd(s, q).1);
    if q == i { OneBlank(t, i + 1); }
  }

  lemma OneBlank(t: string, p: nat)
    requires p < |t| && Blank(t[p])
    ensures SkipBlanks(t, p) == SkipBlanks(t, p + 1)
  {
  }

  lemma {:induction false} RedirsSame(s: string, t: string, j: nat, i: nat, p: nat)
    requires Twins(s, t, j, i) && p <= |s| && Aligned(j, i, p)
    ensures Redirs(t, p) == Redirs(s, p) && (Redirs(s, p).Some? ==> Aligned(j, i, Redirs(s, p).value.1))
    decreases |s| - p
  {
    hide FindToken, SkipBlanks, Sees;
    SkipSame(s, t, j, i, p);
    SeesSame(s, t, j, i, p);
    if Sees(s, p, '<') || Sees(s, p, '>') {
      Moves(s, p);
      TokenSame(s, t, j, i, p);
      var op := FindToken(s, p);
      TokenSame(s, t, j, i, op.next);
      RedirsSame(s, t, j, i, FindToken(s, op.next).next);
    }
  }

  lemma Moves(s: string, p: nat)
    requires p <= |s|
    ensures forall c :: Sees(s, p, c) ==> FindToken(s, p).next > p
    ensures FindToken(s, p).kind != End ==> FindToken(s, p).next > p
  {
  }

  lemma {:induction false} ArgsSame(s: string, t: string, j: nat, i: nat, args: seq<Token>,
          rs: seq<(Token, bool)>, p: nat)
    requires Twins(s, t, j, i) && p <= |s| && Aligned(j, i, p)
    ensures ArgLoop(t, args, rs, p) == ArgLoop(s, args, rs, p)
    ensures ArgLoop(s, args, rs, p).Some? ==> Aligned(j, i, ArgLoop(s, args, rs, p).value.pos)
    decreases |s| - p
  {
    hide FindToken, SkipBlanks, Sees, Wrap, Redirs;
    SkipSame(s, t, j, i, p);
    SeesSame(s, t, j, i, p);
    TokenSame(s, t, j, i, p);
    var k := FindToken(s, p);
    if k.kind == Word {
      Moves(s, p);
      RedirsSame(s, t, j, i, k.next);
      if Redirs(s, k.next).Some? {
        var more := Redirs(s, k.next).value;
        ArgsSame(s, t, j, i, args + [(k.q, k.eq)], rs + more.0, more.1);
      }
    }
  }

  lemma {:induction false} ExecSame(s: string, t: string, j: nat, i: nat, p: nat)
    requires Twins(s, t, j, i) && p <= |s| && Aligned(j, i, p)
    ensures ParseExec(t, p) == ParseExec(s, p) && (ParseExec(s, p).Some? ==> Aligned(j, i, ParseExec(s, p).value.pos))
    decreases |s| - p, 1
  {
    hide FindToken, SkipBlanks, Sees, Wrap, Redirs, ArgLoop, ParseLine;
    SeesSame(s, t, j, i, p);
    if Sees(s, p, '(') {
      Moves(s, p);
      TokenSame(s, t, j, i, p);
      LineSame(s, t, j, i, FindToken(s, p).next);
      var c := ParseLine(s, FindToken(s, p).next);
      if c.Some? {
        SeesSame(s, t, j, i, c.value.pos);
        TokenSame(s, t, j, i, c.value.pos);
        RedirsSame(s, t, j, i, FindToken(s, c.value.pos).next);
      }
    } else {
      RedirsSame(s, t, j, i, p);
      if Redirs(s, p).Some? { ArgsSame(s, t, j, i, [], Redirs(s, p).value.0, Redirs(s, p).value.1); }
    }
  }

  lemma {:induction false} PipeSame(s: string, t: string, j: nat, i: nat, p: nat)
    requires Twins(s, t, j, i) && p <= |s| && Aligned(j, i, p)
    ensures ParsePipe(t, p) == ParsePipe(s, p) && (ParsePipe(s, p).Some? ==> Aligned(j, i, ParsePipe(s, p).value.pos))
    decreases |s| - p, 2
  {
    hide FindToken, SkipBlanks, Sees, ParseExec;
    ExecSame(s, t, j, i, p);
    if ParseExec(s, p).Some? {
      var e := ParseExec(s, p).value.pos;
      SkipSame(s, t, j, i, e);
      SeesSame(s, t, j, i, e);
      TokenSame(s, t, j, i, e);
      if Sees(s, e, '|') {
        Moves(s, e);
        PipeSame(s, t, j, i, FindToken(s, e).next);
      }
    }
  }

  lemma {:induction false} BacksSame(s: string, t: string, j: nat, i: nat, c: Cmd, p: nat)
    requires Twins(s, t, j, i) && p <= |s| && Aligned(j, i, p)
    ensures Backs(t, c, p) == Backs(s, c, p) && Aligned(j, i, Backs(s, c, p).pos)
    decreases |s| - p
  {
    hide FindToken, SkipBlanks, Sees;
    SkipSame(s, t, j, i, p);
    SeesSame(s, t, j, i, p);
    TokenSame(s, t, j, i, p);
    if Sees(s, p, '&') {
      Moves(s, p);
      BacksSame(s, t, j, i, Back(c), FindToken(s, p).next);
    }
  }

  lemma {:induction false} LineSame(s: string, t: string, j: nat, i: nat, p: nat)
    requires Twins(s, t, j, i) && p <= |s| && Aligned(j, i, p)
    ensures ParseLine(t, p) == ParseLine(s, p) && (ParseLine(s, p).Some? ==> Aligned(j, i, ParseLine(s, p).value.pos))
    decreases |s| - p, 3
  {
    hide FindToken, SkipBlanks, Sees, ParsePipe, Backs;
    PipeSame(s, t, j, i, p);
    if ParsePipe(s, p).Some? {
      var c := ParsePipe(s, p).value;
      BacksSame(s, t, j, i, c.cmd, c.pos);
      var e := Backs(s, c.cmd, c.pos).pos;
      SkipSame(s, t, j, i, e);
      SeesSame(s, t, j, i, e);
      TokenSame(s, t, j, i, e);
      if Sees(s, e, ';') {
        Moves(s, e);
        LineSame(s, t, j, i, FindToken(s, e).next);
      }
    }
  }

  /** Writing > and a blank for an operator >> changes nothing about what a line is parsed to: neither the command,
      with the positions of all its words, nor whether there is one. */
  lemma AppendIsOutput(s: string, j: nat, i: nat)
    requires Operator(s, j, i)
    ensures ParseCmd(s[i + 1 := ' ']) == ParseCmd(s)
  {
    hide ParseLine, SkipBlanks;
    var t := s[i + 1 := ' '];
    LineSame(s, t, j, i, 0);
    if ParseLine(s, 0).Some? { SkipSame(s, t, j, i, ParseLine(s, 0).value.pos); }
  }
}
