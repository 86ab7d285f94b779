/** No word of a line is lost: the parser puts each in the tree, in its place. */
module Words {
  import opened Prelude
  import opened Shell

  /** The words of a line from i on, token by token: the file of each redirection, and all other words. */
  datatype Roles = Roles(args: seq<Token>, files: seq<(Token, bool)>)

  predicate RedirSymbol(k: Kind) {
    k == Sym('<') || k == Sym('>') || k == Append
  }

  function Scan(s: string, i: nat): Roles
    requires i <= |s|
    decreases |s| - i
  {
    var t := FindToken(s, i);
    if t.kind == End || t.next <= i then Roles([], [])
    else if RedirSymbol(t.kind) then
      var f := FindToken(s, t.next);
      var rest := Scan(s, f.next);
      if f.kind == Word then rest.(files := [((f.q, f.eq), t.kind != Sym('<'))] + rest.files) else rest
    else
      var rest := Scan(s, t.next);
      if t.kind == Word then rest.(args := [(t.q, t.eq)] + rest.args) else rest
  }

  /** The arguments of a command, and its redirections, from left to right. */
  function Args(c: Cmd): seq<Token> {
    match c
    case Exec(args) => args
    case Redir(d, _, _) => Args(d)
    case Pipe(l, r) => Args(l) + Args(r)
    case List(l, r) => Args(l) + Args(r)
    case Back(d) => Args(d)
  }

  function Files(c: Cmd): seq<(Token, bool)> {
    match c
    case Exec(_) => []
    case Redir(d, file, out) => Files(d) + [(file, out)]
    case Pipe(l, r) => Files(l) + Files(r)
    case List(l, r) => Files(l) + Files(r)
    case Back(d) => Files(d)
  }

  /** The words from i on are those of the command and those from j on. */
  ghost predicate Split(s: string, i: nat, args: seq<Token>, files: seq<(Token, bool)>, j: nat)
    requires i <= |s| && j <= |s|
  {
    Scan(s, i) == Roles(args + Scan(s, j).args, files + Scan(s, j).files)
  }

  lemma SkipScan(s: string, i: nat)
    requires i <= |s|
    ensures Scan(s, SkipBlanks(s, i)) == Scan(s, i)
  {
    SkipTwice(s, i);
  }

  lemma {:induction false} SkipTwice(s: string, i: nat)
    requires i <= |s|
    ensures SkipBlanks(s, SkipBlanks(s, i)) == SkipBlanks(s, i)
    decreases |s| - i
  {
    if i < |s| && Blank(s[i]) { SkipTwice(s, i + 1); }
  }

  lemma Moves(s: string, i: nat)
    requires i <= |s|
    ensures FindToken(s, i).kind != End ==> FindToken(s, i).next > i
    ensures FindToken(s, i).kind == End ==> FindToken(s, i).next == |s|
  {
  }

  /** A symbol that is no redirection adds no word. */
  lemma SymbolScan(s: string, i: nat, c: char)
    requires i <= |s| && Sees(s, i, c) && (c == '(' || c == ')' || c == '|' || c == '&' || c == ';')
    ensures FindToken(s, i).next > i && Scan(s, i) == Scan(s, FindToken(s, i).next)
  {
    hide SkipBlanks, WordEnd;
    assert FindToken(s, i).kind == Sym(c);
  }

  lemma {:induction false} WrapWords(c: Cmd, rs: seq<(Token, bool)>)
    ensures Args(Wrap(c, rs)) == Args(c) && Files(Wrap(c, rs)) == Files(c) + rs
    decreases |rs|
  {
    if rs == [] {
      assert Files(c) + rs == Files(c);
    } else {
      WrapWords(Redir(c, rs[0].0, rs[0].1), rs[1..]);
      assert Files(c) + [rs[0]] + rs[1..] == Files(c) + rs;
    }
  }

  lemma RedirKind(s: string, i: nat)
    requires i <= |s| && (Sees(s, i, '<') || Sees(s, i, '>'))
    ensures RedirSymbol(FindToken(s, i).kind) && FindToken(s, i).next > i
  {
    hide SkipBlanks, WordEnd;
  }

  lemma {:induction false} RedirsWords(s: string, i: nat)
    requires i <= |s| && Redirs(s, i).Some?
    ensures Split(s, i, [], Redirs(s, i).value.0, Redirs(s, i).value.1)
    decreases |s| - i
  {
    hide FindToken, SkipBlanks, Sees;
    if Sees(s, i, '<') || Sees(s, i, '>') {
      RedirKind(s, i);
      var op := FindToken(s, i);
      var file := FindToken(s, op.next);
      RedirsWords(s, file.next);
      var rest := Redirs(s, file.next).value;
      var first := [((file.q, file.eq), op.kind != Sym('<'))];
      assert first + (rest.0 + Scan(s, rest.1).files) == first + rest.0 + Scan(s, rest.1).files;
    } else {
      SkipScan(s, i);
    }
  }

  lemma {:induction false} ArgsWords(s: string, args: seq<Token>, rs: seq<(Token, bool)>, i: nat)
    requires i <= |s| && ArgLoop(s, args, rs, i).Some?
    ensures var r := ArgLoop(s, args, rs, i).value;
      && args + Scan(s, i).args == Args(r.cmd) + Scan(s, r.pos).args
      && rs + Scan(s, i).files == Files(r.cmd) + Scan(s, r.pos).files
    decreases |s| - i
  {
    hide FindToken, SkipBlanks, Sees, Wrap, Redirs;
    WrapWords(Exec(args), rs);
    assert Files(Exec(args)) + rs == rs;
    SkipScan(s, i);
    Moves(s, i);
    var t := FindToken(s, i);
    if !(Sees(s, i, '|') || Sees(s, i, ')') || Sees(s, i, '&') || Sees(s, i, ';')) {
      if t.kind == End {
        EndScan(s);
      } else {
        var more := Redirs(s, t.next).value;
        RedirsWords(s, t.next);
        ArgsWords(s, args + [(t.q, t.eq)], rs + more.0, more.1);
        assert args + ([(t.q, t.eq)] + Scan(s, more.1).args) == args + [(t.q, t.eq)] + Scan(s, more.1).args;
        assert [] + Scan(s, more.1).args == Scan(s, more.1).args;
        assert rs + (more.0 + Scan(s, more.1).files) == rs + more.0 + Scan(s, more.1).files;
      }
    }
  }

  lemma EndScan(s: string)
    ensures Scan(s, |s|) == Roles([], [])
  {
  }

  lemma {:induction false} ExecWords(s: string, i: nat)
    requires i <= |s| && ParseExec(s, i).Some?
    ensures var r := ParseExec(s, i).value; Split(s, i, Args(r.cmd), Files(r.cmd), r.pos)
    decreases |s| - i, 1
  {
    hide FindToken, SkipBlanks, Sees, Wrap, Redirs, ArgLoop, ParseLine, Scan;
    if Sees(s, i, '(') {
      SymbolScan(s, i, '(');
      var line := ParseLine(s, FindToken(s, i).next).value;
      LineWords(s, FindToken(s, i).next);
      SymbolScan(s, line.pos, ')');
      var next := FindToken(s, line.pos).next;
      RedirsWords(s, next);
      var rs := Redirs(s, next).value;
      WrapWords(line.cmd, rs.0);
      assert Args(line.cmd) + ([] + Scan(s, rs.1).args) == Args(line.cmd) + Scan(s, rs.1).args;
      assert Files(line.cmd) + (rs.0 + Scan(s, rs.1).files) == Files(line.cmd) + rs.0 + Scan(s, rs.1).files;
    } else {
      var rs := Redirs(s, i).value;
      RedirsWords(s, i);
      ArgsWords(s, [], rs.0, rs.1);
    }
  }

  lemma {:induction false} PipeWords(s: string, i: nat)
    requires i <= |s| && ParsePipe(s, i).Some?
    ensures var r := ParsePipe(s, i).value; Split(s, i, Args(r.cmd), Files(r.cmd), r.pos)
    decreases |s| - i, 2
  {
    hide FindToken, SkipBlanks, Sees, ParseExec, Scan;
    ExecWords(s, i);
    var c := ParseExec(s, i).value;
    if Sees(s, c.pos, '|') {
      SymbolScan(s, c.pos, '|');
      PipeWords(s, FindToken(s, c.pos).next);
      var r := ParsePipe(s, FindToken(s, c.pos).next).value;
      Joined(s, c.cmd, r.cmd, r.pos);
    } else {
      SkipScan(s, c.pos);
    }
  }

  lemma Joined(s: string, c: Cmd, d: Cmd, j: nat)
    requires j <= |s|
    ensures Args(c) + (Args(d) + Scan(s, j).args) == Args(c) + Args(d) + Scan(s, j).args
    ensures Files(c) + (Files(d) + Scan(s, j).files) == Files(c) + Files(d) + Scan(s, j).files
  {
  }

  lemma {:induction false} BacksWords(s: string, c: Cmd, i: nat)
    requires i <= |s|
    ensures var r := Backs(s, c, i);
      Args(r.cmd) == Args(c) && Files(r.cmd) == Files(c) && Scan(s, r.pos) == Scan(s, i)
    decreases |s| - i
  {
    hide FindToken, SkipBlanks, Sees, Scan;
    if Sees(s, i, '&') {
      SymbolScan(s, i, '&');
      BacksWords(s, Back(c), FindToken(s, i).next);
    } else {
      SkipScan(s, i);
    }
  }

  lemma {:induction false} LineWords(s: string, i: nat)
    requires i <= |s| && ParseLine(s, i).Some?
    ensures var r := ParseLine(s, i).value; Split(s, i, Args(r.cmd), Files(r.cmd), r.pos)
    decreases |s| - i, 3
  {
    hide FindToken, SkipBlanks, Sees, ParsePipe, Backs, Scan;
    PipeWords(s, i);
    var c := ParsePipe(s, i).value;
    BacksWords(s, c.cmd, c.pos);
    var b := Backs(s, c.cmd, c.pos);
    if Sees(s, b.pos, ';') {
      SymbolScan(s, b.pos, ';');
      LineWords(s, FindToken(s, b.pos).next);
      var r := ParseLine(s, FindToken(s, b.pos).next).value;
      Joined(s, b.cmd, r.cmd, r.pos);
    } else {
      SkipScan(s, b.pos);
    }
  }

  /** Of every line that parses: the arguments in the tree, from left to right, are exactly the words of the line that
      follow no redirection symbol, in order; and its redirections are exactly those of the line, in order, each with
      its file and direction. */
  lemma NoWordIsLost(s: string)
    requires ParseCmd(s).Some?
    ensures Scan(s, 0) == Roles(Args(ParseCmd(s).value), Files(ParseCmd(s).value))
  {
    hide ParseLine, SkipBlanks, Scan;
    LineWords(s, 0);
    var r := ParseLine(s, 0).value;
    SkipScan(s, r.pos);
    EndScan(s);
    assert Args(r.cmd) + [] == Args(r.cmd) && Files(r.cmd) + [] == Files(r.cmd);
  }
}
