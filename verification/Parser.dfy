/** The loops of sh.c's parser and its in-place termination of tokens, proved against the grammar of Shell. */
module Parser {
  import opened Prelude
  import opened Shell

  const NUL: char := '\0'

  // ----- The parsing procedures -----

  /** peek skips blanks and looks at one character. */
  method Peek(s: string, i: nat, c: char) returns (found: bool, p: nat)
    requires i <= |s|
    ensures found == Sees(s, i, c) && p == SkipBlanks(s, i)
  {
    p := SkipLoop(s, i);
    found := p < |s| && s[p] == c;
  }

  /** A command with the redirections from position i wrapped around it. */
  function Redirected(s: string, c: Cmd, i: nat): Option<Parsed>
    requires i <= |s|
  {
    var rs := Redirs(s, i);
    if rs.None? then None else Some(Parsed(Wrap(c, rs.value.0), rs.value.1))
  }

  lemma RedirectedStep(s: string, c: Cmd, i: nat)
    requires i <= |s| && (Sees(s, i, '<') || Sees(s, i, '>'))
    ensures var op := FindToken(s, i);
            var file := FindToken(s, op.next);
            Redirected(s, c, i) == if file.kind != Word then None
                                   else Redirected(s, Redir(c, (file.q, file.eq), op.kind != Sym('<')), file.next)
  {
    hide FindToken, SkipBlanks, Sees;
  }

  /** parseredirs */
  method ParseRedirs(s: string, c: Cmd, i: nat) returns (r: Option<Parsed>)
    requires i <= |s|
    ensures r == Redirected(s, c, i)
  {
    hide FindToken, SkipBlanks, Sees;
    var cmd, p := c, i;
    while Sees(s, p, '<') || Sees(s, p, '>')
      invariant p <= |s| && Redirected(s, c, i) == Redirected(s, cmd, p)
      decreases |s| - p
    {
      RedirectedStep(s, cmd, p);
      SeesMore(s, p);
      var op := GetToken(s, p);
      var file := GetToken(s, op.next);
      if file.kind != Word { return None; }
      cmd, p := Redir(cmd, (file.q, file.eq), op.kind != Sym('<')), file.next;
    }
    return Some(Parsed(cmd, SkipBlanks(s, p)));
  }

  /** A token is there to take, so taking it moves on. */
  lemma SeesMore(s: string, i: nat)
    requires i <= |s| && exists c :: Sees(s, i, c)
    ensures FindToken(s, i).next > i
  {
  }

  lemma WordMore(s: string, i: nat)
    requires i <= |s| && FindToken(s, i).kind != End
    ensures FindToken(s, i).next > i
  {
  }

  /** The redirections of a list, put around c after those of an earlier list. */
  lemma {:induction false} WrapMore(c: Cmd, rs: seq<(Token, bool)>, more: seq<(Token, bool)>)
    ensures Wrap(Wrap(c, rs), more) == Wrap(c, rs + more)
    decreases |rs|
  {
    if rs == [] {
      assert rs + more == more;
    } else {
      assert (rs + more)[1..] == rs[1..] + more;
      WrapMore(Redir(c, rs[0].0, rs[0].1), rs[1..], more);
    }
  }

  /** The arguments of the simple command at the heart of a chain of redirections: what parseexec's
      pointer cmd refers to while ret refers to the chain. */
  function Fill(c: Cmd, args: seq<Token>): Cmd {
    match c
    case Exec(_) => Exec(args)
    case Redir(d, file, out) => Redir(Fill(d, args), file, out)
    case _ => c
  }

  lemma {:induction false} FillWrap(c: Cmd, rs: seq<(Token, bool)>, args: seq<Token>)
    ensures Fill(Wrap(c, rs), args) == Wrap(Fill(c, args), rs) && (c.Exec? ==> Fill(c, args) == Exec(args))
    decreases |rs|
  {
    if rs != [] { FillWrap(Redir(c, rs[0].0, rs[0].1), rs[1..], args); }
  }

  /** parseexec */
  method ParseExecLoop(s: string, i: nat) returns (r: Option<Parsed>)
    requires i <= |s|
    ensures r == ParseExec(s, i)
    decreases |s| - i, 1
  {
    hide FindToken, SkipBlanks, Sees, Wrap, Fill, Redirs, ArgLoop, ParseBlock;
    var block, _ := Peek(s, i, '(');
    if block {
      r := ParseBlockLoop(s, i);
      return;
    }
    r := ParseRedirs(s, Exec([]), i);
    if r.None? { return; }
    ghost var rs := Redirs(s, i).value.0;
    var ret, p, args := r.value.cmd, r.value.pos, [];
    while !(Sees(s, p, '|') || Sees(s, p, ')') || Sees(s, p, '&') || Sees(s, p, ';'))
      invariant i <= p <= |s| && ret == Wrap(Exec(args), rs) && ParseExec(s, i) == ArgLoop(s, args, rs, p)
      decreases |s| - p
    {
      ArgCases(s, args, rs, p);
      var t := GetToken(s, p);
      if t.kind == End { return Some(Parsed(ret, t.next)); }
      if t.kind != Word { return None; }
      WordMore(s, p);
      FillWrap(Exec(args), rs, args + [(t.q, t.eq)]);
      args := args + [(t.q, t.eq)];
      ret := Fill(ret, args);
      if |args| >= MAXARGS { return None; }
      r := ParseRedirs(s, ret, t.next);
      if r.None? { return; }
      WrapMore(Exec(args), rs, Redirs(s, t.next).value.0);
      rs := rs + Redirs(s, t.next).value.0;
      ret, p := r.value.cmd, r.value.pos;
    }
    ArgCases(s, args, rs, p);
    return Some(Parsed(ret, SkipBlanks(s, p)));
  }

  /** What one round of the argument loop does. */
  lemma ArgCases(s: string, args: seq<Token>, rs: seq<(Token, bool)>, i: nat)
    requires i <= |s|
    ensures var t := FindToken(s, i);
            ArgLoop(s, args, rs, i) ==
            if Sees(s, i, '|') || Sees(s, i, ')') || Sees(s, i, '&') || Sees(s, i, ';') then
              Some(Parsed(Wrap(Exec(args), rs), SkipBlanks(s, i)))
            else if t.kind == End then Some(Parsed(Wrap(Exec(args), rs), t.next))
            else if t.kind != Word || |args| + 1 >= MAXARGS || Redirs(s, t.next).None? then None
            else ArgLoop(s, args + [(t.q, t.eq)], rs + Redirs(s, t.next).value.0, Redirs(s, t.next).value.1)
  {
    hide FindToken, SkipBlanks, Sees, Wrap, Redirs;
  }

  /** parseblock */
  method ParseBlockLoop(s: string, i: nat) returns (r: Option<Parsed>)
    requires i <= |s|
    ensures r == ParseBlock(s, i)
    decreases |s| - i, 0
  {
    hide FindToken, SkipBlanks, Sees, Wrap, Redirs, ParseLine;
    var open, _ := Peek(s, i, '(');
    if !open { return None; }
    SeesMore(s, i);
    var t := GetToken(s, i);
    r := ParseLineLoop(s, t.next);
    if r.None? { return; }
    var close, _ := Peek(s, r.value.pos, ')');
    if !close { return None; }
    t := GetToken(s, r.value.pos);
    r := ParseRedirs(s, r.value.cmd, t.next);
  }

  /** parsepipe */
  method ParsePipeLoop(s: string, i: nat) returns (r: Option<Parsed>)
    requires i <= |s|
    ensures r == ParsePipe(s, i)
    decreases |s| - i, 2
  {
    hide FindToken, SkipBlanks, Sees, ParseExec;
    r := ParseExecLoop(s, i);
    if r.None? { return; }
    var pipe, p := Peek(s, r.value.pos, '|');
    if !pipe { return Some(Parsed(r.value.cmd, p)); }
    SeesMore(s, r.value.pos);
    var t := GetToken(s, r.value.pos);
    var rest := ParsePipeLoop(s, t.next);
    return if rest.None? then None else Some(Parsed(Pipe(r.value.cmd, rest.value.cmd), rest.value.pos));
  }

  /** parseline */
  method ParseLineLoop(s: string, i: nat) returns (r: Option<Parsed>)
    requires i <= |s|
    ensures r == ParseLine(s, i)
    decreases |s| - i, 3
  {
    hide FindToken, SkipBlanks, Sees, ParsePipe;
    r := ParsePipeLoop(s, i);
    if r.None? { return; }
    var cmd, p := r.value.cmd, r.value.pos;
    while Sees(s, p, '&')
      invariant i <= p <= |s| && Backs(s, r.value.cmd, r.value.pos) == Backs(s, cmd, p)
      decreases |s| - p
    {
      SeesMore(s, p);
      var t := GetToken(s, p);
      cmd, p := Back(cmd), t.next;
    }
    p := SkipLoop(s, p);
    var list, _ := Peek(s, p, ';');
    if !list { return Some(Parsed(cmd, SkipBlanks(s, p))); }
    SeesMore(s, p);
    var t := GetToken(s, p);
    var rest := ParseLineLoop(s, t.next);
    return if rest.None? then None else Some(Parsed(List(cmd, rest.value.cmd), rest.value.pos));
  }

  // ----- The tokens of a parsed line -----

  /** A word of the line: word characters up to a character that is none, or to the end. */
  ghost predicate TokenOk(s: string, t: Token) {
    t.0 < t.1 <= |s| && IsWord(s[t.0..t.1]) && (t.1 < |s| ==> !WordChar(s[t.1]))
  }

  ghost predicate TokensOk(s: string, c: Cmd) {
    match c
    case Exec(args) => |args| < MAXARGS && forall k :: 0 <= k < |args| ==> TokenOk(s, args[k])
    case Redir(d, file, _) => TokensOk(s, d) && TokenOk(s, file)
    case Pipe(l, r) => TokensOk(s, l) && TokensOk(s, r)
    case List(l, r) => TokensOk(s, l) && TokensOk(s, r)
    case Back(d) => TokensOk(s, d)
  }

  lemma WordOk(s: string, i: nat)
    requires i <= |s| && FindToken(s, i).kind == Word
    ensures TokenOk(s, (FindToken(s, i).q, FindToken(s, i).eq))
  {
    var q := SkipBlanks(s, i);
    assert forall k :: 0 <= k < WordEnd(s, q) - q ==> s[q..WordEnd(s, q)][k] == s[q + k];
  }

  ghost predicate RedirsOk(s: string, rs: seq<(Token, bool)>) {
    forall k :: 0 <= k < |rs| ==> TokenOk(s, rs[k].0)
  }

  lemma {:induction false} RedirsAreOk(s: string, i: nat)
    requires i <= |s| && Redirs(s, i).Some?
    ensures RedirsOk(s, Redirs(s, i).value.0)
    decreases |s| - i
  {
    hide FindToken, SkipBlanks, TokenOk, Sees;
    if Sees(s, i, '<') || Sees(s, i, '>') {
      SeesMore(s, i);
      var file := FindToken(s, FindToken(s, i).next);
      WordOk(s, FindToken(s, i).next);
      RedirsAreOk(s, file.next);
    }
  }

  lemma {:induction false} WrapOk(s: string, c: Cmd, rs: seq<(Token, bool)>)
    requires TokensOk(s, c) && RedirsOk(s, rs)
    ensures TokensOk(s, Wrap(c, rs))
    decreases |rs|
  {
    hide TokenOk;
    if rs != [] { WrapOk(s, Redir(c, rs[0].0, rs[0].1), rs[1..]); }
  }

  lemma {:induction false} ArgsAreOk(s: string, args: seq<Token>, rs: seq<(Token, bool)>, i: nat)
    requires i <= |s| && TokensOk(s, Exec(args)) && RedirsOk(s, rs) && ArgLoop(s, args, rs, i).Some?
    ensures TokensOk(s, ArgLoop(s, args, rs, i).value.cmd)
    decreases |s| - i
  {
    hide FindToken, SkipBlanks, TokenOk, Sees, Wrap, Redirs, ArgLoop;
    ArgCases(s, args, rs, i);
    WrapOk(s, Exec(args), rs);
    var t := FindToken(s, i);
    if !(Sees(s, i, '|') || Sees(s, i, ')') || Sees(s, i, '&') || Sees(s, i, ';')) && t.kind == Word {
      WordOk(s, i);
      WordMore(s, i);
      RedirsAreOk(s, t.next);
      ArgsAreOk(s, args + [(t.q, t.eq)], rs + Redirs(s, t.next).value.0, Redirs(s, t.next).value.1);
    }
  }

  lemma {:induction false} ExecIsOk(s: string, i: nat)
    requires i <= |s| && ParseExec(s, i).Some?
    ensures TokensOk(s, ParseExec(s, i).value.cmd)
    decreases |s| - i, 1
  {
    hide FindToken, SkipBlanks, TokenOk, Sees, Wrap, Redirs, ArgLoop, ParseLine;
    if Sees(s, i, '(') {
      SeesMore(s, i);
      var line := ParseLine(s, FindToken(s, i).next).value;
      LineIsOk(s, FindToken(s, i).next);
      var next := FindToken(s, line.pos).next;
      RedirsAreOk(s, next);
      WrapOk(s, line.cmd, Redirs(s, next).value.0);
    } else {
      RedirsAreOk(s, i);
      ArgsAreOk(s, [], Redirs(s, i).value.0, Redirs(s, i).value.1);
    }
  }

  lemma {:induction false} PipeIsOk(s: string, i: nat)
    requires i <= |s| && ParsePipe(s, i).Some?
    ensures TokensOk(s, ParsePipe(s, i).value.cmd)
    decreases |s| - i, 2
  {
    hide FindToken, SkipBlanks, TokenOk, Sees, ParseExec;
    ExecIsOk(s, i);
    var p := ParseExec(s, i).value.pos;
    if Sees(s, p, '|') {
      SeesMore(s, p);
      PipeIsOk(s, FindToken(s, p).next);
    }
  }

  lemma {:induction false} BacksAreOk(s: string, c: Cmd, i: nat)
    requires i <= |s| && TokensOk(s, c)
    ensures TokensOk(s, Backs(s, c, i).cmd)
    decreases |s| - i
  {
    hide FindToken, SkipBlanks, TokenOk, Sees;
    if Sees(s, i, '&') {
      SeesMore(s, i);
      BacksAreOk(s, Back(c), FindToken(s, i).next);
    }
  }

  /** Whatever the line, every token of its parse is one of its words. */
  lemma {:induction false} LineIsOk(s: string, i: nat)
    requires i <= |s| && ParseLine(s, i).Some?
    ensures TokensOk(s, ParseLine(s, i).value.cmd)
    decreases |s| - i, 3
  {
    hide FindToken, SkipBlanks, TokenOk, Sees, ParsePipe, Backs;
    PipeIsOk(s, i);
    var c := ParsePipe(s, i).value;
    BacksAreOk(s, c.cmd, c.pos);
    var b := Backs(s, c.cmd, c.pos);
    if Sees(s, b.pos, ';') {
      SeesMore(s, b.pos);
      LineIsOk(s, FindToken(s, b.pos).next);
    }
  }

  lemma {:induction false} TextWellFormed(s: string, c: Cmd)
    requires TokensOk(s, c)
    ensures WellFormed(Text(s, c))
  {
    match c
    case Exec(_) =>
    case Redir(d, _, _) => TextWellFormed(s, d);
    case Pipe(l, r) => TextWellFormed(s, l); TextWellFormed(s, r);
    case List(l, r) => TextWellFormed(s, l); TextWellFormed(s, r);
    case Back(d) => TextWellFormed(s, d);
  }

  /** Any line that parses gives a tree of words with at most nine arguments to a command, and the canonical
      rendering of that tree parses to the same tree. */
  lemma ParseIsStable(s: string)
    requires ParseCmd(s).Some?
    ensures var t := Text(s, ParseCmd(s).value);
      && WellFormed(t)
      && ParseCmd(RenderLine(t)).Some? && Text(RenderLine(t), ParseCmd(RenderLine(t)).value) == t
  {
    hide ParseLine, SkipBlanks, RenderLine, WellFormed, Text;
    LineIsOk(s, 0);
    TextWellFormed(s, ParseCmd(s).value);
    ParseRender(Text(s, ParseCmd(s).value));
  }

  // ----- nulterminate -----

  function Ends(c: Cmd): set<nat> {
    match c
    case Exec(args) => set k | 0 <= k < |args| :: args[k].1
    case Redir(d, file, _) => Ends(d) + {file.1}
    case Pipe(l, r) => Ends(l) + Ends(r)
    case List(l, r) => Ends(l) + Ends(r)
    case Back(d) => Ends(d)
  }

  /** The buffer with the given positions overwritten by NUL. */
  ghost predicate Cut(before: seq<char>, after: seq<char>, ends: set<nat>) {
    |after| == |before| && forall k: nat :: k < |before| ==> after[k] == if k in ends then NUL else before[k]
  }

  /** nulterminate */
  method NulTerminate(c: Cmd, buf: array<char>)
    requires forall e :: e in Ends(c) ==> e < buf.Length
    modifies buf
    ensures Cut(old(buf[..]), buf[..], Ends(c))
  {
    match c
    case Exec(args) =>
      var i := 0;
      while i < |args|
        invariant 0 <= i <= |args| && Cut(old(buf[..]), buf[..], Ends(Exec(args[..i])))
      {
        assert args[i].1 in Ends(c);
        buf[args[i].1] := NUL;
        CutArg(args, i);
        i := i + 1;
      }
      assert args[..|args|] == args;
    case Redir(d, file, _) =>
      assert Ends(c) == Ends(d) + {file.1};
      NulTerminate(d, buf);
      buf[file.1] := NUL;
    case Pipe(l, r) =>
      assert Ends(c) == Ends(l) + Ends(r);
      NulTerminate(l, buf);
      NulTerminate(r, buf);
    case List(l, r) =>
      assert Ends(c) == Ends(l) + Ends(r);
      NulTerminate(l, buf);
      NulTerminate(r, buf);
    case Back(d) =>
      assert Ends(c) == Ends(d);
      NulTerminate(d, buf);
  }

  lemma CutArg(args: seq<Token>, i: nat)
    requires i < |args|
    ensures Ends(Exec(args[..i + 1])) == Ends(Exec(args[..i])) + {args[i].1}
  {
    var a, b := Ends(Exec(args[..i + 1])), Ends(Exec(args[..i]));
    forall e | e in b ensures e in a {
      var k :| 0 <= k < i && args[..i][k].1 == e;
      assert args[..i + 1][k].1 == e;
    }
    assert args[..i + 1][i].1 == args[i].1;
    forall e | e in a && e != args[i].1 ensures e in b {
      var k :| 0 <= k < i + 1 && args[..i + 1][k].1 == e;
      assert args[..i][k].1 == e;
    }
  }

  /** The C string that starts at position i of a buffer. */
  function CString(b: seq<char>, i: nat): string
    decreases |b| - i
  {
    if i < |b| && b[i] != NUL then [b[i]] + CString(b, i + 1) else []
  }

  /** What the rest of the shell sees of a command: its strings, read from where they start. */
  function Strings(b: seq<char>, c: Cmd): Tree {
    match c
    case Exec(args) => Command(seq(|args|, k requires 0 <= k < |args| => CString(b, args[k].0)))
    case Redir(d, file, out) => Tree.Redirected(Strings(b, d), CString(b, file.0), out)
    case Pipe(l, r) => Piped(Strings(b, l), Strings(b, r))
    case List(l, r) => Listed(Strings(b, l), Strings(b, r))
    case Back(d) => Background(Strings(b, d))
  }

  /** Every cut falls on the end of the line or on a character of no word. */
  ghost predicate Between(line: string, ends: set<nat>) {
    forall e :: e in ends ==> e <= |line| && (e < |line| ==> !WordChar(line[e]))
  }

  lemma {:induction false} EndsBetween(line: string, c: Cmd)
    requires TokensOk(line, c)
    ensures Between(line, Ends(c))
  {
    hide IsWord;
    match c
    case Exec(args) =>
    case Redir(d, _, _) => EndsBetween(line, d);
    case Pipe(l, r) => EndsBetween(line, l); EndsBetween(line, r);
    case List(l, r) => EndsBetween(line, l); EndsBetween(line, r);
    case Back(d) => EndsBetween(line, d);
  }

  /** The buffer held the line and has been cut between its words. */
  ghost predicate CutLine(line: string, before: seq<char>, after: seq<char>, ends: set<nat>) {
    && |line| < |before| && before[..|line|] == line && (forall k :: 0 <= k < |line| ==> line[k] != NUL)
    && Cut(before, after, ends) && Between(line, ends)
  }

  lemma {:induction false} TokenReads(line: string, before: seq<char>, after: seq<char>, ends: set<nat>, t: Token,
          p: nat)
    requires CutLine(line, before, after, ends) && TokenOk(line, t) && t.1 in ends && t.0 <= p <= t.1
    ensures CString(after, p) == line[p..t.1]
    decreases t.1 - p
  {
    if p < t.1 {
      assert line[t.0..t.1][p - t.0] == line[p] == before[..|line|][p];
      assert p !in ends;
      TokenReads(line, before, after, ends, t, p + 1);
      assert line[p..t.1] == [line[p]] + line[p + 1..t.1];
    }
  }

  /** After the cuts, the strings of a command are its tokens. */
  lemma {:induction false} StringsAreTokens(line: string, before: seq<char>, after: seq<char>, ends: set<nat>, c: Cmd)
    requires CutLine(line, before, after, ends) && TokensOk(line, c) && Ends(c) <= ends
    ensures Strings(after, c) == Text(line, c)
    decreases c
  {
    hide CutLine, CString, IsWord;
    match c
    case Exec(args) =>
      forall k | 0 <= k < |args| ensures CString(after, args[k].0) == Slice(line, args[k]) {
        assert args[k].1 in Ends(c);
        TokenReads(line, before, after, ends, args[k], args[k].0);
      }
    case Redir(d, file, _) =>
      assert file.1 in Ends(c);
      TokenReads(line, before, after, ends, file, file.0);
      StringsAreTokens(line, before, after, ends, d);
    case Pipe(l, r) =>
      StringsAreTokens(line, before, after, ends, l);
      StringsAreTokens(line, before, after, ends, r);
    case List(l, r) =>
      StringsAreTokens(line, before, after, ends, l);
      StringsAreTokens(line, before, after, ends, r);
    case Back(d) =>
      StringsAreTokens(line, before, after, ends, d);
  }

  lemma {:induction false} CStringAt(b: seq<char>, i: nat, n: nat)
    requires i <= n < |b| && b[n] == NUL && forall k :: i <= k < n ==> b[k] != NUL
    ensures CString(b, i) == b[i..n]
    decreases n - i
  {
    if i < n {
      CStringAt(b, i + 1, n);
      assert b[i..n] == [b[i]] + b[i + 1..n];
    }
  }

  method Strlen(buf: array<char>) returns (n: nat)
    requires NUL in buf[..]
    ensures n < buf.Length && buf[n] == NUL && CString(buf[..], 0) == buf[..n]
    ensures forall k :: 0 <= k < n ==> buf[k] != NUL
  {
    hide CString;
    ghost var z :| 0 <= z < buf.Length && buf[z] == NUL;
    n := 0;
    while buf[n] != NUL
      invariant n <= z && forall k :: 0 <= k < n ==> buf[k] != NUL
      decreases z - n
    {
      n := n + 1;
    }
    CStringAt(buf[..], 0, n);
  }

  /** parsecmd: the command of the NUL-terminated line in the buffer, with its strings cut out in place.
      A line that is no command leaves the buffer as it was; the rendering of a tree gives that tree. */
  method ParseCommand(buf: array<char>) returns (r: Option<Cmd>)
    requires NUL in buf[..]
    modifies buf
    ensures r == ParseCmd(CString(old(buf[..]), 0))
    ensures buf[..] == old(buf[..]) || r.Some?
    ensures r.Some? ==> Cut(old(buf[..]), buf[..], Ends(r.value))
    ensures r.Some? ==> Strings(buf[..], r.value) == Text(CString(old(buf[..]), 0), r.value)
    ensures forall t :: WellFormed(t) && RenderLine(t) == CString(old(buf[..]), 0) ==>
      r.Some? && Strings(buf[..], r.value) == t
  {
    hide ParseLine, SkipBlanks, TokensOk, Ends, CString, WellFormed, RenderLine, Text, Strings;
    var n := Strlen(buf);
    var line := buf[..n];
    ghost var before := buf[..];
    var c := ParseLineLoop(line, 0);
    forall t | WellFormed(t) && RenderLine(t) == line
      ensures ParseCmd(line).Some? && Text(line, ParseCmd(line).value) == t
    {
      ParseRender(t);
    }
    if c.None? { return None; }
    var p := SkipLoop(line, c.value.pos);
    if p != n { return None; }
    LineIsOk(line, 0);
    EndsBetween(line, c.value.cmd);
    NulTerminate(c.value.cmd, buf);
    StringsAreTokens(line, before, buf[..], Ends(c.value.cmd), c.value.cmd);
    return Some(c.value.cmd);
  }
}
