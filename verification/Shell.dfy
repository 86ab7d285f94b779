/** The command parser of sh.c.  A line is the characters before its terminating NUL; tokens are
    pairs of positions (start, end) in the line, as the parser keeps them. */
module Shell {
  import opened Prelude

  const MAXARGS: nat := 10

  type Token = (nat, nat)

  /** A parsed command.  `out` tells > from <; for >> see Appending. */
  datatype Cmd =
    | Exec(args: seq<Token>)
    | Redir(cmd: Cmd, file: Token, out: bool)
    | Pipe(left: Cmd, right: Cmd)
    | List(left: Cmd, right: Cmd)
    | Back(cmd: Cmd)

  predicate Blank(c: char) {
    c == ' ' || c == '\t' || c == '\r' || c == '\n' || c == '\U{0B}'
  }

  predicate Symbol(c: char) {
    c == '<' || c == '|' || c == '>' || c == '&' || c == ';' || c == '(' || c == ')'
  }

  predicate WordChar(c: char) {
    !Blank(c) && !Symbol(c)
  }

  // ----- Tokens -----

  /** The first position from i on that is not blank. */
  function SkipBlanks(s: string, i: nat): (p: nat)
    requires i <= |s|
    ensures i <= p <= |s| && (p < |s| ==> !Blank(s[p])) && forall k :: i <= k < p ==> Blank(s[k])
    decreases |s| - i
  {
    if i < |s| && Blank(s[i]) then SkipBlanks(s, i + 1) else i
  }

  /** The first position from i on that is not part of a word. */
  function WordEnd(s: string, i: nat): (p: nat)
    requires i <= |s|
    ensures i <= p <= |s| && (p < |s| ==> !WordChar(s[p])) && (i < |s| && WordChar(s[i]) ==> p > i)
    ensures forall k :: i <= k < p ==> WordChar(s[k])
    decreases |s| - i
  {
    if i < |s| && WordChar(s[i]) then WordEnd(s, i + 1) else i
  }

  datatype Kind = End | Word | Sym(c: char) | Append

  /** What gettoken finds: the kind of token, its start and end, and where the next one starts. */
  datatype Found = Found(kind: Kind, q: nat, eq: nat, next: nat)

  function TokenEnd(s: string, p: nat): (r: (Kind, nat))
    requires p <= |s|
    ensures p <= r.1 <= |s| && (p < |s| && !Blank(s[p]) ==> r.1 > p)
  {
    if p == |s| then (End, p)
    else if s[p] == '>' && p + 1 < |s| && s[p + 1] == '>' then (Append, p + 2)
    else if Symbol(s[p]) then (Sym(s[p]), p + 1)
    else (Word, WordEnd(s, p))
  }

  function FindToken(s: string, i: nat): (r: Found)
    requires i <= |s|
    ensures i <= r.q <= r.eq <= r.next <= |s| && (r.q < |s| ==> r.next > i)
  {
    var q := SkipBlanks(s, i);
    var (kind, eq) := TokenEnd(s, q);
    Found(kind, q, eq, SkipBlanks(s, eq))
  }

  /** gettoken */
  method GetToken(s: string, i: nat) returns (r: Found)
    requires i <= |s|
    ensures r == FindToken(s, i)
  {
    var p := SkipLoop(s, i);
    var q := p;
    var kind;
    if p == |s| {
      kind := End;
    } else if s[p] == '>' {
      kind := Sym('>');
      p := p + 1;
      if p < |s| && s[p] == '>' {
        kind := Append;
        p := p + 1;
      }
    } else if Symbol(s[p]) {
      kind := Sym(s[p]);
      p := p + 1;
    } else {
      kind := Word;
      var start := p;
      while p < |s| && !Blank(s[p]) && !Symbol(s[p])
        invariant start <= p <= |s| && WordEnd(s, start) == WordEnd(s, p)
      {
        p := p + 1;
      }
    }
    var eq := p;
    var next := SkipLoop(s, p);
    return Found(kind, q, eq, next);
  }

  method SkipLoop(s: string, i: nat) returns (p: nat)
    requires i <= |s|
    ensures p == SkipBlanks(s, i)
  {
    p := i;
    while p < |s| && Blank(s[p])
      invariant i <= p <= |s| && SkipBlanks(s, i) == SkipBlanks(s, p)
    {
      p := p + 1;
    }
  }

  /** peek: skip blanks and test the next character. */
  predicate Sees(s: string, i: nat, c: char)
    requires i <= |s|
  {
    SkipBlanks(s, i) < |s| && s[SkipBlanks(s, i)] == c
  }

  // ----- The grammar, as functions from a position to a command and the position after it -----

  datatype Parsed = Parsed(cmd: Cmd, pos: nat)

  /** parseredirs: the redirections from i on, innermost first. */
  function Redirs(s: string, i: nat): (r: Option<(seq<(Token, bool)>, nat)>)
    requires i <= |s|
    ensures r.Some? ==> i <= r.value.1 <= |s|
    decreases |s| - i
  {
    if !Sees(s, i, '<') && !Sees(s, i, '>') then Some(([], SkipBlanks(s, i)))
    else
      var op := FindToken(s, i);
      var file := FindToken(s, op.next);
      if file.kind != Word then None
      else
        var rest := Redirs(s, file.next);
        if rest.None? then None
        else Some(([((file.q, file.eq), op.kind != Sym('<'))] + rest.value.0, rest.value.1))
  }

  function Wrap(c: Cmd, rs: seq<(Token, bool)>): (r: Cmd)
    decreases |rs|
  {
    if rs == [] then c else Wrap(Redir(c, rs[0].0, rs[0].1), rs[1..])
  }

  /** The loop of parseexec, with the arguments and redirections collected so far. */
  function ArgLoop(s: string, args: seq<Token>, rs: seq<(Token, bool)>, i: nat): (r: Option<Parsed>)
    requires i <= |s|
    ensures r.Some? ==> i <= r.value.pos <= |s|
    decreases |s| - i
  {
    if Sees(s, i, '|') || Sees(s, i, ')') || Sees(s, i, '&') || Sees(s, i, ';') then
      Some(Parsed(Wrap(Exec(args), rs), SkipBlanks(s, i)))
    else
      var t := FindToken(s, i);
      if t.kind == End then Some(Parsed(Wrap(Exec(args), rs), t.next))
      else if t.kind != Word || |args| + 1 >= MAXARGS then None
      else
        var more := Redirs(s, t.next);
        if more.None? then None
        else ArgLoop(s, args + [(t.q, t.eq)], rs + more.value.0, more.value.1)
  }

  function ParseExec(s: string, i: nat): (r: Option<Parsed>)
    requires i <= |s|
    ensures r.Some? ==> i <= r.value.pos <= |s|
    decreases |s| - i, 1
  {
    if Sees(s, i, '(') then ParseBlock(s, i)
    else
      var rs := Redirs(s, i);
      if rs.None? then None else ArgLoop(s, [], rs.value.0, rs.value.1)
  }

  function ParseBlock(s: string, i: nat): (r: Option<Parsed>)
    requires i <= |s|
    ensures r.Some? ==> i <= r.value.pos <= |s|
    decreases |s| - i, 0
  {
    if !Sees(s, i, '(') then None
    else
      var c := ParseLine(s, FindToken(s, i).next);
      if c.None? || !Sees(s, c.value.pos, ')') then None
      else
        var rs := Redirs(s, FindToken(s, c.value.pos).next);
        if rs.None? then None else Some(Parsed(Wrap(c.value.cmd, rs.value.0), rs.value.1))
  }

  function ParsePipe(s: string, i: nat): (r: Option<Parsed>)
    requires i <= |s|
    ensures r.Some? ==> i <= r.value.pos <= |s|
    decreases |s| - i, 2
  {
    var c := ParseExec(s, i);
    if c.None? then None
    else if !Sees(s, c.value.pos, '|') then Some(Parsed(c.value.cmd, SkipBlanks(s, c.value.pos)))
    else
      var rest := ParsePipe(s, FindToken(s, c.value.pos).next);
      if rest.None? then None else Some(Parsed(Pipe(c.value.cmd, rest.value.cmd), rest.value.pos))
  }

  /** The loop of parseline over '&'. */
  function Backs(s: string, c: Cmd, i: nat): (r: Parsed)
    requires i <= |s|
    ensures i <= r.pos <= |s|
    decreases |s| - i
  {
    if Sees(s, i, '&') then Backs(s, Back(c), FindToken(s, i).next) else Parsed(c, SkipBlanks(s, i))
  }

  function ParseLine(s: string, i: nat): (r: Option<Parsed>)
    requires i <= |s|
    ensures r.Some? ==> i <= r.value.pos <= |s|
    decreases |s| - i, 3
  {
    var c := ParsePipe(s, i);
    if c.None? then None
    else
      var b := Backs(s, c.value.cmd, c.value.pos);
      if !Sees(s, b.pos, ';') then Some(Parsed(b.cmd, SkipBlanks(s, b.pos)))
      else
        var rest := ParseLine(s, FindToken(s, b.pos).next);
        if rest.None? then None else Some(Parsed(List(b.cmd, rest.value.cmd), rest.value.pos))
  }

  /** parsecmd, up to nulterminate: the whole line must be used. */
  function ParseCmd(s: string): (r: Option<Cmd>) {
    var c := ParseLine(s, 0);
    if c.None? || SkipBlanks(s, c.value.pos) != |s| then None else Some(c.value.cmd)
  }

  // ----- Command trees and their canonical rendering -----

  datatype Tree =
    | Command(args: seq<string>)
    | Redirected(cmd: Tree, file: string, out: bool)
    | Piped(left: Tree, right: Tree)
    | Listed(left: Tree, right: Tree)
    | Background(cmd: Tree)

  predicate IsWord(w: string) {
    w != "" && forall k :: 0 <= k < |w| ==> WordChar(w[k])
  }

  predicate WellFormed(t: Tree) {
    match t
    case Command(args) => |args| < MAXARGS && forall k :: 0 <= k < |args| ==> IsWord(args[k])
    case Redirected(c, file, _) => WellFormed(c) && IsWord(file)
    case Piped(l, r) => WellFormed(l) && WellFormed(r)
    case Listed(l, r) => WellFormed(l) && WellFormed(r)
    case Background(c) => WellFormed(c)
  }

  /** The level of the grammar that builds a tree: 0 simple commands, 1 pipes, 2 background, 3 lists. */
  function Native(t: Tree): nat {
    match t
    case Command(_) => 0
    case Redirected(_, _, _) => 0
    case Piped(_, _) => 1
    case Background(_) => 2
    case Listed(_, _) => 3
  }

  function Rank(level: nat, t: Tree): nat
    requires level < 4
  {
    if level >= Native(t) then level - Native(t) else level + 4 - Native(t)
  }

  function RenderArgs(args: seq<string>): string {
    if args == [] then "" else if |args| == 1 then args[0] else args[0] + " " + RenderArgs(args[1..])
  }

  function RenderExec(t: Tree): string
    decreases t, Rank(0, t)
  {
    match t
    case Command(args) => RenderArgs(args)
    case Redirected(c, file, out) => RenderExec(c) + (if out then ">" else "<") + file
    case _ => "(" + RenderLine(t) + ")"
  }

  function RenderPipe(t: Tree): string
    decreases t, Rank(1, t)
  {
    match t
    case Piped(l, r) => RenderExec(l) + "|" + RenderPipe(r)
    case _ => RenderExec(t)
  }

  function RenderBack(t: Tree): string
    decreases t, Rank(2, t)
  {
    match t
    case Background(c) => RenderBack(c) + "&"
    case _ => RenderPipe(t)
  }

  function RenderLine(t: Tree): string
    decreases t, Rank(3, t)
  {
    match t
    case Listed(l, r) => RenderBack(l) + ";" + RenderLine(r)
    case _ => RenderBack(t)
  }

  /** The tree of a parsed command: tokens replaced by their text. */
  function Slice(s: string, t: Token): string {
    if t.0 <= t.1 <= |s| then s[t.0..t.1] else ""
  }

  function Text(s: string, c: Cmd): Tree {
    match c
    case Exec(args) => Command(seq(|args|, k requires 0 <= k < |args| => Slice(s, args[k])))
    case Redir(d, file, out) => Redirected(Text(s, d), Slice(s, file), out)
    case Pipe(l, r) => Piped(Text(s, l), Text(s, r))
    case List(l, r) => Listed(Text(s, l), Text(s, r))
    case Back(d) => Background(Text(s, d))
  }

  // ----- Parsing a rendering gives the tree back -----

  /** The string w stands at position i. */
  predicate At(s: string, i: nat, w: string) {
    i + |w| <= |s| && s[i..i + |w|] == w
  }

  lemma AtSplit(s: string, i: nat, v: string, w: string)
    ensures At(s, i, v + w) <==> At(s, i, v) && At(s, i + |v|, w)
  {
    if i + |v| + |w| <= |s| {
      assert s[i..i + |v| + |w|] == s[i..i + |v|] + s[i + |v|..i + |v| + |w|];
      assert (v + w)[..|v|] == v && (v + w)[|v|..] == w;
    }
  }

  /** The line ends at e, or goes on with a symbol that ends a simple command. */
  predicate StopsExec(s: string, e: nat) {
    e == |s| || (e < |s| && (s[e] == '|' || s[e] == ')' || s[e] == '&' || s[e] == ';'))
  }

  predicate StopsPipe(s: string, e: nat) {
    e == |s| || (e < |s| && (s[e] == ')' || s[e] == '&' || s[e] == ';'))
  }

  predicate StopsLine(s: string, e: nat) {
    e == |s| || (e < |s| && s[e] == ')')
  }

  lemma WordAt(s: string, i: nat, w: string, k: nat)
    requires At(s, i, w) && k <= |w| && (forall j :: 0 <= j < |w| ==> WordChar(w[j]))
    requires i + |w| == |s| || !WordChar(s[i + |w|])
    ensures WordEnd(s, i + k) == i + |w|
    decreases |w| - k
  {
    if k < |w| {
      assert s[i + k] == s[i..i + |w|][k];
      WordAt(s, i, w, k + 1);
    }
  }

  lemma FindWord(s: string, i: nat, w: string)
    requires At(s, i, w) && IsWord(w) && (i + |w| == |s| || !WordChar(s[i + |w|]))
    ensures var t := FindToken(s, i);
            t.kind == Word && t.q == i && t.eq == i + |w| && t.next == SkipBlanks(s, i + |w|)
                && Slice(s, (t.q, t.eq)) == w
  {
    assert s[i] == s[i..i + |w|][0];
    WordAt(s, i, w, 0);
  }

  /** No blank stands at position i, so skipping blanks stays there. */
  predicate Solid(s: string, i: nat) {
    i == |s| || (i < |s| && !Blank(s[i]))
  }

  lemma SolidSkip(s: string, i: nat)
    requires Solid(s, i)
    ensures SkipBlanks(s, i) == i && forall c :: Sees(s, i, c) <==> i < |s| && s[i] == c
  {
  }

  lemma FindSymbol(s: string, i: nat)
    requires i < |s| && Symbol(s[i]) && (s[i] == '>' && i + 1 < |s| ==> s[i + 1] != '>') && Solid(s, i + 1)
    ensures FindToken(s, i) == Found(Sym(s[i]), i, i + 1, i + 1)
  {
  }

  lemma AtBound(s: string, i: nat, w: string)
    requires At(s, i, w)
    ensures i + |w| <= |s|
  {
  }

  /** The first character of a string that stands at i. */
  lemma AtFirst(s: string, i: nat, w: string)
    requires At(s, i, w) && w != ""
    ensures i < |s| && s[i] == w[0]
  {
    assert s[i] == s[i..i + |w|][0];
  }

  function RenderRedirs(rs: seq<(string, bool)>): string {
    if rs == [] then "" else (if rs[0].1 then ">" else "<") + rs[0].0 + RenderRedirs(rs[1..])
  }

  ghost predicate SameRedirs(s: string, toks: seq<(Token, bool)>, rs: seq<(string, bool)>) {
    |toks| == |rs| && forall k :: 0 <= k < |rs| ==> Slice(s, toks[k].0) == rs[k].0 && toks[k].1 == rs[k].1
  }

  lemma {:induction false} RedirsRoundTrip(s: string, i: nat, rs: seq<(string, bool)>)
    requires At(s, i, RenderRedirs(rs)) && StopsExec(s, i + |RenderRedirs(rs)|)
    requires forall k :: 0 <= k < |rs| ==> IsWord(rs[k].0)
    ensures i <= |s| && Redirs(s, i).Some? && Redirs(s, i).value.1 == i + |RenderRedirs(rs)|
    ensures SameRedirs(s, Redirs(s, i).value.0, rs)
    decreases |rs|
  {
    hide FindToken, SkipBlanks, Sees, At, RenderRedirs, IsWord, Slice, Redirs;
    AtBound(s, i, RenderRedirs(rs));
    if rs == [] {
      NoRedirs(s, i);
    } else {
      RedirAt(s, i, rs);
      var e := i + 1 + |rs[0].0|;
      RedirsRoundTrip(s, e, rs[1..]);
      RedirStep(s, i, e, rs[0].1);
    }
  }

  lemma NoRedirs(s: string, i: nat)
    ensures RenderRedirs([]) == ""
    ensures StopsExec(s, i) ==> Redirs(s, i) == Some(([], i))
  {
    hide SkipBlanks, Sees;
    if StopsExec(s, i) { SolidSkip(s, i); }
  }

  lemma RedirStep(s: string, i: nat, e: nat, out: bool)
    requires i + 1 <= e <= |s| && (Sees(s, i, '<') || Sees(s, i, '>')) && Redirs(s, e).Some?
    requires FindToken(s, i).kind == Sym(if out then '>' else '<') && FindToken(s, i).next == i + 1
    requires FindToken(s, i + 1) == Found(Word, i + 1, e, e)
    ensures Redirs(s, i) == Some(([((i + 1, e), out)] + Redirs(s, e).value.0, Redirs(s, e).value.1))
  {
    hide FindToken, SkipBlanks, Sees;
  }

  /** One redirection: operator, file name, and whatever comes next. */
  lemma RedirAt(s: string, i: nat, rs: seq<(string, bool)>)
    requires At(s, i, RenderRedirs(rs)) && StopsExec(s, i + |RenderRedirs(rs)|) && rs != [] && IsWord(rs[0].0)
    ensures var e := i + 1 + |rs[0].0|;
      && e <= |s| && At(s, e, RenderRedirs(rs[1..])) && |RenderRedirs(rs)| == e - i + |RenderRedirs(rs[1..])|
      && (Sees(s, i, '<') || Sees(s, i, '>'))
      && FindToken(s, i) == Found(Sym(if rs[0].1 then '>' else '<'), i, i + 1, i + 1)
      && FindToken(s, i + 1) == Found(Word, i + 1, e, e) && Slice(s, (i + 1, e)) == rs[0].0
  {
    hide FindToken, SkipBlanks, Sees, At, RenderRedirs, Slice;
    var e := i + 1 + |rs[0].0|;
    RedirSplit(s, i, rs);
    AtFirst(s, i + 1, rs[0].0);
    assert WordChar(rs[0].0[0]);
    RedirsSolid(s, e, rs[1..]);
    SolidSkip(s, i);
    FindSymbol(s, i);
    FindWord(s, i + 1, rs[0].0);
  }

  lemma RedirSplit(s: string, i: nat, rs: seq<(string, bool)>)
    requires rs != [] && At(s, i, RenderRedirs(rs))
    ensures var e := i + 1 + |rs[0].0|;
      && e <= |s| && s[i] == (if rs[0].1 then '>' else '<') && At(s, i + 1, rs[0].0) && At(s, e, RenderRedirs(rs[1..]))
      && |RenderRedirs(rs)| == e - i + |RenderRedirs(rs[1..])|
  {
    hide At;
    var op, file, rest := if rs[0].1 then ">" else "<", rs[0].0, RenderRedirs(rs[1..]);
    assert RenderRedirs(rs) == op + (file + rest);
    AtSplit(s, i, op, file + rest);
    AtSplit(s, i + 1, file, rest);
    AtBound(s, i + 1 + |file|, rest);
    AtFirst(s, i, op);
  }

  lemma FindEnd(s: string)
    ensures FindToken(s, |s|) == Found(End, |s|, |s|, |s|)
  {
  }

  lemma ArgStop(s: string, args: seq<Token>, rs: seq<(Token, bool)>, e: nat)
    requires StopsExec(s, e)
    ensures ArgLoop(s, args, rs, e) == Some(Parsed(Wrap(Exec(args), rs), e))
  {
    hide FindToken, SkipBlanks, Sees, Wrap;
    SolidSkip(s, e);
    FindEnd(s);
  }

  ghost predicate SameArgs(s: string, toks: seq<Token>, args: seq<string>) {
    |toks| == |args| && forall k :: 0 <= k < |args| ==> Slice(s, toks[k]) == args[k]
  }

  /** The words of a simple command, one by one, then its redirections. */
  lemma {:induction false} ArgsRoundTrip(s: string, i: nat, done: seq<Token>, args: seq<string>,
          rs: seq<(string, bool)>)
    returns (toks: seq<Token>, rtoks: seq<(Token, bool)>)
    requires At(s, i, RenderArgs(args)) && At(s, i + |RenderArgs(args)|, RenderRedirs(rs))
    requires StopsExec(s, i + |RenderArgs(args)| + |RenderRedirs(rs)|)
    requires args != [] && |done| + |args| < MAXARGS && (forall k :: 0 <= k < |args| ==> IsWord(args[k]))
    requires forall k :: 0 <= k < |rs| ==> IsWord(rs[k].0)
    ensures i <= |s| && SameArgs(s, toks, args) && SameRedirs(s, rtoks, rs)
    ensures ArgLoop(s, done, [], i) ==
            Some(Parsed(Wrap(Exec(done + toks), rtoks), i + |RenderArgs(args)| + |RenderRedirs(rs)|))
    decreases |args|
  {
    hide FindToken, SkipBlanks, Sees, WordEnd, At, Wrap, Redirs, RenderRedirs, RenderArgs, ArgLoop, SameRedirs, Slice,
      IsWord;
    var eq, none: seq<(Token, bool)> := i + |args[0]|, [];
    ArgAt(s, i, args, rs);
    if |args| == 1 {
      RedirsRoundTrip(s, eq, rs);
      toks, rtoks := [(i, eq)], Redirs(s, eq).value.0;
      assert none + rtoks == rtoks;
      ArgLoopStep(s, done, none, i);
      ArgStop(s, done + toks, rtoks, eq + |RenderRedirs(rs)|);
    } else {
      var toks' , rtoks' := ArgsRoundTrip(s, eq + 1, done + [(i, eq)], args[1..], rs);
      toks, rtoks := [(i, eq)] + toks', rtoks';
      assert done + [(i, eq)] + toks' == done + toks && none + none == none;
      ArgLoopStep(s, done, none, i);
    }
  }

  lemma ArgLoopStep(s: string, args: seq<Token>, rs: seq<(Token, bool)>, i: nat)
    requires i <= |s| && !(Sees(s, i, '|') || Sees(s, i, ')') || Sees(s, i, '&') || Sees(s, i, ';'))
    requires FindToken(s, i).kind == Word && |args| + 1 < MAXARGS && Redirs(s, FindToken(s, i).next).Some?
    ensures var t := FindToken(s, i);
            var more := Redirs(s, t.next).value;
            ArgLoop(s, args, rs, i) == ArgLoop(s, args + [(t.q, t.eq)], rs + more.0, more.1)
  {
    hide FindToken, SkipBlanks, Sees, Redirs;
  }

  /** One word and what follows it. */
  lemma ArgAt(s: string, i: nat, args: seq<string>, rs: seq<(string, bool)>)
    requires At(s, i, RenderArgs(args)) && At(s, i + |RenderArgs(args)|, RenderRedirs(rs))
    requires StopsExec(s, i + |RenderArgs(args)| + |RenderRedirs(rs)|)
    requires args != [] && forall k :: 0 <= k < |args| ==> IsWord(args[k])
    ensures var eq := i + |args[0]|;
      && i < |s| && eq <= |s| && WordChar(s[i]) && Slice(s, (i, eq)) == args[0]
      && !(Sees(s, i, '|') || Sees(s, i, ')') || Sees(s, i, '&') || Sees(s, i, ';'))
      && if |args| == 1 then FindToken(s, i) == Found(Word, i, eq, eq) && |RenderArgs(args)| == eq - i
         else
           && FindToken(s, i) == Found(Word, i, eq, eq + 1) && eq + 1 <= |s|
           && Redirs(s, eq + 1) == Some(([], eq + 1))
           && At(s, eq + 1, RenderArgs(args[1..])) && |RenderArgs(args)| == eq + 1 - i + |RenderArgs(args[1..])|
  {
    hide FindToken, SkipBlanks, Sees, WordEnd, At, RenderRedirs, Redirs, Slice;
    var w := args[0];
    assert IsWord(w);
    var eq := i + |w|;
    if |args| == 1 {
      RedirsSolid(s, eq, rs);
    } else {
      var rest := RenderArgs(args[1..]);
      assert RenderArgs(args) == w + (" " + rest);
      AtSplit(s, i, w, " " + rest);
      AtSplit(s, eq, " ", rest);
      AtFirst(s, eq, " ");
      assert IsWord(args[1]) && args[1..][0] == args[1];
      NextWord(s, eq, args[1..]);
    }
    WordHere(s, i, w);
  }

  /** What follows a word is a redirection or ends the command; either way it is no blank. */
  lemma RedirsSolid(s: string, e: nat, rs: seq<(string, bool)>)
    requires At(s, e, RenderRedirs(rs)) && StopsExec(s, e + |RenderRedirs(rs)|)
    ensures Solid(s, e) && (e < |s| ==> !WordChar(s[e])) && SkipBlanks(s, e) == e
  {
    if rs != [] { AtFirst(s, e, RenderRedirs(rs)); }
    SolidSkip(s, e);
  }

  lemma NextWord(s: string, e: nat, args: seq<string>)
    requires e < |s| && Blank(s[e]) && args != [] && IsWord(args[0]) && At(s, e + 1, RenderArgs(args))
    ensures e + 1 < |s| && SkipBlanks(s, e) == e + 1 && Redirs(s, e + 1) == Some(([], e + 1))
  {
    hide SkipBlanks, Sees, At;
    assert RenderArgs(args)[0] == args[0][0];
    AtFirst(s, e + 1, RenderArgs(args));
    SkipOne(s, e);
    SolidSkip(s, e + 1);
  }

  lemma WordHere(s: string, i: nat, w: string)
    requires At(s, i, w) && IsWord(w) && (i + |w| == |s| || !WordChar(s[i + |w|]))
    ensures i < |s| && i + |w| <= |s| && WordChar(s[i]) && Slice(s, (i, i + |w|)) == w
    ensures !(Sees(s, i, '|') || Sees(s, i, ')') || Sees(s, i, '&') || Sees(s, i, ';'))
    ensures FindToken(s, i) == Found(Word, i, i + |w|, SkipBlanks(s, i + |w|))
  {
    hide FindToken, SkipBlanks, Sees, WordEnd;
    AtFirst(s, i, w);
    SolidSkip(s, i);
    FindWord(s, i, w);
  }

  lemma SkipOne(s: string, i: nat)
    requires i < |s| && Blank(s[i])
    ensures SkipBlanks(s, i) == SkipBlanks(s, i + 1)
  {
  }

  // ----- A command with its redirections taken off -----

  function Core(t: Tree): (r: Tree)
    ensures !r.Redirected?
  {
    if t.Redirected? then Core(t.cmd) else t
  }

  function Chain(t: Tree): seq<(string, bool)> {
    if t.Redirected? then Chain(t.cmd) + [(t.file, t.out)] else []
  }

  function TreeWrap(t: Tree, rs: seq<(string, bool)>): Tree
    decreases |rs|
  {
    if rs == [] then t else TreeWrap(Redirected(t, rs[0].0, rs[0].1), rs[1..])
  }

  lemma {:induction false} TreeWrapMore(t: Tree, rs: seq<(string, bool)>, x: (string, bool))
    ensures TreeWrap(t, rs + [x]) == Redirected(TreeWrap(t, rs), x.0, x.1)
    ensures RenderRedirs(rs + [x]) == RenderRedirs(rs) + (if x.1 then ">" else "<") + x.0
    decreases |rs|
  {
    if rs != [] {
      assert (rs + [x])[1..] == rs[1..] + [x];
      TreeWrapMore(Redirected(t, rs[0].0, rs[0].1), rs[1..], x);
    }
  }

  /** A command is its core with its redirections put on, and so is its rendering. */
  lemma {:induction false} CoreChain(t: Tree)
    requires WellFormed(t)
    ensures t == TreeWrap(Core(t), Chain(t)) && RenderExec(t) == RenderExec(Core(t)) + RenderRedirs(Chain(t))
    ensures WellFormed(Core(t)) && forall k :: 0 <= k < |Chain(t)| ==> IsWord(Chain(t)[k].0)
    ensures Core(t) == t || Core(t) < t
  {
    if t.Redirected? {
      CoreChain(t.cmd);
      TreeWrapMore(Core(t.cmd), Chain(t.cmd), (t.file, t.out));
    }
  }

  lemma {:induction false} WrapText(s: string, c: Cmd, toks: seq<(Token, bool)>, rs: seq<(string, bool)>)
    requires SameRedirs(s, toks, rs)
    ensures Text(s, Wrap(c, toks)) == TreeWrap(Text(s, c), rs)
    decreases |rs|
  {
    if rs != [] {
      WrapText(s, Redir(c, toks[0].0, toks[0].1), toks[1..], rs[1..]);
    }
  }

  // ----- The four levels of the grammar -----

  /** The parse gives back the tree and stops right after its rendering. */
  ghost predicate Gives(s: string, r: Option<Parsed>, e: nat, t: Tree) {
    r.Some? && r.value.pos == e && Text(s, r.value.cmd) == t
  }

  lemma SimpleRoundTrip(s: string, i: nat, t: Tree)
    requires WellFormed(t) && Core(t).Command? && At(s, i, RenderExec(t)) && StopsExec(s, i + |RenderExec(t)|)
    ensures i <= |s| && Gives(s, ParseExec(s, i), i + |RenderExec(t)|, t)
  {
    hide FindToken, SkipBlanks, Sees, At, Wrap, TreeWrap, RenderArgs, RenderRedirs, ArgLoop, Redirs, SameRedirs,
      SameArgs, ParseExec, Text;
    CoreChain(t);
    var args, rs := Core(t).args, Chain(t);
    AtBound(s, i, RenderExec(t));
    AtSplit(s, i, RenderArgs(args), RenderRedirs(rs));
    var toks, rtoks := WordsRoundTrip(s, i, args, rs);
    TextArgs(s, toks, args);
    WrapText(s, Exec(toks), rtoks, rs);
  }

  lemma WordsRoundTrip(s: string, i: nat, args: seq<string>, rs: seq<(string, bool)>)
    returns (toks: seq<Token>, rtoks: seq<(Token, bool)>)
    requires At(s, i, RenderArgs(args)) && At(s, i + |RenderArgs(args)|, RenderRedirs(rs))
    requires StopsExec(s, i + |RenderArgs(args)| + |RenderRedirs(rs)|)
    requires |args| < MAXARGS && (forall k :: 0 <= k < |args| ==> IsWord(args[k]))
    requires forall k :: 0 <= k < |rs| ==> IsWord(rs[k].0)
    ensures i <= |s| && SameArgs(s, toks, args) && SameRedirs(s, rtoks, rs)
    ensures ParseExec(s, i) == Some(Parsed(Wrap(Exec(toks), rtoks), i + |RenderArgs(args)| + |RenderRedirs(rs)|))
  {
    hide FindToken, SkipBlanks, Sees, At, Wrap, RenderArgs, RenderRedirs, ArgLoop, Redirs, SameRedirs, ParseBlock,
      IsWord;
    if args == [] {
      NoArgs();
      RedirsRoundTrip(s, i, rs);
      toks, rtoks := [], Redirs(s, i).value.0;
      ArgStop(s, [], rtoks, i + |RenderRedirs(rs)|);
      RedirsNoParen(s, i, rs);
    } else {
      ArgAt(s, i, args, rs);
      WordStart(s, i);
      toks, rtoks := ArgsRoundTrip(s, i, [], args, rs);
      assert [] + toks == toks;
    }
  }

  lemma TextArgs(s: string, toks: seq<Token>, args: seq<string>)
    requires SameArgs(s, toks, args)
    ensures Text(s, Exec(toks)) == Command(args)
  {
    hide Slice;
  }

  lemma NoArgs()
    ensures RenderArgs([]) == ""
  {
  }

  lemma RedirsNoParen(s: string, i: nat, rs: seq<(string, bool)>)
    requires At(s, i, RenderRedirs(rs)) && StopsExec(s, i + |RenderRedirs(rs)|)
    ensures i <= |s| && !Sees(s, i, '(')
  {
    if rs != [] { AtFirst(s, i, RenderRedirs(rs)); }
    SolidSkip(s, i);
  }

  lemma WordStart(s: string, i: nat)
    requires i < |s| && WordChar(s[i])
    ensures !Sees(s, i, '(') && Redirs(s, i) == Some(([], i))
  {
    hide SkipBlanks, Sees;
    SolidSkip(s, i);
  }

  lemma {:induction false} ExecRoundTrip(s: string, i: nat, t: Tree)
    requires WellFormed(t) && At(s, i, RenderExec(t)) && StopsExec(s, i + |RenderExec(t)|)
    ensures i <= |s| && Gives(s, ParseExec(s, i), i + |RenderExec(t)|, t)
    decreases t, Rank(0, t)
  {
    CoreChain(t);
    if Core(t).Command? {
      SimpleRoundTrip(s, i, t);
    } else {
      BlockAt(s, i, t);
      LineRoundTrip(s, i + 1, Core(t));
      BlockRoundTrip(s, i, t);
    }
  }

  lemma BlockAt(s: string, i: nat, t: Tree)
    requires WellFormed(t) && !Core(t).Command? && At(s, i, RenderExec(t))
    ensures var e := i + 1 + |RenderLine(Core(t))|;
      && i < |s| && s[i] == '(' && At(s, i + 1, RenderLine(Core(t))) && e < |s| && s[e] == ')'
      && At(s, e + 1, RenderRedirs(Chain(t))) && i + |RenderExec(t)| == e + 1 + |RenderRedirs(Chain(t))| <= |s|
  {
    hide At, RenderRedirs, RenderLine;
    CoreChain(t);
    var line, rs := RenderLine(Core(t)), RenderRedirs(Chain(t));
    assert RenderExec(t) == "(" + (line + (")" + rs));
    AtSplit(s, i, "(", line + (")" + rs));
    AtSplit(s, i + 1, line, ")" + rs);
    AtSplit(s, i + 1 + |line|, ")", rs);
    AtFirst(s, i, "(");
    AtFirst(s, i + 1 + |line|, ")");
    AtBound(s, i + 2 + |line|, rs);
  }

  predicate NoBlankStart(w: string) {
    w == "" || !Blank(w[0])
  }

  /** No rendering starts with a blank. */
  lemma {:induction false} Starts(t: Tree)
    requires WellFormed(t)
    ensures NoBlankStart(RenderExec(t)) && NoBlankStart(RenderPipe(t)) && NoBlankStart(RenderBack(t))
    ensures NoBlankStart(RenderLine(t))
  {
    match t
    case Command(args) => if args != [] { assert IsWord(args[0]) && WordChar(args[0][0]); }
    case Redirected(c, _, _) => Starts(c);
    case Piped(l, r) => Starts(l);
    case Listed(l, r) => Starts(l);
    case Background(c) => Starts(c);
  }

  lemma SolidAt(s: string, i: nat, w: string)
    requires At(s, i, w) && NoBlankStart(w) && (w == "" ==> Solid(s, i))
    ensures Solid(s, i)
  {
    if w != "" { AtFirst(s, i, w); }
  }

  lemma BlockRoundTrip(s: string, i: nat, t: Tree)
    requires WellFormed(t) && !Core(t).Command? && At(s, i, RenderExec(t)) && StopsExec(s, i + |RenderExec(t)|)
    requires i + 1 <= |s| && Gives(s, ParseLine(s, i + 1), i + 1 + |RenderLine(Core(t))|, Core(t))
    ensures i <= |s| && Gives(s, ParseExec(s, i), i + |RenderExec(t)|, t)
  {
    hide FindToken, SkipBlanks, Sees, At, Wrap, TreeWrap, RenderRedirs, RenderLine, RenderExec, Redirs, SameRedirs,
      ParseLine, ParseExec, ParseBlock;
    BlockAt(s, i, t);
    CoreChain(t);
    var e, rs := i + 1 + |RenderLine(Core(t))|, Chain(t);
    Starts(Core(t));
    SolidAt(s, i + 1, RenderLine(Core(t)));
    FindSymbol(s, i);
    SolidSkip(s, i);
    SolidSkip(s, e);
    RedirsSolid(s, e + 1, rs);
    FindSymbol(s, e);
    RedirsRoundTrip(s, e + 1, rs);
    var c, toks := ParseLine(s, i + 1).value.cmd, Redirs(s, e + 1).value.0;
    BlockResult(s, i, e, c, toks, e + 1 + |RenderRedirs(rs)|);
    WrapText(s, c, toks, rs);
  }

  lemma BlockResult(s: string, i: nat, e: nat, c: Cmd, toks: seq<(Token, bool)>, pos: nat)
    requires i < |s| && e < |s|
    requires Sees(s, i, '(') && FindToken(s, i).next == i + 1 && ParseLine(s, i + 1) == Some(Parsed(c, e))
    requires Sees(s, e, ')') && FindToken(s, e).next == e + 1 && Redirs(s, e + 1) == Some((toks, pos))
    ensures ParseExec(s, i) == Some(Parsed(Wrap(c, toks), pos))
  {
    hide FindToken, SkipBlanks, Sees, Wrap, Redirs, ParseLine;
  }

  lemma {:induction false} PipeRoundTrip(s: string, i: nat, t: Tree)
    requires WellFormed(t) && At(s, i, RenderPipe(t)) && StopsPipe(s, i + |RenderPipe(t)|)
    ensures i <= |s| && Gives(s, ParsePipe(s, i), i + |RenderPipe(t)|, t)
    decreases t, Rank(1, t)
  {
    hide FindToken, SkipBlanks, Sees, At, ParseExec, RenderExec;
    if t.Piped? {
      var left, right := RenderExec(t.left), RenderPipe(t.right);
      var e := i + |left|;
      assert RenderPipe(t) == left + ("|" + right);
      AtSplit(s, i, left, "|" + right);
      AtSplit(s, e, "|", right);
      AtFirst(s, e, "|");
      AtBound(s, e + 1, right);
      ExecRoundTrip(s, i, t.left);
      Starts(t.right);
      SolidAt(s, e + 1, right);
      FindSymbol(s, e);
      SolidSkip(s, e);
      PipeRoundTrip(s, e + 1, t.right);
    } else {
      ExecRoundTrip(s, i, t);
      SolidSkip(s, i + |RenderPipe(t)|);
    }
  }

  /** The '&'s are taken one by one: after those of t, the loop stands at its end with the command for t. */
  lemma {:induction false} BackRoundTrip(s: string, i: nat, t: Tree) returns (c: Cmd)
    requires WellFormed(t) && At(s, i, RenderBack(t)) && StopsPipe(s, i + |RenderBack(t)|)
    ensures i <= |s| && ParsePipe(s, i).Some? && Text(s, c) == t
    ensures Backs(s, ParsePipe(s, i).value.cmd, ParsePipe(s, i).value.pos) == Backs(s, c, i + |RenderBack(t)|)
    decreases t, Rank(2, t)
  {
    hide FindToken, SkipBlanks, Sees, At, ParsePipe, RenderPipe;
    if t.Background? {
      var e := i + |RenderBack(t.cmd)|;
      AtSplit(s, i, RenderBack(t.cmd), "&");
      AtFirst(s, e, "&");
      c := BackRoundTrip(s, i, t.cmd);
      SolidSkip(s, e);
      FindSymbol(s, e);
      c := Back(c);
    } else {
      PipeRoundTrip(s, i, t);
      c := ParsePipe(s, i).value.cmd;
    }
  }

  lemma {:induction false} LineRoundTrip(s: string, i: nat, t: Tree)
    requires WellFormed(t) && At(s, i, RenderLine(t)) && StopsLine(s, i + |RenderLine(t)|)
    ensures i <= |s| && Gives(s, ParseLine(s, i), i + |RenderLine(t)|, t)
    decreases t, Rank(3, t)
  {
    hide FindToken, SkipBlanks, Sees, At, ParsePipe, RenderBack, ParseLine, Backs;
    if t.Listed? {
      var left, right := RenderBack(t.left), RenderLine(t.right);
      var e := i + |left|;
      assert RenderLine(t) == left + (";" + right);
      AtSplit(s, i, left, ";" + right);
      AtSplit(s, e, ";", right);
      AtFirst(s, e, ";");
      AtBound(s, e + 1, right);
      var c := BackRoundTrip(s, i, t.left);
      SolidSkip(s, e);
      Starts(t.right);
      SolidAt(s, e + 1, right);
      FindSymbol(s, e);
      LineRoundTrip(s, e + 1, t.right);
      LineStep(s, i, c, e);
    } else {
      var c := BackRoundTrip(s, i, t);
      SolidSkip(s, i + |RenderLine(t)|);
      LineStep(s, i, c, i + |RenderLine(t)|);
    }
  }

  lemma LineStep(s: string, i: nat, c: Cmd, e: nat)
    requires i <= |s| && e <= |s| && SkipBlanks(s, e) == e && !Sees(s, e, '&') && ParsePipe(s, i).Some?
    requires Backs(s, ParsePipe(s, i).value.cmd, ParsePipe(s, i).value.pos) == Backs(s, c, e)
    ensures !Sees(s, e, ';') ==> ParseLine(s, i) == Some(Parsed(c, e))
    ensures var next := FindToken(s, e).next;
            Sees(s, e, ';') && FindToken(s, e).next > i && ParseLine(s, next).Some? ==>
            ParseLine(s, i) == Some(Parsed(List(c, ParseLine(s, next).value.cmd), ParseLine(s, next).value.pos))
  {
    hide FindToken, SkipBlanks, Sees, ParsePipe;
  }

  /** Parsing the canonical rendering of any command tree gives the tree back. */
  lemma ParseRender(t: Tree)
    requires WellFormed(t)
    ensures ParseCmd(RenderLine(t)).Some? && Text(RenderLine(t), ParseCmd(RenderLine(t)).value) == t
  {
    var s := RenderLine(t);
    assert s[0..0 + |s|] == s;
    LineRoundTrip(s, 0, t);
    SolidSkip(s, |s|);
  }
}
