/**
  The command parser of user/sh.c.  The functions work on what is left of the input after
  the cursor; the class moves a cursor over the line as the code does.  Lines are C strings,
  so they hold no NUL.
*/
module Shell {

  const MAXARGS := 10

  datatype Cmd =
    | Exec(argv: seq<string>)
    /** A file opened for writing on descriptor 1 (out), or for reading on descriptor 0. */
    | Redir(cmd: Cmd, file: string, out: bool)
    | Pipe(left: Cmd, right: Cmd)
    | List(left: Cmd, right: Cmd)
    | Back(cmd: Cmd)

  predicate White(c: char) { c == ' ' || c == '\t' || c == '\r' || c == '\n' || c == '\U{b}' }
  predicate Symbol(c: char) { c == '<' || c == '|' || c == '>' || c == '&' || c == ';' || c == '(' || c == ')' }

  predicate Word(w: string) { w != "" && forall k :: 0 <= k < |w| ==> !White(w[k]) && !Symbol(w[k]) }

  /** A tree that the parser can build. */
  predicate Legal(c: Cmd) {
    match c
    case Exec(argv) => |argv| < MAXARGS && forall k :: 0 <= k < |argv| ==> Word(argv[k])
    case Redir(d, file, _) => Word(file) && Legal(d)
    case Pipe(l, r) => Legal(l) && Legal(r)
    case List(l, r) => Legal(l) && Legal(r)
    case Back(d) => Legal(d)
  }

  // --- Tokens ---

  function Skip(r: string): (s: string)
    ensures |s| <= |r| && (s != "" ==> !White(s[0]))
  {
    if r != "" && White(r[0]) then Skip(r[1..]) else r
  }

  function WordLen(r: string): (n: nat)
    ensures n <= |r| && forall k :: 0 <= k < n ==> !White(r[k]) && !Symbol(r[k])
  {
    if r != "" && !White(r[0]) && !Symbol(r[0]) then 1 + WordLen(r[1..]) else 0
  }

  datatype Token = End | Sym(c: char) | Append | Text(w: string)
  datatype Read = Read(tok: Token, rest: string)

  /** gettoken: the next token and what follows it and the white space after it. */
  function GetToken(r: string): (t: Read)
    ensures t.tok == End || |t.rest| < |r|
    ensures t.tok.Text? ==> Word(t.tok.w)
    ensures |t.rest| <= |r|
  {
    var s := Skip(r);
    if s == "" then Read(End, "")
    else if Symbol(s[0]) then
      if s[0] == '>' && |s| > 1 && s[1] == '>' then Read(Append, Skip(s[2..])) else Read(Sym(s[0]), Skip(s[1..]))
    else
      var n := WordLen(s);
      Read(Text(s[..n]), Skip(s[n..]))
  }

  /** peek: is the next character one of toks? */
  predicate Peek(r: string, toks: set<char>) {
    var s := Skip(r);
    s != "" && s[0] in toks
  }

  // --- The parser ---

  datatype Target = Target(file: string, out: bool)
  datatype Result<T> = Ok(value: T, rest: string) | Err(msg: string)

  predicate Targets(ts: seq<Target>) { forall k :: 0 <= k < |ts| ==> Word(ts[k].file) }

  /** The redirections around a command, the first one innermost. */
  function Wrap(c: Cmd, ts: seq<Target>): (d: Cmd)
    ensures Legal(c) && Targets(ts) ==> Legal(d)
  {
    if ts == [] then c
    else
      var n := |ts| - 1;
      Redir(Wrap(c, ts[..n]), ts[n].file, ts[n].out)
  }

  /** parseredirs, after the redirections ts. */
  function ParseRedirs(ts: seq<Target>, r: string): (p: Result<seq<Target>>)
    ensures p.Ok? ==> |p.rest| <= |r| && (Targets(ts) ==> Targets(p.value))
    decreases |r|
  {
    if Peek(r, {'<', '>'}) then
      var t := GetToken(r);
      var f := GetToken(t.rest);
      if !f.tok.Text? then Err("missing file for redirection")
      else ParseRedirs(ts + [Target(f.tok.w, t.tok != Sym('<'))], f.rest)
    else Ok(ts, Skip(r))
  }

  datatype Simple = Simple(argv: seq<string>, targets: seq<Target>)

  predicate LegalSimple(s: Simple) { Legal(Exec(s.argv)) && Targets(s.targets) }

  /** The loop of parseexec. */
  function ParseArgs(s: Simple, r: string): (p: Result<Simple>)
    ensures p.Ok? ==> |p.rest| <= |r| && (LegalSimple(s) ==> LegalSimple(p.value))
    decreases |r|
  {
    if Peek(r, {'|', ')', '&', ';'}) then Ok(s, Skip(r))
    else
      var t := GetToken(r);
      match t.tok
      case End => Ok(s, t.rest)
      case Text(w) =>
        if |s.argv| + 1 >= MAXARGS then Err("too many args")
        else
          var p := ParseRedirs(s.targets, t.rest);
          if p.Err? then Err(p.msg) else ParseArgs(Simple(s.argv + [w], p.value), p.rest)
      case _ => Err("syntax")
  }

  function ParseExec(r: string): (p: Result<Cmd>)
    ensures p.Ok? ==> |p.rest| <= |r| && Legal(p.value)
    decreases |r|, 1
  {
    if Peek(r, {'('}) then ParseBlock(r)
    else
      var p := ParseRedirs([], r);
      if p.Err? then Err(p.msg)
      else
        var q := ParseArgs(Simple([], p.value), p.rest);
        if q.Err? then Err(q.msg) else Ok(Wrap(Exec(q.value.argv), q.value.targets), q.rest)
  }

  function ParseBlock(r: string): (p: Result<Cmd>)
    ensures p.Ok? ==> |p.rest| <= |r| && Legal(p.value)
    decreases |r|, 0
  {
    if !Peek(r, {'('}) then Err("parseblock")
    else
      var p := ParseLine(GetToken(r).rest);
      if p.Err? then p
      else if !Peek(p.rest, {')'}) then Err("syntax - missing )")
      else
        var q := ParseRedirs([], GetToken(p.rest).rest);
        if q.Err? then Err(q.msg) else Ok(Wrap(p.value, q.value), q.rest)
  }

  function ParsePipe(r: string): (p: Result<Cmd>)
    ensures p.Ok? ==> |p.rest| <= |r| && Legal(p.value)
    decreases |r|, 2
  {
    var p := ParseExec(r);
    if p.Ok? && Peek(p.rest, {'|'}) then
      var q := ParsePipe(GetToken(p.rest).rest);
      if q.Err? then q else Ok(Pipe(p.value, q.value), q.rest)
    else if p.Ok? then Ok(p.value, Skip(p.rest))
    else p
  }

  /** The loop of parseline. */
  function ParseBacks(c: Cmd, r: string): (p: Result<Cmd>)
    ensures p.Ok? && |p.rest| <= |r| && Skip(p.rest) == p.rest && (Legal(c) ==> Legal(p.value))
    decreases |r|
  {
    if Peek(r, {'&'}) then ParseBacks(Back(c), GetToken(r).rest) else Ok(c, Skip(r))
  }

  function ParseLine(r: string): (p: Result<Cmd>)
    ensures p.Ok? ==> |p.rest| <= |r| && Legal(p.value)
    decreases |r|, 3
  {
    var p := ParsePipe(r);
    if p.Err? then p
    else
      var b := ParseBacks(p.value, p.rest);
      if Peek(b.rest, {';'}) then
        var q := ParseLine(GetToken(b.rest).rest);
        if q.Err? then q else Ok(List(b.value, q.value), q.rest)
      else b
  }

  /** parsecmd: the tree, if the whole line is a command. */
  function ParseCmd(s: string): (p: Result<Cmd>)
    ensures p.Ok? ==> p.rest == "" && Legal(p.value)
  {
    var p := ParseLine(s);
    if p.Err? then p else if Skip(p.rest) != "" then Err("syntax") else Ok(p.value, "")
  }

  // --- Printing ---

  /** A command without the redirections around it, and those. */
  function Base(c: Cmd): (d: Cmd)
    ensures !d.Redir? && (d == c || d < c) && (Legal(c) ==> Legal(d))
  {
    if c.Redir? then Base(c.cmd) else c
  }

  function TargetsOf(c: Cmd): (ts: seq<Target>)
    ensures Wrap(Base(c), ts) == c && (Legal(c) ==> Targets(ts)) && (!c.Redir? ==> ts == [])
  {
    if c.Redir? then TargetsOf(c.cmd) + [Target(c.file, c.out)] else []
  }

  function PrintWords(ws: seq<string>): string {
    if ws == [] then "" else " " + ws[0] + PrintWords(ws[1..])
  }

  function PrintTarget(t: Target): string { (if t.out then " >" else " <") + t.file }

  function PrintTargets(ts: seq<Target>): string {
    if ts == [] then "" else PrintTarget(ts[0]) + PrintTargets(ts[1..])
  }

  /** How far the printer is, at one of the levels line 3, back 2, pipe 1 and exec 0, from taking c apart. */
  ghost function Distance(level: nat, c: Cmd): nat
    requires level < 4
  {
    (level + 4 - (if c.List? then 3 else if c.Back? then 2 else if c.Pipe? then 1 else 0)) % 4
  }

  /** A command where parseexec is called: what is no simple command goes into parentheses. */
  function PrintExec(c: Cmd): string
    decreases c, Distance(0, c)
  {
    var b := Base(c);
    (if b.Exec? then PrintWords(b.argv) else "(" + PrintLine(b) + ")") + PrintTargets(TargetsOf(c))
  }

  function PrintPipe(c: Cmd): string
    decreases c, Distance(1, c)
  {
    if c.Pipe? then PrintExec(c.left) + "|" + PrintPipe(c.right) else PrintExec(c)
  }

  function PrintBack(c: Cmd): string
    decreases c, Distance(2, c)
  {
    if c.Back? then PrintBack(c.cmd) + "&" else PrintPipe(c)
  }

  /** The canonical text of a command. */
  function PrintLine(c: Cmd): string
    decreases c, Distance(3, c)
  {
    if c.List? then PrintBack(c.left) + ";" + PrintLine(c.right) else PrintBack(c)
  }

  // --- Reading tokens back ---

  // What may follow a printed command at each level.
  predicate AfterLine(t: string) { t == "" || t[0] == ')' }
  predicate AfterBack(t: string) { AfterLine(t) || t[0] == ';' || t[0] == '&' }
  predicate AfterExec(t: string) { AfterBack(t) || t[0] == '|' }

  lemma SymbolNotWhite(c: char)
    ensures Symbol(c) ==> !White(c)
  {
  }

  lemma {:induction false} WordLenOf(w: string, t: string)
    requires (forall k :: 0 <= k < |w| ==> !White(w[k]) && !Symbol(w[k])) && (t == "" || White(t[0]) || Symbol(t[0]))
    ensures WordLen(w + t) == |w|
  {
    if w != "" {
      assert (w + t)[1..] == w[1..] + t;
      WordLenOf(w[1..], t);
    }
  }

  lemma WordToken(w: string, t: string)
    requires Word(w) && (t == "" || White(t[0]) || Symbol(t[0]))
    ensures GetToken(w + t) == Read(Text(w), Skip(t)) && Skip(w + t) == w + t
  {
    WordLenOf(w, t);
    assert (w + t)[..|w|] == w && (w + t)[|w|..] == t;
  }

  /** White space in front of a token makes no difference. */
  lemma SpaceFirst(t: string)
    ensures Skip(" " + t) == Skip(t) && GetToken(" " + t) == GetToken(t)
    ensures forall toks :: Peek(" " + t, toks) == Peek(t, toks)
  {
    assert (" " + t)[1..] == t;
  }

  lemma {:induction false} SkipTwice(t: string)
    ensures Skip(Skip(t)) == Skip(t) && GetToken(Skip(t)) == GetToken(t)
    ensures forall toks :: Peek(Skip(t), toks) == Peek(t, toks)
  {
    var s := Skip(t);
    assert Skip(s) == s;
  }

  lemma SkipRedirs(ts: seq<Target>, t: string)
    ensures ParseRedirs(ts, Skip(t)) == ParseRedirs(ts, t)
  {
    SkipTwice(t);
  }

  lemma SkipArgs(s: Simple, t: string)
    ensures ParseArgs(s, Skip(t)) == ParseArgs(s, t)
  {
    SkipTwice(t);
  }

  lemma SkipExec(t: string)
    ensures ParseExec(Skip(t)) == ParseExec(t)
  {
    SkipTwice(t);
    SkipRedirs([], t);
  }

  lemma SkipPipe(t: string)
    ensures ParsePipe(Skip(t)) == ParsePipe(t)
  {
    SkipExec(t);
  }

  lemma SkipLine(t: string)
    ensures ParseLine(Skip(t)) == ParseLine(t)
  {
    SkipPipe(t);
  }

  /** A symbol other than > is read as itself. */
  lemma SymbolToken(c: char, t: string)
    requires Symbol(c) && c != '>'
    ensures GetToken([c] + t) == Read(Sym(c), Skip(t)) && Skip([c] + t) == [c] + t
  {
    SymbolNotWhite(c);
    assert ([c] + t)[1..] == t;
  }

  lemma TargetToken(x: Target, t: string)
    requires Word(x.file) && (t == "" || White(t[0]) || Symbol(t[0]))
    ensures Peek(PrintTarget(x) + t, {'<', '>'})
    ensures
      var a := GetToken(PrintTarget(x) + t);
      a.tok == Sym(if x.out then '>' else '<') && GetToken(a.rest) == Read(Text(x.file), Skip(t))
  {
    var c, u := if x.out then '>' else '<', x.file + t;
    assert PrintTarget(x) + t == " " + ([c] + u);
    SpaceFirst([c] + u);
    assert ([c] + u)[1..] == u && ([c] + u)[0] == c;
    WordToken(x.file, t);
    assert u[0] == x.file[0];
  }

  lemma TargetsStart(ts: seq<Target>, t: string)
    requires AfterExec(t)
    ensures var u := PrintTargets(ts) + t; u == "" || White(u[0]) || Symbol(u[0])
  {
    if ts != [] {
      assert PrintTarget(ts[0])[0] == ' ';
      assert (PrintTargets(ts) + t)[0] == ' ';
    }
  }

  lemma NoTargets(t: string, ts: seq<Target>)
    requires AfterExec(t)
    ensures Skip(t) == t && ParseRedirs(ts, t) == Ok(ts, t)
  {
    if t != "" {
      SymbolNotWhite(t[0]);
    }
  }

  lemma Shift<T>(before: seq<T>, ts: seq<T>)
    requires ts != []
    ensures before + [ts[0]] + ts[1..] == before + ts
  {
  }

  lemma NothingMore<T>(before: seq<T>, t: string)
    ensures before + [] == before && "" + t == t
  {
  }

  lemma TargetsCons(ts: seq<Target>, t: string)
    requires ts != []
    ensures PrintTargets(ts) + t == PrintTarget(ts[0]) + (PrintTargets(ts[1..]) + t)
  {
  }

  lemma RedirStep(ts: seq<Target>, r: string, x: Target, rest: string)
    requires Peek(r, {'<', '>'}) && GetToken(r).tok == Sym(if x.out then '>' else '<')
    requires GetToken(GetToken(r).rest) == Read(Text(x.file), rest)
    ensures ParseRedirs(ts, r) == ParseRedirs(ts + [x], rest)
  {
  }

  /** Printed redirections are read back. */
  lemma {:induction false} TargetsBack(before: seq<Target>, ts: seq<Target>, t: string)
    requires Targets(ts) && AfterExec(t)
    ensures ParseRedirs(before, PrintTargets(ts) + t) == Ok(before + ts, t)
    decreases |ts|
  {
    if ts == [] {
      NothingMore(before, t);
      NoTargets(t, before);
    } else {
      var u, more := PrintTargets(ts[1..]) + t, before + [ts[0]];
      TargetsCons(ts, t);
      TargetsStart(ts[1..], t);
      TargetToken(ts[0], u);
      RedirStep(before, PrintTarget(ts[0]) + u, ts[0], Skip(u));
      TargetsBack(more, ts[1..], t);
      SkipRedirs(more, u);
      Shift(before, ts);
    }
  }

  /** At the end of a simple command the loop of parseexec stops. */
  lemma ArgsEnd(s: Simple, t: string)
    requires AfterExec(t)
    ensures ParseArgs(s, t) == Ok(s, t)
  {
    NoTargets(t, []);
  }

  lemma ArgStep(s: Simple, r: string, w: string, rest: string)
    requires !Peek(r, {'|', ')', '&', ';'}) && GetToken(r) == Read(Text(w), rest) && |s.argv| + 1 < MAXARGS
    requires ParseRedirs(s.targets, rest).Ok?
    ensures var p := ParseRedirs(s.targets, rest); ParseArgs(s, r) == ParseArgs(Simple(s.argv + [w], p.value), p.rest)
  {
  }

  lemma WordsCons(ws: seq<string>, t: string)
    requires ws != []
    ensures PrintWords(ws) + t == " " + (ws[0] + (PrintWords(ws[1..]) + t))
  {
  }

  /** A printed word in front of u, which starts with white space or a symbol. */
  lemma WordFirst(w: string, u: string)
    requires Word(w) && (u == "" || White(u[0]) || Symbol(u[0]))
    ensures
      var r := " " + (w + u);
      !Peek(r, {'(', '|', ')', '&', ';', '<', '>'}) && GetToken(r) == Read(Text(w), Skip(u))
  {
    SpaceFirst(w + u);
    WordToken(w, u);
    assert (w + u)[0] == w[0];
  }

  /** No redirections before a word. */
  lemma WordNoRedirs(w: string, u: string, ts: seq<Target>)
    requires Word(w)
    ensures var r := " " + (w + u); !Peek(r, {'<', '>'}) && ParseRedirs(ts, r) == Ok(ts, Skip(r)) && r[0] == ' '
  {
    SpaceFirst(w + u);
    assert (w + u)[0] == w[0];
  }

  lemma LastWord(argv: seq<string>, ws: seq<string>, ts: seq<Target>)
    requires |ws| == 1
    ensures [] + ts == ts && argv + [ws[0]] == argv + ws
  {
  }

  /** Printed words are read back, and after the last one the redirections. */
  lemma {:induction false} WordsBack(argv: seq<string>, ws: seq<string>, ts: seq<Target>, t: string)
    requires ws != [] && |argv| + |ws| < MAXARGS && (forall k :: 0 <= k < |ws| ==> Word(ws[k])) && Targets(ts) &&
      AfterExec(t)
    ensures ParseArgs(Simple(argv, []), PrintWords(ws) + (PrintTargets(ts) + t)) == Ok(Simple(argv + ws, ts), t)
    decreases |ws|
  {
    var w, rest, v := ws[0], ws[1..], PrintTargets(ts) + t;
    var u := PrintWords(rest) + v;
    WordsCons(ws, v);
    TargetsStart(ts, t);
    if rest == [] {
      NothingMore(argv, v);
      WordFirst(w, u);
      TargetsBack([], ts, t);
      SkipRedirs([], u);
      ArgStep(Simple(argv, []), " " + (w + u), w, Skip(u));
      LastWord(argv, ws, ts);
      ArgsEnd(Simple(argv + ws, ts), t);
    } else {
      WordsCons(rest, v);
      WordNoRedirs(rest[0], PrintWords(rest[1..]) + v, []);
      WordFirst(w, u);
      SkipRedirs([], u);
      ArgStep(Simple(argv, []), " " + (w + u), w, Skip(u));
      WordsBack(argv + [w], rest, ts, t);
      SkipArgs(Simple(argv + [w], []), u);
      Shift(argv, ws);
    }
  }

  /** parseexec on what is no block. */
  lemma ExecStep(r: string, ts: seq<Target>, u: string)
    requires !Peek(r, {'('}) && ParseRedirs([], r) == Ok(ts, u) && ParseArgs(Simple([], ts), u).Ok?
    ensures var q := ParseArgs(Simple([], ts), u); ParseExec(r) == Ok(Wrap(Exec(q.value.argv), q.value.targets), q.rest)
  {
  }

  /** A simple command with its redirections is read back. */
  lemma SimpleBack(argv: seq<string>, ts: seq<Target>, t: string)
    requires Legal(Exec(argv)) && Targets(ts) && AfterExec(t)
    ensures ParseExec(PrintWords(argv) + (PrintTargets(ts) + t)) == Ok(Wrap(Exec(argv), ts), t)
  {
    var v := PrintTargets(ts) + t;
    var r := PrintWords(argv) + v;
    if argv == [] {
      assert r == v;
      TargetsBack([], ts, t);
      assert [] + ts == ts;
      ArgsEnd(Simple([], ts), t);
      NotBlock(ts, t);
      ExecStep(v, ts, t);
    } else {
      WordsCons(argv, v);
      var u := PrintWords(argv[1..]) + v;
      WordNoRedirs(argv[0], u, []);
      WordsBack([], argv, ts, t);
      SkipArgs(Simple([], []), r);
      assert [] + argv == argv;
      NotParen(argv[0], u);
      ExecStep(r, [], Skip(r));
    }
  }

  lemma NotParen(w: string, u: string)
    requires Word(w)
    ensures !Peek(" " + (w + u), {'('})
  {
    SpaceFirst(w + u);
    assert (w + u)[0] == w[0];
  }

  lemma NotBlock(ts: seq<Target>, t: string)
    requires Targets(ts) && AfterExec(t)
    ensures !Peek(PrintTargets(ts) + t, {'('})
  {
    if ts == [] {
      assert PrintTargets(ts) + t == t;
      NoTargets(t, []);
    } else {
      TargetsStart(ts[1..], t);
      TargetToken(ts[0], PrintTargets(ts[1..]) + t);
      assert PrintTargets(ts) + t == PrintTarget(ts[0]) + (PrintTargets(ts[1..]) + t);
    }
  }

  // --- The round trip ---

  lemma Assoc(a: string, b: string, c: string)
    ensures a + b + c == a + (b + c)
  {
  }

  lemma BlockStep(u: string, b: Cmd, v: string, ts: seq<Target>, t: string)
    requires ParseLine(u) == Ok(b, ")" + v) && ParseRedirs([], v) == Ok(ts, t)
    ensures ParseExec("(" + u) == Ok(Wrap(b, ts), t)
  {
    SymbolToken('(', u);
    SymbolToken(')', v);
    SkipLine(u);
    SkipRedirs([], v);
  }

  lemma PipeStep(r: string, l: Cmd, u: string, d: Cmd, t: string)
    requires ParseExec(r) == Ok(l, "|" + u) && ParsePipe(u) == Ok(d, t)
    ensures ParsePipe(r) == Ok(Pipe(l, d), t)
  {
    SymbolToken('|', u);
    SkipPipe(u);
  }

  lemma NoPipeStep(r: string, c: Cmd, t: string)
    requires ParseExec(r) == Ok(c, t) && AfterBack(t)
    ensures ParsePipe(r) == Ok(c, t)
  {
    NoTargets(t, []);
  }

  lemma BackStep(c: Cmd, t: string)
    ensures ParseBacks(c, "&" + t) == ParseBacks(Back(c), t)
  {
    SymbolToken('&', t);
    SkipTwice(t);
  }

  lemma BacksEnd(c: Cmd, t: string)
    requires AfterLine(t) || t[0] == ';'
    ensures ParseBacks(c, t) == Ok(c, t)
  {
    NoTargets(t, []);
  }

  lemma ListStep(r: string, p: Cmd, v: string, l: Cmd, u: string, d: Cmd, t: string)
    requires ParsePipe(r) == Ok(p, v) && ParseBacks(p, v) == Ok(l, ";" + u) && ParseLine(u) == Ok(d, t)
    ensures ParseLine(r) == Ok(List(l, d), t)
  {
    SymbolToken(';', u);
    SkipLine(u);
  }

  lemma NoListStep(r: string, p: Cmd, v: string, c: Cmd, t: string)
    requires ParsePipe(r) == Ok(p, v) && ParseBacks(p, v) == Ok(c, t) && AfterLine(t)
    ensures ParseLine(r) == Ok(c, t)
  {
    NoTargets(t, []);
  }

  /** parseexec reads back what PrintExec prints. */
  lemma {:induction false} ExecBack(c: Cmd, t: string)
    requires Legal(c) && AfterExec(t)
    ensures ParseExec(PrintExec(c) + t) == Ok(c, t)
    decreases c, Distance(0, c)
  {
    var b, ts := Base(c), TargetsOf(c);
    var v := PrintTargets(ts) + t;
    if b.Exec? {
      Assoc(PrintWords(b.argv), PrintTargets(ts), t);
      SimpleBack(b.argv, ts, t);
    } else {
      LineBack(b, ")" + v);
      TargetsBack([], ts, t);
      assert [] + ts == ts;
      BlockStep(PrintLine(b) + (")" + v), b, v, ts, t);
      BlockText(PrintLine(b), PrintTargets(ts), t);
    }
  }

  lemma BlockText(a: string, b: string, t: string)
    ensures "(" + a + ")" + b + t == "(" + (a + (")" + (b + t)))
  {
  }

  lemma JoinText(a: string, c: char, b: string, t: string)
    ensures a + [c] + b + t == a + ([c] + (b + t))
  {
  }

  lemma EndText(a: string, c: char, t: string)
    ensures a + [c] + t == a + ([c] + t)
  {
  }

  /** parsepipe reads back what PrintPipe prints. */
  lemma {:induction false} PipeBack(c: Cmd, t: string)
    requires Legal(c) && AfterBack(t)
    ensures ParsePipe(PrintPipe(c) + t) == Ok(c, t)
    decreases c, Distance(1, c)
  {
    if c.Pipe? {
      var u := PrintPipe(c.right) + t;
      ExecBack(c.left, "|" + u);
      PipeBack(c.right, t);
      PipeStep(PrintExec(c.left) + ("|" + u), c.left, u, c.right, t);
      JoinText(PrintExec(c.left), '|', PrintPipe(c.right), t);
    } else {
      ExecBack(c, t);
      NoPipeStep(PrintPipe(c) + t, c, t);
    }
  }

  /** parsepipe and the loop of parseline read back what PrintBack prints. */
  lemma {:induction false} BackBack(c: Cmd, t: string) returns (p: Cmd, v: string)
    requires Legal(c) && AfterBack(t)
    ensures ParsePipe(PrintBack(c) + t) == Ok(p, v) && ParseBacks(p, v) == ParseBacks(c, t)
    decreases c, Distance(2, c)
  {
    if c.Back? {
      p, v := BackBack(c.cmd, "&" + t);
      BackStep(c.cmd, t);
      EndText(PrintBack(c.cmd), '&', t);
    } else {
      PipeBack(c, t);
      p, v := c, t;
    }
  }

  /** parseline reads back what PrintLine prints. */
  lemma {:induction false} LineBack(c: Cmd, t: string)
    requires Legal(c) && AfterLine(t)
    ensures ParseLine(PrintLine(c) + t) == Ok(c, t)
    decreases c, Distance(3, c)
  {
    if c.List? {
      var u := PrintLine(c.right) + t;
      var p, v := BackBack(c.left, ";" + u);
      BacksEnd(c.left, ";" + u);
      LineBack(c.right, t);
      ListStep(PrintBack(c.left) + (";" + u), p, v, c.left, u, c.right, t);
      JoinText(PrintBack(c.left), ';', PrintLine(c.right), t);
    } else {
      var p, v := BackBack(c, t);
      BacksEnd(c, t);
      NoListStep(PrintLine(c) + t, p, v, c, t);
    }
  }

  /** Parsing the canonical text of a command gives the command back and uses up the text. */
  lemma RoundTrip(c: Cmd)
    requires Legal(c)
    ensures ParseCmd(PrintLine(c)) == Ok(c, "")
  {
    LineBack(c, "");
    assert PrintLine(c) + "" == PrintLine(c);
  }

  /** Every line the parser accepts means the same as the canonical text of its tree. */
  lemma Normal(s: string)
    requires ParseCmd(s).Ok?
    ensures ParseCmd(PrintLine(ParseCmd(s).value)) == ParseCmd(s)
  {
    RoundTrip(ParseCmd(s).value);
  }

  // --- The code ---

  /** The outcome of a parsing method: a tree, or the message it panics with. */
  datatype Outcome<T> = Tree(value: T) | Panic(msg: string)

  /** out and the rest of the line are what the function p says. */
  ghost predicate Agrees<T>(out: Outcome<T>, rest: string, p: Result<T>) {
    match p
    case Ok(c, r) => out == Tree(c) && rest == r
    case Err(m) => out == Panic(m)
  }

  class Parser {
    const s: string
    /** The cursor, an index into the line. */
    var ps: nat

    constructor (s: string)
      ensures this.s == s && ps == 0
    {
      this.s, ps := s, 0;
    }

    ghost function Rest(): string
      requires ps <= |s|
      reads this
    {
      s[ps..]
    }

    method SkipWhite()
      requires ps <= |s|
      modifies this`ps
      ensures old(ps) <= ps <= |s| && Rest() == Skip(old(Rest()))
    {
      while ps < |s| && White(s[ps])
        invariant old(ps) <= ps <= |s| && Skip(Rest()) == Skip(old(Rest()))
      {
        assert s[ps..][1..] == s[ps + 1..];
        ps := ps + 1;
      }
    }

    method SkipWord() returns (w: string)
      requires ps <= |s|
      modifies this`ps
      ensures old(ps) <= ps <= |s| && w == old(Rest())[..WordLen(old(Rest()))] &&
        Rest() == old(Rest())[WordLen(old(Rest()))..]
    {
      var q := ps;
      while ps < |s| && !White(s[ps]) && !Symbol(s[ps])
        invariant q <= ps <= |s| && ps - q + WordLen(s[ps..]) == WordLen(s[q..])
      {
        assert s[ps..][1..] == s[ps + 1..];
        ps := ps + 1;
      }
      w := s[q..ps];
    }

    method Gettoken() returns (tok: Token)
      requires ps <= |s|
      modifies this`ps
      ensures old(ps) <= ps <= |s| && (tok != End ==> old(ps) < ps)
      ensures Read(tok, Rest()) == GetToken(old(Rest()))
    {
      SkipWhite();
      if ps == |s| {
        return End;
      }
      ghost var r := Rest();
      if Symbol(s[ps]) {
        tok := Sym(s[ps]);
        ps := ps + 1;
        assert r[1..] == Rest();
        if tok == Sym('>') && ps < |s| && s[ps] == '>' {
          tok := Append;
          ps := ps + 1;
          assert r[2..] == Rest();
        }
      } else {
        var w := SkipWord();
        tok := Text(w);
      }
      SkipWhite();
    }

    method PeekAt(toks: set<char>) returns (yes: bool)
      requires ps <= |s|
      modifies this`ps
      ensures old(ps) <= ps <= |s| && Rest() == Skip(old(Rest())) && yes == Peek(old(Rest()), toks)
    {
      SkipWhite();
      yes := ps < |s| && s[ps] in toks;
    }

    /** parseredirs, around a command that already has the redirections ts. */
    method Parseredirs(ts: seq<Target>) returns (out: Outcome<seq<Target>>)
      requires ps <= |s|
      modifies this`ps
      ensures old(ps) <= ps <= |s| && Agrees(out, Rest(), ParseRedirs(ts, old(Rest())))
    {
      var all := ts;
      var more := PeekAt({'<', '>'});
      SkipRedirs(ts, old(Rest()));
      SkipTwice(old(Rest()));
      while more
        invariant old(ps) <= ps <= |s| && Skip(Rest()) == Rest() && more == Peek(Rest(), {'<', '>'})
        invariant ParseRedirs(all, Rest()) == ParseRedirs(ts, old(Rest()))
        decreases |s| - ps, more
      {
        var tok := Gettoken();
        var f := Gettoken();
        if !f.Text? {
          return Panic("missing file for redirection");
        }
        all := all + [Target(f.w, tok != Sym('<'))];
        ghost var r := Rest();
        more := PeekAt({'<', '>'});
        SkipRedirs(all, r);
        SkipTwice(r);
      }
      return Tree(all);
    }

    /** The loop of parseexec. */
    method Parseargs(ts: seq<Target>) returns (out: Outcome<Simple>)
      requires ps <= |s|
      modifies this`ps
      ensures old(ps) <= ps <= |s| && Agrees(out, Rest(), ParseArgs(Simple([], ts), old(Rest())))
    {
      var argv, all := [], ts;
      while true
        invariant old(ps) <= ps <= |s| && ParseArgs(Simple(argv, all), Rest()) == ParseArgs(Simple([], ts), old(Rest()))
        decreases |s| - ps
      {
        ghost var r := Rest();
        var stop := PeekAt({'|', ')', '&', ';'});
        SkipArgs(Simple(argv, all), r);
        SkipTwice(r);
        if stop {
          break;
        }
        var tok := Gettoken();
        if tok == End {
          break;
        }
        if !tok.Text? {
          return Panic("syntax");
        }
        argv := argv + [tok.w];
        if |argv| >= MAXARGS {
          return Panic("too many args");
        }
        var p := Parseredirs(all);
        if p.Panic? {
          return Panic(p.msg);
        }
        all := p.value;
      }
      return Tree(Simple(argv, all));
    }

    method Parseexec() returns (out: Outcome<Cmd>)
      requires ps <= |s|
      modifies this`ps
      ensures old(ps) <= ps <= |s| && Agrees(out, Rest(), ParseExec(old(Rest())))
      decreases |s| - ps, 1
    {
      var block := PeekAt({'('});
      SkipExec(old(Rest()));
      SkipTwice(old(Rest()));
      if block {
        out := Parseblock();
        return;
      }
      var p := Parseredirs([]);
      if p.Panic? {
        return Panic(p.msg);
      }
      var q := Parseargs(p.value);
      if q.Panic? {
        return Panic(q.msg);
      }
      return Tree(Wrap(Exec(q.value.argv), q.value.targets));
    }

    method Parseblock() returns (out: Outcome<Cmd>)
      requires ps <= |s|
      modifies this`ps
      ensures old(ps) <= ps <= |s| && Agrees(out, Rest(), ParseBlock(old(Rest())))
      decreases |s| - ps, 0
    {
      var open := PeekAt({'('});
      SkipTwice(old(Rest()));
      if !open {
        return Panic("parseblock");
      }
      var _ := Gettoken();
      out := Parseline();
      if out.Panic? {
        return;
      }
      ghost var r := Rest();
      var close := PeekAt({')'});
      SkipTwice(r);
      if !close {
        return Panic("syntax - missing )");
      }
      var _ := Gettoken();
      var q := Parseredirs([]);
      if q.Panic? {
        return Panic(q.msg);
      }
      return Tree(Wrap(out.value, q.value));
    }

    method Parsepipe() returns (out: Outcome<Cmd>)
      requires ps <= |s|
      modifies this`ps
      ensures old(ps) <= ps <= |s| && Agrees(out, Rest(), ParsePipe(old(Rest())))
      decreases |s| - ps, 2
    {
      out := Parseexec();
      if out.Panic? {
        return;
      }
      ghost var r := Rest();
      var bar := PeekAt({'|'});
      SkipTwice(r);
      if bar {
        var _ := Gettoken();
        var right := Parsepipe();
        out := if right.Panic? then right else Tree(Pipe(out.value, right.value));
      }
    }

    /** The loop of parseline. */
    method Parsebacks(c: Cmd) returns (d: Cmd)
      requires ps <= |s|
      modifies this`ps
      ensures old(ps) <= ps <= |s| && Ok(d, Rest()) == ParseBacks(c, old(Rest()))
    {
      d := c;
      while true
        invariant old(ps) <= ps <= |s| && ParseBacks(d, Rest()) == ParseBacks(c, old(Rest()))
        decreases |s| - ps
      {
        ghost var r := Rest();
        var back := PeekAt({'&'});
        SkipTwice(r);
        if !back {
          return;
        }
        var _ := Gettoken();
        d := Back(d);
      }
    }

    method Parseline() returns (out: Outcome<Cmd>)
      requires ps <= |s|
      modifies this`ps
      ensures old(ps) <= ps <= |s| && Agrees(out, Rest(), ParseLine(old(Rest())))
      decreases |s| - ps, 3
    {
      out := Parsepipe();
      if out.Panic? {
        return;
      }
      var c := Parsebacks(out.value);
      ghost var r := Rest();
      var semi := PeekAt({';'});
      SkipTwice(r);
      if semi {
        var _ := Gettoken();
        var right := Parseline();
        out := if right.Panic? then right else Tree(List(c, right.value));
      } else {
        out := Tree(c);
      }
    }

    /** parsecmd on the whole line. */
    method Parsecmd() returns (out: Outcome<Cmd>)
      requires ps == 0
      modifies this`ps
      ensures ParseCmd(s).Ok? ==> out == Tree(ParseCmd(s).value) && ps == |s|
      ensures ParseCmd(s).Err? ==> out == Panic(ParseCmd(s).msg)
    {
      assert Rest() == s;
      out := Parseline();
      if out.Tree? {
        var _ := PeekAt({});
        if ps != |s| {
          return Panic("syntax");
        }
      }
    }
  }
}
