/**
  The command language of user/sh.c as a grammar over tokens, and the parser's agreement with it:
  which lines are commands, and what tree each of them stands for.
*/
module ShellGrammar {
  import opened Shell

  // --- The language ---

  predicate InWord(c: char) { !White(c) && !Symbol(c) }

  /** The tokens of a line: symbols, >> and the longest runs of other characters; white space only separates. */
  function Tokens(s: string): (ts: seq<Token>)
    ensures s != "" && InWord(s[0]) ==> ts != [] && ts[0].Text?
  {
    if s == "" then []
    else if White(s[0]) then Tokens(s[1..])
    else if |s| >= 2 && s[0] == s[1] == '>' then [Append] + Tokens(s[2..])
    else if Symbol(s[0]) then [Sym(s[0])] + Tokens(s[1..])
    else
      var more := Tokens(s[1..]);
      if |s| >= 2 && InWord(s[1]) then [Text([s[0]] + more[0].w)] + more[1..] else [Text([s[0]])] + more
  }

  predicate InOrOut(t: Token) { t == Sym('<') || t == Sym('>') || t == Append }

  /** The command with one more argument. */
  function AddArg(c: Cmd, w: string): Cmd {
    match c
    case Exec(argv) => Exec(argv + [w])
    case Redir(d, file, out) => Redir(AddArg(d, w), file, out)
    case _ => c
  }

  function Args(c: Cmd): seq<string> {
    match c
    case Exec(argv) => argv
    case Redir(d, _, _) => Args(d)
    case _ => []
  }

  /**
    From left to right, the tokens ts turn the command b into c: a redirection goes around what is there,
    to descriptor 1 with > and >>, and a word, where words are allowed, becomes the next argument.
  */
  predicate Reads(words: bool, b: Cmd, ts: seq<Token>, c: Cmd)
    decreases |ts|
  {
    if ts == [] then c == b
    else if words && ts[0].Text? then Reads(words, AddArg(b, ts[0].w), ts[1..], c)
    else if |ts| >= 2 && InOrOut(ts[0]) && ts[1].Text? then
      Reads(words, Redir(b, ts[1].w, ts[0] == Sym('>') || ts[0] == Append), ts[2..], c)
    else false
  }

  /** A simple command, or a line in parentheses with redirections behind it. */
  ghost predicate IsExec(ts: seq<Token>, c: Cmd)
    decreases |ts|, 0
  {
    || (Reads(true, Exec([]), ts, c) && |Args(c)| < MAXARGS)
    || (|ts| > 0 && ts[0] == Sym('(') &&
        exists j, d ::
          1 <= j < |ts| && ts[j] == Sym(')') && IsLine(ts[1..j], d) && Reads(false, d, ts[j + 1..], c))
  }

  /** Commands joined by |. */
  ghost predicate IsPipe(ts: seq<Token>, c: Cmd)
    decreases |ts|, 1
  {
    || IsExec(ts, c)
    || (c.Pipe? && exists j ::
          0 <= j < |ts| && ts[j] == Sym('|') && IsExec(ts[..j], c.left) && IsPipe(ts[j + 1..], c.right))
  }

  /** A pipeline with any number of & behind it. */
  ghost predicate IsBack(ts: seq<Token>, c: Cmd)
    decreases |ts|, 2
  {
    || IsPipe(ts, c)
    || (c.Back? && |ts| > 0 && ts[|ts| - 1] == Sym('&') && IsBack(ts[..|ts| - 1], c.cmd))
  }

  /** Those, joined by ;. */
  ghost predicate IsLine(ts: seq<Token>, c: Cmd)
    decreases |ts|, 3
  {
    || IsBack(ts, c)
    || (c.List? && exists j ::
          0 <= j < |ts| && ts[j] == Sym(';') && IsBack(ts[..j], c.left) && IsLine(ts[j + 1..], c.right))
  }

  // --- Tokens and gettoken ---

  lemma {:induction false} SkipTokens(r: string)
    ensures Tokens(Skip(r)) == Tokens(r)
  {
    if r != "" && White(r[0]) {
      SkipTokens(r[1..]);
    }
  }

  lemma {:induction false} WordTokens(s: string)
    requires s != "" && InWord(s[0])
    ensures WordLen(s) > 0 && Tokens(s) == [Text(s[..WordLen(s)])] + Tokens(s[WordLen(s)..])
  {
    var t, n := s[1..], WordLen(s);
    if t != "" && InWord(t[0]) {
      WordTokens(t);
      assert s[..n] == [s[0]] + t[..n - 1] && s[n..] == t[n - 1..];
    } else {
      assert n == 1 && s[..1] == [s[0]];
    }
  }

  /** gettoken takes the first token off. */
  lemma TokensFirst(r: string)
    ensures var t := GetToken(r); Tokens(r) == if t.tok == End then [] else [t.tok] + Tokens(t.rest)
  {
    SkipTokens(r);
    var s := Skip(r);
    if s != "" {
      if Symbol(s[0]) {
        SymbolNotWhite(s[0]);
        SkipTokens(s[1..]);
        if |s| > 1 {
          SkipTokens(s[2..]);
        }
      } else {
        WordTokens(s);
        SkipTokens(s[WordLen(s)..]);
      }
    }
  }

  predicate Leads(ts: seq<Token>, toks: set<char>) {
    ts != [] && ((ts[0].Sym? && ts[0].c in toks) || (ts[0].Append? && '>' in toks))
  }

  /** peek looks at the first token. */
  lemma PeekToken(r: string, toks: set<char>)
    requires forall c :: c in toks ==> Symbol(c)
    ensures Peek(r, toks) <==> Leads(Tokens(r), toks)
  {
    SkipTokens(r);
    var s := Skip(r);
    if s != "" && !Symbol(s[0]) {
      WordTokens(s);
    }
  }

  // --- What the parser accepts is in the language ---

  lemma {:induction false} ReadsTwice(words: bool, b: Cmd, x: seq<Token>, c: Cmd, y: seq<Token>, d: Cmd)
    requires Reads(words, b, x, c) && Reads(words, c, y, d)
    ensures Reads(words, b, x + y, d)
    decreases |x|
  {
    TokensAfter(x, y);
    if x != [] {
      if words && x[0].Text? {
        ReadsTwice(words, AddArg(b, x[0].w), x[1..], c, y, d);
      } else {
        ReadsTwice(words, Redir(b, x[1].w, x[0] == Sym('>') || x[0] == Append), x[2..], c, y, d);
      }
    }
  }

  lemma TokensAfter(x: seq<Token>, y: seq<Token>)
    ensures x == [] ==> x + y == y
    ensures x != [] ==> x + y != [] && (x + y)[0] == x[0] && (x + y)[1..] == x[1..] + y
    ensures |x| >= 2 ==> (x + y)[1] == x[1] && (x + y)[2..] == x[2..] + y
  {
  }

  lemma WrapMore(b: Cmd, ts: seq<Target>, t: Target)
    ensures Wrap(b, ts + [t]) == Redir(Wrap(b, ts), t.file, t.out)
  {
    assert (ts + [t])[..|ts|] == ts;
  }

  lemma {:induction false} ArgMore(argv: seq<string>, ts: seq<Target>, w: string)
    ensures AddArg(Wrap(Exec(argv), ts), w) == Wrap(Exec(argv + [w]), ts)
    ensures Args(Wrap(Exec(argv), ts)) == argv
  {
    if ts != [] {
      ArgMore(argv, ts[..|ts| - 1], w);
    }
  }

  lemma OneRedir(words: bool, b: Cmd, t: Token, f: string)
    requires InOrOut(t)
    ensures Reads(words, b, [t, Text(f)], Redir(b, f, t == Sym('>') || t == Append))
  {
    assert [t, Text(f)][2..] == [];
  }

  lemma OneWord(b: Cmd, w: string)
    ensures Reads(true, b, [Text(w)], AddArg(b, w))
  {
    assert [Text(w)][1..] == [];
  }

  lemma {:induction false} RedirsSound(words: bool, b: Cmd, ts: seq<Target>, r: string) returns (used: seq<Token>)
    requires ParseRedirs(ts, r).Ok?
    ensures var p := ParseRedirs(ts, r);
      Tokens(r) == used + Tokens(p.rest) && Reads(words, Wrap(b, ts), used, Wrap(b, p.value))
    decreases |r|
  {
    if Peek(r, {'<', '>'}) {
      var t, f, u := RedirTaken(ts, r);
      var x := Target(f, t == Sym('>') || t == Append);
      var more := RedirsSound(words, b, ts + [x], u);
      RedirRead(words, b, ts, t, f, more, Wrap(b, ParseRedirs(ts, r).value));
      used := [t, Text(f)] + more;
      Joined([t, Text(f)], more, Tokens(ParseRedirs(ts, r).rest));
    } else {
      SkipTokens(r);
      used := [];
      Joined([], [], Tokens(r));
    }
  }

  lemma Joined<T>(x: seq<T>, y: seq<T>, z: seq<T>)
    ensures x + (y + z) == x + y + z && [] + z == z
  {
  }

  lemma RedirGoes(ts: seq<Target>, r: string, t: Token, u: string, f: string, v: string)
    requires Peek(r, {'<', '>'}) && InOrOut(t) && GetToken(r) == Read(t, u) && GetToken(u) == Read(Text(f), v)
    ensures ParseRedirs(ts, r) == ParseRedirs(ts + [Target(f, t == Sym('>') || t == Append)], v) && |v| < |r|
  {
  }

  /** A pass of parseredirs. */
  lemma RedirTaken(ts: seq<Target>, r: string) returns (t: Token, f: string, u: string)
    requires ParseRedirs(ts, r).Ok? && Peek(r, {'<', '>'})
    ensures InOrOut(t) && Tokens(r) == [t, Text(f)] + Tokens(u) && |u| < |r|
    ensures ParseRedirs(ts, r) == ParseRedirs(ts + [Target(f, t == Sym('>') || t == Append)], u)
  {
    var a := GetToken(r);
    var b := GetToken(a.rest);
    RedirTokens(ts, r);
    t, f, u := a.tok, b.tok.w, b.rest;
    RedirGoes(ts, r, t, a.rest, f, u);
  }

  lemma RedirTokens(ts: seq<Target>, r: string)
    requires ParseRedirs(ts, r).Ok? && Peek(r, {'<', '>'})
    ensures var a := GetToken(r);
      var b := GetToken(a.rest);
      InOrOut(a.tok) && b.tok.Text? && Tokens(r) == [a.tok, b.tok] + Tokens(b.rest)
  {
    var a := GetToken(r);
    RedirHasFile(ts, r);
    PeekToken(r, {'<', '>'});
    TokensFirst(r);
    TokensFirst(a.rest);
  }

  lemma RedirHasFile(ts: seq<Target>, r: string)
    requires ParseRedirs(ts, r).Ok? && Peek(r, {'<', '>'})
    ensures GetToken(GetToken(r).rest).tok.Text?
  {
  }

  lemma RedirRead(words: bool, b: Cmd, ts: seq<Target>, t: Token, f: string, more: seq<Token>, c: Cmd)
    requires InOrOut(t) && Reads(words, Wrap(b, ts + [Target(f, t == Sym('>') || t == Append)]), more, c)
    ensures Reads(words, Wrap(b, ts), [t, Text(f)] + more, c)
  {
    var x := Target(f, t == Sym('>') || t == Append);
    WrapMore(b, ts, x);
    OneRedir(words, Wrap(b, ts), t, f);
    ReadsTwice(words, Wrap(b, ts), [t, Text(f)], Wrap(b, ts + [x]), more, c);
  }

  lemma {:induction false} ArgsSound(s: Simple, r: string) returns (used: seq<Token>)
    requires ParseArgs(s, r).Ok?
    ensures var p := ParseArgs(s, r);
      && Tokens(r) == used + Tokens(p.rest)
      && Reads(true, Wrap(Exec(s.argv), s.targets), used, Wrap(Exec(p.value.argv), p.value.targets))
      && (|s.argv| < MAXARGS ==> |p.value.argv| < MAXARGS)
    decreases |r|
  {
    var t := GetToken(r);
    var q := ParseArgs(s, r);
    if Peek(r, {'|', ')', '&', ';'}) || t.tok == End {
      SkipTokens(r);
      TokensFirst(r);
      used := [];
      Joined([], [], Tokens(r));
    } else {
      var w, ts, u, v := ArgTaken(s, r);
      var a := RedirsSound(true, Exec(s.argv + [w]), s.targets, u);
      var b := ArgsSound(Simple(s.argv + [w], ts), v);
      ArgRead(s, w, a, ts, b, Wrap(Exec(q.value.argv), q.value.targets));
      used := [Text(w)] + a + b;
      Joined(a, b, Tokens(q.rest));
      Joined([Text(w)], a + b, Tokens(q.rest));
      Joined([Text(w)], a, b);
    }
  }

  /** A pass of the loop of parseexec. */
  lemma ArgTaken(s: Simple, r: string) returns (w: string, ts: seq<Target>, u: string, v: string)
    requires ParseArgs(s, r).Ok? && !Peek(r, {'|', ')', '&', ';'}) && GetToken(r).tok != End
    ensures Tokens(r) == [Text(w)] + Tokens(u) && ParseRedirs(s.targets, u) == Ok(ts, v) && |v| < |r|
    ensures |s.argv| + 1 < MAXARGS && ParseArgs(s, r) == ParseArgs(Simple(s.argv + [w], ts), v)
  {
    TokensFirst(r);
    var t := GetToken(r);
    var p := ParseRedirs(s.targets, t.rest);
    w, ts, u, v := t.tok.w, p.value, t.rest, p.rest;
  }

  lemma ArgRead(s: Simple, w: string, a: seq<Token>, ts: seq<Target>, b: seq<Token>, c: Cmd)
    requires Reads(true, Wrap(Exec(s.argv + [w]), s.targets), a, Wrap(Exec(s.argv + [w]), ts))
    requires Reads(true, Wrap(Exec(s.argv + [w]), ts), b, c)
    ensures Reads(true, Wrap(Exec(s.argv), s.targets), [Text(w)] + a + b, c)
  {
    var c0, c1 := Wrap(Exec(s.argv), s.targets), Wrap(Exec(s.argv + [w]), s.targets);
    ArgMore(s.argv, s.targets, w);
    OneWord(c0, w);
    ReadsTwice(true, c0, [Text(w)], c1, a, Wrap(Exec(s.argv + [w]), ts));
    ReadsTwice(true, c0, [Text(w)] + a, Wrap(Exec(s.argv + [w]), ts), b, c);
  }

  /** parseexec on a simple command. */
  lemma SimpleTaken(r: string) returns (ts: seq<Target>, u: string, s: Simple)
    requires !Peek(r, {'('}) && ParseExec(r).Ok?
    ensures ParseRedirs([], r) == Ok(ts, u) && ParseArgs(Simple([], ts), u) == Ok(s, ParseExec(r).rest)
    ensures ParseExec(r).value == Wrap(Exec(s.argv), s.targets)
  {
    ts, u := ParseRedirs([], r).value, ParseRedirs([], r).rest;
    s := ParseArgs(Simple([], ts), u).value;
  }

  lemma SimpleParts(x: seq<Token>, ts: seq<Target>, y: seq<Token>, s: Simple)
    requires Reads(true, Exec([]), x, Wrap(Exec([]), ts)) && |s.argv| < MAXARGS
    requires Reads(true, Wrap(Exec([]), ts), y, Wrap(Exec(s.argv), s.targets))
    ensures IsExec(x + y, Wrap(Exec(s.argv), s.targets))
  {
    ReadsTwice(true, Exec([]), x, Wrap(Exec([]), ts), y, Wrap(Exec(s.argv), s.targets));
    ArgMore(s.argv, s.targets, "");
  }

  lemma SimpleSound(r: string) returns (used: seq<Token>)
    requires !Peek(r, {'('}) && ParseExec(r).Ok?
    ensures Tokens(r) == used + Tokens(ParseExec(r).rest) && IsExec(used, ParseExec(r).value)
  {
    var ts, u, s := SimpleTaken(r);
    var a := RedirsSound(true, Exec([]), [], r);
    var b := ArgsSound(Simple([], ts), u);
    SimpleParts(a, ts, b, s);
    used := a + b;
    Joined(a, b, Tokens(ParseExec(r).rest));
  }

  lemma BlockParts(inner: seq<Token>, d: Cmd, tail: seq<Token>, c: Cmd)
    requires IsLine(inner, d) && Reads(false, d, tail, c)
    ensures IsExec([Sym('(')] + inner + [Sym(')')] + tail, c)
  {
    var ts := [Sym('(')] + inner + [Sym(')')] + tail;
    var j := |inner| + 1;
    assert ts[1..j] == inner && ts[j + 1..] == tail && ts[j] == Sym(')');
  }

  lemma {:induction false} ExecSound(r: string) returns (used: seq<Token>)
    requires ParseExec(r).Ok?
    ensures Tokens(r) == used + Tokens(ParseExec(r).rest) && IsExec(used, ParseExec(r).value)
    decreases |r|, 0
  {
    if !Peek(r, {'('}) {
      used := SimpleSound(r);
    } else {
      var u := BlockOpened(r);
      var v := BlockClosed(r, u);
      var d, ts := ParseLine(u).value, ParseRedirs([], v).value;
      var inner := LineSound(u);
      var tail := RedirsSound(false, d, [], v);
      BlockParts(inner, d, tail, Wrap(d, ts));
      used := [Sym('(')] + inner + [Sym(')')] + tail;
      FourJoined([Sym('(')], inner, [Sym(')')], tail, Tokens(ParseExec(r).rest));
    }
  }

  lemma FourJoined<T>(a: seq<T>, b: seq<T>, c: seq<T>, d: seq<T>, e: seq<T>)
    ensures a + (b + (c + (d + e))) == a + b + c + d + e
  {
  }

  lemma ThreeJoined<T>(a: seq<T>, b: seq<T>, c: seq<T>, e: seq<T>)
    ensures a + (b + (c + e)) == a + b + c + e
  {
  }

  /** parseexec on a block: u is what follows the parenthesis. */
  lemma BlockOpened(r: string) returns (u: string)
    requires Peek(r, {'('}) && ParseExec(r).Ok?
    ensures u == GetToken(r).rest && Tokens(r) == [Sym('(')] + Tokens(u) && |u| < |r| && ParseLine(u).Ok?
    ensures Peek(ParseLine(u).rest, {')'})
  {
    PeekToken(r, {'('});
    TokensFirst(r);
    u := GetToken(r).rest;
  }

  /** And v is what follows the other one. */
  lemma BlockClosed(r: string, u: string) returns (v: string)
    requires Peek(r, {'('}) && ParseExec(r).Ok? && u == GetToken(r).rest && ParseLine(u).Ok?
    requires Peek(ParseLine(u).rest, {')'})
    ensures Tokens(ParseLine(u).rest) == [Sym(')')] + Tokens(v) && ParseRedirs([], v).Ok?
    ensures ParseExec(r) == Ok(Wrap(ParseLine(u).value, ParseRedirs([], v).value), ParseRedirs([], v).rest)
  {
    var w := ParseLine(u).rest;
    PeekToken(w, {')'});
    TokensFirst(w);
    v := GetToken(w).rest;
  }

  lemma PipeParts(x: seq<Token>, l: Cmd, y: seq<Token>, c: Cmd)
    requires IsExec(x, l) && IsPipe(y, c)
    ensures IsPipe(x + [Sym('|')] + y, Pipe(l, c))
  {
    var ts, j := x + [Sym('|')] + y, |x|;
    assert ts[j] == Sym('|') && ts[..j] == x && ts[j + 1..] == y;
  }

  lemma ListParts(x: seq<Token>, l: Cmd, y: seq<Token>, c: Cmd)
    requires IsBack(x, l) && IsLine(y, c)
    ensures IsLine(x + [Sym(';')] + y, List(l, c))
  {
    var ts, j := x + [Sym(';')] + y, |x|;
    assert ts[j] == Sym(';') && ts[..j] == x && ts[j + 1..] == y;
  }

  lemma {:induction false} PipeSound(r: string) returns (used: seq<Token>)
    requires ParsePipe(r).Ok?
    ensures Tokens(r) == used + Tokens(ParsePipe(r).rest) && IsPipe(used, ParsePipe(r).value)
    decreases |r|, 1
  {
    var p := ParseExec(r);
    used := ExecSound(r);
    if Peek(p.rest, {'|'}) {
      var u := PipeTaken(r);
      var more := PipeSound(u);
      PipeParts(used, p.value, more, ParsePipe(u).value);
      ThreeJoined(used, [Sym('|')], more, Tokens(ParsePipe(r).rest));
      used := used + [Sym('|')] + more;
    } else {
      SkipTokens(p.rest);
    }
  }

  /** parsepipe at a |. */
  lemma PipeTaken(r: string) returns (u: string)
    requires ParsePipe(r).Ok? && ParseExec(r).Ok? && Peek(ParseExec(r).rest, {'|'})
    ensures Tokens(ParseExec(r).rest) == [Sym('|')] + Tokens(u) && |u| < |r|
    ensures ParsePipe(u).Ok? && ParsePipe(r) == Ok(Pipe(ParseExec(r).value, ParsePipe(u).value), ParsePipe(u).rest)
  {
    var p := ParseExec(r);
    PeekToken(p.rest, {'|'});
    TokensFirst(p.rest);
    u := GetToken(p.rest).rest;
  }

  lemma BackMore(ts: seq<Token>, c: Cmd)
    requires IsBack(ts, c)
    ensures IsBack(ts + [Sym('&')], Back(c))
  {
    assert (ts + [Sym('&')])[..|ts|] == ts;
  }

  /** The loop of parseline at a &. */
  lemma BackTaken(c: Cmd, r: string) returns (u: string)
    requires Peek(r, {'&'})
    ensures Tokens(r) == [Sym('&')] + Tokens(u) && |u| < |r| && ParseBacks(c, r) == ParseBacks(Back(c), u)
  {
    PeekToken(r, {'&'});
    TokensFirst(r);
    u := GetToken(r).rest;
  }

  lemma {:induction false} BacksSound(ts: seq<Token>, c: Cmd, r: string) returns (used: seq<Token>)
    requires IsBack(ts, c)
    ensures var p := ParseBacks(c, r); Tokens(r) == used + Tokens(p.rest) && IsBack(ts + used, p.value)
    decreases |r|
  {
    if Peek(r, {'&'}) {
      var u := BackTaken(c, r);
      BackMore(ts, c);
      var more := BacksSound(ts + [Sym('&')], Back(c), u);
      used := [Sym('&')] + more;
      Joined([Sym('&')], more, Tokens(ParseBacks(c, r).rest));
      Joined(ts, [Sym('&')], more);
    } else {
      SkipTokens(r);
      used := [];
      Joined([], [], Tokens(r));
      assert ts + used == ts;
    }
  }

  lemma {:induction false} LineSound(r: string) returns (used: seq<Token>)
    requires ParseLine(r).Ok?
    ensures Tokens(r) == used + Tokens(ParseLine(r).rest) && IsLine(used, ParseLine(r).value)
    decreases |r|, 2
  {
    var p := ParsePipe(r);
    var b := ParseBacks(p.value, p.rest);
    var x := PipeSound(r);
    var y := BacksSound(x, p.value, p.rest);
    if Peek(b.rest, {';'}) {
      var u := LineTaken(r);
      var more := LineSound(u);
      ListParts(x + y, b.value, more, ParseLine(u).value);
      FourJoined(x, y, [Sym(';')], more, Tokens(ParseLine(r).rest));
      used := x + y + [Sym(';')] + more;
    } else {
      used := x + y;
      Joined(x, y, Tokens(b.rest));
    }
  }

  /** parseline at a ;. */
  lemma LineTaken(r: string) returns (u: string)
    requires ParseLine(r).Ok? && ParsePipe(r).Ok?
    requires Peek(ParseBacks(ParsePipe(r).value, ParsePipe(r).rest).rest, {';'})
    ensures var b := ParseBacks(ParsePipe(r).value, ParsePipe(r).rest);
      && Tokens(b.rest) == [Sym(';')] + Tokens(u) && |u| < |r|
      && ParseLine(u).Ok? && ParseLine(r) == Ok(List(b.value, ParseLine(u).value), ParseLine(u).rest)
  {
    var b := ParseBacks(ParsePipe(r).value, ParsePipe(r).rest);
    PeekToken(b.rest, {';'});
    TokensFirst(b.rest);
    u := GetToken(b.rest).rest;
  }

  // --- What is in the language the parser accepts, with that tree ---

  // What may follow a command at each level.
  predicate EndsLine(ts: seq<Token>) { ts == [] || ts[0] == Sym(')') }
  predicate EndsPipe(ts: seq<Token>) { EndsLine(ts) || ts[0] == Sym('&') || ts[0] == Sym(';') }
  predicate EndsExec(ts: seq<Token>) { EndsPipe(ts) || ts[0] == Sym('|') }

  /** The first token of x + y. */
  lemma FirstOf(x: seq<Token>, y: seq<Token>)
    ensures x + y != [] ==> (x + y)[0] == if x != [] then x[0] else y[0]
    ensures x == [] ==> x + y == y
  {
  }

  /** Taking the first token off x + y, where x has one. */
  lemma TakeOne(r: string, x: seq<Token>, y: seq<Token>) returns (u: string)
    requires Tokens(r) == x + y && x != []
    ensures GetToken(r) == Read(x[0], u) && Tokens(u) == x[1..] + y
  {
    TokensFirst(r);
    var t := GetToken(r);
    u := t.rest;
    assert Tokens(r)[0] == x[0] && Tokens(r)[1..] == Tokens(u);
    assert (x + y)[1..] == x[1..] + y;
  }

  /** parseredirs takes the redirections in front of x + y. */
  lemma {:induction false} RedirsComplete(words: bool, b: Cmd, ts: seq<Target>, r: string, x: seq<Token>,
      y: seq<Token>, c: Cmd) returns (more: seq<Token>)
    requires Tokens(r) == x + y && EndsExec(y) && Reads(words, Wrap(b, ts), x, c)
    ensures var p := ParseRedirs(ts, r);
      p.Ok? && Tokens(p.rest) == more + y && Reads(words, Wrap(b, p.value), more, c) && |p.rest| <= |r|
    ensures more == [] || (words && more[0].Text?)
    decreases |x|
  {
    PeekToken(r, {'<', '>'});
    FirstOf(x, y);
    if x != [] && InOrOut(x[0]) {
      var u := TakeOne(r, x, y);
      var v := TakeOne(u, x[1..], y);
      var t := Target(x[1].w, x[0] == Sym('>') || x[0] == Append);
      WrapMore(b, ts, t);
      assert x[1..][1..] == x[2..];
      more := RedirsComplete(words, b, ts + [t], v, x[2..], y, c);
      RedirGoes(ts, r, x[0], u, x[1].w, v);
    } else {
      SkipTokens(r);
      more := x;
    }
  }

  lemma {:induction false} AddMore(c: Cmd, w: string)
    ensures |Args(c)| <= |Args(AddArg(c, w))|
  {
    if c.Redir? {
      AddMore(c.cmd, w);
    }
  }

  lemma {:induction false} ReadsArgs(words: bool, b: Cmd, ts: seq<Token>, c: Cmd)
    requires Reads(words, b, ts, c)
    ensures |Args(b)| <= |Args(c)|
    decreases |ts|
  {
    if ts != [] {
      if words && ts[0].Text? {
        AddMore(b, ts[0].w);
        ReadsArgs(words, AddArg(b, ts[0].w), ts[1..], c);
      } else {
        ReadsArgs(words, Redir(b, ts[1].w, ts[0] == Sym('>') || ts[0] == Append), ts[2..], c);
      }
    }
  }

  lemma ArgGoes(s: Simple, r: string, w: string, u: string)
    requires !Peek(r, {'|', ')', '&', ';'}) && GetToken(r) == Read(Text(w), u) && |s.argv| + 1 < MAXARGS
    requires ParseRedirs(s.targets, u).Ok?
    ensures var p := ParseRedirs(s.targets, u);
      ParseArgs(s, r) == ParseArgs(Simple(s.argv + [w], p.value), p.rest) && |p.rest| < |r|
  {
  }

  lemma ArgsStop(s: Simple, r: string)
    requires EndsExec(Tokens(r))
    ensures ParseArgs(s, r).Ok? && ParseArgs(s, r).value == s && Tokens(ParseArgs(s, r).rest) == Tokens(r)
  {
    PeekToken(r, {'|', ')', '&', ';'});
    TokensFirst(r);
    SkipTokens(r);
  }

  /** The loop of parseexec takes all of x. */
  lemma {:induction false} ArgsComplete(s: Simple, r: string, x: seq<Token>, y: seq<Token>, c: Cmd)
    requires Tokens(r) == x + y && EndsExec(y) && (x == [] || x[0].Text?)
    requires Reads(true, Wrap(Exec(s.argv), s.targets), x, c) && |Args(c)| < MAXARGS
    ensures var p := ParseArgs(s, r);
      p.Ok? && Wrap(Exec(p.value.argv), p.value.targets) == c && Tokens(p.rest) == y
    decreases |r|
  {
    FirstOf(x, y);
    if x == [] {
      ArgsStop(s, r);
    } else {
      var w, argv := x[0].w, s.argv + [x[0].w];
      var u := TakeOne(r, x, y);
      PeekToken(r, {'|', ')', '&', ';'});
      ArgMore(s.argv, s.targets, w);
      ArgMore(argv, s.targets, w);
      ReadsArgs(true, Wrap(Exec(argv), s.targets), x[1..], c);
      var more := RedirsComplete(true, Exec(argv), s.targets, u, x[1..], y, c);
      ArgGoes(s, r, w, u);
      var p := ParseRedirs(s.targets, u);
      ArgsComplete(Simple(argv, p.value), p.rest, more, y, c);
    }
  }

  lemma SimpleComplete(r: string, x: seq<Token>, y: seq<Token>, c: Cmd)
    requires Tokens(r) == x + y && EndsExec(y) && Reads(true, Exec([]), x, c) && |Args(c)| < MAXARGS
    ensures ParseExec(r).Ok? && ParseExec(r).value == c && Tokens(ParseExec(r).rest) == y
  {
    PeekToken(r, {'('});
    FirstOf(x, y);
    var more := RedirsComplete(true, Exec([]), [], r, x, y, c);
    var p := ParseRedirs([], r);
    ArgsComplete(Simple([], p.value), p.rest, more, y, c);
    ExecStep(r, p.value, p.rest);
  }

  lemma BlockGoes(r: string, u: string, d: Cmd, w: string, v: string)
    requires GetToken(r) == Read(Sym('('), u) && ParseLine(u) == Ok(d, w) && GetToken(w) == Read(Sym(')'), v)
    requires Peek(r, {'('}) && Peek(w, {')'}) && ParseRedirs([], v).Ok?
    ensures var p := ParseRedirs([], v); ParseExec(r) == Ok(Wrap(d, p.value), p.rest)
  {
  }

  lemma {:induction false} ExecComplete(r: string, x: seq<Token>, y: seq<Token>, c: Cmd)
    requires Tokens(r) == x + y && EndsExec(y) && IsExec(x, c)
    ensures ParseExec(r).Ok? && ParseExec(r).value == c && Tokens(ParseExec(r).rest) == y
    decreases |x|, 0
  {
    if Reads(true, Exec([]), x, c) && |Args(c)| < MAXARGS {
      SimpleComplete(r, x, y, c);
    } else {
      var j, d :| 1 <= j < |x| && x[j] == Sym(')') && IsLine(x[1..j], d) && Reads(false, d, x[j + 1..], c);
      PeekToken(r, {'('});
      FirstOf(x, y);
      var u := TakeOne(r, x, y);
      var z := x[j..] + y;
      InsideBlock(x, j, y);
      LineComplete(u, x[1..j], z, d);
      var w := ParseLine(u).rest;
      PeekToken(w, {')'});
      var v := TakeOne(w, x[j..], y);
      assert x[j..][1..] == x[j + 1..];
      var more := RedirsComplete(false, d, [], v, x[j + 1..], y, c);
      BlockGoes(r, u, d, w, v);
    }
  }

  lemma InsideBlock(x: seq<Token>, j: nat, y: seq<Token>)
    requires 1 <= j < |x|
    ensures x[1..] + y == x[1..j] + (x[j..] + y) && (x[j..] + y)[0] == x[j]
  {
  }

  lemma SplitAt(x: seq<Token>, j: nat, y: seq<Token>)
    requires j < |x|
    ensures x + y == x[..j] + (x[j..] + y) && (x[j..] + y)[0] == x[j] && x[j..][1..] == x[j + 1..]
  {
  }

  lemma {:induction false} PipeComplete(r: string, x: seq<Token>, y: seq<Token>, c: Cmd)
    requires Tokens(r) == x + y && EndsPipe(y) && IsPipe(x, c)
    ensures ParsePipe(r).Ok? && ParsePipe(r).value == c && Tokens(ParsePipe(r).rest) == y
    decreases |x|, 1
  {
    if IsExec(x, c) {
      ExecComplete(r, x, y, c);
      PeekToken(ParseExec(r).rest, {'|'});
      SkipTokens(ParseExec(r).rest);
    } else {
      var j :| 0 <= j < |x| && x[j] == Sym('|') && IsExec(x[..j], c.left) && IsPipe(x[j + 1..], c.right);
      SplitAt(x, j, y);
      ExecComplete(r, x[..j], x[j..] + y, c.left);
      var v := ParseExec(r).rest;
      PeekToken(v, {'|'});
      var u := TakeOne(v, x[j..], y);
      PipeComplete(u, x[j + 1..], y, c.right);
      PipeGoes(r, u);
    }
  }

  lemma PipeGoes(r: string, u: string)
    requires ParseExec(r).Ok? && Peek(ParseExec(r).rest, {'|'}) && GetToken(ParseExec(r).rest).rest == u
    requires ParsePipe(u).Ok?
    ensures ParsePipe(r) == Ok(Pipe(ParseExec(r).value, ParsePipe(u).value), ParsePipe(u).rest)
  {
  }

  /** parsepipe and the loop of parseline take the pipeline with its &. */
  lemma {:induction false} BackComplete(r: string, x: seq<Token>, y: seq<Token>, c: Cmd) returns (v: string)
    requires Tokens(r) == x + y && EndsPipe(y) && IsBack(x, c)
    ensures ParsePipe(r).Ok? && ParseBacks(ParsePipe(r).value, ParsePipe(r).rest) == ParseBacks(c, v) && Tokens(v) == y
    decreases |x|, 2
  {
    if IsPipe(x, c) {
      PipeComplete(r, x, y, c);
      v := ParsePipe(r).rest;
    } else {
      var n := |x| - 1;
      SplitAt(x, n, y);
      var w := BackComplete(r, x[..n], x[n..] + y, c.cmd);
      PeekToken(w, {'&'});
      v := TakeOne(w, x[n..], y);
      FirstOf(x[n..][1..], y);
    }
  }

  lemma BacksStop(c: Cmd, v: string)
    requires !Leads(Tokens(v), {'&'})
    ensures ParseBacks(c, v) == Ok(c, Skip(v)) && Tokens(Skip(v)) == Tokens(v)
  {
    PeekToken(v, {'&'});
    SkipTokens(v);
  }

  lemma {:induction false} LineComplete(r: string, x: seq<Token>, y: seq<Token>, c: Cmd)
    requires Tokens(r) == x + y && EndsLine(y) && IsLine(x, c)
    ensures ParseLine(r).Ok? && ParseLine(r).value == c && Tokens(ParseLine(r).rest) == y
    decreases |x|, 3
  {
    if IsBack(x, c) {
      var v := BackComplete(r, x, y, c);
      BacksStop(c, v);
      PeekToken(Skip(v), {';'});
    } else {
      var j :| 0 <= j < |x| && x[j] == Sym(';') && IsBack(x[..j], c.left) && IsLine(x[j + 1..], c.right);
      SplitAt(x, j, y);
      var v := BackComplete(r, x[..j], x[j..] + y, c.left);
      BacksStop(c.left, v);
      PeekToken(Skip(v), {';'});
      var u := TakeOne(Skip(v), x[j..], y);
      LineComplete(u, x[j + 1..], y, c.right);
      LineGoes(r, c.left, Skip(v), u);
    }
  }

  lemma LineGoes(r: string, l: Cmd, v: string, u: string)
    requires ParsePipe(r).Ok? && ParseBacks(ParsePipe(r).value, ParsePipe(r).rest) == Ok(l, v)
    requires Peek(v, {';'}) && GetToken(v).rest == u && ParseLine(u).Ok?
    ensures ParseLine(r) == Ok(List(l, ParseLine(u).value), ParseLine(u).rest)
  {
  }

  /**
    parsecmd accepts exactly the lines whose tokens make a command, and builds the tree that they make.
    So no line has two trees, and every other line is refused.
  */
  lemma ParsesExactly(s: string, c: Cmd)
    ensures ParseCmd(s) == Ok(c, "") <==> IsLine(Tokens(s), c)
  {
    if ParseCmd(s) == Ok(c, "") {
      var used := LineSound(s);
      var rest := ParseLine(s).rest;
      SkipTokens(rest);
      assert used + Tokens(rest) == used;
    }
    if IsLine(Tokens(s), c) {
      assert Tokens(s) + [] == Tokens(s);
      LineComplete(s, Tokens(s), [], c);
      var rest := ParseLine(s).rest;
      SkipTokens(rest);
      TokensFirst(rest);
    }
  }
}
