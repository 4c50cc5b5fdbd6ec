/** The regular expression matcher of user/grep.c, against the language of a pattern. */
module Regex {

  datatype Atom = One(c: char) | Star(c: char)

  /** The atoms of a pattern, and whether it ends in a $ that stands for the end of the text. */
  datatype Pattern = Pattern(atoms: seq<Atom>, atEnd: bool)

  /** A character in a pattern stands for itself, a dot for any. */
  predicate Fits(c: char, t: char) { c == '.' || c == t }

  function Parse(re: string): Pattern {
    if re == "" then Pattern([], false)
    else if |re| > 1 && re[1] == '*' then
      var p := Parse(re[2..]);
      Pattern([Star(re[0])] + p.atoms, p.atEnd)
    else if re == "$" then Pattern([], true)
    else
      var p := Parse(re[1..]);
      Pattern([One(re[0])] + p.atoms, p.atEnd)
  }

  /** A pattern as it is written: a star behind its character, $ for the end of the text. */
  function Show(p: Pattern): string
    decreases |p.atoms|
  {
    if p.atoms == [] then if p.atEnd then "$" else ""
    else
      var rest := Show(p.(atoms := p.atoms[1..]));
      match p.atoms[0]
      case One(c) => [c] + rest
      case Star(c) => [c, '*'] + rest
  }

  /** So written, no character gets a star that is not its own, and no $ at the end stands for itself. */
  predicate Plain(p: Pattern)
    decreases |p.atoms|
  {
    p.atoms == [] ||
    var q := p.(atoms := p.atoms[1..]);
    && Plain(q)
    && (p.atoms[0].One? ==>
         if q.atoms == [] then p.atoms[0].c != '$' || q.atEnd else q.atoms[0].c != '*')
  }

  lemma {:induction false} ShowParse(re: string)
    ensures Show(Parse(re)) == re && Plain(Parse(re))
  {
    if re != "" && re != "$" {
      var star := |re| > 1 && re[1] == '*';
      var rest := if star then re[2..] else re[1..];
      ShowParse(rest);
      Tail(if star then Star(re[0]) else One(re[0]), Parse(rest).atoms);
      ShowStart(Parse(rest));
      assert re == if star then [re[0], '*'] + rest else [re[0]] + rest;
    }
  }

  /** What a written pattern starts with. */
  lemma ShowStart(p: Pattern)
    ensures if p.atoms == [] then Show(p) == if p.atEnd then "$" else ""
      else Show(p) != "" && Show(p)[0] == p.atoms[0].c
  {
  }

  lemma {:induction false} ParseShow(p: Pattern)
    requires Plain(p)
    ensures Parse(Show(p)) == p
    decreases |p.atoms|
  {
    if p.atoms != [] {
      var q := p.(atoms := p.atoms[1..]);
      ParseShow(q);
      ShowStart(q);
      var re := Show(p);
      assert re[if p.atoms[0].Star? then 2 else 1..] == Show(q);
      assert p.atoms == [p.atoms[0]] + q.atoms;
    }
  }

  /** A pattern is read as the one thing that is written so. */
  lemma ParseExactly(re: string, p: Pattern)
    ensures Parse(re) == p <==> Show(p) == re && Plain(p)
  {
    ShowParse(re);
    if Plain(p) {
      ParseShow(p);
    }
  }

  predicate AllFit(c: char, w: string) { forall i :: 0 <= i < |w| ==> Fits(c, w[i]) }

  /** The language of a list of atoms. */
  ghost predicate In(atoms: seq<Atom>, w: string)
    decreases |atoms|
  {
    if atoms == [] then w == ""
    else
      match atoms[0]
      case One(c) => w != "" && Fits(c, w[0]) && In(atoms[1..], w[1..])
      case Star(c) => exists k :: 0 <= k <= |w| && AllFit(c, w[..k]) && In(atoms[1..], w[k..])
  }

  /** The text starts with a word of the pattern, which is all of it if the pattern says so. */
  ghost predicate Here(p: Pattern, text: string) {
    exists n :: 0 <= n <= |text| && In(p.atoms, text[..n]) && (p.atEnd ==> n == |text|)
  }

  /** Somewhere in the text there is a word of the pattern; after ^ it is at the start. */
  ghost predicate Somewhere(re: string, text: string) {
    if re != "" && re[0] == '^' then Here(Parse(re[1..]), text)
    else exists i :: 0 <= i <= |text| && Here(Parse(re), text[i..])
  }

  lemma HereNone(text: string, atEnd: bool)
    ensures Here(Pattern([], atEnd), text) <==> (atEnd ==> text == "")
  {
    if atEnd ==> text == "" {
      assert text[..0] == "" && In([], text[..0]);
    }
  }

  lemma Tail(atom: Atom, atoms: seq<Atom>)
    ensures ([atom] + atoms)[1..] == atoms
  {
  }

  lemma HereOne(c: char, p: Pattern, text: string)
    ensures Here(Pattern([One(c)] + p.atoms, p.atEnd), text) <==> text != "" && Fits(c, text[0]) && Here(p, text[1..])
  {
    var q := Pattern([One(c)] + p.atoms, p.atEnd);
    Tail(One(c), p.atoms);
    if Here(q, text) {
      var n :| 0 <= n <= |text| && In(q.atoms, text[..n]) && (q.atEnd ==> n == |text|);
      assert text[..n][1..] == text[1..][..n - 1];
    }
    if text != "" && Fits(c, text[0]) && Here(p, text[1..]) {
      var n :| 0 <= n <= |text[1..]| && In(p.atoms, text[1..][..n]) && (p.atEnd ==> n == |text[1..]|);
      assert text[..n + 1][1..] == text[1..][..n];
      assert In(q.atoms, text[..n + 1]);
    }
  }

  /** k characters of the star, then the rest of the pattern. */
  ghost predicate StarAt(c: char, p: Pattern, text: string, k: int)
    requires 0 <= k <= |text|
  {
    AllFit(c, text[..k]) && Here(p, text[k..])
  }

  ghost predicate SomeStar(c: char, p: Pattern, text: string) {
    exists k :: 0 <= k <= |text| && StarAt(c, p, text, k)
  }

  lemma HereStar(c: char, p: Pattern, text: string)
    ensures Here(Pattern([Star(c)] + p.atoms, p.atEnd), text) <==> SomeStar(c, p, text)
  {
    var q := Pattern([Star(c)] + p.atoms, p.atEnd);
    Tail(Star(c), p.atoms);
    if Here(q, text) {
      var n :| 0 <= n <= |text| && In(q.atoms, text[..n]) && (q.atEnd ==> n == |text|);
      var w := text[..n];
      var k :| 0 <= k <= |w| && AllFit(c, w[..k]) && In(q.atoms[1..], w[k..]);
      assert w[..k] == text[..k] && w[k..] == text[k..][..n - k];
      assert StarAt(c, p, text, k);
    }
    if k :| 0 <= k <= |text| && StarAt(c, p, text, k) {
      var n :| 0 <= n <= |text[k..]| && In(p.atoms, text[k..][..n]) && (p.atEnd ==> n == |text[k..]|);
      var w := text[..k + n];
      assert w[..k] == text[..k] && w[k..] == text[k..][..n];
      assert In(q.atoms, w);
    }
  }

  /** matchhere: does the text start with a word of the pattern? */
  method Matchhere(re: string, text: string) returns (r: bool)
    ensures r <==> Here(Parse(re), text)
    decreases |re|, 1
  {
    if re == "" {
      HereNone(text, false);
      return true;
    }
    if |re| > 1 && re[1] == '*' {
      HereStar(re[0], Parse(re[2..]), text);
      r := Matchstar(re[0], re[2..], text);
      return;
    }
    if re == "$" {
      HereNone(text, true);
      return text == "";
    }
    HereOne(re[0], Parse(re[1..]), text);
    if text != "" && (re[0] == '.' || re[0] == text[0]) {
      r := Matchhere(re[1..], text[1..]);
      return;
    }
    return false;
  }

  /** matchstar: the rest of the pattern after zero or more of c. */
  method Matchstar(c: char, re: string, text: string) returns (r: bool)
    ensures r <==> SomeStar(c, Parse(re), text)
    decreases |re| + 1, 0
  {
    var i := 0;
    while true
      invariant 0 <= i <= |text| && AllFit(c, text[..i])
      invariant forall k :: 0 <= k < i ==> !StarAt(c, Parse(re), text, k)
      decreases |text| - i
    {
      var here := Matchhere(re, text[i..]);
      if here {
        assert StarAt(c, Parse(re), text, i);
        return true;
      }
      if !(i < |text| && (text[i] == c || c == '.')) {
        break;
      }
      i := i + 1;
    }
    forall k | i < k <= |text| ensures !StarAt(c, Parse(re), text, k) {
      assert text[..k][i] == text[i];
    }
    return false;
  }

  /** match: is there a word of the pattern in the text? */
  method Match(re: string, text: string) returns (r: bool)
    ensures r <==> Somewhere(re, text)
  {
    if re != "" && re[0] == '^' {
      r := Matchhere(re[1..], text);
      return;
    }
    var i := 0;
    while i <= |text|
      invariant 0 <= i <= |text| + 1 && forall k :: 0 <= k < i ==> !Here(Parse(re), text[k..])
    {
      var here := Matchhere(re, text[i..]);
      if here {
        return true;
      }
      i := i + 1;
    }
    return false;
  }

  /** The same said with substrings. */
  lemma SomewhereMeans(re: string, text: string)
    ensures
      var anchored := re != "" && re[0] == '^';
      var p := Parse(if anchored then re[1..] else re);
      Somewhere(re, text) <==>
      exists i, j ::
        0 <= i <= j <= |text| && In(p.atoms, text[i..j]) && (anchored ==> i == 0) && (p.atEnd ==> j == |text|)
  {
    var anchored := re != "" && re[0] == '^';
    var p := Parse(if anchored then re[1..] else re);
    assert text[0..] == text;
    if i, j :| 0 <= i <= j <= |text| && In(p.atoms, text[i..j]) && (anchored ==> i == 0) && (p.atEnd ==> j == |text|) {
      HereAt(p, text, i, j);
    }
    if Somewhere(re, text) {
      var i :| 0 <= i <= |text| && Here(p, text[i..]) && (anchored ==> i == 0);
      var j := WordEnd(p, text, i);
    }
  }

  lemma HereAt(p: Pattern, text: string, i: int, j: int)
    requires 0 <= i <= j <= |text| && In(p.atoms, text[i..j]) && (p.atEnd ==> j == |text|)
    ensures Here(p, text[i..])
  {
    assert text[i..][..j - i] == text[i..j];
  }

  lemma WordEnd(p: Pattern, text: string, i: int) returns (j: int)
    requires 0 <= i <= |text| && Here(p, text[i..])
    ensures i <= j <= |text| && In(p.atoms, text[i..j]) && (p.atEnd ==> j == |text|)
  {
    var n :| 0 <= n <= |text[i..]| && In(p.atoms, text[i..][..n]) && (p.atEnd ==> n == |text[i..]|);
    j := i + n;
    assert text[i..][..n] == text[i..j];
  }
}
