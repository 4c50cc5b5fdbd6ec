/**
  The LZW decoder of gif.c against a decoder that keeps its table as strings, in the way
  of Appendix F of the GIF89a specification.
*/
module Lzw {
  import opened Guard
  import opened Bytes
  import opened DiskFormat

  // --- The table-of-strings decoder ---

  /**
    How decoding ends.  The last three are streams on which the code goes on with memory that is
    not its own or has not been set: the input ends within a code (CutOff), a code after a clear
    code has no string (NoString), or a 4097th entry is added to the dictionary (Overflow).
  */
  datatype Ending = Done | BadCode | EarlyStop | CutOff | NoString | Overflow

  datatype Outcome = Outcome(out: seq<Byte>, end: Ending)

  /** The code width less one, the strings of all codes so far and the last string put out, [] after a clear code. */
  datatype Decoder = Decoder(width: nat, table: seq<seq<Byte>>, last: seq<Byte>)

  /** The bit of the input at position p, least significant bits first. */
  predicate InputBit(input: seq<Byte>, p: nat)
    requires p < 8 * |input|
  {
    Bit(input[p / 8], p % 8)
  }

  /** The code in n bits from position p on. */
  function CodeAt(input: seq<Byte>, p: nat, n: nat): (code: nat)
    requires p + n <= 8 * |input|
    ensures code < Pow2(n)
  {
    if n == 0 then 0 else CodeAt(input, p, n - 1) + (if InputBit(input, p + n - 1) then Pow2(n - 1) else 0)
  }

  /** The strings of the first codes; the clear and stop codes have none. */
  function Roots(clear: nat): (t: seq<seq<Byte>>)
    ensures |t| == clear + 2
  {
    seq(clear, c requires 0 <= c => [c % 256]) + [[], []]
  }

  function Start(width: nat): Decoder { Decoder(width, Roots(Pow2(width)), []) }

  /** The decoder with one more string, and wider codes if the table is full at this width. */
  function Extend(st: Decoder, s: seq<Byte>): Decoder {
    var t := st.table + [s];
    st.(table := t, width := if |t| == Pow2(st.width + 1) && st.width < 11 then st.width + 1 else st.width)
  }

  /**
    The code stands for a string: one of the table or, after another string, the one about to be
    added.  The table has room for that, that is a clear code comes before a 4097th entry.
  */
  predicate Legal(st: Decoder, width: nat, code: nat) {
    && code != Pow2(width) && code != Pow2(width) + 1
    && if st.last == [] then code < |st.table| else code <= |st.table| < 4096
  }

  /** The string for a code: one of the table, or the last string with its own first byte again. */
  function Lookup(st: Decoder, code: nat): seq<Byte>
    requires code < |st.table| || (code == |st.table| && st.last != [])
  {
    if code < |st.table| then st.table[code] else st.last + [st.last[0]]
  }

  /** The decoder after a string: the table gets the last string with the first byte of this one. */
  function Next(st: Decoder, code: nat): Decoder
    requires (code < |st.table| || (code == |st.table| && st.last != [])) && Lookup(st, code) != []
  {
    var s := Lookup(st, code);
    if st.last == [] then st.(last := s) else Extend(st, st.last + [s[0]]).(last := s)
  }

  predicate Sane(st: Decoder, width: nat) {
    && |st.table| >= Pow2(width) + 2
    && forall c :: 0 <= c < |st.table| && c != Pow2(width) && c != Pow2(width) + 1 ==> st.table[c] != []
  }

  lemma NextSane(st: Decoder, width: nat, code: nat)
    requires Sane(st, width) && Legal(st, width, code)
    ensures Lookup(st, code) != [] && Sane(Next(st, code), width)
  {
  }

  /** What the codes from bit position p on decode to; width is that of the start. */
  function Decode(width: nat, input: seq<Byte>, p: nat, st: Decoder): Outcome
    requires Sane(st, width)
    decreases 8 * |input| - p
  {
    if p >= 8 * |input| then Outcome([], Done)
    else if p + st.width + 1 > 8 * |input| then Outcome([], CutOff)
    else
      var code, q := CodeAt(input, p, st.width + 1), p + st.width + 1;
      if code == Pow2(width) then Decode(width, input, q, Start(width))
      else if code == Pow2(width) + 1 then
        Outcome([], if q + 8 < 8 * |input| then EarlyStop else Done)
      else if st.last != [] && code > |st.table| then Outcome([], BadCode)
      else if !Legal(st, width, code) then Outcome([], if st.last == [] then NoString else Overflow)
      else
        NextSane(st, width, code);
        var rest := Decode(width, input, q, Next(st, code));
        Outcome(Lookup(st, code) + rest.out, rest.end)
  }

  /** What a code other than the clear and the stop code leaves to be decoded. */
  lemma DecodeString(width: nat, input: seq<Byte>, p: nat, st: Decoder, code: nat, q: nat)
    requires Sane(st, width) && q == p + st.width + 1 <= 8 * |input|
    requires code == CodeAt(input, p, st.width + 1) && Legal(st, width, code)
    ensures Lookup(st, code) != [] && Sane(Next(st, code), width)
    ensures
      var rest := Decode(width, input, q, Next(st, code));
      Decode(width, input, p, st) == Outcome(Lookup(st, code) + rest.out, rest.end)
  {
    NextSane(st, width, code);
  }

  // --- The dictionary of back pointers ---

  datatype Entry = Entry(byte: Byte, prev: int, len: int)

  /** c is a code below n that stands for a string. */
  predicate Code(clear: nat, n: int, c: int) { 0 <= c < n && c != clear && c != clear + 1 }

  /** Entry c spells its string: its own byte comes last, after the string of a smaller code. */
  ghost predicate Spells(d: seq<Entry>, clear: nat, table: seq<seq<Byte>>, c: int)
    requires 0 <= c < |d| && c < |table|
  {
    && d[c].len == |table[c]| > 0
    && if d[c].prev == -1 then table[c] == [d[c].byte]
       else Code(clear, c, d[c].prev) && table[c] == table[d[c].prev] + [d[c].byte]
  }

  ghost predicate Refines(d: seq<Entry>, clear: nat, table: seq<seq<Byte>>) {
    && clear + 2 <= |table| <= |d|
    && forall c :: Code(clear, |table|, c) ==> Spells(d, clear, table, c)
  }

  lemma ExtendRefines(d: seq<Entry>, clear: nat, table: seq<seq<Byte>>, prev: int, b: Byte)
    requires Refines(d, clear, table) && |table| < |d| && Code(clear, |table|, prev)
    ensures Refines(d[|table| := Entry(b, prev, d[prev].len + 1)], clear, table + [table[prev] + [b]])
  {
    var e, t := d[|table| := Entry(b, prev, d[prev].len + 1)], table + [table[prev] + [b]];
    forall c | Code(clear, |t|, c) ensures Spells(e, clear, t, c) {
      assert Spells(d, clear, table, prev);
      if c < |table| {
        assert Spells(d, clear, table, c);
      }
    }
  }

  /** Entries past the table do not matter. */
  lemma SameRefines(d: seq<Entry>, e: seq<Entry>, clear: nat, table: seq<seq<Byte>>)
    requires Refines(d, clear, table) && |table| <= |e| && d[..|table|] == e[..|table|]
    ensures Refines(e, clear, table)
  {
    forall c | Code(clear, |table|, c) ensures Spells(e, clear, table, c) {
      assert Spells(d, clear, table, c) && d[..|table|][c] == e[..|table|][c];
    }
  }

  /** The first entries of the dictionary. */
  method InitDictionary(dict: array<Entry>, clear: nat)
    requires clear + 2 <= dict.Length
    modifies dict
    ensures Refines(dict[..], clear, Roots(clear))
  {
    var ind := 0;
    while ind < clear
      invariant 0 <= ind <= clear
      invariant forall c :: 0 <= c < ind ==> dict[c] == Entry(c % 256, -1, 1)
    {
      dict[ind] := Entry(ind % 256, -1, 1);
      ind := ind + 1;
    }
    forall c | Code(clear, clear + 2, c) ensures Spells(dict[..], clear, Roots(clear), c) {
    }
  }

  /** realloc: a dictionary of the given size that starts with what fits of the old one. */
  method Realloc(dict: array<Entry>, size: nat) returns (r: array<Entry>)
    ensures fresh(r) && r.Length == size
    ensures forall c :: 0 <= c < size && c < dict.Length ==> r[c] == dict[c]
  {
    r := new Entry[size](c reads dict => if 0 <= c < dict.Length then dict[c] else Entry(0, -1, 1));
  }

  /** The first byte of the string of a code, found at the end of its chain of back pointers. */
  method FirstByte(dict: array<Entry>, code: nat, ghost clear: nat, ghost table: seq<seq<Byte>>) returns (b: Byte)
    requires Refines(dict[..], clear, table) && Code(clear, |table|, code)
    ensures table[code] != [] && b == table[code][0]
  {
    var ptr := code;
    assert Spells(dict[..], clear, table, ptr);
    while dict[ptr].prev != -1
      invariant Code(clear, |table|, ptr) && table[code] != [] && table[ptr] != [] && table[ptr][0] == table[code][0]
      decreases ptr
    {
      assert Spells(dict[..], clear, table, ptr) && Spells(dict[..], clear, table, dict[ptr].prev);
      ptr := dict[ptr].prev;
    }
    assert Spells(dict[..], clear, table, ptr);
    b := dict[ptr].byte;
  }

  /** Copy the string of a code backwards into out, from position `at` on. */
  method CopyString(dict: array<Entry>, first: nat, out: array<Byte>, at: nat, ghost clear: nat,
                    ghost table: seq<seq<Byte>>)
    returns (len: nat)
    requires Refines(dict[..], clear, table) && Code(clear, |table|, first) && at + |table[first]| <= out.Length
    modifies out
    ensures len == |table[first]| && out[..] == old(out[..])[..at] + table[first] + old(out[..])[at + len..]
  {
    ghost var s := table[first];
    assert Spells(dict[..], clear, table, first);
    len := dict[first].len;
    var code: int := first;
    ghost var k := |s|;
    while code != -1
      invariant 0 <= k <= |s| && (code == -1 ==> k == 0)
      invariant code != -1 ==> Code(clear, |table|, code) && k == |table[code]| && table[code] == s[..k]
      invariant forall i :: 0 <= i < out.Length ==> out[i] == if at + k <= i < at + |s| then s[i - at] else old(out[i])
      decreases code
    {
      assert Spells(dict[..], clear, table, code);
      out[at + dict[code].len - 1] := dict[code].byte;
      if dict[code].prev == code {
        assert false;
      }
      if dict[code].prev != -1 {
        assert Spells(dict[..], clear, table, dict[code].prev);
      }
      code := dict[code].prev;
      k := k - 1;
    }
  }

  /** The next code of n bits: `at` and `bit` are the input pointer and the bit that the mask selects. */
  method ReadCode(input: seq<Byte>, at: nat, bit: nat, n: nat) returns (code: nat, at': nat, bit': nat)
    requires bit < 8 && 8 * at + bit + n <= 8 * |input|
    ensures code == CodeAt(input, 8 * at + bit, n) && 8 * at' + bit' == 8 * at + bit + n && bit' < 8
  {
    code, at', bit' := 0, at, bit;
    var i := 0;
    while i < n
      invariant 0 <= i <= n && bit' < 8 && 8 * at' + bit' == 8 * at + bit + i && code == CodeAt(input, 8 * at + bit, i)
    {
      var one := Bit(input[at'], bit');
      assert InputBit(input, 8 * at + bit + i) == one;
      bit' := bit' + 1;
      if bit' == 8 {
        bit', at' := 0, at' + 1;
      }
      code := code + (if one then Pow2(i) else 0);
      i := i + 1;
    }
  }

  lemma Pow2Of12()
    ensures Pow2(12) == 4096
  {
    assert Pow2(6) == 64;
  }

  /** The decoder's variables against the state of the table-of-strings decoder. */
  ghost predicate Tracks(d: seq<Entry>, reset: nat, cl: nat, ind: nat, prev: int, st: Decoder) {
    && 2 <= reset <= cl == st.width <= 11 && ind == |st.table| && -1 <= prev && (prev == -1 <==> st.last == [])
    && forall k {:trigger Look(k)} :: Look(k) ==> TracksTable(d, reset, prev, st)
  }

  ghost predicate TracksTable(d: seq<Entry>, reset: nat, prev: int, st: Decoder) {
    && |d| == Pow2(st.width + 1) && Sane(st, reset)
    && Refines(d, Pow2(reset), st.table)
    && (st.width < 11 ==> |st.table| < Pow2(st.width + 1))
    && if prev == -1 then st == Start(reset) else Code(Pow2(reset), |st.table|, prev) && st.last == st.table[prev]
  }

  /** The dictionary after a clear code. */
  method Reset(dict: array<Entry>, reset: nat) returns (r: array<Entry>, ind: nat)
    requires 2 <= reset <= 11
    ensures fresh(r) && Tracks(r[..], reset, reset, ind, -1, Start(reset))
  {
    r := Realloc(dict, Pow2(reset + 1));
    assert Pow2(reset) == 2 * Pow2(reset - 1) == 4 * Pow2(reset - 2);
    Pow2Grows(0, reset - 2);
    InitDictionary(r, Pow2(reset));
    ind := Pow2(reset) + 2;
  }

  /** The dictionary with the new entry, grown or not, tracks the table with the new string. */
  lemma AddedTracks(d: seq<Entry>, e: seq<Entry>, reset: nat, cl: nat, ind: nat, prev: int, st: Decoder, code: nat,
                    b: Byte)
    requires Tracks(d, reset, cl, ind, prev, st) && prev != -1 && Legal(st, reset, code) && Lookup(st, code) != [] &&
      b == Lookup(st, code)[0]
    requires 0 <= prev < |d| && ind < |d| && ind < |e| &&
      e[..ind + 1] == d[ind := Entry(b, prev, d[prev].len + 1)][..ind + 1]
    requires |e| == if ind + 1 == Pow2(cl + 1) && cl < 11 then Pow2(cl + 2) else Pow2(cl + 1)
    ensures Tracks(e, reset, if ind + 1 == Pow2(cl + 1) && cl < 11 then cl + 1 else cl, ind + 1, code, Next(st, code))
  {
    assert Look(0);
    Pow2Of12();
    NextSane(st, reset, code);
    var clear, table := Pow2(reset), st.table;
    ExtendRefines(d, clear, table, prev, b);
    SameRefines(d[ind := Entry(b, prev, d[prev].len + 1)], e, clear, table + [table[prev] + [b]]);
    assert Next(st, code).table == table + [table[prev] + [b]];
  }

  lemma RoomToAdd(d: seq<Entry>, reset: nat, cl: nat, ind: nat, prev: int, st: Decoder, code: nat)
    requires Tracks(d, reset, cl, ind, prev, st) && prev != -1 && Legal(st, reset, code)
    ensures |d| == Pow2(cl + 1) && ind < |d| && Refines(d, Pow2(reset), st.table) && Code(Pow2(reset), ind, prev) &&
      Lookup(st, code) != [] && st.last == st.table[prev]
  {
    assert Look(0);
    Pow2Of12();
    NextSane(st, reset, code);
  }

  /** A new string: the last one and the first byte of the one that `code` stands for. */
  method AddEntry(dict: array<Entry>, code: nat, prev: int, reset: nat, cl: nat, ind: nat, ghost st: Decoder)
    returns (r: array<Entry>, cl': nat, ind': nat)
    requires Tracks(dict[..], reset, cl, ind, prev, st) && prev != -1 && Legal(st, reset, code)
    modifies dict
    ensures r == dict || fresh(r)
    ensures Lookup(st, code) != [] && Tracks(r[..], reset, cl', ind', code, Next(st, code))
  {
    ghost var d := dict[..];
    RoomToAdd(d, reset, cl, ind, prev, st, code);
    var b := FirstByte(dict, if code == ind then prev else code, Pow2(reset), st.table);
    dict[ind] := Entry(b, prev, dict[prev].len + 1);
    r, cl', ind' := dict, cl, ind + 1;
    if ind' == Pow2(cl + 1) && cl < 11 {
      cl' := cl + 1;
      r := Realloc(dict, Pow2(cl' + 1));
    }
    assert r[..][..ind + 1] == d[ind := Entry(b, prev, d[prev].len + 1)][..ind + 1];
    AddedTracks(d, r[..], reset, cl, ind, prev, st, code, b);
  }

  /** A code that stands for a string: extend the dictionary, and put the string out. */
  method OneString(dict: array<Entry>, code: nat, prev: int, reset: nat, cl: nat, ind: nat, out: array<Byte>, n: nat,
                   ghost st: Decoder)
    returns (r: array<Entry>, cl': nat, ind': nat, len: nat)
    requires Tracks(dict[..], reset, cl, ind, prev, st) && Legal(st, reset, code) &&
      n + |Lookup(st, code)| <= out.Length
    modifies dict, out
    ensures r == dict || fresh(r)
    ensures Lookup(st, code) != [] && Tracks(r[..], reset, cl', ind', code, Next(st, code))
    ensures len == |Lookup(st, code)| && out[..] == old(out[..])[..n] + Lookup(st, code) + old(out[..])[n + len..]
  {
    assert Look(0);
    NextSane(st, reset, code);
    r, cl', ind' := dict, cl, ind;
    if prev > -1 && cl < 12 {
      r, cl', ind' := AddEntry(dict, code, prev, reset, cl, ind, st);
    }
    len := CopyString(r, code, out, n, Pow2(reset), Next(st, code).table);
  }

  /** The output so far and what the rest of the input decodes to make up the goal. */
  ghost predicate Towards(goal: Outcome, done: seq<Byte>, reset: nat, input: seq<Byte>, p: nat, st: Decoder) {
    forall k {:trigger Peek(k)} :: Peek(k) ==> Composes(goal, done, reset, input, p, st)
  }

  ghost predicate Composes(goal: Outcome, done: seq<Byte>, reset: nat, input: seq<Byte>, p: nat, st: Decoder) {
    Sane(st, reset) && var r := Decode(reset, input, p, st); goal == Outcome(done + r.out, r.end)
  }

  /** There is a code to read, whatever it is. */
  lemma TowardsCode(goal: Outcome, done: seq<Byte>, reset: nat, input: seq<Byte>, p: nat, st: Decoder)
    requires Towards(goal, done, reset, input, p, st) && p < 8 * |input|
    ensures
      if p + st.width + 1 > 8 * |input| then goal == Outcome(done, CutOff)
      else
        var code, q := CodeAt(input, p, st.width + 1), p + st.width + 1;
        if code == Pow2(reset) then true
        else if code == Pow2(reset) + 1 then goal == Outcome(done, if q + 8 < 8 * |input| then EarlyStop else Done)
        else if st.last != [] && code > |st.table| then goal == Outcome(done, BadCode)
        else Legal(st, reset, code) || goal == Outcome(done, if st.last == [] then NoString else Overflow)
  {
    assert Peek(0);
    assert done + [] == done;
  }

  lemma TowardsClear(goal: Outcome, done: seq<Byte>, reset: nat, input: seq<Byte>, p: nat, st: Decoder, q: nat)
    requires Towards(goal, done, reset, input, p, st) && q == p + st.width + 1 <= 8 * |input|
    requires CodeAt(input, p, st.width + 1) == Pow2(reset)
    ensures Towards(goal, done, reset, input, q, Start(reset))
  {
    assert Peek(0);
  }

  lemma TowardsStart(reset: nat, input: seq<Byte>)
    ensures Towards(Decode(reset, input, 0, Start(reset)), [], reset, input, 0, Start(reset))
  {
    var r := Decode(reset, input, 0, Start(reset));
    assert [] + r.out == r.out;
  }

  lemma TowardsEnd(goal: Outcome, done: seq<Byte>, reset: nat, input: seq<Byte>, p: nat, st: Decoder)
    requires Towards(goal, done, reset, input, p, st) && p >= 8 * |input|
    ensures goal == Outcome(done, Done)
  {
    assert Peek(0);
    assert done + [] == done;
  }

  lemma TowardsString(goal: Outcome, done: seq<Byte>, reset: nat, input: seq<Byte>, p: nat, st: Decoder, code: nat,
                      q: nat)
    requires Towards(goal, done, reset, input, p, st) && q == p + st.width + 1 <= 8 * |input|
    requires code == CodeAt(input, p, st.width + 1) && Legal(st, reset, code)
    ensures Lookup(st, code) != [] && Towards(goal, done + Lookup(st, code), reset, input, q, Next(st, code))
    ensures |done| + |Lookup(st, code)| <= |goal.out|
  {
    assert Peek(0);
    NextSane(st, reset, code);
    DecodeString(reset, input, p, st, code, q);
    Assoc(done, Lookup(st, code), Decode(reset, input, q, Next(st, code)).out);
  }

  lemma Assoc(a: seq<Byte>, b: seq<Byte>, c: seq<Byte>)
    ensures a + (b + c) == a + b + c
  {
  }

  /** s is the buffer orig with its first bytes replaced by `done`. */
  ghost predicate Filled(s: seq<Byte>, orig: seq<Byte>, done: seq<Byte>) {
    |done| <= |orig| == |s| && forall k {:trigger Glance(k)} :: Glance(k) ==> FilledWith(s, orig, done)
  }

  ghost predicate FilledWith(s: seq<Byte>, orig: seq<Byte>, done: seq<Byte>)
    requires |done| <= |orig|
  {
    s == done + orig[|done|..]
  }

  lemma FilledEnd(s: seq<Byte>, orig: seq<Byte>, done: seq<Byte>)
    requires Filled(s, orig, done)
    ensures s == done + orig[|done|..]
  {
    assert Glance(0);
  }

  lemma FilledMore(s: seq<Byte>, orig: seq<Byte>, done: seq<Byte>, more: seq<Byte>)
    requires Filled(s, orig, done) && |done| + |more| <= |s|
    ensures Filled(s[..|done|] + more + s[|done| + |more|..], orig, done + more)
  {
    assert Glance(0);
    assert s[|done| + |more|..] == orig[|done| + |more|..];
    assert s[..|done|] == done;
  }

  /** The variables of uncompress: input pointer and bit, code length, next code, last code, output length. */
  datatype Regs = Regs(at: nat, bit: nat, cl: nat, ind: nat, prev: int, n: nat)

  /** The invariant of uncompress's loop: the output so far is `done`, and st is the state of the other decoder. */
  ghost predicate Going(goal: Outcome, d: seq<Entry>, s: seq<Byte>, orig: seq<Byte>, reset: nat, input: seq<Byte>,
                        g: Regs, st: Decoder, done: seq<Byte>) {
    && g.at <= |input| && g.bit < 8 && (g.at == |input| ==> g.bit == 0) && 2 <= reset <= 11
    && Tracks(d, reset, g.cl, g.ind, g.prev, st) && Towards(goal, done, reset, input, 8 * g.at + g.bit, st)
    && g.n == |done| && Filled(s, orig, done)
  }

  /** A string code in uncompress's loop, read up to at and bit. */
  method StringPass(dict: array<Entry>, reset: nat, input: seq<Byte>, out: array<Byte>, g: Regs, code: nat, at: nat,
                    bit: nat,
                    ghost goal: Outcome, ghost orig: seq<Byte>, ghost st: Decoder, ghost done: seq<Byte>)
    returns (dict': array<Entry>, g': Regs, ghost st': Decoder, ghost done': seq<Byte>)
    requires Going(goal, dict[..], out[..], orig, reset, input, g, st, done) && |goal.out| <= out.Length
    requires 8 * at + bit == 8 * g.at + g.bit + st.width + 1 <= 8 * |input| && bit < 8
    requires code == CodeAt(input, 8 * g.at + g.bit, st.width + 1) && Legal(st, reset, code)
    modifies dict, out
    ensures dict' == dict || fresh(dict')
    ensures Going(goal, dict'[..], out[..], orig, reset, input, g', st', done') && g'.at == at && g'.bit == bit
  {
    TowardsString(goal, done, reset, input, 8 * g.at + g.bit, st, code, 8 * at + bit);
    FilledMore(out[..], orig, done, Lookup(st, code));
    st', done' := Next(st, code), done + Lookup(st, code);
    var cl, ind, len;
    dict', cl, ind, len := OneString(dict, code, g.prev, reset, g.cl, g.ind, out, g.n, st);
    g' := Regs(at, bit, cl, ind, code, g.n + len);
  }

  /** A clear code in uncompress's loop, read up to at and bit. */
  method ClearPass(dict: array<Entry>, reset: nat, input: seq<Byte>, out: array<Byte>, g: Regs, at: nat, bit: nat,
                   ghost goal: Outcome, ghost orig: seq<Byte>, ghost st: Decoder, ghost done: seq<Byte>)
    returns (dict': array<Entry>, g': Regs)
    requires Going(goal, dict[..], out[..], orig, reset, input, g, st, done)
    requires 8 * at + bit == 8 * g.at + g.bit + st.width + 1 <= 8 * |input| && bit < 8
    requires CodeAt(input, 8 * g.at + g.bit, st.width + 1) == Pow2(reset)
    ensures fresh(dict')
    ensures Going(goal, dict'[..], out[..], orig, reset, input, g', Start(reset), done) && g'.at == at && g'.bit == bit
  {
    TowardsClear(goal, done, reset, input, 8 * g.at + g.bit, st, 8 * at + bit);
    var ind;
    dict', ind := Reset(dict, reset);
    g' := Regs(at, bit, reset, ind, -1, g.n);
  }

  /** A code that is not legal is one without a string, or there is no room for another entry. */
  lemma NotLegal(d: seq<Entry>, reset: nat, cl: nat, ind: nat, prev: int, st: Decoder, code: nat)
    requires Tracks(d, reset, cl, ind, prev, st) && code != Pow2(reset) && code != Pow2(reset) + 1 &&
      (prev != -1 ==> code <= ind)
    ensures Legal(st, reset, code) <==> if prev == -1 then code < ind else ind < |d|
    ensures ind <= |d| && (ind == |d| ==> ind == 4096)
  {
    assert Look(0);
    Pow2Of12();
    Pow2Grows(st.width + 1, 12);
  }

  /**
    One pass of uncompress's loop.  The first, fifth and sixth tests are not in the code: they stand
    for what it does next without a test, a read past the input, of an entry that has not been set,
    or a write past the dictionary.
  */
  method Pass(dict: array<Entry>, reset: nat, input: seq<Byte>, out: array<Byte>, g: Regs,
              ghost goal: Outcome, ghost orig: seq<Byte>, ghost st: Decoder, ghost done: seq<Byte>)
    returns (dict': array<Entry>, g': Regs, more: bool, end: Ending, ghost st': Decoder, ghost done': seq<Byte>)
    requires Going(goal, dict[..], out[..], orig, reset, input, g, st, done) && g.at < |input|
    requires |goal.out| <= out.Length
    modifies dict, out
    ensures dict' == dict || fresh(dict')
    ensures more ==>
      Going(goal, dict'[..], out[..], orig, reset, input, g', st', done') && 8 * g'.at + g'.bit > 8 * g.at + g.bit
    ensures !more ==> goal == Outcome(done', end) && g'.n == |done'| && Filled(out[..], orig, done')
    ensures !more && end == Overflow ==> g'.ind == dict'.Length == 4096
  {
    ghost var p := 8 * g.at + g.bit;
    dict', g', more, end, st', done' := dict, g, false, Done, st, done;
    TowardsCode(goal, done, reset, input, p, st);
    if 8 * (|input| - g.at) < g.bit + g.cl + 1 {
      end := CutOff;
      return;
    }
    var code, at, bit := ReadCode(input, g.at, g.bit, g.cl + 1);
    assert code == CodeAt(input, p, st.width + 1) && 8 * at + bit == p + st.width + 1;
    var clear := Pow2(reset);
    if code == clear {
      dict', g' := ClearPass(dict, reset, input, out, g, at, bit, goal, orig, st, done);
      st', more := Start(reset), true;
    } else if code == clear + 1 {
      end := if |input| - at > 1 then EarlyStop else Done;
    } else if g.prev > -1 && g.cl < 12 && code > g.ind {
      end := BadCode;
    } else {
      NotLegal(dict[..], reset, g.cl, g.ind, g.prev, st, code);
      if g.prev == -1 && code >= g.ind {
        end := NoString;
      } else if g.prev > -1 && g.ind == dict.Length {
        end := Overflow;
      } else {
        dict', g', st', done' := StringPass(dict, reset, input, out, g, code, at, bit, goal, orig, st, done);
        more := true;
      }
    }
  }

  /**
    uncompress.  On every stream the back-pointer dictionary puts out exactly what the table of
    strings says, up to the end or to the point where the code leaves its memory; where that is
    an overflow, `ind` is the entry about to be written and `size` that of the dictionary.
  */
  method Uncompress(reset: nat, input: seq<Byte>, out: array<Byte>) returns (end: Ending, n: nat, ind: nat, size: nat)
    requires 2 <= reset <= 11
    requires |Decode(reset, input, 0, Start(reset)).out| <= out.Length
    modifies out
    ensures
      var r := Decode(reset, input, 0, Start(reset));
      end == r.end && n == |r.out| && out[..] == r.out + old(out[n..])
    ensures end == Overflow ==> ind == size == 4096
  {
    ghost var goal, orig := Decode(reset, input, 0, Start(reset)), out[..];
    var dict := new Entry[0];
    dict, ind := Reset(dict, reset);
    var g := Regs(0, 0, reset, ind, -1, 0);
    ghost var st, done := Start(reset), [];
    TowardsStart(reset, input);
    while g.at < |input|
      invariant fresh(dict) && Going(goal, dict[..], out[..], orig, reset, input, g, st, done)
      decreases 8 * |input| - 8 * g.at - g.bit
    {
      var more;
      dict, g, more, end, st, done := Pass(dict, reset, input, out, g, goal, orig, st, done);
      if !more {
        FilledEnd(out[..], orig, done);
        return end, g.n, g.ind, dict.Length;
      }
    }
    FilledEnd(out[..], orig, done);
    TowardsEnd(goal, done, reset, input, 8 * g.at + g.bit, st);
    return Done, g.n, g.ind, dict.Length;
  }
}
