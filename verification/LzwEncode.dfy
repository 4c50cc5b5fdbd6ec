/**
  A GIF encoder on its own, after Appendix F of the GIF89a specification, and the proof that the
  decoder of gif.c gives back every string that it encodes.
*/
module LzwEncode {
  import opened Bytes
  import opened DiskFormat
  import L = Lzw

  // --- The encoder ---

  /** The strings of the codes at first: code b stands for the byte b; there are a clear and a stop code. */
  function Alphabet(clear: nat): (d: seq<seq<Byte>>)
    ensures |d| == clear + 2
  {
    seq(clear, c requires 0 <= c => if c < 256 then [c] else []) + [[], []]
  }

  /** Code c is one for the beginning of s. */
  predicate Fits(d: seq<seq<Byte>>, s: seq<Byte>, c: nat) { c < |d| && d[c] != [] && d[c] <= s }

  /** Greedy: of the codes below n the one for the longest beginning of s, |d| if there is none. */
  function Match(d: seq<seq<Byte>>, s: seq<Byte>, n: nat): (c: nat)
    requires n <= |d|
    ensures c == |d| || (c < n && Fits(d, s, c))
    ensures forall e :: 0 <= e < n && Fits(d, s, e) ==> c < |d| && |d[e]| <= |d[c]|
  {
    if n == 0 then |d|
    else
      var c := Match(d, s, n - 1);
      if Fits(d, s, n - 1) && (c == |d| || |d[n - 1]| > |d[c]|) then n - 1 else c
  }

  /** The bits that a code takes while there are codes below size: at least n, as many as are needed, at most 12. */
  function Bits(n: nat, size: nat): nat
    decreases 12 - n
  {
    if size <= Pow2(n) || n >= 12 then n else Bits(n + 1, size)
  }

  datatype Sent = Sent(code: nat, bits: nat)

  /** Every byte is below the clear code. */
  predicate Over(s: seq<Byte>, clear: nat) { forall k :: 0 <= k < |s| ==> s[k] < clear }

  /**
    The codes for s with the dictionary d: at each step the code for the longest beginning, after which that
    beginning with the next byte gets the next code, if there is a next byte.  A dictionary of more than 4096
    strings is cleared.
  */
  function Codes(width: nat, d: seq<seq<Byte>>, s: seq<Byte>): seq<Sent>
    requires width <= 11
    decreases |s|, |d|
  {
    if s == [] then [Sent(Pow2(width) + 1, Bits(width + 1, |d|))]
    else if |d| > 4096 then
      TooLarge(width, |d|);
      [Sent(Pow2(width), 12)] + Codes(width, Alphabet(Pow2(width)), s)
    else
      var c := Match(d, s, |d|);
      if c == |d| then []
      else
        var n := |d[c]|;
        [Sent(c, Bits(width + 1, |d|))] + Codes(width, d + [if n < |s| then s[..n + 1] else s], s[n..])
  }

  lemma TooLarge(width: nat, size: nat)
    requires width < 12 && size > 4096
    ensures Pow2(width) + 2 < size
  {
    Pow2Grows(width, 11);
    L.Pow2Of12();
    assert Pow2(12) == 2 * Pow2(11);
  }

  /** The codes for s, with a clear code in front and a stop code at the end. */
  function Encode(width: nat, s: seq<Byte>): seq<Sent>
    requires width <= 11
  {
    [Sent(Pow2(width), width + 1)] + Codes(width, Alphabet(Pow2(width)), s)
  }

  // --- Packing the codes, least significant bit first ---

  function CodeBits(code: nat, n: nat): (b: seq<bool>)
    ensures |b| == n
  {
    if n == 0 then [] else [code % 2 == 1] + CodeBits(code / 2, n - 1)
  }

  function AllBits(codes: seq<Sent>): seq<bool> {
    if codes == [] then [] else CodeBits(codes[0].code, codes[0].bits) + AllBits(codes[1..])
  }

  function Value(b: seq<bool>): nat {
    if b == [] then 0 else (if b[0] then 1 else 0) + 2 * Value(b[1..])
  }

  lemma {:induction false} ValueBound(b: seq<bool>)
    ensures Value(b) < Pow2(|b|)
  {
    if b != [] {
      ValueBound(b[1..]);
    }
  }

  /** Eight bits to a byte, the last byte filled up with zeros. */
  function Packed(b: seq<bool>): (r: seq<Byte>)
    ensures |b| <= 8 * |r| < |b| + 8
  {
    if b == [] then []
    else
      var n := if |b| < 8 then |b| else 8;
      ValueBound(b[..n]);
      Pow2Grows(n, 8);
      Pow2Of8();
      [Value(b[..n])] + Packed(b[n..])
  }

  function Pack(codes: seq<Sent>): seq<Byte> { Packed(AllBits(codes)) }

  // --- Reading a packed code ---

  lemma {:induction false} BitOfValue(b: seq<bool>, k: nat)
    requires k < |b|
    ensures Bit(Value(b), k) == b[k]
  {
    if k > 0 {
      BitOfValue(b[1..], k - 1);
    }
  }

  lemma PackedMore(b: seq<bool>, r: seq<Byte>)
    requires |b| >= 8 && r == Packed(b[8..])
    ensures Packed(b)[0] == Value(b[..8]) && Packed(b)[1..] == r && |Packed(b)| == 1 + |r|
  {
  }

  lemma NextByte(p: nat)
    requires p >= 8
    ensures p / 8 == (p - 8) / 8 + 1 && p % 8 == (p - 8) % 8
  {
  }

  lemma InputLater(s: seq<Byte>, p: nat)
    requires 8 <= p < 8 * |s|
    ensures L.InputBit(s, p) == L.InputBit(s[1..], p - 8)
  {
    NextByte(p);
    assert s[p / 8] == s[1..][(p - 8) / 8];
  }

  lemma {:induction false} PackedAt(b: seq<bool>, p: nat)
    requires p < |b|
    ensures L.InputBit(Packed(b), p) == b[p]
    decreases |b|
  {
    if p < 8 {
      PackedFirst(b, p);
    } else {
      PackedMore(b, Packed(b[8..]));
      PackedAt(b[8..], p - 8);
      InputLater(Packed(b), p);
    }
  }

  lemma PackedHead(b: seq<bool>, n: nat)
    requires b != [] && n == if |b| < 8 then |b| else 8
    ensures |Packed(b)| > 0 && Packed(b)[0] == Value(b[..n])
  {
  }

  lemma FirstBits(s: seq<Byte>, p: nat)
    requires s != [] && p < 8
    ensures L.InputBit(s, p) == Bit(s[0], p)
  {
    assert p / 8 == 0 && p % 8 == p;
  }

  lemma PackedFirst(b: seq<bool>, p: nat)
    requires p < |b| && p < 8
    ensures L.InputBit(Packed(b), p) == b[p]
  {
    var n := if |b| < 8 then |b| else 8;
    PackedHead(b, n);
    FirstBits(Packed(b), p);
    BitOfValue(b[..n], p);
  }

  lemma {:induction false} ValueMore(b: seq<bool>, x: bool)
    ensures Value(b + [x]) == Value(b) + if x then Pow2(|b|) else 0
  {
    if b == [] {
      assert ([] + [x])[1..] == [];
    } else {
      ValueMore(b[1..], x);
      assert (b + [x])[1..] == b[1..] + [x] && (b + [x])[0] == b[0];
    }
  }

  lemma LastOf(b: seq<bool>, p: nat, n: nat)
    requires 0 < n && p + n <= |b|
    ensures b[p..p + n - 1] + [b[p + n - 1]] == b[p..p + n] && |b[p..p + n - 1]| == n - 1
  {
  }

  lemma {:induction false} CodeAtValue(b: seq<bool>, p: nat, n: nat)
    requires p + n <= |b|
    ensures L.CodeAt(Packed(b), p, n) == Value(b[p..p + n])
  {
    if n > 0 {
      CodeAtValue(b, p, n - 1);
      PackedAt(b, p + n - 1);
      ValueMore(b[p..p + n - 1], b[p + n - 1]);
      LastOf(b, p, n);
    }
  }

  lemma {:induction false} ValueOfCode(code: nat, n: nat)
    requires code < Pow2(n)
    ensures Value(CodeBits(code, n)) == code
  {
    if n > 0 {
      ValueOfCode(code / 2, n - 1);
    }
  }

  /** Where the packed codes go on with `first`, that code is read, and behind it they go on with the others. */
  lemma CodeRead(b: seq<bool>, p: nat, first: Sent, rest: seq<Sent>)
    requires p <= |b| && b[p..] == AllBits([first] + rest) && first.code < Pow2(first.bits)
    ensures p + first.bits <= |b| && L.CodeAt(Packed(b), p, first.bits) == first.code
    ensures b[p + first.bits..] == AllBits(rest)
  {
    var n, c := first.bits, CodeBits(first.code, first.bits);
    assert ([first] + rest)[1..] == rest;
    assert b[p..] == c + AllBits(rest);
    assert b[p..][..n] == c && b[p..][n..] == AllBits(rest);
    assert b[p..p + n] == b[p..][..n];
    assert b[p + n..] == b[p..][n..];
    CodeAtValue(b, p, n);
    ValueOfCode(first.code, n);
  }

  // --- The decoder follows the encoder ---

  /** The decoder's table has the encoder's strings; what the encoder never sends may differ. */
  ghost predicate SameStrings(d: seq<seq<Byte>>, table: seq<seq<Byte>>) {
    |table| <= |d| && forall c :: 0 <= c < |table| && d[c] != [] ==> table[c] == d[c]
  }

  /**
    The encoder, with the dictionary d and s still to send, and the decoder, which is an entry behind: it will learn
    the next byte of the encoder's last entry from the next string.
  */
  ghost predicate InStep(width: nat, d: seq<seq<Byte>>, s: seq<Byte>, st: L.Decoder) {
    && 2 <= width <= 11 && Over(s, Pow2(width)) && L.Sane(st, width) && SameStrings(d, st.table) && Lettered(width, d)
    && st.width + 1 == Bits(width + 1, |d|) && |d| <= 4097
    && if st.last == [] then |d| == |st.table| <= 4096 && st == L.Start(width) && d == Alphabet(Pow2(width))
       else |d| == |st.table| + 1 && (s != [] ==> d[|st.table|] == st.last + [s[0]])
  }

  /** The dictionary has every byte, and no strings for the clear and the stop code. */
  ghost predicate Lettered(width: nat, d: seq<seq<Byte>>) {
    && |d| >= Pow2(width) + 2 && d[Pow2(width)] == d[Pow2(width) + 1] == []
    && forall b :: 0 <= b < 256 && b < Pow2(width) ==> d[b] == [b]
  }

  /** There is always a code to send. */
  lemma AlwaysMatch(width: nat, d: seq<seq<Byte>>, s: seq<Byte>)
    requires Lettered(width, d) && Over(s, Pow2(width)) && s != []
    ensures var c := Match(d, s, |d|); Fits(d, s, c) && c != Pow2(width) && c != Pow2(width) + 1
  {
    assert s[0] < Pow2(width) && d[s[0]] == [s[0]] && [s[0]] <= s;
    assert Fits(d, s, s[0]);
  }

  lemma {:induction false} BitsRange(n: nat, size: nat)
    requires n <= 12
    ensures n <= Bits(n, size) <= 12 && (Bits(n, size) < 12 ==> size <= Pow2(Bits(n, size)))
    ensures size <= 4096 ==> size <= Pow2(Bits(n, size))
    decreases 12 - n
  {
    L.Pow2Of12();
    if size > Pow2(n) && n < 12 {
      BitsRange(n + 1, size);
    }
  }

  /** One more code takes another bit exactly if there are as many as the bits can tell apart. */
  lemma {:induction false} BitsMore(n: nat, size: nat)
    requires n <= 12
    ensures Bits(n, size + 1) == if size == Pow2(Bits(n, size)) && Bits(n, size) < 12 then Bits(n, size) + 1
      else Bits(n, size)
    decreases 12 - n
  {
    if n < 12 {
      if size > Pow2(n) {
        BitsMore(n + 1, size);
      } else if size == Pow2(n) {
        assert size + 1 <= Pow2(n + 1);
      }
    }
  }

  /** The code that the encoder sends is legal for the decoder, which finds the same string. */
  lemma SameString(width: nat, d: seq<seq<Byte>>, s: seq<Byte>, st: L.Decoder, c: nat)
    requires InStep(width, d, s, st) && s != [] && |d| <= 4096 && Fits(d, s, c) && c != Pow2(width) &&
      c != Pow2(width) + 1
    ensures L.Legal(st, width, c) && L.Lookup(st, c) == d[c]
  {
    if st.last != [] && c == |st.table| {
      assert d[c][0] == s[0] && st.last[0] == d[c][0];
    }
  }

  /** The dictionary after the code for s[..n]. */
  function Grown(d: seq<seq<Byte>>, s: seq<Byte>, n: nat): seq<seq<Byte>>
    requires n <= |s|
  {
    d + [if n < |s| then s[..n + 1] else s]
  }

  /** The width that the decoder reads with next. */
  lemma SameWidth(width: nat, d: seq<seq<Byte>>, s: seq<Byte>, st: L.Decoder, c: nat)
    requires InStep(width, d, s, st) && |d| <= 4096 && L.Legal(st, width, c) && L.Lookup(st, c) != []
    ensures L.Next(st, c).width + 1 == Bits(width + 1, |d| + 1)
  {
    if st.last == [] {
      StartBits(width);
    } else {
      BitsMore(width + 1, |d|);
      NextWidth(width, st, c);
    }
  }

  lemma NextWidth(width: nat, st: L.Decoder, c: nat)
    requires st.last != [] && L.Sane(st, width) && L.Legal(st, width, c) && L.Lookup(st, c) != []
    ensures L.Next(st, c).width == if |st.table| + 1 == Pow2(st.width + 1) && st.width < 11 then st.width + 1
      else st.width
  {
  }

  /** The tables after the string d[c]. */
  lemma SameTables(width: nat, d: seq<seq<Byte>>, s: seq<Byte>, st: L.Decoder, c: nat)
    requires InStep(width, d, s, st) && s != [] && |d| <= 4096 && Fits(d, s, c) && L.Legal(st, width, c) &&
      L.Lookup(st, c) == d[c]
    ensures var next := L.Next(st, c);
      && SameStrings(Grown(d, s, |d[c]|), next.table) && next.last == d[c] && |d| == |next.table|
  {
    if st.last != [] {
      assert d[c][0] == s[0];
      assert L.Next(st, c).table == st.table + [st.last + [s[0]]];
    }
  }

  lemma StaysInStep(width: nat, d: seq<seq<Byte>>, s: seq<Byte>, st: L.Decoder, c: nat)
    requires InStep(width, d, s, st) && s != [] && |d| <= 4096 && Fits(d, s, c) && L.Legal(st, width, c) &&
      L.Lookup(st, c) == d[c]
    ensures InStep(width, Grown(d, s, |d[c]|), s[|d[c]|..], L.Next(st, c))
  {
    var n := |d[c]|;
    SameWidth(width, d, s, st, c);
    SameTables(width, d, s, st, c);
    L.NextSane(st, width, c);
    assert n < |s| ==> s[..n + 1] == d[c] + [s[n..][0]];
    assert forall k :: 0 <= k < |s[n..]| ==> s[n..][k] == s[n + k];
  }

  lemma StartsInStep(width: nat, s: seq<Byte>)
    requires 2 <= width <= 11 && Over(s, Pow2(width))
    ensures InStep(width, Alphabet(Pow2(width)), s, L.Start(width))
  {
    StartBits(width);
    StartStrings(width);
    TooSmall(width);
  }

  lemma StartBits(width: nat)
    requires 2 <= width
    ensures Bits(width + 1, Pow2(width) + 2) == Bits(width + 1, Pow2(width) + 3) == width + 1
  {
    assert Pow2(width + 1) == 2 * Pow2(width) && Pow2(width) == 2 * Pow2(width - 1);
    Pow2Grows(1, width - 1);
    assert Pow2(1) == 2;
  }

  lemma StartStrings(width: nat)
    ensures L.Sane(L.Start(width), width) && Lettered(width, Alphabet(Pow2(width)))
    ensures SameStrings(Alphabet(Pow2(width)), L.Start(width).table)
  {
    RootStrings(Pow2(width));
  }

  lemma RootStrings(clear: nat)
    ensures forall c :: 0 <= c < clear ==>
      Alphabet(clear)[c] == (if c < 256 then [c] else []) && L.Roots(clear)[c] == [c % 256]
    ensures SameStrings(Alphabet(clear), L.Roots(clear))
    ensures Alphabet(clear)[clear] == Alphabet(clear)[clear + 1] == []
  {
  }

  lemma TooSmall(width: nat)
    requires width <= 11
    ensures Pow2(width) + 2 <= 4096
  {
    Pow2Grows(width, 11);
    L.Pow2Of12();
    assert Pow2(12) == 2 * Pow2(11);
  }

  /** The stop code comes last. */
  lemma StopRead(width: nat, d: seq<seq<Byte>>, st: L.Decoder, b: seq<bool>, p: nat)
    requires InStep(width, d, [], st) && p <= |b| && b[p..] == AllBits(Codes(width, d, []))
    ensures L.Decode(width, Packed(b), p, st) == L.Outcome([], L.Done)
  {
    var n := Bits(width + 1, |d|);
    BitsRange(width + 1, |d|);
    Pow2Grows(width + 1, n);
    Pow2Grows(1, width);
    assert Pow2(width + 1) == 2 * Pow2(width) && Pow2(1) == 2;
    assert Codes(width, d, []) == [Sent(Pow2(width) + 1, n)] + [];
    CodeRead(b, p, Sent(Pow2(width) + 1, n), []);
    assert p + n == |b|;
    DecodeStop(width, Packed(b), p, st);
  }

  /** A clear code starts both over. */
  lemma ClearRead(width: nat, d: seq<seq<Byte>>, s: seq<Byte>, st: L.Decoder, b: seq<bool>, p: nat)
    requires InStep(width, d, s, st) && s != [] && |d| > 4096 && p <= |b| && b[p..] == AllBits(Codes(width, d, s))
    ensures p + 12 <= |b| && b[p + 12..] == AllBits(Codes(width, Alphabet(Pow2(width)), s))
    ensures L.Decode(width, Packed(b), p, st) == L.Decode(width, Packed(b), p + 12, L.Start(width))
  {
    TwelveBits(width, |d|);
    CodeRead(b, p, Sent(Pow2(width), 12), Codes(width, Alphabet(Pow2(width)), s));
    DecodeClear(width, Packed(b), p, st);
  }

  lemma TwelveBits(width: nat, size: nat)
    requires width <= 11 && size > 4096
    ensures Bits(width + 1, size) == 12 && Pow2(width) < Pow2(12)
  {
    L.Pow2Of12();
    TooSmall(width);
    BitsRange(width + 1, size);
    Pow2Grows(Bits(width + 1, size), 12);
  }

  lemma DecodeClear(width: nat, input: seq<Byte>, p: nat, st: L.Decoder)
    requires L.Sane(st, width) && p + st.width + 1 <= 8 * |input|
    requires L.CodeAt(input, p, st.width + 1) == Pow2(width)
    ensures L.Sane(L.Start(width), width)
    ensures L.Decode(width, input, p, st) == L.Decode(width, input, p + st.width + 1, L.Start(width))
  {
    StartStrings(width);
  }

  lemma DecodeStop(width: nat, input: seq<Byte>, p: nat, st: L.Decoder)
    requires L.Sane(st, width) && p + st.width + 1 <= 8 * |input| < p + st.width + 9
    requires L.CodeAt(input, p, st.width + 1) == Pow2(width) + 1
    ensures L.Decode(width, input, p, st) == L.Outcome([], L.Done)
  {
  }

  /** A string code is read as the encoder meant it. */
  lemma StringRead(width: nat, d: seq<seq<Byte>>, s: seq<Byte>, st: L.Decoder, b: seq<bool>, p: nat) returns (c: nat)
    requires InStep(width, d, s, st) && s != [] && |d| <= 4096 && p <= |b| && b[p..] == AllBits(Codes(width, d, s))
    ensures Fits(d, s, c) && L.Legal(st, width, c) && L.Lookup(st, c) == d[c] && p + st.width + 1 <= |b|
    ensures L.CodeAt(Packed(b), p, st.width + 1) == c
    ensures b[p + st.width + 1..] == AllBits(Codes(width, Grown(d, s, |d[c]|), s[|d[c]|..]))
  {
    AlwaysMatch(width, d, s);
    c := Match(d, s, |d|);
    SameString(width, d, s, st, c);
    var n := Bits(width + 1, |d|);
    BitsRange(width + 1, |d|);
    CodeRead(b, p, Sent(c, n), Codes(width, Grown(d, s, |d[c]|), s[|d[c]|..]));
  }

  lemma Whole(s: seq<Byte>, t: seq<Byte>)
    requires t <= s
    ensures t + s[|t|..] == s
  {
  }

  /** From wherever the two are in step, the decoder puts out what the encoder has still to send. */
  lemma {:induction false} Decodes(width: nat, d: seq<seq<Byte>>, s: seq<Byte>, st: L.Decoder, b: seq<bool>, p: nat)
    requires InStep(width, d, s, st) && p <= |b| && b[p..] == AllBits(Codes(width, d, s))
    ensures L.Decode(width, Packed(b), p, st) == L.Outcome(s, L.Done)
    decreases |s|, |d|
  {
    if s == [] {
      StopRead(width, d, st, b, p);
    } else if |d| > 4096 {
      ClearRead(width, d, s, st, b, p);
      StartsInStep(width, s);
      TooLarge(width, |d|);
      Decodes(width, Alphabet(Pow2(width)), s, L.Start(width), b, p + 12);
    } else {
      var c := StringRead(width, d, s, st, b, p);
      var q := p + st.width + 1;
      StaysInStep(width, d, s, st, c);
      Decodes(width, Grown(d, s, |d[c]|), s[|d[c]|..], L.Next(st, c), b, q);
      L.DecodeString(width, Packed(b), p, st, c, q);
      Whole(s, d[c]);
    }
  }

  /** Decoding gives back every string, of any length: the encoder clears its dictionary before it overflows. */
  lemma RoundTrip(width: nat, s: seq<Byte>)
    requires 2 <= width <= 11 && Over(s, Pow2(width))
    ensures L.Decode(width, Pack(Encode(width, s)), 0, L.Start(width)) == L.Outcome(s, L.Done)
  {
    var b, st, rest := AllBits(Encode(width, s)), L.Start(width), Codes(width, Alphabet(Pow2(width)), s);
    StartsInStep(width, s);
    assert b[0..] == b;
    Pow2Grows(0, width);
    assert Pow2(width + 1) == 2 * Pow2(width);
    CodeRead(b, 0, Sent(Pow2(width), width + 1), rest);
    DecodeClear(width, Packed(b), 0, st);
    Decodes(width, Alphabet(Pow2(width)), s, st, b, width + 1);
  }
}
