/** The GIF streams that make the decoder write past its dictionary. */
module LzwOverflow {
  import opened Bytes
  import opened DiskFormat
  import opened Lzw

  /** The entries after so many string codes since the last clear code: each but the first adds one. */
  function Entries(reset: nat, count: nat): nat { Pow2(reset) + 2 + if count == 0 then 0 else count - 1 }

  /** The code width less one after one more entry, of `entries` in all. */
  function Widened(width: nat, entries: nat): nat {
    if entries == Pow2(width + 1) && width < 11 then width + 1 else width
  }

  /**
    The stream from bit p on, with `count` string codes since the last clear code and codes of
    width + 1 bits, comes to a string code when the dictionary has 4096 entries: a count of codes,
    without their strings.
  */
  predicate Overflows(reset: nat, input: seq<Byte>, p: nat, width: nat, count: nat)
    decreases 8 * |input| - p
  {
    p + width + 1 <= 8 * |input| &&
    var code, q, entries := CodeAt(input, p, width + 1), p + width + 1, Entries(reset, count);
    if code == Pow2(reset) then Overflows(reset, input, q, reset, 0)
    else if code == Pow2(reset) + 1 then false
    else if count == 0 then code < entries && Overflows(reset, input, q, width, 1)
    else code <= entries && (entries >= 4096 || Overflows(reset, input, q, Widened(width, entries + 1), count + 1))
  }

  /** The decoder's state agrees with the count. */
  ghost predicate Agrees(reset: nat, st: Decoder, count: nat) {
    Sane(st, reset) && |st.table| == Entries(reset, count) && (st.last == [] <==> count == 0)
  }

  lemma StringAgrees(reset: nat, st: Decoder, count: nat, code: nat)
    requires Agrees(reset, st, count) && Legal(st, reset, code)
    ensures Lookup(st, code) != [] && Agrees(reset, Next(st, code), count + 1)
    ensures Next(st, code).width == if count == 0 then st.width else Widened(st.width, Entries(reset, count) + 1)
  {
    NextSane(st, reset, code);
  }

  /** What one code does to the count. */
  lemma CountStep(reset: nat, input: seq<Byte>, p: nat, st: Decoder, count: nat, code: nat, q: nat)
    requires Agrees(reset, st, count) && q == p + st.width + 1 <= 8 * |input| && code == CodeAt(input, p, st.width + 1)
    requires code != Pow2(reset)
    ensures Legal(st, reset, code) ==>
      (Overflows(reset, input, p, st.width, count) <==>
         Overflows(reset, input, q, if count == 0 then st.width
           else Widened(st.width, Entries(reset, count) + 1), count + 1))
    ensures !Legal(st, reset, code) ==> (Overflows(reset, input, p, st.width, count) <==> Full(st, reset, code))
  {
  }

  /** A code for which there is no room. */
  predicate Full(st: Decoder, reset: nat, code: nat) {
    code != Pow2(reset) + 1 && st.last != [] && code <= |st.table| && |st.table| >= 4096
  }

  lemma DecodeEnds(reset: nat, input: seq<Byte>, p: nat, st: Decoder, code: nat)
    requires Sane(st, reset) && p + st.width + 1 <= 8 * |input| && code == CodeAt(input, p, st.width + 1)
    requires code != Pow2(reset) && !Legal(st, reset, code)
    ensures Decode(reset, input, p, st).end == Overflow <==> Full(st, reset, code)
  {
  }

  lemma ClearStep(reset: nat, input: seq<Byte>, p: nat, st: Decoder, count: nat)
    requires Sane(st, reset) && p + st.width + 1 <= 8 * |input| && CodeAt(input, p, st.width + 1) == Pow2(reset)
    ensures Decode(reset, input, p, st) == Decode(reset, input, p + st.width + 1, Start(reset))
    ensures Overflows(reset, input, p, st.width, count) <==> Overflows(reset, input, p + st.width + 1, reset, 0)
  {
  }

  lemma CutStep(reset: nat, input: seq<Byte>, p: nat, st: Decoder, count: nat)
    requires Sane(st, reset) && p + st.width + 1 > 8 * |input|
    ensures Decode(reset, input, p, st).end != Overflow && !Overflows(reset, input, p, st.width, count)
  {
  }

  lemma EndStep(reset: nat, input: seq<Byte>, p: nat, st: Decoder, count: nat, code: nat)
    requires Agrees(reset, st, count) && p + st.width + 1 <= 8 * |input| && code == CodeAt(input, p, st.width + 1)
    requires code != Pow2(reset) && !Legal(st, reset, code)
    ensures Decode(reset, input, p, st).end == Overflow <==> Overflows(reset, input, p, st.width, count)
  {
    DecodeEnds(reset, input, p, st, code);
    CountStep(reset, input, p, st, count, code, p + st.width + 1);
  }

  lemma StringStep(reset: nat, input: seq<Byte>, p: nat, st: Decoder, count: nat, code: nat, q: nat)
    returns (next: Decoder)
    requires Agrees(reset, st, count) && q == p + st.width + 1 <= 8 * |input| && code == CodeAt(input, p, st.width + 1)
    requires code != Pow2(reset) && Legal(st, reset, code)
    ensures Agrees(reset, next, count + 1) && Decode(reset, input, p, st).end == Decode(reset, input, q, next).end
    ensures Overflows(reset, input, p, st.width, count) <==> Overflows(reset, input, q, next.width, count + 1)
  {
    CountStep(reset, input, p, st, count, code, q);
    DecodeString(reset, input, p, st, code, q);
    StringAgrees(reset, st, count, code);
    next := Next(st, code);
  }

  /** Decoding ends in an overflow exactly if the count says so. */
  lemma {:induction false} OverflowExactly(reset: nat, input: seq<Byte>, p: nat, st: Decoder, count: nat)
    requires Agrees(reset, st, count)
    ensures Decode(reset, input, p, st).end == Overflow <==> Overflows(reset, input, p, st.width, count)
    decreases 8 * |input| - p
  {
    if p + st.width + 1 > 8 * |input| {
      CutStep(reset, input, p, st, count);
      return;
    }
    var code, q := CodeAt(input, p, st.width + 1), p + st.width + 1;
    if code == Pow2(reset) {
      ClearStep(reset, input, p, st, count);
      OverflowExactly(reset, input, q, Start(reset), 0);
    } else if Legal(st, reset, code) {
      var next := StringStep(reset, input, p, st, count, code, q);
      OverflowExactly(reset, input, q, next, count + 1);
    } else {
      EndStep(reset, input, p, st, count, code);
    }
  }

  lemma {:induction false} ZeroCode(input: seq<Byte>, p: nat, n: nat)
    requires p + n <= 8 * |input| && forall k :: 0 <= k < |input| ==> input[k] == 0
    ensures CodeAt(input, p, n) == 0
  {
    if n > 0 {
      ZeroCode(input, p, n - 1);
      NoBits((p + n - 1) % 8);
    }
  }

  lemma DecodeStuck(width: nat, input: seq<Byte>, p: nat, st: Decoder)
    requires Sane(st, width) && p + st.width + 1 <= 8 * |input| && st.last != [] && |st.table| == 4096
    requires CodeAt(input, p, st.width + 1) == 0
    ensures Decode(width, input, p, st).end == Overflow
  {
    Pow2Grows(0, width);
  }

  lemma NextGrows(st: Decoder, width: nat)
    requires Sane(st, width) && st.last != [] && st.width <= 11 && |st.table| < 4096
    ensures Legal(st, width, 0) && Lookup(st, 0) != []
    ensures var n := Next(st, 0); Sane(n, width) && n.last != [] && n.width <= 11 && |n.table| == |st.table| + 1
  {
    Pow2Grows(0, width);
    NextSane(st, width, 0);
  }

  /** The code 0, with room for an entry, comes to decoding the rest with one entry more. */
  lemma DecodeZero(width: nat, input: seq<Byte>, p: nat, st: Decoder) returns (q: nat, next: Decoder)
    requires Sane(st, width) && st.last != [] && st.width <= 11 && |st.table| < 4096
    requires p + st.width + 1 <= 8 * |input| && CodeAt(input, p, st.width + 1) == 0
    ensures q <= p + 12 && Sane(next, width) && next.last != [] && next.width <= 11 && |next.table| == |st.table| + 1
    ensures Decode(width, input, p, st).end == Decode(width, input, q, next).end
  {
    NextGrows(st, width);
    q, next := p + st.width + 1, Next(st, 0);
    DecodeString(width, input, p, st, 0, q);
  }

  /** Zeros are the code 0 again and again: each adds an entry until there is no room. */
  lemma {:induction false} ZerosOverflow(width: nat, input: seq<Byte>, p: nat, st: Decoder)
    requires forall k :: 0 <= k < |input| ==> input[k] == 0
    requires Sane(st, width) && st.width <= 11 && st.last != [] && |st.table| <= 4096 &&
      p + 12 * (4097 - |st.table|) <= 8 * |input|
    ensures Decode(width, input, p, st).end == Overflow
    decreases 4096 - |st.table|
  {
    ZeroCode(input, p, st.width + 1);
    if |st.table| == 4096 {
      DecodeStuck(width, input, p, st);
    } else {
      var q, next := DecodeZero(width, input, p, st);
      ZerosOverflow(width, input, q, next);
    }
  }

  /** Without a clear code in time, the dictionary overflows: 6144 zero bytes do it at every code length. */
  lemma OverflowHappens(width: nat, input: seq<Byte>)
    requires 2 <= width <= 11 && |input| >= 6144 && forall k :: 0 <= k < |input| ==> input[k] == 0
    ensures Decode(width, input, 0, Start(width)).end == Overflow
  {
    var st := Start(width);
    assert Pow2(width) == 2 * Pow2(width - 1) == 4 * Pow2(width - 2);
    Pow2Grows(0, width - 2);
    Pow2Grows(width, 11);
    assert Pow2(12) == 2 * Pow2(11);
    Pow2Of12();
    ZeroCode(input, 0, width + 1);
    NextSane(st, width, 0);
    ZerosOverflow(width, input, width + 1, Next(st, 0));
    DecodeString(width, input, 0, st, 0, width + 1);
  }
}
