/** Bytes, disk blocks and the little-endian 32-bit words stored in them. */
module Bytes {

  const BSIZE := 1024

  type Byte = x: int | 0 <= x < 256

  /** The data of one disk block. */
  datatype Block = Block(bytes: seq<Byte>) {
    predicate Full() { |bytes| == BSIZE }
  }

  const TWO32 := 0x1_0000_0000

  function ZeroBlock(): (z: Block)
    ensures z.Full() && forall k :: 0 <= k < BSIZE ==> z.bytes[k] == 0
  {
    Block(seq(BSIZE, _ => 0))
  }

  /** The unsigned word held in bytes off..off+4 of s, least significant byte first. */
  function Word(s: seq<Byte>, off: nat): (w: int)
    requires off + 4 <= |s|
    ensures 0 <= w < TWO32
  {
    s[off] as int + 0x100 * (s[off + 1] as int) + 0x1_0000 * (s[off + 2] as int) + 0x100_0000 * (s[off + 3] as int)
  }

  function WordBytes(w: int): (r: seq<Byte>)
    requires 0 <= w < TWO32
    ensures |r| == 4 && Word(r, 0) == w
  {
    var w1 := w / 0x100;
    var w2 := w1 / 0x100;
    [w % 0x100, w1 % 0x100, w2 % 0x100, w2 / 0x100]
  }

  /** s with the word w stored in bytes off..off+4. */
  function PutWord(s: seq<Byte>, off: nat, w: int): (r: seq<Byte>)
    requires off + 4 <= |s| && 0 <= w < TWO32
    ensures |r| == |s|
    ensures forall k :: 0 <= k < |s| && !(off <= k < off + 4) ==> r[k] == s[k]
    ensures Word(r, off) == w
  {
    var b := WordBytes(w);
    s[off := b[0]][off + 1 := b[1]][off + 2 := b[2]][off + 3 := b[3]]
  }

  function Max(a: int, b: int): int { if a > b then a else b }
}
