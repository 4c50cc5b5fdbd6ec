/**
  The on-disk format of include/fs.h: where the inodes, the free bitmap, the data
  blocks and the log lie, and how bits, words and inodes are stored in the bytes of
  a block.  The kernel (kernel/fs.c) and the image builder (tools/mkfs.c) share it.
*/
module DiskFormat {
  import opened Bytes

  const NDIRECT := 12
  const NINDIRECT := 256
  const MAXFILE := 268
  const IPB := 16
  const BPB := 8192
  const DINODE := 64

  datatype Super = Super(size: nat, ninodes: nat, nlog: nat) {
    function BitBlocks(): nat { size / BPB + 1 }
    /** First data block. */
    function Start(): nat { ninodes / IPB + 3 + BitBlocks() }
    /** First block of the log, just past the data blocks. */
    function LogStart(): int { size - nlog }
    function BBlock(b: nat): nat { b / BPB + ninodes / IPB + 3 }
    predicate Data(b: int) { Start() <= b < LogStart() }
    /** The regions do not overlap and block numbers fit a word. */
    predicate Good() { Start() <= LogStart() && 0 < nlog && size < TWO32 }
  }

  function IBlock(inum: nat): nat { inum / IPB + 2 }

  type Disk = seq<Block>

  ghost predicate Whole(sb: Super, d: Disk) {
    |d| == sb.size && forall b :: 0 <= b < |d| ==> d[b].Full()
  }

  // --- Bits of a byte, and of the bitmap ---

  /** x & (1 << k) is not zero. */
  predicate Bit(x: nat, k: nat) {
    if k == 0 then x % 2 == 1 else Bit(x / 2, k - 1)
  }

  lemma {:induction false} NoBits(k: nat)
    ensures !Bit(0, k)
  {
    if k > 0 {
      NoBits(k - 1);
    }
  }

  /** x | (1 << k) if v, and x & ~(1 << k) if not. */
  function PutBit(x: nat, k: nat, v: bool): nat {
    if k == 0 then x - x % 2 + (if v then 1 else 0) else 2 * PutBit(x / 2, k - 1, v) + x % 2
  }

  function Pow2(n: nat): nat {
    if n == 0 then 1 else 2 * Pow2(n - 1)
  }

  lemma {:induction false} Pow2Grows(m: nat, n: nat)
    requires m <= n
    ensures Pow2(m) <= Pow2(n)
  {
    if m < n {
      Pow2Grows(m, n - 1);
    }
  }

  lemma {:induction false} PutBitBound(x: nat, k: nat, v: bool, n: nat)
    requires x < Pow2(n) && k < n
    ensures PutBit(x, k, v) < Pow2(n)
  {
    var half := Pow2(n - 1);
    assert Pow2(n) == 2 * half && x / 2 < half;
    if k > 0 {
      PutBitBound(x / 2, k - 1, v, n - 1);
    }
  }

  lemma {:induction false} PutBitAt(x: nat, k: nat, v: bool, j: nat)
    ensures Bit(PutBit(x, k, v), j) == if j == k then v else Bit(x, j)
  {
    if k > 0 && j > 0 {
      PutBitAt(x / 2, k - 1, v, j - 1);
    }
  }

  lemma Pow2Of8()
    ensures Pow2(8) == 256
  {
    assert Pow2(4) == 16;
  }

  /** Bit i of a bitmap block. */
  predicate BitAt(s: seq<Byte>, i: nat)
    requires i < 8 * |s|
  {
    Bit(s[i / 8], i % 8)
  }

  function PutBitIn(s: seq<Byte>, i: nat, v: bool): (r: seq<Byte>)
    requires i < 8 * |s|
    ensures |r| == |s|
  {
    Pow2Of8();
    PutBitBound(s[i / 8], i % 8, v, 8);
    s[i / 8 := PutBit(s[i / 8], i % 8, v)]
  }

  /** Storing one bit leaves every other bit of the block alone. */
  lemma PutBitInAt(s: seq<Byte>, i: nat, v: bool, j: nat)
    requires i < 8 * |s| && j < 8 * |s|
    ensures BitAt(PutBitIn(s, i, v), j) == if j == i then v else BitAt(s, j)
  {
    PutBitAt(s[i / 8], i % 8, v, j % 8);
  }

  /** The bit of block b in the free bitmap. */
  ghost predicate Used(sb: Super, d: Disk, b: nat)
    requires Whole(sb, d) && b < sb.size && sb.BBlock(b) < sb.size
  {
    BitAt(d[sb.BBlock(b)].bytes, b % BPB)
  }

  /** d with the bit of block b stored. */
  ghost function PutUsed(sb: Super, d: Disk, b: nat, v: bool): (r: Disk)
    requires Whole(sb, d) && b < sb.size && sb.BBlock(b) < sb.size
    ensures Whole(sb, r)
  {
    d[sb.BBlock(b) := Block(PutBitIn(d[sb.BBlock(b)].bytes, b % BPB, v))]
  }

  lemma PutUsedAt(sb: Super, d: Disk, b: nat, v: bool, c: nat)
    requires Whole(sb, d) && b < sb.size && sb.BBlock(b) < sb.size && c < sb.size && sb.BBlock(c) < sb.size
    ensures Used(sb, PutUsed(sb, d, b, v), c) == if c == b then v else Used(sb, d, c)
  {
    if sb.BBlock(b) == sb.BBlock(c) {
      PutBitInAt(d[sb.BBlock(b)].bytes, b % BPB, v, c % BPB);
    }
  }

  // --- Inodes ---

  /** An inode, in memory or on disk: its type, link count, size and block addresses. */
  datatype Inode = Inode(itype: int, major: int, minor: int, nlink: int, size: int, addrs: seq<int>) {
    predicate Stored() {
      && 0 <= itype < 0x1_0000 && 0 <= major < 0x1_0000 && 0 <= minor < 0x1_0000 && 0 <= nlink < 0x1_0000
      && 0 <= size < TWO32 && |addrs| == NDIRECT + 1
      && forall k :: 0 <= k < |addrs| ==> 0 <= addrs[k] < TWO32
    }
  }

  function Half(s: seq<Byte>, off: nat): (w: int)
    requires off + 2 <= |s|
    ensures 0 <= w < 0x1_0000
  {
    s[off] as int + 0x100 * (s[off + 1] as int)
  }

  function PutHalf(s: seq<Byte>, off: nat, w: int): (r: seq<Byte>)
    requires off + 2 <= |s| && 0 <= w < 0x1_0000
    ensures |r| == |s| && Half(r, off) == w
    ensures forall k :: 0 <= k < |s| && !(off <= k < off + 2) ==> r[k] == s[k]
  {
    s[off := w % 0x100][off + 1 := w / 0x100]
  }

  function Words(s: seq<Byte>, off: nat, n: nat): (ws: seq<int>)
    requires off + 4 * n <= |s|
    ensures |ws| == n && forall k :: 0 <= k < n ==> ws[k] == Word(s, off + 4 * k)
  {
    seq(n, k requires 0 <= k < n => Word(s, off + 4 * k))
  }

  function PutWords(s: seq<Byte>, off: nat, ws: seq<int>): (r: seq<Byte>)
    requires off + 4 * |ws| <= |s| && forall k :: 0 <= k < |ws| ==> 0 <= ws[k] < TWO32
    ensures |r| == |s|
    ensures forall k :: 0 <= k < |s| && !(off <= k < off + 4 * |ws|) ==> r[k] == s[k]
    ensures forall k :: 0 <= k < |ws| ==> Word(r, off + 4 * k) == ws[k]
  {
    if ws == [] then s
    else
      var n := |ws| - 1;
      PutWord(PutWords(s, off, ws[..n]), off + 4 * n, ws[n])
  }

  /** The inode in bytes off..off+64 of s. */
  function GetInode(s: seq<Byte>, off: nat): Inode
    requires off + DINODE <= |s|
  {
    Inode(Half(s, off), Half(s, off + 2), Half(s, off + 4), Half(s, off + 6), Word(s, off + 8),
      Words(s, off + 12, NDIRECT + 1))
  }

  function PutInode(s: seq<Byte>, off: nat, ip: Inode): (r: seq<Byte>)
    requires off + DINODE <= |s| && ip.Stored()
    ensures |r| == |s|
    ensures forall k :: 0 <= k < |s| && !(off <= k < off + DINODE) ==> r[k] == s[k]
  {
    var s1 := PutHalf(PutHalf(s, off, ip.itype), off + 2, ip.major);
    var s2 := PutHalf(PutHalf(s1, off + 4, ip.minor), off + 6, ip.nlink);
    PutWords(PutWord(s2, off + 8, ip.size), off + 12, ip.addrs)
  }

  lemma PutInodeHead(s: seq<Byte>, off: nat, ip: Inode)
    requires off + DINODE <= |s| && ip.Stored()
    ensures
      var g := GetInode(PutInode(s, off, ip), off);
      g.itype == ip.itype && g.major == ip.major && g.minor == ip.minor && g.nlink == ip.nlink
  {
    var s0 := PutHalf(s, off, ip.itype);
    var s1 := PutHalf(s0, off + 2, ip.major);
    var s2 := PutHalf(s1, off + 4, ip.minor);
    var s3 := PutHalf(s2, off + 6, ip.nlink);
    var s4 := PutWord(s3, off + 8, ip.size);
    var s5 := PutWords(s4, off + 12, ip.addrs);
    assert s5[off..off + 8] == s4[off..off + 8] == s3[off..off + 8];
    assert Half(s5, off) == Half(s0, off) && Half(s5, off + 2) == Half(s1, off + 2);
    assert Half(s5, off + 4) == Half(s2, off + 4) && Half(s5, off + 6) == Half(s3, off + 6);
  }

  /** An inode is read back as it was stored. */
  lemma InodeRoundTrip(s: seq<Byte>, off: nat, ip: Inode)
    requires off + DINODE <= |s| && ip.Stored()
    ensures GetInode(PutInode(s, off, ip), off) == ip
  {
    PutInodeHead(s, off, ip);
    var s1 := PutHalf(PutHalf(s, off, ip.itype), off + 2, ip.major);
    var s2 := PutHalf(PutHalf(s1, off + 4, ip.minor), off + 6, ip.nlink);
    var s3 := PutWord(s2, off + 8, ip.size);
    var r := PutWords(s3, off + 12, ip.addrs);
    assert Word(r, off + 8) == Word(s3, off + 8);
    assert Words(r, off + 12, NDIRECT + 1) == ip.addrs;
  }

  /** An inode whose bytes are untouched is read back unchanged. */
  lemma SameInode(s: seq<Byte>, t: seq<Byte>, off: nat)
    requires off + DINODE <= |s| == |t| && s[off..off + DINODE] == t[off..off + DINODE]
    ensures GetInode(s, off) == GetInode(t, off)
  {
    forall k | off <= k < off + DINODE ensures s[k] == t[k] {
      assert s[k] == s[off..off + DINODE][k - off] == t[off..off + DINODE][k - off];
    }
    assert Words(s, off + 12, NDIRECT + 1) == Words(t, off + 12, NDIRECT + 1);
  }

  function InodeOff(inum: nat): nat { inum % IPB * DINODE }

  ghost function InodeOf(sb: Super, d: Disk, inum: nat): Inode
    requires Whole(sb, d) && IBlock(inum) < sb.size
  {
    GetInode(d[IBlock(inum)].bytes, InodeOff(inum))
  }

  ghost function PutInodeOf(sb: Super, d: Disk, inum: nat, ip: Inode): (r: Disk)
    requires Whole(sb, d) && IBlock(inum) < sb.size && ip.Stored()
    ensures Whole(sb, r)
  {
    d[IBlock(inum) := Block(PutInode(d[IBlock(inum)].bytes, InodeOff(inum), ip))]
  }

  /** iupdate's write changes the inode it is for and no other. */
  lemma PutInodeOfAt(sb: Super, d: Disk, inum: nat, ip: Inode, other: nat)
    requires Whole(sb, d) && IBlock(inum) < sb.size && IBlock(other) < sb.size && ip.Stored()
    ensures InodeOf(sb, PutInodeOf(sb, d, inum, ip), other) == if other == inum then ip else InodeOf(sb, d, other)
  {
    var s := d[IBlock(inum)].bytes;
    if other == inum {
      InodeRoundTrip(s, InodeOff(inum), ip);
    } else if IBlock(other) == IBlock(inum) {
      assert other % IPB != inum % IPB;
      SameInode(PutInode(s, InodeOff(inum), ip), s, InodeOff(other));
    }
  }
}
