/** How many disk blocks files take. */
module BlockCount {
  import opened Guard
  import opened Bytes
  import opened DiskFormat

  /** The blocks of a file of z bytes, its indirect block included. */
  function FileBlocks(z: nat): nat {
    var n := (z + BSIZE - 1) / BSIZE;
    if n > NDIRECT then n + 1 else n
  }

  /** The blocks taken for block bn of a file whose first len bytes are mapped. */
  function Extra(len: int, bn: nat): nat {
    if bn * BSIZE < len then 0 else if bn == NDIRECT then 2 else 1
  }

  lemma ExtraBlocks(off: nat, n: nat)
    requires 0 < n <= (off / BSIZE + 1) * BSIZE - off
    ensures FileBlocks(off + n) == FileBlocks(off) + Extra(off, off / BSIZE)
  {
  }

  lemma MoreBlocks(z: nat, more: nat)
    requires z <= more
    ensures FileBlocks(z) <= FileBlocks(more)
  {
  }

  /** From u to v, the mark up to which blocks are taken has moved by what a file takes to grow from a to b bytes. */
  ghost predicate Took(u: int, v: int, a: nat, b: nat) {
    forall k {:trigger Heed(k)} :: Heed(k) ==> v == u + FileBlocks(b) - FileBlocks(a)
  }

  /** From u on, there are not enough blocks below `end` for a file to grow from a to b bytes. */
  ghost predicate Short(u: int, a: nat, b: nat, end: int) {
    forall k {:trigger Heed(k)} :: Heed(k) ==> u + FileBlocks(b) - FileBlocks(a) > end
  }

  lemma ChunkTakes(off: nat, n: nat, u: int, end: int)
    requires 0 < n <= (off / BSIZE + 1) * BSIZE - off
    ensures var v := u + Extra(off, off / BSIZE); Took(u, v, off, off + n) && (v > end ==> Short(u, off, off + n, end))
  {
    ExtraBlocks(off, n);
  }

  lemma TookMore(u: int, v: int, w: int, a: nat, b: nat, c: nat)
    requires Took(u, v, a, b) && Took(v, w, b, c)
    ensures Took(u, w, a, c)
  {
    assert Heed(0);
  }

  lemma ShortEarlier(u: int, v: int, a: nat, b: nat, c: nat, d: nat, end: int)
    requires Took(u, v, a, b) && Short(v, b, c, end) && c <= d
    ensures Short(u, a, d, end)
  {
    assert Heed(0);
    MoreBlocks(c, d);
  }

  lemma ShortMore(u: int, a: nat, b: nat, c: nat, end: int)
    requires Short(u, a, b, end) && b <= c
    ensures Short(u, a, c, end)
  {
    assert Heed(0);
    MoreBlocks(b, c);
  }

  /** Writing n bytes at `at` into a file of the given size, within one block: what it takes. */
  lemma WriteTakes(size: nat, at: nat, n: nat, u: int, end: int)
    requires 0 < n <= BSIZE - at % BSIZE
    ensures
      var a, b := Max(size, at), Max(size, at + n);
      var v := u + Extra(a, at / BSIZE);
      Took(u, v, a, b) && (v > end ==> Short(u, a, b, end))
  {
    if at / BSIZE * BSIZE < Max(size, at) {
      SameCount(Max(size, at), Max(size, at + n), at / BSIZE);
    } else {
      ExtraBlocks(at, n);
    }
  }

  /** Within a block that is there, nothing more is taken. */
  lemma SameCount(a: nat, b: nat, bn: nat)
    requires a <= b && bn * BSIZE < a && (b <= (bn + 1) * BSIZE || a == b)
    ensures FileBlocks(a) == FileBlocks(b)
  {
  }

  lemma TookNothing(u: int, a: nat)
    ensures Took(u, u, a, a)
  {
  }
}
