/**
  The image builder of tools/mkfs.c.  While an image is being built its bitmap is still
  blank; the proofs follow the image as it would be with the bits of the blocks handed
  out so far already set, which is what the final bitmap write makes of it.
*/
module Mkfs {
  import opened Guard
  import opened Bytes
  import opened DiskFormat
  import opened Ownership
  import opened FileContent
  import opened FileSystem
  import opened BlockCount

  // --- The bitmap to come ---

  /** d with the bits of its first u blocks set. */
  ghost function WithBits(sb: Super, d: Disk, u: nat): (e: Disk)
    requires sb.Good() && Whole(sb, d) && u <= sb.size
    ensures Whole(sb, e)
  {
    if u == 0 then d
    else
      BitmapFits(sb, u - 1);
      PutUsed(sb, WithBits(sb, d, u - 1), u - 1, true)
  }

  lemma {:induction false} WithBitsAt(sb: Super, d: Disk, u: nat, b: nat)
    requires sb.Good() && Whole(sb, d) && u <= sb.size && b < sb.size && !InBitmap(sb, b)
    ensures WithBits(sb, d, u)[b] == d[b]
  {
    if u > 0 {
      BitmapFits(sb, u - 1);
      WithBitsAt(sb, d, u - 1, b);
    }
  }

  lemma {:induction false} WithBitsPut(sb: Super, d: Disk, u: nat, b: nat, data: Block)
    requires sb.Good() && Whole(sb, d) && u <= sb.size && b < sb.size && !InBitmap(sb, b) && data.Full()
    ensures WithBits(sb, d[b := data], u) == WithBits(sb, d, u)[b := data]
  {
    if u > 0 {
      BitmapFits(sb, u - 1);
      WithBitsPut(sb, d, u - 1, b, data);
    }
  }

  lemma {:induction false} WithBitsUsed(sb: Super, d: Disk, u: nat, c: nat)
    requires sb.Good() && Whole(sb, d) && u <= sb.size && c < sb.size
    ensures sb.BBlock(c) < sb.Start() && (Used(sb, WithBits(sb, d, u), c) <==> c < u || Used(sb, d, c))
  {
    BitmapFits(sb, c);
    if u > 0 {
      BitmapFits(sb, u - 1);
      WithBitsUsed(sb, d, u - 1, c);
      PutUsedAt(sb, WithBits(sb, d, u - 1), u - 1, true, c);
    }
  }

  /** The bitmap is still blank, and so are the data blocks from u on. */
  ghost predicate Blank(sb: Super, d: Disk, u: nat) {
    && sb.Good() && Whole(sb, d) && sb.Start() <= u <= sb.LogStart()
    && (forall b :: 0 <= b < sb.size && InBitmap(sb, b) ==> d[b] == ZeroBlock())
    && (forall b :: u <= b < sb.LogStart() ==> d[b] == ZeroBlock())
  }

  lemma BlankUsed(sb: Super, d: Disk, u: nat, c: nat)
    requires Blank(sb, d, u) && c < sb.size
    ensures sb.BBlock(c) < sb.Start() && (Used(sb, WithBits(sb, d, u), c) <==> c < u)
  {
    WithBitsUsed(sb, d, u, c);
    NoBits(c % BPB % 8);
  }

  /** Taking freeblock is what balloc does to the image with its bits set. */
  lemma Taken(sb: Super, d: Disk, u: nat)
    requires Blank(sb, d, u) && u < sb.LogStart()
    ensures sb.BBlock(u) < sb.Start() && !Used(sb, WithBits(sb, d, u), u)
    ensures AfterBalloc(sb, WithBits(sb, d, u), u) == WithBits(sb, d, u + 1) && Blank(sb, d, u + 1)
  {
    BlankUsed(sb, d, u, u);
    WithBitsAt(sb, d, u + 1, u);
  }

  // --- The state of the builder ---

  /** The image and what it will be: inode i is in use with len bytes mapped, or -1. */
  ghost predicate Builds(sb: Super, d: Disk, u: nat, v: State, i: int, len: int) {
    Pending(sb, d, u, v.disk) && Ok(sb, v.disk, v.F(), i, len)
  }

  /** The first u blocks of the image d are taken, and e is the image with their bits set. */
  ghost predicate Pending(sb: Super, d: Disk, u: nat, e: Disk) {
    && sb.Good() && Whole(sb, d) && Whole(sb, e) && sb.Start() <= u <= sb.LogStart()
    && forall k {:trigger Peek(k)} :: Peek(k) ==> PendingBits(sb, d, u, e)
  }

  ghost predicate PendingBits(sb: Super, d: Disk, u: nat, e: Disk) {
    Blank(sb, d, u) && e == WithBits(sb, d, u)
  }

  /** The first block of the file gets the block freeblock. */
  lemma TakeDirect(sb: Super, d: Disk, u: nat, v: State, i: nat, bn: nat) returns (w: State)
    requires Builds(sb, d, u, v, i, bn * BSIZE) && i < |v.table| && bn < NDIRECT && u < sb.LogStart()
    ensures Builds(sb, d, u + 1, w, i, bn * BSIZE + 1) && Mapped(sb, v, w, i, bn, bn * BSIZE, u)
    ensures w.table == WithAddr(v.F(), i, bn, u)
  {
    assert Peek(0);
    w := State(WithBits(sb, d, u + 1), WithAddr(v.F(), i, bn, u), v.refs[u := Slot(i, bn)], v.logged);
    Taken(sb, d, u);
    GrowDirect(sb, v.disk, v.F(), i, bn, u);
  }

  /** From v to w, the inode has an indirect block x and nothing else changed. */
  ghost predicate Indirect(sb: Super, v: State, w: State, i: nat, len: int, x: int) {
    && i < |v.table| == |w.table| && v.table[i].Stored() && OkIndirect(sb, w.disk, w.F(), i, len)
    && w.table[i] == v.table[i].(addrs := w.table[i].addrs) && x == w.table[i].addrs[NDIRECT] && sb.Data(x)
    && w.logged == v.logged && IndirectOf(v.table[i]) <= IndirectOf(w.table[i])
    && (v.table[i].addrs[NDIRECT] != 0 ==> w == v)
    && Apart(sb, v.disk, v.table, w.disk, w.table, i) && KeepsFile(v.disk, v.table[i], w.disk, w.table[i])
  }

  lemma TakeIndirect(sb: Super, d: Disk, u: nat, v: State, i: nat) returns (w: State)
    requires Builds(sb, d, u, v, i, NDIRECT * BSIZE) && i < |v.table| && u < sb.LogStart()
    ensures Pending(sb, d, u + 1, w.disk) && Indirect(sb, v, w, i, NDIRECT * BSIZE, u)
    ensures w.table == WithAddr(v.F(), i, NDIRECT, u)
  {
    assert Peek(0);
    w := State(WithBits(sb, d, u + 1), WithAddr(v.F(), i, NDIRECT, u), v.refs[u := Slot(i, NDIRECT)], v.logged);
    FindBlock(sb, v.disk, v.F(), i, NDIRECT * BSIZE, 0);
    Taken(sb, d, u);
    GrowIndirect(sb, v.disk, v.F(), i, u);
  }

  lemma HasIndirect(sb: Super, d: Disk, u: nat, v: State, i: nat, len: int)
    requires Builds(sb, d, u, v, i, len) && i < |v.table| && v.table[i].addrs[NDIRECT] != 0
    ensures Indirect(sb, v, v, i, len, v.table[i].addrs[NDIRECT])
  {
    FindBlock(sb, v.disk, v.F(), i, len, 0);
    SelfApart(sb, v.disk, v.F(), i, len);
    assert Look(0);
    assert v.table[i].addrs[NDIRECT] in v.refs;
  }

  /** A data block that a file owns was taken before. */
  lemma OwnedBelow(sb: Super, d: Disk, u: nat, v: State, x: int)
    requires Pending(sb, d, u, v.disk) && Inv(sb, v.disk, v.F(), {}) && x in v.refs
    ensures sb.Data(x) && x < u && v.disk[x] == d[x]
  {
    assert Peek(0);
    BlankUsed(sb, d, u, x);
    WithBitsAt(sb, d, u, x);
  }

  /** Writing a block in use is the same write to the image with its bits set. */
  lemma PutBelow(sb: Super, d: Disk, u: nat, x: int, data: Block)
    requires Blank(sb, d, u) && sb.Data(x) && x < u && data.Full()
    ensures Blank(sb, d[x := data], u) && WithBits(sb, d[x := data], u) == WithBits(sb, d, u)[x := data]
    ensures WithBits(sb, d, u)[x] == d[x]
  {
    WithBitsPut(sb, d, u, x, data);
    WithBitsAt(sb, d, u, x);
  }

  lemma EntryBelow(sb: Super, d: Disk, u: nat, v: State, i: nat, len: int)
    requires Pending(sb, d, u, v.disk) && OkIndirect(sb, v.disk, v.F(), i, len)
    ensures var x := v.table[i].addrs[NDIRECT]; sb.Data(x) && x < u && v.disk[x] == d[x]
  {
    assert Look(0);
    OwnedBelow(sb, d, u, v, v.table[i].addrs[NDIRECT]);
  }

  lemma EntryPut(sb: Super, d: Disk, u: nat, x: int, j: nat, b: nat)
    requires Blank(sb, d, u) && sb.Data(x) && x < u && j < NINDIRECT && b < TWO32
    ensures Blank(sb, WithEntry(d, x, j, b), u) &&
      WithBits(sb, WithEntry(d, x, j, b), u) == WithEntry(WithBits(sb, d, u), x, j, b)
  {
    PutBelow(sb, d, u, x, WithEntry(d, x, j, b)[x]);
  }

  lemma TakenPending(sb: Super, d: Disk, u: nat, e: Disk)
    requires Pending(sb, d, u, e) && u < sb.LogStart()
    ensures sb.BBlock(u) < sb.size && !Used(sb, e, u) && Pending(sb, d, u + 1, AfterBalloc(sb, e, u))
  {
    assert Peek(0);
    Taken(sb, d, u);
  }

  lemma EntryPending(sb: Super, d: Disk, u: nat, e: Disk, x: int, j: nat, b: nat)
    requires Pending(sb, d, u, e) && sb.Data(x) && x < u && j < NINDIRECT && b < TWO32
    ensures Pending(sb, WithEntry(d, x, j, b), u, WithEntry(e, x, j, b))
  {
    assert Peek(0);
    EntryPut(sb, d, u, x, j, b);
  }

  lemma GrownEntry(sb: Super, v: State, v1: State, i: nat, bn: nat, x: int, u: nat)
    requires Indirect(sb, v, v1, i, bn * BSIZE, x) && NDIRECT <= bn < MAXFILE
    requires sb.Data(u) && sb.BBlock(u) < sb.size && !Used(sb, v1.disk, u)
    ensures
      var e := WithEntry(AfterBalloc(sb, v1.disk, u), x, bn - NDIRECT, u);
      var w := State(e, v1.table, v1.refs[u := Entry(i, bn - NDIRECT)], v1.logged);
      Ok(sb, e, w.F(), i, bn * BSIZE + 1) && Mapped(sb, v, w, i, bn, bn * BSIZE, u)
  {
    GrowEntry(sb, v1.disk, v1.F(), i, bn, u);
    var e := WithEntry(AfterBalloc(sb, v1.disk, u), x, bn - NDIRECT, u);
    ApartTwice(sb, v.disk, v.table, v1.disk, v1.table, e, v1.table, i, i);
    KeepsThenKeepsBut(sb, v.disk, v.table[i], v1.disk, v1.table[i], e, v1.table[i], bn);
  }

  /** An entry of the indirect block gets the block freeblock. */
  lemma TakeEntry(sb: Super, d: Disk, u: nat, v: State, v1: State, i: nat, bn: nat, x: int) returns (w: State)
    requires Pending(sb, d, u, v1.disk) && Indirect(sb, v, v1, i, bn * BSIZE, x)
    requires NDIRECT <= bn < MAXFILE && u < sb.LogStart() && x < u
    ensures Builds(sb, WithEntry(d, x, bn - NDIRECT, u), u + 1, w, i, bn * BSIZE + 1) &&
      Mapped(sb, v, w, i, bn, bn * BSIZE, u)
    ensures w.table == v1.table
  {
    TakenPending(sb, d, u, v1.disk);
    EntryPending(sb, d, u + 1, AfterBalloc(sb, v1.disk, u), x, bn - NDIRECT, u);
    w := State(WithEntry(AfterBalloc(sb, v1.disk, u), x, bn - NDIRECT, u), v1.table,
      v1.refs[u := Entry(i, bn - NDIRECT)], v1.logged);
    GrownEntry(sb, v, v1, i, bn, x, u);
  }

  /** What iappend finds when the block is already there. */
  lemma FoundBlock(sb: Super, d: Disk, u: nat, v: State, i: nat, len: int, bn: nat)
    requires Builds(sb, d, u, v, i, len) && i < |v.table| && bn < MAXFILE && bn * BSIZE < len
    ensures Mapped(sb, v, v, i, bn, len, FileBlock(v.disk, v.table[i], bn))
  {
    FindBlock(sb, v.disk, v.F(), i, len, bn);
    SelfApart(sb, v.disk, v.F(), i, len);
  }

  /** What iappend finds in the indirect block. */
  lemma FoundEntry(sb: Super, d: Disk, u: nat, v: State, v1: State, i: nat, len: int, bn: nat)
    requires Pending(sb, d, u, v1.disk) && i < |v1.table| && |v1.table[i].addrs| == NDIRECT + 1
    requires Indirect(sb, v, v1, i, len, v1.table[i].addrs[NDIRECT]) && Ok(sb, v.disk, v.F(), i, len) &&
      NDIRECT <= bn < MAXFILE
    ensures
      var x := v1.table[i].addrs[NDIRECT];
      && sb.Data(x) && x < u && v1.disk[x] == d[x]
      && var b := Word(d[x].bytes, 4 * (bn - NDIRECT));
      && (b != 0 <==> bn * BSIZE < len)
      && (b != 0 ==> Mapped(sb, v, v1, i, bn, len, b) && Builds(sb, d, u, v1, i, len))
  {
    EntryBelow(sb, d, u, v1, i, len);
    FindEntry(sb, v1.disk, v1.F(), i, len, bn);
    FindBlock(sb, v.disk, v.F(), i, len, bn);
    if bn * BSIZE < len {
      FoundBlock(sb, d, u, v1, i, len, bn);
    }
  }

  lemma MappedBelow(sb: Super, d: Disk, u: nat, v: State, i: nat, len: int, bn: nat)
    requires Builds(sb, d, u, v, i, len) && i < |v.table| && bn < MAXFILE && bn * BSIZE < len
    ensures var x := FileBlock(v.disk, v.table[i], bn); sb.Data(x) && x < u && v.disk[x] == d[x]
  {
    assert Look(0);
    FileBlockOwned(sb, v.disk, v.F(), i, bn);
    OwnedBelow(sb, d, u, v, FileBlock(v.disk, v.table[i], bn));
  }

  lemma InodePut(sb: Super, d: Disk, u: nat, i: nat, ip: Inode)
    requires Blank(sb, d, u) && i < sb.ninodes && ip.Stored()
    ensures IBlock(i) < sb.Start() && Blank(sb, PutInodeOf(sb, d, i, ip), u)
    ensures WithBits(sb, PutInodeOf(sb, d, i, ip), u) == PutInodeOf(sb, WithBits(sb, d, u), i, ip)
  {
    WithBitsAt(sb, d, u, IBlock(i));
    WithBitsPut(sb, d, u, IBlock(i), PutInodeOf(sb, d, i, ip)[IBlock(i)]);
  }

  /** winode brings the image's copy of the inode in use up to date. */
  lemma InodeStored(sb: Super, d: Disk, u: nat, v: State, i: nat, len: int)
    requires Builds(sb, d, u, v, i, len) && i < |v.table|
    ensures IBlock(i) < sb.Start() && v.table[i].Stored()
    ensures
      var w := v.(disk := PutInodeOf(sb, v.disk, i, v.table[i]));
      && Builds(sb, PutInodeOf(sb, d, i, v.table[i]), u, w, i, len)
      && InodeOf(sb, w.disk, i) == v.table[i] && KeepsOthers(v.disk, v.table, w.disk, v.table, -1)
  {
    assert Peek(0);
    Updated(sb, v.disk, v.F(), i, len);
    InodePut(sb, d, u, i, v.table[i]);
  }

  /** A chunk goes into a block of the file, on the image as on the image with its bits set. */
  lemma ChunkOnImage(sb: Super, d: Disk, u: nat, s: State, v: State, i: nat, at: nat, x: int, chunk: seq<Byte>)
    requires i < |s.table| && at / BSIZE < MAXFILE && Mapped(sb, s, v, i, at / BSIZE, Max(s.table[i].size, at), x)
    requires Ok(sb, s.disk, s.F(), i, Max(s.table[i].size, at))
    requires Builds(sb, d, u, v, i, NewLen(Max(s.table[i].size, at), at / BSIZE))
    requires 0 < |chunk| <= BSIZE - at % BSIZE && at + |chunk| <= MAXFILE * BSIZE && s.table[i].size <= MAXFILE * BSIZE
    ensures x < sb.size && v.disk[x] == d[x] && v.disk[x].Full() &&
      Chunked(sb, s, StoreChunk(v, at, x, chunk), i, at, chunk)
    ensures Builds(sb, d[x := Block(Splice(d[x].bytes, at % BSIZE, chunk))], u, StoreChunk(v, at, x, chunk), i,
      Max(s.table[i].size, at + |chunk|))
    ensures v.table[i].size == s.table[i].size
  {
    assert PendingBits(sb, d, u, v.disk) by {
      assert Peek(0);
    }
    MappedBelow(sb, d, u, v, i, NewLen(Max(s.table[i].size, at), at / BSIZE), at / BSIZE);
    ChunkStored(sb, s, v, i, at, x, chunk);
    PutBelow(sb, d, u, x, Block(Splice(d[x].bytes, at % BSIZE, chunk)));
    ChunkOk(sb, s, StoreChunk(v, at, x, chunk), i, at, chunk);
  }

  lemma ChunkOk(sb: Super, s: State, r: State, i: nat, at: nat, chunk: seq<Byte>)
    requires Chunked(sb, s, r, i, at, chunk) && i < |s.table|
    ensures Ok(sb, r.disk, r.F(), i, Max(s.table[i].size, at + |chunk|)) && i < |r.table| &&
      r.table[i].size == s.table[i].size
  {
    assert Peek(0);
  }

  /** An append starts with nothing written. */
  lemma AppendStart(sb: Super, v: State, i: nat)
    requires i < |v.table| && Ok(sb, v.disk, v.F(), i, v.table[i].size) && v.table[i].Stored() &&
      v.table[i].size <= MAXFILE * BSIZE
    ensures Writing(sb, v, v, i, v.table[i].size, [])
  {
    SelfApart(sb, v.disk, v.F(), i, v.table[i].size);
  }

  /** The end of an append: the new size is stored and the inode is settled again. */
  lemma AppendEnd(sb: Super, s: State, v: State, w: State, i: nat, src: seq<Byte>, files: seq<seq<Byte>>)
    requires i < |s.table| && s.table[i].size >= 0 && Writing(sb, s, v, i, s.table[i].size, src)
    requires Stored(sb, v, w, i, s.table[i].size + |src|) && HasFiles(s, files) && |s.disk| == |w.disk|
    ensures HasFiles(w, files[i := files[i] + src]) && Ok(sb, w.disk, w.F(), -1, 0) && |w.table| == |s.table|
    ensures forall m :: 0 <= m < |s.table| && m != i ==> w.table[m] == s.table[m]
    ensures KeepsOthers(s.disk, s.table, w.disk, w.table, i)
  {
    assert Peek(0);
    FinishedGrown(sb, s, v, w, i, s.table[i].size, src);
    AppendsTo(sb, s, w, i, src, files);
  }

  lemma AppendSized(sb: Super, d: Disk, u: nat, s: State, v: State, i: nat, src: seq<Byte>)
    requires i < |s.table| && s.table[i].size >= 0 && Writing(sb, s, v, i, s.table[i].size, src)
    requires i < |v.table| && Builds(sb, d, u, v, i, s.table[i].size + |src|)
    ensures s.table[i].size + |src| <= MAXFILE * BSIZE && v.table[i].Stored()
    ensures Builds(sb, d, u, v.(table := v.table[i := v.table[i].(size := s.table[i].size + |src|)]), i,
      s.table[i].size + |src|)
  {
    assert Peek(0);
    Resized(sb, v.disk, v.F(), i, s.table[i].size + |src|);
  }

  // --- The empty image ---

  /** The bytes of the superblock: size, nblocks, ninodes and nlog. */
  function SuperBytes(sb: Super, nblocks: nat): (s: seq<Byte>)
    requires sb.size < TWO32 && nblocks < TWO32 && sb.ninodes < TWO32 && sb.nlog < TWO32
    ensures |s| == BSIZE
  {
    PutWord(PutWord(PutWord(PutWord(ZeroBlock().bytes, 0, sb.size), 4, nblocks), 8, sb.ninodes), 12, sb.nlog)
  }

  ghost function FreeInode(): Inode { Inode(0, 0, 0, 0, 0, seq(NDIRECT + 1, _ => 0)) }

  lemma ZeroInode(off: nat)
    requires off + DINODE <= BSIZE
    ensures GetInode(ZeroBlock().bytes, off) == FreeInode()
  {
    assert Words(ZeroBlock().bytes, off + 12, NDIRECT + 1) == FreeInode().addrs;
  }

  ghost function EmptyTable(n: nat): seq<Inode> { seq(n, _ => FreeInode()) }

  /** With all blocks but the superblock zero, every inode is free and no data block is owned. */
  lemma EmptyImage(sb: Super, d: Disk)
    requires sb.Good() && Whole(sb, d) && forall b :: 0 <= b < sb.size && b != 1 ==> d[b] == ZeroBlock()
    ensures Builds(sb, d, sb.Start(), State(WithBits(sb, d, sb.Start()), EmptyTable(sb.ninodes), map[], {}), -1, 0)
  {
    var u := sb.Start();
    var e, t := WithBits(sb, d, u), EmptyTable(sb.ninodes);
    forall m | 0 <= m < |t| ensures IBlock(m) < sb.size && Settled(sb, e, t[m], m) {
      EmptySettled(sb, d, m);
    }
    EmptyInv(sb, d);
  }

  lemma EmptyInv(sb: Super, d: Disk)
    requires sb.Good() && Whole(sb, d) && forall b :: 0 <= b < sb.size && b != 1 ==> d[b] == ZeroBlock()
    ensures Inv(sb, WithBits(sb, d, sb.Start()), Files(EmptyTable(sb.ninodes), map[]), {})
  {
    var u := sb.Start();
    var e := WithBits(sb, d, u);
    forall c | 0 <= c < sb.size ensures sb.BBlock(c) < sb.Start() && (Used(sb, e, c) <==> c < u) {
      BlankUsed(sb, d, u, c);
    }
  }

  lemma EmptySettled(sb: Super, d: Disk, m: nat)
    requires sb.Good() && Whole(sb, d) && (forall b :: 0 <= b < sb.size && b != 1 ==> d[b] == ZeroBlock()) &&
      m < sb.ninodes
    ensures IBlock(m) < sb.size && Settled(sb, WithBits(sb, d, sb.Start()), FreeInode(), m)
  {
    WithBitsAt(sb, d, sb.Start(), IBlock(m));
    ZeroInode(InodeOff(m));
    assert forall bn :: 0 <= bn < MAXFILE ==> FileBlock(WithBits(sb, d, sb.Start()), FreeInode(), bn) == 0;
  }

  // --- What the image holds ---

  /** Inode m is stored on the image and its content is c. */
  ghost predicate FileIs(v: State, m: int, c: seq<Byte>) {
    && 0 <= m < |v.table| && v.table[m].Stored() && v.table[m].size <= MAXFILE * BSIZE
    && Content(v.disk, v.table[m]) == c
  }

  ghost predicate HasFiles(v: State, files: seq<seq<Byte>>) {
    |files| == |v.table| && forall m :: 0 <= m < |files| ==> FileIs(v, m, files[m])
  }

  /** Inodes from `next` on are free. */
  ghost predicate FreeFrom(v: State, next: int) {
    forall m :: 0 <= next <= m < |v.table| ==> v.table[m] == FreeInode()
  }

  lemma EmptyFiles(sb: Super, d: Disk)
    requires sb.Good() && Whole(sb, d)
    ensures
      var v := State(WithBits(sb, d, sb.Start()), EmptyTable(sb.ninodes), map[], {});
      HasFiles(v, seq(sb.ninodes, _ => [])) && FreeFrom(v, 0) && ZeroTails(v)
  {
    var v := State(WithBits(sb, d, sb.Start()), EmptyTable(sb.ninodes), map[], {});
    forall m | 0 <= m < |v.table| ensures ZeroTail(v.disk, v.table[m]) {
      EmptyTail(v.disk, v.table[m]);
    }
  }

  // --- Past the end of a file ---

  /** The bytes past the end of a file, in its last block and in blocks that are not there, are zero. */
  ghost predicate ZeroTail(d: Disk, ip: Inode) {
    |ip.addrs| == NDIRECT + 1 && forall p :: 0 <= p < MAXFILE * BSIZE && ip.size <= p ==> ByteAt(d, ip, p) == 0
  }

  ghost predicate ZeroTails(v: State) {
    forall k {:trigger Note(k)} :: Note(k) ==> forall m :: 0 <= m < |v.table| ==> ZeroTail(v.disk, v.table[m])
  }

  lemma EmptyTail(d: Disk, ip: Inode)
    requires ip.addrs == FreeInode().addrs
    ensures ZeroTail(d, ip)
  {
    assert forall bn :: 0 <= bn < MAXFILE ==> FileBlock(d, ip, bn) == 0;
  }

  lemma KeepsTail(d: Disk, ip: Inode, e: Disk, jp: Inode)
    requires ZeroTail(d, ip) && |jp.addrs| == NDIRECT + 1 && KeepsFile(d, ip, e, jp) && jp.size >= ip.size && |d| == |e|
    ensures ZeroTail(e, jp)
  {
    forall p | 0 <= p < MAXFILE * BSIZE && jp.size <= p ensures ByteAt(e, jp, p) == 0 {
      assert KeepsBlock(d, ip, e, jp, p / BSIZE) && ByteAt(d, ip, p) == 0;
    }
  }

  lemma RetypedTails(v: State, w: State, i: nat)
    requires ZeroTails(v) && i < |v.table| == |w.table| && |v.disk| == |w.disk|
    requires KeepsOthers(v.disk, w.table, w.disk, w.table, -1)
    requires w.table == v.table[i := w.table[i]] && w.table[i].addrs == FreeInode().addrs
    ensures ZeroTails(w)
  {
    assert Note(0);
    forall m | 0 <= m < |w.table| ensures ZeroTail(w.disk, w.table[m]) {
      if m == i {
        EmptyTail(w.disk, w.table[m]);
      } else {
        KeepsTail(v.disk, v.table[m], w.disk, w.table[m]);
      }
    }
  }

  lemma AppendTails(sb: Super, s: State, v: State, w: State, i: nat, src: seq<Byte>)
    requires ZeroTails(s) && i < |s.table| && s.table[i].size >= 0 && Writing(sb, s, v, i, s.table[i].size, src)
    requires Stored(sb, v, w, i, s.table[i].size + |src|) && |s.disk| == |v.disk| == |w.disk|
    requires KeepsOthers(s.disk, s.table, w.disk, w.table, i)
    ensures ZeroTails(w)
  {
    assert Note(0) && Peek(0);
    forall p | 0 <= p < MAXFILE * BSIZE && s.table[i].size + |src| <= p ensures ByteAt(v.disk, v.table[i], p) == 0 {
      assert ByteAt(s.disk, s.table[i], p) == 0;
    }
    forall m | 0 <= m < |w.table| ensures ZeroTail(w.disk, w.table[m]) {
      if m == i {
        SizedTail(v.disk, v.table[i], w.disk, w.table[i]);
      } else {
        KeepsTail(s.disk, s.table[m], w.disk, w.table[m]);
      }
    }
  }

  /** The bytes of a file do not depend on its size. */
  lemma SizedTail(d: Disk, ip: Inode, e: Disk, jp: Inode)
    requires |ip.addrs| == NDIRECT + 1 && jp.addrs == ip.addrs && KeepsFile(d, jp, e, jp) && |d| == |e|
    requires forall p :: 0 <= p < MAXFILE * BSIZE && jp.size <= p ==> ByteAt(d, ip, p) == 0
    ensures ZeroTail(e, jp)
  {
    forall p | 0 <= p < MAXFILE * BSIZE && jp.size <= p ensures ByteAt(d, jp, p) == 0 {
      assert FileBlock(d, jp, p / BSIZE) == FileBlock(d, ip, p / BSIZE) && ByteAt(d, ip, p) == 0;
    }
    KeepsTail(d, jp, e, jp);
  }

  // --- Files on the image ---

  /** A write to one file changes that file alone. */
  lemma AppendsTo(sb: Super, s: State, r: State, i: nat, src: seq<Byte>, files: seq<seq<Byte>>)
    requires HasFiles(s, files) && i < |files| && s.table[i].size >= 0 &&
      Replaced(sb, s, r, i, s.table[i].size, src) && |s.disk| == |r.disk|
    ensures HasFiles(r, files[i := files[i] + src])
  {
    var after := files[i := files[i] + src];
    forall m | 0 <= m < |files| ensures FileIs(r, m, after[m]) {
      assert FileIs(s, m, files[m]);
      if m != i {
        SameContent(s.disk, s.table[m], r.disk, r.table[m]);
      }
    }
  }

  lemma RetypedFiles(v: State, w: State, i: nat, files: seq<seq<Byte>>)
    requires HasFiles(v, files) && i < |files| == |w.table| && |v.disk| == |w.disk| &&
      KeepsOthers(v.disk, w.table, w.disk, w.table, -1)
    requires w.table == v.table[i := w.table[i]] && w.table[i].Stored() && w.table[i].size == v.table[i].size == 0
    ensures HasFiles(w, files)
  {
    forall m | 0 <= m < |files| ensures FileIs(w, m, files[m]) {
      assert FileIs(v, m, files[m]);
      if m != i {
        SameContent(v.disk, v.table[m], w.disk, w.table[m]);
      }
    }
  }

  // --- How many blocks it takes ---

  /** The blocks of all files together. */
  function TotalBlocks(files: seq<seq<Byte>>): nat {
    if files == [] then 0 else TotalBlocks(files[..|files| - 1]) + FileBlocks(|files[|files| - 1]|)
  }

  lemma {:induction false} TotalOfNone(files: seq<seq<Byte>>)
    requires forall m :: 0 <= m < |files| ==> files[m] == []
    ensures TotalBlocks(files) == 0
  {
    if files != [] {
      TotalOfNone(files[..|files| - 1]);
    }
  }

  lemma {:induction false} TotalAfter(files: seq<seq<Byte>>, i: nat, c: seq<Byte>)
    requires i < |files|
    ensures TotalBlocks(files[i := c]) == TotalBlocks(files) - FileBlocks(|files[i]|) + FileBlocks(|c|)
  {
    var n := |files| - 1;
    if i < n {
      TotalAfter(files[..n], i, c);
      assert files[i := c][..n] == files[..n][i := c];
    } else {
      assert files[i := c][..n] == files[..n];
    }
  }

  lemma {:induction false} TotalGrows(files: seq<seq<Byte>>, more: seq<seq<Byte>>)
    requires |files| == |more| && forall m :: 0 <= m < |files| ==> |files[m]| <= |more[m]|
    ensures TotalBlocks(files) <= TotalBlocks(more)
  {
    if files != [] {
      var n := |files| - 1;
      TotalGrows(files[..n], more[..n]);
      MoreBlocks(|files[n]|, |more[n]|);
    }
  }

  // --- The bitmap write, and the kernel's view of the image ---

  /** A bitmap block with its first u bits set. */
  ghost function FirstBits(u: nat): (r: seq<Byte>)
    requires u <= BPB
    ensures |r| == BSIZE
  {
    if u == 0 then ZeroBlock().bytes else PutBitIn(FirstBits(u - 1), u - 1, true)
  }

  lemma {:induction false} FirstBitsAt(u: nat, k: nat)
    requires u <= BPB && k < BPB
    ensures BitAt(FirstBits(u), k) <==> k < u
  {
    if u > 0 {
      FirstBitsAt(u - 1, k);
      PutBitInAt(FirstBits(u - 1), u - 1, true, k);
    } else {
      NoBits(k % 8);
    }
  }

  lemma PutFirst(sb: Super, d: Disk, s: seq<Byte>, b: nat)
    requires Whole(sb, d) && b < sb.size && b < BPB && sb.BBlock(0) < sb.size && |s| == BSIZE
    ensures sb.BBlock(b) == sb.BBlock(0) &&
      PutUsed(sb, d[sb.BBlock(0) := Block(s)], b, true) == d[sb.BBlock(0) := Block(PutBitIn(s, b, true))]
  {
    assert b % BPB == b;
  }

  /** The bits of the first u blocks all lie in the first bitmap block. */
  lemma {:induction false} WithBitsFirst(sb: Super, d: Disk, u: nat)
    requires sb.Good() && Whole(sb, d) && u <= sb.size && u <= BPB && sb.BBlock(0) < sb.size &&
      d[sb.BBlock(0)] == ZeroBlock()
    ensures WithBits(sb, d, u) == d[sb.BBlock(0) := Block(FirstBits(u))]
  {
    if u > 0 {
      WithBitsFirst(sb, d, u - 1);
      var e, s := WithBits(sb, d, u - 1), FirstBits(u - 1);
      PutFirst(sb, d, s, u - 1);
      assert PutUsed(sb, e, u - 1, true) == d[sb.BBlock(0) := Block(PutBitIn(s, u - 1, true))];
    } else {
      assert d[sb.BBlock(0) := ZeroBlock()] == d;
    }
  }

  lemma BitmapWritten(sb: Super, d: Disk, u: nat, e: Disk)
    requires Pending(sb, d, u, e) && u < BPB
    ensures sb.BBlock(0) == sb.ninodes / IPB + 3 < sb.size && e == d[sb.BBlock(0) := Block(FirstBits(u))]
  {
    assert Peek(0);
    BitmapFits(sb, 0);
    WithBitsFirst(sb, d, u);
  }

  /** Exactly the first u blocks are marked in the bitmap. */
  ghost predicate MarkedTo(sb: Super, d: Disk, u: nat) {
    && sb.Good() && Whole(sb, d)
    && forall c :: 0 <= c < sb.size ==> sb.BBlock(c) < sb.Start() && (Used(sb, d, c) <==> c < u)
  }

  lemma PendingMarks(sb: Super, d: Disk, u: nat, e: Disk)
    requires Pending(sb, d, u, e)
    ensures MarkedTo(sb, e, u)
  {
    assert Peek(0);
    forall c | 0 <= c < sb.size ensures sb.BBlock(c) < sb.Start() && (Used(sb, e, c) <==> c < u) {
      BlankUsed(sb, d, u, c);
    }
  }

  /** The loop of mkfs's balloc: bits below `used` are set, the others clear. */
  method SetBits(used: nat) returns (buf: seq<Byte>)
    requires used < BPB
    ensures buf == FirstBits(used) && forall k :: 0 <= k < BPB ==> (BitAt(buf, k) <==> k < used)
  {
    buf := seq(BSIZE, _ => 0);
    assert buf == FirstBits(0);
    var i := 0;
    while i < used
      invariant 0 <= i <= used && buf == FirstBits(i)
    {
      buf := PutBitIn(buf, i, true);
      i := i + 1;
    }
    forall k | 0 <= k < BPB ensures BitAt(buf, k) <==> k < used {
      FirstBitsAt(used, k);
    }
  }

  /** The root directory's size after main has rounded it up. */
  function RoundedUp(size: nat): nat { (size / BSIZE + 1) * BSIZE }

  /**
    Rounding the root's size up keeps the kernel's invariant exactly when the size was not a
    multiple of the block size; otherwise the size claims a block that is not mapped.
  */
  lemma RootSizeFix(sb: Super, d: Disk, f: Files, i: nat)
    requires Ok(sb, d, f, -1, 0) && i < |f.table|
    ensures IBlock(i) < sb.size && f.table[i].Stored() && f.table[i].size <= MAXFILE * BSIZE
    ensures
      var jp := f.table[i].(size := RoundedUp(f.table[i].size));
      Ok(sb, PutInodeOf(sb, d, i, jp), Files(f.table[i := jp], f.owner), -1, 0) <==> f.table[i].size % BSIZE != 0
  {
    Open(sb, d, f, i);
    var ip := f.table[i];
    var jp := ip.(size := RoundedUp(ip.size));
    var g := Files(f.table[i := jp], f.owner);
    if ip.size % BSIZE != 0 {
      RootSizeRight(sb, d, f, i);
      Updated(sb, d, g, i, jp.size);
      Close(sb, PutInodeOf(sb, d, i, jp), g, i);
    } else {
      RootSizeWrong(sb, d, f, i, PutInodeOf(sb, d, i, jp), g);
    }
  }

  lemma RootSizeRight(sb: Super, d: Disk, f: Files, i: nat)
    requires i < |f.table| && Ok(sb, d, f, i, f.table[i].size) && 0 <= f.table[i].size <= MAXFILE * BSIZE &&
      f.table[i].size % BSIZE != 0
    ensures
      var jp := f.table[i].(size := RoundedUp(f.table[i].size));
      Ok(sb, d, Files(f.table[i := jp], f.owner), i, jp.size) && jp.size <= MAXFILE * BSIZE
  {
    var size := f.table[i].size;
    SameAddrs(sb, d, f, i, size, f.table[i].(size := RoundedUp(size)));
    SameBlocks(sb, d, Files(f.table[i := f.table[i].(size := RoundedUp(size))], f.owner), i, size, RoundedUp(size));
  }

  lemma RootSizeWrong(sb: Super, d: Disk, f: Files, i: nat, e: Disk, g: Files)
    requires Ok(sb, d, f, -1, 0) && i < |f.table| == |g.table| && f.table[i].Stored() && f.table[i].size % BSIZE == 0
    requires Whole(sb, e) && forall b :: sb.Start() <= b < sb.size ==> e[b] == d[b]
    requires g.table[i] == f.table[i].(size := RoundedUp(f.table[i].size))
    ensures !Ok(sb, e, g, -1, 0)
  {
    assert Look(0);
    var bn := f.table[i].size / BSIZE;
    assert Settled(sb, d, f.table[i], i);
    BitmapEntries(sb, d, e, f);
    assert bn < MAXFILE ==> FileBlock(d, f.table[i], bn) == 0 == FileBlock(e, g.table[i], bn);
    assert !Settled(sb, e, g.table[i], i);
  }

  /** The content that rounding the size up gives a file: zeros follow. */
  function Padded(c: seq<Byte>): seq<Byte> { c + seq(RoundedUp(|c|) - |c|, _ => 0) }

  lemma PaddedContent(d: Disk, ip: Inode, jp: Inode)
    requires ZeroTail(d, ip) && 0 <= ip.size && jp == ip.(size := RoundedUp(ip.size)) && jp.size <= MAXFILE * BSIZE
    ensures Content(d, jp) == Padded(Content(d, ip))
  {
    forall p | 0 <= p < jp.size ensures ByteAt(d, jp, p) == Padded(Content(d, ip))[p] {
      assert FileBlock(d, jp, p / BSIZE) == FileBlock(d, ip, p / BSIZE);
      assert p >= ip.size ==> ByteAt(d, ip, p) == 0;
    }
  }

  /** From v to w, the size of inode i was rounded up and stored. */
  lemma RoundedFiles(v: State, w: State, i: nat, files: seq<seq<Byte>>)
    requires HasFiles(v, files) && ZeroTails(v) && i < |files| && |v.disk| == |w.disk| && v.table[i].size >= 0
    requires w.table == v.table[i := v.table[i].(size := RoundedUp(v.table[i].size))]
    requires w.table[i].Stored() && w.table[i].size <= MAXFILE * BSIZE &&
      KeepsOthers(v.disk, w.table, w.disk, w.table, -1)
    ensures HasFiles(w, files[i := Padded(files[i])]) && ZeroTails(w)
  {
    assert Note(0);
    var after := files[i := Padded(files[i])];
    forall m | 0 <= m < |files| ensures FileIs(w, m, after[m]) && ZeroTail(w.disk, w.table[m]) {
      assert FileIs(v, m, files[m]);
      SameContent(v.disk, w.table[m], w.disk, w.table[m]);
      if m == i {
        PaddedContent(v.disk, v.table[i], w.table[i]);
        forall p | 0 <= p < MAXFILE * BSIZE && w.table[i].size <= p ensures ByteAt(v.disk, v.table[i], p) == 0 {
        }
        SizedTail(v.disk, v.table[i], w.disk, w.table[i]);
      } else {
        KeepsTail(v.disk, v.table[m], w.disk, w.table[m]);
      }
    }
  }

  class Builder {
    const sb: Super
    var image: Image
    var freeblock: nat
    var usedblocks: nat
    var freeinode: nat
    /** The image with the bits of the blocks in use set, and its files. */
    ghost var view: State
    /** The bytes appended to each inode. */
    ghost var files: seq<seq<Byte>>

    ghost predicate Building(i: int, len: int)
      reads this
    {
      Builds(sb, image.blocks, freeblock, view, i, len) && usedblocks == freeblock
    }

    /** Building, as the loop of iappend keeps it. */
    ghost predicate Extending(i: int, len: int)
      reads this
    {
      forall k {:trigger Watch(k)} :: Watch(k) ==> Building(i, len)
    }

    ghost predicate Valid()
      reads this
    {
      && Building(-1, 0) && 0 < freeinode
      && HasFiles(view, files) && FreeFrom(view, freeinode) && ZeroTails(view)
    }

    /** The start of main: a blank image with a superblock. */
    constructor (sb: Super, nblocks: nat)
      requires sb.Start() + nblocks + sb.nlog == sb.size < TWO32 && 0 < sb.nlog && sb.ninodes < TWO32
      ensures Valid() && this.sb == sb && freeblock == sb.Start() && freeinode == 1 && files == seq(sb.ninodes, _ => [])
      ensures image.blocks[1] == Block(SuperBytes(sb, nblocks))
    {
      this.sb, freeblock, usedblocks, freeinode := sb, sb.Start(), sb.Start(), 1;
      var d := seq(sb.size, _ => ZeroBlock())[1 := Block(SuperBytes(sb, nblocks))];
      image := Image(d);
      EmptyImage(sb, d);
      EmptyFiles(sb, d);
      view := State(WithBits(sb, d, sb.Start()), EmptyTable(sb.ninodes), map[], {});
      files := seq(sb.ninodes, _ => []);
    }

    method Rinode(inum: nat) returns (din: Inode)
      requires Building(-1, 0) && inum < |view.table|
      ensures din == view.table[inum] && din.Stored() && din.size <= MAXFILE * BSIZE
    {
      Open(sb, view.disk, view.F(), inum);
      assert Peek(0);
      WithBitsAt(sb, image.blocks, freeblock, IBlock(inum));
      din := GetInode(image.blocks[IBlock(inum)].bytes, InodeOff(inum));
    }

    method Winode(inum: nat, din: Inode, ghost len: int)
      requires Building(inum, len) && inum < |view.table| && view.table[inum] == din
      modifies this`image, this`view
      ensures Building(inum, len) && view.table == old(view.table) && view.refs == old(view.refs) &&
        view.logged == old(view.logged)
      ensures IBlock(inum) < sb.size && InodeOf(sb, view.disk, inum) == din
      ensures KeepsOthers(old(view.disk), view.table, view.disk, view.table, -1)
    {
      InodeStored(sb, image.blocks, freeblock, view, inum, len);
      image := Image(image.blocks[IBlock(inum) :=
        Block(PutInode(image.blocks[IBlock(inum)].bytes, InodeOff(inum), din))]);
      view := view.(disk := PutInodeOf(sb, view.disk, inum, din));
    }

    /** ialloc: the next inode, of the given type and with one link. */
    method Ialloc(itype: nat) returns (inum: nat)
      requires Valid() && freeinode < sb.ninodes && itype < 0x1_0000
      modifies this`image, this`view, this`freeinode
      ensures Valid() && inum == old(freeinode) && freeinode == inum + 1
      ensures view.table == old(view.table)[inum := FreeInode().(itype := itype, nlink := 1)]
    {
      inum := freeinode;
      freeinode := freeinode + 1;
      var din := Inode(itype, 0, 0, 1, 0, seq(NDIRECT + 1, _ => 0));
      ghost var v := view;
      assert v.table[inum] == FreeInode() && din.addrs == v.table[inum].addrs;
      Open(sb, v.disk, v.F(), inum);
      SelfApart(sb, v.disk, v.F(), inum, 0);
      SameAddrs(sb, v.disk, v.F(), inum, 0, din);
      view := view.(table := view.table[inum := din]);
      Winode(inum, din, 0);
      Close(sb, view.disk, view.F(), inum);
      RetypedFiles(v, view, inum, files);
      RetypedTails(v, view, inum);
    }

    /** The direct half of iappend's block search; false if the image is full. */
    method MapDirect(inum: nat, din: Inode, fbn: nat, ghost len: int) returns (fits: bool, after: Inode, x: int)
      requires Building(inum, len) && inum < |view.table| && view.table[inum] == din && fbn < NDIRECT &&
        fbn * BSIZE <= len
      modifies this`freeblock, this`usedblocks, this`view
      ensures !fits ==> old(freeblock) + Extra(len, fbn) > sb.LogStart()
      ensures fits ==> freeblock == old(freeblock) + Extra(len, fbn)
      ensures fits ==>
        Building(inum, NewLen(len, fbn)) && Mapped(sb, old(view), view, inum, fbn, len, x) && view.table[inum] == after
    {
      after := din;
      FindBlock(sb, view.disk, view.F(), inum, len, fbn);
      if din.addrs[fbn] == 0 {
        if freeblock >= sb.LogStart() {
          return false, after, 0;
        }
        view := TakeDirect(sb, image.blocks, freeblock, view, inum, fbn);
        after := din.(addrs := din.addrs[fbn := freeblock]);
        freeblock := freeblock + 1;
        usedblocks := usedblocks + 1;
      } else {
        FoundBlock(sb, image.blocks, freeblock, view, inum, len, fbn);
      }
      return true, after, after.addrs[fbn];
    }

    /** An indirect block for the inode, unless it has one. */
    method MapIndirect(inum: nat, din: Inode, ghost len: int) returns (fits: bool, after: Inode)
      requires Building(inum, len) && inum < |view.table| && view.table[inum] == din && NDIRECT * BSIZE <= len
      modifies this`freeblock, this`usedblocks, this`view
      ensures !fits ==> old(freeblock) >= sb.LogStart() && len == NDIRECT * BSIZE
      ensures fits ==> freeblock == old(freeblock) + if len == NDIRECT * BSIZE then 1 else 0
      ensures fits ==> Pending(sb, image.blocks, freeblock, view.disk) && usedblocks == freeblock
      ensures |after.addrs| == NDIRECT + 1
      ensures fits ==> Indirect(sb, old(view), view, inum, len, after.addrs[NDIRECT]) && view.table[inum] == after
    {
      after := din;
      FindBlock(sb, view.disk, view.F(), inum, len, 0);
      if din.addrs[NDIRECT] == 0 {
        if freeblock >= sb.LogStart() {
          return false, after;
        }
        view := TakeIndirect(sb, image.blocks, freeblock, view, inum);
        after := din.(addrs := din.addrs[NDIRECT := freeblock]);
        freeblock := freeblock + 1;
        usedblocks := usedblocks + 1;
      } else {
        HasIndirect(sb, image.blocks, freeblock, view, inum, len);
      }
      return true, after;
    }

    /** An entry of the indirect block for block fbn, unless it has one. */
    method MapEntry(inum: nat, fbn: nat, x: int, ghost len: int, ghost v: State) returns (fits: bool, b: int)
      requires Pending(sb, image.blocks, freeblock, view.disk) && usedblocks == freeblock
      requires Indirect(sb, v, view, inum, len, x) && NDIRECT <= fbn < MAXFILE && fbn * BSIZE <= len
      requires Ok(sb, v.disk, v.F(), inum, len)
      modifies this`image, this`freeblock, this`usedblocks, this`view
      ensures !fits ==> old(freeblock) >= sb.LogStart() && len == fbn * BSIZE
      ensures fits ==> freeblock == old(freeblock) + if fbn * BSIZE < len then 0 else 1
      ensures fits ==>
        Building(inum, NewLen(len, fbn)) && Mapped(sb, v, view, inum, fbn, len, b) && view.table == old(view.table)
    {
      FoundEntry(sb, image.blocks, freeblock, v, view, inum, len, fbn);
      b := Word(image.blocks[x].bytes, 4 * (fbn - NDIRECT));
      if b == 0 {
        if freeblock >= sb.LogStart() {
          return false, 0;
        }
        view := TakeEntry(sb, image.blocks, freeblock, v, view, inum, fbn, x);
        b := freeblock;
        image := Image(image.blocks[x := Block(PutWord(image.blocks[x].bytes, 4 * (fbn - NDIRECT), b))]);
        freeblock := freeblock + 1;
        usedblocks := usedblocks + 1;
      }
      fits := true;
    }

    /** The block of the file that holds byte `at`, taken if it has none; false if the image is full. */
    method MapBlock(inum: nat, din: Inode, fbn: nat, ghost len: int) returns (fits: bool, after: Inode, x: int)
      requires Building(inum, len) && inum < |view.table| && view.table[inum] == din && fbn < MAXFILE &&
        fbn * BSIZE <= len
      modifies this`image, this`freeblock, this`usedblocks, this`view
      ensures !fits ==> old(freeblock) + Extra(len, fbn) > sb.LogStart()
      ensures fits ==> freeblock == old(freeblock) + Extra(len, fbn)
      ensures fits ==>
        Building(inum, NewLen(len, fbn)) && Mapped(sb, old(view), view, inum, fbn, len, x) && view.table[inum] == after
    {
      if fbn < NDIRECT {
        fits, after, x := MapDirect(inum, din, fbn, len);
        return;
      }
      fits, after := MapIndirect(inum, din, len);
      if fits {
        fits, x := MapEntry(inum, fbn, after.addrs[NDIRECT], len, old(view));
      } else {
        x := 0;
      }
    }

    /** One pass of iappend's loop: as much of p as fits into the block that holds byte off. */
    method AppendChunk(inum: nat, din: Inode, off: nat, p: seq<Byte>) returns (fits: bool, after: Inode, n1: nat)
      requires inum < |view.table| && view.table[inum] == din && din.size <= MAXFILE * BSIZE
      requires Extending(inum, off) && 0 <= din.size <= off < MAXFILE * BSIZE && p != []
      modifies this`image, this`freeblock, this`usedblocks, this`view
      ensures 0 < n1 <= |p|
      ensures if fits then Took(old(freeblock), freeblock, off, off + n1)
              else Short(old(freeblock), off, off + n1, sb.LogStart())
      ensures fits ==>
        off + n1 <= MAXFILE * BSIZE && inum < |view.table| && view.table[inum] == after && after.size == din.size
      ensures fits ==> Extending(inum, off + n1) && Chunked(sb, old(view), view, inum, off, p[..n1])
    {
      assert Watch(0);
      var fbn, x := off / BSIZE, 0;
      fits, after, x := MapBlock(inum, din, fbn, Max(din.size, off));
      n1 := Min(|p|, (fbn + 1) * BSIZE - off);
      ChunkTakes(off, n1, old(freeblock), sb.LogStart());
      if fits {
        PutChunk(inum, off, x, p[..n1], old(view));
      }
    }

    /** rsect, bcopy and wsect of the block x that holds byte off of the file. */
    method PutChunk(inum: nat, off: nat, x: int, chunk: seq<Byte>, ghost s: State)
      requires inum < |s.table| && off / BSIZE < MAXFILE && Ok(sb, s.disk, s.F(), inum, off)
      requires 0 <= s.table[inum].size <= off && Mapped(sb, s, view, inum, off / BSIZE, off, x)
      requires Building(inum, NewLen(off, off / BSIZE))
      requires 0 < |chunk| <= BSIZE - off % BSIZE && off + |chunk| <= MAXFILE * BSIZE
      modifies this`image, this`view
      ensures Extending(inum, off + |chunk|) && Chunked(sb, s, view, inum, off, chunk)
      ensures view.table == old(view.table) && view.table[inum].size == s.table[inum].size
    {
      ChunkOnImage(sb, image.blocks, freeblock, s, view, inum, off, x, chunk);
      image := Image(image.blocks[x := Block(Splice(image.blocks[x].bytes, off % BSIZE, chunk))]);
      view := StoreChunk(view, off, x, chunk);
    }

    /** The same pass, seen from the whole append of p, of which n bytes are in place before and m after it. */
    method AppendNext(inum: nat, din: Inode, p: seq<Byte>, n: nat, ghost s: State)
      returns (fits: bool, after: Inode, m: nat)
      requires inum < |view.table| && view.table[inum] == din && 0 <= din.size <= MAXFILE * BSIZE && n < |p|
      requires Extending(inum, din.size + n)
      requires Writing(sb, s, view, inum, din.size, p[..n])
      modifies this`image, this`freeblock, this`usedblocks, this`view
      ensures n < m <= |p|
      ensures fits ==> Took(old(freeblock), freeblock, din.size + n, din.size + m)
      ensures !fits ==>
        din.size + n >= MAXFILE * BSIZE || Short(old(freeblock), din.size + n, din.size + m, sb.LogStart())
      ensures fits ==> din.size + m <= MAXFILE * BSIZE && inum < |view.table| && view.table[inum] == after
      ensures fits ==> after.size == din.size && Extending(inum, din.size + m)
      ensures fits ==> Writing(sb, s, view, inum, din.size, p[..m])
    {
      if (din.size + n) / BSIZE >= MAXFILE {
        return false, din, |p|;
      }
      ghost var v := view;
      var n1;
      fits, after, n1 := AppendChunk(inum, din, din.size + n, p[n..]);
      m := n + n1;
      if fits {
        WritingNext(sb, s, v, view, inum, din.size, p, n, n1);
      }
    }

    /** The loop of iappend; the blocks are in place and the size is still to be stored. */
    method AppendLoop(inum: nat, din: Inode, p: seq<Byte>) returns (fits: bool, after: Inode)
      requires inum < |view.table| && view.table[inum] == din && 0 <= din.size <= MAXFILE * BSIZE
      requires Extending(inum, din.size) && Writing(sb, view, view, inum, din.size, [])
      modifies this`image, this`freeblock, this`usedblocks, this`view
      ensures !fits ==>
        din.size + |p| > MAXFILE * BSIZE || Short(old(freeblock), din.size, din.size + |p|, sb.LogStart())
      ensures fits ==> Took(old(freeblock), freeblock, din.size, din.size + |p|)
      ensures fits ==> inum < |view.table| && view.table[inum] == after && after.size == din.size
      ensures fits ==> Extending(inum, din.size + |p|) && Writing(sb, old(view), view, inum, din.size, p)
    {
      ghost var s := view;
      after := din;
      var n := 0;
      while n < |p|
        invariant 0 <= n <= |p| && inum < |view.table| && view.table[inum] == after && after.size == din.size
        invariant Extending(inum, after.size + n) && Writing(sb, s, view, inum, after.size, p[..n])
        invariant Took(old(freeblock), freeblock, after.size, after.size + n)
      {
        var m;
        ghost var u := freeblock;
        fits, after, m := AppendNext(inum, after, p, n, s);
        if !fits {
          if din.size + n < MAXFILE * BSIZE {
            ShortEarlier(old(freeblock), u, din.size, din.size + n, din.size + m, din.size + |p|, sb.LogStart());
          }
          return;
        }
        TookMore(old(freeblock), u, freeblock, din.size, din.size + n, din.size + m);
        n := m;
      }
      assert p[..n] == p;
      fits := true;
    }

    /**
      iappend: the bytes go to the end of the file and no other file changes.  False if the file
      would exceed MAXFILE blocks (an assertion of the source) or the image has no block left.
    */
    method Iappend(inum: nat, p: seq<Byte>) returns (fits: bool)
      requires Valid() && inum < freeinode <= sb.ninodes
      modifies this`image, this`freeblock, this`usedblocks, this`view, this`files
      ensures inum < |old(files)|
      ensures fits <==>
        && |old(files)[inum] + p| <= MAXFILE * BSIZE
        && old(freeblock) + FileBlocks(|old(files)[inum] + p|) - FileBlocks(|old(files)[inum]|) <= sb.LogStart()
      ensures fits ==> freeblock == old(freeblock) + FileBlocks(|old(files)[inum] + p|) - FileBlocks(|old(files)[inum]|)
      ensures fits ==> Valid() && files == old(files)[inum := old(files)[inum] + p]
    {
      var din := Rinode(inum);
      Open(sb, view.disk, view.F(), inum);
      assert FileIs(view, inum, files[inum]);
      AppendStart(sb, view, inum);
      fits, din := AppendLoop(inum, din, p);
      assert Heed(0) && Watch(0);
      if !fits {
        return;
      }
      AppendFinish(inum, din, p, old(view));
      assert FileIs(view, inum, files[inum]);
    }

    /** The end of iappend: the new size. */
    method AppendFinish(inum: nat, din: Inode, p: seq<Byte>, ghost s: State)
      requires inum < |s.table| && s.table[inum].size >= 0 && Writing(sb, s, view, inum, s.table[inum].size, p)
      requires inum < |view.table| && view.table[inum] == din && din.size == s.table[inum].size &&
        Building(inum, din.size + |p|)
      requires HasFiles(s, files) && FreeFrom(s, freeinode) && inum < freeinode && |s.disk| == sb.size && ZeroTails(s)
      modifies this`image, this`view, this`files
      ensures Valid() && files == old(files)[inum := old(files)[inum] + p]
    {
      ghost var v := view;
      var after := din.(size := din.size + |p|);
      AppendSized(sb, image.blocks, freeblock, s, v, inum, p);
      view := view.(table := view.table[inum := after]);
      Winode(inum, after, after.size);
      AppendEnd(sb, s, v, view, inum, p, files);
      AppendTails(sb, s, v, view, inum, p);
      files := files[inum := files[inum] + p];
    }

    /** main's "fix size of root inode dir", for a size that is not a multiple of the block size. */
    method RoundSize(inum: nat)
      requires Valid() && inum < freeinode <= sb.ninodes && inum < |files| && |files[inum]| % BSIZE != 0
      modifies this`image, this`view, this`files
      ensures Valid() && files == old(files)[inum := Padded(old(files)[inum])]
    {
      var din := Rinode(inum);
      ghost var v := view;
      assert FileIs(view, inum, files[inum]);
      Open(sb, view.disk, view.F(), inum);
      var after := din.(size := RoundedUp(din.size));
      RootSizeRight(sb, view.disk, view.F(), inum);
      view := view.(table := view.table[inum := after]);
      Winode(inum, after, after.size);
      Close(sb, view.disk, view.F(), inum);
      RoundedFiles(v, view, inum, files);
      files := files[inum := Padded(files[inum])];
    }

    /**
      balloc: set the bits of all blocks in use.  The image then is what the kernel's invariant
      asks for.  False if an assertion of the source fails.
    */
    method Balloc() returns (ok: bool)
      requires Valid()
      modifies this`image
      ensures ok <==> usedblocks < BPB
      ensures ok ==> image.blocks == view.disk && Ok(sb, image.blocks, view.F(), -1, 0) && HasFiles(view, files)
      ensures ok ==> MarkedTo(sb, image.blocks, freeblock)
    {
      if usedblocks >= BPB {
        return false;
      }
      BitmapWritten(sb, image.blocks, freeblock, view.disk);
      PendingMarks(sb, image.blocks, freeblock, view.disk);
      var buf := SetBits(usedblocks);
      image := Image(image.blocks[sb.ninodes / IPB + 3 := Block(buf)]);
      return true;
    }
  }

  datatype Op = Alloc(itype: nat) | Append(inum: nat, data: seq<Byte>)

  /** The bytes that a run of mkfs appends to inode i. */
  function Appended(ops: seq<Op>, i: nat): seq<Byte> {
    if ops == [] then []
    else
      var op := ops[|ops| - 1];
      Appended(ops[..|ops| - 1], i) + (if op.Append? && op.inum == i then op.data else [])
  }

  function Contents(ops: seq<Op>, n: nat): seq<seq<Byte>> { seq(n, i requires 0 <= i < n => Appended(ops, i)) }

  /** The inodes that a run hands out, inode 0 included. */
  function Inodes(ops: seq<Op>): nat {
    if ops == [] then 1 else Inodes(ops[..|ops| - 1]) + if ops[|ops| - 1].Alloc? then 1 else 0
  }

  /** The call op is possible after a run that has handed out `inodes` inodes. */
  predicate Possible(sb: Super, inodes: nat, op: Op) {
    match op
    case Alloc(itype) => inodes < sb.ninodes && itype < 0x1_0000
    case Append(inum, _) => inum < inodes <= sb.ninodes
  }

  predicate AllPossible(sb: Super, ops: seq<Op>) {
    ops == [] || (AllPossible(sb, ops[..|ops| - 1]) && Possible(sb, Inodes(ops[..|ops| - 1]), ops[|ops| - 1]))
  }

  /** No file exceeds MAXFILE blocks, and the files with their indirect blocks fit into nblocks. */
  predicate Holds(sb: Super, nblocks: nat, files: seq<seq<Byte>>) {
    (forall i :: 0 <= i < |files| ==> |files[i]| <= MAXFILE * BSIZE) && TotalBlocks(files) <= nblocks
  }

  /** The run makes an image: its calls are possible, its files fit, and one bitmap block covers the blocks in use. */
  predicate Fits(sb: Super, nblocks: nat, ops: seq<Op>) {
    && AllPossible(sb, ops) && Holds(sb, nblocks, Contents(ops, sb.ninodes))
    && sb.Start() + TotalBlocks(Contents(ops, sb.ninodes)) < BPB
  }

  lemma {:induction false} PossiblePrefix(sb: Super, ops: seq<Op>, k: nat)
    requires AllPossible(sb, ops) && k <= |ops|
    ensures AllPossible(sb, ops[..k])
  {
    if k == |ops| {
      assert ops[..k] == ops;
    } else {
      PossiblePrefix(sb, ops[..|ops| - 1], k);
      assert ops[..|ops| - 1][..k] == ops[..k];
    }
  }

  lemma {:induction false} AppendedGrows(ops: seq<Op>, k: nat, i: nat)
    requires k <= |ops|
    ensures |Appended(ops[..k], i)| <= |Appended(ops, i)|
  {
    if k == |ops| {
      assert ops[..k] == ops;
    } else {
      AppendedGrows(ops[..|ops| - 1], k, i);
      assert ops[..|ops| - 1][..k] == ops[..k];
    }
  }

  /** What does not fit after k calls does not fit in the end. */
  lemma HoldsPrefix(sb: Super, nblocks: nat, ops: seq<Op>, k: nat)
    requires Holds(sb, nblocks, Contents(ops, sb.ninodes)) && k <= |ops|
    ensures Holds(sb, nblocks, Contents(ops[..k], sb.ninodes))
  {
    var files, more := Contents(ops[..k], sb.ninodes), Contents(ops, sb.ninodes);
    forall i | 0 <= i < sb.ninodes ensures |files[i]| <= |more[i]| {
      AppendedGrows(ops, k, i);
    }
    TotalGrows(files, more);
  }

  /** The run up to and including call k. */
  lemma NextCall(sb: Super, ops: seq<Op>, k: nat)
    requires k < |ops| && AllPossible(sb, ops[..k])
    ensures AllPossible(sb, ops[..k + 1]) <==> Possible(sb, Inodes(ops[..k]), ops[k])
    ensures Inodes(ops[..k + 1]) == Inodes(ops[..k]) + if ops[k].Alloc? then 1 else 0
  {
    assert ops[..k + 1][..k] == ops[..k];
  }

  lemma NextContents(ops: seq<Op>, k: nat, n: nat)
    requires k < |ops|
    ensures Contents(ops[..k + 1], n) ==
      if ops[k].Append? && ops[k].inum < n
      then Contents(ops[..k], n)[ops[k].inum := Appended(ops[..k], ops[k].inum) + ops[k].data]
      else Contents(ops[..k], n)
  {
    assert ops[..k + 1][..k] == ops[..k];
    var files, more := Contents(ops[..k], n), Contents(ops[..k + 1], n);
    forall i | 0 <= i < n && !(ops[k].Append? && ops[k].inum == i) ensures more[i] == files[i] {
      assert files[i] + [] == files[i];
    }
  }

  /** Call k, of iappend, goes through exactly if the files still fit after it. */
  lemma NextAppend(sb: Super, nblocks: nat, ops: seq<Op>, k: nat)
    requires k < |ops| && ops[k].Append? && ops[k].inum < sb.ninodes && AllPossible(sb, ops[..k])
    requires Holds(sb, nblocks, Contents(ops[..k], sb.ninodes))
    ensures
      var now, after := Appended(ops[..k], ops[k].inum), Appended(ops[..k], ops[k].inum) + ops[k].data;
      var files, more := Contents(ops[..k], sb.ninodes), Contents(ops[..k + 1], sb.ninodes);
      && TotalBlocks(more) == TotalBlocks(files) + FileBlocks(|after|) - FileBlocks(|now|)
      && (Holds(sb, nblocks, more) <==>
            |after| <= MAXFILE * BSIZE && TotalBlocks(files) + FileBlocks(|after|) - FileBlocks(|now|) <= nblocks)
  {
    NextContents(ops, k, sb.ninodes);
    var i, files, more := ops[k].inum, Contents(ops[..k], sb.ninodes), Contents(ops[..k + 1], sb.ninodes);
    TotalAfter(files, i, more[i]);
    assert more[i] == Appended(ops[..k], i) + ops[k].data;
  }

  /** What the run ops has come to: its files, the next inode and the next block. */
  ghost predicate RanTo(sb: Super, nblocks: nat, ops: seq<Op>, files: seq<seq<Byte>>, inodes: nat, next: nat) {
    forall k {:trigger Glance(k)} :: Glance(k) ==>
      && files == Contents(ops, sb.ninodes) && inodes == Inodes(ops) && next == sb.Start() + TotalBlocks(files)
      && AllPossible(sb, ops) && Holds(sb, nblocks, files)
  }

  lemma RanNowhere(sb: Super, nblocks: nat, files: seq<seq<Byte>>)
    requires files == seq(sb.ninodes, _ => [])
    ensures RanTo(sb, nblocks, [], files, 1, sb.Start())
  {
    TotalOfNone(files);
    assert files == Contents([], sb.ninodes);
  }

  lemma RanFacts(sb: Super, nblocks: nat, ops: seq<Op>, k: nat, files: seq<seq<Byte>>, inodes: nat, next: nat)
    requires k < |ops| && RanTo(sb, nblocks, ops[..k], files, inodes, next)
    ensures AllPossible(sb, ops[..k]) && Holds(sb, nblocks, files) && files == Contents(ops[..k], sb.ninodes)
    ensures inodes == Inodes(ops[..k]) && next == sb.Start() + TotalBlocks(files)
  {
    assert Glance(0);
  }

  /** ialloc changes no content. */
  lemma RanAlloc(sb: Super, nblocks: nat, ops: seq<Op>, k: nat, files: seq<seq<Byte>>, inodes: nat, next: nat)
    requires k < |ops| && ops[k].Alloc? && RanTo(sb, nblocks, ops[..k], files, inodes, next) &&
      Possible(sb, inodes, ops[k])
    ensures RanTo(sb, nblocks, ops[..k + 1], files, inodes + 1, next)
  {
    RanFacts(sb, nblocks, ops, k, files, inodes, next);
    NextCall(sb, ops, k);
    NextContents(ops, k, sb.ninodes);
  }

  /** iappend goes through exactly if the files still fit. */
  lemma RanAppend(sb: Super, nblocks: nat, ops: seq<Op>, k: nat, files: seq<seq<Byte>>, inodes: nat, next: nat)
    requires k < |ops| && ops[k].Append? && RanTo(sb, nblocks, ops[..k], files, inodes, next) &&
      Possible(sb, inodes, ops[k])
    ensures |files| == sb.ninodes
    ensures
      var i := ops[k].inum;
      var after, last := files[i] + ops[k].data, next + FileBlocks(|files[i] + ops[k].data|) - FileBlocks(|files[i]|);
      if |after| <= MAXFILE * BSIZE && last <= sb.Start() + nblocks
      then last >= 0 && RanTo(sb, nblocks, ops[..k + 1], files[i := after], inodes, last)
      else !Fits(sb, nblocks, ops)
  {
    RanFacts(sb, nblocks, ops, k, files, inodes, next);
    NextCall(sb, ops, k);
    NextContents(ops, k, sb.ninodes);
    NextAppend(sb, nblocks, ops, k);
    if Fits(sb, nblocks, ops) {
      HoldsPrefix(sb, nblocks, ops, k + 1);
    }
  }

  lemma RanStuck(sb: Super, nblocks: nat, ops: seq<Op>, k: nat, files: seq<seq<Byte>>, inodes: nat, next: nat)
    requires k < |ops| && RanTo(sb, nblocks, ops[..k], files, inodes, next) && !Possible(sb, inodes, ops[k])
    ensures !Fits(sb, nblocks, ops)
  {
    RanFacts(sb, nblocks, ops, k, files, inodes, next);
    NextCall(sb, ops, k);
    if Fits(sb, nblocks, ops) {
      PossiblePrefix(sb, ops, k + 1);
    }
  }

  lemma RanThrough(sb: Super, nblocks: nat, ops: seq<Op>, files: seq<seq<Byte>>, inodes: nat, next: nat)
    requires RanTo(sb, nblocks, ops, files, inodes, next)
    ensures Fits(sb, nblocks, ops) <==> next < BPB
    ensures |files| == sb.ninodes && forall i :: 0 <= i < sb.ninodes ==> files[i] == Appended(ops, i)
    ensures next == sb.Start() + TotalBlocks(Contents(ops, sb.ninodes)) && inodes == Inodes(ops)
  {
    assert Glance(0);
  }

  /** A run of mkfs: ialloc and iappend calls, then the bitmap; an image comes out exactly of the runs that fit. */
  method Build(sb: Super, nblocks: nat, ops: seq<Op>) returns (fits: bool, image: Disk, ghost v: State)
    requires sb.Start() + nblocks + sb.nlog == sb.size < TWO32 && 0 < sb.nlog && sb.ninodes < TWO32
    ensures fits <==> Fits(sb, nblocks, ops)
    ensures fits ==> v.disk == image && Ok(sb, image, v.F(), -1, 0) && |v.table| == sb.ninodes
    ensures fits ==> forall i :: 0 <= i < sb.ninodes ==> FileIs(v, i, Appended(ops, i))
    ensures fits ==> MarkedTo(sb, image, sb.Start() + TotalBlocks(Contents(ops, sb.ninodes)))
  {
    var b := new Builder(sb, nblocks);
    v, image := b.view, [];
    RanNowhere(sb, nblocks, b.files);
    fits := Run(b, nblocks, ops);
    if fits {
      RanThrough(sb, nblocks, ops, b.files, b.freeinode, b.freeblock);
      fits := b.Balloc();
      image, v := b.image.blocks, b.view;
      forall i | fits && 0 <= i < sb.ninodes ensures FileIs(v, i, Appended(ops, i)) {
        assert FileIs(v, i, b.files[i]);
      }
    }
  }

  /** The calls of a run, one after the other. */
  method Run(b: Builder, nblocks: nat, ops: seq<Op>) returns (fits: bool)
    requires b.Valid() && b.sb.LogStart() == b.sb.Start() + nblocks
    requires RanTo(b.sb, nblocks, [], b.files, b.freeinode, b.freeblock)
    modifies b
    ensures fits ==> b.Valid() && RanTo(b.sb, nblocks, ops, b.files, b.freeinode, b.freeblock)
    ensures !fits ==> !Fits(b.sb, nblocks, ops)
  {
    var k := 0;
    while k < |ops|
      invariant 0 <= k <= |ops| && b.Valid() && RanTo(b.sb, nblocks, ops[..k], b.files, b.freeinode, b.freeblock)
      decreases |ops| - k
    {
      fits := Call(b, nblocks, ops, k);
      if !fits {
        return;
      }
      k := k + 1;
    }
    assert ops[..k] == ops;
    fits := true;
  }

  const ROOTINO := 1

  /** What inode i holds in the end: for the root, the bytes appended and zeros to the end of the block. */
  function MainContent(ops: seq<Op>, i: nat): seq<Byte> {
    if i == ROOTINO then Padded(Appended(ops, i)) else Appended(ops, i)
  }

  /** The run fits, and rounding the root's size up is right. */
  predicate MainFits(sb: Super, nblocks: nat, ops: seq<Op>) {
    Fits(sb, nblocks, ops) && ROOTINO < Inodes(ops) <= sb.ninodes && |Appended(ops, ROOTINO)| % BSIZE != 0
  }

  /**
    main: the calls, the rounding of the root's size and the bitmap.  An image in order comes out
    exactly if the calls fit and the root's size is not a multiple of the block size.
  */
  method BuildMain(sb: Super, nblocks: nat, ops: seq<Op>) returns (fits: bool, image: Disk, ghost v: State)
    requires sb.Start() + nblocks + sb.nlog == sb.size < TWO32 && 0 < sb.nlog && sb.ninodes < TWO32
    ensures fits <==> MainFits(sb, nblocks, ops)
    ensures fits ==> v.disk == image && Ok(sb, image, v.F(), -1, 0) && |v.table| == sb.ninodes
    ensures fits ==> forall i :: 0 <= i < sb.ninodes ==> FileIs(v, i, MainContent(ops, i))
  {
    var b := new Builder(sb, nblocks);
    v, image := b.view, [];
    RanNowhere(sb, nblocks, b.files);
    fits := Run(b, nblocks, ops);
    if fits {
      RanThrough(sb, nblocks, ops, b.files, b.freeinode, b.freeblock);
      fits := FinishMain(b);
      image, v := b.image.blocks, b.view;
      forall i | fits && 0 <= i < sb.ninodes ensures FileIs(v, i, MainContent(ops, i)) {
        assert FileIs(v, i, b.files[i]);
      }
    }
  }

  /** The end of main: the rounding and the bitmap; false if that does not leave an image in order. */
  method FinishMain(b: Builder) returns (fits: bool)
    requires b.Valid()
    modifies b
    ensures |old(b.files)| == b.sb.ninodes
    ensures fits <==>
      && ROOTINO < old(b.freeinode) <= b.sb.ninodes && old(b.usedblocks) < BPB
      && |old(b.files)[ROOTINO]| % BSIZE != 0
    ensures fits ==> b.files == old(b.files)[ROOTINO := Padded(old(b.files)[ROOTINO])] && HasFiles(b.view, b.files)
    ensures fits ==> b.image.blocks == b.view.disk && Ok(b.sb, b.image.blocks, b.view.F(), -1, 0)
  {
    if !(ROOTINO < b.freeinode <= b.sb.ninodes) {
      return false;
    }
    var din := b.Rinode(ROOTINO);
    assert FileIs(b.view, ROOTINO, b.files[ROOTINO]);
    if din.size % BSIZE == 0 {
      return false;
    }
    b.RoundSize(ROOTINO);
    fits := b.Balloc();
  }

  /** One call of a run; false if it cannot be made or its bytes do not fit. */
  method Call(b: Builder, nblocks: nat, ops: seq<Op>, k: nat) returns (fits: bool)
    requires k < |ops| && b.Valid() && b.sb.LogStart() == b.sb.Start() + nblocks
    requires RanTo(b.sb, nblocks, ops[..k], b.files, b.freeinode, b.freeblock)
    modifies b
    ensures fits ==> b.Valid() && RanTo(b.sb, nblocks, ops[..k + 1], b.files, b.freeinode, b.freeblock)
    ensures !fits ==> !Fits(b.sb, nblocks, ops)
  {
    if !Possible(b.sb, b.freeinode, ops[k]) {
      RanStuck(b.sb, nblocks, ops, k, b.files, b.freeinode, b.freeblock);
      return false;
    }
    match ops[k] {
    case Alloc(itype) =>
      RanAlloc(b.sb, nblocks, ops, k, b.files, b.freeinode, b.freeblock);
      var _ := b.Ialloc(itype);
      fits := true;
    case Append(inum, data) =>
      RanAppend(b.sb, nblocks, ops, k, b.files, b.freeinode, b.freeblock);
      fits := b.Iappend(inum, data);
    }
  }

  /** The inodes of an image, read one by one. */
  method LoadInodes(sb: Super, image: Disk, ghost v: State) returns (t: seq<Inode>)
    requires Ok(sb, image, v.F(), -1, 0)
    ensures t == v.table
  {
    t := [];
    while |t| < sb.ninodes
      invariant |t| <= sb.ninodes && t == v.table[..|t|]
      decreases sb.ninodes - |t|
    {
      var m := |t|;
      Open(sb, image, v.F(), m);
      t := t + [GetInode(image[IBlock(m)].bytes, InodeOff(m))];
    }
  }

  /** The kernel's readi on an image in order. */
  method ReadImage(sb: Super, image: Disk, ghost v: State, i: nat, off: nat, n: nat) returns (r: int, dst: seq<Byte>)
    requires Ok(sb, image, v.F(), -1, 0) && v.disk == image && i < sb.ninodes && off < TWO32 && n < TWO32
    ensures v.table[i].Stored() && v.table[i].size <= MAXFILE * BSIZE
    ensures var c := Content(image, v.table[i]);
      && r == (if off > |c| || off + n >= TWO32 then -1 else Min(n, |c| - off))
      && (r >= 0 ==> dst == c[off..off + r])
  {
    var t := LoadInodes(sb, image, v);
    var fs := new Fs(sb, image, t, v.refs);
    r, dst := fs.Readi(i, off, n);
  }

  /** What the kernel's readi returns from an image built by mkfs is what mkfs was given. */
  method BuildThenRead(sb: Super, nblocks: nat, ops: seq<Op>, i: nat, off: nat, n: nat)
    returns (fits: bool, r: int, dst: seq<Byte>)
    requires sb.Start() + nblocks + sb.nlog == sb.size < TWO32 && 0 < sb.nlog && sb.ninodes < TWO32
    requires i < sb.ninodes && off < TWO32 && n < TWO32
    ensures fits <==> Fits(sb, nblocks, ops)
    ensures fits ==>
      r == if off > |Appended(ops, i)| || off + n >= TWO32 then -1 else Min(n, |Appended(ops, i)| - off)
    ensures fits && r >= 0 ==> dst == Appended(ops, i)[off..off + r]
  {
    var image;
    ghost var v;
    fits, image, v := Build(sb, nblocks, ops);
    r, dst := 0, [];
    if fits {
      assert FileIs(v, i, Appended(ops, i));
      r, dst := ReadImage(sb, image, v, i, off, n);
    }
  }

  /** The same after all of main: the root reads as what was appended to it, with zeros to the end of its block. */
  method MainThenRead(sb: Super, nblocks: nat, ops: seq<Op>, i: nat, off: nat, n: nat)
    returns (fits: bool, r: int, dst: seq<Byte>)
    requires sb.Start() + nblocks + sb.nlog == sb.size < TWO32 && 0 < sb.nlog && sb.ninodes < TWO32
    requires i < sb.ninodes && off < TWO32 && n < TWO32
    ensures fits <==> MainFits(sb, nblocks, ops)
    ensures fits ==>
      r == if off > |MainContent(ops, i)| || off + n >= TWO32 then -1 else Min(n, |MainContent(ops, i)| - off)
    ensures fits && r >= 0 ==> dst == MainContent(ops, i)[off..off + r]
  {
    var image;
    ghost var v;
    fits, image, v := BuildMain(sb, nblocks, ops);
    r, dst := 0, [];
    if fits {
      assert FileIs(v, i, MainContent(ops, i));
      r, dst := ReadImage(sb, image, v, i, off, n);
    }
  }

  // --- A full disk ---

  /**
    What the kernel's balloc does with an image whose data blocks are all in use: mkfs has left the
    bits of the log clear, so it hands out the first block of the log, the header, and zeroes it.
  */
  method BallocOnFull(sb: Super, nblocks: nat, ops: seq<Op>) returns (b: int, d: Disk)
    requires sb.Start() + nblocks + sb.nlog == sb.size < TWO32 && 0 < sb.nlog && sb.ninodes < TWO32
    requires Fits(sb, nblocks, ops) && TotalBlocks(Contents(ops, sb.ninodes)) == nblocks
    ensures b == sb.LogStart() < |d| && d[b] == ZeroBlock()
  {
    var image;
    ghost var v;
    var fits;
    fits, image, v := Build(sb, nblocks, ops);
    assert sb.BBlock(sb.LogStart()) < sb.Start() && !Used(sb, image, sb.LogStart());
    var fs := new Fs(sb, image, [], map[]);
    b := fs.BallocWhenFull();
    d := fs.disk.blocks;
  }

  /** An image whose root has 64 entries, and so 1024 bytes: rounding its size up breaks the kernel's invariant. */
  method RoundingBreaks() returns (sb: Super, image: Disk, ghost v: State)
    ensures Ok(sb, image, v.F(), -1, 0) && |v.table| > 1 && v.table[1].Stored() && v.table[1].size == 64 * 16
    ensures IBlock(1) < sb.size && InodeOf(sb, image, 1) == v.table[1]
    ensures
      var jp := v.table[1].(size := RoundedUp(v.table[1].size));
      jp.Stored() && !Ok(sb, PutInodeOf(sb, image, 1, jp), Files(v.table[1 := jp], v.refs), -1, 0)
  {
    sb := Super(16, 16, 10);
    var data := seq(1024, _ => 0);
    var ops := [Alloc(1), Append(1, data)];
    OneFileFits(sb, ops, data);
    var fits;
    fits, image, v := Build(sb, 1, ops);
    assert FileIs(v, 1, Appended(ops, 1));
    RootTooLarge(sb, image, v);
  }

  lemma RootTooLarge(sb: Super, image: Disk, v: State)
    requires v.disk == image && Ok(sb, image, v.F(), -1, 0) && |v.table| > 1 && v.table[1].size == 1024
    ensures IBlock(1) < sb.size && InodeOf(sb, image, 1) == v.table[1] && v.table[1].Stored()
    ensures
      var jp := v.table[1].(size := RoundedUp(v.table[1].size));
      jp.Stored() && !Ok(sb, PutInodeOf(sb, image, 1, jp), Files(v.table[1 := jp], v.refs), -1, 0)
  {
    RootSizeFix(sb, image, v.F(), 1);
    Open(sb, image, v.F(), 1);
  }

  /** A run that makes one file of at most a block. */
  lemma OneFileFits(sb: Super, ops: seq<Op>, data: seq<Byte>)
    requires sb == Super(16, 16, 10) && ops == [Alloc(1), Append(1, data)] && 0 < |data| <= BSIZE
    ensures Fits(sb, 1, ops) && TotalBlocks(Contents(ops, sb.ninodes)) == 1 && Appended(ops, 1) == data
  {
    var none: seq<seq<Byte>> := seq(16, _ => []);
    assert ops[..0] == [] && ops[..2] == ops;
    RanNowhere(sb, 1, none);
    RanAlloc(sb, 1, ops, 0, none, 1, sb.Start());
    assert none[1] + data == data;
    RanAppend(sb, 1, ops, 1, none, 2, sb.Start());
    RanThrough(sb, 1, ops, none[1 := data], 2, sb.Start() + 1);
  }

  /** There are such images: one data block, and one file of one byte. */
  lemma FullImage() returns (sb: Super, nblocks: nat, ops: seq<Op>)
    ensures sb.Start() + nblocks + sb.nlog == sb.size < TWO32 && sb.nlog == 10 && nblocks > 0
    ensures Fits(sb, nblocks, ops) && TotalBlocks(Contents(ops, sb.ninodes)) == nblocks
  {
    sb, nblocks, ops := Super(16, 16, 10), 1, [Alloc(1), Append(1, [0])];
    OneFileFits(sb, ops, [0]);
  }
}
