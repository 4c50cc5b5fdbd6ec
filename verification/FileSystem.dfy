/**
  Block allocation, block mapping and inode content of kernel/fs.c, on the disk as the
  block cache and the log present it: a bread sees the last log_write of the block.

  `table` holds every inode as the kernel sees it, that is the in-memory copy of the
  inode in use and the disk's copy of the others.  `owner` maps each block in use to
  the inode slot or indirect slot that names it.
*/
module Ownership {
  import opened Sets
  import opened Bytes
  import opened DiskFormat

  /**
    Where a block number is kept: direct slot or indirect-block slot k of inode i, or entry j of its indirect block.
  */
  datatype Ref = Slot(i: nat, k: nat) | Entry(i: nat, j: nat)

  /** The inode table and who owns which block. */
  datatype Files = Files(table: seq<Inode>, owner: map<int, Ref>)

  /** The block number in entry j of inode i's indirect block, 0 without one. */
  ghost function EntryAt(d: Disk, ip: Inode, j: int): int
    requires 0 <= j < NINDIRECT && |ip.addrs| == NDIRECT + 1
  {
    var x := ip.addrs[NDIRECT];
    if 0 < x < |d| && d[x].Full() then Word(d[x].bytes, 4 * j) else 0
  }

  ghost predicate Names(d: Disk, f: Files, r: Ref, b: int) {
    && r.i < |f.table| && |f.table[r.i].addrs| == NDIRECT + 1
    && match r
       case Slot(i, k) => k <= NDIRECT && f.table[i].addrs[k] == b
       case Entry(i, j) => j < NINDIRECT && EntryAt(d, f.table[i], j) == b
  }

  ghost predicate Shaped(sb: Super, d: Disk, f: Files) {
    && sb.Good() && Whole(sb, d) && |f.table| == sb.ninodes
    && forall i :: 0 <= i < |f.table| ==> f.table[i].Stored()
  }

  /** Every name is the owner of what it names, and the other way round. */
  ghost predicate Owns(sb: Super, d: Disk, f: Files)
    requires Shaped(sb, d, f)
  {
    && (forall i, k :: 0 <= i < |f.table| && 0 <= k <= NDIRECT && f.table[i].addrs[k] != 0 ==>
          f.table[i].addrs[k] in f.owner && f.owner[f.table[i].addrs[k]] == Slot(i, k))
    && (forall i, j :: 0 <= i < |f.table| && 0 <= j < NINDIRECT && EntryAt(d, f.table[i], j) != 0 ==>
          EntryAt(d, f.table[i], j) in f.owner && f.owner[EntryAt(d, f.table[i], j)] == Entry(i, j))
    && (forall b :: b in f.owner ==> sb.Data(b) && Names(d, f, f.owner[b], b))
  }

  /** The bitmap marks the metadata blocks, and of the data blocks exactly those that are owned or in `spare`. */
  ghost predicate Marked(sb: Super, d: Disk, owner: map<int, Ref>, spare: set<int>)
    requires sb.Good() && Whole(sb, d)
  {
    && (forall b {:trigger Used(sb, d, b)} :: 0 <= b < sb.Start() ==> Used(sb, d, b))
    && (forall b {:trigger Used(sb, d, b)} :: sb.Data(b) ==> (Used(sb, d, b) <==> b in owner || b in spare))
  }

  ghost predicate Inv(sb: Super, d: Disk, f: Files, spare: set<int>) {
    Shaped(sb, d, f) && Owns(sb, d, f) && Marked(sb, d, f.owner, spare)
  }

  lemma BitmapFits(sb: Super, b: nat)
    requires sb.Good() && b < sb.size
    ensures sb.BBlock(b) < sb.Start() <= sb.size
  {
  }

  // --- Counting free blocks ---

  predicate InBitmap(sb: Super, b: int) { sb.ninodes / IPB + 3 <= b < sb.Start() }

  /** The data blocks whose bit is clear. */
  ghost function FreeBlocks(sb: Super, d: Disk): set<int>
    requires sb.Good() && Whole(sb, d)
  {
    set b | sb.Start() <= b < sb.LogStart() && sb.BBlock(b) < sb.size && !Used(sb, d, b)
  }

  /** How many there are. */
  ghost function FreeData(sb: Super, d: Disk): (n: int)
    ensures n >= 0
  {
    if sb.Good() && Whole(sb, d) then |FreeBlocks(sb, d)| else 0
  }

  lemma FreeTaken(sb: Super, d: Disk, b: int)
    requires sb.Good() && Whole(sb, d) && sb.Data(b) && sb.BBlock(b) < sb.size && !Used(sb, d, b)
    ensures FreeData(sb, PutUsed(sb, d, b, true)[b := ZeroBlock()]) == FreeData(sb, d) - 1
  {
    var e := PutUsed(sb, d, b, true)[b := ZeroBlock()];
    BitmapFits(sb, b);
    forall c | 0 <= c < sb.size && sb.BBlock(c) < sb.size ensures Used(sb, e, c) == (c == b || Used(sb, d, c)) {
      BitmapFits(sb, c);
      PutUsedAt(sb, d, b, true, c);
    }
    assert FreeBlocks(sb, e) == FreeBlocks(sb, d) - {b};
  }

  /** Blocks outside the bitmap do not matter. */
  lemma FreeKept(sb: Super, d: Disk, x: int, data: Block)
    requires sb.Good() && Whole(sb, d) && 0 <= x < sb.size && !InBitmap(sb, x) && data.Full()
    ensures FreeData(sb, d[x := data]) == FreeData(sb, d)
  {
    forall c | 0 <= c < sb.size && sb.BBlock(c) < sb.size ensures Used(sb, d[x := data], c) == Used(sb, d, c) {
      BitmapFits(sb, c);
    }
    assert FreeBlocks(sb, d[x := data]) == FreeBlocks(sb, d);
  }

  /** No block is free exactly if every data block is in use. */
  lemma NoneFree(sb: Super, d: Disk)
    requires sb.Good() && Whole(sb, d)
    ensures FreeData(sb, d) == 0 <==> forall b :: sb.Data(b) ==> sb.BBlock(b) < sb.Start() && Used(sb, d, b)
  {
    forall b | sb.Data(b) ensures sb.BBlock(b) < sb.Start() {
      BitmapFits(sb, b);
    }
    if FreeData(sb, d) > 0 {
      var b := Pick(FreeBlocks(sb, d));
      assert sb.Data(b) && !Used(sb, d, b);
    } else {
      forall b | sb.Data(b) ensures Used(sb, d, b) {
        assert b !in FreeBlocks(sb, d);
      }
    }
  }

  // --- balloc and bfree ---

  /** balloc marks a clear data block and zeroes it; every file keeps its blocks. */
  lemma AllocKeeps(sb: Super, d: Disk, f: Files, spare: set<int>, b: int)
    requires Inv(sb, d, f, spare) && sb.Data(b) && b !in f.owner && b !in spare
    ensures sb.BBlock(b) < sb.Start()
    ensures Inv(sb, PutUsed(sb, d, b, true)[b := ZeroBlock()], f, spare + {b})
  {
    BitmapFits(sb, b);
    var e := PutUsed(sb, d, b, true)[b := ZeroBlock()];
    forall c | 0 <= c < sb.size ensures sb.BBlock(c) < sb.Start() && Used(sb, e, c) == (c == b || Used(sb, d, c)) {
      BitmapFits(sb, c);
      PutUsedAt(sb, d, b, true, c);
    }
    forall i, j | 0 <= i < |f.table| && 0 <= j < NINDIRECT
      ensures EntryAt(e, f.table[i], j) == EntryAt(d, f.table[i], j)
    {
      assert f.table[i].addrs[NDIRECT] != 0 ==> f.table[i].addrs[NDIRECT] in f.owner;
    }
  }

  ghost function WithAddr(f: Files, i: nat, k: nat, b: int): seq<Inode>
    requires i < |f.table| && k < |f.table[i].addrs|
  {
    f.table[i := f.table[i].(addrs := f.table[i].addrs[k := b])]
  }

  lemma WithAddrEntries(sb: Super, d: Disk, f: Files, i: nat, k: nat, b: int)
    requires Shaped(sb, d, f) && i < |f.table| && k <= NDIRECT && 0 <= b < TWO32
    requires k == NDIRECT ==> forall j :: 0 <= j < NINDIRECT ==>
      EntryAt(d, f.table[i], j) == 0 && EntryAt(d, WithAddr(f, i, k, b)[i], j) == 0
    ensures Shaped(sb, d, Files(WithAddr(f, i, k, b), f.owner))
    ensures forall m, j :: 0 <= m < |f.table| && 0 <= j < NINDIRECT ==>
      EntryAt(d, WithAddr(f, i, k, b)[m], j) == EntryAt(d, f.table[m], j)
  {
  }

  /** bmap stores a fresh block in an empty slot of the inode. */
  lemma AttachSlot(sb: Super, d: Disk, f: Files, spare: set<int>, i: nat, k: nat, b: int)
    requires Inv(sb, d, f, spare) && i < |f.table| && k <= NDIRECT && f.table[i].addrs[k] == 0
    requires sb.Data(b) && b in spare && b !in f.owner && (k == NDIRECT ==> d[b] == ZeroBlock())
    ensures Inv(sb, d, Files(WithAddr(f, i, k, b), f.owner[b := Slot(i, k)]), spare - {b})
  {
    var g := Files(WithAddr(f, i, k, b), f.owner[b := Slot(i, k)]);
    if k == NDIRECT {
      forall j | 0 <= j < NINDIRECT ensures EntryAt(d, f.table[i], j) == 0 && EntryAt(d, g.table[i], j) == 0 {
      }
    }
    WithAddrEntries(sb, d, f, i, k, b);
    forall c | c in g.owner ensures sb.Data(c) && Names(d, g, g.owner[c], c) {
      if c != b {
        assert Names(d, f, f.owner[c], c);
      }
    }
  }

  /** d with entry j of the indirect block x set to b. */
  ghost function WithEntry(d: Disk, x: nat, j: nat, b: int): Disk
    requires x < |d| && d[x].Full() && j < NINDIRECT && 0 <= b < TWO32
  {
    d[x := Block(PutWord(d[x].bytes, 4 * j, b))]
  }

  /** Writing one entry of inode i's indirect block changes that entry alone. */
  lemma WithEntryAt(sb: Super, d: Disk, f: Files, i: nat, j: nat, b: int, m: nat, l: nat)
    requires Shaped(sb, d, f) && Owns(sb, d, f) && i < |f.table| && j < NINDIRECT &&
      f.table[i].addrs[NDIRECT] != 0 && 0 <= b < TWO32
    requires m < |f.table| && l < NINDIRECT
    ensures f.table[i].addrs[NDIRECT] < |d|
    ensures EntryAt(WithEntry(d, f.table[i].addrs[NDIRECT], j, b), f.table[m], l) == if m == i && l == j then b
      else EntryAt(d, f.table[m], l)
  {
    var x := f.table[i].addrs[NDIRECT];
    assert x in f.owner && f.owner[x] == Slot(i, NDIRECT);
    assert m != i ==> f.table[m].addrs[NDIRECT] != x;
  }

  /** bmap stores a fresh block in an empty entry of the indirect block. */
  lemma AttachEntry(sb: Super, d: Disk, f: Files, spare: set<int>, i: nat, j: nat, b: int)
    requires Inv(sb, d, f, spare) && i < |f.table| && j < NINDIRECT && f.table[i].addrs[NDIRECT] != 0
    requires EntryAt(d, f.table[i], j) == 0 && sb.Data(b) && b in spare && b !in f.owner
    ensures f.table[i].addrs[NDIRECT] < |d|
    ensures Inv(sb, WithEntry(d, f.table[i].addrs[NDIRECT], j, b), Files(f.table, f.owner[b := Entry(i, j)]),
      spare - {b})
  {
    var x := f.table[i].addrs[NDIRECT];
    assert x in f.owner;
    var e, g := WithEntry(d, x, j, b), Files(f.table, f.owner[b := Entry(i, j)]);
    forall m, l | 0 <= m < |f.table| && 0 <= l < NINDIRECT
      ensures EntryAt(e, f.table[m], l) == if m == i && l == j then b else EntryAt(d, f.table[m], l)
    {
      WithEntryAt(sb, d, f, i, j, b, m, l);
    }
    forall c | c in g.owner ensures sb.Data(c) && Names(e, g, g.owner[c], c) {
      if c != b {
        assert Names(d, f, f.owner[c], c);
      }
    }
    SameBits(sb, d, e);
  }

  /** A write to a data block leaves the bitmap alone. */
  lemma SameBits(sb: Super, d: Disk, e: Disk)
    requires sb.Good() && Whole(sb, d) && Whole(sb, e)
    requires forall b :: 0 <= b < sb.Start() ==> d[b] == e[b]
    ensures forall b {:trigger Used(sb, e, b)} :: 0 <= b < sb.size && sb.BBlock(b) < sb.Start() ==>
      Used(sb, e, b) == Used(sb, d, b)
  {
  }

  /** bfree clears the bit of one block and of no other. */
  lemma FreeBits(sb: Super, d: Disk, owner: map<int, Ref>, spare: set<int>, b: int)
    requires sb.Good() && Whole(sb, d) && Marked(sb, d, owner, spare) && sb.Data(b) && b in owner && b !in spare
    ensures sb.BBlock(b) < sb.Start() && Used(sb, d, b)
    ensures Marked(sb, PutUsed(sb, d, b, false), owner - {b}, spare)
  {
    BitmapFits(sb, b);
    var e := PutUsed(sb, d, b, false);
    forall c | 0 <= c < sb.size ensures sb.BBlock(c) < sb.Start() && Used(sb, e, c) == (c != b && Used(sb, d, c)) {
      BitmapFits(sb, c);
      PutUsedAt(sb, d, b, false, c);
    }
  }

  lemma BitmapEntries(sb: Super, d: Disk, e: Disk, f: Files)
    requires Shaped(sb, d, f) && Owns(sb, d, f) && Whole(sb, e)
    requires forall b :: sb.Start() <= b < sb.size ==> d[b] == e[b]
    ensures forall m, j :: 0 <= m < |f.table| && 0 <= j < NINDIRECT ==>
      EntryAt(e, f.table[m], j) == EntryAt(d, f.table[m], j)
  {
    forall m | 0 <= m < |f.table| && f.table[m].addrs[NDIRECT] != 0 ensures sb.Data(f.table[m].addrs[NDIRECT]) {
      assert f.table[m].addrs[NDIRECT] in f.owner;
    }
  }

  /** itrunc frees the block in slot k and clears the slot. */
  lemma DetachSlot(sb: Super, d: Disk, f: Files, spare: set<int>, i: nat, k: nat)
    requires Inv(sb, d, f, spare) && i < |f.table| && k <= NDIRECT && f.table[i].addrs[k] != 0 &&
      f.table[i].addrs[k] !in spare
    requires k == NDIRECT ==> forall j :: 0 <= j < NINDIRECT ==> EntryAt(d, f.table[i], j) == 0
    ensures
      var b := f.table[i].addrs[k];
      sb.Data(b) && sb.BBlock(b) < sb.Start() && Used(sb, d, b) &&
      Inv(sb, PutUsed(sb, d, b, false), Files(WithAddr(f, i, k, 0), f.owner - {b}), spare)
  {
    var b := f.table[i].addrs[k];
    assert b in f.owner && f.owner[b] == Slot(i, k);
    FreeBits(sb, d, f.owner, spare, b);
    var e, g := PutUsed(sb, d, b, false), Files(WithAddr(f, i, k, 0), f.owner - {b});
    BitmapEntries(sb, d, e, f);
    WithAddrEntries(sb, e, f, i, k, 0);
    forall c | c in g.owner ensures sb.Data(c) && Names(e, g, g.owner[c], c) {
      assert Names(d, f, f.owner[c], c);
    }
  }

  /** itrunc frees the block in entry j; the model clears the entry, which the code leaves to be discarded. */
  lemma DetachEntry(sb: Super, d: Disk, f: Files, spare: set<int>, i: nat, j: nat)
    requires Inv(sb, d, f, spare) && i < |f.table| && j < NINDIRECT && EntryAt(d, f.table[i], j) != 0 &&
      EntryAt(d, f.table[i], j) !in spare
    ensures
      var b, x := EntryAt(d, f.table[i], j), f.table[i].addrs[NDIRECT];
      sb.Data(b) && sb.BBlock(b) < sb.Start() && Used(sb, d, b) && sb.Data(x) &&
      Inv(sb, WithEntry(PutUsed(sb, d, b, false), x, j, 0), Files(f.table, f.owner - {b}), spare)
  {
    var b, x := EntryAt(d, f.table[i], j), f.table[i].addrs[NDIRECT];
    assert b in f.owner && f.owner[b] == Entry(i, j);
    assert x in f.owner && f.owner[x] == Slot(i, NDIRECT);
    FreeBits(sb, d, f.owner, spare, b);
    var d1 := PutUsed(sb, d, b, false);
    BitmapEntries(sb, d, d1, f);
    var e, g := WithEntry(d1, x, j, 0), Files(f.table, f.owner - {b});
    forall m, l | 0 <= m < |f.table| && 0 <= l < NINDIRECT
      ensures EntryAt(e, f.table[m], l) == if m == i && l == j then 0 else EntryAt(d, f.table[m], l)
    {
      WithEntryAt(sb, d1, f, i, j, 0, m, l);
    }
    forall c | c in g.owner ensures sb.Data(c) && Names(e, g, g.owner[c], c) {
      assert Names(d, f, f.owner[c], c);
    }
    SameBits(sb, d1, e);
  }

  /** A block that no name leads to as an indirect block may hold anything. */
  lemma WriteData(sb: Super, d: Disk, f: Files, spare: set<int>, y: int, data: Block)
    requires Inv(sb, d, f, spare) && sb.Data(y) && data.Full()
    requires y in f.owner ==> f.owner[y].Entry? || f.owner[y].k < NDIRECT
    ensures Inv(sb, d[y := data], f, spare)
    ensures forall m, j :: 0 <= m < |f.table| && 0 <= j < NINDIRECT ==>
      EntryAt(d[y := data], f.table[m], j) == EntryAt(d, f.table[m], j)
  {
    var e := d[y := data];
    forall m | 0 <= m < |f.table| ensures f.table[m].addrs[NDIRECT] != y {
      assert f.table[m].addrs[NDIRECT] != 0 ==> f.owner[f.table[m].addrs[NDIRECT]] == Slot(m, NDIRECT);
    }
    forall m, j | 0 <= m < |f.table| && 0 <= j < NINDIRECT
      ensures EntryAt(e, f.table[m], j) == EntryAt(d, f.table[m], j)
    {
    }
    forall c | c in f.owner ensures sb.Data(c) && Names(e, f, f.owner[c], c) {
      assert Names(d, f, f.owner[c], c);
    }
    SameBits(sb, d, e);
  }

  /** iupdate writes an inode block, which is neither a bitmap nor a data block. */
  lemma UpdateInode(sb: Super, d: Disk, f: Files, spare: set<int>, i: nat)
    requires Inv(sb, d, f, spare) && i < |f.table|
    ensures IBlock(i) < sb.ninodes / IPB + 3 && IBlock(i) < sb.size && f.table[i].Stored()
    ensures Inv(sb, PutInodeOf(sb, d, i, f.table[i]), f, spare)
    ensures forall m, j :: 0 <= m < |f.table| && 0 <= j < NINDIRECT ==>
      EntryAt(PutInodeOf(sb, d, i, f.table[i]), f.table[m], j) == EntryAt(d, f.table[m], j)
  {
    var e := PutInodeOf(sb, d, i, f.table[i]);
    BitmapEntries(sb, d, e, f);
    forall b | 0 <= b < sb.size ensures sb.BBlock(b) < sb.Start() && Used(sb, e, b) == Used(sb, d, b) {
      BitmapFits(sb, b);
    }
  }
}

/** The blocks and bytes of files, and what each kind of write does to them. */
module FileContent {
  import opened Bytes
  import opened DiskFormat
  import opened Ownership

  /** The disk block that holds block bn of a file, 0 if there is none. */
  ghost function FileBlock(d: Disk, ip: Inode, bn: int): int
    requires 0 <= bn < MAXFILE && |ip.addrs| == NDIRECT + 1
  {
    if bn < NDIRECT then ip.addrs[bn] else EntryAt(d, ip, bn - NDIRECT)
  }

  /** Exactly the blocks that start below len are mapped, and the indirect block exists if one of them needs it. */
  ghost predicate MappedTo(d: Disk, ip: Inode, len: int)
    requires |ip.addrs| == NDIRECT + 1
  {
    && (forall bn :: 0 <= bn < MAXFILE ==> (FileBlock(d, ip, bn) != 0 <==> bn * BSIZE < len))
    && (ip.addrs[NDIRECT] != 0 <==> NDIRECT * BSIZE < len)
  }

  /** Block bn of the file is the same block, with the same data, in both states. */
  ghost predicate KeepsBlock(d: Disk, ip: Inode, e: Disk, jp: Inode, bn: int)
    requires 0 <= bn < MAXFILE && |ip.addrs| == NDIRECT + 1 && |jp.addrs| == NDIRECT + 1
  {
    var b := FileBlock(d, ip, bn);
    FileBlock(e, jp, bn) == b && (0 < b < |d| && b < |e| ==> e[b] == d[b])
  }

  ghost predicate KeepsFile(d: Disk, ip: Inode, e: Disk, jp: Inode)
    requires |ip.addrs| == NDIRECT + 1 && |jp.addrs| == NDIRECT + 1
  {
    forall bn :: 0 <= bn < MAXFILE ==> KeepsBlock(d, ip, e, jp, bn)
  }

  /** Every inode but `but` keeps its blocks. */
  ghost predicate KeepsOthers(d: Disk, t: seq<Inode>, e: Disk, u: seq<Inode>, but: int) {
    && |t| == |u|
    && forall m :: 0 <= m < |t| && m != but ==>
         |t[m].addrs| == NDIRECT + 1 && u[m] == t[m] && KeepsFile(d, t[m], e, u[m])
  }

  /** The owner of a file's block. */
  function RefOf(i: nat, bn: nat): Ref { if bn < NDIRECT then Slot(i, bn) else Entry(i, bn - NDIRECT) }

  lemma FileBlockOwned(sb: Super, d: Disk, f: Files, i: nat, bn: nat)
    requires Shaped(sb, d, f) && Owns(sb, d, f) && i < |f.table| && bn < MAXFILE && FileBlock(d, f.table[i], bn) != 0
    ensures var b := FileBlock(d, f.table[i], bn); b in f.owner && f.owner[b] == RefOf(i, bn) && sb.Data(b) && b < |d|
  {
  }

  /** balloc disturbs no file. */
  lemma AllocKeepsFiles(sb: Super, d: Disk, f: Files, spare: set<int>, b: int)
    requires Inv(sb, d, f, spare) && sb.Data(b) && b !in f.owner && b !in spare && sb.BBlock(b) < sb.Start()
    ensures KeepsOthers(d, f.table, PutUsed(sb, d, b, true)[b := ZeroBlock()], f.table, -1)
  {
    var d1 := PutUsed(sb, d, b, true);
    var e := d1[b := ZeroBlock()];
    forall m, bn | 0 <= m < |f.table| && 0 <= bn < MAXFILE ensures KeepsBlock(d, f.table[m], e, f.table[m], bn) {
      assert f.table[m].addrs[NDIRECT] != 0 ==> f.table[m].addrs[NDIRECT] in f.owner;
      if FileBlock(d, f.table[m], bn) != 0 {
        FileBlockOwned(sb, d, f, m, bn);
      }
    }
  }

  /** All blocks of a file but block `but` are kept. */
  ghost predicate KeepsBut(d: Disk, ip: Inode, e: Disk, jp: Inode, but: int)
    requires |ip.addrs| == NDIRECT + 1 && |jp.addrs| == NDIRECT + 1
  {
    forall bn :: 0 <= bn < MAXFILE && bn != but ==> KeepsBlock(d, ip, e, jp, bn)
  }

  lemma AttachDirectFiles(sb: Super, d: Disk, f: Files, i: nat, k: nat, b: int)
    requires Shaped(sb, d, f) && i < |f.table| && k < NDIRECT && 0 <= b < TWO32
    ensures
      var u := WithAddr(f, i, k, b);
      KeepsOthers(d, f.table, d, u, i) && KeepsBut(d, f.table[i], d, u[i], k) && FileBlock(d, u[i], k) == b
      && u[i].addrs[NDIRECT] == f.table[i].addrs[NDIRECT]
  {
  }

  lemma AttachIndirectFiles(sb: Super, d: Disk, f: Files, i: nat, b: int)
    requires Shaped(sb, d, f) && i < |f.table| && 0 <= b < |d| && sb.size < TWO32 &&
      f.table[i].addrs[NDIRECT] == 0 && d[b] == ZeroBlock()
    ensures var u := WithAddr(f, i, NDIRECT, b); KeepsOthers(d, f.table, d, u, i) && KeepsFile(d, f.table[i], d, u[i])
  {
  }

  lemma AttachEntryFiles(sb: Super, d: Disk, f: Files, i: nat, j: nat, b: int)
    requires Shaped(sb, d, f) && Owns(sb, d, f) && i < |f.table| && j < NINDIRECT &&
      f.table[i].addrs[NDIRECT] != 0 && 0 <= b < TWO32
    ensures f.table[i].addrs[NDIRECT] < |d|
    ensures
      var e := WithEntry(d, f.table[i].addrs[NDIRECT], j, b);
      KeepsOthers(d, f.table, e, f.table, i) && KeepsBut(d, f.table[i], e, f.table[i], NDIRECT + j)
      && FileBlock(e, f.table[i], NDIRECT + j) == b
  {
    var x := f.table[i].addrs[NDIRECT];
    assert x in f.owner && f.owner[x] == Slot(i, NDIRECT);
    var e := WithEntry(d, x, j, b);
    forall m, bn | 0 <= m < |f.table| && 0 <= bn < MAXFILE && !(m == i && bn == NDIRECT + j)
      ensures KeepsBlock(d, f.table[m], e, f.table[m], bn)
    {
      if bn >= NDIRECT {
        WithEntryAt(sb, d, f, i, j, b, m, bn - NDIRECT);
      }
      if FileBlock(d, f.table[m], bn) != 0 {
        FileBlockOwned(sb, d, f, m, bn);
      }
    }
    WithEntryAt(sb, d, f, i, j, b, i, j);
  }

  /** Writing block bn of file i changes that block of that file alone. */
  lemma WriteBlockFiles(sb: Super, d: Disk, f: Files, spare: set<int>, i: nat, bn: nat, data: Block)
    requires Inv(sb, d, f, spare) && i < |f.table| && bn < MAXFILE && FileBlock(d, f.table[i], bn) != 0 && data.Full()
    ensures
      var y := FileBlock(d, f.table[i], bn);
      sb.Data(y) && y < |d| &&
      var e := d[y := data];
      && Inv(sb, e, f, spare) && KeepsOthers(d, f.table, e, f.table, i) && KeepsBut(d, f.table[i], e, f.table[i], bn)
      && FileBlock(e, f.table[i], bn) == y
  {
    var y := FileBlock(d, f.table[i], bn);
    FileBlockOwned(sb, d, f, i, bn);
    WriteData(sb, d, f, spare, y, data);
    var e := d[y := data];
    forall m, c | 0 <= m < |f.table| && 0 <= c < MAXFILE && !(m == i && c == bn)
      ensures KeepsBlock(d, f.table[m], e, f.table[m], c)
    {
      if FileBlock(d, f.table[m], c) != 0 {
        FileBlockOwned(sb, d, f, m, c);
      }
    }
  }

  /** iupdate disturbs no file. */
  lemma UpdateKeepsFiles(sb: Super, d: Disk, f: Files, spare: set<int>, i: nat)
    requires Inv(sb, d, f, spare) && i < |f.table| && IBlock(i) < sb.Start()
    ensures KeepsOthers(d, f.table, PutInodeOf(sb, d, i, f.table[i]), f.table, -1)
  {
    UpdateInode(sb, d, f, spare, i);
    var e := PutInodeOf(sb, d, i, f.table[i]);
    forall m, bn | 0 <= m < |f.table| && 0 <= bn < MAXFILE ensures KeepsBlock(d, f.table[m], e, f.table[m], bn) {
      if FileBlock(d, f.table[m], bn) != 0 {
        FileBlockOwned(sb, d, f, m, bn);
      }
    }
  }

  lemma KeepsOthersTwice(d: Disk, t: seq<Inode>, d1: Disk, t1: seq<Inode>, d2: Disk, t2: seq<Inode>, i: int, j: int)
    requires KeepsOthers(d, t, d1, t1, i) && KeepsOthers(d1, t1, d2, t2, j) && |d| == |d1| == |d2| &&
      (i == -1 || i == j)
    ensures KeepsOthers(d, t, d2, t2, j)
  {
    forall m, bn | 0 <= m < |t| && m != j && 0 <= bn < MAXFILE
      ensures |t[m].addrs| == NDIRECT + 1 && KeepsBlock(d, t[m], d2, t2[m], bn)
    {
      assert KeepsBlock(d, t[m], d1, t1[m], bn) && KeepsBlock(d1, t1[m], d2, t2[m], bn);
    }
  }

  // --- Bytes ---

  /** Byte p of a file, 0 where no block is mapped. */
  ghost function ByteAt(d: Disk, ip: Inode, p: int): Byte
    requires 0 <= p < MAXFILE * BSIZE && |ip.addrs| == NDIRECT + 1
  {
    var b := FileBlock(d, ip, p / BSIZE);
    if 0 < b < |d| && d[b].Full() then d[b].bytes[p % BSIZE] else 0
  }

  /** The file as a sequence of bytes. */
  ghost function Content(d: Disk, ip: Inode): (s: seq<Byte>)
    requires 0 <= ip.size <= MAXFILE * BSIZE && |ip.addrs| == NDIRECT + 1
    ensures |s| == ip.size
  {
    seq(ip.size, p requires 0 <= p < ip.size => ByteAt(d, ip, p))
  }

  /** A file whose blocks and size are kept has the same content. */
  lemma SameContent(d: Disk, ip: Inode, e: Disk, jp: Inode)
    requires 0 <= ip.size <= MAXFILE * BSIZE && |ip.addrs| == NDIRECT + 1 && |jp.addrs| == NDIRECT + 1
    requires |d| == |e| && jp.size == ip.size && KeepsFile(d, ip, e, jp)
    ensures Content(e, jp) == Content(d, ip)
  {
    forall p | 0 <= p < ip.size ensures ByteAt(e, jp, p) == ByteAt(d, ip, p) {
      assert KeepsBlock(d, ip, e, jp, p / BSIZE);
    }
  }
}

/** The code of kernel/fs.c. */
module FileSystem {
  import opened Guard
  import opened Bytes
  import opened DiskFormat
  import opened Ownership
  import opened FileContent
  import opened BlockCount

  // Values of fields.
  datatype Image = Image(blocks: Disk)
  datatype Owners = Owners(refs: map<int, Ref>)

  lemma BitPlace(sb: Super, q: nat, bi: nat)
    requires bi < BPB
    ensures (q * BPB + bi) / BPB == q && (q * BPB + bi) % BPB == bi
    ensures sb.BBlock(q * BPB) == sb.BBlock(q * BPB + bi) == q + sb.ninodes / IPB + 3
  {
  }

  /** Every file but i keeps its blocks, and every inode block keeps its data. */
  ghost predicate Apart(sb: Super, d: Disk, t: seq<Inode>, e: Disk, u: seq<Inode>, i: int) {
    && |d| == |e| == sb.size && sb.Good()
    && KeepsOthers(d, t, e, u, i)
    && forall b :: 0 <= b < sb.ninodes / IPB + 3 ==> e[b] == d[b]
  }

  lemma ApartTwice(sb: Super, d: Disk, t: seq<Inode>, d1: Disk, t1: seq<Inode>, d2: Disk, t2: seq<Inode>, i: int,
                   j: int)
    requires Apart(sb, d, t, d1, t1, i) && Apart(sb, d1, t1, d2, t2, j) && (i == -1 || i == j)
    ensures Apart(sb, d, t, d2, t2, j)
  {
    KeepsOthersTwice(d, t, d1, t1, d2, t2, i, j);
  }

  /** An inode other than the one in use: its blocks are exactly those below its size, and the disk has its copy. */
  ghost predicate Settled(sb: Super, d: Disk, ip: Inode, m: int)
    requires Whole(sb, d) && 0 <= m && IBlock(m) < sb.size
  {
    ip.Stored() && ip.size <= MAXFILE * BSIZE && MappedTo(d, ip, ip.size) && InodeOf(sb, d, m) == ip
  }

  ghost predicate OthersSettled(sb: Super, d: Disk, t: seq<Inode>, i: int)
    requires Whole(sb, d)
  {
    && |t| == sb.ninodes
    && forall m :: 0 <= m < |t| && m != i ==> IBlock(m) < sb.size && Settled(sb, d, t[m], m)
  }

  lemma OthersStaySettled(sb: Super, d: Disk, t: seq<Inode>, e: Disk, u: seq<Inode>, i: int)
    requires Whole(sb, d) && Whole(sb, e) && OthersSettled(sb, d, t, i) && Apart(sb, d, t, e, u, i)
    ensures OthersSettled(sb, e, u, i)
  {
    forall m | 0 <= m < |t| && m != i ensures IBlock(m) < sb.size && Settled(sb, e, u[m], m) {
      assert Settled(sb, d, t[m], m);
      forall bn | 0 <= bn < MAXFILE ensures FileBlock(e, u[m], bn) == FileBlock(d, t[m], bn) {
        assert KeepsBlock(d, t[m], e, u[m], bn);
      }
    }
  }

  /**
    The file system while inode i is in use with blocks mapped for its first len bytes;
    i == -1 when no inode is.
  */
  ghost predicate Ok(sb: Super, d: Disk, f: Files, i: int, len: int) {
    && sb.Good() && Whole(sb, d) && |f.table| == sb.ninodes
    && (0 <= i < |f.table| ==> f.table[i].Stored())
    && forall k {:trigger Look(k)} :: Look(k) ==> Core(sb, d, f, i, len)
  }

  ghost predicate Core(sb: Super, d: Disk, f: Files, i: int, len: int) {
    && Inv(sb, d, f, {})
    && OthersSettled(sb, d, f.table, i)
    && (0 <= i < |f.table| ==> MappedTo(d, f.table[i], len))
  }

  // --- bmap ---

  /** The state after balloc returned data block b. */
  ghost function AfterBalloc(sb: Super, d: Disk, b: nat): Disk
    requires Whole(sb, d) && b < sb.size && sb.BBlock(b) < sb.size
  {
    PutUsed(sb, d, b, true)[b := ZeroBlock()]
  }

  lemma FreshBlock(sb: Super, d: Disk, f: Files, b: int)
    requires Inv(sb, d, f, {}) && sb.Data(b) && sb.BBlock(b) < sb.size && !Used(sb, d, b)
    ensures b !in f.owner && Inv(sb, AfterBalloc(sb, d, b), f, {b}) &&
      Apart(sb, d, f.table, AfterBalloc(sb, d, b), f.table, -1)
  {
    AllocKeeps(sb, d, f, {}, b);
    AllocKeepsFiles(sb, d, f, {}, b);
    assert {} + {b} == {b};
  }

  /** bmap gives the inode its next direct block. */
  lemma GrowDirect(sb: Super, d: Disk, f: Files, i: nat, bn: nat, b: int)
    requires Ok(sb, d, f, i, bn * BSIZE) && i < |f.table| && bn < NDIRECT
    requires sb.Data(b) && sb.BBlock(b) < sb.size && !Used(sb, d, b)
    ensures
      var e, g := AfterBalloc(sb, d, b), Files(WithAddr(f, i, bn, b), f.owner[b := Slot(i, bn)]);
      && Ok(sb, e, g, i, bn * BSIZE + 1) && Apart(sb, d, f.table, e, g.table, i)
      && KeepsBut(d, f.table[i], e, g.table[i], bn) && FileBlock(e, g.table[i], bn) == b && e[b] == ZeroBlock()
  {
    assert Look(0);
    var e, g := AfterBalloc(sb, d, b), Files(WithAddr(f, i, bn, b), f.owner[b := Slot(i, bn)]);
    FreshBlock(sb, d, f, b);
    assert FileBlock(d, f.table[i], bn) == 0;
    AttachSlot(sb, e, f, {b}, i, bn, b);
    assert {b} - {b} == {};
    AttachDirectFiles(sb, e, f, i, bn, b);
    ApartTwice(sb, d, f.table, e, f.table, e, g.table, -1, i);
    OthersStaySettled(sb, d, f.table, e, g.table, i);
    forall c | 0 <= c < MAXFILE && c != bn ensures KeepsBlock(d, f.table[i], e, g.table[i], c) {
      assert KeepsBlock(d, f.table[i], e, f.table[i], c) && KeepsBlock(e, f.table[i], e, g.table[i], c);
    }
    forall c | 0 <= c < MAXFILE ensures FileBlock(e, g.table[i], c) != 0 <==> c * BSIZE < bn * BSIZE + 1 {
      assert c != bn ==> KeepsBlock(d, f.table[i], e, g.table[i], c);
    }
  }

  /** As Ok, with an indirect block in place whether or not it is needed yet. */
  ghost predicate OkIndirect(sb: Super, d: Disk, f: Files, i: int, len: int) {
    && sb.Good() && Whole(sb, d) && |f.table| == sb.ninodes
    && 0 <= i < |f.table| && f.table[i].Stored() && 0 < f.table[i].addrs[NDIRECT] < sb.size
    && forall k {:trigger Look(k)} :: Look(k) ==> CoreIndirect(sb, d, f, i, len)
  }

  ghost predicate CoreIndirect(sb: Super, d: Disk, f: Files, i: int, len: int)
    requires 0 <= i < |f.table|
  {
    && Inv(sb, d, f, {})
    && OthersSettled(sb, d, f.table, i)
    && forall bn :: 0 <= bn < MAXFILE ==> (FileBlock(d, f.table[i], bn) != 0 <==> bn * BSIZE < len)
  }

  /** What bmap finds in the inode. */
  lemma FindBlock(sb: Super, d: Disk, f: Files, i: nat, len: int, bn: nat)
    requires Ok(sb, d, f, i, len) && i < |f.table| && bn < MAXFILE
    ensures FileBlock(d, f.table[i], bn) != 0 <==> bn * BSIZE < len
    ensures FileBlock(d, f.table[i], bn) != 0 ==> sb.Data(FileBlock(d, f.table[i], bn))
    ensures f.table[i].addrs[NDIRECT] != 0 ==> OkIndirect(sb, d, f, i, len)
    ensures f.table[i].addrs[NDIRECT] == 0 <==> len <= NDIRECT * BSIZE
    ensures forall b :: sb.Data(b) ==> sb.BBlock(b) < sb.Start()
  {
    assert Look(0);
    if FileBlock(d, f.table[i], bn) != 0 {
      FileBlockOwned(sb, d, f, i, bn);
    }
    assert f.table[i].addrs[NDIRECT] != 0 ==> f.table[i].addrs[NDIRECT] in f.owner;
    forall b | sb.Data(b) ensures sb.BBlock(b) < sb.Start() {
      BitmapFits(sb, b);
    }
  }

  /** The metadata bits are set, so balloc never hands out a metadata block. */
  lemma MetadataUsed(sb: Super, d: Disk, f: Files, i: int, len: int)
    requires Ok(sb, d, f, i, len)
    ensures forall c :: 0 <= c < sb.Start() ==> sb.BBlock(c) < sb.Start() && Used(sb, d, c)
  {
    assert Look(0);
    forall c | 0 <= c < sb.Start() ensures sb.BBlock(c) < sb.Start() && Used(sb, d, c) {
      BitmapFits(sb, c);
    }
  }

  lemma SelfApart(sb: Super, d: Disk, f: Files, i: int, len: int)
    requires Ok(sb, d, f, i, len)
    ensures Apart(sb, d, f.table, d, f.table, i)
  {
    assert Look(0);
  }

  /** bmap gives the inode an indirect block. */
  lemma GrowIndirect(sb: Super, d: Disk, f: Files, i: nat, b: int)
    requires Ok(sb, d, f, i, NDIRECT * BSIZE) && i < |f.table|
    requires sb.Data(b) && sb.BBlock(b) < sb.size && !Used(sb, d, b)
    ensures
      var e, g := AfterBalloc(sb, d, b), Files(WithAddr(f, i, NDIRECT, b), f.owner[b := Slot(i, NDIRECT)]);
      && OkIndirect(sb, e, g, i, NDIRECT * BSIZE) && Apart(sb, d, f.table, e, g.table, i)
      && KeepsFile(d, f.table[i], e, g.table[i]) && e[b] == ZeroBlock()
  {
    assert Look(0);
    var e, g := AfterBalloc(sb, d, b), Files(WithAddr(f, i, NDIRECT, b), f.owner[b := Slot(i, NDIRECT)]);
    FreshBlock(sb, d, f, b);
    AttachSlot(sb, e, f, {b}, i, NDIRECT, b);
    assert {b} - {b} == {};
    AttachIndirectFiles(sb, e, f, i, b);
    ApartTwice(sb, d, f.table, e, f.table, e, g.table, -1, i);
    OthersStaySettled(sb, d, f.table, e, g.table, i);
    forall c | 0 <= c < MAXFILE ensures KeepsBlock(d, f.table[i], e, g.table[i], c) {
      assert KeepsBlock(d, f.table[i], e, f.table[i], c) && KeepsBlock(e, f.table[i], e, g.table[i], c);
    }
    forall c | 0 <= c < MAXFILE ensures FileBlock(e, g.table[i], c) != 0 <==> c * BSIZE < NDIRECT * BSIZE {
      assert KeepsBlock(d, f.table[i], e, g.table[i], c);
    }
  }

  /** bmap gives the inode its next block through the indirect block. */
  lemma GrowEntry(sb: Super, d: Disk, f: Files, i: nat, bn: nat, b: int)
    requires OkIndirect(sb, d, f, i, bn * BSIZE) && NDIRECT <= bn < MAXFILE
    requires sb.Data(b) && sb.BBlock(b) < sb.size && !Used(sb, d, b)
    ensures
      var x, j := f.table[i].addrs[NDIRECT], bn - NDIRECT;
      var e, g := WithEntry(AfterBalloc(sb, d, b), x, j, b), Files(f.table, f.owner[b := Entry(i, j)]);
      && sb.Data(x) && x != b && AfterBalloc(sb, d, b)[x] == d[x]
      && Ok(sb, e, g, i, bn * BSIZE + 1) && EntryMade(sb, d, f.table, e, i, bn, b) && e[b] == ZeroBlock()
  {
    assert Look(0);
    var x, j := f.table[i].addrs[NDIRECT], bn - NDIRECT;
    assert x in f.owner && f.owner[x] == Slot(i, NDIRECT);
    var d1 := AfterBalloc(sb, d, b);
    FreshBlock(sb, d, f, b);
    assert FileBlock(d, f.table[i], bn) == 0 && KeepsBlock(d, f.table[i], d1, f.table[i], bn);
    AttachEntry(sb, d1, f, {b}, i, j, b);
    assert {b} - {b} == {};
    AttachEntryFiles(sb, d1, f, i, j, b);
    var e, g := WithEntry(d1, x, j, b), Files(f.table, f.owner[b := Entry(i, j)]);
    ApartTwice(sb, d, f.table, d1, f.table, e, g.table, -1, i);
    OthersStaySettled(sb, d, f.table, e, g.table, i);
    forall c | 0 <= c < MAXFILE && c != bn ensures KeepsBlock(d, f.table[i], e, g.table[i], c) {
      assert KeepsBlock(d, f.table[i], d1, f.table[i], c) && KeepsBlock(d1, f.table[i], e, g.table[i], c);
    }
    forall c | 0 <= c < MAXFILE ensures FileBlock(e, g.table[i], c) != 0 <==> c * BSIZE < bn * BSIZE + 1 {
      assert c != bn ==> KeepsBlock(d, f.table[i], e, g.table[i], c);
    }
  }

  /** From d to e, block bn of inode i is block b and nothing else of any file changed. */
  ghost predicate EntryMade(sb: Super, d: Disk, t: seq<Inode>, e: Disk, i: nat, bn: nat, b: int) {
    && i < |t| && |t[i].addrs| == NDIRECT + 1 && bn < MAXFILE && sb.Data(b)
    && Apart(sb, d, t, e, t, i) && KeepsBut(d, t[i], e, t[i], bn) && FileBlock(e, t[i], bn) == b
  }

  /** What bmap finds in the indirect block. */
  lemma FindEntry(sb: Super, d: Disk, f: Files, i: nat, len: int, bn: nat)
    requires OkIndirect(sb, d, f, i, len) && NDIRECT <= bn < MAXFILE
    ensures Apart(sb, d, f.table, d, f.table, i)
    ensures FileBlock(d, f.table[i], bn) != 0 <==> bn * BSIZE < len
    ensures FileBlock(d, f.table[i], bn) != 0 ==> EntryMade(sb, d, f.table, d, i, bn, FileBlock(d, f.table[i], bn))
    ensures FileBlock(d, f.table[i], bn) == Word(d[f.table[i].addrs[NDIRECT]].bytes, 4 * (bn - NDIRECT))
    ensures forall c :: 0 <= c < sb.Start() ==> sb.BBlock(c) < sb.Start() && Used(sb, d, c)
  {
    assert Look(0);
    if FileBlock(d, f.table[i], bn) != 0 {
      FileBlockOwned(sb, d, f, i, bn);
    }
    forall c | 0 <= c < sb.Start() ensures sb.BBlock(c) < sb.Start() && Used(sb, d, c) {
      BitmapFits(sb, c);
    }
  }

  lemma KeepsThenKeepsBut(sb: Super, d: Disk, ip: Inode, d1: Disk, ip1: Inode, d2: Disk, ip2: Inode, bn: nat)
    requires |ip.addrs| == |ip1.addrs| == |ip2.addrs| == NDIRECT + 1 && |d| == |d1| == |d2|
    requires KeepsFile(d, ip, d1, ip1) && KeepsBut(d1, ip1, d2, ip2, bn)
    ensures KeepsBut(d, ip, d2, ip2, bn)
  {
    forall c | 0 <= c < MAXFILE && c != bn ensures KeepsBlock(d, ip, d2, ip2, c) {
      assert KeepsBlock(d, ip, d1, ip1, c) && KeepsBlock(d1, ip1, d2, ip2, c);
    }
  }

  ghost function IndirectOf(ip: Inode): set<int>
    requires |ip.addrs| == NDIRECT + 1
  {
    if ip.addrs[NDIRECT] != 0 then {ip.addrs[NDIRECT]} else {}
  }

  lemma OneBitmap(sb: Super, b: nat)
    requires b < sb.size
    ensures sb.size <= BPB ==> sb.BBlock(b) == sb.BBlock(0)
  {
  }

  // --- Opening and closing an inode ---

  /** Between calls every inode is settled; one may then be put to use. */
  lemma Open(sb: Super, d: Disk, f: Files, i: nat)
    requires Ok(sb, d, f, -1, 0) && i < |f.table|
    ensures Ok(sb, d, f, i, f.table[i].size) && f.table[i].Stored() && f.table[i].size <= MAXFILE * BSIZE
    ensures IBlock(i) < sb.Start() && InodeOf(sb, d, i) == f.table[i]
  {
    assert Look(0);
    assert Settled(sb, d, f.table[i], i);
  }

  lemma Close(sb: Super, d: Disk, f: Files, i: nat)
    requires i < |f.table| && Ok(sb, d, f, i, f.table[i].size) && f.table[i].size <= MAXFILE * BSIZE
    requires IBlock(i) < sb.size && InodeOf(sb, d, i) == f.table[i]
    ensures Ok(sb, d, f, -1, 0)
  {
    assert Look(0);
  }

  /** iupdate makes the disk's copy of the inode in use current and disturbs nothing else. */
  lemma Updated(sb: Super, d: Disk, f: Files, i: nat, len: int)
    requires Ok(sb, d, f, i, len) && i < |f.table|
    ensures IBlock(i) < sb.Start()
    ensures
      var e := PutInodeOf(sb, d, i, f.table[i]);
      Ok(sb, e, f, i, len) && InodeOf(sb, e, i) == f.table[i] && KeepsOthers(d, f.table, e, f.table, -1)
  {
    assert Look(0);
    UpdateInode(sb, d, f, {}, i);
    UpdateKeepsFiles(sb, d, f, {}, i);
    PutInodeOfAt(sb, d, i, f.table[i], i);
    var e := PutInodeOf(sb, d, i, f.table[i]);
    forall m | 0 <= m < |f.table| && m != i ensures IBlock(m) < sb.size && Settled(sb, e, f.table[m], m) {
      assert Settled(sb, d, f.table[m], m);
      PutInodeOfAt(sb, d, i, f.table[i], m);
      forall bn | 0 <= bn < MAXFILE ensures FileBlock(e, f.table[m], bn) == FileBlock(d, f.table[m], bn) {
        assert KeepsBlock(d, f.table[m], e, f.table[m], bn);
      }
    }
    forall bn | 0 <= bn < MAXFILE ensures FileBlock(e, f.table[i], bn) == FileBlock(d, f.table[i], bn) {
      assert KeepsBlock(d, f.table[i], e, f.table[i], bn);
    }
  }

  /** Lengths with the same last block map the same blocks. */
  lemma SameBlocks(sb: Super, d: Disk, f: Files, i: nat, len: int, len': int)
    requires Ok(sb, d, f, i, len) && i < |f.table|
    requires forall c :: 0 <= c < MAXFILE ==> (c * BSIZE < len <==> c * BSIZE < len')
    ensures Ok(sb, d, f, i, len')
  {
    assert Look(0);
    assert NDIRECT * BSIZE < len <==> NDIRECT * BSIZE < len';
  }

  // --- One chunk of readi and writei ---

  lemma KeepsButTwice(d: Disk, ip: Inode, d1: Disk, ip1: Inode, d2: Disk, ip2: Inode, bn: nat)
    requires |ip.addrs| == |ip1.addrs| == |ip2.addrs| == NDIRECT + 1 && |d| == |d1| == |d2|
    requires KeepsBut(d, ip, d1, ip1, bn) && KeepsBut(d1, ip1, d2, ip2, bn)
    ensures KeepsBut(d, ip, d2, ip2, bn)
  {
    forall c | 0 <= c < MAXFILE && c != bn ensures KeepsBlock(d, ip, d2, ip2, c) {
      assert KeepsBlock(d, ip, d1, ip1, c) && KeepsBlock(d1, ip1, d2, ip2, c);
    }
  }

  function Min(a: int, b: int): int { if a < b then a else b }

  lemma ChunkPlace(off: nat, m: nat, p: nat)
    requires off <= p < off + m && m <= BSIZE - off % BSIZE
    ensures p / BSIZE == off / BSIZE && p % BSIZE == off % BSIZE + (p - off)
  {
  }

  /** The part of a mapped block from off on is the part of the file from off on. */
  lemma ReadChunk(sb: Super, d: Disk, ip: Inode, off: nat, m: nat, b: int)
    requires Whole(sb, d) && |ip.addrs| == NDIRECT + 1 && 0 <= ip.size <= MAXFILE * BSIZE
    requires m <= BSIZE - off % BSIZE && off + m <= ip.size && off / BSIZE < MAXFILE
    requires FileBlock(d, ip, off / BSIZE) == b && 0 < b < |d|
    ensures d[b].bytes[off % BSIZE..off % BSIZE + m] == Content(d, ip)[off..off + m]
  {
    var c := Content(d, ip)[off..off + m];
    forall k | 0 <= k < m ensures c[k] == d[b].bytes[off % BSIZE + k] {
      ChunkPlace(off, m, off + k);
    }
  }

  lemma NextChunk(s: seq<Byte>, b: nat, m: nat)
    requires b + m <= |s|
    ensures s[..b] + s[b..][..m] == s[..b + m]
  {
  }

  lemma NextSlice(s: seq<Byte>, a: nat, b: nat, m: nat)
    requires a <= b && b + m <= |s|
    ensures s[a..b] + s[b..b + m] == s[a..b + m]
  {
  }

  /** s with the bytes from o on overwritten by src. */
  function Splice(s: seq<Byte>, o: nat, src: seq<Byte>): (r: seq<Byte>)
    requires o + |src| <= |s|
    ensures |r| == |s|
  {
    s[..o] + src + s[o + |src|..]
  }

  /** Storing into a mapped block of inode i keeps the file system, the other files and the other blocks. */
  lemma WriteChunk(sb: Super, d: Disk, f: Files, i: nat, len: int, bn: nat, data: Block)
    requires Ok(sb, d, f, i, len) && i < |f.table| && bn < MAXFILE && FileBlock(d, f.table[i], bn) != 0 && data.Full()
    ensures
      var y := FileBlock(d, f.table[i], bn);
      sb.Data(y) && y < |d| &&
      var e := d[y := data];
      Ok(sb, e, f, i, len) && Apart(sb, d, f.table, e, f.table, i) && KeepsBut(d, f.table[i], e, f.table[i], bn) &&
        FileBlock(e, f.table[i], bn) == y
  {
    assert Look(0);
    WriteBlockFiles(sb, d, f, {}, i, bn, data);
    var e := d[FileBlock(d, f.table[i], bn) := data];
    assert Apart(sb, d, f.table, e, f.table, i);
    OthersStaySettled(sb, d, f.table, e, f.table, i);
    forall c | 0 <= c < MAXFILE ensures FileBlock(e, f.table[i], c) == FileBlock(d, f.table[i], c) {
      assert c != bn ==> KeepsBlock(d, f.table[i], e, f.table[i], c);
    }
  }

  /** The bytes of a file after a chunk at `at` went into its block and the other blocks were kept. */
  lemma WroteBytes(sb: Super, d: Disk, ip: Inode, e: Disk, jp: Inode, at: nat, chunk: seq<Byte>, p: nat)
    requires Whole(sb, d) && Whole(sb, e) && |ip.addrs| == |jp.addrs| == NDIRECT + 1
    requires |chunk| <= BSIZE - at % BSIZE && at / BSIZE < MAXFILE && p / BSIZE < MAXFILE
    requires KeepsBut(d, ip, e, jp, at / BSIZE)
    requires
      var b, y := FileBlock(d, ip, at / BSIZE), FileBlock(e, jp, at / BSIZE);
      && 0 < y < |e| && (b == y || b == 0)
      && (b == y ==> e[y].bytes == Splice(d[y].bytes, at % BSIZE, chunk))
      && (b != y ==> e[y].bytes == Splice(ZeroBlock().bytes, at % BSIZE, chunk))
    ensures ByteAt(e, jp, p) == if at <= p < at + |chunk| then chunk[p - at] else ByteAt(d, ip, p)
  {
    if at <= p < at + |chunk| {
      ChunkPlace(at, |chunk|, p);
    } else if p / BSIZE != at / BSIZE {
      assert KeepsBlock(d, ip, e, jp, p / BSIZE);
    } else {
      assert p % BSIZE < at % BSIZE || p % BSIZE >= at % BSIZE + |chunk|;
    }
  }

  // --- The whole of writei ---

  /** The content of a file after src was written at off <= |c|. */
  function WriteAt(c: seq<Byte>, off: nat, src: seq<Byte>): seq<Byte>
    requires off <= |c|
  {
    c[..off] + src + (if off + |src| < |c| then c[off + |src|..] else [])
  }

  /** Blocks lo..hi of a file. */
  ghost function Span(d: Disk, ip: Inode, lo: int, hi: int): set<int>
    requires |ip.addrs| == NDIRECT + 1 && 0 <= lo && hi <= MAXFILE
  {
    set c | lo <= c < hi :: FileBlock(d, ip, c)
  }

  /** One past the last block that bytes up to `end` reach, for a write that starts in block lo. */
  function EndBlock(lo: nat, end: nat, n: nat): nat {
    if n == 0 then lo else (end - 1) / BSIZE + 1
  }

  /** What writing n bytes at off may log, apart from the inode block, with a single bitmap block. */
  ghost function MayLog(sb: Super, d: Disk, ip: Inode, off: nat, n: nat): set<int>
    requires |ip.addrs| == NDIRECT + 1 && EndBlock(off / BSIZE, off + n, n) <= MAXFILE
  {
    {sb.BBlock(0)} + IndirectOf(ip) + Span(d, ip, off / BSIZE, EndBlock(off / BSIZE, off + n, n))
  }

  /**
    The bytes written so far are in place and every other byte of the file is as it was, those past
    its end included, which are zero in blocks that are not there and in new ones.
  */
  ghost predicate Wrote(d: Disk, ip: Inode, e: Disk, jp: Inode, off: nat, done: seq<Byte>)
    requires |ip.addrs| == |jp.addrs| == NDIRECT + 1 && off + |done| <= MAXFILE * BSIZE && ip.size <= MAXFILE * BSIZE
  {
    forall p :: 0 <= p < MAXFILE * BSIZE ==>
      ByteAt(e, jp, p) == if off <= p < off + |done| then done[p - off] else ByteAt(d, ip, p)
  }

  lemma WroteMore(d: Disk, ip: Inode, d1: Disk, ip1: Inode, d2: Disk, ip2: Inode, off: nat, done: seq<Byte>,
                  chunk: seq<Byte>)
    requires |ip.addrs| == |ip1.addrs| == |ip2.addrs| == NDIRECT + 1 && ip.size == ip1.size <= MAXFILE * BSIZE
    requires off + |done| + |chunk| <= MAXFILE * BSIZE
    requires Wrote(d, ip, d1, ip1, off, done) && Wrote(d1, ip1, d2, ip2, off + |done|, chunk)
    requires off <= ip.size
    ensures Wrote(d, ip, d2, ip2, off, done + chunk)
  {
    var all := done + chunk;
    forall p | 0 <= p < MAXFILE * BSIZE
      ensures ByteAt(d2, ip2, p) == if off <= p < off + |all| then all[p - off] else ByteAt(d, ip, p)
    {
      assert ByteAt(d2, ip2, p) == if off + |done| <= p < off + |done| + |chunk| then chunk[p - off - |done|]
        else ByteAt(d1, ip1, p);
    }
  }

  /** Bytes in place make the content. */
  lemma WroteContent(d: Disk, ip: Inode, e: Disk, jp: Inode, off: nat, src: seq<Byte>)
    requires |ip.addrs| == |jp.addrs| == NDIRECT + 1 && 0 <= off <= ip.size <= MAXFILE * BSIZE &&
      off + |src| <= MAXFILE * BSIZE
    requires Wrote(d, ip, e, jp, off, src) && jp.size == Max(ip.size, off + |src|)
    ensures Content(e, jp) == WriteAt(Content(d, ip), off, src)
  {
    var c, w := Content(d, ip), WriteAt(Content(d, ip), off, src);
    assert |w| == jp.size;
    forall p | 0 <= p < jp.size ensures w[p] == ByteAt(e, jp, p) {
    }
  }

  lemma SpanGrows(d: Disk, ip: Inode, e: Disk, jp: Inode, lo: nat, off: nat, at: nat, m: nat)
    requires |ip.addrs| == |jp.addrs| == NDIRECT + 1 && |d| == |e| && m > 0 && m <= BSIZE - at % BSIZE
    requires lo == off / BSIZE && off <= at && at + m <= MAXFILE * BSIZE
    requires KeepsBut(d, ip, e, jp, at / BSIZE)
    requires off < at && (at - 1) / BSIZE == at / BSIZE ==> FileBlock(e, jp, at / BSIZE) == FileBlock(d, ip, at / BSIZE)
    ensures EndBlock(lo, at + m, at + m - off) <= MAXFILE
    ensures Span(d, ip, lo, EndBlock(lo, at, at - off)) + {FileBlock(e, jp, at / BSIZE)} <= Span(e, jp, lo,
      EndBlock(lo, at + m, at + m - off))
  {
    var hi, hi' := EndBlock(lo, at, at - off), EndBlock(lo, at + m, at + m - off);
    ChunkPlace(at, m, at + m - 1);
    assert hi' == at / BSIZE + 1;
    forall c | lo <= c < hi ensures FileBlock(d, ip, c) in Span(e, jp, lo, hi') {
      if c != at / BSIZE {
        assert KeepsBlock(d, ip, e, jp, c);
      }
      assert FileBlock(e, jp, c) in Span(e, jp, lo, hi');
    }
  }

  lemma MayLogGrows(sb: Super, d: Disk, ip: Inode, e: Disk, jp: Inode, off: nat, tot: nat, m: nat)
    requires |ip.addrs| == |jp.addrs| == NDIRECT + 1 && |d| == |e| && m > 0 && m <= BSIZE - (off + tot) % BSIZE
    requires off + tot + m <= MAXFILE * BSIZE && EndBlock(off / BSIZE, off + tot, tot) <= MAXFILE
    requires KeepsBut(d, ip, e, jp, (off + tot) / BSIZE) && IndirectOf(ip) <= IndirectOf(jp)
    requires 0 < tot && (off + tot - 1) / BSIZE == (off + tot) / BSIZE ==>
      FileBlock(e, jp, (off + tot) / BSIZE) == FileBlock(d, ip, (off + tot) / BSIZE)
    ensures EndBlock(off / BSIZE, off + tot + m, tot + m) <= MAXFILE
    ensures MayLog(sb, d, ip, off, tot) + {FileBlock(e, jp, (off + tot) / BSIZE)} <= MayLog(sb, e, jp, off, tot + m)
    ensures IndirectOf(jp) + {sb.BBlock(0)} <= MayLog(sb, e, jp, off, tot + m)
  {
    SpanGrows(d, ip, e, jp, off / BSIZE, off, off + tot, m);
  }

  /** An inode with the same addresses names the same blocks. */
  lemma SameAddrs(sb: Super, d: Disk, f: Files, i: nat, len: int, jp: Inode)
    requires Ok(sb, d, f, i, len) && i < |f.table| && jp.Stored() && jp.addrs == f.table[i].addrs
    ensures Ok(sb, d, Files(f.table[i := jp], f.owner), i, len) && KeepsFile(d, f.table[i], d, jp)
  {
    assert Look(0);
    var g := Files(f.table[i := jp], f.owner);
    forall m, j | 0 <= m < |f.table| && 0 <= j < NINDIRECT
      ensures EntryAt(d, g.table[m], j) == EntryAt(d, f.table[m], j)
    {
    }
    forall b | b in f.owner ensures sb.Data(b) && Names(d, g, g.owner[b], b) {
      assert Names(d, f, f.owner[b], b);
    }
    forall bn | 0 <= bn < MAXFILE ensures FileBlock(d, jp, bn) == FileBlock(d, f.table[i], bn) {
    }
  }

  /** A new size within the mapped blocks. */
  lemma Resized(sb: Super, d: Disk, f: Files, i: nat, end: int)
    requires Ok(sb, d, f, i, end) && i < |f.table| && 0 <= end <= MAXFILE * BSIZE
    ensures
      var g := Files(f.table[i := f.table[i].(size := end)], f.owner);
      Ok(sb, d, g, i, end) && KeepsFile(d, f.table[i], d, g.table[i]) &&
        IndirectOf(g.table[i]) == IndirectOf(f.table[i])
  {
    SameAddrs(sb, d, f, i, end, f.table[i].(size := end));
  }

  /** The content once the new size is set. */
  lemma GrownContent(sb: Super, d: Disk, t: seq<Inode>, d1: Disk, t1: seq<Inode>, u: seq<Inode>, i: nat, off: nat,
                     src: seq<Byte>)
    requires i < |t| == |t1| && t[i].Stored() && t1[i].Stored() && u == t1[i := t1[i].(size := off + |src|)]
    requires off <= t[i].size <= off + |src| <= MAXFILE * BSIZE && t1[i].size == t[i].size
    requires Wrote(d, t[i], d1, t1[i], off, src) && KeepsOthers(d, t, d1, t1, i)
    ensures Content(d1, u[i]) == WriteAt(Content(d, t[i]), off, src) && KeepsOthers(d, t, d1, u, i)
    ensures EndBlock(off / BSIZE, off + |src|, |src|) <= MAXFILE &&
      MayLog(sb, d1, u[i], off, |src|) == MayLog(sb, d1, t1[i], off, |src|)
  {
    forall bn | 0 <= bn < MAXFILE ensures FileBlock(d1, u[i], bn) == FileBlock(d1, t1[i], bn) {
    }
    forall p | 0 <= p < MAXFILE * BSIZE ensures ByteAt(d1, u[i], p) == ByteAt(d1, t1[i], p) {
    }
    WroteContent(d, t[i], d1, u[i], off, src);
    forall m | 0 <= m < |t| && m != i
      ensures |t[m].addrs| == NDIRECT + 1 && u[m] == t[m] && KeepsFile(d, t[m], d1, u[m])
    {
    }
  }

  lemma SpanKept(sb: Super, d: Disk, e: Disk, ip: Inode, off: nat, n: nat)
    requires |ip.addrs| == NDIRECT + 1 && KeepsFile(d, ip, e, ip) && EndBlock(off / BSIZE, off + n, n) <= MAXFILE
    ensures MayLog(sb, d, ip, off, n) == MayLog(sb, e, ip, off, n)
  {
    forall c | 0 <= c < MAXFILE ensures FileBlock(e, ip, c) == FileBlock(d, ip, c) {
      assert KeepsBlock(d, ip, e, ip, c);
    }
  }

  lemma SameInodeBlock(sb: Super, d: Disk, e: Disk, i: nat)
    requires sb.Good() && Whole(sb, d) && Whole(sb, e) && i < sb.ninodes
    requires forall b :: 0 <= b < sb.ninodes / IPB + 3 ==> e[b] == d[b]
    ensures IBlock(i) < sb.size && InodeOf(sb, e, i) == InodeOf(sb, d, i)
  {
  }

  /** All that the code may change. */
  datatype State = State(disk: Disk, table: seq<Inode>, refs: map<int, Ref>, logged: set<int>) {
    function F(): Files { Files(table, refs) }
  }

  /** From s to r, chunk went into the block of inode i that holds byte `at`. */
  ghost predicate Chunked(sb: Super, s: State, r: State, i: nat, at: nat, chunk: seq<Byte>) {
    forall k {:trigger Peek(k)} :: Peek(k) ==> ChunkedCore(sb, s, r, i, at, chunk)
  }

  ghost predicate ChunkedCore(sb: Super, s: State, r: State, i: nat, at: nat, chunk: seq<Byte>) {
    var bn := at / BSIZE;
    && i < |r.table| == |s.table| && s.table[i].Stored() && r.table[i].Stored()
    && 0 < |chunk| <= BSIZE - at % BSIZE && at + |chunk| <= MAXFILE * BSIZE && s.table[i].size <= MAXFILE * BSIZE
    && r.table[i] == s.table[i].(addrs := r.table[i].addrs)
    && IndirectOf(s.table[i]) <= IndirectOf(r.table[i])
    && (bn * BSIZE < at ==> FileBlock(r.disk, r.table[i], bn) == FileBlock(s.disk, s.table[i], bn))
    && (at + |chunk| <= s.table[i].size ==> r.table == s.table && r.refs == s.refs)
    && Ok(sb, r.disk, r.F(), i, Max(s.table[i].size, at + |chunk|))
    && Apart(sb, s.disk, s.table, r.disk, r.table, i)
    && KeepsBut(s.disk, s.table[i], r.disk, r.table[i], bn)
    && Wrote(s.disk, s.table[i], r.disk, r.table[i], at, chunk)
    && (sb.size <= BPB ==>
         r.logged <= s.logged + {sb.BBlock(0), FileBlock(r.disk, r.table[i], bn)} + IndirectOf(r.table[i]))
  }

  /** From s to r, writei's loop has written `done` at off of inode i; the new size is still to be set. */
  ghost predicate Writing(sb: Super, s: State, r: State, i: nat, off: nat, done: seq<Byte>) {
    forall k {:trigger Peek(k)} :: Peek(k) ==> WritingCore(sb, s, r, i, off, done)
  }

  ghost predicate WritingCore(sb: Super, s: State, r: State, i: nat, off: nat, done: seq<Byte>) {
    && i < |r.table| == |s.table| && r.table[i].Stored() && s.table[i].Stored() &&
         r.table[i] == s.table[i].(addrs := r.table[i].addrs)
    && off <= s.table[i].size <= MAXFILE * BSIZE && off + |done| <= MAXFILE * BSIZE
    && (off + |done| <= s.table[i].size ==> r.table == s.table && r.refs == s.refs)
    && Ok(sb, r.disk, r.F(), i, Max(s.table[i].size, off + |done|))
    && Apart(sb, s.disk, s.table, r.disk, r.table, i)
    && Wrote(s.disk, s.table[i], r.disk, r.table[i], off, done)
    && EndBlock(off / BSIZE, off + |done|, |done|) <= MAXFILE
    && (sb.size <= BPB ==> r.logged <= s.logged + MayLog(sb, r.disk, r.table[i], off, |done|))
  }

  lemma SameBlockBelow(at: nat)
    requires 0 < at && (at - 1) / BSIZE == at / BSIZE
    ensures at / BSIZE * BSIZE < at
  {
  }

  /** The invariant of writei's loop is kept by one pass. */
  lemma WritingMore(sb: Super, s: State, s1: State, r: State, i: nat, off: nat, done: seq<Byte>, chunk: seq<Byte>)
    requires Writing(sb, s, s1, i, off, done) && Chunked(sb, s1, r, i, off + |done|, chunk)
    ensures Writing(sb, s, r, i, off, done + chunk)
  {
    assert Peek(0);
    WritingMoreCore(sb, s, s1, r, i, off, done, chunk);
  }

  lemma WritingMoreCore(sb: Super, s: State, s1: State, r: State, i: nat, off: nat, done: seq<Byte>, chunk: seq<Byte>)
    requires WritingCore(sb, s, s1, i, off, done) && ChunkedCore(sb, s1, r, i, off + |done|, chunk)
    ensures WritingCore(sb, s, r, i, off, done + chunk)
  {
    ApartTwice(sb, s.disk, s.table, s1.disk, s1.table, r.disk, r.table, i, i);
    WroteMore(s.disk, s.table[i], s1.disk, s1.table[i], r.disk, r.table[i], off, done, chunk);
    WritingMoreLog(sb, s, s1, r, i, off, done, chunk);
  }

  lemma WritingMoreLog(sb: Super, s: State, s1: State, r: State, i: nat, off: nat, done: seq<Byte>, chunk: seq<Byte>)
    requires WritingCore(sb, s, s1, i, off, done) && ChunkedCore(sb, s1, r, i, off + |done|, chunk)
    ensures EndBlock(off / BSIZE, off + |done + chunk|, |done + chunk|) <= MAXFILE
    ensures sb.size <= BPB ==> r.logged <= s.logged + MayLog(sb, r.disk, r.table[i], off, |done + chunk|)
  {
    var at := off + |done|;
    if 0 < at && (at - 1) / BSIZE == at / BSIZE {
      SameBlockBelow(at);
    }
    MayLogGrows(sb, s1.disk, s1.table[i], r.disk, r.table[i], off, |done|, |chunk|);
  }

  /** From s to r, bmap found or made block bn of inode i, which had len bytes mapped. */
  ghost predicate Mapped(sb: Super, s: State, r: State, i: nat, bn: nat, len: int, addr: int)
    requires bn < MAXFILE
  {
    && i < |r.table| == |s.table| && s.table[i].Stored() && r.table[i].Stored()
    && (bn * BSIZE < len ==> r == s)
    && Ok(sb, r.disk, r.F(), i, NewLen(len, bn))
    && FileBlock(r.disk, r.table[i], bn) == addr && sb.Data(addr)
    && (sb.size <= BPB ==> r.logged <= s.logged + {sb.BBlock(0), addr} + IndirectOf(r.table[i]))
    && r.table[i] == s.table[i].(addrs := r.table[i].addrs) && IndirectOf(s.table[i]) <= IndirectOf(r.table[i])
    && Apart(sb, s.disk, s.table, r.disk, r.table, i) && KeepsBut(s.disk, s.table[i], r.disk, r.table[i], bn)
    && (bn * BSIZE >= len ==> r.disk[addr] == ZeroBlock())
  }

  /** The mapped length once block bn is mapped. */
  ghost function NewLen(len: int, bn: int): int
  {
    if bn * BSIZE < len then len else bn * BSIZE + 1
  }

  /** The mapped length after a chunk reaches the same blocks as the new end of the file. */
  lemma ChunkBlocks(size: nat, at: nat, m: nat, c: nat)
    requires 0 < m <= BSIZE - at % BSIZE
    ensures c * BSIZE < NewLen(Max(size, at), at / BSIZE) <==> c * BSIZE < Max(size, at + m)
  {
  }

  ghost function StoreChunk(s: State, at: nat, addr: int, chunk: seq<Byte>): State
    requires 0 <= addr < |s.disk| && |chunk| <= BSIZE - at % BSIZE && s.disk[addr].Full()
  {
    s.(disk := s.disk[addr := Block(Splice(s.disk[addr].bytes, at % BSIZE, chunk))], logged := s.logged + {addr})
  }

  /** A pass of writei's loop: bmap, then the chunk goes into the block. */
  lemma ChunkStored(sb: Super, s: State, s1: State, i: nat, at: nat, addr: int, chunk: seq<Byte>)
    requires i < |s.table| && at / BSIZE < MAXFILE && Mapped(sb, s, s1, i, at / BSIZE, Max(s.table[i].size, at), addr)
    requires Ok(sb, s.disk, s.F(), i, Max(s.table[i].size, at))
    requires 0 < |chunk| <= BSIZE - at % BSIZE && at + |chunk| <= MAXFILE * BSIZE && s.table[i].size <= MAXFILE * BSIZE
    ensures addr < |s1.disk| && s1.disk[addr].Full() && Chunked(sb, s, StoreChunk(s1, at, addr, chunk), i, at, chunk)
  {
    var bn, len, r := at / BSIZE, Max(s.table[i].size, at), StoreChunk(s1, at, addr, chunk);
    WriteChunk(sb, s1.disk, s1.F(), i, NewLen(len, bn), bn, r.disk[addr]);
    forall c | 0 <= c < MAXFILE
      ensures c * BSIZE < NewLen(len, bn) <==> c * BSIZE < Max(s.table[i].size, at + |chunk|)
    {
      ChunkBlocks(s.table[i].size, at, |chunk|, c);
    }
    SameBlocks(sb, r.disk, r.F(), i, NewLen(len, bn), Max(s.table[i].size, at + |chunk|));
    ApartTwice(sb, s.disk, s.table, s1.disk, s1.table, r.disk, r.table, i, i);
    KeepsButTwice(s.disk, s.table[i], s1.disk, s1.table[i], r.disk, r.table[i], bn);
    ChunkBytes(sb, s, s1, i, at, addr, chunk);
    assert ChunkedCore(sb, s, r, i, at, chunk);
  }

  lemma ChunkBytes(sb: Super, s: State, s1: State, i: nat, at: nat, addr: int, chunk: seq<Byte>)
    requires i < |s.table| && at / BSIZE < MAXFILE && Mapped(sb, s, s1, i, at / BSIZE, Max(s.table[i].size, at), addr)
    requires Ok(sb, s.disk, s.F(), i, Max(s.table[i].size, at))
    requires 0 < |chunk| <= BSIZE - at % BSIZE && at + |chunk| <= MAXFILE * BSIZE && s.table[i].size <= MAXFILE * BSIZE
    requires var r := StoreChunk(s1, at, addr, chunk);
      FileBlock(r.disk, r.table[i], at / BSIZE) == addr && KeepsBut(s.disk, s.table[i], r.disk, r.table[i], at / BSIZE)
    ensures Wrote(s.disk, s.table[i], StoreChunk(s1, at, addr, chunk).disk, s1.table[i], at, chunk)
  {
    var bn, len, r := at / BSIZE, Max(s.table[i].size, at), StoreChunk(s1, at, addr, chunk);
    FindBlock(sb, s.disk, s.F(), i, len, bn);
    forall p | 0 <= p < MAXFILE * BSIZE
      ensures ByteAt(r.disk, r.table[i], p) == if at <= p < at + |chunk| then chunk[p - at]
        else ByteAt(s.disk, s.table[i], p)
    {
      WroteBytes(sb, s.disk, s.table[i], r.disk, r.table[i], at, chunk, p);
    }
  }

  /**
    From d to e, a file of the given size was written from byte `from` up to `to`, its blocks taken
    from the free ones; if to is -1, there were not enough of them to write up to `end`.
  */
  ghost predicate Drawn(sb: Super, d: Disk, e: Disk, size: nat, from: nat, end: nat, to: int) {
    forall k {:trigger Watch(k)} :: Watch(k) ==>
      if to < 0 then Short(-FreeData(sb, d), Max(size, from), Max(size, end), 0)
      else Took(-FreeData(sb, d), -FreeData(sb, e), Max(size, from), Max(size, to))
  }

  lemma SameDrawn(sb: Super, d: Disk, e: Disk, size: nat, off: nat, n: nat, len: nat, k: int, m: int)
    requires n <= len && k >= -1 && m == (if k == -1 then -1 else n + k)
    requires Drawn(sb, d, e, size, off + n, off + n + (len - n), if k == -1 then -1 else off + n + k)
    ensures Drawn(sb, d, e, size, off + n, off + len, if m == -1 then -1 else off + m)
  {
  }

  lemma WritingNext(sb: Super, s: State, s1: State, r: State, i: nat, off: nat, src: seq<Byte>, n: nat, m: nat)
    requires n + m <= |src| && Writing(sb, s, s1, i, off, src[..n]) && Chunked(sb, s1, r, i, off + n, src[n..][..m])
    ensures Writing(sb, s, r, i, off, src[..n + m])
  {
    WritingMore(sb, s, s1, r, i, off, src[..n], src[n..][..m]);
    NextChunk(src, n, m);
  }

  /** What the next pass of writei's loop starts from. */
  lemma WritingOn(sb: Super, s: State, r: State, i: nat, off: nat, done: seq<Byte>)
    requires Writing(sb, s, r, i, off, done)
    ensures i < |r.table| == |s.table| && 0 <= r.table[i].size == s.table[i].size <= MAXFILE * BSIZE
    ensures Writable(sb, r, i, off + |done|)
  {
    assert Peek(0);
  }

  /** Inode i, in use, can be written at `at`: its blocks up to there are mapped. */
  ghost predicate Writable(sb: Super, r: State, i: nat, at: nat) {
    forall k {:trigger Note(k)} :: Note(k) ==>
      && i < |r.table| && r.table[i].Stored() && r.table[i].size <= MAXFILE * BSIZE
      && Ok(sb, r.disk, r.F(), i, Max(r.table[i].size, at))
  }

  /** What writei leaves, against the state before it. */
  ghost predicate Written(sb: Super, s: State, r: State, i: nat, off: nat, src: seq<Byte>) {
    && Replaced(sb, s, r, i, off, src)
    && EndBlock(off / BSIZE, off + |src|, |src|) <= MAXFILE
    && (sb.size <= BPB ==> r.logged <= s.logged + {IBlock(i)} + MayLog(sb, r.disk, r.table[i], off, |src|))
  }

  /** From r to q, inode i got a new size and its copy on disk was brought up to date. */
  ghost predicate Stored(sb: Super, r: State, q: State, i: nat, size: int) {
    && i < |r.table| && r.table[i].Stored() && Whole(sb, q.disk) && IBlock(i) < sb.size
    && q.table == r.table[i := r.table[i].(size := size)] && q.refs == r.refs && q.logged <= r.logged + {IBlock(i)}
    && Ok(sb, q.disk, q.F(), i, size) && InodeOf(sb, q.disk, i) == q.table[i]
    && KeepsOthers(r.disk, q.table, q.disk, q.table, -1)
  }

  lemma GrownState(sb: Super, s: State, r: State, i: nat, off: nat, src: seq<Byte>)
    requires WritingCore(sb, s, r, i, off, src) && off + |src| >= s.table[i].size
    ensures IBlock(i) < sb.Start() &&
      Ok(sb, r.disk, Files(r.table[i := r.table[i].(size := off + |src|)], r.refs), i, off + |src|)
  {
    Resized(sb, r.disk, r.F(), i, off + |src|);
  }

  /** Setting the size and storing the inode turn the bytes written into the file's content. */
  lemma FinishedGrown(sb: Super, s: State, r: State, q: State, i: nat, off: nat, src: seq<Byte>)
    requires WritingCore(sb, s, r, i, off, src) && off + |src| >= s.table[i].size && Stored(sb, r, q, i, off + |src|)
    requires off + |src| == s.table[i].size ==> |src| == 0
    ensures Written(sb, s, q, i, off, src)
  {
    GrownContent(sb, s.disk, s.table, r.disk, r.table, q.table, i, off, src);
    SameContent(r.disk, q.table[i], q.disk, q.table[i]);
    Close(sb, q.disk, q.F(), i);
    KeepsOthersTwice(s.disk, s.table, r.disk, q.table, q.disk, q.table, i, i);
    SpanKept(sb, r.disk, q.disk, q.table[i], off, |src|);
    if |src| == 0 {
      assert q.table == s.table;
    }
  }

  /** The bytes of inode i from off on are now src, and every other file is as it was. */
  ghost predicate Replaced(sb: Super, s: State, r: State, i: nat, off: nat, src: seq<Byte>) {
    && Ok(sb, r.disk, r.F(), -1, 0) && i < |r.table| == |s.table| && r.table[i].Stored() && s.table[i].Stored()
    && off <= s.table[i].size <= r.table[i].size == Max(s.table[i].size, off + |src|) <= MAXFILE * BSIZE
    && r.table[i] == s.table[i].(addrs := r.table[i].addrs, size := r.table[i].size)
    && Content(r.disk, r.table[i]) == WriteAt(Content(s.disk, s.table[i]), off, src)
    && KeepsOthers(s.disk, s.table, r.disk, r.table, i)
    && (off + |src| <= s.table[i].size ==> r.table == s.table && r.refs == s.refs)
  }

  // --- itrunc ---

  /** What of `before` is left in `after` includes every block that is not inode i's. */
  ghost predicate LosesOnly(before: map<int, Ref>, after: map<int, Ref>, i: nat) {
    && (forall b :: b in after ==> b in before && before[b] == after[b])
    && (forall b :: b in before && before[b].i != i ==> b in after)
  }

  /** From s, itrunc has freed some of inode i's blocks and cleared the names it had for them. */
  ghost predicate Cut(sb: Super, s: State, d: Disk, f: Files, i: nat) {
    && Inv(sb, d, f, {}) && i < |f.table| == |s.table|
    && OthersSettled(sb, d, f.table, i)
    && Apart(sb, s.disk, s.table, d, f.table, i)
    && f.table[i] == s.table[i].(addrs := f.table[i].addrs)
    && LosesOnly(s.refs, f.owner, i)
  }

  /** bfree disturbs no file. */
  lemma FreeKeepsFiles(sb: Super, d: Disk, f: Files, b: int)
    requires Shaped(sb, d, f) && Owns(sb, d, f) && sb.Data(b) && sb.BBlock(b) < sb.Start()
    ensures Apart(sb, d, f.table, PutUsed(sb, d, b, false), f.table, -1)
  {
    var e := PutUsed(sb, d, b, false);
    BitmapEntries(sb, d, e, f);
    forall m, bn | 0 <= m < |f.table| && 0 <= bn < MAXFILE ensures KeepsBlock(d, f.table[m], e, f.table[m], bn) {
      if FileBlock(d, f.table[m], bn) != 0 {
        FileBlockOwned(sb, d, f, m, bn);
      }
    }
  }

  lemma CutSlot(sb: Super, s: State, d: Disk, f: Files, i: nat, k: nat)
    requires Cut(sb, s, d, f, i) && k <= NDIRECT && f.table[i].addrs[k] != 0
    requires k == NDIRECT ==> forall j :: 0 <= j < NINDIRECT ==> EntryAt(d, f.table[i], j) == 0
    ensures
      var b := f.table[i].addrs[k];
      sb.Data(b) && sb.BBlock(b) < sb.Start() && Used(sb, d, b) &&
      Cut(sb, s, PutUsed(sb, d, b, false), Files(WithAddr(f, i, k, 0), f.owner - {b}), i)
  {
    var b := f.table[i].addrs[k];
    assert b in f.owner && f.owner[b] == Slot(i, k);
    DetachSlot(sb, d, f, {}, i, k);
    FreeKeepsFiles(sb, d, f, b);
    var e, u := PutUsed(sb, d, b, false), WithAddr(f, i, k, 0);
    assert Apart(sb, d, f.table, e, u, i);
    ApartTwice(sb, s.disk, s.table, d, f.table, e, u, i, i);
    OthersStaySettled(sb, d, f.table, e, u, i);
  }

  lemma CutEntry(sb: Super, s: State, d: Disk, f: Files, i: nat, j: nat)
    requires Cut(sb, s, d, f, i) && j < NINDIRECT && EntryAt(d, f.table[i], j) != 0
    ensures
      var b, x := EntryAt(d, f.table[i], j), f.table[i].addrs[NDIRECT];
      sb.Data(b) && sb.BBlock(b) < sb.Start() && Used(sb, d, b) && sb.Data(x) &&
      Cut(sb, s, WithEntry(PutUsed(sb, d, b, false), x, j, 0), Files(f.table, f.owner - {b}), i)
  {
    var b, x := EntryAt(d, f.table[i], j), f.table[i].addrs[NDIRECT];
    assert b in f.owner && f.owner[b] == Entry(i, j);
    DetachEntry(sb, d, f, {}, i, j);
    FreeKeepsFiles(sb, d, f, b);
    var d1 := PutUsed(sb, d, b, false);
    BitmapEntries(sb, d, d1, f);
    assert Owns(sb, d1, f) by {
      forall c | c in f.owner ensures Names(d1, f, f.owner[c], c) {
        assert Names(d, f, f.owner[c], c);
      }
    }
    AttachEntryFiles(sb, d1, f, i, j, 0);
    var e := WithEntry(d1, x, j, 0);
    ApartTwice(sb, d, f.table, d1, f.table, e, f.table, -1, i);
    ApartTwice(sb, s.disk, s.table, d, f.table, e, f.table, i, i);
    OthersStaySettled(sb, d, f.table, e, f.table, i);
  }

  /** Once no name leads to the indirect block, it does not matter what it holds. */
  lemma CutGarbage(sb: Super, s: State, d: Disk, f: Files, i: nat, x: int, data: Block)
    requires Cut(sb, s, d, f, i) && sb.Data(x) && x !in f.owner && data.Full()
    ensures Cut(sb, s, d[x := data], f, i)
  {
    WriteData(sb, d, f, {}, x, data);
    var e := d[x := data];
    forall m, bn | 0 <= m < |f.table| && 0 <= bn < MAXFILE ensures KeepsBlock(d, f.table[m], e, f.table[m], bn) {
      if FileBlock(d, f.table[m], bn) != 0 {
        FileBlockOwned(sb, d, f, m, bn);
      }
    }
    ApartTwice(sb, s.disk, s.table, d, f.table, e, f.table, i, i);
    OthersStaySettled(sb, d, f.table, e, f.table, i);
  }

  /** As Cut, guarded. */
  ghost predicate Trim(sb: Super, s: State, d: Disk, f: Files, i: nat) {
    && sb.Good() && Whole(sb, d) && i < |f.table| == |s.table| == sb.ninodes
    && f.table[i].Stored() && (0 <= f.table[i].addrs[NDIRECT] < sb.size)
    && forall k {:trigger Look(k)} :: Look(k) ==> Cut(sb, s, d, f, i)
  }

  /** e is d but for the data of the block x. */
  ghost predicate Differ(sb: Super, d: Disk, e: Disk, x: int) {
    && sb.Good() && Whole(sb, d) && Whole(sb, e) && sb.Data(x) && e == d[x := e[x]]
  }

  lemma DifferFree(sb: Super, d: Disk, e: Disk, x: int, b: int)
    requires Differ(sb, d, e, x) && sb.Data(b)
    ensures sb.BBlock(b) < sb.Start() && Used(sb, d, b) == Used(sb, e, b)
    ensures PutUsed(sb, e, b, false) == PutUsed(sb, d, b, false)[x := e[x]] && PutUsed(sb, d, b, false)[x] == d[x]
  {
    BitmapFits(sb, b);
  }

  lemma TrimStart(sb: Super, s: State, i: nat)
    requires Ok(sb, s.disk, s.F(), -1, 0) && i < |s.table|
    ensures Trim(sb, s, s.disk, s.F(), i)
  {
    assert Look(0);
    assert Settled(sb, s.disk, s.table[i], i);
    assert s.table[i].addrs[NDIRECT] != 0 ==> s.table[i].addrs[NDIRECT] in s.refs;
  }

  lemma TrimSlot(sb: Super, s: State, d: Disk, f: Files, i: nat, k: nat)
    requires Trim(sb, s, d, f, i) && k <= NDIRECT && f.table[i].addrs[k] != 0
    requires k == NDIRECT ==> forall j :: 0 <= j < NINDIRECT ==> EntryAt(d, f.table[i], j) == 0
    ensures
      var b := f.table[i].addrs[k];
      sb.Data(b) && sb.BBlock(b) < sb.Start() && Used(sb, d, b) && b in f.owner &&
      Trim(sb, s, PutUsed(sb, d, b, false), Files(WithAddr(f, i, k, 0), f.owner - {b}), i)
  {
    assert Look(0);
    CutSlot(sb, s, d, f, i, k);
  }

  lemma TrimIndirect(sb: Super, s: State, d: Disk, f: Files, i: nat)
    requires Trim(sb, s, d, f, i) && f.table[i].addrs[NDIRECT] != 0
    ensures sb.Data(f.table[i].addrs[NDIRECT])
  {
    assert Look(0);
    assert f.table[i].addrs[NDIRECT] in f.owner;
  }

  lemma TrimEntry(sb: Super, s: State, d: Disk, f: Files, i: nat, j: nat)
    requires Trim(sb, s, d, f, i) && j < NINDIRECT && EntryAt(d, f.table[i], j) != 0
    ensures
      var b, x := EntryAt(d, f.table[i], j), f.table[i].addrs[NDIRECT];
      sb.Data(b) && sb.BBlock(b) < sb.Start() && Used(sb, d, b) && sb.Data(x) &&
      var e := WithEntry(PutUsed(sb, d, b, false), x, j, 0);
      && Trim(sb, s, e, Files(f.table, f.owner - {b}), i)
      && forall l :: 0 <= l < NINDIRECT ==> EntryAt(e, f.table[i], l) == if l == j then 0 else EntryAt(d, f.table[i], l)
  {
    assert Look(0);
    CutEntry(sb, s, d, f, i, j);
    var b, x := EntryAt(d, f.table[i], j), f.table[i].addrs[NDIRECT];
    assert PutUsed(sb, d, b, false)[x] == d[x];
  }

  /** The entries below j are cleared in e, the others are those of the block a. */
  ghost predicate EntriesFrom(e: Disk, ip: Inode, a: seq<Byte>, j: nat) {
    && |ip.addrs| == NDIRECT + 1 && |a| == BSIZE
    && forall l :: 0 <= l < NINDIRECT ==> EntryAt(e, ip, l) == if l < j then 0 else Word(a, 4 * l)
  }

  /** One pass of itrunc's second loop: d is the disk, e the same with the entries already freed cleared. */
  lemma TrimNext(sb: Super, s: State, d: Disk, e: Disk, f: Files, i: nat, j: nat, a: seq<Byte>) returns (e1: Disk)
    requires Trim(sb, s, e, f, i) && 0 < f.table[i].addrs[NDIRECT] && Differ(sb, d, e, f.table[i].addrs[NDIRECT])
    requires j < NINDIRECT && EntriesFrom(e, f.table[i], a, j) && Word(a, 4 * j) != 0
    ensures
      var b, x := Word(a, 4 * j), f.table[i].addrs[NDIRECT];
      && sb.Data(b) && sb.BBlock(b) < sb.Start() && Used(sb, d, b)
      && Trim(sb, s, e1, Files(f.table, f.owner - {b}), i) && EntriesFrom(e1, f.table[i], a, j + 1)
      && Differ(sb, PutUsed(sb, d, b, false), e1, x)
  {
    var b, x := Word(a, 4 * j), f.table[i].addrs[NDIRECT];
    TrimEntry(sb, s, e, f, i, j);
    DifferFree(sb, d, e, x, b);
    e1 := WithEntry(PutUsed(sb, e, b, false), x, j, 0);
  }

  /** The end of itrunc's second half: the indirect block itself. */
  lemma TrimLast(sb: Super, s: State, d: Disk, e: Disk, f: Files, i: nat)
    requires Trim(sb, s, e, f, i) && 0 < f.table[i].addrs[NDIRECT] && Differ(sb, d, e, f.table[i].addrs[NDIRECT])
    requires forall j :: 0 <= j < NINDIRECT ==> EntryAt(e, f.table[i], j) == 0
    ensures
      var x := f.table[i].addrs[NDIRECT];
      sb.Data(x) && sb.BBlock(x) < sb.Start() && Used(sb, d, x) &&
      Trim(sb, s, PutUsed(sb, d, x, false), Files(WithAddr(f, i, NDIRECT, 0), f.owner - {x}), i)
  {
    var x := f.table[i].addrs[NDIRECT];
    TrimSlot(sb, s, e, f, i, NDIRECT);
    DifferFree(sb, d, e, x, x);
    var e1, g := PutUsed(sb, e, x, false), Files(WithAddr(f, i, NDIRECT, 0), f.owner - {x});
    assert PutUsed(sb, d, x, false) == e1[x := d[x]];
    assert Look(0);
    CutGarbage(sb, s, e1, g, i, x, d[x]);
  }

  ghost predicate Truncated(ip: Inode) {
    |ip.addrs| == NDIRECT + 1 && forall k :: 0 <= k <= NDIRECT ==> ip.addrs[k] == 0
  }

  /** The owners of s less all that was inode i's. */
  ghost predicate LosesAll(before: map<int, Ref>, after: map<int, Ref>, i: nat) {
    LosesOnly(before, after, i) && forall b :: b in after ==> after[b].i != i
  }

  /** With every slot cleared, the inode owns nothing and its size may become 0. */
  lemma TrimAll(sb: Super, s: State, d: Disk, f: Files, i: nat)
    requires Trim(sb, s, d, f, i) && Truncated(f.table[i])
    ensures LosesAll(s.refs, f.owner, i)
    ensures
      var g := Files(f.table[i := f.table[i].(size := 0)], f.owner);
      Ok(sb, d, g, i, 0) && KeepsOthers(s.disk, s.table, d, g.table, i) &&
        f.table[i] == s.table[i].(addrs := f.table[i].addrs)
  {
    assert Look(0);
    forall b | b in f.owner ensures f.owner[b].i != i {
      assert Names(d, f, f.owner[b], b) && sb.Data(b);
    }
    forall bn | 0 <= bn < MAXFILE ensures FileBlock(d, f.table[i], bn) == 0 {
    }
    Resized(sb, d, f, i, 0);
  }

  /** In the bitmap, exactly the blocks of inode i have been freed. */
  ghost predicate FreesExactly(sb: Super, s: State, r: State, i: nat) {
    && sb.Good() && Whole(sb, s.disk) && Whole(sb, r.disk)
    && forall b :: sb.Data(b) ==> FreedIff(sb, s, r, i, b)
  }

  ghost predicate FreedIff(sb: Super, s: State, r: State, i: nat, b: int)
    requires sb.Good() && Whole(sb, s.disk) && Whole(sb, r.disk) && sb.Data(b)
  {
    sb.BBlock(b) < sb.Start() && (Used(sb, r.disk, b) <==> Used(sb, s.disk, b) && !(b in s.refs && s.refs[b].i == i))
  }

  lemma FreedExactly(sb: Super, s: State, r: State, i: nat)
    requires Ok(sb, s.disk, s.F(), -1, 0) && Ok(sb, r.disk, r.F(), -1, 0) && LosesAll(s.refs, r.refs, i)
    ensures FreesExactly(sb, s, r, i)
  {
    assert Look(0);
    forall b | sb.Data(b) ensures FreedIff(sb, s, r, i, b) {
      BitmapFits(sb, b);
    }
  }

  // --- Everything that changes is logged ---

  /** From s to r, no block has changed that was not passed to log_write. */
  ghost predicate AllLogged(s: State, r: State) {
    |s.disk| == |r.disk| && forall k {:trigger Glance(k)} :: Glance(k) ==> LoggedOnly(s, r)
  }

  ghost predicate LoggedOnly(s: State, r: State)
    requires |s.disk| == |r.disk|
  {
    s.logged <= r.logged && forall b :: 0 <= b < |s.disk| && b !in r.logged ==> r.disk[b] == s.disk[b]
  }

  lemma NoneLogged(s: State, r: State)
    requires s.disk == r.disk && s.logged <= r.logged
    ensures AllLogged(s, r)
  {
  }

  lemma OneLogged(s: State, r: State, b: nat, data: Block)
    requires b < |s.disk| && r.disk == s.disk[b := data] && r.logged == s.logged + {b}
    ensures AllLogged(s, r)
  {
  }

  lemma LoggedSame(s: State, t: State, r: State)
    requires AllLogged(s, t) && t.disk == r.disk && t.logged == r.logged
    ensures AllLogged(s, r)
  {
    assert Glance(0);
  }

  lemma LoggedTwice(s: State, t: State, r: State)
    requires AllLogged(s, t) && AllLogged(t, r)
    ensures AllLogged(s, r)
  {
    assert Glance(0);
  }

  // --- The calls of log_write ---

  datatype BlockWrite = BlockWrite(b: int, data: Block)

  /** What a sequence of calls leaves in each block, the last one winning. */
  ghost function Replay(ws: seq<BlockWrite>): map<int, Block> {
    if ws == [] then map[] else Replay(ws[..|ws| - 1])[ws[|ws| - 1].b := ws[|ws| - 1].data]
  }

  /** The calls ws were for the blocks logged, and the last one for each had the data that d has. */
  ghost predicate Accounts(ws: seq<BlockWrite>, logged: set<int>, d: Disk) {
    forall k {:trigger Mind(k)} :: Mind(k) ==>
      Replay(ws).Keys == logged && forall b :: b in logged ==> 0 <= b < |d| && d[b] == Replay(ws)[b]
  }

  lemma OneRecorded(ws: seq<BlockWrite>, logged: set<int>, d: Disk, b: nat, data: Block)
    requires b < |d|
    ensures Accounts(ws, logged, d) ==> Accounts(ws + [BlockWrite(b, data)], logged + {b}, d[b := data])
  {
    assert Mind(0);
    assert (ws + [BlockWrite(b, data)])[..|ws|] == ws;
  }

  class Fs {
    const sb: Super
    var disk: Image
    var inodes: seq<Inode>
    ghost var owner: Owners
    /** The sectors passed to log_write since the transaction began, and the calls. */
    var logged: set<int>
    var writes: seq<BlockWrite>

    constructor (sb: Super, image: Disk, inodes: seq<Inode>, ghost refs: map<int, Ref>)
      ensures this.sb == sb && disk == Image(image) && this.inodes == inodes && owner == Owners(refs)
      ensures logged == {} && writes == []
    {
      this.sb, disk, this.inodes := sb, Image(image), inodes;
      owner, logged, writes := Owners(refs), {}, [];
    }

    /** The calls of log_write account for the disk. */
    ghost predicate Recorded()
      reads this`disk, this`logged, this`writes
    {
      Accounts(writes, logged, disk.blocks)
    }

    /** log_write of block b with new data. */
    method LogWrite(b: nat, data: Block)
      requires b < |disk.blocks|
      modifies this`disk, this`logged, this`writes
      ensures disk == Image(old(disk.blocks)[b := data]) && logged == old(logged) + {b}
      ensures AllLogged(old(Now()), Now())
      ensures old(Recorded()) ==> Recorded()
    {
      ghost var s := Now();
      disk := Image(disk.blocks[b := data]);
      logged := logged + {b};
      writes := writes + [BlockWrite(b, data)];
      OneLogged(s, Now(), b, data);
      OneRecorded(old(writes), old(logged), old(disk.blocks), b, data);
    }

    /** The inner loop of balloc: the first clear bit of bitmap block q, or -1. */
    method ScanBlock(q: nat) returns (bi: int)
      requires sb.Good() && Whole(sb, disk.blocks) && q * BPB < sb.size
      ensures -1 <= bi < BPB && (bi >= 0 ==> q * BPB + bi < sb.size)
      ensures bi >= 0 ==> sb.BBlock(q * BPB + bi) < sb.Start() && !Used(sb, disk.blocks, q * BPB + bi)
      ensures forall c :: q * BPB <= c < sb.size && c < q * BPB + (if bi >= 0 then bi else BPB) ==>
        sb.BBlock(c) < sb.Start() && Used(sb, disk.blocks, c)
    {
      BitmapFits(sb, q * BPB);
      var bytes := disk.blocks[sb.BBlock(q * BPB)].bytes;
      bi := 0;
      while bi < BPB && q * BPB + bi < sb.size
        invariant 0 <= bi <= BPB
        invariant forall c :: q * BPB <= c < q * BPB + bi && c < sb.size ==>
          sb.BBlock(c) < sb.Start() && Used(sb, disk.blocks, c)
      {
        BitmapFits(sb, q * BPB + bi);
        BitPlace(sb, q, bi);
        if !Bit(bytes[bi / 8], bi % 8) {
          return;
        }
        bi := bi + 1;
      }
      return -1;
    }

    /** Allocate a zeroed disk block: the first whose bit is clear, or -1 for the panic. */
    method Balloc() returns (b: int)
      requires sb.Good() && Whole(sb, disk.blocks)
      modifies this`disk, this`logged, this`writes
      ensures Whole(sb, disk.blocks) && -1 <= b < sb.size
      ensures forall c :: 0 <= c < (if b >= 0 then b else sb.size) ==>
        sb.BBlock(c) < sb.Start() && Used(sb, old(disk.blocks), c)
      ensures b == -1 ==> disk == old(disk) && logged == old(logged)
      ensures b >= 0 ==> sb.BBlock(b) < sb.Start() && !Used(sb, old(disk.blocks), b)
      ensures b >= 0 ==> disk == Image(PutUsed(sb, old(disk.blocks), b, true)[b := ZeroBlock()])
      ensures b >= 0 ==> logged == old(logged) + {sb.BBlock(b), b}
      ensures AllLogged(old(Now()), Now())
      ensures old(Recorded()) ==> Recorded()
    {
      var q := 0;
      while q * BPB < sb.size
        invariant disk == old(disk) && logged == old(logged) && writes == old(writes)
        invariant forall c :: 0 <= c < q * BPB && c < sb.size ==> sb.BBlock(c) < sb.Start() && Used(sb, disk.blocks, c)
        decreases sb.size - q * BPB
      {
        var bi := ScanBlock(q);
        if bi >= 0 {
          BitPlace(sb, q, bi);
          b := q * BPB + bi;
          var bb := sb.BBlock(b);
          LogWrite(bb, Block(PutBitIn(disk.blocks[bb].bytes, bi, true)));
          ghost var s := Now();
          LogWrite(b, ZeroBlock());
          LoggedTwice(old(Now()), s, Now());
          return;
        }
        q := q + 1;
      }
      NoneLogged(old(Now()), Now());
      return -1;
    }

    /** Free a disk block; false is the "freeing free block" panic. */
    method Bfree(b: nat) returns (ok: bool)
      requires sb.Good() && Whole(sb, disk.blocks) && b < sb.size
      modifies this`disk, this`logged, this`writes
      ensures Whole(sb, disk.blocks) && sb.BBlock(b) < sb.Start()
      ensures ok <==> Used(sb, old(disk.blocks), b)
      ensures ok ==> disk == Image(PutUsed(sb, old(disk.blocks), b, false)) && logged == old(logged) + {sb.BBlock(b)}
      ensures !ok ==> disk == old(disk) && logged == old(logged)
      ensures AllLogged(old(Now()), Now())
      ensures old(Recorded()) ==> Recorded()
    {
      BitmapFits(sb, b);
      var bb, bi := sb.BBlock(b), b % BPB;
      var bytes := disk.blocks[bb].bytes;
      if !Bit(bytes[bi / 8], bi % 8) {
        NoneLogged(old(Now()), Now());
        return false;
      }
      LogWrite(bb, Block(PutBitIn(bytes, bi, false)));
      return true;
    }

    ghost function F(): Files
      reads this
    {
      Files(inodes, owner.refs)
    }

    ghost function Now(): State
      reads this
    {
      State(disk.blocks, inodes, owner.refs, logged)
    }

    /** Every data block is in use. */
    ghost predicate DiskFull()
      reads this
    {
      && sb.Good() && Whole(sb, disk.blocks)
      && forall b :: sb.Data(b) ==> sb.BBlock(b) < sb.Start() && Used(sb, disk.blocks, b)
    }

    /**
      balloc, when a data block is wanted: -1 exactly if there is no clear bit below the log.  The
      code then panics or, since the bits of the log are clear, hands out a log block.
    */
    method BallocData() returns (b: int)
      requires sb.Good() && Whole(sb, disk.blocks)
      requires forall c :: 0 <= c < sb.Start() ==> sb.BBlock(c) < sb.Start() && Used(sb, disk.blocks, c)
      modifies this`disk, this`logged, this`writes
      ensures Whole(sb, disk.blocks) && (b == -1 || sb.Data(b)) && (b == -1 <==> old(DiskFull()))
      ensures b == -1 ==> DiskFull()
      ensures b == -1 <==> FreeData(sb, old(disk.blocks)) == 0
      ensures b >= 0 ==> FreeData(sb, disk.blocks) == FreeData(sb, old(disk.blocks)) - 1
      ensures b >= 0 ==> sb.BBlock(b) < sb.Start() && !Used(sb, old(disk.blocks), b)
      ensures b >= 0 ==>
        disk == Image(AfterBalloc(sb, old(disk.blocks), b)) && logged == old(logged) + {sb.BBlock(b), b}
      ensures AllLogged(old(Now()), Now())
      ensures old(Recorded()) ==> Recorded()
    {
      NoneFree(sb, disk.blocks);
      b := Balloc();
      if sb.Data(b) {
        FreeTaken(sb, old(disk.blocks), b);
      }
      if b >= sb.LogStart() {
        forall c | sb.Data(c) ensures sb.BBlock(c) < sb.Start() && Used(sb, disk.blocks, c) {
          PutUsedAt(sb, old(disk.blocks), b, true, c);
        }
        return -1;
      }
    }

    /** On a full disk with the log's bits clear, balloc hands out the log's header block and zeroes it. */
    method BallocWhenFull() returns (b: int)
      requires DiskFull() && forall c :: 0 <= c < sb.Start() ==> sb.BBlock(c) < sb.Start() && Used(sb, disk.blocks, c)
      requires sb.BBlock(sb.LogStart()) < sb.Start() && !Used(sb, disk.blocks, sb.LogStart())
      modifies this`disk, this`logged, this`writes
      ensures b == sb.LogStart() < |disk.blocks| && disk.blocks[b] == ZeroBlock()
    {
      b := Balloc();
    }

    /** The bitmap block, the indirect block of inode i and one block of it: what one bmap may log. */
    ghost predicate LoggedFor(i: nat, addr: int, before: set<int>)
      reads this
    {
      i < |inodes| && |inodes[i].addrs| == NDIRECT + 1 &&
      (sb.size <= BPB ==> logged <= before + {sb.BBlock(0), addr} + IndirectOf(inodes[i]))
    }

    /** The direct half of bmap. */
    method BmapDirect(i: nat, bn: nat, ghost len: int) returns (addr: int)
      requires Ok(sb, disk.blocks, F(), i, len) && i < |inodes| && bn < NDIRECT && bn * BSIZE <= len
      modifies this`disk, this`inodes, this`owner, this`logged, this`writes
      ensures addr == -1 ==> DiskFull()
      ensures addr == -1 <==> Extra(len, bn) > FreeData(sb, old(disk.blocks))
      ensures addr != -1 ==> FreeData(sb, disk.blocks) == FreeData(sb, old(disk.blocks)) - Extra(len, bn)
      ensures bn * BSIZE < len ==>
        addr != -1 && disk == old(disk) && inodes == old(inodes) && owner == old(owner) && logged == old(logged)
      ensures addr != -1 ==> Ok(sb, disk.blocks, F(), i, NewLen(len, bn)) && |inodes| == |old(inodes)|
      ensures addr != -1 ==>
        FileBlock(disk.blocks, inodes[i], bn) == addr && sb.Data(addr) && LoggedFor(i, addr, old(logged))
      ensures addr != -1 ==>
        inodes[i] == old(inodes[i]).(addrs := inodes[i].addrs) && IndirectOf(old(inodes[i])) <= IndirectOf(inodes[i])
      ensures addr != -1 ==>
        Apart(sb, old(disk.blocks), old(inodes), disk.blocks, inodes, i) &&
          KeepsBut(old(disk.blocks), old(inodes[i]), disk.blocks, inodes[i], bn)
      ensures addr != -1 && bn * BSIZE >= len ==> disk.blocks[addr] == ZeroBlock()
      ensures AllLogged(old(Now()), Now())
      ensures old(Recorded()) ==> Recorded()
    {
      FindBlock(sb, disk.blocks, F(), i, len, bn);
      MetadataUsed(sb, disk.blocks, F(), i, len);
      addr := inodes[i].addrs[bn];
      if addr == 0 {
        addr := BallocData();
        if addr == -1 {
          return;
        }
        ghost var s1 := Now();
        GrowDirect(sb, old(disk.blocks), old(F()), i, bn, addr);
        OneBitmap(sb, addr);
        inodes := inodes[i := inodes[i].(addrs := inodes[i].addrs[bn := addr])];
        owner := Owners(owner.refs[addr := Slot(i, bn)]);
        LoggedSame(old(Now()), s1, Now());
      } else {
        SelfApart(sb, disk.blocks, F(), i, len);
        NoneLogged(old(Now()), Now());
      }
    }

    /** The first step of the indirect half of bmap: an indirect block. */
    method BmapIndirectBlock(i: nat, ghost len: int) returns (x: int)
      requires Ok(sb, disk.blocks, F(), i, len) && i < |inodes| && NDIRECT * BSIZE <= len
      modifies this`disk, this`inodes, this`owner, this`logged, this`writes
      ensures x == -1 ==> DiskFull()
      ensures x == -1 <==> len == NDIRECT * BSIZE && FreeData(sb, old(disk.blocks)) == 0
      ensures x != -1 ==>
        FreeData(sb, disk.blocks) == FreeData(sb, old(disk.blocks)) - if len == NDIRECT * BSIZE then 1 else 0
      ensures NDIRECT * BSIZE < len ==>
        x != -1 && disk == old(disk) && inodes == old(inodes) && owner == old(owner) && logged == old(logged)
      ensures x != -1 ==>
        OkIndirect(sb, disk.blocks, F(), i, len) && |inodes| == |old(inodes)| && x == inodes[i].addrs[NDIRECT]
      ensures x != -1 ==> IndirectOf(old(inodes[i])) <= IndirectOf(inodes[i])
      ensures x != -1 ==> inodes[i] == old(inodes[i]).(addrs := inodes[i].addrs) && LoggedFor(i, x, old(logged))
      ensures x != -1 ==>
        Apart(sb, old(disk.blocks), old(inodes), disk.blocks, inodes, i) &&
          KeepsFile(old(disk.blocks), old(inodes[i]), disk.blocks, inodes[i])
      ensures AllLogged(old(Now()), Now())
      ensures old(Recorded()) ==> Recorded()
    {
      FindBlock(sb, disk.blocks, F(), i, len, NDIRECT);
      MetadataUsed(sb, disk.blocks, F(), i, len);
      x := inodes[i].addrs[NDIRECT];
      if x == 0 {
        x := BallocData();
        if x == -1 {
          return;
        }
        ghost var s1 := Now();
        GrowIndirect(sb, old(disk.blocks), old(F()), i, x);
        OneBitmap(sb, x);
        inodes := inodes[i := inodes[i].(addrs := inodes[i].addrs[NDIRECT := x])];
        owner := Owners(owner.refs[x := Slot(i, NDIRECT)]);
        LoggedSame(old(Now()), s1, Now());
      } else {
        SelfApart(sb, disk.blocks, F(), i, len);
        NoneLogged(old(Now()), Now());
      }
    }

    /** A fresh block in an empty entry of the indirect block x. */
    method NewEntry(i: nat, bn: nat, x: nat) returns (addr: int)
      requires OkIndirect(sb, disk.blocks, F(), i, bn * BSIZE) && NDIRECT <= bn < MAXFILE &&
        x == inodes[i].addrs[NDIRECT]
      requires forall c :: 0 <= c < sb.Start() ==> sb.BBlock(c) < sb.Start() && Used(sb, disk.blocks, c)
      modifies this`disk, this`owner, this`logged, this`writes
      ensures addr == -1 ==> DiskFull()
      ensures addr == -1 <==> FreeData(sb, old(disk.blocks)) == 0
      ensures addr != -1 ==> FreeData(sb, disk.blocks) == FreeData(sb, old(disk.blocks)) - 1
      ensures addr != -1 ==>
        EntryMade(sb, old(disk.blocks), inodes, disk.blocks, i, bn, addr) && LoggedFor(i, addr, old(logged))
      ensures addr != -1 ==> Ok(sb, disk.blocks, F(), i, bn * BSIZE + 1) && disk.blocks[addr] == ZeroBlock()
      ensures AllLogged(old(Now()), Now())
      ensures old(Recorded()) ==> Recorded()
    {
      addr := BallocData();
      if addr == -1 {
        return;
      }
      GrowEntry(sb, old(disk.blocks), F(), i, bn, addr);
      OneBitmap(sb, addr);
      assert x in IndirectOf(inodes[i]);
      ghost var s1 := Now();
      FreeKept(sb, disk.blocks, x, Block(PutWord(disk.blocks[x].bytes, 4 * (bn - NDIRECT), addr)));
      LogWrite(x, Block(PutWord(disk.blocks[x].bytes, 4 * (bn - NDIRECT), addr)));
      LoggedTwice(old(Now()), s1, Now());
      ghost var s2 := Now();
      owner := Owners(owner.refs[addr := Entry(i, bn - NDIRECT)]);
      LoggedSame(old(Now()), s2, Now());
    }

    /** The second step of the indirect half of bmap: an entry of the indirect block. */
    method BmapEntry(i: nat, bn: nat, ghost len: int) returns (addr: int)
      requires OkIndirect(sb, disk.blocks, F(), i, len) && NDIRECT <= bn < MAXFILE && bn * BSIZE <= len
      modifies this`disk, this`owner, this`logged, this`writes
      ensures addr == -1 ==> DiskFull()
      ensures addr == -1 <==> len <= bn * BSIZE && FreeData(sb, old(disk.blocks)) == 0
      ensures addr != -1 ==>
        FreeData(sb, disk.blocks) == FreeData(sb, old(disk.blocks)) - if bn * BSIZE < len then 0 else 1
      ensures bn * BSIZE < len ==> addr != -1 && disk == old(disk) && owner == old(owner) && logged == old(logged)
      ensures addr != -1 ==>
        EntryMade(sb, old(disk.blocks), inodes, disk.blocks, i, bn, addr) && LoggedFor(i, addr, old(logged))
      ensures addr != -1 && bn * BSIZE >= len ==>
        Ok(sb, disk.blocks, F(), i, bn * BSIZE + 1) && disk.blocks[addr] == ZeroBlock()
      ensures AllLogged(old(Now()), Now())
      ensures old(Recorded()) ==> Recorded()
    {
      FindEntry(sb, disk.blocks, F(), i, len, bn);
      var x := inodes[i].addrs[NDIRECT];
      addr := Word(disk.blocks[x].bytes, 4 * (bn - NDIRECT));
      if addr == 0 {
        addr := NewEntry(i, bn, x);
      } else {
        NoneLogged(old(Now()), Now());
      }
    }

    /** The disk block of block bn of inode i, allocated if there is none; -1 if the disk is full. */
    method Bmap(i: nat, bn: nat, ghost len: int) returns (addr: int)
      requires Ok(sb, disk.blocks, F(), i, len) && i < |inodes| && bn < MAXFILE && bn * BSIZE <= len
      modifies this`disk, this`inodes, this`owner, this`logged, this`writes
      ensures addr == -1 ==> DiskFull() && len <= bn * BSIZE
      ensures addr == -1 <==> Extra(len, bn) > FreeData(sb, old(disk.blocks))
      ensures addr != -1 ==> FreeData(sb, disk.blocks) == FreeData(sb, old(disk.blocks)) - Extra(len, bn)
      ensures addr != -1 ==> Mapped(sb, old(Now()), Now(), i, bn, len, addr)
      ensures AllLogged(old(Now()), Now())
      ensures old(Recorded()) ==> Recorded()
    {
      if bn < NDIRECT {
        addr := BmapDirect(i, bn, len);
        return;
      }
      var x := BmapIndirectBlock(i, len);
      if x == -1 {
        return -1;
      }
      ghost var d1, t1, s1 := disk.blocks, inodes, Now();
      addr := BmapEntry(i, bn, len);
      LoggedTwice(old(Now()), s1, Now());
      if addr != -1 {
        ApartTwice(sb, old(disk.blocks), old(inodes), d1, t1, disk.blocks, inodes, i, i);
        KeepsThenKeepsBut(sb, old(disk.blocks), old(inodes[i]), d1, t1[i], disk.blocks, inodes[i], bn);
      }
    }

    /** iupdate: copy the in-memory inode to its inode block. */
    method Iupdate(i: nat, ghost len: int)
      requires Ok(sb, disk.blocks, F(), i, len) && i < |inodes|
      modifies this`disk, this`logged, this`writes
      ensures IBlock(i) < sb.Start() && inodes[i].Stored()
      ensures disk == Image(PutInodeOf(sb, old(disk.blocks), i, inodes[i])) && logged == old(logged) + {IBlock(i)}
      ensures Ok(sb, disk.blocks, F(), i, len) && InodeOf(sb, disk.blocks, i) == inodes[i]
      ensures KeepsOthers(old(disk.blocks), inodes, disk.blocks, inodes, -1)
      ensures FreeData(sb, disk.blocks) == FreeData(sb, old(disk.blocks))
      ensures AllLogged(old(Now()), Now())
      ensures old(Recorded()) ==> Recorded()
    {
      Updated(sb, disk.blocks, F(), i, len);
      FreeKept(sb, disk.blocks, IBlock(i), Block(PutInode(disk.blocks[IBlock(i)].bytes, InodeOff(i), inodes[i])));
      LogWrite(IBlock(i), Block(PutInode(disk.blocks[IBlock(i)].bytes, InodeOff(i), inodes[i])));
    }

    /** One pass of readi's loop: what is wanted of the block that holds byte `at`. */
    method ReadFrom(i: nat, at: nat, left: nat) returns (chunk: seq<Byte>)
      requires i < |inodes| && inodes[i].Stored() && inodes[i].size <= MAXFILE * BSIZE
      requires Ok(sb, disk.blocks, F(), i, inodes[i].size) && 0 < left && at + left <= inodes[i].size
      modifies this`disk, this`inodes, this`owner, this`logged, this`writes
      ensures disk == old(disk) && inodes == old(inodes) && owner == old(owner) && logged == old(logged)
      ensures 0 < |chunk| <= left && chunk == Content(disk.blocks, inodes[i])[at..at + |chunk|]
      ensures old(Recorded()) ==> Recorded()
    {
      var b := Bmap(i, at / BSIZE, inodes[i].size);
      var m := Min(left, BSIZE - at % BSIZE);
      ReadChunk(sb, disk.blocks, inodes[i], at, m, b);
      chunk := disk.blocks[b].bytes[at % BSIZE..at % BSIZE + m];
    }

    /** The loop of readi. */
    method ReadLoop(i: nat, off: nat, n: nat) returns (dst: seq<Byte>)
      requires i < |inodes| && inodes[i].Stored() && inodes[i].size <= MAXFILE * BSIZE
      requires Ok(sb, disk.blocks, F(), i, inodes[i].size) && off + n <= inodes[i].size
      modifies this`disk, this`inodes, this`owner, this`logged, this`writes
      ensures disk == old(disk) && inodes == old(inodes) && owner == old(owner) && logged == old(logged)
      ensures dst == Content(disk.blocks, inodes[i])[off..off + n]
      ensures old(Recorded()) ==> Recorded()
    {
      dst := [];
      ghost var c := Content(disk.blocks, inodes[i]);
      var tot := 0;
      while tot < n
        invariant 0 <= tot <= n && disk == old(disk) && inodes == old(inodes) && owner == old(owner) &&
          logged == old(logged)
        invariant dst == c[off..off + tot] && (old(Recorded()) ==> Recorded())
      {
        var chunk := ReadFrom(i, off + tot, n - tot);
        NextSlice(c, off, off + tot, |chunk|);
        dst := dst + chunk;
        tot := tot + |chunk|;
      }
    }

    /**
      readi on a file or directory: -1 for an offset past the end or off + n wrapping around,
      else the bytes from off on, at most n of them.  Reading changes nothing, bmap included.
    */
    method Readi(i: nat, off: nat, n: nat) returns (r: int, dst: seq<Byte>)
      requires Ok(sb, disk.blocks, F(), -1, 0) && i < |inodes| && off < TWO32 && n < TWO32
      modifies this`disk, this`inodes, this`owner, this`logged, this`writes
      ensures disk == old(disk) && inodes == old(inodes) && owner == old(owner) && logged == old(logged)
      ensures inodes[i].Stored() && inodes[i].size <= MAXFILE * BSIZE
      ensures r == if off > inodes[i].size || off + n >= TWO32 then -1 else Min(n, inodes[i].size - off)
      ensures r == -1 ==> dst == []
      ensures r >= 0 ==> dst == Content(disk.blocks, inodes[i])[off..off + r]
      ensures old(Recorded()) ==> Recorded()
    {
      Open(sb, disk.blocks, F(), i);
      dst := [];
      if off > inodes[i].size || (off + n) % TWO32 < off {
        return -1, [];
      }
      var left := n;
      if off + n > inodes[i].size {
        left := inodes[i].size - off;
      }
      dst := ReadLoop(i, off, left);
      return left, dst;
    }

    /**
      One pass of writei's loop: as much of src as fits into the block that holds byte `at`.
      The number of bytes written, or -1 if the disk is full.
    */
    method WriteFrom(i: nat, at: nat, src: seq<Byte>) returns (m: int)
      requires i < |inodes| && 0 <= inodes[i].size && Writable(sb, Now(), i, at)
      requires 0 < |src| && at + |src| <= MAXFILE * BSIZE
      modifies this`disk, this`inodes, this`owner, this`logged, this`writes
      ensures m == -1 ==> DiskFull()
      ensures m != -1 ==> 0 < m <= |src| && Chunked(sb, old(Now()), Now(), i, at, src[..m])
      ensures
        Drawn(sb, old(disk.blocks), disk.blocks, old(inodes[i].size), at, at + |src|, if m == -1 then -1 else at + m)
      ensures AllLogged(old(Now()), Now())
      ensures old(Recorded()) ==> Recorded()
    {
      assert Note(0);
      m := Min(|src|, BSIZE - at % BSIZE);
      ghost var size, free := inodes[i].size, FreeData(sb, disk.blocks);
      WriteTakes(size, at, m, -free, 0);
      var b := Bmap(i, at / BSIZE, Max(inodes[i].size, at));
      if b == -1 {
        ShortMore(-free, Max(size, at), Max(size, at + m), Max(size, at + |src|), 0);
        return -1;
      }
      ChunkStored(sb, old(Now()), Now(), i, at, b, src[..m]);
      ghost var s1 := Now();
      var data := Block(Splice(disk.blocks[b].bytes, at % BSIZE, src[..m]));
      FreeKept(sb, disk.blocks, b, data);
      LogWrite(b, data);
      LoggedTwice(old(Now()), s1, Now());
    }

    /** The loop of writei; false if the disk is full. */
    method WriteLoop(i: nat, off: nat, src: seq<Byte>) returns (ok: bool)
      requires Writing(sb, Now(), Now(), i, off, []) && off + |src| <= MAXFILE * BSIZE
      requires i < |inodes| && off <= inodes[i].size
      modifies this`disk, this`inodes, this`owner, this`logged, this`writes
      ensures if ok then Writing(sb, old(Now()), Now(), i, off, src) else DiskFull()
      ensures
        var size, free := old(inodes[i].size), FreeData(sb, old(disk.blocks));
        if ok then Took(-free, -FreeData(sb, disk.blocks), size, Max(size, off + |src|))
        else Short(-free, size, Max(size, off + |src|), 0)
      ensures AllLogged(old(Now()), Now())
      ensures old(Recorded()) ==> Recorded()
    {
      ghost var s, size, free := Now(), inodes[i].size, FreeData(sb, disk.blocks);
      var tot := 0;
      NoneLogged(s, s);
      TookNothing(-free, size);
      while tot < |src|
        invariant AllLogged(s, Now()) && (old(Recorded()) ==> Recorded())
        invariant 0 <= tot <= |src| && Writing(sb, s, Now(), i, off, src[..tot])
        invariant Took(-free, -FreeData(sb, disk.blocks), size, Max(size, off + tot))
      {
        ghost var s1, left := Now(), FreeData(sb, disk.blocks);
        var m := WriteNext(i, off, src, tot, s);
        LoggedTwice(s, s1, Now());
        assert Watch(0);
        if m == -1 {
          ShortEarlier(-free, -left, size, Max(size, off + tot), Max(size, off + |src|), Max(size, off + |src|), 0);
          return false;
        }
        TookMore(-free, -left, -FreeData(sb, disk.blocks), size, Max(size, off + tot), Max(size, off + m));
        tot := m;
      }
      assert src[..tot] == src;
      return true;
    }

    /** The same pass, seen from the whole write of src, of which n bytes are in place before and m after it. */
    method WriteNext(i: nat, off: nat, src: seq<Byte>, n: nat, ghost s: State) returns (m: int)
      requires n < |src| && off + |src| <= MAXFILE * BSIZE && i < |s.table| && Writing(sb, s, Now(), i, off, src[..n])
      modifies this`disk, this`inodes, this`owner, this`logged, this`writes
      ensures m == -1 ==> DiskFull()
      ensures m != -1 ==> n < m <= |src| && Writing(sb, s, Now(), i, off, src[..m])
      ensures s.table[i].size >= 0
      ensures Drawn(sb, old(disk.blocks), disk.blocks, s.table[i].size, off + n, off + |src|, if m == -1 then -1
        else off + m)
      ensures AllLogged(old(Now()), Now())
      ensures old(Recorded()) ==> Recorded()
    {
      ghost var s1 := Now();
      WritingOn(sb, s, s1, i, off, src[..n]);
      var k := WriteFrom(i, off + n, src[n..]);
      m := if k == -1 then -1 else n + k;
      SameDrawn(sb, s1.disk, disk.blocks, s.table[i].size, off, n, |src|, k, m);
      if k != -1 {
        WritingNext(sb, s, s1, Now(), i, off, src, n, k);
      }
    }

    /** The blocks that writing n bytes at off adds to inode i. */
    ghost function Growth(i: nat, off: nat, n: nat): int
      requires i < |inodes| && inodes[i].size >= 0
      reads this
    {
      FileBlocks(Max(inodes[i].size, off + n)) - FileBlocks(inodes[i].size)
    }

    /**
      writei on a file or directory.  -1 for an offset past the end, off + n wrapping around or a
      file too large, with nothing changed; -2 for the panic of a full disk, exactly if the write
      needs more blocks than are free.  Otherwise src replaces the bytes from off on, the file grows
      if it must, and every other file is as it was.
    */
    method Writei(i: nat, off: nat, src: seq<Byte>) returns (r: int)
      requires Ok(sb, disk.blocks, F(), -1, 0) && i < |inodes| && off < TWO32 && |src| < TWO32
      modifies this`disk, this`inodes, this`owner, this`logged, this`writes
      ensures old(inodes[i].Stored() && inodes[i].size <= MAXFILE * BSIZE)
      ensures r == -1 <==> off > old(inodes[i].size) || off + |src| >= TWO32 || off + |src| > MAXFILE * BSIZE
      ensures r == -1 ==> Now() == old(Now())
      ensures r == -1 || r == |src| || (r == -2 && DiskFull())
      ensures r == -2 <==> r != -1 && old(Growth(i, off, |src|)) > FreeData(sb, old(disk.blocks))
      ensures r >= 0 ==> FreeData(sb, disk.blocks) == FreeData(sb, old(disk.blocks)) - old(Growth(i, off, |src|))
      ensures r >= 0 ==> Written(sb, old(Now()), Now(), i, off, src)
      ensures AllLogged(old(Now()), Now())
      ensures old(Recorded()) ==> Recorded()
    {
      Open(sb, disk.blocks, F(), i);
      if off > inodes[i].size || (off + |src|) % TWO32 < off {
        NoneLogged(old(Now()), Now());
        return -1;
      }
      if off + |src| > MAXFILE * BSIZE {
        NoneLogged(old(Now()), Now());
        return -1;
      }
      SelfApart(sb, disk.blocks, F(), i, inodes[i].size);
      SameBlocks(sb, disk.blocks, F(), i, inodes[i].size, Max(inodes[i].size, off));
      var ok := WriteLoop(i, off, src);
      assert Heed(0);
      if !ok {
        return -2;
      }
      WritingOn(sb, old(Now()), Now(), i, off, src);
      ghost var s1 := Now();
      Finish(i, off, src, old(Now()));
      LoggedTwice(old(Now()), s1, Now());
      return |src|;
    }

    /** The end of writei: the new size, and iupdate if the file has grown. */
    method Finish(i: nat, off: nat, src: seq<Byte>, ghost s: State)
      requires Writing(sb, s, Now(), i, off, src) && i < |inodes| && Ok(sb, s.disk, s.F(), -1, 0)
      modifies this`disk, this`inodes, this`logged, this`writes
      ensures Written(sb, s, Now(), i, off, src)
      ensures FreeData(sb, disk.blocks) == FreeData(sb, old(disk.blocks))
      ensures AllLogged(old(Now()), Now())
      ensures old(Recorded()) ==> Recorded()
    {
      assert Peek(0);
      if |src| > 0 && off + |src| > inodes[i].size {
        FinishGrown(i, off, src, s);
      } else {
        Open(sb, s.disk, s.F(), i);
        WroteContent(s.disk, s.table[i], disk.blocks, inodes[i], off, src);
        SameInodeBlock(sb, s.disk, disk.blocks, i);
        Close(sb, disk.blocks, F(), i);
        NoneLogged(old(Now()), Now());
      }
    }

    method FinishGrown(i: nat, off: nat, src: seq<Byte>, ghost s: State)
      requires WritingCore(sb, s, Now(), i, off, src) && off + |src| > inodes[i].size
      modifies this`disk, this`inodes, this`logged, this`writes
      ensures Written(sb, s, Now(), i, off, src)
      ensures FreeData(sb, disk.blocks) == FreeData(sb, old(disk.blocks))
      ensures AllLogged(old(Now()), Now())
      ensures old(Recorded()) ==> Recorded()
    {
      GrownState(sb, s, Now(), i, off, src);
      inodes := inodes[i := inodes[i].(size := off + |src|)];
      ghost var s1 := Now();
      NoneLogged(old(Now()), s1);
      Iupdate(i, off + |src|);
      LoggedTwice(old(Now()), s1, Now());
      FinishedGrown(sb, s, old(Now()), Now(), i, off, src);
    }

    /** itrunc's first loop frees the direct blocks; false is the panic of bfree. */
    method TruncDirect(i: nat, ghost s: State) returns (ok: bool)
      requires Trim(sb, s, disk.blocks, F(), i)
      modifies this`disk, this`inodes, this`owner, this`logged, this`writes
      ensures ok && Trim(sb, s, disk.blocks, F(), i) && inodes[i].addrs[NDIRECT] == old(inodes[i].addrs[NDIRECT])
      ensures forall k :: 0 <= k < NDIRECT ==> inodes[i].addrs[k] == 0
      ensures sb.size <= BPB ==> logged <= old(logged) + {sb.BBlock(0)}
      ensures AllLogged(old(Now()), Now())
      ensures old(Recorded()) ==> Recorded()
    {
      var k := 0;
      NoneLogged(Now(), Now());
      while k < NDIRECT
        invariant AllLogged(old(Now()), Now()) && (old(Recorded()) ==> Recorded())
        invariant 0 <= k <= NDIRECT && Trim(sb, s, disk.blocks, F(), i) &&
          inodes[i].addrs[NDIRECT] == old(inodes[i].addrs[NDIRECT])
        invariant forall l :: 0 <= l < k ==> inodes[i].addrs[l] == 0
        invariant sb.size <= BPB ==> logged <= old(logged) + {sb.BBlock(0)}
      {
        var b := inodes[i].addrs[k];
        if b != 0 {
          TrimSlot(sb, s, disk.blocks, F(), i, k);
          ghost var s1 := Now();
          ok := Bfree(b);
          LoggedTwice(old(Now()), s1, Now());
          if !ok {
            return;
          }
          ghost var s2 := Now();
          inodes := inodes[i := inodes[i].(addrs := inodes[i].addrs[k := 0])];
          owner := Owners(owner.refs - {b});
          LoggedSame(old(Now()), s2, Now());
        }
        k := k + 1;
      }
      return true;
    }

    /** itrunc's second loop frees the blocks named in the indirect block. */
    method TruncEntries(i: nat, ghost s: State) returns (ok: bool, ghost e: Disk)
      requires Trim(sb, s, disk.blocks, F(), i) && 0 < inodes[i].addrs[NDIRECT] < sb.size
      modifies this`disk, this`owner, this`logged, this`writes
      ensures ok && Trim(sb, s, e, F(), i) && Differ(sb, disk.blocks, e, inodes[i].addrs[NDIRECT])
      ensures forall j :: 0 <= j < NINDIRECT ==> EntryAt(e, inodes[i], j) == 0
      ensures sb.size <= BPB ==> logged <= old(logged) + {sb.BBlock(0)}
      ensures AllLogged(old(Now()), Now())
      ensures old(Recorded()) ==> Recorded()
    {
      var x := inodes[i].addrs[NDIRECT];
      var a := disk.blocks[x].bytes;
      e := disk.blocks;
      TrimIndirect(sb, s, e, F(), i);
      var j := 0;
      NoneLogged(Now(), Now());
      while j < NINDIRECT
        invariant AllLogged(old(Now()), Now()) && (old(Recorded()) ==> Recorded())
        invariant 0 <= j <= NINDIRECT && Trim(sb, s, e, F(), i) && Differ(sb, disk.blocks, e, x)
        invariant EntriesFrom(e, inodes[i], a, j)
        invariant sb.size <= BPB ==> logged <= old(logged) + {sb.BBlock(0)}
      {
        var b := Word(a, 4 * j);
        if b != 0 {
          e := TrimNext(sb, s, disk.blocks, e, F(), i, j, a);
          ghost var s1 := Now();
          ok := Bfree(b);
          LoggedTwice(old(Now()), s1, Now());
          if !ok {
            return;
          }
          ghost var s2 := Now();
          owner := Owners(owner.refs - {b});
          LoggedSame(old(Now()), s2, Now());
        }
        j := j + 1;
      }
      ok := true;
    }

    /** The second half of itrunc: the indirect block and what it names. */
    method TruncIndirect(i: nat, ghost s: State) returns (ok: bool)
      requires Trim(sb, s, disk.blocks, F(), i) && 0 < inodes[i].addrs[NDIRECT] < sb.size
      modifies this`disk, this`inodes, this`owner, this`logged, this`writes
      ensures ok && Trim(sb, s, disk.blocks, F(), i)
      ensures inodes == old(inodes[i := inodes[i].(addrs := inodes[i].addrs[NDIRECT := 0])])
      ensures sb.size <= BPB ==> logged <= old(logged) + {sb.BBlock(0)}
      ensures AllLogged(old(Now()), Now())
      ensures old(Recorded()) ==> Recorded()
    {
      var x := inodes[i].addrs[NDIRECT];
      ghost var e;
      ok, e := TruncEntries(i, s);
      if !ok {
        return;
      }
      ghost var s1 := Now();
      TrimLast(sb, s, disk.blocks, e, F(), i);
      ok := Bfree(x);
      LoggedTwice(old(Now()), s1, Now());
      ghost var s2 := Now();
      if !ok {
        return;
      }
      inodes := inodes[i := inodes[i].(addrs := inodes[i].addrs[NDIRECT := 0])];
      owner := Owners(owner.refs - {x});
      LoggedSame(old(Now()), s2, Now());
    }

    /**
      itrunc: the inode ends with no blocks and no bytes, exactly the blocks it owned are free
      again, every other file is as it was, and bfree's panic is not reached.
    */
    method Itrunc(i: nat) returns (ok: bool)
      requires Ok(sb, disk.blocks, F(), -1, 0) && i < |inodes|
      modifies this`disk, this`inodes, this`owner, this`logged, this`writes
      ensures ok && Ok(sb, disk.blocks, F(), -1, 0) && |inodes| == |old(inodes)|
      ensures Truncated(inodes[i]) && inodes[i] == old(inodes[i]).(addrs := inodes[i].addrs, size := 0)
      ensures KeepsOthers(old(disk.blocks), old(inodes), disk.blocks, inodes, i)
      ensures LosesAll(old(owner.refs), owner.refs, i)
      ensures FreesExactly(sb, old(Now()), Now(), i)
      ensures sb.size <= BPB ==> logged <= old(logged) + {sb.BBlock(0), IBlock(i)}
      ensures AllLogged(old(Now()), Now())
      ensures old(Recorded()) ==> Recorded()
    {
      ghost var s := Now();
      TrimStart(sb, s, i);
      ok := TruncDirect(i, s);
      ghost var s1 := Now();
      if !ok {
        return;
      }
      if inodes[i].addrs[NDIRECT] != 0 {
        ok := TruncIndirect(i, s);
        LoggedTwice(s, s1, Now());
        if !ok {
          return;
        }
      }
      ghost var d1 := disk.blocks;
      TrimAll(sb, s, d1, F(), i);
      ghost var s2 := Now();
      inodes := inodes[i := inodes[i].(size := 0)];
      LoggedSame(s, s2, Now());
      ghost var s3 := Now();
      Iupdate(i, 0);
      LoggedTwice(s, s3, Now());
      Close(sb, disk.blocks, F(), i);
      KeepsOthersTwice(s.disk, s.table, d1, inodes, disk.blocks, inodes, i, i);
      FreedExactly(sb, s, Now(), i);
    }
  }
}
