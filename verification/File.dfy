/** filewrite of kernel/file.c, and how much one of its transactions may log. */
module OpenFile {
  import opened Guard
  import opened Sets
  import opened Bytes
  import opened DiskFormat
  import opened Ownership
  import opened FileContent
  import opened FileSystem
  import opened BlockCount

  /** The bytes that filewrite writes in one transaction: (LOGSIZE - 1 - 1 - 2) / 2 blocks, with LOGSIZE 10. */
  const CHUNK := 3072
  const MAXBYTES := MAXFILE * BSIZE

  // --- The transaction bound ---

  lemma {:induction false} SpanSize(d: Disk, ip: Inode, lo: nat, hi: nat)
    requires |ip.addrs| == NDIRECT + 1 && lo <= hi <= MAXFILE
    ensures |Span(d, ip, lo, hi)| <= hi - lo
  {
    if lo < hi {
      SpanSize(d, ip, lo, hi - 1);
      assert Span(d, ip, lo, hi) == Span(d, ip, lo, hi - 1) + {FileBlock(d, ip, hi - 1)};
    } else {
      assert Span(d, ip, lo, hi) == {};
    }
  }

  /** A chunk, wherever it starts, touches at most four blocks. */
  lemma ChunkSpan(off: nat, n: nat)
    requires n <= CHUNK
    ensures off / BSIZE <= EndBlock(off / BSIZE, off + n, n) <= off / BSIZE + 4
  {
  }

  /** One chunk of filewrite logs at most 7 distinct sectors. */
  lemma TransactionBound(sb: Super, s: State, r: State, i: nat, off: nat, src: seq<Byte>)
    requires Written(sb, s, r, i, off, src) && s.logged == {} && sb.size <= BPB && |src| <= CHUNK
    ensures |r.logged| <= 7
  {
    var ip := r.table[i];
    var hi := EndBlock(off / BSIZE, off + |src|, |src|);
    ChunkSpan(off, |src|);
    SpanSize(r.disk, ip, off / BSIZE, hi);
    var span := Span(r.disk, ip, off / BSIZE, hi);
    UnionSize({sb.BBlock(0)} + IndirectOf(ip), span);
    UnionSize({sb.BBlock(0)}, IndirectOf(ip));
    UnionSize({IBlock(i)}, MayLog(sb, r.disk, ip, off, |src|));
    assert s.logged + {IBlock(i)} + MayLog(sb, r.disk, ip, off, |src|) ==
      {IBlock(i)} + MayLog(sb, r.disk, ip, off, |src|);
    SubsetSize(r.logged, {IBlock(i)} + MayLog(sb, r.disk, ip, off, |src|));
  }

  // --- Chunks in a row ---

  lemma WriteAtTwice(c: seq<Byte>, off: nat, a: seq<Byte>, b: seq<Byte>)
    requires off <= |c|
    ensures off + |a| <= |WriteAt(c, off, a)|
    ensures WriteAt(WriteAt(c, off, a), off + |a|, b) == WriteAt(c, off, a + b)
  {
  }

  lemma ReplacedTwice(sb: Super, s: State, s1: State, r: State, i: nat, off: nat, a: seq<Byte>, b: seq<Byte>)
    requires Replaced(sb, s, s1, i, off, a) && Replaced(sb, s1, r, i, off + |a|, b) && |s.disk| == |s1.disk| == |r.disk|
    ensures Replaced(sb, s, r, i, off, a + b)
  {
    WriteAtTwice(Content(s.disk, s.table[i]), off, a, b);
    KeepsOthersTwice(s.disk, s.table, s1.disk, s1.table, r.disk, r.table, i, i);
  }

  /** filewrite has written `done` at off of inode i, which is nothing if off is past the end. */
  ghost predicate Progress(sb: Super, s: State, r: State, i: nat, off: nat, done: seq<Byte>) {
    forall k {:trigger Peek(k)} :: Peek(k) ==> ProgressCore(sb, s, r, i, off, done)
  }

  ghost predicate ProgressCore(sb: Super, s: State, r: State, i: nat, off: nat, done: seq<Byte>) {
    && i < |s.table| == |r.table| && |s.disk| == |r.disk| == sb.size
    && if off > s.table[i].size then done == [] && r.(logged := {}) == s.(logged := {})
         else Replaced(sb, s, r, i, off, done)
  }

  lemma NoProgress(sb: Super, s: State, i: nat, off: nat)
    requires Ok(sb, s.disk, s.F(), -1, 0) && i < |s.table|
    ensures Progress(sb, s, s, i, off, [])
  {
    Open(sb, s.disk, s.F(), i);
    SelfApart(sb, s.disk, s.F(), i, s.table[i].size);
    if off <= s.table[i].size {
      var c := Content(s.disk, s.table[i]);
      assert WriteAt(c, off, []) == c;
    }
  }

  lemma NowSize(sb: Super, s: State, r: State, i: nat, off: nat, done: seq<Byte>)
    requires Progress(sb, s, r, i, off, done) && i < |s.table|
    ensures i < |r.table| && if off > s.table[i].size then done == [] && r.table == s.table
      else off + |done| <= r.table[i].size == Max(s.table[i].size, off + |done|)
  {
    assert Peek(0);
  }

  lemma MoreProgress(sb: Super, s: State, s1: State, r: State, i: nat, off: nat, done: seq<Byte>, chunk: seq<Byte>)
    requires Progress(sb, s, s1, i, off, done) && i < |s.table| && off <= s.table[i].size
    requires Replaced(sb, s1, r, i, off + |done|, chunk) && |r.disk| == sb.size
    ensures Progress(sb, s, r, i, off, done + chunk)
  {
    assert Peek(0);
    ReplacedTwice(sb, s, s1, r, i, off, done, chunk);
  }

  /** From s to r, the blocks of the n bytes written at off of inode i have been taken. */
  ghost predicate Paid(sb: Super, s: State, r: State, i: nat, off: nat, n: nat) {
    i < |s.table| && s.table[i].size >= 0 &&
    (off <= s.table[i].size ==>
      Took(-FreeData(sb, s.disk), -FreeData(sb, r.disk), s.table[i].size, Max(s.table[i].size, off + n)))
  }

  lemma PaidMore(sb: Super, s: State, s1: State, r: State, i: nat, off: nat, n: nat, m: nat)
    requires Paid(sb, s, s1, i, off, n) && i < |s1.table| && s1.table[i].size == Max(s.table[i].size, off + n)
    requires FreeData(sb, r.disk) ==
      FreeData(sb, s1.disk) - (FileBlocks(Max(s1.table[i].size, off + n + m)) - FileBlocks(s1.table[i].size))
    ensures Paid(sb, s, r, i, off, n + m)
  {
    assert Heed(0);
  }

  /** Writing w bytes at off of inode i needs more blocks than s has free. */
  ghost predicate Lacks(sb: Super, s: State, i: nat, off: nat, w: nat) {
    && i < |s.table| && 0 <= s.table[i].size && off <= s.table[i].size
    && Short(-FreeData(sb, s.disk), s.table[i].size, Max(s.table[i].size, off + w), 0)
  }

  lemma LacksMeans(sb: Super, s: State, i: nat, off: nat, w: nat)
    requires Lacks(sb, s, i, off, w)
    ensures FileBlocks(Max(s.table[i].size, off + w)) - FileBlocks(s.table[i].size) > FreeData(sb, s.disk)
  {
    assert Heed(0);
  }

  /** A chunk that needs more blocks than are left makes the whole need more than there were. */
  lemma LacksLater(sb: Super, s: State, s1: State, i: nat, off: nat, n: nat, m: nat, w: nat)
    requires Paid(sb, s, s1, i, off, n) && off <= s.table[i].size && n + m <= w
    requires i < |s1.table| && s1.table[i].size == Max(s.table[i].size, off + n)
    requires FileBlocks(Max(s1.table[i].size, off + n + m)) - FileBlocks(s1.table[i].size) > FreeData(sb, s1.disk)
    ensures Lacks(sb, s, i, off, w)
  {
    assert Heed(0);
    MoreBlocks(Max(s1.table[i].size, off + n + m), Max(s.table[i].size, off + w));
  }

  /** filewrite has written i of the w bytes that it can write of addr[..n], in whole chunks. */
  ghost predicate UnderWay(sb: Super, s: State, r: State, ip: nat, off: nat, addr: seq<Byte>, n: int, i: nat, w: nat) {
    && ip < |s.table| && 0 <= s.table[ip].size <= MAXBYTES
    && forall k {:trigger Watch(k)} :: Watch(k) ==>
      && i <= w && i <= |addr| && InChunks(off, s.table[ip].size, n, i, w)
      && Progress(sb, s, r, ip, off, addr[..i]) && Paid(sb, s, r, ip, off, i)
  }

  /** i is a whole number of chunks, and w all that can be written. */
  ghost predicate InChunks(off: nat, size: nat, n: int, i: nat, w: nat) {
    forall k {:trigger Heed(k)} :: Heed(k) && i < n ==> i % CHUNK == 0 && w == Accepted(off, size, n)
  }

  lemma StartOut(sb: Super, s: State, ip: nat, off: nat, addr: seq<Byte>, n: int, w: nat)
    requires Ok(sb, s.disk, s.F(), -1, 0) && ip < |s.table| && s.table[ip].size >= 0
    requires w == Accepted(off, s.table[ip].size, Max(n, 0))
    ensures UnderWay(sb, s, s, ip, off, addr, n, 0, w)
  {
    Open(sb, s.disk, s.F(), ip);
    NoProgress(sb, s, ip, off);
    TookNothing(-FreeData(sb, s.disk), s.table[ip].size);
  }

  /** The file's size when filewrite has written i bytes. */
  lemma ChunkSize(sb: Super, s: State, s1: State, ip: nat, off: nat, addr: seq<Byte>, n: int, i: nat, w: nat)
    requires UnderWay(sb, s, s1, ip, off, addr, n, i, w) && ip < |s.table| && s.table[ip].size >= 0
    ensures ip < |s1.table| && i <= |addr|
    ensures s1.table[ip].size == if off > s.table[ip].size then s.table[ip].size else Max(s.table[ip].size, off + i)
    ensures off > s.table[ip].size ==> i == 0
  {
    assert Watch(0);
    NowSize(sb, s, s1, ip, off, addr[..i]);
  }

  /** A chunk that is refused comes after all that can be written. */
  lemma ChunkRefused(sb: Super, s: State, s1: State, ip: nat, off: nat, addr: seq<Byte>, n: int, i: nat, n1: nat,
                     w: nat)
    requires UnderWay(sb, s, s1, ip, off, addr, n, i, w) && ip < |s.table| && 0 <= s.table[ip].size <= MAXBYTES
    requires i < n && n1 == (if n - i > CHUNK then CHUNK else n - i)
    requires off > s.table[ip].size || off + i + n1 > MAXBYTES
    ensures i == w
  {
    assert Watch(0) && Heed(0);
    if off <= s.table[ip].size {
      NextRefused(off, s.table[ip].size, n, i);
    }
  }

  lemma SameUnderWay(sb: Super, s: State, s1: State, r: State, ip: nat, off: nat, addr: seq<Byte>, n: int, i: nat,
                     w: nat)
    requires UnderWay(sb, s, s1, ip, off, addr, n, i, w) && r == s1.(logged := {})
    ensures UnderWay(sb, s, r, ip, off, addr, n, i, w)
  {
    assert Watch(0) && Peek(0);
  }

  /** A chunk for which there are not enough blocks. */
  lemma ChunkLacks(sb: Super, s: State, s1: State, ip: nat, off: nat, addr: seq<Byte>, n: int, i: nat, n1: nat, w: nat)
    requires UnderWay(sb, s, s1, ip, off, addr, n, i, w) && ip < |s.table| && 0 <= s.table[ip].size <= MAXBYTES
    requires i < n && n1 == (if n - i > CHUNK then CHUNK else n - i)
    requires off <= s.table[ip].size && off + i + n1 <= MAXBYTES
    requires ip < |s1.table| && s1.table[ip].size == Max(s.table[ip].size, off + i)
    requires FileBlocks(Max(s1.table[ip].size, off + i + n1)) - FileBlocks(s1.table[ip].size) > FreeData(sb, s1.disk)
    ensures Lacks(sb, s, ip, off, w)
  {
    assert Watch(0) && Heed(0);
    NextRefused(off, s.table[ip].size, n, i);
    LacksLater(sb, s, s1, ip, off, i, n1, w);
  }

  /** A chunk that is written. */
  lemma ChunkWritten(sb: Super, s: State, s1: State, r: State, ip: nat, off: nat, addr: seq<Byte>, n: int, i: nat,
                     n1: nat, w: nat)
    requires UnderWay(sb, s, s1, ip, off, addr, n, i, w) && ip < |s.table| && 0 <= s.table[ip].size <= MAXBYTES
    requires i < n <= |addr| && n1 == (if n - i > CHUNK then CHUNK else n - i)
    requires off <= s.table[ip].size && off + i + n1 <= MAXBYTES
    requires ip < |s1.table| && s1.table[ip].size == Max(s.table[ip].size, off + i)
    requires Replaced(sb, s1, r, ip, off + i, addr[i..i + n1]) && |r.disk| == sb.size
    requires FreeData(sb, r.disk) ==
      FreeData(sb, s1.disk) - (FileBlocks(Max(s1.table[ip].size, off + i + n1)) - FileBlocks(s1.table[ip].size))
    ensures UnderWay(sb, s, r, ip, off, addr, n, i + n1, w)
  {
    assert Watch(0) && Heed(0);
    NextRefused(off, s.table[ip].size, n, i);
    MoreProgress(sb, s, s1, r, ip, off, addr[..i], addr[i..i + n1]);
    PaidMore(sb, s, s1, r, ip, off, i, n1);
    NextSlice(addr, 0, i, n1);
    assert addr[..i] + addr[i..i + n1] == addr[..i + n1];
  }

  lemma ChunkShort(sb: Super, s: State, s1: State, ip: nat, off: nat, addr: seq<Byte>, n: int, i: nat, n1: nat, w: nat)
    requires UnderWay(sb, s, s1, ip, off, addr, n, i, w) && ip < |s.table| &&
      0 <= s.table[ip].size <= MAXBYTES
    requires i < n && n1 == (if n - i > CHUNK then CHUNK else n - i)
    requires off <= s.table[ip].size && off + i + n1 <= MAXBYTES
    requires ip < |s1.table| && s1.table[ip].size == Max(s.table[ip].size, off + i)
    requires Short(-FreeData(sb, s1.disk), s1.table[ip].size, Max(s1.table[ip].size, off + i + n1), 0)
    ensures Lacks(sb, s, ip, off, w)
  {
    assert Heed(0);
    ChunkLacks(sb, s, s1, ip, off, addr, n, i, n1, w);
  }

  /** From s to r, one chunk was written at off, and its blocks taken. */
  ghost predicate Stepped(sb: Super, s: State, r: State, ip: nat, off: nat, chunk: seq<Byte>) {
    forall k {:trigger Glance(k)} :: Glance(k) ==>
      && Replaced(sb, s, r, ip, off, chunk) && |r.disk| == sb.size
      && FreeData(sb, r.disk) == FreeData(sb, s.disk) -
           (FileBlocks(Max(s.table[ip].size, off + |chunk|)) - FileBlocks(s.table[ip].size))
  }

  lemma ChunkStepped(sb: Super, s: State, s1: State, r: State, ip: nat, off: nat, addr: seq<Byte>, n: int, i: nat,
                     n1: nat, w: nat)
    requires UnderWay(sb, s, s1, ip, off, addr, n, i, w)
    requires i < n <= |addr| && n1 == (if n - i > CHUNK then CHUNK else n - i)
    requires off <= s.table[ip].size && off + i + n1 <= MAXBYTES
    requires ip < |s1.table| && s1.table[ip].size == Max(s.table[ip].size, off + i)
    requires Stepped(sb, s1, r, ip, off + i, addr[i..i + n1])
    ensures UnderWay(sb, s, r, ip, off, addr, n, i + n1, w)
  {
    assert Glance(0);
    ChunkWritten(sb, s, s1, r, ip, off, addr, n, i, n1, w);
  }

  /** At the end, all that can be written is, and the blocks for it were there. */
  lemma AllTheWay(sb: Super, s: State, r: State, ip: nat, off: nat, addr: seq<Byte>, n: int, i: nat, w: nat)
    requires UnderWay(sb, s, r, ip, off, addr, n, i, w)
    ensures i <= w && i <= |addr| && Progress(sb, s, r, ip, off, addr[..i]) && ip < |s.table| && s.table[ip].size >= 0
    ensures off <= s.table[ip].size ==>
      FileBlocks(Max(s.table[ip].size, off + i)) - FileBlocks(s.table[ip].size) <= FreeData(sb, s.disk)
  {
    assert Watch(0) && Heed(0);
  }

  /** Any other file reads the same after a write. */
  lemma OthersContent(sb: Super, s: State, r: State, i: nat, off: nat, src: seq<Byte>, m: nat)
    requires Ok(sb, s.disk, s.F(), -1, 0) && Replaced(sb, s, r, i, off, src) && m < |s.table| && m != i
    ensures s.table[m].Stored() && s.table[m].size <= MAXBYTES && r.table[m] == s.table[m]
    ensures Content(r.disk, r.table[m]) == Content(s.disk, s.table[m])
  {
    Open(sb, s.disk, s.F(), m);
    SameContent(s.disk, s.table[m], r.disk, r.table[m]);
  }

  /** How many of n bytes at off filewrite gets into a file of the given size. */
  function Accepted(off: nat, size: nat, n: nat): (w: nat)
    ensures w <= n
  {
    if off > size then 0
    else if off + n <= MAXBYTES then n
    else if off > MAXBYTES then 0
    else (MAXBYTES - off) / CHUNK * CHUNK
  }

  lemma WholeChunks(done: nat)
    requires done % CHUNK == 0
    ensures done == done / CHUNK * CHUNK && (done + CHUNK) % CHUNK == 0
  {
  }

  /** After q chunks one more fits if and only if q is less than the number that fit. */
  lemma ChunksFit(room: nat, q: nat)
    ensures (q + 1) * CHUNK <= room <==> q < room / CHUNK
  {
  }

  /** After whole chunks, the next chunk is refused exactly when the bytes accepted are all in. */
  lemma NextRefused(off: nat, size: nat, n: nat, done: nat)
    requires done < n && done % CHUNK == 0 && off <= size <= MAXBYTES && done <= Accepted(off, size, n)
    ensures
      var n1 := if n - done > CHUNK then CHUNK else n - done;
      if off + done + n1 > MAXBYTES then done == Accepted(off, size, n)
      else done + n1 <= Accepted(off, size, n) && (done + n1 < n ==> (done + n1) % CHUNK == 0)
  {
    WholeChunks(done);
    if off + n > MAXBYTES {
      ChunksFit(MAXBYTES - off, done / CHUNK);
    }
  }

  /** An open file of type FD_INODE. */
  class File {
    const fs: Fs
    const ip: nat
    const writable: bool
    var off: nat

    constructor (fs: Fs, ip: nat, writable: bool, off: nat)
      ensures this.fs == fs && this.ip == ip && this.writable == writable && this.off == off
    {
      this.fs, this.ip, this.writable, this.off := fs, ip, writable, off;
    }

    ghost predicate Valid()
      reads this, fs
    {
      Ok(fs.sb, fs.disk.blocks, fs.F(), -1, 0) && ip < |fs.inodes| && off < TWO32
    }

    /** begin_trans, writei of one chunk at the file's offset, commit_trans. */
    method WriteTransaction(chunk: seq<Byte>) returns (r: int)
      requires Valid() && 0 < |chunk| <= CHUNK
      modifies this`off, fs
      ensures old(fs.inodes[ip].Stored() && fs.inodes[ip].size <= MAXBYTES)
      ensures r == -1 || r == |chunk| || (r == -2 && fs.DiskFull())
      ensures r == -1 <==> old(off > fs.inodes[ip].size || off + |chunk| > MAXBYTES)
      ensures r == -2 <==> r != -1 && old(fs.Growth(ip, off, |chunk|)) > FreeData(fs.sb, old(fs.disk.blocks))
      ensures r >= 0 ==>
        FreeData(fs.sb, fs.disk.blocks) == FreeData(fs.sb, old(fs.disk.blocks)) - old(fs.Growth(ip, off, |chunk|))
      ensures r == -1 ==> off == old(off) && Valid() && fs.Now() == old(fs.Now()).(logged := {})
      ensures r >= 0 ==> off == old(off) + r && Valid() && Replaced(fs.sb, old(fs.Now()), fs.Now(), ip, old(off), chunk)
      ensures r >= 0 ==> AllLogged(old(fs.Now()).(logged := {}), fs.Now())
      ensures r != -2 && fs.sb.size <= BPB ==> |fs.logged| <= 7
    {
      fs.logged, fs.writes := {}, [];
      ghost var s := fs.Now();
      Open(fs.sb, s.disk, s.F(), ip);
      r := fs.Writei(ip, off, chunk);
      if r > 0 {
        if fs.sb.size <= BPB {
          TransactionBound(fs.sb, s, fs.Now(), ip, off, chunk);
        }
        off := off + r;
      }
    }

    /**
      filewrite of n bytes: -1 if the file is not writable or some chunk was refused, n if all
      were written, -2 for the panic of a full disk, exactly if the bytes accepted need more blocks
      than are free.  What was accepted is in the file at the old offset, every other file is as it
      was, and no transaction logged more than 7 sectors.
    */
    method Filewrite(addr: seq<Byte>, n: int) returns (r: int, ghost most: nat)
      requires Valid() && n <= |addr| && n < 0x8000_0000
      modifies this`off, fs
      ensures r == -2 ==> fs.DiskFull()
      ensures !writable ==> r == -1 && off == old(off) && fs.Now() == old(fs.Now())
      ensures fs.sb.size <= BPB ==> most <= 7
      ensures old(fs.inodes[ip].Stored())
      ensures r == -2 <==>
        && writable && n >= 0 && old(off <= fs.inodes[ip].size)
        && old(fs.Growth(ip, off, Accepted(off, fs.inodes[ip].size, n))) > FreeData(fs.sb, old(fs.disk.blocks))
      ensures writable && r != -2 ==>
        var w := if n < 0 then 0 else Accepted(old(off), old(fs.inodes[ip].size), n);
        && Valid() && off == old(off) + w && r == (if w == n then n else -1)
        && Progress(fs.sb, old(fs.Now()), fs.Now(), ip, old(off), addr[..w])
    {
      most := 0;
      Open(fs.sb, fs.disk.blocks, fs.F(), ip);
      if !writable {
        return -1, 0;
      }
      ghost var s, w := fs.Now(), Accepted(off, fs.inodes[ip].size, Max(n, 0));
      StartOut(fs.sb, s, ip, off, addr, n, w);
      var i;
      r, i, most := WriteAll(addr, n, s, w);
      if r == -2 {
        LacksMeans(fs.sb, s, ip, old(off), w);
        return -2, most;
      }
      AllTheWay(fs.sb, s, fs.Now(), ip, old(off), addr, n, i, w);
      return (if i == n then n else -1), most;
    }

    /** The loop of filewrite: i bytes were written, or -2 for a full disk. */
    method WriteAll(addr: seq<Byte>, n: int, ghost s: State, ghost w: nat) returns (r: int, i: nat, ghost most: nat)
      requires Valid() && n <= |addr| && UnderWay(fs.sb, s, fs.Now(), ip, off, addr, n, 0, w)
      modifies this`off, fs
      ensures fs.sb.size <= BPB ==> most <= 7
      ensures r == -2 ==> fs.DiskFull() && Lacks(fs.sb, s, ip, old(off), w)
      ensures r != -2 ==> Valid() && off == old(off) + i && (i >= n || i == w)
      ensures r != -2 ==> UnderWay(fs.sb, s, fs.Now(), ip, old(off), addr, n, i, w) && (i <= n || i == 0)
    {
      r, i, most := 0, 0, 0;
      while i < n
        invariant 0 <= i && Valid() && off == old(off) + i && (fs.sb.size <= BPB ==> most <= 7) && (i <= n || i == 0)
        invariant UnderWay(fs.sb, s, fs.Now(), ip, old(off), addr, n, i, w)
      {
        r := NextTransaction(addr, n, i, s, old(off), w);
        if r == -2 {
          return;
        }
        most := Max(most, |fs.logged|);
        if r < 0 {
          break;
        }
        i := i + r;
      }
    }

    /** One pass of filewrite's loop: the bytes written, -1 if the chunk is refused, -2 for a full disk. */
    method NextTransaction(addr: seq<Byte>, n: int, i: nat, ghost s: State, ghost first: nat, ghost w: nat)
      returns (r: int)
      requires Valid() && i < n <= |addr| && off == first + i
      requires UnderWay(fs.sb, s, fs.Now(), ip, first, addr, n, i, w)
      modifies this`off, fs
      ensures r == -1 || r == -2 || 0 < r <= n - i
      ensures r > 0 ==> Valid() && off == first + i + r && UnderWay(fs.sb, s, fs.Now(), ip, first, addr, n, i + r, w)
      ensures r == -1 ==> i == w && Valid() && off == old(off) && UnderWay(fs.sb, s, fs.Now(), ip, first, addr, n, i, w)
      ensures r == -2 ==> fs.DiskFull() && Lacks(fs.sb, s, ip, first, w)
      ensures r != -2 && fs.sb.size <= BPB ==> |fs.logged| <= 7
    {
      var n1 := n - i;
      if n1 > CHUNK {
        n1 := CHUNK;
      }
      ghost var s1 := fs.Now();
      ChunkSize(fs.sb, s, s1, ip, first, addr, n, i, w);
      var chunk := addr[i..i + n1];
      assert |chunk| == n1;
      r := Transact(chunk);
      if r == -1 {
        ChunkRefused(fs.sb, s, s1, ip, first, addr, n, i, n1, w);
        SameUnderWay(fs.sb, s, s1, fs.Now(), ip, first, addr, n, i, w);
      } else if r == -2 {
        ChunkShort(fs.sb, s, s1, ip, first, addr, n, i, n1, w);
      } else {
        // No "short filewrite" panic.
        assert r == n1;
        ChunkStepped(fs.sb, s, s1, fs.Now(), ip, first, addr, n, i, r, w);
      }
    }

    /** WriteTransaction, in the terms of that loop. */
    method Transact(chunk: seq<Byte>) returns (r: int)
      requires Valid() && 0 < |chunk| <= CHUNK
      modifies this`off, fs
      ensures old(0 <= fs.inodes[ip].size) && (r == -1 || r == |chunk| || r == -2)
      ensures r == -1 <==> old(off > fs.inodes[ip].size || off + |chunk| > MAXBYTES)
      ensures r == -1 ==> off == old(off) && Valid() && fs.Now() == old(fs.Now()).(logged := {})
      ensures r == -2 ==>
        var size := old(fs.inodes[ip].size);
        fs.DiskFull() && Short(-FreeData(fs.sb, old(fs.disk.blocks)), size, Max(size, old(off) + |chunk|), 0)
      ensures r >= 0 ==> off == old(off) + r && Valid() && Stepped(fs.sb, old(fs.Now()), fs.Now(), ip, old(off), chunk)
      ensures r != -2 && fs.sb.size <= BPB ==> |fs.logged| <= 7
    {
      Open(fs.sb, fs.disk.blocks, fs.F(), ip);
      r := WriteTransaction(chunk);
    }
  }
}
