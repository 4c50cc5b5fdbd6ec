/**
  The storage stack put together: what a crash during a write leaves of the files.
  kernel/fs.c passes every block it changes to log_write, kernel/log.c makes the
  transaction atomic, so recovery finds the file system before or after the write.
*/
module CrashSafety {
  import opened Guard
  import opened Sets
  import opened Bytes
  import opened DiskFormat
  import Ownership
  import opened FileContent
  import opened FileSystem
  import opened BlockCount
  import OpenFile
  import BufferCache
  import Log

  type Blocks = map<BufferCache.Addr, Block>

  /** The log's place on the device of the file system. */
  function Region(sb: Super, dev: int): Log.Region
    requires sb.Good()
  {
    Log.Region(dev, sb.LogStart(), sb.nlog)
  }

  /** The blocks below the log are those of d. */
  ghost predicate Shows(sb: Super, dev: int, m: Blocks, d: Disk)
    requires |d| == sb.size
  {
    forall b :: 0 <= b < sb.LogStart() ==> BufferCache.Addr(dev, b) in m && m[BufferCache.Addr(dev, b)] == d[b]
  }

  /** The file system's view of a device; the log area does not matter. */
  ghost function FsDisk(sb: Super, dev: int, m: Blocks): Disk {
    seq(sb.size, b requires 0 <= b < sb.size =>
      if b < sb.LogStart() && BufferCache.Addr(dev, b) in m then m[BufferCache.Addr(dev, b)] else ZeroBlock())
  }

  /** No part of the file system is in the log area. */
  lemma BelowLog(sb: Super, d: Disk, e: Disk, f: Ownership.Files)
    requires Ok(sb, d, f, -1, 0) && Whole(sb, e) && forall b :: 0 <= b < sb.LogStart() ==> e[b] == d[b]
    ensures Ok(sb, e, f, -1, 0) && KeepsOthers(d, f.table, e, f.table, -1)
  {
    assert Look(0);
    forall m, bn | 0 <= m < |f.table| && 0 <= bn < MAXFILE ensures KeepsBlock(d, f.table[m], e, f.table[m], bn) {
      assert f.table[m].addrs[NDIRECT] != 0 ==> f.table[m].addrs[NDIRECT] in f.owner;
      if FileBlock(d, f.table[m], bn) != 0 {
        FileBlockOwned(sb, d, f, m, bn);
      }
    }
    assert Apart(sb, d, f.table, e, f.table, -1);
    OthersStaySettled(sb, d, f.table, e, f.table, -1);
    BelowLogOwns(sb, d, e, f);
  }

  lemma BelowLogOwns(sb: Super, d: Disk, e: Disk, f: Ownership.Files)
    requires Ownership.Inv(sb, d, f, {}) && Whole(sb, e) && forall b :: 0 <= b < sb.LogStart() ==> e[b] == d[b]
    ensures Ownership.Inv(sb, e, f, {})
  {
    forall m, j | 0 <= m < |f.table| && 0 <= j < NINDIRECT
      ensures Ownership.EntryAt(e, f.table[m], j) == Ownership.EntryAt(d, f.table[m], j)
    {
      assert f.table[m].addrs[NDIRECT] != 0 ==> f.table[m].addrs[NDIRECT] in f.owner;
    }
    forall c | c in f.owner ensures sb.Data(c) && Ownership.Names(e, f, f.owner[c], c) {
      assert Ownership.Names(d, f, f.owner[c], c);
    }
    forall b | 0 <= b < sb.size ensures sb.BBlock(b) < sb.Start() && Used(sb, e, b) == Used(sb, d, b) {
      Ownership.BitmapFits(sb, b);
    }
  }

  /** ws are writes of a transaction that leave, of exactly the blocks logged, what the disk has. */
  ghost predicate Carries(ws: seq<Log.Write>, logged: set<int>, disk: Disk, dev: int) {
    && (forall a :: a in Log.Effect(ws) ==>
          a.dev == dev && a.sector in logged && 0 <= a.sector < |disk| && Log.Effect(ws)[a] == disk[a.sector])
    && (forall b :: b in logged ==> BufferCache.Addr(dev, b) in Log.Effect(ws))
  }

  /** The log_writes of the file system, as writes to its device. */
  function ToDevice(ws: seq<BlockWrite>, dev: int): (r: seq<Log.Write>)
    ensures |r| == |ws|
  {
    seq(|ws|, k requires 0 <= k < |ws| => Log.Write(BufferCache.Addr(dev, ws[k].b), ws[k].data))
  }

  /** They leave on the device what they leave on the disk. */
  lemma {:induction false} Carrier(ws: seq<BlockWrite>, dev: int)
    ensures forall a :: a in Log.Effect(ToDevice(ws, dev)) <==> a.dev == dev && a.sector in Replay(ws)
    ensures forall a :: a in Log.Effect(ToDevice(ws, dev)) && a.sector in Replay(ws) ==>
      Log.Effect(ToDevice(ws, dev))[a] == Replay(ws)[a.sector]
  {
    if ws != [] {
      var n := |ws| - 1;
      Carrier(ws[..n], dev);
      assert ToDevice(ws, dev)[..n] == ToDevice(ws[..n], dev);
    }
  }

  /** The log_writes of a transaction carry what was logged, with no more blocks than were. */
  lemma Carried(ws: seq<BlockWrite>, logged: set<int>, disk: Disk, dev: int)
    requires Accounts(ws, logged, disk)
    ensures Carries(ToDevice(ws, dev), logged, disk, dev)
    ensures forall k :: 0 <= k < |ws| ==> ws[k].b in logged
    ensures |Log.Effect(ToDevice(ws, dev)).Keys| <= |logged|
  {
    assert Mind(0);
    Carrier(ws, dev);
    forall k | 0 <= k < |ws| ensures ws[k].b in Replay(ws) {
      InReplay(ws, k);
    }
    ImageSize(logged, dev, Log.Effect(ToDevice(ws, dev)).Keys);
  }

  lemma {:induction false} InReplay(ws: seq<BlockWrite>, k: nat)
    requires k < |ws|
    ensures ws[k].b in Replay(ws)
  {
    if k < |ws| - 1 {
      InReplay(ws[..|ws| - 1], k);
    }
  }

  lemma {:induction false} ImageSize(logged: set<int>, dev: int, addrs: set<BufferCache.Addr>)
    requires forall a :: a in addrs ==> a.dev == dev && a.sector in logged
    ensures |addrs| <= |logged|
    decreases |addrs|
  {
    if |addrs| > 0 {
      var a := Pick(addrs);
      ImageSize(logged - {a.sector}, dev, addrs - {a});
    }
  }

  /** A transaction that carries what was logged takes the device from s to r. */
  lemma CarriedOver(sb: Super, dev: int, m: Blocks, s: State, r: State, ws: seq<Log.Write>)
    requires |s.disk| == sb.size && AllLogged(s, r) && s.logged == {} && Shows(sb, dev, m, s.disk) &&
      Carries(ws, r.logged, r.disk, dev)
    ensures |r.disk| == sb.size && Shows(sb, dev, m + Log.Effect(ws), r.disk)
  {
    assert Glance(0);
  }

  /** What the file system finds when it reads a device that shows the disk d. */
  lemma FoundAgain(sb: Super, dev: int, m: Blocks, d: Disk, f: Ownership.Files)
    requires Ok(sb, d, f, -1, 0) && Shows(sb, dev, m, d)
    ensures var e := FsDisk(sb, dev, m); Ok(sb, e, f, -1, 0) && KeepsOthers(d, f.table, e, f.table, -1) && |e| == |d|
  {
    var e := FsDisk(sb, dev, m);
    BelowLog(sb, d, e, f);
  }

  /** The home blocks of a recovered device show what its meaning shows. */
  lemma RecoveredShows(sb: Super, dev: int, rec: Blocks, m: Blocks, d: Disk)
    requires sb.Good() && |d| == sb.size && Log.Homes(Region(sb, dev), rec) == m && Shows(sb, dev, m, d)
    ensures Shows(sb, dev, rec, d)
  {
    forall b | 0 <= b < sb.LogStart() ensures BufferCache.Addr(dev, b) in rec && rec[BufferCache.Addr(dev, b)] == d[b] {
      assert BufferCache.Addr(dev, b) in Log.Homes(Region(sb, dev), rec);
    }
  }

  /** The file system with inode i written or not, and every other file as it was. */
  ghost predicate BeforeOrAfter(sb: Super, s: State, r: State, d: Disk, i: nat, off: nat, src: seq<Byte>,
                                committed: bool)
    requires i < |s.table| == |r.table| && off <= s.table[i].size <= MAXFILE * BSIZE &&
      |s.table[i].addrs| == NDIRECT + 1
  {
    var t := if committed then r else s;
    && Ok(sb, d, t.F(), -1, 0) && t.table[i].Stored() && t.table[i].size <= MAXFILE * BSIZE
    && Content(d, t.table[i]) ==
         (if committed then WriteAt(Content(s.disk, s.table[i]), off, src) else Content(s.disk, s.table[i]))
    && forall m :: 0 <= m < |s.table| && m != i ==>
         t.table[m] == s.table[m] && s.table[m].Stored() && s.table[m].size <= MAXFILE * BSIZE &&
           Content(d, s.table[m]) == Content(s.disk, s.table[m])
  }

  /** Reading the device of the state s or r gives the files of that state. */
  lemma FilesFound(sb: Super, dev: int, rec: Blocks, s: State, r: State, i: nat, off: nat, src: seq<Byte>,
                   committed: bool)
    requires Ok(sb, s.disk, s.F(), -1, 0) && Replaced(sb, s, r, i, off, src) && |r.disk| == sb.size
    requires Shows(sb, dev, rec, if committed then r.disk else s.disk)
    ensures BeforeOrAfter(sb, s, r, FsDisk(sb, dev, rec), i, off, src, committed)
  {
    var d, t := FsDisk(sb, dev, rec), if committed then r else s;
    FoundAgain(sb, dev, rec, t.disk, t.F());
    Open(sb, s.disk, s.F(), i);
    SameContent(t.disk, t.table[i], d, t.table[i]);
    forall m | 0 <= m < |s.table| && m != i
      ensures t.table[m] == s.table[m] && s.table[m].Stored() && s.table[m].size <= MAXFILE * BSIZE &&
        Content(d, s.table[m]) == Content(s.disk, s.table[m])
    {
      Open(sb, s.disk, s.F(), m);
      SameContent(t.disk, t.table[m], d, t.table[m]);
      if committed {
        OpenFile.OthersContent(sb, s, r, i, off, src, m);
      }
    }
  }

  /**
    Crash safety of a write.  The file system writes inode i within one transaction; the machine
    stops after any block write of it, and recovery may be cut short at its own block writes any
    number of times.  What is then found on the device is a file system in order, in which the file
    has its old content if the header had not been written and its new content if it had, and every
    other file has the content it had.
  */
  lemma WriteSurvivesCrashes(sb: Super, dev: int, s: State, r: State, i: nat, off: nat, src: seq<Byte>,
                             ws: seq<Log.Write>,
                             trace: seq<BufferCache.Store>, first: nat, commit: nat, k: nat, ds: seq<Blocks>,
                             before: Blocks)
    requires Ok(sb, s.disk, s.F(), -1, 0) && Written(sb, s, r, i, off, src) && AllLogged(s, r) && s.logged == {}
    requires Shows(sb, dev, before, s.disk) && Carries(ws, r.logged, r.disk, dev)
    requires first <= k < |trace| && commit <= |trace|
    requires Log.MeanFrom(Region(sb, dev), trace[..commit], first, before)
    requires Log.MeanFrom(Region(sb, dev), trace, commit, before + Log.Effect(ws))
    requires |ds| > 0 && ds[0] == trace[k].blocks && Log.CrashRun(Region(sb, dev), ds)
    ensures Log.Formatted(Region(sb, dev), ds[|ds| - 1]) && off <= s.table[i].size <= MAXFILE * BSIZE
    ensures BeforeOrAfter(sb, s, r, FsDisk(sb, dev, Log.Recovered(Region(sb, dev), ds[|ds| - 1])), i, off, src,
      k >= commit)
  {
    var after := before + Log.Effect(ws);
    Log.CrashAtomicity(Region(sb, dev), trace, first, commit, k, ds, before, after);
    CarriedOver(sb, dev, before, s, r, ws);
    var rec := Log.Recovered(Region(sb, dev), ds[|ds| - 1]);
    if k >= commit {
      RecoveredShows(sb, dev, rec, after, r.disk);
    } else {
      RecoveredShows(sb, dev, rec, before, s.disk);
    }
    FilesFound(sb, dev, rec, s, r, i, off, src, k >= commit);
  }

  /** The sectors that such a write logs are outside the log, as log_write needs them to be. */
  lemma LoggedBelowLog(sb: Super, s: State, r: State, i: nat, off: nat, src: seq<Byte>, b: int)
    requires Ok(sb, s.disk, s.F(), -1, 0) && Written(sb, s, r, i, off, src) && s.logged == {} && sb.size <= BPB &&
      b in r.logged
    requires off <= r.table[i].size && off + |src| <= r.table[i].size
    ensures 0 <= b < sb.LogStart()
  {
    Open(sb, r.disk, r.F(), i);
    assert Look(0);
    var ip := r.table[i];
    if b in Span(r.disk, ip, off / BSIZE, EndBlock(off / BSIZE, off + |src|, |src|)) {
      var c :| off / BSIZE <= c < EndBlock(off / BSIZE, off + |src|, |src|) && FileBlock(r.disk, ip, c) == b;
      BlockBelowEnd(off, |src|, c);
      assert FileBlock(r.disk, ip, c) != 0 <==> c * BSIZE < ip.size;
      FileBlockOwned(sb, r.disk, r.F(), i, c);
    } else if b in IndirectOf(ip) {
      assert ip.addrs[NDIRECT] in r.refs;
    } else {
      Ownership.BitmapFits(sb, 0);
    }
  }

  lemma BlockBelowEnd(off: nat, n: nat, c: nat)
    requires off / BSIZE <= c < EndBlock(off / BSIZE, off + n, n)
    ensures c * BSIZE < off + n
  {
  }

  /** The machine stops after block write k, and each recovery but the last finds one of ds and is cut short. */
  ghost predicate Crashes(r: Log.Region, trace: seq<BufferCache.Store>, k: nat, ds: seq<Blocks>) {
    k < |trace| && |ds| > 0 && ds[0] == trace[k].blocks && Log.CrashRun(r, ds)
  }

  /** Wherever from `first` on the machine stops, the file system is found before or after the write. */
  ghost predicate Atomic(sb: Super, dev: int, s: State, r: State, i: nat, off: nat, src: seq<Byte>,
                         trace: seq<BufferCache.Store>, first: nat, commit: nat)
    requires sb.Good() && i < |s.table| == |r.table| && off <= s.table[i].size <= MAXFILE * BSIZE &&
      |s.table[i].addrs| == NDIRECT + 1
  {
    forall q {:trigger Note(q)} :: Note(q) ==>
      forall k: nat, ds :: first <= k && Crashes(Region(sb, dev), trace, k, ds) ==>
      && Log.Formatted(Region(sb, dev), ds[|ds| - 1])
      && BeforeOrAfter(sb, s, r, FsDisk(sb, dev, Log.Recovered(Region(sb, dev), ds[|ds| - 1])), i, off, src,
           k >= commit)
  }

  /** The transaction of a chunk of filewrite fits a log of LOGSIZE blocks and the buffer cache. */
  lemma ChunkFits(sb: Super, dev: int, s: State, r: State, i: nat, off: nat, src: seq<Byte>, ws: seq<Log.Write>)
    requires sb.Good() && Written(sb, s, r, i, off, src) && s.logged == {} && sb.size <= BPB
    requires |src| <= OpenFile.CHUNK && sb.nlog >= Log.LOGSIZE && |Log.Effect(ws).Keys| <= |r.logged|
    ensures Log.FitsLog(Region(sb, dev), Log.Effect(ws).Keys)
  {
    OpenFile.TransactionBound(sb, s, r, i, off, src);
  }

  lemma AtomicWrite(sb: Super, dev: int, s: State, r: State, i: nat, off: nat, src: seq<Byte>, ws: seq<Log.Write>,
                    trace: seq<BufferCache.Store>, first: nat, commit: nat, before: Blocks)
    requires Ok(sb, s.disk, s.F(), -1, 0) && Written(sb, s, r, i, off, src) && AllLogged(s, r) && s.logged == {}
    requires Shows(sb, dev, before, s.disk) && Carries(ws, r.logged, r.disk, dev) && commit <= |trace|
    requires Log.MeanFrom(Region(sb, dev), trace[..commit], first, before)
    requires Log.MeanFrom(Region(sb, dev), trace, commit, before + Log.Effect(ws))
    ensures Atomic(sb, dev, s, r, i, off, src, trace, first, commit)
    ensures |r.disk| == sb.size && Shows(sb, dev, before + Log.Effect(ws), r.disk)
  {
    CarriedOver(sb, dev, before, s, r, ws);
    forall k: nat, ds | first <= k && Crashes(Region(sb, dev), trace, k, ds)
      ensures Log.Formatted(Region(sb, dev), ds[|ds| - 1])
      ensures BeforeOrAfter(sb, s, r, FsDisk(sb, dev, Log.Recovered(Region(sb, dev), ds[|ds| - 1])), i, off, src,
        k >= commit)
    {
      WriteSurvivesCrashes(sb, dev, s, r, i, off, src, ws, trace, first, commit, k, ds, before);
    }
  }

  /** Between transactions, the device shows the disk d below the log. */
  ghost predicate LogShows(log: Log.Log, sb: Super, dev: int, d: Disk)
    reads log, log.cache
  {
    && sb.Good() && |d| == sb.size && log.region == Region(sb, dev)
    && forall k {:trigger Mark(k)} :: Mark(k) ==>
         && log.Open() && log.n == 0 && !log.busy && log.cache.Held() == {}
         && Shows(sb, dev, Log.Homes(log.region, log.cache.disk.blocks), d)
  }

  /** The file system is in order, and the device shows its disk. */
  ghost predicate Mounted(fs: Fs, log: Log.Log, dev: int)
    reads fs, log, log.cache
  {
    Ok(fs.sb, fs.disk.blocks, fs.F(), -1, 0) && LogShows(log, fs.sb, dev, fs.disk.blocks)
  }

  lemma LoggedAllBelowLog(sb: Super, s: State, r: State, i: nat, off: nat, src: seq<Byte>)
    requires Ok(sb, s.disk, s.F(), -1, 0) && Written(sb, s, r, i, off, src) && s.logged == {} && sb.size <= BPB
    ensures forall b :: b in r.logged ==> 0 <= b < sb.LogStart()
  {
    forall b | b in r.logged ensures 0 <= b < sb.LogStart() {
      LoggedBelowLog(sb, s, r, i, off, src, b);
    }
  }

  /** Home blocks below the log may be passed to log_write. */
  lemma WritesGood(sb: Super, dev: int, d: Blocks, ws: seq<Log.Write>, logged: set<int>, shown: Disk)
    requires sb.Good() && |shown| == sb.size && Shows(sb, dev, Log.Homes(Region(sb, dev), d), shown)
    requires forall b :: b in logged ==> 0 <= b < sb.LogStart()
    requires forall k :: 0 <= k < |ws| ==> ws[k].at.dev == dev && ws[k].at.sector in logged
    ensures forall k :: 0 <= k < |ws| ==> Log.GoodWrite(Region(sb, dev), d, ws[k])
  {
    forall k | 0 <= k < |ws| ensures Log.GoodWrite(Region(sb, dev), d, ws[k]) {
      assert BufferCache.Addr(dev, ws[k].at.sector) in Log.Homes(Region(sb, dev), d);
    }
  }

  /** What log.Transaction asks of the log_writes of a write, and what makes it succeed for a chunk. */
  lemma CanCommit(sb: Super, dev: int, d: Blocks, s: State, r: State, i: nat, off: nat, src: seq<Byte>,
                  writes: seq<BlockWrite>)
    requires Ok(sb, s.disk, s.F(), -1, 0) && s.logged == {} && sb.size <= BPB && Written(sb, s, r, i, off, src)
    requires Shows(sb, dev, Log.Homes(Region(sb, dev), d), s.disk) && Accounts(writes, r.logged, r.disk)
    ensures
      var ws := ToDevice(writes, dev);
      && Carries(ws, r.logged, r.disk, dev) && (forall k :: 0 <= k < |ws| ==> Log.GoodWrite(Region(sb, dev), d, ws[k]))
      && (|src| <= OpenFile.CHUNK && sb.nlog >= Log.LOGSIZE ==> Log.FitsLog(Region(sb, dev), Log.Effect(ws).Keys))
  {
    var ws := ToDevice(writes, dev);
    LoggedAllBelowLog(sb, s, r, i, off, src);
    Carried(writes, r.logged, r.disk, dev);
    WritesGood(sb, dev, d, ws, r.logged, s.disk);
    if |src| <= OpenFile.CHUNK && sb.nlog >= Log.LOGSIZE {
      ChunkFits(sb, dev, s, r, i, off, src, ws);
    }
  }

  /** What the write from s logged goes to the device in one transaction. */
  method CommitWrite(fs: Fs, log: Log.Log, dev: int, i: nat, off: nat, src: seq<Byte>, ghost s: State)
    returns (ok: bool, ghost commit: nat)
    requires Ok(fs.sb, s.disk, s.F(), -1, 0) && s.logged == {} && fs.sb.size <= BPB
    requires Written(fs.sb, s, fs.Now(), i, off, src) && AllLogged(s, fs.Now())
    requires LogShows(log, fs.sb, dev, s.disk) && fs.Recorded()
    modifies log, log.cache
    ensures |old(log.cache.trace)| <= |log.cache.trace| &&
      log.cache.trace[..|old(log.cache.trace)|] == old(log.cache.trace)
    ensures Atomic(fs.sb, dev, s, fs.Now(), i, off, src, log.cache.trace, |old(log.cache.trace)|, commit)
    ensures ok ==> LogShows(log, fs.sb, dev, fs.disk.blocks)
    ensures |src| <= OpenFile.CHUNK && fs.sb.nlog >= Log.LOGSIZE ==> ok
  {
    assert Mark(0);
    var ws := ToDevice(fs.writes, dev);
    CanCommit(fs.sb, dev, log.cache.disk.blocks, s, fs.Now(), i, off, src, fs.writes);
    ghost var before := Log.Homes(log.region, log.cache.disk.blocks);
    ok, commit := log.Transaction(ws);
    AtomicWrite(fs.sb, dev, s, fs.Now(), i, off, src, ws, log.cache.trace, |old(log.cache.trace)|, commit, before);
  }

  /** begin_trans and writei: what is logged from here on belongs to the new transaction. */
  method FreshWrite(fs: Fs, i: nat, off: nat, src: seq<Byte>) returns (r: int)
    requires Ok(fs.sb, fs.disk.blocks, fs.F(), -1, 0) && i < |fs.inodes| && off < TWO32 && |src| < TWO32
    modifies fs
    ensures old(fs.inodes[i].Stored() && fs.inodes[i].size <= MAXFILE * BSIZE)
    ensures r == -1 || r == |src| || (r == -2 && fs.DiskFull())
    ensures r == -1 <==> off > old(fs.inodes[i].size) || off + |src| >= TWO32 || off + |src| > MAXFILE * BSIZE
    ensures r == -2 <==> r != -1 && old(fs.Growth(i, off, |src|)) > Ownership.FreeData(fs.sb, old(fs.disk.blocks))
    ensures r >= 0 ==>
      Ownership.FreeData(fs.sb, fs.disk.blocks) ==
        Ownership.FreeData(fs.sb, old(fs.disk.blocks)) - old(fs.Growth(i, off, |src|))
    ensures r == -1 ==> fs.Now() == old(fs.Now()).(logged := {})
    ensures r >= 0 ==> Written(fs.sb, old(fs.Now()).(logged := {}), fs.Now(), i, off, src)
    ensures AllLogged(old(fs.Now()).(logged := {}), fs.Now()) && fs.Recorded()
  {
    fs.logged, fs.writes := {}, [];
    r := fs.Writei(i, off, src);
  }

  /**
    begin_trans, writei, commit_trans.  What writei logged goes through the log to the device; a
    crash at any block write of the transaction leaves the file system before or after the write;
    and for a chunk of filewrite no panic of the log or of the buffer cache is reached.
  */
  method WriteThroughLog(fs: Fs, log: Log.Log, dev: int, i: nat, off: nat, src: seq<Byte>)
    returns (r: int, ok: bool, ghost commit: nat)
    requires Mounted(fs, log, dev)
    requires fs.sb.size <= BPB && i < |fs.inodes| && off < TWO32 && |src| < TWO32
    modifies fs, log, log.cache
    ensures old(fs.inodes[i].Stored() && fs.inodes[i].size <= MAXFILE * BSIZE)
    ensures r == -1 || r == |src| || (r == -2 && fs.DiskFull())
    ensures r == -1 <==> off > old(fs.inodes[i].size) || off + |src| >= TWO32 || off + |src| > MAXFILE * BSIZE
    ensures r == -2 <==> r != -1 && old(fs.Growth(i, off, |src|)) > Ownership.FreeData(fs.sb, old(fs.disk.blocks))
    ensures r < 0 ==> log.cache.trace == old(log.cache.trace)
    ensures |old(log.cache.trace)| <= |log.cache.trace| &&
      log.cache.trace[..|old(log.cache.trace)|] == old(log.cache.trace)
    ensures r >= 0 ==> Written(fs.sb, old(fs.Now()).(logged := {}), fs.Now(), i, off, src)
    ensures r >= 0 ==>
      Ownership.FreeData(fs.sb, fs.disk.blocks) ==
        Ownership.FreeData(fs.sb, old(fs.disk.blocks)) - old(fs.Growth(i, off, |src|))
    ensures r == -1 ==> fs.Now() == old(fs.Now()).(logged := {})
    ensures r >= 0 ==>
      Atomic(fs.sb, dev, old(fs.Now()), fs.Now(), i, off, src, log.cache.trace, |old(log.cache.trace)|, commit)
    ensures ok && r != -2 ==> Mounted(fs, log, dev)
    ensures r == -1 || (|src| <= OpenFile.CHUNK && fs.sb.nlog >= Log.LOGSIZE) ==> ok
  {
    ghost var s := fs.Now().(logged := {});
    r := FreshWrite(fs, i, off, src);
    if r < 0 {
      return r, true, |log.cache.trace|;
    }
    ok, commit := CommitWrite(fs, log, dev, i, off, src, s);
  }

  // --- The whole of filewrite ---

  /**
    On the disk d, inode i has the content it had in s with src[..j] written at off, and every other
    file its own; t is the inode table found.
  */
  ghost predicate Found(sb: Super, s: State, d: Disk, i: nat, off: nat, src: seq<Byte>, j: nat, t: Ownership.Files) {
    && Ok(sb, d, t, -1, 0) && i < |t.table| == |s.table| && Sound(s.table[i]) && Sound(t.table[i]) && j <= |src|
    && off <= s.table[i].size && Content(d, t.table[i]) == WriteAt(Content(s.disk, s.table[i]), off, src[..j])
    && forall m :: 0 <= m < |s.table| && m != i ==>
         t.table[m] == s.table[m] && Sound(s.table[m]) && Content(d, s.table[m]) == Content(s.disk, s.table[m])
  }

  /** The files on the disk d are those of s with a whole number of chunks of src written. */
  ghost predicate FoundChunkwise(sb: Super, s: State, d: Disk, i: nat, off: nat, src: seq<Byte>) {
    exists j: nat, t :: WholeChunks(src, j) && Found(sb, s, d, i, off, src, j, t)
  }

  predicate Sound(ip: Inode) { |ip.addrs| == NDIRECT + 1 && 0 <= ip.size <= MAXFILE * BSIZE }

  /** The first j bytes of src are a whole number of chunks, or all. */
  predicate WholeChunks(src: seq<Byte>, j: nat) { j <= |src| && (j % OpenFile.CHUNK == 0 || j == |src|) }

  /** Wherever from `first` on the machine stops, the files are found with a whole number of chunks of src written. */
  ghost predicate ChunkwiseAtomic(sb: Super, dev: int, s: State, i: nat, off: nat, src: seq<Byte>,
                                  trace: seq<BufferCache.Store>, first: nat)
    requires sb.Good()
  {
    forall q {:trigger Note(q)} :: Note(q) ==>
      forall k: nat, ds :: first <= k && Crashes(Region(sb, dev), trace, k, ds) ==>
        && Log.Formatted(Region(sb, dev), ds[|ds| - 1])
        && FoundChunkwise(sb, s, FsDisk(sb, dev, Log.Recovered(Region(sb, dev), ds[|ds| - 1])), i, off, src)
  }

  /** What a crash in the transaction from s1 to r leaves, seen from s. */
  lemma FoundFrom(sb: Super, s: State, s1: State, r: State, d: Disk, i: nat, off: nat, src: seq<Byte>, n: nat, m: nat,
                  committed: bool)
    requires Ok(sb, s.disk, s.F(), -1, 0) && Ok(sb, s1.disk, s1.F(), -1, 0) && |s.disk| == |s1.disk| == |r.disk|
    requires n + m <= |src| && WholeChunks(src, n) && WholeChunks(src, n + m)
    requires Replaced(sb, s, s1, i, off, src[..n]) && Replaced(sb, s1, r, i, off + n, src[n..n + m])
    requires BeforeOrAfter(sb, s1, r, d, i, off + n, src[n..n + m], committed)
    ensures FoundChunkwise(sb, s, d, i, off, src)
  {
    OpenFile.WriteAtTwice(Content(s.disk, s.table[i]), off, src[..n], src[n..n + m]);
    assert src[..n] + src[n..n + m] == src[..n + m];
    forall m | 0 <= m < |s.table| && m != i
      ensures s1.table[m] == s.table[m] && Sound(s.table[m]) &&
        Content(s1.disk, s.table[m]) == Content(s.disk, s.table[m])
    {
      OpenFile.OthersContent(sb, s, s1, i, off, src[..n], m);
    }
    if committed {
      assert Found(sb, s, d, i, off, src, n + m, r.F());
    } else {
      assert Found(sb, s, d, i, off, src, n, s1.F());
    }
  }

  lemma CrashBefore(r: Log.Region, before: seq<BufferCache.Store>, trace: seq<BufferCache.Store>, k: nat,
                    ds: seq<Blocks>)
    requires |before| <= |trace| && trace[..|before|] == before && k < |before| && Crashes(r, trace, k, ds)
    ensures Crashes(r, before, k, ds)
  {
    assert trace[..|before|][k] == trace[k];
  }

  /** One more chunk. */
  lemma ChunkwiseMore(sb: Super, dev: int, s: State, s1: State, r: State, i: nat, off: nat, src: seq<Byte>, n: nat,
                      m: nat,
                      before: seq<BufferCache.Store>, trace: seq<BufferCache.Store>, first: nat, commit: nat)
    requires Ok(sb, s.disk, s.F(), -1, 0) && Ok(sb, s1.disk, s1.F(), -1, 0) && |s.disk| == |s1.disk| == |r.disk|
    requires n + m <= |src| && WholeChunks(src, n) && WholeChunks(src, n + m)
    requires Replaced(sb, s, s1, i, off, src[..n]) && Replaced(sb, s1, r, i, off + n, src[n..n + m])
    requires ChunkwiseAtomic(sb, dev, s, i, off, src, before, first) && first <= |before| <= |trace|
    requires trace[..|before|] == before && Atomic(sb, dev, s1, r, i, off + n, src[n..n + m], trace, |before|, commit)
    ensures ChunkwiseAtomic(sb, dev, s, i, off, src, trace, first)
  {
    assert Note(0);
    forall k: nat, ds | first <= k && Crashes(Region(sb, dev), trace, k, ds)
      ensures Log.Formatted(Region(sb, dev), ds[|ds| - 1])
      ensures FoundChunkwise(sb, s, FsDisk(sb, dev, Log.Recovered(Region(sb, dev), ds[|ds| - 1])), i, off, src)
    {
      if k < |before| {
        CrashBefore(Region(sb, dev), before, trace, k, ds);
      } else {
        var d := FsDisk(sb, dev, Log.Recovered(Region(sb, dev), ds[|ds| - 1]));
        FoundFrom(sb, s, s1, r, d, i, off, src, n, m, k >= commit);
      }
    }
  }

  /**
    filewrite through the log, chunk by chunk.  It writes what Filewrite writes, reaches no panic of
    the log or the buffer cache, and wherever the machine stops and however often recovery does, the
    file is found with its old content and a whole number of chunks written, and every other file
    with its own content.
  */
  method FilewriteThroughLog(file: OpenFile.File, log: Log.Log, dev: int, addr: seq<Byte>, n: int) returns (r: int)
    requires file.Valid() && Mounted(file.fs, log, dev) && file.writable && n <= |addr| && n < 0x8000_0000
    requires file.fs.sb.size <= BPB && file.fs.sb.nlog >= Log.LOGSIZE
    modifies file`off, file.fs, log, log.cache
    ensures old(file.fs.inodes[file.ip].Stored())
    ensures
      var w := if n < 0 then 0 else OpenFile.Accepted(old(file.off), old(file.fs.inodes[file.ip].size), n);
      && (r == -2 <==>
            && old(file.off <= file.fs.inodes[file.ip].size)
            && old(file.fs.Growth(file.ip, file.off, w)) > Ownership.FreeData(file.fs.sb, old(file.fs.disk.blocks)))
      && (r != -2 ==> Mounted(file.fs, log, dev) && file.off == old(file.off) + w && r == if w == n then n else -1)
      && (r != -2 ==>
            OpenFile.Progress(file.fs.sb, old(file.fs.Now()), file.fs.Now(), file.ip, old(file.off), addr[..w]))
    ensures ChunkwiseAtomic(file.fs.sb, dev, old(file.fs.Now()), file.ip, old(file.off), addr[..Max(n, 0)],
                            log.cache.trace, |old(log.cache.trace)|)
  {
    var fs, ip := file.fs, file.ip;
    Open(fs.sb, fs.disk.blocks, fs.F(), ip);
    ghost var s, w := fs.Now(), OpenFile.Accepted(file.off, fs.inodes[ip].size, Max(n, 0));
    ghost var base, src := log.cache.trace, addr[..Max(n, 0)];
    OpenFile.StartOut(fs.sb, s, ip, file.off, addr, n, w);
    var i := 0;
    while i < n
      invariant 0 <= i && file.Valid() && Mounted(fs, log, dev) && file.off == old(file.off) + i
      invariant OpenFile.UnderWay(fs.sb, s, fs.Now(), ip, old(file.off), addr, n, i, w)
      invariant |base| <= |log.cache.trace|
      invariant ChunkwiseAtomic(fs.sb, dev, s, ip, old(file.off), src, log.cache.trace, |base|)
    {
      r := ChunkThroughLog(file, log, dev, addr, n, i, s, old(file.off), w, base);
      if r == -2 {
        OpenFile.LacksMeans(fs.sb, s, ip, old(file.off), w);
        return -2;
      }
      if r < 0 {
        break;
      }
      i := i + r;
    }
    OpenFile.AllTheWay(fs.sb, s, fs.Now(), ip, old(file.off), addr, n, i, w);
    return if i == n then n else -1;
  }

  /** The write of one chunk from s to r, and what a crash during it leaves. */
  ghost predicate Committed(sb: Super, dev: int, s: State, r: State, i: nat, off: nat, src: seq<Byte>,
                            before: seq<BufferCache.Store>, trace: seq<BufferCache.Store>) {
    forall k {:trigger Glance(k)} :: Glance(k) ==>
      exists commit :: CommittedAt(sb, dev, s, r, i, off, src, before, trace, commit)
  }

  ghost predicate CommittedAt(sb: Super, dev: int, s: State, r: State, i: nat, off: nat, src: seq<Byte>,
                              before: seq<BufferCache.Store>, trace: seq<BufferCache.Store>, commit: nat) {
    && sb.Good() && Ok(sb, s.disk, s.F(), -1, 0) && |s.disk| == |r.disk|
    && Replaced(sb, s, r, i, off, src) && Sound(s.table[i])
    && Ownership.FreeData(sb, r.disk) == Ownership.FreeData(sb, s.disk) -
         (FileBlocks(Max(s.table[i].size, off + |src|)) - FileBlocks(s.table[i].size))
    && |before| <= |trace| && trace[..|before|] == before && Atomic(sb, dev, s, r, i, off, src, trace, |before|, commit)
  }

  /** WriteThroughLog of a chunk. */
  method WriteChunk(fs: Fs, log: Log.Log, dev: int, i: nat, off: nat, src: seq<Byte>) returns (r: int)
    requires Mounted(fs, log, dev) && fs.sb.nlog >= Log.LOGSIZE
    requires fs.sb.size <= BPB && i < |fs.inodes| && off < TWO32 && |src| <= OpenFile.CHUNK
    modifies fs, log, log.cache
    ensures r == -1 || r == -2 || r == |src|
    ensures old(0 <= fs.inodes[i].size)
    ensures r == -1 <==> off > old(fs.inodes[i].size) || off + |src| > MAXFILE * BSIZE
    ensures r == -2 ==>
      var size := old(fs.inodes[i].size);
      fs.DiskFull() && Short(-Ownership.FreeData(fs.sb, old(fs.disk.blocks)), size, Max(size, off + |src|), 0)
    ensures |old(log.cache.trace)| <= |log.cache.trace|
    ensures r < 0 ==> log.cache.trace == old(log.cache.trace)
    ensures r == -1 ==> fs.Now() == old(fs.Now()).(logged := {})
    ensures r >= 0 ==>
      Committed(fs.sb, dev, old(fs.Now()), fs.Now(), i, off, src, old(log.cache.trace), log.cache.trace)
    ensures r != -2 ==>
      |fs.inodes| == |old(fs.inodes)| && Mounted(fs, log, dev)
  {
    ghost var s, before := fs.Now(), log.cache.trace;
    Open(fs.sb, fs.disk.blocks, fs.F(), i);
    var ok;
    ghost var commit;
    r, ok, commit := WriteThroughLog(fs, log, dev, i, off, src);
    if r >= 0 {
      assert CommittedAt(fs.sb, dev, s, fs.Now(), i, off, src, before, log.cache.trace, commit);
    }
  }

  /** One pass of that loop. */
  method ChunkThroughLog(file: OpenFile.File, log: Log.Log, dev: int, addr: seq<Byte>, n: int, i: nat,
                         ghost s: State, ghost off: nat, ghost w: nat, ghost base: seq<BufferCache.Store>)
    returns (r: int)
    requires file.Valid() && Mounted(file.fs, log, dev) && i < n <= |addr| && file.off == off + i
    requires file.fs.sb.size <= BPB && file.fs.sb.nlog >= Log.LOGSIZE && Ok(file.fs.sb, s.disk, s.F(), -1, 0)
    requires OpenFile.UnderWay(file.fs.sb, s, file.fs.Now(), file.ip, off, addr, n, i, w)
    requires |base| <= |log.cache.trace|
    requires ChunkwiseAtomic(file.fs.sb, dev, s, file.ip, off, addr[..n], log.cache.trace, |base|)
    modifies file`off, file.fs, log, log.cache
    ensures r == -1 || r == -2 || 0 < r <= n - i
    ensures r != -2 ==> file.Valid() && Mounted(file.fs, log, dev)
    ensures r > 0 ==> file.off == off + i + r
    ensures r > 0 ==> OpenFile.UnderWay(file.fs.sb, s, file.fs.Now(), file.ip, off, addr, n, i + r, w)
    ensures r == -1 ==> i == w && file.off == old(file.off)
    ensures r == -1 ==> OpenFile.UnderWay(file.fs.sb, s, file.fs.Now(), file.ip, off, addr, n, i, w)
    ensures r == -2 ==> file.fs.DiskFull() && OpenFile.Lacks(file.fs.sb, s, file.ip, off, w)
    ensures |base| <= |log.cache.trace|
    ensures ChunkwiseAtomic(file.fs.sb, dev, s, file.ip, off, addr[..n], log.cache.trace, |base|)
  {
    var fs, ip := file.fs, file.ip;
    var n1 := n - i;
    if n1 > OpenFile.CHUNK {
      n1 := OpenFile.CHUNK;
    }
    ghost var s1, before := fs.Now(), log.cache.trace;
    OpenFile.ChunkSize(fs.sb, s, s1, ip, off, addr, n, i, w);
    var chunk := addr[i..i + n1];
    assert |chunk| == n1;
    r := WriteChunk(fs, log, dev, ip, file.off, chunk);
    if r == -1 {
      OpenFile.ChunkRefused(fs.sb, s, s1, ip, off, addr, n, i, n1, w);
      OpenFile.SameUnderWay(fs.sb, s, s1, fs.Now(), ip, off, addr, n, i, w);
    } else if r == -2 {
      OpenFile.ChunkShort(fs.sb, s, s1, ip, off, addr, n, i, n1, w);
    } else {
      assert r == n1;
      ChunkDone(fs.sb, dev, s, s1, fs.Now(), ip, off, addr, n, i, r, w, before, log.cache.trace, |base|);
      file.off := file.off + r;
    }
  }

  lemma ChunkDone(sb: Super, dev: int, s: State, s1: State, r: State, ip: nat, off: nat, addr: seq<Byte>, n: int,
                  i: nat,
                  n1: nat, w: nat, before: seq<BufferCache.Store>, trace: seq<BufferCache.Store>, first: nat)
    requires OpenFile.UnderWay(sb, s, s1, ip, off, addr, n, i, w) && Ok(sb, s.disk, s.F(), -1, 0)
    requires i < n <= |addr| && n1 == (if n - i > OpenFile.CHUNK then OpenFile.CHUNK else n - i)
    requires ip < |s.table| && 0 <= off <= s.table[ip].size <= MAXFILE * BSIZE && off + i + n1 <= MAXFILE * BSIZE
    requires ip < |s1.table| && s1.table[ip].size == Max(s.table[ip].size, off + i)
    requires Committed(sb, dev, s1, r, ip, off + i, addr[i..i + n1], before, trace) && first <= |before|
    requires ChunkwiseAtomic(sb, dev, s, ip, off, addr[..n], before, first)
    ensures OpenFile.UnderWay(sb, s, r, ip, off, addr, n, i + n1, w)
    ensures ChunkwiseAtomic(sb, dev, s, ip, off, addr[..n], trace, first)
  {
    assert Glance(0);
    var commit :| CommittedAt(sb, dev, s1, r, ip, off + i, addr[i..i + n1], before, trace, commit);
    UnderWayChunks(sb, s, s1, ip, off, addr, n, i, n1, w);
    OpenFile.ChunkWritten(sb, s, s1, r, ip, off, addr, n, i, n1, w);
    assert addr[..n][i..i + n1] == addr[i..i + n1] && addr[..n][..i] == addr[..i];
    ChunkwiseMore(sb, dev, s, s1, r, ip, off, addr[..n], i, n1, before, trace, first, commit);
  }

  /** filewrite has written whole chunks, and after the next one has again. */
  lemma UnderWayChunks(sb: Super, s: State, s1: State, ip: nat, off: nat, addr: seq<Byte>, n: int, i: nat, n1: nat,
                       w: nat)
    requires OpenFile.UnderWay(sb, s, s1, ip, off, addr, n, i, w) && i < n <= |addr| && off <= s.table[ip].size
    requires n1 == (if n - i > OpenFile.CHUNK then OpenFile.CHUNK else n - i)
    ensures WholeChunks(addr[..n], i) && WholeChunks(addr[..n], i + n1) && Replaced(sb, s, s1, ip, off, addr[..i])
    ensures |s.disk| == |s1.disk| == sb.size
  {
    assert Watch(0) && Peek(0) && Heed(0);
  }
}
