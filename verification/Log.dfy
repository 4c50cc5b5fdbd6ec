/**
  The redo log of kernel/log.c over the block cache.

  `Logical` is the meaning of a disk: the home blocks that a complete recovery
  would leave.  The proofs follow it through every single block write, so a crash
  (or a panic) may happen between any two of them.
*/
module Log {
  import opened Guard
  import opened Sets
  import opened Bytes
  import opened BufferCache

  const LOGSIZE := 10

  /** Where the log lives: header at `start`, log blocks after it, `size` blocks in all. */
  datatype Region = Region(dev: int, start: nat, size: nat) {
    predicate Has(a: Addr) { a.dev == dev && start <= a.sector < start + size }
    function Header(): Addr { Addr(dev, start) }
    function Slot(i: int): Addr { Addr(dev, start + 1 + i) }
    function Home(sector: int): Addr { Addr(dev, sector) }
  }

  // --- The header block ---

  function HeadN(h: Block): int
    requires h.Full()
  {
    Word(h.bytes, 0)
  }

  function HeadSector(h: Block, i: int): int
    requires h.Full() && 0 <= i < LOGSIZE
  {
    Word(h.bytes, 4 * i + 4)
  }

  /** A header block with its count overwritten by zero. */
  function Cleared(h: Block): Block
    requires h.Full()
  {
    Block(PutWord(h.bytes, 0, 0))
  }

  /** The sectors a header block lists. */
  ghost function Listed(h: Block): seq<int>
    requires h.Full() && HeadN(h) <= LOGSIZE
  {
    seq(HeadN(h), i requires 0 <= i < HeadN(h) => HeadSector(h, i))
  }

  // --- The meaning of a disk ---

  ghost predicate GoodSectors(r: Region, d: Disk, sectors: seq<int>) {
    && |sectors| <= LOGSIZE && |sectors| < r.size
    && forall i :: 0 <= i < |sectors| ==>
         r.Home(sectors[i]) in d && !r.Has(r.Home(sectors[i])) && 0 <= sectors[i] < TWO32
  }

  /** The log region is on the disk and its header lists only blocks outside it. */
  ghost predicate Formatted(r: Region, d: Disk) {
    && r.size > 0
    && (forall s :: r.start <= s < r.start + r.size ==> Addr(r.dev, s) in d)
    && d[r.Header()].Full() && HeadN(d[r.Header()]) <= LOGSIZE
    && GoodSectors(r, d, Listed(d[r.Header()]))
  }

  ghost function Sectors(r: Region, d: Disk): seq<int>
    requires Formatted(r, d)
  {
    Listed(d[r.Header()])
  }

  /** The last place at which sectors lists the address a, or -1. */
  ghost function Last(r: Region, sectors: seq<int>, a: Addr): (i: int)
    ensures -1 <= i < |sectors|
    ensures i >= 0 ==> r.Home(sectors[i]) == a
    ensures forall j :: i < j < |sectors| ==> r.Home(sectors[j]) != a
  {
    if sectors == [] then -1
    else if r.Home(sectors[|sectors| - 1]) == a then |sectors| - 1
    else Last(r, sectors[..|sectors| - 1], a)
  }

  /** Home block a after the first n log blocks of d have been copied out. */
  ghost function Installed(r: Region, d: Disk, sectors: seq<int>, a: Addr): Block
    requires a in d
    requires forall i :: 0 <= i < |sectors| ==> r.Slot(i) in d
  {
    var i := Last(r, sectors, a);
    if i >= 0 then d[r.Slot(i)] else d[a]
  }

  lemma SlotsOnDisk(r: Region, d: Disk)
    requires Formatted(r, d)
    ensures forall i :: 0 <= i < |Sectors(r, d)| ==> r.Slot(i) in d
  {
  }

  /** The home blocks that recovery from d ends with. */
  ghost function Logical(r: Region, d: Disk): map<Addr, Block>
    requires Formatted(r, d)
  {
    SlotsOnDisk(r, d);
    map a | a in d && !r.Has(a) :: Installed(r, d, Sectors(r, d), a)
  }

  ghost function Homes(r: Region, d: Disk): map<Addr, Block> {
    map a | a in d && !r.Has(a) :: d[a]
  }

  // --- What each kind of block write does to the meaning ---

  /** With an empty header the home blocks are what they are. */
  lemma EmptyHeader(r: Region, d: Disk)
    requires Formatted(r, d) && HeadN(d[r.Header()]) == 0
    ensures Logical(r, d) == Homes(r, d)
  {
  }

  /** Writing a log block beyond those the header lists changes nothing. */
  lemma WriteFreeSlot(r: Region, d: Disk, i: nat, b: Block)
    requires Formatted(r, d) && HeadN(d[r.Header()]) == 0 && i < r.size - 1
    ensures Formatted(r, d[r.Slot(i) := b]) && Logical(r, d[r.Slot(i) := b]) == Logical(r, d)
  {
  }

  /** d after its first t log blocks have been copied home. */
  ghost function InstallUpTo(r: Region, d: Disk, t: nat): (e: Disk)
    requires Formatted(r, d) && t <= |Sectors(r, d)|
    ensures e.Keys == d.Keys
  {
    if t == 0 then d
    else InstallUpTo(r, d, t - 1)[r.Home(Sectors(r, d)[t - 1]) := d[r.Slot(t - 1)]]
  }

  lemma {:induction false} InstallUpToRegion(r: Region, d: Disk, t: nat)
    requires Formatted(r, d) && t <= |Sectors(r, d)|
    ensures forall a :: a in d && r.Has(a) ==> InstallUpTo(r, d, t)[a] == d[a]
  {
    if t > 0 {
      InstallUpToRegion(r, d, t - 1);
    }
  }

  lemma {:induction false} InstallUpToHomes(r: Region, d: Disk, t: nat)
    requires Formatted(r, d) && t <= |Sectors(r, d)|
    ensures forall a :: a in d && !r.Has(a) ==> InstallUpTo(r, d, t)[a] == Installed(r, d, Sectors(r, d)[..t], a)
  {
    if t > 0 {
      InstallUpToHomes(r, d, t - 1);
      assert Sectors(r, d)[..t][..t - 1] == Sectors(r, d)[..t - 1];
    }
  }

  lemma InstallFormatted(r: Region, d: Disk, t: nat)
    requires Formatted(r, d) && t <= |Sectors(r, d)|
    ensures Formatted(r, InstallUpTo(r, d, t)) && Sectors(r, InstallUpTo(r, d, t)) == Sectors(r, d)
  {
    InstallUpToRegion(r, d, t);
    assert InstallUpTo(r, d, t)[r.Header()] == d[r.Header()];
  }

  lemma InstallKeepsAt(r: Region, d: Disk, t: nat, a: Addr)
    requires Formatted(r, d) && t <= |Sectors(r, d)| && a in d && !r.Has(a)
    requires InstallUpTo(r, d, t)[a] == Installed(r, d, Sectors(r, d)[..t], a)
    requires forall x :: x in d && r.Has(x) ==> InstallUpTo(r, d, t)[x] == d[x]
    ensures Installed(r, InstallUpTo(r, d, t), Sectors(r, d), a) == Installed(r, d, Sectors(r, d), a)
  {
    var i := Last(r, Sectors(r, d), a);
    if i >= 0 {
      assert r.Has(r.Slot(i));
    } else {
      assert Last(r, Sectors(r, d)[..t], a) == -1;
    }
  }

  /** A crash between two copies of an installation loses nothing. */
  lemma InstallKeepsMeaning(r: Region, d: Disk, t: nat)
    requires Formatted(r, d) && t <= |Sectors(r, d)|
    ensures Formatted(r, InstallUpTo(r, d, t)) && Sectors(r, InstallUpTo(r, d, t)) == Sectors(r, d)
    ensures Logical(r, InstallUpTo(r, d, t)) == Logical(r, d)
  {
    InstallUpToHomes(r, d, t);
    InstallUpToRegion(r, d, t);
    InstallFormatted(r, d, t);
    forall a | a in d && !r.Has(a) ensures Logical(r, InstallUpTo(r, d, t))[a] == Logical(r, d)[a] {
      InstallKeepsAt(r, d, t, a);
    }
  }

  ghost function ClearHeader(r: Region, d: Disk): Disk
    requires Formatted(r, d)
  {
    d[r.Header() := Cleared(d[r.Header()])]
  }

  /** The disk that a complete recovery leaves. */
  ghost function Recovered(r: Region, d: Disk): Disk
    requires Formatted(r, d)
  {
    InstallKeepsMeaning(r, d, |Sectors(r, d)|);
    ClearHeader(r, InstallUpTo(r, d, |Sectors(r, d)|))
  }

  /** Once the home blocks hold the meaning, the header can be cleared. */
  lemma ClearKeepsMeaning(r: Region, d: Disk)
    requires Formatted(r, d) && Homes(r, d) == Logical(r, d)
    ensures Formatted(r, ClearHeader(r, d)) && HeadN(ClearHeader(r, d)[r.Header()]) == 0
    ensures Homes(r, ClearHeader(r, d)) == Logical(r, ClearHeader(r, d)) == Logical(r, d)
  {
    EmptyHeader(r, ClearHeader(r, d));
    assert forall a :: a in d && !r.Has(a) ==> ClearHeader(r, d)[a] == d[a];
    assert Homes(r, ClearHeader(r, d)) == Homes(r, d);
  }

  /** A complete installation leaves the meaning in the home blocks. */
  lemma InstallDone(r: Region, d: Disk)
    requires Formatted(r, d)
    ensures Homes(r, InstallUpTo(r, d, |Sectors(r, d)|)) == Logical(r, d)
  {
    var n := |Sectors(r, d)|;
    InstallUpToHomes(r, d, n);
    assert Sectors(r, d)[..n] == Sectors(r, d);
  }

  lemma RecoveredMeaning(r: Region, d: Disk)
    requires Formatted(r, d)
    ensures Formatted(r, Recovered(r, d)) && HeadN(Recovered(r, d)[r.Header()]) == 0
    ensures Homes(r, Recovered(r, d)) == Logical(r, Recovered(r, d)) == Logical(r, d)
  {
    InstallKeepsMeaning(r, d, |Sectors(r, d)|);
    InstallDone(r, d);
    ClearKeepsMeaning(r, InstallUpTo(r, d, |Sectors(r, d)|));
  }

  /** The disk after each of the first t copies of an installation of d. */
  ghost function InstallTrace(r: Region, d: Disk, t: nat): (steps: seq<Store>)
    requires Formatted(r, d) && t <= |Sectors(r, d)|
  {
    seq(t, i requires 0 <= i < t => Store(InstallUpTo(r, d, i + 1)))
  }

  lemma InstallTraceNext(r: Region, d: Disk, t: nat)
    requires Formatted(r, d) && t < |Sectors(r, d)|
    ensures InstallTrace(r, d, t + 1) == InstallTrace(r, d, t) + [Store(InstallUpTo(r, d, t + 1))]
  {
  }

  /** The disk after each block write of recovery, from d. */
  ghost function RecoverySteps(r: Region, d: Disk): (steps: seq<Store>)
    requires Formatted(r, d)
  {
    InstallTrace(r, d, |Sectors(r, d)|) + [Store(Recovered(r, d))]
  }

  lemma RecoveryStep(r: Region, d: Disk, k: nat)
    requires Formatted(r, d) && k <= |Sectors(r, d)|
    ensures RecoverySteps(r, d)[k] == Store(if k < |Sectors(r, d)| then InstallUpTo(r, d, k + 1) else Recovered(r, d))
  {
  }

  lemma RecoveryStepMeans(r: Region, d: Disk, k: nat)
    requires Formatted(r, d) && k <= |Sectors(r, d)|
    ensures var e := RecoverySteps(r, d)[k].blocks; Formatted(r, e) && Logical(r, e) == Logical(r, d)
  {
    RecoveryStep(r, d, k);
    if k < |Sectors(r, d)| {
      InstallKeepsMeaning(r, d, k + 1);
    } else {
      RecoveredMeaning(r, d);
    }
  }

  lemma RecoveryStepKeepsMeaning(r: Region, d: Disk, e: Disk)
    requires Formatted(r, d) && Store(e) in RecoverySteps(r, d)
    ensures Formatted(r, e) && Logical(r, e) == Logical(r, d)
  {
    var k :| 0 <= k <= |Sectors(r, d)| && RecoverySteps(r, d)[k] == Store(e);
    RecoveryStepMeans(r, d, k);
  }

  /** Recovery from d may be stopped by a crash that leaves e. */
  ghost predicate CutShort(r: Region, d: Disk, e: Disk) {
    Formatted(r, d) && (e == d || Store(e) in RecoverySteps(r, d))
  }

  /** Disks found at successive reboots, each recovery but the last cut short by a crash. */
  ghost predicate CrashRun(r: Region, ds: seq<Disk>) {
    forall i, j :: 0 <= i && j == i + 1 < |ds| ==> CutShort(r, ds[i], ds[j])
  }

  /** However often recovery itself crashes, the recovery that completes leaves the same home blocks. */
  lemma {:induction false} RecoverySurvivesCrashes(r: Region, ds: seq<Disk>)
    requires |ds| > 0 && Formatted(r, ds[0]) && CrashRun(r, ds)
    ensures Formatted(r, ds[|ds| - 1])
    ensures Homes(r, Recovered(r, ds[|ds| - 1])) == Logical(r, ds[0])
    ensures Logical(r, ds[|ds| - 1]) == Logical(r, ds[0])
  {
    var n := |ds| - 1;
    if n > 0 {
      assert CutShort(r, ds[n - 1], ds[n]);
      RecoverySurvivesCrashes(r, ds[..n]);
      if ds[n] != ds[n - 1] {
        RecoveryStepKeepsMeaning(r, ds[n - 1], ds[n]);
      }
    }
    RecoveredMeaning(r, ds[n]);
  }

  // --- The code ---

  /** memmove over the whole block, bwrite, brelse. */
  method Replace(cache: Cache, b: nat, data: Block)
    requires cache.Valid() && b < NBUF && cache.buf[b].busy && cache.buf[b].valid
    modifies cache
    ensures cache.Valid()
    ensures cache.disk == Store(old(cache.disk.blocks)[old(cache.buf[b].at) := data]) &&
      cache.trace == old(cache.trace) + [cache.disk]
    ensures cache.shown == Store(old(cache.shown.blocks)[old(cache.buf[b].at) := data])
    ensures forall c :: 0 <= c < NBUF && c != b ==> cache.buf[c] == old(cache.buf)[c]
    ensures cache.Held() == old(cache.Held()) - {old(cache.buf[b].at)}
    ensures cache.Pinned() == old(cache.Pinned()) - {old(cache.buf[b].at)}
  {
    cache.Fill(b, data);
    cache.Bwrite(b);
    cache.Brelse(b);
  }

  /** bread, memmove over the whole block, bwrite, brelse.  False is the "no buffers" panic. */
  method Overwrite(cache: Cache, a: Addr, data: Block) returns (ok: bool)
    requires cache.Valid() && a in cache.disk.blocks && a !in cache.Held()
    modifies cache
    ensures cache.Valid() && cache.Held() == old(cache.Held())
    ensures ok || AllTaken(old(cache.buf))
    ensures forall c :: 0 <= c < NBUF && old(cache.buf)[c].busy ==> cache.buf[c] == old(cache.buf)[c]
    ensures ok ==>
      && cache.disk == Store(old(cache.disk.blocks)[a := data]) && cache.trace == old(cache.trace) + [cache.disk]
      && cache.shown == Store(old(cache.shown.blocks)[a := data]) && cache.Pinned() == old(cache.Pinned()) - {a}
    ensures !ok ==>
      && cache.disk == old(cache.disk) && cache.trace == old(cache.trace)
      && cache.shown == old(cache.shown) && cache.Pinned() == old(cache.Pinned())
  {
    var r := cache.Bread(a);
    if r.NoBuffers? {
      return false;
    }
    Replace(cache, r.b, data);
    return true;
  }

  /** memmove(dbuf, lbuf), bwrite(dbuf), brelse(lbuf), brelse(dbuf). */
  method CopyHeld(cache: Cache, lbuf: nat, dbuf: nat)
    requires cache.Valid() && lbuf < NBUF && dbuf < NBUF && lbuf != dbuf
    requires cache.buf[lbuf].busy && cache.buf[lbuf].valid && cache.buf[dbuf].busy && cache.buf[dbuf].valid
    requires cache.buf[lbuf].data == cache.disk.blocks[cache.buf[lbuf].at]
    modifies cache
    ensures cache.Valid()
    ensures cache.disk == Store(old(cache.disk.blocks[cache.buf[dbuf].at := cache.buf[lbuf].data]))
    ensures cache.shown == Store(old(cache.shown.blocks[cache.buf[dbuf].at := cache.buf[lbuf].data]))
    ensures cache.trace == old(cache.trace) + [cache.disk]
    ensures cache.Held() == old(cache.Held() - {cache.buf[dbuf].at} - {cache.buf[lbuf].at})
    ensures cache.Pinned() == old(cache.Pinned() - {cache.buf[dbuf].at})
  {
    cache.Fill(dbuf, cache.buf[lbuf].data);
    cache.Bwrite(dbuf);
    cache.Brelse(lbuf);
    cache.Brelse(dbuf);
  }

  /** One pass of install_trans: both blocks are held while one is copied over the other. */
  method Copy(cache: Cache, src: Addr, dst: Addr) returns (ok: bool)
    requires cache.Valid() && src in cache.disk.blocks && dst in cache.disk.blocks && src != dst
    requires src !in cache.Held() && dst !in cache.Held() && cache.shown.blocks[src] == cache.disk.blocks[src]
    modifies cache
    ensures cache.Valid()
    ensures ok ==>
      && cache.disk == Store(old(cache.disk.blocks)[dst := old(cache.disk.blocks[src])]) &&
           cache.trace == old(cache.trace) + [cache.disk]
      && cache.shown == Store(old(cache.shown.blocks)[dst := old(cache.disk.blocks[src])])
      && cache.Held() == old(cache.Held()) && cache.Pinned() == old(cache.Pinned()) - {dst}
    ensures !ok ==> cache.disk == old(cache.disk) && cache.trace == old(cache.trace)
    ensures old(Spare(cache.Held(), cache.Pinned(), 2)) ==> ok
  {
    SpareHeld(cache.Held(), cache.Pinned(), 1, src);
    cache.Room();
    var lbuf := cache.Bread(src);
    if lbuf.NoBuffers? {
      return false;
    }
    cache.Room();
    var dbuf := cache.Bread(dst);
    if dbuf.NoBuffers? {
      return false;
    }
    CopyHeld(cache, lbuf.b, dbuf.b);
    return true;
  }

  /** The loop of write_head over the header block. */
  method FillHeader(h: Block, n: nat, sector: seq<int>) returns (hb: Block)
    requires h.Full() && n <= LOGSIZE == |sector| && forall i :: 0 <= i < n ==> 0 <= sector[i] < TWO32
    ensures hb.Full() && HeadN(hb) == n && Listed(hb) == sector[..n]
    ensures n == 0 ==> hb == Cleared(h)
  {
    hb := Block(PutWord(h.bytes, 0, n));
    for i := 0 to n
      invariant hb.Full() && (i == 0 ==> hb == Block(PutWord(h.bytes, 0, n)))
      invariant HeadN(hb) == n && forall k :: 0 <= k < i ==> HeadSector(hb, k) == sector[k]
    {
      hb := Block(PutWord(hb.bytes, 4 * i + 4, sector[i]));
    }
  }

  ghost predicate DistinctSectors(sectors: seq<int>) {
    forall i, j :: 0 <= i < j < |sectors| ==> sectors[i] != sectors[j]
  }

  /** The log blocks of d hold what was logged for these sectors. */
  ghost predicate Holds(r: Region, d: Disk, sectors: seq<int>, logged: map<Addr, Block>) {
    && GoodSectors(r, d, sectors) && DistinctSectors(sectors)
    && logged.Keys == HomeSet(r, sectors)
    && forall i :: 0 <= i < |sectors| ==>
         r.Slot(i) in d && r.Home(sectors[i]) in logged && d[r.Slot(i)] == logged[r.Home(sectors[i])]
  }

  /** The commit point: the header write that lists a full log switches the meaning at once. */
  lemma CommitPoint(r: Region, d: Disk, hb: Block, sectors: seq<int>, logged: map<Addr, Block>)
    requires Formatted(r, d) && Holds(r, d, sectors, logged)
    requires hb.Full() && HeadN(hb) == |sectors| && Listed(hb) == sectors
    ensures Formatted(r, d[r.Header() := hb]) && Sectors(r, d[r.Header() := hb]) == sectors
    ensures Logical(r, d[r.Header() := hb]) == Homes(r, d) + logged
  {
    var e := d[r.Header() := hb];
    assert Formatted(r, e);
    forall a | a in d && !r.Has(a) ensures Logical(r, e)[a] == (Homes(r, d) + logged)[a] {
      CommitPointAt(r, d, hb, sectors, logged, a);
    }
    forall a | a in logged ensures a in d && !r.Has(a) {
      var j := FromHomeSet(r, sectors, a);
    }
  }

  lemma CommitPointAt(r: Region, d: Disk, hb: Block, sectors: seq<int>, logged: map<Addr, Block>, a: Addr)
    requires Formatted(r, d) && Holds(r, d, sectors, logged) && a in d && !r.Has(a)
    ensures Installed(r, d[r.Header() := hb], sectors, a) == (Homes(r, d) + logged)[a]
  {
    var i := Last(r, sectors, a);
    if i >= 0 {
      assert r.Slot(i) != r.Header() && r.Home(sectors[i]) in logged;
    } else if a in logged {
      i := FromHomeSet(r, sectors, a);
    }
  }

  ghost function HomeSet(r: Region, sectors: seq<int>): set<Addr> {
    if sectors == [] then {} else HomeSet(r, sectors[..|sectors| - 1]) + {r.Home(sectors[|sectors| - 1])}
  }

  lemma {:induction false} InHomeSet(r: Region, sectors: seq<int>, i: nat)
    requires i < |sectors|
    ensures r.Home(sectors[i]) in HomeSet(r, sectors)
  {
    if i < |sectors| - 1 {
      InHomeSet(r, sectors[..|sectors| - 1], i);
    }
  }

  lemma {:induction false} FromHomeSet(r: Region, sectors: seq<int>, a: Addr) returns (i: nat)
    requires a in HomeSet(r, sectors)
    ensures i < |sectors| && a == r.Home(sectors[i])
  {
    i := |sectors| - 1;
    if a != r.Home(sectors[i]) {
      i := FromHomeSet(r, sectors[..i], a);
    }
  }

  /** Every disk of a trace from index k on means m. */
  ghost predicate MeanFrom(r: Region, trace: seq<Store>, k: nat, m: map<Addr, Block>) {
    forall q {:trigger Note(q)} :: Note(q) ==>
      forall i :: k <= i < |trace| ==> Formatted(r, trace[i].blocks) && Logical(r, trace[i].blocks) == m
  }

  /** A disk that means m, followed by disks that mean m. */
  lemma MeanOneMore(r: Region, before: seq<Store>, disk: Store, trace: seq<Store>, m: map<Addr, Block>)
    requires |before| < |trace| && trace[..|before| + 1] == before + [disk]
    requires Formatted(r, disk.blocks) && Logical(r, disk.blocks) == m && MeanFrom(r, trace, |before| + 1, m)
    ensures trace[..|before|] == before && MeanFrom(r, trace, |before|, m)
  {
    assert Note(0);
    assert trace[|before|] == trace[..|before| + 1][|before|] == disk;
    assert trace[..|before|] == trace[..|before| + 1][..|before|];
  }

  /** Disks that mean m, followed by one that does. */
  lemma MeanLast(r: Region, before: seq<Store>, trace: seq<Store>, disk: Store, m: map<Addr, Block>)
    requires |before| <= |trace| && trace[..|before|] == before
    requires MeanFrom(r, trace, |before|, m) && Formatted(r, disk.blocks) && Logical(r, disk.blocks) == m
    ensures MeanFrom(r, trace + [disk], |before|, m) && (trace + [disk])[..|before|] == before
  {
    assert Note(0);
  }

  lemma InstallTraceMeans(r: Region, d: Disk, before: seq<Store>, t: nat)
    requires Formatted(r, d) && t <= |Sectors(r, d)|
    ensures MeanFrom(r, before + InstallTrace(r, d, t), |before|, Logical(r, d))
    ensures (before + InstallTrace(r, d, t))[..|before|] == before
  {
    forall i | |before| <= i < |before| + t
      ensures var e := (before + InstallTrace(r, d, t))[i].blocks; Formatted(r, e) && Logical(r, e) == Logical(r, d)
    {
      assert (before + InstallTrace(r, d, t))[i] == Store(InstallUpTo(r, d, i - |before| + 1));
      InstallKeepsMeaning(r, d, i - |before| + 1);
    }
  }

  lemma RecoveredTraceMeans(r: Region, d: Disk, before: seq<Store>)
    requires Formatted(r, d)
    ensures
      var t, e := InstallTrace(r, d, |Sectors(r, d)|), Recovered(r, d);
      && MeanFrom(r, before + t + [Store(e)], |before|, Logical(r, d)) &&
           (before + t + [Store(e)])[..|before|] == before
      && Formatted(r, e) && HeadN(e[r.Header()]) == 0 && Homes(r, e) == Logical(r, d)
  {
    assert Note(0);
    InstallTraceMeans(r, d, before, |Sectors(r, d)|);
    RecoveredMeaning(r, d);
  }

  /** The list after sector s was put at place i: absorbed, or appended. */
  ghost function Noted(sectors: seq<int>, i: nat, s: int): seq<int>
    requires i <= |sectors|
  {
    if i < |sectors| then sectors else sectors + [s]
  }

  lemma NotedPrefix(sectors: seq<int>, n: nat, i: nat, s: int)
    requires i <= n < |sectors| && (i < n ==> sectors[i] == s)
    ensures sectors[i := s][..if i == n then n + 1 else n] == Noted(sectors[..n], i, s)
  {
  }

  /** A log block written at its place adds to the log and nothing else. */
  lemma LogOne(r: Region, d: Disk, sectors: seq<int>, logged: map<Addr, Block>, s: int, i: nat, data: Block)
    requires Formatted(r, d) && HeadN(d[r.Header()]) == 0 && Holds(r, d, sectors, logged)
    requires r.Home(s) in d && !r.Has(r.Home(s)) && 0 <= s < TWO32
    requires i <= |sectors| < LOGSIZE && |sectors| + 1 < r.size && s !in sectors[..i] &&
      (i < |sectors| ==> sectors[i] == s)
    ensures r.Slot(i) in d
    ensures Holds(r, d[r.Slot(i) := data], Noted(sectors, i, s), logged[r.Home(s) := data])
    ensures Formatted(r, d[r.Slot(i) := data]) && Logical(r, d[r.Slot(i) := data]) == Logical(r, d)
  {
    WriteFreeSlot(r, d, i, data);
    if i < |sectors| {
      Absorb(r, d, sectors, logged, i, data);
    } else {
      Append(r, d, sectors, logged, s, data);
    }
  }

  lemma Absorb(r: Region, d: Disk, sectors: seq<int>, logged: map<Addr, Block>, i: nat, data: Block)
    requires Holds(r, d, sectors, logged) && i < |sectors|
    ensures Holds(r, d[r.Slot(i) := data], sectors, logged[r.Home(sectors[i]) := data])
  {
  }

  lemma Append(r: Region, d: Disk, sectors: seq<int>, logged: map<Addr, Block>, s: int, data: Block)
    requires Holds(r, d, sectors, logged) && s !in sectors && |sectors| < LOGSIZE && |sectors| + 1 < r.size
    requires r.Home(s) in d && !r.Has(r.Home(s)) && 0 <= s < TWO32
    ensures Holds(r, d[r.Slot(|sectors|) := data], sectors + [s], logged[r.Home(s) := data])
  {
    var n, t := |sectors|, sectors + [s];
    var e, l := d[r.Slot(n) := data], logged[r.Home(s) := data];
    assert l.Keys == HomeSet(r, t) by { NotedHomes(r, sectors, n, s); }
    assert DistinctSectors(t);
    forall k | 0 <= k <= n
      ensures r.Home(t[k]) in d && !r.Has(r.Home(t[k])) && 0 <= t[k] < TWO32
      ensures r.Slot(k) in e && r.Home(t[k]) in l && e[r.Slot(k)] == l[r.Home(t[k])]
    {
      if k < n {
        assert t[k] == sectors[k] && r.Home(sectors[k]) != r.Home(s);
      }
    }
  }

  lemma NotedHomes(r: Region, sectors: seq<int>, i: nat, s: int)
    requires i <= |sectors| && (i < |sectors| ==> sectors[i] == s)
    ensures HomeSet(r, Noted(sectors, i, s)) == HomeSet(r, sectors) + {r.Home(s)}
  {
    if i == |sectors| {
      assert Noted(sectors, i, s)[..i] == sectors;
    } else {
      InHomeSet(r, sectors, i);
    }
  }

  lemma HomeSetNext(r: Region, sectors: seq<int>, i: nat)
    requires i < |sectors|
    ensures HomeSet(r, sectors[..i + 1]) == HomeSet(r, sectors[..i]) + {r.Home(sectors[i])}
  {
    assert sectors[..i + 1][..i] == sectors[..i];
  }

  datatype Write = Write(at: Addr, data: Block)

  /** The writes of a transaction are to home blocks of the log's device. */
  ghost predicate GoodWrite(r: Region, d: Disk, w: Write) {
    w.at in d && w.at.dev == r.dev && !r.Has(w.at) && 0 <= w.at.sector < TWO32
  }

  /** The blocks that a sequence of writes leaves, the last write to each address winning. */
  ghost function Effect(ws: seq<Write>): map<Addr, Block> {
    if ws == [] then map[] else Effect(ws[..|ws| - 1])[ws[|ws| - 1].at := ws[|ws| - 1].data]
  }

  lemma {:induction false} EffectGrows(ws: seq<Write>, i: nat)
    requires i <= |ws|
    ensures Effect(ws[..i]).Keys <= Effect(ws).Keys
  {
    if i == |ws| {
      assert ws[..i] == ws;
    } else {
      EffectGrows(ws[..|ws| - 1], i);
      assert ws[..|ws| - 1][..i] == ws[..i];
    }
  }

  lemma EffectNext(ws: seq<Write>, i: nat)
    requires i < |ws|
    ensures Effect(ws[..i + 1]) == Effect(ws[..i])[ws[i].at := ws[i].data]
  {
    assert ws[..i + 1][..i] == ws[..i];
  }

  /** The list has one place for each block that is logged. */
  lemma ListedOnce(r: Region, d: Disk, sectors: seq<int>, logged: map<Addr, Block>)
    requires Holds(r, d, sectors, logged)
    ensures |sectors| <= |logged.Keys|
  {
    var homes := seq(|sectors|, i requires 0 <= i < |sectors| => r.Home(sectors[i]));
    ListFits(homes, logged.Keys);
  }

  /** A set of blocks that one transaction can hold: the list, the log and the buffers have room for it. */
  ghost predicate FitsLog(r: Region, blocks: set<Addr>) {
    forall k {:trigger Look(k)} :: Look(k) ==> FitsCount(r, blocks)
  }

  ghost predicate FitsCount(r: Region, blocks: set<Addr>) {
    |blocks| < LOGSIZE && |blocks| < r.size - 1 && |blocks| + 2 <= NBUF
  }

  lemma FitsFewer(r: Region, blocks: set<Addr>, fewer: set<Addr>)
    requires FitsLog(r, blocks) && fewer <= blocks
    ensures FitsLog(r, fewer)
  {
    assert Look(0);
    SubsetSize(fewer, blocks);
  }

  /** A transaction that fits the log as a whole fits it after each of its writes. */
  lemma FitsPart(r: Region, ws: seq<Write>, i: nat)
    requires i < |ws| && FitsLog(r, Effect(ws).Keys)
    ensures FitsLog(r, Effect(ws[..i]).Keys + {ws[i].at})
  {
    EffectNext(ws, i);
    EffectGrows(ws, i + 1);
    FitsFewer(r, Effect(ws).Keys, Effect(ws[..i]).Keys + {ws[i].at});
  }

  lemma FitsSpare(r: Region, blocks: set<Addr>, a: Addr)
    requires FitsLog(r, blocks)
    ensures Spare({}, blocks, 2) && Spare({}, blocks, 1) && (a in blocks ==> Spare({a}, blocks, 1))
  {
    assert Look(0);
    assert {} + blocks == blocks && (a in blocks ==> {a} + blocks == blocks);
  }

  /** With a logged besides `blocks`: what is held and pinned while it is being logged. */
  lemma FitsOneMore(r: Region, blocks: set<Addr>, a: Addr)
    requires FitsLog(r, blocks + {a})
    ensures Spare({}, blocks, 1) && Spare({a}, blocks, 1) && |blocks| < LOGSIZE && |blocks| < r.size - 1
  {
    assert Look(0);
    SubsetSize(blocks, blocks + {a});
    assert {} + blocks == blocks && {a} + blocks == blocks + {a};
  }

  /**
    Crash atomicity: stop a transaction after any block write, let recovery crash at any of its
    own block writes any number of times, and the recovery that completes leaves exactly the
    blocks from before the transaction or exactly those after it.
  */
  lemma CrashAtomicity(r: Region, trace: seq<Store>, first: nat, commit: nat, i: nat, ds: seq<Disk>,
                       before: map<Addr, Block>, after: map<Addr, Block>)
    requires first <= i < |trace| && commit <= |trace|
    requires MeanFrom(r, trace[..commit], first, before) && MeanFrom(r, trace, commit, after)
    requires |ds| > 0 && ds[0] == trace[i].blocks && CrashRun(r, ds)
    ensures Formatted(r, ds[|ds| - 1])
    ensures Homes(r, Recovered(r, ds[|ds| - 1])) == if i < commit then before else after
  {
    assert Note(0);
    assert i < commit ==> trace[..commit][i] == trace[i];
    RecoverySurvivesCrashes(r, ds);
  }

  /** No block of the log region is held or pinned. */
  ghost predicate FreeOf(r: Region, held: set<Addr>, pinned: set<Addr>) {
    forall k {:trigger Peek(k)} :: Peek(k) ==> forall a :: a in held || a in pinned ==> !r.Has(a)
  }

  lemma FreeOfFewer(r: Region, held: set<Addr>, pinned: set<Addr>, fewer: set<Addr>)
    requires FreeOf(r, held, pinned) && fewer <= pinned
    ensures FreeOf(r, held, fewer)
  {
    assert Peek(0);
  }

  lemma NotTaken(r: Region, held: set<Addr>, pinned: set<Addr>, a: Addr)
    requires FreeOf(r, held, pinned) && r.Has(a)
    ensures a !in held && a !in pinned
  {
    assert Peek(0);
  }

  class Log {
    const cache: Cache
    const region: Region
    var busy: bool
    var n: nat
    var sector: seq<int>
    /** What log_write was last given for each block of this transaction. */
    ghost var logged: Store

    /** Between commits the header on disk lists nothing and the log blocks hold what was logged. */
    ghost predicate Logging()
      reads this`n, this`sector, this`logged, cache
    {
      && cache.Valid()
      && Formatted(region, cache.disk.blocks) && HeadN(cache.disk.blocks[region.Header()]) == 0
      && |sector| == LOGSIZE && n <= LOGSIZE
      && forall k {:trigger Heed(k)} :: Heed(k) ==>
           && Holds(region, cache.disk.blocks, sector[..n], logged.blocks)
           && LogFree()
    }

    /** And every logged block is pinned in the cache. */
    ghost predicate Open()
      reads this`n, this`sector, this`logged, cache
    {
      Logging() && cache.Pinned() == logged.blocks.Keys
    }

    /** And nothing is logged. */
    ghost predicate Emptied()
      reads this`n, this`sector, this`logged, cache
    {
      forall k {:trigger Mark(k)} :: Mark(k) ==> Open() && n == 0 && logged == Store(map[])
    }

    /**
      initlog: recover, and start with an empty log.  Every block write of recovery is
      one of RecoverySteps, and the home blocks end as the disk at boot meant them.
    */
    constructor (cache: Cache, region: Region)
      requires cache.Valid() && cache.Held() == {} && cache.Pinned() == {}
      requires Formatted(region, cache.disk.blocks)
      modifies cache
      ensures this.cache == cache && this.region == region && Open() && n == 0 && !busy
      ensures cache.disk == Store(Recovered(region, old(cache.disk.blocks)))
      ensures Homes(region, cache.disk.blocks) == Logical(region, old(cache.disk.blocks))
      ensures cache.trace == old(cache.trace) + RecoverySteps(region, old(cache.disk.blocks))
    {
      this.cache, this.region := cache, region;
      busy, n, sector, logged := false, 0, seq(LOGSIZE, _ => 0), Store(map[]);
      new;
      RecoverFromLog();
      RecoveredMeaning(region, old(cache.disk.blocks));
    }

    method RecoverFromLog()
      requires cache.Valid() && cache.Held() == {} && cache.Pinned() == {} && |sector| == LOGSIZE
      requires Formatted(region, cache.disk.blocks)
      modifies this`n, this`sector, cache
      ensures cache.Valid() && cache.Held() == {} && cache.Pinned() == {}
      ensures |sector| == LOGSIZE && n == 0
      ensures cache.disk == Store(Recovered(region, old(cache.disk.blocks)))
      ensures cache.trace == old(cache.trace) + RecoverySteps(region, old(cache.disk.blocks))
    {
      ReadHead();
      var ok;
      ghost var t;
      assert Spare({}, {}, 2) && Spare({}, {}, 1);
      ok, t := InstallTrans();
      ok := ClearLog(old(cache.disk.blocks));
    }

    /** read_head: the list of the header on disk, which must hold at most LOGSIZE sectors. */
    method ReadHead()
      requires cache.Valid() && cache.Held() == {} && cache.Pinned() == {} && |sector| == LOGSIZE
      requires Formatted(region, cache.disk.blocks)
      modifies this`n, this`sector, cache
      ensures cache.Valid() && cache.disk == old(cache.disk) && cache.trace == old(cache.trace)
      ensures cache.Held() == {} && cache.Pinned() == {}
      ensures |sector| == LOGSIZE && n == HeadN(cache.disk.blocks[region.Header()]) <= LOGSIZE
      ensures sector[..n] == Sectors(region, cache.disk.blocks)
    {
      cache.Idle();
      assert cache.buf[0].Clean();
      cache.Settled(region.Header());
      var r := cache.Bread(region.Header());
      var h := cache.buf[r.b].data;
      var lh := sector;
      for i := 0 to HeadN(h)
        invariant |lh| == LOGSIZE && forall k :: 0 <= k < i ==> lh[k] == HeadSector(h, k)
      {
        lh := lh[i := HeadSector(h, i)];
      }
      n, sector := HeadN(h), lh;
      cache.Brelse(r.b);
    }

    /** write_head.  False is a panic: nothing was written. */
    method WriteHead() returns (ok: bool, ghost hb: Block)
      requires cache.Valid() && region.Header() in cache.disk.blocks && cache.disk.blocks[region.Header()].Full()
      requires region.Header() !in cache.Held() + cache.Pinned()
      requires |sector| == LOGSIZE && n <= LOGSIZE && forall i :: 0 <= i < n ==> 0 <= sector[i] < TWO32
      modifies cache
      ensures cache.Valid() && cache.Held() == old(cache.Held()) && cache.Pinned() == old(cache.Pinned())
      ensures ok ==> hb.Full() && HeadN(hb) == n && Listed(hb) == sector[..n]
      ensures ok && n == 0 ==> hb == Cleared(old(cache.disk.blocks[region.Header()]))
      ensures ok ==>
        cache.disk == Store(old(cache.disk.blocks)[region.Header() := hb]) &&
          cache.trace == old(cache.trace) + [cache.disk]
      ensures !ok ==> cache.disk == old(cache.disk) && cache.trace == old(cache.trace)
      ensures old(Spare(cache.Held(), cache.Pinned(), 1)) ==> ok
    {
      cache.Room();
      cache.Settled(region.Header());
      var r := cache.Bread(region.Header());
      if r.NoBuffers? {
        return false, ZeroBlock();
      }
      var h := FillHeader(cache.buf[r.b].data, n, sector);
      Replace(cache, r.b, h);
      return true, h;
    }

    /** The copies of install_trans do not depend on anything that is held or pinned. */
    ghost predicate Installing(d: Disk, tail: nat)
      reads this`n, this`sector, cache
    {
      && cache.Valid() && Formatted(region, d) && tail <= n
      && |sector| == LOGSIZE && n <= LOGSIZE && Sectors(region, d) == sector[..n]
      && cache.disk == Store(InstallUpTo(region, d, tail))
      && LogFree()
      && HomeSet(region, sector[..n]) !! cache.Held()
    }

    /** No block of the log region is held or pinned. */
    ghost predicate LogFree()
      reads cache
    {
      FreeOf(region, cache.Held(), cache.Pinned())
    }

    /** Installing, as the loop of install_trans keeps it. */
    ghost predicate Copying(d: Disk, tail: nat)
      reads this`n, this`sector, cache
    {
      forall k {:trigger Mark(k)} :: Mark(k) ==> Installing(d, tail)
    }

    /** One pass of the loop; `base` and `pins` are the trace and the pinned blocks from before the loop. */
    method InstallNext(tail: nat, ghost d: Disk, ghost base: seq<Store>, ghost pins: set<Addr>) returns (ok: bool)
      requires Formatted(region, d) && tail < n == |Sectors(region, d)| <= |sector| && Copying(d, tail)
      requires cache.trace == base + InstallTrace(region, d, tail) &&
        cache.Pinned() == pins - HomeSet(region, sector[..tail])
      modifies cache
      ensures cache.Valid()
      ensures ok ==> Copying(d, tail + 1) && cache.Held() == old(cache.Held())
      ensures ok ==> cache.trace == base + InstallTrace(region, d, tail + 1)
      ensures ok ==> cache.Pinned() == pins - HomeSet(region, sector[..tail + 1])
      ensures !ok ==> cache.trace == old(cache.trace)
      ensures old(Spare(cache.Held(), pins, 2)) ==> ok
    {
      assert Mark(0);
      SpareUnpinned(cache.Held(), pins, cache.Pinned(), 1);
      var src, dst := region.Slot(tail), region.Home(sector[tail]);
      CanCopy(tail, d);
      ok := Copy(cache, src, dst);
      HomeSetNext(region, sector, tail);
      InstallTraceNext(region, d, tail);
    }

    /** The next log block and its home block are on the disk, and neither is held. */
    lemma CanCopy(tail: nat, d: Disk)
      requires Installing(d, tail) && tail < n
      ensures
        var src, dst := region.Slot(tail), region.Home(sector[tail]);
        && src in cache.disk.blocks && dst in cache.disk.blocks && src != dst
        && src !in cache.Held() && dst !in cache.Held() && cache.shown.blocks[src] == cache.disk.blocks[src]
        && FreeOf(region, cache.Held(), cache.Pinned() - {dst})
        && InstallUpTo(region, d, tail + 1) == cache.disk.blocks[dst := cache.disk.blocks[src]]
    {
      var src, dst := region.Slot(tail), region.Home(sector[tail]);
      assert sector[tail] == sector[..n][tail] == Sectors(region, d)[tail];
      InHomeSet(region, sector[..n], tail);
      NotTaken(region, cache.Held(), cache.Pinned(), src);
      cache.Settled(src);
      InstallUpToRegion(region, d, tail);
      FreeOfFewer(region, cache.Held(), cache.Pinned(), cache.Pinned() - {dst});
    }

    /** Copy the log blocks that the header on disk lists to their home locations.  False is a panic after t copies. */
    method InstallTrans() returns (ok: bool, ghost t: nat)
      requires Formatted(region, cache.disk.blocks) && n == |Sectors(region, cache.disk.blocks)| <= |sector|
      requires cache.Valid() && Copying(cache.disk.blocks, 0)
      modifies cache
      ensures cache.Valid() && t <= n
      ensures cache.trace == old(cache.trace) + InstallTrace(region, old(cache.disk.blocks), t)
      ensures ok ==> t == n && Copying(old(cache.disk.blocks), n)
      ensures ok ==>
        cache.Held() == old(cache.Held()) && cache.Pinned() == old(cache.Pinned()) - HomeSet(region, sector[..n])
      ensures old(Spare(cache.Held(), cache.Pinned(), 2)) ==> ok
    {
      ghost var d := cache.disk.blocks;
      for tail := 0 to n
        invariant cache.Valid() && Copying(d, tail) && cache.Held() == old(cache.Held())
        invariant cache.trace == old(cache.trace) + InstallTrace(region, d, tail)
        invariant cache.Pinned() == old(cache.Pinned()) - HomeSet(region, sector[..tail])
      {
        ok := InstallNext(tail, d, old(cache.trace), old(cache.Pinned()));
        if !ok {
          return false, tail;
        }
      }
      return true, n;
    }

    /** log.lh.n = 0 and write_head, once all log blocks listed by d are copied home. */
    method ClearLog(ghost d: Disk) returns (ok: bool)
      requires Copying(d, n)
      modifies this`n, cache
      ensures cache.Valid() && cache.Held() == old(cache.Held()) && cache.Pinned() == old(cache.Pinned()) && n == 0
      ensures LogFree() && |sector| == LOGSIZE
      ensures ok ==>
        Formatted(region, d) && cache.disk == Store(Recovered(region, d)) &&
          cache.trace == old(cache.trace) + [cache.disk]
      ensures !ok ==> cache.trace == old(cache.trace)
      ensures old(Spare(cache.Held(), cache.Pinned(), 1)) ==> ok
    {
      assert Mark(0);
      InstallFormatted(region, d, n);
      NotTaken(region, cache.Held(), cache.Pinned(), region.Header());
      n := 0;
      ghost var hb;
      ok, hb := WriteHead();
    }

    /** One pass of the loop of begin_trans: false means that the caller sleeps on the log. */
    method BeginTrans() returns (entered: bool)
      modifies this`busy
      ensures busy && entered == !old(busy)
    {
      entered := !busy;
      busy := true;
    }

    /** The search of log_write: the place of this sector in the list, or the first free place. */
    method Place(s: int) returns (i: nat)
      requires |sector| == LOGSIZE && n <= LOGSIZE
      ensures i <= n && s !in sector[..i] && (i < n ==> sector[i] == s)
    {
      i := 0;
      while i < n
        invariant i <= n && s !in sector[..i]
      {
        if sector[i] == s {
          break;
        }
        i := i + 1;
      }
    }

    /**
      log_write of a held buffer.  False is a panic (transaction too big, no transaction, or
      no buffers): nothing was written.  The one block write leaves the meaning of the disk alone.
    */
    method LogWrite(b: nat) returns (ok: bool)
      requires Open() && b < NBUF && cache.buf[b].busy && cache.buf[b].valid
      requires cache.buf[b].at.dev == region.dev && !region.Has(cache.buf[b].at) && 0 <= cache.buf[b].at.sector < TWO32
      modifies this`n, this`sector, this`logged, cache
      ensures cache.Valid()
      ensures ok ==> Open() && logged == Store(old(logged.blocks[cache.buf[b].at := cache.buf[b].data]))
      ensures ok ==>
        cache.trace == old(cache.trace) + [cache.disk] &&
          Logical(region, cache.disk.blocks) == Logical(region, old(cache.disk.blocks))
      ensures ok ==> cache.Held() == old(cache.Held()) && cache.buf[b] == old(cache.buf[b]).(dirty := true)
      ensures !ok ==> cache.disk == old(cache.disk) && cache.trace == old(cache.trace)
      ensures old(n < LOGSIZE && n < region.size - 1 && busy && !AllTaken(cache.buf)) ==> ok
      ensures old(n >= LOGSIZE || n >= region.size - 1 || !busy) ==> !ok
    {
      if n >= LOGSIZE || n >= region.size - 1 {
        return false;
      }
      if !busy {
        return false;
      }
      ok := AppendBlock(cache.buf[b].at, cache.buf[b].data);
      if ok {
        cache.Pin(b);
      }
    }

    /** The middle of log_write: the block goes to its place in the log and its sector into the list. */
    method AppendBlock(a: Addr, data: Block) returns (ok: bool)
      requires Logging() && n < LOGSIZE && n < region.size - 1
      requires a in cache.disk.blocks && a.dev == region.dev && !region.Has(a) && 0 <= a.sector < TWO32
      modifies this`n, this`sector, this`logged, cache
      ensures cache.Valid() && cache.Held() == old(cache.Held()) && cache.Pinned() == old(cache.Pinned())
      ensures ok || AllTaken(old(cache.buf))
      ensures forall c :: 0 <= c < NBUF && old(cache.buf)[c].busy ==> cache.buf[c] == old(cache.buf)[c]
      ensures ok ==> Logging() && logged == Store(old(logged.blocks)[a := data])
      ensures ok ==>
        cache.trace == old(cache.trace) + [cache.disk] &&
          Logical(region, cache.disk.blocks) == Logical(region, old(cache.disk.blocks))
      ensures !ok ==> cache.disk == old(cache.disk) && cache.trace == old(cache.trace)
    {
      var i := Place(a.sector);
      CanAppend(a, i, data);
      ok := Overwrite(cache, region.Slot(i), data);
      if !ok {
        return;
      }
      sector := sector[i := a.sector];
      if i == n {
        n := n + 1;
      }
      logged := Store(logged.blocks[a := data]);
    }

    /** The rest of commit_trans after the header has been written. */
    method InstallAndClear() returns (ok: bool)
      requires Formatted(region, cache.disk.blocks) && n == |Sectors(region, cache.disk.blocks)| <= |sector|
      requires cache.Valid() && Copying(cache.disk.blocks, 0) && cache.Pinned() == HomeSet(region, sector[..n])
      modifies this`n, this`logged, cache
      ensures cache.Valid() && |old(cache.trace)| <= |cache.trace| &&
        cache.trace[..|old(cache.trace)|] == old(cache.trace)
      ensures MeanFrom(region, cache.trace, |old(cache.trace)|, Logical(region, old(cache.disk.blocks)))
      ensures ok ==> Emptied() && cache.Held() == old(cache.Held())
      ensures ok ==> Homes(region, cache.disk.blocks) == Logical(region, old(cache.disk.blocks))
      ensures old(Spare(cache.Held(), cache.Pinned(), 2)) ==> ok
    {
      ghost var d, t := cache.disk.blocks, 0;
      ok, t := InstallTrans();
      InstallTraceMeans(region, d, old(cache.trace), t);
      if ok {
        assert cache.Pinned() == {};
        SpareUnpinned(cache.Held(), old(cache.Pinned()), cache.Pinned(), 1);
        ok := ClearLog(d);
        if ok {
          RecoveredTraceMeans(region, d, old(cache.trace));
          logged := Store(map[]);
          Reopened();
        }
      }
    }

    /**
      commit_trans.  Its first block write is the commit point: from it on, through a panic or a
      crash anywhere, the disk means its old home blocks overridden by what was logged.
    */
    method CommitTrans() returns (ok: bool)
      requires Open() && logged.blocks.Keys !! cache.Held()
      modifies this`n, this`busy, this`logged, cache
      ensures cache.Valid() && |old(cache.trace)| <= |cache.trace| &&
        cache.trace[..|old(cache.trace)|] == old(cache.trace)
      ensures MeanFrom(region, cache.trace, |old(cache.trace)|, old(Homes(region, cache.disk.blocks) + logged.blocks))
      ensures ok ==> Open() && n == 0 && !busy && logged == Store(map[]) && cache.Held() == old(cache.Held())
      ensures ok ==> Homes(region, cache.disk.blocks) == old(Homes(region, cache.disk.blocks) + logged.blocks)
      ensures old(Spare(cache.Held(), cache.Pinned(), 2)) ==> ok
    {
      ok := true;
      if n > 0 {
        ok := CommitAll();
        assert Mark(0);
      } else {
        EmptyLog();
      }
      if ok {
        busy := false;
      }
    }

    /** commit_trans when something was logged. */
    method CommitAll() returns (ok: bool)
      requires Open() && logged.blocks.Keys !! cache.Held()
      modifies this`n, this`logged, cache
      ensures cache.Valid() && |old(cache.trace)| <= |cache.trace| &&
        cache.trace[..|old(cache.trace)|] == old(cache.trace)
      ensures MeanFrom(region, cache.trace, |old(cache.trace)|, old(Homes(region, cache.disk.blocks) + logged.blocks))
      ensures ok ==> Emptied() && cache.Held() == old(cache.Held())
      ensures ok ==> Homes(region, cache.disk.blocks) == old(Homes(region, cache.disk.blocks) + logged.blocks)
      ensures old(Spare(cache.Held(), cache.Pinned(), 2)) ==> ok
    {
      SpareUnpinned(cache.Held(), cache.Pinned(), cache.Pinned(), 1);
      ok := CommitHead();
      if ok {
        ghost var disk := cache.disk;
        ok := InstallAndClear();
        MeanOneMore(region, old(cache.trace), disk, cache.trace, Logical(region, disk.blocks));
      }
    }

    /** The header write of commit_trans, after which the log can be installed. */
    method CommitHead() returns (ok: bool)
      requires Open() && logged.blocks.Keys !! cache.Held()
      modifies cache
      ensures cache.Valid()
      ensures !ok ==> cache.disk == old(cache.disk) && cache.trace == old(cache.trace)
      ensures ok ==> cache.trace == old(cache.trace) + [cache.disk]
      ensures ok ==> Formatted(region, cache.disk.blocks) && n == |Sectors(region, cache.disk.blocks)| <= |sector|
      ensures ok ==> Copying(cache.disk.blocks, 0)
      ensures ok ==> Logical(region, cache.disk.blocks) == old(Homes(region, cache.disk.blocks) + logged.blocks)
      ensures ok ==>
        cache.Pinned() == HomeSet(region, sector[..n]) == old(cache.Pinned()) && cache.Held() == old(cache.Held())
      ensures old(Spare(cache.Held(), cache.Pinned(), 1)) ==> ok
    {
      ghost var hb;
      HoldsLogged();
      NotTaken(region, cache.Held(), cache.Pinned(), region.Header());
      ok, hb := WriteHead();
      if ok {
        CommitPoint(region, old(cache.disk.blocks), hb, sector[..n], logged.blocks);
      }
    }

    lemma HoldsLogged()
      requires Logging()
      ensures Holds(region, cache.disk.blocks, sector[..n], logged.blocks) && LogFree()
      ensures forall i :: 0 <= i < n ==> 0 <= sector[i] < TWO32
    {
      assert Heed(0);
      assert forall i :: 0 <= i < n ==> sector[..n][i] == sector[i];
    }

    /** Writing the log block at the place that was found, and noting the sector there, goes on logging. */
    lemma CanAppend(a: Addr, i: nat, data: Block)
      requires Logging() && n < LOGSIZE && n < region.size - 1
      requires a in cache.disk.blocks && a.dev == region.dev && !region.Has(a) && 0 <= a.sector < TWO32
      requires i <= n && a.sector !in sector[..i] && (i < n ==> sector[i] == a.sector)
      ensures region.Slot(i) in cache.disk.blocks && region.Slot(i) !in cache.Held() &&
        region.Slot(i) !in cache.Pinned()
      ensures
        var d, m := cache.disk.blocks[region.Slot(i) := data], if i == n then n + 1 else n;
        && Formatted(region, d) && HeadN(d[region.Header()]) == 0
        && Logical(region, d) == Logical(region, cache.disk.blocks) && LogFree()
        && Holds(region, d, sector[i := a.sector][..m], logged.blocks[a := data])
    {
      HoldsLogged();
      LogOne(region, cache.disk.blocks, sector[..n], logged.blocks, a.sector, i, data);
      NotedPrefix(sector, n, i, a.sector);
      NotTaken(region, cache.Held(), cache.Pinned(), region.Slot(i));
    }

    lemma Reopened()
      requires cache.Valid() && cache.Pinned() == {} && LogFree() && |sector| == LOGSIZE
      requires Formatted(region, cache.disk.blocks) && HeadN(cache.disk.blocks[region.Header()]) == 0
      requires n == 0 && logged == Store(map[])
      ensures Emptied()
    {
      assert sector[..n] == [] && HomeSet(region, []) == {};
    }

    lemma EmptyLog()
      requires Open() && n == 0
      ensures logged == Store(map[])
    {
      assert Heed(0);
      assert HomeSet(region, sector[..0]) == {};
    }

    /** With room for one more block, bread finds a buffer and log_write a place in the list. */
    lemma RoomFor(a: Addr)
      requires Open() && cache.Held() == {} && FitsLog(region, logged.blocks.Keys + {a})
      ensures !AllTaken(cache.buf) && n < LOGSIZE && n < region.size - 1
    {
      HoldsLogged();
      ListedOnce(region, cache.disk.blocks, sector[..n], logged.blocks);
      FitsOneMore(region, logged.blocks.Keys, a);
      cache.Room();
    }

    /** bread and the change of the data. */
    method Load(w: Write) returns (r: Acquired)
      requires Open() && cache.Held() == {} && GoodWrite(region, cache.disk.blocks, w)
      modifies cache
      ensures cache.Valid() && cache.disk == old(cache.disk) && cache.trace == old(cache.trace) && !r.MustSleep?
      ensures r.Got? ==> Open() && cache.Held() == {w.at}
      ensures r.Got? ==>
        r.b < NBUF && cache.buf[r.b].at == w.at && cache.buf[r.b].busy && cache.buf[r.b].valid &&
          cache.buf[r.b].data == w.data
      ensures old(FitsLog(region, logged.blocks.Keys + {w.at})) ==> r.Got? && !AllTaken(cache.buf)
    {
      ghost var fits := FitsLog(region, logged.blocks.Keys + {w.at});
      if fits {
        RoomFor(w.at);
      }
      r := cache.Bread(w.at);
      if r.NoBuffers? {
        return;
      }
      cache.Fill(r.b, w.data);
      if fits {
        FitsOneMore(region, cache.Pinned(), w.at);
        cache.Room();
      }
    }

    /** bread, change the data, log_write, brelse: how the file system writes one block. */
    method WriteLogged(w: Write) returns (ok: bool)
      requires Open() && busy && cache.Held() == {} && GoodWrite(region, cache.disk.blocks, w)
      modifies this`n, this`sector, this`logged, cache
      ensures cache.Valid()
      ensures ok ==> Open() && cache.Held() == {} && logged == Store(old(logged.blocks)[w.at := w.data])
      ensures ok ==>
        cache.trace == old(cache.trace) + [cache.disk] &&
          Logical(region, cache.disk.blocks) == Logical(region, old(cache.disk.blocks))
      ensures !ok ==> cache.disk == old(cache.disk) && cache.trace == old(cache.trace)
      ensures old(FitsLog(region, logged.blocks.Keys + {w.at})) ==> ok
    {
      if FitsLog(region, logged.blocks.Keys + {w.at}) {
        RoomFor(w.at);
      }
      var r := Load(w);
      if r.NoBuffers? {
        return false;
      }
      ok := LogWrite(r.b);
      if ok {
        cache.Brelse(r.b);
      }
    }

    /** The writes of a transaction, up to its commit_trans: none of them changes what the disk means. */
    method LogAll(ws: seq<Write>) returns (ok: bool)
      requires Open() && busy && logged == Store(map[]) && cache.Held() == {}
      requires forall i :: 0 <= i < |ws| ==> GoodWrite(region, cache.disk.blocks, ws[i])
      modifies this`n, this`sector, this`logged, cache
      ensures |old(cache.trace)| <= |cache.trace| && cache.trace[..|old(cache.trace)|] == old(cache.trace)
      ensures MeanFrom(region, cache.trace, |old(cache.trace)|, old(Homes(region, cache.disk.blocks)))
      ensures ok ==> Open() && cache.Held() == {} && logged == Store(Effect(ws))
      ensures ok ==> Homes(region, cache.disk.blocks) == old(Homes(region, cache.disk.blocks))
      ensures FitsLog(region, Effect(ws).Keys) ==> ok
    {
      EmptyHeader(region, cache.disk.blocks);
      for i := 0 to |ws|
        invariant Open() && cache.Held() == {} && logged == Store(Effect(ws[..i]))
        invariant |old(cache.trace)| <= |cache.trace| && cache.trace[..|old(cache.trace)|] == old(cache.trace)
        invariant MeanFrom(region, cache.trace, |old(cache.trace)|, old(Homes(region, cache.disk.blocks)))
        invariant Homes(region, cache.disk.blocks) == old(Homes(region, cache.disk.blocks)) ==
          Logical(region, cache.disk.blocks)
      {
        assert ws[i].at in old(Homes(region, cache.disk.blocks));
        EffectNext(ws, i);
        if FitsLog(region, Effect(ws).Keys) {
          FitsPart(region, ws, i);
        }
        ghost var trace := cache.trace;
        ok := WriteLogged(ws[i]);
        if !ok {
          return;
        }
        EmptyHeader(region, cache.disk.blocks);
        MeanLast(region, old(cache.trace), trace, cache.disk, Logical(region, cache.disk.blocks));
      }
      assert ws[..|ws|] == ws;
      return true;
    }

    /**
      A whole transaction.  Every disk it passes through before index `commit` of the trace means
      the old home blocks; every disk from there on means them with all the writes applied.
    */
    method Transaction(ws: seq<Write>) returns (ok: bool, ghost commit: nat)
      requires Open() && n == 0 && !busy && cache.Held() == {}
      requires forall i :: 0 <= i < |ws| ==> GoodWrite(region, cache.disk.blocks, ws[i])
      modifies this, cache
      ensures |old(cache.trace)| <= commit <= |cache.trace| && cache.trace[..|old(cache.trace)|] == old(cache.trace)
      ensures MeanFrom(region, cache.trace[..commit], |old(cache.trace)|, old(Homes(region, cache.disk.blocks)))
      ensures MeanFrom(region, cache.trace, commit, old(Homes(region, cache.disk.blocks)) + Effect(ws))
      ensures ok ==> Open() && n == 0 && !busy && cache.Held() == {}
      ensures ok ==> Homes(region, cache.disk.blocks) == old(Homes(region, cache.disk.blocks)) + Effect(ws)
      ensures FitsLog(region, Effect(ws).Keys) ==> ok
    {
      EmptyLog();
      var entered := BeginTrans();
      ok := LogAll(ws);
      commit := |cache.trace|;
      if !ok {
        return;
      }
      if FitsLog(region, Effect(ws).Keys) {
        FitsSpare(region, Effect(ws).Keys, region.Header());
      }
      ghost var trace := cache.trace;
      ok := CommitTrans();
      assert cache.trace[..|old(cache.trace)|] == trace[..|old(cache.trace)|];
    }
  }
}
