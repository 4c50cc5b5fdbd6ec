/**
  Path names and the inode cache's reference counts (kernel/fs.c), for one process at a time:
  nobody else holds an inode locked meanwhile.  The inode cache holds one device.
*/
module Paths {
  import opened Sets
  import opened Bytes
  import opened DiskFormat
  import Ownership
  import opened FileContent
  import opened FileSystem
  import opened BlockCount

  const DIRSIZ := 14
  const DIRENT := 16
  const T_DIR := 1
  const ROOTINO := 1
  const SLASH: Byte := 47

  // --- Path elements ---

  /** The pieces of a path between slashes, empty ones included. */
  function Split(path: seq<Byte>): (ps: seq<seq<Byte>>)
    ensures |ps| > 0
  {
    if path == [] then [[]]
    else
      var ps := Split(path[1..]);
      if path[0] == SLASH then [[]] + ps else [[path[0]] + ps[0]] + ps[1..]
  }

  function Truncate(name: seq<Byte>): seq<Byte> { if |name| <= DIRSIZ then name else name[..DIRSIZ] }

  /** The pieces that are not empty, truncated to DIRSIZ bytes. */
  function Named(ps: seq<seq<Byte>>): (es: seq<seq<Byte>>)
    ensures |es| <= |ps|
  {
    if ps == [] then [] else (if ps[0] == [] then [] else [Truncate(ps[0])]) + Named(ps[1..])
  }

  /** The elements of a path. */
  function Elements(path: seq<Byte>): seq<seq<Byte>> { Named(Split(path)) }

  function SkipSlashes(path: seq<Byte>): (r: seq<Byte>)
    ensures |r| <= |path| && (r != [] ==> r[0] != SLASH)
  {
    if path != [] && path[0] == SLASH then SkipSlashes(path[1..]) else path
  }

  function NameLen(path: seq<Byte>): (n: nat)
    ensures n <= |path|
  {
    if path == [] || path[0] == SLASH then 0 else 1 + NameLen(path[1..])
  }

  lemma {:induction false} SkipSlashesElements(path: seq<Byte>)
    ensures Elements(SkipSlashes(path)) == Elements(path)
  {
    if path != [] && path[0] == SLASH {
      SkipSlashesElements(path[1..]);
    }
  }

  lemma {:induction false} SplitName(path: seq<Byte>)
    ensures Split(path)[0] == path[..NameLen(path)]
    ensures var n := NameLen(path); if n == |path| then Split(path) == [path]
      else path[n] == SLASH && Split(path)[1..] == Split(path[n + 1..])
  {
    if path != [] && path[0] != SLASH {
      SplitName(path[1..]);
      var n := NameLen(path[1..]);
      assert path[..n + 1] == [path[0]] + path[1..][..n];
      if n == |path[1..]| {
        assert path == [path[0]] + path[1..];
      } else {
        assert path[1..][n + 1..] == path[n + 2..];
      }
    }
  }

  datatype Skipped = NoName | Name(name: seq<Byte>, rest: seq<Byte>)

  /** What skipelem takes from a path and what it leaves. */
  function SkipElem(path: seq<Byte>): Skipped {
    var p := SkipSlashes(path);
    if p == [] then NoName else Name(Truncate(p[..NameLen(p)]), SkipSlashes(p[NameLen(p)..]))
  }

  lemma SlashFirst(path: seq<Byte>)
    requires path != [] && path[0] == SLASH
    ensures Elements(path) == Elements(path[1..])
  {
    assert Split(path)[1..] == Split(path[1..]);
  }

  /** The name that a path starts with is its first element. */
  lemma FirstElement(p: seq<Byte>)
    requires p != [] && p[0] != SLASH
    ensures Elements(p) == [Truncate(p[..NameLen(p)])] + Elements(p[NameLen(p)..])
  {
    var n := NameLen(p);
    SplitName(p);
    assert Named(Split(p)) == [Truncate(p[..n])] + Named(Split(p)[1..]);
    if n < |p| {
      SlashFirst(p[n..]);
      assert p[n..][1..] == p[n + 1..];
    } else {
      assert p[n..] == [] && Split([]) == [[]] && Named([[]]) == [];
    }
  }

  /** It takes the first element, and what it leaves has the others. */
  lemma SkipElemMeans(path: seq<Byte>)
    ensures
      match SkipElem(path)
      case NoName => Elements(path) == []
      case Name(name, rest) =>
        Elements(path) == [name] + Elements(rest) && (rest == [] <==> Elements(rest) == []) && |rest| < |path|
  {
    var p := SkipSlashes(path);
    SkipSlashesElements(path);
    if p != [] {
      FirstElement(p);
      SkipSlashesElements(p[NameLen(p)..]);
      ElementsNone(SkipSlashes(p[NameLen(p)..]));
    } else {
      assert Split(p) == [[]];
    }
  }

  function Final(es: seq<seq<Byte>>): seq<Byte>
    requires es != []
  {
    es[|es| - 1]
  }

  lemma NextElement(path: seq<Byte>)
    ensures SkipElem(path) == NoName <==> Elements(path) == []
    ensures SkipElem(path).Name? ==>
      var es, e := Elements(path), SkipElem(path);
      && es[0] == e.name && es[1..] == Elements(e.rest) && |e.rest| < |path| && (e.rest == [] <==> |es| == 1)
      && (if |es| == 1 then Final(es) == e.name else Final(es) == Final(es[1..]))
  {
    SkipElemMeans(path);
  }

  lemma ElementsNone(path: seq<Byte>)
    requires path != [] ==> path[0] != SLASH
    ensures path == [] <==> Elements(path) == []
  {
    SplitName(path);
  }

  /** skipelem: the next element, truncated to DIRSIZ bytes, and the rest of the path. */
  method Skipelem(path: seq<Byte>) returns (r: Skipped)
    ensures r == SkipElem(path)
  {
    assert path[0..] == path;
    var s := PastSlashes(path, 0);
    if s == |path| {
      return NoName;
    }
    var i := PastName(path, s);
    NameSlice(path, s, i);
    var name := if i - s >= DIRSIZ then path[s..s + DIRSIZ] else path[s..i];
    var j := PastSlashes(path, i);
    return Name(name, path[j..]);
  }

  lemma NameSlice(path: seq<Byte>, s: nat, i: nat)
    requires s <= i <= |path|
    ensures path[s..][..i - s] == path[s..i] && path[s..][i - s..] == path[i..]
    ensures i - s > DIRSIZ ==> path[s..i][..DIRSIZ] == path[s..s + DIRSIZ]
  {
  }

  method PastSlashes(path: seq<Byte>, from: nat) returns (i: nat)
    requires from <= |path|
    ensures from <= i <= |path| && path[i..] == SkipSlashes(path[from..])
  {
    i := from;
    while i < |path| && path[i] == SLASH
      invariant from <= i <= |path| && SkipSlashes(path[i..]) == SkipSlashes(path[from..])
    {
      assert path[i..][1..] == path[i + 1..];
      i := i + 1;
    }
  }

  method PastName(path: seq<Byte>, from: nat) returns (i: nat)
    requires from <= |path|
    ensures from <= i <= |path| && i == from + NameLen(path[from..])
  {
    i := from;
    while i < |path| && path[i] != SLASH
      invariant from <= i <= |path| && i - from + NameLen(path[i..]) == NameLen(path[from..])
    {
      assert path[i..][1..] == path[i + 1..];
      i := i + 1;
    }
  }

  // --- Directories ---

  /** A name as strncmp sees it: up to the first NUL, at most DIRSIZ bytes. */
  function CName(s: seq<Byte>): seq<Byte> {
    if s == [] || s[0] == 0 then [] else [s[0]] + CName(s[1..])
  }

  /** What looking a name up comes to: an i-number, nothing, or the panic of a torn entry. */
  datatype Found = Inum(inum: nat) | Absent | Torn

  /** The first entry from byte off on that is in use and has the name. */
  function Find(c: seq<Byte>, name: seq<Byte>, off: nat): Found
    decreases |c| - off
  {
    if off >= |c| then Absent
    else if off + DIRENT > |c| then Torn
    else if Half(c, off) != 0 && CName(Truncate(name)) == CName(c[off + 2..off + DIRENT]) then Inum(Half(c, off))
    else Find(c, name, off + DIRENT)
  }

  /** Where dirlink puts an entry: the first one not in use from byte off on, or the end; -1 for a torn entry before. */
  function Vacant(c: seq<Byte>, off: nat): int
    decreases |c| - off
  {
    if off >= |c| then off
    else if off + DIRENT > |c| then -1
    else if Half(c, off) == 0 then off
    else Vacant(c, off + DIRENT)
  }

  /** There is room for one more entry in the directory c, with so many disk blocks free. */
  predicate Roomy(c: seq<Byte>, free: int) {
    var o := Vacant(c, 0);
    && 0 <= o && o + DIRENT <= MAXFILE * BSIZE
    && FileBlocks(Max(|c|, o + DIRENT)) - FileBlocks(|c|) <= free
  }

  /** strncpy into a field of DIRSIZ bytes: the name, then zeros. */
  function Padded(name: seq<Byte>): (r: seq<Byte>)
    ensures |r| == DIRSIZ
  {
    Truncate(name) + seq(DIRSIZ - |Truncate(name)|, _ => 0)
  }

  /** A directory entry, as it is stored. */
  function Dirent(name: seq<Byte>, inum: nat): (r: seq<Byte>)
    requires inum < 0x1_0000
    ensures |r| == DIRENT && Half(r, 0) == inum && r[2..] == Padded(name)
  {
    [inum % 256, inum / 256] + Padded(name)
  }

  lemma {:induction false} PaddedName(a: seq<Byte>, n: nat)
    ensures CName(a + seq(n, _ => 0)) == CName(a)
  {
    var z: seq<Byte> := seq(n, _ => 0);
    if a != [] && a[0] != 0 {
      PaddedName(a[1..], n);
      assert (a + z)[1..] == a[1..] + z;
    } else if a == [] {
      assert a + z == z;
    }
  }

  /** The entry that starts at off has been replaced, or appended, by e. */
  ghost predicate Replaces(c: seq<Byte>, r: seq<Byte>, off: nat, e: seq<Byte>) {
    && off % DIRENT == 0 && |e| == DIRENT && off + DIRENT <= |r| && r[off..off + DIRENT] == e
    && (if off == |c| then |r| == |c| + DIRENT else off + DIRENT <= |c| && |r| == |c|)
    && (forall k :: 0 <= k < |c| && !(off <= k < off + DIRENT) ==> r[k] == c[k])
  }

  lemma EntrySteps(size: nat, off: nat)
    requires off % DIRENT == 0 && off < size
    ensures (off + DIRENT) % DIRENT == 0 && (off + DIRENT > size ==> size % DIRENT != 0)
  {
  }

  lemma EntrySame(c: seq<Byte>, r: seq<Byte>, o: nat)
    requires o + DIRENT <= |c| && o + DIRENT <= |r| && forall k :: o <= k < o + DIRENT ==> r[k] == c[k]
    ensures Half(r, o) == Half(c, o) && r[o + 2..o + DIRENT] == c[o + 2..o + DIRENT]
  {
  }

  lemma EntriesApart(o: nat, off: nat)
    requires o % DIRENT == 0 && off % DIRENT == 0
    ensures (o + DIRENT) % DIRENT == 0 && (o == off || o + DIRENT <= off || off + DIRENT <= o)
  {
  }

  /** Looking another name up gives what it gave before. */
  lemma {:induction false} FindOther(c: seq<Byte>, r: seq<Byte>, off: nat, name: seq<Byte>, inum: nat,
                                     other: seq<Byte>, o: nat)
    requires inum < 0x1_0000 && Replaces(c, r, off, Dirent(name, inum)) && o % DIRENT == 0 &&
      (off < |c| ==> Half(c, off) == 0)
    requires CName(Truncate(other)) != CName(Truncate(name))
    ensures Find(r, other, o) == Find(c, other, o)
    decreases |r| - o
  {
    if o < |r| {
      EntriesApart(o, off);
      if o == off {
        EntryStored(r, off, name, inum);
        FindOther(c, r, off, name, inum, other, o + DIRENT);
      } else if o + DIRENT <= |c| {
        EntrySame(c, r, o);
        FindOther(c, r, off, name, inum, other, o + DIRENT);
      }
    }
  }

  lemma EntryStored(r: seq<Byte>, off: nat, name: seq<Byte>, inum: nat)
    requires inum < 0x1_0000 && off + DIRENT <= |r| && r[off..off + DIRENT] == Dirent(name, inum)
    ensures Half(r, off) == inum && CName(r[off + 2..off + DIRENT]) == CName(Truncate(name))
  {
    var e := r[off..off + DIRENT];
    assert r[off] == e[0] && r[off + 1] == e[1] && r[off + 2..off + DIRENT] == e[2..];
    PaddedName(Truncate(name), DIRSIZ - |Truncate(name)|);
  }

  /** A name that was absent is found once it is entered. */
  lemma {:induction false} FindNew(c: seq<Byte>, r: seq<Byte>, off: nat, name: seq<Byte>, inum: nat, o: nat)
    requires 0 < inum < 0x1_0000 && Replaces(c, r, off, Dirent(name, inum)) && o % DIRENT == 0 && o <= off
    requires Find(c, name, o) == Absent
    ensures Find(r, name, o) == Inum(inum)
    decreases off - o
  {
    if o == off {
      EntryStored(r, off, name, inum);
    } else {
      assert o + DIRENT <= off;
      EntrySame(c, r, o);
      FindNew(c, r, off, name, inum, o + DIRENT);
    }
  }

  // --- Paths ---

  datatype Resolved = To(inum: nat) | Nowhere | Broken

  ghost predicate Sized(t: seq<Inode>) {
    forall m :: 0 <= m < |t| ==> |t[m].addrs| == NDIRECT + 1 && 0 <= t[m].size <= MAXFILE * BSIZE
  }

  lemma AllSized(sb: Super, d: Disk, f: Ownership.Files)
    requires Ok(sb, d, f, -1, 0)
    ensures Sized(f.table)
  {
    forall m | 0 <= m < |f.table| ensures |f.table[m].addrs| == NDIRECT + 1 && 0 <= f.table[m].size <= MAXFILE * BSIZE {
      Open(sb, d, f, m);
    }
  }

  /** The inode a path leads to from inode i: directory lookup, element by element. */
  ghost function Resolve(d: Disk, t: seq<Inode>, i: nat, es: seq<seq<Byte>>, parent: bool): Resolved
    requires Sized(t)
    decreases |es|
  {
    if es == [] then if parent then Nowhere else To(i)
    else if i >= |t| || t[i].itype == 0 then Broken
    else if t[i].itype != T_DIR then Nowhere
    else if parent && |es| == 1 then To(i)
    else
      match Find(Content(d, t[i]), es[0], 0)
      case Absent => Nowhere
      case Torn => Broken
      case Inum(n) => Resolve(d, t, n, es[1..], parent)
  }

  // --- The inode cache ---

  /** An entry of the inode cache; it is in use if ref is not 0. */
  datatype Slot = Slot(ref: nat, inum: nat, valid: bool, busy: bool)

  /** How many references there are to an inode. */
  ghost function Refs(slots: seq<Slot>, inum: nat): nat {
    if slots == [] then 0
    else var n := |slots| - 1; Refs(slots[..n], inum) + (if slots[n].inum == inum then slots[n].ref else 0)
  }

  lemma {:induction false} RefsUpdate(slots: seq<Slot>, i: nat, e: Slot, m: nat)
    requires i < |slots|
    ensures Refs(slots[i := e], m) + (if slots[i].inum == m then slots[i].ref else 0) ==
      Refs(slots, m) + (if e.inum == m then e.ref else 0)
  {
    var n := |slots| - 1;
    if i < n {
      RefsUpdate(slots[..n], i, e, m);
      assert slots[i := e][..n] == slots[..n][i := e];
    } else {
      assert slots[i := e][..n] == slots[..n];
    }
  }

  /** From a to b, the references to inode inum changed by k and no others did. */
  ghost predicate RefsChange(a: seq<Slot>, b: seq<Slot>, inum: nat, k: int) {
    forall m: nat :: Refs(b, m) == Refs(a, m) + (if m == inum then k else 0)
  }

  lemma RefsChanged(slots: seq<Slot>, i: nat, e: Slot)
    requires i < |slots| && (e.inum == slots[i].inum || slots[i].ref == 0)
    ensures RefsChange(slots, slots[i := e], e.inum, e.ref - slots[i].ref)
  {
    forall m: nat ensures Refs(slots[i := e], m) == Refs(slots, m) + (if m == e.inum then e.ref - slots[i].ref else 0) {
      RefsUpdate(slots, i, e, m);
    }
  }

  /** No inode is cached twice, and none is locked but `held`. */
  ghost predicate CacheOk(slots: seq<Slot>, t: seq<Inode>, held: int) {
    && (forall i, j :: 0 <= i < j < |slots| && slots[i].ref > 0 && slots[j].ref > 0 ==> slots[i].inum != slots[j].inum)
    && (forall i :: 0 <= i < |slots| ==> (slots[i].busy <==> i == held))
    && (forall i :: 0 <= i < |slots| && slots[i].ref > 0 && slots[i].valid ==>
         slots[i].inum < |t| && t[slots[i].inum].itype != 0)
  }

  /** There is no place in the cache for inode inum: it is not there and every entry is in use. */
  ghost predicate Crowded(slots: seq<Slot>, inum: nat) {
    forall j :: 0 <= j < |slots| ==> slots[j].ref > 0 && slots[j].inum != inum
  }

  lemma {:induction false} NoRefs(slots: seq<Slot>, m: nat)
    requires forall j :: 0 <= j < |slots| && slots[j].ref > 0 ==> slots[j].inum != m
    ensures Refs(slots, m) == 0
  {
    if slots != [] {
      NoRefs(slots[..|slots| - 1], m);
    }
  }

  /** All references to a cached inode are counted in its one entry. */
  lemma {:induction false} RefsOfSlot(slots: seq<Slot>, i: nat)
    requires forall j, k :: 0 <= j < k < |slots| && slots[j].ref > 0 && slots[k].ref > 0 ==>
      slots[j].inum != slots[k].inum
    requires i < |slots| && slots[i].ref > 0
    ensures Refs(slots, slots[i].inum) == slots[i].ref
  {
    var n := |slots| - 1;
    if i < n {
      RefsOfSlot(slots[..n], i);
    } else {
      NoRefs(slots[..n], slots[i].inum);
    }
  }

  /** The inodes that the cache refers to. */
  ghost function Cached(slots: seq<Slot>): set<nat> {
    set j | 0 <= j < |slots| && slots[j].ref > 0 :: slots[j].inum
  }

  lemma {:induction false} CachedRefs(slots: seq<Slot>, m: nat)
    ensures m in Cached(slots) <==> Refs(slots, m) > 0
  {
    if slots != [] {
      var n := |slots| - 1;
      CachedRefs(slots[..n], m);
      CachedSplit(slots);
    }
  }

  lemma CachedSplit(slots: seq<Slot>)
    requires slots != []
    ensures
      var n := |slots| - 1;
      Cached(slots) == Cached(slots[..n]) + if slots[n].ref > 0 then {slots[n].inum} else {}
  {
    var n := |slots| - 1;
    forall m ensures m in Cached(slots) <==> m in Cached(slots[..n]) || (slots[n].ref > 0 && slots[n].inum == m) {
      if m in Cached(slots) {
        var j :| 0 <= j < |slots| && slots[j].ref > 0 && slots[j].inum == m;
        assert j < n ==> slots[..n][j] == slots[j];
      }
      if m in Cached(slots[..n]) {
        var j :| 0 <= j < n && slots[..n][j].ref > 0 && slots[..n][j].inum == m;
        assert slots[j].inum == m;
      }
    }
  }

  lemma {:induction false} CachedSize(slots: seq<Slot>)
    ensures |Cached(slots)| <= |slots|
    ensures (exists j :: 0 <= j < |slots| && slots[j].ref == 0) ==> |Cached(slots)| < |slots|
  {
    if slots != [] {
      var n := |slots| - 1;
      CachedSize(slots[..n]);
      CachedSplit(slots);
      UnionSize(Cached(slots[..n]), if slots[n].ref > 0 then {slots[n].inum} else {});
      if j :| 0 <= j < |slots| && slots[j].ref == 0 {
        assert j < n ==> slots[..n][j].ref == 0;
      }
    }
  }

  /** There is no place for an inode exactly if it is not cached and as many inodes are as there are entries. */
  lemma CrowdedMeans(slots: seq<Slot>, t: seq<Inode>, held: int, inum: nat)
    requires CacheOk(slots, t, held)
    ensures Crowded(slots, inum) <==> inum !in Cached(slots) && |Cached(slots)| >= |slots|
  {
    CachedSize(slots);
    if forall j :: 0 <= j < |slots| ==> slots[j].ref > 0 {
      ListFits(seq(|slots|, j requires 0 <= j < |slots| => slots[j].inum), Cached(slots));
    }
  }

  /** With one more reference, to inode i, the cache refers to i besides the others. */
  lemma CachedMore(before: seq<Slot>, slots: seq<Slot>, i: nat)
    requires RefsChange(before, slots, i, 1)
    ensures Cached(slots) == Cached(before) + {i}
  {
    forall m: nat ensures m in Cached(slots) <==> m in Cached(before) || m == i {
      CachedRefs(slots, m);
      CachedRefs(before, m);
    }
  }

  /** While inode i is held besides the cached ones, the cache of so many entries has no place for n. */
  ghost predicate NoPlace(cached: set<nat>, entries: nat, i: nat, n: nat) {
    n !in cached + {i} && |cached + {i}| >= entries
  }

  /** On its way from inode i, namex comes to an inode for which the cache has no place. */
  ghost predicate Cramped(d: Disk, t: seq<Inode>, cached: set<nat>, entries: nat, i: nat, es: seq<seq<Byte>>,
                          parent: bool)
    requires Sized(t)
    decreases |es|
  {
    && es != [] && i < |t| && t[i].itype == T_DIR && !(parent && |es| == 1)
    && match Find(Content(d, t[i]), es[0], 0)
       case Inum(n) => NoPlace(cached, entries, i, n) || Cramped(d, t, cached, entries, n, es[1..], parent)
       case _ => false
  }

  /** An inode that stays when a reference to it is given up: it has links, or somebody else refers to it. */
  ghost predicate Stays(t: seq<Inode>, before: seq<Slot>, i: nat) {
    i < |t| ==> t[i].nlink > 0 || Refs(before, i) > 0
  }

  /** The inodes that namex comes by on its way from inode i stay. */
  ghost predicate AllStay(d: Disk, t: seq<Inode>, before: seq<Slot>, i: nat, es: seq<seq<Byte>>, parent: bool)
    requires Sized(t)
    decreases |es|
  {
    && Stays(t, before, i)
    && (es != [] && i < |t| && t[i].itype == T_DIR && !(parent && |es| == 1) ==>
          match Find(Content(d, t[i]), es[0], 0)
          case Inum(n) => AllStay(d, t, before, n, es[1..], parent)
          case _ => true)
  }

  /** itrunc, type = 0, iupdate: the inode is free, and every other file is as it was. */
  method Discard(fs: Fs, i: nat)
    requires Ok(fs.sb, fs.disk.blocks, fs.F(), -1, 0) && i < |fs.inodes|
    modifies fs`disk, fs`inodes, fs`owner, fs`logged, fs`writes
    ensures Ok(fs.sb, fs.disk.blocks, fs.F(), -1, 0) && |fs.inodes| == |old(fs.inodes)|
    ensures Truncated(fs.inodes[i]) &&
      fs.inodes[i] == old(fs.inodes[i]).(itype := 0, addrs := fs.inodes[i].addrs, size := 0)
    ensures KeepsOthers(old(fs.disk.blocks), old(fs.inodes), fs.disk.blocks, fs.inodes, i)
  {
    var ok := fs.Itrunc(i);
    ghost var d1 := fs.disk.blocks;
    Open(fs.sb, d1, fs.F(), i);
    SameAddrs(fs.sb, d1, fs.F(), i, 0, fs.inodes[i].(itype := 0));
    fs.inodes := fs.inodes[i := fs.inodes[i].(itype := 0)];
    fs.Iupdate(i, 0);
    Close(fs.sb, fs.disk.blocks, fs.F(), i);
    KeepsOthersTwice(old(fs.disk.blocks), old(fs.inodes), d1, fs.inodes, fs.disk.blocks, fs.inodes, i, i);
  }

  class Names {
    const fs: Fs
    var icache: seq<Slot>
    /** The current directory, an index into the cache. */
    var cwd: nat

    constructor (fs: Fs, icache: seq<Slot>, cwd: nat)
      ensures this.fs == fs && this.icache == icache && this.cwd == cwd
    {
      this.fs, this.icache, this.cwd := fs, icache, cwd;
    }

    ghost predicate Valid(held: int)
      reads this, fs
    {
      Ok(fs.sb, fs.disk.blocks, fs.F(), -1, 0) && CacheOk(icache, fs.inodes, held)
    }

    /** iget: the cache entry for an inode, with one more reference; -1 for the panic that none is free. */
    method Iget(inum: nat, ghost held: int) returns (ip: int)
      requires CacheOk(icache, fs.inodes, held) && (0 <= held < |icache| ==> icache[held].ref > 0)
      modifies this`icache
      ensures CacheOk(icache, fs.inodes, held) && |icache| == |old(icache)| && -1 <= ip < |icache|
      ensures ip >= 0 ==> icache[ip].ref > 0 && icache[ip].inum == inum && RefsChange(old(icache), icache, inum, 1)
      ensures forall j :: 0 <= j < |icache| && j != ip ==> icache[j] == old(icache)[j]
      ensures ip >= 0 && old(icache)[ip].ref > 0 ==> icache[ip] == old(icache)[ip].(ref := old(icache)[ip].ref + 1)
      ensures ip == -1 <==> Crowded(old(icache), inum)
      ensures ip >= 0 ==> icache[ip].ref > 1 || !icache[ip].valid
    {
      var empty;
      ip, empty := Search(inum);
      if ip >= 0 {
        RefsChanged(icache, ip, icache[ip].(ref := icache[ip].ref + 1));
        icache := icache[ip := icache[ip].(ref := icache[ip].ref + 1)];
      } else if empty >= 0 {
        ip := empty;
        RefsChanged(icache, ip, Slot(1, inum, false, false));
        icache := icache[ip := Slot(1, inum, false, false)];
      }
    }

    /** The loop of iget: the entry of the inode, or else an entry not in use, -1 without one. */
    method Search(inum: nat) returns (ip: int, empty: int)
      ensures -1 <= ip < |icache| && -1 <= empty < |icache|
      ensures ip >= 0 ==> icache[ip].ref > 0 && icache[ip].inum == inum
      ensures ip == -1 ==> forall j :: 0 <= j < |icache| && icache[j].ref > 0 ==> icache[j].inum != inum
      ensures ip == -1 ==> if empty == -1 then Crowded(icache, inum) else icache[empty].ref == 0
    {
      empty := -1;
      var i := 0;
      while i < |icache|
        invariant 0 <= i <= |icache| && -1 <= empty < i
        invariant if empty == -1 then forall j :: 0 <= j < i ==> icache[j].ref > 0 else icache[empty].ref == 0
        invariant forall j :: 0 <= j < i && icache[j].ref > 0 ==> icache[j].inum != inum
      {
        if icache[i].ref > 0 && icache[i].inum == inum {
          return i, empty;
        }
        if empty == -1 && icache[i].ref == 0 {
          empty := i;
        }
        i := i + 1;
      }
      return -1, empty;
    }

    /** idup. */
    method Idup(ip: nat)
      requires ip < |icache| && icache[ip].ref > 0 && CacheOk(icache, fs.inodes, -1)
      modifies this`icache
      ensures icache == old(icache)[ip := old(icache)[ip].(ref := old(icache)[ip].ref + 1)] &&
        CacheOk(icache, fs.inodes, -1)
      ensures RefsChange(old(icache), icache, icache[ip].inum, 1)
    {
      RefsChanged(icache, ip, icache[ip].(ref := icache[ip].ref + 1));
      icache := icache[ip := icache[ip].(ref := icache[ip].ref + 1)];
    }

    /** ilock; false is the panic that the inode has no type. */
    method Ilock(ip: nat) returns (ok: bool)
      requires ip < |icache| && icache[ip].ref > 0 && CacheOk(icache, fs.inodes, -1)
      modifies this`icache
      ensures ok <==> old(icache)[ip].inum < |fs.inodes| && fs.inodes[old(icache)[ip].inum].itype != 0
      ensures ok ==>
        CacheOk(icache, fs.inodes, ip) &&
          icache == old(icache)[ip := old(icache)[ip].(valid := true, busy := true)] &&
            RefsChange(old(icache), icache, 0, 0)
    {
      if !icache[ip].valid && (icache[ip].inum >= |fs.inodes| || fs.inodes[icache[ip].inum].itype == 0) {
        return false;
      }
      RefsChanged(icache, ip, icache[ip].(valid := true, busy := true));
      icache := icache[ip := icache[ip].(valid := true, busy := true)];
      return true;
    }

    method Iunlock(ip: nat)
      requires ip < |icache| && icache[ip].ref > 0 && CacheOk(icache, fs.inodes, ip)
      modifies this`icache
      ensures CacheOk(icache, fs.inodes, -1) && icache == old(icache)[ip := old(icache)[ip].(busy := false)] &&
        RefsChange(old(icache), icache, 0, 0)
    {
      RefsChanged(icache, ip, icache[ip].(busy := false));
      icache := icache[ip := icache[ip].(busy := false)];
    }

    /** Giving ip up frees its inode: this is the last reference and there are no links. */
    ghost predicate Last(ip: nat)
      requires ip < |icache|
      reads this, fs
    {
      icache[ip].ref == 1 && icache[ip].valid && icache[ip].inum < |fs.inodes| && fs.inodes[icache[ip].inum].nlink == 0
    }

    /**
      iput: one reference less, and the inode is freed if that was the last one and it has no links; false is the
      panic "iput busy".
    */
    method Iput(ip: nat, ghost held: int) returns (ok: bool)
      requires ip < |icache| && icache[ip].ref > 0 && Valid(held)
      modifies this`icache, fs`disk, fs`inodes, fs`owner, fs`logged, fs`writes
      ensures ok <==> !old(Last(ip) && icache[ip].busy)
      ensures ok ==> Valid(held) && RefsChange(old(icache), icache, old(icache)[ip].inum, -1)
      ensures ok && !old(Last(ip)) ==>
        fs.Now() == old(fs.Now()) && icache == old(icache)[ip := old(icache)[ip].(ref := old(icache)[ip].ref - 1)]
      ensures ok && old(Last(ip)) ==>
        icache == old(icache)[ip := Slot(0, old(icache)[ip].inum, false, false)] && |fs.inodes| == |old(fs.inodes)|
      ensures ok && old(Last(ip)) ==> Truncated(fs.inodes[icache[ip].inum]) && fs.inodes[icache[ip].inum].itype == 0
      ensures ok && old(Last(ip)) ==>
        KeepsOthers(old(fs.disk.blocks), old(fs.inodes), fs.disk.blocks, fs.inodes, icache[ip].inum)
    {
      if icache[ip].ref == 1 && icache[ip].valid && fs.inodes[icache[ip].inum].nlink == 0 {
        if icache[ip].busy {
          return false;
        }
        Reclaim(ip, held);
      }
      icache := icache[ip := icache[ip].(ref := icache[ip].ref - 1)];
      assert icache == old(icache)[ip := icache[ip]];
      RefsChanged(old(icache), ip, icache[ip]);
      return true;
    }

    /** The body of iput's if: the inode is locked, freed and forgotten. */
    method Reclaim(ip: nat, ghost held: int)
      requires ip < |icache| && Last(ip) && !icache[ip].busy && Valid(held)
      modifies this`icache, fs`disk, fs`inodes, fs`owner, fs`logged, fs`writes
      ensures Valid(held) && icache == old(icache)[ip := Slot(1, old(icache)[ip].inum, false, false)] &&
        |fs.inodes| == |old(fs.inodes)|
      ensures Truncated(fs.inodes[icache[ip].inum]) && fs.inodes[icache[ip].inum].itype == 0
      ensures KeepsOthers(old(fs.disk.blocks), old(fs.inodes), fs.disk.blocks, fs.inodes, icache[ip].inum)
    {
      icache := icache[ip := icache[ip].(busy := true)];
      Discard(fs, icache[ip].inum);
      icache := icache[ip := icache[ip].(valid := false, busy := false)];
    }

    /** A reference to an inode that stays is not the last one. */
    lemma NotLast(ip: nat, before: seq<Slot>, held: int)
      requires ip < |icache| && icache[ip].ref > 0 && CacheOk(icache, fs.inodes, held)
      requires RefsChange(before, icache, icache[ip].inum, 1) && Stays(fs.inodes, before, icache[ip].inum)
      ensures !Last(ip)
    {
      RefsOfSlot(icache, ip);
    }

    predicate IsDir(i: nat)
      reads fs
    {
      i < |fs.inodes| && fs.inodes[i].itype == T_DIR
    }

    /**
      dirlookup: the cache entry of the inode found, -1 if there is none, -2 for a panic: no
      directory, a torn entry before the name, or no place in the inode cache.
    */
    method Dirlookup(dp: nat, name: seq<Byte>) returns (ip: int)
      requires Valid(dp) && dp < |icache| && icache[dp].ref > 0 && icache[dp].inum < |fs.inodes|
      modifies this`icache, fs`disk, fs`inodes, fs`owner, fs`logged, fs`writes
      ensures Valid(dp) && fs.Now() == old(fs.Now()) && |icache| == |old(icache)| && -2 <= ip < |icache|
      ensures fs.inodes[old(icache)[dp].inum].Stored() && fs.inodes[old(icache)[dp].inum].size <= MAXFILE * BSIZE
      ensures var f := Find(Content(fs.disk.blocks, fs.inodes[old(icache)[dp].inum]), name, 0);
        && (ip == -1 <==> IsDir(old(icache)[dp].inum) && f == Absent)
        && (ip == -2 <==> !IsDir(old(icache)[dp].inum) || f == Torn || (f.Inum? && Crowded(old(icache), f.inum)))
        && (ip >= 0 ==>
             f == Inum(icache[ip].inum) && icache[ip].ref > 0 && RefsChange(old(icache), icache, icache[ip].inum, 1))
      ensures ip < 0 ==> icache == old(icache)
      ensures ip >= 0 ==> icache[ip].ref > 1 || !icache[ip].valid
      ensures icache[dp] == old(icache)[dp].(ref := old(icache)[dp].ref + (if ip == dp then 1 else 0))
    {
      var i := icache[dp].inum;
      Open(fs.sb, fs.disk.blocks, fs.F(), i);
      if fs.inodes[i].itype != T_DIR {
        return -2;
      }
      ghost var c := Content(fs.disk.blocks, fs.inodes[i]);
      var off := 0;
      while off < fs.inodes[i].size
        invariant 0 <= off && icache == old(icache) && fs.Now() == old(fs.Now()) &&
          Find(c, name, off) == Find(c, name, 0)
        decreases |c| - off
      {
        var n, de := fs.Readi(i, off, DIRENT);
        if n != DIRENT {
          return -2;
        }
        assert de[0] == c[off] && de[1] == c[off + 1] && de[2..] == c[off + 2..off + DIRENT];
        if Half(de, 0) != 0 && CName(Truncate(name)) == CName(de[2..]) {
          ip := Iget(Half(de, 0), dp);
          if ip == -1 {
            return -2;
          }
          return;
        }
        off := off + DIRENT;
      }
      return -1;
    }

    /** The content of the directory that dp is the cache entry of. */
    ghost function Dir(dp: nat): seq<Byte>
      requires dp < |icache| && icache[dp].inum < |fs.inodes| && Sized(fs.inodes)
      reads this, fs
    {
      Content(fs.disk.blocks, fs.inodes[icache[dp].inum])
    }

    /** The second loop of dirlink: the first entry not in use, or the end; -1 for the panic of a torn entry. */
    method FreeEntry(i: nat) returns (off: int)
      requires Ok(fs.sb, fs.disk.blocks, fs.F(), -1, 0) && i < |fs.inodes|
      modifies fs`disk, fs`inodes, fs`owner, fs`logged, fs`writes
      ensures fs.Now() == old(fs.Now()) && fs.inodes[i].Stored() && fs.inodes[i].size <= MAXFILE * BSIZE
      ensures off >= 0 ==>
        off % DIRENT == 0 &&
          (off == fs.inodes[i].size ||
            (off + DIRENT <= fs.inodes[i].size && Half(Content(fs.disk.blocks, fs.inodes[i]), off) == 0))
      ensures off < 0 ==> fs.inodes[i].size % DIRENT != 0
      ensures off == Vacant(Content(fs.disk.blocks, fs.inodes[i]), 0)
    {
      Open(fs.sb, fs.disk.blocks, fs.F(), i);
      ghost var c := Content(fs.disk.blocks, fs.inodes[i]);
      off := 0;
      while off < fs.inodes[i].size
        invariant 0 <= off <= |c| && off % DIRENT == 0 && fs.Now() == old(fs.Now()) && Vacant(c, off) == Vacant(c, 0)
        decreases |c| - off
      {
        var n, de := fs.Readi(i, off, DIRENT);
        EntrySteps(|c|, off);
        if n != DIRENT {
          return -1;
        }
        assert de[0] == c[off] && de[1] == c[off + 1];
        if Half(de, 0) == 0 {
          return;
        }
        off := off + DIRENT;
      }
    }

    /**
      dirlink.  -1 exactly if the name is there already and its inode has a place in the inode cache,
      with nothing changed.  -2 for a panic, exactly if dp is no directory, an entry before the name
      or the free one is torn, the inode cache is full, the directory is of full size or it needs
      more blocks than are free.  Otherwise the name leads to inum, every other name to what it led
      to before, and every other file is as it was.
    */
    method Dirlink(dp: nat, name: seq<Byte>, inum: nat) returns (r: int)
      requires Valid(dp) && dp < |icache| && icache[dp].ref > 0 && icache[dp].inum < |fs.inodes| && 0 < inum < 0x1_0000
      modifies this`icache, fs`disk, fs`inodes, fs`owner, fs`logged, fs`writes
      ensures r == 0 || r == -1 || r == -2
      ensures Sized(old(fs.inodes))
      ensures var f, isdir := old(Find(Dir(dp), name, 0)), old(IsDir(icache[dp].inum));
        && (r == -1 <==> isdir && f.Inum? && !Crowded(old(icache), f.inum))
        && (r == 0 <==> isdir && f == Absent && Roomy(old(Dir(dp)), Ownership.FreeData(fs.sb, old(fs.disk.blocks))))
      ensures r == -1 ==> Valid(dp) && fs.Now() == old(fs.Now()) && RefsChange(old(icache), icache, 0, 0)
      ensures r == 0 ==> Valid(dp) && icache == old(icache) && Sized(fs.inodes) && |fs.inodes| == |old(fs.inodes)|
      ensures r == 0 ==> Find(Dir(dp), name, 0) == Inum(inum)
      ensures r == 0 ==> forall other :: CName(Truncate(other)) != CName(Truncate(name)) ==>
        Find(Dir(dp), other, 0) == Find(old(Dir(dp)), other, 0)
      ensures r == 0 ==>
        KeepsOthers(old(fs.disk.blocks), old(fs.inodes), fs.disk.blocks, fs.inodes, icache[dp].inum)
    {
      AllSized(fs.sb, fs.disk.blocks, fs.F());
      ghost var c, s := Dir(dp), fs.Now();
      var i := icache[dp].inum;
      var ip := Dirlookup(dp, name);
      if ip == -2 {
        return -2;
      }
      if ip >= 0 {
        ghost var a := icache;
        var _ := Iput(ip, dp);
        RefsTwice(old(icache), a, icache, a[ip].inum, 1, a[ip].inum, -1);
        return -1;
      }
      r := Enter(i, name, inum);
      if r == 0 {
        AllSized(fs.sb, fs.disk.blocks, fs.F());
      }
    }

    /** The second half of dirlink: the entry is written where there is room; -2 for a panic. */
    method Enter(i: nat, name: seq<Byte>, inum: nat) returns (r: int)
      requires Ok(fs.sb, fs.disk.blocks, fs.F(), -1, 0) && i < |fs.inodes| && 0 < inum < 0x1_0000
      modifies fs`disk, fs`inodes, fs`owner, fs`logged, fs`writes
      ensures r == 0 || r == -2
      ensures old(fs.inodes[i].Stored() && fs.inodes[i].size <= MAXFILE * BSIZE)
      ensures r == 0 <==>
        Roomy(old(Content(fs.disk.blocks, fs.inodes[i])), Ownership.FreeData(fs.sb, old(fs.disk.blocks)))
      ensures r == 0 ==>
        Ok(fs.sb, fs.disk.blocks, fs.F(), -1, 0) &&
          KeepsOthers(old(fs.disk.blocks), old(fs.inodes), fs.disk.blocks, fs.inodes, i)
      ensures r == 0 ==> Linked(old(fs.Now()), fs.Now(), i, name, inum)
    {
      Open(fs.sb, fs.disk.blocks, fs.F(), i);
      ghost var s := fs.Now();
      var off := FreeEntry(i);
      if off < 0 {
        return -2;
      }
      var w := fs.Writei(i, off, Dirent(name, inum));
      if w != DIRENT {
        return -2;
      }
      Entered(fs.sb, s, fs.Now(), i, off, name, inum);
      return 0;
    }

    ghost function ResolveFrom(i: nat, es: seq<seq<Byte>>, parent: bool): Resolved
      requires Sized(fs.inodes)
      reads this, fs
    {
      Resolve(fs.disk.blocks, fs.inodes, i, es, parent)
    }

    ghost predicate CrampedFrom(i: nat, es: seq<seq<Byte>>, parent: bool)
      requires Sized(fs.inodes)
      reads this, fs
    {
      Cramped(fs.disk.blocks, fs.inodes, Cached(icache), |icache|, i, es, parent)
    }

    /** Where a path starts: at the root or in the current directory. */
    ghost function Origin(path: seq<Byte>): nat
      requires cwd < |icache|
      reads this
    {
      if path != [] && path[0] == SLASH then ROOTINO else icache[cwd].inum
    }

    /** One more reference to ip's inode than in `before`. */
    ghost predicate Holds(ip: int, before: seq<Slot>)
      reads this
    {
      0 <= ip < |icache| && icache[ip].ref > 0 && RefsChange(before, icache, icache[ip].inum, 1)
    }

    /** The first statement of namex; -1 is the panic of iget. */
    method First(path: seq<Byte>) returns (ip: int)
      requires Valid(-1) && cwd < |icache| && icache[cwd].ref > 0
      modifies this`icache
      ensures -1 <= ip && Valid(-1) && |icache| == |old(icache)|
      ensures ip == -1 <==> path != [] && path[0] == SLASH && Crowded(old(icache), ROOTINO)
      ensures ip >= 0 ==> Holds(ip, old(icache)) && icache[ip].inum == old(Origin(path))
    {
      if path != [] && path[0] == SLASH {
        ip := Iget(ROOTINO, -1);
      } else {
        Idup(cwd);
        ip := cwd;
      }
    }

    /** iunlockput, with other references or links left. */
    method Iunlockput(ip: nat)
      requires Valid(ip) && ip < |icache| && icache[ip].ref > 0 && !Last(ip)
      modifies this`icache, fs`disk, fs`inodes, fs`owner, fs`logged, fs`writes
      ensures fs.Now() == old(fs.Now())
      ensures Valid(-1) && |icache| == |old(icache)| && RefsChange(old(icache), icache, old(icache)[ip].inum, -1)
      ensures forall j :: 0 <= j < |icache| ==>
        icache[j].inum == old(icache)[j].inum && (j != ip ==> icache[j] == old(icache)[j])
      ensures icache[ip].ref == old(icache)[ip].ref - 1
    {
      ghost var a := icache;
      Iunlock(ip);
      ghost var b := icache;
      var _ := Iput(ip, -1);
      RefsTwice(a, b, icache, 0, 0, a[ip].inum, -1);
    }

    /** One pass of namex's loop with the element `name`: the cache entry of the next inode, -1 or -2. */
    method Descend(ip: nat, name: seq<Byte>, ghost before: seq<Slot>) returns (next: int)
      requires Valid(ip) && Holds(ip, before) && icache[ip].valid && icache[ip].inum < |fs.inodes| &&
        fs.inodes[icache[ip].inum].itype == T_DIR
      requires Stays(fs.inodes, before, icache[ip].inum) && |before| == |icache|
      modifies this`icache, fs`disk, fs`inodes, fs`owner, fs`logged, fs`writes
      ensures fs.Now() == old(fs.Now()) && |icache| == |old(icache)| && -2 <= next < |icache|
      ensures next != -2 ==> Valid(-1)
      ensures fs.inodes[old(icache)[ip].inum].Stored() && fs.inodes[old(icache)[ip].inum].size <= MAXFILE * BSIZE
      ensures var f := Find(Content(fs.disk.blocks, fs.inodes[old(icache)[ip].inum]), name, 0);
        && (next == -1 ==> f == Absent && RefsChange(before, icache, 0, 0))
        && (next >= 0 ==> f == Inum(icache[next].inum) && Holds(next, before))
        && (next == -2 <==> f == Torn || (f.Inum? && NoPlace(Cached(before), |before|, old(icache)[ip].inum, f.inum)))
    {
      ghost var a := icache;
      NotLast(ip, before, ip);
      CachedMore(before, icache, icache[ip].inum);
      forall n: nat ensures Crowded(icache, n) <==> NoPlace(Cached(before), |before|, icache[ip].inum, n) {
        CrowdedMeans(icache, fs.inodes, ip, n);
      }
      next := Dirlookup(ip, name);
      if next == -2 {
        return;
      }
      ghost var b := icache;
      Iunlockput(ip);
      if next == -1 {
        RefsTwice(before, a, icache, a[ip].inum, 1, a[ip].inum, -1);
      } else {
        RefsThrice(before, a, b, icache, a[ip].inum, b[next].inum);
      }
    }

    /**
      namex: the cache entry of the inode that the path leads to, or of the one before the last if
      parent, with one reference more; -1 if it leads nowhere, with all references as before; -2 for
      a panic.  With parent, name is the last element of the path.
    */
    method Namex(path: seq<Byte>, parent: bool) returns (ip: int, name: seq<Byte>)
      requires Valid(-1) && cwd < |icache| && icache[cwd].ref > 0
      requires Sized(fs.inodes) ==> AllStay(fs.disk.blocks, fs.inodes, icache, Origin(path), Elements(path), parent)
      modifies this`icache, fs`disk, fs`inodes, fs`owner, fs`logged, fs`writes
      ensures fs.Now() == old(fs.Now()) && Sized(fs.inodes) && -2 <= ip
      ensures ip >= 0 ==>
        Valid(-1) && Holds(ip, old(icache)) &&
          old(ResolveFrom(Origin(path), Elements(path), parent)) == To(icache[ip].inum)
      ensures ip == -1 ==>
        Valid(-1) && RefsChange(old(icache), icache, 0, 0) &&
          old(ResolveFrom(Origin(path), Elements(path), parent)) == Nowhere
      ensures ip == -2 <==>
        || old(path != [] && path[0] == SLASH && Crowded(icache, ROOTINO))
        || old(ResolveFrom(Origin(path), Elements(path), parent)) == Broken
        || old(CrampedFrom(Origin(path), Elements(path), parent))
      ensures ip >= 0 && parent ==> Elements(path) != [] && name == Final(Elements(path))
    {
      AllSized(fs.sb, fs.disk.blocks, fs.F());
      ghost var goal := ResolveFrom(Origin(path), Elements(path), parent);
      ghost var before, cramped := icache, CrampedFrom(Origin(path), Elements(path), parent);
      name := [];
      ip := First(path);
      if ip == -1 {
        return -2, [];
      }
      var rest := path;
      while true
        invariant fs.Now() == old(fs.Now()) && Valid(-1) && Holds(ip, before) && |icache| == |before|
        invariant ResolveFrom(icache[ip].inum, Elements(rest), parent) == goal
        invariant AllStay(fs.disk.blocks, fs.inodes, before, icache[ip].inum, Elements(rest), parent)
        invariant cramped <==>
          Cramped(fs.disk.blocks, fs.inodes, Cached(before), |before|, icache[ip].inum, Elements(rest), parent)
        invariant Elements(rest) != [] ==> Elements(path) != [] && Final(Elements(rest)) == Final(Elements(path))
        decreases |rest|
      {
        var e := Skipelem(rest);
        NextElement(rest);
        if e == NoName {
          break;
        }
        ghost var i := icache[ip].inum;
        name, rest := e.name, e.rest;
        ghost var a := icache;
        var ok := Ilock(ip);
        if !ok {
          return -2, name;
        }
        RefsTwice(before, a, icache, i, 1, 0, 0);
        if fs.inodes[icache[ip].inum].itype != T_DIR {
          ghost var b := icache;
          NotLast(ip, before, ip);
          Iunlockput(ip);
          RefsTwice(before, b, icache, i, 1, i, -1);
          return -1, name;
        }
        if parent && rest == [] {
          ghost var b := icache;
          Iunlock(ip);
          RefsTwice(before, b, icache, i, 1, 0, 0);
          return;
        }
        ip := Descend(ip, name, before);
        if ip < 0 {
          return;
        }
      }
      if parent {
        ghost var b, i := icache, icache[ip].inum;
        NotLast(ip, before, -1);
        var _ := Iput(ip, -1);
        RefsTwice(before, b, icache, i, 1, i, -1);
        return -1, name;
      }
    }
  }

  /** From s to r, the name was entered in the directory i: other names lead to what they led to. */
  ghost predicate Linked(s: State, r: State, i: nat, name: seq<Byte>, inum: nat) {
    && i < |s.table| == |r.table| && |s.table[i].addrs| == |r.table[i].addrs| == NDIRECT + 1
    && 0 <= s.table[i].size <= MAXFILE * BSIZE && 0 <= r.table[i].size <= MAXFILE * BSIZE
    && (forall m :: 0 <= m < |s.table| ==> r.table[m].itype == s.table[m].itype)
    && var c, d := Content(s.disk, s.table[i]), Content(r.disk, r.table[i]);
      && (Find(c, name, 0) == Absent ==> Find(d, name, 0) == Inum(inum))
      && (forall other :: CName(Truncate(other)) != CName(Truncate(name)) ==> Find(d, other, 0) == Find(c, other, 0))
  }

  /** What writei makes of the directory. */
  lemma Entered(sb: Super, s: State, r: State, i: nat, off: nat, name: seq<Byte>, inum: nat)
    requires 0 < inum < 0x1_0000 && Replaced(sb, s, r, i, off, Dirent(name, inum)) && off % DIRENT == 0
    requires var c := Content(s.disk, s.table[i]); off == |c| || (off + DIRENT <= |c| && Half(c, off) == 0)
    ensures Linked(s, r, i, name, inum)
  {
    var c, d := Content(s.disk, s.table[i]), Content(r.disk, r.table[i]);
    assert Replaces(c, d, off, Dirent(name, inum));
    if Find(c, name, 0) == Absent {
      FindNew(c, d, off, name, inum, 0);
    }
    forall other | CName(Truncate(other)) != CName(Truncate(name)) ensures Find(d, other, 0) == Find(c, other, 0) {
      FindOther(c, d, off, name, inum, other, 0);
    }
  }

  lemma RefsTwice(a: seq<Slot>, b: seq<Slot>, c: seq<Slot>, m: nat, k: int, n: nat, l: int)
    requires RefsChange(a, b, m, k) && RefsChange(b, c, n, l)
    ensures m == n ==> RefsChange(a, c, m, k + l) && (k + l == 0 ==> RefsChange(a, c, 0, 0))
    ensures k == 0 ==> RefsChange(a, c, n, l)
    ensures l == 0 ==> RefsChange(a, c, m, k)
  {
  }

  lemma RefsThrice(a: seq<Slot>, b: seq<Slot>, c: seq<Slot>, d: seq<Slot>, m: nat, n: nat)
    requires RefsChange(a, b, m, 1) && RefsChange(b, c, n, 1) && RefsChange(c, d, m, -1)
    ensures RefsChange(a, d, n, 1)
  {
  }
}
