/**
  The block cache of kernel/bio.c: a fixed pool of buffers on a doubly linked
  list kept in order of release, in front of a disk whose block writes are
  atomic.  Index HEAD of the link arrays is the list head.

  The ghost fields give the abstract value: `shown` is what a reader of each
  disk address must see, `index` says which buffer caches an address, `order`
  is the list from head.next to head.prev, `stamp` is the time each buffer was
  last put at the front, and `trace` is the disk after every block write.
*/
module BufferCache {
  import opened Guard
  import opened Sets
  import opened Bytes

  const NBUF := 10
  const HEAD := NBUF
  const NODEV := -1

  datatype Addr = Addr(dev: int, sector: int)

  type Disk = map<Addr, Block>

  // A disk, and an index of cached addresses, as single values of a field.
  datatype Store = Store(blocks: Disk)
  datatype Index = Index(where: map<Addr, nat>)

  // The addresses whose buffers are held and those whose buffers are pinned.
  datatype Marks = Marks(held: set<Addr>, pinned: set<Addr>)

  datatype Buf = Buf(busy: bool, valid: bool, dirty: bool, at: Addr, data: Block) {
    predicate Clean() { !busy && !dirty }
  }

  /** One pass of bget: a buffer, a busy buffer to sleep on, or the panic. */
  datatype Acquired = Got(b: nat) | MustSleep(b: nat) | NoBuffers

  // --- The list ---

  /** `order` is a permutation of the buffers and `pos` its inverse. */
  ghost predicate Permutation(order: seq<nat>, pos: seq<nat>) {
    && |order| == |pos| == NBUF
    && (forall i :: 0 <= i < NBUF ==> order[i] < NBUF && pos[order[i]] == i)
    && (forall b :: 0 <= b < NBUF ==> pos[b] < NBUF && order[pos[b]] == b)
  }

  /** The list l as a walk from the head back to the head. */
  ghost function Walk(l: seq<nat>): seq<nat> {
    [HEAD] + l + [HEAD]
  }

  /** A walk visits buffers only, each at most once, between two visits of the head. */
  ghost predicate Tour(s: seq<nat>) {
    && |s| >= 2 && s[0] == HEAD == s[|s| - 1]
    && (forall i :: 0 < i < |s| - 1 ==> s[i] < HEAD)
    && (forall i, j :: 0 < i < j < |s| - 1 ==> s[i] != s[j])
  }

  /** The links run along the walk s in both directions. */
  ghost predicate Ring(prev: seq<nat>, next: seq<nat>, s: seq<nat>) {
    && |prev| == |next| == NBUF + 1
    && (forall i :: 0 <= i < |s| ==> s[i] <= HEAD)
    && (forall i {:trigger next[s[i]]} :: 0 <= i < |s| - 1 ==> next[s[i]] == s[i + 1])
    && (forall i {:trigger prev[s[i]]} :: 0 < i < |s| ==> prev[s[i]] == s[i - 1])
  }

  ghost function Without(s: seq<nat>, k: nat): seq<nat>
    requires k < |s|
  {
    s[..k] + s[k + 1..]
  }

  lemma UnlinkNext(next: seq<nat>, s: seq<nat>, k: nat, i: nat)
    requires Tour(s) && |next| == NBUF + 1 && 0 < k < |s| - 1
    requires forall i {:trigger next[s[i]]} :: 0 <= i < |s| - 1 ==> next[s[i]] == s[i + 1]
    requires i < |s| - 2
    ensures var m := Without(s, k); m[i] <= HEAD && next[s[k - 1] := s[k + 1]][m[i]] == m[i + 1]
  {
    var j := if i < k then i else i + 1;
    assert Without(s, k)[i] == s[j] && next[s[j]] == s[j + 1];
  }

  lemma UnlinkPrev(prev: seq<nat>, s: seq<nat>, k: nat, i: nat)
    requires Tour(s) && |prev| == NBUF + 1 && 0 < k < |s| - 1
    requires forall i {:trigger prev[s[i]]} :: 0 < i < |s| ==> prev[s[i]] == s[i - 1]
    requires 0 < i < |s| - 1
    ensures var m := Without(s, k); m[i] <= HEAD && prev[s[k + 1] := s[k - 1]][m[i]] == m[i - 1]
  {
    var j := if i < k then i else i + 1;
    assert Without(s, k)[i] == s[j] && prev[s[j]] == s[j - 1];
  }

  lemma WithoutTour(s: seq<nat>, k: nat)
    requires Tour(s) && 0 < k < |s| - 1
    ensures Tour(Without(s, k)) && forall i :: 0 < i < |s| - 2 ==> Without(s, k)[i] != s[k]
  {
    var m := Without(s, k);
    forall i | 0 <= i < |m| ensures m[i] == s[if i < k then i else i + 1] {
    }
  }

  lemma Unlink(prev: seq<nat>, next: seq<nat>, s: seq<nat>, k: nat)
    requires Ring(prev, next, s) && Tour(s) && 0 < k < |s| - 1
    ensures next[s[k]] == s[k + 1] && prev[s[k]] == s[k - 1]
    ensures Ring(prev[s[k + 1] := s[k - 1]], next[s[k - 1] := s[k + 1]], Without(s, k))
  {
    var m, p2, n2 := Without(s, k), prev[s[k + 1] := s[k - 1]], next[s[k - 1] := s[k + 1]];
    forall i | 0 <= i < |m| - 1 ensures m[i] <= HEAD && n2[m[i]] == m[i + 1] {
      UnlinkNext(next, s, k, i);
    }
    forall i | 0 < i < |m| ensures m[i] <= HEAD && p2[m[i]] == m[i - 1] {
      UnlinkPrev(prev, s, k, i);
    }
  }

  lemma PushFront(prev: seq<nat>, next: seq<nat>, s: seq<nat>, b: nat)
    requires Ring(prev, next, s) && Tour(s) && b < HEAD && forall i :: 0 < i < |s| - 1 ==> s[i] != b
    ensures Tour([HEAD, b] + s[1..])
    ensures next[HEAD] == s[1]
    ensures Ring(prev[b := HEAD][s[1] := b], next[b := s[1]][HEAD := b], [HEAD, b] + s[1..])
  {
    var m := [HEAD, b] + s[1..];
    assert forall i :: 2 <= i < |m| ==> m[i] == s[i - 1];
    assert next[s[0]] == s[1];
  }

  /** The six pointer assignments of brelse move the element at place k of the walk to its front. */
  lemma Relink(prev: seq<nat>, next: seq<nat>, s: seq<nat>, k: nat)
    requires Ring(prev, next, s) && Tour(s) && 0 < k < |s| - 1
    ensures
      var b := s[k];
      prev[b] <= HEAD && next[b] <= HEAD &&
      var prev1, next1 := prev[next[b] := prev[b]], next[prev[b] := next[b]];
      next1[HEAD] <= HEAD &&
        Ring(prev1[b := HEAD][next1[HEAD] := b], next1[b := next1[HEAD]][HEAD := b], [HEAD, b] + Without(s, k)[1..])
  {
    WithoutTour(s, k);
    Unlink(prev, next, s, k);
    PushFront(prev[s[k + 1] := s[k - 1]], next[s[k - 1] := s[k + 1]], Without(s, k), s[k]);
  }

  /** The list runs from the latest to the earliest release. */
  ghost predicate ByRecency(order: seq<nat>, stamp: seq<int>, clock: int) {
    && |order| == |stamp| == NBUF
    && (forall i :: 0 <= i < NBUF ==> order[i] < NBUF)
    && (forall i, j {:trigger stamp[order[i]], stamp[order[j]]} :: 0 <= i < j < NBUF ==>
         stamp[order[i]] > stamp[order[j]])
    && (forall b :: 0 <= b < NBUF ==> stamp[b] < clock)
  }

  ghost predicate Linked(order: seq<nat>, pos: seq<nat>, prev: seq<nat>, next: seq<nat>, stamp: seq<int>, clock: int) {
    Permutation(order, pos) && Ring(prev, next, Walk(order)) && ByRecency(order, stamp, clock)
  }

  ghost function ToFront(order: seq<nat>, k: nat): seq<nat>
    requires k < |order|
  {
    [order[k]] + Without(order, k)
  }

  ghost function PosToFront(pos: seq<nat>, b: nat): seq<nat>
    requires b < |pos|
  {
    seq(|pos|, c requires 0 <= c < |pos| => if c == b then 0 else if pos[c] < pos[b] then pos[c] + 1 else pos[c])
  }

  lemma WalkToFront(order: seq<nat>, k: nat)
    requires k < |order|
    ensures Walk(ToFront(order, k)) == [HEAD, order[k]] + Without(Walk(order), k + 1)[1..]
  {
  }

  lemma OrderTour(order: seq<nat>, pos: seq<nat>)
    requires Permutation(order, pos)
    ensures Tour(Walk(order))
  {
  }

  lemma RelinkOrder(prev: seq<nat>, next: seq<nat>, order: seq<nat>, pos: seq<nat>, b: nat)
    requires Ring(prev, next, Walk(order)) && Permutation(order, pos) && b < NBUF
    ensures
      prev[b] <= HEAD && next[b] <= HEAD &&
      var prev1, next1 := prev[next[b] := prev[b]], next[prev[b] := next[b]];
      next1[HEAD] <= HEAD &&
        Ring(prev1[b := HEAD][next1[HEAD] := b], next1[b := next1[HEAD]][HEAD := b], Walk(ToFront(order, pos[b])))
  {
    OrderTour(order, pos);
    assert Walk(order)[pos[b] + 1] == order[pos[b]] == b;
    Relink(prev, next, Walk(order), pos[b] + 1);
    WalkToFront(order, pos[b]);
  }

  lemma ToFrontPermutation(order: seq<nat>, pos: seq<nat>, b: nat)
    requires Permutation(order, pos) && b < NBUF
    ensures Permutation(ToFront(order, pos[b]), PosToFront(pos, b))
  {
    var o, p := ToFront(order, pos[b]), PosToFront(pos, b);
    forall i | 0 <= i < NBUF ensures o[i] < NBUF && p[o[i]] == i {
      if 0 < i <= pos[b] {
        assert o[i] == order[i - 1];
      }
    }
    forall c | 0 <= c < NBUF ensures p[c] < NBUF && o[p[c]] == c {
      if c != b && pos[c] < pos[b] {
        assert o[p[c]] == order[pos[c]];
      }
    }
  }

  lemma ToFrontRecency(order: seq<nat>, pos: seq<nat>, stamp: seq<int>, clock: int, b: nat)
    requires Permutation(order, pos) && ByRecency(order, stamp, clock) && b < NBUF
    ensures ByRecency(ToFront(order, pos[b]), stamp[b := clock], clock + 1)
  {
    var o, k := ToFront(order, pos[b]), pos[b];
    var at := i => if i == 0 then k else if i <= k then i - 1 else i;
    assert forall i :: 0 <= i < NBUF ==> o[i] == order[at(i)];
  }

  // --- The buffers ---

  /** What a buffer may hold for the address a, given what readers of a must see. */
  ghost predicate Caches(buf: Buf, a: Addr, shown: Block, stored: Block) {
    && buf.at == a
    && (buf.valid ==> buf.data == shown)
    && (buf.dirty ==> buf.valid)
    && (!buf.busy ==> buf.valid)
    && (shown == stored || (buf.valid && !buf.Clean()))
  }

  ghost predicate Coherent(buf: seq<Buf>, where: map<Addr, nat>, disk: Disk, contents: Disk) {
    && |buf| == NBUF
    && contents.Keys == disk.Keys
    && where.Keys <= disk.Keys
    && (forall a :: a in disk ==> a.dev != NODEV)
    && (forall a :: a in where ==> where[a] < NBUF && Caches(buf[where[a]], a, contents[a], disk[a]))
    && (forall a :: a in disk && a !in where ==> contents[a] == disk[a])
    && (forall b :: 0 <= b < NBUF ==>
          if buf[b].at.dev == NODEV then buf[b].Clean() && !buf[b].valid
          else buf[b].at in where && where[buf[b].at] == b)
  }

  /** Addresses whose buffer is B_BUSY. */
  ghost function Busy(buf: seq<Buf>, where: map<Addr, nat>): set<Addr> {
    set a | a in where && where[a] < |buf| && buf[where[a]].busy
  }

  /** Addresses whose buffer is B_DIRTY: they may not be recycled. */
  ghost function Dirty(buf: seq<Buf>, where: map<Addr, nat>): set<Addr> {
    set a | a in where && where[a] < |buf| && buf[where[a]].dirty
  }

  /** Giving a clean buffer to an address that is not cached loses nothing. */
  lemma Recycle(buf: seq<Buf>, where: map<Addr, nat>, disk: Disk, contents: Disk, a: Addr, b: nat)
    requires Coherent(buf, where, disk, contents) && b < NBUF && buf[b].Clean() && a in disk && a !in where
    ensures
      var w := (where - {buf[b].at})[a := b];
      var bufs := buf[b := Buf(true, false, false, a, buf[b].data)];
      Coherent(bufs, w, disk, contents) && Busy(bufs, w) == Busy(buf, where) + {a} &&
        Dirty(bufs, w) == Dirty(buf, where)
  {
    var w := (where - {buf[b].at})[a := b];
    var bufs := buf[b := Buf(true, false, false, a, buf[b].data)];
    forall x | x in w ensures w[x] < NBUF && Caches(bufs[w[x]], x, contents[x], disk[x]) {
      if x != a {
        assert x in where && where[x] != b;
      }
    }
    forall x | x in disk && x !in w ensures contents[x] == disk[x] {
      assert x in where ==> where[x] == b;
    }
  }

  /** Changing one cached buffer and what is shown or stored at its address. */
  lemma Change(buf: seq<Buf>, where: map<Addr, nat>, disk: Disk, contents: Disk, b: nat, nb: Buf, shown: Block,
               stored: Block)
    requires Coherent(buf, where, disk, contents) && b < NBUF && buf[b].at.dev != NODEV
    requires Caches(nb, buf[b].at, shown, stored)
    ensures
      var a, bufs := buf[b].at, buf[b := nb];
      && Coherent(bufs, where, disk[a := stored], contents[a := shown])
      && Busy(bufs, where) == (if nb.busy then Busy(buf, where) + {a} else Busy(buf, where) - {a})
      && Dirty(bufs, where) == (if nb.dirty then Dirty(buf, where) + {a} else Dirty(buf, where) - {a})
      && (nb.busy == buf[b].busy ==> Busy(bufs, where) == Busy(buf, where))
      && (nb.dirty == buf[b].dirty ==> Dirty(bufs, where) == Dirty(buf, where))
  {
    ChangeMarks(buf, where, b, nb);
  }

  lemma ChangeMarks(buf: seq<Buf>, where: map<Addr, nat>, b: nat, nb: Buf)
    requires b < |buf| && buf[b].at in where && where[buf[b].at] == b
    requires forall a :: a in where && where[a] == b ==> a == buf[b].at
    ensures var a := buf[b].at;
      && Busy(buf[b := nb], where) == (if nb.busy then Busy(buf, where) + {a} else Busy(buf, where) - {a})
      && Dirty(buf[b := nb], where) == (if nb.dirty then Dirty(buf, where) + {a} else Dirty(buf, where) - {a})
      && (buf[b].busy <==> a in Busy(buf, where)) && (buf[b].dirty <==> a in Dirty(buf, where))
  {
  }

  /** The case of Change in which the data of a buffer reach the disk. */
  lemma Written(buf: seq<Buf>, where: map<Addr, nat>, disk: Disk, contents: Disk, b: nat)
    requires Coherent(buf, where, disk, contents) && b < NBUF && buf[b].busy && buf[b].valid
    ensures
      var a, bufs := buf[b].at, buf[b := buf[b].(dirty := false)];
      && Coherent(bufs, where, disk[a := buf[b].data], contents)
      && Busy(bufs, where) == Busy(buf, where) && Dirty(bufs, where) == Dirty(buf, where) - {a}
  {
    Change(buf, where, disk, contents, b, buf[b].(dirty := false), buf[b].data, buf[b].data);
    assert contents == contents[buf[b].at := buf[b].data];
  }

  /** The case of Change in which only the flags or the copy in memory change. */
  lemma Touch(buf: seq<Buf>, where: map<Addr, nat>, disk: Disk, contents: Disk, b: nat, nb: Buf)
    requires Coherent(buf, where, disk, contents) && b < NBUF && buf[b].at.dev != NODEV
    requires Caches(nb, buf[b].at, contents[buf[b].at], disk[buf[b].at])
    ensures Coherent(buf[b := nb], where, disk, contents)
    ensures Busy(buf[b := nb], where) == if nb.busy then Busy(buf, where) + {nb.at} else Busy(buf, where) - {nb.at}
    ensures Dirty(buf[b := nb], where) == if nb.dirty then Dirty(buf, where) + {nb.at} else Dirty(buf, where) - {nb.at}
    ensures nb.busy == buf[b].busy ==> Busy(buf[b := nb], where) == Busy(buf, where)
    ensures nb.dirty == buf[b].dirty ==> Dirty(buf[b := nb], where) == Dirty(buf, where)
  {
    ChangeMarks(buf, where, b, nb);
  }

  ghost predicate AllTaken(buf: seq<Buf>) {
    forall b :: 0 <= b < |buf| ==> !buf[b].Clean()
  }

  /** Different buffers are taken for different addresses. */
  lemma {:induction false} TakenAddresses(buf: seq<Buf>, where: map<Addr, nat>, disk: Disk, contents: Disk, n: nat)
    returns (s: seq<Addr>)
    requires Coherent(buf, where, disk, contents) && AllTaken(buf) && n <= NBUF
    ensures |s| == n && forall k :: 0 <= k < n ==> s[k] in where && where[s[k]] == k
    ensures forall k :: 0 <= k < n ==> s[k] in Busy(buf, where) + Dirty(buf, where)
  {
    s := seq(n, k requires 0 <= k < n => buf[k].at);
    forall k | 0 <= k < n ensures s[k] in where && where[s[k]] == k && s[k] in Busy(buf, where) + Dirty(buf, where) {
      assert !buf[k].Clean();
    }
  }

  /** With these blocks held and pinned, at least n buffers are left. */
  ghost predicate Spare(held: set<Addr>, pinned: set<Addr>, n: nat) {
    forall k {:trigger Look(k)} :: Look(k) ==> SpareCount(held, pinned, n)
  }

  ghost predicate SpareCount(held: set<Addr>, pinned: set<Addr>, n: nat) { |held + pinned| + n <= NBUF }

  lemma SpareHeld(held: set<Addr>, pinned: set<Addr>, n: nat, a: Addr)
    ensures Spare(held, pinned, n + 1) ==> Spare(held + {a}, pinned, n) && Spare(held, pinned, n)
  {
    assert Look(0);
    UnionSize(held + pinned, {a});
    assert held + {a} + pinned == held + pinned + {a};
  }

  lemma SpareUnpinned(held: set<Addr>, pinned: set<Addr>, fewer: set<Addr>, n: nat)
    requires fewer <= pinned
    ensures Spare(held, pinned, n + 1) ==> Spare(held, fewer, n + 1) && Spare(held, fewer, n)
  {
    assert Look(0);
    SubsetSize(held + fewer, held + pinned);
  }

  /** The loop of binit: every buffer pushed in turn onto the empty list. */
  method BuildList() returns (prev: seq<nat>, next: seq<nat>)
    ensures Ring(prev, next, Walk(seq(NBUF, i => NBUF - 1 - i)))
  {
    prev, next := seq(NBUF + 1, _ => HEAD), seq(NBUF + 1, _ => HEAD);
    var b := 0;
    ghost var s: seq<nat> := [HEAD, HEAD];
    while b < NBUF
      invariant 0 <= b <= NBUF && Ring(prev, next, s) && Tour(s)
      invariant |s| == b + 2 && forall i :: 0 < i <= b ==> s[i] == b - i
    {
      PushFront(prev, next, s, b);
      next, prev := next[b := next[HEAD]], prev[b := HEAD];
      prev := prev[next[b] := b];
      next := next[HEAD := b];
      b, s := b + 1, [HEAD, b] + s[1..];
    }
    assert s == Walk(seq(NBUF, i => NBUF - 1 - i));
  }

  class Cache {
    var disk: Store
    var buf: seq<Buf>
    var prev: seq<nat>
    var next: seq<nat>
    ghost var shown: Store
    ghost var index: Index
    ghost var marks: Marks
    ghost var order: seq<nat>
    ghost var pos: seq<nat>
    ghost var stamp: seq<int>
    ghost var clock: int
    ghost var trace: seq<Store>

    /** Holds between calls. */
    ghost predicate Valid()
      reads this
    {
      && |buf| == |order| == |pos| == |stamp| == NBUF
      && shown.blocks.Keys == disk.blocks.Keys
      && (forall b :: 0 <= b < NBUF && buf[b].valid ==> buf[b].at in disk.blocks)
      && (forall k {:trigger Glance(k)} :: Glance(k) ==> Linked(order, pos, prev, next, stamp, clock))
      && (forall k {:trigger Watch(k)} :: Watch(k) ==>
            && Coherent(buf, index.where, disk.blocks, shown.blocks)
            && marks == Marks(Busy(buf, index.where), Dirty(buf, index.where)))
    }

    ghost function Held(): set<Addr>
      reads this
    {
      marks.held
    }

    ghost function Pinned(): set<Addr>
      reads this
    {
      marks.pinned
    }

    /** What is shown differs from what is stored only where a buffer is held or pinned. */
    lemma Settled(a: Addr)
      requires Valid() && a in disk.blocks && a !in Held() && a !in Pinned()
      ensures shown.blocks[a] == disk.blocks[a]
    {
      assert Watch(0);
    }

    /** While fewer blocks are held or pinned than there are buffers, some buffer may be recycled. */
    lemma Room()
      requires Valid()
      ensures Spare(Held(), Pinned(), 1) ==> !AllTaken(buf)
    {
      assert Watch(0) && Look(0);
      if AllTaken(buf) {
        var s := TakenAddresses(buf, index.where, disk.blocks, shown.blocks, NBUF);
        ListFits(s, Held() + Pinned());
      }
    }

    /** With nothing held and nothing pinned every buffer may be recycled. */
    lemma Idle()
      requires Valid() && Held() == {} && Pinned() == {}
      ensures forall b :: 0 <= b < NBUF ==> buf[b].Clean()
    {
      assert Watch(0);
      forall b | 0 <= b < NBUF ensures buf[b].Clean() {
        assert buf[b].at.dev != NODEV ==> buf[b].at in index.where;
        assert buf[b].at !in Held() && buf[b].at !in Pinned();
      }
    }

    /** The buffers on a list in front of an untouched disk, as binit leaves them. */
    constructor (image: Disk)
      requires forall a :: a in image ==> a.dev != NODEV
      ensures Valid()
      ensures disk == shown == Store(image) && trace == [disk]
      ensures Held() == {} && Pinned() == {}
    {
      assert Watch(0) && Glance(0);
      disk := Store(image);
      buf := seq(NBUF, _ => Buf(false, false, false, Addr(NODEV, 0), ZeroBlock()));
      shown, index, marks, trace := Store(image), Index(map[]), Marks({}, {}), [Store(image)];
      pos, stamp, clock := seq(NBUF, i => NBUF - 1 - i), seq(NBUF, i => i), NBUF;
      var p, n := BuildList();
      prev, next := p, n;
      order := seq(NBUF, i => NBUF - 1 - i);
    }

    /** The first loop of bget: the buffer caching a, or HEAD. */
    method Lookup(a: Addr) returns (b: nat)
      requires Valid() && a in disk.blocks
      ensures b == if a in index.where then index.where[a] else HEAD
      ensures b == HEAD <==> a !in index.where
      ensures if b == HEAD then a !in Held() else b < NBUF && buf[b].at == a && (buf[b].busy <==> a in Held())
    {
      assert Watch(0) && Glance(0);
      assert Walk(order)[0] == HEAD;
      b := next[HEAD];
      ghost var i := 0;
      while b != HEAD
        invariant 0 <= i <= NBUF && b == Walk(order)[i + 1]
        invariant a in index.where ==> i <= pos[index.where[a]]
        decreases NBUF - i
      {
        if buf[b].at == a {
          return;
        }
        assert b == order[i];
        b, i := next[b], i + 1;
      }
    }

    /** The second loop of bget: the least recently released buffer that is neither busy nor dirty. */
    method Victim() returns (b: nat)
      requires Valid()
      ensures b <= NBUF
      ensures b == HEAD <==> AllTaken(buf)
      ensures b < NBUF ==> buf[b].Clean() && forall c :: 0 <= c < NBUF && buf[c].Clean() ==> stamp[b] <= stamp[c]
    {
      assert Watch(0) && Glance(0);
      assert Walk(order)[NBUF + 1] == HEAD;
      b := prev[HEAD];
      ghost var i := NBUF - 1;
      while b != HEAD
        invariant -1 <= i < NBUF && b == Walk(order)[i + 1]
        invariant forall j :: i < j < NBUF ==> !buf[order[j]].Clean()
        decreases i
      {
        assert b == order[i];
        if !buf[b].busy && !buf[b].dirty {
          forall c | 0 <= c < NBUF && buf[c].Clean() ensures stamp[b] <= stamp[c] {
            assert order[pos[c]] == c;
          }
          return;
        }
        b, i := prev[b], i - 1;
      }
      forall c | 0 <= c < NBUF ensures !buf[c].Clean() {
        assert order[pos[c]] == c;
      }
    }

    method Bget(a: Addr) returns (r: Acquired)
      requires Valid() && a in disk.blocks
      modifies this`index, this`marks, this`buf
      ensures Valid()
      ensures r.MustSleep? <==> a in old(Held())
      ensures r.NoBuffers? <==> a !in old(index.where) && AllTaken(old(buf))
      ensures Held() == if r.Got? then old(Held()) + {a} else old(Held())
      ensures Pinned() == old(Pinned())
      ensures r.Got? ==>
        r.b < NBUF && buf[r.b].at == a && buf[r.b].busy && (buf[r.b].valid ==> buf[r.b].data == shown.blocks[a])
      ensures r.Got? ==> !old(buf)[r.b].busy
      ensures forall c :: 0 <= c < NBUF && r != Got(c) ==> buf[c] == old(buf)[c]
      ensures r.Got? && a in old(index.where) ==> r.b == old(index.where)[a]
      // A recycled buffer was clean and was released no later than any other clean one.
      ensures r.Got? && a !in old(index.where) ==>
        && old(buf)[r.b].Clean()
        && forall c :: 0 <= c < NBUF && old(buf)[c].Clean() ==> stamp[r.b] <= stamp[c]
    {
      var b := Lookup(a);
      if b != HEAD {
        if !buf[b].busy {
          Take(b);
          return Got(b);
        }
        return MustSleep(b);
      }
      b := Victim();
      if b == HEAD {
        return NoBuffers;
      }
      TakeOver(a, b);
      return Got(b);
    }

    /** The hit of bget: hold the buffer that caches the address. */
    method Take(b: nat)
      requires Valid() && b < NBUF && buf[b].at in index.where && index.where[buf[b].at] == b
      modifies this`marks, this`buf
      ensures Valid() && buf == old(buf)[b := old(buf)[b].(busy := true)]
      ensures Held() == old(Held()) + {buf[b].at} && Pinned() == old(Pinned())
      ensures buf[b].valid ==> buf[b].data == shown.blocks[buf[b].at]
    {
      assert Watch(0);
      Touch(buf, index.where, disk.blocks, shown.blocks, b, buf[b].(busy := true));
      buf := buf[b := buf[b].(busy := true)];
      marks := marks.(held := marks.held + {buf[b].at});
    }

    /** The miss of bget: give a clean buffer to the address a. */
    method TakeOver(a: Addr, b: nat)
      requires Valid() && b < NBUF && buf[b].Clean() && a in disk.blocks && a !in index.where
      modifies this`index, this`marks, this`buf
      ensures Valid() && buf == old(buf)[b := Buf(true, false, false, a, old(buf)[b].data)]
      ensures Held() == old(Held()) + {a} && Pinned() == old(Pinned())
    {
      assert Watch(0);
      Recycle(buf, index.where, disk.blocks, shown.blocks, a, b);
      index := Index((index.where - {buf[b].at})[a := b]);
      buf := buf[b := Buf(true, false, false, a, buf[b].data)];
      marks := marks.(held := marks.held + {a});
    }

    /** Read through the cache: a held buffer that shows the current contents of a. */
    method Bread(a: Addr) returns (r: Acquired)
      requires Valid() && a in disk.blocks
      modifies this`index, this`marks, this`buf
      ensures Valid()
      ensures r.MustSleep? <==> a in old(Held())
      ensures r.NoBuffers? <==> a !in old(index.where) && AllTaken(old(buf))
      ensures Held() == if r.Got? then old(Held()) + {a} else old(Held())
      ensures Pinned() == old(Pinned())
      ensures r.Got? ==>
        r.b < NBUF && buf[r.b].at == a && buf[r.b].busy && buf[r.b].valid && buf[r.b].data == shown.blocks[a]
      ensures r.Got? ==> !old(buf)[r.b].busy
      ensures forall c :: 0 <= c < NBUF && r != Got(c) ==> buf[c] == old(buf)[c]
    {
      r := Bget(a);
      if r.Got? && !buf[r.b].valid {
        ReadIn(r.b);
      }
    }

    /** iderw on a buffer that is not valid: fetch the block from the disk. */
    method ReadIn(b: nat)
      requires Valid() && b < NBUF && buf[b].busy && !buf[b].valid && buf[b].at in disk.blocks
      modifies this`buf
      ensures Valid()
      ensures buf == old(buf)[b := old(buf)[b].(data := shown.blocks[old(buf)[b].at], valid := true)]
      ensures Held() == old(Held()) && Pinned() == old(Pinned())
    {
      assert Watch(0);
      Touch(buf, index.where, disk.blocks, shown.blocks, b, buf[b].(data := disk.blocks[buf[b].at], valid := true));
      buf := buf[b := buf[b].(data := disk.blocks[buf[b].at], valid := true)];
    }

    /** The holder of a buffer overwrites its data. */
    method Fill(b: nat, data: Block)
      requires Valid() && b < NBUF && buf[b].busy && buf[b].valid
      modifies this`shown, this`buf
      ensures Valid()
      ensures shown == Store(old(shown.blocks)[buf[b].at := data])
      ensures buf == old(buf)[b := old(buf)[b].(data := data)]
      ensures Held() == old(Held()) && Pinned() == old(Pinned())
    {
      assert Watch(0);
      Change(buf, index.where, disk.blocks, shown.blocks, b, buf[b].(data := data), data, disk.blocks[buf[b].at]);
      buf := buf[b := buf[b].(data := data)];
      shown := Store(shown.blocks[buf[b].at := data]);
      assert disk.blocks == disk.blocks[buf[b].at := disk.blocks[buf[b].at]];
    }

    /** Send a held buffer to the disk. */
    method Bwrite(b: nat)
      requires Valid() && b < NBUF && buf[b].busy && buf[b].valid
      modifies this`disk, this`trace, this`marks, this`buf
      ensures Valid()
      ensures disk == Store(old(disk.blocks)[buf[b].at := buf[b].data]) && trace == old(trace) + [disk]
      ensures buf == old(buf)[b := old(buf)[b].(dirty := false)]
      ensures Held() == old(Held()) && Pinned() == old(Pinned()) - {buf[b].at}
    {
      assert Watch(0);
      Written(buf, index.where, disk.blocks, shown.blocks, b);
      disk := Store(disk.blocks[buf[b].at := buf[b].data]);
      trace := trace + [disk];
      buf := buf[b := buf[b].(dirty := false)];
      marks := marks.(pinned := marks.pinned - {buf[b].at});
    }

    /** The last statement of log_write: keep a held buffer from being recycled. */
    method Pin(b: nat)
      requires Valid() && b < NBUF && buf[b].busy && buf[b].valid
      modifies this`marks, this`buf
      ensures Valid()
      ensures buf == old(buf)[b := old(buf)[b].(dirty := true)]
      ensures Held() == old(Held()) && Pinned() == old(Pinned()) + {buf[b].at}
    {
      assert Watch(0);
      Touch(buf, index.where, disk.blocks, shown.blocks, b, buf[b].(dirty := true));
      buf := buf[b := buf[b].(dirty := true)];
      marks := marks.(pinned := marks.pinned + {buf[b].at});
    }

    /**
      Give a buffer back and move it to the front of the list.  The holder must have
      passed any change of its data to bwrite or log_write.
    */
    method Brelse(b: nat)
      requires Valid() && b < NBUF && buf[b].busy && buf[b].valid
      requires buf[b].dirty || buf[b].data == disk.blocks[buf[b].at]
      modifies this`order, this`pos, this`stamp, this`clock, this`marks, this`buf, this`prev, this`next
      ensures Valid()
      ensures Held() == old(Held()) - {buf[b].at} && Pinned() == old(Pinned())
      ensures old(pos)[b] < NBUF && order == ToFront(old(order), old(pos)[b]) && stamp == old(stamp)[b := old(clock)]
      ensures buf == old(buf)[b := old(buf)[b].(busy := false)]
    {
      assert Watch(0) && Glance(0);
      MoveToFront(b);
      buf := buf[b := buf[b].(busy := false)];
      marks := marks.(held := marks.held - {buf[b].at});
    }

    /** The pointer surgery of brelse. */
    method MoveToFront(b: nat)
      requires Permutation(order, pos) && Ring(prev, next, Walk(order)) && ByRecency(order, stamp, clock) && b < NBUF
      modifies this`order, this`pos, this`stamp, this`clock, this`prev, this`next
      ensures Permutation(order, pos) && Ring(prev, next, Walk(order)) && ByRecency(order, stamp, clock)
      ensures order == ToFront(old(order), old(pos)[b]) && stamp == old(stamp)[b := old(clock)]
    {
      RelinkOrder(prev, next, order, pos, b);
      ToFrontPermutation(order, pos, b);
      ToFrontRecency(order, pos, stamp, clock, b);
      var p, n := prev[b], next[b];
      prev := prev[n := p];
      next := next[p := n];
      next := next[b := next[HEAD]];
      prev := prev[b := HEAD];
      prev := prev[next[b] := b];
      next := next[HEAD := b];
      order, pos, stamp, clock := ToFront(order, pos[b]), PosToFront(pos, b), stamp[b := clock], clock + 1;
    }
  }
}
