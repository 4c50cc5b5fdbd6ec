/**
  The user-mode allocator of ulib/libc/stdlib/umalloc.c, after section 8.7 of
  The C Programming Language.  Addresses and sizes are in units of a Header.

  Ghost state: `free` is the free list from its lowest address on, `given`
  maps each block handed out to its size in units, and `owner` maps every unit
  obtained from sbrk to the block it belongs to.
*/
module Umalloc {
  import opened Guard
  import opened Sets

  /** What one unit of memory holds when it is used as a header. */
  datatype Header = Header(ptr: int, size: int)

  datatype Blk = Blk(at: int, size: int) {
    function End(): int { at + size }
  }

  // Maps as single values of a field.
  datatype Memory = Memory(cell: map<int, Header>)
  datatype Heap = Heap(given: map<int, int>, owner: map<int, int>)

  // --- The free list ---

  /** Blocks in increasing address order, no two of which touch. */
  ghost predicate Apart(fl: seq<Blk>) {
    forall i, j :: 0 <= i < j < |fl| ==> fl[i].End() < fl[j].at
  }

  /** Only the static base node is empty. */
  ghost predicate Sized(fl: seq<Blk>, base: int) {
    forall i :: 0 <= i < |fl| ==> fl[i].size >= 0 && (fl[i].size == 0 <==> fl[i].at == base)
  }

  ghost predicate FreeList(fl: seq<Blk>, base: int) {
    Apart(fl) && Sized(fl, base) && Blk(base, 0) in fl
  }

  ghost function Succ(fl: seq<Blk>, i: int): int
    requires 0 <= i < |fl|
  {
    if i + 1 < |fl| then i + 1 else 0
  }

  /** The header of block i names the next block of the cycle. */
  ghost predicate LinkedAt(cell: map<int, Header>, fl: seq<Blk>, i: int)
    requires 0 <= i < |fl|
  {
    fl[i].at in cell && cell[fl[i].at] == Header(fl[Succ(fl, i)].at, fl[i].size)
  }

  /** The headers in memory link the list into a cycle. */
  ghost predicate Chained(cell: map<int, Header>, fl: seq<Blk>) {
    forall i :: 0 <= i < |fl| ==> LinkedAt(cell, fl, i)
  }

  /** j is where a block at address a belongs in the list. */
  ghost predicate Fits(fl: seq<Blk>, a: int, j: int) {
    && 0 <= j <= |fl|
    && (forall i :: 0 <= i < j ==> fl[i].at < a)
    && (forall i :: j <= i < |fl| ==> a < fl[i].at)
  }

  lemma {:induction false} FitsSomewhere(fl: seq<Blk>, base: int, a: int) returns (j: int)
    requires Apart(fl) && Sized(fl, base) && forall i :: 0 <= i < |fl| ==> fl[i].at != a
    ensures Fits(fl, a, j)
  {
    j := 0;
    while j < |fl| && fl[j].at < a
      invariant 0 <= j <= |fl| && forall i :: 0 <= i < j ==> fl[i].at < a
    {
      j := j + 1;
    }
    if j < |fl| {
      forall i | j <= i < |fl| ensures a < fl[i].at {
      }
    }
  }

  /** A block that overlaps nothing on the list and does not adjoin the base node. */
  ghost predicate Clear(fl: seq<Blk>, base: int, b: Blk) {
    && b.size > 0
    && (forall i :: 0 <= i < |fl| ==> fl[i].End() <= b.at || b.End() <= fl[i].at)
    && (base < b.at || b.End() < base)
  }

  // What free() puts on the list for block b that belongs at place j.

  ghost predicate JoinsUp(fl: seq<Blk>, b: Blk, j: int)
    requires 0 <= j <= |fl|
  {
    j < |fl| && b.End() == fl[j].at
  }

  ghost predicate JoinsDown(fl: seq<Blk>, b: Blk, j: int)
    requires 0 <= j <= |fl|
  {
    j > 0 && fl[j - 1].End() == b.at
  }

  ghost function Joined(fl: seq<Blk>, b: Blk, j: int): Blk
    requires 0 <= j <= |fl|
  {
    var up := if JoinsUp(fl, b, j) then fl[j].size else 0;
    if JoinsDown(fl, b, j) then Blk(fl[j - 1].at, fl[j - 1].size + b.size + up) else Blk(b.at, b.size + up)
  }

  ghost function Below(fl: seq<Blk>, b: Blk, j: int): seq<Blk>
    requires 0 <= j <= |fl|
  {
    fl[..if JoinsDown(fl, b, j) then j - 1 else j]
  }

  ghost function Above(fl: seq<Blk>, b: Blk, j: int): seq<Blk>
    requires 0 <= j <= |fl|
  {
    fl[if JoinsUp(fl, b, j) then j + 1 else j..]
  }

  ghost function Insert(fl: seq<Blk>, b: Blk, j: int): seq<Blk>
    requires 0 <= j <= |fl|
  {
    Below(fl, b, j) + [Joined(fl, b, j)] + Above(fl, b, j)
  }

  lemma Sandwich(lo: seq<Blk>, b: Blk, hi: seq<Blk>)
    requires Apart(lo) && Apart(hi)
    requires forall i :: 0 <= i < |lo| ==> lo[i].End() < b.at
    requires forall j :: 0 <= j < |hi| ==> b.End() < hi[j].at
    requires forall i, j :: 0 <= i < |lo| && 0 <= j < |hi| ==> lo[i].End() < hi[j].at
    ensures Apart(lo + [b] + hi)
  {
  }

  lemma InsertEnds(fl: seq<Blk>, base: int, b: Blk, j: int)
    requires FreeList(fl, base) && Clear(fl, base, b) && Fits(fl, b.at, j)
    ensures var lo := Below(fl, b, j); forall i :: 0 <= i < |lo| ==> lo[i].End() < Joined(fl, b, j).at
    ensures var hi := Above(fl, b, j); forall i :: 0 <= i < |hi| ==> Joined(fl, b, j).End() < hi[i].at
    ensures Joined(fl, b, j).size > 0 && Joined(fl, b, j).at != base
  {
  }

  lemma InsertKeepsBase(fl: seq<Blk>, base: int, b: Blk, j: int)
    requires FreeList(fl, base) && Clear(fl, base, b) && Fits(fl, b.at, j)
    ensures Blk(base, 0) in Insert(fl, b, j)
  {
    var lo, hi, r := Below(fl, b, j), Above(fl, b, j), Insert(fl, b, j);
    var k :| 0 <= k < |fl| && fl[k] == Blk(base, 0);
    if k < j {
      assert k < |lo| && r[k] == fl[k];
    } else {
      assert k >= |fl| - |hi| && r[|lo| + 1 + k - (|fl| - |hi|)] == fl[k];
    }
  }

  lemma InsertApart(fl: seq<Blk>, base: int, b: Blk, j: int)
    requires FreeList(fl, base) && Clear(fl, base, b) && Fits(fl, b.at, j)
    ensures FreeList(Insert(fl, b, j), base)
  {
    InsertEnds(fl, base, b, j);
    InsertKeepsBase(fl, base, b, j);
    InsertSized(fl, base, b, j);
    Sandwich(Below(fl, b, j), Joined(fl, b, j), Above(fl, b, j));
  }

  lemma InsertSized(fl: seq<Blk>, base: int, b: Blk, j: int)
    requires FreeList(fl, base) && Clear(fl, base, b) && Fits(fl, b.at, j)
    ensures Sized(Insert(fl, b, j), base)
  {
    InsertEnds(fl, base, b, j);
    InsertPlaces(fl, b, j);
  }

  /** The place before j on the cycle. */
  ghost function Pred(fl: seq<Blk>, j: int): int
    requires 0 <= j <= |fl| && |fl| > 0
  {
    if j > 0 then j - 1 else |fl| - 1
  }

  /** The two tests and the pointer updates of free(), for the block bp to be put after p. */
  function Link(cell: map<int, Header>, p: int, bp: int): map<int, Header>
    requires p in cell && bp in cell && cell[p].ptr in cell
  {
    var next := cell[p].ptr;
    var joined := if bp + cell[bp].size == next
      then cell[bp := Header(cell[next].ptr, cell[bp].size + cell[next].size)]
      else cell[bp := Header(next, cell[bp].size)];
    if p + joined[p].size == bp
    then joined[p := Header(joined[bp].ptr, joined[p].size + joined[bp].size)]
    else joined[p := Header(bp, joined[p].size)]
  }

  /** The test against the next block on the cycle sees exactly the upper neighbour, and the other the lower one. */
  lemma LinkTests(fl: seq<Blk>, base: int, b: Blk, j: int)
    requires FreeList(fl, base) && Clear(fl, base, b) && Fits(fl, b.at, j) && |fl| > 0
    ensures b.End() == fl[Succ(fl, Pred(fl, j))].at <==> JoinsUp(fl, b, j)
    ensures fl[Pred(fl, j)].End() == b.at <==> JoinsDown(fl, b, j)
    ensures fl[Pred(fl, j)].at != b.at
    ensures JoinsUp(fl, b, j) ==> fl[j].at != base
  {
    assert Sized(fl, base);
  }

  /** Where a place of the list before the joined block goes, and what follows each place. */
  lemma InsertPlaces(fl: seq<Blk>, b: Blk, j: int)
    requires 0 <= j <= |fl|
    ensures
      var r, lo, hi := Insert(fl, b, j), |Below(fl, b, j)|, |Above(fl, b, j)|;
      && |r| == lo + 1 + hi && r[lo] == Joined(fl, b, j)
      && (forall i :: 0 <= i < lo ==> r[i] == fl[i])
      && (forall i :: lo < i < |r| ==> r[i] == fl[i + |fl| - |r|])
  {
  }

  /** The block b, with its header in memory, can be freed at place j of a well-formed list. */
  ghost predicate Ready(cell: map<int, Header>, fl: seq<Blk>, base: int, b: Blk, j: int) {
    && FreeList(fl, base) && Clear(fl, base, b) && Fits(fl, b.at, j) && |fl| > 0
    && Chained(cell, fl) && b.at in cell && cell[b.at].size == b.size
    && LinkedAt(cell, fl, Pred(fl, j)) && LinkedAt(cell, fl, Succ(fl, Pred(fl, j)))
  }

  ghost function After(cell: map<int, Header>, fl: seq<Blk>, base: int, b: Blk, j: int): map<int, Header>
    requires Ready(cell, fl, base, b, j)
  {
    Link(cell, fl[Pred(fl, j)].at, b.at)
  }

  /** What freeing leaves in the cells. */
  lemma AfterCells(cell: map<int, Header>, fl: seq<Blk>, base: int, b: Blk, j: int)
    requires Ready(cell, fl, base, b, j)
    ensures
      var g := Pred(fl, j);
      var c, nb := After(cell, fl, base, b, j), Joined(fl, b, j);
      && c.Keys == cell.Keys
      && (forall x :: x in cell && x != b.at && x != fl[g].at ==> c[x] == cell[x])
      && nb.at in c && c[nb.at] == Header(fl[Succ(fl, if JoinsUp(fl, b, j) then j else g)].at, nb.size)
      && (!JoinsDown(fl, b, j) ==> c[fl[g].at] == Header(b.at, fl[g].size))
  {
    LinkTests(fl, base, b, j);
  }

  /** A place whose block and successor are the same in both lists, and whose header is untouched, stays linked. */
  lemma StaysLinked(cell: map<int, Header>, c: map<int, Header>, fl: seq<Blk>, r: seq<Blk>, k: int, i: int)
    requires 0 <= k < |fl| && 0 <= i < |r| && LinkedAt(cell, fl, k)
    requires r[i] == fl[k] && r[Succ(r, i)].at == fl[Succ(fl, k)].at && fl[k].at in c && c[fl[k].at] == cell[fl[k].at]
    ensures LinkedAt(c, r, i)
  {
  }

  lemma AfterLow(cell: map<int, Header>, fl: seq<Blk>, base: int, b: Blk, j: int, i: int)
    requires Ready(cell, fl, base, b, j) && 0 <= i < |Below(fl, b, j)|
    ensures LinkedAt(After(cell, fl, base, b, j), Insert(fl, b, j), i)
  {
    var r, c := Insert(fl, b, j), After(cell, fl, base, b, j);
    AfterCells(cell, fl, base, b, j);
    InsertPlaces(fl, b, j);
    assert LinkedAt(cell, fl, i);
    assert r[i] == fl[i] && Succ(r, i) == i + 1;
    if i + 1 < |Below(fl, b, j)| || JoinsDown(fl, b, j) {
      assert fl[i].at < fl[i + 1].at;
      StaysLinked(cell, c, fl, r, i, i);
    }
  }

  lemma AfterMid(cell: map<int, Header>, fl: seq<Blk>, base: int, b: Blk, j: int)
    requires Ready(cell, fl, base, b, j)
    ensures LinkedAt(After(cell, fl, base, b, j), Insert(fl, b, j), |Below(fl, b, j)|)
  {
    AfterCells(cell, fl, base, b, j);
    LinkTests(fl, base, b, j);
    InsertPlaces(fl, b, j);
    InsertKeepsBase(fl, base, b, j);
    InsertEnds(fl, base, b, j);
  }

  /** The places above the joined block, and the places that follow them on the cycle. */
  lemma HighPlaces(fl: seq<Blk>, b: Blk, j: int, i: int)
    requires 0 <= j <= |fl| && |Below(fl, b, j)| < i < |Insert(fl, b, j)|
    ensures
      var r, k := Insert(fl, b, j), i + |fl| - |Insert(fl, b, j)|;
      && j <= k < |fl| && r[i] == fl[k]
      && (i + 1 < |r| ==> Succ(r, i) == i + 1 && Succ(fl, k) == k + 1 && r[i + 1] == fl[k + 1])
      && (i + 1 == |r| ==> Succ(r, i) == 0 == Succ(fl, k) && k == |fl| - 1)
      && r[0].at == if j > 0 then fl[0].at else b.at
  {
    InsertPlaces(fl, b, j);
  }

  lemma HighLinked(cell: map<int, Header>, c: map<int, Header>, fl: seq<Blk>, b: Blk, j: int, i: int)
    requires 0 <= j <= |fl| && |Below(fl, b, j)| < i < |Insert(fl, b, j)| && (i + 1 < |Insert(fl, b, j)| || j > 0)
    requires
      var k := i + |fl| - |Insert(fl, b, j)|;
      0 <= k < |fl| && LinkedAt(cell, fl, k) && fl[k].at in c && c[fl[k].at] == cell[fl[k].at]
    ensures LinkedAt(c, Insert(fl, b, j), i)
  {
    HighPlaces(fl, b, j, i);
    StaysLinked(cell, c, fl, Insert(fl, b, j), i + |fl| - |Insert(fl, b, j)|, i);
  }

  lemma WrapLinked(c: map<int, Header>, fl: seq<Blk>, b: Blk, i: int)
    requires 0 < |Below(fl, b, 0)| + 1 <= i == |Insert(fl, b, 0)| - 1
    requires fl[|fl| - 1].at in c && c[fl[|fl| - 1].at] == Header(b.at, fl[|fl| - 1].size)
    ensures LinkedAt(c, Insert(fl, b, 0), i)
  {
    HighPlaces(fl, b, 0, i);
  }

  lemma AfterHigh(cell: map<int, Header>, fl: seq<Blk>, base: int, b: Blk, j: int, i: int)
    requires Ready(cell, fl, base, b, j) && |Below(fl, b, j)| < i < |Insert(fl, b, j)|
    ensures LinkedAt(After(cell, fl, base, b, j), Insert(fl, b, j), i)
  {
    var r, c, k := Insert(fl, b, j), After(cell, fl, base, b, j), i + |fl| - |Insert(fl, b, j)|;
    HighPlaces(fl, b, j, i);
    AfterCells(cell, fl, base, b, j);
    assert LinkedAt(cell, fl, k);
    assert fl[k].at > b.at;
    if i + 1 < |r| || j > 0 {
      assert k != Pred(fl, j) && fl[k].at != fl[Pred(fl, j)].at;
      HighLinked(cell, c, fl, b, j, i);
    } else {
      WrapLinked(c, fl, b, i);
    }
  }

  /** free() leaves the list linked in memory as the cycle it should be. */
  lemma AfterChained(cell: map<int, Header>, fl: seq<Blk>, base: int, b: Blk, j: int)
    requires Ready(cell, fl, base, b, j)
    ensures Chained(After(cell, fl, base, b, j), Insert(fl, b, j))
  {
    var r, c := Insert(fl, b, j), After(cell, fl, base, b, j);
    forall i | 0 <= i < |r| ensures LinkedAt(c, r, i) {
      if i < |Below(fl, b, j)| {
        AfterLow(cell, fl, base, b, j, i);
      } else if i == |Below(fl, b, j)| {
        AfterMid(cell, fl, base, b, j);
      } else {
        AfterHigh(cell, fl, base, b, j, i);
      }
    }
  }

  // --- Who owns each unit ---

  ghost predicate Tile(owner: map<int, int>, at: int, size: int) {
    forall u :: at <= u < at + size ==> u in owner && owner[u] == at
  }

  ghost predicate OnList(fl: seq<Blk>, x: int, u: int) {
    exists i :: 0 <= i < |fl| && fl[i].at == x && x <= u < fl[i].End()
  }

  /** The owner of u is a block that contains it. */
  ghost predicate Owned(fl: seq<Blk>, h: Heap, u: int)
    requires u in h.owner
  {
    (h.owner[u] in h.given && h.owner[u] <= u < h.owner[u] + h.given[h.owner[u]]) || OnList(fl, h.owner[u], u)
  }

  /**
    Every unit obtained from sbrk belongs to exactly one block, free or given out, and
    none of them is the base node or adjoins it from below.
  */
  ghost predicate Partition(fl: seq<Blk>, h: Heap, base: int) {
    && (forall i :: 0 <= i < |fl| ==> Tile(h.owner, fl[i].at, fl[i].size) && fl[i].at !in h.given)
    && (forall a :: a in h.given ==> h.given[a] > 0 && Tile(h.owner, a, h.given[a]))
    && (forall u :: u in h.owner ==> u != base && u + 1 != base)
    && (forall u :: u in h.owner ==> Owned(fl, h, u))
  }

  function Claim(owner: map<int, int>, lo: int, hi: int, x: int): map<int, int> {
    map u | u in owner :: if lo <= u < hi then x else owner[u]
  }

  /** A block that was given out overlaps nothing on the free list. */
  lemma GivenClear(fl: seq<Blk>, h: Heap, base: int, a: int)
    requires FreeList(fl, base) && Partition(fl, h, base) && a in h.given
    ensures Clear(fl, base, Blk(a, h.given[a]))
  {
    var b := Blk(a, h.given[a]);
    assert b.End() - 1 in h.owner && a in h.owner;
    forall i | 0 <= i < |fl| ensures fl[i].End() <= b.at || b.End() <= fl[i].at {
      var u := if fl[i].at < b.at then b.at else fl[i].at;
      assert b.at <= u < b.End() ==> u in h.owner && h.owner[u] == b.at;
      assert fl[i].at <= u < fl[i].End() ==> u in h.owner && h.owner[u] == fl[i].at;
    }
  }

  /** The heap after block a is freed at place j. */
  ghost function Released(fl: seq<Blk>, h: Heap, a: int, j: int): Heap
    requires a in h.given && 0 <= j <= |fl|
  {
    var nb := Joined(fl, Blk(a, h.given[a]), j);
    Heap(h.given - {a}, Claim(h.owner, nb.at, nb.End(), nb.at))
  }

  /** The joined block is made of the freed one and the neighbours it joins. */
  lemma JoinedUnits(fl: seq<Blk>, h: Heap, base: int, a: int, j: int, u: int)
    requires FreeList(fl, base) && Partition(fl, h, base) && a in h.given && Fits(fl, a, j)
    ensures
      var b := Blk(a, h.given[a]);
      var nb := Joined(fl, b, j);
      nb.at <= u < nb.End() <==>
        || a <= u < b.End()
        || (JoinsDown(fl, b, j) && fl[j - 1].at <= u < fl[j - 1].End())
        || (JoinsUp(fl, b, j) && fl[j].at <= u < fl[j].End())
  {
    assert Sized(fl, base);
  }

  lemma ReleasedFree(fl: seq<Blk>, h: Heap, base: int, a: int, j: int, i: int)
    requires FreeList(fl, base) && Partition(fl, h, base) && a in h.given && Fits(fl, a, j)
    requires 0 <= i < |Insert(fl, Blk(a, h.given[a]), j)|
    ensures
      var r, g := Insert(fl, Blk(a, h.given[a]), j), Released(fl, h, a, j);
      Tile(g.owner, r[i].at, r[i].size) && r[i].at !in g.given
  {
    var b := Blk(a, h.given[a]);
    var r, nb, lo := Insert(fl, b, j), Joined(fl, b, j), |Below(fl, b, j)|;
    GivenClear(fl, h, base, a);
    InsertPlaces(fl, b, j);
    if i == lo {
      ReleasedJoined(fl, h, base, a, j);
    } else {
      InsertOutside(fl, base, b, j, i);
      var k := if i < lo then i else i + |fl| - |r|;
      TileOutside(fl, h, base, a, j, k);
    }
  }

  lemma ReleasedJoined(fl: seq<Blk>, h: Heap, base: int, a: int, j: int)
    requires FreeList(fl, base) && Partition(fl, h, base) && a in h.given && Fits(fl, a, j)
    ensures
      var nb, g := Joined(fl, Blk(a, h.given[a]), j), Released(fl, h, a, j);
      Tile(g.owner, nb.at, nb.size) && nb.at !in g.given
  {
    var nb := Joined(fl, Blk(a, h.given[a]), j);
    forall u | nb.at <= u < nb.End() ensures u in h.owner {
      JoinedUnits(fl, h, base, a, j, u);
    }
  }

  lemma TileOutside(fl: seq<Blk>, h: Heap, base: int, a: int, j: int, k: int)
    requires Partition(fl, h, base) && a in h.given && 0 <= j <= |fl| && 0 <= k < |fl|
    requires var nb := Joined(fl, Blk(a, h.given[a]), j); fl[k].End() < nb.at || nb.End() < fl[k].at
    ensures var g := Released(fl, h, a, j); Tile(g.owner, fl[k].at, fl[k].size) && fl[k].at !in g.given
  {
    assert Tile(h.owner, fl[k].at, fl[k].size);
  }

  lemma InsertOutside(fl: seq<Blk>, base: int, b: Blk, j: int, i: int)
    requires FreeList(fl, base) && Clear(fl, base, b) && Fits(fl, b.at, j)
    requires 0 <= i < |Insert(fl, b, j)| && i != |Below(fl, b, j)|
    ensures var r, nb := Insert(fl, b, j), Joined(fl, b, j); r[i].End() < nb.at || nb.End() < r[i].at
  {
    var lo := |Below(fl, b, j)|;
    InsertEnds(fl, base, b, j);
    if i < lo {
      assert Below(fl, b, j)[i] == Insert(fl, b, j)[i];
    } else {
      assert Above(fl, b, j)[i - lo - 1] == Insert(fl, b, j)[i];
    }
  }

  lemma ReleasedGiven(fl: seq<Blk>, h: Heap, base: int, a: int, j: int, x: int)
    requires FreeList(fl, base) && Partition(fl, h, base) && a in h.given && Fits(fl, a, j)
    requires x in h.given && x != a
    ensures Tile(Released(fl, h, a, j).owner, x, h.given[x])
  {
    var nb := Joined(fl, Blk(a, h.given[a]), j);
    forall u | x <= u < x + h.given[x] ensures u in h.owner && h.owner[u] == x && !(nb.at <= u < nb.End()) {
      assert u in h.owner && h.owner[u] == x;
      JoinedUnits(fl, h, base, a, j, u);
    }
  }

  lemma ReleasedUnit(fl: seq<Blk>, h: Heap, base: int, a: int, j: int, u: int)
    requires FreeList(fl, base) && Partition(fl, h, base) && a in h.given && Fits(fl, a, j) && u in h.owner
    ensures Owned(Insert(fl, Blk(a, h.given[a]), j), Released(fl, h, a, j), u)
  {
    var b := Blk(a, h.given[a]);
    var r, nb, g := Insert(fl, b, j), Joined(fl, b, j), Released(fl, h, a, j);
    JoinedUnits(fl, h, base, a, j, u);
    assert Owned(fl, h, u);
    if nb.at <= u < nb.End() {
      assert r[|Below(fl, b, j)|] == nb;
      assert OnList(r, nb.at, u);
    } else if !(h.owner[u] in h.given && h.owner[u] <= u < h.owner[u] + h.given[h.owner[u]]) {
      var i :| 0 <= i < |fl| && fl[i].at == h.owner[u] && h.owner[u] <= u < fl[i].End();
      var k := KeptPlace(fl, b, j, i);
      assert OnList(r, h.owner[u], u);
    }
  }

  /** A block that is not joined stays on the list. */
  lemma KeptPlace(fl: seq<Blk>, b: Blk, j: int, i: int) returns (k: int)
    requires 0 <= j <= |fl| && 0 <= i < |fl|
    requires !(JoinsDown(fl, b, j) && i == j - 1) && !(JoinsUp(fl, b, j) && i == j)
    ensures 0 <= k < |Insert(fl, b, j)| && Insert(fl, b, j)[k] == fl[i]
  {
    k := if i < j then i else i + |Insert(fl, b, j)| - |fl|;
  }

  /** Freeing keeps the partition and loses no unit. */
  lemma ReleasedPartition(fl: seq<Blk>, h: Heap, base: int, a: int, j: int)
    requires FreeList(fl, base) && Partition(fl, h, base) && a in h.given && Fits(fl, a, j)
    ensures Partition(Insert(fl, Blk(a, h.given[a]), j), Released(fl, h, a, j), base)
    ensures Released(fl, h, a, j).owner.Keys == h.owner.Keys
  {
    var r, g := Insert(fl, Blk(a, h.given[a]), j), Released(fl, h, a, j);
    forall i | 0 <= i < |r| ensures Tile(g.owner, r[i].at, r[i].size) && r[i].at !in g.given {
      ReleasedFree(fl, h, base, a, j, i);
    }
    forall x | x in g.given ensures g.given[x] > 0 && Tile(g.owner, x, g.given[x]) {
      ReleasedGiven(fl, h, base, a, j, x);
    }
    forall u | u in g.owner ensures Owned(r, g, u) {
      ReleasedUnit(fl, h, base, a, j, u);
    }
  }

  // --- Counting units ---

  function Total(bs: seq<Blk>): int {
    if bs == [] then 0 else Total(bs[..|bs| - 1]) + bs[|bs| - 1].size
  }

  /** bs lists every block of the heap, free or given out, once. */
  ghost predicate Lists(bs: seq<Blk>, fl: seq<Blk>, h: Heap) {
    && (forall i, j :: 0 <= i < j < |bs| ==> bs[i].at != bs[j].at)
    && (forall i :: 0 <= i < |bs| ==> bs[i] in fl || (bs[i].at in h.given && h.given[bs[i].at] == bs[i].size))
    && (forall i :: 0 <= i < |fl| ==> fl[i] in bs)
    && (forall a :: a in h.given ==> Blk(a, h.given[a]) in bs)
  }

  ghost function UnitsOf(owner: map<int, int>, b: Blk): set<int> {
    set u | u in owner && b.at <= u < b.End()
  }

  lemma {:induction false} IntervalSize(owner: map<int, int>, at: int, size: nat)
    requires forall u :: at <= u < at + size ==> u in owner
    ensures |UnitsOf(owner, Blk(at, size))| == size
  {
    var s := UnitsOf(owner, Blk(at, size));
    if size > 0 {
      IntervalSize(owner, at, size - 1);
      var t, last := UnitsOf(owner, Blk(at, size - 1)), at + size - 1;
      assert last in owner && last !in t;
      forall u ensures u in s <==> u in t || u == last {
      }
      assert s == t + {last};
    } else {
      forall u ensures u !in s {
      }
      assert s == {};
    }
  }

  ghost function Covered(owner: map<int, int>, bs: seq<Blk>): set<int> {
    set u | u in owner && In(bs, u)
  }

  ghost predicate In(bs: seq<Blk>, u: int) {
    exists i :: 0 <= i < |bs| && bs[i].at <= u < bs[i].End()
  }

  /** The blocks are tiles of their own, at different places. */
  ghost predicate Tiles(owner: map<int, int>, bs: seq<Blk>) {
    && (forall i :: 0 <= i < |bs| ==> bs[i].size >= 0 && Tile(owner, bs[i].at, bs[i].size))
    && (forall i, j :: 0 <= i < j < |bs| ==> bs[i].at != bs[j].at)
  }

  lemma {:induction false} CoveredSize(owner: map<int, int>, bs: seq<Blk>)
    requires Tiles(owner, bs)
    ensures |Covered(owner, bs)| == Total(bs)
  {
    if bs == [] {
      assert Covered(owner, bs) == {};
    } else {
      var n := |bs| - 1;
      var b, rest := bs[n], bs[..n];
      CoveredSize(owner, rest);
      assert Tile(owner, b.at, b.size);
      IntervalSize(owner, b.at, b.size);
      CoveredSplit(owner, bs);
      CoveredApart(owner, rest, b);
    }
  }

  lemma CoveredApart(owner: map<int, int>, bs: seq<Blk>, b: Blk)
    requires Tile(owner, b.at, b.size)
    requires forall i :: 0 <= i < |bs| ==> bs[i].at != b.at && Tile(owner, bs[i].at, bs[i].size)
    ensures Covered(owner, bs) !! UnitsOf(owner, b)
  {
    forall u | u in Covered(owner, bs) ensures u !in UnitsOf(owner, b) {
      assert In(bs, u);
      var i :| 0 <= i < |bs| && bs[i].at <= u < bs[i].End();
      assert owner[u] == bs[i].at;
    }
  }

  lemma ListedTiles(fl: seq<Blk>, h: Heap, base: int, bs: seq<Blk>)
    requires FreeList(fl, base) && Partition(fl, h, base) && Lists(bs, fl, h)
    ensures Tiles(h.owner, bs)
  {
    forall i | 0 <= i < |bs| ensures bs[i].size >= 0 && Tile(h.owner, bs[i].at, bs[i].size) {
      if bs[i] in fl {
        var k :| 0 <= k < |fl| && fl[k] == bs[i];
      }
    }
  }

  lemma CoveredSplit(owner: map<int, int>, bs: seq<Blk>)
    requires bs != []
    ensures Covered(owner, bs) == Covered(owner, bs[..|bs| - 1]) + UnitsOf(owner, bs[|bs| - 1])
  {
    var n, t := |bs| - 1, bs[..|bs| - 1];
    forall u ensures In(bs, u) <==> In(t, u) || bs[n].at <= u < bs[n].End() {
      if In(bs, u) {
        var i :| 0 <= i < |bs| && bs[i].at <= u < bs[i].End();
        assert i < n ==> t[i] == bs[i];
      }
      if In(t, u) {
        var i :| 0 <= i < |t| && t[i].at <= u < t[i].End();
        assert bs[i] == t[i];
      }
    }
  }

  lemma CoveredUnit(fl: seq<Blk>, h: Heap, base: int, bs: seq<Blk>, u: int)
    requires Partition(fl, h, base) && Lists(bs, fl, h) && u in h.owner
    ensures u in Covered(h.owner, bs)
  {
    assert Owned(fl, h, u);
    if h.owner[u] in h.given && u < h.owner[u] + h.given[h.owner[u]] {
      assert Blk(h.owner[u], h.given[h.owner[u]]) in bs;
      assert In(bs, u);
    } else {
      var i :| 0 <= i < |fl| && fl[i].at == h.owner[u] && h.owner[u] <= u < fl[i].End();
      assert fl[i] in bs;
      assert In(bs, u);
    }
  }

  /** Conservation: the sizes of the free and the given blocks add up to the units obtained from sbrk. */
  lemma UnitsAddUp(fl: seq<Blk>, h: Heap, base: int, bs: seq<Blk>)
    requires FreeList(fl, base) && Partition(fl, h, base) && Lists(bs, fl, h)
    ensures Total(bs) == |h.owner|
  {
    ListedTiles(fl, h, base, bs);
    CoveredSize(h.owner, bs);
    forall u | u in h.owner ensures u in Covered(h.owner, bs) {
      CoveredUnit(fl, h, base, bs, u);
    }
    assert Covered(h.owner, bs) == h.owner.Keys;
  }

  lemma {:induction false} TotalOfBoth(a: seq<Blk>, b: seq<Blk>)
    ensures Total(a + b) == Total(a) + Total(b)
  {
    if b == [] {
      assert a + b == a;
    } else {
      TotalOfBoth(a, b[..|b| - 1]);
      assert (a + b)[..|a + b| - 1] == a + b[..|b| - 1];
    }
  }

  /** gs lists the blocks given out, each once. */
  ghost predicate ListsGiven(gs: seq<Blk>, given: map<int, int>) {
    && (forall i, j :: 0 <= i < j < |gs| ==> gs[i].at != gs[j].at)
    && (forall i :: 0 <= i < |gs| ==> gs[i].at in given && given[gs[i].at] == gs[i].size)
    && (forall a :: a in given ==> Blk(a, given[a]) in gs)
  }

  lemma {:induction false} GivenListing(given: map<int, int>) returns (gs: seq<Blk>)
    ensures ListsGiven(gs, given)
    decreases |given|
  {
    gs := [];
    if |given.Keys| > 0 {
      var a := Pick(given.Keys);
      var rest := GivenListing(given - {a});
      gs := rest + [Blk(a, given[a])];
      forall x | x in given ensures Blk(x, given[x]) in gs {
        assert x != a ==> x in given - {a} && Blk(x, given[x]) in rest;
      }
    }
  }

  /** The free list and the blocks given out make up all blocks. */
  lemma AllBlocks(fl: seq<Blk>, h: Heap, base: int, gs: seq<Blk>)
    requires FreeList(fl, base) && Partition(fl, h, base) && ListsGiven(gs, h.given)
    ensures Lists(fl + gs, fl, h)
  {
    var bs := fl + gs;
    forall i, j | 0 <= i < j < |bs| ensures bs[i].at != bs[j].at {
      if j < |fl| {
        assert fl[i].End() < fl[j].at;
      }
    }
  }

  // --- Taking a block from the list ---

  lemma WithoutFreeList(fl: seq<Blk>, base: int, k: int)
    requires FreeList(fl, base) && 0 <= k < |fl| && fl[k].size > 0
    ensures FreeList(fl[..k] + fl[k + 1..], base)
  {
    var r := fl[..k] + fl[k + 1..];
    forall i | 0 <= i < |r| ensures r[i] == fl[if i < k then i else i + 1] {
    }
    var z :| 0 <= z < |fl| && fl[z] == Blk(base, 0);
    assert r[if z < k then z else z - 1] == fl[z];
  }

  /** The heap after malloc's exact fit hands out block b. */
  function Gave(h: Heap, b: Blk): Heap {
    Heap(h.given[b.at := b.size], h.owner)
  }

  lemma TakeWholeUnit(fl: seq<Blk>, h: Heap, base: int, k: int, u: int)
    requires Partition(fl, h, base) && 0 <= k < |fl| && u in h.owner
    ensures Owned(fl[..k] + fl[k + 1..], Gave(h, fl[k]), u)
  {
    var r := fl[..k] + fl[k + 1..];
    if h.owner[u] !in h.given {
      var i :| 0 <= i < |fl| && fl[i].at == h.owner[u] && h.owner[u] <= u < fl[i].End();
      if i != k {
        assert r[if i < k then i else i - 1] == fl[i];
      }
    } else {
      assert h.owner[u] != fl[k].at;
    }
  }

  /** malloc's exact fit: block k leaves the list. */
  lemma TakeWhole(fl: seq<Blk>, h: Heap, base: int, k: int)
    requires FreeList(fl, base) && Partition(fl, h, base) && 0 <= k < |fl| && fl[k].size > 0
    ensures Partition(fl[..k] + fl[k + 1..], Gave(h, fl[k]), base)
  {
    var r, g := fl[..k] + fl[k + 1..], Gave(h, fl[k]);
    forall i | 0 <= i < |r| ensures Tile(g.owner, r[i].at, r[i].size) && r[i].at !in g.given {
      var m := if i < k then i else i + 1;
      assert r[i] == fl[m] && fl[m].at != fl[k].at;
    }
    forall u | u in g.owner ensures Owned(r, g, u) {
      TakeWholeUnit(fl, h, base, k, u);
    }
  }

  /** The heap after malloc's split hands out the last n units of block b. */
  ghost function GaveTail(h: Heap, b: Blk, n: int): Heap {
    Heap(h.given[b.End() - n := n], Claim(h.owner, b.End() - n, b.End(), b.End() - n))
  }

  ghost function Shrunk(fl: seq<Blk>, k: int, n: int): seq<Blk>
    requires 0 <= k < |fl|
  {
    fl[k := Blk(fl[k].at, fl[k].size - n)]
  }

  lemma ShrunkFreeList(fl: seq<Blk>, base: int, k: int, n: int)
    requires FreeList(fl, base) && 0 <= k < |fl| && 0 < n < fl[k].size
    ensures FreeList(Shrunk(fl, k, n), base)
  {
    var r := Shrunk(fl, k, n);
    forall i | 0 <= i < |r| ensures r[i].at == fl[i].at && r[i].End() <= fl[i].End() {
    }
    var z :| 0 <= z < |fl| && fl[z] == Blk(base, 0);
    assert r[z] == fl[z];
  }

  lemma TakeTailUnit(fl: seq<Blk>, h: Heap, base: int, k: int, n: int, u: int)
    requires Partition(fl, h, base) && 0 <= k < |fl| && 0 < n < fl[k].size && u in h.owner
    ensures Owned(Shrunk(fl, k, n), GaveTail(h, fl[k], n), u)
  {
    var r, q := Shrunk(fl, k, n), fl[k].End() - n;
    assert h.owner[q] == fl[k].at;
    if !(q <= u < fl[k].End()) && h.owner[u] !in h.given {
      var i :| 0 <= i < |fl| && fl[i].at == h.owner[u] && h.owner[u] <= u < fl[i].End();
      assert r[i].at == fl[i].at && u < r[i].End();
    }
  }

  lemma TakeTailFree(fl: seq<Blk>, h: Heap, base: int, k: int, n: int, i: int)
    requires FreeList(fl, base) && Partition(fl, h, base) && 0 <= k < |fl| && 0 < n < fl[k].size && 0 <= i < |fl|
    ensures
      var r, g := Shrunk(fl, k, n), GaveTail(h, fl[k], n);
      Tile(g.owner, r[i].at, r[i].size) && r[i].at !in g.given
  {
    assert Shrunk(fl, k, n)[i].at == fl[i].at;
    assert i != k ==> fl[i].End() < fl[k].at || fl[k].End() < fl[i].at;
    assert fl[i].at !in h.given && fl[i].at != fl[k].End() - n;
    assert Tile(h.owner, fl[i].at, fl[i].size);
  }

  lemma TakeTailGiven(fl: seq<Blk>, h: Heap, base: int, k: int, n: int, x: int)
    requires Partition(fl, h, base) && 0 <= k < |fl| && 0 < n < fl[k].size && x in h.given
    ensures Tile(GaveTail(h, fl[k], n).owner, x, h.given[x]) && x != fl[k].End() - n
  {
    assert h.owner[fl[k].End() - n] == fl[k].at && fl[k].at !in h.given;
    assert x in h.owner && h.owner[x] == x;
    forall u | x <= u < x + h.given[x] ensures u in h.owner && h.owner[u] == x {
    }
  }

  lemma TakeTailGivens(fl: seq<Blk>, h: Heap, base: int, k: int, n: int)
    requires Partition(fl, h, base) && 0 <= k < |fl| && 0 < n < fl[k].size
    ensures fl[k].End() - n !in h.given
    ensures var g := GaveTail(h, fl[k], n); forall x :: x in g.given ==> g.given[x] > 0 && Tile(g.owner, x, g.given[x])
  {
    var g := GaveTail(h, fl[k], n);
    forall x | x in h.given ensures Tile(g.owner, x, h.given[x]) && x != fl[k].End() - n {
      TakeTailGiven(fl, h, base, k, n, x);
    }
  }

  /** malloc's split: the upper n units of block k are given out. */
  lemma TakeTail(fl: seq<Blk>, h: Heap, base: int, k: int, n: int)
    requires FreeList(fl, base) && Partition(fl, h, base) && 0 <= k < |fl| && 0 < n < fl[k].size
    ensures Partition(Shrunk(fl, k, n), GaveTail(h, fl[k], n), base)
    ensures fl[k].End() - n !in h.given && GaveTail(h, fl[k], n).owner.Keys == h.owner.Keys
  {
    var r, g, q := Shrunk(fl, k, n), GaveTail(h, fl[k], n), fl[k].End() - n;
    TakeTailGivens(fl, h, base, k, n);
    forall i | 0 <= i < |r| ensures Tile(g.owner, r[i].at, r[i].size) && r[i].at !in g.given {
      TakeTailFree(fl, h, base, k, n, i);
    }
    forall u | u in g.owner ensures Owned(r, g, u) {
      TakeTailUnit(fl, h, base, k, n, u);
    }
  }

  // --- New memory ---

  predicate Within(u: int, p: int, n: int) { p <= u < p + n }

  /** What sbrk promises of the n units at p: they are new, and the base node is not among or just above them. */
  ghost predicate Fresh(h: Heap, base: int, p: int, n: int) {
    n > 0 && forall u :: p <= u < p + n ==> u !in h.owner && u != base && u + 1 != base
  }

  function Region<T>(p: int, n: int, x: T): map<int, T> {
    map u | p <= u < p + n && Within(u, p, n) :: x
  }

  /** A fresh region from sbrk is a block of its own. */
  lemma Grow(fl: seq<Blk>, h: Heap, base: int, p: int, n: int)
    requires FreeList(fl, base) && Partition(fl, h, base) && Fresh(h, base, p, n)
    ensures p !in h.given && Partition(fl, Heap(h.given[p := n], h.owner + Region(p, n, p)), base)
  {
    var g := Heap(h.given[p := n], h.owner + Region(p, n, p));
    forall a | a in h.given ensures a != p && Tile(g.owner, a, h.given[a]) {
      assert a in h.owner;
    }
    forall i | 0 <= i < |fl| ensures Tile(g.owner, fl[i].at, fl[i].size) && fl[i].at !in g.given {
      assert fl[i].size > 0 ==> fl[i].at in h.owner;
      assert p in Region(p, n, p);
    }
    forall u | u in g.owner ensures Owned(fl, g, u) {
      if u in h.owner {
        assert g.owner[u] == h.owner[u];
      }
    }
  }

  // --- The links after malloc ---

  lemma UnlinkAt(cell: map<int, Header>, fl: seq<Blk>, k: int, i: int)
    requires Apart(fl) && Chained(cell, fl) && 0 <= k < |fl| && |fl| > 1
    requires LinkedAt(cell, fl, k) && LinkedAt(cell, fl, Pred(fl, k))
    requires forall i :: 0 <= i < |fl| ==> fl[i].size >= 0
    requires 0 <= i < |fl| - 1
    ensures LinkedAt(cell[fl[Pred(fl, k)].at := Header(cell[fl[k].at].ptr, fl[Pred(fl, k)].size)],
      fl[..k] + fl[k + 1..], i)
  {
    var r, p := fl[..k] + fl[k + 1..], Pred(fl, k);
    var m, t := if i < k then i else i + 1, Succ(r, i);
    assert r[i] == fl[m] && LinkedAt(cell, fl, m);
    assert m != p ==> fl[m].at != fl[p].at;
    assert r[t] == fl[if t < k then t else t + 1];
  }

  /** malloc's exact fit: the predecessor is linked past block k. */
  lemma UnlinkChained(cell: map<int, Header>, fl: seq<Blk>, k: int)
    requires Apart(fl) && Chained(cell, fl) && 0 <= k < |fl| && |fl| > 1
    requires forall i :: 0 <= i < |fl| ==> fl[i].size >= 0
    ensures LinkedAt(cell, fl, k) && LinkedAt(cell, fl, Pred(fl, k))
    ensures Chained(cell[fl[Pred(fl, k)].at := Header(cell[fl[k].at].ptr, fl[Pred(fl, k)].size)], fl[..k] + fl[k + 1..])
  {
    assert LinkedAt(cell, fl, k) && LinkedAt(cell, fl, Pred(fl, k));
    var r, c := fl[..k] + fl[k + 1..], cell[fl[Pred(fl, k)].at := Header(cell[fl[k].at].ptr, fl[Pred(fl, k)].size)];
    forall i | 0 <= i < |r| ensures LinkedAt(c, r, i) {
      UnlinkAt(cell, fl, k, i);
    }
  }

  /** malloc's split: the sizes of the two halves are written. */
  lemma SplitChained(cell: map<int, Header>, fl: seq<Blk>, k: int, n: int)
    requires Apart(fl) && Chained(cell, fl) && 0 <= k < |fl| && 0 < n < fl[k].size && fl[k].End() - n in cell
    requires forall i :: 0 <= i < |fl| ==> fl[i].size >= 0
    ensures LinkedAt(cell, fl, k)
    ensures
      var q := fl[k].End() - n;
      Chained(cell[fl[k].at := Header(cell[fl[k].at].ptr, fl[k].size - n)][q := Header(cell[q].ptr, n)],
        Shrunk(fl, k, n))
  {
    assert LinkedAt(cell, fl, k);
    var q, r := fl[k].End() - n, Shrunk(fl, k, n);
    var c := cell[fl[k].at := Header(cell[fl[k].at].ptr, fl[k].size - n)][q := Header(cell[q].ptr, n)];
    forall i | 0 <= i < |r| ensures LinkedAt(c, r, i) {
      assert LinkedAt(cell, fl, i);
      assert r[i].at == fl[i].at && r[Succ(r, i)].at == fl[Succ(fl, i)].at;
      assert i != k ==> fl[i].End() < fl[k].at || fl[k].End() < fl[i].at;
    }
  }

  const HEADER_SIZE := 16
  const MIN_UNITS := 4096

  /** Units for a request: the payload rounded up, and the header. */
  function Units(nbytes: nat): (n: nat)
    ensures n > 0 && (n - 1) * HEADER_SIZE >= nbytes && (n - 2) * HEADER_SIZE < nbytes
  {
    (nbytes + HEADER_SIZE - 1) / HEADER_SIZE + 1
  }

  function CoreUnits(n: nat): nat {
    if n < MIN_UNITS then MIN_UNITS else n
  }

  // --- The whole state ---

  /** Memory holds exactly the list and the headers of the blocks given out. */
  ghost predicate Sound(cell: map<int, Header>, fl: seq<Blk>, h: Heap, base: int) {
    && FreeList(fl, base) && Chained(cell, fl) && Partition(fl, h, base)
    && cell.Keys == h.owner.Keys + {base}
    && forall a :: a in h.given ==> a in cell && cell[a].size == h.given[a]
  }

  /** The cells of blocks given out before and after, past their headers, belong to the user and are untouched. */
  ghost predicate PayloadKept(cell: map<int, Header>, cell': map<int, Header>, h: Heap, h': Heap) {
    forall k {:trigger Peek(k)} :: Peek(k) ==>
      forall a, u :: a in h.given && a in h'.given && a < u < a + h.given[a] && u in cell && u in cell' ==>
        cell'[u] == cell[u]
  }

  lemma PayloadKeptTwice(cell: map<int, Header>, cell': map<int, Header>, cell'': map<int, Header>, h: Heap,
                         h': Heap, h'': Heap)
    requires PayloadKept(cell, cell', h, h') && PayloadKept(cell', cell'', h', h'')
    requires cell.Keys <= cell'.Keys && h.given == h'.given
    ensures PayloadKept(cell, cell'', h, h'')
  {
    assert Peek(0);
  }

  /** The only cells free() writes are the header of the freed block and that of the block before it. */
  lemma FreeKeepsGiven(cell: map<int, Header>, fl: seq<Blk>, h: Heap, base: int, a: int, j: int)
    requires Sound(cell, fl, h, base) && a in h.given && Ready(cell, fl, base, Blk(a, h.given[a]), j)
    ensures
      var cell', h' := After(cell, fl, base, Blk(a, h.given[a]), j), Released(fl, h, a, j);
      && (forall x :: x in h'.given ==> x in cell' && cell'[x].size == h'.given[x])
      && PayloadKept(cell, cell', h, h')
  {
    AfterCells(cell, fl, base, Blk(a, h.given[a]), j);
    var g := Pred(fl, j);
    forall x, u | x in h.given && x != a && x <= u < x + h.given[x]
      ensures u in h.owner && h.owner[u] == x && u != a && u != fl[g].at
    {
      assert u in h.owner && h.owner[u] == x;
      assert fl[g].size > 0 ==> h.owner[fl[g].at] == fl[g].at;
    }
    forall x | x in h.given && x != a ensures x in cell && x != a && x != fl[g].at {
      assert x in h.owner && h.owner[x] == x;
    }
  }

  /** free() keeps the state sound; the joined list holds a block around the freed one. */
  lemma FreeSound(cell: map<int, Header>, fl: seq<Blk>, h: Heap, base: int, a: int, j: int)
    requires Sound(cell, fl, h, base) && a in h.given && Fits(fl, a, j)
    ensures Ready(cell, fl, base, Blk(a, h.given[a]), j)
    ensures
      var b := Blk(a, h.given[a]);
      Sound(After(cell, fl, base, b, j), Insert(fl, b, j), Released(fl, h, a, j), base)
    ensures Released(fl, h, a, j).owner.Keys == h.owner.Keys
  {
    var b := Blk(a, h.given[a]);
    GivenClear(fl, h, base, a);
    assert LinkedAt(cell, fl, Pred(fl, j)) && LinkedAt(cell, fl, Succ(fl, Pred(fl, j)));
    InsertApart(fl, base, b, j);
    AfterChained(cell, fl, base, b, j);
    AfterCells(cell, fl, base, b, j);
    ReleasedPartition(fl, h, base, a, j);
    FreeKeepsGiven(cell, fl, h, base, a, j);
  }

  /** The place of the block that free() leaves in freep. */
  ghost function FreepAt(fl: seq<Blk>, b: Blk, j: int): int
    requires 0 <= j <= |fl|
  {
    if j > 0 then j - 1 else |Insert(fl, b, j)| - 1
  }

  lemma FreepStays(fl: seq<Blk>, base: int, b: Blk, j: int)
    requires FreeList(fl, base) && Clear(fl, base, b) && Fits(fl, b.at, j)
    ensures 0 <= FreepAt(fl, b, j) < |Insert(fl, b, j)| && |fl| > 0
    ensures Insert(fl, b, j)[FreepAt(fl, b, j)].at == fl[Pred(fl, j)].at
  {
    var z :| 0 <= z < |fl| && fl[z] == Blk(base, 0);
    if j > 0 {
      InsertPlaces(fl, b, j);
      assert Insert(fl, b, j)[j - 1].at == fl[j - 1].at;
    } else {
      LinkTests(fl, base, b, j);
      assert JoinsUp(fl, b, 0) ==> z > 0;
      InsertFirst(fl, b);
    }
  }

  /** A block put first leaves the last one last. */
  lemma InsertFirst(fl: seq<Blk>, b: Blk)
    requires |fl| > (if JoinsUp(fl, b, 0) then 1 else 0)
    ensures var r := Insert(fl, b, 0); |r| > 0 && r[|r| - 1] == fl[|fl| - 1]
  {
  }

  lemma JoinedIsLarger(fl: seq<Blk>, base: int, b: Blk, j: int)
    requires FreeList(fl, base) && 0 <= j <= |fl|
    ensures exists i :: 0 <= i < |Insert(fl, b, j)| && Insert(fl, b, j)[i].size >= b.size
  {
    assert Insert(fl, b, j)[|Below(fl, b, j)|] == Joined(fl, b, j);
  }

  /** No unit is at address zero or below. */
  ghost predicate Positive(h: Heap) {
    forall u :: u in h.owner ==> u > 0
  }

  ghost predicate State(cell: map<int, Header>, fl: seq<Blk>, at: int, h: Heap, base: int, freep: int) {
    && 0 <= at < |fl| && fl[at].at == freep && cell.Keys == h.owner.Keys + {base}
    && forall k {:trigger Look(k)} :: Look(k) ==> Sound(cell, fl, h, base)
  }

  /** The cells past a given block's header belong to whoever was given the block. */
  lemma StoreState(cell: map<int, Header>, fl: seq<Blk>, at: int, h: Heap, base: int, freep: int, a: int, u: int,
                   v: Header)
    requires State(cell, fl, at, h, base, freep) && a in h.given && a < u < a + h.given[a]
    ensures State(cell[u := v], fl, at, h, base, freep)
  {
    assert Look(0);
    assert u in h.owner && h.owner[u] == a;
    var c := cell[u := v];
    forall i | 0 <= i < |fl| ensures LinkedAt(c, fl, i) {
      assert LinkedAt(cell, fl, i);
      assert fl[i].size > 0 ==> h.owner[fl[i].at] == fl[i].at;
    }
    forall x | x in h.given ensures x in h.owner && h.owner[x] == x {
    }
  }

  /** One call of free() on values. */
  lemma FreeStep(cell: map<int, Header>, fl: seq<Blk>, at: int, h: Heap, base: int, freep: int, a: int) returns (j: int)
    requires State(cell, fl, at, h, base, freep) && a in h.given
    ensures Fits(fl, a, j) && |fl| > 0
    ensures
      var p, b, h' := fl[Pred(fl, j)].at, Blk(a, h.given[a]), Released(fl, h, a, j);
      && p in cell && a in cell && cell[p].ptr in cell
      && State(Link(cell, p, a), Insert(fl, b, j), FreepAt(fl, b, j), h', base, p)
      && h'.owner.Keys == h.owner.Keys && PayloadKept(cell, Link(cell, p, a), h, h')
      && exists i :: 0 <= i < |Insert(fl, b, j)| && Insert(fl, b, j)[i].size >= b.size
    ensures Positive(h) && base > 0 ==> fl[Pred(fl, j)].at > 0
  {
    assert Look(0);
    GivenClear(fl, h, base, a);
    j := FitsSomewhere(fl, base, a);
    FreeSound(cell, fl, h, base, a, j);
    FreeKeepsGiven(cell, fl, h, base, a, j);
    FreepStays(fl, base, Blk(a, h.given[a]), j);
    JoinedIsLarger(fl, base, Blk(a, h.given[a]), j);
    assert LinkedAt(cell, fl, Pred(fl, j));
  }

  // --- malloc on values ---

  /** The memory after malloc's exact fit of block k. */
  ghost function WholeCell(cell: map<int, Header>, fl: seq<Blk>, k: int): map<int, Header>
    requires 0 <= k < |fl| && fl[k].at in cell && fl[Pred(fl, k)].at in cell
  {
    var prev := fl[Pred(fl, k)].at;
    cell[prev := Header(cell[fl[k].at].ptr, cell[prev].size)]
  }

  /** The memory after malloc's split of block k. */
  ghost function TailCell(cell: map<int, Header>, fl: seq<Blk>, k: int, n: int): map<int, Header>
    requires 0 <= k < |fl| && fl[k].at in cell && fl[k].End() - n in cell
  {
    var q := fl[k].End() - n;
    cell[fl[k].at := Header(cell[fl[k].at].ptr, fl[k].size - n)][q := Header(cell[q].ptr, n)]
  }

  /** A cell that no given block contains may be written. */
  lemma FreeCell(fl: seq<Blk>, h: Heap, base: int, k: int, v: int)
    requires FreeList(fl, base) && Partition(fl, h, base) && 0 <= k < |fl|
    requires v == fl[k].at || fl[k].at <= v < fl[k].End()
    ensures forall a, u :: a in h.given && a <= u < a + h.given[a] && u in h.owner ==> u != v
  {
    assert v in h.owner ==> fl[k].size > 0;
    forall a, u | a in h.given && a <= u < a + h.given[a] && u in h.owner ensures u != v {
      assert h.owner[u] == a;
      assert fl[k].at <= v < fl[k].End() ==> h.owner[v] == fl[k].at;
    }
  }

  lemma TwoBlocks(fl: seq<Blk>, base: int, k: int)
    requires FreeList(fl, base) && 0 <= k < |fl| && fl[k].size > 0
    ensures |fl| > 1 && fl[k].at != base
  {
    var z :| 0 <= z < |fl| && fl[z] == Blk(base, 0);
    assert z != k;
  }

  lemma WholeKeeps(cell: map<int, Header>, fl: seq<Blk>, h: Heap, base: int, k: int)
    requires Sound(cell, fl, h, base) && 0 <= k < |fl| && fl[k].size > 0
    requires LinkedAt(cell, fl, k) && LinkedAt(cell, fl, Pred(fl, k))
    ensures
      var c, g := WholeCell(cell, fl, k), Gave(h, fl[k]);
      PayloadKept(cell, c, h, g) && forall a :: a in g.given ==> a in c && c[a].size == g.given[a]
  {
    TwoBlocks(fl, base, k);
    FreeCell(fl, h, base, Pred(fl, k), fl[Pred(fl, k)].at);
    forall a | a in h.given ensures a in h.owner && a != fl[Pred(fl, k)].at {
      assert a in h.owner;
    }
    assert fl[k].at != fl[Pred(fl, k)].at;
  }

  lemma WholeStep(cell: map<int, Header>, fl: seq<Blk>, at: int, h: Heap, base: int, freep: int, k: int)
    requires State(cell, fl, at, h, base, freep) && 0 <= k < |fl| && fl[k].size > 0
    ensures |fl| > 1 && LinkedAt(cell, fl, k) && LinkedAt(cell, fl, Pred(fl, k)) && fl[k].at !in h.given &&
      fl[k].at in h.owner
    ensures State(WholeCell(cell, fl, k), fl[..k] + fl[k + 1..], if k > 0 then k - 1
      else |fl| - 2, Gave(h, fl[k]), base, fl[Pred(fl, k)].at)
    ensures PayloadKept(cell, WholeCell(cell, fl, k), h, Gave(h, fl[k]))
  {
    assert Look(0);
    TwoBlocks(fl, base, k);
    UnlinkChained(cell, fl, k);
    WithoutFreeList(fl, base, k);
    TakeWhole(fl, h, base, k);
    WholeKeeps(cell, fl, h, base, k);
    assert fl[k].at in h.owner;
    WithoutAt(fl, k);
    assert Sound(WholeCell(cell, fl, k), fl[..k] + fl[k + 1..], Gave(h, fl[k]), base);
  }

  lemma WithoutAt(fl: seq<Blk>, k: int)
    requires 0 <= k < |fl| && |fl| > 1
    ensures
      var r, p := fl[..k] + fl[k + 1..], if k > 0 then k - 1 else |fl| - 2;
      |r| == |fl| - 1 && 0 <= p < |r| && r[p] == fl[Pred(fl, k)]
  {
  }

  lemma TailKeeps(cell: map<int, Header>, fl: seq<Blk>, h: Heap, base: int, k: int, n: int)
    requires Sound(cell, fl, h, base) && 0 <= k < |fl| && 0 < n < fl[k].size
    requires LinkedAt(cell, fl, k) && fl[k].End() - n in cell && fl[k].End() - n !in h.given
    ensures
      var c, g := TailCell(cell, fl, k, n), GaveTail(h, fl[k], n);
      PayloadKept(cell, c, h, g) && forall a :: a in g.given ==> a in c && c[a].size == g.given[a]
  {
    FreeCell(fl, h, base, k, fl[k].at);
    FreeCell(fl, h, base, k, fl[k].End() - n);
    var c, g, q := TailCell(cell, fl, k, n), GaveTail(h, fl[k], n), fl[k].End() - n;
    forall a | a in g.given ensures a in c && c[a].size == g.given[a] {
      if a != q {
        assert Tile(h.owner, a, h.given[a]) && a in h.owner;
      }
    }
    forall a, u | a in h.given && a in g.given && a < u < a + h.given[a] && u in cell && u in c
      ensures c[u] == cell[u]
    {
      assert Tile(h.owner, a, h.given[a]) && u in h.owner;
    }
  }

  lemma TailStep(cell: map<int, Header>, fl: seq<Blk>, at: int, h: Heap, base: int, freep: int, k: int, n: int)
    requires State(cell, fl, at, h, base, freep) && 0 <= k < |fl| && 0 < n < fl[k].size
    ensures LinkedAt(cell, fl, k) && fl[Pred(fl, k)].at in cell
    ensures fl[k].End() - n in cell && fl[k].End() - n !in h.given && fl[k].End() - n in h.owner
    ensures State(TailCell(cell, fl, k, n), Shrunk(fl, k, n), Pred(fl, k), GaveTail(h, fl[k], n), base,
      fl[Pred(fl, k)].at)
    ensures PayloadKept(cell, TailCell(cell, fl, k, n), h, GaveTail(h, fl[k], n))
    ensures GaveTail(h, fl[k], n).owner.Keys == h.owner.Keys
  {
    assert Look(0);
    assert Tile(h.owner, fl[k].at, fl[k].size);
    assert fl[k].End() - n in h.owner;
    assert LinkedAt(cell, fl, Pred(fl, k));
    SplitChained(cell, fl, k, n);
    ShrunkFreeList(fl, base, k, n);
    TakeTail(fl, h, base, k, n);
    TailKeeps(cell, fl, h, base, k, n);
    assert Sound(TailCell(cell, fl, k, n), Shrunk(fl, k, n), GaveTail(h, fl[k], n), base);
  }

  /** The list that malloc sets up on its first call: the base node alone. */
  lemma InitialState(base: int)
    ensures State(map[base := Header(base, 0)], [Blk(base, 0)], 0, Heap(map[], map[]), base, base)
  {
    assert [Blk(base, 0)][0] == Blk(base, 0);
  }

  /** What the header of a block on the list says, and that addresses name places. */
  lemma Follow(cell: map<int, Header>, fl: seq<Blk>, at: int, h: Heap, base: int, freep: int, k: int)
    requires State(cell, fl, at, h, base, freep) && 0 <= k < |fl|
    ensures LinkedAt(cell, fl, k) && fl[Succ(fl, k)].at in cell
    ensures fl[k].at == freep ==> k == at
  {
    assert Look(0);
    assert LinkedAt(cell, fl, Succ(fl, k)) && LinkedAt(cell, fl, k);
    assert k != at ==> fl[k].at != fl[at].at;
  }

  /** The place m steps after place i on a cycle of n. */
  function Rot(i: int, m: int, n: int): int {
    if i + m < n then i + m else i + m - n
  }

  /** The first c blocks after freep are too small. */
  ghost predicate TooSmall(fl: seq<Blk>, at: int, c: int, n: int)
    requires 0 <= at < |fl| && 0 <= c <= |fl|
  {
    forall m {:trigger Rot(at, m, |fl|)} :: 1 <= m <= c ==> fl[Rot(at, m, |fl|)].size < n
  }

  ghost predicate HasRoom(fl: seq<Blk>, n: int) {
    exists i :: 0 <= i < |fl| && fl[i].size >= n
  }

  /** A search that has come round has seen every block. */
  lemma CameRound(fl: seq<Blk>, at: int, n: int)
    requires 0 <= at < |fl| && TooSmall(fl, at, |fl|, n)
    ensures !HasRoom(fl, n)
  {
    forall i | 0 <= i < |fl| ensures fl[i].size < n {
      var m := if i > at then i - at else i - at + |fl|;
      assert Rot(at, m, |fl|) == i;
    }
  }

  /** The memory and the heap after sbrk returned n zeroed units at p and the first was made a header. */
  function GrownCell(cell: map<int, Header>, p: int, n: int): map<int, Header> {
    (cell + Region(p, n, Header(0, 0)))[p := Header(0, n)]
  }

  function GrownHeap(h: Heap, p: int, n: int): Heap {
    Heap(h.given[p := n], h.owner + Region(p, n, p))
  }

  lemma GrowState(cell: map<int, Header>, fl: seq<Blk>, at: int, h: Heap, base: int, freep: int, p: int, n: int)
    requires State(cell, fl, at, h, base, freep) && Fresh(h, base, p, n)
    ensures State(GrownCell(cell, p, n), fl, at, GrownHeap(h, p, n), base, freep)
    ensures p !in h.given && forall u :: u in cell ==> u in GrownCell(cell, p, n) && GrownCell(cell, p, n)[u] == cell[u]
  {
    assert Look(0);
    Grow(fl, h, base, p, n);
    GrowCells(cell, h, base, p, n);
    var c := GrownCell(cell, p, n);
    forall i | 0 <= i < |fl| ensures LinkedAt(c, fl, i) {
      assert LinkedAt(cell, fl, i);
    }
    assert Sound(c, fl, GrownHeap(h, p, n), base);
  }

  lemma GrowCells(cell: map<int, Header>, h: Heap, base: int, p: int, n: int)
    requires cell.Keys == h.owner.Keys + {base} && Fresh(h, base, p, n)
    ensures
      var c := GrownCell(cell, p, n);
      && c.Keys == GrownHeap(h, p, n).owner.Keys + {base} && c[p].size == n && p !in cell
      && forall u :: u in cell ==> u in c && c[u] == cell[u]
  {
    assert p in Region(p, n, Header(0, 0)) && p !in h.owner && p != base;
    assert Region(p, n, p).Keys == Region(p, n, Header(0, 0)).Keys;
  }

  class Allocator {
    const base: int
    var freep: int
    var mem: Memory
    ghost var free: seq<Blk>
    ghost var at: int
    ghost var heap: Heap

    ghost predicate Valid()
      reads this
    {
      && base > 0 && Positive(heap)
      && if freep == 0 then free == [] && heap == Heap(map[], map[]) && mem.cell.Keys == {base}
         else State(mem.cell, free, at, heap, base, freep)
    }

    constructor (base: int)
      requires base > 0
      ensures Valid() && this.base == base && freep == 0 && heap == Heap(map[], map[])
    {
      this.base, freep := base, 0;
      mem := Memory(map[base := Header(0, 0)]);
      free, at, heap := [], 0, Heap(map[], map[]);
    }

    /** Conservation: the units on the free list and those given out are the units obtained from sbrk. */
    lemma Conserves() returns (gs: seq<Blk>)
      requires Valid()
      ensures ListsGiven(gs, heap.given) && Total(free) + Total(gs) == |heap.owner|
    {
      gs := GivenListing(heap.given);
      if freep != 0 {
        assert Look(0);
        AllBlocks(free, heap, base, gs);
        UnitsAddUp(free, heap, base, free + gs);
        TotalOfBoth(free, gs);
      }
    }

    /** A program writes a cell of a block that it was given. */
    method Store(a: int, u: int, v: Header)
      requires Valid() && a in heap.given && a < u < a + heap.given[a]
      modifies this`mem
      ensures Valid() && mem == Memory(old(mem.cell)[u := v])
    {
      StoreState(mem.cell, free, at, heap, base, freep, a, u, v);
      mem := Memory(mem.cell[u := v]);
    }

    /** The search of free(): the place after which the block at bp belongs. */
    method FindPlace(bp: int, ghost j: int) returns (p: int)
      requires State(mem.cell, free, at, heap, base, freep) && Fits(free, bp, j)
      ensures p == free[Pred(free, j)].at
    {
      assert Look(0);
      p := freep;
      ghost var k, goal := at, Pred(free, j);
      assert LinkedAt(mem.cell, free, k);
      while !(bp > p && bp < mem.cell[p].ptr)
        invariant 0 <= k < |free| && p == free[k].at && LinkedAt(mem.cell, free, k)
        decreases if k <= goal then goal - k else goal + |free| - k
      {
        if p >= mem.cell[p].ptr && (bp > p || bp < mem.cell[p].ptr) {
          break;
        }
        assert k != goal;
        assert LinkedAt(mem.cell, free, Succ(free, k));
        p, k := mem.cell[p].ptr, Succ(free, k);
      }
    }

    /** The pointer updates of free(). */
    method Splice(p: int, bp: int)
      requires p in mem.cell && bp in mem.cell && mem.cell[p].ptr in mem.cell
      modifies this`mem
      ensures mem == Memory(Link(old(mem.cell), p, bp))
    {
      var cell := mem.cell;
      var next := cell[p].ptr;
      if bp + cell[bp].size == next {
        cell := cell[bp := Header(cell[next].ptr, cell[bp].size + cell[next].size)];
      } else {
        cell := cell[bp := Header(next, cell[bp].size)];
      }
      if p + cell[p].size == bp {
        cell := cell[p := Header(cell[bp].ptr, cell[p].size + cell[bp].size)];
      } else {
        cell := cell[p := Header(bp, cell[p].size)];
      }
      mem := Memory(cell);
    }

    /** Give the block whose payload starts at ap back; it joins the free blocks it touches. */
    method Free(ap: int)
      requires Valid() && ap - 1 in heap.given
      modifies this`freep, this`mem, this`free, this`at, this`heap
      ensures Valid() && freep != 0
      ensures heap.given == old(heap.given) - {ap - 1} && heap.owner.Keys == old(heap.owner.Keys)
      ensures PayloadKept(old(mem.cell), mem.cell, old(heap), heap)
      ensures exists i :: 0 <= i < |free| && free[i].size >= old(heap.given[ap - 1])
    {
      var bp := ap - 1;
      ghost var b := Blk(bp, heap.given[bp]);
      ghost var j := FreeStep(mem.cell, free, at, heap, base, freep, bp);
      var p := FindPlace(bp, j);
      Splice(p, bp);
      heap, free, at := Released(free, heap, bp, j), Insert(free, b, j), FreepAt(free, b, j);
      freep := p;
    }

    /** Ask for at least nu units; brk is what sbrk answers, -1 for failure. */
    method Morecore(nu: nat, brk: int) returns (p: int)
      requires Valid() && freep != 0
      requires brk != -1 ==> brk > 0 && Fresh(heap, base, brk, CoreUnits(nu))
      modifies this`freep, this`mem, this`free, this`at, this`heap
      ensures Valid() && freep != 0 && heap.given == old(heap.given)
      ensures p == 0 <==> brk == -1
      ensures brk == -1 ==>
        heap == old(heap) && free == old(free) && mem == old(mem) && freep == old(freep) && at == old(at)
      ensures brk != -1 ==> p == freep && HasRoom(free, nu)
      ensures brk != -1 ==> heap.owner.Keys == old(heap.owner.Keys) + Region(brk, CoreUnits(nu), brk).Keys
      ensures PayloadKept(old(mem.cell), mem.cell, old(heap), heap)
    {
      var n := CoreUnits(nu);
      if brk == -1 {
        return 0;
      }
      GrowState(mem.cell, free, at, heap, base, freep, brk, n);
      mem := Memory(GrownCell(mem.cell, brk, n));
      heap := GrownHeap(heap, brk, n);
      Free(brk + 1);
      assert heap.given == old(heap.given);
      assert Peek(0);
      return freep;
    }

    /** malloc's exact fit: unlink block k, which follows prevp. */
    method TakeAll(prevp: int, p: int, ghost k: int)
      requires Valid() && freep != 0 && 0 <= k < |free| && free[k].at == p && free[k].size > 0
      requires prevp == free[Pred(free, k)].at
      modifies this`freep, this`mem, this`free, this`at, this`heap
      ensures Valid() && freep == prevp && p in heap.owner
      ensures p !in old(heap.given) && heap == Gave(old(heap), old(free[k]))
      ensures PayloadKept(old(mem.cell), mem.cell, old(heap), heap)
    {
      WholeStep(mem.cell, free, at, heap, base, freep, k);
      mem := Memory(mem.cell[prevp := Header(mem.cell[p].ptr, mem.cell[prevp].size)]);
      heap, free, at := Gave(heap, free[k]), free[..k] + free[k + 1..], if k > 0 then k - 1 else |free| - 2;
      freep := prevp;
    }

    /** malloc's split: the tail of block k, which follows prevp, is cut off. */
    method TakePart(prevp: int, p: int, nunits: nat, ghost k: int) returns (q: int)
      requires Valid() && freep != 0 && 0 <= k < |free| && free[k].at == p && free[k].size > nunits > 0
      requires prevp == free[Pred(free, k)].at
      modifies this`freep, this`mem, this`free, this`at, this`heap
      ensures Valid() && freep == prevp && q in heap.owner
      ensures q !in old(heap.given) && heap.given == old(heap.given)[q := nunits] &&
        heap.owner.Keys == old(heap.owner.Keys)
      ensures PayloadKept(old(mem.cell), mem.cell, old(heap), heap)
    {
      TailStep(mem.cell, free, at, heap, base, freep, k, nunits);
      var cell := mem.cell[p := Header(mem.cell[p].ptr, mem.cell[p].size - nunits)];
      q := p + cell[p].size;
      assert q == free[k].End() - nunits;
      mem := Memory(cell[q := Header(cell[q].ptr, nunits)]);
      assert mem.cell == TailCell(old(mem.cell), free, k, nunits);
      heap, free, at := GaveTail(heap, free[k], nunits), Shrunk(free, k, nunits), Pred(free, k);
      freep := prevp;
    }

    /** malloc's first statement: the first call makes the base node the whole list. */
    method SetUp()
      requires Valid()
      modifies this`freep, this`mem, this`free, this`at
      ensures Valid() && freep != 0
      ensures old(freep) != 0 ==> free == old(free) && mem == old(mem)
      ensures old(mem.cell.Keys) == mem.cell.Keys && PayloadKept(old(mem.cell), mem.cell, heap, heap)
      ensures old(freep) == 0 ==> free == [Blk(base, 0)]
    {
      if freep == 0 {
        InitialState(base);
        mem := Memory(mem.cell[base := Header(base, 0)]);
        freep, free, at := base, [Blk(base, 0)], 0;
        assert mem.cell == map[base := Header(base, 0)];
      }
    }

    /** Exact fit or split of block k, which follows prevp. */
    method TakeFit(prevp: int, p: int, nunits: nat, ghost k: int) returns (q: int)
      requires Valid() && freep != 0 && 0 <= k < |free| && free[k].at == p && free[k].size >= nunits > 0
      requires prevp == free[Pred(free, k)].at
      modifies this`freep, this`mem, this`free, this`at, this`heap
      ensures Valid() && freep == prevp && q in heap.owner
      ensures q !in old(heap.given) && heap.given == old(heap.given)[q := nunits] &&
        heap.owner.Keys == old(heap.owner.Keys)
      ensures PayloadKept(old(mem.cell), mem.cell, old(heap), heap)
    {
      Follow(mem.cell, free, at, heap, base, freep, k);
      if mem.cell[p].size == nunits {
        TakeAll(prevp, p, k);
        q := p;
      } else {
        q := TakePart(prevp, p, nunits, k);
      }
    }

    /** malloc's search is at p, which follows prevp; the c blocks before it are too small. */
    ghost predicate Searching(prevp: int, p: int, c: int, nunits: nat)
      reads this
    {
      && Valid() && freep != 0 && 0 <= c < |free|
      && prevp == free[Rot(at, c, |free|)].at && p == free[Rot(at, c + 1, |free|)].at
      && TooSmall(free, at, c, nunits)
    }

    /** The search starts after freep. */
    lemma Begin(nunits: nat)
      requires Valid() && freep != 0
      ensures freep in mem.cell && Searching(freep, mem.cell[freep].ptr, 0, nunits)
    {
      Follow(mem.cell, free, at, heap, base, freep, at);
    }

    /** p is a block of the list, after prevp, and its header tells its size. */
    lemma Candidate(prevp: int, p: int, c: int, nunits: nat) returns (k: int)
      requires Searching(prevp, p, c, nunits)
      ensures 0 <= k < |free| && free[k].at == p && p in mem.cell && free[k].size == mem.cell[p].size &&
        prevp == free[Pred(free, k)].at
    {
      k := Rot(at, c + 1, |free|);
      Follow(mem.cell, free, at, heap, base, freep, k);
    }

    /** Past a block that is too small, the search goes on or has come round. */
    lemma Advance(prevp: int, p: int, c: int, nunits: nat)
      requires Searching(prevp, p, c, nunits) && p in mem.cell && mem.cell[p].size < nunits
      ensures if p == freep then TooSmall(free, at, |free|, nunits)
              else Searching(p, mem.cell[p].ptr, c + 1, nunits)
    {
      var k := Rot(at, c + 1, |free|);
      Follow(mem.cell, free, at, heap, base, freep, k);
    }

    /** Nothing has happened since malloc was called but, if asked, that memory was added. */
    ghost predicate Since(cell: map<int, Header>, h: Heap, fl: seq<Blk>, fp: int, asked: bool, nunits: nat, brk: int)
      reads this
    {
      && heap.given == h.given && PayloadKept(cell, mem.cell, h, heap) && cell.Keys <= mem.cell.Keys
      && if asked
         then brk != -1 && HasRoom(free, nunits) && !HasRoom(fl, nunits) &&
           heap.owner.Keys == h.owner.Keys + Region(brk, CoreUnits(nunits), brk).Keys
         else heap == h && (fp != 0 ==> free == fl)
    }

    /** TakeFit at the end of malloc's search. */
    method Grant(prevp: int, p: int, nunits: nat, ghost k: int, ghost cell: map<int, Header>, ghost h: Heap,
                 ghost fl: seq<Blk>, ghost fp: int, ghost asked: bool, ghost brk: int)
      returns (q: int)
      requires Valid() && freep != 0 && 0 <= k < |free| && free[k].at == p && free[k].size >= nunits > 0 &&
        prevp == free[Pred(free, k)].at
      requires Since(cell, h, fl, fp, asked, nunits, brk)
      modifies this`freep, this`mem, this`free, this`at, this`heap
      ensures Valid() && freep != 0 && q in heap.owner && PayloadKept(cell, mem.cell, h, heap)
      ensures q !in h.given && heap.given == h.given[q := nunits] && heap.owner.Keys == old(heap.owner.Keys)
    {
      ghost var c, g := mem.cell, heap;
      q := TakeFit(prevp, p, nunits, k);
      PayloadKeptTwice(cell, c, mem.cell, h, g, heap);
    }

    /** malloc's search has come round: every free block is too small, so morecore is asked, for the first time. */
    method Refill(nunits: nat, brk: int, ghost cell: map<int, Header>, ghost h: Heap, ghost fl: seq<Blk>,
                  ghost fp: int, ghost asked: bool)
      returns (p: int)
      requires Valid() && freep != 0 && TooSmall(free, at, |free|, nunits) && nunits > 0
      requires Since(cell, h, fl, fp, asked, nunits, brk) && (fp == 0 ==> !HasRoom(fl, nunits))
      requires brk != -1 ==> brk > 0 && Fresh(h, base, brk, CoreUnits(nunits))
      modifies this`freep, this`mem, this`free, this`at, this`heap
      ensures Valid() && freep != 0 && !asked && (p == 0 <==> brk == -1)
      ensures p == 0 ==> heap == h && !HasRoom(free, nunits) && PayloadKept(cell, mem.cell, h, heap)
      ensures p != 0 ==> p == freep && Since(cell, h, fl, fp, true, nunits, brk)
    {
      CameRound(free, at, nunits);
      ghost var c, g := mem.cell, heap;
      p := Morecore(nunits, brk);
      PayloadKeptTwice(cell, c, mem.cell, h, g, heap);
    }

    /**
      malloc.  brk is what sbrk answers if it is called, -1 for failure; the request must fit its int argument.
      The search visits no block twice before it asks for memory, and asks at most once.
    */
    method Malloc(nbytes: nat, brk: int) returns (r: int)
      requires Valid() && CoreUnits(Units(nbytes)) * HEADER_SIZE < 0x8000_0000
      requires brk != -1 ==> brk > 0 && Fresh(heap, base, brk, CoreUnits(Units(nbytes)))
      modifies this
      ensures Valid() && freep != 0
      ensures r == 0 ==> brk == -1 && heap == old(heap) && !HasRoom(free, Units(nbytes))
      ensures r != 0 ==> r - 1 !in old(heap.given) && heap.given == old(heap.given)[r - 1 := Units(nbytes)]
      ensures heap.owner.Keys == old(heap.owner.Keys) ||
        heap.owner.Keys == old(heap.owner.Keys) + Region(brk, CoreUnits(Units(nbytes)), brk).Keys
      ensures heap.owner.Keys == old(heap.owner.Keys) || !HasRoom(old(free), Units(nbytes))
      ensures PayloadKept(old(mem.cell), mem.cell, old(heap), heap)
    {
      var nunits := Units(nbytes);
      SetUp();
      var prevp := freep;
      ghost var asked, c := false, 0;
      Begin(nunits);
      var p := mem.cell[prevp].ptr;
      while true
        invariant Searching(prevp, p, c, nunits)
        invariant Since(old(mem.cell), old(heap), old(free), old(freep), asked, nunits, brk)
        decreases if asked then 0 else 1, |free| - c
      {
        ghost var k := Candidate(prevp, p, c, nunits);
        if mem.cell[p].size >= nunits {
          p := Grant(prevp, p, nunits, k, old(mem.cell), old(heap), old(free), old(freep), asked, brk);
          return p + 1;
        }
        Advance(prevp, p, c, nunits);
        c := c + 1;
        if p == freep {
          p := Refill(nunits, brk, old(mem.cell), old(heap), old(free), old(freep), asked);
          if p == 0 {
            return 0;
          }
          asked, c := true, 0;
          Begin(nunits);
        }
        prevp, p := p, mem.cell[p].ptr;
      }
    }
  }
}
