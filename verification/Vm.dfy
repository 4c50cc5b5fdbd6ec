/**
  Address spaces of kernel/vm.c and kernel/vm64.c over the page pool of kernel/kalloc.c.
  Physical memory is a sequence of pages of 512 words, known by their frame numbers; user
  virtual addresses below 0x3fa00000 by their page numbers.  `owner` says what each frame
  that is not on the free list is used for.
*/
module Memory {
  import opened Guard
  import opened Sets

  const PGSIZE := 4096
  const ENTRIES := 512
  /** Page directory entries for user pages, and the number of user pages: those below 0x3fa00000. */
  const USERDIRS := 509
  const TOP := USERDIRS * ENTRIES

  type Page = seq<nat>

  // Page table entries.
  predicate Present(w: nat) { w % 2 == 1 }
  function FrameOf(w: nat): nat { w / PGSIZE }
  function Flags(w: nat): nat { w % PGSIZE }
  /** flags | PTE_P */
  function WithP(flags: nat): nat { if Present(flags) then flags else flags + 1 }
  /** PTE_P | PTE_W | PTE_U */
  const PWU := 7

  lemma EntryParts(f: nat, flags: nat)
    requires flags < PGSIZE
    ensures FrameOf(f * PGSIZE + flags) == f && Flags(f * PGSIZE + flags) == flags
    ensures Present(f * PGSIZE + flags) == Present(flags) && WithP(flags) < PGSIZE && Present(WithP(flags))
  {
    assert (f * PGSIZE + flags) / PGSIZE == f;
    assert f * PGSIZE + flags == 2 * (f * 2048) + flags;
  }

  /**
    A page directory, a page table (entry i of directory d), the page v of the space d, one of the two tables
    above a directory, the table of the kernel's own mapping (kpdpt), or in nobody's hands but the kernel's.
  */
  datatype Role = Dir | Table(d: int, i: int) | Leaf(d: int, v: int) | Upper | Kernel | Held

  datatype State = State(pages: seq<Page>, free: seq<nat>, owner: map<int, Role>)

  predicate Whole(pages: seq<Page>) { forall f :: 0 <= f < |pages| ==> |pages[f]| == ENTRIES }

  predicate IsDir(s: State, d: int) { d in s.owner && s.owner[d] == Dir }

  /** The page table entry for page v of the space d, 0 without a page table. */
  function Pte(pages: seq<Page>, d: int, v: int): nat
    requires Whole(pages) && 0 <= d < |pages| && 0 <= v < TOP
  {
    var w := pages[d][v / ENTRIES];
    if Present(w) && FrameOf(w) < |pages| then pages[FrameOf(w)][v % ENTRIES] else 0
  }

  ghost predicate DirEntryOk(s: State, d: int, i: int)
    requires Whole(s.pages) && 0 <= d < |s.pages| && 0 <= i < ENTRIES
  {
    Present(s.pages[d][i]) ==>
      i < USERDIRS && var t := FrameOf(s.pages[d][i]); t in s.owner && s.owner[t] == Table(d, i)
  }

  ghost predicate TableEntryOk(s: State, t: int, k: int)
    requires Whole(s.pages) && 0 <= t < |s.pages| && 0 <= k < ENTRIES && t in s.owner && s.owner[t].Table?
  {
    Present(s.pages[t][k]) ==>
      var f := FrameOf(s.pages[t][k]); f in s.owner && s.owner[f] == Leaf(s.owner[t].d, s.owner[t].i * ENTRIES + k)
  }

  /** The entry that makes f what it is. */
  ghost predicate LinkOk(s: State, f: int)
    requires Whole(s.pages) && f in s.owner
  {
    match s.owner[f]
    case Table(d, i) => IsDir(s, d) && 0 <= d < |s.pages| && 0 <= i < USERDIRS && Present(s.pages[d][i]) &&
      FrameOf(s.pages[d][i]) == f
    case Leaf(d, v) => IsDir(s, d) && 0 <= d < |s.pages| && 0 <= v < TOP && Present(Pte(s.pages, d, v)) &&
      FrameOf(Pte(s.pages, d, v)) == f
    case _ => true
  }

  // The two tables above a directory, found by its last two entries.
  function Pml4(pages: seq<Page>, d: int): nat
    requires Whole(pages) && 0 <= d < |pages|
  {
    FrameOf(pages[d][511])
  }

  function Pdpt(pages: seq<Page>, d: int): nat
    requires Whole(pages) && 0 <= d < |pages|
  {
    FrameOf(pages[d][510])
  }

  /** The entry w is present, lets the user write and leads to the frame f. */
  predicate Leads(w: nat, f: nat) { FrameOf(w) == f && Flags(w) == PWU }

  /** The upper tables lead to d, and to the kernel's own table k. */
  predicate Chained(pages: seq<Page>, d: int, k: nat)
    requires Whole(pages) && 0 <= d < |pages|
  {
    var a, b := Pml4(pages, d), Pdpt(pages, d);
    && Present(pages[d][511]) && Present(pages[d][510]) && a < |pages| && b < |pages|
    && Leads(pages[a][0], b) && Leads(pages[b][0], d) && Leads(pages[a][511], k)
  }

  ghost predicate Has(s: State, f: int, r: Role) { f in s.owner && s.owner[f] == r }

  ghost predicate RootOk(s: State, d: int)
    requires Whole(s.pages) && 0 <= d < |s.pages|
  {
    var a, b := Pml4(s.pages, d), Pdpt(s.pages, d);
    && Has(s, a, Upper) && Has(s, b, Upper) && a < |s.pages| && Has(s, FrameOf(s.pages[a][511]), Kernel)
    && Chained(s.pages, d, FrameOf(s.pages[a][511]))
  }

  ghost predicate Rooted(s: State) {
    && Whole(s.pages) && (forall d :: IsDir(s, d) ==> 0 <= d < |s.pages| && RootOk(s, d))
    && (forall f, g :: Has(s, f, Kernel) && Has(s, g, Kernel) ==> f == g)
  }

  ghost predicate FreeOk(s: State) {
    && (forall k :: 0 <= k < |s.free| ==> 0 < s.free[k] < |s.pages| && s.free[k] !in s.owner)
    && (forall k, l :: 0 <= k < l < |s.free| ==> s.free[k] != s.free[l])
  }

  ghost predicate Inv(s: State) {
    && Whole(s.pages) && FreeOk(s)
    && (forall f :: f in s.owner ==> 0 < f < |s.pages| && LinkOk(s, f))
    && (forall d, i :: IsDir(s, d) && 0 <= i < 510 ==> DirEntryOk(s, d, i))
    && (forall t, k :: t in s.owner && s.owner[t].Table? && 0 <= k < ENTRIES ==> TableEntryOk(s, t, k))
    && (forall k {:trigger Heed(k)} :: Heed(k) ==> Rooted(s))
  }

  ghost predicate Good(s: State) {
    Whole(s.pages) && (forall f :: f in s.owner ==> 0 < f < |s.pages|) && forall k {:trigger Peek(k)} :: Peek(k) ==>
      Inv(s)
  }

  /** Every page of every space but pages lo..hi of d has the same entry. */
  ghost predicate SamePtes(s: State, t: State, d: int, lo: int, hi: int) {
    && Whole(s.pages) && Whole(t.pages) && |s.pages| == |t.pages|
    && forall e, u :: IsDir(s, e) && 0 <= e < |s.pages| && 0 <= u < TOP && !(e == d && lo <= u < hi) ==>
         Pte(t.pages, e, u) == Pte(s.pages, e, u)
  }

  /** Every page that some space maps, and every upper table, has the same content, unless it is f. */
  ghost predicate SameData(s: State, t: State, f: int) {
    && |s.pages| == |t.pages|
    && forall g ::
         g in s.owner && (s.owner[g].Leaf? || s.owner[g].Held? || s.owner[g].Upper?) && g != f && 0 <= g < |s.pages| ==>
         t.pages[g] == s.pages[g]
  }

  // --- What the code does to the invariant ---

  /** Directories stay rooted while neither their last two entries nor an upper table changes. */
  lemma RootsStay(s: State, t: State)
    requires Inv(s) && Whole(t.pages) && |t.pages| == |s.pages|
    requires forall d :: IsDir(t, d) ==>
      IsDir(s, d) && t.pages[d][510] == s.pages[d][510] && t.pages[d][511] == s.pages[d][511]
    requires forall f :: Has(s, f, Upper) ==> Has(t, f, Upper) && t.pages[f] == s.pages[f]
    requires forall f :: Has(s, f, Kernel) <==> Has(t, f, Kernel)
    ensures Rooted(t)
  {
    assert Heed(0);
    forall d | IsDir(t, d) ensures 0 <= d < |t.pages| && RootOk(t, d) {
      assert RootOk(s, d);
    }
  }

  /** Every space has its chain of tables, with the kernel's own table k in it. */
  lemma RootFound(s: State, d: int, k: nat)
    requires Good(s) && IsDir(s, d) && Has(s, k, Kernel)
    ensures Chained(s.pages, d, k) && Has(s, Pml4(s.pages, d), Upper) && Has(s, Pdpt(s.pages, d), Upper)
  {
    assert Peek(0) && Heed(0);
    assert RootOk(s, d);
  }

  /** What the processor finds for page v from the top table a: through all four levels, each open to the user. */
  function Mmu(pages: seq<Page>, a: nat, v: nat): nat
    requires Whole(pages)
  {
    var w := Level(pages, a, v / (ENTRIES * ENTRIES * ENTRIES));
    if !Open(w) then 0 else
    var x := Level(pages, FrameOf(w), v / (ENTRIES * ENTRIES));
    if !Open(x) then 0 else
    var y := Level(pages, FrameOf(x), v / ENTRIES);
    if !Present(y) then 0 else Level(pages, FrameOf(y), v)
  }

  function Level(pages: seq<Page>, f: nat, i: nat): nat
    requires Whole(pages)
  {
    if f < |pages| then pages[f][i % ENTRIES] else 0
  }

  predicate Open(w: nat) { Flags(w) % 8 == PWU }

  /** switchuvm loads the table that entry 511 names, and from there the processor finds the pages of the space d. */
  lemma MmuFinds(s: State, d: int, k: nat, v: nat)
    requires Good(s) && IsDir(s, d) && Has(s, k, Kernel) && v < TOP
    ensures Mmu(s.pages, Pml4(s.pages, d), v) == Pte(s.pages, d, v)
  {
    RootFound(s, d, k);
    var a, b := Pml4(s.pages, d), Pdpt(s.pages, d);
    assert v / (ENTRIES * ENTRIES * ENTRIES) == 0 && v / (ENTRIES * ENTRIES) == 0 && v / ENTRIES < ENTRIES;
    assert s.pages[a][0] == Level(s.pages, a, 0) && s.pages[b][0] == Level(s.pages, b, 0);
  }

  /** No two spaces have a table in common on that way. */
  lemma RootsApart(s: State, d: int, e: int, k: nat)
    requires Good(s) && IsDir(s, d) && IsDir(s, e) && d != e && Has(s, k, Kernel)
    ensures Pml4(s.pages, d) != Pml4(s.pages, e) && Pdpt(s.pages, d) != Pdpt(s.pages, e)
  {
    RootFound(s, d, k);
    RootFound(s, e, k);
  }

  /** kalloc takes the first page of the free list. */
  lemma Taken(s: State)
    requires Inv(s) && s.free != []
    ensures s.free[0] < |s.pages| && s.free[0] !in s.owner
    ensures var t := State(s.pages, s.free[1..], s.owner[s.free[0] := Held]); Inv(t) && SamePtes(s, t, -1, 0, 0)
  {
    var t := State(s.pages, s.free[1..], s.owner[s.free[0] := Held]);
    forall f | f in t.owner ensures 0 < f < |t.pages| && LinkOk(t, f) {
      assert f in s.owner ==> LinkOk(s, f);
    }
    forall d, i | IsDir(t, d) && 0 <= i < 510 ensures DirEntryOk(t, d, i) {
      assert DirEntryOk(s, d, i);
    }
    forall p, k | p in t.owner && t.owner[p].Table? && 0 <= k < ENTRIES ensures TableEntryOk(t, p, k) {
      assert TableEntryOk(s, p, k);
    }
    RootsStay(s, t);
  }

  /** kfree of a page that no table leads to. */
  lemma Freed(s: State, f: nat, junk: Page)
    requires Inv(s) && f in s.owner && s.owner[f] == Held && |junk| == ENTRIES
    ensures f < |s.pages|
    ensures
      var t := State(s.pages[f := junk], [f] + s.free, s.owner - {f});
      Inv(t) && SamePtes(s, t, -1, 0, 0) && SameData(s, t, f)
  {
    var t := State(s.pages[f := junk], [f] + s.free, s.owner - {f});
    Untouched(s, t, f);
    forall k, l | 0 <= k < l < |t.free| ensures t.free[k] != t.free[l] {
      assert k > 0 ==> s.free[k - 1] != s.free[l - 1];
      assert s.free[l - 1] !in s.owner;
    }
    forall k | 0 <= k < |t.free| ensures 0 < t.free[k] < |t.pages| && t.free[k] !in t.owner {
      assert k > 0 ==> t.free[k] == s.free[k - 1];
    }
  }

  /** A page that the kernel holds may be written and given up without anyone's noticing. */
  lemma Untouched(s: State, t: State, f: nat)
    requires Inv(s) && f in s.owner && s.owner[f] == Held && Whole(t.pages) && |t.pages| == |s.pages|
    requires forall g :: 0 <= g < |s.pages| && g != f ==> t.pages[g] == s.pages[g]
    requires t.owner == s.owner || t.owner == s.owner - {f}
    ensures forall g :: g in t.owner ==> 0 < g < |t.pages| && LinkOk(t, g)
    ensures forall d, i :: IsDir(t, d) && 0 <= i < 510 ==> DirEntryOk(t, d, i)
    ensures forall p, k :: p in t.owner && t.owner[p].Table? && 0 <= k < ENTRIES ==> TableEntryOk(t, p, k)
    ensures SamePtes(s, t, -1, 0, 0) && Rooted(t)
  {
    RootsStay(s, t);
    forall e, u | IsDir(s, e) && 0 <= u < TOP ensures Pte(t.pages, e, u) == Pte(s.pages, e, u) {
      assert DirEntryOk(s, e, u / ENTRIES);
    }
    forall g | g in t.owner ensures 0 < g < |t.pages| && LinkOk(t, g) {
      assert LinkOk(s, g);
    }
    forall d, i | IsDir(t, d) && 0 <= i < 510 ensures DirEntryOk(t, d, i) {
      assert DirEntryOk(s, d, i);
      assert Present(s.pages[d][i]) ==> FrameOf(s.pages[d][i]) != f;
    }
    forall p, k | p in t.owner && t.owner[p].Table? && 0 <= k < ENTRIES ensures TableEntryOk(t, p, k) {
      assert TableEntryOk(s, p, k);
    }
  }

  lemma Filled(s: State, f: nat, page: Page)
    requires Inv(s) && f in s.owner && s.owner[f] == Held && |page| == ENTRIES
    ensures f < |s.pages|
    ensures var t := s.(pages := s.pages[f := page]); Inv(t) && SamePtes(s, t, -1, 0, 0) && SameData(s, t, f)
  {
    Untouched(s, s.(pages := s.pages[f := page]), f);
  }

  function ZeroPage(): Page { seq(ENTRIES, _ => 0) }

  function JunkPage(): Page { seq(ENTRIES, _ => 0x0101_0101_0101_0101) }

  /** The frame of the page table for page v. */
  function TableFor(pages: seq<Page>, d: int, v: int): nat
    requires Whole(pages) && 0 <= d < |pages| && 0 <= v < TOP
  {
    FrameOf(pages[d][v / ENTRIES])
  }

  /** walkpgdir finds a page table, and it is the space's own. */
  lemma TableFound(s: State, d: int, v: int)
    requires Inv(s) && IsDir(s, d) && 0 <= v < TOP && Present(s.pages[d][v / ENTRIES])
    ensures
      var t := TableFor(s.pages, d, v);
      0 < t < |s.pages| && t in s.owner && s.owner[t] == Table(d, v / ENTRIES) && t != d
  {
    assert DirEntryOk(s, d, v / ENTRIES);
  }

  /** walkpgdir puts an empty page table into an empty directory entry. */
  lemma TableMade(s: State, d: int, i: int, f: int)
    requires Inv(s) && IsDir(s, d) && 0 <= i < USERDIRS && !Present(s.pages[d][i]) && f in s.owner && s.owner[f] == Held
    ensures
      var t := State(s.pages[f := ZeroPage()][d := s.pages[d][i := f * PGSIZE + PWU]], s.free,
        s.owner[f := Table(d, i)]);
      Inv(t) && SamePtes(s, t, -1, 0, 0) && SameData(s, t, f) && Present(t.pages[d][i]) && FrameOf(t.pages[d][i]) == f
  {
    var w := f * PGSIZE + PWU;
    EntryParts(f, PWU);
    var t := State(s.pages[f := ZeroPage()][d := s.pages[d][i := w]], s.free, s.owner[f := Table(d, i)]);
    forall e, u | IsDir(s, e) && 0 <= u < TOP ensures Pte(t.pages, e, u) == Pte(s.pages, e, u) {
      assert DirEntryOk(s, e, u / ENTRIES);
    }
    forall g | g in t.owner ensures 0 < g < |t.pages| && LinkOk(t, g) {
      assert LinkOk(s, g);
    }
    forall e, j | IsDir(t, e) && 0 <= j < 510 ensures DirEntryOk(t, e, j) {
      assert DirEntryOk(s, e, j);
    }
    forall p, k | p in t.owner && t.owner[p].Table? && 0 <= k < ENTRIES ensures TableEntryOk(t, p, k) {
      assert p != f ==> TableEntryOk(s, p, k);
    }
    RootsStay(s, t);
  }

  /** The state with the entry for page v of d set to w. */
  function PutPte(pages: seq<Page>, d: int, v: int, w: nat): seq<Page>
    requires Whole(pages) && 0 <= d < |pages| && 0 <= v < TOP && TableFor(pages, d, v) < |pages|
  {
    var t := TableFor(pages, d, v);
    var page: Page := pages[t][v % ENTRIES := w];
    pages[t := page]
  }

  /** A table entry belongs to one page of one space. */
  lemma PtePlace(s: State, d: int, v: int, w: nat, e: int, u: int)
    requires Inv(s) && IsDir(s, d) && IsDir(s, e) && 0 <= v < TOP && 0 <= u < TOP && Present(s.pages[d][v / ENTRIES])
    ensures TableFor(s.pages, d, v) < |s.pages|
    ensures Pte(PutPte(s.pages, d, v, w), e, u) == if e == d && u == v then w else Pte(s.pages, e, u)
  {
    TableFound(s, d, v);
    assert DirEntryOk(s, e, u / ENTRIES);
    assert s.owner[TableFor(s.pages, d, v)] == Table(d, v / ENTRIES);
    assert u == u / ENTRIES * ENTRIES + u % ENTRIES && v == v / ENTRIES * ENTRIES + v % ENTRIES;
  }

  lemma PteSetTables(s: State, d: int, v: int, w: nat, t: State)
    requires Inv(s) && IsDir(s, d) && 0 <= v < TOP && Present(s.pages[d][v / ENTRIES]) &&
      TableFor(s.pages, d, v) < |s.pages|
    requires t.pages == PutPte(s.pages, d, v, w) &&
      (forall g :: g in s.owner && !s.owner[g].Leaf? && !s.owner[g].Held? ==> g in t.owner && t.owner[g] == s.owner[g])
    requires forall g :: g in t.owner && (t.owner[g].Dir? || t.owner[g].Table?) ==>
      g in s.owner && s.owner[g] == t.owner[g]
    ensures Whole(t.pages) && (forall e :: IsDir(t, e) ==> 0 <= e < |t.pages|)
    ensures forall e, j :: IsDir(t, e) && 0 <= j < 510 ==> DirEntryOk(t, e, j)
  {
    TableFound(s, d, v);
    forall e, j | IsDir(t, e) && 0 <= j < 510 ensures DirEntryOk(t, e, j) {
      assert DirEntryOk(s, e, j);
    }
  }

  /** mappages enters a page that the kernel held. */
  lemma PteSet(s: State, d: int, v: int, w: nat)
    requires Inv(s) && IsDir(s, d) && 0 <= v < TOP && Present(s.pages[d][v / ENTRIES]) && !Present(Pte(s.pages, d, v))
    requires Present(w) && FrameOf(w) in s.owner && s.owner[FrameOf(w)] == Held
    ensures TableFor(s.pages, d, v) < |s.pages|
    ensures
      var t := State(PutPte(s.pages, d, v, w), s.free, s.owner[FrameOf(w) := Leaf(d, v)]);
      Inv(t) && SamePtes(s, t, d, v, v + 1) && Pte(t.pages, d, v) == w && SameData(s, t, -1)
  {
    TableFound(s, d, v);
    var f := FrameOf(w);
    var t := State(PutPte(s.pages, d, v, w), s.free, s.owner[f := Leaf(d, v)]);
    forall e, u | IsDir(s, e) && 0 <= u < TOP
      ensures Pte(t.pages, e, u) == if e == d && u == v then w else Pte(s.pages, e, u)
    {
      PtePlace(s, d, v, w, e, u);
    }
    PteSetTables(s, d, v, w, t);
    forall g | g in t.owner ensures 0 < g < |t.pages| && LinkOk(t, g) {
      assert LinkOk(s, g);
    }
    forall p, k | p in t.owner && t.owner[p].Table? && 0 <= k < ENTRIES ensures TableEntryOk(t, p, k) {
      assert TableEntryOk(s, p, k) && LinkOk(s, p);
    }
    RootsStay(s, t);
  }

  /** Clearing an entry gives its page back to the kernel. */
  lemma PteCleared(s: State, d: int, v: int)
    requires Inv(s) && IsDir(s, d) && 0 <= v < TOP && Present(Pte(s.pages, d, v))
    ensures TableFor(s.pages, d, v) < |s.pages|
    ensures
      var f := FrameOf(Pte(s.pages, d, v));
      && f in s.owner && s.owner[f] == Leaf(d, v) && 0 < f < |s.pages| && f != TableFor(s.pages, d, v)
      && var t := State(PutPte(s.pages, d, v, 0), s.free, s.owner[f := Held]);
      Inv(t) && SamePtes(s, t, d, v, v + 1) && Pte(t.pages, d, v) == 0 && SameData(s, t, -1)
  {
    TableFound(s, d, v);
    var p0, f := TableFor(s.pages, d, v), FrameOf(Pte(s.pages, d, v));
    assert TableEntryOk(s, p0, v % ENTRIES);
    assert v == v / ENTRIES * ENTRIES + v % ENTRIES;
    var t := State(PutPte(s.pages, d, v, 0), s.free, s.owner[f := Held]);
    forall e, u | IsDir(s, e) && 0 <= u < TOP
      ensures Pte(t.pages, e, u) == if e == d && u == v then 0 else Pte(s.pages, e, u)
    {
      PtePlace(s, d, v, 0, e, u);
    }
    PteSetTables(s, d, v, 0, t);
    forall g | g in t.owner ensures 0 < g < |t.pages| && LinkOk(t, g) {
      assert LinkOk(s, g);
    }
    forall p, k | p in t.owner && t.owner[p].Table? && 0 <= k < ENTRIES ensures TableEntryOk(t, p, k) {
      assert TableEntryOk(s, p, k) && LinkOk(s, p);
    }
    RootsStay(s, t);
  }

  /** setupkvm's page directory f maps no user page, and the tables a and b lead to it. */
  lemma DirMade(s: State, a: int, b: int, f: int, page: Page, k: nat)
    requires Inv(s) && Has(s, a, Held) && Has(s, b, Held) && Has(s, f, Held) && a != b && a != f && b != f
    requires |page| == ENTRIES && Has(s, k, Kernel) && forall i :: 0 <= i < 510 ==> page[i] == 0
    requires Chained(s.pages[f := page], f, k) && Pml4(s.pages[f := page], f) == a && Pdpt(s.pages[f := page], f) == b
    ensures
      var t := State(s.pages[f := page], s.free, s.owner[a := Upper][b := Upper][f := Dir]);
      Inv(t) && SamePtes(s, t, -1, 0, 0) && SameData(s, t, f) && forall v :: 0 <= v < TOP ==> Pte(t.pages, f, v) == 0
  {
    var s1, t := s.(pages := s.pages[f := page]),
      State(s.pages[f := page], s.free, s.owner[a := Upper][b := Upper][f := Dir]);
    Untouched(s, s1, f);
    forall g | g in t.owner ensures 0 < g < |t.pages| && LinkOk(t, g) {
      assert LinkOk(s1, g);
    }
    forall e, j | IsDir(t, e) && 0 <= j < 510 ensures DirEntryOk(t, e, j) {
      assert e != f ==> DirEntryOk(s1, e, j);
    }
    forall p, k | p in t.owner && t.owner[p].Table? && 0 <= k < ENTRIES ensures TableEntryOk(t, p, k) {
      assert TableEntryOk(s1, p, k);
    }
    RootMade(s, a, b, f, page, k);
  }

  lemma RootMade(s: State, a: int, b: int, f: int, page: Page, k: nat)
    requires Inv(s) && Has(s, a, Held) && Has(s, b, Held) && Has(s, f, Held) && a != b && a != f && b != f
    requires |page| == ENTRIES && Has(s, k, Kernel)
    requires Chained(s.pages[f := page], f, k) && Pml4(s.pages[f := page], f) == a && Pdpt(s.pages[f := page], f) == b
    ensures Rooted(State(s.pages[f := page], s.free, s.owner[a := Upper][b := Upper][f := Dir]))
  {
    var t := State(s.pages[f := page], s.free, s.owner[a := Upper][b := Upper][f := Dir]);
    assert Heed(0);
    assert forall g :: Has(t, g, Kernel) <==> Has(s, g, Kernel);
    forall d | IsDir(t, d) ensures 0 <= d < |t.pages| && RootOk(t, d) {
      if d != f {
        assert IsDir(s, d) && RootOk(s, d);
      }
    }
  }

  /** A space keeps its pages and their entries, but for pages lo..hi of d. */
  ghost predicate Keeps(s: State, t: State, d: int, lo: int, hi: int) {
    && SamePtes(s, t, d, lo, hi)
    && (forall e :: IsDir(s, e) ==> IsDir(t, e))
    && (forall f ::
         f in s.owner && s.owner[f].Leaf? && !(s.owner[f].d == d && lo <= s.owner[f].v < hi) && 0 <= f < |s.pages| ==>
          f in t.owner && t.owner[f] == s.owner[f] && t.pages[f] == s.pages[f])
  }

  lemma KeepsMore(s: State, t: State, u: State, d: int, v: int, lo: int, hi: int)
    requires Inv(s) && Keeps(s, t, d, lo, hi) && Keeps(t, u, d, v, v + 1) && lo <= v < hi
    ensures Keeps(s, u, d, lo, hi)
  {
    forall e, w | IsDir(s, e) && 0 <= e < |s.pages| && 0 <= w < TOP && !(e == d && lo <= w < hi)
      ensures Pte(u.pages, e, w) == Pte(s.pages, e, w)
    {
      assert IsDir(t, e);
    }
  }

  /** f has to do with the space d. */
  predicate About(r: Role, f: int, d: int) { f == d || (r.Table? && r.d == d) || (r.Leaf? && r.d == d) }

  /** No frame changes its use, and only frames of the space d are given up. */
  ghost predicate Shrinks(s: State, t: State, d: int) {
    && (forall f :: f in t.owner ==> f in s.owner && t.owner[f] == s.owner[f])
    && (forall f :: f in s.owner && !About(s.owner[f], f, d) ==> f in t.owner)
  }

  /** Frames keep their use, but for f, and what is new is page tables of d. */
  ghost predicate Grows(s: State, t: State, d: int, f: int) {
    && (forall g :: g in s.owner ==> g in t.owner && (g == f || t.owner[g] == s.owner[g]))
    && (forall g :: g in t.owner ==> g in s.owner || (t.owner[g].Table? && t.owner[g].d == d))
  }

  /** All frames: on the free list or in use. */
  ghost function Frames(s: State): set<int> { (set f | f in s.free) + s.owner.Keys }

  /** deallocuvm takes a page out of a space and frees it. */
  lemma PageFreed(s: State, d: int, v: int)
    requires Inv(s) && IsDir(s, d) && 0 <= v < TOP && Present(Pte(s.pages, d, v))
    ensures
      var f := FrameOf(Pte(s.pages, d, v));
      && 0 < f < |s.pages| && TableFor(s.pages, d, v) < |s.pages| && f in s.owner && s.owner[f] == Leaf(d, v)
      && Whole(s.pages[f := JunkPage()]) && TableFor(s.pages[f := JunkPage()], d, v) == TableFor(s.pages, d, v)
      && var t := State(PutPte(s.pages[f := JunkPage()], d, v, 0), [f] + s.free, s.owner - {f});
      && Inv(t) && Keeps(s, t, d, v, v + 1) && Shrinks(s, t, d)
      && Pte(t.pages, d, v) == 0 && t.pages[d] == s.pages[d] && Frames(t) == Frames(s)
  {
    PteCleared(s, d, v);
    var f := FrameOf(Pte(s.pages, d, v));
    var s1 := State(PutPte(s.pages, d, v, 0), s.free, s.owner[f := Held]);
    Freed(s1, f, JunkPage());
    var t := State(PutPte(s.pages[f := JunkPage()], d, v, 0), [f] + s.free, s.owner - {f});
    assert t.pages == s1.pages[f := JunkPage()];
    assert t.owner == s1.owner - {f};
    TableFound(s, d, v);
    PteAfter(s, s1, t, d, v);
  }

  lemma PteAfterBoth(s: State, s1: State, t: State, d: int, v: int)
    requires Inv(s) && Keeps(s, s1, d, 0, 0) && SamePtes(s1, t, d, v, v + 1) && SameData(s1, t, -1)
    requires forall g :: g in s1.owner && s1.owner[g] != Held ==> g in t.owner && t.owner[g] == s1.owner[g]
    ensures Keeps(s, t, d, v, v + 1)
  {
    forall e, u | IsDir(s, e) && 0 <= e < |s.pages| && 0 <= u < TOP && !(e == d && u == v)
      ensures Pte(t.pages, e, u) == Pte(s.pages, e, u)
    {
      assert IsDir(s1, e);
    }
  }

  /** mappages, once walkpgdir has found or made the page table. */
  lemma PageMapped(s: State, s1: State, d: int, v: int, f: nat, perm: nat)
    requires Good(s) && Good(s1) && IsDir(s, d) && IsDir(s1, d) && 0 <= v < TOP && perm < PGSIZE && Has(s, f, Held)
    requires Keeps(s, s1, d, 0, 0) && Grows(s, s1, d, -1) && SameData(s, s1, -1) && Frames(s1) == Frames(s)
    requires Present(s1.pages[d][v / ENTRIES]) && !Present(Pte(s1.pages, d, v))
    ensures TableFor(s1.pages, d, v) < |s1.pages|
    ensures
      var w := f * PGSIZE + WithP(perm);
      var t := State(PutPte(s1.pages, d, v, w), s1.free, s1.owner[f := Leaf(d, v)]);
      && Good(t) && IsDir(t, d) && Frames(t) == Frames(s) && Pte(t.pages, d, v) == w && t.pages[d] == s1.pages[d]
      && Keeps(s, t, d, v, v + 1) && Grows(s, t, d, f) && SameData(s, t, -1)
  {
    assert Peek(0);
    TableFound(s1, d, v);
    EntryParts(f, WithP(perm));
    EntryParts(f, perm);
    var w := f * PGSIZE + WithP(perm);
    PteSet(s1, d, v, w);
    PteAfterBoth(s, s1, State(PutPte(s1.pages, d, v, w), s1.free, s1.owner[f := Leaf(d, v)]), d, v);
  }

  lemma PteAfter(s: State, s1: State, t: State, d: int, v: int)
    requires SamePtes(s, s1, d, v, v + 1) && SamePtes(s1, t, -1, 0, 0)
    requires forall e :: IsDir(s, e) ==> IsDir(s1, e)
    ensures SamePtes(s, t, d, v, v + 1)
  {
    forall e, u | IsDir(s, e) && 0 <= e < |s.pages| && 0 <= u < TOP && !(e == d && u == v)
      ensures Pte(t.pages, e, u) == Pte(s.pages, e, u)
    {
      assert IsDir(s1, e);
    }
  }

  // --- deallocuvm's way through the pages ---

  /** deallocuvm, at page v of a space with the directory dir, comes to page u before hi. */
  predicate Visits(dir: Page, v: nat, hi: nat, u: nat)
    requires |dir| == ENTRIES && hi <= TOP
    decreases hi - v
  {
    v < hi && if Present(dir[v / ENTRIES]) then u == v || Visits(dir, v + 1, hi, u) else Visits(dir, v + ENTRIES, hi, u)
  }

  lemma {:induction false} VisitsRange(dir: Page, v: nat, hi: nat, u: nat)
    requires |dir| == ENTRIES && hi <= TOP && Visits(dir, v, hi, u)
    ensures v <= u < hi && Present(dir[u / ENTRIES])
    decreases hi - v
  {
    if Present(dir[v / ENTRIES]) {
      if u != v {
        VisitsRange(dir, v + 1, hi, u);
      }
    } else {
      VisitsRange(dir, v + ENTRIES, hi, u);
    }
  }

  /** From the first page of a table, or within a table that exists, no mapped page is passed over. */
  lemma {:induction false} VisitsAll(dir: Page, v: nat, hi: nat, u: nat)
    requires |dir| == ENTRIES && v <= u < hi <= TOP && Present(dir[u / ENTRIES])
    requires v % ENTRIES == 0 || Present(dir[v / ENTRIES])
    ensures Visits(dir, v, hi, u)
    decreases hi - v
  {
    if Present(dir[v / ENTRIES]) {
      if u != v {
        assert (v + 1) % ENTRIES == 0 || (v + 1) / ENTRIES == v / ENTRIES;
        VisitsAll(dir, v + 1, hi, u);
      }
    } else {
      assert u >= v + ENTRIES;
      VisitsAll(dir, v + ENTRIES, hi, u);
    }
  }

  /** From the middle of a missing table the jumps pass over the first page of the next table there is. */
  lemma {:induction false} VisitsMisses(dir: Page, v: nat, hi: nat, j: nat)
    requires |dir| == ENTRIES && hi <= TOP && v % ENTRIES != 0 && v / ENTRIES < j <= USERDIRS
    requires forall k :: v / ENTRIES <= k < j ==> !Present(dir[k])
    ensures !Visits(dir, v, hi, j * ENTRIES)
    decreases hi - v
  {
    if Visits(dir, v, hi, j * ENTRIES) {
      assert (v + ENTRIES) / ENTRIES == v / ENTRIES + 1 && (v + ENTRIES) % ENTRIES == v % ENTRIES;
      if v / ENTRIES + 1 == j {
        VisitsRange(dir, v + ENTRIES, hi, j * ENTRIES);
      } else {
        VisitsMisses(dir, v + ENTRIES, hi, j);
      }
    }
  }

  /** deallocuvm comes to every page from v on that has a page table. */
  ghost predicate Thorough(dir: Page, v: nat, hi: nat)
    requires |dir| == ENTRIES && hi <= TOP
  {
    forall u :: v <= u < hi && Present(dir[u / ENTRIES]) ==> Visits(dir, v, hi, u)
  }

  /** The next page table after v's, if there is one below hi. */
  lemma {:induction false} NextTable(dir: Page, v: nat, hi: nat, k: nat) returns (j: nat)
    requires |dir| == ENTRIES && v / ENTRIES < k < USERDIRS && !Present(dir[v / ENTRIES]) && Present(dir[k])
    ensures v / ENTRIES < j <= k && Present(dir[j]) && forall l :: v / ENTRIES <= l < j ==> !Present(dir[l])
  {
    j := v / ENTRIES + 1;
    while !Present(dir[j])
      invariant v / ENTRIES < j <= k && forall l :: v / ENTRIES <= l < j ==> !Present(dir[l])
      decreases k - j
    {
      j := j + 1;
    }
  }

  /**
    It does so exactly if it starts at the first page of a table, or within a table that exists,
    or no table exists further up.
  */
  lemma ThoroughExactly(dir: Page, v: nat, hi: nat)
    requires |dir| == ENTRIES && v < hi <= TOP
    ensures Thorough(dir, v, hi) <==>
      (v % ENTRIES == 0 || Present(dir[v / ENTRIES]) || forall k ::
        v / ENTRIES < k < USERDIRS && k * ENTRIES < hi ==> !Present(dir[k]))
  {
    if v % ENTRIES == 0 || Present(dir[v / ENTRIES]) {
      forall u | v <= u < hi && Present(dir[u / ENTRIES]) ensures Visits(dir, v, hi, u) {
        VisitsAll(dir, v, hi, u);
      }
    } else if k :| v / ENTRIES < k < USERDIRS && k * ENTRIES < hi && Present(dir[k]) {
      var j := NextTable(dir, v, hi, k);
      VisitsMisses(dir, v, hi, j);
      assert j * ENTRIES / ENTRIES == j;
    }
  }

  /** The pages of d that deallocuvm, now at v, has come to are gone; the others are as they were. */
  ghost predicate Cleared(s: State, t: State, d: int, lo: nat, v: nat, hi: nat)
    requires Whole(s.pages) && Whole(t.pages) && 0 <= d < |s.pages| && d < |t.pages| && hi <= TOP
  {
    forall u :: 0 <= u < TOP ==>
      Pte(t.pages, d, u) == if Visits(s.pages[d], lo, hi, u) &&
        !Visits(s.pages[d], v, hi, u) then ClearedPte(Pte(s.pages, d, u)) else Pte(s.pages, d, u)
  }

  function ClearedPte(w: nat): nat { if Present(w) then 0 else w }

  lemma ClearedMore(s: State, t: State, r: State, d: int, lo: nat, v: nat, hi: nat)
    requires Inv(s) && IsDir(s, d) && Inv(t) && IsDir(t, d) && Whole(r.pages) &&
      |r.pages| == |t.pages| == |s.pages| && lo <= v < hi <= TOP
    requires Cleared(s, t, d, lo, v, hi) && Present(s.pages[d][v / ENTRIES]) && Visits(s.pages[d], lo, hi, v)
    requires Pte(r.pages, d, v) == ClearedPte(Pte(t.pages, d, v)) && SamePtes(t, r, d, v, v + 1)
    ensures Cleared(s, r, d, lo, v + 1, hi)
  {
    forall u | 0 <= u < TOP
      ensures Pte(r.pages, d, u) == if Visits(s.pages[d], lo, hi, u) &&
        !Visits(s.pages[d], v + 1, hi, u) then ClearedPte(Pte(s.pages, d, u)) else Pte(s.pages, d, u)
    {
      if u == v && Visits(s.pages[d], v + 1, hi, u) {
        VisitsRange(s.pages[d], v + 1, hi, u);
      }
    }
  }

  /** The loop of deallocuvm, at page v. */
  ghost predicate Clearing(s: State, t: State, d: int, lo: nat, v: nat, hi: nat) {
    && Good(s) && Good(t) && IsDir(s, d) && IsDir(t, d) && hi <= TOP && lo <= v
    && forall k {:trigger Look(k)} :: Look(k) ==> ClearingOf(s, t, d, lo, v, hi)
  }

  ghost predicate ClearingOf(s: State, t: State, d: int, lo: nat, v: nat, hi: nat)
    requires Good(s) && Good(t) && IsDir(s, d) && IsDir(t, d) && hi <= TOP
  {
    && |t.pages| == |s.pages| && t.pages[d] == s.pages[d] && Keeps(s, t, d, lo, hi) && Shrinks(s, t, d) &&
         Frames(t) == Frames(s)
    && Cleared(s, t, d, lo, v, hi)
    && forall u :: Visits(s.pages[d], v, hi, u) ==> Visits(s.pages[d], lo, hi, u)
  }

  lemma ClearingStarts(s: State, d: int, lo: nat, hi: nat)
    requires Good(s) && IsDir(s, d) && hi <= TOP
    ensures Clearing(s, s, d, lo, lo, hi)
  {
    assert Peek(0);
  }

  lemma ClearingEnds(s: State, t: State, d: int, lo: nat, v: nat, hi: nat)
    requires Clearing(s, t, d, lo, v, hi) && v >= hi
    ensures |t.pages| == |s.pages| && t.pages[d] == s.pages[d] && Keeps(s, t, d, lo, hi) && Shrinks(s, t, d) &&
      Frames(t) == Frames(s) && Cleared(s, t, d, lo, hi, hi)
  {
    assert Look(0);
  }

  lemma ClearingSkips(s: State, t: State, d: int, lo: nat, v: nat, hi: nat)
    requires Clearing(s, t, d, lo, v, hi) && v < hi && !Present(t.pages[d][v / ENTRIES])
    ensures Clearing(s, t, d, lo, v + ENTRIES, hi)
  {
    assert Look(0);
  }

  lemma ClearingStays(s: State, t: State, d: int, lo: nat, v: nat, hi: nat)
    requires Clearing(s, t, d, lo, v, hi) && v < hi && Present(t.pages[d][v / ENTRIES]) && !Present(Pte(t.pages, d, v))
    ensures Clearing(s, t, d, lo, v + 1, hi)
  {
    assert Look(0) && Peek(0);
    ClearedMore(s, t, t, d, lo, v, hi);
  }

  lemma ClearingFrees(s: State, t: State, r: State, d: int, lo: nat, v: nat, hi: nat)
    requires Clearing(s, t, d, lo, v, hi) && v < hi && Present(t.pages[d][v / ENTRIES]) && Present(Pte(t.pages, d, v))
    requires Good(r) && IsDir(r, d) && |r.pages| == |t.pages| && r.pages[d] == t.pages[d] &&
      Keeps(t, r, d, v, v + 1) && Shrinks(t, r, d) && Frames(r) == Frames(t) && Pte(r.pages, d, v) == 0
    ensures Clearing(s, r, d, lo, v + 1, hi)
  {
    assert Look(0) && Peek(0);
    ClearedMore(s, t, r, d, lo, v, hi);
    KeepsMore(s, t, r, d, v, lo, hi);
  }

  // --- freevm ---

  ghost predicate NoPages(s: State, d: int)
    requires Whole(s.pages) && 0 <= d < |s.pages|
  {
    forall v :: 0 <= v < TOP ==> !Present(Pte(s.pages, d, v))
  }

  /** The same directory with entry i cleared. */
  function WithoutTable(pages: seq<Page>, d: int, i: int): seq<Page>
    requires Whole(pages) && 0 <= d < |pages| && 0 <= i < ENTRIES
  {
    var dir: Page := pages[d][i := 0];
    pages[d := dir]
  }

  lemma TableUnlinked(s: State, d: int, i: int)
    requires Inv(s) && IsDir(s, d) && 0 <= i < 510 && Present(s.pages[d][i]) && NoPages(s, d)
    ensures
      var p := FrameOf(s.pages[d][i]);
      && 0 < p < |s.pages| && p in s.owner && s.owner[p] == Table(d, i) && p != d
      && var t := State(WithoutTable(s.pages, d, i), s.free, s.owner[p := Held]);
      Inv(t) && NoPages(t, d) && SamePtes(s, t, d, 0, TOP) && SameData(s, t, -1)
  {
    assert DirEntryOk(s, d, i);
    var p := FrameOf(s.pages[d][i]);
    var t := State(WithoutTable(s.pages, d, i), s.free, s.owner[p := Held]);
    forall e, u | IsDir(s, e) && 0 <= u < TOP
      ensures Pte(t.pages, e, u) == if e == d && u / ENTRIES == i then 0 else Pte(s.pages, e, u)
    {
      assert DirEntryOk(s, e, u / ENTRIES);
    }
    forall g | g in t.owner ensures 0 < g < |t.pages| && LinkOk(t, g) {
      assert LinkOk(s, g);
    }
    forall e, j | IsDir(t, e) && 0 <= j < 510 ensures DirEntryOk(t, e, j) {
      assert DirEntryOk(s, e, j);
    }
    forall q, k | q in t.owner && t.owner[q].Table? && 0 <= k < ENTRIES ensures TableEntryOk(t, q, k) {
      assert TableEntryOk(s, q, k);
    }
    RootsStay(s, t);
  }

  /** freevm frees a page table. */
  lemma TableFreed(s: State, d: int, i: int)
    requires Inv(s) && IsDir(s, d) && 0 <= i < 510 && Present(s.pages[d][i]) && NoPages(s, d)
    ensures
      var p := FrameOf(s.pages[d][i]);
      && 0 < p < |s.pages| && p != d && p in s.owner
      && var t := State(WithoutTable(s.pages, d, i)[p := JunkPage()], [p] + s.free, s.owner - {p});
      Inv(t) && IsDir(t, d) && NoPages(t, d) && Keeps(s, t, d, 0, TOP) && Shrinks(s, t, d) && Frames(t) == Frames(s)
  {
    TableUnlinked(s, d, i);
    var p := FrameOf(s.pages[d][i]);
    var s1 := State(WithoutTable(s.pages, d, i), s.free, s.owner[p := Held]);
    Freed(s1, p, JunkPage());
    var t := State(s1.pages[p := JunkPage()], [p] + s.free, s.owner - {p});
    assert t.owner == s1.owner - {p};
    forall e, u | IsDir(s, e) && 0 <= e < |s.pages| && 0 <= u < TOP && e != d
      ensures Pte(t.pages, e, u) == Pte(s.pages, e, u)
    {
      assert IsDir(s1, e);
    }
  }

  /** freevm's last step: the directory itself, whatever it still says. */
  lemma DirFreed(s: State, d: int)
    requires Inv(s) && IsDir(s, d) && forall i :: 0 <= i < 510 ==> !Present(s.pages[d][i])
    ensures
      var t := State(s.pages[d := JunkPage()], [d] + s.free, s.owner - {d});
      Inv(t) && Keeps(s.(owner := s.owner - {d}), t, -1, 0, 0) && Frames(t) == Frames(s)
  {
    var s1, t := s.(owner := s.owner[d := Held]), State(s.pages[d := JunkPage()], [d] + s.free, s.owner - {d});
    forall g | g in s1.owner ensures 0 < g < |s1.pages| && LinkOk(s1, g) {
      assert LinkOk(s, g);
    }
    forall e, j | IsDir(s1, e) && 0 <= j < 510 ensures DirEntryOk(s1, e, j) {
      assert DirEntryOk(s, e, j);
    }
    forall q, k | q in s1.owner && s1.owner[q].Table? && 0 <= k < ENTRIES ensures TableEntryOk(s1, q, k) {
      assert TableEntryOk(s, q, k);
    }
    RootsStay(s, s1);
    Freed(s1, d, JunkPage());
    assert t.owner == s1.owner - {d};
    forall e, u | e != d && IsDir(s, e) && 0 <= e < |s.pages| && 0 <= u < TOP
      ensures Pte(t.pages, e, u) == Pte(s.pages, e, u)
    {
      assert IsDir(s1, e);
    }
  }

  /** Every space but d is as it was, and nothing is left of d. */
  ghost predicate Gone(s: State, t: State, d: int) {
    && Shrinks(s, t, d) && (forall f :: f in t.owner ==> !About(t.owner[f], f, d))
    && |s.pages| == |t.pages| && Whole(s.pages) && Whole(t.pages)
    && (forall e, u :: IsDir(s, e) && e != d && 0 <= e < |s.pages| && 0 <= u < TOP ==>
         Pte(t.pages, e, u) == Pte(s.pages, e, u))
    && (forall f :: f in t.owner && t.owner[f].Leaf? && 0 <= f < |s.pages| ==> t.pages[f] == s.pages[f])
    && Frames(t) == Frames(s)
  }

  /** The loop of freevm over the tables, at entry i: e is the state with the entries before i cleared. */
  ghost predicate Freeing(s: State, e: State, d: int, i: nat, pages: seq<Page>) {
    && Whole(pages) && Whole(e.pages) && |pages| == |e.pages| && 0 <= d < |pages| && i <= 510
    && pages == e.pages[d := pages[d]]
    && (forall j :: i <= j < 510 ==> pages[d][j] == e.pages[d][j])
    && (forall f :: f in e.owner ==> 0 < f < |e.pages|)
    && forall k {:trigger Look(k)} :: Look(k) ==> FreeingOf(s, e, d, i)
  }

  ghost predicate FreeingOf(s: State, e: State, d: int, i: nat) {
    && Inv(e) && IsDir(e, d) && NoPages(e, d) && Keeps(s, e, d, 0, TOP) && Shrinks(s, e, d) && Frames(e) == Frames(s)
    && forall j :: 0 <= j < i < 511 ==> !Present(e.pages[d][j])
  }

  lemma FreeingStarts(s: State, e: State, d: int)
    requires Good(s) && Good(e) && IsDir(s, d) && IsDir(e, d) && Keeps(s, e, d, 0, TOP) && Shrinks(s, e, d) &&
      Frames(e) == Frames(s) && |s.pages| == |e.pages|
    requires Cleared(s, e, d, 0, TOP, TOP)
    ensures Freeing(s, e, d, 0, e.pages)
  {
    assert Peek(0);
    forall v | 0 <= v < TOP ensures !Present(Pte(e.pages, d, v)) {
      if Present(s.pages[d][v / ENTRIES]) {
        VisitsAll(s.pages[d], 0, TOP, v);
      }
    }
  }

  lemma FreeingTable(s: State, e: State, d: int, i: nat, pages: seq<Page>)
    requires Good(s) && Freeing(s, e, d, i, pages) && i < 510 && Present(pages[d][i])
    ensures
      var p := FrameOf(pages[d][i]);
      && 0 < p < |pages| && p in e.owner
      && Freeing(s, State(WithoutTable(e.pages, d, i)[p := JunkPage()], [p] + e.free, e.owner - {p}), d, i + 1,
           pages[p := JunkPage()])
  {
    assert Look(0) && Peek(0);
    TableFreed(e, d, i);
    var p := FrameOf(pages[d][i]);
    var t := State(WithoutTable(e.pages, d, i)[p := JunkPage()], [p] + e.free, e.owner - {p});
    KeepsMost(s, e, t, d);
  }

  lemma KeepsMost(s: State, t: State, u: State, d: int)
    requires Inv(s) && Keeps(s, t, d, 0, TOP) && Keeps(t, u, d, 0, TOP)
    ensures Keeps(s, u, d, 0, TOP)
  {
    forall e, w | IsDir(s, e) && 0 <= e < |s.pages| && 0 <= w < TOP && e != d
      ensures Pte(u.pages, e, w) == Pte(s.pages, e, w)
    {
      assert IsDir(t, e);
    }
  }

  lemma FreeingSkips(s: State, e: State, d: int, i: nat, pages: seq<Page>)
    requires Freeing(s, e, d, i, pages) && i < 510 && !Present(pages[d][i])
    ensures Freeing(s, e, d, i + 1, pages)
  {
    assert Look(0);
  }

  lemma FreeingEnds(s: State, e: State, d: int, pages: seq<Page>)
    requires Good(s) && IsDir(s, d) && Freeing(s, e, d, 510, pages)
    ensures var t := State(pages[d := JunkPage()], [d] + e.free, e.owner - {d}); Good(t) && Gone(s, t, d)
  {
    assert Look(0) && Peek(0);
    DirFreed(e, d);
    var t := State(pages[d := JunkPage()], [d] + e.free, e.owner - {d});
    assert t.pages == e.pages[d := JunkPage()];
    forall f | f in t.owner ensures !About(t.owner[f], f, d) {
      assert LinkOk(e, f);
    }
    forall x, u | IsDir(s, x) && x != d && 0 <= x < |s.pages| && 0 <= u < TOP
      ensures Pte(t.pages, x, u) == Pte(s.pages, x, u)
    {
      assert IsDir(e, x) && IsDir(e.(owner := e.owner - {d}), x);
    }
  }

  // --- copyuvm ---

  /** Page u of the child: the same flags and content as the parent's, on a frame that was not in use. */
  ghost predicate Copied(s: State, t: State, p: int, d: int, u: int)
    requires Whole(s.pages) && Whole(t.pages) && 0 <= p < |s.pages| && 0 <= d < |t.pages| && 0 <= u < TOP
  {
    var w, x := Pte(s.pages, p, u), Pte(t.pages, d, u);
    && Present(x) && Flags(x) == Flags(w) && FrameOf(x) < |t.pages| && FrameOf(w) < |s.pages|
    && t.pages[FrameOf(x)] == s.pages[FrameOf(w)] && FrameOf(x) !in s.owner
  }

  /** From s to t, the first v pages of p have been copied to the new space d; `lost` are new pages that nobody uses. */
  ghost predicate Copying(s: State, t: State, p: int, d: int, v: int, lost: set<int>) {
    && Good(s) && Good(t) && IsDir(s, p) && IsDir(t, d) && d !in s.owner && 0 <= v <= TOP
    && forall k {:trigger Look(k)} :: Look(k) ==> CopyingOf(s, t, p, d, v, lost)
  }

  ghost predicate CopyingOf(s: State, t: State, p: int, d: int, v: int, lost: set<int>)
    requires Good(s) && Good(t) && IsDir(s, p) && IsDir(t, d) && 0 <= v <= TOP
  {
    && Keeps(s, t, -1, 0, 0) && Frames(t) == Frames(s) && CopyRoles(s, t, d, lost)
    && (forall u :: 0 <= u < v ==> Copied(s, t, p, d, u))
    && (forall u :: v <= u < TOP ==> Pte(t.pages, d, u) == 0)
  }

  /** Frames keep their use, and what is new belongs to d or is lost. */
  ghost predicate CopyRoles(s: State, t: State, d: int, lost: set<int>) {
    && (forall f :: f in s.owner ==> f in t.owner && t.owner[f] == s.owner[f])
    && (forall f :: f in t.owner && f !in s.owner ==> f in lost || About(t.owner[f], f, d))
    && (forall f :: f in lost ==> f in t.owner && (t.owner[f] == Held || t.owner[f] == Upper) && f !in s.owner)
  }

  /** What copyuvm reads of the parent on its way. */
  lemma CopyReads(s: State, t: State, p: int, d: int, v: int, lost: set<int>)
    requires Copying(s, t, p, d, v, lost) && v < TOP
    ensures IsDir(t, p) && Pte(t.pages, p, v) == Pte(s.pages, p, v) && Pte(t.pages, d, v) == 0
    ensures Present(Pte(s.pages, p, v)) ==>
      var f := FrameOf(Pte(s.pages, p, v)); 0 < f < |t.pages| == |s.pages| && t.pages[f] == s.pages[f]
  {
    assert Look(0) && Peek(0);
    if Present(Pte(s.pages, p, v)) {
      PteCleared(s, p, v);
    }
  }

  /** The pages already copied stay while page v is dealt with. */
  lemma CopiedStays(s: State, t: State, r: State, p: int, d: int, v: int, lost: set<int>)
    requires Copying(s, t, p, d, v, lost) && v < TOP && Good(r) && IsDir(r, d) && Keeps(t, r, d, v, v + 1)
    ensures Keeps(s, r, -1, 0, 0)
    ensures forall u :: 0 <= u < v ==> Copied(s, r, p, d, u)
    ensures forall u :: v < u < TOP ==> Pte(r.pages, d, u) == 0
  {
    assert Look(0) && Peek(0);
    forall e, w | IsDir(s, e) && 0 <= e < |s.pages| && 0 <= w < TOP ensures Pte(r.pages, e, w) == Pte(s.pages, e, w) {
      assert IsDir(t, e);
    }
    forall u | 0 <= u < v ensures Copied(s, r, p, d, u) {
      assert Copied(s, t, p, d, u);
      PteCleared(t, d, u);
    }
  }

  /** kalloc gives copyuvm a page, which it fills. */
  lemma CopyTakes(s: State, t: State, p: int, d: int, v: int, lost: set<int>, page: Page)
    requires Copying(s, t, p, d, v, lost) && v < TOP && t.free != [] && |page| == ENTRIES
    ensures 0 < t.free[0] < |t.pages| && t.free[0] !in t.owner
    ensures Copying(s, State(t.pages[t.free[0] := page], t.free[1..], t.owner[t.free[0] := Held]), p, d, v,
      lost + {t.free[0]})
  {
    assert Look(0) && Peek(0);
    Taken(t);
    var f := t.free[0];
    var t1 := State(t.pages, t.free[1..], t.owner[f := Held]);
    Filled(t1, f, page);
    var r := State(t.pages[f := page], t.free[1..], t.owner[f := Held]);
    forall e, w | IsDir(t, e) && 0 <= e < |t.pages| && 0 <= w < TOP ensures Pte(r.pages, e, w) == Pte(t.pages, e, w) {
      assert IsDir(t1, e);
    }
    CopiedStays(s, t, r, p, d, v, lost);
    TakenRoles(s, t, r, d, lost, f);
  }

  lemma TakenRoles(s: State, t: State, r: State, d: int, lost: set<int>, f: int)
    requires CopyRoles(s, t, d, lost) && t.free != [] && f == t.free[0] && f !in t.owner
    requires r.owner == t.owner[f := Held] && r.free == t.free[1..]
    ensures CopyRoles(s, r, d, lost + {f}) && Frames(r) == Frames(t)
  {
  }

  /** mappages enters the page into the child. */
  lemma CopyMaps(s: State, t: State, r: State, p: int, d: int, v: int, lost: set<int>, f: int)
    requires Copying(s, t, p, d, v, lost + {f}) && f !in lost && v < TOP && Present(Pte(s.pages, p, v)) &&
      FrameOf(Pte(s.pages, p, v)) < |s.pages|
    requires 0 < f < |t.pages| && t.pages[f] == s.pages[FrameOf(Pte(s.pages, p, v))]
    requires Good(r) && IsDir(r, d) && Frames(r) == Frames(t) && Keeps(t, r, d, v, v + 1) && Grows(t, r, d, f) &&
      SameData(t, r, -1)
    requires f in r.owner && r.owner[f] == Leaf(d, v) &&
      Pte(r.pages, d, v) == f * PGSIZE + WithP(Flags(Pte(s.pages, p, v)))
    ensures Copying(s, r, p, d, v + 1, lost)
  {
    CopyFacts(s, t, p, d, v, lost + {f});
    CopiedStays(s, t, r, p, d, v, lost + {f});
    CopiedPage(s, t, r, p, d, v, f);
    MappedRoles(s, t, r, d, v, lost, f);
  }

  lemma CopyFacts(s: State, t: State, p: int, d: int, v: int, lost: set<int>)
    requires Copying(s, t, p, d, v, lost)
    ensures Frames(t) == Frames(s) && CopyRoles(s, t, d, lost)
  {
    assert Look(0);
  }

  lemma CopiedPage(s: State, t: State, r: State, p: int, d: int, v: int, f: int)
    requires Good(s) && Good(r) && IsDir(s, p) && IsDir(r, d) && 0 <= v < TOP && |t.pages| == |r.pages|
    requires Present(Pte(s.pages, p, v)) && FrameOf(Pte(s.pages, p, v)) < |s.pages| && f !in s.owner
    requires 0 < f < |t.pages| && t.pages[f] == s.pages[FrameOf(Pte(s.pages, p, v))] && r.pages[f] == t.pages[f]
    requires Pte(r.pages, d, v) == f * PGSIZE + WithP(Flags(Pte(s.pages, p, v)))
    ensures Copied(s, r, p, d, v)
  {
    SameFlags(Pte(s.pages, p, v), f);
  }

  lemma MappedRoles(s: State, t: State, r: State, d: int, v: int, lost: set<int>, f: int)
    requires CopyRoles(s, t, d, lost + {f}) && f !in lost && Grows(t, r, d, f) && f in r.owner &&
      r.owner[f] == Leaf(d, v)
    ensures CopyRoles(s, r, d, lost)
  {
  }

  /** The child has its chain of tables, like every space. */
  lemma CopyChained(s: State, t: State, p: int, d: int, v: int, lost: set<int>, k: nat)
    requires Copying(s, t, p, d, v, lost) && Has(s, k, Kernel)
    ensures Chained(t.pages, d, k)
  {
    assert Look(0);
    RootFound(t, d, k);
  }

  lemma NotLost(s: State, t: State, p: int, d: int, v: int, lost: set<int>, f: int)
    requires Copying(s, t, p, d, v, lost) && f !in t.owner
    ensures f !in lost
  {
    assert Look(0);
  }

  lemma SameFlags(w: nat, f: nat)
    requires Present(w)
    ensures var x := f * PGSIZE + WithP(Flags(w)); Present(x) && FrameOf(x) == f && Flags(x) == Flags(w)
  {
    assert w == FrameOf(w) * PGSIZE + Flags(w);
    EntryParts(FrameOf(w), Flags(w));
    EntryParts(f, WithP(Flags(w)));
  }

  lemma LeftOver(s: State, t: State, r: State, d: int, lost: set<int>)
    requires Inv(s) && IsDir(t, d) && d !in s.owner && CopyRoles(s, t, d, lost) && Gone(t, r, d)
    ensures r.owner.Keys == s.owner.Keys + lost && forall f :: f in s.owner ==> r.owner[f] == s.owner[f]
  {
    forall f | f in s.owner || f in lost ensures f in r.owner && (f in s.owner ==> r.owner[f] == s.owner[f]) {
      assert f in s.owner ==> LinkOk(s, f);
      assert !About(t.owner[f], f, d);
    }
    forall f | f in r.owner ensures f in s.owner || f in lost {
      assert !About(r.owner[f], f, d);
    }
  }

  /** When copyuvm gives up, freevm leaves every other space as it was. */
  lemma CopyFails(s: State, t: State, r: State, p: int, d: int, v: int, lost: set<int>)
    requires Copying(s, t, p, d, v, lost) && Good(r) && Gone(t, r, d)
    ensures Keeps(s, r, -1, 0, 0) && Frames(r) == Frames(s) && r.owner.Keys == s.owner.Keys + lost
  {
    assert Look(0) && Peek(0);
    LeftOver(s, t, r, d, lost);
    forall e, w | IsDir(s, e) && 0 <= e < |s.pages| && 0 <= w < TOP ensures Pte(r.pages, e, w) == Pte(s.pages, e, w) {
      assert IsDir(t, e);
    }
  }

  /** What copyuvm's result means: parent and child agree on every page below sz and share no frame. */
  lemma ForkedSpace(s: State, t: State, p: int, d: int, n: int, lost: set<int>, u: int, v: int)
    requires Copying(s, t, p, d, n, lost) && 0 <= u < TOP && 0 <= v < TOP
    ensures |t.pages| == |s.pages| && IsDir(t, p) && Pte(t.pages, p, u) == Pte(s.pages, p, u)
    ensures u < n ==> Present(Pte(t.pages, d, u)) && Flags(Pte(t.pages, d, u)) == Flags(Pte(t.pages, p, u))
    ensures u >= n ==> Pte(t.pages, d, u) == 0
    ensures u < n && Present(Pte(s.pages, p, u)) ==>
      var f, g := FrameOf(Pte(t.pages, d, u)), FrameOf(Pte(t.pages, p, u));
      f < |t.pages| && g < |t.pages| && t.pages[f] == t.pages[g] == s.pages[g]
    ensures Present(Pte(t.pages, d, u)) && Present(Pte(t.pages, p, v)) ==>
      FrameOf(Pte(t.pages, d, u)) != FrameOf(Pte(t.pages, p, v))
  {
    assert Look(0) && Peek(0);
    assert u < n ==> Copied(s, t, p, d, u);
    if Present(Pte(s.pages, p, u)) {
      PteCleared(s, p, u);
    }
    if Present(Pte(s.pages, p, v)) {
      PteCleared(s, p, v);
    }
  }

  // --- allocuvm ---

  /** Page u of d is a new page of zeros that the user may write. */
  ghost predicate NewPage(s: State, t: State, d: int, u: int)
    requires Whole(t.pages) && 0 <= d < |t.pages| && 0 <= u < TOP
  {
    var x := Pte(t.pages, d, u);
    Present(x) && Flags(x) == PWU && FrameOf(x) < |t.pages| && t.pages[FrameOf(x)] == ZeroPage() &&
      FrameOf(x) !in s.owner
  }

  /**
    allocuvm has dealt with the pages lo..v of d.  It does not look at the result of mappages: if
    missed, the last of them is not mapped, and there is no memory left.  `lost` are new pages that
    nobody uses.
  */
  ghost predicate Growing(s: State, t: State, d: int, lo: int, v: int, hi: int, missed: bool, lost: set<int>) {
    && Good(s) && Good(t) && IsDir(s, d) && IsDir(t, d) && 0 <= lo <= v && hi <= TOP && (missed ==> lo < v <= hi)
    && forall k {:trigger Look(k)} :: Look(k) ==> GrowingOf(s, t, d, lo, v, hi, missed, lost)
  }

  ghost predicate GrowingOf(s: State, t: State, d: int, lo: int, v: int, hi: int, missed: bool, lost: set<int>)
    requires Good(s) && Good(t) && IsDir(s, d) && IsDir(t, d) && 0 <= lo <= v && hi <= TOP
  {
    && Keeps(s, t, d, lo, hi) && Frames(t) == Frames(s) && GrowRoles(s, t, d, lo, v, lost)
    && (forall u :: lo <= u < hi ==> Pte(s.pages, d, u) == 0)
    && (forall u :: lo <= u < v && u < hi && !(missed && u == v - 1) ==> NewPage(s, t, d, u))
    && (forall u :: v <= u < hi ==> Pte(t.pages, d, u) == 0)
    && (missed ==>
         t.free == [] && 0 <= v - 1 < TOP && Pte(t.pages, d, v - 1) == 0 && !Present(t.pages[d][(v - 1) / ENTRIES]))
  }

  /** Frames keep their use; what is new is pages lo..v of d, page tables of d, or lost. */
  ghost predicate GrowRoles(s: State, t: State, d: int, lo: int, v: int, lost: set<int>) {
    && (forall f :: f in s.owner ==> f in t.owner && t.owner[f] == s.owner[f])
    && (forall f :: f in t.owner && f !in s.owner ==> f in lost || NewRole(t.owner[f], d, lo, v))
    && (forall f :: f in lost ==> f in t.owner && t.owner[f] == Held && f !in s.owner)
  }

  predicate NewRole(r: Role, d: int, lo: int, v: int) {
    (r.Table? && r.d == d) || (r.Leaf? && r.d == d && lo <= r.v < v)
  }

  lemma GrowingStarts(s: State, d: int, lo: nat, hi: nat)
    requires Good(s) && IsDir(s, d) && hi <= TOP && forall u :: lo <= u < hi ==> Pte(s.pages, d, u) == 0
    ensures Growing(s, s, d, lo, lo, hi, false, {})
  {
  }

  lemma GrowingFacts(s: State, t: State, d: int, lo: int, v: int, hi: int, missed: bool, lost: set<int>)
    requires Growing(s, t, d, lo, v, hi, missed, lost)
    ensures missed ==> t.free == []
    ensures v < hi ==> Pte(t.pages, d, v) == 0
    ensures Keeps(s, t, d, lo, hi) && Frames(t) == Frames(s) && GrowRoles(s, t, d, lo, v, lost)
  {
    assert Look(0);
  }

  /** Which of the new pages are there in the end. */
  lemma GrowingMeans(s: State, t: State, d: int, lo: int, hi: int, missed: bool, lost: set<int>, u: int)
    requires Growing(s, t, d, lo, hi, hi, missed, lost) && lo <= u < hi
    ensures if missed && u == hi - 1 then !Present(Pte(t.pages, d, u)) && !Present(t.pages[d][u / ENTRIES]) &&
      t.free == []
            else NewPage(s, t, d, u)
  {
    assert Look(0);
  }

  /** kalloc and memset. */
  lemma GrowingTakes(s: State, t: State, d: int, lo: int, v: int, hi: int, lost: set<int>)
    requires Growing(s, t, d, lo, v, hi, false, lost) && v < hi && t.free != []
    ensures 0 < t.free[0] < |t.pages| && t.free[0] !in t.owner && t.free[0] !in lost && t.free[0] !in s.owner
    ensures
      var r := State(t.pages[t.free[0] := ZeroPage()], t.free[1..], t.owner[t.free[0] := Held]);
      Growing(s, r, d, lo, v, hi, false, lost + {t.free[0]})
  {
    assert Look(0) && Peek(0);
    Taken(t);
    var f := t.free[0];
    var t1 := State(t.pages, t.free[1..], t.owner[f := Held]);
    Filled(t1, f, ZeroPage());
    var r := State(t.pages[f := ZeroPage()], t.free[1..], t.owner[f := Held]);
    forall e, w | IsDir(t, e) && 0 <= e < |t.pages| && 0 <= w < TOP ensures Pte(r.pages, e, w) == Pte(t.pages, e, w) {
      assert IsDir(t1, e);
    }
    assert Frames(r) == Frames(t);
    NewPagesStay(s, t, r, d, lo, v, hi, lost);
  }

  lemma NewPagesStay(s: State, t: State, r: State, d: int, lo: int, v: int, hi: int, lost: set<int>)
    requires Growing(s, t, d, lo, v, hi, false, lost) && v < hi && Good(r) && IsDir(r, d) && Keeps(t, r, d, v, v + 1)
    ensures Keeps(s, r, d, lo, hi)
    ensures forall u :: lo <= u < v ==> NewPage(s, r, d, u)
    ensures forall u :: v < u < hi ==> Pte(r.pages, d, u) == 0
    ensures forall u :: lo <= u < hi ==> Pte(s.pages, d, u) == 0
  {
    assert Look(0) && Peek(0);
    forall e, w | IsDir(s, e) && 0 <= e < |s.pages| && 0 <= w < TOP && !(e == d && lo <= w < hi)
      ensures Pte(r.pages, e, w) == Pte(s.pages, e, w)
    {
      assert IsDir(t, e);
    }
    forall u | lo <= u < v ensures NewPage(s, r, d, u) {
      assert NewPage(s, t, d, u);
      PteCleared(t, d, u);
    }
  }

  /** mappages succeeds. */
  lemma GrowingMaps(s: State, t: State, r: State, d: int, lo: int, v: int, hi: int, lost: set<int>, f: int)
    requires Growing(s, t, d, lo, v, hi, false, lost + {f}) && f !in lost && v < hi
    requires 0 < f < |t.pages| && t.pages[f] == ZeroPage()
    requires Good(r) && IsDir(r, d) && Frames(r) == Frames(t) && Keeps(t, r, d, v, v + 1) && Grows(t, r, d, f) &&
      SameData(t, r, -1)
    requires Pte(r.pages, d, v) == f * PGSIZE + WithP(6) && f in r.owner && r.owner[f] == Leaf(d, v)
    ensures Growing(s, r, d, lo, v + 1, hi, false, lost)
  {
    GrowingFacts(s, t, d, lo, v, hi, false, lost + {f});
    NewPagesStay(s, t, r, d, lo, v, hi, lost + {f});
    MappedNew(s, t, r, d, v, f);
    GrownRoles(s, t, r, d, lo, v, lost, f);
  }

  lemma MappedNew(s: State, t: State, r: State, d: int, v: int, f: int)
    requires Good(r) && IsDir(r, d) && 0 <= v < TOP && |t.pages| == |r.pages| && f !in s.owner
    requires 0 < f < |t.pages| && t.pages[f] == ZeroPage() && r.pages[f] == t.pages[f]
    requires Pte(r.pages, d, v) == f * PGSIZE + WithP(6)
    ensures NewPage(s, r, d, v)
  {
    EntryParts(f, WithP(6));
  }

  lemma GrownRoles(s: State, t: State, r: State, d: int, lo: int, v: int, lost: set<int>, f: int)
    requires GrowRoles(s, t, d, lo, v, lost + {f}) && f !in lost && lo <= v
    requires Grows(t, r, d, f) && f in r.owner && r.owner[f] == Leaf(d, v)
    ensures GrowRoles(s, r, d, lo, v + 1, lost)
  {
  }

  /** mappages fails, for want of a page table: the page in hand is lost. */
  lemma GrowingMisses(s: State, t: State, d: int, lo: int, v: int, hi: int, lost: set<int>)
    requires Growing(s, t, d, lo, v, hi, false, lost) && v < hi && t.free == [] && !Present(t.pages[d][v / ENTRIES])
    ensures Growing(s, t, d, lo, v + 1, hi, true, lost)
  {
    assert Look(0);
  }

  function Max(a: int, b: int): int { if a > b then a else b }

  /** PGROUNDUP, in pages. */
  function Pages(sz: nat): nat { (sz + PGSIZE - 1) / PGSIZE }

  /** When allocuvm runs out of memory, what it mapped is taken back; the lost page and the new tables are not. */
  lemma GrowingUndone(s: State, t: State, r: State, d: int, lo: nat, v: nat, hi: nat, missed: bool, lost: set<int>)
    requires Growing(s, t, d, lo, v, hi, missed, lost) && lo < hi && v <= hi && Good(r) && IsDir(r, d) &&
      |r.pages| == |t.pages|
    requires Cleared(t, r, d, lo, hi, hi) && Keeps(t, r, d, lo, hi)
    ensures Keeps(s, r, d, lo, hi) && forall u :: lo <= u < hi ==> !Present(Pte(r.pages, d, u))
  {
    assert Look(0) && Peek(0);
    forall e, w | IsDir(s, e) && 0 <= e < |s.pages| && 0 <= w < TOP && !(e == d && lo <= w < hi)
      ensures Pte(r.pages, e, w) == Pte(s.pages, e, w)
    {
      assert IsDir(t, e);
    }
    forall u | lo <= u < hi ensures !Present(Pte(r.pages, d, u)) {
      if Present(Pte(t.pages, d, u)) {
        assert !(missed && lo == v - 1) ==> NewPage(s, t, d, lo);
        VisitsAll(t.pages[d], lo, hi, u);
      }
    }
  }

  /** The frames in use after allocuvm has given up: those in use before, the lost page and new tables of d. */
  lemma UndoneRoles(s: State, t: State, r: State, d: int, lo: nat, v: nat, hi: nat, missed: bool, lost: set<int>)
    requires Growing(s, t, d, lo, v, hi, missed, lost) && Good(r) && IsDir(r, d) && |r.pages| == |t.pages|
    requires r.pages[d] == t.pages[d] && Shrinks(t, r, d) && Keeps(t, r, d, lo, hi) && v <= hi
    requires forall u :: lo <= u < hi ==> !Present(Pte(r.pages, d, u))
    ensures GrowRoles(s, r, d, lo, lo, lost)
  {
    assert Look(0) && Peek(0);
    forall f | f in s.owner ensures f in r.owner && r.owner[f] == s.owner[f] {
      assert LinkOk(t, f) && LinkOk(s, f);
      if s.owner[f].Table? && s.owner[f].d == d {
        assert DirEntryOk(r, d, s.owner[f].i);
      }
    }
    forall f | f in lost ensures f in r.owner {
      assert !About(t.owner[f], f, d);
    }
    forall f | f in r.owner && f !in s.owner ensures f in lost || NewRole(r.owner[f], d, lo, lo) {
      assert LinkOk(r, f);
    }
  }

  /** Three calls of kalloc. */
  lemma TakenThree(s: State, a: int, b: int, d: int)
    requires Inv(s) && |s.free| >= 3 && a == s.free[0] && b == s.free[1] && d == s.free[2]
    ensures a !in s.owner && b !in s.owner && d !in s.owner && a != b && a != d && b != d
    ensures
      var t := State(s.pages, s.free[3..], s.owner[a := Held][b := Held][d := Held]);
      Inv(t) && Frames(t) == Frames(s)
  {
    var s1 := State(s.pages, s.free[1..], s.owner[a := Held]);
    Taken(s);
    var s2 := State(s.pages, s.free[2..], s1.owner[b := Held]);
    Taken(s1);
    assert s1.free[1..] == s2.free;
    Taken(s2);
    assert s2.free[1..] == s.free[3..];
  }

  /** The tables that setupkvm makes, and the directory. */
  function TopTable(pdpt: nat, kpdpt: nat): Page {
    ZeroPage()[511 := kpdpt * PGSIZE + PWU][0 := pdpt * PGSIZE + PWU]
  }

  function SecondTable(d: nat): Page { ZeroPage()[0 := d * PGSIZE + PWU] }

  function Directory(pml4: nat, pdpt: nat): Page {
    ZeroPage()[511 := pml4 * PGSIZE + 1][510 := pdpt * PGSIZE + 1]
  }

  /** They are chained. */
  lemma ChainMade(pages: seq<Page>, a: nat, b: nat, d: nat, k: nat)
    requires Whole(pages) && a < |pages| && b < |pages| && d < |pages| && a != b && a != d && b != d
    ensures
      var t := pages[a := TopTable(b, k)][b := SecondTable(d)][d := Directory(a, b)];
      Whole(t) && Pml4(t, d) == a && Pdpt(t, d) == b && Chained(t, d, k)
  {
    EntryParts(a, 1);
    EntryParts(b, 1);
    EntryParts(b, PWU);
    EntryParts(d, PWU);
    EntryParts(k, PWU);
  }

  lemma RolesAgain(m: map<int, Role>, a: int, b: int, d: int)
    ensures m[a := Held][b := Held][d := Held][a := Upper][b := Upper][d := Dir] == m[a := Upper][b := Upper][d := Dir]
  {
  }

  lemma SetUp(s: State, a: nat, b: nat, d: nat, k: nat)
    requires Good(s) && |s.free| >= 3 && a == s.free[0] && b == s.free[1] && d == s.free[2] && Has(s, k, Kernel)
    ensures 0 < a < |s.pages| && 0 < b < |s.pages| && 0 < d < |s.pages|
    ensures
      var pages := s.pages[a := TopTable(b, k)][b := SecondTable(d)][d := Directory(a, b)];
      var t := State(pages, s.free[3..], s.owner[a := Upper][b := Upper][d := Dir]);
      && Good(t) && IsDir(t, d) && Chained(pages, d, k) && a == Pml4(pages, d) && b == Pdpt(pages, d) && |{a, b}| == 2
      && forall p :: IsDir(s, p) ==> Copying(s, t, p, d, 0, {a, b})
  {
    assert Peek(0);
    var s3 := State(s.pages, s.free[3..], s.owner[a := Held][b := Held][d := Held]);
    TakenThree(s, a, b, d);
    var s4 := s3.(pages := s.pages[a := TopTable(b, k)]);
    Filled(s3, a, TopTable(b, k));
    var s5 := s3.(pages := s4.pages[b := SecondTable(d)]);
    Filled(s4, b, SecondTable(d));
    ChainMade(s.pages, a, b, d, k);
    var t := State(s5.pages[d := Directory(a, b)], s5.free, s5.owner[a := Upper][b := Upper][d := Dir]);
    DirMade(s5, a, b, d, Directory(a, b), k);
    assert t.owner == s.owner[a := Upper][b := Upper][d := Dir];
    forall e, u | IsDir(s, e) && 0 <= e < |s.pages| && 0 <= u < TOP ensures Pte(t.pages, e, u) == Pte(s.pages, e, u) {
      assert IsDir(s3, e) && IsDir(s4, e) && IsDir(s5, e);
    }
    assert Frames(t) == Frames(s3);
  }

  // --- How many pages it takes ---

  /** Page u, mapped after the pages lo..u, is the first one of a page table that the directory lacked at the start. */
  predicate NeedsTable(dir: Page, lo: nat, u: nat)
    requires |dir| == ENTRIES && u < TOP
  {
    !Present(dir[u / ENTRIES]) && (u == lo || u % ENTRIES == 0)
  }

  /** The pages of memory that mapping the pages lo..hi takes: themselves, and the page tables that are not there. */
  function Need(dir: Page, lo: nat, hi: nat): (n: nat)
    requires |dir| == ENTRIES && hi <= TOP
    ensures n >= hi - lo
  {
    if hi <= lo then 0 else Need(dir, lo, hi - 1) + (if NeedsTable(dir, lo, hi - 1) then 2 else 1)
  }

  lemma {:induction false} NeedGrows(dir: Page, lo: nat, v: nat, hi: nat)
    requires |dir| == ENTRIES && lo <= v <= hi <= TOP
    ensures Need(dir, lo, v) + hi - v <= Need(dir, lo, hi)
  {
    if v < hi {
      NeedGrows(dir, lo, v, hi - 1);
    }
  }

  /** The pages that copyuvm takes for n pages of the parent, besides the three of setupkvm. */
  function CopyNeed(n: nat): nat { n + (n + ENTRIES - 1) / ENTRIES }

  /**
    How copyuvm of n pages ends if the first `run` of them are there: -2 if memory does not suffice
    for setupkvm, 0 if it does not for the pages that are there, else -1 at a missing page, or 1.
  */
  function CopyOutcome(memory: nat, run: nat, n: nat): int {
    if memory < 3 then -2 else if memory < 3 + CopyNeed(run) then 0 else if run < n then -1 else 1
  }

  /** Whether copyuvm, with too little memory, runs out at a page table, with a page in hand. */
  function Stranded(memory: nat): nat { if memory % (ENTRIES + 1) == 1 then 1 else 0 }

  /** That is what an empty directory needs. */
  lemma {:induction false} NeedFromEmpty(dir: Page, n: nat)
    requires |dir| == ENTRIES && n <= TOP && forall i :: 0 <= i < 510 ==> dir[i] == 0
    ensures Need(dir, 0, n) == CopyNeed(n)
    ensures n < TOP ==> (NeedsTable(dir, 0, n) <==> n % ENTRIES == 0)
  {
    if n > 0 {
      NeedFromEmpty(dir, n - 1);
    }
  }

  /** Memory that is one page short at a page table leaves a remainder of one. */
  lemma ShortOfTable(i: nat)
    ensures (CopyNeed(i) + 1) % (ENTRIES + 1) == 1 <==> i % ENTRIES == 0
    ensures i % ENTRIES != 0 ==> CopyNeed(i) % (ENTRIES + 1) != 1
    ensures i % ENTRIES == 0 ==> CopyNeed(i) % (ENTRIES + 1) == 0
  {
    var q, k := i / ENTRIES, i % ENTRIES;
    assert i == q * ENTRIES + k;
    if k == 0 {
      assert CopyNeed(i) == q * (ENTRIES + 1);
    } else {
      assert CopyNeed(i) == q * (ENTRIES + 1) + k + 1;
    }
  }

  /** The pages lo..v have been mapped with what there was of memory and page tables at the start. */
  ghost predicate Counted(dir: Page, memory: nat, lo: nat, v: nat, now: Page, left: nat) {
    && |dir| == |now| == ENTRIES && lo <= v <= TOP && left + Need(dir, lo, v) == memory
    && forall k {:trigger Glance(k)} :: Glance(k) ==> Tables(dir, lo, v, now)
  }

  /** The page tables that there are after the pages lo..v have been mapped. */
  ghost predicate Tables(dir: Page, lo: nat, v: nat, now: Page)
    requires |dir| == |now| == ENTRIES
  {
    forall j :: 0 <= j < USERDIRS ==>
      (Present(now[j]) <==> Present(dir[j]) || (lo < v && lo / ENTRIES <= j <= (v - 1) / ENTRIES))
  }

  /** Page v gets a page of memory and, if it has none, its page table another one. */
  ghost predicate Mapped(now: Page, left: nat, v: nat, later: Page, rest: int) {
    && |now| == |later| == ENTRIES && v < TOP
    && (forall j :: 0 <= j < ENTRIES && j != v / ENTRIES ==> later[j] == now[j]) && Present(later[v / ENTRIES])
    && rest == left - if Present(now[v / ENTRIES]) then 1 else 2
  }

  lemma CountedTable(dir: Page, memory: nat, lo: nat, v: nat, now: Page, left: nat)
    requires Counted(dir, memory, lo, v, now, left) && v < TOP
    ensures Present(now[v / ENTRIES]) <==> !NeedsTable(dir, lo, v)
  {
    assert Glance(0);
  }

  lemma CountedMore(dir: Page, memory: nat, lo: nat, v: nat, now: Page, left: nat, later: Page, rest: nat)
    requires Counted(dir, memory, lo, v, now, left) && Mapped(now, left, v, later, rest)
    ensures Counted(dir, memory, lo, v + 1, later, rest)
  {
    assert Glance(0);
    CountedTable(dir, memory, lo, v, now, left);
  }

  /** How many pages of the space p, counted from 0, are there before the first one missing below n. */
  ghost function Run(pages: seq<Page>, p: int, n: nat): (m: nat)
    requires Whole(pages) && 0 <= p < |pages| && n <= TOP
    ensures m <= n && (forall u :: 0 <= u < m ==> Present(Pte(pages, p, u))) && (m < n ==> !Present(Pte(pages, p, m)))
  {
    if n == 0 then 0
    else if Run(pages, p, n - 1) == n - 1 && Present(Pte(pages, p, n - 1)) then n
    else Run(pages, p, n - 1)
  }

  predicate Enough(dir: Page, memory: nat, lo: nat, hi: nat)
    requires |dir| == ENTRIES && hi <= TOP
  {
    memory >= Need(dir, lo, hi)
  }

  /**
    Memory is one page short for the pages lo..hi, and the last of them is the first one of a page table to be made.
  */
  predicate OneShort(dir: Page, memory: nat, lo: nat, hi: nat)
    requires |dir| == ENTRIES && hi <= TOP
  {
    lo < hi && NeedsTable(dir, lo, hi - 1) && memory + 1 == Need(dir, lo, hi)
  }

  /** Memory runs out, with a page in hand, at the page table of one of the pages lo..hi. */
  predicate Strands(dir: Page, memory: nat, lo: nat, hi: nat)
    requires |dir| == ENTRIES && hi <= TOP
  {
    exists v :: lo < v <= hi && OneShort(dir, memory, lo, v)
  }

  /** allocuvm's use of memory at page v; if missed, there was no page for the table of page v - 1. */
  ghost predicate Tally(dir: Page, memory: nat, lo: nat, v: nat, now: Page, left: nat, missed: bool) {
    if missed then |dir| == ENTRIES && v <= TOP && left == 0 && OneShort(dir, memory, lo, v)
    else Counted(dir, memory, lo, v, now, left)
  }

  lemma TallyMore(dir: Page, memory: nat, lo: nat, v: nat, now: Page, left: nat, before: bool, later: Page,
                  rest: nat, missed: bool)
    requires Tally(dir, memory, lo, v, now, left, before) && left > 0 && v < TOP && |now| == ENTRIES
    requires missed <==> left == 1 && !Present(now[v / ENTRIES])
    requires if missed then rest == 0 else Mapped(now, left, v, later, rest)
    ensures Tally(dir, memory, lo, v + 1, later, rest, missed)
  {
    CountedTable(dir, memory, lo, v, now, left);
    if !missed {
      CountedMore(dir, memory, lo, v, now, left, later, rest);
    }
  }

  lemma TallyIn(dir: Page, memory: nat, lo: nat, v: nat, hi: nat, now: Page, left: nat, missed: bool)
    requires Tally(dir, memory, lo, v, now, left, missed) && hi <= TOP && (v == hi || (hi <= v == lo))
    ensures (missed <==> OneShort(dir, memory, lo, hi)) && (missed || Enough(dir, memory, lo, hi))
    ensures missed <==> Strands(dir, memory, lo, hi)
  {
    if !missed {
      forall u | lo < u <= hi ensures !OneShort(dir, memory, lo, u) {
        NeedGrows(dir, lo, u, hi);
      }
    }
  }

  lemma TallyOut(dir: Page, memory: nat, lo: nat, v: nat, hi: nat, now: Page, missed: bool)
    requires Tally(dir, memory, lo, v, now, 0, missed) && v < hi <= TOP
    ensures !Enough(dir, memory, lo, hi) && !OneShort(dir, memory, lo, hi)
    ensures missed <==> Strands(dir, memory, lo, hi)
  {
    NeedGrows(dir, lo, v, hi);
    NeedGrows(dir, lo, v, hi - 1);
    if !missed {
      forall u | lo < u <= hi ensures !OneShort(dir, memory, lo, u) {
        if u <= v {
          NeedGrows(dir, lo, u, v);
        } else {
          NeedGrows(dir, lo, v, u - 1);
        }
      }
    }
  }

  /** The copy stops at page i of n because memory has run out. */
  lemma RanOut(dir: Page, memory: nat, i: nat, n: nat, now: Page, left: nat)
    requires Counted(dir, memory, 0, i, now, left) && i < n <= TOP && forall j :: 0 <= j < 510 ==> dir[j] == 0
    requires left < if Present(now[i / ENTRIES]) then 1 else 2
    ensures memory < CopyNeed(n) && left == Stranded(memory)
  {
    NeedFromEmpty(dir, i);
    NeedFromEmpty(dir, i + 1);
    NeedFromEmpty(dir, n);
    NeedGrows(dir, 0, i + 1, n);
    CountedTable(dir, memory, 0, i, now, left);
    ShortOfTable(i);
  }

  datatype Pool = Pool(pages: seq<Page>)
  datatype Owners = Owners(roles: map<int, Role>)

  class Vm {
    var mem: Pool
    var free: seq<nat>
    ghost var owner: Owners
    /** The frame of the table that kvmalloc made for the kernel's own mapping. */
    const kpdpt: nat

    constructor (pages: seq<Page>, free: seq<nat>, kpdpt: nat, ghost roles: map<int, Role>)
      ensures mem == Pool(pages) && this.free == free && this.kpdpt == kpdpt && owner == Owners(roles)
    {
      mem, this.free, this.kpdpt, owner := Pool(pages), free, kpdpt, Owners(roles);
    }

    ghost function Now(): State
      reads this
    {
      State(mem.pages, free, owner.roles)
    }

    /** A page of physical memory, 0 if there is none. */
    method KAlloc() returns (f: nat)
      requires Good(Now())
      modifies this`free, this`owner
      ensures Good(Now()) && (f == 0 <==> old(free) == []) && Frames(Now()) == old(Frames(Now()))
      ensures f == 0 ==> Now() == old(Now())
      ensures f != 0 ==>
        f == old(free[0]) && Now() == old(State(mem.pages, free[1..], owner.roles[f := Held])) &&
          f !in old(owner.roles) && f < |mem.pages|
    {
      assert Peek(0);
      if free == [] {
        return 0;
      }
      Taken(Now());
      f := free[0];
      free := free[1..];
      owner := Owners(owner.roles[f := Held]);
    }

    /** Put a page on the free list, filled with junk. */
    method KFree(f: nat)
      requires f < |mem.pages|
      modifies this`mem, this`free
      ensures free == [f] + old(free) && mem == Pool(old(mem.pages)[f := JunkPage()])
    {
      mem := Pool(mem.pages[f := JunkPage()]);
      free := [f] + free;
    }

    /**
      walkpgdir: the frame of the page table for page v, 0 if there is none and none is to be, or
      can be, allocated.  No page of any space is affected.
    */
    method Walk(d: nat, v: nat, alloc: bool) returns (t: nat)
      requires Good(Now()) && IsDir(Now(), d) && v < TOP
      modifies this
      ensures Good(Now()) && IsDir(Now(), d) && Keeps(old(Now()), Now(), d, 0, 0) && Frames(Now()) == old(Frames(Now()))
      ensures t == 0 <==> old(!Present(mem.pages[d][v / ENTRIES])) && (!alloc || old(free) == [])
      ensures t == 0 || old(Present(mem.pages[d][v / ENTRIES])) ==> Now() == old(Now())
      ensures t != 0 ==> Present(mem.pages[d][v / ENTRIES]) && TableFor(mem.pages, d, v) == t < |mem.pages|
      ensures Grows(old(Now()), Now(), d, -1) && SameData(old(Now()), Now(), -1)
      ensures t != 0 ==> Mapped(old(mem.pages[d]), |old(free)| + 1, v, mem.pages[d], |free|)
    {
      assert Peek(0);
      var pde := mem.pages[d][v / ENTRIES];
      if Present(pde) {
        TableFound(Now(), d, v);
        t := FrameOf(pde);
      } else {
        if !alloc {
          return 0;
        }
        t := KAlloc();
        if t == 0 {
          return 0;
        }
        TableMade(Now(), d, v / ENTRIES, t);
        mem := Pool(mem.pages[t := ZeroPage()]);
        var dir: Page := mem.pages[d][v / ENTRIES := t * PGSIZE + PWU];
        mem := Pool(mem.pages[d := dir]);
        owner := Owners(owner.roles[t := Table(d, v / ENTRIES)]);
      }
    }

    /** mappages for one page: 0, -1 if a page table is needed and there is no memory, -2 for the panic "remap". */
    method MapPage(d: nat, v: nat, f: nat, perm: nat) returns (r: int)
      requires Good(Now()) && IsDir(Now(), d) && v < TOP && perm < PGSIZE && f in owner.roles && owner.roles[f] == Held
      modifies this
      ensures Good(Now()) && IsDir(Now(), d) && Frames(Now()) == old(Frames(Now()))
      ensures r == 0 || r == -1 || r == -2
      ensures r == -2 <==> Present(old(Pte(mem.pages, d, v)))
      ensures r == -1 <==> old(!Present(mem.pages[d][v / ENTRIES]) && free == [])
      ensures r != 0 ==> Now() == old(Now())
      ensures r == 0 ==>
        Pte(mem.pages, d, v) == f * PGSIZE + WithP(perm) && f in owner.roles && owner.roles[f] == Leaf(d, v)
      ensures Keeps(old(Now()), Now(), d, v, v + 1) && Grows(old(Now()), Now(), d, f) && SameData(old(Now()), Now(), -1)
      ensures r == 0 ==> Mapped(old(mem.pages[d]), |old(free)| + 1, v, mem.pages[d], |free|)
    {
      ghost var s := Now();
      var t := Walk(d, v, true);
      if t == 0 {
        return -1;
      }
      ghost var s1 := Now();
      if Present(mem.pages[t][v % ENTRIES]) {
        return -2;
      }
      PageMapped(s, s1, d, v, f, perm);
      var table: Page := mem.pages[t][v % ENTRIES := f * PGSIZE + WithP(perm)];
      mem := Pool(mem.pages[t := table]);
      owner := Owners(owner.roles[f := Leaf(d, v)]);
      return 0;
    }

    /** kfree of the page behind an entry, which is then cleared. */
    method FreePage(d: nat, v: nat, t: nat)
      requires Good(Now()) && IsDir(Now(), d) && v < TOP && Present(Pte(mem.pages, d, v)) &&
        t == TableFor(mem.pages, d, v) < |mem.pages|
      modifies this
      ensures Good(Now()) && IsDir(Now(), d) && mem.pages[d] == old(mem.pages[d]) &&
        Keeps(old(Now()), Now(), d, v, v + 1) && Shrinks(old(Now()), Now(), d) && Frames(Now()) == old(Frames(Now()))
      ensures Pte(mem.pages, d, v) == 0
    {
      assert Peek(0);
      PageFreed(Now(), d, v);
      var f := FrameOf(mem.pages[t][v % ENTRIES]);
      KFree(f);
      var table: Page := mem.pages[t][v % ENTRIES := 0];
      mem := Pool(mem.pages[t := table]);
      owner := Owners(owner.roles - {f});
    }

    /** The loop of deallocuvm over pages lo..hi. */
    method DeallocPages(d: nat, lo: nat, hi: nat)
      requires Good(Now()) && IsDir(Now(), d) && hi <= TOP
      modifies this
      ensures Good(Now()) && IsDir(Now(), d) && mem.pages[d] == old(mem.pages[d]) &&
        Keeps(old(Now()), Now(), d, lo, hi) && Shrinks(old(Now()), Now(), d) && Frames(Now()) == old(Frames(Now()))
      ensures Cleared(old(Now()), Now(), d, lo, hi, hi)
    {
      ghost var s := Now();
      var v := lo;
      ClearingStarts(s, d, lo, hi);
      while v < hi
        invariant Clearing(s, Now(), d, lo, v, hi)
        decreases hi - v
      {
        ghost var s1 := Now();
        var t := Walk(d, v, false);
        if t == 0 {
          ClearingSkips(s, s1, d, lo, v, hi);
          v := v + ENTRIES - 1;
        } else if Present(mem.pages[t][v % ENTRIES]) {
          FreePage(d, v, t);
          ClearingFrees(s, s1, Now(), d, lo, v, hi);
        } else {
          ClearingStays(s, s1, d, lo, v, hi);
        }
        v := v + 1;
      }
      ClearingEnds(s, Now(), d, lo, v, hi);
    }

    /** freevm: nothing is left of the space but the two upper tables that setupkvm made. */
    method FreeVm(d: nat)
      requires Good(Now()) && IsDir(Now(), d)
      modifies this
      ensures Good(Now()) && Gone(old(Now()), Now(), d)
    {
      ghost var s := Now();
      DeallocPages(d, 0, TOP);
      ghost var e := Now();
      FreeingStarts(s, e, d);
      var i := 0;
      while i < 510
        invariant 0 <= i <= 510 && free == e.free && owner.roles == e.owner && Freeing(s, e, d, i, mem.pages)
      {
        if Present(mem.pages[d][i]) {
          FreeingTable(s, e, d, i, mem.pages);
          var p := FrameOf(mem.pages[d][i]);
          e := State(WithoutTable(e.pages, d, i)[p := JunkPage()], [p] + e.free, e.owner - {p});
          KFree(p);
          owner := Owners(owner.roles - {p});
        } else {
          FreeingSkips(s, e, d, i, mem.pages);
        }
        i := i + 1;
      }
      FreeingEnds(s, e, d, mem.pages);
      KFree(d);
      owner := Owners(owner.roles - {d});
    }

    /**
      setupkvm: a new page directory with no user pages.  Its last two entries name two new upper tables, which
      lead to it and to the kernel's own table.  0 if there are not three pages, which the code does not test for.
    */
    method SetupKvm() returns (d: nat, ghost upper: set<int>)
      requires Good(Now()) && Has(Now(), kpdpt, Kernel)
      modifies this
      ensures Good(Now()) && (d == 0 <==> |old(free)| < 3)
      ensures d != 0 ==> forall p :: IsDir(old(Now()), p) ==> Copying(old(Now()), Now(), p, d, 0, upper)
      ensures d != 0 ==> IsDir(Now(), d) && Chained(mem.pages, d, kpdpt)
      ensures d != 0 ==> upper == {Pml4(mem.pages, d), Pdpt(mem.pages, d)} && |upper| == 2
      ensures d != 0 ==> |free| == |old(free)| - 3 && forall i :: 0 <= i < 510 ==> mem.pages[d][i] == 0
    {
      ghost var s := Now();
      var pml4, pdpt;
      pml4, pdpt, d := ThreePages();
      upper := {pml4, pdpt};
      if d == 0 {
        return;
      }
      SetUp(s, pml4, pdpt, d, kpdpt);
      LinkTables(pml4, pdpt, d);
      owner := Owners(owner.roles[pml4 := Upper][pdpt := Upper][d := Dir]);
      RolesAgain(s.owner, pml4, pdpt, d);
    }

    /** The new tables of setupkvm, cleared and then linked. */
    method LinkTables(pml4: nat, pdpt: nat, d: nat)
      requires pml4 < |mem.pages| && pdpt < |mem.pages| && d < |mem.pages|
      modifies this`mem
      ensures mem ==
        Pool(old(mem.pages)[pml4 := TopTable(pdpt, kpdpt)][pdpt := SecondTable(d)][d := Directory(pml4, pdpt)])
    {
      var top, second, dir := ZeroPage(), ZeroPage(), ZeroPage();
      top := top[511 := kpdpt * PGSIZE + PWU];
      top := top[0 := pdpt * PGSIZE + PWU];
      second := second[0 := d * PGSIZE + PWU];
      dir := dir[511 := pml4 * PGSIZE + 1];
      dir := dir[510 := pdpt * PGSIZE + 1];
      mem := Pool(mem.pages[pml4 := top][pdpt := second][d := dir]);
    }

    method ThreePages() returns (a: nat, b: nat, c: nat)
      requires Good(Now())
      modifies this`free, this`owner
      ensures Good(Now()) && (c == 0 <==> |old(free)| < 3)
      ensures c != 0 ==> old(free)[0] == a && old(free)[1] == b && old(free)[2] == c && free == old(free)[3..]
      ensures c != 0 ==> owner.roles == old(owner.roles)[a := Held][b := Held][c := Held]
    {
      b, c := 0, 0;
      a := KAlloc();
      if a == 0 {
        return;
      }
      b := KAlloc();
      if b == 0 {
        return;
      }
      c := KAlloc();
    }

    /**
      One pass of copyuvm's loop: 0 if there is no memory, with the page lost if it was a page table that was wanted.
    */
    method CopyPage(p: nat, d: nat, v: nat, w: nat, ghost s: State, ghost lost: set<int>)
      returns (ok: bool, ghost after: set<int>)
      requires Copying(s, Now(), p, d, v, lost) && v < TOP && w == Pte(s.pages, p, v) && Present(w)
      modifies this
      ensures if ok then Copying(s, Now(), p, d, v + 1, lost) && after == lost
              else Copying(s, Now(), p, d, v, after) && |after| == |lost| + |old(free)|
      ensures ok <==> |old(free)| >= if old(Present(mem.pages[d][v / ENTRIES])) then 1 else 2
      ensures ok ==> Mapped(old(mem.pages[d]), |old(free)|, v, mem.pages[d], |free|)
    {
      CopyReads(s, Now(), p, d, v, lost);
      ghost var t := Now();
      if free != [] {
        CopyTakes(s, t, p, d, v, lost, t.pages[FrameOf(w)]);
      }
      var f := KAlloc();
      if f == 0 {
        return false, lost;
      }
      mem := Pool(mem.pages[f := mem.pages[FrameOf(w)]]);
      CopyReads(s, Now(), p, d, v, lost + {f});
      ghost var t1 := Now();
      var r := MapPage(d, v, f, Flags(w));
      NotLost(s, t, p, d, v, lost, f);
      if r < 0 {
        return false, lost + {f};
      }
      CopyMaps(s, t1, Now(), p, d, v, lost, f);
      return true, lost;
    }

    /** The label bad of copyuvm: the new space is freed again. */
    method Abandon(p: nat, d: nat, ghost v: nat, ghost s: State, ghost lost: set<int>)
      requires Copying(s, Now(), p, d, v, lost)
      modifies this
      ensures Good(Now()) && Keeps(s, Now(), -1, 0, 0) && Frames(Now()) == Frames(s)
      ensures owner.roles.Keys == s.owner.Keys + lost
    {
      ghost var s1 := Now();
      FreeVm(d);
      CopyFails(s, s1, Now(), p, d, v, lost);
    }

    /** What copyuvm finds for page v of the parent: the entry, or 0 for either of the two panics. */
    method ParentPte(p: nat, d: nat, v: nat, ghost s: State, ghost lost: set<int>) returns (w: nat)
      requires Copying(s, Now(), p, d, v, lost) && v < TOP
      modifies this
      ensures Now() == old(Now()) && w == if Present(Pte(s.pages, p, v)) then Pte(s.pages, p, v) else 0
    {
      CopyReads(s, Now(), p, d, v, lost);
      var t := Walk(p, v, false);
      if t == 0 || !Present(mem.pages[t][v % ENTRIES]) {
        return 0;
      }
      return mem.pages[t][v % ENTRIES];
    }

    /**
      copyuvm.  A new space whose pages below sz have the parent's flags and content on frames that
      were not in use, and that maps nothing else; 0 if memory runs out; -1 for the panic at the
      first page that the parent lacks; -2 if setupkvm gets no page and clears a null one.  Which of
      these it is depends on the number of free pages and on the parent's first missing page alone.
      The new space has its two upper tables, chained as setupkvm does.
      No other space is affected, the parent's included.  When memory runs out, the two upper
      tables stay lost, and so does a page for which no page table could be made.
    */
    method CopyUvm(p: nat, sz: nat) returns (d: int, ghost lost: set<int>)
      requires Good(Now()) && IsDir(Now(), p) && sz <= TOP * PGSIZE && Has(Now(), kpdpt, Kernel)
      modifies this
      ensures (if d > 0 then 1 else d) == CopyOutcome(|old(free)|, Run(old(mem.pages), p, Pages(sz)), Pages(sz))
      ensures d > 0 ==> Copying(old(Now()), Now(), p, d, Pages(sz), lost) && Chained(mem.pages, d, kpdpt)
      ensures d > 0 ==> lost == {Pml4(mem.pages, d), Pdpt(mem.pages, d)} && |lost| == 2
      ensures d == 0 ==> Good(Now()) && Keeps(old(Now()), Now(), -1, 0, 0) && Frames(Now()) == old(Frames(Now()))
      ensures d == 0 ==> owner.roles.Keys == old(owner.roles.Keys) + lost
      ensures d == 0 ==> |lost| == 2 + Stranded(|old(free)| - 3)
    {
      ghost var s, n := Now(), Run(mem.pages, p, Pages(sz));
      d, lost := SetupKvm();
      if d == 0 {
        return -2, lost;
      }
      ghost var dir, memory := mem.pages[d], |free|;
      var i := 0;
      while i * PGSIZE < sz
        invariant Copying(s, Now(), p, d, i, lost) && |lost| == 2 && i <= n && d > 0
        invariant lost == {Pml4(mem.pages, d), Pdpt(mem.pages, d)}
        invariant Counted(dir, memory, 0, i, mem.pages[d], |free|)
        decreases sz - i * PGSIZE
      {
        ghost var now, left, after := mem.pages[d], |free|, {};
        var w := ParentPte(p, d, i, s, lost);
        if w == 0 {
          NeedFromEmpty(dir, i);
          return -1, lost;
        }
        var ok;
        ok, after := CopyPage(p, d, i, w, s, lost);
        if !ok {
          RanOut(dir, memory, i, n, now, left);
          Abandon(p, d, i, s, after);
          return 0, after;
        }
        CountedMore(dir, memory, 0, i, now, left, mem.pages[d], |free|);
        i := i + 1;
      }
      NeedFromEmpty(dir, i);
      CopyChained(s, Now(), p, d, i, lost, kpdpt);
    }

    /** deallocuvm: the size it leaves the process with. */
    method DeallocUvm(d: nat, oldsz: nat, newsz: nat) returns (size: nat)
      requires Good(Now()) && IsDir(Now(), d) && oldsz <= TOP * PGSIZE
      modifies this
      ensures Good(Now()) && IsDir(Now(), d) && size == (if newsz >= oldsz then oldsz else newsz) &&
        Frames(Now()) == old(Frames(Now()))
      ensures newsz >= oldsz ==> Now() == old(Now())
      ensures newsz < oldsz ==> Keeps(old(Now()), Now(), d, Pages(newsz), Pages(oldsz)) && Shrinks(old(Now()), Now(), d)
      ensures newsz < oldsz ==> Cleared(old(Now()), Now(), d, Pages(newsz), Pages(oldsz), Pages(oldsz))
      ensures mem.pages[d] == old(mem.pages[d])
    {
      if newsz >= oldsz {
        return oldsz;
      }
      DeallocPages(d, Pages(newsz), Pages(oldsz));
      return newsz;
    }

    /** One pass of allocuvm's loop; false if there is no page. */
    method GrowPage(d: nat, v: nat, ghost s: State, ghost lo: nat, ghost hi: nat, ghost missed: bool,
                    ghost lost: set<int>)
      returns (ok: bool, ghost misses: bool, ghost after: set<int>)
      requires Growing(s, Now(), d, lo, v, hi, missed, lost) && v < hi
      modifies this
      ensures if ok then Growing(s, Now(), d, lo, v + 1, hi, misses, after)
        else Growing(s, Now(), d, lo, v, hi, missed, lost) && free == [] && misses == missed && after == lost
      ensures ok <==> old(free) != []
      ensures ok ==> (misses <==> |old(free)| == 1 && !Present(old(mem.pages[d][v / ENTRIES])))
      ensures ok ==> |after| == |lost| + if misses then 1 else 0
      ensures ok && misses ==> free == []
      ensures ok && !misses ==> Mapped(old(mem.pages[d]), |old(free)|, v, mem.pages[d], |free|)
    {
      GrowingFacts(s, Now(), d, lo, v, hi, missed, lost);
      if free != [] {
        GrowingTakes(s, Now(), d, lo, v, hi, lost);
      }
      var f := KAlloc();
      if f == 0 {
        return false, missed, lost;
      }
      mem := Pool(mem.pages[f := ZeroPage()]);
      ghost var t := Now();
      GrowingFacts(s, t, d, lo, v, hi, false, lost + {f});
      var r := MapPage(d, v, f, 6);
      if r == 0 {
        GrowingMaps(s, t, Now(), d, lo, v, hi, lost, f);
        return true, false, lost;
      }
      GrowingMisses(s, t, d, lo, v, hi, lost + {f});
      return true, true, lost + {f};
    }

    /** allocuvm out of memory at page v. */
    method GiveUp(d: nat, oldsz: nat, newsz: nat, ghost s: State, ghost v: nat, ghost missed: bool,
                  ghost lost: set<int>)
      requires newsz <= TOP * PGSIZE && v < Pages(newsz)
      requires Growing(s, Now(), d, Pages(oldsz), v, Pages(newsz), missed, lost)
      modifies this
      ensures Good(Now()) && IsDir(Now(), d) && Frames(Now()) == Frames(s) &&
        Keeps(s, Now(), d, Pages(oldsz), Pages(newsz))
      ensures forall u :: Pages(oldsz) <= u < Pages(newsz) ==> !Present(Pte(mem.pages, d, u))
      ensures GrowRoles(s, Now(), d, Pages(oldsz), Pages(oldsz), lost)
    {
      ghost var t := Now();
      GrowingFacts(s, t, d, Pages(oldsz), v, Pages(newsz), missed, lost);
      var _ := DeallocUvm(d, newsz, oldsz);
      GrowingUndone(s, t, Now(), d, Pages(oldsz), v, Pages(newsz), missed, lost);
      UndoneRoles(s, t, Now(), d, Pages(oldsz), v, Pages(newsz), missed, lost);
    }

    /**
      allocuvm: newsz if there is memory enough, 0 if there is not, after which all the new pages are
      unmapped again.  It does not look at the result of mappages: if memory runs out at a page
      table, the page in hand is lost.  If that page is the last one, the result is newsz all the
      same and the page is missing.  Of the frames that were free, those in use afterwards are the
      new pages, new page tables, which stay even if it gives up, and the lost page.
    */
    method AllocUvm(d: nat, oldsz: nat, newsz: nat) returns (size: nat, ghost missed: bool, ghost lost: set<int>)
      requires Good(Now()) && IsDir(Now(), d) && oldsz <= TOP * PGSIZE && newsz <= TOP * PGSIZE
      requires forall u :: Pages(oldsz) <= u < Pages(newsz) ==> Pte(mem.pages, d, u) == 0
      modifies this
      ensures Good(Now()) && IsDir(Now(), d) && Frames(Now()) == old(Frames(Now())) &&
        Keeps(old(Now()), Now(), d, Pages(oldsz), Pages(newsz))
      ensures missed <==> old(OneShort(mem.pages[d], |free|, Pages(oldsz), Pages(newsz)))
      ensures size ==
        if newsz < oldsz then oldsz
        else if missed || old(Enough(mem.pages[d], |free|, Pages(oldsz), Pages(newsz))) then newsz
        else 0
      ensures newsz < oldsz ==> Now() == old(Now())
      ensures oldsz <= newsz && size == newsz > 0 ==>
        Growing(old(Now()), Now(), d, Pages(oldsz), Max(Pages(oldsz), Pages(newsz)), Pages(newsz), missed, lost)
      ensures oldsz <= newsz && size == 0 < newsz ==> forall u :: Pages(oldsz) <= u < Pages(newsz) ==>
        !Present(Pte(mem.pages, d, u))
      ensures |lost| == if old(Strands(mem.pages[d], |free|, Pages(oldsz), Pages(newsz))) then 1 else 0
      ensures
        var mapped := if size == newsz then Max(Pages(oldsz), Pages(newsz)) else Pages(oldsz);
        GrowRoles(old(Now()), Now(), d, Pages(oldsz), mapped, lost)
    {
      missed, lost := false, {};
      if newsz < oldsz {
        return oldsz, false, {};
      }
      ghost var s, lo, hi := Now(), Pages(oldsz), Pages(newsz);
      ghost var dir, memory := mem.pages[d], |free|;
      GrowingStarts(s, d, lo, hi);
      var v := Pages(oldsz);
      while v * PGSIZE < newsz
        invariant lo <= v && (v <= hi || v == lo) && Growing(s, Now(), d, lo, v, hi, missed, lost)
        invariant Tally(dir, memory, lo, v, mem.pages[d], |free|, missed) && |lost| == if missed then 1 else 0
        decreases newsz - v * PGSIZE
      {
        ghost var now, left, before := mem.pages[d], |free|, missed;
        var ok;
        ok, missed, lost := GrowPage(d, v, s, lo, hi, missed, lost);
        if !ok {
          TallyOut(dir, memory, lo, v, hi, now, missed);
          GiveUp(d, oldsz, newsz, s, v, missed, lost);
          return 0, false, lost;
        }
        TallyMore(dir, memory, lo, v, now, left, before, mem.pages[d], |free|, missed);
        v := v + 1;
      }
      GrowingFacts(s, Now(), d, lo, v, hi, missed, lost);
      TallyIn(dir, memory, lo, v, hi, mem.pages[d], |free|, missed);
      return newsz, missed, lost;
    }
  }

  /**
    A space with the directory 1, whose first entries are `first`: frame 0, the directory, the frames `more`, then
    the upper tables 2 + |more| and 3 + |more| and the kernel's table 4 + |more|.
  */
  function OneSpace(first: seq<nat>, more: seq<Page>): seq<Page>
    requires |first| <= 510
  {
    var a, b := 2 + |more|, 3 + |more|;
    [ZeroPage(), first + Directory(a, b)[|first|..]] + more + [TopTable(b, b + 1), SecondTable(1), ZeroPage()]
  }

  lemma OneSpaceRooted(first: seq<nat>, more: seq<Page>, s: State)
    requires |first| <= 510 && s.pages == OneSpace(first, more) && Whole(s.pages)
    requires var a := 2 + |more|; Has(s, a, Upper) && Has(s, a + 1, Upper) && Has(s, a + 2, Kernel)
    requires forall f :: f in s.owner && f != 1 && f != 4 + |more| ==> s.owner[f] != Dir && s.owner[f] != Kernel
    requires Has(s, 1, Dir)
    ensures Rooted(s)
  {
    var a, b := 2 + |more|, 3 + |more|;
    EntryParts(a, 1);
    EntryParts(b, 1);
    EntryParts(b, PWU);
    EntryParts(1, PWU);
    EntryParts(b + 1, PWU);
    assert s.pages[1][511] == a * PGSIZE + 1 && s.pages[1][510] == b * PGSIZE + 1;
    assert s.pages[a] == TopTable(b, b + 1) && s.pages[b] == SecondTable(1);
    assert RootOk(s, 1);
  }

  /** One page is mapped, the first one of the second table; there is no first table. */
  function FirstTableMissing(): State {
    var table: Page := ZeroPage()[0 := 3 * PGSIZE + PWU];
    State(OneSpace([0, 2 * PGSIZE + PWU], [table, ZeroPage()]), [],
      map[1 := Dir, 2 := Table(1, 1), 3 := Leaf(1, ENTRIES), 4 := Upper, 5 := Upper, 6 := Kernel])
  }

  lemma FirstTableMissingGood()
    ensures var s := FirstTableMissing(); Good(s) && IsDir(s, 1) && Present(Pte(s.pages, 1, ENTRIES))
    ensures var dir := FirstTableMissing().pages[1]; !Present(dir[0]) && Present(dir[1])
  {
    var s := FirstTableMissing();
    EntryParts(2, PWU);
    EntryParts(3, PWU);
    OneSpaceRooted([0, 2 * PGSIZE + PWU], [s.pages[2], s.pages[3]], s);
    assert forall i :: 0 <= i < 510 ==> s.pages[1][i] == if i == 1 then 2 * PGSIZE + PWU else 0;
    forall d, i | IsDir(s, d) && 0 <= i < 510 ensures DirEntryOk(s, d, i) {
      assert d == 1;
    }
    assert s.pages[2][0] == 3 * PGSIZE + PWU && s.pages[1][1] == 2 * PGSIZE + PWU;
    assert forall k :: 0 < k < ENTRIES ==> s.pages[2][k] == 0;
    forall t, k | t in s.owner && s.owner[t].Table? && 0 <= k < ENTRIES ensures TableEntryOk(s, t, k) {
      assert t == 2;
    }
    assert Pte(s.pages, 1, ENTRIES) == 3 * PGSIZE + PWU;
    forall f | f in s.owner ensures 0 < f < |s.pages| && LinkOk(s, f) {
      assert f == 1 || f == 2 || f == 3 || s.owner[f].Upper? || s.owner[f].Kernel?;
    }
  }

  /** deallocuvm from page 1 on: it says that the space ends there, and page 512 is still mapped. */
  method PassesOver() returns (size: nat, page: nat)
    ensures size == PGSIZE && Present(page)
  {
    var s := FirstTableMissing();
    FirstTableMissingGood();
    var vm := new Vm(s.pages, s.free, 6, s.owner);
    assert Pages(PGSIZE) == 1 && Pages(2 * ENTRIES * PGSIZE) == 2 * ENTRIES;
    VisitsMisses(s.pages[1], 1, 2 * ENTRIES, 1);
    size := vm.DeallocUvm(1, 2 * ENTRIES * PGSIZE, PGSIZE);
    page := Pte(vm.mem.pages, 1, ENTRIES);
  }

  /** A space without pages, and one free page. */
  function OnePageFree(): State {
    State(OneSpace([], [ZeroPage()]), [2], map[1 := Dir, 3 := Upper, 4 := Upper, 5 := Kernel])
  }

  lemma OnePageFreeGood()
    ensures var s := OnePageFree();
      Good(s) && IsDir(s, 1) && (forall v :: 0 <= v < TOP ==> Pte(s.pages, 1, v) == 0) && s.pages[1][0] == 0
  {
    var s := OnePageFree();
    OneSpaceRooted([], [s.pages[2]], s);
    assert forall i :: 0 <= i < 510 ==> s.pages[1][i] == 0;
    forall d, i | IsDir(s, d) && 0 <= i < 510 ensures DirEntryOk(s, d, i) {
      assert d == 1;
    }
  }

  /** Growing by a page there: success is reported and the page is not there. */
  method OneShortHappens() returns (size: nat, page: nat)
    ensures size == PGSIZE && !Present(page)
  {
    var s := OnePageFree();
    OnePageFreeGood();
    var vm := new Vm(s.pages, s.free, 5, s.owner);
    assert Pages(PGSIZE) == 1 && Pages(0) == 0;
    ghost var missed, lost := false, {};
    assert OneShort(vm.mem.pages[1], 1, 0, 1);
    size, missed, lost := vm.AllocUvm(1, 0, PGSIZE);
    GrowingMeans(s, vm.Now(), 1, 0, 1, missed, lost, 0);
    page := Pte(vm.mem.pages, 1, 0);
  }

  /** The same, growing by two pages: it fails, and the page that was free is not free afterwards. */
  method LossHappens() returns (size: nat, free: seq<nat>, page: nat)
    ensures size == 0 && free == [] && !Present(page)
  {
    var s := OnePageFree();
    OnePageFreeGood();
    var vm := new Vm(s.pages, s.free, 5, s.owner);
    assert Pages(2 * PGSIZE) == 2 && Pages(0) == 0;
    ghost var missed, lost;
    assert OneShort(vm.mem.pages[1], 1, 0, 1) && !OneShort(vm.mem.pages[1], 1, 0, 2);
    size, missed, lost := vm.AllocUvm(1, 0, 2 * PGSIZE);
    free, page := vm.free, Pte(vm.mem.pages, 1, 0);
    NothingFree(s, vm.Now(), lost);
  }

  lemma NothingFree(s: State, t: State, lost: set<int>)
    requires s == OnePageFree() && Good(t) && |lost| == 1 && Frames(t) == Frames(s)
    requires GrowRoles(s, t, 1, 0, 0, lost)
    ensures t.free == []
  {
    assert Peek(0);
    assert Frames(s) == {1, 2, 3, 4, 5};
    assert |t.free| > 0 ==> t.free[0] in Frames(t) && t.free[0] !in t.owner;
    var x := Pick(lost);
    assert x in Frames(t);
  }
}
