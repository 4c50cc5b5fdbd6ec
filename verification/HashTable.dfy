/** The open-addressing hash table of ulib/libc/stdlib/hashtable.c as a finite map. */
module HashTables {
  import opened Guard
  import opened Bytes
  import opened DiskFormat

  /** A C string: its bytes without the final NUL. */
  type Text = seq<Byte>

  // --- hash_key ---

  const FNV_OFFSET := 14695981039346656037
  const FNV_PRIME := 1099511628211
  const TWO64 := 0x1_0000_0000_0000_0000

  /** The bitwise exclusive or and conjunction of the last n bits. */
  function Xor(a: nat, b: nat, n: nat): nat {
    if n == 0 then 0 else 2 * Xor(a / 2, b / 2, n - 1) + (a + b) % 2
  }

  function And(a: nat, b: nat, n: nat): nat {
    if n == 0 then 0 else 2 * And(a / 2, b / 2, n - 1) + (if a % 2 == 1 && b % 2 == 1 then 1 else 0)
  }

  /** FNV-1a. */
  function HashKey(key: Text): nat {
    if key == [] then FNV_OFFSET
    else
      var n := |key| - 1;
      Xor(HashKey(key[..n]), key[n], 64) * FNV_PRIME % TWO64
  }

  /** The mask capacity - 1 takes the hash modulo the capacity, if that is a power of two. */
  lemma {:induction false} MaskIsModulo(h: nat, k: nat, n: nat)
    requires k <= n
    ensures Pow2(k) > 0 && And(h, Pow2(k) - 1, n) == h % Pow2(k)
    decreases n
  {
    if k == 0 {
      AndZero(h, n);
    } else if n > 0 {
      MaskIsModulo(h / 2, k - 1, n - 1);
      var m := Pow2(k - 1);
      assert (Pow2(k) - 1) / 2 == m - 1 && (Pow2(k) - 1) % 2 == 1;
      ModuloStep(h, m);
    }
  }

  lemma ModuloStep(h: nat, m: nat)
    requires m > 0
    ensures h % (2 * m) == 2 * (h / 2 % m) + h % 2
  {
    var q, r := h / 2 / m, h / 2 % m;
    assert h == 2 * (q * m + r) + h % 2;
    assert h == (2 * m) * q + (2 * r + h % 2);
    ModuloUnique(h, 2 * m, q, 2 * r + h % 2);
  }

  lemma ModuloUnique(h: nat, m: nat, q: nat, r: nat)
    requires h == m * q + r && r < m
    ensures h % m == r
  {
    var d := h / m - q;
    assert m * d == r - h % m;
    assert d > 0 ==> m * d >= m;
    assert d < 0 ==> m * d <= 0 - m;
  }

  lemma {:induction false} AndZero(h: nat, n: nat)
    ensures And(h, 0, n) == 0
  {
    if n > 0 {
      AndZero(h / 2, n - 1);
    }
  }

  // --- Slots ---

  datatype Entry = Empty | Filled(key: Text, value: Text)

  function Home(key: Text, n: nat): (i: nat)
    requires n > 0
    ensures i < n
  {
    HashKey(key) % n
  }

  /** The slot t steps from the key's own. */
  function Step(key: Text, t: nat, n: nat): (i: nat)
    requires n > 0
    ensures i < n
  {
    (Home(key, n) + t) % n
  }

  ghost predicate Distinct(s: seq<Entry>) {
    forall i, j :: 0 <= i < j < |s| && s[i].Filled? && s[j].Filled? ==> s[i].key != s[j].key
  }

  /** A key is found by steps over filled slots. */
  ghost predicate Reachable(s: seq<Entry>, key: Text, i: int)
    requires |s| > 0
  {
    exists t :: 0 <= t < |s| && Reaches(s, key, i, t)
  }

  ghost predicate Reaches(s: seq<Entry>, key: Text, i: int, t: int)
    requires |s| > 0 && t >= 0
  {
    Step(key, t, |s|) == i && forall u :: 0 <= u < t ==> s[Step(key, u, |s|)].Filled?
  }

  ghost predicate Sound(s: seq<Entry>) {
    && |s| > 0 && Distinct(s)
    && forall i :: 0 <= i < |s| && s[i].Filled? ==> Reachable(s, s[i].key, i)
  }

  /** The map that the slots hold. */
  function Contents(s: seq<Entry>): map<Text, Text> {
    if s == [] then map[]
    else
      var n := |s| - 1;
      var m := Contents(s[..n]);
      if s[n].Filled? then m[s[n].key := s[n].value] else m
  }

  function Count(s: seq<Entry>): nat {
    if s == [] then 0 else Count(s[..|s| - 1]) + (if s[|s| - 1].Filled? then 1 else 0)
  }

  lemma {:induction false} ContentsAt(s: seq<Entry>, i: nat)
    requires Distinct(s) && i < |s| && s[i].Filled?
    ensures s[i].key in Contents(s) && Contents(s)[s[i].key] == s[i].value
  {
    var n := |s| - 1;
    if i < n {
      assert s[..n][i] == s[i];
      ContentsAt(s[..n], i);
    }
  }

  lemma {:induction false} ContentsFrom(s: seq<Entry>, key: Text) returns (i: nat)
    requires key in Contents(s)
    ensures i < |s| && s[i].Filled? && s[i].key == key
  {
    var n := |s| - 1;
    if s[n].Filled? && s[n].key == key {
      i := n;
    } else {
      i := ContentsFrom(s[..n], key);
    }
  }

  /** There are as many keys as filled slots. */
  lemma {:induction false} CountKeys(s: seq<Entry>)
    requires Distinct(s)
    ensures |Contents(s)| == Count(s)
  {
    if s != [] {
      var n := |s| - 1;
      CountKeys(s[..n]);
      if s[n].Filled? && s[n].key in Contents(s[..n]) {
        var i := ContentsFrom(s[..n], s[n].key);
      }
    }
  }

  lemma {:induction false} CountUpdate(s: seq<Entry>, i: nat, e: Entry)
    requires i < |s| && e.Filled?
    ensures Count(s[i := e]) == Count(s) + (if s[i].Filled? then 0 else 1)
  {
    var n := |s| - 1;
    if i < n {
      CountUpdate(s[..n], i, e);
      assert s[i := e][..n] == s[..n][i := e];
    } else {
      assert s[i := e][..n] == s[..n];
    }
  }

  lemma {:induction false} CountFull(s: seq<Entry>)
    ensures Count(s) <= |s|
  {
    if s != [] {
      CountFull(s[..|s| - 1]);
    }
  }

  lemma {:induction false} EmptySlot(s: seq<Entry>) returns (i: nat)
    requires Count(s) < |s|
    ensures i < |s| && s[i] == Empty
  {
    var n := |s| - 1;
    if s[n] == Empty {
      i := n;
    } else {
      i := EmptySlot(s[..n]);
    }
  }

  // --- Probing ---

  /** Where the search for key ends after t steps: at the key or at an empty slot. */
  ghost predicate Stops(s: seq<Entry>, key: Text, i: int, t: int)
    requires |s| > 0
  {
    && 0 <= i < |s| && 0 <= t < |s| && Step(key, t, |s|) == i
    && (s[i] == Empty || s[i].key == key)
    && forall u :: 0 <= u < t ==> Passes(s, key, u)
  }

  ghost predicate Passes(s: seq<Entry>, key: Text, u: int)
    requires |s| > 0 && u >= 0
  {
    var e := s[Step(key, u, |s|)]; e.Filled? && e.key != key
  }

  /** The slots of |s| steps are all the slots. */
  lemma StepsCover(key: Text, i: nat, n: nat) returns (t: nat)
    requires i < n
    ensures t < n && Step(key, t, n) == i
  {
    var h := Home(key, n);
    t := if i >= h then i - h else i + n - h;
    StepIs(h, t, n);
  }

  lemma StepIs(h: nat, t: nat, n: nat)
    requires h < n && t < n
    ensures (h + t) % n == if h + t < n then h + t else h + t - n
  {
    if h + t < n {
      ModuloUnique(h + t, n, 0, h + t);
    } else {
      ModuloUnique(h + t, n, 1, h + t - n);
    }
  }

  /** The search for a stored key ends at the key. */
  lemma StopsAtKey(s: seq<Entry>, key: Text, i: int, t: int, j: nat)
    requires Sound(s) && Stops(s, key, i, t) && j < |s| && s[j].Filled? && s[j].key == key
    ensures i == j
  {
    assert Reachable(s, key, j);
    var v :| 0 <= v < |s| && Reaches(s, key, j, v);
    if v < t {
      assert Passes(s, key, v);
    }
  }

  /** The value of a key is in the slot where the search ends; it is empty if there is none. */
  lemma StopsMeans(s: seq<Entry>, key: Text, i: int, t: int)
    requires Sound(s) && Stops(s, key, i, t)
    ensures s[i] == Empty <==> key !in Contents(s)
    ensures s[i].Filled? ==> Contents(s)[key] == s[i].value
  {
    if s[i].Filled? {
      ContentsAt(s, i);
    } else if key in Contents(s) {
      var j := ContentsFrom(s, key);
      StopsAtKey(s, key, i, t, j);
    }
  }

  /** Storing where the search ended keeps every key where its own search finds it. */
  lemma StoreSound(s: seq<Entry>, key: Text, value: Text, i: int, t: int)
    requires Sound(s) && Stops(s, key, i, t)
    ensures Sound(s[i := Filled(key, value)])
  {
    var r := s[i := Filled(key, value)];
    forall j | 0 <= j < |r| && r[j].Filled? ensures Reachable(r, r[j].key, j) {
      if j == i {
        assert Reaches(r, key, i, t) by {
          forall u | 0 <= u < t ensures r[Step(key, u, |r|)].Filled? {
            assert Passes(s, key, u);
          }
        }
      } else {
        assert Reachable(s, s[j].key, j);
        var v :| 0 <= v < |s| && Reaches(s, s[j].key, j, v);
        assert Reaches(r, r[j].key, j, v);
      }
    }
    forall j | 0 <= j < |s| && j != i && s[j].Filled? ensures s[j].key != key {
      if s[j].key == key {
        StopsAtKey(s, key, i, t, j);
      }
    }
  }

  /** It changes the map at this key alone. */
  lemma StoreContents(s: seq<Entry>, key: Text, value: Text, i: int, t: int)
    requires Sound(s) && Stops(s, key, i, t)
    ensures Contents(s[i := Filled(key, value)]) == Contents(s)[key := value]
  {
    var r := s[i := Filled(key, value)];
    StoreSound(s, key, value, i, t);
    ContentsAt(r, i);
    forall k | k in Contents(r) && k != key ensures k in Contents(s) && Contents(s)[k] == Contents(r)[k] {
      var j := ContentsFrom(r, k);
      ContentsAt(r, j);
      ContentsAt(s, j);
    }
    forall k | k in Contents(s) && k != key ensures k in Contents(r) {
      var j := ContentsFrom(s, k);
      assert r[j] == s[j];
      ContentsAt(r, j);
    }
  }

  /** A table that is not full lets every search end. */
  lemma SomeEmpty(s: seq<Entry>, key: Text) returns (t: nat)
    requires |s| > 0 && Count(s) < |s|
    ensures t < |s| && s[Step(key, t, |s|)] == Empty
  {
    var i := EmptySlot(s);
    t := StepsCover(key, i, |s|);
  }

  lemma NextStep(key: Text, t: nat, n: nat)
    requires n > 0
    ensures Step(key, t + 1, n) == if Step(key, t, n) + 1 >= n then 0 else Step(key, t, n) + 1
  {
    var h := Home(key, n) + t;
    assert h == h / n * n + h % n;
    if h % n + 1 >= n {
      ModuloUnique(h + 1, n, h / n + 1, 0);
    } else {
      ModuloUnique(h + 1, n, h / n, h % n + 1);
    }
  }

  const INITIAL_CAPACITY := 16

  /** The search has passed t slots and is at index; after `stop` steps there is an empty slot. */
  ghost predicate Probing(s: seq<Entry>, key: Text, index: int, t: nat, stop: nat) {
    |s| > 0 && forall k {:trigger Look(k)} :: Look(k) ==> ProbingOf(s, key, index, t, stop)
  }

  ghost predicate ProbingOf(s: seq<Entry>, key: Text, index: int, t: nat, stop: nat)
    requires |s| > 0
  {
    && t <= stop < |s| && index == Step(key, t, |s|) && s[Step(key, stop, |s|)] == Empty
    && forall u :: 0 <= u < t ==> Passes(s, key, u)
  }

  lemma ProbeStarts(s: seq<Entry>, key: Text, index: nat) returns (stop: nat)
    requires |s| > 0 && Count(s) < |s| && index == HashKey(key) % |s|
    ensures index < |s| && Probing(s, key, index, 0, stop)
  {
    stop := SomeEmpty(s, key);
    StepIs(index, 0, |s|);
  }

  lemma ProbeStep(s: seq<Entry>, key: Text, index: nat, t: nat, stop: nat)
    requires Probing(s, key, index, t, stop) && index < |s| && s[index].Filled? && s[index].key != key
    ensures t < stop && Probing(s, key, if index + 1 >= |s| then 0 else index + 1, t + 1, stop)
  {
    assert Look(0);
    assert Passes(s, key, t);
    NextStep(key, t, |s|);
  }

  lemma ProbeEnds(s: seq<Entry>, key: Text, index: nat, t: nat, stop: nat)
    requires Probing(s, key, index, t, stop) && index < |s| && (s[index] == Empty || s[index].key == key)
    ensures Stops(s, key, index, t)
  {
    assert Look(0);
  }

  /** The search of ht_get and ht_set_entry: from the key's own slot on, around the end. */
  method Search(entries: array<Entry>, key: Text, ghost k: nat) returns (index: nat, ghost t: nat)
    requires entries.Length == Pow2(k) && 0 < entries.Length && k <= 64 && Count(entries[..]) < entries.Length
    ensures index < entries.Length && Stops(entries[..], key, index, t)
  {
    var capacity := entries.Length;
    ghost var s := entries[..];
    MaskIsModulo(HashKey(key), k, 64);
    index := And(HashKey(key), capacity - 1, 64);
    t := 0;
    ghost var stop := ProbeStarts(s, key, index);
    while entries[index] != Empty && entries[index].key != key
      invariant index < capacity && t <= stop && Probing(s, key, index, t, stop)
      decreases stop - t
    {
      ProbeStep(s, key, index, t, stop);
      index := index + 1;
      if index >= capacity {
        index := 0;
      }
      t := t + 1;
    }
    ProbeEnds(s, key, index, t, stop);
  }

  class Table {
    var entries: array<Entry>
    var length: nat
    /** The capacity is 2 to the power k. */
    ghost var k: nat

    ghost predicate Valid()
      reads this, entries
    {
      && 4 <= k <= 31 && entries.Length == Pow2(k) && Sound(entries[..])
      && length == Count(entries[..]) <= entries.Length / 2
    }

    ghost function Map(): map<Text, Text>
      reads this, entries
    {
      Contents(entries[..])
    }

    /** ht_create, when there is memory for it. */
    constructor ()
      ensures Valid() && Map() == map[] && fresh(entries)
    {
      entries := new Entry[INITIAL_CAPACITY](_ => Empty);
      length, k := 0, 4;
      new;
      assert Pow2(4) == 16;
      AllEmpty(entries[..]);
    }

    /** ht_get: the value of the key, if it has one. */
    method Get(key: Text) returns (found: bool, value: Text)
      requires Valid()
      ensures found <==> key in Map()
      ensures found ==> value == Map()[key]
    {
      CountFull(entries[..]);
      Pow2Positive(k);
      var index, t := Search(entries, key, k);
      StopsMeans(entries[..], key, index, t);
      match entries[index]
      case Empty => return false, [];
      case Filled(_, v) => return true, v;
    }

    /** ht_set_entry on the slots of the table, for ht_set. */
    method SetEntry(key: Text, value: Text)
      requires 4 <= k <= 31 && entries.Length == Pow2(k) && Sound(entries[..]) &&
        length == Count(entries[..]) < entries.Length / 2
      modifies this`length, entries
      ensures Valid() && Map() == old(Map())[key := value]
    {
      Pow2Positive(k);
      var index, t := Search(entries, key, k);
      ghost var s := entries[..];
      StoreSound(s, key, value, index, t);
      StoreContents(s, key, value, index, t);
      CountUpdate(s, index, Filled(key, value));
      if entries[index] == Empty {
        length := length + 1;
      }
      entries[index] := Filled(key, value);
      assert entries[..] == s[index := Filled(key, value)];
    }

    /** ht_expand; false if the capacity would overflow an int or there is no memory (`room`). */
    method Expand(room: bool) returns (ok: bool)
      requires Valid()
      modifies this`entries, this`k
      ensures Valid() && Map() == old(Map()) && length == old(length)
      ensures ok <==> room && old(entries.Length) < 0x4000_0000
      ensures !ok ==> entries == old(entries) && k == old(k)
      ensures ok ==> entries.Length == 2 * old(entries.Length) && fresh(entries)
    {
      var capacity := entries.Length;
      if capacity >= 0x4000_0000 || !room {
        return false;
      }
      Pow2Positive(k);
      var bigger := new Entry[2 * capacity](_ => Empty);
      AllEmpty(bigger[..]);
      ghost var s := entries[..];
      var i := 0;
      assert s[..0] == [];
      while i < capacity
        invariant 0 <= i <= capacity && entries == old(entries) && k == old(k) && entries[..] == s
        invariant Sound(bigger[..]) && Contents(bigger[..]) == Contents(s[..i]) && Count(bigger[..]) == Count(s[..i])
      {
        CountPrefix(s, i);
        assert s[..i + 1][..i] == s[..i];
        if entries[i].Filled? {
          FreshKey(s, bigger[..], i);
          Move(bigger, entries[i].key, entries[i].value, k + 1);
        }
        i := i + 1;
      }
      assert s[..i] == s;
      BelowOverflow(k);
      entries, k := bigger, k + 1;
      return true;
    }

    /** ht_set: false, with the map unchanged, if the table must grow and cannot. */
    method Set(key: Text, value: Text, room: bool) returns (ok: bool)
      requires Valid() && |value| < 128
      modifies this, entries
      ensures Valid() && (ok ==> Map() == old(Map())[key := value]) && (!ok ==> Map() == old(Map()))
      ensures ok <==> old(length < entries.Length / 2 || (room && entries.Length < 0x4000_0000))
      ensures entries == old(entries) || fresh(entries)
    {
      if length >= entries.Length / 2 {
        var grown := Expand(room);
        if !grown {
          return false;
        }
      }
      SetEntry(key, value);
      return true;
    }
  }

  lemma {:induction false} AllEmpty(s: seq<Entry>)
    requires forall i :: 0 <= i < |s| ==> s[i] == Empty
    ensures Contents(s) == map[] && Count(s) == 0
  {
    if s != [] {
      AllEmpty(s[..|s| - 1]);
    }
  }

  lemma {:induction false} Pow2Positive(k: nat)
    ensures Pow2(k) > 0 && (k > 1 ==> Pow2(k) >= 4)
  {
    if k > 0 {
      Pow2Positive(k - 1);
    }
  }

  lemma {:induction false} CountPrefix(s: seq<Entry>, i: nat)
    requires i <= |s|
    ensures Count(s[..i]) <= Count(s)
  {
    if i < |s| {
      CountPrefix(s[..|s| - 1], i);
      assert s[..|s| - 1][..i] == s[..i];
    } else {
      assert s[..i] == s;
    }
  }

  lemma BelowOverflow(k: nat)
    requires Pow2(k) < 0x4000_0000
    ensures k < 30
  {
    assert Pow2(10) == 1024;
    assert Pow2(20) == 1024 * 1024;
    assert Pow2(30) == 0x4000_0000;
    if k >= 30 {
      Pow2Grows(30, k);
    }
  }

  /** ht_expand never meets the key of a slot it has not moved yet. */
  lemma FreshKey(s: seq<Entry>, r: seq<Entry>, i: nat)
    requires Distinct(s) && i < |s| && s[i].Filled? && Contents(r) == Contents(s[..i])
    ensures s[i].key !in Contents(r)
  {
    if s[i].key in Contents(r) {
      var j := ContentsFrom(s[..i], s[i].key);
    }
  }

  /** ht_set_entry into the new slots of ht_expand, for a key that is not there. */
  method Move(entries: array<Entry>, key: Text, value: Text, ghost k: nat)
    requires entries.Length == Pow2(k) && 0 < entries.Length && k <= 64 && Sound(entries[..]) &&
      Count(entries[..]) < entries.Length
    requires key !in Contents(entries[..])
    modifies entries
    ensures Sound(entries[..]) && Contents(entries[..]) == old(Contents(entries[..]))[key := value] &&
      Count(entries[..]) == old(Count(entries[..])) + 1
  {
    var index, t := Search(entries, key, k);
    ghost var s := entries[..];
    StopsMeans(s, key, index, t);
    StoreSound(s, key, value, index, t);
    StoreContents(s, key, value, index, t);
    CountUpdate(s, index, Filled(key, value));
    entries[index] := Filled(key, value);
    assert entries[..] == s[index := Filled(key, value)];
  }

  // --- Iteration ---

  datatype Item = Item(key: Text, value: Text)

  /** The filled slots from slot i on. */
  function ItemsFrom(s: seq<Entry>, i: nat): seq<Item>
    requires i <= |s|
    decreases |s| - i
  {
    if i == |s| then [] else (if s[i].Filled? then [Item(s[i].key, s[i].value)] else []) + ItemsFrom(s, i + 1)
  }

  lemma {:induction false} ItemAt(s: seq<Entry>, i: nat, p: nat) returns (j: nat)
    requires i <= |s| && p < |ItemsFrom(s, i)|
    ensures i <= j < |s| && s[j].Filled? && ItemsFrom(s, i)[p] == Item(s[j].key, s[j].value)
    ensures p > 0 ==> j > i
    decreases |s| - i
  {
    if s[i].Filled? && p == 0 {
      j := i;
    } else {
      j := ItemAt(s, i + 1, if s[i].Filled? then p - 1 else p);
    }
  }

  lemma {:induction false} ItemOf(s: seq<Entry>, i: nat, j: nat) returns (p: nat)
    requires i <= j < |s| && s[j].Filled?
    ensures p < |ItemsFrom(s, i)| && ItemsFrom(s, i)[p] == Item(s[j].key, s[j].value)
    decreases j - i
  {
    if i == j {
      p := 0;
    } else {
      var q := ItemOf(s, i + 1, j);
      p := if s[i].Filled? then q + 1 else q;
    }
  }

  lemma {:induction false} ItemsDiffer(s: seq<Entry>, i: nat, p: nat, q: nat)
    requires Distinct(s) && i <= |s| && p < q < |ItemsFrom(s, i)|
    ensures ItemsFrom(s, i)[p].key != ItemsFrom(s, i)[q].key
    decreases |s| - i
  {
    if !s[i].Filled? {
      ItemsDiffer(s, i + 1, p, q);
    } else if p > 0 {
      ItemsDiffer(s, i + 1, p - 1, q - 1);
    } else {
      var j := ItemAt(s, i, q);
    }
  }

  /** The items are the map: each key comes once, with its value, and none is left out. */
  lemma ItemsAreMap(s: seq<Entry>, key: Text)
    requires Distinct(s)
    ensures key in Contents(s) <==> exists p :: 0 <= p < |ItemsFrom(s, 0)| && ItemsFrom(s, 0)[p].key == key
    ensures forall p :: 0 <= p < |ItemsFrom(s, 0)| && ItemsFrom(s, 0)[p].key == key ==>
      key in Contents(s) && ItemsFrom(s, 0)[p].value == Contents(s)[key]
    ensures forall p, q :: 0 <= p < q < |ItemsFrom(s, 0)| ==> ItemsFrom(s, 0)[p].key != ItemsFrom(s, 0)[q].key
  {
    forall p | 0 <= p < |ItemsFrom(s, 0)| && ItemsFrom(s, 0)[p].key == key
      ensures key in Contents(s) && ItemsFrom(s, 0)[p].value == Contents(s)[key]
    {
      var j := ItemAt(s, 0, p);
      ContentsAt(s, j);
    }
    if key in Contents(s) {
      var j := ContentsFrom(s, key);
      var p := ItemOf(s, 0, j);
    }
    forall p, q | 0 <= p < q < |ItemsFrom(s, 0)| ensures ItemsFrom(s, 0)[p].key != ItemsFrom(s, 0)[q].key {
      ItemsDiffer(s, 0, p, q);
    }
  }

  class Iter {
    const table: Table
    var index: nat
    var key: Text
    var value: Text

    /** ht_iterator. */
    constructor (table: Table)
      ensures this.table == table && index == 0
    {
      this.table, index, key, value := table, 0, [], [];
    }

    /** What is still to come. */
    ghost function Rest(): seq<Item>
      requires index <= table.entries.Length
      reads this, table, table.entries
    {
      ItemsFrom(table.entries[..], index)
    }

    /** ht_next: the next item, or false at the end. */
    method Next() returns (more: bool)
      requires index <= table.entries.Length
      modifies this
      ensures index <= table.entries.Length
      ensures more <==> old(Rest()) != []
      ensures more ==> Rest() == old(Rest())[1..] && old(Rest())[0] == Item(key, value)
      ensures !more ==> Rest() == []
    {
      ghost var all := Rest();
      while index < table.entries.Length
        invariant index <= table.entries.Length && Rest() == all
      {
        var i := index;
        index := index + 1;
        if table.entries[i] != Empty {
          key, value := table.entries[i].key, table.entries[i].value;
          return true;
        }
      }
      return false;
    }
  }

  lemma FirstMoved(a: seq<Item>, b: seq<Item>)
    requires b != []
    ensures a + b == a + [b[0]] + b[1..]
  {
  }

  /** A run of the iterator over a whole table. */
  method Collect(table: Table) returns (items: seq<Item>)
    ensures items == ItemsFrom(table.entries[..], 0)
  {
    var it := new Iter(table);
    items := [];
    ghost var all := it.Rest();
    while true
      invariant it.index <= table.entries.Length && it.table == table && fresh(it) && all == items + it.Rest()
      decreases |it.Rest()|
    {
      ghost var rest := it.Rest();
      var more := it.Next();
      if !more {
        assert items + [] == items;
        break;
      }
      FirstMoved(items, rest);
      items := items + [Item(it.key, it.value)];
    }
  }
}
