/** How large finite sets and lists without repetition can be. */
module Sets {

  lemma Pick<T>(s: set<T>) returns (x: T)
    requires |s| > 0
    ensures x in s
  {
    x :| x in s;
  }

  lemma {:induction false} SubsetSize<T>(a: set<T>, b: set<T>)
    requires a <= b
    ensures |a| <= |b|
  {
    if |a| > 0 {
      var x := Pick(a);
      SubsetSize(a - {x}, b - {x});
    }
  }

  lemma UnionSize<T>(a: set<T>, b: set<T>)
    ensures |a + b| <= |a| + |b|
  {
    assert a + b == a + (b - a);
    SubsetSize(b - a, b);
  }

  /** A list of different members of a set is no longer than the set. */
  lemma {:induction false} ListFits<T>(list: seq<T>, s: set<T>)
    requires forall k, l :: 0 <= k < l < |list| ==> list[k] != list[l]
    requires forall k :: 0 <= k < |list| ==> list[k] in s
    ensures |list| <= |s|
  {
    if list != [] {
      var n := |list| - 1;
      forall k | 0 <= k < n ensures list[..n][k] in s - {list[n]} {
        assert list[k] != list[n];
      }
      ListFits(list[..n], s - {list[n]});
    }
  }
}
