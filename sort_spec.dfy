/** What the two Java sorting routines emitted by generate_java_sorts.py
    promise, stated on the sequence of an array's elements. Java `int`
    values are only compared and moved, never computed with, so they are
    modelled as unbounded integers. */
module SortSpec {

  /** `s[lo..hi)` is in ascending order. */
  predicate SortedRange(s: seq<int>, lo: int, hi: int)
    requires 0 <= lo <= hi <= |s|
  {
    forall i, j :: lo <= i < j < hi ==> s[i] <= s[j]
  }

  predicate Sorted(s: seq<int>)
  {
    forall i, j :: 0 <= i < j < |s| ==> s[i] <= s[j]
  }

  /** Each element of `s[lo..hi)` is at most its right neighbour. */
  predicate AdjacentSorted(s: seq<int>, lo: int, hi: int)
    requires 0 <= lo <= hi <= |s|
  {
    forall i :: lo <= i && i + 1 < hi ==> s[i] <= s[i + 1]
  }

  /** Everything in `s[lo..m)` is at most everything in `s[m..hi)`. */
  predicate Split(s: seq<int>, lo: int, m: int, hi: int)
    requires 0 <= lo <= m <= hi <= |s|
  {
    forall i, j :: lo <= i < m <= j < hi ==> s[i] <= s[j]
  }

  /** Neighbours in order means the whole range is in order: this is why a
      bubble-sort pass without a swap may stop the sort. */
  lemma {:induction false} AdjacentToSorted(s: seq<int>, lo: int, hi: int)
    requires 0 <= lo <= hi <= |s| && AdjacentSorted(s, lo, hi)
    ensures SortedRange(s, lo, hi)
    decreases hi - lo
  {
    if hi - lo > 1 {
      AdjacentToSorted(s, lo + 1, hi);
      forall j | lo < j < hi
        ensures s[lo] <= s[j]
      {
        assert s[lo] <= s[lo + 1];
      }
    }
  }

  /** Two sorted ranges, the left one entirely below the right one, make one
      sorted range. */
  lemma JoinSorted(s: seq<int>, lo: int, m: int, hi: int)
    requires 0 <= lo <= m <= hi <= |s|
    requires SortedRange(s, lo, m) && SortedRange(s, m, hi) && Split(s, lo, m, hi)
    ensures SortedRange(s, lo, hi)
  {
  }

  /** A permutation that leaves everything outside `[lo, hi)` in place
      permutes `[lo, hi)` itself. */
  lemma SegmentPermutation(s: seq<int>, t: seq<int>, lo: int, hi: int)
    requires 0 <= lo <= hi <= |s| == |t|
    requires multiset(s) == multiset(t)
    requires forall k :: 0 <= k < lo || hi <= k < |s| ==> s[k] == t[k]
    ensures multiset(s[lo..hi]) == multiset(t[lo..hi])
  {
    Pieces(s, lo, hi);
    Pieces(t, lo, hi);
    assert s[..lo] == t[..lo];
    assert s[hi..] == t[hi..];
    MultisetCancel(multiset(s[..lo]), multiset(s[lo..hi]), multiset(t[lo..hi]), multiset(s[hi..]));
  }

  /** A sequence's elements are those of its three pieces. */
  lemma Pieces(s: seq<int>, lo: int, hi: int)
    requires 0 <= lo <= hi <= |s|
    ensures multiset(s) == multiset(s[..lo]) + multiset(s[lo..hi]) + multiset(s[hi..])
  {
    assert s == s[..lo] + s[lo..hi] + s[hi..];
  }

  lemma MultisetCancel(a: multiset<int>, x: multiset<int>, y: multiset<int>, c: multiset<int>)
    requires a + x + c == a + y + c
    ensures x == y
  {
    forall e
      ensures x[e] == y[e]
    {
      assert (a + x + c)[e] == a[e] + x[e] + c[e];
      assert (a + y + c)[e] == a[e] + y[e] + c[e];
    }
  }

  predicate AllAtMost(s: seq<int>, v: int)
  {
    forall k :: 0 <= k < |s| ==> s[k] <= v
  }

  predicate AllAbove(s: seq<int>, v: int)
  {
    forall k :: 0 <= k < |s| ==> s[k] > v
  }

  /** Bounds on the elements survive any permutation. */
  lemma PermutationBounds(s: seq<int>, t: seq<int>, v: int)
    requires multiset(s) == multiset(t)
    ensures AllAtMost(s, v) ==> AllAtMost(t, v)
    ensures AllAbove(s, v) ==> AllAbove(t, v)
  {
    forall k | 0 <= k < |t|
      ensures exists j :: 0 <= j < |s| && s[j] == t[k]
    {
      assert t[k] in multiset(t);
    }
  }

  /** Exchanges two elements in place, as both sorts do with a temporary `t`. */
  method Swap(a: array<int>, i: int, k: int)
    requires 0 <= i < a.Length && 0 <= k < a.Length
    modifies a
    ensures a[..] == old(a[..])[i := old(a[k])][k := old(a[i])]
  {
    var t := a[i];
    a[i] := a[k];
    a[k] := t;
  }

  /** Exchanging two elements keeps the same elements. */
  lemma SwapPermutes(s: seq<int>, i: int, k: int)
    requires 0 <= i < |s| && 0 <= k < |s|
    ensures multiset(s[i := s[k]][k := s[i]]) == multiset(s)
  {
  }
}
