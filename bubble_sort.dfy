/** `BubbleSort.sort` as generate_java_sorts.py emits it: in-place bubble
    sort, ascending, stopping after the first pass that swaps nothing. */
module BubbleSort {
  import opened SortSpec

  /** `BubbleSort.sort`, the outer `for i` loop. After `i` passes the last
      `i` places hold the `i` largest elements in their final order. */
  method Sort(a: array<int>)
    modifies a
    ensures Sorted(a[..])
    ensures multiset(a[..]) == multiset(old(a[..]))
  {
    var n := a.Length;
    var i := 0;
    while i < n - 1
      invariant 0 <= i <= n
      invariant multiset(a[..]) == multiset(old(a[..]))
      invariant SortedRange(a[..], n - i, n) && Split(a[..], 0, n - i, n)
    {
      ghost var before := a[..];
      var swapped := Pass(a, n - 1 - i);
      PassExtends(before, a[..], n - 1 - i, swapped);
      if !swapped {
        AdjacentToSorted(a[..], 0, n - i);
        JoinSorted(a[..], 0, n - i, n);
        break;
      }
      i := i + 1;
    }
    if i >= n - 1 {
      JoinSorted(a[..], 0, n - i, n);
    }
  }

  /** One pass, the inner `for j` loop: compares neighbours up to `a[m]`,
      swapping those out of order, and so carries the largest of
      `a[0..m]` to `a[m]`. */
  method Pass(a: array<int>, m: int) returns (swapped: bool)
    requires 0 <= m < a.Length
    modifies a
    ensures PassInvariant(old(a[..]), a[..], m, m, swapped)
  {
    swapped := false;
    var j := 0;
    while j < m
      invariant PassInvariant(old(a[..]), a[..], j, m, swapped)
    {
      ghost var s, sw := a[..], swapped;
      if a[j] > a[j + 1] {
        Swap(a, j, j + 1);
        swapped := true;
      }
      PassStep(old(a[..]), s, a[..], j, m, sw, swapped);
      j := j + 1;
    }
  }

  /** What the pass keeps while it has compared up to `s[j]`: the elements
      are those of `o`, nothing beyond `m` moved, `s[j]` is the largest so far,
      and without a swap yet nothing moved and `s[0..j]` is in order. */
  predicate PassInvariant(o: seq<int>, s: seq<int>, j: int, m: int, swapped: bool)
  {
    |s| == |o| && 0 <= j <= m < |s| && multiset(s) == multiset(o)
    && (forall k :: m < k < |s| ==> s[k] == o[k])
    && (forall p :: 0 <= p <= j ==> s[p] <= s[j])
    && (!swapped ==> AdjacentSorted(s, 0, j + 1) && s == o)
  }

  /** One comparison of the pass, with its swap if the neighbours are out of
      order, keeps the invariant one place further on. */
  lemma PassStep(o: seq<int>, s: seq<int>, t: seq<int>, j: int, m: int, sw: bool, sw': bool)
    requires PassInvariant(o, s, j, m, sw) && j < m
    requires if s[j] > s[j + 1] then t == s[j := s[j + 1]][j + 1 := s[j]] && sw'
             else t == s && sw' == sw
    ensures PassInvariant(o, t, j + 1, m, sw')
  {
    if s[j] > s[j + 1] {
      PassSwap(o, s, j, m, sw);
    } else {
      PassKeep(o, s, j, m, sw);
    }
  }

  /** Neighbours out of order: after the swap `t[j + 1]` is the old `s[j]`,
      the largest so far. */
  lemma PassSwap(o: seq<int>, s: seq<int>, j: int, m: int, sw: bool)
    requires PassInvariant(o, s, j, m, sw) && j < m && s[j] > s[j + 1]
    ensures PassInvariant(o, s[j := s[j + 1]][j + 1 := s[j]], j + 1, m, true)
  {
    SwapPermutes(s, j, j + 1);
    SwapCarriesMax(s, j);
    SwapKeepsRest(s, j, m);
  }

  lemma SwapCarriesMax(s: seq<int>, j: int)
    requires 0 <= j && j + 1 < |s| && s[j] > s[j + 1]
    requires forall p :: 0 <= p <= j ==> s[p] <= s[j]
    ensures var t := s[j := s[j + 1]][j + 1 := s[j]];
      forall p :: 0 <= p <= j + 1 ==> t[p] <= t[j + 1]
  {
    var t := s[j := s[j + 1]][j + 1 := s[j]];
    forall p | 0 <= p <= j + 1
      ensures t[p] <= t[j + 1]
    {
      if p < j {
        assert t[p] == s[p];
      }
    }
  }

  lemma SwapKeepsRest(s: seq<int>, j: int, m: int)
    requires 0 <= j < m < |s|
    ensures var t := s[j := s[j + 1]][j + 1 := s[j]];
      forall k :: m < k < |t| ==> t[k] == s[k]
  {
  }

  /** Neighbours in order: nothing moves and `s[j + 1]` is the largest so
      far. */
  lemma PassKeep(o: seq<int>, s: seq<int>, j: int, m: int, sw: bool)
    requires PassInvariant(o, s, j, m, sw) && j < m && s[j] <= s[j + 1]
    ensures PassInvariant(o, s, j + 1, m, sw)
  {
    forall p | 0 <= p <= j + 1
      ensures s[p] <= s[j + 1]
    {
      if p <= j {
        assert s[p] <= s[j];
      }
    }
  }

  /** A pass over `s[0..m]` that permutes it and brings its largest element
      to `m` extends the sorted top part of the array by one place. */
  lemma PassExtends(s: seq<int>, t: seq<int>, m: int, swapped: bool)
    requires PassInvariant(s, t, m, m, swapped)
    requires SortedRange(s, m + 1, |s|) && Split(s, 0, m + 1, |s|)
    ensures SortedRange(t, m, |t|) && Split(t, 0, m, |t|)
    ensures !swapped ==> AdjacentSorted(t, 0, m + 1)
  {
    SegmentPermutation(s, t, 0, m + 1);
    forall q | m < q < |t|
      ensures t[m] <= t[q]
    {
      assert AllAtMost(s[..m + 1], s[q]);
      PermutationBounds(s[..m + 1], t[..m + 1], s[q]);
      assert t[..m + 1][m] == t[m];
    }
  }
}
