/** `QuickSort` as generate_java_sorts.py emits it: in-place quicksort,
    ascending, with Lomuto partitioning around the last element. */
module QuickSort {
  import opened SortSpec

  /** `QuickSort.sort`: `quick(a, 0, a.length - 1)`; on an empty array the
      range is `[0, -1]` and nothing happens. */
  method Sort(a: array<int>)
    modifies a
    ensures Sorted(a[..])
    ensures multiset(a[..]) == multiset(old(a[..]))
  {
    Quick(a, 0, a.Length - 1);
  }

  /** `quick(a, lo, hi)`: sorts `a[lo..hi]` (both ends included) and touches
      nothing else. With `lo >= hi` it returns at once. */
  method Quick(a: array<int>, lo: int, hi: int)
    requires 0 <= lo <= hi + 1 <= a.Length
    modifies a
    ensures SortedRange(a[..], lo, hi + 1)
    ensures multiset(a[..]) == multiset(old(a[..]))
    ensures forall k :: 0 <= k < lo || hi < k < a.Length ==> a[k] == old(a[k])
    ensures lo >= hi ==> a[..] == old(a[..])
    decreases hi - lo
  {
    if lo >= hi {
      return;
    }
    var p := Partition(a, lo, hi);
    ghost var parted := a[..];
    Quick(a, lo, p - 1);
    ghost var left := a[..];
    Quick(a, p + 1, hi);
    QuickJoin(parted, left, a[..], lo, p, hi);
  }

  /** `partition(a, lo, hi)`: with `pivot = a[hi]`, moves the elements at
      most `pivot` to the front of the range, puts the pivot right after
      them and returns its index. */
  method Partition(a: array<int>, lo: int, hi: int) returns (p: int)
    requires 0 <= lo <= hi < a.Length
    modifies a
    ensures lo <= p <= hi
    ensures a[p] == old(a[hi])
    ensures forall k :: lo <= k < p ==> a[k] <= a[p]
    ensures forall k :: p < k <= hi ==> a[k] > a[p]
    ensures multiset(a[..]) == multiset(old(a[..]))
    ensures forall k :: 0 <= k < lo || hi < k < a.Length ==> a[k] == old(a[k])
  {
    var pivot := a[hi];
    var i := lo - 1;
    var j := lo;
    while j < hi
      invariant Partitioning(old(a[..]), a[..], lo, hi, i, j, pivot)
    {
      ghost var s, i0 := a[..], i;
      if a[j] <= pivot {
        i := i + 1;
        Swap(a, i, j);
      }
      PartitionStep(old(a[..]), s, a[..], lo, hi, i0, i, j, pivot);
      j := j + 1;
    }
    ghost var s := a[..];
    Swap(a, i + 1, hi);
    PartitionEnd(old(a[..]), s, a[..], lo, hi, i, pivot);
    p := i + 1;
  }

  /** What the partition loop keeps with `j` elements scanned: `s[lo..i]` is
      at most the pivot, `s(i..j)` above it, the pivot still at `hi`, and
      the elements those of `o`, moved only inside `[lo, hi]`. */
  ghost predicate Partitioning(o: seq<int>, s: seq<int>, lo: int, hi: int, i: int, j: int, pivot: int)
  {
    |s| == |o| && 0 <= lo && lo - 1 <= i < j <= hi < |s| && s[hi] == pivot
    && (forall k :: lo <= k <= i ==> s[k] <= pivot)
    && (forall k :: i < k < j ==> s[k] > pivot)
    && multiset(s) == multiset(o)
    && (forall k :: 0 <= k < lo || hi < k < |s| ==> s[k] == o[k])
  }

  /** One step of the loop: an element at most the pivot is swapped to the
      end of the low part, which grows by one. */
  lemma PartitionStep(o: seq<int>, s: seq<int>, t: seq<int>, lo: int, hi: int, i: int, i': int, j: int, pivot: int)
    requires Partitioning(o, s, lo, hi, i, j, pivot) && j < hi
    requires if s[j] <= pivot then i' == i + 1 && t == s[i' := s[j]][j := s[i']]
             else i' == i && t == s
    ensures Partitioning(o, t, lo, hi, i', j + 1, pivot)
  {
    if s[j] <= pivot {
      SwapPermutes(s, i + 1, j);
      SwapLow(s, lo, hi, i, j, pivot);
    }
  }

  /** Swapping `s[j]`, at most the pivot, with the first element above it
      grows the low part by one and moves the high part one place on. */
  lemma SwapLow(s: seq<int>, lo: int, hi: int, i: int, j: int, pivot: int)
    requires 0 <= lo && lo - 1 <= i < j < hi < |s| && s[hi] == pivot && s[j] <= pivot
    requires forall k :: lo <= k <= i ==> s[k] <= pivot
    requires forall k :: i < k < j ==> s[k] > pivot
    ensures var t := s[i + 1 := s[j]][j := s[i + 1]];
      t[hi] == pivot
      && (forall k :: lo <= k <= i + 1 ==> t[k] <= pivot)
      && (forall k :: i + 1 < k < j + 1 ==> t[k] > pivot)
      && (forall k :: 0 <= k < lo || hi < k < |s| ==> t[k] == s[k])
  {
    var t := s[i + 1 := s[j]][j := s[i + 1]];
    forall k | i + 1 < k < j + 1
      ensures t[k] > pivot
    {
      if k == j {
        assert t[j] == s[i + 1];
      }
    }
  }

  /** The final swap puts the pivot between the two parts. */
  lemma PartitionEnd(o: seq<int>, s: seq<int>, t: seq<int>, lo: int, hi: int, i: int, pivot: int)
    requires Partitioning(o, s, lo, hi, i, hi, pivot)
    requires t == s[i + 1 := s[hi]][hi := s[i + 1]]
    ensures lo <= i + 1 <= hi && t[i + 1] == pivot
    ensures forall k :: lo <= k < i + 1 ==> t[k] <= pivot
    ensures forall k :: i + 1 < k <= hi ==> t[k] > pivot
    ensures multiset(t) == multiset(o)
    ensures forall k :: 0 <= k < lo || hi < k < |t| ==> t[k] == o[k]
  {
    SwapPermutes(s, i + 1, hi);
  }

  /** Sorting both sides of a partitioned range sorts the range: the left
      side keeps its elements, all at most the pivot, and the right side
      keeps its elements, all above it. */
  lemma QuickJoin(s1: seq<int>, s2: seq<int>, s3: seq<int>, lo: int, p: int, hi: int)
    requires 0 <= lo <= p <= hi < |s1| == |s2| == |s3|
    requires forall k :: lo <= k < p ==> s1[k] <= s1[p]
    requires forall k :: p < k <= hi ==> s1[k] > s1[p]
    requires multiset(s2) == multiset(s1) && SortedRange(s2, lo, p)
    requires forall k :: 0 <= k < lo || p <= k < |s1| ==> s2[k] == s1[k]
    requires multiset(s3) == multiset(s2) && SortedRange(s3, p + 1, hi + 1)
    requires forall k :: 0 <= k < p + 1 || hi < k < |s1| ==> s3[k] == s2[k]
    ensures SortedRange(s3, lo, hi + 1)
  {
    var v := s1[p];
    SegmentPermutation(s1, s2, lo, p);
    assert AllAtMost(s1[lo..p], v);
    PermutationBounds(s1[lo..p], s2[lo..p], v);
    SegmentPermutation(s2, s3, p + 1, hi + 1);
    assert s2[p + 1..hi + 1] == s1[p + 1..hi + 1];
    assert AllAbove(s2[p + 1..hi + 1], v);
    PermutationBounds(s2[p + 1..hi + 1], s3[p + 1..hi + 1], v);
    forall i, j | lo <= i < j < hi + 1
      ensures s3[i] <= s3[j]
    {
      if j < p {
        assert s3[i] == s2[i] && s3[j] == s2[j];
      } else if i < p {
        assert s3[i] == s2[lo..p][i - lo] <= v;
        if j > p {
          assert s3[j] == s3[p + 1..hi + 1][j - p - 1];
        }
      } else if i == p {
        assert s3[j] == s3[p + 1..hi + 1][j - p - 1];
      }
    }
  }
}
