/** The bounded buffers that keep the best hits of one document range. */
module TopKBuffers {
  import opened Wrappers
  import opened Ordering
  import opened Sorting

  const USIZE_MAX: nat := 0xFFFF_FFFF_FFFF_FFFF

  function SaturatingAdd(a: nat, b: nat): nat {
    if a + b > USIZE_MAX then USIZE_MAX else a + b
  }

  function SaturatingMul(a: nat, b: nat): nat {
    if a * b > USIZE_MAX then USIZE_MAX else a * b
  }

  function AtLeastOne(n: nat): nat {
    if n == 0 then 1 else n
  }

  /** Moves the element of rank `nth` to its place, smaller ones before it and larger ones after it;
      their order is left open. */
  method SelectNth<T(!new)>(hits: seq<T>, nth: nat, less: (T, T) -> bool) returns (r: seq<T>)
    requires StrictTotalOrder(less) && nth < |hits|
    ensures |r| == |hits| && multiset(r) == multiset(hits)
    ensures Splits(r, r[..nth], r[nth..], less)
  {
    r := Sort(hits, less);
    SortSorts(hits, less);
    SortedCut(r, nth, less);
  }

  method Largest<T(!new)>(hits: seq<T>, less: (T, T) -> bool) returns (r: Option<T>)
    requires StrictTotalOrder(less)
    ensures hits == [] ==> r == None
    ensures hits != [] ==> r.Some? && r.value in hits && forall y :: y in hits ==> !less(r.value, y)
  {
    if hits == [] { return None; }
    var best := hits[0];
    for i := 1 to |hits|
      invariant best in hits && forall k :: 0 <= k < i ==> !less(best, hits[k])
    {
      if less(best, hits[i]) { best := hits[i]; }
    }
    r := Some(best);
  }

  // ----- what a buffer may forget -----

  /** A threshold at or above the best `n` hits seen, of which there are `n`. */
  ghost predicate Bounds<T(!new)>(limit: T, n: nat, seen: seq<T>, less: (T, T) -> bool) {
    |seen| >= n > 0 && forall y :: y in Top(n, seen, less) ==> !less(limit, y)
  }

  /** A hit at or above such a threshold changes nothing. */
  lemma RejectedHit<T(!new)>(n: nat, seen: seq<T>, hit: T, limit: T, less: (T, T) -> bool)
    requires StrictTotalOrder(less) && Bounds(limit, n, seen, less) && !less(hit, limit)
    ensures Top(n, seen + [hit], less) == Top(n, seen, less)
  {
    var top, rest := Top(n, seen, less), Skip(Sort(seen, less), n);
    TopSplits(n, seen, less);
    SplitIsTop(n, seen, top, rest, less);
    forall x, y | x in rest + [hit] && y in top ensures !less(x, y) {
      assert !less(limit, y);
      assert x == hit ==> hit == limit || less(limit, hit);
    }
    assert multiset(seen + [hit]) == multiset(seen) + multiset{hit};
    assert multiset(rest + [hit]) == multiset(rest) + multiset{hit};
    SplitIsTop(n, seen + [hit], top, rest + [hit], less);
  }

  /** More hits only lower the best `n`, so a threshold stays one. */
  lemma StillBounds<T(!new)>(n: nat, seen: seq<T>, hit: T, limit: T, less: (T, T) -> bool)
    requires StrictTotalOrder(less) && Bounds(limit, n, seen, less)
    ensures Bounds(limit, n, seen + [hit], less)
  {
    var kept, more := Top(n, seen, less), [hit];
    TopSplits(n, seen, less);
    TopOfPart(n, seen, kept, Skip(Sort(seen, less), n), more, less);
    TopSplits(n, kept + more, less);
    var top, rest := Top(n, kept + more, less), Skip(Sort(kept + more, less), n);
    forall y | y in top ensures !less(limit, y) {
      DroppedStaysOut(n, kept, limit, more, top, rest, y, less);
    }
  }

  /** Cutting a buffer back to its best `n`, in any order, keeps its top `n`. */
  lemma CutBack<T(!new)>(n: nat, hits: seq<T>, kept: seq<T>, dropped: seq<T>, less: (T, T) -> bool)
    requires StrictTotalOrder(less) && Splits(hits, kept, dropped, less) && |kept| == Min(n, |hits|)
    ensures Top(n, kept, less) == Top(n, hits, less) == Sort(kept, less)
  {
    SplitIsTop(n, hits, kept, dropped, less);
    SortSorts(kept, less);
  }

  lemma SelectedSplits<T(!new)>(hits: seq<T>, selected: seq<T>, cut: nat, less: (T, T) -> bool)
    requires multiset(selected) == multiset(hits) && cut <= |selected| &&
             Splits(selected, selected[..cut], selected[cut..], less)
    ensures Splits(hits, selected[..cut], selected[cut..], less)
  {
  }

  lemma SizeOfTop<T(!new)>(n: nat, hits: seq<T>, seen: seq<T>, less: (T, T) -> bool)
    requires StrictTotalOrder(less) && Top(n, hits, less) == Top(n, seen, less)
    ensures Min(n, |hits|) == Min(n, |seen|)
  {
    TopSplits(n, hits, less);
    TopSplits(n, seen, less);
  }

  /** The buffer of the block collector and of the scored collector: hits at or above the threshold
      are rejected, and a full buffer is cut back to the best `topN`. */
  class BufferedTopK<T(!new)> {
    const topN: nat
    const capacity: nat
    const less: (T, T) -> bool
    var hits: seq<T>
    var threshold: Option<T>
    ghost var seen: seq<T>       // every hit pushed so far

    ghost predicate Valid()
      reads this
    {
      && StrictTotalOrder(less) && |hits| <= capacity && topN < capacity
      && Top(topN, hits, less) == Top(topN, seen, less)
      && (threshold.Some? ==> Bounds(threshold.value, topN, seen, less))
    }

    // The vector is allocated with at least the requested capacity, or the allocation fails.
    constructor (topN: nat, less: (T, T) -> bool, granted: nat)
      requires StrictTotalOrder(less)
      requires SaturatingMul(AtLeastOne(topN), 10) <= granted && SaturatingMul(AtLeastOne(topN), 10) < USIZE_MAX
      ensures Valid() && seen == [] && this.topN == topN && this.less == less && capacity == granted
    {
      this.topN, this.less, capacity := topN, less, granted;
      hits, threshold, seen := [], None, [];
    }

    method Push(hit: T)
      requires Valid()
      modifies this
      ensures Valid() && seen == old(seen) + [hit]
    {
      if topN == 0 {
        seen := seen + [hit];
        return;
      }
      if threshold.Some? {
        StillBounds(topN, seen, hit, threshold.value, less);
        if !less(hit, threshold.value) {
          RejectedHit(topN, seen, hit, threshold.value, less);
          seen := seen + [hit];
          return;
        }
      }
      if |hits| == capacity {
        Truncate();
        StillBounds(topN, seen, hit, threshold.value, less);
      }
      TopCongruent(topN, hits, seen, [hit], less);
      hits, seen := hits + [hit], seen + [hit];
    }

    method Truncate()
      requires Valid()
      modifies this`hits, this`threshold
      ensures Valid() && |hits| == Min(topN, |old(hits)|)
      ensures topN < |old(hits)| && topN > 0 ==> threshold.Some?
    {
      if |hits| <= topN { return; }
      var selected := SelectNth(hits, topN, less);
      SelectedSplits(hits, selected, topN, less);
      CutBack(topN, hits, selected[..topN], selected[topN..], less);
      SizeOfTop(topN, hits, seen, less);
      hits := selected[..topN];
      threshold := Largest(hits, less);
      forall y | y in Top(topN, seen, less) ensures y in hits { SortMembers(hits, less, y); }
    }

    /** Exactly the best `topN` of all hits pushed. */
    method Finish() returns (r: seq<T>)
      requires Valid()
      modifies this`hits, this`threshold
      ensures HoldsTop(topN, seen, r, less) && |r| == Min(topN, |seen|)
    {
      SizeOfTop(topN, hits, seen, less);
      Truncate();
      r := hits;
      SortSorts(r, less);
    }
  }

  /** The buffer of the materialized collector: no threshold, cut back when it becomes full. */
  class MaterializedBuffer<T(!new)> {
    const topN: nat
    const capacity: nat
    const less: (T, T) -> bool
    var hits: seq<T>
    ghost var seen: seq<T>

    ghost predicate Valid()
      reads this
    {
      StrictTotalOrder(less) && |hits| < capacity && topN < capacity && Top(topN, hits, less) == Top(topN, seen, less)
    }

    constructor (topN: nat, less: (T, T) -> bool, granted: nat)
      requires StrictTotalOrder(less)
      requires SaturatingMul(AtLeastOne(topN), 2) <= granted && SaturatingMul(AtLeastOne(topN), 2) < USIZE_MAX
      ensures Valid() && seen == [] && this.topN == topN && this.less == less && capacity == granted
    {
      this.topN, this.less, capacity := topN, less, granted;
      hits, seen := [], [];
    }

    method Push(hit: T)
      requires Valid()
      modifies this
      ensures Valid() && seen == old(seen) + [hit]
    {
      TopCongruent(topN, hits, seen, [hit], less);
      hits, seen := hits + [hit], seen + [hit];
      if |hits| == capacity { Truncate(); }
    }

    method Truncate()
      requires StrictTotalOrder(less)
      modifies this`hits
      ensures Top(topN, hits, less) == Top(topN, old(hits), less) && |hits| == Min(topN, |old(hits)|)
    {
      if |hits| <= topN { return; }
      var selected := SelectNth(hits, topN, less);
      SelectedSplits(hits, selected, topN, less);
      CutBack(topN, hits, selected[..topN], selected[topN..], less);
      hits := selected[..topN];
    }

    method Finish() returns (r: seq<T>)
      requires Valid()
      modifies this`hits
      ensures HoldsTop(topN, seen, r, less) && |r| == Min(topN, |seen|)
    {
      SizeOfTop(topN, hits, seen, less);
      Truncate();
      r := hits;
      SortSorts(r, less);
    }
  }
}
