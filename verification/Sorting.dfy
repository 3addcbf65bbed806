/** Sorting by a strict total order, and the first `n` of a sorted sequence: the one-line
    specification that every top-K collector refines. */
module Sorting {
  import opened Ordering

  ghost predicate SortedBy<T(!new)>(s: seq<T>, less: (T, T) -> bool) {
    forall i, j :: 0 <= i < j < |s| ==> !less(s[j], s[i])
  }

  function Insert<T>(x: T, s: seq<T>, less: (T, T) -> bool): seq<T> {
    if s == [] then [x]
    else
      var last := s[|s| - 1];
      if less(x, last) then Insert(x, s[..|s| - 1], less) + [last] else s + [x]
  }

  function Sort<T>(s: seq<T>, less: (T, T) -> bool): seq<T> {
    if s == [] then [] else Insert(s[|s| - 1], Sort(s[..|s| - 1], less), less)
  }

  function Min(a: nat, b: nat): nat {
    if a < b then a else b
  }

  function Take<T>(s: seq<T>, n: nat): seq<T> {
    s[..Min(n, |s|)]
  }

  function Skip<T>(s: seq<T>, n: nat): seq<T> {
    s[Min(n, |s|)..]
  }

  /** The `n` smallest, in order. */
  function Top<T>(n: nat, s: seq<T>, less: (T, T) -> bool): seq<T> {
    Take(Sort(s, less), n)
  }

  // ----- sorting -----

  lemma {:induction false} InsertPermutes<T>(x: T, s: seq<T>, less: (T, T) -> bool)
    ensures multiset(Insert(x, s, less)) == multiset(s) + multiset{x}
  {
    if s != [] {
      InsertPermutes(x, s[..|s| - 1], less);
      assert s == s[..|s| - 1] + [s[|s| - 1]];
    }
  }

  lemma {:induction false} InsertSorts<T(!new)>(x: T, s: seq<T>, less: (T, T) -> bool)
    requires StrictTotalOrder(less) && SortedBy(s, less)
    ensures SortedBy(Insert(x, s, less), less)
  {
    if s != [] {
      var front, last := s[..|s| - 1], s[|s| - 1];
      if less(x, last) {
        InsertSorts(x, front, less);
        var inserted := Insert(x, front, less);
        InsertPermutes(x, front, less);
        forall k | 0 <= k < |inserted| ensures !less(last, inserted[k]) {
          assert inserted[k] in multiset(inserted);
          if inserted[k] != x { var i :| 0 <= i < |front| && front[i] == inserted[k]; assert s[i] == inserted[k]; }
        }
      } else {
        forall k | 0 <= k < |s| ensures !less(x, s[k]) { assert !less(last, s[k]); }
      }
    }
  }

  lemma {:induction false} SortSorts<T(!new)>(s: seq<T>, less: (T, T) -> bool)
    requires StrictTotalOrder(less)
    ensures SortedBy(Sort(s, less), less) && multiset(Sort(s, less)) == multiset(s) && |Sort(s, less)| == |s|
  {
    if s != [] {
      var front, last := s[..|s| - 1], s[|s| - 1];
      assert s == front + [last];
      SortSorts(front, less);
      InsertSorts(last, Sort(front, less), less);
      InsertPermutes(last, Sort(front, less), less);
      assert |multiset(Sort(s, less))| == |multiset(s)|;
    }
  }

  lemma FrontMultiset<T>(s: seq<T>)
    requires s != []
    ensures s == s[..|s| - 1] + [s[|s| - 1]]
    ensures multiset(s[..|s| - 1]) == multiset(s) - multiset{s[|s| - 1]}
  {
    assert s == s[..|s| - 1] + [s[|s| - 1]];
  }

  /** A multiset has one sorted arrangement. */
  lemma {:induction false} SortedUnique<T(!new)>(a: seq<T>, b: seq<T>, less: (T, T) -> bool)
    requires StrictTotalOrder(less) && SortedBy(a, less) && SortedBy(b, less) && multiset(a) == multiset(b)
    ensures a == b
  {
    assert |multiset(a)| == |multiset(b)|;
    if a != [] {
      SameLast(a, b, less);
      SameLast(b, a, less);
      var lastA, lastB := a[|a| - 1], b[|b| - 1];
      assert lastA == lastB;
      FrontMultiset(a);
      FrontMultiset(b);
      SortedUnique(a[..|a| - 1], b[..|b| - 1], less);
    }
  }

  lemma SameLast<T(!new)>(a: seq<T>, b: seq<T>, less: (T, T) -> bool)
    requires StrictTotalOrder(less) && SortedBy(a, less) && multiset(a) == multiset(b) && a != [] && b != []
    ensures !less(a[|a| - 1], b[|b| - 1])
  {
    assert b[|b| - 1] in multiset(a);
    var k :| 0 <= k < |a| && a[k] == b[|b| - 1];
  }

  lemma SortOfSame<T(!new)>(a: seq<T>, b: seq<T>, less: (T, T) -> bool)
    requires StrictTotalOrder(less) && multiset(a) == multiset(b)
    ensures Sort(a, less) == Sort(b, less)
  {
    SortSorts(a, less);
    SortSorts(b, less);
    SortedUnique(Sort(a, less), Sort(b, less), less);
  }

  lemma {:induction false} SortMembers<T(!new)>(s: seq<T>, less: (T, T) -> bool, x: T)
    requires StrictTotalOrder(less)
    ensures x in Sort(s, less) <==> x in s
  {
    SortSorts(s, less);
    assert x in multiset(Sort(s, less)) <==> x in multiset(s);
  }

  // ----- selections -----

  /** `kept` and `dropped` divide `s`, and nothing dropped is smaller than anything kept. */
  ghost predicate Splits<T(!new)>(s: seq<T>, kept: seq<T>, dropped: seq<T>, less: (T, T) -> bool) {
    && multiset(s) == multiset(kept) + multiset(dropped)
    && forall x, y :: x in dropped && y in kept ==> !less(x, y)
  }

  lemma SplitSorted<T(!new)>(s: seq<T>, kept: seq<T>, dropped: seq<T>, less: (T, T) -> bool)
    requires StrictTotalOrder(less) && Splits(s, kept, dropped, less)
    ensures Sort(s, less) == Sort(kept, less) + Sort(dropped, less)
  {
    var a, b := Sort(kept, less), Sort(dropped, less);
    SortSorts(s, less);
    SortSorts(kept, less);
    SortSorts(dropped, less);
    forall i, j | 0 <= i < |a| && 0 <= j < |b| ensures !less(b[j], a[i]) {
      SortMembers(kept, less, a[i]);
      SortMembers(dropped, less, b[j]);
    }
    assert multiset(a + b) == multiset(a) + multiset(b);
    SortedUnique(Sort(s, less), a + b, less);
  }

  /** A selection of the right size is the top `n`. */
  lemma SplitIsTop<T(!new)>(n: nat, s: seq<T>, kept: seq<T>, dropped: seq<T>, less: (T, T) -> bool)
    requires StrictTotalOrder(less) && Splits(s, kept, dropped, less) && |kept| == Min(n, |s|)
    ensures Sort(kept, less) == Top(n, s, less)
  {
    SplitSorted(s, kept, dropped, less);
    SortSorts(s, less);
    SortSorts(kept, less);
    assert (Sort(kept, less) + Sort(dropped, less))[..|kept|] == Sort(kept, less);
  }

  lemma SortedCut<T(!new)>(sorted: seq<T>, cut: nat, less: (T, T) -> bool)
    requires SortedBy(sorted, less) && cut <= |sorted|
    ensures Splits(sorted, sorted[..cut], sorted[cut..], less)
  {
    assert sorted == sorted[..cut] + sorted[cut..];
    forall x, y | x in sorted[cut..] && y in sorted[..cut] ensures !less(x, y) {
      var i :| 0 <= i < |sorted[cut..]| && sorted[cut..][i] == x;
      var j :| 0 <= j < cut && sorted[..cut][j] == y;
      assert sorted[cut + i] == x && sorted[j] == y;
    }
  }

  /** The top `n` is such a selection. */
  lemma TopSplits<T(!new)>(n: nat, s: seq<T>, less: (T, T) -> bool)
    requires StrictTotalOrder(less)
    ensures Splits(s, Top(n, s, less), Skip(Sort(s, less), n), less) && |Top(n, s, less)| == Min(n, |s|)
  {
    SortSorts(s, less);
    SortedCut(Sort(s, less), Min(n, |s|), less);
  }

  lemma FullMultiset<T>(a: multiset<T>, b: multiset<T>)
    requires a <= b && |a| == |b|
    ensures a == b
  {
    assert b == a + (b - a);
  }

  // When something else reaches the top `n`, one of `n` earlier candidates has to leave it.
  lemma OneLeaves<T(!new)>(n: nat, kept: seq<T>, b: seq<T>, top: seq<T>, rest: seq<T>, y: T)
    requires multiset(kept + b) == multiset(top) + multiset(rest) && |kept| == n == |top|
    requires y in top && y !in kept
    ensures exists z :: z in kept && z in rest
  {
    assert y in multiset(top) && y !in multiset(kept);
    if forall z :: z in kept ==> z !in rest {
      assert multiset(kept + b) == multiset(kept) + multiset(b);
      forall z ensures multiset(kept)[z] <= multiset(top)[z] {
        if z in kept {
          assert z !in multiset(rest);
          assert (multiset(kept) + multiset(b))[z] == (multiset(top) + multiset(rest))[z];
        } else {
          assert z !in multiset(kept);
        }
      }
      FullMultiset(multiset(kept), multiset(top));
      assert false;
    }
  }

  // Anything a part has dropped is beaten by everything it kept, so the whole drops it as well.
  lemma DroppedStaysOut<T(!new)>(n: nat, kept: seq<T>, out: T, b: seq<T>, top: seq<T>, rest: seq<T>, y: T,
                                 less: (T, T) -> bool)
    requires StrictTotalOrder(less) && Splits(kept + b, top, rest, less)
    requires |kept| == n == |top| && (forall z :: z in kept ==> !less(out, z)) && y in top
    ensures !less(out, y)
  {
    if y !in kept {
      OneLeaves(n, kept, b, top, rest, y);
      var z :| z in kept && z in rest;
      assert !less(out, z) && !less(z, y);
      assert z == out || less(z, out);
    }
  }

  /** Reducing one part to its own top `n` does not change the top `n` of the whole. */
  lemma TopOfPart<T(!new)>(n: nat, a: seq<T>, kept: seq<T>, dropped: seq<T>, b: seq<T>, less: (T, T) -> bool)
    requires StrictTotalOrder(less) && Splits(a, kept, dropped, less) && |kept| == Min(n, |a|)
    ensures Top(n, kept + b, less) == Top(n, a + b, less)
  {
    assert |multiset(a)| == |multiset(kept)| + |multiset(dropped)|;
    assert multiset(a + b) == multiset(a) + multiset(b) && multiset(kept + b) == multiset(kept) + multiset(b);
    if |a| <= n {
      assert dropped == [];
      SortOfSame(kept + b, a + b, less);
    } else {
      var top, rest := Top(n, kept + b, less), Skip(Sort(kept + b, less), n);
      TopSplits(n, kept + b, less);
      SplitIsTop(n, kept + b, top, rest, less);
      forall x, y | x in rest + dropped && y in top ensures !less(x, y) {
        if x in dropped { DroppedStaysOut(n, kept, x, b, top, rest, y, less); }
      }
      assert multiset(rest + dropped) == multiset(rest) + multiset(dropped);
      assert multiset(a + b) == multiset(kept + b) + multiset(dropped);
      SplitIsTop(n, a + b, top, rest + dropped, less);
    }
  }

  function Flatten<T>(parts: seq<seq<T>>): seq<T> {
    if parts == [] then [] else Flatten(parts[..|parts| - 1]) + parts[|parts| - 1]
  }

  /** `fruit` holds the `n` smallest of `docs`, in any order. */
  ghost predicate HoldsTop<T(!new)>(n: nat, docs: seq<T>, fruit: seq<T>, less: (T, T) -> bool) {
    Sort(fruit, less) == Top(n, docs, less)
  }

  lemma FruitSplits<T(!new)>(n: nat, docs: seq<T>, fruit: seq<T>, less: (T, T) -> bool)
    requires StrictTotalOrder(less) && HoldsTop(n, docs, fruit, less)
    ensures Splits(docs, fruit, Skip(Sort(docs, less), n), less) && |fruit| == Min(n, |docs|)
  {
    TopSplits(n, docs, less);
    SortSorts(fruit, less);
    forall y | y in fruit ensures y in Top(n, docs, less) { SortMembers(fruit, less, y); }
  }

  lemma TopOfBoth<T(!new)>(n: nat, a: seq<T>, fruitA: seq<T>, b: seq<T>, fruitB: seq<T>, less: (T, T) -> bool)
    requires StrictTotalOrder(less) && HoldsTop(n, b, fruitB, less)
    requires Top(n, fruitA, less) == Top(n, a, less)
    ensures Top(n, fruitA + fruitB, less) == Top(n, a + b, less)
  {
    TopCongruent(n, fruitA, a, fruitB, less);
    FruitSplits(n, b, fruitB, less);
    TopOfPart(n, b, fruitB, Skip(Sort(b, less), n), a, less);
    SortOfSame(fruitB + a, a + fruitB, less);
    SortOfSame(b + a, a + b, less);
  }

  lemma TopCongruent<T(!new)>(n: nat, a: seq<T>, b: seq<T>, more: seq<T>, less: (T, T) -> bool)
    requires StrictTotalOrder(less) && Top(n, a, less) == Top(n, b, less)
    ensures Top(n, a + more, less) == Top(n, b + more, less)
  {
    TopSplits(n, a, less);
    TopSplits(n, b, less);
    TopOfPart(n, a, Top(n, a, less), Skip(Sort(a, less), n), more, less);
    TopOfPart(n, b, Top(n, b, less), Skip(Sort(b, less), n), more, less);
  }

  /** Merging the top `n` of every part gives the top `n` of everything. */
  lemma {:induction false} MergeTop<T(!new)>(n: nat, parts: seq<seq<T>>, fruits: seq<seq<T>>, less: (T, T) -> bool)
    requires StrictTotalOrder(less) && |fruits| == |parts|
    requires forall i :: 0 <= i < |parts| ==> HoldsTop(n, parts[i], fruits[i], less)
    ensures Top(n, Flatten(fruits), less) == Top(n, Flatten(parts), less)
  {
    if parts != [] {
      var k := |parts| - 1;
      MergeTop(n, parts[..k], fruits[..k], less);
      TopOfBoth(n, Flatten(parts[..k]), Flatten(fruits[..k]), parts[k], fruits[k], less);
    }
  }

  /** Two orders that agree on the elements sort them alike. */
  lemma {:induction false} SortCongruent<T(!new)>(s: seq<T>, less: (T, T) -> bool, other: (T, T) -> bool)
    requires StrictTotalOrder(less) && StrictTotalOrder(other)
    requires forall x, y :: x in s && y in s ==> (less(x, y) <==> other(x, y))
    ensures Sort(s, less) == Sort(s, other)
  {
    SortSorts(s, less);
    SortSorts(s, other);
    var sorted := Sort(s, other);
    forall i, j | 0 <= i < j < |sorted| ensures !less(sorted[j], sorted[i]) {
      SortMembers(s, other, sorted[i]);
      SortMembers(s, other, sorted[j]);
    }
    SortedUnique(Sort(s, less), sorted, less);
  }

  // ----- filtering -----

  function Select<T>(s: seq<T>, p: T -> bool): seq<T> {
    if s == [] then []
    else
      var last := s[|s| - 1];
      var before := Select(s[..|s| - 1], p);
      if p(last) then before + [last] else before
  }

  lemma {:induction false} SelectCounts<T>(s: seq<T>, p: T -> bool, x: T)
    ensures multiset(Select(s, p))[x] == if p(x) then multiset(s)[x] else 0
  {
    if s != [] {
      SelectCounts(s[..|s| - 1], p, x);
      assert s == s[..|s| - 1] + [s[|s| - 1]];
    }
  }

  lemma SelectMembers<T>(s: seq<T>, p: T -> bool, x: T)
    ensures x in Select(s, p) <==> x in s && p(x)
  {
    SelectCounts(s, p, x);
    assert x in Select(s, p) <==> x in multiset(Select(s, p));
    assert x in s <==> x in multiset(s);
  }

  lemma {:induction false} SelectSorted<T(!new)>(s: seq<T>, p: T -> bool, less: (T, T) -> bool)
    requires SortedBy(s, less)
    ensures SortedBy(Select(s, p), less)
  {
    if s != [] {
      var front := s[..|s| - 1];
      SelectSorted(front, p, less);
      var before := Select(front, p);
      forall i | 0 <= i < |before| ensures !less(s[|s| - 1], before[i]) {
        SelectMembers(front, p, before[i]);
        var k :| 0 <= k < |front| && front[k] == before[i];
        assert s[k] == before[i];
      }
    }
  }

  /** Filtering and sorting commute. */
  lemma SortOfSelect<T(!new)>(s: seq<T>, p: T -> bool, less: (T, T) -> bool)
    requires StrictTotalOrder(less)
    ensures Sort(Select(s, p), less) == Select(Sort(s, less), p)
  {
    SortSorts(s, less);
    SortSorts(Select(s, p), less);
    SelectSorted(Sort(s, less), p, less);
    forall x ensures multiset(Select(s, p))[x] == multiset(Select(Sort(s, less), p))[x] {
      SelectCounts(s, p, x);
      SelectCounts(Sort(s, less), p, x);
    }
    SortedUnique(Sort(Select(s, p), less), Select(Sort(s, less), p), less);
  }

  lemma {:induction false} SelectSuffix<T>(s: seq<T>, p: T -> bool, k: nat)
    requires k <= |s| && (forall i :: 0 <= i < k ==> !p(s[i])) && (forall i :: k <= i < |s| ==> p(s[i]))
    ensures Select(s, p) == s[k..]
  {
    if |s| > 0 {
      var front := s[..|s| - 1];
      if k == |s| {
        SelectSuffix(front, p, |front|);
      } else {
        SelectSuffix(front, p, k);
        assert s[k..] == front[k..] + [s[|s| - 1]];
      }
    }
  }
}
