/** Three-way comparisons: the counterpart of Rust's `Ordering`, and what it takes for a
    comparison to be usable by a sort. */
module Ordering {

  datatype Ordering = Less | Equal | Greater
  {
    function Reverse(): Ordering {
      match this
      case Less => Greater
      case Equal => Equal
      case Greater => Less
    }

    function Then(next: Ordering): Ordering {
      if Equal? then next else this
    }

    // The direction of one sort column.
    function Directed(ascending: bool): Ordering {
      if ascending then this else Reverse()
    }
  }

  /** `compare` is a total preorder: swapping the arguments mirrors the answer, and "at most" chains. */
  ghost predicate TotalPreorder<T(!new)>(compare: (T, T) -> Ordering) {
    && (forall a, b :: compare(a, b) == compare(b, a).Reverse())
    && (forall a, b, c :: !compare(a, b).Greater? && !compare(b, c).Greater? ==> !compare(a, c).Greater?)
  }

  /** `less` is a strict total order. */
  ghost predicate StrictTotalOrder<T(!new)>(less: (T, T) -> bool) {
    && (forall a :: !less(a, a))
    && (forall a, b :: less(a, b) || less(b, a) || a == b)
    && (forall a, b, c :: less(a, b) && less(b, c) ==> less(a, c))
  }

  /** A total preorder also chains its strict half and its equality. */
  lemma PreorderChains<T(!new)>(compare: (T, T) -> Ordering, a: T, b: T, c: T)
    requires TotalPreorder(compare)
    requires !compare(a, b).Greater? && !compare(b, c).Greater?
    ensures compare(a, c).Equal? <==> compare(a, b).Equal? && compare(b, c).Equal?
    ensures !compare(a, c).Greater?
  {
    assert compare(a, b) == compare(b, a).Reverse();
    assert compare(b, c) == compare(c, b).Reverse();
    assert compare(a, c) == compare(c, a).Reverse();
  }

  function CompareInt(a: int, b: int): Ordering {
    if a < b then Less else if a == b then Equal else Greater
  }

  function CompareReal(a: real, b: real): Ordering {
    if a < b then Less else if a == b then Equal else Greater
  }

  function CompareBool(a: bool, b: bool): Ordering {
    if a == b then Equal else if b then Less else Greater
  }

  // Code-point order, which for UTF-8 is also byte order.
  function CompareString(a: string, b: string): Ordering
    decreases |a|
  {
    if a == [] then (if b == [] then Equal else Less)
    else if b == [] then Greater
    else CompareInt(a[0] as int, b[0] as int).Then(CompareString(a[1..], b[1..]))
  }

  lemma {:induction false} StringMirror(a: string, b: string)
    ensures CompareString(a, b) == CompareString(b, a).Reverse()
    ensures CompareString(a, b).Equal? <==> a == b
    decreases |a|
  {
    if a != [] && b != [] {
      StringMirror(a[1..], b[1..]);
      assert a == [a[0]] + a[1..] && b == [b[0]] + b[1..];
    }
  }

  /** Text is ordered by the first character that differs, and a proper prefix comes first. */
  lemma {:induction false} FirstCharacterDecides(a: string, b: string, n: nat)
    requires n <= |a| && n <= |b| && a[..n] == b[..n]
    ensures n < |a| && n < |b| && a[n] < b[n] ==> CompareString(a, b).Less?
    ensures n < |a| && n < |b| && a[n] > b[n] ==> CompareString(a, b).Greater?
    ensures n == |a| ==> CompareString(a, b) == if n < |b| then Less else Equal
  {
    if n > 0 {
      assert a[0] == a[..n][0] == b[..n][0] == b[0];
      assert a[1..][..n - 1] == a[..n][1..] && b[1..][..n - 1] == b[..n][1..];
      FirstCharacterDecides(a[1..], b[1..], n - 1);
    }
  }

  lemma {:induction false} StringChain(a: string, b: string, c: string)
    requires !CompareString(a, b).Greater? && !CompareString(b, c).Greater?
    ensures !CompareString(a, c).Greater?
    decreases |a|
  {
    if a != [] && b != [] && c != [] && a[0] == b[0] == c[0] {
      StringChain(a[1..], b[1..], c[1..]);
    }
  }

  lemma StringsAreOrdered()
    ensures TotalPreorder(CompareString)
  {
    forall a, b ensures CompareString(a, b) == CompareString(b, a).Reverse() { StringMirror(a, b); }
    forall a, b, c | !CompareString(a, b).Greater? && !CompareString(b, c).Greater?
      ensures !CompareString(a, c).Greater?
    {
      StringChain(a, b, c);
    }
  }
}
