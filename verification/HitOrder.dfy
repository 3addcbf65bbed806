/** The order of the hits of a query: the sort columns one after another, each in its own direction,
    then the document address. */
module HitOrder {
  import opened Wrappers
  import opened Ordering
  import opened JsonOrder

  datatype Address = Address(segment: nat, doc: nat)

  function CompareAddress(a: Address, b: Address): Ordering {
    CompareInt(a.segment, b.segment).Then(CompareInt(a.doc, b.doc))
  }

  // How one column compares two documents of a fixed snapshot.
  type Column = (Address, Address) -> Ordering

  function CompareColumns(a: Address, b: Address, columns: seq<Column>): Ordering {
    if columns == [] then Equal else columns[0](a, b).Then(CompareColumns(a, b, columns[1..]))
  }

  function HitLess(columns: seq<Column>): (Address, Address) -> bool {
    (a, b) => CompareColumns(a, b, columns).Then(CompareAddress(a, b)).Less?
  }

  ghost predicate Comparable(columns: seq<Column>) {
    forall i :: 0 <= i < |columns| ==> TotalPreorder(columns[i])
  }

  lemma RestComparable(columns: seq<Column>)
    requires Comparable(columns) && columns != []
    ensures TotalPreorder(columns[0]) && Comparable(columns[1..])
  {
  }

  lemma {:induction false} ColumnsMirror(a: Address, b: Address, columns: seq<Column>)
    requires Comparable(columns)
    ensures CompareColumns(a, b, columns) == CompareColumns(b, a, columns).Reverse()
  {
    if columns != [] {
      RestComparable(columns);
      ColumnsMirror(a, b, columns[1..]);
    }
  }

  lemma {:induction false} ColumnsChain(a: Address, b: Address, c: Address, columns: seq<Column>)
    requires Comparable(columns)
    ensures Chains(CompareColumns(a, b, columns), CompareColumns(b, c, columns), CompareColumns(a, c, columns))
  {
    if columns != [] {
      var first := columns[0];
      RestComparable(columns);
      if !first(a, b).Greater? && !first(b, c).Greater? { PreorderChains(first, a, b, c); }
      ColumnsChain(a, b, c, columns[1..]);
    }
  }

  /** Comparable columns and the address tie-break order all documents strictly. */
  lemma HitsAreOrdered(columns: seq<Column>)
    requires Comparable(columns)
    ensures StrictTotalOrder(HitLess(columns))
  {
    var less := HitLess(columns);
    forall a, b ensures !less(a, a) && (less(a, b) || less(b, a) || a == b) {
      ColumnsMirror(a, a, columns);
      ColumnsMirror(a, b, columns);
    }
    forall a, b, c | less(a, b) && less(b, c) ensures less(a, c) { ColumnsChain(a, b, c, columns); }
  }

  // The first `n` columns do not tell the documents apart.
  ghost predicate Tied(columns: seq<Column>, a: Address, b: Address, n: nat)
    requires n <= |columns|
  {
    forall k :: 0 <= k < n ==> columns[k](a, b).Equal?
  }

  lemma {:induction false} ColumnsFrom(a: Address, b: Address, columns: seq<Column>, n: nat)
    requires n <= |columns| && Tied(columns, a, b, n)
    ensures CompareColumns(a, b, columns) == CompareColumns(a, b, columns[n..])
  {
    if n > 0 {
      assert columns[0](a, b).Equal?;
      forall k | 0 <= k < n - 1 ensures columns[1..][k](a, b).Equal? { assert columns[k + 1](a, b).Equal?; }
      ColumnsFrom(a, b, columns[1..], n - 1);
      assert columns[1..][n - 1..] == columns[n..];
    } else {
      assert columns[0..] == columns;
    }
  }

  /** The first column that tells two hits apart decides; if none does, the one in the earlier segment comes
      first, and of two in one segment the one with the smaller number. */
  lemma FirstColumnDecides(a: Address, b: Address, columns: seq<Column>, n: nat)
    requires n <= |columns| && Tied(columns, a, b, n)
    ensures n < |columns| && !columns[n](a, b).Equal? ==> (HitLess(columns)(a, b) <==> columns[n](a, b).Less?)
    ensures n == |columns| ==>
              (HitLess(columns)(a, b) <==> a.segment < b.segment || (a.segment == b.segment && a.doc < b.doc))
  {
    ColumnsFrom(a, b, columns, n);
  }

  lemma {:induction false} ColumnsAgree(a: Address, b: Address, left: seq<Column>, right: seq<Column>)
    requires |left| == |right| && forall i :: 0 <= i < |left| ==> left[i](a, b) == right[i](a, b)
    ensures CompareColumns(a, b, left) == CompareColumns(a, b, right)
  {
    if left != [] {
      forall i | 0 <= i < |left[1..]| ensures left[1..][i](a, b) == right[1..][i](a, b) {
        assert left[1..][i] == left[i + 1] && right[1..][i] == right[i + 1];
      }
      ColumnsAgree(a, b, left[1..], right[1..]);
    }
  }

  // ----- the columns of the three collectors -----

  /** Comparing a projection of the documents by a total preorder, in either direction. */
  function ValueColumn<V>(value: Address -> V, compare: (V, V) -> Ordering, ascending: bool): Column {
    (a, b) => compare(value(a), value(b)).Directed(ascending)
  }

  lemma ValueColumnOrdered<V(!new)>(value: Address -> V, compare: (V, V) -> Ordering, ascending: bool)
    requires TotalPreorder(compare)
    ensures TotalPreorder(ValueColumn(value, compare, ascending))
  {
    var column := ValueColumn(value, compare, ascending);
    forall a, b ensures column(a, b) == column(b, a).Reverse() {
      assert compare(value(a), value(b)) == compare(value(b), value(a)).Reverse();
    }
    forall a, b, c | !column(a, b).Greater? && !column(b, c).Greater? ensures !column(a, c).Greater? {
      var x, y, z := value(a), value(b), value(c);
      assert compare(x, y) == compare(y, x).Reverse() && compare(y, z) == compare(z, y).Reverse();
      assert compare(x, z) == compare(z, x).Reverse();
      if ascending { PreorderChains(compare, x, y, z); } else { PreorderChains(compare, z, y, x); }
    }
  }

  /** A missing value is greatest before the direction is applied, so it comes last in ascending
      order and first in descending order. */
  function CompareOptional<V>(compare: (V, V) -> Ordering): (Option<V>, Option<V>) -> Ordering {
    (a: Option<V>, b: Option<V>) =>
      match (a, b)
      case (None, None) => Equal
      case (None, Some(_)) => Greater
      case (Some(_), None) => Less
      case (Some(x), Some(y)) => compare(x, y)
  }

  lemma OptionalOrdered<V(!new)>(compare: (V, V) -> Ordering)
    requires TotalPreorder(compare)
    ensures TotalPreorder(CompareOptional(compare))
  {
    var optional := CompareOptional(compare);
    forall a, b ensures optional(a, b) == optional(b, a).Reverse() {
      if a.Some? && b.Some? { assert compare(a.value, b.value) == compare(b.value, a.value).Reverse(); }
    }
    forall a, b, c | !optional(a, b).Greater? && !optional(b, c).Greater? ensures !optional(a, c).Greater? {
      if a.Some? && b.Some? && c.Some? { PreorderChains(compare, a.value, b.value, c.value); }
    }
  }

  lemma IntsOrdered()
    ensures TotalPreorder(CompareInt)
  {
  }

  // ----- the materialized collector -----

  // Position by position, up to the end of the shortest list.
  function CompareOrderedValues(left: seq<Json>, right: seq<Json>, order: seq<bool>): Ordering {
    if left == [] || right == [] || order == [] then Equal
    else CompareJson(left[0], right[0]).Directed(order[0]).Then(CompareOrderedValues(left[1..], right[1..], order[1..]))
  }

  type SortValue = (Address, nat) -> Json

  // The keys a hit carries: one value for each sort column.
  function HitKeys(value: SortValue, address: Address, from: nat, order: seq<bool>): (keys: seq<Json>)
    ensures |keys| == |order|
    decreases order
  {
    if order == [] then [] else [value(address, from)] + HitKeys(value, address, from + 1, order[1..])
  }

  function JsonColumns(value: SortValue, from: nat, order: seq<bool>): (columns: seq<Column>)
    ensures |columns| == |order|
    decreases order
  {
    if order == [] then []
    else [ValueColumn(a => value(a, from), CompareJson, order[0])] + JsonColumns(value, from + 1, order[1..])
  }

  lemma {:induction false} JsonColumnsComparable(value: SortValue, from: nat, order: seq<bool>)
    ensures Comparable(JsonColumns(value, from, order))
    decreases order
  {
    if order != [] {
      JsonIsOrdered();
      ValueColumnOrdered(a => value(a, from), CompareJson, order[0]);
      JsonColumnsComparable(value, from + 1, order[1..]);
    }
  }

  lemma {:induction false} JsonColumnAt(value: SortValue, from: nat, order: seq<bool>, i: nat, a: Address, b: Address)
    requires i < |order|
    ensures JsonColumns(value, from, order)[i](a, b) ==
            CompareJson(value(a, from + i), value(b, from + i)).Directed(order[i])
    decreases i
  {
    if i > 0 { JsonColumnAt(value, from + 1, order[1..], i - 1, a, b); }
  }

  /** A missing key comes last in an ascending and first in a descending column of the fallback sort. */
  lemma MissingKeyPlacement(value: SortValue, order: seq<bool>, i: nat, present: Address, missing: Address)
    requires i < |order| && !value(present, i).Null? && value(missing, i).Null?
    ensures JsonColumns(value, 0, order)[i](present, missing) == if order[i] then Less else Greater
  {
    JsonColumnAt(value, 0, order, i, present, missing);
    KindsInOrder(value(present, i), value(missing, i));
  }

  /** Comparing the keys of two hits is comparing their columns. */
  lemma {:induction false} OrderedValuesAreColumns(value: SortValue, a: Address, b: Address, from: nat,
                                                   order: seq<bool>)
    ensures CompareOrderedValues(HitKeys(value, a, from, order), HitKeys(value, b, from, order), order) ==
            CompareColumns(a, b, JsonColumns(value, from, order))
    decreases order
  {
    if order != [] {
      OrderedValuesAreColumns(value, a, b, from + 1, order[1..]);
      var left, right := HitKeys(value, a, from, order), HitKeys(value, b, from, order);
      assert left[1..] == HitKeys(value, a, from + 1, order[1..]) &&
             right[1..] == HitKeys(value, b, from + 1, order[1..]);
      var columns := JsonColumns(value, from, order);
      assert columns[1..] == JsonColumns(value, from + 1, order[1..]);
    }
  }

  // ----- the block collector -----

  datatype BlockSortKey = One(first: Option<int>) | Two(first: Option<int>, second: Option<int>)

  function CompareKey(a: BlockSortKey, b: BlockSortKey, orders: seq<bool>): Ordering
    requires (a.One? && b.One? && |orders| == 1) || (a.Two? && b.Two? && |orders| == 2)
  {
    var compare := CompareOptional(CompareInt);
    var first := compare(a.first, b.first).Directed(orders[0]);
    if a.One? then first else first.Then(compare(a.second, b.second).Directed(orders[1]))
  }

  type BlockValue = (Address, nat) -> Option<int>

  function BlockKey(value: BlockValue, address: Address, orders: seq<bool>): BlockSortKey {
    if |orders| == 1 then One(value(address, 0)) else Two(value(address, 0), value(address, 1))
  }

  function BlockColumns(value: BlockValue, orders: seq<bool>): seq<Column>
    requires 1 <= |orders| <= 2
  {
    var compare := CompareOptional(CompareInt);
    var first := ValueColumn(a => value(a, 0), compare, orders[0]);
    if |orders| == 1 then [first] else [first, ValueColumn(a => value(a, 1), compare, orders[1])]
  }

  lemma BlockColumnsComparable(value: BlockValue, orders: seq<bool>)
    requires 1 <= |orders| <= 2
    ensures Comparable(BlockColumns(value, orders))
  {
    IntsOrdered();
    OptionalOrdered(CompareInt);
    var compare := CompareOptional(CompareInt);
    ValueColumnOrdered(a => value(a, 0), compare, orders[0]);
    if |orders| == 2 { ValueColumnOrdered(a => value(a, 1), compare, orders[1]); }
  }

  /** Comparing the keys of two block hits is comparing their columns. */
  lemma BlockKeysAreColumns(value: BlockValue, a: Address, b: Address, orders: seq<bool>)
    requires 1 <= |orders| <= 2
    ensures CompareKey(BlockKey(value, a, orders), BlockKey(value, b, orders), orders) ==
            CompareColumns(a, b, BlockColumns(value, orders))
  {
    var columns := BlockColumns(value, orders);
    if |orders| == 2 {
      assert columns[1..] == [columns[1]];
      assert CompareColumns(a, b, columns[1..]) == columns[1](a, b).Then(CompareColumns(a, b, columns[1..][1..]));
    }
  }
}
