/** Keyset pagination: the cursor filter, and what following the cursors visits. */
module Pagination {
  import opened Wrappers
  import opened Filters
  import opened HitOrder
  import opened Sorting
  import opened TopKBuffers
  import O = Ordering

  datatype OrderSpec = OrderSpec(key: string, isJson: bool, ascending: bool)

  datatype ReadRequest = ReadRequest(
    orderBy: seq<OrderSpec>,
    filter: Option<Filter>,
    searchAfter: Option<seq<Value>>,
    limit: nat,
    offset: nat,
    aggregation: bool)

  const SCORE_KEY := "_score"

  // ----- the order of a read -----

  predicate SortsBy(order: seq<OrderSpec>, name: string) {
    exists i :: 0 <= i < |order| && SameName(order[i].key, name)
  }

  /** The explicit sort, with the primary key as the last tie-breaker. */
  function StableTypedOrder(primaryKey: string, request: ReadRequest): seq<OrderSpec> {
    var order := request.orderBy;
    if order == [] || request.aggregation || SortsBy(order, SCORE_KEY) then order
    else if SortsBy(order, primaryKey) then order
    else order + [OrderSpec(primaryKey, false, true)]
  }

  /** The sort begins with the request's own columns; behind them stands at most the primary key, ascending,
      and exactly when an explicit sort that is no aggregation has neither the score nor the primary key. */
  lemma TieBroken(primaryKey: string, request: ReadRequest)
    ensures var order := StableTypedOrder(primaryKey, request);
            && (forall i :: 0 <= i < |request.orderBy| ==> i < |order| && order[i] == request.orderBy[i])
            && (order != request.orderBy ==>
                  |order| == |request.orderBy| + 1 && order[|request.orderBy|] == OrderSpec(primaryKey, false, true))
            && (order != request.orderBy <==>
                  request.orderBy != [] && !request.aggregation &&
                  forall i :: 0 <= i < |request.orderBy| ==>
                    !SameName(request.orderBy[i].key, "_score") && !SameName(request.orderBy[i].key, primaryKey))
            && (request.orderBy != [] && !request.aggregation && !SortsBy(request.orderBy, SCORE_KEY) ==>
                  SortsBy(order, primaryKey))
  {
    var order := StableTypedOrder(primaryKey, request);
    if order != request.orderBy { assert SameName(order[|request.orderBy|].key, primaryKey); }
    if !SortsBy(request.orderBy, SCORE_KEY) && !SortsBy(request.orderBy, primaryKey) {
      forall i | 0 <= i < |request.orderBy|
        ensures !SameName(request.orderBy[i].key, "_score") && !SameName(request.orderBy[i].key, primaryKey)
      {
        assert request.orderBy[i] == request.orderBy[i];
      }
    }
  }

  // ----- the cursor filter -----

  function CursorComparison(spec: OrderSpec, operator: Comparison, value: Value): Filter {
    Compare(spec.key, operator, value)
  }

  // The first `n` sort columns are equal to the cursor's.
  function Equalities(order: seq<OrderSpec>, values: seq<Value>, n: nat): seq<Filter>
    requires n <= |order| == |values|
  {
    if n == 0 then [] else Equalities(order, values, n - 1) + [CursorComparison(order[n - 1], Equal, values[n - 1])]
  }

  // Equal up to column `i`, and beyond the cursor there.
  function Alternative(order: seq<OrderSpec>, values: seq<Value>, i: nat): Filter
    requires i < |order| == |values|
  {
    var last := CursorComparison(order[i], if order[i].ascending then Greater else Less, values[i]);
    if i == 0 then last else All(Equalities(order, values, i) + [last])
  }

  function Alternatives(order: seq<OrderSpec>, values: seq<Value>, n: nat): (alternatives: seq<Filter>)
    requires n <= |order| == |values|
    ensures |alternatives| == n
  {
    seq(n, i requires 0 <= i < n => Alternative(order, values, i))
  }

  function WithCursor(filter: Option<Filter>, cursor: Filter): Filter {
    match filter
    case Some(user) => All([user, cursor])
    case None => cursor
  }

  function EffectiveFilter(filter: Option<Filter>, order: seq<OrderSpec>, values: seq<Value>): Filter
    requires |order| == |values|
  {
    WithCursor(filter, Any(Alternatives(order, values, |order|)))
  }

  predicate Known(def: TableDef, name: string) {
    FindColumn(def, name).Ok?
  }

  predicate Sortable(def: TableDef, spec: OrderSpec) {
    !spec.isJson && Known(def, spec.key) && !FindColumn(def, spec.key).value.nullable
  }

  predicate Indexed(def: TableDef, spec: OrderSpec) {
    Known(def, spec.key) && FindColumn(def, spec.key).value.indexed
  }

  /** What a request with a cursor has to meet. */
  predicate CursorAllowed(def: TableDef, request: ReadRequest, order: seq<OrderSpec>, nativeSort: bool,
                          values: seq<Value>) {
    && request.offset == 0 && request.orderBy != [] && nativeSort
    && (forall spec :: spec in order ==> Sortable(def, spec) && Indexed(def, spec))
    && |values| == |order|
  }

  // Equality with every earlier column, then the comparison of this one.
  method BuildAlternative(order: seq<OrderSpec>, values: seq<Value>, index: nat) returns (alternative: Filter)
    requires index < |order| == |values|
    ensures alternative == Alternative(order, values, index)
  {
    var filters: seq<Filter> := [];
    for previous := 0 to index
      invariant filters == Equalities(order, values, previous) && |filters| == previous
    {
      filters := filters + [CursorComparison(order[previous], Equal, values[previous])];
    }
    filters := filters +
      [CursorComparison(order[index], if order[index].ascending then Greater else Less, values[index])];
    alternative := if |filters| == 1 then filters[0] else All(filters);
  }

  method BuildAlternatives(def: TableDef, order: seq<OrderSpec>, values: seq<Value>) returns (r: Result<seq<Filter>>)
    requires |order| == |values|
    ensures r.Ok? <==> forall spec :: spec in order ==> Indexed(def, spec)
    ensures r.Ok? ==> r.value == Alternatives(order, values, |order|)
  {
    var alternatives: seq<Filter> := [];
    for index := 0 to |order|
      invariant alternatives == Alternatives(order, values, index)
      invariant forall i :: 0 <= i < index ==> Indexed(def, order[i])
    {
      if !Indexed(def, order[index]) { return Err("cursor column is not indexed"); }
      var alternative := BuildAlternative(order, values, index);
      alternatives := alternatives + [alternative];
    }
    return Ok(alternatives);
  }

  /** Validates the cursor and builds the filter of the rows after it. */
  method FilterAfterCursor(def: TableDef, request: ReadRequest, order: seq<OrderSpec>, nativeSort: bool)
    returns (r: Result<Option<Filter>>)
    ensures request.searchAfter.None? ==> r == Ok(request.filter)
    ensures request.searchAfter.Some? ==>
              (r.Ok? <==> CursorAllowed(def, request, order, nativeSort, request.searchAfter.value))
    ensures request.searchAfter.Some? && r.Ok? ==>
              r.value == Some(EffectiveFilter(request.filter, order, request.searchAfter.value))
  {
    if request.searchAfter.None? { return Ok(request.filter); }
    var values := request.searchAfter.value;
    if request.offset != 0 { return Err("search_after cannot be combined with offset"); }
    if request.orderBy == [] { return Err("search_after requires an explicit order_by"); }
    if !nativeSort { return Err("search_after requires a non-nullable native scalar sort without scoring"); }
    if exists spec :: spec in order && spec.isJson {
      return Err("search_after does not support dynamic JSON path sorting");
    }
    if exists spec :: spec in order && !(Known(def, spec.key) && !FindColumn(def, spec.key).value.nullable) {
      return Err("search_after requires a non-nullable native scalar sort without scoring");
    }
    if |values| != |order| { return Err("search_after requires another number of sort values"); }

    var alternatives := BuildAlternatives(def, order, values);
    if alternatives.Err? { return Err(alternatives.message); }
    return Ok(Some(WithCursor(request.filter, Any(alternatives.value))));
  }

  function CursorPaginationEnabled(def: TableDef, request: ReadRequest, order: seq<OrderSpec>, nativeSort: bool): bool {
    request.orderBy != [] && nativeSort && forall spec :: spec in order ==> Sortable(def, spec) && Indexed(def, spec)
  }

  /** Cursors are given out exactly when every cursor of the right length would be accepted next. */
  lemma CursorsAreAccepted(def: TableDef, request: ReadRequest, order: seq<OrderSpec>, nativeSort: bool)
    ensures CursorPaginationEnabled(def, request, order, nativeSort) <==>
            forall values: seq<Value> :: |values| == |order| ==>
              CursorAllowed(def, request.(searchAfter := Some(values), offset := 0), order, nativeSort, values)
  {
    var values := seq(|order|, i => NullValue);
    if CursorAllowed(def, request.(searchAfter := Some(values), offset := 0), order, nativeSort, values) {
      assert CursorPaginationEnabled(def, request, order, nativeSort);
    }
  }

  // ----- rows and their keys -----

  function ValueKind(v: Value): nat {
    match v
    case NullValue => 0
    case Number(_) => 1
    case Truth(_) => 2
    case Text(_) => 3
  }

  function CompareValue(a: Value, b: Value): O.Ordering {
    match (a, b)
    case (Number(x), Number(y)) => O.CompareInt(x, y)
    case (Truth(x), Truth(y)) => O.CompareBool(x, y)
    case (Text(x), Text(y)) => O.CompareString(x, y)
    case _ => O.CompareInt(ValueKind(a), ValueKind(b))
  }

  lemma ValuesOrdered()
    ensures O.TotalPreorder(CompareValue)
  {
    forall a, b ensures CompareValue(a, b) == CompareValue(b, a).Reverse() {
      if a.Text? && b.Text? { O.StringMirror(a.text, b.text); }
    }
    forall a, b, c | !CompareValue(a, b).Greater? && !CompareValue(b, c).Greater? ensures !CompareValue(a, c).Greater? {
      if a.Text? && b.Text? && c.Text? { O.StringChain(a.text, b.text, c.text); }
    }
  }

  lemma ComparedValues(a: Value, b: Value)
    requires ValueKind(a) == ValueKind(b) != 0
    ensures CompareValue(a, b).Less? <==> Below(a, b)
    ensures CompareValue(a, b).Greater? <==> Below(b, a)
    ensures CompareValue(a, b).Equal? <==> a == b
  {
    if a.Text? && b.Text? { O.StringMirror(a.text, b.text); }
  }

  /** A fixed snapshot: its documents, all of one column's values of one kind. */
  datatype Snapshot = Snapshot(engine: Engine, def: TableDef, document: Address -> Document, addresses: seq<Address>)

  // The one value a document holds in a sort column.
  function KeyOf(snapshot: Snapshot, spec: OrderSpec, address: Address): Value {
    var values := ValuesOf(snapshot.document(address), Canonical(snapshot.def, spec.key));
    if exists v :: v in values && values == {v} then
      var v :| v in values && values == {v};
      v
    else NullValue
  }

  ghost predicate SingleValued(snapshot: Snapshot, order: seq<OrderSpec>) {
    forall a, i :: a in snapshot.addresses && 0 <= i < |order| ==>
      && KeyOf(snapshot, order[i], a) != NullValue
      && ValuesOf(snapshot.document(a), Canonical(snapshot.def, order[i].key)) == {KeyOf(snapshot, order[i], a)}
  }

  ghost predicate OneKind(snapshot: Snapshot, order: seq<OrderSpec>) {
    forall a, b, i :: a in snapshot.addresses && b in snapshot.addresses && 0 <= i < |order| ==>
      ValueKind(KeyOf(snapshot, order[i], a)) == ValueKind(KeyOf(snapshot, order[i], b))
  }

  ghost predicate UniqueKey(snapshot: Snapshot, primaryKey: string) {
    && (forall i, j :: 0 <= i < j < |snapshot.addresses| ==> snapshot.addresses[i] != snapshot.addresses[j])
    && forall a, b :: a in snapshot.addresses && b in snapshot.addresses && a != b ==>
         ValuesOf(snapshot.document(a), Canonical(snapshot.def, primaryKey)) !=
         ValuesOf(snapshot.document(b), Canonical(snapshot.def, primaryKey))
  }

  // The values that continue after a row.
  function CursorValues(snapshot: Snapshot, order: seq<OrderSpec>, address: Address): (values: seq<Value>)
    ensures |values| == |order|
  {
    seq(|order|, i requires 0 <= i < |order| => KeyOf(snapshot, order[i], address))
  }

  function KeyColumn(snapshot: Snapshot, spec: OrderSpec): Column {
    ValueColumn(a => KeyOf(snapshot, spec, a), CompareValue, spec.ascending)
  }

  function KeyColumns(snapshot: Snapshot, order: seq<OrderSpec>): (columns: seq<Column>)
    ensures |columns| == |order|
  {
    seq(|order|, i requires 0 <= i < |order| => KeyColumn(snapshot, order[i]))
  }

  lemma KeysComparable(snapshot: Snapshot, order: seq<OrderSpec>)
    ensures Comparable(KeyColumns(snapshot, order))
  {
    ValuesOrdered();
    forall i | 0 <= i < |order| ensures O.TotalPreorder(KeyColumns(snapshot, order)[i]) {
      ValueColumnOrdered(a => KeyOf(snapshot, order[i], a), CompareValue, order[i].ascending);
    }
  }

  // ----- the cursor filter selects the rows after the cursor -----

  /** From column `from` on, the row comes after the cursor row. */
  predicate ComesAfter(a: Address, cursor: Address, columns: seq<Column>) {
    CompareColumns(cursor, a, columns).Less?
  }

  function After(cursor: Address, columns: seq<Column>): Address -> bool {
    (a: Address) => ComesAfter(a, cursor, columns)
  }

  // Column by column: equal up to `i`, beyond at `i`.
  ghost predicate BeyondAt(a: Address, cursor: Address, columns: seq<Column>, i: nat) {
    i < |columns| && columns[i](cursor, a).Less? && forall k :: 0 <= k < i ==> columns[k](cursor, a).Equal?
  }

  lemma {:induction false} AfterIsBeyond(a: Address, cursor: Address, columns: seq<Column>)
    ensures ComesAfter(a, cursor, columns) <==> exists i: nat :: BeyondAt(a, cursor, columns, i)
  {
    if columns != [] {
      var rest := columns[1..];
      AfterIsBeyond(a, cursor, rest);
      if columns[0](cursor, a).Less? {
        assert BeyondAt(a, cursor, columns, 0);
      } else if columns[0](cursor, a).Equal? {
        if ComesAfter(a, cursor, rest) {
          var i: nat :| BeyondAt(a, cursor, rest, i);
          assert forall k :: 0 < k <= i + 1 ==> columns[k] == rest[k - 1];
          assert BeyondAt(a, cursor, columns, i + 1);
        }
        if i: nat :| BeyondAt(a, cursor, columns, i) {
          assert forall k :: 0 <= k < i ==> rest[k] == columns[k + 1];
          assert BeyondAt(a, cursor, rest, i - 1);
        }
      }
    }
  }

  // What one generated comparison says about a row.
  lemma ComparisonSays(snapshot: Snapshot, order: seq<OrderSpec>, i: nat, a: Address, cursor: Address)
    requires SingleValued(snapshot, order) && OneKind(snapshot, order) && i < |order|
    requires a in snapshot.addresses && cursor in snapshot.addresses
    ensures var value := KeyOf(snapshot, order[i], cursor); var column := KeyColumns(snapshot, order)[i];
            var beyond := CursorComparison(order[i], if order[i].ascending then Greater else Less, value);
            && (Denotes(snapshot.engine, snapshot.def, CursorComparison(order[i], Equal, value),
                        snapshot.document(a)) <==>
                column(cursor, a).Equal?)
            && (Denotes(snapshot.engine, snapshot.def, beyond, snapshot.document(a)) <==> column(cursor, a).Less?)
  {
    var spec := order[i];
    var here, there := KeyOf(snapshot, spec, a), KeyOf(snapshot, spec, cursor);
    ComparedValues(there, here);
    assert KeyColumns(snapshot, order)[i](cursor, a) == CompareValue(there, here).Directed(spec.ascending);
    var values := ValuesOf(snapshot.document(a), Canonical(snapshot.def, spec.key));
    assert here in values && values == {here};
  }

  lemma {:induction false} EqualitiesSay(snapshot: Snapshot, order: seq<OrderSpec>, n: nat, a: Address, cursor: Address)
    requires SingleValued(snapshot, order) && OneKind(snapshot, order) && n <= |order|
    requires a in snapshot.addresses && cursor in snapshot.addresses
    ensures var filters := Equalities(order, CursorValues(snapshot, order, cursor), n);
            && |filters| == n
            && forall i :: 0 <= i < n ==>
                 (Denotes(snapshot.engine, snapshot.def, filters[i], snapshot.document(a)) <==>
                  KeyColumns(snapshot, order)[i](cursor, a).Equal?)
  {
    if n > 0 {
      var values := CursorValues(snapshot, order, cursor);
      EqualitiesSay(snapshot, order, n - 1, a, cursor);
      var before, last := Equalities(order, values, n - 1), CursorComparison(order[n - 1], Equal, values[n - 1]);
      assert Denotes(snapshot.engine, snapshot.def, last, snapshot.document(a)) <==>
             KeyColumns(snapshot, order)[n - 1](cursor, a).Equal? by {
        ComparisonSays(snapshot, order, n - 1, a, cursor);
      }
      var filters := before + [last];
      forall i | 0 <= i < n
        ensures Denotes(snapshot.engine, snapshot.def, filters[i], snapshot.document(a)) <==>
                KeyColumns(snapshot, order)[i](cursor, a).Equal?
      {
        if i < n - 1 { assert filters[i] == before[i]; } else { assert filters[i] == last; }
      }
      assert Equalities(order, values, n) == filters;
    }
  }

  lemma AlternativeSays(snapshot: Snapshot, order: seq<OrderSpec>, i: nat, a: Address, cursor: Address)
    requires SingleValued(snapshot, order) && OneKind(snapshot, order) && i < |order|
    requires a in snapshot.addresses && cursor in snapshot.addresses
    ensures Denotes(snapshot.engine, snapshot.def, Alternative(order, CursorValues(snapshot, order, cursor), i),
                    snapshot.document(a)) <==>
            BeyondAt(a, cursor, KeyColumns(snapshot, order), i)
  {
    var values := CursorValues(snapshot, order, cursor);
    EqualitiesSay(snapshot, order, i, a, cursor);
    ComparisonSays(snapshot, order, i, a, cursor);
    var equalities := Equalities(order, values, i);
    var last := CursorComparison(order[i], if order[i].ascending then Greater else Less, values[i]);
    AllOfSnoc(snapshot, equalities, last, snapshot.document(a));
  }

  lemma AllOfSnoc(snapshot: Snapshot, filters: seq<Filter>, last: Filter, doc: Document)
    ensures Denotes(snapshot.engine, snapshot.def, All(filters + [last]), doc) <==>
            (forall i :: 0 <= i < |filters| ==> Denotes(snapshot.engine, snapshot.def, filters[i], doc)) &&
            Denotes(snapshot.engine, snapshot.def, last, doc)
  {
    var all := filters + [last];
    assert all[|filters|] == last;
    forall i | 0 <= i < |filters| ensures all[i] == filters[i] { }
  }

  /** The generated filter matches exactly the rows strictly after the cursor row, under any mix of
      directions. */
  lemma CursorSelectsAfter(snapshot: Snapshot, order: seq<OrderSpec>, a: Address, cursor: Address)
    requires SingleValued(snapshot, order) && OneKind(snapshot, order)
    requires a in snapshot.addresses && cursor in snapshot.addresses
    ensures Denotes(snapshot.engine, snapshot.def,
                    Any(Alternatives(order, CursorValues(snapshot, order, cursor), |order|)), snapshot.document(a)) <==>
            ComesAfter(a, cursor, KeyColumns(snapshot, order))
  {
    var columns, values := KeyColumns(snapshot, order), CursorValues(snapshot, order, cursor);
    AfterIsBeyond(a, cursor, columns);
    forall i | 0 <= i < |order|
      ensures Denotes(snapshot.engine, snapshot.def, Alternatives(order, values, |order|)[i], snapshot.document(a)) <==>
              BeyondAt(a, cursor, columns, i)
    {
      AlternativeSays(snapshot, order, i, a, cursor);
    }
  }

  // ----- pages -----

  // The documents of the snapshot a filter denotes.
  ghost function Denoting(snapshot: Snapshot, filter: Option<Filter>): Address -> bool {
    (a: Address) => filter.None? || Denotes(snapshot.engine, snapshot.def, filter.value, snapshot.document(a))
  }

  ghost function Matching(snapshot: Snapshot, filter: Option<Filter>): seq<Address> {
    Select(snapshot.addresses, Denoting(snapshot, filter))
  }

  /** All matching rows in the order of the read. */
  ghost function InOrder(snapshot: Snapshot, order: seq<OrderSpec>, filter: Option<Filter>): seq<Address> {
    Sort(Matching(snapshot, filter), HitLess(KeyColumns(snapshot, order)))
  }

  datatype Page = Page(rows: seq<Address>, next: Option<seq<Value>>)

  ghost function FilterAfter(filter: Option<Filter>, order: seq<OrderSpec>, after: Option<seq<Value>>): Option<Filter>
    requires after.Some? ==> |after.value| == |order|
  {
    match after
    case None => filter
    case Some(values) => Some(EffectiveFilter(filter, order, values))
  }

  /** One page of the rows that are left, in cursor mode: one row more than asked for is collected,
      and only when it is there the last row kept becomes the next cursor. */
  function PageOf(snapshot: Snapshot, order: seq<OrderSpec>, left: seq<Address>, limit: nat): Page {
    var collectionLimit := SaturatingAdd(limit, if limit > 0 then 1 else 0);
    var rows := Take(left, collectionLimit);
    var hasMore := |rows| > limit;
    var source := if hasMore then rows[..limit] else rows;
    Page(source, if hasMore && source != [] then Some(CursorValues(snapshot, order, source[|source| - 1])) else None)
  }

  ghost function ReadPage(snapshot: Snapshot, order: seq<OrderSpec>, filter: Option<Filter>, after: Option<seq<Value>>,
                          limit: nat): Page
    requires after.Some? ==> |after.value| == |order|
  {
    PageOf(snapshot, order, InOrder(snapshot, order, FilterAfter(filter, order, after)), limit)
  }

  ghost predicate Readable(snapshot: Snapshot, primaryKey: string, order: seq<OrderSpec>) {
    && SingleValued(snapshot, order) && OneKind(snapshot, order) && UniqueKey(snapshot, primaryKey)
    && SortsBy(order, primaryKey) && |snapshot.addresses| <= USIZE_MAX
    && forall i :: 0 <= i < |order| ==> Known(snapshot.def, order[i].key)
  }

  lemma {:induction false} FirstDifference(a: Address, b: Address, columns: seq<Column>, i: nat)
    requires i < |columns| && !columns[i](a, b).Equal?
    ensures !CompareColumns(a, b, columns).Equal?
  {
    if i > 0 { FirstDifference(a, b, columns[1..], i - 1); }
  }

  lemma SameCanonical(def: TableDef, a: string, b: string)
    requires SameName(a, b) && Known(def, a)
    ensures Canonical(def, a) == Canonical(def, b)
  {
    SameColumn(def, a, b);
  }

  lemma {:induction false} SameColumn(def: TableDef, a: string, b: string)
    requires SameName(a, b)
    ensures FindColumn(def, a) == FindColumn(def, b)
  {
    if def != [] { SameColumn(def[1..], a, b); }
  }

  /** Two rows never share all sort keys, because the primary key is one of them. */
  lemma KeysDiffer(snapshot: Snapshot, primaryKey: string, order: seq<OrderSpec>, a: Address, b: Address)
    requires Readable(snapshot, primaryKey, order)
    requires a in snapshot.addresses && b in snapshot.addresses && a != b
    ensures !CompareColumns(a, b, KeyColumns(snapshot, order)).Equal?
  {
    var i :| 0 <= i < |order| && SameName(order[i].key, primaryKey);
    SameCanonical(snapshot.def, order[i].key, primaryKey);
    var x, y := KeyOf(snapshot, order[i], a), KeyOf(snapshot, order[i], b);
    assert x != y;
    ComparedValues(x, y);
    assert KeyColumns(snapshot, order)[i](a, b) == CompareValue(x, y).Directed(order[i].ascending);
    FirstDifference(a, b, KeyColumns(snapshot, order), i);
  }

  lemma RowsOfSnapshot(snapshot: Snapshot, order: seq<OrderSpec>, filter: Option<Filter>, a: Address)
    requires a in InOrder(snapshot, order, filter)
    ensures a in snapshot.addresses
  {
    KeysComparable(snapshot, order);
    HitsAreOrdered(KeyColumns(snapshot, order));
    SortMembers(Matching(snapshot, filter), HitLess(KeyColumns(snapshot, order)), a);
    SelectMembers(snapshot.addresses, Denoting(snapshot, filter), a);
  }

  lemma {:induction false} SelectTwice(s: seq<Address>, p: Address -> bool, q: Address -> bool, both: Address -> bool)
    requires forall a :: a in s ==> (both(a) <==> p(a) && q(a))
    ensures Select(s, both) == Select(Select(s, p), q)
  {
    if s != [] {
      var front, last := s[..|s| - 1], s[|s| - 1];
      assert s == front + [last];
      SelectTwice(front, p, q, both);
      var before := Select(front, p);
      if p(last) { assert (before + [last])[..|before|] == before; }
    }
  }

  /** With a cursor, the matching rows are those of the filter that come after the cursor row. */
  lemma MatchingAfter(snapshot: Snapshot, order: seq<OrderSpec>, filter: Option<Filter>, cursor: Address)
    requires SingleValued(snapshot, order) && OneKind(snapshot, order) && cursor in snapshot.addresses
    ensures Matching(snapshot, Some(EffectiveFilter(filter, order, CursorValues(snapshot, order, cursor)))) ==
            Select(Matching(snapshot, filter), After(cursor, KeyColumns(snapshot, order)))
  {
    var after, values := After(cursor, KeyColumns(snapshot, order)), CursorValues(snapshot, order, cursor);
    var effective := EffectiveFilter(filter, order, values);
    var generated := Any(Alternatives(order, values, |order|));
    forall a | a in snapshot.addresses
      ensures Denoting(snapshot, Some(effective))(a) <==> Denoting(snapshot, filter)(a) && after(a)
    {
      CursorSelectsAfter(snapshot, order, a, cursor);
      if filter.Some? { BothOf(snapshot, filter.value, generated, snapshot.document(a)); }
    }
    SelectTwice(snapshot.addresses, Denoting(snapshot, filter), after, Denoting(snapshot, Some(effective)));
  }

  lemma BothOf(snapshot: Snapshot, first: Filter, second: Filter, doc: Document)
    ensures Denotes(snapshot.engine, snapshot.def, All([first, second]), doc) <==>
            Denotes(snapshot.engine, snapshot.def, first, doc) && Denotes(snapshot.engine, snapshot.def, second, doc)
  {
    var both := [first, second];
    assert both[0] == first && both[1] == second;
  }

  lemma {:induction false} SelectDistinct(s: seq<Address>, p: Address -> bool)
    requires forall i, j :: 0 <= i < j < |s| ==> s[i] != s[j]
    ensures forall i, j :: 0 <= i < j < |Select(s, p)| ==> Select(s, p)[i] != Select(s, p)[j]
  {
    if s != [] {
      var front := s[..|s| - 1];
      SelectDistinct(front, p);
      SelectMembers(front, p, s[|s| - 1]);
      assert s[|s| - 1] !in front;
    }
  }

  lemma {:induction false} DistinctCounts(s: seq<Address>, x: Address)
    requires forall i, j :: 0 <= i < j < |s| ==> s[i] != s[j]
    ensures multiset(s)[x] <= 1
  {
    if s != [] {
      DistinctCounts(s[..|s| - 1], x);
      assert s == s[..|s| - 1] + [s[|s| - 1]];
    }
  }

  lemma TwiceCounts(s: seq<Address>, i: nat, j: nat)
    requires i < j < |s| && s[i] == s[j]
    ensures multiset(s)[s[i]] >= 2
  {
    assert s == s[..j] + [s[j]] + s[j + 1..];
    assert s[i] in multiset(s[..j]) by { assert s[..j][i] == s[i]; }
  }

  lemma InOrderDistinct(snapshot: Snapshot, primaryKey: string, order: seq<OrderSpec>, filter: Option<Filter>, i: nat,
                        j: nat)
    requires UniqueKey(snapshot, primaryKey) && i < j < |InOrder(snapshot, order, filter)|
    ensures InOrder(snapshot, order, filter)[i] != InOrder(snapshot, order, filter)[j]
  {
    var rows, less := InOrder(snapshot, order, filter), HitLess(KeyColumns(snapshot, order));
    KeysComparable(snapshot, order);
    HitsAreOrdered(KeyColumns(snapshot, order));
    SortSorts(Matching(snapshot, filter), less);
    SelectDistinct(snapshot.addresses, Denoting(snapshot, filter));
    DistinctCounts(Matching(snapshot, filter), rows[i]);
    if rows[i] == rows[j] { TwiceCounts(rows, i, j); }
  }

  lemma EarlierRow(rows: seq<Address>, columns: seq<Column>, k: nat, i: nat)
    requires Comparable(columns) && SortedBy(rows, HitLess(columns)) && i < k <= |rows|
    ensures !ComesAfter(rows[i], rows[k - 1], columns)
  {
    if i < k - 1 { assert !HitLess(columns)(rows[k - 1], rows[i]); } else { ColumnsMirror(rows[i], rows[i], columns); }
  }

  lemma LaterRow(rows: seq<Address>, columns: seq<Column>, k: nat, i: nat)
    requires Comparable(columns) && SortedBy(rows, HitLess(columns)) && 0 < k <= i < |rows|
    requires !CompareColumns(rows[k - 1], rows[i], columns).Equal?
    ensures ComesAfter(rows[i], rows[k - 1], columns)
  {
    assert !HitLess(columns)(rows[i], rows[k - 1]);
    ColumnsMirror(rows[i], rows[k - 1], columns);
  }

  lemma RowsDiffer(snapshot: Snapshot, primaryKey: string, order: seq<OrderSpec>, filter: Option<Filter>, i: nat,
                   j: nat)
    requires Readable(snapshot, primaryKey, order) && i < j < |InOrder(snapshot, order, filter)|
    ensures var rows := InOrder(snapshot, order, filter);
            !CompareColumns(rows[i], rows[j], KeyColumns(snapshot, order)).Equal?
  {
    var rows := InOrder(snapshot, order, filter);
    InOrderDistinct(snapshot, primaryKey, order, filter, i, j);
    RowsOfSnapshot(snapshot, order, filter, rows[i]);
    RowsOfSnapshot(snapshot, order, filter, rows[j]);
    KeysDiffer(snapshot, primaryKey, order, rows[i], rows[j]);
  }

  lemma RowsAfter(rows: seq<Address>, columns: seq<Column>, k: nat)
    requires Comparable(columns) && SortedBy(rows, HitLess(columns)) && 0 < k <= |rows|
    requires forall i :: k <= i < |rows| ==> !CompareColumns(rows[k - 1], rows[i], columns).Equal?
    ensures Select(rows, After(rows[k - 1], columns)) == rows[k..]
  {
    var after := After(rows[k - 1], columns);
    forall i | 0 <= i < k ensures !after(rows[i]) { EarlierRow(rows, columns, k, i); }
    forall i | k <= i < |rows| ensures after(rows[i]) { LaterRow(rows, columns, k, i); }
    SelectSuffix(rows, after, k);
  }

  lemma InOrderSorted(snapshot: Snapshot, order: seq<OrderSpec>, filter: Option<Filter>)
    ensures Comparable(KeyColumns(snapshot, order))
    ensures SortedBy(InOrder(snapshot, order, filter), HitLess(KeyColumns(snapshot, order)))
    ensures multiset(InOrder(snapshot, order, filter)) == multiset(Matching(snapshot, filter))
  {
    KeysComparable(snapshot, order);
    HitsAreOrdered(KeyColumns(snapshot, order));
    SortSorts(Matching(snapshot, filter), HitLess(KeyColumns(snapshot, order)));
  }

  lemma RestIsSelected(snapshot: Snapshot, order: seq<OrderSpec>, filter: Option<Filter>, cursor: Address)
    requires SingleValued(snapshot, order) && OneKind(snapshot, order) && cursor in snapshot.addresses
    ensures InOrder(snapshot, order, Some(EffectiveFilter(filter, order, CursorValues(snapshot, order, cursor)))) ==
            Select(InOrder(snapshot, order, filter), After(cursor, KeyColumns(snapshot, order)))
  {
    KeysComparable(snapshot, order);
    HitsAreOrdered(KeyColumns(snapshot, order));
    MatchingAfter(snapshot, order, filter, cursor);
    SortOfSelect(Matching(snapshot, filter), After(cursor, KeyColumns(snapshot, order)),
                 HitLess(KeyColumns(snapshot, order)));
  }

  /** The rows after the k-th are those with a larger key. */
  lemma RestAfter(snapshot: Snapshot, primaryKey: string, order: seq<OrderSpec>, filter: Option<Filter>, k: nat)
    requires Readable(snapshot, primaryKey, order) && 0 < k <= |InOrder(snapshot, order, filter)|
    ensures var rows := InOrder(snapshot, order, filter);
            InOrder(snapshot, order,
                    Some(EffectiveFilter(filter, order, CursorValues(snapshot, order, rows[k - 1])))) == rows[k..]
  {
    var rows, columns := InOrder(snapshot, order, filter), KeyColumns(snapshot, order);
    InOrderSorted(snapshot, order, filter);
    RowsOfSnapshot(snapshot, order, filter, rows[k - 1]);
    RestIsSelected(snapshot, order, filter, rows[k - 1]);
    LaterRowsDiffer(snapshot, primaryKey, order, filter, k);
    RowsAfter(rows, columns, k);
  }

  lemma LaterRowsDiffer(snapshot: Snapshot, primaryKey: string, order: seq<OrderSpec>, filter: Option<Filter>, k: nat)
    requires Readable(snapshot, primaryKey, order) && 0 < k <= |InOrder(snapshot, order, filter)|
    ensures var rows := InOrder(snapshot, order, filter);
            forall i :: k <= i < |rows| ==> !CompareColumns(rows[k - 1], rows[i], KeyColumns(snapshot, order)).Equal?
  {
    var rows := InOrder(snapshot, order, filter);
    forall i | k <= i < |rows| ensures !CompareColumns(rows[k - 1], rows[i], KeyColumns(snapshot, order)).Equal? {
      RowsDiffer(snapshot, primaryKey, order, filter, k - 1, i);
    }
  }

  // The cursor after the first `k` rows.
  function CursorAt(snapshot: Snapshot, order: seq<OrderSpec>, rows: seq<Address>, k: nat): Option<seq<Value>>
    requires k <= |rows|
  {
    if k == 0 then None else Some(CursorValues(snapshot, order, rows[k - 1]))
  }

  lemma PageOfRest(snapshot: Snapshot, order: seq<OrderSpec>, rows: seq<Address>, limit: nat, k: nat)
    requires limit > 0 && k <= |rows| <= USIZE_MAX
    ensures var end := Min(k + limit, |rows|);
            PageOf(snapshot, order, rows[k..], limit) ==
            Page(rows[k..end], if end < |rows| then CursorAt(snapshot, order, rows, end) else None)
  {
    var end, left := Min(k + limit, |rows|), rows[k..];
    assert rows[k..end] == left[..end - k];
    if end < |rows| { assert Take(left, SaturatingAdd(limit, 1))[..limit] == left[..limit]; }
  }

  // The page after the first `k` rows.
  function NextPage(snapshot: Snapshot, order: seq<OrderSpec>, rows: seq<Address>, limit: nat, k: nat): Page
    requires k <= |rows|
  {
    var end := Min(k + limit, |rows|);
    Page(rows[k..end], if end < |rows| then CursorAt(snapshot, order, rows, end) else None)
  }

  /** The page after the first `k` rows is the next `limit` rows, and its cursor continues there. */
  lemma PageAt(snapshot: Snapshot, primaryKey: string, order: seq<OrderSpec>, filter: Option<Filter>, limit: nat,
               k: nat)
    requires Readable(snapshot, primaryKey, order) && limit > 0 && k <= |InOrder(snapshot, order, filter)|
    ensures var rows := InOrder(snapshot, order, filter);
            ReadPage(snapshot, order, filter, CursorAt(snapshot, order, rows, k), limit) ==
              NextPage(snapshot, order, rows, limit, k)
  {
    var rows := InOrder(snapshot, order, filter);
    if k > 0 { RestAfter(snapshot, primaryKey, order, filter, k); }
    RowCount(snapshot, order, filter);
    PageOfRest(snapshot, order, rows, limit, k);
    assert k == 0 ==> rows[0..] == rows;
  }

  lemma RowCount(snapshot: Snapshot, order: seq<OrderSpec>, filter: Option<Filter>)
    ensures |InOrder(snapshot, order, filter)| <= |snapshot.addresses|
  {
    KeysComparable(snapshot, order);
    HitsAreOrdered(KeyColumns(snapshot, order));
    SortSorts(Matching(snapshot, filter), HitLess(KeyColumns(snapshot, order)));
    SelectShorter(snapshot.addresses, Denoting(snapshot, filter));
  }

  lemma {:induction false} SelectShorter(s: seq<Address>, p: Address -> bool)
    ensures |Select(s, p)| <= |s|
  {
    if s != [] { SelectShorter(s[..|s| - 1], p); }
  }

  /** Successive pages: the first without a cursor, each other after the cursor the one before gave. */
  ghost predicate Followed(snapshot: Snapshot, order: seq<OrderSpec>, filter: Option<Filter>, limit: nat,
                           pages: seq<Page>) {
    && (forall i :: 0 <= i < |pages| && pages[i].next.Some? ==> |pages[i].next.value| == |order|)
    && (|pages| > 0 ==> pages[0] == ReadPage(snapshot, order, filter, None, limit))
    && forall i :: 0 <= i < |pages| - 1 ==>
         pages[i].next.Some? && pages[i + 1] == ReadPage(snapshot, order, filter, pages[i].next, limit)
  }

  function RowsOf(pages: seq<Page>): (rows: seq<seq<Address>>)
    ensures |rows| == |pages|
  {
    seq(|pages|, i requires 0 <= i < |pages| => pages[i].rows)
  }

  // The first `n` pages hold the first rows, and the cursor continues after them.
  ghost predicate Visited(snapshot: Snapshot, order: seq<OrderSpec>, rows: seq<Address>, limit: nat, pages: seq<Page>,
                          n: nat)
    requires 0 < n <= |pages|
  {
    var seen := Min(n * limit, |rows|);
    && Flatten(RowsOf(pages[..n])) == rows[..seen]
    && pages[n - 1].next == (if seen < |rows| then CursorAt(snapshot, order, rows, seen) else None)
    && (n == 1 || (n - 1) * limit < |rows|)
  }

  lemma FirstVisited(snapshot: Snapshot, order: seq<OrderSpec>, rows: seq<Address>, limit: nat, pages: seq<Page>)
    requires |pages| > 0
    requires var end := Min(limit, |rows|);
             pages[0] == Page(rows[..end], if end < |rows| then CursorAt(snapshot, order, rows, end) else None)
    ensures Visited(snapshot, order, rows, limit, pages, 1)
  {
    assert RowsOf(pages[..1]) == [pages[0].rows];
    assert [pages[0].rows][..0] == [];
    assert Flatten([pages[0].rows]) == pages[0].rows;
    assert 1 * limit == limit;
  }

  lemma NextVisited(snapshot: Snapshot, order: seq<OrderSpec>, rows: seq<Address>, limit: nat, pages: seq<Page>, n: nat)
    requires 0 < n < |pages| && limit > 0 && Visited(snapshot, order, rows, limit, pages, n) && pages[n - 1].next.Some?
    requires n * limit < |rows| ==> pages[n] == NextPage(snapshot, order, rows, limit, n * limit)
    ensures Visited(snapshot, order, rows, limit, pages, n + 1)
  {
    var seen, end := n * limit, Min(n * limit + limit, |rows|);
    assert (n + 1) * limit == n * limit + limit;
    assert RowsOf(pages[..n + 1])[..n] == RowsOf(pages[..n]);
    assert rows[..seen] + rows[seen..end] == rows[..end];
  }

  /** Following the cursors has visited exactly the first rows in order, page by page. */
  lemma {:induction false} FollowedSoFar(snapshot: Snapshot, primaryKey: string, order: seq<OrderSpec>,
                                         filter: Option<Filter>,
                                         limit: nat, pages: seq<Page>, n: nat)
    requires Readable(snapshot, primaryKey, order) && limit > 0 && 0 < n <= |pages|
    requires Followed(snapshot, order, filter, limit, pages)
    ensures Visited(snapshot, order, InOrder(snapshot, order, filter), limit, pages, n)
  {
    var rows := InOrder(snapshot, order, filter);
    if n == 1 {
      PageAt(snapshot, primaryKey, order, filter, limit, 0);
      FirstVisited(snapshot, order, rows, limit, pages);
    } else {
      FollowedSoFar(snapshot, primaryKey, order, filter, limit, pages, n - 1);
      OneMorePage(snapshot, primaryKey, order, filter, limit, pages, n - 1);
    }
  }

  lemma OneMorePage(snapshot: Snapshot, primaryKey: string, order: seq<OrderSpec>, filter: Option<Filter>,
                    limit: nat, pages: seq<Page>, n: nat)
    requires Readable(snapshot, primaryKey, order) && limit > 0 && 0 < n < |pages|
    requires Followed(snapshot, order, filter, limit, pages)
    requires Visited(snapshot, order, InOrder(snapshot, order, filter), limit, pages, n)
    ensures Visited(snapshot, order, InOrder(snapshot, order, filter), limit, pages, n + 1)
  {
    var rows, k := InOrder(snapshot, order, filter), n * limit;
    assert pages[n - 1].next.Some? && pages[n - 1 + 1] == ReadPage(snapshot, order, filter, pages[n - 1].next, limit);
    assert k < |rows| && pages[n - 1].next == CursorAt(snapshot, order, rows, k);
    PageAt(snapshot, primaryKey, order, filter, limit, k);
    assert pages[n] == NextPage(snapshot, order, rows, limit, k);
    NextVisited(snapshot, order, rows, limit, pages, n);
  }

  /** Following the cursors to the end visits every matching row exactly once, in order, and the end
      comes after at most one page per row. */
  lemma PagesVisitEverything(snapshot: Snapshot, primaryKey: string, order: seq<OrderSpec>, filter: Option<Filter>,
                             limit: nat, pages: seq<Page>)
    requires Readable(snapshot, primaryKey, order) && limit > 0 && |pages| > 0 &&
             Followed(snapshot, order, filter, limit, pages)
    ensures pages[|pages| - 1].next.None? <==> Flatten(RowsOf(pages)) == InOrder(snapshot, order, filter)
    ensures multiset(InOrder(snapshot, order, filter)) == multiset(Matching(snapshot, filter))
    ensures |pages| <= 1 || |pages| <= |snapshot.addresses|
  {
    FollowedSoFar(snapshot, primaryKey, order, filter, limit, pages, |pages|);
    VisitedAll(snapshot, order, InOrder(snapshot, order, filter), limit, pages);
    InOrderSorted(snapshot, order, filter);
    RowCount(snapshot, order, filter);
  }

  lemma VisitedAll(snapshot: Snapshot, order: seq<OrderSpec>, rows: seq<Address>, limit: nat, pages: seq<Page>)
    requires |pages| > 0 && limit > 0 && Visited(snapshot, order, rows, limit, pages, |pages|)
    ensures pages[|pages| - 1].next.None? <==> Flatten(RowsOf(pages)) == rows
    ensures |pages| <= 1 || |pages| <= |rows|
  {
    var n := |pages|;
    assert pages[..n] == pages;
    AtLeastOneEach(n - 1, limit);
    AtLeastOneEach(n, limit);
    assert |rows[..Min(n * limit, |rows|)]| == Min(n * limit, |rows|);
  }

  lemma AtLeastOneEach(n: nat, limit: nat)
    requires limit > 0
    ensures n <= n * limit
  {
  }
}
