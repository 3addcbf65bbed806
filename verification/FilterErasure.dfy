/** Erasing a column's own predicates from a filter, as a facet on that column needs. */
module FilterErasure {
  import opened Wrappers
  import opened Filters
  import opened FilterCompiler

  predicate Structural(filter: Filter, column: string) {
    (filter.Compare? || filter.Between? || filter.In? || filter.IsNull?) && SameName(filter.column, column)
  }

  /** Removes structural predicates on the column and simplifies their Boolean containers. */
  function WithoutColumn(filter: Filter, column: string): Option<Filter>
    decreases filter, 1, 0
  {
    if Structural(filter, column) then None
    else match filter
         case All(filters) => Simplify(Remaining(filter, |filters|, column), true)
         case Any(filters) => Simplify(Remaining(filter, |filters|, column), false)
         case Not(inner) =>
           (match WithoutColumn(inner, column)
            case None => None
            case Some(rest) => Some(Not(rest)))
         case _ => Some(filter)
  }

  // What is left of the first `n` children.
  function Remaining(container: Filter, n: nat, column: string): (rest: seq<Filter>)
    requires (container.All? || container.Any?) && n <= |container.filters|
    decreases container, 0, n
  {
    if n == 0 then []
    else
      var before := Remaining(container, n - 1, column);
      match WithoutColumn(container.filters[n - 1], column)
      case None => before
      case Some(child) => before + [child]
  }

  function Simplify(filters: seq<Filter>, all: bool): Option<Filter> {
    if |filters| == 0 then None
    else if |filters| == 1 then Some(filters[0])
    else if all then Some(All(filters))
    else Some(Any(filters))
  }

  // ----- what is erased -----

  /** Comparisons, ranges, lists and null tests of the column are erased, however its name is spelled; every
      other predicate stays as it is. */
  lemma ErasedLeaf(filter: Filter, column: string)
    ensures filter.Compare? || filter.Between? || filter.In? || filter.IsNull? ==>
              WithoutColumn(filter, column) == if SameName(filter.column, column) then None else Some(filter)
    ensures filter.FullText? || filter.Geo? || filter.JsonCompare? || filter.JsonBetween? || filter.JsonExists? ==>
              WithoutColumn(filter, column) == Some(filter)
  {
  }

  // The documents differ at most in the values of the column.
  ghost predicate AlikeOutside(engine: Engine, column: string, a: Document, b: Document) {
    && a.json == b.json && (forall request :: engine.hits(request, a) == engine.hits(request, b))
    && forall name :: !SameName(name, column) ==> ValuesOf(a, name) == ValuesOf(b, name)
  }

  lemma OtherColumn(def: TableDef, name: string, column: string)
    requires !SameName(name, column)
    ensures !SameName(Canonical(def, name), column)
  {
    if FindColumn(def, name).Ok? { var k := FoundColumn(def, name); ColumnFound(def, k, name); }
  }

  /** What is left says nothing about the column: documents that differ only in its values both match, or
      neither does. */
  lemma ErasedIgnoresColumn(engine: Engine, def: TableDef, filter: Filter, column: string, a: Document, b: Document)
    requires AlikeOutside(engine, column, a, b) && WithoutColumn(filter, column).Some?
    ensures var rest := WithoutColumn(filter, column).value;
            Denotes(engine, def, rest, a) <==> Denotes(engine, def, rest, b)
  {
    ResultIsFree(filter, column);
    FreeIgnoresColumn(engine, def, WithoutColumn(filter, column).value, column, a, b);
  }

  lemma {:induction false} FreeIgnoresColumn(engine: Engine, def: TableDef, filter: Filter, column: string, a: Document,
                                             b: Document)
    requires AlikeOutside(engine, column, a, b) && Free(filter, column)
    ensures Denotes(engine, def, filter, a) <==> Denotes(engine, def, filter, b)
    decreases filter
  {
    match filter
    case All(filters) =>
      forall i | 0 <= i < |filters|
        ensures Denotes(engine, def, filters[i], a) <==> Denotes(engine, def, filters[i], b)
      {
        FreeIgnoresColumn(engine, def, filters[i], column, a, b);
      }
    case Any(filters) =>
      forall i | 0 <= i < |filters|
        ensures Denotes(engine, def, filters[i], a) <==> Denotes(engine, def, filters[i], b)
      {
        FreeIgnoresColumn(engine, def, filters[i], column, a, b);
      }
    case Not(inner) => FreeIgnoresColumn(engine, def, inner, column, a, b);
    case Compare(name, _, _) => OtherColumn(def, name, column);
    case Between(name, _, _) => OtherColumn(def, name, column);
    case In(name, _) => OtherColumn(def, name, column);
    case IsNull(name, _) => OtherColumn(def, name, column);
    case _ =>
  }

  // ----- nothing on the column is left -----

  ghost predicate Free(filter: Filter, column: string) {
    && !Structural(filter, column)
    && match filter
       case All(filters) => forall i :: 0 <= i < |filters| ==> Free(filters[i], column)
       case Any(filters) => forall i :: 0 <= i < |filters| ==> Free(filters[i], column)
       case Not(inner) => Free(inner, column)
       case _ => true
  }

  /** The result has no structural predicate on the column. */
  lemma {:induction false} ResultIsFree(filter: Filter, column: string)
    ensures WithoutColumn(filter, column).Some? ==> Free(WithoutColumn(filter, column).value, column)
    decreases filter, 1, 0
  {
    match filter
    case All(filters) => RemainingFree(filter, |filters|, column);
    case Any(filters) => RemainingFree(filter, |filters|, column);
    case Not(inner) => ResultIsFree(inner, column);
    case _ =>
  }

  lemma {:induction false} RemainingFree(container: Filter, n: nat, column: string)
    requires (container.All? || container.Any?) && n <= |container.filters|
    ensures forall i :: 0 <= i < |Remaining(container, n, column)| ==> Free(Remaining(container, n, column)[i], column)
    decreases container, 0, n
  {
    if n > 0 {
      RemainingFree(container, n - 1, column);
      ResultIsFree(container.filters[n - 1], column);
    }
  }

  // ----- meaning -----

  /** What the erased filter should mean: a predicate on the column says nothing, and a container says
      what its speaking children say. */
  ghost function Meaning(engine: Engine, def: TableDef, filter: Filter, column: string, doc: Document): Option<bool> {
    if Structural(filter, column) then None
    else match filter
         case All(filters) =>
           if forall i :: 0 <= i < |filters| ==> Meaning(engine, def, filters[i], column, doc).None? then None
           else Some(forall i :: 0 <= i < |filters| ==> Meaning(engine, def, filters[i], column, doc) != Some(false))
         case Any(filters) =>
           if forall i :: 0 <= i < |filters| ==> Meaning(engine, def, filters[i], column, doc).None? then None
           else Some(exists i :: 0 <= i < |filters| && Meaning(engine, def, filters[i], column, doc) == Some(true))
         case Not(inner) =>
           (match Meaning(engine, def, inner, column, doc)
            case None => None
            case Some(truth) => Some(!truth))
         case _ => Some(Denotes(engine, def, filter, doc))
  }

  ghost predicate Says(engine: Engine, def: TableDef, erased: Option<Filter>, doc: Document, meaning: Option<bool>) {
    match erased
    case None => meaning.None?
    case Some(filter) => meaning == Some(Denotes(engine, def, filter, doc))
  }

  /** Erasure gives each predicate on the column the neutral meaning of its container. */
  lemma {:induction false} ErasureMeaning(engine: Engine, def: TableDef, filter: Filter, column: string, doc: Document)
    ensures Says(engine, def, WithoutColumn(filter, column), doc, Meaning(engine, def, filter, column, doc))
    decreases filter, 1, 0
  {
    if !Structural(filter, column) {
      match filter
      case All(filters) =>
        RemainingMeaning(engine, def, filter, |filters|, column, doc);
        SimplifyMeaning(engine, def, Remaining(filter, |filters|, column), true, doc);
        AllMeaning(engine, def, filter, column, doc);
      case Any(filters) =>
        RemainingMeaning(engine, def, filter, |filters|, column, doc);
        SimplifyMeaning(engine, def, Remaining(filter, |filters|, column), false, doc);
        AnyMeaning(engine, def, filter, column, doc);
      case Not(inner) => ErasureMeaning(engine, def, inner, column, doc);
      case _ =>
    }
  }

  ghost predicate AllHold(engine: Engine, def: TableDef, filters: seq<Filter>, doc: Document) {
    forall i :: 0 <= i < |filters| ==> Denotes(engine, def, filters[i], doc)
  }

  ghost predicate SomeHolds(engine: Engine, def: TableDef, filters: seq<Filter>, doc: Document) {
    exists i :: 0 <= i < |filters| && Denotes(engine, def, filters[i], doc)
  }

  lemma SimplifyMeaning(engine: Engine, def: TableDef, rest: seq<Filter>, all: bool, doc: Document)
    ensures Simplify(rest, all).None? <==> rest == []
    ensures Simplify(rest, all).Some? ==>
              (Denotes(engine, def, Simplify(rest, all).value, doc) <==>
               if all then AllHold(engine, def, rest, doc) else SomeHolds(engine, def, rest, doc))
  {
    if |rest| == 1 { assert rest == [rest[0]]; }
  }

  // Of the first `n` children: none speaks; none denies; one affirms.
  ghost predicate Silent(engine: Engine, def: TableDef, filters: seq<Filter>, n: nat, column: string, doc: Document)
    requires n <= |filters|
  {
    forall i :: 0 <= i < n ==> Meaning(engine, def, filters[i], column, doc).None?
  }

  ghost predicate Unopposed(engine: Engine, def: TableDef, filters: seq<Filter>, n: nat, column: string, doc: Document)
    requires n <= |filters|
  {
    forall i :: 0 <= i < n ==> Meaning(engine, def, filters[i], column, doc) != Some(false)
  }

  ghost predicate Affirmed(engine: Engine, def: TableDef, filters: seq<Filter>, n: nat, column: string, doc: Document)
    requires n <= |filters|
  {
    exists i :: 0 <= i < n && Meaning(engine, def, filters[i], column, doc) == Some(true)
  }

  lemma AllMeaning(engine: Engine, def: TableDef, filter: Filter, column: string, doc: Document)
    requires filter.All?
    ensures var filters := filter.filters;
            Meaning(engine, def, filter, column, doc) ==
            if Silent(engine, def, filters, |filters|, column, doc) then None
            else Some(Unopposed(engine, def, filters, |filters|, column, doc))
  {
  }

  lemma AnyMeaning(engine: Engine, def: TableDef, filter: Filter, column: string, doc: Document)
    requires filter.Any?
    ensures var filters := filter.filters;
            Meaning(engine, def, filter, column, doc) ==
            if Silent(engine, def, filters, |filters|, column, doc) then None
            else Some(Affirmed(engine, def, filters, |filters|, column, doc))
  {
  }

  lemma OneMoreChild(engine: Engine, def: TableDef, filters: seq<Filter>, n: nat, column: string, doc: Document)
    requires 0 < n <= |filters|
    ensures var here := Meaning(engine, def, filters[n - 1], column, doc);
            && (Silent(engine, def, filters, n, column, doc) <==>
                Silent(engine, def, filters, n - 1, column, doc) && here.None?)
            && (Unopposed(engine, def, filters, n, column, doc) <==>
                Unopposed(engine, def, filters, n - 1, column, doc) && here != Some(false))
            && (Affirmed(engine, def, filters, n, column, doc) <==>
                Affirmed(engine, def, filters, n - 1, column, doc) || here == Some(true))
  {
  }

  lemma {:induction false} RemainingMeaning(engine: Engine, def: TableDef, container: Filter, n: nat, column: string,
                                            doc: Document)
    requires (container.All? || container.Any?) && n <= |container.filters|
    ensures var rest := Remaining(container, n, column); var filters := container.filters;
            && (rest == [] <==> Silent(engine, def, filters, n, column, doc))
            && (AllHold(engine, def, rest, doc) <==> Unopposed(engine, def, filters, n, column, doc))
            && (SomeHolds(engine, def, rest, doc) <==> Affirmed(engine, def, filters, n, column, doc))
    decreases container, 0, n
  {
    if n > 0 {
      RemainingMeaning(engine, def, container, n - 1, column, doc);
      OneMoreChild(engine, def, container.filters, n, column, doc);
      var child := container.filters[n - 1];
      ErasureMeaning(engine, def, child, column, doc);
      match WithoutColumn(child, column)
      case None =>
      case Some(kept) => HoldsSnoc(engine, def, Remaining(container, n - 1, column), kept, doc);
    }
  }

  lemma HoldsSnoc(engine: Engine, def: TableDef, before: seq<Filter>, last: Filter, doc: Document)
    ensures AllHold(engine, def, before + [last], doc) <==>
            AllHold(engine, def, before, doc) && Denotes(engine, def, last, doc)
    ensures SomeHolds(engine, def, before + [last], doc) <==>
            SomeHolds(engine, def, before, doc) || Denotes(engine, def, last, doc)
  {
    var all := before + [last];
    assert all[|before|] == last;
    forall i | 0 <= i < |before| ensures all[i] == before[i] { }
  }

  // ----- independence -----

  /** The two filters differ at most in their structural predicates on the column. */
  ghost predicate AlikeApartFrom(a: Filter, b: Filter, column: string) {
    if Structural(a, column) || Structural(b, column) then Structural(a, column) && Structural(b, column)
    else match (a, b)
         case (All(x), All(y)) => |x| == |y| && forall i :: 0 <= i < |x| ==> AlikeApartFrom(x[i], y[i], column)
         case (Any(x), Any(y)) => |x| == |y| && forall i :: 0 <= i < |x| ==> AlikeApartFrom(x[i], y[i], column)
         case (Not(x), Not(y)) => AlikeApartFrom(x, y, column)
         case _ => a == b
  }

  /** What the column's own predicates say has no influence on the result. */
  lemma {:induction false} Independent(a: Filter, b: Filter, column: string)
    requires AlikeApartFrom(a, b, column)
    ensures WithoutColumn(a, column) == WithoutColumn(b, column)
    decreases a, 1, 0
  {
    match (a, b)
    case (All(x), All(y)) => IndependentChildren(a, b, |x|, column);
    case (Any(x), Any(y)) => IndependentChildren(a, b, |x|, column);
    case (Not(x), Not(y)) => Independent(x, y, column);
    case _ =>
  }

  lemma {:induction false} IndependentChildren(a: Filter, b: Filter, n: nat, column: string)
    requires (a.All? && b.All?) || (a.Any? && b.Any?)
    requires AlikeApartFrom(a, b, column) && n <= |a.filters| == |b.filters|
    ensures Remaining(a, n, column) == Remaining(b, n, column)
    decreases a, 0, n
  {
    if n > 0 {
      IndependentChildren(a, b, n - 1, column);
      Independent(a.filters[n - 1], b.filters[n - 1], column);
    }
  }

  // ----- nothing to erase -----

  // Filters built with at least two children per container.
  ghost predicate Branching(filter: Filter) {
    match filter
    case All(filters) => |filters| >= 2 && forall i :: 0 <= i < |filters| ==> Branching(filters[i])
    case Any(filters) => |filters| >= 2 && forall i :: 0 <= i < |filters| ==> Branching(filters[i])
    case Not(inner) => Branching(inner)
    case _ => true
  }

  /** The result is already simplified ... */
  lemma {:induction false} ResultBranches(filter: Filter, column: string)
    ensures WithoutColumn(filter, column).Some? ==> Branching(WithoutColumn(filter, column).value)
    decreases filter, 1, 0
  {
    match filter
    case All(filters) => RemainingBranches(filter, |filters|, column);
    case Any(filters) => RemainingBranches(filter, |filters|, column);
    case Not(inner) => ResultBranches(inner, column);
    case _ =>
  }

  lemma {:induction false} RemainingBranches(container: Filter, n: nat, column: string)
    requires (container.All? || container.Any?) && n <= |container.filters|
    ensures forall i :: 0 <= i < |Remaining(container, n, column)| ==> Branching(Remaining(container, n, column)[i])
    decreases container, 0, n
  {
    if n > 0 {
      RemainingBranches(container, n - 1, column);
      ResultBranches(container.filters[n - 1], column);
    }
  }

  /** ... and erasing from a simplified filter that does not mention the column does nothing. */
  lemma {:induction false} NothingToErase(filter: Filter, column: string)
    requires Free(filter, column) && Branching(filter)
    ensures WithoutColumn(filter, column) == Some(filter)
    decreases filter, 1, 0
  {
    match filter
    case All(filters) => AllRemain(filter, |filters|, column); assert filters[..|filters|] == filters;
    case Any(filters) => AllRemain(filter, |filters|, column); assert filters[..|filters|] == filters;
    case Not(inner) => NothingToErase(inner, column);
    case _ =>
  }

  lemma {:induction false} AllRemain(container: Filter, n: nat, column: string)
    requires (container.All? || container.Any?) && n <= |container.filters|
    requires Free(container, column) && Branching(container)
    ensures Remaining(container, n, column) == container.filters[..n]
    decreases container, 0, n
  {
    if n > 0 {
      AllRemain(container, n - 1, column);
      NothingToErase(container.filters[n - 1], column);
      assert container.filters[..n] == container.filters[..n - 1] + [container.filters[n - 1]];
    }
  }

  /** Erasing twice is erasing once. */
  lemma Idempotent(filter: Filter, column: string)
    ensures match WithoutColumn(filter, column)
            case None => true
            case Some(rest) => WithoutColumn(rest, column) == Some(rest)
  {
    ResultIsFree(filter, column);
    ResultBranches(filter, column);
    match WithoutColumn(filter, column)
    case None =>
    case Some(rest) => NothingToErase(rest, column);
  }

  // A compiled filter has no empty container.
  ghost predicate NonEmpty(filter: Filter) {
    match filter
    case All(filters) => |filters| >= 1 && forall i :: 0 <= i < |filters| ==> NonEmpty(filters[i])
    case Any(filters) => |filters| >= 1 && forall i :: 0 <= i < |filters| ==> NonEmpty(filters[i])
    case Not(inner) => NonEmpty(inner)
    case _ => true
  }

  /** Without a predicate on the column, and without an empty container, every document matches as
      before. */
  lemma PreservesMatches(engine: Engine, def: TableDef, filter: Filter, column: string, doc: Document)
    requires Free(filter, column) && NonEmpty(filter)
    ensures WithoutColumn(filter, column).Some?
    ensures Denotes(engine, def, WithoutColumn(filter, column).value, doc) <==> Denotes(engine, def, filter, doc)
  {
    FreeMeaning(engine, def, filter, column, doc);
    ErasureMeaning(engine, def, filter, column, doc);
  }

  lemma {:induction false} FreeMeaning(engine: Engine, def: TableDef, filter: Filter, column: string, doc: Document)
    requires Free(filter, column) && NonEmpty(filter)
    ensures Meaning(engine, def, filter, column, doc) == Some(Denotes(engine, def, filter, doc))
    decreases filter
  {
    match filter
    case All(filters) =>
      forall i | 0 <= i < |filters| { FreeMeaning(engine, def, filters[i], column, doc); }
      assert Meaning(engine, def, filters[0], column, doc).Some?;
    case Any(filters) =>
      forall i | 0 <= i < |filters| { FreeMeaning(engine, def, filters[i], column, doc); }
      assert Meaning(engine, def, filters[0], column, doc).Some?;
    case Not(inner) => FreeMeaning(engine, def, inner, column, doc);
    case _ =>
  }

  // ----- compiled -----

  /** The filters the compiler accepts: no container is empty and every predicate is accepted. */
  ghost predicate Compiles(engine: Engine, def: TableDef, filter: Filter) {
    match filter
    case All(filters) => filters != [] && forall i :: 0 <= i < |filters| ==> Compiles(engine, def, filters[i])
    case Any(filters) => filters != [] && forall i :: 0 <= i < |filters| ==> Compiles(engine, def, filters[i])
    case Not(inner) => Compiles(engine, def, inner)
    case _ => LeafAccepted(engine, def, filter)
  }

  ghost predicate AllCompile(engine: Engine, def: TableDef, filters: seq<Filter>) {
    forall i :: 0 <= i < |filters| ==> Compiles(engine, def, filters[i])
  }

  lemma AllCompileSnoc(engine: Engine, def: TableDef, before: seq<Filter>, last: Filter)
    ensures AllCompile(engine, def, before + [last]) <==> AllCompile(engine, def, before) && Compiles(engine, def, last)
  {
    var all := before + [last];
    assert all[|before|] == last;
    if AllCompile(engine, def, all) {
      forall i | 0 <= i < |before| ensures Compiles(engine, def, before[i]) { assert before[i] == all[i]; }
    }
  }

  lemma {:induction false} CompilesIff(engine: Engine, def: TableDef, filter: Filter)
    ensures CompileRaw(engine, def, filter).Ok? <==> Compiles(engine, def, filter)
    decreases filter, 1, 0
  {
    match filter
    case All(filters) => ChildrenCompileIff(engine, def, filter, |filters|); assert filters[..|filters|] == filters;
    case Any(filters) => ChildrenCompileIff(engine, def, filter, |filters|); assert filters[..|filters|] == filters;
    case Not(inner) => CompilesIff(engine, def, inner);
    case _ => LeafAcceptedIff(engine, def, filter);
  }

  lemma {:induction false} ChildrenCompileIff(engine: Engine, def: TableDef, container: Filter, n: nat)
    requires (container.All? || container.Any?) && n <= |container.filters|
    ensures CompileChildren(engine, def, container, n).Ok? <==>
            AllCompile(engine, def, container.filters[..n])
    decreases container, 0, n
  {
    if n > 0 {
      var last := container.filters[n - 1];
      ChildrenCompileIff(engine, def, container, n - 1);
      CompilesIff(engine, def, last);
      ChildCompiles(engine, def, container, n);
      AllCompileSnoc(engine, def, container.filters[..n - 1], last);
      assert container.filters[..n] == container.filters[..n - 1] + [last];
    }
  }

  // The erased filter as a condition on documents; nothing left means every document.
  ghost predicate Kept(engine: Engine, def: TableDef, erased: Option<Filter>) {
    erased.Some? ==> Compiles(engine, def, erased.value)
  }

  lemma {:induction false} ErasedCompiles(engine: Engine, def: TableDef, filter: Filter, column: string)
    requires Compiles(engine, def, filter)
    ensures Kept(engine, def, WithoutColumn(filter, column))
    decreases filter, 1, 0
  {
    match filter
    case All(filters) =>
      RemainingCompiles(engine, def, filter, |filters|, column);
      SimplifiedCompiles(engine, def, Remaining(filter, |filters|, column), true);
    case Any(filters) =>
      RemainingCompiles(engine, def, filter, |filters|, column);
      SimplifiedCompiles(engine, def, Remaining(filter, |filters|, column), false);
    case Not(inner) => ErasedCompiles(engine, def, inner, column);
    case _ =>
  }

  lemma {:induction false} RemainingCompiles(engine: Engine, def: TableDef, container: Filter, n: nat, column: string)
    requires (container.All? || container.Any?) && n <= |container.filters| && Compiles(engine, def, container)
    ensures AllCompile(engine, def, Remaining(container, n, column))
    decreases container, 0, n
  {
    if n > 0 {
      RemainingCompiles(engine, def, container, n - 1, column);
      ErasedCompiles(engine, def, container.filters[n - 1], column);
      match WithoutColumn(container.filters[n - 1], column)
      case None =>
      case Some(child) => AllCompileSnoc(engine, def, Remaining(container, n - 1, column), child);
    }
  }

  lemma SimplifiedCompiles(engine: Engine, def: TableDef, rest: seq<Filter>, all: bool)
    requires AllCompile(engine, def, rest)
    ensures Kept(engine, def, Simplify(rest, all))
  {
  }

  lemma SimplifiedBack(engine: Engine, def: TableDef, rest: seq<Filter>, all: bool)
    ensures Kept(engine, def, Simplify(rest, all)) ==> AllCompile(engine, def, rest)
  {
  }

  /** What a facet that leaves out its own column searches: whenever the filter compiles, so does what
      is left of it, and it matches the documents that the neutral meaning does not exclude. */
  lemma ErasedMatches(engine: Engine, def: TableDef, filter: Filter, column: string, doc: Document)
    requires CompileFilter(engine, def, Some(filter)).Ok?
    ensures CompileFilter(engine, def, WithoutColumn(filter, column)).Ok?
    ensures Matches(engine, CompileFilter(engine, def, WithoutColumn(filter, column)).value, doc) <==>
            Meaning(engine, def, filter, column, doc) != Some(false)
  {
    var erased := WithoutColumn(filter, column);
    CompilesIff(engine, def, filter);
    ErasedCompiles(engine, def, filter, column);
    if erased.Some? { CompilesIff(engine, def, erased.value); }
    CompiledFilterMeaning(engine, def, erased, doc);
    ErasureMeaning(engine, def, filter, column, doc);
  }

  /** A filter that compiles and has no predicate on the column searches the same documents as before. */
  lemma PreservesSearch(engine: Engine, def: TableDef, filter: Filter, column: string, doc: Document)
    requires Free(filter, column) && CompileFilter(engine, def, Some(filter)).Ok?
    ensures CompileFilter(engine, def, WithoutColumn(filter, column)).Ok?
    ensures Matches(engine, CompileFilter(engine, def, WithoutColumn(filter, column)).value, doc) <==>
            Matches(engine, CompileFilter(engine, def, Some(filter)).value, doc)
  {
    ErasedMatches(engine, def, filter, column, doc);
    CompilesIff(engine, def, filter);
    CompiledIsNonEmpty(engine, def, filter);
    FreeMeaning(engine, def, filter, column, doc);
    CompiledFilterMeaning(engine, def, Some(filter), doc);
  }

  lemma {:induction false} CompiledIsNonEmpty(engine: Engine, def: TableDef, filter: Filter)
    requires Compiles(engine, def, filter)
    ensures NonEmpty(filter)
    decreases filter
  {
    match filter
    case All(filters) =>
      forall i | 0 <= i < |filters| ensures NonEmpty(filters[i]) {
        CompiledIsNonEmpty(engine, def, filters[i]);
      }
    case Any(filters) =>
      forall i | 0 <= i < |filters| ensures NonEmpty(filters[i]) {
        CompiledIsNonEmpty(engine, def, filters[i]);
      }
    case Not(inner) => CompiledIsNonEmpty(engine, def, inner);
    case _ =>
  }

  // The compiler accepts the column's own predicates.
  ghost predicate OwnAccepted(engine: Engine, def: TableDef, filter: Filter, column: string) {
    match filter
    case All(filters) => forall i :: 0 <= i < |filters| ==> OwnAccepted(engine, def, filters[i], column)
    case Any(filters) => forall i :: 0 <= i < |filters| ==> OwnAccepted(engine, def, filters[i], column)
    case Not(inner) => OwnAccepted(engine, def, inner, column)
    case _ => Structural(filter, column) ==> LeafAccepted(engine, def, filter)
  }

  lemma {:induction false} CompiledIsAccepted(engine: Engine, def: TableDef, filter: Filter, column: string)
    requires Compiles(engine, def, filter)
    ensures OwnAccepted(engine, def, filter, column)
    decreases filter
  {
    match filter
    case All(filters) =>
      forall i | 0 <= i < |filters| ensures OwnAccepted(engine, def, filters[i], column) {
        CompiledIsAccepted(engine, def, filters[i], column);
      }
    case Any(filters) =>
      forall i | 0 <= i < |filters| ensures OwnAccepted(engine, def, filters[i], column) {
        CompiledIsAccepted(engine, def, filters[i], column);
      }
    case Not(inner) => CompiledIsAccepted(engine, def, inner, column);
    case _ =>
  }

  // Whatever erasure drops from such a filter compiles.
  lemma {:induction false} DroppedCompiles(engine: Engine, def: TableDef, filter: Filter, column: string)
    requires NonEmpty(filter) && OwnAccepted(engine, def, filter, column)
    ensures Kept(engine, def, WithoutColumn(filter, column)) ==> Compiles(engine, def, filter)
    decreases filter, 1, 0
  {
    match filter
    case All(filters) =>
      ChildrenDropped(engine, def, filter, |filters|, column);
      SimplifiedBack(engine, def, Remaining(filter, |filters|, column), true);
      assert filters[..|filters|] == filters;
    case Any(filters) =>
      ChildrenDropped(engine, def, filter, |filters|, column);
      SimplifiedBack(engine, def, Remaining(filter, |filters|, column), false);
      assert filters[..|filters|] == filters;
    case Not(inner) => DroppedCompiles(engine, def, inner, column);
    case _ =>
  }

  lemma {:induction false} ChildrenDropped(engine: Engine, def: TableDef, container: Filter, n: nat, column: string)
    requires (container.All? || container.Any?) && n <= |container.filters|
    requires NonEmpty(container) && OwnAccepted(engine, def, container, column)
    ensures AllCompile(engine, def, Remaining(container, n, column)) ==> AllCompile(engine, def, container.filters[..n])
    decreases container, 0, n
  {
    if n > 0 {
      var last := container.filters[n - 1];
      assert container.filters[..n] == container.filters[..n - 1] + [last];
      ChildrenDropped(engine, def, container, n - 1, column);
      DroppedCompiles(engine, def, last, column);
      RemainingSplits(engine, def, container, n, column);
      AllCompileSnoc(engine, def, container.filters[..n - 1], last);
    }
  }

  lemma RemainingSplits(engine: Engine, def: TableDef, container: Filter, n: nat, column: string)
    requires (container.All? || container.Any?) && 0 < n <= |container.filters|
    ensures AllCompile(engine, def, Remaining(container, n, column)) <==>
            AllCompile(engine, def, Remaining(container, n - 1, column)) &&
              Kept(engine, def, WithoutColumn(container.filters[n - 1], column))
  {
    match WithoutColumn(container.filters[n - 1], column)
    case None =>
    case Some(rest) => AllCompileSnoc(engine, def, Remaining(container, n - 1, column), rest);
  }

  /** Exactly when erasing a column changes what is accepted: it drops empty containers and predicates
      on the column that the compiler refuses, and nothing else that matters. */
  lemma AcceptedIff(engine: Engine, def: TableDef, filter: Filter, column: string)
    ensures CompileFilter(engine, def, Some(filter)).Ok? <==>
            NonEmpty(filter) && OwnAccepted(engine, def, filter, column) &&
              CompileFilter(engine, def, WithoutColumn(filter, column)).Ok?
  {
    var erased := WithoutColumn(filter, column);
    CompilesIff(engine, def, filter);
    if erased.Some? { CompilesIff(engine, def, erased.value); }
    if Compiles(engine, def, filter) {
      CompiledIsNonEmpty(engine, def, filter);
      CompiledIsAccepted(engine, def, filter, column);
      ErasedCompiles(engine, def, filter, column);
    } else if NonEmpty(filter) && OwnAccepted(engine, def, filter, column) {
      DroppedCompiles(engine, def, filter, column);
    }
  }

  /** Refused filters of both kinds of which erasure leaves one that is accepted: an empty container, and
      an empty list of values for the column. */
  lemma ErasureAccepts(engine: Engine, def: TableDef, column: string, rest: Filter)
    requires !Structural(rest, column) && !rest.All? && !rest.Any? && !rest.Not?
    requires CompileFilter(engine, def, Some(rest)).Ok?
    ensures forall dropped :: dropped in [All([]), Any([]), In(column, [])] ==>
              && CompileFilter(engine, def, Some(All([dropped, rest]))).Err?
              && WithoutColumn(All([dropped, rest]), column) == Some(rest)
  {
    forall dropped | dropped in [All([]), Any([]), In(column, [])]
      ensures CompileFilter(engine, def, Some(All([dropped, rest]))).Err?
      ensures WithoutColumn(All([dropped, rest]), column) == Some(rest)
    {
      var both := All([dropped, rest]);
      assert both.filters[0] == dropped && both.filters[1] == rest;
      CompilesIff(engine, def, both);
      assert !Compiles(engine, def, both.filters[0]);
      assert WithoutColumn(dropped, column) == None;
      assert Remaining(both, 0, column) == [] && Remaining(both, 1, column) == [];
      assert Remaining(both, 2, column) == [rest];
    }
  }
}
