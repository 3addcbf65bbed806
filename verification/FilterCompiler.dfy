/** The two compilers from filters to search queries: the one for reads, which also keeps structural
    filters out of the score, and the one for filter aggregations. */
module FilterCompiler {
  import opened Wrappers
  import opened Filters
  import O = Ordering

  datatype FieldRef = ColumnField(column: string) | PathField(column: string, path: string)

  datatype Bound = Included(value: Value) | Excluded(value: Value) | Unbounded

  datatype Occur = Must | Should | MustNot

  datatype Clause = Clause(occur: Occur, query: Query)

  datatype Query =
    | AllQuery
    | TermQuery(field: FieldRef, value: Value)
    | RangeQuery(field: FieldRef, lower: Bound, upper: Bound)
    | TermSetQuery(field: FieldRef, values: seq<Value>)
    | ExistsQuery(field: FieldRef)
    | LibraryQuery(request: Filter)               // full-text and geo queries
    | BooleanQuery(clauses: seq<Clause>)
    | ConstScoreQuery(query: Query, score: real)

  // ----- what a query matches and scores -----

  function FieldValues(doc: Document, field: FieldRef): set<Value> {
    match field
    case ColumnField(column) => ValuesOf(doc, column)
    case PathField(column, path) => JsonValues(doc, column, path)
  }

  // Only values of the bound's own type lie in its range.
  predicate InBounds(v: Value, lower: Bound, upper: Bound) {
    && (match lower
        case Included(x) => AtMost(x, v)
        case Excluded(x) => Below(x, v)
        case Unbounded => true)
    && (match upper
        case Included(x) => AtMost(v, x)
        case Excluded(x) => Below(v, x)
        case Unbounded => true)
  }

  /** A Boolean query needs every `Must` and no `MustNot`; without a `Must`, some `Should`. */
  ghost predicate Matches(engine: Engine, query: Query, doc: Document) {
    match query
    case AllQuery => true
    case TermQuery(field, value) => value in FieldValues(doc, field)
    case RangeQuery(field, lower, upper) => exists v :: v in FieldValues(doc, field) && InBounds(v, lower, upper)
    case TermSetQuery(field, values) => exists v :: v in values && v in FieldValues(doc, field)
    case ExistsQuery(field) => FieldValues(doc, field) != {}
    case LibraryQuery(request) => engine.hits(request, doc)
    case ConstScoreQuery(inner, _) => Matches(engine, inner, doc)
    case BooleanQuery(clauses) =>
      && (forall i :: 0 <= i < |clauses| && clauses[i].occur.Must? ==> Matches(engine, clauses[i].query, doc))
      && (forall i :: 0 <= i < |clauses| && clauses[i].occur.MustNot? ==> !Matches(engine, clauses[i].query, doc))
      && ((exists i :: 0 <= i < |clauses| && clauses[i].occur.Must?) ||
          (exists i :: 0 <= i < |clauses| && clauses[i].occur.Should? && Matches(engine, clauses[i].query, doc)))
  }

  // The score the library gives to a query that is not full text.
  type RawScore = (Query, Document) -> real

  /** Full-text queries score their relevance, Boolean queries the sum of their matching clauses, and
      any other query whatever the library likes. */
  ghost function QueryScore(engine: Engine, raw: RawScore, query: Query, doc: Document): real
    decreases query, 1, 0
  {
    match query
    case LibraryQuery(request) => if request.FullText? then engine.relevance(request, doc) else raw(query, doc)
    case BooleanQuery(clauses) => SumOfFirst(engine, raw, query, |clauses|, doc)
    case ConstScoreQuery(_, score) => score
    case _ => raw(query, doc)
  }

  ghost function SumOfFirst(engine: Engine, raw: RawScore, query: Query, n: nat, doc: Document): real
    requires query.BooleanQuery? && n <= |query.clauses|
    decreases query, 0, n
  {
    if n == 0 then 0.0
    else
      var clause := query.clauses[n - 1];
      SumOfFirst(engine, raw, query, n - 1, doc) +
      (if !clause.occur.MustNot? && Matches(engine, clause.query, doc) then QueryScore(engine, raw, clause.query, doc)
       else 0.0)
  }

  // ----- shared pieces -----

  function Negate(query: Query): Query {
    BooleanQuery([Clause(Must, AllQuery), Clause(MustNot, query)])
  }

  function QueryableColumn(def: TableDef, name: string): Result<ColumnDef> {
    match FindColumn(def, name)
    case Err(message) => Err(message)
    case Ok(column) => if column.indexed then Ok(column) else Err("column is not indexed")
  }

  // A term of the column's own type.
  function TermForValue(column: ColumnDef, value: Value): Result<Value> {
    match (column.dataType, value)
    case (Integer, Number(n)) => if Signed64(n) then Ok(value) else Err("expected integer")
    case (Unsigned, Number(n)) => if Unsigned64(n) then Ok(value) else Err("expected unsigned integer")
    case (Boolean, Truth(_)) => Ok(value)
    case (Str, Text(_)) => Ok(value)
    case (Json, _) => Err("JSON comparison requires a full-text JSON-path query")
    case (GeoPoint, _) => Err("GEO_POINT comparison requires a geo filter")
    case _ => Err("value does not match type of column")
  }

  function Terms(column: ColumnDef, values: seq<Value>): Result<seq<Value>> {
    if values == [] then Ok([])
    else
      match Terms(column, values[..|values| - 1])
      case Err(message) => Err(message)
      case Ok(before) =>
        match TermForValue(column, values[|values| - 1])
        case Err(message) => Err(message)
        case Ok(term) => Ok(before + [term])
  }

  // The range a comparison selects; equality as a range is used for JSON paths only.
  function ComparisonRange(field: FieldRef, operator: Comparison, term: Value): Query {
    match operator
    case Equal => RangeQuery(field, Included(term), Included(term))
    case NotEqual => RangeQuery(field, Included(term), Included(term))
    case Greater => RangeQuery(field, Excluded(term), Unbounded)
    case GreaterOrEqual => RangeQuery(field, Included(term), Unbounded)
    case Less => RangeQuery(field, Unbounded, Excluded(term))
    case LessOrEqual => RangeQuery(field, Unbounded, Included(term))
  }

  function CompileComparison(def: TableDef, name: string, operator: Comparison, value: Value): Result<Query> {
    match FindColumn(def, name)
    case Err(message) => Err(message)
    case Ok(column) =>
      match TermForValue(column, value)
      case Err(message) => Err(message)
      case Ok(term) =>
        var field := ColumnField(column.name);
        match operator
        case Equal => Ok(TermQuery(field, term))
        case NotEqual => Ok(Negate(TermQuery(field, term)))
        case _ => Ok(ComparisonRange(field, operator, term))
  }

  predicate Blank(text: string) {
    forall c :: c in text ==> c == ' ' || c == '\t' || c == '\n' || c == '\r'
  }

  function JsonPathField(def: TableDef, name: string, path: string): Result<FieldRef> {
    match FindColumn(def, name)
    case Err(message) => Err(message)
    case Ok(column) =>
      if !column.dataType.Json? then Err("JSON path requires a JSON or JSON[] column")
      else if Blank(path) then Err("JSON path cannot be empty")
      else Ok(PathField(column.name, path))
  }

  datatype PathTerm = PathTerm(field: FieldRef, value: Value)

  function JsonPathTerm(def: TableDef, name: string, path: string, jsonType: JsonType, value: Value): Result<PathTerm> {
    match FindColumn(def, name)
    case Err(message) => Err(message)
    case Ok(column) =>
      if !column.indexed then Err("JSON column is not indexed")
      else match JsonPathField(def, name, path)
           case Err(message) => Err(message)
           case Ok(field) =>
             match (jsonType, value)
             case (JsonText, Text(_)) => Ok(PathTerm(field, value))
             case (JsonSigned, Number(n)) =>
               if Signed64(n) then Ok(PathTerm(field, value)) else Err("JSON i64 path value must be an integer")
             case (JsonUnsigned, Number(n)) =>
               if Unsigned64(n) then Ok(PathTerm(field, value))
               else Err("JSON u64 path value must be an unsigned integer")
             case (JsonBool, Truth(_)) => Ok(PathTerm(field, value))
             case _ => Err("JSON path value has another type")
  }

  function CompileJsonComparison(def: TableDef, name: string, path: string, jsonType: JsonType, operator: Comparison,
                                 value: Value): Result<Query>
  {
    match JsonPathTerm(def, name, path, jsonType, value)
    case Err(message) => Err(message)
    case Ok(term) =>
      if jsonType.JsonBool? then
        match operator
        case Equal => Ok(TermQuery(term.field, term.value))
        case NotEqual => Ok(Negate(TermQuery(term.field, term.value)))
        case _ => Err("JSON bool paths support only equal and not_equal")
      else
        var range := ComparisonRange(term.field, operator, term.value);
        Ok(if operator == NotEqual then Negate(range) else range)
  }

  function RequestQuery(engine: Engine, def: TableDef, request: Filter): Result<Query> {
    if engine.accepts(request, def) then Ok(LibraryQuery(request)) else Err("invalid search request")
  }

  // The predicates, as the compiler for reads treats them.
  function CompileLeaf(engine: Engine, def: TableDef, filter: Filter): Result<Query>
    requires !filter.All? && !filter.Any? && !filter.Not?
  {
    match filter
    case Compare(name, operator, value) =>
      (match QueryableColumn(def, name)
       case Err(message) => Err(message)
       case Ok(_) => CompileComparison(def, name, operator, value))
    case Between(name, lower, upper) =>
      (match QueryableColumn(def, name)
       case Err(message) => Err(message)
       case Ok(column) =>
         match (TermForValue(column, lower), TermForValue(column, upper))
         case (Ok(low), Ok(high)) => Ok(RangeQuery(ColumnField(column.name), Included(low), Included(high)))
         case (Err(message), _) => Err(message)
         case (_, Err(message)) => Err(message))
    case In(name, values) =>
      if values == [] then Err("IN filter requires at least one value")
      else
        (match QueryableColumn(def, name)
         case Err(message) => Err(message)
         case Ok(column) =>
           match Terms(column, values)
           case Err(message) => Err(message)
           case Ok(terms) => Ok(TermSetQuery(ColumnField(column.name), terms)))
    case IsNull(name, negated) =>
      (match QueryableColumn(def, name)
       case Err(message) => Err(message)
       case Ok(column) =>
         var query := ExistsQuery(ColumnField(column.name));
         Ok(if negated then query else Negate(query)))
    case JsonCompare(name, path, jsonType, operator, value) =>
      CompileJsonComparison(def, name, path, jsonType, operator, value)
    case JsonBetween(name, path, jsonType, lower, upper) =>
      (match (JsonPathTerm(def, name, path, jsonType, lower), JsonPathTerm(def, name, path, jsonType, upper))
       case (Ok(low), Ok(high)) => Ok(RangeQuery(low.field, Included(low.value), Included(high.value)))
       case (Err(message), _) => Err(message)
       case (_, Err(message)) => Err(message))
    case JsonExists(name, path, negated) =>
      (match JsonPathField(def, name, path)
       case Err(message) => Err(message)
       case Ok(field) => Ok(if negated then Negate(ExistsQuery(field)) else ExistsQuery(field)))
    case FullText(_, _) => RequestQuery(engine, def, filter)
    case Geo(_, _) => RequestQuery(engine, def, filter)
  }

  // ----- which predicates are accepted -----

  // A value of the column's type: signed or unsigned 64-bit numbers, truth values or text.
  predicate OfType(value: Value, dataType: ColumnType) {
    match value
    case NullValue => false
    case Number(n) =>
      && -0x8000_0000_0000_0000 <= n < 0x1_0000_0000_0000_0000
      && ((dataType.Integer? && n < 0x8000_0000_0000_0000) || (dataType.Unsigned? && n >= 0))
    case Truth(_) => dataType.Boolean?
    case Text(_) => dataType.Str?
  }

  predicate OfJsonType(value: Value, jsonType: JsonType) {
    match value
    case NullValue => false
    case Number(n) =>
      && -0x8000_0000_0000_0000 <= n < 0x1_0000_0000_0000_0000
      && ((jsonType.JsonSigned? && n < 0x8000_0000_0000_0000) || (jsonType.JsonUnsigned? && n >= 0))
    case Truth(_) => jsonType.JsonBool?
    case Text(_) => jsonType.JsonText?
  }

  ghost predicate Searchable(def: TableDef, k: nat, name: string) {
    ColumnAt(def, k, name) && def[k].indexed
  }

  predicate NotBlank(path: string) {
    exists i :: 0 <= i < |path| && path[i] !in {' ', '\t', '\n', '\r'}
  }

  lemma BlankOrNot(path: string)
    ensures Blank(path) <==> !NotBlank(path)
  {
    if !Blank(path) {
      var c :| c in path && c !in {' ', '\t', '\n', '\r'};
      var i :| 0 <= i < |path| && path[i] == c;
    }
    if i :| 0 <= i < |path| && path[i] !in {' ', '\t', '\n', '\r'} { assert path[i] in path; }
  }

  ghost predicate HasPath(def: TableDef, k: nat, name: string, path: string) {
    ColumnAt(def, k, name) && def[k].dataType.Json? && NotBlank(path)
  }

  /** What each predicate needs: an indexed column, values of its type and at least one of them; below a
      JSON column a path that is not blank and values of the type asked for; truth values are only equal or
      not; for existence below a path no index. */
  ghost predicate LeafAccepted(engine: Engine, def: TableDef, filter: Filter)
    requires !filter.All? && !filter.Any? && !filter.Not?
  {
    match filter
    case Compare(name, _, value) => exists k: nat :: Searchable(def, k, name) && OfType(value, def[k].dataType)
    case Between(name, lower, upper) =>
      exists k: nat :: Searchable(def, k, name) && OfType(lower, def[k].dataType) && OfType(upper, def[k].dataType)
    case In(name, values) =>
      values != [] &&
      exists k: nat :: Searchable(def, k, name) && forall v :: v in values ==> OfType(v, def[k].dataType)
    case IsNull(name, _) => exists k: nat :: Searchable(def, k, name)
    case JsonCompare(name, path, jsonType, operator, value) =>
      && (exists k: nat :: Searchable(def, k, name) && HasPath(def, k, name, path)) && OfJsonType(value, jsonType)
      && (value.Truth? ==> operator == Equal || operator == NotEqual)
    case JsonBetween(name, path, jsonType, lower, upper) =>
      && (exists k: nat :: Searchable(def, k, name) && HasPath(def, k, name, path))
      && OfJsonType(lower, jsonType) && OfJsonType(upper, jsonType)
    case JsonExists(name, path, _) => exists k: nat :: HasPath(def, k, name, path)
    case FullText(_, _) => engine.accepts(filter, def)
    case Geo(_, _) => engine.accepts(filter, def)
  }

  lemma TermIff(column: ColumnDef, value: Value)
    ensures TermForValue(column, value).Ok? <==> OfType(value, column.dataType)
  {
  }

  lemma {:induction false} TermsIff(column: ColumnDef, values: seq<Value>)
    ensures Terms(column, values).Ok? <==> forall v :: v in values ==> OfType(v, column.dataType)
  {
    if values != [] {
      var front, last := values[..|values| - 1], values[|values| - 1];
      assert values == front + [last];
      TermsIff(column, front);
      TermIff(column, last);
    }
  }

  // Looking the column up finds the one column that can be meant.
  lemma OnlyColumn(def: TableDef, name: string)
    ensures FindColumn(def, name).Ok? <==> exists k: nat :: ColumnAt(def, k, name)
    ensures forall k: nat :: ColumnAt(def, k, name) ==> FindColumn(def, name) == Ok(def[k])
  {
    if FindColumn(def, name).Ok? { var k := FoundColumn(def, name); }
    forall k: nat | ColumnAt(def, k, name) ensures FindColumn(def, name) == Ok(def[k]) { ColumnFound(def, k, name); }
  }

  lemma PathIff(def: TableDef, name: string, path: string)
    ensures JsonPathField(def, name, path).Ok? <==> exists k: nat :: HasPath(def, k, name, path)
  {
    OnlyColumn(def, name);
    BlankOrNot(path);
    if FindColumn(def, name).Ok? {
      var k: nat :| ColumnAt(def, k, name);
      assert JsonPathField(def, name, path).Ok? <==> HasPath(def, k, name, path);
    }
  }

  lemma PathTermIff(def: TableDef, name: string, path: string, jsonType: JsonType, value: Value)
    ensures JsonPathTerm(def, name, path, jsonType, value).Ok? <==>
            (exists k: nat :: Searchable(def, k, name) && HasPath(def, k, name, path)) && OfJsonType(value, jsonType)
  {
    OnlyColumn(def, name);
    PathIff(def, name, path);
    if JsonPathField(def, name, path).Ok? {
      var k: nat :| HasPath(def, k, name, path);
      assert Searchable(def, k, name) <==> FindColumn(def, name).value.indexed;
    }
  }

  /** A predicate is accepted if and only if it has what it needs. */
  lemma LeafAcceptedIff(engine: Engine, def: TableDef, filter: Filter)
    requires !filter.All? && !filter.Any? && !filter.Not?
    ensures CompileLeaf(engine, def, filter).Ok? <==> LeafAccepted(engine, def, filter)
  {
    match filter
    case Compare(name, _, value) => ColumnLeafIff(engine, def, filter);
    case Between(name, _, _) => ColumnLeafIff(engine, def, filter);
    case In(name, _) => ColumnLeafIff(engine, def, filter);
    case IsNull(name, _) => ColumnLeafIff(engine, def, filter);
    case JsonCompare(name, path, jsonType, _, value) => PathTermIff(def, name, path, jsonType, value);
    case JsonBetween(name, path, jsonType, lower, upper) =>
      PathTermIff(def, name, path, jsonType, lower);
      PathTermIff(def, name, path, jsonType, upper);
    case JsonExists(name, path, _) => PathIff(def, name, path);
    case _ =>
  }

  lemma ColumnLeafIff(engine: Engine, def: TableDef, filter: Filter)
    requires filter.Compare? || filter.Between? || filter.In? || filter.IsNull?
    ensures CompileLeaf(engine, def, filter).Ok? <==> LeafAccepted(engine, def, filter)
  {
    OnlyColumn(def, filter.column);
    if FindColumn(def, filter.column).Ok? {
      var k: nat :| ColumnAt(def, k, filter.column);
      assert Searchable(def, k, filter.column) <==> def[k].indexed;
      match filter
      case Compare(_, _, value) => TermIff(def[k], value);
      case Between(_, lower, upper) => TermIff(def[k], lower); TermIff(def[k], upper);
      case In(_, values) => TermsIff(def[k], values);
      case _ =>
    }
  }

  function OccurOf(container: Filter): Occur {
    if container.All? then Must else Should
  }

  // ----- the compiler for reads -----

  /** A node that contributes no score is wrapped so that it scores zero. */
  function CompileNode(engine: Engine, def: TableDef, filter: Filter): Result<Query>
    decreases filter, 2, 0
  {
    match CompileRaw(engine, def, filter)
    case Err(message) => Err(message)
    case Ok(query) => if ContributesScore(filter) then Ok(query) else Ok(ConstScoreQuery(query, 0.0))
  }

  function CompileRaw(engine: Engine, def: TableDef, filter: Filter): Result<Query>
    decreases filter, 1, 0
  {
    match filter
    case All(filters) => CompileBoolean(engine, def, filter)
    case Any(filters) => CompileBoolean(engine, def, filter)
    case Not(inner) =>
      (match CompileRaw(engine, def, inner)
       case Err(message) => Err(message)
       case Ok(query) => Ok(Negate(query)))
    case _ => CompileLeaf(engine, def, filter)
  }

  function CompileBoolean(engine: Engine, def: TableDef, container: Filter): Result<Query>
    requires container.All? || container.Any?
    decreases container, 0, |container.filters| + 1
  {
    if container.filters == [] then Err("boolean filter requires at least one child")
    else match CompileChildren(engine, def, container, |container.filters|)
         case Err(message) => Err(message)
         case Ok(clauses) => Ok(BooleanQuery(clauses))
  }

  // Children are wrapped only inside a container that contributes to the score.
  function CompileChildren(engine: Engine, def: TableDef, container: Filter, n: nat): (r: Result<seq<Clause>>)
    requires (container.All? || container.Any?) && n <= |container.filters|
    ensures r.Ok? ==> |r.value| == n
    decreases container, 0, n
  {
    if n == 0 then Ok([])
    else
      match CompileChildren(engine, def, container, n - 1)
      case Err(message) => Err(message)
      case Ok(before) =>
        var child := container.filters[n - 1];
        match (if ContributesScore(container) then CompileNode(engine, def, child) else CompileRaw(engine, def, child))
        case Err(message) => Err(message)
        case Ok(query) => Ok(before + [Clause(OccurOf(container), query)])
  }

  function CompileFilter(engine: Engine, def: TableDef, filter: Option<Filter>): Result<Query> {
    match filter
    case None => Ok(AllQuery)
    case Some(node) => CompileNode(engine, def, node)
  }

  // ----- the compiler for filter aggregations -----

  predicate SupportedKind(kind: SearchKind) {
    kind.Search? || kind.Fuzzy? || kind.Prefix?
  }

  // This compiler has its own copy of the JSON comparison and of every predicate it supports.
  function AggregationJsonComparison(def: TableDef, name: string, path: string, jsonType: JsonType,
                                     operator: Comparison, value: Value): Result<Query>
  {
    match JsonPathTerm(def, name, path, jsonType, value)
    case Err(message) => Err(message)
    case Ok(term) =>
      if jsonType.JsonBool? && operator != Equal && operator != NotEqual then
        Err("JSON bool paths support only equal and not_equal")
      else
        var query := if jsonType.JsonBool? then TermQuery(term.field, term.value)
                     else match operator
                          case Greater => RangeQuery(term.field, Excluded(term.value), Unbounded)
                          case GreaterOrEqual => RangeQuery(term.field, Included(term.value), Unbounded)
                          case Less => RangeQuery(term.field, Unbounded, Excluded(term.value))
                          case LessOrEqual => RangeQuery(term.field, Unbounded, Included(term.value))
                          case _ => RangeQuery(term.field, Included(term.value), Included(term.value));
        Ok(if operator == NotEqual then Negate(query) else query)
  }

  function AggregationLeaf(engine: Engine, def: TableDef, filter: Filter): Result<Query>
    requires !filter.All? && !filter.Any? && !filter.Not?
  {
    match filter
    case Compare(name, operator, value) =>
      var column := QueryableColumn(def, name);
      if column.Err? then Err(column.message) else CompileComparison(def, name, operator, value)
    case Between(name, lower, upper) =>
      var column := QueryableColumn(def, name);
      if column.Err? then Err(column.message)
      else
        var low, high := TermForValue(column.value, lower), TermForValue(column.value, upper);
        if low.Err? then Err(low.message)
        else if high.Err? then Err(high.message)
        else Ok(RangeQuery(ColumnField(column.value.name), Included(low.value), Included(high.value)))
    case In(name, values) =>
      if values == [] then Err("IN filter requires at least one value")
      else
        var column := QueryableColumn(def, name);
        if column.Err? then Err(column.message)
        else
          var terms := Terms(column.value, values);
          if terms.Err? then Err(terms.message) else Ok(TermSetQuery(ColumnField(column.value.name), terms.value))
    case IsNull(name, negated) =>
      var column := QueryableColumn(def, name);
      if column.Err? then Err(column.message)
      else if negated then Ok(ExistsQuery(ColumnField(column.value.name)))
      else Ok(Negate(ExistsQuery(ColumnField(column.value.name))))
    case JsonCompare(name, path, jsonType, operator, value) =>
      AggregationJsonComparison(def, name, path, jsonType, operator, value)
    case JsonBetween(name, path, jsonType, lower, upper) =>
      var low, high := JsonPathTerm(def, name, path, jsonType, lower), JsonPathTerm(def, name, path, jsonType, upper);
      if low.Err? then Err(low.message)
      else if high.Err? then Err(high.message)
      else Ok(RangeQuery(low.value.field, Included(low.value.value), Included(high.value.value)))
    case JsonExists(name, path, negated) =>
      var field := JsonPathField(def, name, path);
      if field.Err? then Err(field.message)
      else if negated then Ok(Negate(ExistsQuery(field.value)))
      else Ok(ExistsQuery(field.value))
    case FullText(kind, _) =>
      if SupportedKind(kind) then RequestQuery(engine, def, filter)
      else Err("this typed filter is not supported inside a filter aggregation")
    case Geo(_, _) => Err("this typed filter is not supported inside a filter aggregation")
  }

  function AggregationNode(engine: Engine, def: TableDef, filter: Filter): Result<Query>
    decreases filter, 1, 0
  {
    match filter
    case All(_) => AggregationBoolean(engine, def, filter)
    case Any(_) => AggregationBoolean(engine, def, filter)
    case Not(inner) =>
      (match AggregationNode(engine, def, inner)
       case Err(message) => Err(message)
       case Ok(query) => Ok(Negate(query)))
    case _ => AggregationLeaf(engine, def, filter)
  }

  function AggregationBoolean(engine: Engine, def: TableDef, container: Filter): Result<Query>
    requires container.All? || container.Any?
    decreases container, 0, |container.filters| + 1
  {
    if container.filters == [] then Err("boolean filter requires at least one child")
    else match AggregationChildren(engine, def, container, |container.filters|)
         case Err(message) => Err(message)
         case Ok(clauses) => Ok(BooleanQuery(clauses))
  }

  function AggregationChildren(engine: Engine, def: TableDef, container: Filter, n: nat): (r: Result<seq<Clause>>)
    requires (container.All? || container.Any?) && n <= |container.filters|
    ensures r.Ok? ==> |r.value| == n
    decreases container, 0, n
  {
    if n == 0 then Ok([])
    else
      match AggregationChildren(engine, def, container, n - 1)
      case Err(message) => Err(message)
      case Ok(before) =>
        match AggregationNode(engine, def, container.filters[n - 1])
        case Err(message) => Err(message)
        case Ok(query) => Ok(before + [Clause(OccurOf(container), query)])
  }

  // ----- leaves keep their meaning -----

  lemma AtMostBoth(a: Value, b: Value)
    ensures AtMost(a, b) && AtMost(b, a) <==> a == b
  {
    if a.Text? && b.Text? { O.StringMirror(a.text, b.text); }
  }

  lemma NegateMatches(engine: Engine, query: Query, doc: Document)
    ensures Matches(engine, Negate(query), doc) <==> !Matches(engine, query, doc)
  {
    var clauses := Negate(query).clauses;
    assert clauses[0].occur.Must? && clauses[1].occur.MustNot? && clauses[1].query == query;
  }

  lemma {:induction false} TermsAreValues(column: ColumnDef, values: seq<Value>)
    ensures Terms(column, values).Ok? ==> Terms(column, values).value == values
  {
    if values != [] {
      var front, last := values[..|values| - 1], values[|values| - 1];
      assert values == front + [last];
      TermsAreValues(column, front);
      assert TermForValue(column, last).Ok? ==> TermForValue(column, last).value == last;
    }
  }

  lemma RangeMeaning(engine: Engine, field: FieldRef, operator: Comparison, term: Value, doc: Document)
    ensures operator != NotEqual ==>
              (Matches(engine, ComparisonRange(field, operator, term), doc) <==>
               Compares(FieldValues(doc, field), operator, term))
    ensures operator == NotEqual ==>
              (Matches(engine, Negate(ComparisonRange(field, operator, term)), doc) <==>
               Compares(FieldValues(doc, field), operator, term))
  {
    forall v { AtMostBoth(term, v); }
    var range := ComparisonRange(field, operator, term);
    forall v
      ensures InBounds(v, range.lower, range.upper) <==>
              (if operator == NotEqual then v == term else Satisfies(v, operator, term))
    {
    }
    NegateMatches(engine, range, doc);
  }

  lemma ComparisonMeaning(engine: Engine, def: TableDef, name: string, operator: Comparison, value: Value,
                          doc: Document)
    requires CompileComparison(def, name, operator, value).Ok?
    ensures Matches(engine, CompileComparison(def, name, operator, value).value, doc) <==>
            Compares(ValuesOf(doc, Canonical(def, name)), operator, value)
  {
    var field := ColumnField(FindColumn(def, name).value.name);
    RangeMeaning(engine, field, operator, value, doc);
    NegateMatches(engine, TermQuery(field, value), doc);
    if operator == Equal { assert value in FieldValues(doc, field) ==> Satisfies(value, Equal, value); }
  }

  lemma JsonComparisonMeaning(engine: Engine, def: TableDef, filter: Filter, doc: Document)
    requires filter.JsonCompare? && CompileLeaf(engine, def, filter).Ok?
    ensures Matches(engine, CompileLeaf(engine, def, filter).value, doc) <==> Denotes(engine, def, filter, doc)
  {
    var field := PathField(FindColumn(def, filter.column).value.name, filter.path);
    RangeMeaning(engine, field, filter.operator, filter.value, doc);
    NegateMatches(engine, TermQuery(field, filter.value), doc);
    if filter.operator == Equal {
      assert filter.value in FieldValues(doc, field) ==> Satisfies(filter.value, Equal, filter.value);
    }
  }

  lemma InMeaning(engine: Engine, def: TableDef, filter: Filter, doc: Document)
    requires filter.In? && CompileLeaf(engine, def, filter).Ok?
    ensures Matches(engine, CompileLeaf(engine, def, filter).value, doc) <==> Denotes(engine, def, filter, doc)
  {
    TermsAreValues(FindColumn(def, filter.column).value, filter.values);
  }

  lemma ColumnLeafMeaning(engine: Engine, def: TableDef, filter: Filter, doc: Document)
    requires (filter.Between? || filter.In? || filter.IsNull?) && CompileLeaf(engine, def, filter).Ok?
    ensures Matches(engine, CompileLeaf(engine, def, filter).value, doc) <==> Denotes(engine, def, filter, doc)
  {
    var column := FindColumn(def, filter.column).value;
    match filter
    case Between(_, lower, upper) => BetweenMeaning(engine, ColumnField(column.name), lower, upper, doc);
    case In(_, _) => InMeaning(engine, def, filter, doc);
    case IsNull(_, _) => NegateMatches(engine, ExistsQuery(ColumnField(column.name)), doc);
  }

  lemma JsonLeafMeaning(engine: Engine, def: TableDef, filter: Filter, doc: Document)
    requires (filter.JsonBetween? || filter.JsonExists?) && CompileLeaf(engine, def, filter).Ok?
    ensures Matches(engine, CompileLeaf(engine, def, filter).value, doc) <==> Denotes(engine, def, filter, doc)
  {
    var field := PathField(FindColumn(def, filter.column).value.name, filter.path);
    match filter
    case JsonBetween(_, _, _, lower, upper) => BetweenMeaning(engine, field, lower, upper, doc);
    case JsonExists(_, _, _) => NegateMatches(engine, ExistsQuery(field), doc);
  }

  /** A compiled leaf matches the documents the leaf denotes. */
  lemma LeafMeaning(engine: Engine, def: TableDef, filter: Filter, doc: Document)
    requires !filter.All? && !filter.Any? && !filter.Not? && CompileLeaf(engine, def, filter).Ok?
    ensures Matches(engine, CompileLeaf(engine, def, filter).value, doc) <==> Denotes(engine, def, filter, doc)
  {
    match filter
    case Compare(name, operator, value) => ComparisonMeaning(engine, def, name, operator, value, doc);
    case JsonCompare(_, _, _, _, _) => JsonComparisonMeaning(engine, def, filter, doc);
    case FullText(_, _) =>
    case Geo(_, _) =>
    case JsonBetween(_, _, _, _, _) => JsonLeafMeaning(engine, def, filter, doc);
    case JsonExists(_, _, _) => JsonLeafMeaning(engine, def, filter, doc);
    case _ => ColumnLeafMeaning(engine, def, filter, doc);
  }

  lemma BetweenMeaning(engine: Engine, field: FieldRef, lower: Value, upper: Value, doc: Document)
    ensures Matches(engine, RangeQuery(field, Included(lower), Included(upper)), doc) <==>
            Within(FieldValues(doc, field), lower, upper)
  {
    forall v ensures InBounds(v, Included(lower), Included(upper)) <==> AtMost(lower, v) && AtMost(v, upper) { }
  }

  // ----- containers -----

  // Clauses of one kind, each with the meaning of the child it stands for.
  ghost predicate Mirror(engine: Engine, def: TableDef, container: Filter, clauses: seq<Clause>, n: nat, doc: Document)
    requires (container.All? || container.Any?) && n <= |container.filters|
  {
    && |clauses| == n
    && forall i :: 0 <= i < n ==>
         && clauses[i].occur == OccurOf(container)
         && (Matches(engine, clauses[i].query, doc) <==> Denotes(engine, def, container.filters[i], doc))
  }

  lemma MirrorSnoc(engine: Engine, def: TableDef, container: Filter, before: seq<Clause>, query: Query, n: nat,
                   doc: Document)
    requires (container.All? || container.Any?) && 0 < n <= |container.filters|
    requires Mirror(engine, def, container, before, n - 1, doc)
    requires Matches(engine, query, doc) <==> Denotes(engine, def, container.filters[n - 1], doc)
    ensures Mirror(engine, def, container, before + [Clause(OccurOf(container), query)], n, doc)
  {
    var clauses := before + [Clause(OccurOf(container), query)];
    forall i | 0 <= i < n
      ensures clauses[i].occur == OccurOf(container)
      ensures Matches(engine, clauses[i].query, doc) <==> Denotes(engine, def, container.filters[i], doc)
    {
      if i < n - 1 { assert clauses[i] == before[i]; }
    }
  }

  lemma MirrorMeaning(engine: Engine, def: TableDef, container: Filter, clauses: seq<Clause>, doc: Document)
    requires (container.All? || container.Any?) && container.filters != []
    requires Mirror(engine, def, container, clauses, |container.filters|, doc)
    ensures Matches(engine, BooleanQuery(clauses), doc) <==> Denotes(engine, def, container, doc)
  {
    assert clauses[0].occur == OccurOf(container);
    forall i | 0 <= i < |clauses| ensures clauses[i].occur == OccurOf(container) { }
  }

  /** The compiled query matches exactly the documents the filter denotes. */
  lemma {:induction false} RawMeaning(engine: Engine, def: TableDef, filter: Filter, doc: Document)
    requires CompileRaw(engine, def, filter).Ok?
    ensures Matches(engine, CompileRaw(engine, def, filter).value, doc) <==> Denotes(engine, def, filter, doc)
    decreases filter, 1, 0
  {
    match filter
    case All(filters) => BooleanMeaning(engine, def, filter, doc);
    case Any(filters) => BooleanMeaning(engine, def, filter, doc);
    case Not(inner) =>
      RawMeaning(engine, def, inner, doc);
      NegateMatches(engine, CompileRaw(engine, def, inner).value, doc);
    case _ => LeafMeaning(engine, def, filter, doc);
  }

  lemma {:induction false} BooleanMeaning(engine: Engine, def: TableDef, container: Filter, doc: Document)
    requires (container.All? || container.Any?) && CompileBoolean(engine, def, container).Ok?
    ensures Matches(engine, CompileBoolean(engine, def, container).value, doc) <==> Denotes(engine, def, container, doc)
    decreases container, 0, |container.filters| + 1
  {
    ChildrenMeaning(engine, def, container, |container.filters|, doc);
    MirrorMeaning(engine, def, container, CompileChildren(engine, def, container, |container.filters|).value, doc);
  }

  lemma ChildCompiles(engine: Engine, def: TableDef, container: Filter, n: nat)
    requires (container.All? || container.Any?) && 0 < n <= |container.filters|
    ensures CompileChildren(engine, def, container, n).Ok? <==>
            CompileChildren(engine, def, container, n - 1).Ok? && CompileRaw(engine, def, container.filters[n - 1]).Ok?
    ensures CompileChildren(engine, def, container, n).Ok? ==>
              CompileChildren(engine, def, container, n).value ==
              CompileChildren(engine, def, container, n - 1).value +
                [Clause(OccurOf(container), ChildQuery(engine, def, container, n - 1))]
  {
  }

  // The query of one child, wrapped or not.
  function ChildQuery(engine: Engine, def: TableDef, container: Filter, i: nat): Query
    requires (container.All? || container.Any?) && i < |container.filters| &&
             CompileRaw(engine, def, container.filters[i]).Ok?
  {
    if ContributesScore(container) then CompileNode(engine, def, container.filters[i]).value
    else CompileRaw(engine, def, container.filters[i]).value
  }

  lemma {:induction false} ChildrenMeaning(engine: Engine, def: TableDef, container: Filter, n: nat, doc: Document)
    requires (container.All? || container.Any?) && n <= |container.filters| &&
             CompileChildren(engine, def, container, n).Ok?
    ensures Mirror(engine, def, container, CompileChildren(engine, def, container, n).value, n, doc)
    decreases container, 0, n
  {
    if n > 0 {
      ChildCompiles(engine, def, container, n);
      ChildrenMeaning(engine, def, container, n - 1, doc);
      RawMeaning(engine, def, container.filters[n - 1], doc);
      ReadChildMirrored(engine, def, container, n, doc);
    }
  }

  lemma ReadChildMirrored(engine: Engine, def: TableDef, container: Filter, n: nat, doc: Document)
    requires (container.All? || container.Any?) && 0 < n <= |container.filters| &&
             CompileChildren(engine, def, container, n).Ok?
    requires CompileChildren(engine, def, container, n - 1).Ok?
    requires Mirror(engine, def, container, CompileChildren(engine, def, container, n - 1).value, n - 1, doc)
    requires var query := CompileRaw(engine, def, container.filters[n - 1]);
             query.Ok? && (Matches(engine, query.value, doc) <==> Denotes(engine, def, container.filters[n - 1], doc))
    ensures Mirror(engine, def, container, CompileChildren(engine, def, container, n).value, n, doc)
  {
    ChildCompiles(engine, def, container, n);
    ChildQueryMatches(engine, def, container, n - 1, doc);
    MirrorSnoc(engine, def, container, CompileChildren(engine, def, container, n - 1).value,
               ChildQuery(engine, def, container, n - 1), n, doc);
  }

  // Wrapping does not change what a child matches.
  lemma ChildQueryMatches(engine: Engine, def: TableDef, container: Filter, i: nat, doc: Document)
    requires (container.All? || container.Any?) && i < |container.filters| &&
             CompileRaw(engine, def, container.filters[i]).Ok?
    ensures Matches(engine, ChildQuery(engine, def, container, i), doc) <==>
            Matches(engine, CompileRaw(engine, def, container.filters[i]).value, doc)
  {
  }

  /** The compiled query of a read, if there is one, matches what the filter denotes. */
  lemma CompiledMeaning(engine: Engine, def: TableDef, filter: Filter, doc: Document)
    requires CompileNode(engine, def, filter).Ok?
    ensures Matches(engine, CompileNode(engine, def, filter).value, doc) <==> Denotes(engine, def, filter, doc)
  {
    RawMeaning(engine, def, filter, doc);
  }

  /** Without a filter every document matches. */
  lemma CompiledFilterMeaning(engine: Engine, def: TableDef, filter: Option<Filter>, doc: Document)
    requires CompileFilter(engine, def, filter).Ok?
    ensures Matches(engine, CompileFilter(engine, def, filter).value, doc) <==>
            filter.None? || Denotes(engine, def, filter.value, doc)
  {
    if filter.Some? { CompiledMeaning(engine, def, filter.value, doc); }
  }

  // ----- scores -----

  /** Whatever the library would score structural queries, the compiled query scores exactly the
      full-text leaves that match. */
  lemma {:induction false} CompiledScore(engine: Engine, raw: RawScore, def: TableDef, filter: Filter, doc: Document)
    requires CompileNode(engine, def, filter).Ok? && Denotes(engine, def, filter, doc)
    ensures QueryScore(engine, raw, CompileNode(engine, def, filter).value, doc) == Score(engine, def, filter, doc)
    decreases filter, 1, 0
  {
    if !ContributesScore(filter) {
      SilentFilter(engine, def, filter, doc);
    } else if filter.All? || filter.Any? {
      assert CompileRaw(engine, def, filter) == CompileBoolean(engine, def, filter);
      ChildrenScore(engine, raw, def, filter, |filter.filters|, doc);
    }
  }

  lemma {:induction false} ChildrenScore(engine: Engine, raw: RawScore, def: TableDef, container: Filter, n: nat,
                                         doc: Document)
    requires (container.All? || container.Any?) && n <= |container.filters| && ContributesScore(container)
    requires CompileChildren(engine, def, container, |container.filters|).Ok?
    ensures var query := BooleanQuery(CompileChildren(engine, def, container, |container.filters|).value);
            SumOfFirst(engine, raw, query, n, doc) == ScoreOfFirst(engine, def, container, n, doc)
    decreases container, 0, n
  {
    if n > 0 {
      var child := container.filters[n - 1];
      ChildrenScore(engine, raw, def, container, n - 1, doc);
      ChildCompiled(engine, def, container, n - 1, |container.filters|);
      var query := CompileNode(engine, def, child).value;
      assert Matches(engine, query, doc) <==> Denotes(engine, def, child, doc) by {
        CompiledMeaning(engine, def, child, doc);
      }
      if Denotes(engine, def, child, doc) { CompiledScore(engine, raw, def, child, doc); }
    }
  }

  lemma {:induction false} ChildCompiled(engine: Engine, def: TableDef, container: Filter, i: nat, n: nat)
    requires (container.All? || container.Any?) && i < n <= |container.filters| &&
             CompileChildren(engine, def, container, n).Ok?
    ensures var child := if ContributesScore(container) then CompileNode(engine, def, container.filters[i])
                         else CompileRaw(engine, def, container.filters[i]);
            child.Ok? && CompileChildren(engine, def, container, n).value[i] == Clause(OccurOf(container), child.value)
    decreases n
  {
    if i < n - 1 { ChildCompiled(engine, def, container, i, n - 1); }
  }

  // ----- both compilers -----

  /** The filters a filter aggregation can compile. */
  ghost predicate Supported(filter: Filter) {
    match filter
    case All(filters) => forall i :: 0 <= i < |filters| ==> Supported(filters[i])
    case Any(filters) => forall i :: 0 <= i < |filters| ==> Supported(filters[i])
    case Not(inner) => Supported(inner)
    case FullText(kind, _) => SupportedKind(kind)
    case Geo(_, _) => false
    case _ => true
  }

  /** Full-text requests other than search, fuzzy and prefix ones are not supported, nor geo filters. */
  lemma UnsupportedLeaves(filter: Filter)
    requires !filter.All? && !filter.Any? && !filter.Not?
    ensures !Supported(filter) <==>
            filter.Geo? || (filter.FullText? && filter.kind in {SearchBoosted, PhrasePrefix, DisjunctionMax, Regex,
                                                                RegexPhrase, JsonSearch})
  {
  }

  /** The two compilers treat a supported predicate alike, also in refusing it. */
  lemma LeavesAgree(engine: Engine, def: TableDef, filter: Filter)
    requires !filter.All? && !filter.Any? && !filter.Not?
    ensures if Supported(filter) then AggregationLeaf(engine, def, filter) == CompileLeaf(engine, def, filter)
            else AggregationLeaf(engine, def, filter).Err?
  {
    if filter.JsonCompare? {
      var term := JsonPathTerm(def, filter.column, filter.path, filter.jsonType, filter.value);
      match filter.operator
      case Equal =>
      case NotEqual =>
      case _ =>
    }
  }

  /** The aggregation compiler succeeds exactly on the supported filters the other one accepts, and
      what it compiles matches the same documents. */
  lemma {:induction false} CompilersAgree(engine: Engine, def: TableDef, filter: Filter, doc: Document)
    ensures AggregationNode(engine, def, filter).Ok? <==> CompileRaw(engine, def, filter).Ok? && Supported(filter)
    ensures AggregationNode(engine, def, filter).Ok? ==>
              (Matches(engine, AggregationNode(engine, def, filter).value, doc) <==> Denotes(engine, def, filter, doc))
    decreases filter, 1, 0
  {
    match filter
    case All(filters) => ContainersAgree(engine, def, filter, doc);
    case Any(filters) => ContainersAgree(engine, def, filter, doc);
    case Not(inner) =>
      CompilersAgree(engine, def, inner, doc);
      if AggregationNode(engine, def, inner).Ok? {
        NegateMatches(engine, AggregationNode(engine, def, inner).value, doc);
      }
    case _ => LeafAgrees(engine, def, filter, doc);
  }

  lemma LeafAgrees(engine: Engine, def: TableDef, filter: Filter, doc: Document)
    requires !filter.All? && !filter.Any? && !filter.Not?
    ensures AggregationLeaf(engine, def, filter).Ok? <==> CompileLeaf(engine, def, filter).Ok? && Supported(filter)
    ensures AggregationLeaf(engine, def, filter).Ok? ==>
              (Matches(engine, AggregationLeaf(engine, def, filter).value, doc) <==> Denotes(engine, def, filter, doc))
  {
    LeavesAgree(engine, def, filter);
    if CompileLeaf(engine, def, filter).Ok? { LeafMeaning(engine, def, filter, doc); }
  }

  lemma {:induction false} ContainersAgree(engine: Engine, def: TableDef, container: Filter, doc: Document)
    requires container.All? || container.Any?
    ensures AggregationBoolean(engine, def, container).Ok? <==>
            CompileBoolean(engine, def, container).Ok? && Supported(container)
    ensures AggregationBoolean(engine, def, container).Ok? ==>
              (Matches(engine, AggregationBoolean(engine, def, container).value, doc) <==>
               Denotes(engine, def, container, doc))
    decreases container, 0, |container.filters| + 1
  {
    var n := |container.filters|;
    ChildrenAgree(engine, def, container, n, doc);
    if container.filters != [] && AggregationChildren(engine, def, container, n).Ok? {
      MirrorMeaning(engine, def, container, AggregationChildren(engine, def, container, n).value, doc);
    }
  }

  lemma NextChild(engine: Engine, def: TableDef, container: Filter, n: nat, doc: Document)
    requires (container.All? || container.Any?) && 0 < n <= |container.filters|
    requires AggregationChildren(engine, def, container, n).Ok?
    ensures AggregationChildren(engine, def, container, n - 1).Ok? &&
            AggregationNode(engine, def, container.filters[n - 1]).Ok?
    ensures AggregationChildren(engine, def, container, n).value ==
            AggregationChildren(engine, def, container, n - 1).value +
            [Clause(OccurOf(container), AggregationNode(engine, def, container.filters[n - 1]).value)]
  {
  }

  lemma {:induction false} ChildrenAgree(engine: Engine, def: TableDef, container: Filter, n: nat, doc: Document)
    requires (container.All? || container.Any?) && n <= |container.filters|
    ensures AggregationChildren(engine, def, container, n).Ok? <==>
            CompileChildren(engine, def, container, n).Ok? && FirstSupported(container, n)
    ensures AggregationChildren(engine, def, container, n).Ok? ==>
              Mirror(engine, def, container, AggregationChildren(engine, def, container, n).value, n, doc)
    decreases container, 0, n
  {
    if n > 0 {
      ChildrenAgree(engine, def, container, n - 1, doc);
      CompilersAgree(engine, def, container.filters[n - 1], doc);
      ChildAgrees(engine, def, container, n);
      if AggregationChildren(engine, def, container, n).Ok? { ChildMirrored(engine, def, container, n, doc); }
    }
  }

  lemma ChildAgrees(engine: Engine, def: TableDef, container: Filter, n: nat)
    requires (container.All? || container.Any?) && 0 < n <= |container.filters|
    requires AggregationChildren(engine, def, container, n - 1).Ok? <==>
             CompileChildren(engine, def, container, n - 1).Ok? && FirstSupported(container, n - 1)
    requires var child := container.filters[n - 1];
             AggregationNode(engine, def, child).Ok? <==> CompileRaw(engine, def, child).Ok? && Supported(child)
    ensures AggregationChildren(engine, def, container, n).Ok? <==>
            CompileChildren(engine, def, container, n).Ok? && FirstSupported(container, n)
  {
    ChildCompiles(engine, def, container, n);
    FirstSupportedSnoc(container, n);
  }

  lemma ChildMirrored(engine: Engine, def: TableDef, container: Filter, n: nat, doc: Document)
    requires (container.All? || container.Any?) && 0 < n <= |container.filters|
    requires AggregationChildren(engine, def, container, n - 1).Ok? &&
             AggregationChildren(engine, def, container, n).Ok?
    requires Mirror(engine, def, container, AggregationChildren(engine, def, container, n - 1).value, n - 1, doc)
    requires var query := AggregationNode(engine, def, container.filters[n - 1]);
             query.Ok? ==> (Matches(engine, query.value, doc) <==> Denotes(engine, def, container.filters[n - 1], doc))
    ensures Mirror(engine, def, container, AggregationChildren(engine, def, container, n).value, n, doc)
  {
    NextChild(engine, def, container, n, doc);
    MirrorSnoc(engine, def, container, AggregationChildren(engine, def, container, n - 1).value,
               AggregationNode(engine, def, container.filters[n - 1]).value, n, doc);
  }

  ghost predicate FirstSupported(container: Filter, n: nat)
    requires (container.All? || container.Any?) && n <= |container.filters|
  {
    forall i :: 0 <= i < n ==> Supported(container.filters[i])
  }

  lemma FirstSupportedSnoc(container: Filter, n: nat)
    requires (container.All? || container.Any?) && 0 < n <= |container.filters|
    ensures FirstSupported(container, n) <==> FirstSupported(container, n - 1) && Supported(container.filters[n - 1])
  {
  }

  /** Whenever a filter compiles inside an aggregation it compiles as a read, with the same matches. */
  lemma SameMatches(engine: Engine, def: TableDef, filter: Filter, doc: Document)
    requires AggregationNode(engine, def, filter).Ok?
    ensures CompileNode(engine, def, filter).Ok?
    ensures Matches(engine, AggregationNode(engine, def, filter).value, doc) <==>
            Matches(engine, CompileNode(engine, def, filter).value, doc)
  {
    CompilersAgree(engine, def, filter, doc);
    CompiledMeaning(engine, def, filter, doc);
  }
}
