/** The typed filter model and what a filter denotes. */
module Filters {
  import opened Wrappers
  import O = Ordering

  // A scalar a filter compares with, and the scalars a document holds.
  datatype Value = NullValue | Number(number: int) | Truth(truth: bool) | Text(text: string)

  predicate Below(a: Value, b: Value) {
    match (a, b)
    case (Number(x), Number(y)) => x < y
    case (Truth(x), Truth(y)) => !x && y
    case (Text(x), Text(y)) => O.CompareString(x, y).Less?
    case _ => false
  }

  predicate AtMost(a: Value, b: Value) {
    a == b || Below(a, b)
  }

  datatype Comparison = Equal | NotEqual | Greater | GreaterOrEqual | Less | LessOrEqual

  // Full-text leaves, which add to the score.
  datatype SearchKind =
    | Search | SearchBoosted | Fuzzy | Prefix | PhrasePrefix | DisjunctionMax | Regex | RegexPhrase | JsonSearch

  datatype GeoKind = GeoDistance | GeoBoundingBox | GeoDistanceCompare

  datatype JsonType = JsonSigned | JsonUnsigned | JsonText | JsonBool

  datatype Filter =
    | Compare(column: string, operator: Comparison, value: Value)
    | Between(column: string, lower: Value, upper: Value)
    | In(column: string, values: seq<Value>)
    | IsNull(column: string, negated: bool)
    | FullText(kind: SearchKind, request: nat)
    | JsonCompare(column: string, path: string, jsonType: JsonType, operator: Comparison, value: Value)
    | JsonBetween(column: string, path: string, jsonType: JsonType, lower: Value, upper: Value)
    | JsonExists(column: string, path: string, negated: bool)
    | Geo(geo: GeoKind, area: nat)
    | All(filters: seq<Filter>)
    | Any(filters: seq<Filter>)
    | Not(filter: Filter)

  // The range of the 64-bit integers of a column or path.
  predicate Signed64(n: int) {
    -0x8000_0000_0000_0000 <= n < 0x8000_0000_0000_0000
  }

  predicate Unsigned64(n: int) {
    0 <= n < 0x1_0000_0000_0000_0000
  }

  // The values each column, and each JSON path, holds in one document; an absent column is null.
  datatype Document = Document(id: nat, values: map<string, set<Value>>, json: map<(string, string), set<Value>>)

  datatype ColumnType = Integer | Unsigned | Boolean | Str | Json | GeoPoint

  datatype ColumnDef = ColumnDef(name: string, dataType: ColumnType, indexed: bool, nullable: bool)

  type TableDef = seq<ColumnDef>

  /** What the search library contributes: which full-text and geo requests it accepts, what they
      match, and the relevance of a full-text match. */
  datatype Engine = Engine(
    accepts: (Filter, TableDef) -> bool,
    hits: (Filter, Document) -> bool,
    relevance: (Filter, Document) -> real)

  // ----- names -----

  function LowerChar(c: char): char {
    if 'A' <= c <= 'Z' then (c as int + 32) as char else c
  }

  function Lower(name: string): (lower: string)
    ensures |lower| == |name|
  {
    seq(|name|, i requires 0 <= i < |name| => LowerChar(name[i]))
  }

  predicate SameName(a: string, b: string) {
    Lower(a) == Lower(b)
  }

  // The first column of that name, ignoring ASCII case.
  function FindColumn(def: TableDef, name: string): Result<ColumnDef> {
    if def == [] then Err("unknown column")
    else if SameName(def[0].name, name) then Ok(def[0])
    else FindColumn(def[1..], name)
  }

  // The same character, or one ASCII letter in both cases.
  predicate SameLetter(a: char, b: char) {
    a == b || ('A' <= a <= 'Z' && b as int == a as int + 32) || ('A' <= b <= 'Z' && a as int == b as int + 32)
  }

  /** Names are the same if they differ at most in the case of ASCII letters. */
  lemma SameNameIff(a: string, b: string)
    ensures SameName(a, b) <==> |a| == |b| && forall i :: 0 <= i < |a| ==> SameLetter(a[i], b[i])
  {
    if |a| == |b| {
      forall i | 0 <= i < |a| ensures Lower(a)[i] == Lower(b)[i] <==> SameLetter(a[i], b[i]) { }
    }
  }

  // The first column of that name.
  ghost predicate ColumnAt(def: TableDef, k: nat, name: string) {
    && k < |def| && SameName(def[k].name, name)
    && forall j :: 0 <= j < k ==> !SameName(def[j].name, name)
  }

  lemma {:induction false} ColumnFound(def: TableDef, k: nat, name: string)
    requires ColumnAt(def, k, name)
    ensures FindColumn(def, name) == Ok(def[k])
  {
    if k > 0 {
      assert !SameName(def[0].name, name);
      forall j | 0 <= j < k - 1 ensures !SameName(def[1..][j].name, name) { assert !SameName(def[j + 1].name, name); }
      ColumnFound(def[1..], k - 1, name);
    }
  }

  lemma {:induction false} FoundColumn(def: TableDef, name: string) returns (k: nat)
    requires FindColumn(def, name).Ok?
    ensures ColumnAt(def, k, name)
  {
    if SameName(def[0].name, name) {
      k := 0;
    } else {
      var rest := FoundColumn(def[1..], name);
      k := rest + 1;
      forall j | 0 <= j < k ensures !SameName(def[j].name, name) {
        if j > 0 { assert !SameName(def[1..][j - 1].name, name); }
      }
    }
  }

  // The name a column has in the documents.
  function Canonical(def: TableDef, name: string): string {
    match FindColumn(def, name)
    case Ok(column) => column.name
    case Err(_) => name
  }

  function ValuesOf(doc: Document, column: string): set<Value> {
    if column in doc.values then doc.values[column] else {}
  }

  function JsonValues(doc: Document, column: string, path: string): set<Value> {
    if (column, path) in doc.json then doc.json[(column, path)] else {}
  }

  // ----- meaning -----

  predicate Satisfies(v: Value, operator: Comparison, value: Value) {
    match operator
    case Equal => v == value
    case NotEqual => v != value
    case Greater => Below(value, v)
    case GreaterOrEqual => AtMost(value, v)
    case Less => Below(v, value)
    case LessOrEqual => AtMost(v, value)
  }

  // Some value satisfies the comparison; for inequality, no value is equal.
  ghost predicate Compares(values: set<Value>, operator: Comparison, value: Value) {
    if operator == NotEqual then value !in values else exists v :: v in values && Satisfies(v, operator, value)
  }

  ghost predicate Within(values: set<Value>, lower: Value, upper: Value) {
    exists v :: v in values && AtMost(lower, v) && AtMost(v, upper)
  }

  /** The documents a filter denotes. */
  ghost predicate Denotes(engine: Engine, def: TableDef, filter: Filter, doc: Document) {
    match filter
    case Compare(column, operator, value) => Compares(ValuesOf(doc, Canonical(def, column)), operator, value)
    case Between(column, lower, upper) => Within(ValuesOf(doc, Canonical(def, column)), lower, upper)
    case In(column, values) => exists v :: v in values && v in ValuesOf(doc, Canonical(def, column))
    case IsNull(column, negated) => negated <==> ValuesOf(doc, Canonical(def, column)) != {}
    case FullText(_, _) => engine.hits(filter, doc)
    case JsonCompare(column, path, _, operator, value) => Compares(JsonValues(doc, Canonical(def, column), path),
                                                                   operator, value)
    case JsonBetween(column, path, _, lower, upper) => Within(JsonValues(doc, Canonical(def, column), path), lower,
                                                              upper)
    case JsonExists(column, path, negated) => negated <==> JsonValues(doc, Canonical(def, column), path) == {}
    case Geo(_, _) => engine.hits(filter, doc)
    case All(filters) => forall i :: 0 <= i < |filters| ==> Denotes(engine, def, filters[i], doc)
    case Any(filters) => exists i :: 0 <= i < |filters| && Denotes(engine, def, filters[i], doc)
    case Not(inner) => !Denotes(engine, def, inner, doc)
  }

  /** The score a filter gives a document: the relevance of every full-text leaf that matches and is
      not below `Not` or in a container that does not match. */
  ghost function Score(engine: Engine, def: TableDef, filter: Filter, doc: Document): real
    decreases filter, 1, 0
  {
    if !Denotes(engine, def, filter, doc) then 0.0
    else match filter
         case FullText(_, _) => engine.relevance(filter, doc)
         case All(filters) => ScoreOfFirst(engine, def, filter, |filters|, doc)
         case Any(filters) => ScoreOfFirst(engine, def, filter, |filters|, doc)
         case _ => 0.0
  }

  ghost function ScoreOfFirst(engine: Engine, def: TableDef, container: Filter, n: nat, doc: Document): real
    requires (container.All? || container.Any?) && n <= |container.filters|
    decreases container, 0, n
  {
    if n == 0 then 0.0
    else ScoreOfFirst(engine, def, container, n - 1, doc) + Score(engine, def, container.filters[n - 1], doc)
  }

  predicate ContributesScore(filter: Filter) {
    match filter
    case FullText(_, _) => true
    case All(filters) => exists i :: 0 <= i < |filters| && ContributesScore(filters[i])
    case Any(filters) => exists i :: 0 <= i < |filters| && ContributesScore(filters[i])
    case _ => false
  }

  /** A filter that contributes no score scores nothing. */
  lemma {:induction false} SilentFilter(engine: Engine, def: TableDef, filter: Filter, doc: Document)
    requires !ContributesScore(filter)
    ensures Score(engine, def, filter, doc) == 0.0
    decreases filter, 1, 0
  {
    if filter.All? || filter.Any? { SilentContainer(engine, def, filter, |filter.filters|, doc); }
  }

  lemma {:induction false} SilentContainer(engine: Engine, def: TableDef, container: Filter, n: nat, doc: Document)
    requires (container.All? || container.Any?) && n <= |container.filters| && !ContributesScore(container)
    ensures ScoreOfFirst(engine, def, container, n, doc) == 0.0
    decreases container, 0, n
  {
    if n > 0 {
      SilentContainer(engine, def, container, n - 1, doc);
      assert !ContributesScore(container.filters[n - 1]);
      SilentFilter(engine, def, container.filters[n - 1], doc);
    }
  }
}
