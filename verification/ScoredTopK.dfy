/** Top-K by score and by columns whose values are dictionary ordinals inside a segment: each segment
    prunes by its own ordinals, and the merge compares the values they stand for. */
module ScoredTopK {
  import opened Wrappers
  import opened Ordering
  import opened Sorting
  import opened TopKBuffers
  import opened HitOrder
  import opened RangeCollection
  import opened TopKRead

  // A column value as the merge sees it.
  datatype OwnedValue = Null | I64(int) | U64(int) | F64(real) | Boolean(bool) | Str(string) | IpAddr(int)

  const SIGN: nat := 0x8000_0000_0000_0000
  const U64_END: nat := 0x1_0000_0000_0000_0000
  const U128_END: nat := 0x1_0000_0000_0000_0000_0000_0000_0000_0000

  /** How a segment stores one column: order-preserving images of the values, 128-bit ones for addresses
      and 64-bit ones for the others, or positions in the segment's own dictionary. */
  datatype Reader =
    | Integers
    | Unsigneds
    | Booleans
    | Ips                                    // 128-bit addresses
    | Images(decode: nat -> real)            // floating-point numbers, dates and geo distances
    | Dictionary(terms: seq<string>)         // text and bytes

  // What a document stores in one segment: nothing or such an image.
  type Stored = nat -> Option<int>

  datatype Field = Score(ascending: bool) | Fast(ascending: bool, column: nat)

  /** One segment: the matching documents, their scores, and for each column its reader and values. */
  datatype ScoredSegment = ScoredSegment(
    matches: SegmentMatches,
    score: nat -> real,
    readers: seq<Reader>,
    stored: seq<Stored>)

  // The value a stored number stands for.
  function GlobalValue(reader: Reader, value: Option<int>): OwnedValue {
    match value
    case None => Null
    case Some(v) =>
      match reader
      case Integers => I64(v - SIGN)
      case Unsigneds => U64(v)
      case Booleans => Boolean(v == 1)
      case Ips => IpAddr(v)
      case Images(decode) => if v >= 0 then F64(decode(v)) else Null
      case Dictionary(terms) => if 0 <= v < |terms| then Str(terms[v]) else Null
  }

  function Kind(value: OwnedValue): nat {
    match value
    case Null => 0
    case I64(_) => 1
    case U64(_) => 2
    case F64(_) => 3
    case Boolean(_) => 4
    case Str(_) => 5
    case IpAddr(_) => 6
  }

  function ReaderKind(reader: Reader): nat {
    match reader
    case Integers => 1
    case Unsigneds => 2
    case Images(_) => 3
    case Booleans => 4
    case Dictionary(_) => 5
    case Ips => 6
  }

  // Null is greatest; the values of one column are of one kind.
  function OwnedValueOrder(a: OwnedValue, b: OwnedValue): Ordering {
    match (a, b)
    case (Null, Null) => Equal
    case (Null, _) => Greater
    case (_, Null) => Less
    case (I64(x), I64(y)) => CompareInt(x, y)
    case (U64(x), U64(y)) => CompareInt(x, y)
    case (F64(x), F64(y)) => CompareReal(x, y)
    case (Boolean(x), Boolean(y)) => CompareBool(x, y)
    case (Str(x), Str(y)) => CompareString(x, y)
    case (IpAddr(x), IpAddr(y)) => CompareInt(x, y)
    case _ => CompareInt(Kind(a), Kind(b))
  }

  // ----- what the readers promise -----

  ghost predicate SortedDictionary(terms: seq<string>) {
    forall i, j :: 0 <= i < j < |terms| ==> CompareString(terms[i], terms[j]).Less?
  }

  ghost predicate FaithfulReader(reader: Reader) {
    match reader
    case Images(decode) => forall x: nat, y: nat :: x < y ==> decode(x) < decode(y)
    case Dictionary(terms) => SortedDictionary(terms)
    case _ => true
  }

  predicate Storable(reader: Reader, value: Option<int>) {
    match value
    case None => true
    case Some(v) =>
      && 0 <= v < (if reader.Ips? then U128_END else U64_END)
      && (reader.Booleans? ==> v <= 1) && (reader.Dictionary? ==> v < |reader.terms|)
  }

  ghost predicate Faithful(segment: ScoredSegment) {
    && WellFormed(segment.matches) && |segment.stored| == |segment.readers|
    && forall c :: 0 <= c < |segment.readers| ==>
         FaithfulReader(segment.readers[c]) && forall doc: nat :: Storable(segment.readers[c], segment.stored[c](doc))
  }

  // Every segment stores a column in the same kind.
  ghost predicate Uniform(segments: seq<ScoredSegment>, columns: nat) {
    && (forall s :: 0 <= s < |segments| ==> Faithful(segments[s]) && |segments[s].readers| == columns)
    && forall s, t, c :: 0 <= s < |segments| && 0 <= t < |segments| && 0 <= c < columns ==>
         ReaderKind(segments[s].readers[c]) == ReaderKind(segments[t].readers[c])
  }

  ghost predicate Fields(fields: seq<Field>, columns: nat) {
    forall i :: 0 <= i < |fields| && fields[i].Fast? ==> fields[i].column < columns
  }

  // ----- both orders -----

  function LocalValue(segment: ScoredSegment, column: nat): Address -> Option<int>
    requires column < |segment.stored|
  {
    (address: Address) => segment.stored[column](address.doc)
  }

  /** The order inside one segment: scores, and stored numbers with missing ones greatest. */
  function LocalColumn(segment: ScoredSegment, field: Field): Column
    requires field.Fast? ==> field.column < |segment.stored|
  {
    if field.Score? then ValueColumn((address: Address) => segment.score(address.doc), CompareReal, field.ascending)
    else ValueColumn(LocalValue(segment, field.column), CompareOptional(CompareInt), field.ascending)
  }

  function Materialize(segments: seq<ScoredSegment>, field: Field, address: Address): OwnedValue {
    if address.segment >= |segments| then Null
    else
      var segment := segments[address.segment];
      if field.Score? then F64(segment.score(address.doc))
      else if field.column < |segment.readers| && field.column < |segment.stored|
           then GlobalValue(segment.readers[field.column], segment.stored[field.column](address.doc))
      else Null
  }

  /** The order of the merge: the values themselves. */
  function GlobalColumn(segments: seq<ScoredSegment>, field: Field): Column {
    ValueColumn(address => Materialize(segments, field, address), OwnedValueOrder, field.ascending)
  }

  function LocalColumns(segment: ScoredSegment, fields: seq<Field>): (columns: seq<Column>)
    requires forall i :: 0 <= i < |fields| && fields[i].Fast? ==> fields[i].column < |segment.stored|
    ensures |columns| == |fields|
  {
    seq(|fields|, i requires 0 <= i < |fields| => LocalColumn(segment, fields[i]))
  }

  function GlobalColumns(segments: seq<ScoredSegment>, fields: seq<Field>): (columns: seq<Column>)
    ensures |columns| == |fields|
  {
    seq(|fields|, i requires 0 <= i < |fields| => GlobalColumn(segments, fields[i]))
  }

  lemma RealsOrdered()
    ensures TotalPreorder(CompareReal)
  {
  }

  lemma LocalComparable(segment: ScoredSegment, fields: seq<Field>)
    requires forall i :: 0 <= i < |fields| && fields[i].Fast? ==> fields[i].column < |segment.stored|
    ensures Comparable(LocalColumns(segment, fields))
  {
    RealsOrdered();
    IntsOrdered();
    OptionalOrdered(CompareInt);
    forall i | 0 <= i < |fields| ensures TotalPreorder(LocalColumns(segment, fields)[i]) {
      if fields[i].Score? {
        ValueColumnOrdered((address: Address) => segment.score(address.doc), CompareReal, fields[i].ascending);
      } else {
        ValueColumnOrdered(LocalValue(segment, fields[i].column), CompareOptional(CompareInt), fields[i].ascending);
      }
    }
  }

  // ----- ordinals stand for values -----

  /** Inside one segment, comparing stored numbers is comparing the values they stand for. */
  lemma StoredLikeValue(reader: Reader, a: Option<int>, b: Option<int>)
    requires FaithfulReader(reader) && Storable(reader, a) && Storable(reader, b)
    ensures CompareOptional(CompareInt)(a, b) == OwnedValueOrder(GlobalValue(reader, a), GlobalValue(reader, b))
  {
    if a.Some? && b.Some? {
      match reader
      case Dictionary(terms) =>
        StringMirror(terms[a.value], terms[b.value]);
        assert CompareString(terms[a.value], terms[b.value]) == CompareInt(a.value, b.value);
      case Images(decode) => assert CompareReal(decode(a.value), decode(b.value)) == CompareInt(a.value, b.value);
      case Integers => assert CompareInt(a.value - SIGN, b.value - SIGN) == CompareInt(a.value, b.value);
      case Ips => assert GlobalValue(reader, a) == IpAddr(a.value) && GlobalValue(reader, b) == IpAddr(b.value);
      case Unsigneds => assert GlobalValue(reader, a) == U64(a.value) && GlobalValue(reader, b) == U64(b.value);
      case Booleans => assert CompareBool(a.value == 1, b.value == 1) == CompareInt(a.value, b.value);
    }
  }

  lemma GlobalColumnCompares(segments: seq<ScoredSegment>, field: Field, a: Address, b: Address)
    ensures GlobalColumn(segments, field)(a, b) ==
            OwnedValueOrder(Materialize(segments, field, a), Materialize(segments, field, b)).Directed(field.ascending)
  {
    var value := address => Materialize(segments, field, address);
    assert ValueColumn(value, OwnedValueOrder, field.ascending)(a, b) ==
           OwnedValueOrder(value(a), value(b)).Directed(field.ascending);
  }

  lemma LocalLikeGlobal(segments: seq<ScoredSegment>, field: Field, a: Address, b: Address, s: nat)
    requires s < |segments| && Faithful(segments[s]) && a.segment == b.segment == s
    requires field.Fast? ==> field.column < |segments[s].readers|
    ensures LocalColumn(segments[s], field)(a, b) == GlobalColumn(segments, field)(a, b)
  {
    GlobalColumnCompares(segments, field, a, b);
    if field.Fast? {
      var c := field.column;
      StoredLikeValue(segments[s].readers[c], segments[s].stored[c](a.doc), segments[s].stored[c](b.doc));
    }
  }

  /** So the local order and the global order agree on the documents of a segment. */
  lemma OrdersAgree(segments: seq<ScoredSegment>, fields: seq<Field>, a: Address, b: Address, s: nat)
    requires s < |segments| && Faithful(segments[s]) && a.segment == b.segment == s
    requires Fields(fields, |segments[s].readers|)
    ensures HitLess(LocalColumns(segments[s], fields))(a, b) == HitLess(GlobalColumns(segments, fields))(a, b)
  {
    var left, right := LocalColumns(segments[s], fields), GlobalColumns(segments, fields);
    forall i | 0 <= i < |left| ensures left[i](a, b) == right[i](a, b) {
      LocalLikeGlobal(segments, fields[i], a, b, s);
    }
    ColumnsAgree(a, b, left, right);
  }

  // ----- the merge order -----

  lemma OwnedMirror(a: OwnedValue, b: OwnedValue)
    ensures OwnedValueOrder(a, b) == OwnedValueOrder(b, a).Reverse()
  {
    if a.Str? && b.Str? { match (a, b) case (Str(x), Str(y)) => StringMirror(x, y); }
  }

  lemma OwnedChain(a: OwnedValue, b: OwnedValue, c: OwnedValue)
    requires !OwnedValueOrder(a, b).Greater? && !OwnedValueOrder(b, c).Greater?
    ensures !OwnedValueOrder(a, c).Greater?
  {
    match (a, b, c)
    case (Str(x), Str(y), Str(z)) => StringChain(x, y, z);
    case _ =>
  }

  lemma GlobalComparable(segments: seq<ScoredSegment>, fields: seq<Field>)
    ensures Comparable(GlobalColumns(segments, fields))
  {
    forall a, b ensures OwnedValueOrder(a, b) == OwnedValueOrder(b, a).Reverse() { OwnedMirror(a, b); }
    forall a, b, c | !OwnedValueOrder(a, b).Greater? && !OwnedValueOrder(b, c).Greater?
      ensures !OwnedValueOrder(a, c).Greater?
    {
      OwnedChain(a, b, c);
    }
    forall i | 0 <= i < |fields| ensures TotalPreorder(GlobalColumns(segments, fields)[i]) {
      ValueColumnOrdered(address => Materialize(segments, fields[i], address), OwnedValueOrder, fields[i].ascending);
    }
  }

  /** A missing value comes last in ascending and first in descending order. */
  lemma MissingPlacement(segments: seq<ScoredSegment>, field: Field, present: Address, missing: Address)
    requires !Materialize(segments, field, present).Null? && Materialize(segments, field, missing).Null?
    ensures GlobalColumn(segments, field)(present, missing) == if field.ascending then Less else Greater
  {
    GlobalColumnCompares(segments, field, present, missing);
  }

  // ----- collection -----

  predicate Passes(segments: seq<ScoredSegment>, minScore: Option<real>, address: Address) {
    address.segment < |segments| && (minScore.None? || segments[address.segment].score(address.doc) >= minScore.value)
  }

  function Passing(segments: seq<ScoredSegment>, minScore: Option<real>, addresses: seq<Address>): seq<Address> {
    if addresses == [] then []
    else
      var last := addresses[|addresses| - 1];
      var before := Passing(segments, minScore, addresses[..|addresses| - 1]);
      if Passes(segments, minScore, last) then before + [last] else before
  }

  lemma {:induction false} PassingAppend(segments: seq<ScoredSegment>, minScore: Option<real>, a: seq<Address>,
                                         b: seq<Address>)
    ensures Passing(segments, minScore, a + b) == Passing(segments, minScore, a) + Passing(segments, minScore, b)
  {
    if b == [] {
      assert a + b == a;
    } else {
      PassingAppend(segments, minScore, a, b[..|b| - 1]);
      assert (a + b)[..|a + b| - 1] == a + b[..|b| - 1];
    }
  }

  lemma {:induction false} PassingMembers(segments: seq<ScoredSegment>, minScore: Option<real>, addresses: seq<Address>,
                                          x: Address)
    ensures x in Passing(segments, minScore, addresses) ==> x in addresses
  {
    if addresses != [] { PassingMembers(segments, minScore, addresses[..|addresses| - 1], x); }
  }

  lemma {:induction false} PassingOnce(segments: seq<ScoredSegment>, minScore: Option<real>, addresses: seq<Address>,
                                       a: Address)
    ensures multiset(Passing(segments, minScore, addresses))[a] ==
            if Passes(segments, minScore, a) then multiset(addresses)[a] else 0
  {
    if addresses != [] {
      var front, last := addresses[..|addresses| - 1], addresses[|addresses| - 1];
      PassingOnce(segments, minScore, front, a);
      assert addresses == front + [last];
    }
  }

  /** What a scored read is about: the documents that match, are not deleted and reach the minimum score. */
  ghost function ScoredHits(segments: seq<ScoredSegment>, minScore: Option<real>): set<Address> {
    set s, doc | 0 <= s < |segments| && doc in segments[s].matches.matching && doc in segments[s].matches.alive &&
                 (minScore.Some? ==> segments[s].score(doc) >= minScore.value) :: Address(s, doc)
  }

  /** Those documents are collected, each once, and no others. */
  lemma HitsAreCollected(segments: seq<ScoredSegment>, minScore: Option<real>)
    requires forall s :: 0 <= s < |segments| ==> WellFormed(segments[s].matches)
    ensures multiset(Passing(segments, minScore, AllLive(Matches(segments)))) ==
            multiset(ScoredHits(segments, minScore))
    ensures |Passing(segments, minScore, AllLive(Matches(segments)))| == |ScoredHits(segments, minScore)|
  {
    var passing, hits := Passing(segments, minScore, AllLive(Matches(segments))), ScoredHits(segments, minScore);
    forall a ensures multiset(passing)[a] == multiset(hits)[a] {
      PassingOnce(segments, minScore, AllLive(Matches(segments)), a);
      AllLiveOnce(Matches(segments), a);
      assert a == Address(a.segment, a.doc);
    }
    assert |passing| == |multiset(passing)| && |hits| == |multiset(hits)|;
  }

  /** Two documents in score order, best or worst first. */
  lemma ScorePlacement(segments: seq<ScoredSegment>, field: Field, a: Address, b: Address)
    requires field.Score? && a.segment < |segments| && b.segment < |segments|
    ensures var left, right := segments[a.segment].score(a.doc), segments[b.segment].score(b.doc);
            GlobalColumn(segments, field)(a, b).Less? <==> if field.ascending then left < right else left > right
  {
    GlobalColumnCompares(segments, field, a, b);
  }

  function Matches(segments: seq<ScoredSegment>): (matches: seq<SegmentMatches>)
    ensures |matches| == |segments|
  {
    seq(|segments|, i requires 0 <= i < |segments| => segments[i].matches)
  }

  function SegmentDocs(segments: seq<ScoredSegment>, s: nat): seq<Address>
    requires s < |segments|
  {
    var matches := segments[s].matches;
    Addresses(s, Live(matches.matching, matches.alive, 0, matches.maxDoc))
  }

  /** One segment: hits below the minimum score are skipped, the best are kept by the local order. */
  method CollectSegment(segments: seq<ScoredSegment>, s: nat, fields: seq<Field>, minScore: Option<real>, topN: nat)
    returns (fruit: seq<Address>)
    requires s < |segments| && Faithful(segments[s]) && Fields(fields, |segments[s].readers|) && Allocatable(topN, 10)
    ensures HoldsTop(topN, Passing(segments, minScore, SegmentDocs(segments, s)), fruit,
                     HitLess(LocalColumns(segments[s], fields)))
    ensures HoldsTop(topN, Passing(segments, minScore, SegmentDocs(segments, s)), fruit,
                     HitLess(GlobalColumns(segments, fields)))
  {
    var less := HitLess(LocalColumns(segments[s], fields));
    LocalComparable(segments[s], fields);
    HitsAreOrdered(LocalColumns(segments[s], fields));
    fruit := CollectHits(segments, s, minScore, topN, less);
    SegmentSound(segments, s, fields, minScore, fruit, topN);
  }

  // A hit below the minimum score is skipped.
  method CollectHit(segments: seq<ScoredSegment>, s: nat, minScore: Option<real>, doc: nat,
                    buffer: BufferedTopK<Address>)
    requires s < |segments| && buffer.Valid()
    modifies buffer
    ensures buffer.Valid()
    ensures buffer.seen ==
            old(buffer.seen) + if Passes(segments, minScore, Address(s, doc)) then [Address(s, doc)] else []
  {
    if minScore.None? || segments[s].score(doc) >= minScore.value { buffer.Push(Address(s, doc)); }
  }

  method CollectHits(segments: seq<ScoredSegment>, s: nat, minScore: Option<real>, topN: nat,
                     less: (Address, Address) -> bool)
    returns (fruit: seq<Address>)
    requires s < |segments| && WellFormed(segments[s].matches) && StrictTotalOrder(less) && Allocatable(topN, 10)
    ensures HoldsTop(topN, Passing(segments, minScore, SegmentDocs(segments, s)), fruit, less)
  {
    var matching, alive, end := segments[s].matches.matching, segments[s].matches.alive, segments[s].matches.maxDoc;
    var buffer := new BufferedTopK<Address>(topN, less, SaturatingMul(AtLeastOne(topN), 10));
    for i := 0 to |matching|
      invariant buffer.Valid()
      invariant buffer.seen == Passing(segments, minScore, Addresses(s, LiveFirst(matching, alive, 0, end, i)))
    {
      var doc := matching[i];
      OneMoreMatch(segments, s, minScore, i);
      if doc in alive { CollectHit(segments, s, minScore, doc, buffer); }
    }
    fruit := buffer.Finish();
  }

  lemma OneMoreMatch(segments: seq<ScoredSegment>, s: nat, minScore: Option<real>, i: nat)
    requires s < |segments| && WellFormed(segments[s].matches) && i < |segments[s].matches.matching|
    ensures var m := segments[s].matches;
            var before := Passing(segments, minScore, Addresses(s, LiveFirst(m.matching, m.alive, 0, m.maxDoc, i)));
            var after := Passing(segments, minScore, Addresses(s, LiveFirst(m.matching, m.alive, 0, m.maxDoc, i + 1)));
            var doc := m.matching[i];
            after == if doc in m.alive && Passes(segments, minScore, Address(s, doc)) then before + [Address(s, doc)]
                     else before
  {
    var m := segments[s].matches;
    var doc := m.matching[i];
    var docs := LiveFirst(m.matching, m.alive, 0, m.maxDoc, i);
    assert doc < m.maxDoc by { assert doc in m.matching; }
    assert LiveFirst(m.matching, m.alive, 0, m.maxDoc, i + 1) == if doc in m.alive then docs + [doc] else docs;
    OneMoreDoc(segments, s, minScore, docs, doc);
  }

  lemma OneMoreDoc(segments: seq<ScoredSegment>, s: nat, minScore: Option<real>, docs: seq<nat>, doc: nat)
    ensures var before := Passing(segments, minScore, Addresses(s, docs));
            Passing(segments, minScore, Addresses(s, docs + [doc])) ==
            if Passes(segments, minScore, Address(s, doc)) then before + [Address(s, doc)] else before
  {
    var longer := Addresses(s, docs + [doc]);
    assert longer[..|longer| - 1] == Addresses(s, docs);
  }

  /** Pruning by ordinals keeps the top hits by value. */
  lemma PruningIsSound(segments: seq<ScoredSegment>, s: nat, fields: seq<Field>, docs: seq<Address>,
                       fruit: seq<Address>, topN: nat)
    requires s < |segments| && Faithful(segments[s]) && Fields(fields, |segments[s].readers|)
    requires forall x :: x in docs ==> x.segment == s
    requires HoldsTop(topN, docs, fruit, HitLess(LocalColumns(segments[s], fields)))
    ensures HoldsTop(topN, docs, fruit, HitLess(GlobalColumns(segments, fields)))
  {
    var less, global := HitLess(LocalColumns(segments[s], fields)), HitLess(GlobalColumns(segments, fields));
    LocalComparable(segments[s], fields);
    HitsAreOrdered(LocalColumns(segments[s], fields));
    GlobalComparable(segments, fields);
    HitsAreOrdered(GlobalColumns(segments, fields));
    forall x | x in fruit ensures x in docs {
      SortMembers(fruit, less, x);
      SortMembers(docs, less, x);
    }
    forall x, y | x in docs && y in docs ensures less(x, y) <==> global(x, y) {
      OrdersAgree(segments, fields, x, y, s);
    }
    SortCongruent(docs, less, global);
    SortCongruent(fruit, less, global);
  }

  lemma {:induction false} PassingEverything(segments: seq<ScoredSegment>, minScore: Option<real>,
                                             parts: seq<seq<Address>>, n: nat)
    requires n <= |segments| && |parts| == n
    requires forall s :: 0 <= s < n ==> parts[s] == Passing(segments, minScore, SegmentDocs(segments, s))
    ensures Flatten(parts) == Passing(segments, minScore, AllLive(Matches(segments)[..n]))
  {
    if n > 0 {
      PassingEverything(segments, minScore, parts[..n - 1], n - 1);
      assert Matches(segments)[..n][..n - 1] == Matches(segments)[..n - 1];
      PassingAppend(segments, minScore, AllLive(Matches(segments)[..n - 1]), SegmentDocs(segments, n - 1));
    }
  }

  // The best hits of the first segments.
  ghost predicate Collected(segments: seq<ScoredSegment>, fields: seq<Field>, minScore: Option<real>, topN: nat,
                            fruits: seq<seq<Address>>)
    requires |fruits| <= |segments|
  {
    forall k :: 0 <= k < |fruits| ==>
      HoldsTop(topN, Passing(segments, minScore, SegmentDocs(segments, k)), fruits[k],
               HitLess(GlobalColumns(segments, fields)))
  }

  // Every segment's best hits, by its own order and so by value.
  method CollectSegments(segments: seq<ScoredSegment>, columns: nat, fields: seq<Field>, minScore: Option<real>,
                         topN: nat)
    returns (fruits: seq<seq<Address>>)
    requires Uniform(segments, columns) && Fields(fields, columns) && Allocatable(topN, 10)
    ensures |fruits| == |segments| && Collected(segments, fields, minScore, topN, fruits)
  {
    fruits := [];
    for s := 0 to |segments|
      invariant |fruits| == s && Collected(segments, fields, minScore, topN, fruits)
    {
      var fruit := CollectSegment(segments, s, fields, minScore, topN);
      fruits := fruits + [fruit];
    }
  }

  lemma SegmentSound(segments: seq<ScoredSegment>, s: nat, fields: seq<Field>, minScore: Option<real>,
                     fruit: seq<Address>, topN: nat)
    requires s < |segments| && Faithful(segments[s]) && Fields(fields, |segments[s].readers|)
    requires HoldsTop(topN, Passing(segments, minScore, SegmentDocs(segments, s)), fruit,
                      HitLess(LocalColumns(segments[s], fields)))
    ensures HoldsTop(topN, Passing(segments, minScore, SegmentDocs(segments, s)), fruit,
                     HitLess(GlobalColumns(segments, fields)))
  {
    var docs := Passing(segments, minScore, SegmentDocs(segments, s));
    forall x | x in docs ensures x.segment == s { PassingMembers(segments, minScore, SegmentDocs(segments, s), x); }
    PruningIsSound(segments, s, fields, docs, fruit, topN);
  }

  /** The scored read returns the requested window of the documents that reach the minimum score,
      sorted by their values. */
  method CollectScoredTopK(segments: seq<ScoredSegment>, columns: nat, fields: seq<Field>, minScore: Option<real>,
                           limit: nat, offset: nat) returns (addresses: seq<Address>)
    requires Uniform(segments, columns) && Fields(fields, columns) && Allocatable(SaturatingAdd(limit, offset), 10)
    requires |ScoredHits(segments, minScore)| <= USIZE_MAX
    ensures addresses ==
            Window(Sort(Passing(segments, minScore, AllLive(Matches(segments))),
                        HitLess(GlobalColumns(segments, fields))), offset, limit)
    ensures IsWindow(addresses, ScoredHits(segments, minScore), HitLess(GlobalColumns(segments, fields)), offset,
                        limit)
  {
    HitsAreCollected(segments, minScore);
    HitsInWindow(segments, fields, minScore, offset, limit);
    if limit == 0 { return []; }
    var less, topN := HitLess(GlobalColumns(segments, fields)), SaturatingAdd(limit, offset);
    var fruits := CollectSegments(segments, columns, fields, minScore, topN);
    ScoredMerge(segments, fields, minScore, fruits, limit, offset);
    addresses := MergeFruits(fruits, topN, offset, less);
  }

  lemma HitsInWindow(segments: seq<ScoredSegment>, fields: seq<Field>, minScore: Option<real>, offset: nat, limit: nat)
    requires multiset(Passing(segments, minScore, AllLive(Matches(segments)))) ==
             multiset(ScoredHits(segments, minScore))
    ensures var less := HitLess(GlobalColumns(segments, fields));
            IsWindow(Window(Sort(Passing(segments, minScore, AllLive(Matches(segments))), less), offset, limit),
                        ScoredHits(segments, minScore), less, offset, limit)
  {
    GlobalComparable(segments, fields);
    HitsAreOrdered(GlobalColumns(segments, fields));
    SortedWindow(Passing(segments, minScore, AllLive(Matches(segments))), ScoredHits(segments, minScore),
                 HitLess(GlobalColumns(segments, fields)), offset, limit);
  }

  lemma ScoredMerge(segments: seq<ScoredSegment>, fields: seq<Field>, minScore: Option<real>, fruits: seq<seq<Address>>,
                    limit: nat, offset: nat)
    requires |fruits| == |segments| && |Passing(segments, minScore, AllLive(Matches(segments)))| <= USIZE_MAX
    requires Collected(segments, fields, minScore, SaturatingAdd(limit, offset), fruits)
    ensures var less := HitLess(GlobalColumns(segments, fields));
            Skip(Take(Sort(Flatten(fruits), less), SaturatingAdd(limit, offset)), offset) ==
            Window(Sort(Passing(segments, minScore, AllLive(Matches(segments))), less), offset, limit)
  {
    var less, n := HitLess(GlobalColumns(segments, fields)), SaturatingAdd(limit, offset);
    GlobalComparable(segments, fields);
    HitsAreOrdered(GlobalColumns(segments, fields));
    var parts := seq(|segments|,
                     k requires 0 <= k < |segments| => Passing(segments, minScore, SegmentDocs(segments, k)));
    MergeTop(n, parts, fruits, less);
    PassingEverything(segments, minScore, parts, |segments|);
    assert Matches(segments)[..|segments|] == Matches(segments);
    var all := Passing(segments, minScore, AllLive(Matches(segments)));
    SortSorts(all, less);
    WindowOfTop(Sort(all, less), offset, limit);
  }
}
