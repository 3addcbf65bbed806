/** Where pagination meets the reads: the page that the block collector serves is the page the cursors
    continue from. */
module PagedRead {
  import opened Wrappers
  import opened Sorting
  import opened SegmentRanges
  import opened RangeCollection
  import opened HitOrder
  import opened TopKBuffers
  import opened Pagination
  import F = Filters
  import C = FilterCompiler
  import O = Ordering
  import T = TopKRead

  /** What the compiled filter of a read finds in each segment: the live documents of the segments are
      the snapshot, and the matching ones are those the query matches. */
  ghost predicate Finds(snapshot: Snapshot, filter: Option<F.Filter>, segments: seq<SegmentMatches>) {
    var query := C.CompileFilter(snapshot.engine, snapshot.def, filter);
    && query.Ok? && T.Snapshot(segments)
    && (forall a :: a in snapshot.addresses <==>
          a.segment < |segments| && a.doc < segments[a.segment].maxDoc && a.doc in segments[a.segment].alive)
    && forall a :: a in snapshot.addresses ==>
         (a.doc in segments[a.segment].matching <==>
          C.Matches(snapshot.engine, query.value, snapshot.document(a)))
  }

  /** The fast field of each sort column orders the documents as their values do. */
  ghost predicate Keyed(snapshot: Snapshot, order: seq<OrderSpec>, value: BlockValue) {
    forall a, b, i :: a in snapshot.addresses && b in snapshot.addresses && 0 <= i < |order| ==>
      CompareOptional(O.CompareInt)(value(a, i), value(b, i)) ==
      CompareValue(KeyOf(snapshot, order[i], a), KeyOf(snapshot, order[i], b))
  }

  function Directions(order: seq<OrderSpec>): (orders: seq<bool>)
    ensures |orders| == |order|
  {
    seq(|order|, i requires 0 <= i < |order| => order[i].ascending)
  }

  ghost predicate DistinctRows(snapshot: Snapshot) {
    forall i, j :: 0 <= i < j < |snapshot.addresses| ==> snapshot.addresses[i] != snapshot.addresses[j]
  }

  // ----- the live matches are the matching rows -----

  lemma MatchingOnce(snapshot: Snapshot, filter: Option<F.Filter>, a: Address)
    requires DistinctRows(snapshot)
    ensures multiset(Matching(snapshot, filter))[a] ==
            if a in snapshot.addresses && Denoting(snapshot, filter)(a) then 1 else 0
  {
    SelectCounts(snapshot.addresses, Denoting(snapshot, filter), a);
    DistinctCounts(snapshot.addresses, a);
  }

  lemma LiveMatchesDenoted(snapshot: Snapshot, filter: Option<F.Filter>, segments: seq<SegmentMatches>, a: Address)
    requires Finds(snapshot, filter, segments)
    ensures LiveMatch(segments, a) <==> a in snapshot.addresses && Denoting(snapshot, filter)(a)
  {
    C.CompiledFilterMeaning(snapshot.engine, snapshot.def, filter, snapshot.document(a));
    if LiveMatch(segments, a) { assert WellFormed(segments[a.segment]); }
  }

  lemma FoundRows(snapshot: Snapshot, filter: Option<F.Filter>, segments: seq<SegmentMatches>)
    requires Finds(snapshot, filter, segments)
    requires DistinctRows(snapshot)
    ensures multiset(AllLive(segments)) == multiset(Matching(snapshot, filter))
  {
    forall a ensures multiset(AllLive(segments))[a] == multiset(Matching(snapshot, filter))[a] {
      AllLiveOnce(segments, a);
      MatchingOnce(snapshot, filter, a);
      LiveMatchesDenoted(snapshot, filter, segments, a);
    }
  }

  lemma LiveCount(snapshot: Snapshot, filter: Option<F.Filter>, segments: seq<SegmentMatches>)
    requires Finds(snapshot, filter, segments) && DistinctRows(snapshot)
    ensures |AllLive(segments)| <= |snapshot.addresses|
  {
    FoundRows(snapshot, filter, segments);
    SelectShorter(snapshot.addresses, Denoting(snapshot, filter));
    assert |AllLive(segments)| == |multiset(AllLive(segments))| == |Matching(snapshot, filter)|;
  }

  // ----- the block keys order them as their values do -----

  lemma KeysAgree(snapshot: Snapshot, order: seq<OrderSpec>, value: BlockValue, a: Address, b: Address)
    requires Keyed(snapshot, order, value) && 1 <= |order| <= 2
    requires a in snapshot.addresses && b in snapshot.addresses
    ensures HitLess(BlockColumns(value, Directions(order)))(a, b) <==> HitLess(KeyColumns(snapshot, order))(a, b)
  {
    var block, keys := BlockColumns(value, Directions(order)), KeyColumns(snapshot, order);
    forall i | 0 <= i < |order| ensures block[i](a, b) == keys[i](a, b) {
      assert block[i](a, b) == CompareOptional(O.CompareInt)(value(a, i), value(b, i)).Directed(order[i].ascending);
      assert keys[i](a, b) ==
             CompareValue(KeyOf(snapshot, order[i], a), KeyOf(snapshot, order[i], b)).Directed(order[i].ascending);
    }
    ColumnsAgree(a, b, block, keys);
  }

  /** What the read sorts by its block keys is what pagination calls the rows in order. */
  lemma SortedRead(snapshot: Snapshot, order: seq<OrderSpec>, filter: Option<F.Filter>, segments: seq<SegmentMatches>,
                   value: BlockValue)
    requires Finds(snapshot, filter, segments) && Keyed(snapshot, order, value) && 1 <= |order| <= 2
    requires DistinctRows(snapshot)
    ensures Sort(AllLive(segments), HitLess(BlockColumns(value, Directions(order)))) == InOrder(snapshot, order, filter)
  {
    var block, keys := HitLess(BlockColumns(value, Directions(order))), HitLess(KeyColumns(snapshot, order));
    FoundRows(snapshot, filter, segments);
    KeysComparable(snapshot, order);
    HitsAreOrdered(KeyColumns(snapshot, order));
    BlockColumnsComparable(value, Directions(order));
    HitsAreOrdered(BlockColumns(value, Directions(order)));
    LiveKeysAgree(snapshot, order, filter, segments, value);
    SortAgrees(AllLive(segments), Matching(snapshot, filter), block, keys);
  }

  lemma LiveKeysAgree(snapshot: Snapshot, order: seq<OrderSpec>, filter: Option<F.Filter>,
                      segments: seq<SegmentMatches>, value: BlockValue)
    requires Finds(snapshot, filter, segments) && Keyed(snapshot, order, value) && 1 <= |order| <= 2
    ensures forall a, b :: a in AllLive(segments) && b in AllLive(segments) ==>
              (HitLess(BlockColumns(value, Directions(order)))(a, b) <==> HitLess(KeyColumns(snapshot, order))(a, b))
  {
    forall a, b | a in AllLive(segments) && b in AllLive(segments)
      ensures HitLess(BlockColumns(value, Directions(order)))(a, b) <==> HitLess(KeyColumns(snapshot, order))(a, b)
    {
      LiveIsRow(snapshot, filter, segments, a);
      LiveIsRow(snapshot, filter, segments, b);
      KeysAgree(snapshot, order, value, a, b);
    }
  }

  lemma SortAgrees(live: seq<Address>, rows: seq<Address>, block: (Address, Address) -> bool,
                   keys: (Address, Address) -> bool)
    requires multiset(live) == multiset(rows) && O.StrictTotalOrder(block) && O.StrictTotalOrder(keys)
    requires forall a, b :: a in live && b in live ==> (block(a, b) <==> keys(a, b))
    ensures Sort(live, block) == Sort(rows, keys)
  {
    SortCongruent(live, block, keys);
    SortOfSame(live, rows, keys);
  }

  lemma LiveIsRow(snapshot: Snapshot, filter: Option<F.Filter>, segments: seq<SegmentMatches>, a: Address)
    requires Finds(snapshot, filter, segments) && a in AllLive(segments)
    ensures a in snapshot.addresses
  {
    AllLiveOnce(segments, a);
    LiveMatchesDenoted(snapshot, filter, segments, a);
  }

  // ----- the page -----

  lemma WindowIsPage(snapshot: Snapshot, order: seq<OrderSpec>, left: seq<Address>, limit: nat)
    ensures var collectionLimit := SaturatingAdd(limit, if limit > 0 then 1 else 0);
            PageOf(snapshot, order, Window(left, 0, collectionLimit), limit) == PageOf(snapshot, order, left, limit)
  {
  }

  /** One page, read as the database does: the compiled filter of the rows after the cursor, the block
      collector for one row more than asked for, and the last row kept as the next cursor. */
  method ReadBlockPage(snapshot: Snapshot, order: seq<OrderSpec>, ghost filter: Option<F.Filter>,
                       ghost after: Option<seq<F.Value>>, limit: nat, segments: seq<SegmentMatches>,
                       value: BlockValue, workers: nat)
    returns (page: Page)
    requires after.Some? ==> |after.value| == |order|
    requires Finds(snapshot, FilterAfter(filter, order, after), segments) && Keyed(snapshot, order, value)
    requires DistinctRows(snapshot)
    requires 1 <= |order| <= 2 && |snapshot.addresses| <= USIZE_MAX
    requires Fits(T.MaxDocs(segments)) && T.Allocatable(SaturatingAdd(limit, 1), 10)
    ensures page == ReadPage(snapshot, order, filter, after, limit)
  {
    var collectionLimit := SaturatingAdd(limit, if limit > 0 then 1 else 0);
    var addresses := [];
    if collectionLimit > 0 {
      LiveCount(snapshot, FilterAfter(filter, order, after), segments);
      addresses := T.CollectBlockTopK(segments, value, Directions(order), collectionLimit, 0, workers);
    }
    SortedRead(snapshot, order, FilterAfter(filter, order, after), segments, value);
    WindowIsPage(snapshot, order, InOrder(snapshot, order, FilterAfter(filter, order, after)), limit);
    page := PageOf(snapshot, order, addresses, limit);
  }
}
