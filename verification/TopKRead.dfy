/** Top-K reads: the documents are divided into ranges, each range keeps its own best hits, and the
    merged result is the requested window of one global sort. */
module TopKRead {
  import opened Ordering
  import opened Sorting
  import opened TopKBuffers
  import opened HitOrder
  import opened SegmentRanges
  import opened RangeCollection

  predicate Within(plan: seq<Work>, n: nat) {
    forall i :: 0 <= i < |plan| ==> plan[i].segment < n
  }

  // Each task's documents.
  function DocsOf(segments: seq<SegmentMatches>, work: Work): seq<Address>
    requires work.segment < |segments|
  {
    var matches := segments[work.segment];
    Addresses(work.segment, Live(matches.matching, matches.alive, work.range.start, work.range.end))
  }

  function Parts(segments: seq<SegmentMatches>, plan: seq<Work>): (parts: seq<seq<Address>>)
    requires Within(plan, |segments|)
    ensures |parts| == |plan|
  {
    seq(|plan|, i requires 0 <= i < |plan| => DocsOf(segments, plan[i]))
  }

  function MaxDocs(segments: seq<SegmentMatches>): (docs: seq<nat>)
    ensures |docs| == |segments|
  {
    seq(|segments|, i requires 0 <= i < |segments| => segments[i].maxDoc)
  }

  ghost predicate Snapshot(segments: seq<SegmentMatches>) {
    forall ord :: 0 <= ord < |segments| ==> WellFormed(segments[ord])
  }

  // ----- a covering plan delivers every document once -----

  // The tasks of the first `n` segments.
  function Below(plan: seq<Work>, n: nat): seq<Work> {
    if plan == [] then []
    else
      var last := plan[|plan| - 1];
      var before := Below(plan[..|plan| - 1], n);
      if last.segment < n then before + [last] else before
  }

  lemma {:induction false} BelowMembers(plan: seq<Work>, n: nat)
    ensures Within(Below(plan, n), n)
    ensures n == 0 ==> Below(plan, n) == []
  {
    if plan != [] { BelowMembers(plan[..|plan| - 1], n); }
  }

  lemma {:induction false} BelowAll(plan: seq<Work>, n: nat)
    requires Within(plan, n)
    ensures Below(plan, n) == plan
  {
    if plan != [] {
      BelowAll(plan[..|plan| - 1], n);
      assert plan == plan[..|plan| - 1] + [plan[|plan| - 1]];
    }
  }

  function Delivered(segments: seq<SegmentMatches>, plan: seq<Work>): seq<Address>
    requires Within(plan, |segments|)
  {
    Flatten(Parts(segments, plan))
  }

  lemma DeliveredOne(segments: seq<SegmentMatches>, plan: seq<Work>, work: Work)
    requires Within(plan, |segments|) && work.segment < |segments|
    ensures Delivered(segments, plan + [work]) == Delivered(segments, plan) + DocsOf(segments, work)
  {
    FlattenSnoc(Parts(segments, plan), DocsOf(segments, work));
    assert Parts(segments, plan + [work]) == Parts(segments, plan) + [DocsOf(segments, work)];
  }

  lemma LiveInOne(matches: SegmentMatches, ranges: seq<Range>, range: Range)
    ensures LiveIn(matches, ranges + [range]) ==
            LiveIn(matches, ranges) + Live(matches.matching, matches.alive, range.start, range.end)
  {
    assert (ranges + [range])[..|ranges|] == ranges;
  }

  lemma AddressesAppend(ord: nat, a: seq<nat>, b: seq<nat>)
    ensures Addresses(ord, a + b) == Addresses(ord, a) + Addresses(ord, b)
  {
  }

  /** One more segment adds exactly the documents of its own ranges. */
  lemma {:induction false} NextSegment(segments: seq<SegmentMatches>, plan: seq<Work>, n: nat)
    requires n < |segments|
    ensures Within(Below(plan, n), |segments|)
    ensures Within(Below(plan, n + 1), |segments|)
    ensures multiset(Delivered(segments, Below(plan, n + 1))) ==
            multiset(Delivered(segments, Below(plan, n))) +
              multiset(Addresses(n, LiveIn(segments[n], RangesOf(plan, n))))
  {
    BelowMembers(plan, n);
    BelowMembers(plan, n + 1);
    if plan != [] {
      NextSegment(segments, plan[..|plan| - 1], n);
      NextTask(segments, plan, n);
    }
  }

  lemma NextTask(segments: seq<SegmentMatches>, plan: seq<Work>, n: nat)
    requires n < |segments| && plan != []
    requires Within(Below(plan, n), |segments|) && Within(Below(plan, n + 1), |segments|)
    requires var front := plan[..|plan| - 1];
             && Within(Below(front, n), |segments|) && Within(Below(front, n + 1), |segments|)
             && multiset(Delivered(segments, Below(front, n + 1))) ==
                multiset(Delivered(segments, Below(front, n))) +
                  multiset(Addresses(n, LiveIn(segments[n], RangesOf(front, n))))
    ensures multiset(Delivered(segments, Below(plan, n + 1))) ==
            multiset(Delivered(segments, Below(plan, n))) +
              multiset(Addresses(n, LiveIn(segments[n], RangesOf(plan, n))))
  {
    var front, last := plan[..|plan| - 1], plan[|plan| - 1];
    if last.segment < n {
      DeliveredOne(segments, Below(front, n), last);
      DeliveredOne(segments, Below(front, n + 1), last);
    } else if last.segment == n {
      DeliveredOne(segments, Below(front, n + 1), last);
      LiveInOne(segments[n], RangesOf(front, n), last.range);
      AddressesAppend(n, LiveIn(segments[n], RangesOf(front, n)),
                      Live(segments[n].matching, segments[n].alive, last.range.start, last.range.end));
    }
  }

  lemma {:induction false} DeliveredBelow(segments: seq<SegmentMatches>, plan: seq<Work>, n: nat)
    requires Snapshot(segments) && PlanCovers(MaxDocs(segments), plan) && n <= |segments|
    ensures Within(Below(plan, n), |segments|)
    ensures multiset(Delivered(segments, Below(plan, n))) == multiset(AllLive(segments[..n]))
  {
    BelowMembers(plan, n);
    if n > 0 {
      DeliveredBelow(segments, plan, n - 1);
      NextSegment(segments, plan, n - 1);
      assert segments[..n][..n - 1] == segments[..n - 1];
      CoveredOnce(segments[n - 1], RangesOf(plan, n - 1), 0, MaxDocs(segments)[n - 1]);
    }
  }

  /** Any covering plan, in any order, delivers exactly the live matching documents. */
  lemma DeliversAll(segments: seq<SegmentMatches>, plan: seq<Work>)
    requires Snapshot(segments) && PlanCovers(MaxDocs(segments), plan)
    ensures multiset(Delivered(segments, plan)) == multiset(AllLive(segments))
  {
    DeliveredBelow(segments, plan, |segments|);
    BelowAll(plan, |segments|);
    assert segments[..|segments|] == segments;
  }

  // ----- merging -----

  /** The window of the `limit + offset` best is the window of everything. */
  lemma WindowOfTop<T>(s: seq<T>, offset: nat, limit: nat)
    requires |s| <= USIZE_MAX
    ensures Skip(Take(s, SaturatingAdd(limit, offset)), offset) == Window(s, offset, limit)
  {
  }

  // ----- what a window is -----

  // The hits that come before `a`.
  ghost function Before(hits: set<Address>, a: Address, less: (Address, Address) -> bool): set<Address> {
    set h | h in hits && less(h, a)
  }

  /** A window of the hits in order: it is as long as asked for, or as long as there are hits left, and its
      k-th address is the hit with exactly `offset + k` hits before it. */
  ghost predicate IsWindow(addresses: seq<Address>, hits: set<Address>, less: (Address, Address) -> bool,
                           offset: nat, limit: nat) {
    && |addresses| == Min(limit, |hits| - Min(offset, |hits|))
    && forall k :: 0 <= k < |addresses| ==> addresses[k] in hits && |Before(hits, addresses[k], less)| == offset + k
  }

  lemma Twice<T>(s: seq<T>, i: nat, j: nat)
    requires i < j < |s| && s[i] == s[j]
    ensures multiset(s)[s[i]] >= 2
  {
    assert s == s[..j] + s[j..];
    assert s[..j][i] == s[i] && s[j..][0] == s[i];
    assert s[i] in multiset(s[..j]) && s[i] in multiset(s[j..]);
  }

  lemma SortedOnce(sorted: seq<Address>, hits: set<Address>, less: (Address, Address) -> bool, i: nat, j: nat)
    requires StrictTotalOrder(less) && SortedBy(sorted, less) && multiset(sorted) == multiset(hits)
    requires i < j < |sorted|
    ensures less(sorted[i], sorted[j])
  {
    assert !less(sorted[j], sorted[i]);
    if sorted[i] == sorted[j] { Twice(sorted, i, j); }
  }

  function Members(s: seq<Address>): set<Address> {
    set a | a in s
  }

  lemma {:induction false} MembersCount(s: seq<Address>)
    requires forall i, j :: 0 <= i < j < |s| ==> s[i] != s[j]
    ensures |Members(s)| == |s|
  {
    if s != [] {
      var front, last := s[..|s| - 1], s[|s| - 1];
      MembersCount(front);
      assert s == front + [last];
      assert Members(s) == Members(front) + {last} && last !in Members(front);
    }
  }

  lemma Rank(sorted: seq<Address>, hits: set<Address>, less: (Address, Address) -> bool, k: nat)
    requires StrictTotalOrder(less) && SortedBy(sorted, less) && multiset(sorted) == multiset(hits)
    requires k < |sorted|
    ensures sorted[k] in hits && |Before(hits, sorted[k], less)| == k
  {
    assert sorted[k] in multiset(sorted);
    forall i, j | 0 <= i < j < |sorted| ensures less(sorted[i], sorted[j]) { SortedOnce(sorted, hits, less, i, j); }
    forall h ensures h in Before(hits, sorted[k], less) <==> h in sorted[..k] {
      assert h in multiset(sorted) <==> h in hits;
      if h in Before(hits, sorted[k], less) { var i :| 0 <= i < |sorted| && sorted[i] == h; assert i < k; }
      if h in sorted[..k] { assert h in sorted; }
    }
    assert Before(hits, sorted[k], less) == Members(sorted[..k]);
    MembersCount(sorted[..k]);
  }

  /** Sorting a list of the hits and cutting out a slice is a window of them. */
  lemma SortedWindow(found: seq<Address>, hits: set<Address>, less: (Address, Address) -> bool, offset: nat, limit: nat)
    requires StrictTotalOrder(less) && multiset(found) == multiset(hits)
    ensures IsWindow(Window(Sort(found, less), offset, limit), hits, less, offset, limit)
  {
    SortSorts(found, less);
    CutSorted(Sort(found, less), hits, less, offset, limit);
  }

  lemma CutSorted(sorted: seq<Address>, hits: set<Address>, less: (Address, Address) -> bool, offset: nat, limit: nat)
    requires StrictTotalOrder(less) && SortedBy(sorted, less) && multiset(sorted) == multiset(hits)
    ensures IsWindow(Window(sorted, offset, limit), hits, less, offset, limit)
  {
    assert |sorted| == |multiset(sorted)| == |multiset(hits)| == |hits|;
    WindowAt(sorted, offset, limit);
    var window := Window(sorted, offset, limit);
    forall k | 0 <= k < |window| ensures window[k] in hits && |Before(hits, window[k], less)| == offset + k {
      Rank(sorted, hits, less, offset + k);
    }
  }

  /** Split independence: whatever the division into ranges and whatever each range's buffer did with
      ties and order, merging gives the window of the globally sorted documents. */
  lemma SplitIndependence(segments: seq<SegmentMatches>, plan: seq<Work>, fruits: seq<seq<Address>>,
                          less: (Address, Address) -> bool, limit: nat, offset: nat)
    requires Snapshot(segments) && PlanCovers(MaxDocs(segments), plan) && StrictTotalOrder(less)
    requires |AllLive(segments)| <= USIZE_MAX && |fruits| == |plan|
    requires forall i :: 0 <= i < |plan| ==>
               HoldsTop(SaturatingAdd(limit, offset), DocsOf(segments, plan[i]), fruits[i], less)
    ensures Skip(Take(Sort(Flatten(fruits), less), SaturatingAdd(limit, offset)), offset) ==
            Window(Sort(AllLive(segments), less), offset, limit)
  {
    var n := SaturatingAdd(limit, offset);
    MergeTop(n, Parts(segments, plan), fruits, less);
    DeliversAll(segments, plan);
    SortOfSame(Delivered(segments, plan), AllLive(segments), less);
    SortSorts(AllLive(segments), less);
    WindowOfTop(Sort(AllLive(segments), less), offset, limit);
  }

  // The live matches of one segment.
  function SegmentRows(segments: seq<SegmentMatches>, ord: nat): seq<Address>
    requires ord < |segments|
  {
    Addresses(ord, Live(segments[ord].matching, segments[ord].alive, 0, segments[ord].maxDoc))
  }

  // The same for one task for each whole segment.
  lemma {:induction false} WholeSegments(segments: seq<SegmentMatches>, parts: seq<seq<Address>>)
    requires |parts| == |segments|
    requires forall ord :: 0 <= ord < |segments| ==> parts[ord] == SegmentRows(segments, ord)
    ensures Flatten(parts) == AllLive(segments)
  {
    if segments != [] {
      var k := |segments| - 1;
      WholeSegments(segments[..k], parts[..k]);
    }
  }

  // ----- the block collector -----

  // Allocating a buffer of ten times the requested size has to succeed.
  predicate Allocatable(topN: nat, factor: nat) {
    SaturatingMul(AtLeastOne(topN), factor) < USIZE_MAX
  }

  /** A read asks for as many hits as limit and offset together, and its buffer for that many times the
      factor; only what does not fit the machine word is cut down to it. */
  lemma BufferSizes(limit: nat, offset: nat, factor: nat)
    ensures SaturatingAdd(limit, offset) == if limit + offset <= 0xffff_ffff_ffff_ffff then limit + offset
                                            else 0xffff_ffff_ffff_ffff
    ensures Allocatable(limit, factor) <==> (if limit == 0 then 1 else limit) * factor < 0xffff_ffff_ffff_ffff
  {
  }

  /** The best hits of one range, collected block by block. */
  method CollectBlockRange(ord: nat, matches: SegmentMatches, range: Range, topN: nat, less: (Address, Address) -> bool)
    returns (fruit: seq<Address>)
    requires WellFormed(matches) && StrictTotalOrder(less) && Allocatable(topN, 10)
    ensures HoldsTop(topN, Addresses(ord, Live(matches.matching, matches.alive, range.start, range.end)), fruit, less)
  {
    var blocks := CollectMatchingDocs(matches, range);
    var buffer := new BufferedTopK<Address>(topN, less, SaturatingMul(AtLeastOne(topN), 10));
    CollectBlocks(ord, blocks, buffer);
    fruit := buffer.Finish();
  }

  method CollectBlocks(ord: nat, blocks: seq<seq<nat>>, buffer: BufferedTopK<Address>)
    requires buffer.Valid() && buffer.seen == []
    modifies buffer
    ensures buffer.Valid() && buffer.seen == Addresses(ord, Flatten(blocks))
  {
    for i := 0 to |blocks|
      invariant buffer.Valid() && buffer.seen == Addresses(ord, Flatten(blocks[..i]))
    {
      OneMoreBlock(ord, blocks, i);
      CollectBlock(ord, blocks[i], buffer);
    }
    assert blocks[..|blocks|] == blocks;
  }

  lemma OneMoreBlock(ord: nat, blocks: seq<seq<nat>>, i: nat)
    requires i < |blocks|
    ensures Addresses(ord, Flatten(blocks[..i + 1])) ==
            Addresses(ord, Flatten(blocks[..i])) + Addresses(ord, blocks[i])
  {
    assert blocks[..i + 1] == blocks[..i] + [blocks[i]];
    FlattenSnoc(blocks[..i], blocks[i]);
    AddressesAppend(ord, Flatten(blocks[..i]), blocks[i]);
  }

  method CollectBlock(ord: nat, docs: seq<nat>, buffer: BufferedTopK<Address>)
    requires buffer.Valid()
    modifies buffer
    ensures buffer.Valid() && buffer.seen == old(buffer.seen) + Addresses(ord, docs)
  {
    for k := 0 to |docs|
      invariant buffer.Valid() && buffer.seen == old(buffer.seen) + Addresses(ord, docs[..k])
    {
      buffer.Push(Address(ord, docs[k]));
      AddressesAppend(ord, docs[..k], [docs[k]]);
      assert docs[..k + 1] == docs[..k] + [docs[k]];
    }
    assert docs[..|docs|] == docs;
  }

  method MergeFruits(fruits: seq<seq<Address>>, topN: nat, offset: nat, less: (Address, Address) -> bool)
    returns (addresses: seq<Address>)
    ensures addresses == Skip(Take(Sort(Flatten(fruits), less), topN), offset)
  {
    var hits := Sort(Flatten(fruits), less);
    hits := Take(hits, topN);
    addresses := Skip(hits, offset);
  }

  // Each segment as a whole.
  method CollectBlockSegments(segments: seq<SegmentMatches>, topN: nat, less: (Address, Address) -> bool)
    returns (fruits: seq<seq<Address>>)
    requires Snapshot(segments) && StrictTotalOrder(less) && Allocatable(topN, 10)
    ensures |fruits| == |segments|
    ensures forall i :: 0 <= i < |segments| ==> HoldsTop(topN, SegmentRows(segments, i), fruits[i], less)
  {
    fruits := [];
    for ord := 0 to |segments|
      invariant |fruits| == ord
      invariant forall i :: 0 <= i < ord ==> HoldsTop(topN, SegmentRows(segments, i), fruits[i], less)
    {
      var fruit := CollectBlockRange(ord, segments[ord], Range(0, segments[ord].maxDoc), topN, less);
      fruits := fruits + [fruit];
    }
  }

  // The ranges of a plan, one by one.
  method CollectBlockPlan(segments: seq<SegmentMatches>, plan: seq<Work>, topN: nat, less: (Address, Address) -> bool)
    returns (fruits: seq<seq<Address>>)
    requires Snapshot(segments) && Within(plan, |segments|) && StrictTotalOrder(less) && Allocatable(topN, 10)
    ensures |fruits| == |plan|
    ensures forall k :: 0 <= k < |plan| ==> HoldsTop(topN, DocsOf(segments, plan[k]), fruits[k], less)
  {
    fruits := [];
    for i := 0 to |plan|
      invariant |fruits| == i && forall k :: 0 <= k < i ==> HoldsTop(topN, DocsOf(segments, plan[k]), fruits[k], less)
    {
      var fruit := CollectBlockRange(plan[i].segment, segments[plan[i].segment], plan[i].range, topN, less);
      fruits := fruits + [fruit];
    }
  }

  /** The block read returns the requested window of the documents sorted by the block keys. */
  method CollectBlockTopK(segments: seq<SegmentMatches>, value: BlockValue, orders: seq<bool>,
                          limit: nat, offset: nat, workers: nat) returns (addresses: seq<Address>)
    requires Snapshot(segments) && Fits(MaxDocs(segments)) && |AllLive(segments)| <= USIZE_MAX
    requires 1 <= |orders| <= 2 && Allocatable(SaturatingAdd(limit, offset), 10)
    ensures addresses == Window(Sort(AllLive(segments), HitLess(BlockColumns(value, orders))), offset, limit)
    ensures IsWindow(addresses, LiveSet(segments), HitLess(BlockColumns(value, orders)), offset, limit)
  {
    var less, topN := HitLess(BlockColumns(value, orders)), SaturatingAdd(limit, offset);
    BlockColumnsComparable(value, orders);
    HitsAreOrdered(BlockColumns(value, orders));
    AllLiveSet(segments);
    SortedWindow(AllLive(segments), LiveSet(segments), less, offset, limit);
    var plan := SearcherDocRanges(MaxDocs(segments), workers);
    var fruits;
    if |plan| < 2 {
      fruits := CollectBlockSegments(segments, topN, less);
      WholeSegmentsMerged(segments, fruits, less, limit, offset);
    } else {
      fruits := CollectBlockPlan(segments, plan, topN, less);
      SplitIndependence(segments, plan, fruits, less, limit, offset);
    }
    addresses := MergeFruits(fruits, topN, offset, less);
  }

  lemma WholeSegmentsMerged(segments: seq<SegmentMatches>, fruits: seq<seq<Address>>,
                            less: (Address, Address) -> bool, limit: nat, offset: nat)
    requires StrictTotalOrder(less) && |fruits| == |segments| && |AllLive(segments)| <= USIZE_MAX
    requires forall i :: 0 <= i < |segments| ==>
               HoldsTop(SaturatingAdd(limit, offset), SegmentRows(segments, i), fruits[i], less)
    ensures Skip(Take(Sort(Flatten(fruits), less), SaturatingAdd(limit, offset)), offset) ==
            Window(Sort(AllLive(segments), less), offset, limit)
  {
    var parts := seq(|segments|, i requires 0 <= i < |segments| => SegmentRows(segments, i));
    MergeTop(SaturatingAdd(limit, offset), parts, fruits, less);
    WholeSegments(segments, parts);
    SortSorts(AllLive(segments), less);
    WindowOfTop(Sort(AllLive(segments), less), offset, limit);
  }

  // ----- the materialized collector -----

  lemma OneMoreLive(ord: nat, matches: SegmentMatches, range: Range, n: nat)
    requires n < |matches.matching| && range.start <= matches.matching[n] < range.end
    ensures var before := Addresses(ord, LiveFirst(matches.matching, matches.alive, range.start, range.end, n));
            var doc := matches.matching[n];
            Addresses(ord, LiveFirst(matches.matching, matches.alive, range.start, range.end, n + 1)) ==
            if doc in matches.alive then before + [Address(ord, doc)] else before
  {
    AddressesAppend(ord, LiveFirst(matches.matching, matches.alive, range.start, range.end, n), [matches.matching[n]]);
  }

  /** The best rows of one range, visited one by one. */
  method CollectMaterializedRange(ord: nat, matches: SegmentMatches, range: Range, topN: nat,
                                  less: (Address, Address) -> bool)
    returns (fruit: seq<Address>)
    requires WellFormed(matches) && StrictTotalOrder(less) && Allocatable(topN, 2)
    ensures HoldsTop(topN, Addresses(ord, Live(matches.matching, matches.alive, range.start, range.end)), fruit, less)
  {
    var buffer := new MaterializedBuffer<Address>(topN, less, SaturatingMul(AtLeastOne(topN), 2));
    CollectRows(ord, matches, range, buffer);
    fruit := buffer.Finish();
  }

  method CollectRows(ord: nat, matches: SegmentMatches, range: Range, buffer: MaterializedBuffer<Address>)
    requires WellFormed(matches) && buffer.Valid() && buffer.seen == []
    modifies buffer
    ensures buffer.Valid()
    ensures buffer.seen == Addresses(ord, Live(matches.matching, matches.alive, range.start, range.end))
  {
    var matching, alive := matches.matching, matches.alive;
    var position := Seek(matching, range.start);
    LiveNone(matching, alive, range.start, range.end, position);
    while position < |matching| && matching[position] < range.end
      invariant position <= |matching| && buffer.Valid()
      invariant forall k :: position <= k < |matching| ==> matching[k] >= range.start
      invariant buffer.seen == Addresses(ord, LiveFirst(matching, alive, range.start, range.end, position))
    {
      OneMoreLive(ord, matches, range, position);
      if matching[position] in alive { buffer.Push(Address(ord, matching[position])); }
      position := position + 1;
    }
    LiveDone(matching, alive, range.start, range.end, position, |matching|);
  }

  method CollectMaterializedPlan(segments: seq<SegmentMatches>, plan: seq<Work>, topN: nat,
                                 less: (Address, Address) -> bool)
    returns (fruits: seq<seq<Address>>)
    requires Snapshot(segments) && Within(plan, |segments|) && StrictTotalOrder(less) && Allocatable(topN, 2)
    ensures |fruits| == |plan|
    ensures forall k :: 0 <= k < |plan| ==> HoldsTop(topN, DocsOf(segments, plan[k]), fruits[k], less)
  {
    fruits := [];
    for i := 0 to |plan|
      invariant |fruits| == i && forall k :: 0 <= k < i ==> HoldsTop(topN, DocsOf(segments, plan[k]), fruits[k], less)
    {
      var fruit := CollectMaterializedRange(plan[i].segment, segments[plan[i].segment], plan[i].range, topN, less);
      fruits := fruits + [fruit];
    }
  }

  /** The materialized read returns the requested window of the documents sorted by JSON keys. */
  method CollectMaterializedTopK(segments: seq<SegmentMatches>, value: SortValue, order: seq<bool>,
                                 limit: nat, offset: nat, workers: nat) returns (addresses: seq<Address>)
    requires Snapshot(segments) && Fits(MaxDocs(segments)) && |AllLive(segments)| <= USIZE_MAX
    requires Allocatable(SaturatingAdd(limit, offset), 2)
    ensures addresses == Window(Sort(AllLive(segments), HitLess(JsonColumns(value, 0, order))), offset, limit)
    ensures IsWindow(addresses, LiveSet(segments), HitLess(JsonColumns(value, 0, order)), offset, limit)
  {
    if limit == 0 { return []; }
    var less, topN := HitLess(JsonColumns(value, 0, order)), SaturatingAdd(limit, offset);
    JsonColumnsComparable(value, 0, order);
    HitsAreOrdered(JsonColumns(value, 0, order));
    AllLiveSet(segments);
    SortedWindow(AllLive(segments), LiveSet(segments), less, offset, limit);
    var plan := SearcherDocRanges(MaxDocs(segments), workers);
    var fruits := CollectMaterializedPlan(segments, plan, topN, less);
    SplitIndependence(segments, plan, fruits, less, limit, offset);
    addresses := MergeFruits(fruits, topN, offset, less);
  }

  /** Of two documents that a read returns, the first column that tells them apart does not put the later
      one first. */
  lemma WindowOrder(addresses: seq<Address>, hits: set<Address>, columns: seq<Column>, offset: nat, limit: nat, i: nat,
                    j: nat, n: nat)
    requires IsWindow(addresses, hits, HitLess(columns), offset, limit) && Comparable(columns)
    requires i < j < |addresses| && n < |columns| && Tied(columns, addresses[j], addresses[i], n)
    ensures !columns[n](addresses[j], addresses[i]).Less?
  {
    FirstColumnDecides(addresses[j], addresses[i], columns, n);
    NotBefore(addresses, hits, columns, offset, limit, i, j);
  }

  // Whoever has fewer hits before it is not after the other.
  lemma NotBefore(addresses: seq<Address>, hits: set<Address>, columns: seq<Column>, offset: nat, limit: nat, i: nat,
                  j: nat)
    requires IsWindow(addresses, hits, HitLess(columns), offset, limit) && i < j < |addresses| && Comparable(columns)
    ensures !HitLess(columns)(addresses[j], addresses[i])
  {
    var less, a, b := HitLess(columns), addresses[i], addresses[j];
    HitsAreOrdered(columns);
    if less(b, a) {
      assert Before(hits, b, less) <= Before(hits, a, less);
      Smaller(Before(hits, b, less), Before(hits, a, less));
    }
  }

  lemma Smaller(a: set<Address>, b: set<Address>)
    requires a <= b
    ensures |a| <= |b|
  {
    assert b == a + (b - a);
  }
}
