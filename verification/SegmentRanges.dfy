/** Planning of document ranges: one task for each non-empty segment, and the remaining workers spent
    on splitting the largest segments. */
module SegmentRanges {
  import opened Wrappers
  import opened Sorting

  const MIN_DOCS_PER_RANGE: nat := 250_000
  const U32: nat := 0x1_0000_0000

  datatype Range = Range(start: nat, end: nat)

  function DivCeil(a: nat, b: nat): nat
    requires b > 0
  {
    (a + b - 1) / b
  }

  function Max(a: nat, b: nat): nat {
    if a < b then b else a
  }

  // Truncation to a 32-bit document id.
  function DocId(n: nat): nat {
    n % U32
  }

  function UsefulRangeCount(maxDoc: nat, workers: nat): (n: nat)
    ensures 1 <= n <= Max(workers, 1)
  {
    Min(Max(DivCeil(maxDoc, MIN_DOCS_PER_RANGE), 1), Max(workers, 1))
  }

  function ChunkSize(maxDoc: nat, workers: nat): nat {
    DivCeil(maxDoc, UsefulRangeCount(maxDoc, workers))
  }

  function AddRange(before: seq<Range>, maxDoc: nat, low: nat, high: nat): seq<Range> {
    var start, end := DocId(low), Min(maxDoc, DocId(high));
    if start < end then before + [Range(start, end)] else before
  }

  // The non-empty ranges of the first `count` workers.
  function WorkerRanges(maxDoc: nat, chunk: nat, count: nat): seq<Range> {
    if count == 0 then []
    else AddRange(WorkerRanges(maxDoc, chunk, count - 1), maxDoc, (count - 1) * chunk, count * chunk)
  }

  function SegmentDocRanges(maxDoc: nat, workers: nat): seq<Range> {
    if maxDoc == 0 then []
    else WorkerRanges(maxDoc, ChunkSize(maxDoc, workers), UsefulRangeCount(maxDoc, workers))
  }

  // ----- the ranges of one segment -----

  /** Non-empty ranges, each starting where the one before ends. */
  ghost predicate Consecutive(ranges: seq<Range>, from: nat, to: nat) {
    if ranges == [] then from == to
    else
      var last := ranges[|ranges| - 1];
      last.start < last.end == to && Consecutive(ranges[..|ranges| - 1], from, last.start)
  }

  lemma DivCeilBounds(a: nat, b: nat)
    requires b > 0
    ensures a <= b * DivCeil(a, b) < a + b
  {
    var q, r := (a + b - 1) / b, (a + b - 1) % b;
    assert a + b - 1 == b * q + r;
  }

  /** A segment is divided among as many workers as there are, or as many as have 250,000 documents each
      apart from the last; then the chunks are as small as still covers it. */
  lemma UsefulRanges(maxDoc: nat, workers: nat)
    requires maxDoc > 0
    ensures var n := UsefulRangeCount(maxDoc, workers);
            && 1 <= n <= (if workers == 0 then 1 else workers) && (n > 1 ==> (n - 1) * 250_000 < maxDoc)
            && (n * 250_000 < maxDoc ==> n == if workers == 0 then 1 else workers)
    ensures var n, chunk := UsefulRangeCount(maxDoc, workers), ChunkSize(maxDoc, workers);
            chunk >= 1 && (chunk - 1) * n < maxDoc <= chunk * n
  {
    var n, chunk := UsefulRangeCount(maxDoc, workers), ChunkSize(maxDoc, workers);
    DivCeilBounds(maxDoc, MIN_DOCS_PER_RANGE);
    DivCeilBounds(maxDoc, n);
    assert (chunk - 1) * n == n * chunk - n;
    assert chunk * n == n * chunk;
  }

  lemma OneMoreRange(before: seq<Range>, maxDoc: nat, low: nat, high: nat)
    requires Consecutive(before, 0, Min(maxDoc, low)) && low < high < U32 && maxDoc < U32
    ensures Consecutive(AddRange(before, maxDoc, low, high), 0, Min(maxDoc, high))
    ensures |AddRange(before, maxDoc, low, high)| <= |before| + 1
  {
    var after := AddRange(before, maxDoc, low, high);
    if low < maxDoc { assert after[..|after| - 1] == before; }
  }

  lemma OneMoreChunk(count: nat, chunk: nat)
    requires count > 0
    ensures count * chunk == (count - 1) * chunk + chunk
  {
  }

  lemma {:induction false} WorkerRangesCover(maxDoc: nat, chunk: nat, count: nat)
    requires maxDoc < U32 && chunk > 0 && count * chunk < U32
    ensures Consecutive(WorkerRanges(maxDoc, chunk, count), 0, Min(maxDoc, count * chunk))
    ensures |WorkerRanges(maxDoc, chunk, count)| <= count
  {
    if count > 0 {
      OneMoreChunk(count, chunk);
      WorkerRangesCover(maxDoc, chunk, count - 1);
      OneMoreRange(WorkerRanges(maxDoc, chunk, count - 1), maxDoc, (count - 1) * chunk, count * chunk);
    }
  }

  // The last end before truncation: the casts are exact when it fits.
  function LastEnd(maxDoc: nat, workers: nat): nat {
    UsefulRangeCount(maxDoc, workers) * ChunkSize(maxDoc, workers)
  }

  lemma LastEndBounds(maxDoc: nat, workers: nat)
    ensures maxDoc <= LastEnd(maxDoc, workers) < maxDoc + UsefulRangeCount(maxDoc, workers)
  {
    DivCeilBounds(maxDoc, UsefulRangeCount(maxDoc, workers));
  }

  /** The ranges of a segment cover its documents without gap or overlap, as long as every cast fits. */
  lemma RangesCover(maxDoc: nat, workers: nat)
    requires 0 < maxDoc < U32 && LastEnd(maxDoc, workers) < U32
    ensures Consecutive(SegmentDocRanges(maxDoc, workers), 0, maxDoc)
    ensures 1 <= |SegmentDocRanges(maxDoc, workers)| <= UsefulRangeCount(maxDoc, workers)
  {
    LastEndBounds(maxDoc, workers);
    DivCeilBounds(maxDoc, UsefulRangeCount(maxDoc, workers));
    var chunk, count := ChunkSize(maxDoc, workers), UsefulRangeCount(maxDoc, workers);
    assert chunk > 0;
    WorkerRangesCover(maxDoc, chunk, count);
  }

  /** Which they do when the document count and the worker count together fit. */
  lemma CastsFit(maxDoc: nat, workers: nat)
    requires maxDoc + Max(workers, 1) <= U32
    ensures LastEnd(maxDoc, workers) < U32
  {
    LastEndBounds(maxDoc, workers);
  }

  // The largest segment the index library creates.
  const MAX_SEGMENT_DOCS: nat := 0x8000_0000

  /** For the segments there are, the casts fit whatever the number of workers. */
  lemma CastsAlwaysFit(maxDoc: nat, workers: nat)
    requires maxDoc <= MAX_SEGMENT_DOCS
    ensures LastEnd(maxDoc, workers) < U32
  {
    LastEndBounds(maxDoc, workers);
    FewRanges(maxDoc, workers);
  }

  predicate Covers(ranges: seq<Range>, doc: nat) {
    exists i :: 0 <= i < |ranges| && ranges[i].start <= doc < ranges[i].end
  }

  lemma {:induction false} ConsecutiveCovers(ranges: seq<Range>, from: nat, to: nat, doc: nat)
    requires Consecutive(ranges, from, to) && from <= doc < to
    ensures Covers(ranges, doc)
  {
    if ranges != [] {
      var front, last := ranges[..|ranges| - 1], ranges[|ranges| - 1];
      if doc >= last.start {
        assert ranges[|ranges| - 1].start <= doc < ranges[|ranges| - 1].end;
      } else {
        ConsecutiveCovers(front, from, last.start, doc);
        var i :| 0 <= i < |front| && front[i].start <= doc < front[i].end;
        assert ranges[i] == front[i];
      }
    }
  }

  // A split segment has chunks longer than their number.
  lemma ChunksAreLong(maxDoc: nat, workers: nat)
    requires maxDoc < U32
    ensures var count := UsefulRangeCount(maxDoc, workers); count == 1 ||
                                                            (count - 1) * ChunkSize(maxDoc, workers) < maxDoc
  {
    var count, chunk := UsefulRangeCount(maxDoc, workers), ChunkSize(maxDoc, workers);
    if count > 1 {
      DivCeilBounds(maxDoc, MIN_DOCS_PER_RANGE);
      DivCeilBounds(maxDoc, count);
      assert count <= DivCeil(maxDoc, MIN_DOCS_PER_RANGE);
      assert (count - 1) * MIN_DOCS_PER_RANGE < maxDoc;
      assert count <= 17_180;
      if chunk < 17_180 { Multiply(count, chunk, 17_180); }
      OneMoreChunk(count, chunk);
    }
  }

  lemma Multiply(k: nat, a: nat, b: nat)
    requires a <= b
    ensures k * a <= k * b
  {
  }

  /** Otherwise the last range is lost: the last document of the segment is in no range. */
  lemma OverflowLosesLast(maxDoc: nat, workers: nat)
    requires 0 < maxDoc < U32 && LastEnd(maxDoc, workers) >= U32
    ensures !Covers(SegmentDocRanges(maxDoc, workers), maxDoc - 1)
  {
    var count, chunk := UsefulRangeCount(maxDoc, workers), ChunkSize(maxDoc, workers);
    LastEndBounds(maxDoc, workers);
    ChunksAreLong(maxDoc, workers);
    FewRanges(maxDoc, workers);
    LastRangeLost(maxDoc, chunk, count);
  }

  lemma FewRanges(maxDoc: nat, workers: nat)
    requires maxDoc < U32
    ensures UsefulRangeCount(maxDoc, workers) <= 17_180
  {
    DivCeilBounds(maxDoc, MIN_DOCS_PER_RANGE);
  }

  lemma LastRangeLost(maxDoc: nat, chunk: nat, count: nat)
    requires count > 0 && (count == 1 || (count - 1) * chunk < maxDoc) &&
             0 < maxDoc < U32 <= count * chunk < U32 + maxDoc
    ensures !Covers(WorkerRanges(maxDoc, chunk, count), maxDoc - 1)
  {
    var high := count * chunk;
    assert DocId(high) == high - U32;
    assert (count - 1) * chunk < maxDoc by { if count == 1 { assert (count - 1) * chunk == 0; } }
    EarlyRangesStop(maxDoc, chunk, count - 1);
  }

  ghost predicate EndsBelow(ranges: seq<Range>, maxDoc: nat) {
    forall i :: 0 <= i < |ranges| ==> ranges[i].end < maxDoc
  }

  lemma {:induction false} EarlyRangesStop(maxDoc: nat, chunk: nat, count: nat)
    requires count * chunk < maxDoc < U32
    ensures EndsBelow(WorkerRanges(maxDoc, chunk, count), maxDoc)
  {
    if count > 0 {
      var low, high := (count - 1) * chunk, count * chunk;
      assert low <= high by { OneMoreChunk(count, chunk); }
      EarlyRangesStop(maxDoc, chunk, count - 1);
      AddedStops(WorkerRanges(maxDoc, chunk, count - 1), maxDoc, low, high);
    }
  }

  lemma AddedStops(before: seq<Range>, maxDoc: nat, low: nat, high: nat)
    requires high < maxDoc < U32 && EndsBelow(before, maxDoc)
    ensures EndsBelow(AddRange(before, maxDoc, low, high), maxDoc)
  {
    assert DocId(high) == high;
  }

  /** The ranges cover a segment exactly when no cast overflows. */
  lemma RangesCoverIff(maxDoc: nat, workers: nat)
    requires 0 < maxDoc < U32
    ensures (forall doc: nat :: doc < maxDoc ==> Covers(SegmentDocRanges(maxDoc, workers), doc)) <==>
            LastEnd(maxDoc, workers) < U32
  {
    if LastEnd(maxDoc, workers) < U32 {
      RangesCover(maxDoc, workers);
      forall doc: nat | doc < maxDoc ensures Covers(SegmentDocRanges(maxDoc, workers), doc) {
        ConsecutiveCovers(SegmentDocRanges(maxDoc, workers), 0, maxDoc, doc);
      }
    } else {
      OverflowLosesLast(maxDoc, workers);
    }
  }

  /** A concrete overflow: two workers on the largest segment a document id can number. */
  lemma LargestSegmentOverflows()
    ensures LastEnd(0xFFFF_FFFF, 2) == U32
    ensures !Covers(SegmentDocRanges(0xFFFF_FFFF, 2), 0xFFFF_FFFE)
  {
    assert UsefulRangeCount(0xFFFF_FFFF, 2) == 2;
    assert ChunkSize(0xFFFF_FFFF, 2) == 0x8000_0000;
    OverflowLosesLast(0xFFFF_FFFF, 2);
  }

  // ----- spreading workers over segments -----

  function Sum(s: seq<nat>): nat {
    if s == [] then 0 else Sum(s[..|s| - 1]) + s[|s| - 1]
  }

  lemma {:induction false} SumUpdate(s: seq<nat>, i: nat, v: nat)
    requires i < |s|
    ensures Sum(s[i := v]) == Sum(s) - s[i] + v
  {
    var k := |s| - 1;
    if i == k {
      assert s[i := v][..k] == s[..k];
    } else {
      assert s[i := v][..k] == s[..k][i := v];
      SumUpdate(s[..k], i, v);
    }
  }

  predicate Splittable(docs: seq<nat>, workers: nat, allocations: seq<nat>, i: nat)
    requires |allocations| == |docs|
  {
    i < |docs| && allocations[i] < UsefulRangeCount(docs[i], workers)
  }

  // The chunk a segment would have with one more worker.
  function NextChunk(docs: seq<nat>, allocations: seq<nat>, i: nat): nat
    requires i < |docs| == |allocations|
  {
    DivCeil(docs[i], allocations[i] + 1)
  }

  /** The last of the splittable segments whose next chunk is largest. */
  method Candidate(docs: seq<nat>, workers: nat, allocations: seq<nat>) returns (best: Option<nat>)
    requires |allocations| == |docs|
    ensures best.None? ==> forall i :: 0 <= i < |docs| ==> !Splittable(docs, workers, allocations, i)
    ensures best.Some? ==>
              && Splittable(docs, workers, allocations, best.value)
              && forall i :: 0 <= i < |docs| && Splittable(docs, workers, allocations, i) ==>
                   && NextChunk(docs, allocations, i) <= NextChunk(docs, allocations, best.value)
                   && (i > best.value ==> NextChunk(docs, allocations, i) < NextChunk(docs, allocations, best.value))
  {
    best := None;
    for k := 0 to |docs|
      invariant best.None? ==> forall i :: 0 <= i < k ==> !Splittable(docs, workers, allocations, i)
      invariant best.Some? ==> best.value < k && Splittable(docs, workers, allocations, best.value)
      invariant best.Some? ==> forall i :: 0 <= i < k && Splittable(docs, workers, allocations, i) ==>
                  && NextChunk(docs, allocations, i) <= NextChunk(docs, allocations, best.value)
                  && (i > best.value ==> NextChunk(docs, allocations, i) < NextChunk(docs, allocations, best.value))
    {
      if Splittable(docs, workers, allocations, k)
         && (best.None? || NextChunk(docs, allocations, best.value) <= NextChunk(docs, allocations, k)) {
        best := Some(k);
      }
    }
  }

  function TargetTasks(segments: nat, workers: nat): nat {
    Max(Max(workers, 1), segments)
  }

  predicate Feasible(docs: seq<nat>, workers: nat, allocations: seq<nat>) {
    && |allocations| == |docs|
    && forall i :: 0 <= i < |docs| ==> 1 <= allocations[i] <= UsefulRangeCount(docs[i], workers)
  }

  /** No split segment has a chunk smaller than what a splittable segment would get. */
  ghost predicate Balanced(docs: seq<nat>, workers: nat, allocations: seq<nat>)
    requires Feasible(docs, workers, allocations)
  {
    forall i, j :: 0 <= i < |docs| && 0 <= j < |docs| && allocations[i] > 1 &&
                   Splittable(docs, workers, allocations, j) ==>
                     NextChunk(docs, allocations, j) <= DivCeil(docs[i], allocations[i])
  }

  lemma MoreWorkersSmallerChunk(docs: nat, fewer: nat, more: nat)
    requires 0 < fewer <= more
    ensures DivCeil(docs, more) <= DivCeil(docs, fewer)
  {
    DivCeilBounds(docs, fewer);
    DivCeilBounds(docs, more);
    var small, large := DivCeil(docs, more), DivCeil(docs, fewer);
    Multiply(large, fewer, more);
    assert more * (large + 1) == more * large + more;
    Cancel(more, small, large + 1);
  }

  lemma Cancel(k: nat, a: nat, b: nat)
    requires k * a < k * b
    ensures a < b
  {
    if a >= b { Multiply(k, b, a); }
  }

  lemma StaysBalanced(docs: seq<nat>, workers: nat, allocations: seq<nat>, c: nat)
    requires Feasible(docs, workers, allocations) && Balanced(docs, workers, allocations)
    requires Splittable(docs, workers, allocations, c)
    requires forall i :: 0 <= i < |docs| && Splittable(docs, workers, allocations, i) ==>
               NextChunk(docs, allocations, i) <= NextChunk(docs, allocations, c)
    ensures var after := allocations[c := allocations[c] + 1];
            Feasible(docs, workers, after) && Balanced(docs, workers, after)
  {
    var after := allocations[c := allocations[c] + 1];
    MoreWorkersSmallerChunk(docs[c], allocations[c] + 1, allocations[c] + 2);
    forall i, j | 0 <= i < |docs| && 0 <= j < |docs| && after[i] > 1 && Splittable(docs, workers, after, j)
      ensures NextChunk(docs, after, j) <= DivCeil(docs[i], after[i])
    {
      assert Splittable(docs, workers, allocations, j);
      assert NextChunk(docs, after, j) <= NextChunk(docs, allocations, j);
    }
  }

  /** Gives each segment one worker and then hands out the others one by one. */
  method Allocate(docs: seq<nat>, workers: nat) returns (allocations: seq<nat>)
    ensures Feasible(docs, workers, allocations) && Balanced(docs, workers, allocations)
    ensures Sum(allocations) <= TargetTasks(|docs|, workers)
    ensures Sum(allocations) == TargetTasks(|docs|, workers)
            || forall i :: 0 <= i < |docs| ==> allocations[i] == UsefulRangeCount(docs[i], workers)
  {
    allocations := seq(|docs|, i => 1);
    SumOfOnes(|docs|);
    while Sum(allocations) < TargetTasks(|docs|, workers)
      invariant Feasible(docs, workers, allocations) && Balanced(docs, workers, allocations)
      invariant Sum(allocations) <= TargetTasks(|docs|, workers)
      decreases TargetTasks(|docs|, workers) - Sum(allocations)
    {
      var candidate := Candidate(docs, workers, allocations);
      if candidate.None? {
        forall i | 0 <= i < |docs| ensures allocations[i] == UsefulRangeCount(docs[i], workers) {
          assert !Splittable(docs, workers, allocations, i);
        }
        return;
      }
      var c := candidate.value;
      StaysBalanced(docs, workers, allocations, c);
      SumUpdate(allocations, c, allocations[c] + 1);
      allocations := allocations[c := allocations[c] + 1];
    }
  }

  lemma {:induction false} SumOfOnes(n: nat)
    ensures Sum(seq(n, i => 1)) == n
  {
    if n > 0 {
      SumOfOnes(n - 1);
      assert seq(n, i => 1)[..n - 1] == seq(n - 1, i => 1);
    }
  }

  lemma {:induction false} SomewhereMore(a: seq<nat>, b: seq<nat>)
    requires |a| == |b| && Sum(a) <= Sum(b) && a != b
    ensures exists i :: 0 <= i < |a| && a[i] < b[i]
  {
    if a != [] {
      var k := |a| - 1;
      if a[k] >= b[k] {
        assert a == a[..k] + [a[k]] && b == b[..k] + [b[k]];
        SomewhereMore(a[..k], b[..k]);
        var i :| 0 <= i < k && a[..k][i] < b[..k][i];
        assert a[i] < b[i];
      }
    }
  }

  /** No other way to place as many workers has a larger smallest chunk among its split segments. */
  lemma BalancedIsBest(docs: seq<nat>, workers: nat, allocations: seq<nat>, other: seq<nat>)
    requires Feasible(docs, workers, allocations) && Balanced(docs, workers, allocations)
    requires Feasible(docs, workers, other) && Sum(other) == Sum(allocations) && other != allocations
    ensures exists j :: 0 <= j < |docs| && other[j] > 1 &&
              forall i :: 0 <= i < |docs| && allocations[i] > 1 ==>
                DivCeil(docs[j], other[j]) <= DivCeil(docs[i], allocations[i])
  {
    SomewhereMore(allocations, other);
    var j :| 0 <= j < |docs| && allocations[j] < other[j];
    assert Splittable(docs, workers, allocations, j);
    MoreWorkersSmallerChunk(docs[j], allocations[j] + 1, other[j]);
    forall i | 0 <= i < |docs| && allocations[i] > 1
      ensures DivCeil(docs[j], other[j]) <= DivCeil(docs[i], allocations[i])
    {
      assert NextChunk(docs, allocations, j) <= DivCeil(docs[i], allocations[i]);
    }
  }

  // ----- the plan -----

  datatype Segment = Segment(ord: nat, maxDoc: nat)

  datatype Work = Work(segment: nat, range: Range)

  function NonEmpty(maxDocs: seq<nat>): (segments: seq<Segment>)
    ensures |segments| <= |maxDocs|
  {
    if maxDocs == [] then []
    else
      var ord := |maxDocs| - 1;
      var before := NonEmpty(maxDocs[..ord]);
      if maxDocs[ord] > 0 then before + [Segment(ord, maxDocs[ord])] else before
  }

  function DocCounts(segments: seq<Segment>): (docs: seq<nat>)
    ensures |docs| == |segments|
  {
    seq(|segments|, i requires 0 <= i < |segments| => segments[i].maxDoc)
  }

  function Tag(ord: nat, ranges: seq<Range>): (work: seq<Work>)
    ensures |work| == |ranges|
  {
    seq(|ranges|, i requires 0 <= i < |ranges| => Work(ord, ranges[i]))
  }

  function Plan(segments: seq<Segment>, allocations: seq<nat>): seq<Work>
    requires |allocations| == |segments|
  {
    if segments == [] then []
    else
      var k := |segments| - 1;
      Plan(segments[..k], allocations[..k]) + Tag(segments[k].ord, SegmentDocRanges(segments[k].maxDoc, allocations[k]))
  }

  function RangesOf(plan: seq<Work>, segment: nat): seq<Range> {
    if plan == [] then []
    else
      var last := plan[|plan| - 1];
      var before := RangesOf(plan[..|plan| - 1], segment);
      if last.segment == segment then before + [last.range] else before
  }

  lemma {:induction false} RangesOfAppend(a: seq<Work>, b: seq<Work>, segment: nat)
    ensures RangesOf(a + b, segment) == RangesOf(a, segment) + RangesOf(b, segment)
  {
    if b == [] {
      assert a + b == a;
    } else {
      RangesOfAppend(a, b[..|b| - 1], segment);
      assert (a + b)[..|a + b| - 1] == a + b[..|b| - 1];
    }
  }

  lemma {:induction false} RangesOfTag(ord: nat, ranges: seq<Range>, segment: nat)
    ensures RangesOf(Tag(ord, ranges), segment) == if ord == segment then ranges else []
  {
    if ranges != [] {
      var front := ranges[..|ranges| - 1];
      RangesOfTag(ord, front, segment);
      assert Tag(ord, ranges)[..|front|] == Tag(ord, front);
      assert ranges == front + [ranges[|ranges| - 1]];
    }
  }

  ghost predicate Increasing(segments: seq<Segment>) {
    forall i, j :: 0 <= i < j < |segments| ==> segments[i].ord < segments[j].ord
  }

  lemma {:induction false} NonEmptySegments(maxDocs: seq<nat>)
    ensures var segments := NonEmpty(maxDocs);
            && Increasing(segments)
            && (forall i :: 0 <= i < |segments| ==>
                segments[i].ord < |maxDocs| && segments[i].maxDoc == maxDocs[segments[i].ord] > 0)
            && (forall ord :: 0 <= ord < |maxDocs| && maxDocs[ord] > 0 ==> Segment(ord, maxDocs[ord]) in segments)
  {
    if maxDocs != [] {
      var k := |maxDocs| - 1;
      NonEmptySegments(maxDocs[..k]);
      var before, segments := NonEmpty(maxDocs[..k]), NonEmpty(maxDocs);
      forall ord | 0 <= ord < |maxDocs| && maxDocs[ord] > 0 ensures Segment(ord, maxDocs[ord]) in segments {
        if ord < k { assert maxDocs[..k][ord] == maxDocs[ord]; assert Segment(ord, maxDocs[ord]) in before; }
      }
    }
  }

  /** The plan holds exactly the ranges of each planned segment, in order. */
  lemma {:induction false} PlanRanges(segments: seq<Segment>, allocations: seq<nat>, i: nat)
    requires |allocations| == |segments| && Increasing(segments) && i < |segments|
    ensures RangesOf(Plan(segments, allocations), segments[i].ord) ==
            SegmentDocRanges(segments[i].maxDoc, allocations[i])
  {
    var k := |segments| - 1;
    var here := SegmentDocRanges(segments[k].maxDoc, allocations[k]);
    RangesOfAppend(Plan(segments[..k], allocations[..k]), Tag(segments[k].ord, here), segments[i].ord);
    RangesOfTag(segments[k].ord, here, segments[i].ord);
    if i < k {
      PlanRanges(segments[..k], allocations[..k], i);
    } else {
      NotPlanned(segments[..k], allocations[..k], segments[k].ord);
    }
  }

  lemma {:induction false} NotPlanned(segments: seq<Segment>, allocations: seq<nat>, ord: nat)
    requires |allocations| == |segments| && forall i :: 0 <= i < |segments| ==> segments[i].ord != ord
    ensures RangesOf(Plan(segments, allocations), ord) == []
  {
    if segments != [] {
      var k := |segments| - 1;
      var here := SegmentDocRanges(segments[k].maxDoc, allocations[k]);
      NotPlanned(segments[..k], allocations[..k], ord);
      RangesOfAppend(Plan(segments[..k], allocations[..k]), Tag(segments[k].ord, here), ord);
      RangesOfTag(segments[k].ord, here, ord);
    }
  }

  lemma {:induction false} RangesBounded(maxDoc: nat, chunk: nat, count: nat)
    ensures |WorkerRanges(maxDoc, chunk, count)| <= count
  {
    if count > 0 { RangesBounded(maxDoc, chunk, count - 1); }
  }

  lemma {:induction false} PlanBounded(segments: seq<Segment>, allocations: seq<nat>)
    requires |allocations| == |segments| && forall i :: 0 <= i < |segments| ==> allocations[i] >= 1
    ensures |Plan(segments, allocations)| <= Sum(allocations)
  {
    if segments != [] {
      var k := |segments| - 1;
      PlanBounded(segments[..k], allocations[..k]);
      RangesBounded(segments[k].maxDoc, ChunkSize(segments[k].maxDoc, allocations[k]),
                    UsefulRangeCount(segments[k].maxDoc, allocations[k]));
    }
  }

  // No segment is larger than the index library makes them.
  predicate Fits(maxDocs: seq<nat>) {
    forall ord :: 0 <= ord < |maxDocs| ==> maxDocs[ord] <= MAX_SEGMENT_DOCS
  }

  /** Each non-empty segment is covered without gap or overlap, no other segment is planned. */
  ghost predicate PlanCovers(maxDocs: seq<nat>, plan: seq<Work>) {
    && (forall ord :: 0 <= ord < |maxDocs| ==> Consecutive(RangesOf(plan, ord), 0, maxDocs[ord]))
    && forall i :: 0 <= i < |plan| ==> plan[i].segment < |maxDocs|
  }

  method SearcherDocRanges(maxDocs: seq<nat>, workers: nat) returns (plan: seq<Work>)
    ensures Fits(maxDocs) ==> PlanCovers(maxDocs, plan)
    ensures |plan| <= TargetTasks(|NonEmpty(maxDocs)|, workers)
    ensures NonEmpty(maxDocs) == [] ==> plan == []
  {
    var segments := NonEmpty(maxDocs);
    if segments == [] {
      NonEmptySegments(maxDocs);
      return [];
    }
    var allocations := Allocate(DocCounts(segments), workers);
    plan := Plan(segments, allocations);
    PlanBounded(segments, allocations);
    if Fits(maxDocs) { PlanIsCover(maxDocs, workers, segments, allocations); }
  }

  lemma PlanIsCover(maxDocs: seq<nat>, workers: nat, segments: seq<Segment>, allocations: seq<nat>)
    requires Fits(maxDocs) && segments == NonEmpty(maxDocs) &&
             Feasible(DocCounts(segments), workers, allocations)
    ensures PlanCovers(maxDocs, Plan(segments, allocations))
  {
    var plan := Plan(segments, allocations);
    forall ord | 0 <= ord < |maxDocs| ensures Consecutive(RangesOf(plan, ord), 0, maxDocs[ord]) {
      SegmentIsCovered(maxDocs, workers, segments, allocations, ord);
    }
    assert forall i :: 0 <= i < |plan| ==> plan[i].segment < |maxDocs| by {
      NonEmptySegments(maxDocs);
      PlannedSegments(segments, allocations);
    }
  }

  lemma SegmentIsCovered(maxDocs: seq<nat>, workers: nat, segments: seq<Segment>, allocations: seq<nat>, ord: nat)
    requires Fits(maxDocs) && segments == NonEmpty(maxDocs) && ord < |maxDocs| &&
             Feasible(DocCounts(segments), workers, allocations)
    ensures Consecutive(RangesOf(Plan(segments, allocations), ord), 0, maxDocs[ord])
  {
    NonEmptySegments(maxDocs);
    if maxDocs[ord] == 0 {
      NotPlanned(segments, allocations, ord);
    } else {
      var i :| 0 <= i < |segments| && segments[i] == Segment(ord, maxDocs[ord]);
      PlanRanges(segments, allocations, i);
      CastsAlwaysFit(maxDocs[ord], allocations[i]);
      RangesCover(maxDocs[ord], allocations[i]);
    }
  }

  lemma {:induction false} PlannedSegments(segments: seq<Segment>, allocations: seq<nat>)
    requires |allocations| == |segments|
    ensures forall work :: work in Plan(segments, allocations) ==>
              exists i :: 0 <= i < |segments| && segments[i].ord == work.segment
  {
    if segments != [] {
      var k := |segments| - 1;
      PlannedSegments(segments[..k], allocations[..k]);
      forall work | work in Plan(segments, allocations)
        ensures exists i :: 0 <= i < |segments| && segments[i].ord == work.segment
      {
        if work in Plan(segments[..k], allocations[..k]) {
          var i :| 0 <= i < k && segments[..k][i].ord == work.segment;
          assert segments[i].ord == work.segment;
        } else {
          assert segments[k].ord == work.segment;
        }
      }
    }
  }
}
