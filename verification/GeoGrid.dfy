/** The tile histogram: counts of documents or points per tile, limited in the number of tiles, and
    merged over segments. */
module GeoGrid {
  import opened Wrappers
  import opened Sorting
  import opened Morton

  datatype EncodedPoint = EncodedPoint(inside: bool, morton: nat)

  // The coordinate field of one document; a corrupt one has a wrong length.
  datatype GeoDoc = Missing | Corrupt | Points(points: seq<EncodedPoint>)

  datatype CountMode = Documents | PerPoint

  // The tiles of the points inside the bounds, in order.
  function RawTiles(points: seq<EncodedPoint>, zoom: nat): seq<nat> {
    if points == [] then []
    else
      var last := points[|points| - 1];
      var before := RawTiles(points[..|points| - 1], zoom);
      match MortonAtZoom(last.morton, zoom)
      case Ok(tile) => if last.inside then before + [tile] else before
      case Err(_) => before
  }

  predicate Less(a: nat, b: nat) {
    a < b
  }

  // Removes neighbours that are equal.
  function Dedup(tiles: seq<nat>): seq<nat> {
    if |tiles| <= 1 then tiles
    else
      var before := Dedup(tiles[..|tiles| - 1]);
      if tiles[|tiles| - 1] == tiles[|tiles| - 2] then before else before + [tiles[|tiles| - 1]]
  }

  function TilesOf(doc: GeoDoc, zoom: nat, mode: CountMode): seq<nat> {
    if !doc.Points? then []
    else
      var tiles := RawTiles(doc.points, zoom);
      if mode.Documents? then Dedup(Sort(tiles, Less)) else tiles
  }

  // ----- what the grid should count -----

  function Occurrences(tiles: seq<nat>, tile: nat): nat {
    if tiles == [] then 0
    else Occurrences(tiles[..|tiles| - 1], tile) + (if tiles[|tiles| - 1] == tile then 1 else 0)
  }

  /** What a document adds to a tile: its points there, or one if it has any. */
  function Share(doc: GeoDoc, zoom: nat, mode: CountMode, tile: nat): nat {
    if !doc.Points? then 0
    else
      var points := Occurrences(RawTiles(doc.points, zoom), tile);
      if mode.Documents? then (if points > 0 then 1 else 0) else points
  }

  /** The global count of a tile. */
  function TileCount(docs: seq<GeoDoc>, zoom: nat, mode: CountMode, tile: nat): nat {
    if docs == [] then 0
    else TileCount(docs[..|docs| - 1], zoom, mode, tile) + Share(docs[|docs| - 1], zoom, mode, tile)
  }

  function DistinctTiles(docs: seq<GeoDoc>, zoom: nat): set<nat> {
    if docs == [] then {}
    else DistinctTiles(docs[..|docs| - 1], zoom) + TileSet(docs[|docs| - 1], zoom)
  }

  function TileSet(doc: GeoDoc, zoom: nat): set<nat> {
    if doc.Points? then set tile | tile in RawTiles(doc.points, zoom) else {}
  }

  predicate AnyCorrupt(docs: seq<GeoDoc>) {
    exists i :: 0 <= i < |docs| && docs[i].Corrupt?
  }

  // ----- the tiles of one document -----

  lemma {:induction false} OccursIn(tiles: seq<nat>, tile: nat)
    ensures Occurrences(tiles, tile) > 0 <==> tile in tiles
    ensures Occurrences(tiles, tile) == multiset(tiles)[tile]
  {
    if tiles != [] {
      OccursIn(tiles[..|tiles| - 1], tile);
      assert tiles == tiles[..|tiles| - 1] + [tiles[|tiles| - 1]];
    }
  }

  ghost predicate Ascending(tiles: seq<nat>) {
    forall i, j :: 0 <= i < j < |tiles| ==> tiles[i] <= tiles[j]
  }

  lemma LastRepeats(tiles: seq<nat>)
    requires Ascending(tiles) && |tiles| > 1
    ensures tiles[|tiles| - 1] in tiles[..|tiles| - 1] <==> tiles[|tiles| - 1] == tiles[|tiles| - 2]
  {
    var front, last := tiles[..|tiles| - 1], tiles[|tiles| - 1];
    if last in front {
      var i :| 0 <= i < |front| && front[i] == last;
      assert tiles[i] <= tiles[|tiles| - 2] <= last;
    }
    assert front[|front| - 1] == tiles[|tiles| - 2];
  }

  lemma OccursSnoc(tiles: seq<nat>, last: nat, tile: nat)
    ensures Occurrences(tiles + [last], tile) == Occurrences(tiles, tile) + (if last == tile then 1 else 0)
  {
    assert (tiles + [last])[..|tiles|] == tiles;
  }

  lemma {:induction false} DedupOnce(tiles: seq<nat>, tile: nat)
    requires Ascending(tiles)
    ensures Occurrences(Dedup(tiles), tile) == if tile in tiles then 1 else 0
  {
    if |tiles| > 1 {
      var front, last := tiles[..|tiles| - 1], tiles[|tiles| - 1];
      DedupOnce(front, tile);
      LastRepeats(tiles);
      OccursSnoc(Dedup(front), last, tile);
      assert tile in tiles <==> tile in front || tile == last by { assert tiles == front + [last]; }
    } else if |tiles| == 1 {
      assert tiles[..0] == [];
    }
  }

  /** Sorting and removing neighbours leaves each tile of a document once. */
  lemma TilesCount(doc: GeoDoc, zoom: nat, mode: CountMode, tile: nat)
    ensures Occurrences(TilesOf(doc, zoom, mode), tile) == Share(doc, zoom, mode, tile)
  {
    if doc.Points? {
      var tiles := RawTiles(doc.points, zoom);
      OccursIn(tiles, tile);
      if mode.Documents? {
        SortSorts(tiles, Less);
        SortMembers(tiles, Less, tile);
        var sorted := Sort(tiles, Less);
        forall i, j | 0 <= i < j < |sorted| ensures sorted[i] <= sorted[j] { assert !Less(sorted[j], sorted[i]); }
        DedupOnce(sorted, tile);
      }
    }
  }

  lemma TilesSet(doc: GeoDoc, zoom: nat, mode: CountMode, tile: nat)
    ensures tile in TilesOf(doc, zoom, mode) <==> tile in TileSet(doc, zoom)
  {
    TilesCount(doc, zoom, mode, tile);
    OccursIn(TilesOf(doc, zoom, mode), tile);
    if doc.Points? { OccursIn(RawTiles(doc.points, zoom), tile); }
  }

  // ----- one segment -----

  function Get(counts: map<nat, nat>, tile: nat): nat {
    if tile in counts then counts[tile] else 0
  }

  // The counts after the tiles of `docs` and then `tiles` have been added.
  ghost predicate Exact(counts: map<nat, nat>, docs: seq<GeoDoc>, zoom: nat, mode: CountMode, tiles: seq<nat>) {
    && (forall tile :: tile in counts <==> tile in DistinctTiles(docs, zoom) || tile in tiles)
    && forall tile :: Get(counts, tile) == TileCount(docs, zoom, mode, tile) + Occurrences(tiles, tile)
  }

  lemma OneMoreTile(counts: map<nat, nat>, docs: seq<GeoDoc>, zoom: nat, mode: CountMode, tiles: seq<nat>, tile: nat)
    requires Exact(counts, docs, zoom, mode, tiles)
    ensures Exact(counts[tile := Get(counts, tile) + 1], docs, zoom, mode, tiles + [tile])
  {
    var longer := tiles + [tile];
    assert longer[..|tiles|] == tiles;
    forall other ensures Occurrences(longer, other) == Occurrences(tiles, other) + (if other == tile then 1 else 0) { }
  }

  lemma DocumentDone(counts: map<nat, nat>, docs: seq<GeoDoc>, zoom: nat, mode: CountMode, doc: GeoDoc)
    requires Exact(counts, docs, zoom, mode, TilesOf(doc, zoom, mode))
    ensures Exact(counts, docs + [doc], zoom, mode, [])
  {
    var more := docs + [doc];
    assert more[..|docs|] == docs;
    forall tile ensures tile in counts <==> tile in DistinctTiles(more, zoom) { TilesSet(doc, zoom, mode, tile); }
    forall tile ensures Get(counts, tile) == TileCount(more, zoom, mode, tile) { TilesCount(doc, zoom, mode, tile); }
  }

  lemma {:induction false} FinerSet(smaller: set<nat>, larger: set<nat>)
    requires smaller <= larger
    ensures |smaller| <= |larger|
  {
    assert larger == smaller + (larger - smaller);
  }

  lemma DistinctGrows(docs: seq<GeoDoc>, doc: GeoDoc, zoom: nat)
    ensures DistinctTiles(docs + [doc], zoom) == DistinctTiles(docs, zoom) + TileSet(doc, zoom)
    ensures |DistinctTiles(docs, zoom)| <= |DistinctTiles(docs + [doc], zoom)|
  {
    assert (docs + [doc])[..|docs|] == docs;
    FinerSet(DistinctTiles(docs, zoom), DistinctTiles(docs + [doc], zoom));
  }

  lemma CorruptGrows(docs: seq<GeoDoc>, doc: GeoDoc)
    ensures AnyCorrupt(docs + [doc]) <==> AnyCorrupt(docs) || doc.Corrupt?
  {
    var more := docs + [doc];
    assert more[|docs|] == doc;
    if AnyCorrupt(docs) { var i :| 0 <= i < |docs| && docs[i].Corrupt?; assert more[i].Corrupt?; }
  }

  datatype Fruit = Fruit(counts: map<nat, nat>, overflowed: bool, corrupt: bool)

  /** What a segment's result says about its documents. */
  ghost predicate Reports(fruit: Fruit, docs: seq<GeoDoc>, zoom: nat, mode: CountMode, maxBuckets: nat) {
    && (fruit.corrupt ==> AnyCorrupt(docs))
    && (fruit.overflowed ==> |DistinctTiles(docs, zoom)| > maxBuckets)
    && (!fruit.corrupt && !fruit.overflowed ==>
          !AnyCorrupt(docs) && |DistinctTiles(docs, zoom)| <= maxBuckets && Exact(fruit.counts, docs, zoom, mode, []))
  }

  class SegmentCollector {
    const zoom: nat
    const maxBuckets: nat
    const mode: CountMode
    var counts: map<nat, nat>
    var overflowed: bool
    var corrupt: bool
    ghost var seen: seq<GeoDoc>

    ghost predicate Valid()
      reads this
    {
      Reports(Fruit(counts, overflowed, corrupt), seen, zoom, mode, maxBuckets)
    }

    constructor (zoom: nat, maxBuckets: nat, mode: CountMode)
      ensures Valid() && seen == [] && this.zoom == zoom && this.maxBuckets == maxBuckets && this.mode == mode
    {
      this.zoom, this.maxBuckets, this.mode := zoom, maxBuckets, mode;
      counts, overflowed, corrupt, seen := map[], false, false, [];
    }

    method Increment(tile: nat)
      modifies this`counts, this`overflowed
      ensures if tile !in old(counts) && |old(counts)| >= maxBuckets then overflowed && counts == old(counts)
              else overflowed == old(overflowed) && counts == old(counts)[tile := Get(old(counts), tile) + 1]
    {
      if tile !in counts && |counts| >= maxBuckets {
        overflowed := true;
        return;
      }
      counts := counts[tile := (if tile in counts then counts[tile] else 0) + 1];
    }

    /** Adds one document; after an overflow or a corrupt document nothing more is counted. */
    method Collect(doc: GeoDoc)
      requires Valid()
      modifies this
      ensures Valid() && seen == old(seen) + [doc]
    {
      DistinctGrows(seen, doc, zoom);
      CorruptGrows(seen, doc);
      if overflowed || corrupt {
        seen := seen + [doc];
        return;
      }
      match doc
      case Missing =>
        DocumentDone(counts, seen, zoom, mode, doc);
        seen := seen + [doc];
      case Corrupt =>
        corrupt := true;
        seen := seen + [doc];
      case Points(_) =>
        ghost var all := DistinctTiles(seen, zoom) + TileSet(doc, zoom);
        StartAdding(counts, seen, zoom, mode, all, maxBuckets);
        forall tile | tile in TilesOf(doc, zoom, mode) ensures tile in all { TilesSet(doc, zoom, mode, tile); }
        AddTiles(TilesOf(doc, zoom, mode), all);
        if !overflowed {
          AddedAll(counts, seen, zoom, mode, doc, maxBuckets);
          DocumentDone(counts, seen, zoom, mode, doc);
        }
        seen := seen + [doc];
    }

    method AddTiles(tiles: seq<nat>, ghost all: set<nat>)
      requires Progress([], all) && forall tile :: tile in tiles ==> tile in all
      modifies this`counts, this`overflowed
      ensures Progress(tiles, all)
    {
      for i := 0 to |tiles|
        invariant Progress(tiles[..i], all)
      {
        assert tiles[..i + 1] == tiles[..i] + [tiles[i]];
        AddTile(tiles[i], tiles[..i], all);
      }
      assert tiles[..|tiles|] == tiles;
    }

    ghost predicate Progress(done: seq<nat>, all: set<nat>)
      reads this
    {
      if overflowed then |all| > maxBuckets else Adding(counts, seen, zoom, mode, done, all, maxBuckets)
    }

    method AddTile(tile: nat, ghost done: seq<nat>, ghost all: set<nat>)
      requires Progress(done, all) && tile in all
      modifies this`counts, this`overflowed
      ensures Progress(done + [tile], all)
    {
      if !overflowed { AddingNext(counts, seen, zoom, mode, done, tile, all, maxBuckets); }
      Increment(tile);
    }

    method Harvest() returns (fruit: Fruit)
      requires Valid()
      ensures Reports(fruit, seen, zoom, mode, maxBuckets)
    {
      fruit := Fruit(counts, overflowed, corrupt);
    }
  }

  // While the tiles of a document are being added.
  ghost predicate Adding(counts: map<nat, nat>, docs: seq<GeoDoc>, zoom: nat, mode: CountMode, done: seq<nat>,
                         all: set<nat>, maxBuckets: nat) {
    |counts| <= maxBuckets && counts.Keys <= all && Exact(counts, docs, zoom, mode, done)
  }

  lemma StartAdding(counts: map<nat, nat>, docs: seq<GeoDoc>, zoom: nat, mode: CountMode, all: set<nat>,
                    maxBuckets: nat)
    requires Exact(counts, docs, zoom, mode, []) && DistinctTiles(docs, zoom) <= all &&
             |DistinctTiles(docs, zoom)| <= maxBuckets
    ensures Adding(counts, docs, zoom, mode, [], all, maxBuckets)
  {
    assert counts.Keys == DistinctTiles(docs, zoom);
    assert |counts.Keys| == |counts|;
  }

  lemma OneMoreKey(keys: set<nat>, key: nat, all: set<nat>)
    requires key !in keys && keys <= all && key in all
    ensures |keys| + 1 <= |all| && |keys + {key}| == |keys| + 1
  {
    FinerSet(keys + {key}, all);
  }

  lemma AddingNext(counts: map<nat, nat>, docs: seq<GeoDoc>, zoom: nat, mode: CountMode, done: seq<nat>, tile: nat,
                   all: set<nat>, maxBuckets: nat)
    requires Adding(counts, docs, zoom, mode, done, all, maxBuckets) && tile in all
    ensures if tile !in counts && |counts| >= maxBuckets then |all| > maxBuckets
            else Adding(counts[tile := Get(counts, tile) + 1], docs, zoom, mode, done + [tile], all, maxBuckets)
  {
    var after := counts[tile := Get(counts, tile) + 1];
    OneMoreTile(counts, docs, zoom, mode, done, tile);
    assert |counts.Keys| == |counts| && |after.Keys| == |after|;
    assert after.Keys == counts.Keys + {tile};
    if tile !in counts { OneMoreKey(counts.Keys, tile, all); } else { assert after.Keys == counts.Keys; }
  }

  lemma AddedAll(counts: map<nat, nat>, docs: seq<GeoDoc>, zoom: nat, mode: CountMode, doc: GeoDoc, maxBuckets: nat)
    requires Exact(counts, docs, zoom, mode, TilesOf(doc, zoom, mode)) && |counts| <= maxBuckets
    ensures |DistinctTiles(docs, zoom) + TileSet(doc, zoom)| <= maxBuckets
  {
    var all := DistinctTiles(docs, zoom) + TileSet(doc, zoom);
    forall tile | tile in all ensures tile in counts.Keys { TilesSet(doc, zoom, mode, tile); }
    FinerSet(all, counts.Keys);
    assert |counts.Keys| == |counts|;
  }

  // ----- merging segments -----

  lemma {:induction false} CountsAppend(a: seq<GeoDoc>, b: seq<GeoDoc>, zoom: nat, mode: CountMode, tile: nat)
    ensures TileCount(a + b, zoom, mode, tile) == TileCount(a, zoom, mode, tile) + TileCount(b, zoom, mode, tile)
  {
    if b == [] {
      assert a + b == a;
    } else {
      CountsAppend(a, b[..|b| - 1], zoom, mode, tile);
      assert (a + b)[..|a + b| - 1] == a + b[..|b| - 1];
    }
  }

  lemma CorruptAppend(a: seq<GeoDoc>, b: seq<GeoDoc>)
    ensures AnyCorrupt(a + b) <==> AnyCorrupt(a) || AnyCorrupt(b)
  {
    if AnyCorrupt(a) { var i :| 0 <= i < |a| && a[i].Corrupt?; assert (a + b)[i].Corrupt?; }
    if AnyCorrupt(b) { var i :| 0 <= i < |b| && b[i].Corrupt?; assert (a + b)[|a| + i].Corrupt?; }
  }

  // The documents of the first `n` segments.
  function AllDocs(segments: seq<seq<GeoDoc>>, n: nat): seq<GeoDoc>
    requires n <= |segments|
  {
    if n == 0 then [] else AllDocs(segments, n - 1) + segments[n - 1]
  }

  lemma {:induction false} DistinctAppend(a: seq<GeoDoc>, b: seq<GeoDoc>, zoom: nat)
    ensures DistinctTiles(a + b, zoom) == DistinctTiles(a, zoom) + DistinctTiles(b, zoom)
  {
    if b == [] {
      assert a + b == a;
    } else {
      DistinctAppend(a, b[..|b| - 1], zoom);
      assert (a + b)[..|a + b| - 1] == a + b[..|b| - 1];
    }
  }

  lemma {:induction false} PrefixOfAll(segments: seq<seq<GeoDoc>>, i: nat, n: nat, zoom: nat)
    requires i <= n <= |segments|
    ensures AnyCorrupt(AllDocs(segments, i)) ==> AnyCorrupt(AllDocs(segments, n))
    ensures DistinctTiles(AllDocs(segments, i), zoom) <= DistinctTiles(AllDocs(segments, n), zoom)
    decreases n
  {
    if i < n {
      PrefixOfAll(segments, i, n - 1, zoom);
      CorruptAppend(AllDocs(segments, n - 1), segments[n - 1]);
      DistinctAppend(AllDocs(segments, n - 1), segments[n - 1], zoom);
    }
  }

  /** A failure inside one segment, or up to one, is a failure of the whole. */
  lemma FailsEarly(segments: seq<seq<GeoDoc>>, i: nat, zoom: nat, maxBuckets: nat)
    requires i < |segments|
    ensures MustFail(segments[i], zoom, maxBuckets) ==> MustFail(AllDocs(segments, |segments|), zoom, maxBuckets)
    ensures MustFail(AllDocs(segments, i + 1), zoom, maxBuckets) ==>
              MustFail(AllDocs(segments, |segments|), zoom, maxBuckets)
  {
    var all := AllDocs(segments, |segments|);
    CorruptAppend(AllDocs(segments, i), segments[i]);
    DistinctAppend(AllDocs(segments, i), segments[i], zoom);
    PrefixOfAll(segments, i + 1, |segments|, zoom);
    FinerSet(DistinctTiles(segments[i], zoom), DistinctTiles(all, zoom));
    FinerSet(DistinctTiles(AllDocs(segments, i + 1), zoom), DistinctTiles(all, zoom));
  }

  // The sum of two counts, except for the tiles still to be added.
  ghost predicate Summed(sum: map<nat, nat>, counts: map<nat, nat>, more: map<nat, nat>, left: set<nat>) {
    && left <= more.Keys && sum.Keys == counts.Keys + (more.Keys - left)
    && forall tile :: Get(sum, tile) == Get(counts, tile) + (if tile in left then 0 else Get(more, tile))
  }

  lemma SummedSize(sum: map<nat, nat>, counts: map<nat, nat>, more: map<nat, nat>, left: set<nat>)
    requires Summed(sum, counts, more, left)
    ensures |sum| <= |counts.Keys + more.Keys|
  {
    FinerSet(sum.Keys, counts.Keys + more.Keys);
    assert |sum.Keys| == |sum|;
  }

  lemma AllSummed(sum: map<nat, nat>, counts: map<nat, nat>, more: map<nat, nat>)
    requires Summed(sum, counts, more, {})
    ensures |counts.Keys + more.Keys| == |sum|
  {
    assert sum.Keys == counts.Keys + more.Keys;
    assert |sum.Keys| == |sum|;
  }

  lemma SummedNext(sum: map<nat, nat>, counts: map<nat, nat>, more: map<nat, nat>, left: set<nat>, tile: nat)
    requires Summed(sum, counts, more, left) && tile in left
    ensures Summed(sum[tile := Get(sum, tile) + more[tile]], counts, more, left - {tile})
  {
    assert (more.Keys - left) + {tile} == more.Keys - (left - {tile});
  }

  /** Adds the counts of one segment, tile by tile; fails as soon as there are too many tiles. */
  method AddCounts(counts: map<nat, nat>, more: map<nat, nat>, maxBuckets: nat) returns (r: Result<map<nat, nat>>)
    requires |counts| <= maxBuckets
    ensures r.Ok? <==> |counts.Keys + more.Keys| <= maxBuckets
    ensures r.Ok? ==> Summed(r.value, counts, more, {})
  {
    var sum: map<nat, nat> := counts;
    var left := more.Keys;
    assert Summed(sum, counts, more, left);
    while left != {}
      invariant Summed(sum, counts, more, left) && |sum| <= maxBuckets
      decreases |left|
    {
      var tile :| tile in left;
      SummedNext(sum, counts, more, left, tile);
      sum, left := sum[tile := Get(sum, tile) + more[tile]], left - {tile};
      if |sum| > maxBuckets {
        SummedSize(sum, counts, more, left);
        return Err("geo tile aggregation exceeded max_buckets");
      }
    }
    AllSummed(sum, counts, more);
    return Ok(sum);
  }

  /** The global count of the given documents. */
  ghost predicate CountsOf(counts: map<nat, nat>, docs: seq<GeoDoc>, zoom: nat, mode: CountMode) {
    && counts.Keys == DistinctTiles(docs, zoom)
    && forall tile :: Get(counts, tile) == TileCount(docs, zoom, mode, tile)
  }

  // Too many distinct tiles, or a corrupt coordinate field.
  ghost predicate MustFail(docs: seq<GeoDoc>, zoom: nat, maxBuckets: nat) {
    AnyCorrupt(docs) || |DistinctTiles(docs, zoom)| > maxBuckets
  }

  /** Merging fails exactly when some coordinate is corrupt or the documents have more distinct tiles
      than allowed, however they are divided into segments; otherwise it is the global count. */
  method MergeFruits(segments: seq<seq<GeoDoc>>, fruits: seq<Fruit>, zoom: nat, mode: CountMode, maxBuckets: nat)
    returns (r: Result<map<nat, nat>>)
    requires |fruits| == |segments|
    requires forall i :: 0 <= i < |segments| ==> Reports(fruits[i], segments[i], zoom, mode, maxBuckets)
    ensures r.Err? <==> MustFail(AllDocs(segments, |segments|), zoom, maxBuckets)
    ensures r.Ok? ==> CountsOf(r.value, AllDocs(segments, |segments|), zoom, mode)
  {
    var counts: map<nat, nat> := map[];
    for i := 0 to |fruits|
      invariant !MustFail(AllDocs(segments, i), zoom, maxBuckets) && CountsOf(counts, AllDocs(segments, i), zoom, mode)
    {
      FailsEarly(segments, i, zoom, maxBuckets);
      var merged := MergeOne(segments, i, counts, fruits[i], zoom, mode, maxBuckets);
      if merged.Err? { return merged; }
      counts := merged.value;
    }
    r := Ok(counts);
  }

  // One more segment.
  method MergeOne(ghost segments: seq<seq<GeoDoc>>, ghost i: nat, counts: map<nat, nat>, fruit: Fruit, ghost zoom: nat,
                  ghost mode: CountMode,
                  maxBuckets: nat) returns (r: Result<map<nat, nat>>)
    requires i < |segments| && Reports(fruit, segments[i], zoom, mode, maxBuckets)
    requires !MustFail(AllDocs(segments, i), zoom, maxBuckets) && CountsOf(counts, AllDocs(segments, i), zoom, mode)
    ensures r.Err? ==> MustFail(segments[i], zoom, maxBuckets) || MustFail(AllDocs(segments, i + 1), zoom, maxBuckets)
    ensures r.Ok? ==> !MustFail(AllDocs(segments, i + 1), zoom, maxBuckets)
    ensures r.Ok? ==> CountsOf(r.value, AllDocs(segments, i + 1), zoom, mode)
  {
    if fruit.corrupt { return Err("corrupt geo coordinate fast field"); }
    if fruit.overflowed { return Err("geo tile aggregation exceeded max_buckets"); }
    assert |counts.Keys| == |counts|;
    r := AddCounts(counts, fruit.counts, maxBuckets);
    SegmentMerged(segments, i, zoom, mode, counts, fruit.counts, r);
  }

  lemma SegmentMerged(segments: seq<seq<GeoDoc>>, i: nat, zoom: nat, mode: CountMode, counts: map<nat, nat>,
                      more: map<nat, nat>,
                      sum: Result<map<nat, nat>>)
    requires i < |segments| && CountsOf(counts, AllDocs(segments, i), zoom, mode) &&
             Exact(more, segments[i], zoom, mode, [])
    requires sum.Ok? ==> Summed(sum.value, counts, more, {})
    ensures DistinctTiles(AllDocs(segments, i + 1), zoom) == counts.Keys + more.Keys
    ensures sum.Ok? ==> CountsOf(sum.value, AllDocs(segments, i + 1), zoom, mode)
    ensures AnyCorrupt(AllDocs(segments, i + 1)) <==> AnyCorrupt(AllDocs(segments, i)) || AnyCorrupt(segments[i])
  {
    var before, here := AllDocs(segments, i), segments[i];
    CorruptAppend(before, here);
    DistinctAppend(before, here, zoom);
    assert more.Keys == DistinctTiles(here, zoom);
    forall tile ensures TileCount(AllDocs(segments, i + 1), zoom, mode, tile) == Get(counts, tile) + Get(more, tile) {
      CountsAppend(before, here, zoom, mode, tile);
    }
  }

  // ----- the grid in terms of positions -----

  // A point inside the bounds that lies in the tile.
  predicate Lies(point: EncodedPoint, zoom: nat, tile: nat) {
    point.inside && MortonAtZoom(point.morton, zoom) == Ok(tile)
  }

  // Those of a document, by position.
  ghost function PointsIn(doc: GeoDoc, zoom: nat, tile: nat): set<nat> {
    if !doc.Points? then {} else set i | 0 <= i < |doc.points| && Lies(doc.points[i], zoom, tile)
  }

  // All of them, as document and point.
  ghost function PointsThere(docs: seq<GeoDoc>, zoom: nat, tile: nat): set<(nat, nat)> {
    set d: nat, i: nat | d < |docs| && i in PointsIn(docs[d], zoom, tile) :: (d, i)
  }

  // The documents that have one.
  ghost function DocsThere(docs: seq<GeoDoc>, zoom: nat, tile: nat): set<nat> {
    set d | 0 <= d < |docs| && PointsIn(docs[d], zoom, tile) != {}
  }

  // The tiles that have one.
  ghost function TilesThere(docs: seq<GeoDoc>, zoom: nat): set<nat> {
    set d, i | 0 <= d < |docs| && docs[d].Points? && 0 <= i < |docs[d].points| && docs[d].points[i].inside &&
               MortonAtZoom(docs[d].points[i].morton, zoom).Ok? :: MortonAtZoom(docs[d].points[i].morton, zoom).value
  }

  lemma OneMorePoint(points: seq<EncodedPoint>, zoom: nat, tile: nat)
    requires points != []
    ensures var k := |points| - 1;
            |PointsIn(Points(points), zoom, tile)| ==
            |PointsIn(Points(points[..k]), zoom, tile)| + if Lies(points[k], zoom, tile) then 1 else 0
  {
    var k := |points| - 1;
    var before, after := PointsIn(Points(points[..k]), zoom, tile), PointsIn(Points(points), zoom, tile);
    forall i ensures i in after <==> i in before || (i == k && Lies(points[k], zoom, tile)) { }
    if Lies(points[k], zoom, tile) { assert after == before + {k}; } else { assert after == before; }
  }

  lemma {:induction false} TilesOfPoints(points: seq<EncodedPoint>, zoom: nat, tile: nat)
    ensures Occurrences(RawTiles(points, zoom), tile) == |PointsIn(Points(points), zoom, tile)|
  {
    if points != [] {
      var k := |points| - 1;
      TilesOfPoints(points[..k], zoom, tile);
      OneMorePoint(points, zoom, tile);
      var here := MortonAtZoom(points[k].morton, zoom);
      if points[k].inside && here.Ok? { OccursSnoc(RawTiles(points[..k], zoom), here.value, tile); }
    }
  }

  /** A document adds the number of its points in the tile, or one exactly if it has such a point. */
  lemma ShareOfPoints(doc: GeoDoc, zoom: nat, mode: CountMode, tile: nat)
    ensures Share(doc, zoom, mode, tile) ==
            if mode.PerPoint? then |PointsIn(doc, zoom, tile)| else if PointsIn(doc, zoom, tile) != {} then 1 else 0
    ensures tile in TileSet(doc, zoom) <==> PointsIn(doc, zoom, tile) != {}
  {
    if doc.Points? {
      TilesOfPoints(doc.points, zoom, tile);
      OccursIn(RawTiles(doc.points, zoom), tile);
    }
  }

  function Pairs(d: nat, points: set<nat>): set<(nat, nat)> {
    set i | i in points :: (d, i)
  }

  lemma {:induction false} PairsCount(d: nat, points: set<nat>)
    ensures |Pairs(d, points)| == |points|
  {
    if points != {} {
      var k :| k in points;
      PairsCount(d, points - {k});
      assert Pairs(d, points) == Pairs(d, points - {k}) + {(d, k)};
    }
  }

  lemma PointsStep(docs: seq<GeoDoc>, zoom: nat, tile: nat)
    requires docs != []
    ensures var d := |docs| - 1;
            |PointsThere(docs, zoom, tile)| ==
            |PointsThere(docs[..d], zoom, tile)| + |PointsIn(docs[d], zoom, tile)|
  {
    var d := |docs| - 1;
    var before, here, after := PointsThere(docs[..d], zoom, tile), PointsIn(docs[d], zoom, tile),
                               PointsThere(docs, zoom, tile);
    PairsCount(d, here);
    forall e: nat, i: nat ensures (e, i) in after <==> (e, i) in before || (e, i) in Pairs(d, here) { }
    assert after == before + Pairs(d, here) && before !! Pairs(d, here);
  }

  lemma DocsStep(docs: seq<GeoDoc>, zoom: nat, tile: nat)
    requires docs != []
    ensures var d := |docs| - 1;
            |DocsThere(docs, zoom, tile)| ==
            |DocsThere(docs[..d], zoom, tile)| + if PointsIn(docs[d], zoom, tile) != {} then 1 else 0
  {
    var d := |docs| - 1;
    var before, after := DocsThere(docs[..d], zoom, tile), DocsThere(docs, zoom, tile);
    forall e ensures e in after <==> e in before || (e == d && PointsIn(docs[d], zoom, tile) != {}) { }
    if PointsIn(docs[d], zoom, tile) != {} { assert after == before + {d}; } else { assert after == before; }
  }

  /** A tile counts the points in it, or the documents that have one there. */
  lemma {:induction false} CountOfPoints(docs: seq<GeoDoc>, zoom: nat, mode: CountMode, tile: nat)
    ensures TileCount(docs, zoom, mode, tile) ==
            if mode.PerPoint? then |PointsThere(docs, zoom, tile)| else |DocsThere(docs, zoom, tile)|
  {
    if docs != [] {
      CountOfPoints(docs[..|docs| - 1], zoom, mode, tile);
      ShareOfPoints(docs[|docs| - 1], zoom, mode, tile);
      PointsStep(docs, zoom, tile);
      DocsStep(docs, zoom, tile);
    }
  }

  /** The tiles are those of the points inside the bounds. */
  lemma {:induction false} TilesOfAll(docs: seq<GeoDoc>, zoom: nat)
    ensures DistinctTiles(docs, zoom) == TilesThere(docs, zoom)
  {
    if docs != [] {
      var front, last := docs[..|docs| - 1], docs[|docs| - 1];
      TilesOfAll(front, zoom);
      forall tile
        ensures tile in TilesThere(docs, zoom) <==> tile in TilesThere(front, zoom) || tile in TileSet(last, zoom)
      {
        ShareOfPoints(last, zoom, PerPoint, tile);
        TilesStep(docs, zoom, tile);
      }
    }
  }

  lemma ThereIs(docs: seq<GeoDoc>, zoom: nat, tile: nat)
    ensures tile in TilesThere(docs, zoom) <==> exists d :: 0 <= d < |docs| && PointsIn(docs[d], zoom, tile) != {}
  {
    if tile in TilesThere(docs, zoom) {
      var d, i :| 0 <= d < |docs| && docs[d].Points? && 0 <= i < |docs[d].points| && docs[d].points[i].inside &&
                  MortonAtZoom(docs[d].points[i].morton, zoom) == Ok(tile);
      assert i in PointsIn(docs[d], zoom, tile);
    }
    if d :| 0 <= d < |docs| && PointsIn(docs[d], zoom, tile) != {} {
      var i :| i in PointsIn(docs[d], zoom, tile);
      assert docs[d].points[i].inside;
    }
  }

  lemma TilesStep(docs: seq<GeoDoc>, zoom: nat, tile: nat)
    requires docs != []
    ensures tile in TilesThere(docs, zoom) <==>
            tile in TilesThere(docs[..|docs| - 1], zoom) || PointsIn(docs[|docs| - 1], zoom, tile) != {}
  {
    var k := |docs| - 1;
    ThereIs(docs, zoom, tile);
    ThereIs(docs[..k], zoom, tile);
    if d :| 0 <= d < |docs| && PointsIn(docs[d], zoom, tile) != {} && d < k { assert docs[..k][d] == docs[d]; }
    if d :| 0 <= d < k && PointsIn(docs[..k][d], zoom, tile) != {} { assert docs[..k][d] == docs[d]; }
  }

  lemma {:induction false} AllDocsAreFlat(segments: seq<seq<GeoDoc>>, n: nat)
    requires n <= |segments|
    ensures AllDocs(segments, n) == Flatten(segments[..n])
  {
    if n > 0 {
      AllDocsAreFlat(segments, n - 1);
      assert segments[..n][..n - 1] == segments[..n - 1];
    } else {
      assert segments[..0] == [];
    }
  }

  /** The grid of some documents: for every tile with a point inside the bounds the number of such points,
      or of the documents that have one. */
  ghost predicate IsGrid(counts: map<nat, nat>, docs: seq<GeoDoc>, zoom: nat, mode: CountMode) {
    && counts.Keys == TilesThere(docs, zoom)
    && forall tile :: tile in counts ==>
         counts[tile] == if mode.PerPoint? then |PointsThere(docs, zoom, tile)| else |DocsThere(docs, zoom, tile)|
  }

  lemma CountsAreGrid(counts: map<nat, nat>, docs: seq<GeoDoc>, zoom: nat, mode: CountMode)
    requires CountsOf(counts, docs, zoom, mode)
    ensures IsGrid(counts, docs, zoom, mode)
  {
    TilesOfAll(docs, zoom);
    forall tile | tile in counts
      ensures counts[tile] == if mode.PerPoint? then |PointsThere(docs, zoom, tile)| else |DocsThere(docs, zoom, tile)|
    {
      assert counts[tile] == Get(counts, tile);
      CountOfPoints(docs, zoom, mode, tile);
    }
  }

  /** The whole aggregation: one collector per segment, then the merge. */
  method CollectGrid(segments: seq<seq<GeoDoc>>, zoom: nat, mode: CountMode, maxBuckets: nat)
    returns (r: Result<map<nat, nat>>)
    ensures r.Err? <==> (exists d :: 0 <= d < |Flatten(segments)| && Flatten(segments)[d].Corrupt?) ||
                        |TilesThere(Flatten(segments), zoom)| > maxBuckets
    ensures r.Ok? ==> IsGrid(r.value, Flatten(segments), zoom, mode)
  {
    var fruits: seq<Fruit> := [];
    for i := 0 to |segments|
      invariant |fruits| == i && forall k :: 0 <= k < i ==> Reports(fruits[k], segments[k], zoom, mode, maxBuckets)
    {
      var fruit := CollectSegment(segments[i], zoom, mode, maxBuckets);
      fruits := fruits + [fruit];
    }
    r := MergeFruits(segments, fruits, zoom, mode, maxBuckets);
    AllDocsAreFlat(segments, |segments|);
    assert segments[..|segments|] == segments;
    TilesOfAll(Flatten(segments), zoom);
    if r.Ok? { CountsAreGrid(r.value, Flatten(segments), zoom, mode); }
  }

  method CollectSegment(docs: seq<GeoDoc>, zoom: nat, mode: CountMode, maxBuckets: nat) returns (fruit: Fruit)
    ensures Reports(fruit, docs, zoom, mode, maxBuckets)
  {
    var collector := new SegmentCollector(zoom, maxBuckets, mode);
    for i := 0 to |docs|
      invariant collector.Valid() && collector.seen == docs[..i]
    {
      assert docs[..i + 1] == docs[..i] + [docs[i]];
      collector.Collect(docs[i]);
    }
    assert docs[..|docs|] == docs;
    fruit := collector.Harvest();
  }

  // ----- zooming in -----

  // The four tiles a tile divides into.
  function ChildrenCount(docs: seq<GeoDoc>, zoom: nat, tile: nat): nat {
    TileCount(docs, zoom + 1, PerPoint, 4 * tile) + TileCount(docs, zoom + 1, PerPoint, 4 * tile + 1) +
    TileCount(docs, zoom + 1, PerPoint, 4 * tile + 2) + TileCount(docs, zoom + 1, PerPoint, 4 * tile + 3)
  }

  ghost predicate Encodable(doc: GeoDoc) {
    doc.Points? ==> forall i :: 0 <= i < |doc.points| ==> doc.points[i].morton < Pow2(62)
  }

  lemma {:induction false} PointsOfChildren(points: seq<EncodedPoint>, zoom: nat, tile: nat)
    requires zoom < GEO_MAX_ZOOM && forall i :: 0 <= i < |points| ==> points[i].morton < Pow2(62)
    ensures var finer := RawTiles(points, zoom + 1);
            Occurrences(RawTiles(points, zoom), tile) ==
            Occurrences(finer, 4 * tile) + Occurrences(finer, 4 * tile + 1) + Occurrences(finer, 4 * tile + 2) +
              Occurrences(finer, 4 * tile + 3)
  {
    if points != [] {
      var front, last := points[..|points| - 1], points[|points| - 1];
      PointsOfChildren(front, zoom, tile);
      ParentTile(last.morton, zoom);
      var tile', finer := MortonAtZoom(last.morton, zoom).value, MortonAtZoom(last.morton, zoom + 1).value;
      OccursSnoc(RawTiles(front, zoom), tile', tile);
      OccursSnoc(RawTiles(front, zoom + 1), finer, 4 * tile);
      OccursSnoc(RawTiles(front, zoom + 1), finer, 4 * tile + 1);
      OccursSnoc(RawTiles(front, zoom + 1), finer, 4 * tile + 2);
      OccursSnoc(RawTiles(front, zoom + 1), finer, 4 * tile + 3);
    }
  }

  /** Counting points, a tile has as many as its four children one zoom level further in. */
  lemma {:induction false} TileIsItsChildren(docs: seq<GeoDoc>, zoom: nat, tile: nat)
    requires zoom < GEO_MAX_ZOOM && forall i :: 0 <= i < |docs| ==> Encodable(docs[i])
    ensures TileCount(docs, zoom, PerPoint, tile) == ChildrenCount(docs, zoom, tile)
  {
    if docs != [] {
      var last := docs[|docs| - 1];
      TileIsItsChildren(docs[..|docs| - 1], zoom, tile);
      if last.Points? { PointsOfChildren(last.points, zoom, tile); }
    }
  }
}
