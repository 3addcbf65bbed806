/** Collecting the live matching documents of a range, in blocks and one by one. */
module RangeCollection {
  import opened Sorting
  import opened SegmentRanges
  import opened HitOrder

  const COLLECT_BLOCK_BUFFER_LEN: nat := 64

  /** What a query finds in one segment: the matching documents in ascending order, as its scorer
      visits them, and the documents that are not deleted. */
  datatype SegmentMatches = SegmentMatches(matching: seq<nat>, alive: set<nat>, maxDoc: nat)

  ghost predicate WellFormed(matches: SegmentMatches) {
    && (forall i, j :: 0 <= i < j < |matches.matching| ==> matches.matching[i] < matches.matching[j])
    && (forall doc :: doc in matches.matching ==> doc < matches.maxDoc)
  }

  /** Of the first `n` matching documents, the live ones in [start, end), ascending. */
  function LiveFirst(matching: seq<nat>, alive: set<nat>, start: nat, end: nat, n: nat): seq<nat>
    requires n <= |matching|
  {
    if n == 0 then []
    else
      var before, doc := LiveFirst(matching, alive, start, end, n - 1), matching[n - 1];
      if start <= doc < end && doc in alive then before + [doc] else before
  }

  function Live(matching: seq<nat>, alive: set<nat>, start: nat, end: nat): seq<nat> {
    LiveFirst(matching, alive, start, end, |matching|)
  }

  // The first position at or after `start`; moving the scorer there is a seek.
  method Seek(matching: seq<nat>, start: nat) returns (position: nat)
    requires forall i, j :: 0 <= i < j < |matching| ==> matching[i] < matching[j]
    ensures position <= |matching|
    ensures (forall i :: 0 <= i < position ==> matching[i] < start) &&
            (position < |matching| ==> matching[position] >= start)
  {
    position := 0;
    while position < |matching| && matching[position] < start
      invariant position <= |matching| && forall i :: 0 <= i < position ==> matching[i] < start
    {
      position := position + 1;
    }
  }

  lemma {:induction false} LiveNone(matching: seq<nat>, alive: set<nat>, start: nat, end: nat, n: nat)
    requires n <= |matching| && forall k :: 0 <= k < n ==> matching[k] < start
    ensures LiveFirst(matching, alive, start, end, n) == []
  {
    if n > 0 { LiveNone(matching, alive, start, end, n - 1); }
  }

  // Past the end of the range nothing more is added.
  lemma {:induction false} LiveDone(matching: seq<nat>, alive: set<nat>, start: nat, end: nat, i: nat, j: nat)
    requires i <= j <= |matching| && forall k :: i <= k < j ==> matching[k] >= end
    ensures LiveFirst(matching, alive, start, end, j) == LiveFirst(matching, alive, start, end, i)
  {
    if i < j { LiveDone(matching, alive, start, end, i, j - 1); }
  }

  // Stores one document; a full buffer is delivered as a block.
  method BufferDoc(docs: array<nat>, length: nat, blocks: seq<seq<nat>>, doc: nat)
    returns (length': nat, blocks': seq<seq<nat>>)
    requires length < docs.Length
    modifies docs
    ensures length' < docs.Length && Flatten(blocks') + docs[..length'] == Flatten(blocks) + old(docs[..length]) + [doc]
    ensures blocks' == blocks ||
            (|blocks'| == |blocks| + 1 && blocks'[..|blocks|] == blocks && |blocks'[|blocks|]| == docs.Length)
  {
    ghost var before := docs[..length];
    docs[length] := doc;
    length', blocks' := length + 1, blocks;
    assert docs[..length + 1] == before + [doc];
    if length' == docs.Length {
      assert docs[..] == docs[..length + 1];
      FlattenSnoc(blocks, docs[..]);
      length', blocks' := 0, blocks + [docs[..]];
    }
  }

  /** Delivers the live matching documents of a range in full blocks and one last partial block. */
  method CollectMatchingDocs(matches: SegmentMatches, range: Range) returns (blocks: seq<seq<nat>>)
    requires WellFormed(matches)
    ensures Flatten(blocks) == Live(matches.matching, matches.alive, range.start, range.end)
    ensures forall i :: 0 <= i < |blocks| ==> 1 <= |blocks[i]| <= COLLECT_BLOCK_BUFFER_LEN
    ensures forall i :: 0 <= i < |blocks| - 1 ==> |blocks[i]| == COLLECT_BLOCK_BUFFER_LEN
  {
    var matching, alive := matches.matching, matches.alive;
    var position := Seek(matching, range.start);
    LiveNone(matching, alive, range.start, range.end, position);
    var docs := new nat[COLLECT_BLOCK_BUFFER_LEN];
    var length: nat := 0;
    blocks := [];
    while position < |matching| && matching[position] < range.end
      invariant position <= |matching| && length < docs.Length
      invariant forall k :: position <= k < |matching| ==> matching[k] >= range.start
      invariant Flatten(blocks) + docs[..length] == LiveFirst(matching, alive, range.start, range.end, position)
      invariant forall i :: 0 <= i < |blocks| ==> |blocks[i]| == COLLECT_BLOCK_BUFFER_LEN
    {
      if matching[position] in alive {
        length, blocks := BufferDoc(docs, length, blocks, matching[position]);
      }
      position := position + 1;
    }
    LiveDone(matching, alive, range.start, range.end, position, |matching|);
    if length > 0 {
      FlattenSnoc(blocks, docs[..length]);
      blocks := blocks + [docs[..length]];
    }
  }

  lemma FlattenSnoc<T>(parts: seq<seq<T>>, last: seq<T>)
    ensures Flatten(parts + [last]) == Flatten(parts) + last
  {
    assert (parts + [last])[..|parts|] == parts;
  }

  // ----- ranges put together -----

  lemma {:induction false} LiveMembers(matching: seq<nat>, alive: set<nat>, start: nat, end: nat, n: nat, doc: nat)
    requires n <= |matching|
    ensures doc in LiveFirst(matching, alive, start, end, n) <==>
            doc in matching[..n] && doc in alive && start <= doc < end
  {
    if n > 0 {
      LiveMembers(matching, alive, start, end, n - 1, doc);
      assert matching[..n] == matching[..n - 1] + [matching[n - 1]];
    }
  }

  lemma EmptyOrNot(docs: seq<nat>)
    ensures docs == [] || exists doc :: doc in docs
  {
    if docs != [] { assert docs[0] in docs; }
  }

  lemma {:induction false} LiveSplit(matching: seq<nat>, alive: set<nat>, start: nat, middle: nat, end: nat, n: nat)
    requires forall i, j :: 0 <= i < j < |matching| ==> matching[i] < matching[j]
    requires start <= middle <= end && n <= |matching|
    ensures LiveFirst(matching, alive, start, end, n) ==
            LiveFirst(matching, alive, start, middle, n) + LiveFirst(matching, alive, middle, end, n)
  {
    if n > 0 {
      LiveSplit(matching, alive, start, middle, end, n - 1);
      if matching[n - 1] < middle { LiveNone(matching, alive, middle, end, n - 1); }
    }
  }

  /** The documents of the given ranges of one segment, range by range. */
  function LiveIn(matches: SegmentMatches, ranges: seq<Range>): seq<nat> {
    if ranges == [] then []
    else
      var last := ranges[|ranges| - 1];
      LiveIn(matches, ranges[..|ranges| - 1]) + Live(matches.matching, matches.alive, last.start, last.end)
  }

  /** Ranges that cover a segment deliver each of its live matching documents once, in order. */
  lemma {:induction false} CoveredOnce(matches: SegmentMatches, ranges: seq<Range>, from: nat, to: nat)
    requires WellFormed(matches) && Consecutive(ranges, from, to)
    ensures from <= to && LiveIn(matches, ranges) == Live(matches.matching, matches.alive, from, to)
  {
    if ranges == [] {
      forall doc ensures doc !in Live(matches.matching, matches.alive, from, to) {
        LiveMembers(matches.matching, matches.alive, from, to, |matches.matching|, doc);
      }
      EmptyOrNot(Live(matches.matching, matches.alive, from, to));
    } else {
      var last := ranges[|ranges| - 1];
      CoveredOnce(matches, ranges[..|ranges| - 1], from, last.start);
      LiveSplit(matches.matching, matches.alive, from, last.start, to, |matches.matching|);
    }
  }

  // ----- document order -----

  /** Every live matching document of the snapshot, in segment and document order. */
  function AllLive(segments: seq<SegmentMatches>): seq<Address> {
    if segments == [] then []
    else
      var ord := |segments| - 1;
      AllLive(segments[..ord]) +
        Addresses(ord, Live(segments[ord].matching, segments[ord].alive, 0, segments[ord].maxDoc))
  }

  function Addresses(ord: nat, docs: seq<nat>): (addresses: seq<Address>)
    ensures |addresses| == |docs|
  {
    seq(|docs|, i requires 0 <= i < |docs| => Address(ord, docs[i]))
  }

  // ----- what the list holds -----

  lemma OneMoreMatch(matches: SegmentMatches, n: nat, doc: nat)
    requires WellFormed(matches) && 0 < n <= |matches.matching|
    ensures var before, last := matches.matching[..n - 1], matches.matching[n - 1];
            last !in before && (doc in matches.matching[..n] <==> doc in before || doc == last)
  {
    assert matches.matching[..n] == matches.matching[..n - 1] + [matches.matching[n - 1]];
  }

  lemma {:induction false} LiveOnce(matches: SegmentMatches, n: nat, doc: nat)
    requires WellFormed(matches) && n <= |matches.matching|
    ensures multiset(LiveFirst(matches.matching, matches.alive, 0, matches.maxDoc, n))[doc] ==
            if doc in matches.matching[..n] && doc in matches.alive then 1 else 0
  {
    if n > 0 {
      LiveOnce(matches, n - 1, doc);
      var last := matches.matching[n - 1];
      var before := LiveFirst(matches.matching, matches.alive, 0, matches.maxDoc, n - 1);
      assert last in matches.matching;
      assert LiveFirst(matches.matching, matches.alive, 0, matches.maxDoc, n) ==
             if last in matches.alive then before + [last] else before;
      OneMoreMatch(matches, n, doc);
    }
  }

  lemma {:induction false} AddressesOnce(ord: nat, docs: seq<nat>, a: Address)
    ensures multiset(Addresses(ord, docs))[a] == if a.segment == ord then multiset(docs)[a.doc] else 0
  {
    if docs != [] {
      var front, last := docs[..|docs| - 1], docs[|docs| - 1];
      AddressesOnce(ord, front, a);
      assert docs == front + [last];
      assert Addresses(ord, docs) == Addresses(ord, front) + [Address(ord, last)];
    }
  }

  // A document that the query matches and that is not deleted.
  predicate LiveMatch(segments: seq<SegmentMatches>, a: Address) {
    a.segment < |segments| && a.doc in segments[a.segment].matching && a.doc in segments[a.segment].alive
  }

  lemma SegmentOnce(ord: nat, matches: SegmentMatches, a: Address)
    requires WellFormed(matches)
    ensures multiset(Addresses(ord, Live(matches.matching, matches.alive, 0, matches.maxDoc)))[a] ==
            if a.segment == ord && a.doc in matches.matching && a.doc in matches.alive then 1 else 0
  {
    LiveOnce(matches, |matches.matching|, a.doc);
    assert matches.matching[..|matches.matching|] == matches.matching;
    AddressesOnce(ord, Live(matches.matching, matches.alive, 0, matches.maxDoc), a);
  }

  /** The live matching documents are listed once each, and nothing besides. */
  lemma {:induction false} AllLiveOnce(segments: seq<SegmentMatches>, a: Address)
    requires forall ord :: 0 <= ord < |segments| ==> WellFormed(segments[ord])
    ensures multiset(AllLive(segments))[a] == if LiveMatch(segments, a) then 1 else 0
  {
    if segments != [] {
      var ord := |segments| - 1;
      AllLiveOnce(segments[..ord], a);
      assert LiveMatch(segments[..ord], a) <==> a.segment < ord && LiveMatch(segments, a);
      SegmentOnce(ord, segments[ord], a);
    }
  }

  // All of them.
  ghost function LiveSet(segments: seq<SegmentMatches>): set<Address> {
    set ord, doc | 0 <= ord < |segments| && doc in segments[ord].matching && doc in segments[ord].alive ::
      Address(ord, doc)
  }

  lemma AllLiveSet(segments: seq<SegmentMatches>)
    requires forall ord :: 0 <= ord < |segments| ==> WellFormed(segments[ord])
    ensures multiset(AllLive(segments)) == multiset(LiveSet(segments))
  {
    forall a ensures multiset(AllLive(segments))[a] == multiset(LiveSet(segments))[a] {
      AllLiveOnce(segments, a);
      assert a == Address(a.segment, a.doc);
    }
  }

  lemma {:induction false} LiveAscends(matches: SegmentMatches, n: nat, i: nat, j: nat)
    requires WellFormed(matches) && n <= |matches.matching|
    requires i < j < |LiveFirst(matches.matching, matches.alive, 0, matches.maxDoc, n)|
    ensures var docs := LiveFirst(matches.matching, matches.alive, 0, matches.maxDoc, n); docs[i] < docs[j]
  {
    var before := LiveFirst(matches.matching, matches.alive, 0, matches.maxDoc, n - 1);
    if j < |before| {
      LiveAscends(matches, n - 1, i, j);
    } else {
      LiveMembers(matches.matching, matches.alive, 0, matches.maxDoc, n - 1, before[i]);
      var k :| 0 <= k < n - 1 && matches.matching[k] == before[i];
    }
  }

  /** The list is ordered by segment and then by document. */
  lemma {:induction false} AllLiveAscends(segments: seq<SegmentMatches>, i: nat, j: nat)
    requires (forall ord :: 0 <= ord < |segments| ==> WellFormed(segments[ord])) && i < j < |AllLive(segments)|
    ensures var all := AllLive(segments);
            all[i].segment < all[j].segment || (all[i].segment == all[j].segment && all[i].doc < all[j].doc)
    ensures AllLive(segments)[j].segment < |segments|
  {
    var ord := |segments| - 1;
    var matches := segments[ord];
    var before := AllLive(segments[..ord]);
    if j < |before| {
      AllLiveAscends(segments[..ord], i, j);
    } else if i < |before| {
      SegmentBelow(segments[..ord], i);
    } else {
      LiveAscends(matches, |matches.matching|, i - |before|, j - |before|);
    }
  }

  lemma {:induction false} SegmentBelow(segments: seq<SegmentMatches>, i: nat)
    requires i < |AllLive(segments)|
    ensures AllLive(segments)[i].segment < |segments|
  {
    if i < |AllLive(segments[..|segments| - 1])| { SegmentBelow(segments[..|segments| - 1], i); }
  }

  /** The slice of a result list a reader asked for. */
  function Window<T>(s: seq<T>, offset: nat, limit: nat): seq<T> {
    Take(Skip(s, offset), limit)
  }

  /** It starts `offset` elements in and has `limit` elements, or as many as are left. */
  lemma WindowAt<T>(s: seq<T>, offset: nat, limit: nat)
    ensures |Window(s, offset, limit)| == if offset + limit <= |s| then limit else if offset <= |s|
            then |s| - offset else 0
    ensures forall k :: 0 <= k < |Window(s, offset, limit)| ==> Window(s, offset, limit)[k] == s[offset + k]
  {
  }

  // How far a reader has come in `s`: skipping, collecting, or done.
  ghost predicate Reading<T>(s: seq<T>, offset: nat, limit: nat, skipped: nat, found: seq<T>) {
    skipped == Min(offset, |s|) && found == Window(s, offset, limit)
  }

  lemma ReadOne<T>(s: seq<T>, x: T, offset: nat, limit: nat, skipped: nat, found: seq<T>)
    requires Reading(s, offset, limit, skipped, found)
    ensures if skipped < offset then Reading(s + [x], offset, limit, skipped + 1, found)
            else if |found| < limit then Reading(s + [x], offset, limit, skipped, found + [x])
            else Reading(s + [x], offset, limit, skipped, found)
  {
    if skipped < offset {
      assert Skip(s, offset) == [] && Skip(s + [x], offset) == [];
    } else {
      assert Skip(s + [x], offset) == Skip(s, offset) + [x];
    }
  }

  lemma ReadDoc(ord: nat, before: seq<Address>, sofar: seq<nat>, doc: nat, offset: nat, limit: nat, skipped: nat,
                found: seq<Address>)
    requires Reading(before + Addresses(ord, sofar), offset, limit, skipped, found)
    ensures var after := before + Addresses(ord, sofar + [doc]);
            if skipped < offset then Reading(after, offset, limit, skipped + 1, found)
            else if |found| < limit then Reading(after, offset, limit, skipped, found + [Address(ord, doc)])
            else Reading(after, offset, limit, skipped, found)
  {
    assert Addresses(ord, sofar + [doc]) == Addresses(ord, sofar) + [Address(ord, doc)];
    assert before + Addresses(ord, sofar) + [Address(ord, doc)] == before + Addresses(ord, sofar + [doc]);
    ReadOne(before + Addresses(ord, sofar), Address(ord, doc), offset, limit, skipped, found);
  }

  /** Once the limit is reached, whatever follows cannot change the window. */
  lemma WindowFull<T>(s: seq<T>, rest: seq<T>, offset: nat, limit: nat)
    requires |Window(s, offset, limit)| == limit && limit > 0
    ensures Window(s + rest, offset, limit) == Window(s, offset, limit)
  {
    assert Skip(s + rest, offset) == Skip(s, offset) + rest;
  }

  /** Visits one segment in document order, stopping as soon as the window is full. */
  method VisitSegment(ord: nat, matches: SegmentMatches, limit: nat, offset: nat, skipped0: nat, found0: seq<Address>,
                      ghost before: seq<Address>) returns (skipped: nat, found: seq<Address>)
    requires WellFormed(matches) && Reading(before, offset, limit, skipped0, found0) && |found0| < limit
    ensures |found| <= limit
    ensures found == Window(before + Addresses(ord, Live(matches.matching, matches.alive, 0, matches.maxDoc)), offset,
                            limit)
    ensures |found| < limit ==>
              Reading(before + Addresses(ord, Live(matches.matching, matches.alive, 0, matches.maxDoc)), offset, limit,
                      skipped, found)
  {
    skipped, found := skipped0, found0;
    var matching, alive, end := matches.matching, matches.alive, matches.maxDoc;
    ghost var whole := Addresses(ord, Live(matching, alive, 0, end));
    var position := Seek(matching, 0);
    assert before + Addresses(ord, []) == before;
    while position < |matching| && matching[position] < end
      invariant position <= |matching| && |found| < limit
      invariant Reading(before + Addresses(ord, LiveFirst(matching, alive, 0, end, position)), offset, limit, skipped,
                        found)
    {
      var doc := matching[position];
      ghost var sofar := LiveFirst(matching, alive, 0, end, position);
      if doc in alive {
        ReadDoc(ord, before, sofar, doc, offset, limit, skipped, found);
        if skipped < offset {
          skipped := skipped + 1;
        } else if |found| < limit {
          found := found + [Address(ord, doc)];
        }
        if |found| >= limit {
          StopEarly(ord, matches, before, position + 1, offset, limit);
          return;
        }
      }
      position := position + 1;
    }
    LiveDone(matching, alive, 0, end, position, |matching|);
  }

  lemma {:induction false} LivePrefix(matching: seq<nat>, alive: set<nat>, start: nat, end: nat, i: nat, n: nat)
    requires i <= n <= |matching|
    ensures LiveFirst(matching, alive, start, end, i) <= LiveFirst(matching, alive, start, end, n)
  {
    if i < n { LivePrefix(matching, alive, start, end, i, n - 1); }
  }

  lemma StopEarly(ord: nat, matches: SegmentMatches, before: seq<Address>, i: nat, offset: nat, limit: nat)
    requires i <= |matches.matching| && limit > 0
    requires |Window(before + Addresses(ord, LiveFirst(matches.matching, matches.alive, 0, matches.maxDoc, i)), offset,
                     limit)| == limit
    ensures Window(before + Addresses(ord, Live(matches.matching, matches.alive, 0, matches.maxDoc)), offset, limit) ==
            Window(before + Addresses(ord, LiveFirst(matches.matching, matches.alive, 0, matches.maxDoc, i)), offset,
                   limit)
  {
    var part := LiveFirst(matches.matching, matches.alive, 0, matches.maxDoc, i);
    var whole := Live(matches.matching, matches.alive, 0, matches.maxDoc);
    LivePrefix(matches.matching, matches.alive, 0, matches.maxDoc, i, |matches.matching|);
    var rest := Addresses(ord, whole)[|part|..];
    assert before + Addresses(ord, whole) == before + Addresses(ord, part) + rest;
    WindowFull(before + Addresses(ord, part), rest, offset, limit);
  }

  /** The requested window in document order, read without visiting what follows it. */
  method CollectDocOrder(segments: seq<SegmentMatches>, limit: nat, offset: nat) returns (found: seq<Address>)
    requires forall ord :: 0 <= ord < |segments| ==> WellFormed(segments[ord])
    ensures found == Window(AllLive(segments), offset, limit)
  {
    if limit == 0 { return []; }
    var skipped := 0;
    found := [];
    for ord := 0 to |segments|
      invariant |found| < limit && Reading(AllLive(segments[..ord]), offset, limit, skipped, found)
    {
      assert segments[..ord + 1][..ord] == segments[..ord];
      skipped, found := VisitSegment(ord, segments[ord], limit, offset, skipped, found, AllLive(segments[..ord]));
      if |found| == limit {
        AllLivePrefix(segments, ord + 1);
        var rest := AllLive(segments)[|AllLive(segments[..ord + 1])|..];
        WindowFull(AllLive(segments[..ord + 1]), rest, offset, limit);
        assert AllLive(segments) == AllLive(segments[..ord + 1]) + rest;
        return;
      }
    }
    assert segments[..|segments|] == segments;
  }

  lemma {:induction false} AllLivePrefix(segments: seq<SegmentMatches>, i: nat)
    requires i <= |segments|
    ensures AllLive(segments[..i]) <= AllLive(segments)
  {
    if i == |segments| {
      assert segments[..i] == segments;
    } else {
      AllLivePrefix(segments[..|segments| - 1], i);
      assert segments[..|segments| - 1][..i] == segments[..i];
    }
  }
}
