/** Balancing segments over merge groups: longest first, each onto the least loaded group. */
module MergeBalance {
  import opened Wrappers
  import opened Sorting

  datatype Segment = Segment(id: nat, docs: nat)

  datatype Group = Group(documents: nat, members: seq<Segment>)

  function Docs(segments: seq<Segment>): nat {
    if segments == [] then 0 else Docs(segments[..|segments| - 1]) + segments[|segments| - 1].docs
  }

  // ----- weights over an assignment -----

  type Weights = seq<nat>

  // The weight of the first `k` jobs, and of those of them in group `g`.
  function SumFirst(w: Weights, k: nat): nat
    requires k <= |w|
  {
    if k == 0 then 0 else SumFirst(w, k - 1) + w[k - 1]
  }

  function InGroup(w: Weights, a: seq<nat>, k: nat, g: nat): nat
    requires k <= |w| && k <= |a|
  {
    if k == 0 then 0 else InGroup(w, a, k - 1, g) + (if a[k - 1] == g then w[k - 1] else 0)
  }

  function InGroups(w: Weights, a: seq<nat>, k: nat, groups: nat): nat
    requires k <= |w| && k <= |a|
  {
    if groups == 0 then 0 else InGroups(w, a, k, groups - 1) + InGroup(w, a, k, groups - 1)
  }

  predicate Assigns(a: seq<nat>, m: nat) {
    forall i :: 0 <= i < |a| ==> a[i] < m
  }

  lemma {:induction false} OneMoreJob(w: Weights, a: seq<nat>, k: nat, groups: nat)
    requires 0 < k <= |w| == |a|
    ensures InGroups(w, a, k, groups) == InGroups(w, a, k - 1, groups) + (if a[k - 1] < groups then w[k - 1] else 0)
  {
    if groups > 0 { OneMoreJob(w, a, k, groups - 1); }
  }

  lemma {:induction false} NoJobs(w: Weights, a: seq<nat>, groups: nat)
    requires |w| == |a|
    ensures InGroups(w, a, 0, groups) == 0
  {
    if groups > 0 { NoJobs(w, a, groups - 1); }
  }

  /** The groups together hold the first `k` jobs. */
  lemma {:induction false} GroupsHoldAll(w: Weights, a: seq<nat>, k: nat, m: nat)
    requires k <= |w| == |a| && Assigns(a, m)
    ensures InGroups(w, a, k, m) == SumFirst(w, k)
  {
    if k == 0 {
      NoJobs(w, a, m);
    } else {
      GroupsHoldAll(w, a, k - 1, m);
      OneMoreJob(w, a, k, m);
    }
  }

  lemma {:induction false} AllAtLeast(w: Weights, a: seq<nat>, k: nat, groups: nat, bound: nat)
    requires k <= |w| == |a| && forall g :: 0 <= g < groups ==> InGroup(w, a, k, g) >= bound
    ensures InGroups(w, a, k, groups) >= groups * bound
  {
    if groups > 0 {
      AllAtLeast(w, a, k, groups - 1, bound);
      assert groups * bound == (groups - 1) * bound + bound;
    }
  }

  lemma {:induction false} AllAtMost(w: Weights, a: seq<nat>, k: nat, groups: nat, bound: nat)
    requires k <= |w| == |a| && forall g :: 0 <= g < groups ==> InGroup(w, a, k, g) <= bound
    ensures InGroups(w, a, k, groups) <= groups * bound
  {
    if groups > 0 {
      AllAtMost(w, a, k, groups - 1, bound);
      assert groups * bound == (groups - 1) * bound + bound;
    }
  }

  lemma {:induction false} InGroupGrows(w: Weights, a: seq<nat>, k: nat, n: nat, g: nat)
    requires k <= n <= |w| == |a|
    ensures InGroup(w, a, k, g) <= InGroup(w, a, n, g)
    ensures (forall i :: k <= i < n ==> a[i] != g) ==> InGroup(w, a, k, g) == InGroup(w, a, n, g)
  {
    if k < n { InGroupGrows(w, a, k, n - 1, g); }
  }

  lemma {:induction false} SumGrows(w: Weights, k: nat, n: nat)
    requires k <= n <= |w|
    ensures SumFirst(w, k) <= SumFirst(w, n)
  {
    if k < n { SumGrows(w, k, n - 1); }
  }

  // ----- longest first onto the least loaded group -----

  predicate Descending(p: Weights) {
    forall i, j :: 0 <= i < j < |p| ==> p[i] >= p[j]
  }

  // The k-th job goes to a group that is lightest at that moment.
  ghost predicate OnLightest(p: Weights, a: seq<nat>, m: nat, k: nat)
    requires k < |p| && k < |a|
  {
    forall g :: 0 <= g < m ==> InGroup(p, a, k, a[k]) <= InGroup(p, a, k, g)
  }

  ghost predicate Greedy(p: Weights, a: seq<nat>, m: nat) {
    |a| == |p| && Assigns(a, m) && forall k :: 0 <= k < |p| ==> OnLightest(p, a, m, k)
  }

  // An assignment whose groups are at most `ceiling` heavy.
  ghost predicate AtMostHeavy(p: Weights, b: seq<nat>, m: nat, ceiling: nat) {
    |b| == |p| && Assigns(b, m) && forall g :: 0 <= g < m ==> InGroup(p, b, |p|, g) <= ceiling
  }

  /** What the last job of a group adds to: the lightest group of that moment. */
  lemma PlacedOnLightest(p: Weights, a: seq<nat>, b: seq<nat>, m: nat, ceiling: nat, j: nat)
    requires Greedy(p, a, m) && AtMostHeavy(p, b, m, ceiling) && j < |p|
    ensures m * InGroup(p, a, j, a[j]) + p[j] <= m * ceiling
    ensures p[j] <= ceiling
  {
    assert OnLightest(p, a, m, j);
    AllAtLeast(p, a, j, m, InGroup(p, a, j, a[j]));
    GroupsHoldAll(p, a, j, m);
    SumGrows(p, j + 1, |p|);
    AllAtMost(p, b, |p|, m, ceiling);
    GroupsHoldAll(p, b, |p|, m);
    InGroupGrows(p, b, j + 1, |p|, b[j]);
  }

  // Jobs too long to share a group with the j-th one count twice.
  function Weigh(p: Weights, j: nat, ceiling: nat): (w: Weights)
    requires j < |p|
    ensures |w| == |p|
  {
    seq(|p|, i requires 0 <= i < |p| => if p[i] + p[j] > ceiling then 2 else 1)
  }

  /** No group of the other assignment weighs more than two among the first jobs. */
  lemma {:induction false} OthersWeighTwo(p: Weights, b: seq<nat>, m: nat, ceiling: nat, j: nat, k: nat, g: nat)
    requires Descending(p) && AtMostHeavy(p, b, m, ceiling) && j < |p| && 3 * p[j] > ceiling && k <= j + 1 && g < m
    ensures var weight, load := InGroup(Weigh(p, j, ceiling), b, k, g), InGroup(p, b, k, g);
            && weight <= 2
            && (weight >= 1 ==> load >= p[j])
            && (weight == 2 ==> load >= 2 * p[j] || load + p[j] > ceiling)
  {
    if k > 0 {
      OthersWeighTwo(p, b, m, ceiling, j, k - 1, g);
      InGroupGrows(p, b, k, |p|, g);
      assert p[k - 1] >= p[j];
    }
  }

  /** A group that the j-th job would overload already weighs two. */
  lemma {:induction false} FullGroupsWeighTwo(p: Weights, a: seq<nat>, ceiling: nat, j: nat, k: nat, g: nat)
    requires j < |p| == |a| && p[j] <= ceiling && k <= j
    ensures InGroup(Weigh(p, j, ceiling), a, k, g) < 2 ==> InGroup(p, a, k, g) + p[j] <= ceiling
    ensures InGroup(Weigh(p, j, ceiling), a, k, g) == 0 ==> InGroup(p, a, k, g) == 0
  {
    if k > 0 { FullGroupsWeighTwo(p, a, ceiling, j, k - 1, g); }
  }

  /** Jobs longer than a third of the best heaviest group are placed without exceeding it. */
  lemma LongJobsFit(p: Weights, a: seq<nat>, b: seq<nat>, m: nat, ceiling: nat, j: nat)
    requires Descending(p) && Greedy(p, a, m) && AtMostHeavy(p, b, m, ceiling) && j < |p| && 3 * p[j] > ceiling
    ensures InGroup(p, a, j, a[j]) + p[j] <= ceiling
  {
    var w := Weigh(p, j, ceiling);
    PlacedOnLightest(p, a, b, m, ceiling, j);
    if InGroup(p, a, j, a[j]) + p[j] > ceiling {
      assert OnLightest(p, a, m, j);
      forall g | 0 <= g < m ensures InGroup(w, a, j, g) >= 2 {
        FullGroupsWeighTwo(p, a, ceiling, j, j, g);
      }
      var next := j + 1;
      forall g | 0 <= g < m ensures InGroup(w, b, next, g) <= 2 { OthersWeighTwo(p, b, m, ceiling, j, next, g); }
      AllAtLeast(w, a, j, m, 2);
      AllAtMost(w, b, next, m, 2);
      GroupsHoldAll(w, a, j, m);
      GroupsHoldAll(w, b, next, m);
      assert false;
    }
  }

  lemma ThirdBound(m: nat, before: nat, job: nat, ceiling: nat)
    requires m > 0 && m * before + job <= m * ceiling && 3 * job <= ceiling
    ensures 3 * m * (before + job) <= (4 * m - 1) * ceiling
  {
    assert 3 * m * (before + job) == 3 * (m * before + job) + (m - 1) * (3 * job);
    assert 3 * (m * ceiling) + (m - 1) * ceiling == (4 * m - 1) * ceiling;
    MultiplyUp(m - 1, 3 * job, ceiling);
  }

  lemma MultiplyUp(k: nat, a: nat, b: nat)
    requires a <= b
    ensures k * a <= k * b
  {
  }

  // The last of the first `k` jobs in group `g`.
  function LastJob(a: seq<nat>, k: nat, g: nat): (j: Option<nat>)
    requires k <= |a|
    ensures j.Some? ==> j.value < k && a[j.value] == g && forall i :: j.value < i < k ==> a[i] != g
    ensures j.None? ==> forall i :: 0 <= i < k ==> a[i] != g
  {
    if k == 0 then None else if a[k - 1] == g then Some(k - 1) else LastJob(a, k - 1, g)
  }

  /** The heaviest greedy group is at most 4/3 - 1/(3m) times as heavy as the heaviest group of any
      assignment to `m` groups. */
  lemma GreedyBound(p: Weights, a: seq<nat>, b: seq<nat>, m: nat, ceiling: nat, g: nat)
    requires Descending(p) && Greedy(p, a, m) && AtMostHeavy(p, b, m, ceiling) && g < m
    ensures 3 * m * InGroup(p, a, |p|, g) <= (4 * m - 1) * ceiling
  {
    match LastJob(a, |a|, g)
    case Some(j) =>
      InGroupGrows(p, a, j + 1, |p|, g);
      PlacedOnLightest(p, a, b, m, ceiling, j);
      if 3 * p[j] <= ceiling {
        ThirdBound(m, InGroup(p, a, j, g), p[j], ceiling);
      } else {
        LongJobsFit(p, a, b, m, ceiling, j);
        WithinCeiling(m, InGroup(p, a, |p|, g), ceiling);
      }
    case None =>
      InGroupGrows(p, a, 0, |p|, g);
      WithinCeiling(m, 0, ceiling);
  }

  lemma WithinCeiling(m: nat, load: nat, ceiling: nat)
    requires m > 0 && load <= ceiling
    ensures 3 * m * load <= (4 * m - 1) * ceiling
  {
    MultiplyUp(3 * m, load, ceiling);
    assert (4 * m - 1) * ceiling == 3 * m * ceiling + (m - 1) * ceiling;
  }

  // ----- the balancer -----

  function Sizes(segments: seq<Segment>): (p: Weights)
    ensures |p| == |segments|
  {
    seq(|segments|, i requires 0 <= i < |segments| => segments[i].docs)
  }

  function Placed(ordered: seq<Segment>, a: seq<nat>, k: nat, g: nat): seq<Segment>
    requires k <= |ordered| && k <= |a|
  {
    if k == 0 then []
    else
      var before := Placed(ordered, a, k - 1, g);
      if a[k - 1] == g then before + [ordered[k - 1]] else before
  }

  /** The key groups are compared by: documents, then number of segments. */
  predicate KeyBelow(a: Group, b: Group) {
    a.documents < b.documents || (a.documents == b.documents && |a.members| < |b.members|)
  }

  // The first group with the smallest key.
  method Lightest(groups: seq<Group>) returns (best: nat)
    requires groups != []
    ensures best < |groups| && forall g :: 0 <= g < |groups| ==> groups[best].documents <= groups[g].documents
    ensures forall g :: 0 <= g < |groups| && groups[g].documents == groups[best].documents ==>
              |groups[best].members| <= |groups[g].members| &&
                (g < best ==> |groups[best].members| < |groups[g].members|)
  {
    best := 0;
    for k := 1 to |groups|
      invariant best < k && forall g :: 0 <= g < k ==> !KeyBelow(groups[g], groups[best])
      invariant forall g :: 0 <= g < best ==> KeyBelow(groups[best], groups[g])
    {
      if KeyBelow(groups[k], groups[best]) { best := k; }
    }
  }

  predicate Larger(a: Segment, b: Segment) {
    a.docs > b.docs || (a.docs == b.docs && a.id < b.id)
  }

  // Largest first; how ties are ordered is left open.
  method SortByDocs(segments: seq<Segment>) returns (ordered: seq<Segment>)
    ensures multiset(ordered) == multiset(segments) && |ordered| == |segments| && Descending(Sizes(ordered))
  {
    ordered := Sort(segments, Larger);
    SortSorts(segments, Larger);
    forall i, j | 0 <= i < j < |ordered| ensures Sizes(ordered)[i] >= Sizes(ordered)[j] {
      assert !Larger(ordered[j], ordered[i]);
    }
  }

  lemma {:induction false} PrefixPlaced(ordered: seq<Segment>, p: Weights, a: seq<nat>, x: nat, k: nat, g: nat)
    requires k <= |a| && k <= |p| == |ordered|
    ensures InGroup(p, a + [x], k, g) == InGroup(p, a, k, g)
    ensures Placed(ordered, a + [x], k, g) == Placed(ordered, a, k, g)
  {
    if k > 0 { PrefixPlaced(ordered, p, a, x, k - 1, g); }
  }

  // The groups after the first `k` segments have been placed.
  ghost predicate Mirrors(ordered: seq<Segment>, a: seq<nat>, k: nat, groups: seq<Group>) {
    && k == |a| <= |ordered|
    && forall g :: 0 <= g < |groups| ==>
         groups[g].members == Placed(ordered, a, k, g) && groups[g].documents == InGroup(Sizes(ordered), a, k, g)
  }

  // As long as some group is empty, the next segment opens the first empty one.
  ghost predicate Opened(groups: seq<Group>, k: nat) {
    forall g :: 0 <= g < |groups| ==>
      (groups[g].members == [] <==> g >= k) && (groups[g].members == [] ==> groups[g].documents == 0)
  }

  lemma PlaceOne(ordered: seq<Segment>, a: seq<nat>, groups: seq<Group>, best: nat, after: seq<Group>)
    requires Mirrors(ordered, a, |a|, groups) && |a| < |ordered| && best < |groups|
    requires var k := |a|; var here := groups[best];
             after == groups[best := Group(here.documents + ordered[k].docs, here.members + [ordered[k]])]
    ensures Mirrors(ordered, a + [best], |a| + 1, after)
  {
    var k, longer := |a|, a + [best];
    forall g | 0 <= g < |after|
      ensures after[g].members == Placed(ordered, longer, k + 1, g) &&
              after[g].documents == InGroup(Sizes(ordered), longer, k + 1, g)
    {
      PrefixPlaced(ordered, Sizes(ordered), a, best, k, g);
    }
  }

  lemma StillGreedy(ordered: seq<Segment>, a: seq<nat>, groups: seq<Group>, best: nat)
    requires Mirrors(ordered, a, |a|, groups) && |a| < |ordered| && best < |groups|
    requires forall k :: 0 <= k < |a| ==> OnLightest(Sizes(ordered), a, |groups|, k)
    requires forall g :: 0 <= g < |groups| ==> groups[best].documents <= groups[g].documents
    ensures forall k :: 0 <= k <= |a| ==> OnLightest(Sizes(ordered), a + [best], |groups|, k)
  {
    var p, longer := Sizes(ordered), a + [best];
    forall k | 0 <= k <= |a| ensures OnLightest(p, longer, |groups|, k) {
      if k < |a| { assert OnLightest(p, a, |groups|, k); }
      forall g | 0 <= g < |groups| ensures InGroup(p, longer, k, longer[k]) <= InGroup(p, longer, k, g) {
        PrefixPlaced(ordered, p, a, best, k, g);
        PrefixPlaced(ordered, p, a, best, k, longer[k]);
      }
    }
  }

  // The result of the loop, for the lemmas below.
  ghost predicate Balanced(segments: seq<Segment>, target: nat, groups: seq<seq<Segment>>, ordered: seq<Segment>,
                           a: seq<nat>) {
    && |groups| == target && multiset(ordered) == multiset(segments)
    && Descending(Sizes(ordered)) && Greedy(Sizes(ordered), a, target)
    && forall g :: 0 <= g < target ==> groups[g] == Placed(ordered, a, |ordered|, g)
  }

  /** Groups for `target` merged segments: a segment each when there are few, else the largest first
      onto the lightest group. */
  method BalancedMergeGroups(segments: seq<Segment>, target: nat)
    returns (groups: seq<seq<Segment>>, ghost ordered: seq<Segment>, ghost a: seq<nat>)
    requires target > 0
    ensures |groups| == Min(target, |segments|) && forall g :: 0 <= g < |groups| ==> groups[g] != []
    ensures |segments| <= target ==> forall i :: 0 <= i < |segments| ==> groups[i] == [segments[i]]
    ensures |segments| > target ==> Balanced(segments, target, groups, ordered, a)
  {
    if |segments| <= target {
      groups := seq(|segments|, i requires 0 <= i < |segments| => [segments[i]]);
      return groups, [], [];
    }
    var sorted := SortByDocs(segments);
    ordered, a := sorted, [];
    var loads := seq(target, i => Group(0, []));
    for k := 0 to |sorted|
      invariant |loads| == target && Mirrors(sorted, a, k, loads) && Assigns(a, target)
      invariant k <= target ==> Opened(loads, k)
      invariant k >= target ==> forall g :: 0 <= g < target ==> loads[g].members != []
      invariant forall i :: 0 <= i < k ==> OnLightest(Sizes(sorted), a, target, i)
    {
      var best := Lightest(loads);
      if k < target { OpensNext(loads, k, best); }
      StillGreedy(sorted, a, loads, best);
      var after := loads[best := Group(loads[best].documents + sorted[k].docs, loads[best].members + [sorted[k]])];
      PlaceOne(sorted, a, loads, best, after);
      loads, a := after, a + [best];
    }
    groups := seq(target, g requires 0 <= g < target => loads[g].members);
  }

  lemma OpensNext(groups: seq<Group>, k: nat, best: nat)
    requires k < |groups| && best < |groups| && Opened(groups, k)
    requires forall g :: 0 <= g < |groups| ==> !KeyBelow(groups[g], groups[best])
    requires forall g :: 0 <= g < best ==> KeyBelow(groups[best], groups[g])
    ensures best == k
  {
    assert groups[k].members == [] && groups[k].documents == 0;
    assert !KeyBelow(groups[k], groups[best]);
  }

  // ----- the groups partition the segments -----

  function AllPlaced(ordered: seq<Segment>, a: seq<nat>, k: nat, m: nat): (groups: seq<seq<Segment>>)
    requires k <= |ordered| && k <= |a|
    ensures |groups| == m
  {
    seq(m, g requires 0 <= g < m => Placed(ordered, a, k, g))
  }

  ghost function Bag(ordered: seq<Segment>, a: seq<nat>, k: nat, m: nat): multiset<Segment>
    requires k <= |ordered| && k <= |a|
  {
    if m == 0 then multiset{} else Bag(ordered, a, k, m - 1) + multiset(Placed(ordered, a, k, m - 1))
  }

  lemma {:induction false} BagIsFlatten(ordered: seq<Segment>, a: seq<nat>, k: nat, m: nat)
    requires k <= |ordered| && k <= |a|
    ensures multiset(Flatten(AllPlaced(ordered, a, k, m))) == Bag(ordered, a, k, m)
  {
    if m > 0 {
      BagIsFlatten(ordered, a, k, m - 1);
      assert AllPlaced(ordered, a, k, m)[..m - 1] == AllPlaced(ordered, a, k, m - 1);
    }
  }

  lemma {:induction false} OnePlaced(ordered: seq<Segment>, a: seq<nat>, k: nat, m: nat)
    requires 0 < k <= |ordered| && k <= |a|
    ensures Bag(ordered, a, k, m) ==
            Bag(ordered, a, k - 1, m) + (if a[k - 1] < m then multiset{ordered[k - 1]} else multiset{})
  {
    if m > 0 { OnePlaced(ordered, a, k, m - 1); }
  }

  lemma {:induction false} NonePlaced(ordered: seq<Segment>, a: seq<nat>, m: nat)
    ensures Bag(ordered, a, 0, m) == multiset{}
  {
    if m > 0 { NonePlaced(ordered, a, m - 1); }
  }

  lemma {:induction false} PlacedPartition(ordered: seq<Segment>, a: seq<nat>, k: nat, m: nat)
    requires k <= |ordered| && k <= |a| && Assigns(a, m)
    ensures Bag(ordered, a, k, m) == multiset(ordered[..k])
  {
    if k == 0 {
      NonePlaced(ordered, a, m);
    } else {
      PlacedPartition(ordered, a, k - 1, m);
      OnePlaced(ordered, a, k, m);
      PrefixMultiset(ordered, k);
    }
  }

  lemma PrefixMultiset(s: seq<Segment>, k: nat)
    requires 0 < k <= |s|
    ensures multiset(s[..k]) == multiset(s[..k - 1]) + multiset{s[k - 1]}
  {
    assert s[..k] == s[..k - 1] + [s[k - 1]];
  }

  /** Every segment is in exactly one group. */
  lemma GroupsPartition(segments: seq<Segment>, target: nat, groups: seq<seq<Segment>>, ordered: seq<Segment>,
                        a: seq<nat>)
    requires Balanced(segments, target, groups, ordered, a)
    ensures multiset(Flatten(groups)) == multiset(segments)
  {
    PlacedPartition(ordered, a, |ordered|, target);
    BagIsFlatten(ordered, a, |ordered|, target);
    assert ordered[..|ordered|] == ordered;
    assert groups == AllPlaced(ordered, a, |ordered|, target);
  }

  // ----- the bound in terms of the segments -----

  lemma {:induction false} DocsOfInsert(x: Segment, s: seq<Segment>)
    ensures Docs(Insert(x, s, Larger)) == Docs(s) + x.docs
  {
    if s != [] {
      var last := s[|s| - 1];
      if Larger(x, last) {
        DocsOfInsert(x, s[..|s| - 1]);
        var before := Insert(x, s[..|s| - 1], Larger);
        assert (before + [last])[..|before|] == before;
      } else {
        assert (s + [x])[..|s|] == s;
      }
    }
  }

  lemma {:induction false} DocsOfSort(s: seq<Segment>)
    ensures Docs(Sort(s, Larger)) == Docs(s)
  {
    if s != [] {
      DocsOfSort(s[..|s| - 1]);
      DocsOfInsert(s[|s| - 1], Sort(s[..|s| - 1], Larger));
    }
  }

  lemma DocsPermute(s: seq<Segment>, t: seq<Segment>)
    requires multiset(s) == multiset(t)
    ensures Docs(s) == Docs(t)
  {
    SortOfSame(s, t, Larger);
    DocsOfSort(s);
    DocsOfSort(t);
  }

  lemma {:induction false} DocsPlaced(ordered: seq<Segment>, a: seq<nat>, k: nat, g: nat)
    requires k <= |ordered| && k <= |a|
    ensures Docs(Placed(ordered, a, k, g)) == InGroup(Sizes(ordered), a, k, g)
  {
    if k > 0 {
      DocsPlaced(ordered, a, k - 1, g);
      var before := Placed(ordered, a, k - 1, g);
      assert (before + [ordered[k - 1]])[..|before|] == before;
    }
  }

  // What another partition, given as a function of the segments, puts into group `g`.
  function Share(segments: seq<Segment>, place: Segment -> nat, g: nat): seq<Segment> {
    Select(segments, segment => place(segment) == g)
  }

  lemma {:induction false} ShareIsGroup(ordered: seq<Segment>, place: Segment -> nat, b: seq<nat>, k: nat, g: nat)
    requires k <= |ordered| == |b| && forall i :: 0 <= i < |ordered| ==> b[i] == place(ordered[i])
    ensures Share(ordered[..k], place, g) == Placed(ordered, b, k, g)
  {
    if k > 0 {
      ShareIsGroup(ordered, place, b, k - 1, g);
      assert ordered[..k][..k - 1] == ordered[..k - 1];
    }
  }

  lemma SharePermutes(s: seq<Segment>, t: seq<Segment>, place: Segment -> nat, g: nat)
    requires multiset(s) == multiset(t)
    ensures Docs(Share(s, place, g)) == Docs(Share(t, place, g))
  {
    var p := (segment: Segment) => place(segment) == g;
    forall x ensures multiset(Share(s, place, g))[x] == multiset(Share(t, place, g))[x] {
      SelectCounts(s, p, x);
      SelectCounts(t, p, x);
    }
    DocsPermute(Share(s, place, g), Share(t, place, g));
  }

  /** The heaviest merge group is at most 4/3 - 1/(3m) times as heavy as the heaviest group of any
      other division of the segments into `m` groups. */
  lemma HeaviestGroupBound(segments: seq<Segment>, target: nat, groups: seq<seq<Segment>>, ordered: seq<Segment>,
                           a: seq<nat>,
                           place: Segment -> nat, ceiling: nat, g: nat)
    requires Balanced(segments, target, groups, ordered, a) && g < target
    requires forall segment :: segment in segments ==> place(segment) < target
    requires forall h :: 0 <= h < target ==> Docs(Share(segments, place, h)) <= ceiling
    ensures 3 * target * Docs(groups[g]) <= (4 * target - 1) * ceiling
  {
    var p, n := Sizes(ordered), |ordered|;
    var b := seq(n, i requires 0 <= i < n => place(ordered[i]));
    forall i | 0 <= i < n ensures b[i] < target { assert ordered[i] in multiset(segments); }
    forall h | 0 <= h < target ensures InGroup(p, b, n, h) <= ceiling {
      ShareIsGroup(ordered, place, b, n, h);
      assert ordered[..n] == ordered;
      DocsPlaced(ordered, b, n, h);
      SharePermutes(ordered, segments, place, h);
    }
    DocsPlaced(ordered, a, n, g);
    GreedyBound(p, a, b, target, ceiling, g);
  }
}
