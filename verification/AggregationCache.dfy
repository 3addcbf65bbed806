/** The aggregation cache of one table under concurrent publication.  Aggregations and publications
    interleave step by step; entries of the cache may be evicted at any time.  A publication holds the
    catalog lock, removes the table from the catalog while it works on it, and may fail at any point. */
module AggregationCache {

  // A published handle: the definition, its generation, and the reader it searches with.
  datatype Handle = Handle(definition: nat, generation: nat, reader: nat)

  // The result of a request, and the snapshot it was evaluated on.
  datatype Evaluation = Evaluation(definition: nat, request: nat, version: nat)

  // The cache key leaves the definition out.
  datatype Key = Key(generation: nat, request: nat)

  datatype Task =
    | Free
    | Looked(handle: Handle, request: nat)
    | Missed(handle: Handle, request: nat)
    | Computed(handle: Handle, request: nat, value: Evaluation)
    | Answered(handle: Handle, request: nat, value: Evaluation)

  // Where a publication stands; it holds the catalog lock, which a lookup needs too.
  datatype Publication = Unlocked | Reloaded(next: Handle) | Invalidated(next: Handle)

  /** `committed` is the newest version on disk and `shown` what each reader was last reloaded to.
      Lookups find `current` while the table is `served`; the next publication continues its
      generations only while the table is `listed`.  `published` is the version each generation was
      published with since they last started. */
  datatype Service = Service(
    committed: nat,
    shown: seq<nat>,
    current: Handle,
    listed: bool,
    served: bool,
    published: map<nat, nat>,
    publication: Publication,
    cache: map<Key, Evaluation>,
    tasks: seq<Task>)

  datatype Step =
    | Commit                                  // a writer commit
    | Lookup(task: nat, request: nat)
    | Hit(task: nat)
    | Miss(task: nat)
    | Search(task: nat)                       // take the reader's snapshot and evaluate
    | Store(task: nat)
    | Evict(key: Key)
    | Reload                                  // publication of a listed table with its definition unchanged
    | Reopen(definition: nat)                 // publication of any other definition or of an unlisted table
    | Invalidate
    | Swap
    | Fail                                    // an error ends a publication that had reached the table
    | Omit                                    // publication of a catalog without the table

  function Opened(version: nat, tasks: nat): Service {
    Service(version, [version], Handle(0, 1, 0), true, true, map[1 := version], Unlocked, map[], seq(tasks, i => Free))
  }

  function TaskAt(s: Service, task: nat): Task {
    if task < |s.tasks| then s.tasks[task] else Free
  }

  function KeyOf(task: Task): Key
    requires !task.Free?
  {
    Key(task.handle.generation, task.request)
  }

  predicate Enabled(s: Service, step: Step) {
    match step
    case Commit => true
    case Lookup(task, _) => task < |s.tasks| && s.tasks[task].Free? && s.publication.Unlocked? && s.served
    case Hit(task) => TaskAt(s, task).Looked? && KeyOf(TaskAt(s, task)) in s.cache
    case Miss(task) => TaskAt(s, task).Looked? && KeyOf(TaskAt(s, task)) !in s.cache
    case Search(task) => TaskAt(s, task).Missed? && TaskAt(s, task).handle.reader < |s.shown|
    case Store(task) => TaskAt(s, task).Computed?
    case Evict(key) => key in s.cache
    case Reload => s.publication.Unlocked? && s.listed && s.current.reader < |s.shown|
    case Reopen(definition) => s.publication.Unlocked? && (!s.listed || definition != s.current.definition)
    case Invalidate => s.publication.Reloaded?
    case Swap => s.publication.Invalidated? && s.publication.next.reader < |s.shown|
    case Fail => true
    case Omit => s.publication.Unlocked?
  }

  function Take(s: Service, step: Step): Service
    requires Enabled(s, step)
  {
    match step
    case Commit => s.(committed := s.committed + 1)
    case Lookup(task, request) => s.(tasks := s.tasks[task := Looked(s.current, request)])
    case Hit(task) =>
      var t := s.tasks[task];
      s.(tasks := s.tasks[task := Answered(t.handle, t.request, s.cache[KeyOf(t)])])
    case Miss(task) => s.(tasks := s.tasks[task := Missed(s.tasks[task].handle, s.tasks[task].request)])
    case Search(task) =>
      var t := s.tasks[task];
      var value := Evaluation(t.handle.definition, t.request, s.shown[t.handle.reader]);
      s.(tasks := s.tasks[task := Computed(t.handle, t.request, value)])
    case Store(task) =>
      var t := s.tasks[task];
      s.(cache := s.cache[KeyOf(t) := t.value], tasks := s.tasks[task := Answered(t.handle, t.request, t.value)])
    case Evict(key) => s.(cache := s.cache - {key})
    case Reload =>
      // the reader is shared with the handles given out before
      s.(shown := s.shown[s.current.reader := s.committed], listed := false,
         publication := Reloaded(s.current.(generation := s.current.generation + 1)))
    case Reopen(definition) =>
      s.(shown := s.shown + [s.committed], listed := false, publication := Reloaded(Handle(definition, 1, |s.shown|)))
    case Invalidate => s.(cache := map[], publication := Invalidated(s.publication.next))
    case Swap =>
      var next := s.publication.next;
      var before := if next.reader == s.current.reader then s.published else map[];
      s.(current := next, listed := true, served := true, published := before[next.generation := s.shown[next.reader]],
         publication := Unlocked)
    case Fail => s.(listed := false, publication := Unlocked)
    case Omit => s.(listed := false, served := false)
  }

  // ----- coherence while the generations do not start again -----

  // An answer for a handle is no older than what was published as its generation.
  predicate Current(s: Service, handle: Handle, request: nat, value: Evaluation) {
    && handle.generation in s.published && value.definition == handle.definition == s.current.definition
    && value.request == request && s.published[handle.generation] <= value.version <= s.committed
  }

  // A handle that is not outdated: its reader shows no less than what its generation was published with.
  predicate Issued(s: Service, handle: Handle) {
    && handle.generation in s.published && handle.definition == s.current.definition && handle.reader < |s.shown|
    && s.published[handle.generation] <= s.shown[handle.reader]
  }

  predicate TaskOk(s: Service, task: Task) {
    match task
    case Free => true
    case Looked(handle, _) => Issued(s, handle)
    case Missed(handle, _) => Issued(s, handle)
    case Computed(handle, request, value) => handle.reader < |s.shown| && Current(s, handle, request, value)
    case Answered(handle, request, value) =>
      handle.reader < |s.shown| && (handle.reader == s.current.reader ==> Current(s, handle, request, value))
  }

  predicate PublicationOk(s: Service) {
    || s.publication.Unlocked?
    || (s.publication.next == s.current.(generation := s.current.generation + 1) &&
        (s.publication.Invalidated? ==>
           forall key :: key in s.cache ==> key.generation != s.publication.next.generation))
  }

  predicate EntryOk(s: Service, key: Key)
    requires key in s.cache
  {
    key.generation in s.published ==>
      Current(s, Handle(s.current.definition, key.generation, s.current.reader), key.request, s.cache[key])
  }

  ghost predicate Coherent(s: Service) {
    && Issued(s, s.current)
    && (forall r :: 0 <= r < |s.shown| ==> s.shown[r] <= s.committed)
    && (forall g :: g in s.published ==> g <= s.current.generation && s.published[g] <= s.shown[s.current.reader])
    && PublicationOk(s)
    && (forall key :: key in s.cache ==> EntryOk(s, key))
    && (forall t :: 0 <= t < |s.tasks| ==> TaskOk(s, s.tasks[t]))
  }

  // What tasks and entries rely on survives when versions only grow.
  predicate Grows(s: Service, e: Service) {
    && e.committed >= s.committed && e.current.definition == s.current.definition &&
         e.current.reader == s.current.reader
    && |e.shown| == |s.shown| && (forall r :: 0 <= r < |s.shown| ==> s.shown[r] <= e.shown[r] <= e.committed)
    && forall g :: g in s.published ==> g in e.published && e.published[g] == s.published[g]
  }

  lemma TasksPersist(s: Service, e: Service)
    requires Coherent(s) && Grows(s, e) && e.tasks == s.tasks
    ensures forall t :: 0 <= t < |e.tasks| ==> TaskOk(e, e.tasks[t])
  {
    forall t | 0 <= t < |e.tasks| ensures TaskOk(e, e.tasks[t]) { assert TaskOk(s, s.tasks[t]); }
  }

  lemma CachePersists(s: Service, e: Service)
    requires Coherent(s) && Grows(s, e) &&
             (forall key :: key in e.cache ==> key in s.cache && e.cache[key] == s.cache[key])
    requires forall key :: key in e.cache && key.generation in e.published ==> key.generation in s.published
    ensures forall key :: key in e.cache ==> EntryOk(e, key)
  {
    forall key | key in e.cache ensures EntryOk(e, key) { assert EntryOk(s, key); }
  }

  lemma OneTask(s: Service, e: Service, task: nat)
    requires Coherent(s) && task < |s.tasks| == |e.tasks| && TaskOk(e, e.tasks[task])
    requires e == s.(tasks := e.tasks, cache := e.cache)
    requires forall t :: 0 <= t < |s.tasks| && t != task ==> e.tasks[t] == s.tasks[t]
    ensures forall t :: 0 <= t < |e.tasks| ==> TaskOk(e, e.tasks[t])
  {
    forall t | 0 <= t < |e.tasks| ensures TaskOk(e, e.tasks[t]) { if t != task { assert TaskOk(s, s.tasks[t]); } }
  }

  predicate OfTask(step: Step) {
    step.Lookup? || step.Hit? || step.Miss? || step.Search? || step.Store?
  }

  lemma TaskStepCoherent(s: Service, step: Step)
    requires Coherent(s) && Enabled(s, step) && OfTask(step)
    ensures Coherent(Take(s, step))
  {
    var e, task := Take(s, step), step.task;
    assert TaskOk(s, s.tasks[task]);
    if step.Hit? { assert EntryOk(s, KeyOf(s.tasks[task])); }
    OneTask(s, e, task);
    forall key | key in e.cache ensures EntryOk(e, key) { if key in s.cache { assert EntryOk(s, key); } }
  }

  lemma PublicationStepCoherent(s: Service, step: Step)
    requires Coherent(s) && Enabled(s, step) && !OfTask(step) && !step.Reopen?
    ensures Coherent(Take(s, step))
  {
    var e := Take(s, step);
    assert Grows(s, e);
    TasksPersist(s, e);
    CachePersists(s, e);
  }

  ghost predicate Possible(s: Service, steps: seq<Step>)
    decreases |steps|
  {
    steps == [] || (Enabled(s, steps[0]) && Possible(Take(s, steps[0]), steps[1..]))
  }

  ghost function After(s: Service, steps: seq<Step>): Service
    requires Possible(s, steps)
    decreases |steps|
  {
    if steps == [] then s else After(Take(s, steps[0]), steps[1..])
  }

  // The generations never start again: no publication opens the table anew.
  predicate Continues(steps: seq<Step>) {
    forall step :: step in steps ==> !step.Reopen?
  }

  lemma {:induction false} RunCoherent(s: Service, steps: seq<Step>)
    requires Coherent(s) && Possible(s, steps) && Continues(steps)
    ensures var e := After(s, steps); Coherent(e) && e.current.reader == s.current.reader && |e.shown| == |s.shown|
    decreases |steps|
  {
    if steps != [] {
      if OfTask(steps[0]) { TaskStepCoherent(s, steps[0]); } else { PublicationStepCoherent(s, steps[0]); }
      RunCoherent(Take(s, steps[0]), steps[1..]);
    }
  }

  /** As long as the generations do not start again, whatever the interleaving of lookups, searches,
      stores, evictions, commits and publications, and however many publications fail: the value
      returned for a handle of generation g is the request evaluated on a snapshot no older than the
      one published as g. */
  lemma AnswersAreCurrent(version: nat, tasks: nat, steps: seq<Step>, t: nat)
    requires Possible(Opened(version, tasks), steps) && Continues(steps)
    requires TaskAt(After(Opened(version, tasks), steps), t).Answered?
    ensures var s := After(Opened(version, tasks), steps); var task := TaskAt(s, t);
            Current(s, task.handle, task.request, task.value)
  {
    RunCoherent(Opened(version, tasks), steps);
    var s := After(Opened(version, tasks), steps);
    assert TaskOk(s, s.tasks[t]);
  }

  // ----- generations that start again -----

  predicate TaskSane(s: Service, task: Task) {
    match task
    case Free => true
    case Looked(handle, _) => handle.generation > 0 && handle.reader < |s.shown|
    case Missed(handle, _) => handle.generation > 0 && handle.reader < |s.shown|
    case Computed(handle, request, value) =>
      && handle.generation > 0 && handle.reader < |s.shown|
      && value.definition == handle.definition && value.request == request && value.version <= s.committed
    case Answered(handle, _, _) => handle.reader < |s.shown|
  }

  // A publication that opens the table anew: nobody has its handle yet.
  predicate Restarting(s: Service) {
    !s.publication.Unlocked? && s.publication.next.reader != s.current.reader
  }

  /** What holds in every run, with any number of restarts. */
  ghost predicate Sane(s: Service) {
    && s.current.generation > 0 && s.current.reader < |s.shown|
    && (forall r :: 0 <= r < |s.shown| ==> s.shown[r] <= s.committed)
    && (forall t :: 0 <= t < |s.tasks| ==> TaskSane(s, s.tasks[t]))
    && (!s.publication.Unlocked? ==> s.publication.next.reader < |s.shown| && s.publication.next.generation > 0)
    && (Restarting(s) ==>
          && s.publication.next.generation == 1
          && forall t :: 0 <= t < |s.tasks| && !s.tasks[t].Free? ==>
               s.tasks[t].handle.reader != s.publication.next.reader)
  }

  // A step of one aggregation leaves the others, the readers and the publication alone.
  lemma SaneTaskStep(s: Service, step: Step)
    requires Sane(s) && Enabled(s, step) && OfTask(step)
    ensures Sane(Take(s, step))
  {
    var e, task := Take(s, step), step.task;
    assert TaskSane(s, s.tasks[task]);
    assert e == s.(tasks := e.tasks, cache := e.cache);
    forall t | 0 <= t < |e.tasks| ensures TaskSane(e, e.tasks[t]) {
      if t != task { assert e.tasks[t] == s.tasks[t] && TaskSane(s, s.tasks[t]); }
    }
  }

  // What is sane stays so when readers and versions are added and no aggregation moves.
  lemma TasksStaySane(s: Service, e: Service)
    requires Sane(s) && e.tasks == s.tasks && |e.shown| >= |s.shown| && e.committed >= s.committed
    ensures forall t :: 0 <= t < |e.tasks| ==> TaskSane(e, e.tasks[t])
  {
    forall t | 0 <= t < |e.tasks| ensures TaskSane(e, e.tasks[t]) { assert TaskSane(s, s.tasks[t]); }
  }

  lemma SaneReopen(s: Service, definition: nat)
    requires Sane(s) && Enabled(s, Reopen(definition))
    ensures Sane(Take(s, Reopen(definition)))
  {
    var e := Take(s, Reopen(definition));
    TasksStaySane(s, e);
    forall t | 0 <= t < |e.tasks| && !e.tasks[t].Free? ensures e.tasks[t].handle.reader != e.publication.next.reader {
      assert TaskSane(s, s.tasks[t]);
    }
  }

  lemma SanePublicationStep(s: Service, step: Step)
    requires Sane(s) && Enabled(s, step) && !OfTask(step) && !step.Reopen?
    ensures Sane(Take(s, step))
  {
    TasksStaySane(s, Take(s, step));
  }

  lemma SaneStep(s: Service, step: Step)
    requires Sane(s) && Enabled(s, step)
    ensures Sane(Take(s, step))
  {
    if OfTask(step) {
      SaneTaskStep(s, step);
    } else if step.Reopen? {
      SaneReopen(s, step.definition);
    } else {
      SanePublicationStep(s, step);
    }
  }

  lemma {:induction false} RunSane(s: Service, steps: seq<Step>)
    requires Sane(s) && Possible(s, steps)
    ensures Sane(After(s, steps))
    decreases |steps|
  {
    if steps != [] {
      SaneStep(s, steps[0]);
      RunSane(Take(s, steps[0]), steps[1..]);
    }
  }

  /** The state in which a restart ends: the first generation of a reader nobody else has. */
  ghost predicate Restarted(e: Service) {
    && Sane(e) && e.publication.Unlocked? && e.listed && e.served
    && e.current.generation == 1 && e.published == map[1 := e.shown[e.current.reader]]
    && forall t :: 0 <= t < |e.tasks| && !e.tasks[t].Free? ==> e.tasks[t].handle.reader != e.current.reader
  }

  /** Every restart of every run ends in such a state. */
  lemma RestartEnds(version: nat, tasks: nat, steps: seq<Step>)
    requires Possible(Opened(version, tasks), steps)
    requires var s := After(Opened(version, tasks), steps); Enabled(s, Swap) && Restarting(s)
    ensures Restarted(Take(After(Opened(version, tasks), steps), Swap))
  {
    RunSane(Opened(version, tasks), steps);
    SaneStep(After(Opened(version, tasks), steps), Swap);
  }

  /** An aggregation under way that started before the restart does no harm if it evaluates the same
      definition for the first generation, on a snapshot as new as the one just published. */
  predicate Harmless(e: Service, task: Task) {
    match task
    case Free => true
    case Looked(handle, _) => Issued(e, handle)
    case Missed(handle, _) => Issued(e, handle)
    case Computed(handle, request, value) => Current(e, handle, request, value)
    case Answered(_, _, _) => true
  }

  ghost predicate SafeRestart(e: Service) {
    && (forall t :: 0 <= t < |e.tasks| ==> Harmless(e, e.tasks[t]))
    && (forall key :: key in e.cache ==> EntryOk(e, key))
  }

  // Every aggregation that got the new handle got a current value.
  ghost predicate AnswersOk(s: Service) {
    forall t :: 0 <= t < |s.tasks| && s.tasks[t].Answered? && s.tasks[t].handle.reader == s.current.reader ==>
                  Current(s, s.tasks[t].handle, s.tasks[t].request, s.tasks[t].value)
  }

  lemma SafeIsCoherent(e: Service)
    requires Restarted(e) && SafeRestart(e)
    ensures Coherent(e)
  {
    forall t | 0 <= t < |e.tasks| ensures TaskOk(e, e.tasks[t]) {
      assert TaskSane(e, e.tasks[t]) && Harmless(e, e.tasks[t]);
    }
  }

  ghost predicate Reaches(s: Service, steps: seq<Step>, e: Service) {
    Possible(s, steps) && After(s, steps) == e
  }

  lemma {:induction false} RunSnoc(s: Service, steps: seq<Step>, step: Step)
    requires Possible(s, steps) && Enabled(After(s, steps), step)
    ensures Possible(s, steps + [step]) && After(s, steps + [step]) == Take(After(s, steps), step)
    decreases |steps|
  {
    var longer := steps + [step];
    if steps == [] {
      assert longer[1..] == [];
    } else {
      RunSnoc(Take(s, steps[0]), steps[1..], step);
      assert longer[1..] == steps[1..] + [step];
    }
  }

  lemma ReachNext(s: Service, steps: seq<Step>, middle: Service, step: Step, e: Service)
    requires Reaches(s, steps, middle) && Enabled(middle, step) && Take(middle, step) == e
    ensures Reaches(s, steps + [step], e)
    ensures Continues(steps) && !step.Reopen? ==> Continues(steps + [step])
  {
    RunSnoc(s, steps, step);
  }

  // One publication of the unchanged definition.
  lemma NextGeneration(s: Service, steps: seq<Step>, m: Service) returns (longer: seq<Step>, e: Service)
    requires Reaches(s, steps, m) && Continues(steps)
    requires m.publication.Unlocked? && m.listed && m.served && m.current.reader < |m.shown|
    ensures Reaches(s, longer, e) && Continues(longer)
    ensures e.publication.Unlocked? && e.listed && e.served && e.cache == map[] && e.tasks == m.tasks &&
            e.committed == m.committed
    ensures e.current == m.current.(generation := m.current.generation + 1)
    ensures e.shown == m.shown[m.current.reader := m.committed]
    ensures e.current.generation in e.published && e.published[e.current.generation] == m.committed
  {
    var m1 := Take(m, Reload);
    var m2 := Take(m1, Invalidate);
    e := Take(m2, Swap);
    ReachNext(s, steps, m, Reload, m1);
    ReachNext(s, steps + [Reload], m1, Invalidate, m2);
    ReachNext(s, steps + [Reload] + [Invalidate], m2, Swap, e);
    longer := steps + [Reload] + [Invalidate] + [Swap];
  }

  // As many publications as it takes to reach a later generation, after one more commit.
  lemma {:induction false} LaterGeneration(s: Service, generation: nat) returns (steps: seq<Step>, e: Service)
    requires Restarted(s) && generation > 1
    ensures Reaches(s, steps, e) && Continues(steps)
    ensures e.publication.Unlocked? && e.listed && e.served && e.cache == map[] && e.tasks == s.tasks
    ensures e.current == s.current.(generation := generation) && |e.shown| == |s.shown|
    ensures forall r :: 0 <= r < |s.shown| && r != s.current.reader ==> e.shown[r] == s.shown[r]
    ensures generation in e.published && e.published[generation] == e.committed == s.committed + 1
    decreases generation
  {
    if generation == 2 {
      var m := Take(s, Commit);
      ReachNext(s, [], s, Commit, m);
      assert [] + [Commit] == [Commit];
      steps, e := NextGeneration(s, [Commit], m);
    } else {
      var m: Service;
      steps, m := LaterGeneration(s, generation - 1);
      steps, e := NextGeneration(s, steps, m);
    }
  }

  // The version a task under way ends up with, if its reader is not reloaded.
  function VersionOf(s: Service, task: Task): nat
    requires task.Looked? || task.Missed? || task.Computed?
    requires task.handle.reader < |s.shown|
  {
    if task.Computed? then task.value.version else s.shown[task.handle.reader]
  }

  predicate UnderWay(task: Task) {
    task.Looked? || task.Missed? || task.Computed?
  }

  // A delayed task stores its value under the generation it was given.
  lemma DelayedStore(s: Service, steps: seq<Step>, m: Service, t: nat) returns (longer: seq<Step>, e: Service)
    requires Reaches(s, steps, m) && Continues(steps)
    requires t < |m.tasks| && UnderWay(m.tasks[t]) && TaskSane(m, m.tasks[t]) && KeyOf(m.tasks[t]) !in m.cache
    ensures Reaches(s, longer, e) && Continues(longer)
    ensures e == m.(cache := e.cache, tasks := e.tasks) && |e.tasks| == |m.tasks|
    ensures forall i :: 0 <= i < |m.tasks| && i != t ==> e.tasks[i] == m.tasks[i]
    ensures var task := m.tasks[t];
            KeyOf(task) in e.cache &&
              e.cache[KeyOf(task)] == Evaluation(task.handle.definition, task.request, VersionOf(m, task))
  {
    var m1, m2 := m, m;
    longer := steps;
    if m.tasks[t].Looked? {
      m1 := Take(m, Miss(t));
      ReachNext(s, longer, m, Miss(t), m1);
      longer := longer + [Miss(t)];
    }
    m2 := m1;
    if m1.tasks[t].Missed? {
      m2 := Take(m1, Search(t));
      ReachNext(s, longer, m1, Search(t), m2);
      longer := longer + [Search(t)];
    }
    e := Take(m2, Store(t));
    ReachNext(s, longer, m2, Store(t), e);
    longer := longer + [Store(t)];
  }

  // Another aggregation finds what is stored under the current generation.
  lemma FindsEntry(s: Service, steps: seq<Step>, m: Service, f: nat, request: nat)
    returns (longer: seq<Step>, e: Service)
    requires Reaches(s, steps, m) && Continues(steps)
    requires m.publication.Unlocked? && m.served && f < |m.tasks| && m.tasks[f].Free?
    requires Key(m.current.generation, request) in m.cache
    ensures Reaches(s, longer, e) && Continues(longer) && e == m.(tasks := e.tasks) && |e.tasks| == |m.tasks|
    ensures e.tasks[f] == Answered(m.current, request, m.cache[Key(m.current.generation, request)])
  {
    var m1 := Take(m, Lookup(f, request));
    e := Take(m1, Hit(f));
    ReachNext(s, steps, m, Lookup(f, request), m1);
    ReachNext(s, steps + [Lookup(f, request)], m1, Hit(f), e);
    longer := steps + [Lookup(f, request)] + [Hit(f)];
  }

  // The generation of a delayed task becomes current while its key is free.
  lemma GenerationReturns(s: Service, t: nat) returns (steps: seq<Step>, e: Service)
    requires Restarted(s) && t < |s.tasks| && UnderWay(s.tasks[t])
    ensures Reaches(s, steps, e) && Continues(steps)
    ensures e.publication.Unlocked? && e.served && e.tasks == s.tasks && KeyOf(s.tasks[t]) !in e.cache &&
            e.committed >= s.committed
    ensures e.current == s.current.(generation := s.tasks[t].handle.generation) && e.current.generation in e.published
    ensures |e.shown| == |s.shown|
    ensures forall r :: 0 <= r < |s.shown| && r != s.current.reader ==> e.shown[r] == s.shown[r]
    ensures if s.tasks[t].handle.generation == 1 then e.published == s.published
            else e.published[e.current.generation] == s.committed + 1
  {
    var key := KeyOf(s.tasks[t]);
    assert TaskSane(s, s.tasks[t]);
    if key.generation > 1 {
      steps, e := LaterGeneration(s, key.generation);
    } else if key in s.cache {
      e, steps := Take(s, Evict(key)), [] + [Evict(key)];
      ReachNext(s, [], s, Evict(key), e);
    } else {
      e, steps := s, [];
    }
  }

  /** A harmful task can be delayed until an aggregation with the new handle finds its value. */
  lemma HarmfulTask(s: Service, t: nat, f: nat) returns (steps: seq<Step>)
    requires Restarted(s) && t < |s.tasks| && !Harmless(s, s.tasks[t]) && f < |s.tasks| && s.tasks[f].Free?
    ensures Possible(s, steps) && Continues(steps) && !AnswersOk(After(s, steps))
  {
    var task, m := s.tasks[t], s;
    assert TaskSane(s, task);
    steps, m := GenerationReturns(s, t);
    assert TaskSane(m, task) && VersionOf(m, task) == VersionOf(s, task) <= s.committed;
    steps, m := DelayedStore(s, steps, m, t);
    steps, m := FindsEntry(s, steps, m, f, task.request);
    var value := m.tasks[f].value;
    assert value == Evaluation(task.handle.definition, task.request, VersionOf(s, task));
    assert !Current(m, m.tasks[f].handle, m.tasks[f].request, value);
  }

  lemma StaleEntry(s: Service, key: Key, f: nat) returns (steps: seq<Step>)
    requires Restarted(s) && key in s.cache && !EntryOk(s, key) && f < |s.tasks| && s.tasks[f].Free?
    ensures Possible(s, steps) && Continues(steps) && !AnswersOk(After(s, steps))
  {
    assert key == Key(1, key.request);
    assert Reaches(s, [], s);
    var m: Service;
    steps, m := FindsEntry(s, [], s, f, key.request);
    assert !Current(m, m.tasks[f].handle, m.tasks[f].request, m.tasks[f].value);
  }

  // Whatever happens until the generations start again, new handles get current answers.
  ghost predicate StaysCurrent(e: Service) {
    forall steps :: Possible(e, steps) && Continues(steps) ==> AnswersOk(After(e, steps))
  }

  lemma CoherentAnswers(e: Service, steps: seq<Step>)
    requires Coherent(e) && Possible(e, steps) && Continues(steps)
    ensures AnswersOk(After(e, steps))
  {
    RunCoherent(e, steps);
    var s := After(e, steps);
    forall t | 0 <= t < |s.tasks| ensures TaskOk(s, s.tasks[t]) { }
  }

  /** The exact condition at a restart, if there is a task left to look something up: the aggregations
      given a handle before it, and the entries they left, are harmless. */
  lemma RestartIsSafeIff(e: Service, f: nat)
    requires Restarted(e) && f < |e.tasks| && e.tasks[f].Free?
    ensures StaysCurrent(e) <==> SafeRestart(e)
  {
    if SafeRestart(e) {
      SafeIsCoherent(e);
      forall steps | Possible(e, steps) && Continues(steps) ensures AnswersOk(After(e, steps)) {
        CoherentAnswers(e, steps);
      }
    } else if t :| 0 <= t < |e.tasks| && !Harmless(e, e.tasks[t]) {
      var steps := HarmfulTask(e, t, f);
    } else {
      var key :| key in e.cache && !EntryOk(e, key);
      var steps := StaleEntry(e, key, f);
    }
  }

  /** Which aggregations under way are harmless: those that evaluate the same definition for the first
      generation, on a snapshot no older than the one the restart has published. */
  lemma HarmlessIff(e: Service, t: nat)
    requires Restarted(e) && t < |e.tasks| && UnderWay(e.tasks[t])
    ensures var task := e.tasks[t];
            && task.handle.reader < |e.shown|
            && (Harmless(e, task) <==>
                && task.handle.generation == 1 && task.handle.definition == e.current.definition
                && e.published[1] <= VersionOf(e, task))
  {
    assert TaskSane(e, e.tasks[t]);
  }

  /** In particular a restart is safe when no aggregation is under way and the cache is empty. */
  lemma IdleRestartIsSafe(e: Service)
    requires Restarted(e) && e.cache == map[] && forall t :: 0 <= t < |e.tasks| ==> !UnderWay(e.tasks[t])
    ensures StaysCurrent(e)
  {
    assert SafeRestart(e);
    SafeIsCoherent(e);
    forall steps | Possible(e, steps) && Continues(steps) ensures AnswersOk(After(e, steps)) {
      CoherentAnswers(e, steps);
    }
  }

  // ----- what the steps are for -----

  // A table that is served and that nobody is publishing, with a task that is free.
  predicate Ready(s: Service, t: nat) {
    && s.publication.Unlocked? && s.served && s.current.reader < |s.shown|
    && t < |s.tasks| && s.tasks[t].Free?
  }

  lemma OpenedReady(version: nat, tasks: nat, t: nat)
    requires t < tasks
    ensures Ready(Opened(version, tasks), t) && Opened(version, tasks).listed
    ensures var s := Opened(version, tasks);
            s.cache == map[] && s.shown == [version] && s.committed == version && s.published == map[1 := version]
  {
  }

  /** An aggregation that nobody interrupts answers with the request evaluated on what the reader of the
      current handle shows, and leaves that in the cache. */
  lemma AnswersBySearching(s: Service, t: nat, request: nat)
    requires Ready(s, t) && Key(s.current.generation, request) !in s.cache
    ensures var value := Evaluation(s.current.definition, request, s.shown[s.current.reader]);
            Reaches(s, [Lookup(t, request)] + [Miss(t)] + [Search(t)] + [Store(t)],
                    s.(cache := s.cache[Key(s.current.generation, request) := value],
                       tasks := s.tasks[t := Answered(s.current, request, value)]))
  {
    var value := Evaluation(s.current.definition, request, s.shown[s.current.reader]);
    var s1 := s.(tasks := s.tasks[t := Looked(s.current, request)]);
    var s2 := s.(tasks := s.tasks[t := Missed(s.current, request)]);
    var s3 := s.(tasks := s.tasks[t := Computed(s.current, request, value)]);
    var s4 := s.(cache := s.cache[Key(s.current.generation, request) := value],
                 tasks := s.tasks[t := Answered(s.current, request, value)]);
    assert [] + [Lookup(t, request)] == [Lookup(t, request)];
    ReachNext(s, [], s, Lookup(t, request), s1);
    ReachNext(s, [Lookup(t, request)], s1, Miss(t), s2);
    ReachNext(s, [Lookup(t, request)] + [Miss(t)], s2, Search(t), s3);
    ReachNext(s, [Lookup(t, request)] + [Miss(t)] + [Search(t)], s3, Store(t), s4);
  }

  /** One that finds its key in the cache answers with what is there. */
  lemma AnswersFromCache(s: Service, t: nat, request: nat)
    requires Ready(s, t) && Key(s.current.generation, request) in s.cache
    ensures Reaches(s, [Lookup(t, request)] + [Hit(t)],
                    s.(tasks := s.tasks[t := Answered(s.current, request,
                                                      s.cache[Key(s.current.generation, request)])]))
  {
    var s1 := s.(tasks := s.tasks[t := Looked(s.current, request)]);
    assert [] + [Lookup(t, request)] == [Lookup(t, request)];
    ReachNext(s, [], s, Lookup(t, request), s1);
    ReachNext(s, [Lookup(t, request)], s1, Hit(t),
              s.(tasks := s.tasks[t := Answered(s.current, request, s.cache[Key(s.current.generation, request)])]));
  }

  /** A publication that succeeds shows what is committed under a new handle and empties the cache: the next
      generation of the same reader, or generation 1 of a new reader when the definition has changed or the
      table is not listed. */
  lemma Publishes(s: Service, definition: nat)
    requires s.publication.Unlocked? && s.current.reader < |s.shown|
    ensures s.listed ==>
              Reaches(s, [Reload] + [Invalidate] + [Swap],
                      s.(shown := s.shown[s.current.reader := s.committed], served := true, cache := map[],
                         current := s.current.(generation := s.current.generation + 1),
                         published := s.published[s.current.generation + 1 := s.committed]))
    ensures !s.listed || definition != s.current.definition ==>
              Reaches(s, [Reopen(definition)] + [Invalidate] + [Swap],
                      s.(shown := s.shown + [s.committed], listed := true, served := true, cache := map[],
                         current := Handle(definition, 1, |s.shown|), published := map[1 := s.committed]))
  {
    if s.listed { Reloads(s); }
    if !s.listed || definition != s.current.definition {
      var s1 := Take(s, Reopen(definition));
      var s2 := Take(s1, Invalidate);
      assert [] + [Reopen(definition)] == [Reopen(definition)];
      ReachNext(s, [], s, Reopen(definition), s1);
      ReachNext(s, [Reopen(definition)], s1, Invalidate, s2);
      ReachNext(s, [Reopen(definition)] + [Invalidate], s2, Swap, Take(s2, Swap));
    }
  }

  /** After a publication that failed, or one without the table, the next one opens the table anew whatever its
      definition; a failed one leaves the current handle, the cache and the aggregations as they were, and
      without the table nothing is looked up any more. */
  lemma FailsOrOmits(s: Service, definition: nat)
    ensures var e := Take(s, Fail);
            && e == s.(listed := e.listed, publication := e.publication)
            && Enabled(e, Reopen(definition)) && !Enabled(e, Reload)
    ensures Enabled(s, Omit) ==>
              var e := Take(s, Omit);
              && Enabled(e, Reopen(definition)) && !Enabled(e, Reload)
              && forall t, request :: !Enabled(e, Lookup(t, request))
  {
  }

  lemma Reloads(s: Service)
    requires s.publication.Unlocked? && s.current.reader < |s.shown| && s.listed
    ensures Reaches(s, [Reload] + [Invalidate] + [Swap],
                    s.(shown := s.shown[s.current.reader := s.committed], served := true, cache := map[],
                       current := s.current.(generation := s.current.generation + 1),
                       published := s.published[s.current.generation + 1 := s.committed]))
  {
    var s1 := Take(s, Reload);
    var s2 := Take(s1, Invalidate);
    assert [] + [Reload] == [Reload];
    ReachNext(s, [], s, Reload, s1);
    ReachNext(s, [Reload], s1, Invalidate, s2);
    ReachNext(s, [Reload] + [Invalidate], s2, Swap, Take(s2, Swap));
  }

  // ----- a trace -----

  // A first aggregation evaluates and is delayed; the generations start again, because the definition
  // changes or a publication fails before it; the first aggregation stores its value under generation
  // 1; a second one finds it.
  function Delayed(): seq<Step> {
    [Lookup(0, 7)] + [Miss(0)] + [Search(0)]
  }

  function Restart(definition: nat, fails: bool): seq<Step> {
    Delayed() + [Commit] + (if fails then [Fail] else []) + [Reopen(definition)] + [Invalidate] + [Swap]
  }

  function StaleTrace(definition: nat, fails: bool): seq<Step> {
    Restart(definition, fails) + [Store(0)] + [Lookup(1, 7)] + [Hit(1)]
  }

  function OldHandle(): Handle {
    Handle(0, 1, 0)
  }

  function NewHandle(definition: nat): Handle {
    Handle(definition, 1, 1)
  }

  function AfterDelay(version: nat): Service {
    Opened(version, 0).(tasks := [Computed(OldHandle(), 7, Evaluation(0, 7, version)), Free])
  }

  function AfterRestart(version: nat, definition: nat): Service {
    Service(version + 1, [version, version + 1], NewHandle(definition), true, true, map[1 := version + 1],
            Unlocked, map[], [Computed(OldHandle(), 7, Evaluation(0, 7, version)), Free])
  }

  // What the second aggregation is left with.
  function StaleEnd(version: nat, definition: nat): Service {
    var value := Evaluation(0, 7, version);
    AfterRestart(version, definition).(
      cache := map[Key(1, 7) := value],
      tasks := [Answered(OldHandle(), 7, value), Answered(NewHandle(definition), 7, value)])
  }

  lemma DelayedRun(version: nat)
    ensures Reaches(Opened(version, 2), Delayed(), AfterDelay(version))
  {
    var s := Opened(version, 2);
    assert s.tasks == [Free, Free];
    var s1 := Take(s, Lookup(0, 7));
    var s2 := Take(s1, Miss(0));
    ReachNext(s, [], s, Lookup(0, 7), s1);
    assert [] + [Lookup(0, 7)] == [Lookup(0, 7)];
    ReachNext(s, [Lookup(0, 7)], s1, Miss(0), s2);
    assert Take(s2, Search(0)).tasks == AfterDelay(version).tasks;
    ReachNext(s, [Lookup(0, 7)] + [Miss(0)], s2, Search(0), AfterDelay(version));
  }

  lemma RestartRun(version: nat, definition: nat, fails: bool)
    requires fails || definition != 0
    ensures Reaches(Opened(version, 2), Restart(definition, fails), AfterRestart(version, definition))
  {
    var s, s3 := Opened(version, 2), AfterDelay(version);
    DelayedRun(version);
    var s4 := Take(s3, Commit);
    ReachNext(s, Delayed(), s3, Commit, s4);
    var steps := Delayed() + [Commit] + (if fails then [Fail] else []);
    var s5 := if fails then Take(s4, Fail) else s4;
    if fails { ReachNext(s, Delayed() + [Commit], s4, Fail, s5); } else { assert steps == Delayed() + [Commit]; }
    var s6 := Take(s5, Reopen(definition));
    var s7 := Take(s6, Invalidate);
    assert s6.shown == [version, version + 1];
    assert Take(s7, Swap).published == map[1 := version + 1];
    ReachNext(s, steps, s5, Reopen(definition), s6);
    ReachNext(s, steps + [Reopen(definition)], s6, Invalidate, s7);
    ReachNext(s, steps + [Reopen(definition)] + [Invalidate], s7, Swap, AfterRestart(version, definition));
  }

  /** Then the second aggregation gets a value on a snapshot older than the one that was published,
      also when the definition is the same and only a publication has failed. */
  lemma DelayedStoreIsStale(version: nat, definition: nat, fails: bool)
    requires fails || definition != 0
    ensures Reaches(Opened(version, 2), StaleTrace(definition, fails), StaleEnd(version, definition))
    ensures var s := StaleEnd(version, definition); var task := TaskAt(s, 1);
            task.Answered? && task.handle == s.current && task.value.version < s.published[task.handle.generation]
  {
    var s, s7 := Opened(version, 2), AfterRestart(version, definition);
    RestartRun(version, definition, fails);
    var s8 := Take(s7, Store(0));
    var s9 := Take(s8, Lookup(1, 7));
    var steps := Restart(definition, fails);
    assert Take(s9, Hit(1)).tasks == StaleEnd(version, definition).tasks;
    ReachNext(s, steps, s7, Store(0), s8);
    ReachNext(s, steps + [Store(0)], s8, Lookup(1, 7), s9);
    ReachNext(s, steps + [Store(0)] + [Lookup(1, 7)], s9, Hit(1), StaleEnd(version, definition));
  }
}
