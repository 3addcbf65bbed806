/** Every call of the database keeps the protocol invariant at each of its steps. */
module OutboxScripts {
  import opened Outbox
  import opened OutboxFacts
  import opened OutboxFiles
  import opened OutboxInvariant

  lemma Chain(s: Db, a: seq<Step>, b: seq<Step>, level: Level)
    requires Good(s, a, level) && Good(Exec(s, a), b, level)
    ensures Good(s, a + b, level) && Exec(s, a + b) == Exec(Exec(s, a), b)
  {
    GoodAppend(s, a, b, level);
    ExecAppend(s, a, b);
  }

  lemma Snoc(s: Db, steps: seq<Step>, step: Step, level: Level)
    requires Good(s, steps, level)
    requires Holds(Do(Exec(s, steps), step), level) && Publishes(Exec(s, steps), Do(Exec(s, steps), step))
    ensures Good(s, steps + [step], level) && Exec(s, steps + [step]) == Do(Exec(s, steps), step)
  {
    GoodEnds(s, steps, level);
    GoodOne(Exec(s, steps), step, level);
    Chain(s, steps, [step], level);
  }

  // ----- staging -----

  lemma {:induction false} WritesEffect(s: Db, table: string, ops: seq<WriterOp>)
    ensures var e := Exec(s, Writes(table, ops));
            e == s.(writers := e.writers) && Buffered(e, table) == Buffered(s, table) + ops &&
            (forall other :: other != table ==> Buffered(e, other) == Buffered(s, other))
  {
    if ops != [] {
      var front, last := ops[..|ops| - 1], ops[|ops| - 1];
      WritesEffect(s, table, front);
      assert Writes(table, ops)[..|front|] == Writes(table, front);
      assert Buffered(s, table) + front + [last] == Buffered(s, table) + ops;
    }
  }

  lemma {:induction false} WritesGood(s: Db, table: string, ops: seq<WriterOp>, level: Level)
    requires Holds(s, level) && table in s.tables
    requires forall op :: op in ops ==> Touches(Unstaged(s), table, op.Target())
    ensures Good(s, Writes(table, ops), level)
  {
    if ops == [] {
      GoodNone(s, level);
    } else {
      var front, last := ops[..|ops| - 1], ops[|ops| - 1];
      WritesGood(s, table, front, level);
      WritesEffect(s, table, front);
      GoodEnds(s, Writes(table, front), level);
      WriteStep(Exec(s, Writes(table, front)), table, last, level);
      Snoc(s, Writes(table, front), Write(table, last), level);
      assert Writes(table, ops) == Writes(table, front) + [Write(table, last)];
    }
  }

  lemma {:induction false} ForgetsEffect(s: Db, records: seq<Record>)
    ensures Exec(s, Forgets(records)) == s.(deferred := s.deferred - Ids(records), staged := s.staged - Ids(records))
  {
    if records != [] {
      var front, last := records[..|records| - 1], records[|records| - 1];
      ForgetsEffect(s, front);
      assert Forgets(records)[..|front|] == Forgets(front);
      IdsSnoc(front, last);
      assert records == front + [last];
      assert s.deferred - Ids(front) - {last.id} == s.deferred - Ids(records);
      assert s.staged - Ids(front) - {last.id} == s.staged - Ids(records);
    } else {
      assert s.deferred - Ids(records) == s.deferred && s.staged - Ids(records) == s.staged;
    }
  }

  lemma IdsSnoc(front: seq<Record>, last: Record)
    ensures Ids(front + [last]) == Ids(front) + {last.id}
  {
    forall id ensures id in Ids(front + [last]) <==> id in Ids(front) + {last.id} {
      if id in Ids(front) {
        var record :| record in front && record.id == id;
        assert record in front + [last];
      }
      assert last in front + [last];
    }
  }

  lemma {:induction false} ForgetsGood(s: Db, records: seq<Record>, level: Level)
    requires Holds(s, level)
    requires forall r, record :: r in records && record in s.outbox ==> record.id != r.id
    ensures Good(s, Forgets(records), level)
  {
    if records == [] {
      GoodNone(s, level);
    } else {
      var front, last := records[..|records| - 1], records[|records| - 1];
      assert records == front + [last];
      ForgetsGood(s, front, level);
      ForgetsEffect(s, front);
      GoodEnds(s, Forgets(front), level);
      ForgetStep(Exec(s, Forgets(front)), last.id, level);
      Snoc(s, Forgets(front), Forget(last.id), level);
      assert Forgets(records) == Forgets(front) + [Forget(last.id)];
    }
  }

  // ----- applying outbox records -----

  /** A call applies either every record or exactly the unstaged ones. */
  ghost predicate Selects(s: Db, ids: set<nat>, level: Level) {
    || (forall record :: record in s.outbox ==> record.id in ids)
    || (level != Crashable && forall record :: record in s.outbox ==> (record.id in ids <==> record.id !in s.staged))
  }

  function Group(s: Db, table: string, ids: set<nat>): seq<Record> {
    ForTable(Keep(s.outbox, ids), table)
  }

  lemma GroupMembers(s: Db, table: string, ids: set<nat>, record: Record)
    ensures record in Group(s, table, ids) <==> record in s.outbox && record.id in ids && record.table == table
  {
    ForTableMembers(Keep(s.outbox, ids), table, record);
    KeepMembers(s.outbox, ids, record);
  }

  lemma {:induction false} UniqueIds(records: seq<Record>, a: Record, b: Record)
    requires Ascending(records) && a in records && b in records && a.id == b.id
    ensures a == b
  {
    var i :| 0 <= i < |records| && records[i] == a;
    var j :| 0 <= j < |records| && records[j] == b;
    assert !(i < j) && !(j < i);
  }

  lemma GroupPurgeable(s: Db, table: string, ids: set<nat>, level: Level)
    requires Tidy(s) && Selects(s, ids, level)
    ensures Purgeable(s, table, Ids(Group(s, table, ids)), level)
  {
    forall record | record in s.outbox
      ensures record.id in Ids(Group(s, table, ids)) <==> record.id in ids && record.table == table
    {
      GroupMembers(s, table, ids, record);
      if record.id in Ids(Group(s, table, ids)) {
        var other :| other in Group(s, table, ids) && other.id == record.id;
        GroupMembers(s, table, ids, other);
        UniqueIds(s.outbox, record, other);
      }
    }
  }

  lemma {:induction false} ToStage(records: seq<Record>, table: string, ids: set<nat>, staged: set<nat>)
    requires forall record :: record in records && record.id !in staged ==> record.id in ids
    ensures Drop(ForTable(Keep(records, ids), table), staged) == ForTable(Drop(records, staged), table)
  {
    if records != [] {
      var front, last := records[..|records| - 1], records[|records| - 1];
      ToStage(front, table, ids, staged);
      assert last in records;
      ForTableOne(Keep(front, ids), last, table);
      DropOne(ForTable(Keep(front, ids), table), last, staged);
      ForTableOne(Drop(front, staged), last, table);
    }
  }

  lemma ForTableOne(records: seq<Record>, last: Record, table: string)
    ensures ForTable(records + [last], table) ==
            if last.table == table then ForTable(records, table) + [last] else ForTable(records, table)
  {
    assert (records + [last])[..|records|] == records;
  }

  lemma SelectsUnstaged(s: Db, ids: set<nat>, level: Level)
    requires Selects(s, ids, level)
    ensures forall record :: record in s.outbox && record.id !in s.staged ==> record.id in ids
  {
  }

  // The queued operations bring the writer up to SQLite's rows.
  lemma StagedIsLive(s: Db, e: Db, table: string, todo: seq<Record>)
    requires Holds(s, Live) && table in s.tables && todo == ForTable(Unstaged(s), table)
    requires e == s.(writers := e.writers)
    requires Buffered(e, table) == Buffered(s, table) + RecordOps(todo, RowsOf(s, table))
    ensures FullyStaged(e, table)
  {
    var rows, docs := RowsOf(s, table), Documents(s, table);
    if table !in s.dirty {
      forall key ensures Found(ApplyWriter(docs, Buffered(e, table)), key) == Sql(rows, key) {
        assert KeyOk(ViewOf(s, table, key), Live);
        ApplyWriterAppend(docs, Buffered(s, table), RecordOps(todo, rows));
        forall record | record in todo ensures record.table == table { ForTableMembers(Unstaged(s), table, record); }
        RecordsEffect(ApplyWriter(docs, Buffered(s, table)), todo, table, rows, key);
        LastInForTable(Unstaged(s), table, key);
      }
    }
  }

  lemma StageGroup(s: Db, table: string, ids: set<nat>, level: Level)
    requires Holds(s, level) && table in s.tables
    requires forall record :: record in s.outbox && record.id !in s.staged ==> record.id in ids
    ensures var todo := Drop(Group(s, table, ids), s.staged);
            var writes := Writes(table, RecordOps(todo, RowsOf(s, table)));
            var e := Exec(s, writes);
            && Good(s, writes, level) && e == s.(writers := e.writers) && FullyStaged(e, table)
            && (forall other :: other != table ==> Buffered(e, other) == Buffered(s, other))
  {
    var rows := RowsOf(s, table);
    var todo := Drop(Group(s, table, ids), s.staged);
    ToStage(s.outbox, table, ids, s.staged);
    forall record | record in todo ensures record.table == table { ForTableMembers(Unstaged(s), table, record); }
    forall op | op in RecordOps(todo, rows) ensures Touches(Unstaged(s), table, op.Target()) {
      RecordTargets(todo, table, rows, op);
      LastInForTable(Unstaged(s), table, op.Target());
    }
    WritesGood(s, table, RecordOps(todo, rows), level);
    WritesEffect(s, table, RecordOps(todo, rows));
    HoldsWeaker(s, level, Live);
    StagedIsLive(s, Exec(s, Writes(table, RecordOps(todo, rows))), table, todo);
  }

  // What one group leaves behind.
  ghost predicate GroupDone(s: Db, e: Db, table: string, ids: set<nat>) {
    var gone := Ids(Group(s, table, ids));
    && e == s.(outbox := Drop(s.outbox, gone), deferred := s.deferred - gone, staged := s.staged - gone,
               disk := e.disk, writers := e.writers)
    && Published(e, table)
    && (forall other :: other != table ==>
        Documents(e, other) == Documents(s, other) && Buffered(e, other) == Buffered(s, other))
  }

  lemma GoodTwo(s: Db, first: Step, second: Step, level: Level)
    requires Holds(s, level)
    requires Holds(Do(s, first), level) && Publishes(s, Do(s, first))
    requires Holds(Do(Do(s, first), second), level) && Publishes(Do(s, first), Do(Do(s, first), second))
    ensures Good(s, [first, second], level) && Exec(s, [first, second]) == Do(Do(s, first), second)
  {
    GoodOne(s, first, level);
    GoodOne(Do(s, first), second, level);
    Chain(s, [first], [second], level);
    assert [first] + [second] == [first, second];
  }

  lemma PurgeablePersists(s: Db, s1: Db, table: string, gone: set<nat>, level: Level)
    requires Purgeable(s, table, gone, level) && s1.outbox == s.outbox && s1.staged == s.staged
    ensures Purgeable(s1, table, gone, level)
  {
  }

  lemma PublishedPersists(s: Db, table: string, gone: set<nat>)
    requires Published(s, table)
    ensures Published(Do(s, Purge(gone)), table)
  {
  }

  lemma CommitThenPurge(s: Db, table: string, gone: set<nat>, level: Level)
    requires Holds(s, level) && table in s.tables && FullyStaged(s, table) && Purgeable(s, table, gone, level)
    ensures var s1 := Do(s, Commit(table)); var s2 := Do(s1, Purge(gone));
            Holds(s1, level) && Publishes(s, s1) && Holds(s2, level) && Publishes(s1, s2) && Published(s2, table)
  {
    CommitStep(s, table, level);
    var s1 := Do(s, Commit(table));
    PurgeablePersists(s, s1, table, gone, level);
    PurgeStep(s1, table, gone, level);
    PublishedPersists(s1, table, gone);
  }

  lemma PublishGroup(s: Db, table: string, gone: set<nat>, level: Level)
    requires Holds(s, level) && table in s.tables && FullyStaged(s, table) && Purgeable(s, table, gone, level)
    ensures Good(s, [Commit(table), Purge(gone)], level)
    ensures var e := Exec(s, [Commit(table), Purge(gone)]);
            && e == Do(Do(s, Commit(table)), Purge(gone))
            && Published(e, table)
  {
    CommitThenPurge(s, table, gone, level);
    GoodTwo(s, Commit(table), Purge(gone), level);
  }

  lemma PublishOthers(s: Db, table: string, gone: set<nat>)
    ensures var e := Do(Do(s, Commit(table)), Purge(gone));
            && e == s.(outbox := Drop(s.outbox, gone), disk := e.disk, writers := e.writers)
            && (forall other :: other != table ==>
                Documents(e, other) == Documents(s, other) && Buffered(e, other) == Buffered(s, other))
  {
  }

  lemma ForgetGroup(s: Db, group: seq<Record>, level: Level)
    requires Holds(s, level) && forall record :: record in s.outbox ==> record.id !in Ids(group)
    ensures Good(s, Forgets(group), level)
    ensures Exec(s, Forgets(group)) == s.(deferred := s.deferred - Ids(group), staged := s.staged - Ids(group))
  {
    ForgetsGood(s, group, level);
    ForgetsEffect(s, group);
  }

  lemma GroupGood(s: Db, table: string, ids: set<nat>, level: Level)
    requires Holds(s, level) && table in s.tables && Selects(s, ids, level)
    ensures Good(s, GroupScript(s, table, ids), level)
    ensures GroupDone(s, Exec(s, GroupScript(s, table, ids)), table, ids)
  {
    var group := Group(s, table, ids);
    var writes := Writes(table, RecordOps(Drop(group, s.staged), RowsOf(s, table)));
    var publish := [Commit(table), Purge(Ids(group))];
    SelectsUnstaged(s, ids, level);
    StageGroup(s, table, ids, level);
    var s1 := Exec(s, writes);
    GoodEnds(s, writes, level);
    GroupPurgeable(s, table, ids, level);
    PublishGroup(s1, table, Ids(group), level);
    PublishOthers(s1, table, Ids(group));
    Chain(s, writes, publish, level);
    var s2 := Exec(s1, publish);
    GoodEnds(s1, publish, level);
    forall record | record in s2.outbox ensures record.id !in Ids(group) { DropMembers(s.outbox, Ids(group), record); }
    ForgetGroup(s2, group, level);
    Chain(s, writes + publish, Forgets(group), level);
    GroupEnds(s, s1, s2, Exec(s2, Forgets(group)), table, ids);
  }

  lemma GroupEnds(s: Db, s1: Db, s2: Db, e: Db, table: string, ids: set<nat>)
    requires var gone := Ids(Group(s, table, ids));
             && s1 == s.(writers := s1.writers)
             && s2 == s1.(outbox := Drop(s1.outbox, gone), disk := s2.disk, writers := s2.writers)
             && e == s2.(deferred := s2.deferred - gone, staged := s2.staged - gone)
    requires Published(s2, table)
    requires forall other :: other != table ==>
               Documents(s2, other) == Documents(s1, other) &&
                 Buffered(s2, other) == Buffered(s1, other) == Buffered(s, other)
    ensures GroupDone(s, e, table, ids)
  {
    forall other | other != table
      ensures Documents(e, other) == Documents(s, other) && Buffered(e, other) == Buffered(s, other)
    {
      assert e.disk == s2.disk && e.writers == s2.writers && s1.disk == s.disk;
      assert Installed(e, other) == Installed(s2, other) && Installed(s1, other) == Installed(s, other);
      assert Buffered(e, other) == Buffered(s2, other);
    }
    assert Published(e, table);
  }

  lemma GroupRemains(s: Db, e: Db, table: string, ids: set<nat>, record: Record)
    requires Tidy(s) && GroupDone(s, e, table, ids)
    ensures record in e.outbox <==> record in s.outbox && !(record.id in ids && record.table == table)
    ensures record in e.outbox ==> (record.id in e.staged <==> record.id in s.staged)
  {
    var gone := Ids(Group(s, table, ids));
    DropMembers(s.outbox, gone, record);
    GroupMembers(s, table, ids, record);
    if record in s.outbox && record.id in gone {
      var other :| other in Group(s, table, ids) && other.id == record.id;
      GroupMembers(s, table, ids, other);
      UniqueIds(s.outbox, record, other);
    }
  }

  // Deferred ids all name outstanding records; only an interrupted call leaves stray ids.
  predicate Tracked(s: Db) {
    s.staged <= Ids(s.outbox)
  }

  ghost predicate GroupsDone(s: Db, e: Db, names: seq<string>, ids: set<nat>) {
    && e == s.(outbox := e.outbox, deferred := e.deferred, staged := e.staged, disk := e.disk, writers := e.writers)
    && (forall record :: record in e.outbox <==> record in s.outbox && !(record.id in ids && record.table in names))
    && (forall record :: record in e.outbox ==> (record.id in e.staged <==> record.id in s.staged))
    && e.staged <= s.staged
    && (forall table :: table in names ==> Published(e, table))
    && (forall table :: table !in names ==>
        Documents(e, table) == Documents(s, table) && Buffered(e, table) == Buffered(s, table))
    && (Tracked(s) ==> Tracked(e))
  }

  lemma TrackedAfterGroup(s: Db, e: Db, table: string, ids: set<nat>)
    requires GroupDone(s, e, table, ids) && Tracked(s)
    ensures Tracked(e)
  {
    var gone := Ids(Group(s, table, ids));
    forall id | id in e.staged ensures id in Ids(e.outbox) {
      var record :| record in s.outbox && record.id == id;
      DropMembers(s.outbox, gone, record);
    }
  }

  lemma {:induction false} GroupsGood(s: Db, names: seq<string>, ids: set<nat>, level: Level)
    requires Holds(s, level) && Selects(s, ids, level) && forall name :: name in names ==> name in s.tables
    ensures Good(s, GroupsScript(s, names, ids), level)
    ensures GroupsDone(s, Exec(s, GroupsScript(s, names, ids)), names, ids)
    decreases |names|
  {
    if names == [] {
      GoodNone(s, level);
    } else {
      var first := GroupScript(s, names[0], ids);
      GroupGood(s, names[0], ids, level);
      var s1 := Exec(s, first);
      GoodEnds(s, first, level);
      forall record { GroupRemains(s, s1, names[0], ids, record); }
      if Tracked(s) { TrackedAfterGroup(s, s1, names[0], ids); }
      GroupsGood(s1, names[1..], ids, level);
      var rest := GroupsScript(s1, names[1..], ids);
      GoodAppend(s, first, rest, level);
      ExecAppend(s, first, rest);
      GroupsCompose(s, s1, Exec(s1, rest), names, ids);
    }
  }

  lemma GroupsCompose(s: Db, s1: Db, e: Db, names: seq<string>, ids: set<nat>)
    requires names != [] && Tidy(s) && GroupDone(s, s1, names[0], ids) && GroupsDone(s1, e, names[1..], ids)
    requires Tracked(s) ==> Tracked(s1)
    ensures GroupsDone(s, e, names, ids)
  {
    assert names == [names[0]] + names[1..];
    forall record
      ensures record in e.outbox <==> record in s.outbox && !(record.id in ids && record.table in names)
      ensures record in e.outbox ==> (record.id in e.staged <==> record.id in s.staged)
    {
      GroupRemains(s, s1, names[0], ids, record);
    }
  }

  // What `apply_outboxes` leaves behind: the chosen records are gone and their tables published.
  ghost predicate Applied(s: Db, e: Db, ids: set<nat>) {
    && e == s.(outbox := e.outbox, deferred := e.deferred, staged := e.staged, disk := e.disk, writers := e.writers)
    && (forall record :: record in e.outbox <==> record in s.outbox && record.id !in ids)
    && (forall record :: record in e.outbox ==> (record.id in e.staged <==> record.id in s.staged))
    && e.staged <= s.staged
    && (forall table :: (exists record :: record in s.outbox && record.id in ids && record.table == table) ==>
        Published(e, table))
    && (forall table :: (forall record :: record in s.outbox && record.id in ids ==> record.table != table) ==>
          Documents(e, table) == Documents(s, table) && Buffered(e, table) == Buffered(s, table))
    && (Tracked(s) ==> Tracked(e))
  }

  lemma ApplyGood(s: Db, ids: set<nat>, level: Level)
    requires Holds(s, level) && Selects(s, ids, level)
    ensures Good(s, ApplyScript(s, ids), level)
    ensures Applied(s, Exec(s, ApplyScript(s, ids)), ids)
    ensures Unstaged(Exec(s, ApplyScript(s, ids))) == []
  {
    var names := Names(Keep(s.outbox, ids));
    forall record ensures record in Keep(s.outbox, ids) <==> record in s.outbox && record.id in ids {
      KeepMembers(s.outbox, ids, record);
    }
    forall name
      ensures name in names <==> exists record :: record in s.outbox && record.id in ids && record.table == name
    {
      NamesMembers(Keep(s.outbox, ids), name);
    }
    GroupsGood(s, names, ids, level);
    var e := Exec(s, ApplyScript(s, ids));
    forall record | record in s.outbox && record.id in ids ensures record.table in names { }
    SelectsUnstaged(s, ids, level);
    if Unstaged(e) != [] {
      DropMembers(e.outbox, e.staged, Unstaged(e)[0]);
    }
  }

  /** A key without an outstanding record is published; so is every key of an applied table. */
  lemma NoRecordsMeansPublished(s: Db, table: string)
    requires Holds(s, Live) && table in s.tables && table !in s.dirty
    requires forall record :: record in s.outbox ==> record.table != table
    ensures Agrees(Documents(s, table), RowsOf(s, table))
  {
    forall key ensures Found(Documents(s, table), key) == Sql(RowsOf(s, table), key) {
      assert KeyOk(ViewOf(s, table, key), Live);
      NewestOfNone(s.outbox, table, key, RowsOf(s, table));
    }
  }

  lemma EmptyOutbox(records: seq<Record>)
    ensures records == [] || exists record :: record in records
  {
    if records != [] { assert records[0] in records; }
  }

  lemma LastIsNewest(records: seq<Record>, record: Record)
    requires Ascending(records) && record in records
    ensures record.id <= records[|records| - 1].id
    ensures record in records[..|records| - 1] <==> record != records[|records| - 1]
  {
    var i :| 0 <= i < |records| && records[i] == record;
    var front, last := records[..|records| - 1], records[|records| - 1];
    assert records == front + [last];
    if i < |records| - 1 { assert records[i].id < last.id && front[i] == record; }
    if record in front {
      var k :| 0 <= k < |front| && front[k] == record;
      assert records[k].id < last.id;
    }
  }

  /** Outboxes are determined by the records they hold. */
  lemma {:induction false} AscendingUnique(a: seq<Record>, b: seq<Record>)
    requires Ascending(a) && Ascending(b) && forall record :: record in a <==> record in b
    ensures a == b
  {
    if a == [] {
      EmptyOutbox(b);
    } else {
      var x := a[|a| - 1];
      assert x in b;
      var y := b[|b| - 1];
      assert y in a;
      LastIsNewest(a, y);
      LastIsNewest(b, x);
      UniqueIds(b, x, y);
      var fa, fb := a[..|a| - 1], b[..|b| - 1];
      forall record ensures record in fa <==> record in fb { FrontMembers(a, b, record); }
      AscendingUnique(fa, fb);
      assert a == fa + [x] && b == fb + [x];
    }
  }

  lemma FrontMembers(a: seq<Record>, b: seq<Record>, record: Record)
    requires a != [] && b != [] && a[|a| - 1] == b[|b| - 1]
    requires Ascending(a) && Ascending(b) && (record in a <==> record in b)
    ensures record in a[..|a| - 1] <==> record in b[..|b| - 1]
  {
    if record in a {
      LastIsNewest(a, record);
      LastIsNewest(b, record);
    }
  }

  /** After a flush the outbox is empty and every clean table is published. */
  lemma FlushGood(s: Db, level: Level)
    requires Holds(s, level)
    ensures Good(s, FlushScript(s), level)
    ensures var e := Exec(s, FlushScript(s));
            && e == s.(outbox := [], deferred := e.deferred, staged := e.staged, disk := e.disk, writers := e.writers)
            && (forall table :: table in e.tables && table !in e.dirty ==> Agrees(Documents(e, table), e.tables[table]))
            && (Tracked(s) ==> e.staged == {} && e.deferred == {})
  {
    var ids := Ids(s.outbox);
    ApplyGood(s, ids, level);
    var s1 := Exec(s, ApplyScript(s, ids));
    GoodEnds(s, ApplyScript(s, ids), level);
    EmptyOutbox(s1.outbox);
    ForgetsGood(s1, s.outbox, level);
    ForgetsEffect(s1, s.outbox);
    GoodAppend(s, ApplyScript(s, ids), Forgets(s.outbox), level);
    ExecAppend(s, ApplyScript(s, ids), Forgets(s.outbox));
    var e := Exec(s, FlushScript(s));
    GoodEnds(s, FlushScript(s), level);
    HoldsWeaker(e, level, Live);
    forall table | table in e.tables && table !in e.dirty ensures Agrees(Documents(e, table), e.tables[table]) {
      NoRecordsMeansPublished(e, table);
    }
    if Tracked(s) { assert Tracked(s1) && Ids(s1.outbox) == {}; }
  }

  lemma ReplayGood(s: Db, level: Level)
    requires Holds(s, level) && level != Crashable
    ensures Good(s, ReplayScript(s), level)
    ensures Applied(s, Exec(s, ReplayScript(s)), Ids(s.outbox) - s.deferred)
    ensures Unstaged(Exec(s, ReplayScript(s))) == []
  {
    ApplyGood(s, Ids(s.outbox) - s.deferred, level);
  }

  // ----- rebuilding -----

  lemma FileOnly(s: Db, table: string, action: FileAction)
    ensures Do(s, Files(table, action)) == s.(disk := Act(s.disk, PathsOf(table), RowsOf(s, table), action))
  {
  }

  lemma FileSpares(s: Db, table: string, action: FileAction)
    requires Spares(s.tables.Keys, table, [action])
    ensures OnlyTable(s, Do(s, Files(table, action)), table)
  {
    FileOnly(s, table, action);
    var after := Do(s, Files(table, action));
    forall other | other in s.tables && other != table ensures Installed(after, other) == Installed(s, other) {
      ActAvoids(s.disk, PathsOf(table), RowsOf(s, table), action, PathsOf(other).final);
    }
  }

  lemma FileStep(s: Db, table: string, action: FileAction, level: Level)
    requires Holds(s, level) && (table in s.dirty || table !in s.tables) && Spares(s.tables.Keys, table, [action])
    ensures Holds(Do(s, Files(table, action)), level) && Publishes(s, Do(s, Files(table, action)))
  {
    FileSpares(s, table, action);
    DirtyTableStep(s, Do(s, Files(table, action)), table, level);
  }

  lemma {:induction false} FileStepsGood(s: Db, table: string, actions: seq<FileAction>, level: Level)
    requires Holds(s, level) && (table in s.dirty || table !in s.tables) && Spares(s.tables.Keys, table, actions)
    ensures Good(s, FileSteps(table, actions), level)
  {
    if actions == [] {
      GoodNone(s, level);
    } else {
      var front, last := actions[..|actions| - 1], actions[|actions| - 1];
      SparesParts(s.tables.Keys, table, actions);
      FileStepsGood(s, table, front, level);
      FileStepsEffect(s, table, front);
      GoodEnds(s, FileSteps(table, front), level);
      FileStep(Exec(s, FileSteps(table, front)), table, last, level);
      Snoc(s, FileSteps(table, front), Files(table, last), level);
      assert FileSteps(table, actions) == FileSteps(table, front) + [Files(table, last)];
    }
  }

  lemma {:induction false} FileStepsEffect(s: Db, table: string, actions: seq<FileAction>)
    ensures Exec(s, FileSteps(table, actions)) == s.(disk := ActAll(s.disk, PathsOf(table), RowsOf(s, table), actions))
  {
    if actions != [] {
      var front, last := actions[..|actions| - 1], actions[|actions| - 1];
      FileStepsEffect(s, table, front);
      assert FileSteps(table, actions)[..|front|] == FileSteps(table, front);
      var e := Exec(s, FileSteps(table, front));
      assert RowsOf(e, table) == RowsOf(s, table);
      FileOnly(e, table, last);
    }
  }

  // The rows of the table are installed, and every other table is as it was.
  ghost predicate Rebuilt(s: Db, e: Db, table: string) {
    && e == s.(dirty := s.dirty - {table}, disk := e.disk, writers := e.writers)
    && Installed(e, table) == Whole(Snapshot(RowsOf(s, table)))
    && Buffered(e, table) == []
    && (forall other :: other in s.tables && other != table ==> Installed(e, other) == Installed(s, other))
    && (forall other :: other != table ==> Buffered(e, other) == Buffered(s, other))
  }

  lemma SwapEffect(s: Db, table: string)
    ensures var e := Exec(s, FileSteps(table, BuildActions() + SwapActions(PathsOf(table))));
            && e == s.(disk := e.disk) && Installed(e, table) == Whole(Snapshot(RowsOf(s, table)))
            && forall other :: other != table && !Clash(table, other) ==> Installed(e, other) == Installed(s, other)
  {
    FileStepsEffect(s, table, BuildActions() + SwapActions(PathsOf(table)));
    SwapInstalls(s.disk, table, RowsOf(s, table));
    var e := Exec(s, FileSteps(table, BuildActions() + SwapActions(PathsOf(table))));
    forall other | other != table && !Clash(table, other) ensures Installed(e, other) == Installed(s, other) {
      assert PathsOf(other).final !in {PathsOf(table).final, PathsOf(table).retired, PathsOf(table).building};
    }
  }

  lemma RebuildSteps(s: Db, table: string)
    ensures var s1 := Do(s, CloseIndex(table));
            Exec(s, RebuildScript(table)) ==
              Do(Exec(s1, FileSteps(table, BuildActions() + SwapActions(PathsOf(table)))), MarkClean(table))
  {
    var swap := FileSteps(table, BuildActions() + SwapActions(PathsOf(table)));
    var s1 := Exec(s, [CloseIndex(table)]);
    TrailOne(s, CloseIndex(table));
    var e := Exec(s1, swap);
    TrailOne(e, MarkClean(table));
    ExecAppend(s, [CloseIndex(table)], swap);
    ExecAppend(s, [CloseIndex(table)] + swap, [MarkClean(table)]);
  }

  lemma RebuiltEnds(s: Db, e: Db, table: string)
    requires e == Do(s, CloseIndex(table)).(disk := e.disk) && Installed(e, table) == Whole(Snapshot(RowsOf(s, table)))
    requires forall other :: other in s.tables && other != table ==> Installed(e, other) == Installed(s, other)
    ensures Rebuilt(s, Do(e, MarkClean(table)), table)
  {
    var after := Do(e, MarkClean(table));
    assert after == e.(dirty := e.dirty - {table});
  }

  lemma NoClash(tables: set<string>, table: string, other: string)
    requires Apart(tables) && table in tables && other in tables
    ensures !Clash(table, other)
  {
  }

  lemma SwapRebuilds(s: Db, table: string)
    requires Apart(s.tables.Keys) && table in s.tables
    ensures var e := Exec(Do(s, CloseIndex(table)), FileSteps(table, BuildActions() + SwapActions(PathsOf(table))));
            Rebuilt(s, Do(e, MarkClean(table)), table)
  {
    var s1 := Do(s, CloseIndex(table));
    SwapEffect(s1, table);
    var e := Exec(s1, FileSteps(table, BuildActions() + SwapActions(PathsOf(table))));
    forall other | other in s.tables && other != table ensures Installed(e, other) == Installed(s, other) {
      NoClash(s.tables.Keys, table, other);
    }
    RebuiltEnds(s, e, table);
  }

  /** A rebuild installs SQLite's rows whatever the state it starts from, and disturbs no other table. */
  lemma RebuildEffect(s: Db, table: string)
    requires Apart(s.tables.Keys) && table in s.tables
    ensures Rebuilt(s, Exec(s, RebuildScript(table)), table)
  {
    RebuildSteps(s, table);
    SwapRebuilds(s, table);
  }

  lemma RebuildGood(s: Db, table: string, level: Level)
    requires Holds(s, level) && table in s.dirty
    ensures Good(s, RebuildScript(table), level)
  {
    var swap := FileSteps(table, BuildActions() + SwapActions(PathsOf(table)));
    var s1 := Do(s, CloseIndex(table));
    DirtyTableStep(s, s1, table, level);
    GoodOne(s, CloseIndex(table), level);
    ApartSpares(s1.tables.Keys, table, BuildActions() + SwapActions(PathsOf(table)));
    FileStepsGood(s1, table, BuildActions() + SwapActions(PathsOf(table)), level);
    SwapEffect(s1, table);
    var e := Exec(s1, swap);
    GoodEnds(s1, swap, level);
    MarkCleanStep(e, table, level);
    GoodOne(e, MarkClean(table), level);
    Chain(s, [CloseIndex(table)], swap, level);
    Chain(s, [CloseIndex(table)] + swap, [MarkClean(table)], level);
  }

  ghost predicate Distinct(tables: seq<string>) {
    forall i, j :: 0 <= i < j < |tables| ==> tables[i] != tables[j]
  }

  // The catalog lists each dirty table once.
  ghost predicate Lists(tables: seq<string>, dirty: set<string>) {
    Distinct(tables) && forall table :: table in tables <==> table in dirty
  }

  ghost predicate AllRebuilt(s: Db, e: Db, tables: seq<string>) {
    && e == s.(dirty := e.dirty, disk := e.disk, writers := e.writers)
    && (forall table :: table in e.dirty <==> table in s.dirty && table !in tables)
    && (forall table :: table in tables ==>
        Installed(e, table) == Whole(Snapshot(RowsOf(s, table))) && Buffered(e, table) == [])
    && (forall table :: table in s.tables && table !in tables ==> Installed(e, table) == Installed(s, table))
    && (forall table :: table !in tables ==> Buffered(e, table) == Buffered(s, table))
  }

  lemma OneMoreRebuilt(s: Db, e: Db, e1: Db, front: seq<string>, last: string)
    requires AllRebuilt(s, e, front) && Rebuilt(e, e1, last) && forall table :: table in front ==> table in s.tables
    ensures AllRebuilt(s, e1, front + [last])
  {
    var tables := front + [last];
    assert forall table :: table in tables <==> table in front || table == last;
    forall table | table in tables
      ensures Installed(e1, table) == Whole(Snapshot(RowsOf(s, table))) && Buffered(e1, table) == []
    {
      assert RowsOf(e, table) == RowsOf(s, table);
    }
  }

  lemma {:induction false} RebuildsEffect(s: Db, tables: seq<string>)
    requires Apart(s.tables.Keys) && forall table :: table in tables ==> table in s.tables
    ensures AllRebuilt(s, Exec(s, RebuildsScript(tables)), tables)
  {
    if tables != [] {
      var front, last := tables[..|tables| - 1], tables[|tables| - 1];
      assert tables == front + [last];
      RebuildsEffect(s, front);
      var e := Exec(s, RebuildsScript(front));
      RebuildEffect(e, last);
      ExecAppend(s, RebuildsScript(front), RebuildScript(last));
      OneMoreRebuilt(s, e, Exec(e, RebuildScript(last)), front, last);
    }
  }

  lemma {:induction false} RebuildsGood(s: Db, tables: seq<string>, level: Level)
    requires Holds(s, level) && Distinct(tables) && forall table :: table in tables ==> table in s.dirty
    ensures Good(s, RebuildsScript(tables), level)
  {
    if tables == [] {
      GoodNone(s, level);
    } else {
      var front, last := tables[..|tables| - 1], tables[|tables| - 1];
      assert tables == front + [last];
      RebuildsGood(s, front, level);
      RebuildsEffect(s, front);
      var e := Exec(s, RebuildsScript(front));
      GoodEnds(s, RebuildsScript(front), level);
      RebuildGood(e, last, level);
      GoodAppend(s, RebuildsScript(front), RebuildScript(last), level);
    }
  }

  /** Recovery, from any leftover combination of directories and any outbox. */
  lemma RecoverGood(s: Db, listed: seq<string>, level: Level)
    requires Holds(s, level) && level != Crashable && Lists(listed, s.dirty)
    ensures Good(s, RecoverScript(s, listed), level)
    ensures var e := Exec(s, RecoverScript(s, listed));
            && e == s.(dirty := {}, outbox := e.outbox, deferred := e.deferred, staged := e.staged,
                       disk := e.disk, writers := e.writers)
            && Unstaged(e) == []
            && (forall record :: record in e.outbox <==> record in s.outbox && record.id in s.staged)
            && (forall record :: record in e.outbox ==> record.id in e.staged)
            && e.staged <= s.staged && (Tracked(s) ==> Tracked(e))
  {
    var rebuilds := RebuildsScript(listed);
    RebuildsGood(s, listed, level);
    RebuildsEffect(s, listed);
    var s1 := Exec(s, rebuilds);
    assert s1.dirty == {};
    GoodEnds(s, rebuilds, level);
    ReplayGood(s1, level);
    GoodAppend(s, rebuilds, ReplayScript(s1), level);
    ExecAppend(s, rebuilds, ReplayScript(s1));
  }
}
