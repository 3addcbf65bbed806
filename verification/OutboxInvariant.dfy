/** What every step of the outbox protocol keeps. */
module OutboxInvariant {
  import opened Wrappers
  import opened Outbox
  import opened OutboxFacts

  // Records whose operations are not queued in a writer of this process.
  function Unstaged(s: Db): seq<Record> {
    Drop(s.outbox, s.staged)
  }

  // Records of deferred writes: queued in a writer, waiting for a flush.
  function Deferred(s: Db): seq<Record> {
    Keep(s.outbox, s.staged)
  }

  ghost predicate Ascending(records: seq<Record>) {
    forall i, j :: 0 <= i < j < |records| ==> records[i].id < records[j].id
  }

  ghost predicate Tidy(s: Db) {
    && Ascending(s.outbox)
    && (forall record :: record in s.outbox ==> record.id < s.next && record.table in s.tables)
    && (forall id :: id in s.staged ==> id < s.next)
    && s.deferred == s.staged
    // staged records are older than unstaged ones
    && (forall r1, r2 :: r1 in s.outbox && r2 in s.outbox && r1.id < r2.id && r2.id in s.staged ==> r1.id in s.staged)
    && s.dirty <= s.tables.Keys && Apart(s.tables.Keys)
    && (forall table :: table in s.tables && table !in s.dirty ==> Installed(s, table).Whole?)
  }

  /** The value the newest of `records` that names the key gives it. */
  function Newest(records: seq<Record>, table: string, key: Key, rows: Rows): Option<seq<Columns>> {
    match LastIn(records, table, key)
    case None => None
    case Some(op) => Some(OperationValue(op, rows))
  }

  // Everything the protocol knows about one key of one table.
  datatype View = View(
    sql: seq<Columns>,
    unstaged: Option<seq<Columns>>,
    deferred: Option<seq<Columns>>,
    outbox: Option<seq<Columns>>,
    committed: seq<Columns>,
    live: seq<Columns>,               // what a commit of the writer would publish
    dirty: bool)

  function ViewOf(s: Db, table: string, key: Key): View {
    var rows := RowsOf(s, table);
    View(Sql(rows, key),
         Newest(Unstaged(s), table, key, rows),
         Newest(Deferred(s), table, key, rows),
         Newest(s.outbox, table, key, rows),
         Found(Documents(s, table), key),
         Found(ApplyWriter(Documents(s, table), Buffered(s, table)), key),
         table in s.dirty)
  }

  /** `Live` is what every run keeps as long as the process lives: unstaged records are fresh, a
      commit of the writer would publish SQLite's rows, and keys without a record are published.
      `Crashable` adds that replaying the outbox ends on SQLite's rows; `Strict` that the deferred
      records alone do, so that deleting any published record stays harmless. */
  datatype Level = Live | Crashable | Strict

  ghost predicate KeyOk(v: View, level: Level) {
    && (match v.unstaged
        case Some(value) => value == v.sql
        case None => v.dirty || v.live == v.sql)
    && (v.outbox == None ==> v.dirty || v.committed == v.sql)
    && (level != Live && v.outbox.Some? ==> v.outbox.value == v.sql)
    && (level == Strict && v.deferred.Some? ==> v.deferred.value == v.sql)
  }

  ghost predicate Holds(s: Db, level: Level) {
    && Tidy(s)
    && forall table, key :: table in s.tables ==> KeyOk(ViewOf(s, table, key), level)
  }

  /** The published index of a table changes only by becoming equal to its current rows. */
  ghost predicate Publishes(s: Db, after: Db) {
    forall table :: table in after.tables && table !in after.dirty ==>
      || Agrees(Documents(after, table), after.tables[table])
      || (table in s.tables && table !in s.dirty && Documents(after, table) == Documents(s, table))
  }

  /** The states before, between and after the steps. */
  function Trail(s: Db, steps: seq<Step>): (trail: seq<Db>)
    ensures |trail| == |steps| + 1
  {
    if steps == [] then [s] else Trail(s, steps[..|steps| - 1]) + [Exec(s, steps)]
  }

  ghost predicate Linked(trail: seq<Db>, level: Level) {
    && (forall i :: 0 <= i < |trail| ==> Holds(trail[i], level))
    && (forall i :: 0 < i < |trail| ==> Publishes(trail[i - 1], trail[i]))
  }

  /** `level` holds in every state along the script. */
  ghost predicate Good(s: Db, steps: seq<Step>, level: Level) {
    Linked(Trail(s, steps), level)
  }

  // ----- composing scripts -----

  lemma {:induction false} ExecAppend(s: Db, a: seq<Step>, b: seq<Step>)
    ensures Exec(s, a + b) == Exec(Exec(s, a), b)
  {
    if b == [] {
      assert a + b == a;
    } else {
      ExecAppend(s, a, b[..|b| - 1]);
      assert (a + b)[..|a + b| - 1] == a + b[..|b| - 1];
    }
  }

  lemma TrailSnoc(s: Db, a: seq<Step>, b: seq<Step>)
    requires b != []
    ensures Trail(s, a + b) == Trail(s, a + b[..|b| - 1]) + [Exec(s, a + b)]
  {
    assert (a + b)[..|a + b| - 1] == a + b[..|b| - 1];
  }

  lemma {:induction false} TrailAppend(s: Db, a: seq<Step>, b: seq<Step>)
    ensures Trail(s, a + b) == Trail(s, a) + Trail(Exec(s, a), b)[1..]
  {
    if b == [] {
      assert a + b == a;
    } else {
      var front, middle := b[..|b| - 1], Exec(s, a);
      TrailAppend(s, a, front);
      TrailSnoc(s, a, b);
      ExecAppend(s, a, b);
      var t := Trail(middle, front);
      assert (t + [Exec(middle, b)])[1..] == t[1..] + [Exec(middle, b)];
    }
  }

  lemma TrailEnds(s: Db, steps: seq<Step>)
    ensures Trail(s, steps)[0] == s && Trail(s, steps)[|steps|] == Exec(s, steps)
  {
    if steps != [] {
      TrailEnds(s, steps[..|steps| - 1]);
    }
  }

  lemma LinkedAppend(a: seq<Db>, b: seq<Db>, level: Level)
    requires a != [] && b != [] && a[|a| - 1] == b[0]
    requires Linked(a, level) && Linked(b, level)
    ensures Linked(a + b[1..], level)
  {
    var trail := a + b[1..];
    forall i | 0 < i < |trail| ensures Publishes(trail[i - 1], trail[i]) {
      if i >= |a| {
        assert trail[i] == b[i - |a| + 1] && trail[i - 1] == b[i - |a|];
      }
    }
  }

  lemma GoodAppend(s: Db, a: seq<Step>, b: seq<Step>, level: Level)
    requires Good(s, a, level) && Good(Exec(s, a), b, level)
    ensures Good(s, a + b, level)
  {
    TrailAppend(s, a, b);
    TrailEnds(s, a);
    TrailEnds(Exec(s, a), b);
    LinkedAppend(Trail(s, a), Trail(Exec(s, a), b), level);
  }

  lemma GoodNone(s: Db, level: Level)
    requires Holds(s, level)
    ensures Good(s, [], level) && Exec(s, []) == s
  {
    assert Trail(s, []) == [s];
  }

  lemma TrailOne(s: Db, step: Step)
    ensures Trail(s, [step]) == [s, Do(s, step)] && Exec(s, [step]) == Do(s, step)
  {
    assert [step][..0] == [];
    assert Exec(s, []) == s && Trail(s, []) == [s];
  }

  lemma GoodOne(s: Db, step: Step, level: Level)
    requires Holds(s, level) && Holds(Do(s, step), level) && Publishes(s, Do(s, step))
    ensures Good(s, [step], level) && Exec(s, [step]) == Do(s, step)
  {
    TrailOne(s, step);
  }

  lemma GoodEnds(s: Db, steps: seq<Step>, level: Level)
    requires Good(s, steps, level)
    ensures Holds(s, level) && Holds(Exec(s, steps), level)
  {
    TrailEnds(s, steps);
  }

  lemma {:induction false} TrailPrefix(s: Db, steps: seq<Step>, cut: nat)
    requires cut <= |steps|
    ensures Trail(s, steps[..cut]) == Trail(s, steps)[..cut + 1]
  {
    if cut == |steps| {
      assert steps[..cut] == steps;
    } else {
      var front := steps[..|steps| - 1];
      TrailPrefix(s, front, cut);
      assert front[..cut] == steps[..cut];
    }
  }

  /** Whatever holds along a script holds where the script is cut short. */
  lemma GoodPrefix(s: Db, steps: seq<Step>, cut: nat, level: Level)
    requires Good(s, steps, level) && cut <= |steps|
    ensures Good(s, steps[..cut], level)
  {
    TrailPrefix(s, steps, cut);
  }

  lemma HoldsWeaker(s: Db, level: Level, weaker: Level)
    requires Holds(s, level)
    requires weaker == level || weaker == Live || (weaker == Crashable && level == Strict)
    ensures Holds(s, weaker)
  {
    forall table, key | table in s.tables ensures KeyOk(ViewOf(s, table, key), weaker) {
      assert KeyOk(ViewOf(s, table, key), level);
    }
  }

  lemma GoodWeaker(s: Db, steps: seq<Step>, level: Level, weaker: Level)
    requires Good(s, steps, level)
    requires weaker == level || weaker == Live || (weaker == Crashable && level == Strict)
    ensures Good(s, steps, weaker)
  {
    var trail := Trail(s, steps);
    forall i | 0 <= i < |trail| ensures Holds(trail[i], weaker) { HoldsWeaker(trail[i], level, weaker); }
  }

  // ----- selections of the outbox -----

  lemma {:induction false} DropAscending(records: seq<Record>, ids: set<nat>)
    requires Ascending(records)
    ensures Ascending(Drop(records, ids))
  {
    if records != [] {
      var front, last := records[..|records| - 1], records[|records| - 1];
      DropAscending(front, ids);
      var kept := Drop(front, ids);
      forall i | 0 <= i < |kept| ensures kept[i].id < last.id {
        DropMembers(front, ids, kept[i]);
        var at :| 0 <= at < |front| && front[at] == kept[i];
        assert records[at].id < records[|records| - 1].id;
      }
    }
  }

  lemma {:induction false} DropDrop(records: seq<Record>, a: set<nat>, b: set<nat>)
    ensures Drop(Drop(records, a), b) == Drop(records, a + b)
  {
    if records != [] {
      var front, last := records[..|records| - 1], records[|records| - 1];
      DropDrop(front, a, b);
      DropOne(Drop(front, a), last, b);
    }
  }

  lemma {:induction false} KeepDrop(records: seq<Record>, a: set<nat>, b: set<nat>)
    ensures Keep(Drop(records, a), b) == Keep(records, b - a)
  {
    if records != [] {
      var front, last := records[..|records| - 1], records[|records| - 1];
      KeepDrop(front, a, b);
      DropOne(Drop(front, a), last, b);
    }
  }

  lemma {:induction false} DropKeep(records: seq<Record>, a: set<nat>, b: set<nat>)
    ensures Drop(Keep(records, b), a) == Keep(records, b - a)
  {
    if records != [] {
      var front, last := records[..|records| - 1], records[|records| - 1];
      DropKeep(front, a, b);
      DropOne(Keep(front, b), last, a);
    }
  }

  lemma DropCommutes(records: seq<Record>, a: set<nat>, b: set<nat>)
    ensures Drop(Drop(records, a), b) == Drop(Drop(records, b), a)
    ensures Keep(Drop(records, a), b) == Drop(Keep(records, b), a)
  {
    DropDrop(records, a, b);
    DropDrop(records, b, a);
    assert a + b == b + a;
    KeepDrop(records, a, b);
    DropKeep(records, a, b);
  }

  lemma DropOne(records: seq<Record>, last: Record, ids: set<nat>)
    ensures Drop(records + [last], ids) == if last.id in ids then Drop(records, ids) else Drop(records, ids) + [last]
    ensures Keep(records + [last], ids) == if last.id in ids then Keep(records, ids) + [last] else Keep(records, ids)
  {
    assert (records + [last])[..|records|] == records;
  }

  lemma {:induction false} SameStaging(records: seq<Record>, a: set<nat>, b: set<nat>)
    requires forall record :: record in records ==> (record.id in a <==> record.id in b)
    ensures Keep(records, a) == Keep(records, b) && Drop(records, a) == Drop(records, b)
  {
    if records != [] {
      var front, last := records[..|records| - 1], records[|records| - 1];
      SameStaging(front, a, b);
      assert records == front + [last];
      assert last in records;
    }
  }

  lemma OutboxSplits(s: Db)
    requires Tidy(s)
    ensures s.outbox == Deferred(s) + Unstaged(s)
  {
    forall i, j | 0 <= i < j < |s.outbox| && s.outbox[j].id in s.staged ensures s.outbox[i].id in s.staged {
      assert s.outbox[i] in s.outbox && s.outbox[j] in s.outbox;
    }
    KeepThenDrop(s.outbox, s.staged);
  }

  lemma NewestAppend(a: seq<Record>, b: seq<Record>, table: string, key: Key, rows: Rows)
    ensures Newest(a + b, table, key, rows) ==
            if Newest(b, table, key, rows).Some? then Newest(b, table, key, rows) else Newest(a, table, key, rows)
  {
    LastInAppend(a, b, table, key);
  }

  lemma NewestOfNone(records: seq<Record>, table: string, key: Key, rows: Rows)
    requires forall record :: record in records ==> record.table != table
    ensures Newest(records, table, key, rows) == None
  {
    NoneLeft(records, table, key);
  }

  // ----- the steps -----

  lemma SameTidy(s: Db, after: Db)
    requires Tidy(s)
    requires after.outbox == s.outbox && after.next == s.next && after.tables.Keys == s.tables.Keys
    requires after.staged == s.staged && after.deferred == s.deferred
    requires after.dirty <= s.dirty
    requires forall table :: table in s.tables && table !in after.dirty ==> Installed(after, table).Whole?
    ensures Tidy(after)
  {
  }

  /** A step that leaves the documents alone publishes nothing. */
  lemma SameDocuments(s: Db, after: Db)
    requires after.tables == s.tables && after.dirty == s.dirty
    requires forall table :: table in s.tables && table !in s.dirty ==> Documents(after, table) == Documents(s, table)
    ensures Publishes(s, after)
  {
  }

  lemma SameViews(s: Db, after: Db, level: Level)
    requires Holds(s, level) && Tidy(after)
    requires forall table, key :: table in after.tables ==>
               table in s.tables && ViewOf(after, table, key) == ViewOf(s, table, key)
    ensures Holds(after, level)
  {
    forall table, key | table in after.tables ensures KeyOk(ViewOf(after, table, key), level) {
      assert KeyOk(ViewOf(s, table, key), level);
    }
  }

  lemma WriteElsewhere(s: Db, written: string, op: WriterOp, table: string, key: Key)
    requires table != written
    ensures ViewOf(Do(s, Write(written, op)), table, key) == ViewOf(s, table, key)
  {
    var after := Do(s, Write(written, op));
    assert after == s.(writers := after.writers) && Buffered(after, table) == Buffered(s, table);
    assert RowsOf(after, table) == RowsOf(s, table) && Documents(after, table) == Documents(s, table);
    assert Unstaged(after) == Unstaged(s) && Deferred(after) == Deferred(s);
  }

  // The parts of a key's view that a queued operation cannot change.
  function Settled(v: View): View {
    v.(live := [])
  }

  lemma WriteSettled(s: Db, table: string, op: WriterOp, key: Key)
    ensures Settled(ViewOf(Do(s, Write(table, op)), table, key)) == Settled(ViewOf(s, table, key))
  {
    var after := Do(s, Write(table, op));
    assert after == s.(writers := after.writers);
    assert RowsOf(after, table) == RowsOf(s, table) && Documents(after, table) == Documents(s, table);
    assert Unstaged(after) == Unstaged(s) && Deferred(after) == Deferred(s);
  }

  lemma WriteLive(s: Db, table: string, op: WriterOp, key: Key)
    requires key != op.Target()
    ensures ViewOf(Do(s, Write(table, op)), table, key).live == ViewOf(s, table, key).live
  {
    QueuedLocal(Documents(s, table), Buffered(s, table), op, key);
  }

  lemma WriteStep(s: Db, table: string, op: WriterOp, level: Level)
    requires Holds(s, level) && table in s.tables && Touches(Unstaged(s), table, op.Target())
    ensures Holds(Do(s, Write(table, op)), level) && Publishes(s, Do(s, Write(table, op)))
  {
    var after := Do(s, Write(table, op));
    SameTidy(s, after);
    SameDocuments(s, after);
    forall other, key | other in after.tables ensures KeyOk(ViewOf(after, other, key), level) {
      assert KeyOk(ViewOf(s, other, key), level);
      if other == table { WriteKey(s, table, op, level, key); } else { WriteElsewhere(s, table, op, other, key); }
    }
  }

  lemma WriteKey(s: Db, table: string, op: WriterOp, level: Level, key: Key)
    requires KeyOk(ViewOf(s, table, key), level) && Touches(Unstaged(s), table, op.Target())
    ensures KeyOk(ViewOf(Do(s, Write(table, op)), table, key), level)
  {
    WriteSettled(s, table, op, key);
    if key != op.Target() { WriteLive(s, table, op, key); }
  }

  ghost predicate FullyStaged(s: Db, table: string) {
    table !in s.dirty ==> Agrees(ApplyWriter(Documents(s, table), Buffered(s, table)), RowsOf(s, table))
  }

  ghost predicate Published(s: Db, table: string) {
    table !in s.dirty ==> Agrees(Documents(s, table), RowsOf(s, table)) && Buffered(s, table) == []
  }

  lemma CommitView(s: Db, committed: string, table: string, key: Key)
    ensures var v, before := ViewOf(Do(s, Commit(committed)), table, key), ViewOf(s, table, key);
            && v.(live := [], committed := []) == before.(live := [], committed := [])
            && (table != committed ==> v == before)
            && (Installed(s, committed).Whole? && table == committed ==> v.live == v.committed == before.live)
  {
    var after := Do(s, Commit(committed));
    if table == committed && Installed(s, committed).Whole? {
      assert ApplyWriter(Documents(after, table), []) == Documents(after, table);
    }
  }

  lemma CommitStep(s: Db, table: string, level: Level)
    requires Holds(s, level) && table in s.tables && FullyStaged(s, table)
    ensures var after := Do(s, Commit(table));
            && Holds(after, level) && Publishes(s, after) && Published(after, table)
            && after == s.(disk := after.disk, writers := after.writers)
  {
    var after := Do(s, Commit(table));
    SameTidy(s, after);
    forall other, key | other in after.tables ensures KeyOk(ViewOf(after, other, key), level) {
      assert KeyOk(ViewOf(s, other, key), level);
      CommitView(s, table, other, key);
    }
  }

  // Which records a purge may delete: all of the table's, or only unstaged ones.
  ghost predicate Purgeable(s: Db, table: string, ids: set<nat>, level: Level) {
    && (forall record :: record in s.outbox && record.id in ids ==> record.table == table)
    && (forall record :: record in s.outbox && record.table == table && record.id !in s.staged ==> record.id in ids)
    && (level != Live ==>
          || (forall record :: record in s.outbox && record.table == table ==> record.id in ids)
          || (level == Strict && forall record :: record in s.outbox && record.id in ids ==> record.id !in s.staged))
  }

  lemma PurgeTidy(s: Db, ids: set<nat>)
    requires Tidy(s)
    ensures Tidy(Do(s, Purge(ids)))
  {
    DropAscending(s.outbox, ids);
    forall record ensures record in Drop(s.outbox, ids) ==> record in s.outbox { DropMembers(s.outbox, ids, record); }
  }

  lemma PurgedNewest(records: seq<Record>, ids: set<nat>, other: string, key: Key, rows: Rows)
    requires forall record :: record in records && record.table == other ==> record.id !in ids
    ensures Newest(Drop(records, ids), other, key, rows) == Newest(records, other, key, rows)
  {
    DropElsewhere(records, ids, other);
    SameForTable(Drop(records, ids), records, other, key);
  }

  lemma PurgedUnstaged(s: Db, table: string, ids: set<nat>, other: string, key: Key)
    requires forall record :: record in s.outbox && record.id in ids ==> record.table == table
    requires other != table
    ensures var rows := RowsOf(s, other);
            Newest(Unstaged(Do(s, Purge(ids))), other, key, rows) == Newest(Unstaged(s), other, key, rows)
  {
    DropCommutes(s.outbox, ids, s.staged);
    forall record | record in Unstaged(s) && record.table == other ensures record.id !in ids {
      DropMembers(s.outbox, s.staged, record);
    }
    PurgedNewest(Unstaged(s), ids, other, key, RowsOf(s, other));
  }

  lemma PurgedDeferred(s: Db, table: string, ids: set<nat>, other: string, key: Key)
    requires forall record :: record in s.outbox && record.id in ids ==> record.table == table
    requires other != table
    ensures var rows := RowsOf(s, other);
            Newest(Deferred(Do(s, Purge(ids))), other, key, rows) == Newest(Deferred(s), other, key, rows)
  {
    DropCommutes(s.outbox, ids, s.staged);
    forall record | record in Deferred(s) && record.table == other ensures record.id !in ids {
      KeepMembers(s.outbox, s.staged, record);
    }
    PurgedNewest(Deferred(s), ids, other, key, RowsOf(s, other));
  }

  lemma PurgeViewElsewhere(s: Db, table: string, ids: set<nat>, other: string, key: Key)
    requires forall record :: record in s.outbox && record.id in ids ==> record.table == table
    requires other != table
    ensures ViewOf(Do(s, Purge(ids)), other, key) == ViewOf(s, other, key)
  {
    PurgedNewest(s.outbox, ids, other, key, RowsOf(s, other));
    PurgedUnstaged(s, table, ids, other, key);
    PurgedDeferred(s, table, ids, other, key);
  }

  lemma PurgeLeavesNoUnstaged(s: Db, table: string, ids: set<nat>, key: Key, level: Level)
    requires Purgeable(s, table, ids, level) && Tidy(s)
    ensures var v := ViewOf(Do(s, Purge(ids)), table, key); v.unstaged == None && v.outbox == v.deferred
  {
    var after := Do(s, Purge(ids));
    forall record | record in Unstaged(after) ensures record.table != table {
      DropMembers(after.outbox, s.staged, record);
      DropMembers(s.outbox, ids, record);
    }
    NewestOfNone(Unstaged(after), table, key, RowsOf(s, table));
    PurgeTidy(s, ids);
    OutboxSplits(after);
    NewestAppend(Deferred(after), Unstaged(after), table, key, RowsOf(s, table));
  }

  lemma PurgeViewHere(s: Db, table: string, ids: set<nat>, key: Key, level: Level)
    requires Purgeable(s, table, ids, level) && Tidy(s)
    ensures var v, before := ViewOf(Do(s, Purge(ids)), table, key), ViewOf(s, table, key);
            && v.(unstaged := None, deferred := None, outbox := None) ==
                 before.(unstaged := None, deferred := None, outbox := None)
            && v.unstaged == None && v.outbox == v.deferred
            && (level != Live ==> v.outbox == None || (level == Strict && v.outbox == before.deferred))
  {
    var after := Do(s, Purge(ids));
    PurgeLeavesNoUnstaged(s, table, ids, key, level);
    if level != Live {
      if forall record :: record in s.outbox && record.table == table ==> record.id in ids {
        forall record | record in after.outbox ensures record.table != table {
          DropMembers(s.outbox, ids, record);
        }
        NewestOfNone(after.outbox, table, key, RowsOf(s, table));
      } else {
        DropCommutes(s.outbox, ids, s.staged);
        forall record | record in Deferred(s) ensures record.id !in ids {
          KeepMembers(s.outbox, s.staged, record);
        }
        DropAll(Deferred(s), ids);
      }
    }
  }

  lemma PurgeStep(s: Db, table: string, ids: set<nat>, level: Level)
    requires Holds(s, level) && table in s.tables && Published(s, table) && Purgeable(s, table, ids, level)
    ensures Holds(Do(s, Purge(ids)), level) && Publishes(s, Do(s, Purge(ids)))
  {
    var after := Do(s, Purge(ids));
    PurgeTidy(s, ids);
    forall other, key | other in after.tables ensures KeyOk(ViewOf(after, other, key), level) {
      assert KeyOk(ViewOf(s, other, key), level);
      if other == table {
        PurgeViewHere(s, table, ids, key, level);
        assert ApplyWriter(Documents(s, table), []) == Documents(s, table);
      } else {
        PurgeViewElsewhere(s, table, ids, other, key);
      }
    }
  }

  lemma ForgetOutbox(s: Db, id: nat)
    requires forall record :: record in s.outbox ==> record.id != id
    ensures Unstaged(Do(s, Forget(id))) == Unstaged(s) && Deferred(Do(s, Forget(id))) == Deferred(s)
  {
    SameStaging(s.outbox, s.staged, s.staged - {id});
  }

  lemma ForgetTidy(s: Db, id: nat)
    requires Tidy(s) && forall record :: record in s.outbox ==> record.id != id
    ensures Tidy(Do(s, Forget(id)))
  {
  }

  /** Changing the bookkeeping of ids that are no longer in the outbox changes nothing. */
  lemma ForgetStep(s: Db, id: nat, level: Level)
    requires Holds(s, level) && forall record :: record in s.outbox ==> record.id != id
    ensures Holds(Do(s, Forget(id)), level) && Publishes(s, Do(s, Forget(id)))
  {
    var after := Do(s, Forget(id));
    ForgetTidy(s, id);
    ForgetOutbox(s, id);
    SameDocuments(s, after);
    forall table, key ensures ViewOf(after, table, key) == ViewOf(s, table, key) { }
    SameViews(s, after, level);
  }

  // The only record that is not staged is the one a deferred write just added.
  ghost predicate OnlyUnstaged(s: Db, record: Record) {
    record in s.outbox && forall other :: other in s.outbox && other.id !in s.staged ==> other == record
  }

  lemma DeferOutbox(s: Db, record: Record)
    requires OnlyUnstaged(s, record)
    ensures Unstaged(Do(s, Defer(record.id))) == [] && Deferred(Do(s, Defer(record.id))) == s.outbox
  {
    KeepAll(s.outbox, s.staged + {record.id});
  }

  lemma OtherTablesStaged(s: Db, record: Record, table: string, key: Key)
    requires OnlyUnstaged(s, record) && table != record.table
    ensures Newest(Unstaged(s), table, key, RowsOf(s, table)) == None
  {
    forall r | r in Unstaged(s) ensures r.table != table { DropMembers(s.outbox, s.staged, r); }
    NewestOfNone(Unstaged(s), table, key, RowsOf(s, table));
  }

  lemma DeferView(s: Db, record: Record, table: string, key: Key)
    requires OnlyUnstaged(s, record)
    ensures ViewOf(Do(s, Defer(record.id)), table, key) ==
            ViewOf(s, table, key).(unstaged := None, deferred := ViewOf(s, table, key).outbox)
  {
    var after := Do(s, Defer(record.id));
    DeferOutbox(s, record);
    assert Newest([], table, key, RowsOf(s, table)) == None;
    assert Documents(after, table) == Documents(s, table) && Buffered(after, table) == Buffered(s, table);
  }

  lemma DeferTidy(s: Db, record: Record)
    requires Tidy(s) && OnlyUnstaged(s, record)
    ensures Tidy(Do(s, Defer(record.id)))
  {
  }

  /** Once its record is queued, a deferred write may leave the unstaged records, and then nothing
      needs to be assumed about earlier deferred writes. */
  lemma DeferStep(s: Db, record: Record, level: Level)
    requires Holds(s, level) && level != Strict
    requires OnlyUnstaged(s, record) && FullyStaged(s, record.table)
    ensures var after := Do(s, Defer(record.id));
            && Holds(after, level) && Publishes(s, after) && Unstaged(after) == []
            && (level == Crashable ==> Holds(after, Strict))
  {
    var after := Do(s, Defer(record.id));
    var reached := if level == Crashable then Strict else level;
    DeferTidy(s, record);
    DeferOutbox(s, record);
    forall table, key | table in after.tables ensures KeyOk(ViewOf(after, table, key), reached) {
      DeferKey(s, record, table, key, level);
    }
    assert Holds(after, reached);
  }

  lemma DeferKey(s: Db, record: Record, table: string, key: Key, level: Level)
    requires Holds(s, level) && level != Strict && table in s.tables
    requires OnlyUnstaged(s, record) && FullyStaged(s, record.table)
    ensures KeyOk(ViewOf(Do(s, Defer(record.id)), table, key), if level == Crashable then Strict else level)
  {
    assert KeyOk(ViewOf(s, table, key), level);
    DeferView(s, record, table, key);
    if table != record.table {
      OtherTablesStaged(s, record, table, key);
    } else if table !in s.dirty {
      assert Found(ApplyWriter(Documents(s, table), Buffered(s, table)), key) == Sql(RowsOf(s, table), key);
    }
  }

  /** No deferred record is overtaken: each key the transaction records is free, awaits only a
      refresh, or keeps the row it had. */
  ghost predicate Unovertaken(s: Db, batch: seq<Planned>) {
    RunBatch(s.tables, s.next, batch).Some? ==>
      var effect := RunBatch(s.tables, s.next, batch).value;
      forall table, key :: table in s.tables && table in effect.tables && Touches(effect.records, table, key) ==>
        KeyUnovertaken(s, table, key, effect.tables[table])
  }

  ghost predicate KeyUnovertaken(s: Db, table: string, key: Key, rows: Rows) {
    match LastIn(Deferred(s), table, key)
    case None => true
    case Some(op) => op.Refresh? || Sql(rows, key) == Sql(RowsOf(s, table), key)
  }

  lemma TransactOutbox(s: Db, batch: seq<Planned>)
    requires Tidy(s) && RunBatch(s.tables, s.next, batch).Some? && Unstaged(s) == []
    ensures var after := Do(s, Transact(batch));
            Unstaged(after) == AddedRecords(s, batch) && Deferred(after) == Deferred(s) == s.outbox
  {
    BatchIsRecorded(s.tables, s.next, batch);
    var added := AddedRecords(s, batch);
    forall record | record in s.outbox ensures record.id in s.staged {
      DropMembers(s.outbox, s.staged, record);
    }
    KeepAll(s.outbox, s.staged);
    forall record | record in added ensures record.id !in s.staged {
      var i :| 0 <= i < |added| && added[i] == record;
    }
    DropAll(added, s.staged);
    KeepAppend(s.outbox, added, s.staged);
    DropAppend(s.outbox, added, s.staged);
  }

  lemma TransactMembers(s: Db, batch: seq<Planned>, record: Record)
    requires RunBatch(s.tables, s.next, batch).Some?
    requires record in Do(s, Transact(batch)).outbox && record !in s.outbox
    ensures s.next <= record.id < Do(s, Transact(batch)).next && record.table in s.tables
  {
    BatchIsRecorded(s.tables, s.next, batch);
    var added := AddedRecords(s, batch);
    var i :| 0 <= i < |added| && added[i] == record;
  }

  lemma AscendingAppend(a: seq<Record>, b: seq<Record>, next: nat)
    requires Ascending(a) && (forall record :: record in a ==> record.id < next)
    requires forall i :: 0 <= i < |b| ==> b[i].id == next + i
    ensures Ascending(a + b)
  {
    forall i, j | 0 <= i < j < |a + b| ensures (a + b)[i].id < (a + b)[j].id {
      if i < |a| { assert a[i] in a; }
    }
  }

  lemma TransactTidy(s: Db, batch: seq<Planned>)
    requires Tidy(s) && RunBatch(s.tables, s.next, batch).Some? && Unstaged(s) == []
    ensures Tidy(Do(s, Transact(batch)))
  {
    BatchIsRecorded(s.tables, s.next, batch);
    var added, after := AddedRecords(s, batch), Do(s, Transact(batch));
    AscendingAppend(s.outbox, added, s.next);
    forall record | record in s.outbox ensures record.id in s.staged {
      DropMembers(s.outbox, s.staged, record);
    }
    forall record | record in after.outbox
      ensures record.id < after.next && record.table in after.tables
      ensures record in s.outbox || record.id !in after.staged
    {
      if record !in s.outbox { TransactMembers(s, batch, record); }
    }
    assert forall table :: Installed(after, table) == Installed(s, table);
  }

  lemma TransactNewest(s: Db, batch: seq<Planned>, table: string, key: Key)
    requires Tidy(s) && RunBatch(s.tables, s.next, batch).Some? && Unstaged(s) == [] && table in s.tables
    ensures var after := Do(s, Transact(batch));
            && Newest(Unstaged(s), table, key, s.tables[table]) == None
            && table in after.tables
            && match Newest(Unstaged(after), table, key, after.tables[table])
               case Some(value) =>
                 value == Sql(after.tables[table], key) &&
                   Newest(after.outbox, table, key, after.tables[table]) == Some(value)
               case None =>
                 && Sql(after.tables[table], key) == Sql(s.tables[table], key)
                 && Newest(after.outbox, table, key, after.tables[table]) ==
                      Newest(s.outbox, table, key, s.tables[table])
  {
    var after := Do(s, Transact(batch));
    var added := AddedRecords(s, batch);
    TransactOutbox(s, batch);
    BatchIsDescribed(s.tables, s.next, batch, table, key);
    assert Describes(added, table, s.tables[table], after.tables[table], key);
    NewestAppend(s.outbox, added, table, key, after.tables[table]);
    LastInTargets(s.outbox, table, key);
  }

  lemma TransactView(s: Db, batch: seq<Planned>, table: string, key: Key)
    requires Tidy(s) && RunBatch(s.tables, s.next, batch).Some? && Unstaged(s) == [] && table in s.tables
    ensures var after, before := ViewOf(Do(s, Transact(batch)), table, key), ViewOf(s, table, key);
            && after.dirty == before.dirty && after.live == before.live && after.committed == before.committed
            && before.unstaged == None
            && (after.unstaged == None ==> after.sql == before.sql && after.outbox == before.outbox)
            && (after.unstaged.Some? ==> after.unstaged.value == after.sql && after.outbox == after.unstaged)
  {
    TransactNewest(s, batch, table, key);
    var after := Do(s, Transact(batch));
    assert Documents(after, table) == Documents(s, table) && Buffered(after, table) == Buffered(s, table);
  }

  lemma TransactDeferred(s: Db, batch: seq<Planned>, table: string, key: Key)
    requires Tidy(s) && RunBatch(s.tables, s.next, batch).Some? && Unstaged(s) == [] && table in s.tables
    ensures var after, before := ViewOf(Do(s, Transact(batch)), table, key), ViewOf(s, table, key);
            match LastIn(Deferred(s), table, key)
            case None => after.deferred == before.deferred == None
            case Some(Refresh(_)) => after.deferred == Some(after.sql)
            case Some(_) => after.deferred == before.deferred
  {
    TransactOutbox(s, batch);
    BatchIsRecorded(s.tables, s.next, batch);
    LastInTargets(s.outbox, table, key);
  }

  lemma TransactKey(s: Db, batch: seq<Planned>, table: string, key: Key, level: Level)
    requires Holds(s, level) && RunBatch(s.tables, s.next, batch).Some? && Unstaged(s) == [] && table in s.tables
    requires level == Strict ==> Unovertaken(s, batch)
    ensures KeyOk(ViewOf(Do(s, Transact(batch)), table, key), level)
  {
    assert KeyOk(ViewOf(s, table, key), level);
    TransactView(s, batch, table, key);
    if level == Strict { TransactStrict(s, batch, table, key); }
  }

  // What the deferred records say about a key after a transaction that overtakes none of them.
  lemma TransactStrict(s: Db, batch: seq<Planned>, table: string, key: Key)
    requires Tidy(s) && RunBatch(s.tables, s.next, batch).Some? && Unstaged(s) == [] && table in s.tables
    requires Unovertaken(s, batch) && KeyOk(ViewOf(s, table, key), Strict)
    ensures KeyOk(ViewOf(Do(s, Transact(batch)), table, key), Strict)
  {
    TransactView(s, batch, table, key);
    TransactedDeferred(s, batch, table, key);
  }

  lemma TransactedDeferred(s: Db, batch: seq<Planned>, table: string, key: Key)
    requires Tidy(s) && RunBatch(s.tables, s.next, batch).Some? && Unstaged(s) == [] && table in s.tables
    requires Unovertaken(s, batch) && KeyOk(ViewOf(s, table, key), Strict)
    ensures var after := ViewOf(Do(s, Transact(batch)), table, key);
            after.deferred.Some? ==> after.deferred.value == after.sql
  {
    TransactView(s, batch, table, key);
    TransactDeferred(s, batch, table, key);
    TransactOutbox(s, batch);
    if Touches(AddedRecords(s, batch), table, key) {
      BatchIsRecorded(s.tables, s.next, batch);
      assert KeyUnovertaken(s, table, key, Do(s, Transact(batch)).tables[table]);
    }
  }

  lemma TransactStep(s: Db, batch: seq<Planned>, level: Level)
    requires Holds(s, level) && RunBatch(s.tables, s.next, batch).Some? && Unstaged(s) == []
    requires level == Strict ==> Unovertaken(s, batch)
    ensures var after := Do(s, Transact(batch)); Holds(after, level) && Publishes(s, after)
  {
    var after := Do(s, Transact(batch));
    TransactTidy(s, batch);
    TransactPublishes(s, batch);
    BatchIsRecorded(s.tables, s.next, batch);
    forall table, key | table in after.tables ensures KeyOk(ViewOf(after, table, key), level) {
      TransactKey(s, batch, table, key, level);
    }
  }

  lemma TransactPublishes(s: Db, batch: seq<Planned>)
    requires RunBatch(s.tables, s.next, batch).Some?
    ensures Publishes(s, Do(s, Transact(batch)))
  {
    BatchIsRecorded(s.tables, s.next, batch);
  }

  // ----- catalog and directory steps -----

  // Nothing but the volatile writer and directories changes, and no other table's installed one.
  ghost predicate OnlyTable(s: Db, after: Db, table: string) {
    && after == s.(disk := after.disk, writers := after.writers)
    && (forall other :: other in s.tables && other != table ==>
          Installed(after, other) == Installed(s, other) && Buffered(after, other) == Buffered(s, other))
  }

  /** The files and the writer of a dirty or unlisted table may be anything. */
  lemma DirtyTableStep(s: Db, after: Db, table: string, level: Level)
    requires Holds(s, level) && OnlyTable(s, after, table) && (table in s.dirty || table !in s.tables)
    ensures Holds(after, level) && Publishes(s, after)
  {
    forall other, key | other in after.tables ensures KeyOk(ViewOf(after, other, key), level) {
      assert KeyOk(ViewOf(s, other, key), level);
    }
  }

  /** Setting `dirty` in the transaction that replaces a table's rows. */
  lemma ReplaceStep(s: Db, table: string, rows: Rows, level: Level)
    requires Holds(s, level) && s.outbox == [] && Apart(s.tables.Keys + {table})
    ensures var after := Do(s, Replace(table, rows)); Holds(after, level) && Publishes(s, after)
  {
    var after := Do(s, Replace(table, rows));
    forall other, key | other in after.tables ensures KeyOk(ViewOf(after, other, key), level) {
      if other != table {
        assert KeyOk(ViewOf(s, other, key), level);
      } else {
        assert Newest([], other, key, rows) == None;
      }
    }
  }

  lemma DropTableStep(s: Db, table: string, level: Level)
    requires Holds(s, level) && s.outbox == []
    ensures var after := Do(s, DropTable(table)); Holds(after, level) && Publishes(s, after) && after.outbox == []
  {
    var after := Do(s, DropTable(table));
    forall other, key | other in after.tables ensures KeyOk(ViewOf(after, other, key), level) {
      assert KeyOk(ViewOf(s, other, key), level);
    }
  }

  lemma MarkCleanView(s: Db, table: string, key: Key)
    requires Installed(s, table) == Whole(Snapshot(RowsOf(s, table))) && Buffered(s, table) == []
    ensures var v, before := ViewOf(Do(s, MarkClean(table)), table, key), ViewOf(s, table, key);
            v == before.(dirty := false) && v.live == v.committed == v.sql
  {
    var after := Do(s, MarkClean(table));
    assert RowsOf(after, table) == RowsOf(s, table) && Documents(after, table) == Documents(s, table);
    assert Unstaged(after) == Unstaged(s) && Deferred(after) == Deferred(s) && Buffered(after, table) == [];
    SnapshotAgrees(RowsOf(s, table));
    assert ApplyWriter(Documents(s, table), []) == Documents(s, table);
    assert Found(Documents(s, table), key) == Sql(RowsOf(s, table), key);
  }

  lemma MarkCleanElsewhere(s: Db, table: string, other: string, key: Key)
    requires other != table
    ensures ViewOf(Do(s, MarkClean(table)), other, key) == ViewOf(s, other, key)
  {
  }

  /** Clearing `dirty` once the rebuilt generation is installed. */
  lemma MarkCleanStep(s: Db, table: string, level: Level)
    requires Holds(s, level) && table in s.dirty
    requires Installed(s, table) == Whole(Snapshot(RowsOf(s, table))) && Buffered(s, table) == []
    ensures var after := Do(s, MarkClean(table)); Holds(after, level) && Publishes(s, after)
  {
    var after := Do(s, MarkClean(table));
    SameTidy(s, after);
    SnapshotAgrees(RowsOf(s, table));
    forall other, key | other in after.tables ensures KeyOk(ViewOf(after, other, key), level) {
      assert KeyOk(ViewOf(s, other, key), level);
      if other == table { MarkCleanView(s, table, key); } else { MarkCleanElsewhere(s, table, other, key); }
    }
  }

  lemma CrashView(s: Db, table: string, key: Key)
    ensures var v, before := ViewOf(Do(s, Crash), table, key), ViewOf(s, table, key);
            v == before.(unstaged := before.outbox, deferred := None, live := before.committed)
  {
    var after := Do(s, Crash);
    DropAll(s.outbox, {});
    assert ApplyWriter(Documents(after, table), []) == Documents(after, table);
    assert Newest([], table, key, RowsOf(s, table)) == None;
  }

  /** A crash forgets what was staged; what is durable is enough to carry on. */
  lemma CrashStep(s: Db)
    requires Holds(s, Crashable)
    ensures var after := Do(s, Crash); Holds(after, Strict) && Publishes(s, after)
  {
    var after := Do(s, Crash);
    forall table, key | table in after.tables ensures KeyOk(ViewOf(after, table, key), Strict) {
      assert KeyOk(ViewOf(s, table, key), Crashable);
      CrashView(s, table, key);
    }
  }

}
