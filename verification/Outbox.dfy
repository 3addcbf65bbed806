/** The durable outbox protocol between SQLite and the search index, as a value-level machine.

    SQLite rows are authoritative.  A write commits rows and an outbox record in one transaction;
    the record is then queued in the table's index writer, published by a writer commit, and only
    afterwards deleted from the outbox.  `Step` lists the smallest actions a crash or an I/O error
    can fall between, and a `...Script` is the sequence of steps one database call performs. */
module Outbox {
  import opened Wrappers
  import opened Ordering

  type Key = int
  type Columns = map<string, int>
  type Rows = map<Key, Columns>

  // A row with its primary key; also the document indexed for that row.
  datatype Row = Row(key: Key, columns: Columns)

  datatype Operation = Upsert(row: Row) | Delete(key: Key) | Refresh(key: Key)
  {
    function Target(): Key {
      if Upsert? then row.key else key
    }
  }

  datatype Record = Record(id: nat, table: string, operations: seq<Operation>)

  // What the index writer is told; nothing is visible before a commit.
  datatype WriterOp = DeleteTerm(key: Key) | AddDocument(document: Row)
  {
    function Target(): Key {
      if DeleteTerm? then key else document.key
    }
  }

  // One index directory.  A directory whose removal was cut short is `Torn`.
  datatype Generation = Absent | Torn | Whole(documents: seq<Row>)

  // The directory a table is read from, and the two a rebuild uses beside it.
  datatype Slot = Final | Retired | Building

  // The position of the last dot, or -1.
  function LastDot(name: string): (dot: int)
    ensures -1 <= dot < |name|
    ensures dot >= 0 ==> name[dot] == '.'
    ensures forall i :: dot < i < |name| ==> name[i] != '.'
  {
    if name == [] then -1
    else if name[|name| - 1] == '.' then |name| - 1
    else LastDot(name[..|name| - 1])
  }

  // A file name without its extension; a dot in front does not start one.
  function Stem(name: string): string {
    var dot := LastDot(name);
    if dot > 0 then name[..dot] else name
  }

  datatype Paths = Paths(final: string, retired: string, building: string)
  {
    function Of(slot: Slot): string {
      match slot
      case Final => final
      case Retired => retired
      case Building => building
    }
  }

  /** The names of a table's directories, all beside each other under one parent.  The retired name
      replaces whatever extension the table's name has. */
  function PathsOf(table: string): Paths {
    Paths(table, Stem(table) + ".retired", "." + table + ".building")
  }

  /** Rebuilding `table` passes through the directory in which `other` is installed. */
  predicate Clash(table: string, other: string) {
    table != other &&
      (PathsOf(other).final == PathsOf(table).retired || PathsOf(other).final == PathsOf(table).building)
  }

  ghost predicate Apart(names: set<string>) {
    forall table, other :: table in names && other in names ==> !Clash(table, other)
  }

  type Disk = map<string, Generation>

  function At(disk: Disk, path: string): Generation {
    if path in disk then disk[path] else Absent
  }

  datatype Db = Db(
    // on disk
    tables: map<string, Rows>,
    outbox: seq<Record>,
    next: nat,
    dirty: set<string>,
    disk: Disk,
    // in memory, lost by a crash
    deferred: set<nat>,
    staged: set<nat>,
    writers: map<string, seq<WriterOp>>)

  function Installed(s: Db, table: string): Generation {
    At(s.disk, PathsOf(table).final)
  }

  // The committed documents a reader of the installed generation sees.
  function Documents(s: Db, table: string): seq<Row> {
    if Installed(s, table).Whole? then Installed(s, table).documents else []
  }

  function Buffered(s: Db, table: string): seq<WriterOp> {
    if table in s.writers then s.writers[table] else []
  }

  function RowsOf(s: Db, table: string): Rows {
    if table in s.tables then s.tables[table] else map[]
  }

  // ----- documents -----

  /** Every document stored under `key`, oldest first. */
  function Found(documents: seq<Row>, key: Key): seq<Columns> {
    if documents == [] then []
    else
      var last := documents[|documents| - 1];
      var before := Found(documents[..|documents| - 1], key);
      if last.key == key then before + [last.columns] else before
  }

  /** What SQLite holds under `key`: nothing or one row. */
  function Sql(rows: Rows, key: Key): seq<Columns> {
    if key in rows then [rows[key]] else []
  }

  /** The documents are exactly the rows: one document for each row and none besides. */
  ghost predicate Agrees(documents: seq<Row>, rows: Rows) {
    forall key :: Found(documents, key) == Sql(rows, key)
  }

  function Without(documents: seq<Row>, key: Key): seq<Row> {
    if documents == [] then []
    else
      var last := documents[|documents| - 1];
      var before := Without(documents[..|documents| - 1], key);
      if last.key == key then before else before + [last]
  }

  function ApplyWriterOp(documents: seq<Row>, op: WriterOp): seq<Row> {
    match op
    case DeleteTerm(key) => Without(documents, key)
    case AddDocument(document) => documents + [document]
  }

  // A commit folds the queued writer operations, in order, into the committed documents.
  function ApplyWriter(documents: seq<Row>, ops: seq<WriterOp>): seq<Row> {
    if ops == [] then documents
    else ApplyWriterOp(ApplyWriter(documents, ops[..|ops| - 1]), ops[|ops| - 1])
  }

  // ----- outbox operations -----

  /** What `key` holds once `op`, which targets it, has been applied. */
  function OperationValue(op: Operation, rows: Rows): seq<Columns> {
    match op
    case Upsert(row) => [row.columns]
    case Delete(_) => []
    case Refresh(key) => Sql(rows, key)
  }

  // A refresh is resolved against the authoritative row when it is staged.
  function Resolve(op: Operation, rows: Rows): Operation {
    match op
    case Refresh(key) => if key in rows then Upsert(Row(key, rows[key])) else Delete(key)
    case _ => op
  }

  function ResolveAll(operations: seq<Operation>, rows: Rows): (r: seq<Operation>)
    ensures |r| == |operations|
  {
    seq(|operations|, i requires 0 <= i < |operations| => Resolve(operations[i], rows))
  }

  function WriterOps(op: Operation): seq<WriterOp> {
    [DeleteTerm(op.Target())] + (if op.Upsert? then [AddDocument(op.row)] else [])
  }

  function StageOps(operations: seq<Operation>): seq<WriterOp> {
    if operations == [] then []
    else StageOps(operations[..|operations| - 1]) + WriterOps(operations[|operations| - 1])
  }

  function Last(operations: seq<Operation>, key: Key): Option<Operation> {
    if operations == [] then None
    else if operations[|operations| - 1].Target() == key then Some(operations[|operations| - 1])
    else Last(operations[..|operations| - 1], key)
  }

  /** The newest operation that any of `records` holds for `key` of `table`. */
  function LastIn(records: seq<Record>, table: string, key: Key): Option<Operation> {
    if records == [] then None
    else
      var newest := records[|records| - 1];
      if newest.table == table && Last(newest.operations, key).Some? then Last(newest.operations, key)
      else LastIn(records[..|records| - 1], table, key)
  }

  predicate Touches(records: seq<Record>, table: string, key: Key) {
    LastIn(records, table, key).Some?
  }

  function Keep(records: seq<Record>, ids: set<nat>): seq<Record> {
    if records == [] then []
    else
      var last := records[|records| - 1];
      var before := Keep(records[..|records| - 1], ids);
      if last.id in ids then before + [last] else before
  }

  function Drop(records: seq<Record>, ids: set<nat>): seq<Record> {
    if records == [] then []
    else
      var last := records[|records| - 1];
      var before := Drop(records[..|records| - 1], ids);
      if last.id in ids then before else before + [last]
  }

  function ForTable(records: seq<Record>, table: string): seq<Record> {
    if records == [] then []
    else
      var last := records[|records| - 1];
      var before := ForTable(records[..|records| - 1], table);
      if last.table == table then before + [last] else before
  }

  function Ids(records: seq<Record>): set<nat> {
    set record | record in records :: record.id
  }

  /** The distinct table names of `records` in name order, as an ordered map visits them. */
  function Names(records: seq<Record>): seq<string> {
    if records == [] then []
    else InsertName(records[|records| - 1].table, Names(records[..|records| - 1]))
  }

  function InsertName(name: string, names: seq<string>): seq<string> {
    if names == [] then [name]
    else match CompareString(name, names[0])
         case Less => [name] + names
         case Equal => names
         case Greater => [names[0]] + InsertName(name, names[1..])
  }

  // ----- SQLite transactions -----

  datatype Planned =
    | PlannedInsert(table: string, row: Row)
    | PlannedUpdate(table: string, keys: seq<Key>, assignments: Columns)
    | PlannedDelete(table: string, keys: seq<Key>)
    | PlannedBulk(table: string, rows: seq<Row>, upsert: bool)

  // An insert of a key that exists, or twice the same key, violates the primary key.
  function InsertRows(rows: Rows, added: seq<Row>): Option<Rows> {
    if added == [] then Some(rows)
    else
      var last := added[|added| - 1];
      match InsertRows(rows, added[..|added| - 1])
      case None => None
      case Some(before) => if last.key in before then None else Some(before[last.key := last.columns])
  }

  function UpsertRows(rows: Rows, added: seq<Row>): Rows {
    if added == [] then rows
    else
      var last := added[|added| - 1];
      UpsertRows(rows, added[..|added| - 1])[last.key := last.columns]
  }

  function UpdateRows(rows: Rows, keys: seq<Key>, assignments: Columns): Rows {
    if keys == [] then rows
    else
      var before, last := UpdateRows(rows, keys[..|keys| - 1], assignments), keys[|keys| - 1];
      if last in before then before[last := before[last] + assignments] else before
  }

  function DeleteRows(rows: Rows, keys: seq<Key>): Rows {
    if keys == [] then rows else DeleteRows(rows, keys[..|keys| - 1]) - {keys[|keys| - 1]}
  }

  // Fetching a row that is gone fails, and with it the transaction.
  function FetchAll(rows: Rows, keys: seq<Key>): Option<seq<Operation>> {
    if keys == [] then Some([])
    else
      var last := keys[|keys| - 1];
      match FetchAll(rows, keys[..|keys| - 1])
      case None => None
      case Some(before) => if last in rows then Some(before + [Upsert(Row(last, rows[last]))]) else None
  }

  function Deletes(keys: seq<Key>): seq<Operation> {
    seq(|keys|, i requires 0 <= i < |keys| => Delete(keys[i]))
  }

  function Upserts(rows: seq<Row>): seq<Operation> {
    seq(|rows|, i requires 0 <= i < |rows| => Upsert(rows[i]))
  }

  function Refreshes(rows: seq<Row>): seq<Operation> {
    seq(|rows|, i requires 0 <= i < |rows| => Refresh(rows[i].key))
  }

  datatype Change = Change(rows: Rows, operations: seq<Operation>)

  // The rows of one table after a planned mutation, with the operations its record will carry.
  function ApplyPlanned(rows: Rows, planned: Planned): Option<Change> {
    match planned
    case PlannedInsert(_, row) =>
      (match InsertRows(rows, [row])
       case None => None
       case Some(after) => Some(Change(after, [Upsert(row)])))
    case PlannedUpdate(_, keys, assignments) =>
      var after := UpdateRows(rows, keys, assignments);
      (match FetchAll(after, keys)
       case None => None
       case Some(operations) => Some(Change(after, operations)))
    case PlannedDelete(_, keys) => Some(Change(DeleteRows(rows, keys), Deletes(keys)))
    case PlannedBulk(_, added, upsert) =>
      if upsert then Some(Change(UpsertRows(rows, added), Refreshes(added)))
      else match InsertRows(rows, added)
           case None => None
           case Some(after) => Some(Change(after, Refreshes(added)))
  }

  datatype Effect = Effect(tables: map<string, Rows>, records: seq<Record>)

  // One more mutation, with the record it leaves if it changed anything.
  function OneMore(before: Effect, next: nat, planned: Planned): Option<Effect> {
    if planned.table !in before.tables then None
    else match ApplyPlanned(before.tables[planned.table], planned)
         case None => None
         case Some(change) =>
           Some(Effect(before.tables[planned.table := change.rows],
                       if change.operations == [] then before.records
                       else before.records + [Record(next + |before.records|, planned.table, change.operations)]))
  }

  // All mutations of a batch in one transaction, each non-empty one with its own record.
  function RunBatch(tables: map<string, Rows>, next: nat, batch: seq<Planned>): Option<Effect> {
    if batch == [] then Some(Effect(tables, []))
    else
      match RunBatch(tables, next, batch[..|batch| - 1])
      case None => None
      case Some(before) => OneMore(before, next, batch[|batch| - 1])
  }

  lemma BatchOneMore(tables: map<string, Rows>, next: nat, batch: seq<Planned>, i: nat)
    requires i < |batch| && RunBatch(tables, next, batch[..i]).Some?
    ensures RunBatch(tables, next, batch[..i + 1]) ==
            OneMore(RunBatch(tables, next, batch[..i]).value, next, batch[i])
  {
    assert batch[..i + 1][..i] == batch[..i];
  }

  // The first mutation that fails fails the batch.
  lemma {:induction false} BatchStops(tables: map<string, Rows>, next: nat, batch: seq<Planned>, k: nat)
    requires k <= |batch|
    ensures RunBatch(tables, next, batch[..k]).None? ==> RunBatch(tables, next, batch).None?
  {
    if k == |batch| {
      assert batch[..k] == batch;
    } else {
      var front := batch[..|batch| - 1];
      assert front[..k] == batch[..k];
      BatchStops(tables, next, front, k);
    }
  }

  // ----- steps -----

  datatype Step =
    | Transact(batch: seq<Planned>)
    | Replace(table: string, rows: Rows)          // a catalog transaction that also sets `dirty`
    | DropTable(table: string)
    | Write(table: string, op: WriterOp)
    | Commit(table: string)
    | Purge(ids: set<nat>)                        // the transaction that deletes published records
    | Forget(id: nat)
    | Defer(id: nat)
    | CloseIndex(table: string)
    | Files(table: string, action: FileAction)
    | MarkClean(table: string)
    | Crash

  datatype FileAction =
    | Tear(slot: Slot)                            // directory removal has begun
    | Clear(slot: Slot)                           // directory removal is complete
    | Create                                      // an empty generation under the building name
    | Fill                                        // all rows added and committed
    | Rename(from: Slot, to: Slot)

  function MaxKey(keys: set<Key>): (m: Key)
    requires keys != {}
    ensures m in keys && forall k :: k in keys ==> k <= m
  {
    HasMaximum(keys);
    var m :| m in keys && forall k :: k in keys ==> k <= m;
    m
  }

  lemma HasMember(keys: set<int>)
    ensures keys == {} || exists k :: k in keys
  {
    if forall k :: k !in keys { assert keys == {}; }
  }

  lemma {:induction false} HasMaximum(keys: set<int>)
    requires keys != {}
    ensures exists m :: m in keys && forall k :: k in keys ==> k <= m
    decreases |keys|
  {
    HasMember(keys);
    var some :| some in keys;
    var rest := keys - {some};
    if rest == {} {
      assert keys == {some};
    } else {
      HasMaximum(rest);
      var m :| m in rest && forall k :: k in rest ==> k <= m;
      var top := if m < some then some else m;
      assert forall k :: k in keys ==> k == some || k in rest;
      assert top in keys && forall k :: k in keys ==> k <= top;
    }
  }

  /** A rebuild writes one document for each row. */
  function Snapshot(rows: Rows): seq<Row>
    decreases |rows|
  {
    if rows == map[] then []
    else
      var key := MaxKey(rows.Keys);
      assert (rows - {key}).Keys == rows.Keys - {key};
      Snapshot(rows - {key}) + [Row(key, rows[key])]
  }

  // Removing or renaming a directory that does not exist does nothing.
  function Act(disk: Disk, paths: Paths, rows: Rows, action: FileAction): Disk {
    match action
    case Tear(slot) => if At(disk, paths.Of(slot)).Absent? then disk else disk[paths.Of(slot) := Torn]
    case Clear(slot) => disk[paths.Of(slot) := Absent]
    case Create => disk[paths.building := Whole([])]
    case Fill => disk[paths.building := Whole(Snapshot(rows))]
    case Rename(from, to) =>
      var moved := At(disk, paths.Of(from));
      if moved.Absent? then disk else disk[paths.Of(from) := Absent][paths.Of(to) := moved]
  }

  function ActAll(disk: Disk, paths: Paths, rows: Rows, actions: seq<FileAction>): Disk {
    if actions == [] then disk
    else Act(ActAll(disk, paths, rows, actions[..|actions| - 1]), paths, rows, actions[|actions| - 1])
  }

  function Do(s: Db, step: Step): Db {
    match step
    case Transact(batch) =>
      (match RunBatch(s.tables, s.next, batch)
       case None => s
       case Some(effect) => s.(tables := effect.tables, outbox := s.outbox + effect.records,
                               next := s.next + |effect.records|))
    case Replace(table, rows) => s.(tables := s.tables[table := rows], dirty := s.dirty + {table})
    case DropTable(table) =>
      s.(tables := s.tables - {table}, dirty := s.dirty - {table},
         outbox := Drop(s.outbox, Ids(ForTable(s.outbox, table))))
    case Write(table, op) => s.(writers := s.writers[table := Buffered(s, table) + [op]])
    case Commit(table) =>
      if !Installed(s, table).Whole? then s
      else
        var published := Whole(ApplyWriter(Documents(s, table), Buffered(s, table)));
        s.(disk := s.disk[PathsOf(table).final := published], writers := s.writers[table := []])
    case Purge(ids) => s.(outbox := Drop(s.outbox, ids))
    case Forget(id) => s.(deferred := s.deferred - {id}, staged := s.staged - {id})
    case Defer(id) => s.(deferred := s.deferred + {id}, staged := s.staged + {id})
    case CloseIndex(table) => s.(writers := s.writers - {table})
    case Files(table, action) => s.(disk := Act(s.disk, PathsOf(table), RowsOf(s, table), action))
    case MarkClean(table) => s.(dirty := s.dirty - {table})
    case Crash => s.(deferred := {}, staged := {}, writers := map[])
  }

  function Exec(s: Db, steps: seq<Step>): Db {
    if steps == [] then s else Do(Exec(s, steps[..|steps| - 1]), steps[|steps| - 1])
  }

  // ----- scripts: the steps of each database call -----

  function Writes(table: string, ops: seq<WriterOp>): (steps: seq<Step>)
    ensures |steps| == |ops|
  {
    seq(|ops|, i requires 0 <= i < |ops| => Write(table, ops[i]))
  }

  function Forgets(records: seq<Record>): (steps: seq<Step>)
    ensures |steps| == |records|
  {
    seq(|records|, i requires 0 <= i < |records| => Forget(records[i].id))
  }

  // The writer operations that stage `records`, refreshes resolved against the current rows.
  function RecordOps(records: seq<Record>, rows: Rows): seq<WriterOp> {
    if records == [] then []
    else
      RecordOps(records[..|records| - 1], rows) +
      StageOps(ResolveAll(records[|records| - 1].operations, rows))
  }

  // One table of `apply_outboxes`: stage what is not staged yet, commit, purge, forget.
  function GroupScript(s: Db, table: string, ids: set<nat>): seq<Step> {
    var group := ForTable(Keep(s.outbox, ids), table);
    Writes(table, RecordOps(Drop(group, s.staged), RowsOf(s, table))) +
    [Commit(table), Purge(Ids(group))] + Forgets(group)
  }

  function GroupsScript(s: Db, names: seq<string>, ids: set<nat>): seq<Step>
    decreases |names|
  {
    if names == [] then []
    else
      var first := GroupScript(s, names[0], ids);
      first + GroupsScript(Exec(s, first), names[1..], ids)
  }

  function ApplyScript(s: Db, ids: set<nat>): seq<Step> {
    GroupsScript(s, Names(Keep(s.outbox, ids)), ids)
  }

  function FlushScript(s: Db): seq<Step> {
    ApplyScript(s, Ids(s.outbox)) + Forgets(s.outbox)
  }

  function ReplayScript(s: Db): seq<Step> {
    ApplyScript(s, Ids(s.outbox) - s.deferred)
  }

  // `rebuild_table`: build a generation beside the installed one, swap it in, clear the flag.
  function RebuildScript(table: string): seq<Step> {
    [CloseIndex(table)] + FileSteps(table, BuildActions() + SwapActions(PathsOf(table))) + [MarkClean(table)]
  }

  function BuildActions(): seq<FileAction> {
    [Tear(Building), Clear(Building), Create, Fill]
  }

  // A table that is installed under its own retired name has been removed by the time the swap looks
  // for a previous generation, so it moves none away and removes none in the end.
  function SwapActions(paths: Paths): seq<FileAction> {
    if paths.final == paths.retired then [Tear(Retired), Clear(Retired), Rename(Building, Final)]
    else [Tear(Retired), Clear(Retired), Rename(Final, Retired), Rename(Building, Final), Tear(Retired), Clear(Retired)]
  }

  function FileSteps(table: string, actions: seq<FileAction>): (steps: seq<Step>)
    ensures |steps| == |actions|
  {
    seq(|actions|, i requires 0 <= i < |actions| => Files(table, actions[i]))
  }

  function RebuildsScript(tables: seq<string>): seq<Step> {
    if tables == [] then []
    else RebuildsScript(tables[..|tables| - 1]) + RebuildScript(tables[|tables| - 1])
  }

  // The dirty tables, in whatever order the catalog lists them, then the outbox.
  function RecoverScript(s: Db, listed: seq<string>): seq<Step> {
    var rebuilds := RebuildsScript(listed);
    rebuilds + ReplayScript(Exec(s, rebuilds))
  }

  // A transaction with the records it will add; nothing happens when it fails.
  function AddedRecords(s: Db, batch: seq<Planned>): seq<Record> {
    match RunBatch(s.tables, s.next, batch)
    case None => []
    case Some(effect) => effect.records
  }

  function TransactScript(s: Db, batch: seq<Planned>): seq<Step> {
    if RunBatch(s.tables, s.next, batch).None? then [] else [Transact(batch)]
  }

  // Commit the batch in SQLite, then publish the records it added.
  function PublishedScript(s: Db, batch: seq<Planned>): seq<Step> {
    var tx := TransactScript(s, batch);
    tx + ApplyScript(Exec(s, tx), Ids(AddedRecords(s, batch)))
  }

  // Commit one mutation in SQLite, queue its record, and remember it as deferred.  A bulk write
  // queues the rows it was given; an update or delete queues the record it stored.
  function DeferredScript(s: Db, planned: Planned): seq<Step> {
    var tx := TransactScript(s, [planned]);
    var added := AddedRecords(s, [planned]);
    if added == [] then tx
    else
      tx +
      Writes(planned.table,
             if planned.PlannedBulk? then StageOps(Upserts(planned.rows))
             else RecordOps(added, RowsOf(Exec(s, tx), planned.table))) +
      [Defer(added[0].id)]
  }

  // A bulk write, or an insert of one row; a failed write is not followed by the flush.
  function BulkScript(s1: Db, table: string, rows: seq<Row>, upsert: bool, publish: bool): seq<Step> {
    if rows == [] then (if publish then FlushScript(s1) else [])
    else if TransactScript(s1, [PlannedBulk(table, rows, upsert)]) == [] then []
    else
      var write := DeferredScript(s1, PlannedBulk(table, rows, upsert));
      write + (if publish then FlushScript(Exec(s1, write)) else [])
  }

  datatype Command =
    | Read                                            // every read recovers first
    | Flush
    | Mutate(planned: Planned, publish: bool)         // one update or delete
    | Bulk(table: string, rows: seq<Row>, upsert: bool, publish: bool)
    | Batch(batch: seq<Planned>)
    | Rebuild(table: string, contents: Rows)          // create, reindex or schema change
    | Remove(table: string)

  // Update and delete name the keys their filter matched in the published index.
  predicate WellFormed(command: Command) {
    match command
    case Mutate(planned, _) => planned.PlannedUpdate? || planned.PlannedDelete?
    case Bulk(_, rows, _, _) => true
    case Batch(batch) => forall planned :: planned in batch ==> !planned.PlannedBulk?
    case _ => true
  }

  function Script(s: Db, command: Command, listed: seq<string>): seq<Step> {
    match command
    case Read => RecoverScript(s, listed)
    case Flush => FlushScript(s)
    case Mutate(planned, publish) =>
      var first := RecoverScript(s, listed);
      first + MutateScript(Exec(s, first), planned, publish)
    case Bulk(table, rows, upsert, publish) =>
      var first := RecoverScript(s, listed);
      first + BulkScript(Exec(s, first), table, rows, upsert, publish)
    case Batch(batch) =>
      var first := FlushScript(s);
      first + PublishedScript(Exec(s, first), batch)
    case Rebuild(table, contents) => FlushScript(s) + ReplaceScript(table, contents)
    case Remove(table) =>
      var first := FlushScript(s);
      first + RemoveScript(Exec(s, first), table)
  }

  function RemoveScript(s1: Db, table: string): seq<Step> {
    if table !in s1.tables then []
    else [DropTable(table), CloseIndex(table)] + FileSteps(table, [Tear(Final), Clear(Final)])
  }

  function MutateScript(s1: Db, planned: Planned, publish: bool): seq<Step> {
    if publish then PublishedScript(s1, [planned]) else DeferredScript(s1, planned)
  }

  // ----- the parts of a script -----

  lemma Regroup(a: seq<Step>, b: seq<Step>, c: seq<Step>)
    ensures a + b + c == a + (b + c)
  {
  }

  lemma MutateShape(s: Db, planned: Planned, publish: bool, listed: seq<string>)
    ensures var first := RecoverScript(s, listed);
            Script(s, Mutate(planned, publish), listed) == first + MutateScript(Exec(s, first), planned, publish)
  {
  }

  lemma BulkShape(s: Db, table: string, rows: seq<Row>, upsert: bool, publish: bool, listed: seq<string>)
    ensures var first := RecoverScript(s, listed);
            Script(s, Bulk(table, rows, upsert, publish), listed) ==
            first + BulkScript(Exec(s, first), table, rows, upsert, publish)
  {
  }

  lemma BatchShape(s: Db, batch: seq<Planned>, listed: seq<string>)
    ensures Script(s, Batch(batch), listed) == FlushScript(s) + PublishedScript(Exec(s, FlushScript(s)), batch)
  {
  }

  // The contents are replaced and the dirty flag is set in one transaction; then the table is rebuilt.
  function ReplaceScript(table: string, contents: Rows): seq<Step> {
    [Replace(table, contents)] + RebuildScript(table)
  }

  lemma ReplaceShape(s: Db, table: string, contents: Rows, listed: seq<string>)
    ensures Script(s, Rebuild(table, contents), listed) == FlushScript(s) + ReplaceScript(table, contents)
  {
  }

  lemma RemoveShape(s: Db, table: string, listed: seq<string>)
    ensures Script(s, Remove(table), listed) == FlushScript(s) + RemoveScript(Exec(s, FlushScript(s)), table)
  {
  }
}
