/** What staging, committing and filtering the outbox do to a single key. */
module OutboxFacts {
  import opened Wrappers
  import opened Outbox

  // ----- documents and writer operations -----

  lemma {:induction false} FoundWithout(documents: seq<Row>, gone: Key, key: Key)
    ensures Found(Without(documents, gone), key) == if key == gone then [] else Found(documents, key)
  {
    if documents != [] {
      var front, last := documents[..|documents| - 1], documents[|documents| - 1];
      FoundWithout(front, gone, key);
      var kept := Without(front, gone);
      assert (kept + [last])[..|kept|] == kept;
    }
  }

  lemma FoundAppend(documents: seq<Row>, added: Row, key: Key)
    ensures Found(documents + [added], key) ==
            if added.key == key then Found(documents, key) + [added.columns] else Found(documents, key)
  {
    assert (documents + [added])[..|documents|] == documents;
  }

  lemma {:induction false} ApplyWriterAppend(documents: seq<Row>, a: seq<WriterOp>, b: seq<WriterOp>)
    ensures ApplyWriter(documents, a + b) == ApplyWriter(ApplyWriter(documents, a), b)
  {
    if b == [] {
      assert a + b == a;
    } else {
      ApplyWriterAppend(documents, a, b[..|b| - 1]);
      assert (a + b)[..|a + b| - 1] == a + b[..|b| - 1];
    }
  }

  /** A writer operation leaves every other key alone. */
  lemma WriterOpLocal(documents: seq<Row>, op: WriterOp, key: Key)
    requires op.Target() != key
    ensures Found(ApplyWriterOp(documents, op), key) == Found(documents, key)
  {
    match op
    case DeleteTerm(gone) => FoundWithout(documents, gone, key);
    case AddDocument(document) => FoundAppend(documents, document, key);
  }

  lemma QueuedLocal(documents: seq<Row>, ops: seq<WriterOp>, op: WriterOp, key: Key)
    requires op.Target() != key
    ensures Found(ApplyWriter(documents, ops + [op]), key) == Found(ApplyWriter(documents, ops), key)
  {
    assert (ops + [op])[..|ops|] == ops;
    WriterOpLocal(ApplyWriter(documents, ops), op, key);
  }

  lemma OperationEffect(documents: seq<Row>, op: Operation, key: Key)
    requires !op.Refresh?
    ensures Found(ApplyWriter(documents, WriterOps(op)), key) ==
            if op.Target() == key then OperationValue(op, map[]) else Found(documents, key)
  {
    var deleted := Without(documents, op.Target());
    FoundWithout(documents, op.Target(), key);
    var ops := WriterOps(op);
    assert ops[..1] == [DeleteTerm(op.Target())];
    assert ApplyWriter(documents, []) == documents;
    assert [DeleteTerm(op.Target())][..0] == [];
    assert ApplyWriter(documents, [DeleteTerm(op.Target())]) == deleted;
    if op.Upsert? {
      assert ApplyWriter(documents, ops) == deleted + [op.row];
      FoundAppend(deleted, op.row, key);
    } else {
      assert ops == [DeleteTerm(op.Target())];
    }
  }

  /** Staging resolved operations leaves each key as its last operation says. */
  lemma {:induction false} StageEffect(documents: seq<Row>, operations: seq<Operation>, key: Key)
    requires forall op :: op in operations ==> !op.Refresh?
    ensures Found(ApplyWriter(documents, StageOps(operations)), key) ==
            match Last(operations, key)
            case Some(op) => OperationValue(op, map[])
            case None => Found(documents, key)
  {
    if operations != [] {
      var front, last := operations[..|operations| - 1], operations[|operations| - 1];
      StageEffect(documents, front, key);
      ApplyWriterAppend(documents, StageOps(front), WriterOps(last));
      OperationEffect(ApplyWriter(documents, StageOps(front)), last, key);
    }
  }

  lemma {:induction false} ResolvedLast(operations: seq<Operation>, rows: Rows, key: Key)
    ensures Last(ResolveAll(operations, rows), key) ==
            match Last(operations, key) case Some(op) => Some(Resolve(op, rows)) case None => None
  {
    if operations != [] {
      var front := operations[..|operations| - 1];
      ResolvedLast(front, rows, key);
      assert ResolveAll(operations, rows)[..|front|] == ResolveAll(front, rows);
    }
  }

  lemma {:induction false} StageTargets(operations: seq<Operation>, op: WriterOp)
    requires op in StageOps(operations)
    ensures Last(operations, op.Target()).Some?
  {
    if operations != [] {
      var front := operations[..|operations| - 1];
      if op in StageOps(front) {
        StageTargets(front, op);
      }
    }
  }

  lemma {:induction false} LastTargets(operations: seq<Operation>, key: Key)
    ensures Last(operations, key).Some? ==>
              Last(operations, key).value in operations && Last(operations, key).value.Target() == key
  {
    if operations != [] {
      LastTargets(operations[..|operations| - 1], key);
    }
  }

  lemma RecordEffect(documents: seq<Row>, operations: seq<Operation>, rows: Rows, key: Key)
    ensures Found(ApplyWriter(documents, StageOps(ResolveAll(operations, rows))), key) ==
            match Last(operations, key)
            case Some(op) => OperationValue(op, rows)
            case None => Found(documents, key)
  {
    StageEffect(documents, ResolveAll(operations, rows), key);
    ResolvedLast(operations, rows, key);
    LastTargets(operations, key);
  }

  /** Staging whole records leaves each key as the newest record operation on it says. */
  lemma {:induction false} RecordsEffect(documents: seq<Row>, records: seq<Record>, table: string, rows: Rows, key: Key)
    requires forall record :: record in records ==> record.table == table
    ensures Found(ApplyWriter(documents, RecordOps(records, rows)), key) ==
            match LastIn(records, table, key)
            case Some(op) => OperationValue(op, rows)
            case None => Found(documents, key)
  {
    if records != [] {
      var front, newest := records[..|records| - 1], records[|records| - 1];
      RecordsEffect(documents, front, table, rows, key);
      assert newest.table == table;
      ApplyWriterAppend(documents, RecordOps(front, rows), StageOps(ResolveAll(newest.operations, rows)));
      RecordEffect(ApplyWriter(documents, RecordOps(front, rows)), newest.operations, rows, key);
    }
  }

  lemma {:induction false} RecordTargets(records: seq<Record>, table: string, rows: Rows, op: WriterOp)
    requires forall record :: record in records ==> record.table == table
    requires op in RecordOps(records, rows)
    ensures Touches(records, table, op.Target())
  {
    if records != [] {
      var front, newest := records[..|records| - 1], records[|records| - 1];
      if op in RecordOps(front, rows) {
        RecordTargets(front, table, rows, op);
      } else {
        StageTargets(ResolveAll(newest.operations, rows), op);
        ResolvedLast(newest.operations, rows, op.Target());
      }
    }
  }

  // ----- selections of records -----

  lemma {:induction false} LastInAppend(a: seq<Record>, b: seq<Record>, table: string, key: Key)
    ensures LastIn(a + b, table, key) ==
            if Touches(b, table, key) then LastIn(b, table, key) else LastIn(a, table, key)
  {
    if b == [] {
      assert a + b == a;
    } else {
      LastInAppend(a, b[..|b| - 1], table, key);
      assert (a + b)[..|a + b| - 1] == a + b[..|b| - 1];
    }
  }

  lemma {:induction false} KeepMembers(records: seq<Record>, ids: set<nat>, record: Record)
    ensures record in Keep(records, ids) <==> record in records && record.id in ids
  {
    if records != [] {
      KeepMembers(records[..|records| - 1], ids, record);
      assert records == records[..|records| - 1] + [records[|records| - 1]];
    }
  }

  lemma {:induction false} DropMembers(records: seq<Record>, ids: set<nat>, record: Record)
    ensures record in Drop(records, ids) <==> record in records && record.id !in ids
  {
    if records != [] {
      DropMembers(records[..|records| - 1], ids, record);
      assert records == records[..|records| - 1] + [records[|records| - 1]];
    }
  }

  lemma {:induction false} ForTableMembers(records: seq<Record>, table: string, record: Record)
    ensures record in ForTable(records, table) <==> record in records && record.table == table
  {
    if records != [] {
      ForTableMembers(records[..|records| - 1], table, record);
      assert records == records[..|records| - 1] + [records[|records| - 1]];
    }
  }

  /** Only the records of a table matter to its keys. */
  lemma {:induction false} LastInForTable(records: seq<Record>, table: string, key: Key)
    ensures LastIn(ForTable(records, table), table, key) == LastIn(records, table, key)
  {
    if records != [] {
      var front, last := records[..|records| - 1], records[|records| - 1];
      LastInForTable(front, table, key);
      var kept := ForTable(front, table);
      assert (kept + [last])[..|kept|] == kept;
    }
  }

  /** Dropping ids that no record of the table carries changes nothing for the table. */
  lemma {:induction false} DropElsewhere(records: seq<Record>, ids: set<nat>, table: string)
    requires forall record :: record in records && record.table == table ==> record.id !in ids
    ensures ForTable(Drop(records, ids), table) == ForTable(records, table)
  {
    if records != [] {
      var front, last := records[..|records| - 1], records[|records| - 1];
      DropElsewhere(front, ids, table);
      var kept := Drop(front, ids);
      assert (kept + [last])[..|kept|] == kept;
    }
  }

  lemma {:induction false} KeepAppend(a: seq<Record>, b: seq<Record>, ids: set<nat>)
    ensures Keep(a + b, ids) == Keep(a, ids) + Keep(b, ids)
  {
    if b == [] {
      assert a + b == a;
    } else {
      KeepAppend(a, b[..|b| - 1], ids);
      assert (a + b)[..|a + b| - 1] == a + b[..|b| - 1];
    }
  }

  lemma {:induction false} DropAppend(a: seq<Record>, b: seq<Record>, ids: set<nat>)
    ensures Drop(a + b, ids) == Drop(a, ids) + Drop(b, ids)
  {
    if b == [] {
      assert a + b == a;
    } else {
      DropAppend(a, b[..|b| - 1], ids);
      assert (a + b)[..|a + b| - 1] == a + b[..|b| - 1];
    }
  }

  lemma {:induction false} KeepAll(records: seq<Record>, ids: set<nat>)
    requires forall record :: record in records ==> record.id in ids
    ensures Keep(records, ids) == records && Drop(records, ids) == []
  {
    if records != [] {
      var front, last := records[..|records| - 1], records[|records| - 1];
      KeepAll(front, ids);
      assert last.id in ids;
      assert records == front + [last];
    }
  }

  lemma {:induction false} DropAll(records: seq<Record>, ids: set<nat>)
    requires forall record :: record in records ==> record.id !in ids
    ensures Drop(records, ids) == records && Keep(records, ids) == []
  {
    if records != [] {
      var front, last := records[..|records| - 1], records[|records| - 1];
      DropAll(front, ids);
      assert last.id !in ids;
      assert records == front + [last];
    }
  }

  /** If the chosen ids come first, the outbox is the chosen records followed by the others. */
  lemma {:induction false} KeepThenDrop(records: seq<Record>, ids: set<nat>)
    requires forall i, j :: 0 <= i < j < |records| && records[j].id in ids ==> records[i].id in ids
    ensures records == Keep(records, ids) + Drop(records, ids)
  {
    if records != [] {
      var front, last := records[..|records| - 1], records[|records| - 1];
      KeepThenDrop(front, ids);
      if last.id in ids {
        forall record | record in front ensures record.id in ids {
          var i :| 0 <= i < |front| && front[i] == record;
          assert records[i].id in ids;
        }
        KeepAll(front, ids);
        assert Keep(records, ids) == front + [last] && Drop(records, ids) == [];
      } else {
        assert Keep(records, ids) == Keep(front, ids);
        assert Drop(records, ids) == Drop(front, ids) + [last];
      }
      assert records == front + [last];
    }
  }

  lemma NoneLeft(records: seq<Record>, table: string, key: Key)
    requires forall record :: record in records ==> record.table != table
    ensures LastIn(records, table, key) == None
  {
    LastInForTable(records, table, key);
    if ForTable(records, table) != [] {
      ForTableMembers(records, table, ForTable(records, table)[0]);
    }
  }

  lemma {:induction false} SameForTable(a: seq<Record>, b: seq<Record>, table: string, key: Key)
    requires ForTable(a, table) == ForTable(b, table)
    ensures LastIn(a, table, key) == LastIn(b, table, key)
  {
    LastInForTable(a, table, key);
    LastInForTable(b, table, key);
  }

  lemma {:induction false} NamesMembers(records: seq<Record>, name: string)
    ensures name in Names(records) <==> exists record :: record in records && record.table == name
  {
    if records != [] {
      var front, last := records[..|records| - 1], records[|records| - 1];
      NamesMembers(front, name);
      InsertNameMembers(last.table, Names(front), name);
      assert records == front + [last];
    }
  }

  lemma {:induction false} InsertNameMembers(added: string, names: seq<string>, name: string)
    ensures name in InsertName(added, names) <==> name == added || name in names
  {
    if names != [] {
      Ordering.StringMirror(added, names[0]);
      InsertNameMembers(added, names[1..], name);
      assert names == [names[0]] + names[1..];
    }
  }

  // ----- transactions -----

  lemma {:induction false} InsertedRows(rows: Rows, added: seq<Row>, key: Key)
    requires InsertRows(rows, added).Some?
    ensures var after := InsertRows(rows, added).value;
            match Last(Upserts(added), key)
            case Some(op) => OperationValue(op, after) == Sql(after, key)
            case None => Sql(after, key) == Sql(rows, key)
  {
    if added != [] {
      InsertedRows(rows, added[..|added| - 1], key);
      assert Upserts(added)[..|added| - 1] == Upserts(added[..|added| - 1]);
      LastTargets(Upserts(added[..|added| - 1]), key);
    }
  }

  lemma {:induction false} UpsertedRows(rows: Rows, added: seq<Row>, key: Key)
    ensures var after := UpsertRows(rows, added);
            match Last(Upserts(added), key)
            case Some(op) => OperationValue(op, after) == Sql(after, key)
            case None => Sql(after, key) == Sql(rows, key)
  {
    if added != [] {
      UpsertedRows(rows, added[..|added| - 1], key);
      assert Upserts(added)[..|added| - 1] == Upserts(added[..|added| - 1]);
      LastTargets(Upserts(added[..|added| - 1]), key);
    }
  }

  /** A refresh record names the same keys as the rows written with it. */
  lemma {:induction false} RefreshesLikeUpserts(added: seq<Row>, key: Key)
    ensures Last(Refreshes(added), key).Some? <==> Last(Upserts(added), key).Some?
    ensures Last(Refreshes(added), key).Some? ==> Last(Refreshes(added), key).value == Refresh(key)
  {
    if added != [] {
      RefreshesLikeUpserts(added[..|added| - 1], key);
      assert Upserts(added)[..|added| - 1] == Upserts(added[..|added| - 1]);
      assert Refreshes(added)[..|added| - 1] == Refreshes(added[..|added| - 1]);
    }
  }

  lemma {:induction false} UpdatedRows(rows: Rows, keys: seq<Key>, assignments: Columns, key: Key)
    requires key !in keys
    ensures Sql(UpdateRows(rows, keys, assignments), key) == Sql(rows, key)
  {
    if keys != [] {
      UpdatedRows(rows, keys[..|keys| - 1], assignments, key);
    }
  }

  lemma {:induction false} FetchedRows(rows: Rows, keys: seq<Key>, key: Key)
    requires FetchAll(rows, keys).Some?
    ensures match Last(FetchAll(rows, keys).value, key)
            case Some(op) => key in keys && OperationValue(op, rows) == Sql(rows, key)
            case None => key !in keys
  {
    if keys != [] {
      var front := keys[..|keys| - 1];
      FetchedRows(rows, front, key);
      assert keys == front + [keys[|keys| - 1]];
      var before := FetchAll(rows, front).value;
      assert FetchAll(rows, keys).value[..|before|] == before;
    }
  }

  lemma {:induction false} DeletedRows(rows: Rows, keys: seq<Key>, key: Key)
    ensures match Last(Deletes(keys), key)
            case Some(op) => op == Delete(key) && key !in DeleteRows(rows, keys)
            case None => Sql(DeleteRows(rows, keys), key) == Sql(rows, key)
  {
    if keys != [] {
      DeletedRows(rows, keys[..|keys| - 1], key);
      assert Deletes(keys)[..|keys| - 1] == Deletes(keys[..|keys| - 1]);
    }
  }

  /** The operations recorded for a mutation describe the rows it leaves behind, and every key
      they do not name is unchanged. */
  lemma PlannedIsRecorded(rows: Rows, planned: Planned, key: Key)
    requires ApplyPlanned(rows, planned).Some?
    ensures var change := ApplyPlanned(rows, planned).value;
            match Last(change.operations, key)
            case Some(op) => OperationValue(op, change.rows) == Sql(change.rows, key)
            case None => Sql(change.rows, key) == Sql(rows, key)
  {
    match planned
    case PlannedInsert(_, row) =>
      InsertedRows(rows, [row], key);
      assert Upserts([row]) == [Upsert(row)];
    case PlannedUpdate(_, keys, assignments) =>
      FetchedRows(UpdateRows(rows, keys, assignments), keys, key);
      if key !in keys { UpdatedRows(rows, keys, assignments, key); }
    case PlannedDelete(_, keys) =>
      DeletedRows(rows, keys, key);
    case PlannedBulk(_, added, upsert) =>
      RefreshesLikeUpserts(added, key);
      if upsert { UpsertedRows(rows, added, key); } else { InsertedRows(rows, added, key); }
  }

  /** The records a transaction adds are newer than `next`, name existing tables, describe the rows
      it leaves behind, and cover every key it changes. */
  lemma {:induction false} BatchIsRecorded(tables: map<string, Rows>, next: nat, batch: seq<Planned>)
    requires RunBatch(tables, next, batch).Some?
    ensures var effect := RunBatch(tables, next, batch).value;
            && effect.tables.Keys == tables.Keys
            && (forall i :: 0 <= i < |effect.records| ==>
                  effect.records[i].id == next + i && effect.records[i].table in tables)
  {
    if batch != [] {
      BatchIsRecorded(tables, next, batch[..|batch| - 1]);
    }
  }

  /** `key` of `table` is described by the records: the newest operation on it gives its row, and
      without one its row is as before. */
  ghost predicate Describes(records: seq<Record>, table: string, before: Rows, after: Rows, key: Key) {
    match LastIn(records, table, key)
    case Some(op) => OperationValue(op, after) == Sql(after, key)
    case None => Sql(after, key) == Sql(before, key)
  }

  lemma LastInSnoc(records: seq<Record>, added: Record, table: string, key: Key)
    ensures LastIn(records + [added], table, key) ==
            if added.table == table && Last(added.operations, key).Some? then Last(added.operations, key)
            else LastIn(records, table, key)
  {
    assert (records + [added])[..|records|] == records;
  }

  lemma DescribesOneMore(records: seq<Record>, id: nat, table: string, before: Rows, middle: Rows, planned: Planned,
                         key: Key)
    requires Describes(records, table, before, middle, key)
    requires ApplyPlanned(middle, planned).Some?
    ensures var change := ApplyPlanned(middle, planned).value;
            Describes(if change.operations == [] then records else records + [Record(id, table, change.operations)],
                      table, before, change.rows, key)
  {
    var change := ApplyPlanned(middle, planned).value;
    PlannedIsRecorded(middle, planned, key);
    LastInTargets(records, table, key);
    if change.operations != [] { LastInSnoc(records, Record(id, table, change.operations), table, key); }
  }

  lemma DescribesOther(records: seq<Record>, added: Record, table: string, before: Rows, after: Rows, key: Key)
    requires Describes(records, table, before, after, key)
    requires added.table != table
    ensures Describes(records + [added], table, before, after, key)
  {
    assert (records + [added])[..|records|] == records;
  }

  /** Every key of every table is described by the records its transaction adds. */
  lemma {:induction false} BatchIsDescribed(tables: map<string, Rows>, next: nat, batch: seq<Planned>, table: string,
                                            key: Key)
    requires RunBatch(tables, next, batch).Some? && table in tables
    ensures RunBatch(tables, next, batch).value.tables.Keys == tables.Keys
    ensures var effect := RunBatch(tables, next, batch).value;
            Describes(effect.records, table, tables[table], effect.tables[table], key)
  {
    BatchIsRecorded(tables, next, batch);
    if batch != [] {
      var front, last := batch[..|batch| - 1], batch[|batch| - 1];
      BatchIsDescribed(tables, next, front, table, key);
      var before := RunBatch(tables, next, front).value;
      var id := next + |before.records|;
      var change := ApplyPlanned(before.tables[last.table], last).value;
      if last.table == table {
        DescribesOneMore(before.records, id, table, tables[table], before.tables[table], last, key);
      } else if change.operations != [] {
        DescribesOther(before.records, Record(id, last.table, change.operations), table,
                       tables[table], before.tables[table], key);
      }
    }
  }

  lemma {:induction false} LastInTargets(records: seq<Record>, table: string, key: Key)
    ensures Touches(records, table, key) ==> LastIn(records, table, key).value.Target() == key
  {
    if records != [] {
      LastInTargets(records[..|records| - 1], table, key);
      LastTargets(records[|records| - 1].operations, key);
    }
  }

  lemma {:induction false} SnapshotAgrees(rows: Rows)
    ensures Agrees(Snapshot(rows), rows)
    decreases |rows|
  {
    if rows != map[] {
      var top := MaxKey(rows.Keys);
      assert (rows - {top}).Keys == rows.Keys - {top};
      SnapshotAgrees(rows - {top});
      forall key ensures Found(Snapshot(rows), key) == Sql(rows, key) {
        FoundAppend(Snapshot(rows - {top}), Row(top, rows[top]), key);
        assert Found(Snapshot(rows - {top}), key) == Sql(rows - {top}, key);
      }
    } else {
      forall key ensures Found(Snapshot(rows), key) == Sql(rows, key) { }
    }
  }
}
