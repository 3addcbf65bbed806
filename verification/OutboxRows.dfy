/** What a mutation leaves in SQLite: the rows it inserts, updates and deletes, when it is refused, and
    what the tables hold after the call that ran it. */
module OutboxRows {
  import opened Wrappers
  import opened Outbox
  import opened OutboxInvariant
  import opened OutboxScripts
  import opened OutboxRollback

  // ----- one mutation -----

  // Some of the rows has the key.
  ghost predicate HasKey(added: seq<Row>, key: Key) {
    exists i :: 0 <= i < |added| && added[i].key == key
  }

  // No later row has the same key.
  ghost predicate Newest(added: seq<Row>, i: nat)
    requires i < |added|
  {
    forall j :: i < j < |added| ==> added[j].key != added[i].key
  }

  // The newest of the rows under each of their keys, and every other row as it was.
  ghost predicate Written(before: Rows, added: seq<Row>, after: Rows) {
    && (forall key :: key in after <==> key in before || HasKey(added, key))
    && (forall key :: key in before && !HasKey(added, key) ==> after[key] == before[key])
    && (forall i :: 0 <= i < |added| && Newest(added, i) ==> after[added[i].key] == added[i].columns)
  }

  // No row has a key of the table or of another row.
  ghost predicate AllNew(before: Rows, added: seq<Row>) {
    && (forall i :: 0 <= i < |added| ==> added[i].key !in before)
    && (forall i, j :: 0 <= i < j < |added| ==> added[i].key != added[j].key)
  }

  /** What a mutation should do to the rows of its table, key by key. */
  ghost predicate Performs(before: Rows, planned: Planned, after: Rows) {
    match planned
    case PlannedInsert(_, row) => row.key !in before && after == before[row.key := row.columns]
    case PlannedUpdate(_, keys, assignments) =>
      && (forall key :: key in keys ==> key in before) && after.Keys == before.Keys
      && (forall key :: key in before ==> after[key] == before[key] + (if key in keys then assignments else map[]))
    case PlannedDelete(_, keys) =>
      && (forall key :: key in after <==> key in before && key !in keys)
      && (forall key :: key in after ==> after[key] == before[key])
    case PlannedBulk(_, added, upsert) => (upsert || AllNew(before, added)) && Written(before, added, after)
  }

  /** What SQLite accepts: an insert of new keys, an update of keys that exist. */
  ghost predicate Acceptable(before: Rows, planned: Planned) {
    match planned
    case PlannedInsert(_, row) => row.key !in before
    case PlannedUpdate(_, keys, _) => forall key :: key in keys ==> key in before
    case PlannedDelete(_, _) => true
    case PlannedBulk(_, added, upsert) => upsert || AllNew(before, added)
  }

  lemma AssignedTwice(row: Columns, assignments: Columns)
    ensures row + assignments + assignments == row + assignments
  {
  }

  lemma {:induction false} UpdatedExactly(rows: Rows, keys: seq<Key>, assignments: Columns)
    ensures var after := UpdateRows(rows, keys, assignments);
            && after.Keys == rows.Keys
            && forall key :: key in rows ==> after[key] == if key in keys then rows[key] + assignments else rows[key]
  {
    if keys != [] {
      var front, last := keys[..|keys| - 1], keys[|keys| - 1];
      assert keys == front + [last];
      UpdatedExactly(rows, front, assignments);
      if last in rows { AssignedTwice(rows[last], assignments); }
    }
  }

  lemma {:induction false} FetchesIff(rows: Rows, keys: seq<Key>)
    ensures FetchAll(rows, keys).Some? <==> forall key :: key in keys ==> key in rows
  {
    if keys != [] {
      var front, last := keys[..|keys| - 1], keys[|keys| - 1];
      assert keys == front + [last];
      FetchesIff(rows, front);
    }
  }

  lemma {:induction false} DeletedExactly(rows: Rows, keys: seq<Key>)
    ensures var after := DeleteRows(rows, keys);
            && (forall key :: key in after <==> key in rows && key !in keys)
            && forall key :: key in after ==> after[key] == rows[key]
  {
    if keys != [] {
      var front, last := keys[..|keys| - 1], keys[|keys| - 1];
      assert keys == front + [last];
      DeletedExactly(rows, front);
    }
  }

  lemma HasKeySnoc(front: seq<Row>, last: Row)
    ensures forall key :: HasKey(front + [last], key) <==> HasKey(front, key) || last.key == key
  {
    var added := front + [last];
    forall key ensures HasKey(added, key) <==> HasKey(front, key) || last.key == key {
      if HasKey(front, key) { var i :| 0 <= i < |front| && front[i].key == key; assert added[i].key == key; }
      if last.key == key { assert added[|front|].key == key; }
      if HasKey(added, key) {
        var i :| 0 <= i < |added| && added[i].key == key;
        if i < |front| { assert front[i].key == key; }
      }
    }
  }

  lemma {:induction false} UpsertedExactly(rows: Rows, added: seq<Row>)
    ensures Written(rows, added, UpsertRows(rows, added))
  {
    if added != [] {
      var front, last := added[..|added| - 1], added[|added| - 1];
      assert added == front + [last];
      UpsertedExactly(rows, front);
      HasKeySnoc(front, last);
      var after := UpsertRows(rows, added);
      forall i | 0 <= i < |added| && Newest(added, i) ensures after[added[i].key] == added[i].columns {
        if i < |front| {
          assert added[|front|].key != added[i].key && front[i] == added[i];
          forall j | i < j < |front| ensures front[j].key != front[i].key { assert added[j] == front[j]; }
          assert Newest(front, i);
        }
      }
    }
  }

  lemma AllNewSnoc(rows: Rows, front: seq<Row>, last: Row)
    ensures AllNew(rows, front + [last]) <==> AllNew(rows, front) && last.key !in rows && !HasKey(front, last.key)
  {
    var added := front + [last];
    assert added[|front|] == last && forall i :: 0 <= i < |front| ==> added[i] == front[i];
    if AllNew(rows, added) {
      forall i, j | 0 <= i < j < |front| ensures front[i].key != front[j].key { assert added[i].key != added[j].key; }
      forall i | 0 <= i < |front| ensures front[i].key != last.key && front[i].key !in rows {
        assert added[i].key != added[|front|].key && added[i].key !in rows;
      }
    }
    if AllNew(rows, front) && last.key !in rows && !HasKey(front, last.key) {
      forall i, j | 0 <= i < j < |added| ensures added[i].key != added[j].key {
        assert added[i] == front[i];
        if j < |front| { assert added[j] == front[j]; }
      }
    }
  }

  lemma {:induction false} InsertedExactly(rows: Rows, added: seq<Row>)
    ensures InsertRows(rows, added).Some? <==> AllNew(rows, added)
    ensures InsertRows(rows, added).Some? ==> InsertRows(rows, added).value == UpsertRows(rows, added)
  {
    if added != [] {
      var front, last := added[..|added| - 1], added[|added| - 1];
      assert added == front + [last];
      InsertedExactly(rows, front);
      UpsertedExactly(rows, front);
      AllNewSnoc(rows, front, last);
    }
  }

  /** A mutation is refused exactly when SQLite refuses it or a row to be updated is gone. */
  lemma PlannedAcceptedIff(rows: Rows, planned: Planned)
    ensures ApplyPlanned(rows, planned).Some? <==> Acceptable(rows, planned)
  {
    match planned
    case PlannedInsert(_, row) => InsertedExactly(rows, [row]);
    case PlannedUpdate(_, keys, assignments) =>
      UpdatedExactly(rows, keys, assignments);
      FetchesIff(UpdateRows(rows, keys, assignments), keys);
    case PlannedDelete(_, _) =>
    case PlannedBulk(_, added, _) => InsertedExactly(rows, added);
  }

  lemma PlannedPerforms(rows: Rows, planned: Planned)
    requires ApplyPlanned(rows, planned).Some?
    ensures Performs(rows, planned, ApplyPlanned(rows, planned).value.rows)
  {
    PlannedAcceptedIff(rows, planned);
    match planned
    case PlannedInsert(_, row) =>
      assert [row][..0] == [];
      assert InsertRows(rows, []) == Some(rows);
    case PlannedUpdate(_, keys, assignments) => UpdatedExactly(rows, keys, assignments);
    case PlannedDelete(_, keys) => DeletedExactly(rows, keys);
    case PlannedBulk(_, added, _) =>
      UpsertedExactly(rows, added);
      InsertedExactly(rows, added);
  }

  lemma {:induction false} NewestExists(added: seq<Row>, key: Key)
    requires HasKey(added, key)
    ensures exists i :: 0 <= i < |added| && added[i].key == key && Newest(added, i)
  {
    var front, last := added[..|added| - 1], added[|added| - 1];
    if last.key == key {
      assert Newest(added, |added| - 1);
    } else {
      var k :| 0 <= k < |added| && added[k].key == key;
      assert front[k].key == key;
      NewestExists(front, key);
      var i :| 0 <= i < |front| && front[i].key == key && Newest(front, i);
      assert Newest(added, i) by {
        forall j | i < j < |added| ensures added[j].key != added[i].key {
          if j < |front| { assert added[j] == front[j] && added[i] == front[i]; }
        }
      }
      assert added[i].key == key;
    }
  }

  lemma WrittenOnce(before: Rows, added: seq<Row>, a: Rows, b: Rows)
    requires Written(before, added, a) && Written(before, added, b)
    ensures a == b
  {
    forall key | key in a ensures key in b && a[key] == b[key] {
      if HasKey(added, key) {
        NewestExists(added, key);
        var i :| 0 <= i < |added| && added[i].key == key && Newest(added, i);
        assert a[added[i].key] == added[i].columns == b[added[i].key];
      }
    }
    forall key ensures key in a <==> key in b { }
  }

  lemma PerformsOnce(before: Rows, planned: Planned, a: Rows, b: Rows)
    requires Performs(before, planned, a) && Performs(before, planned, b)
    ensures a == b
  {
    if planned.PlannedBulk? {
      WrittenOnce(before, planned.rows, a, b);
    } else if planned.PlannedUpdate? {
      forall key | key in before ensures a[key] == b[key] { }
    } else if planned.PlannedDelete? {
      forall key ensures key in a <==> key in b { }
      forall key | key in a ensures a[key] == b[key] { }
    }
  }

  /** The rows after a mutation are exactly what it should do, and it fails if that is impossible. */
  lemma PlannedPerformsIff(rows: Rows, planned: Planned, after: Rows)
    ensures Performs(rows, planned, after) <==>
            ApplyPlanned(rows, planned).Some? && ApplyPlanned(rows, planned).value.rows == after
  {
    PlannedAcceptedIff(rows, planned);
    if ApplyPlanned(rows, planned).Some? {
      PlannedPerforms(rows, planned);
      if Performs(rows, planned, after) { PerformsOnce(rows, planned, after, ApplyPlanned(rows, planned).value.rows); }
    }
  }

  // ----- a batch -----

  ghost predicate PerformsOne(before: map<string, Rows>, planned: Planned, after: map<string, Rows>) {
    && planned.table in before && planned.table in after
    && after == before[planned.table := after[planned.table]]
    && Performs(before[planned.table], planned, after[planned.table])
  }

  /** One mutation after another, each on what the ones before it left. */
  ghost predicate PerformsAll(before: map<string, Rows>, batch: seq<Planned>, after: map<string, Rows>) {
    if batch == [] then after == before
    else
      var front, last := batch[..|batch| - 1], batch[|batch| - 1];
      exists middle :: PerformsAll(before, front, middle) && PerformsOne(middle, last, after)
  }

  lemma OneMorePerforms(before: Effect, next: nat, planned: Planned, after: map<string, Rows>)
    ensures PerformsOne(before.tables, planned, after) <==>
            OneMore(before, next, planned).Some? && OneMore(before, next, planned).value.tables == after
  {
    if planned.table in before.tables {
      var rows := before.tables[planned.table];
      if planned.table in after { PlannedPerformsIff(rows, planned, after[planned.table]); }
      if ApplyPlanned(rows, planned).Some? { PlannedPerforms(rows, planned); }
    }
  }

  /** A transaction leaves exactly the tables its mutations should leave, and fails if one of them must. */
  lemma {:induction false} BatchPerformsIff(tables: map<string, Rows>, next: nat, batch: seq<Planned>,
                                            after: map<string, Rows>)
    ensures PerformsAll(tables, batch, after) <==>
            RunBatch(tables, next, batch).Some? && RunBatch(tables, next, batch).value.tables == after
  {
    if batch != [] {
      var front, last := batch[..|batch| - 1], batch[|batch| - 1];
      if RunBatch(tables, next, front).Some? {
        var effect := RunBatch(tables, next, front).value;
        BatchPerformsIff(tables, next, front, effect.tables);
        OneMorePerforms(effect, next, last, after);
      }
      if PerformsAll(tables, batch, after) {
        var middle :| PerformsAll(tables, front, middle) && PerformsOne(middle, last, after);
        BatchPerformsIff(tables, next, front, middle);
      }
    }
  }

  // ----- a call -----

  // The mutations of a call that writes.
  function BatchOf(command: Command): seq<Planned>
    requires command.Mutate? || command.Bulk? || command.Batch?
  {
    match command
    case Mutate(planned, _) => [planned]
    case Bulk(table, rows, upsert, _) => [PlannedBulk(table, rows, upsert)]
    case Batch(batch) => batch
  }

  predicate KeepsTables(steps: seq<Step>) {
    forall step :: step in steps ==> !step.Transact? && !step.Replace? && !step.DropTable?
  }

  lemma {:induction false} KeptTables(s: Db, steps: seq<Step>)
    requires KeepsTables(steps)
    ensures Exec(s, steps).tables == s.tables
  {
    if steps != [] {
      var front, last := steps[..|steps| - 1], steps[|steps| - 1];
      assert steps == front + [last] && last in steps;
      KeptTables(s, front);
    }
  }

  lemma {:induction false} GroupsKeep(s: Db, names: seq<string>, ids: set<nat>)
    ensures KeepsTables(GroupsScript(s, names, ids))
    decreases |names|
  {
    if names != [] { GroupsKeep(Exec(s, GroupScript(s, names[0], ids)), names[1..], ids); }
  }

  lemma ApplyKeeps(s: Db, ids: set<nat>)
    ensures KeepsTables(ApplyScript(s, ids))
  {
    GroupsKeep(s, Names(Keep(s.outbox, ids)), ids);
  }

  lemma FlushKeeps(s: Db)
    ensures KeepsTables(FlushScript(s))
  {
    ApplyKeeps(s, Ids(s.outbox));
  }

  lemma RebuildKeeps(table: string)
    ensures KeepsTables(RebuildScript(table))
  {
    var actions := BuildActions() + SwapActions(PathsOf(table));
    forall step | step in FileSteps(table, actions) ensures step.Files? { }
  }

  lemma {:induction false} RebuildsKeep(tables: seq<string>)
    ensures KeepsTables(RebuildsScript(tables))
  {
    if tables != [] {
      RebuildsKeep(tables[..|tables| - 1]);
      RebuildKeeps(tables[|tables| - 1]);
    }
  }

  lemma RecoverKeeps(s: Db, listed: seq<string>)
    ensures KeepsTables(RecoverScript(s, listed))
  {
    var s1 := Exec(s, RebuildsScript(listed));
    RebuildsKeep(listed);
    ApplyKeeps(s1, Ids(s1.outbox) - s1.deferred);
  }

  lemma StoppedKeeps(steps: seq<Step>, cut: nat, rollback: bool)
    requires KeepsTables(steps)
    ensures KeepsTables(StoppedAt(steps, cut, rollback))
  {
  }

  // One step that may change the tables, with steps around it that do not.
  lemma StoppedAround(s: Db, step: Step, first: seq<Step>, rest: seq<Step>, cut: nat, rollback: bool)
    requires KeepsTables(first) && KeepsTables(rest) && !Installs(step)
    ensures var e := Exec(s, StoppedAt(first + ([step] + rest), cut, rollback));
            e.tables == if cut <= |first| then s.tables else Do(Exec(s, first), step).tables
  {
    if cut <= |first| {
      StoppedBefore(first, [step] + rest, cut, rollback);
      KeptTables(s, StoppedAt(first + ([step] + rest), cut, rollback));
    } else {
      StoppedLater(s, step, first, rest, cut, cut - |first| - 1, rollback);
    }
  }

  lemma StoppedLater(s: Db, step: Step, first: seq<Step>, rest: seq<Step>, cut: nat, late: nat, rollback: bool)
    requires KeepsTables(rest) && cut == |first| + 1 + late
    ensures Exec(s, StoppedAt(first + ([step] + rest), cut, rollback)).tables == Do(Exec(s, first), step).tables
  {
    var done := StoppedAt(rest, late, rollback);
    StoppedAfter(first, step, rest, cut, late, rollback);
    ExecAfter(s, first, step, done);
    StoppedKeeps(rest, late, rollback);
    KeptTables(Do(Exec(s, first), step), done);
  }

  lemma StoppedAfter(first: seq<Step>, step: Step, rest: seq<Step>, cut: nat, late: nat, rollback: bool)
    requires cut == |first| + 1 + late
    ensures StoppedAt(first + ([step] + rest), cut, rollback) == first + ([step] + StoppedAt(rest, late, rollback))
  {
    StoppedBack(first, [step] + rest, 1 + late, rollback);
    StoppedBack([step], rest, late, rollback);
  }

  lemma ExecAfter(s: Db, first: seq<Step>, step: Step, rest: seq<Step>)
    ensures Exec(s, first + ([step] + rest)) == Exec(Do(Exec(s, first), step), rest)
  {
    ExecAppend(s, first, [step] + rest);
    ExecAppend(Exec(s, first), [step], rest);
    ExecOne(Exec(s, first), step);
  }

  lemma StoppedBefore(first: seq<Step>, body: seq<Step>, cut: nat, rollback: bool)
    requires KeepsTables(first) && cut <= |first| && body != [] && !Installs(body[0])
    ensures KeepsTables(StoppedAt(first + body, cut, rollback))
  {
    assert (first + body)[..cut] == first[..cut];
    if cut == |first| { assert (first + body)[cut] == body[0]; }
  }

  // The recovery or flush before a write, and its own steps.
  function Before(s: Db, command: Command, listed: seq<string>): seq<Step> {
    if command.Batch? then FlushScript(s) else RecoverScript(s, listed)
  }

  function Body(s1: Db, command: Command): seq<Step>
    requires command.Mutate? || command.Bulk? || command.Batch?
  {
    match command
    case Mutate(planned, publish) => MutateScript(s1, planned, publish)
    case Bulk(table, rows, upsert, publish) => BulkScript(s1, table, rows, upsert, publish)
    case Batch(batch) => PublishedScript(s1, batch)
  }

  lemma BeforeKeeps(s: Db, command: Command, listed: seq<string>)
    ensures KeepsTables(Before(s, command, listed))
  {
    FlushKeeps(s);
    RecoverKeeps(s, listed);
  }

  lemma WriteShape(s: Db, command: Command, listed: seq<string>)
    requires command.Mutate? || command.Bulk? || command.Batch?
    ensures var first := Before(s, command, listed);
            Script(s, command, listed) == first + Body(Exec(s, first), command)
  {
    match command
    case Mutate(planned, publish) => MutateShape(s, planned, publish, listed);
    case Bulk(table, rows, upsert, publish) => BulkShape(s, table, rows, upsert, publish, listed);
    case Batch(batch) => BatchShape(s, batch, listed);
  }

  // A write without rows has no transaction.
  predicate HasRows(command: Command)
    requires command.Mutate? || command.Bulk? || command.Batch?
  {
    command.Bulk? ==> command.rows != []
  }

  // The steps after the transaction; all steps if there is none.
  lemma PublishedBody(s1: Db, batch: seq<Planned>) returns (rest: seq<Step>)
    ensures KeepsTables(rest)
    ensures PublishedScript(s1, batch) ==
            if RunBatch(s1.tables, s1.next, batch).Some? then [Transact(batch)] + rest else rest
  {
    var tx := TransactScript(s1, batch);
    rest := ApplyScript(Exec(s1, tx), Ids(AddedRecords(s1, batch)));
    ApplyKeeps(Exec(s1, tx), Ids(AddedRecords(s1, batch)));
    assert [] + rest == rest;
  }

  lemma DeferredBody(s1: Db, planned: Planned) returns (rest: seq<Step>)
    ensures KeepsTables(rest)
    ensures DeferredScript(s1, planned) ==
            if RunBatch(s1.tables, s1.next, [planned]).Some? then [Transact([planned])] + rest else rest
  {
    var added := AddedRecords(s1, [planned]);
    if added == [] {
      rest := [];
      assert [Transact([planned])] + [] == [Transact([planned])];
    } else {
      var tx := TransactScript(s1, [planned]);
      var ops := if planned.PlannedBulk? then StageOps(Upserts(planned.rows))
                 else RecordOps(added, RowsOf(Exec(s1, tx), planned.table));
      rest := Writes(planned.table, ops) + [Defer(added[0].id)];
      Regroup(tx, Writes(planned.table, ops), [Defer(added[0].id)]);
    }
  }

  lemma BulkBody(s1: Db, planned: Planned, publish: bool) returns (rest: seq<Step>)
    requires planned.PlannedBulk?
    ensures KeepsTables(rest)
    ensures BulkScript(s1, planned.table, planned.rows, planned.upsert, publish) ==
            if planned.rows != [] && RunBatch(s1.tables, s1.next, [planned]).Some? then [Transact([planned])] + rest
            else rest
  {
    var body := BulkScript(s1, planned.table, planned.rows, planned.upsert, publish);
    FlushKeeps(s1);
    if planned.rows == [] || RunBatch(s1.tables, s1.next, [planned]).None? {
      rest := body;
    } else {
      var write := DeferredScript(s1, planned);
      var flush := if publish then FlushScript(Exec(s1, write)) else [];
      FlushKeeps(Exec(s1, write));
      var after := DeferredBody(s1, planned);
      rest := after + flush;
      Regroup([Transact([planned])], after, flush);
    }
  }

  lemma BodyTransacts(s1: Db, command: Command) returns (rest: seq<Step>)
    requires command.Mutate? || command.Bulk? || command.Batch?
    ensures KeepsTables(rest)
    ensures Body(s1, command) ==
            if HasRows(command) && RunBatch(s1.tables, s1.next, BatchOf(command)).Some?
            then [Transact(BatchOf(command))] + rest else rest
  {
    match command
    case Mutate(planned, publish) =>
      if publish { rest := PublishedBody(s1, [planned]); } else { rest := DeferredBody(s1, planned); }
    case Bulk(table, rows, upsert, publish) => rest := BulkBody(s1, PlannedBulk(table, rows, upsert), publish);
    case Batch(batch) => rest := PublishedBody(s1, batch);
  }

  /** Wherever a call that writes stops, the tables are as before or as its mutations should leave them;
      and they are the latter when a call that is not refused is complete. */
  lemma CallTables(s: Db, command: Command, listed: seq<string>, e: Db, ok: bool)
    requires command.Mutate? || command.Bulk? || command.Batch?
    requires Follows(s, Script(s, command, listed), e, ok)
    ensures e.tables == s.tables || PerformsAll(s.tables, BatchOf(command), e.tables)
    ensures ok && HasRows(command) && (exists after :: PerformsAll(s.tables, BatchOf(command), after)) ==>
              PerformsAll(s.tables, BatchOf(command), e.tables)
  {
    var script, batch := Script(s, command, listed), BatchOf(command);
    var cut, rollback := Stopped(s, script, e, ok);
    var first := Before(s, command, listed);
    var s1 := Exec(s, first);
    BeforeKeeps(s, command, listed);
    KeptTables(s, first);
    WriteShape(s, command, listed);
    var rest := BodyTransacts(s1, command);
    if after :| PerformsAll(s.tables, batch, after) { BatchPerformsIff(s.tables, s1.next, batch, after); }
    if HasRows(command) && RunBatch(s1.tables, s1.next, batch).Some? {
      StoppedAround(s, Transact(batch), first, rest, cut, rollback);
      BatchPerformsIff(s.tables, s1.next, batch, RunBatch(s1.tables, s1.next, batch).value.tables);
    } else {
      StoppedKeeps(first + rest, cut, rollback);
      KeptTables(s, StoppedAt(first + rest, cut, rollback));
    }
  }

  lemma Stopped(s: Db, script: seq<Step>, e: Db, ok: bool) returns (cut: nat, rollback: bool)
    requires Follows(s, script, e, ok)
    ensures e == Exec(s, StoppedAt(script, cut, rollback)) && (ok ==> cut == |script|)
  {
    if ok {
      cut, rollback := |script|, false;
    } else {
      cut, rollback :| e == Exec(s, StoppedAt(script, cut, rollback));
    }
  }

  lemma OneOfBatch(before: map<string, Rows>, planned: Planned, after: map<string, Rows>)
    ensures PerformsAll(before, [planned], after) <==> PerformsOne(before, planned, after)
  {
    assert [planned][..0] == [];
    assert PerformsAll(before, [], before);
    if PerformsAll(before, [planned], after) {
      var middle :| PerformsAll(before, [], middle) && PerformsOne(middle, planned, after);
    }
  }

  /** The same for a method that went on to its transaction from the state its recovery left. */
  lemma CallDone(s: Db, middle: Db, e: Db, command: Command, listed: seq<string>, first: bool, ok: bool)
    requires command.Mutate? || command.Bulk? || command.Batch?
    requires Follows(s, Before(s, command, listed), middle, first) && Follows(s, Script(s, command, listed), e, ok)
    requires ok && HasRows(command) ==> first && RunBatch(middle.tables, middle.next, BatchOf(command)).Some?
    ensures e.tables == s.tables || PerformsAll(s.tables, BatchOf(command), e.tables)
    ensures ok && HasRows(command) ==> PerformsAll(s.tables, BatchOf(command), e.tables)
  {
    CallTables(s, command, listed, e, ok);
    if ok && HasRows(command) {
      var batch := BatchOf(command);
      BeforeKeeps(s, command, listed);
      KeptTables(s, Before(s, command, listed));
      BatchPerformsIff(s.tables, middle.next, batch, RunBatch(s.tables, middle.next, batch).value.tables);
    }
  }

  /** For a call of one mutation. */
  lemma MutationDone(s: Db, middle: Db, e: Db, command: Command, listed: seq<string>, first: bool, ok: bool)
    requires command.Mutate? || command.Bulk?
    requires Follows(s, RecoverScript(s, listed), middle, first) && Follows(s, Script(s, command, listed), e, ok)
    requires ok && HasRows(command) ==> first && RunBatch(middle.tables, middle.next, BatchOf(command)).Some?
    ensures e.tables == s.tables || PerformsOne(s.tables, BatchOf(command)[0], e.tables)
    ensures ok && HasRows(command) ==> PerformsOne(s.tables, BatchOf(command)[0], e.tables)
  {
    CallDone(s, middle, e, command, listed, first, ok);
    OneOfBatch(s.tables, BatchOf(command)[0], e.tables);
  }

  // ----- the other calls -----

  /** Flushing and recovering leave the tables alone. */
  lemma KeptByCall(s: Db, script: seq<Step>, e: Db, ok: bool)
    requires KeepsTables(script) && Follows(s, script, e, ok)
    ensures e.tables == s.tables
  {
    var cut, rollback := Stopped(s, script, e, ok);
    StoppedKeeps(script, cut, rollback);
    KeptTables(s, StoppedAt(script, cut, rollback));
  }

  lemma ChangedByCall(s: Db, step: Step, first: seq<Step>, rest: seq<Step>, e: Db, ok: bool)
    requires KeepsTables(first) && KeepsTables(rest) && !Installs(step) && Follows(s, first + ([step] + rest), e, ok)
    ensures e.tables == s.tables || e.tables == Do(Exec(s, first), step).tables
    ensures ok ==> e.tables == Do(Exec(s, first), step).tables
  {
    var cut, rollback := Stopped(s, first + ([step] + rest), e, ok);
    StoppedAround(s, step, first, rest, cut, rollback);
  }

  /** Replacing a table changes its rows and nothing else. */
  lemma ReplacedByCall(s: Db, table: string, contents: Rows, e: Db, ok: bool)
    requires Follows(s, Script(s, Rebuild(table, contents), []), e, ok)
    ensures e.tables == s.tables || e.tables == s.tables[table := contents]
    ensures ok ==> e.tables == s.tables[table := contents]
  {
    ReplaceShape(s, table, contents, []);
    RebuildKeeps(table);
    FlushKeeps(s);
    KeptTables(s, FlushScript(s));
    ChangedByCall(s, Replace(table, contents), FlushScript(s), RebuildScript(table), e, ok);
  }

  /** Dropping a table removes it and nothing else. */
  lemma RemovedByCall(s: Db, table: string, e: Db, ok: bool)
    requires Follows(s, Script(s, Remove(table), []), e, ok)
    ensures e.tables == s.tables || e.tables == s.tables - {table}
    ensures ok ==> e.tables == s.tables - {table}
  {
    RemoveShape(s, table, []);
    FlushKeeps(s);
    KeptTables(s, FlushScript(s));
    var s1 := Exec(s, FlushScript(s));
    if table in s.tables {
      var rest := DirectorySteps(s1, table);
      ChangedByCall(s, DropTable(table), FlushScript(s), rest, e, ok);
    } else {
      assert FlushScript(s) + [] == FlushScript(s);
      KeptByCall(s, FlushScript(s), e, ok);
    }
  }

  lemma DirectorySteps(s1: Db, table: string) returns (rest: seq<Step>)
    requires table in s1.tables
    ensures KeepsTables(rest) && RemoveScript(s1, table) == [DropTable(table)] + rest
  {
    rest := [CloseIndex(table)] + FileSteps(table, [Tear(Final), Clear(Final)]);
    Regroup([DropTable(table)], [CloseIndex(table)], FileSteps(table, [Tear(Final), Clear(Final)]));
    assert [DropTable(table), CloseIndex(table)] == [DropTable(table)] + [CloseIndex(table)];
  }
}
