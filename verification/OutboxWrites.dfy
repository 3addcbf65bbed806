/** What the writes and the other calls of the database keep, step by step. */
module OutboxWrites {
  import opened Wrappers
  import opened Outbox
  import opened OutboxFacts
  import opened OutboxFiles
  import opened OutboxInvariant
  import opened OutboxScripts

  // ----- writes -----

  lemma SingleRecord(s: Db, planned: Planned)
    requires RunBatch(s.tables, s.next, [planned]).Some?
    ensures planned.table in s.tables && ApplyPlanned(s.tables[planned.table], planned).Some?
    ensures var change := ApplyPlanned(s.tables[planned.table], planned).value;
            && Do(s, Transact([planned])).tables == s.tables[planned.table := change.rows]
            && AddedRecords(s, [planned]) ==
               if change.operations == [] then [] else [Record(s.next, planned.table, change.operations)]
  {
    assert [planned][..0] == [];
    assert RunBatch(s.tables, s.next, []) == Some(Effect(s.tables, []));
  }

  function Queued(s1: Db, planned: Planned, added: seq<Record>): seq<WriterOp> {
    if planned.PlannedBulk? then StageOps(Upserts(planned.rows))
    else RecordOps(added, RowsOf(s1, planned.table))
  }

  lemma BulkRecord(s: Db, planned: Planned, key: Key)
    requires planned.PlannedBulk? && RunBatch(s.tables, s.next, [planned]).Some?
    ensures var after := Do(s, Transact([planned]));
            match Last(Upserts(planned.rows), key)
            case Some(op) => op.Upsert? && op.Target() == key &&
              [op.row.columns] == Sql(RowsOf(after, planned.table), key) &&
                             Touches(AddedRecords(s, [planned]), planned.table, key)
            case None => !Touches(AddedRecords(s, [planned]), planned.table, key)
  {
    SingleRecord(s, planned);
    var rows := s.tables[planned.table];
    RefreshesLikeUpserts(planned.rows, key);
    LastTargets(Upserts(planned.rows), key);
    if planned.upsert { UpsertedRows(rows, planned.rows, key); } else { InsertedRows(rows, planned.rows, key); }
    var record := Record(s.next, planned.table, Refreshes(planned.rows));
    assert [record][..0] == [];
    assert LastIn([], planned.table, key) == None;
  }

  lemma QueuedTargets(s: Db, planned: Planned, op: WriterOp)
    requires RunBatch(s.tables, s.next, [planned]).Some?
    requires op in Queued(Do(s, Transact([planned])), planned, AddedRecords(s, [planned]))
    ensures Touches(AddedRecords(s, [planned]), planned.table, op.Target())
  {
    SingleRecord(s, planned);
    if planned.PlannedBulk? {
      StageTargets(Upserts(planned.rows), op);
      BulkRecord(s, planned, op.Target());
    } else {
      RecordTargets(AddedRecords(s, [planned]), planned.table, RowsOf(Do(s, Transact([planned])), planned.table), op);
    }
  }

  lemma QueuedEffect(s: Db, planned: Planned, documents: seq<Row>, key: Key)
    requires RunBatch(s.tables, s.next, [planned]).Some?
    ensures var s1 := Do(s, Transact([planned]));
            var added := AddedRecords(s, [planned]);
            var rows := RowsOf(s1, planned.table);
            Found(ApplyWriter(documents, Queued(s1, planned, added)), key) ==
            match Newest(added, planned.table, key, rows)
            case Some(value) => if planned.PlannedBulk? then Sql(rows, key) else value
            case None => Found(documents, key)
  {
    SingleRecord(s, planned);
    if planned.PlannedBulk? {
      BulkRecord(s, planned, key);
      StageEffect(documents, Upserts(planned.rows), key);
    } else {
      RecordsEffect(documents, AddedRecords(s, [planned]), planned.table,
                    RowsOf(Do(s, Transact([planned])), planned.table), key);
    }
  }

  /** After queueing, a commit of the writer would publish the rows the transaction left. */
  lemma QueuedIsLive(s: Db, planned: Planned, e: Db)
    requires Holds(s, Live) && Unstaged(s) == [] && RunBatch(s.tables, s.next, [planned]).Some?
    requires var s1 := Do(s, Transact([planned]));
             && Holds(s1, Live) && e == s1.(writers := e.writers)
             && Buffered(e, planned.table) ==
                Buffered(s1, planned.table) + Queued(s1, planned, AddedRecords(s, [planned]))
    ensures FullyStaged(e, planned.table)
  {
    var s1, table := Do(s, Transact([planned])), planned.table;
    SingleRecord(s, planned);
    TransactOutbox(s, [planned]);
    if table !in s1.dirty {
      forall key
        ensures Found(ApplyWriter(Documents(e, table), Buffered(e, table)), key) == Sql(RowsOf(e, table), key)
      {
        assert KeyOk(ViewOf(s1, table, key), Live);
        var queued := Queued(s1, planned, AddedRecords(s, [planned]));
        ApplyWriterAppend(Documents(s1, table), Buffered(s1, table), queued);
        QueuedEffect(s, planned, ApplyWriter(Documents(s1, table), Buffered(s1, table)), key);
      }
    }
  }

  lemma TransactGood(s: Db, batch: seq<Planned>, level: Level)
    requires Holds(s, level) && Unstaged(s) == [] && (level == Strict ==> Unovertaken(s, batch))
    ensures Good(s, TransactScript(s, batch), level)
    ensures var e := Exec(s, TransactScript(s, batch));
            e == if RunBatch(s.tables, s.next, batch).None? then s else Do(s, Transact(batch))
  {
    if RunBatch(s.tables, s.next, batch).Some? {
      TransactStep(s, batch, level);
      GoodOne(s, Transact(batch), level);
    }
  }

  lemma QueueGood(s: Db, planned: Planned, level: Level)
    requires Holds(s, level) && Unstaged(s) == [] && RunBatch(s.tables, s.next, [planned]).Some?
    requires Holds(Do(s, Transact([planned])), level)
    ensures var s1 := Do(s, Transact([planned]));
            var writes := Writes(planned.table, Queued(s1, planned, AddedRecords(s, [planned])));
            var e := Exec(s1, writes);
            && Good(s1, writes, level) && FullyStaged(e, planned.table) && e == s1.(writers := e.writers)
  {
    var s1 := Do(s, Transact([planned]));
    var queued := Queued(s1, planned, AddedRecords(s, [planned]));
    SingleRecord(s, planned);
    TransactOutbox(s, [planned]);
    forall op | op in queued ensures Touches(Unstaged(s1), planned.table, op.Target()) {
      QueuedTargets(s, planned, op);
    }
    WritesGood(s1, planned.table, queued, level);
    WritesEffect(s1, planned.table, queued);
    HoldsWeaker(s, level, Live);
    HoldsWeaker(s1, level, Live);
    QueuedIsLive(s, planned, Exec(s1, Writes(planned.table, queued)));
  }

  lemma NewRecordIsOnlyUnstaged(s: Db, planned: Planned, e: Db)
    requires Tidy(s) && Unstaged(s) == [] && RunBatch(s.tables, s.next, [planned]).Some?
    requires AddedRecords(s, [planned]) != []
    requires e == Do(s, Transact([planned])).(writers := e.writers)
    ensures OnlyUnstaged(e, AddedRecords(s, [planned])[0]) && AddedRecords(s, [planned])[0].table == planned.table
  {
    SingleRecord(s, planned);
    forall record | record in s.outbox ensures record.id in s.staged { DropMembers(s.outbox, s.staged, record); }
  }

  lemma LevelOfDefer(s: Db, record: Record, level: Level)
    requires Holds(s, level) && OnlyUnstaged(s, record) && FullyStaged(s, record.table)
    ensures var after := Do(s, Defer(record.id));
            && Holds(after, level) && Publishes(s, after) && Unstaged(after) == []
            && (level != Live ==> Holds(after, Strict))
  {
    if level == Strict {
      HoldsWeaker(s, Strict, Crashable);
      DeferStep(s, record, Crashable);
    } else {
      DeferStep(s, record, level);
    }
  }

  /** A deferred write never endangers a crash, and once it is complete it depends on no guard. */
  lemma DeferredGood(s: Db, planned: Planned, level: Level)
    requires Holds(s, level) && Unstaged(s) == [] && (level == Strict ==> Unovertaken(s, [planned]))
    ensures var script := DeferredScript(s, planned); var e := Exec(s, script);
            && Good(s, script, level) && Unstaged(e) == []
            && (level != Live && AddedRecords(s, [planned]) != [] ==> Holds(e, Strict))
  {
    var added := AddedRecords(s, [planned]);
    TransactGood(s, [planned], level);
    if RunBatch(s.tables, s.next, [planned]).Some? {
      var s1 := Do(s, Transact([planned]));
      GoodEnds(s, TransactScript(s, [planned]), level);
      TransactOutbox(s, [planned]);
      if added != [] {
        var writes := Writes(planned.table, Queued(s1, planned, added));
        QueueGood(s, planned, level);
        Chain(s, [Transact([planned])], writes, level);
        var s2 := Exec(s1, writes);
        GoodEnds(s1, writes, level);
        NewRecordIsOnlyUnstaged(s, planned, s2);
        LevelOfDefer(s2, added[0], level);
        Snoc(s, [Transact([planned])] + writes, Defer(added[0].id), level);
      }
    }
  }

  lemma AddedSelects(s: Db, batch: seq<Planned>, level: Level)
    requires Tidy(s) && Unstaged(s) == [] && RunBatch(s.tables, s.next, batch).Some? && level != Crashable
    ensures Selects(Do(s, Transact(batch)), Ids(AddedRecords(s, batch)), level)
  {
    var after, added := Do(s, Transact(batch)), AddedRecords(s, batch);
    BatchIsRecorded(s.tables, s.next, batch);
    forall id | id in Ids(added) ensures id >= s.next {
      var other :| other in added && other.id == id;
      var i :| 0 <= i < |added| && added[i] == other;
    }
    forall record | record in after.outbox ensures record.id in Ids(added) <==> record.id !in after.staged {
      if record in s.outbox {
        DropMembers(s.outbox, s.staged, record);
      } else {
        TransactMembers(s, batch, record);
      }
    }
  }

  lemma PublishedGood(s: Db, batch: seq<Planned>, level: Level)
    requires Holds(s, level) && Unstaged(s) == [] && level != Crashable && (level == Strict ==> Unovertaken(s, batch))
    ensures Good(s, PublishedScript(s, batch), level)
  {
    TransactGood(s, batch, level);
    var tx := TransactScript(s, batch);
    var s1 := Exec(s, tx);
    GoodEnds(s, tx, level);
    if RunBatch(s.tables, s.next, batch).Some? {
      AddedSelects(s, batch, level);
    } else {
      forall record | record in s.outbox ensures record.id in s.staged { DropMembers(s.outbox, s.staged, record); }
    }
    ApplyGood(s1, Ids(AddedRecords(s, batch)), level);
    Chain(s, tx, ApplyScript(s1, Ids(AddedRecords(s, batch))), level);
  }

  // ----- calls -----

  /** The state in which a call's own transaction runs, after it has recovered. */
  function Recovered(s: Db, listed: seq<string>): Db {
    Exec(s, RecoverScript(s, listed))
  }

  lemma UnovertakenAfterFlush(s: Db, batch: seq<Planned>)
    requires s.outbox == []
    ensures Unovertaken(s, batch) && Unstaged(s) == []
  {
  }

  lemma BatchGood(s: Db, batch: seq<Planned>, level: Level)
    requires Holds(s, level) && level != Crashable
    ensures Good(s, FlushScript(s) + PublishedScript(Exec(s, FlushScript(s)), batch), level)
  {
    FlushGood(s, level);
    var s1 := Exec(s, FlushScript(s));
    GoodEnds(s, FlushScript(s), level);
    UnovertakenAfterFlush(s1, batch);
    PublishedGood(s1, batch, level);
    Chain(s, FlushScript(s), PublishedScript(s1, batch), level);
  }

  lemma RebuildCallGood(s: Db, table: string, contents: Rows, level: Level)
    requires Holds(s, level) && Apart(s.tables.Keys + {table})
    ensures Good(s, FlushScript(s) + ([Replace(table, contents)] + RebuildScript(table)), level)
  {
    FlushGood(s, level);
    var s1 := Exec(s, FlushScript(s));
    GoodEnds(s, FlushScript(s), level);
    ReplaceStep(s1, table, contents, level);
    GoodOne(s1, Replace(table, contents), level);
    RebuildGood(Do(s1, Replace(table, contents)), table, level);
    Chain(s1, [Replace(table, contents)], RebuildScript(table), level);
    Chain(s, FlushScript(s), [Replace(table, contents)] + RebuildScript(table), level);
  }

  lemma RemoveGood(s: Db, table: string, level: Level)
    requires Holds(s, level) && s.outbox == []
    ensures Good(s, [DropTable(table), CloseIndex(table)] + FileSteps(table, [Tear(Final), Clear(Final)]), level)
  {
    DropTableStep(s, table, level);
    var s1 := Do(s, DropTable(table));
    DirtyTableStep(s1, Do(s1, CloseIndex(table)), table, level);
    GoodTwo(s, DropTable(table), CloseIndex(table), level);
    RemovalSpares(s1.tables.Keys, table);
    FileStepsGood(Do(s1, CloseIndex(table)), table, [Tear(Final), Clear(Final)], level);
    Chain(s, [DropTable(table), CloseIndex(table)], FileSteps(table, [Tear(Final), Clear(Final)]), level);
  }

  // Nothing happens when there is no such table.
  lemma RemoveBody(s: Db, table: string, level: Level)
    requires Holds(s, level) && s.outbox == []
    ensures Good(s, RemoveScript(s, table), level)
  {
    if table in s.tables { RemoveGood(s, table, level); } else { GoodNone(s, level); }
  }

  lemma RemoveCallGood(s: Db, table: string, level: Level)
    requires Holds(s, level)
    ensures Good(s, Script(s, Remove(table), []), level)
  {
    FlushGood(s, level);
    var s1 := Exec(s, FlushScript(s));
    GoodEnds(s, FlushScript(s), level);
    var body := RemoveScript(s1, table);
    RemoveBody(s1, table, level);
    Chain(s, FlushScript(s), body, level);
    RemoveShape(s, table, []);
  }

  lemma AfterRecover(s: Db, listed: seq<string>, body: seq<Step>, level: Level)
    requires Holds(s, level) && level != Crashable && Lists(listed, s.dirty)
    requires Good(Recovered(s, listed), body, level)
    ensures Good(s, RecoverScript(s, listed) + body, level)
  {
    RecoverGood(s, listed, level);
    Chain(s, RecoverScript(s, listed), body, level);
  }

  lemma RecoveredHolds(s: Db, listed: seq<string>, level: Level)
    requires Holds(s, level) && level != Crashable && Lists(listed, s.dirty)
    ensures Holds(Recovered(s, listed), level) && Unstaged(Recovered(s, listed)) == []
  {
    RecoverGood(s, listed, level);
    GoodEnds(s, RecoverScript(s, listed), level);
  }

  // Calls whose own steps are safe at every level the recovery before them reaches.
  lemma MutateBody(s1: Db, planned: Planned, publish: bool, level: Level)
    requires Holds(s1, level) && Unstaged(s1) == [] && level != Crashable
    requires level == Strict ==> Unovertaken(s1, [planned])
    ensures Good(s1, MutateScript(s1, planned, publish), level)
  {
    if publish { PublishedGood(s1, [planned], level); } else { DeferredGood(s1, planned, level); }
  }

  lemma MutateGood(s: Db, planned: Planned, publish: bool, listed: seq<string>, level: Level)
    requires Holds(s, level) && level != Crashable && Lists(listed, s.dirty)
    requires level == Strict ==> Unovertaken(Recovered(s, listed), [planned])
    ensures Good(s, Script(s, Mutate(planned, publish), listed), level)
  {
    RecoveredHolds(s, listed, level);
    MutateBody(Recovered(s, listed), planned, publish, level);
    var body := MutateScript(Recovered(s, listed), planned, publish);
    AfterRecover(s, listed, body, level);
    MutateShape(s, planned, publish, listed);
  }

  lemma BulkBody(s1: Db, table: string, rows: seq<Row>, upsert: bool, publish: bool, level: Level)
    requires Holds(s1, level) && Unstaged(s1) == [] && level != Crashable
    requires level == Strict ==> Unovertaken(s1, [PlannedBulk(table, rows, upsert)])
    ensures Good(s1, BulkScript(s1, table, rows, upsert, publish), level)
  {
    var planned := PlannedBulk(table, rows, upsert);
    if rows == [] {
      if publish { FlushGood(s1, level); }
    } else if TransactScript(s1, [planned]) != [] {
      DeferredGood(s1, planned, level);
      var write := DeferredScript(s1, planned);
      if publish {
        GoodEnds(s1, write, level);
        FlushGood(Exec(s1, write), level);
        Chain(s1, write, FlushScript(Exec(s1, write)), level);
      } else {
        assert write + [] == write;
      }
    }
  }

  lemma BulkGood(s: Db, table: string, rows: seq<Row>, upsert: bool, publish: bool, listed: seq<string>, level: Level)
    requires Holds(s, level) && level != Crashable && Lists(listed, s.dirty)
    requires level == Strict ==> Unovertaken(Recovered(s, listed), [PlannedBulk(table, rows, upsert)])
    ensures Good(s, Script(s, Bulk(table, rows, upsert, publish), listed), level)
  {
    var s1 := Recovered(s, listed);
    RecoveredHolds(s, listed, level);
    BulkBody(s1, table, rows, upsert, publish, level);
    var body := BulkScript(s1, table, rows, upsert, publish);
    AfterRecover(s, listed, body, level);
    BulkShape(s, table, rows, upsert, publish, listed);
  }

  // ----- deferred writes without a guard -----

  /** A transaction that records nothing changes nothing. */
  lemma NothingRecorded(s: Db, planned: Planned)
    requires Holds(s, Strict) && Unstaged(s) == [] && AddedRecords(s, [planned]) == []
    ensures Holds(Exec(s, DeferredScript(s, planned)), Strict)
  {
    if RunBatch(s.tables, s.next, [planned]).Some? {
      assert Unovertaken(s, [planned]) by {
        forall table, key ensures !Touches([], table, key) { }
      }
      TransactStep(s, [planned], Strict);
      GoodOne(s, Transact([planned]), Strict);
    }
  }

  /** Without any guard, a deferred write stays crashable throughout and ends at the highest level. */
  lemma DeferredCrashable(s: Db, planned: Planned)
    requires Holds(s, Strict) && Unstaged(s) == []
    ensures Good(s, DeferredScript(s, planned), Crashable) && Holds(Exec(s, DeferredScript(s, planned)), Strict)
  {
    HoldsWeaker(s, Strict, Crashable);
    DeferredGood(s, planned, Crashable);
    if AddedRecords(s, [planned]) == [] {
      NothingRecorded(s, planned);
    }
  }

  lemma FlushAfter(s: Db, before: seq<Step>)
    requires Good(s, before, Crashable) && Holds(Exec(s, before), Strict)
    ensures var script := before + FlushScript(Exec(s, before));
            Good(s, script, Crashable) && Holds(Exec(s, script), Strict)
  {
    var s1 := Exec(s, before);
    FlushGood(s1, Strict);
    GoodEnds(s1, FlushScript(s1), Strict);
    GoodWeaker(s1, FlushScript(s1), Strict, Crashable);
    Chain(s, before, FlushScript(s1), Crashable);
  }

  lemma BulkBodyCrashable(s1: Db, table: string, rows: seq<Row>, upsert: bool, publish: bool)
    requires Holds(s1, Strict) && Unstaged(s1) == []
    ensures var script := BulkScript(s1, table, rows, upsert, publish);
            Good(s1, script, Crashable) && Holds(Exec(s1, script), Strict)
  {
    var planned := PlannedBulk(table, rows, upsert);
    HoldsWeaker(s1, Strict, Crashable);
    if rows == [] {
      if publish { FlushAfter(s1, []); assert [] + FlushScript(s1) == FlushScript(s1); }
    } else if TransactScript(s1, [planned]) != [] {
      DeferredCrashable(s1, planned);
      var write := DeferredScript(s1, planned);
      if publish { FlushAfter(s1, write); } else { assert write + [] == write; }
    }
  }

  lemma AfterRecoverCrashable(s: Db, listed: seq<string>, body: seq<Step>)
    requires Holds(s, Strict) && Lists(listed, s.dirty)
    requires Good(Recovered(s, listed), body, Crashable) && Holds(Exec(Recovered(s, listed), body), Strict)
    ensures var script := RecoverScript(s, listed) + body;
            Good(s, script, Crashable) && Holds(Exec(s, script), Strict)
  {
    RecoverGood(s, listed, Strict);
    GoodWeaker(s, RecoverScript(s, listed), Strict, Crashable);
    Chain(s, RecoverScript(s, listed), body, Crashable);
  }

  lemma UnguardedCall(s: Db, command: Command, listed: seq<string>)
    requires Holds(s, Strict) && Lists(listed, s.dirty)
    requires command.Bulk? || (command.Mutate? && !command.publish)
    ensures var script := Script(s, command, listed);
            Good(s, script, Crashable) && Holds(Exec(s, script), Strict)
  {
    var s1 := Recovered(s, listed);
    RecoveredHolds(s, listed, Strict);
    match command
    case Mutate(planned, _) =>
      DeferredCrashable(s1, planned);
      AfterRecoverCrashable(s, listed, DeferredScript(s1, planned));
      MutateShape(s, planned, false, listed);
    case Bulk(table, rows, upsert, publish) =>
      BulkBodyCrashable(s1, table, rows, upsert, publish);
      AfterRecoverCrashable(s, listed, BulkScript(s1, table, rows, upsert, publish));
      BulkShape(s, table, rows, upsert, publish, listed);
  }

  /** A table may only be created under a name whose directories are apart from those of the others. */
  ghost predicate Named(s: Db, command: Command) {
    command.Rebuild? ==> Apart(s.tables.Keys + {command.table})
  }

  /** As long as the process lives no call, complete or cut short, needs any guard. */
  lemma CallKeepsLive(s: Db, command: Command, listed: seq<string>)
    requires Holds(s, Live) && WellFormed(command) && Lists(listed, s.dirty) && Named(s, command)
    ensures Good(s, Script(s, command, listed), Live)
  {
    match command
    case Read => RecoverGood(s, listed, Live);
    case Flush => FlushGood(s, Live);
    case Mutate(planned, publish) => MutateGood(s, planned, publish, listed, Live);
    case Bulk(table, rows, upsert, publish) => BulkGood(s, table, rows, upsert, publish, listed, Live);
    case Batch(batch) => BatchGood(s, batch, Live);
    case Rebuild(table, contents) => RebuildCallGood(s, table, contents, Live);
    case Remove(table) => RemoveCallGood(s, table, Live);
  }
}
