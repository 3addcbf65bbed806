/** The guard of a write: it is exactly the condition under which the next recovery, or a reopening
    after a crash, still finds SQLite's rows on disk. */
module OutboxGuards {
  import opened Wrappers
  import opened Outbox
  import opened OutboxFacts
  import opened OutboxInvariant
  import opened OutboxScripts
  import opened OutboxRollback
  import opened OutboxWrites
  import opened OutboxStops
  import opened OutboxRuns
  import opened OutboxTheorems

  // ----- a record that is published alone -----

  // The operation that overtakes `key` stays last in the outbox, with the value of the older row.
  lemma OvertakenValue(s1: Db, rows: Rows, table: string, key: Key)
    requires Holds(s1, Strict) && table in s1.tables && !KeyUnovertaken(s1, table, key, rows)
    ensures Newest(Deferred(s1), table, key, rows) == Some(Sql(s1.tables[table], key))
    ensures Sql(rows, key) != Sql(s1.tables[table], key)
  {
    assert KeyOk(ViewOf(s1, table, key), Strict);
  }

  // A write has committed its transaction, and its record has been published and deleted alone.
  ghost predicate PublishedAlone(s1: Db, planned: Planned, e: Db) {
    && RunBatch(s1.tables, s1.next, [planned]).Some?
    && e.outbox == s1.outbox && e.tables == Do(s1, Transact([planned])).tables
  }

  /** A key whose deferred record was overtaken: replaying the outbox makes the index fall back to the
      row the key had before that write. */
  lemma OvertakenKeyReverts(s1: Db, planned: Planned, e: Db, table: string, key: Key)
    requires Holds(s1, Strict) && Unstaged(s1) == [] && PublishedAlone(s1, planned, e)
    requires table in s1.tables && !KeyUnovertaken(s1, table, key, RowsOf(Do(s1, Transact([planned])), table))
    ensures table in e.tables
    ensures Found(Replayed(e, table), key) == Sql(s1.tables[table], key) != Sql(e.tables[table], key)
  {
    BatchIsRecorded(s1.tables, s1.next, [planned]);
    AllDeferred(s1);
    OvertakenValue(s1, RowsOf(e, table), table, key);
    NewestIsReplayed(e, table, key, Sql(s1.tables[table], key));
  }

  lemma AllDeferred(s: Db)
    requires Tidy(s) && Unstaged(s) == []
    ensures Deferred(s) == s.outbox
  {
    OutboxSplits(s);
  }

  lemma NewestIsReplayed(e: Db, table: string, key: Key, value: seq<Columns>)
    requires table in e.tables && Newest(e.outbox, table, key, RowsOf(e, table)) == Some(value)
    ensures Found(Replayed(e, table), key) == value
  {
    ReplayedKey(e, table, key);
  }

  lemma OvertakingIsFatal(s1: Db, planned: Planned, e: Db)
    requires Holds(s1, Strict) && Unstaged(s1) == [] && PublishedAlone(s1, planned, e) && !Unovertaken(s1, [planned])
    ensures !Recoverable(e)
  {
    var effect := RunBatch(s1.tables, s1.next, [planned]).value;
    var table, key :| table in s1.tables && table in effect.tables && Touches(effect.records, table, key) &&
                      !KeyUnovertaken(s1, table, key, effect.tables[table]);
    OvertakenKeyReverts(s1, planned, e, table, key);
  }

  lemma PublishedEffect(s1: Db, batch: seq<Planned>)
    requires Holds(s1, Live) && Unstaged(s1) == [] && RunBatch(s1.tables, s1.next, batch).Some?
    ensures var s2 := Do(s1, Transact(batch)); var e := Exec(s1, PublishedScript(s1, batch));
            Applied(s2, e, Ids(AddedRecords(s1, batch))) && Holds(e, Live)
  {
    TransactGood(s1, batch, Live);
    var tx := TransactScript(s1, batch);
    var s2 := Exec(s1, tx);
    GoodEnds(s1, tx, Live);
    AddedSelects(s1, batch, Live);
    var ids := Ids(AddedRecords(s1, batch));
    ApplyGood(s2, ids, Live);
    GoodEnds(s2, ApplyScript(s2, ids), Live);
    ExecAppend(s1, tx, ApplyScript(s2, ids));
  }

  lemma AddedAreNew(s1: Db, batch: seq<Planned>, record: Record)
    requires Tidy(s1) && Unstaged(s1) == [] && RunBatch(s1.tables, s1.next, batch).Some?
    ensures record in s1.outbox <==>
            record in Do(s1, Transact(batch)).outbox && record.id !in Ids(AddedRecords(s1, batch))
  {
    var after, added := Do(s1, Transact(batch)), AddedRecords(s1, batch);
    AddedSelects(s1, batch, Live);
    assert after.outbox == s1.outbox + added && after.staged == s1.staged;
    if record in s1.outbox {
      DropMembers(s1.outbox, s1.staged, record);
      assert record in after.outbox;
    } else if record in added {
      assert record.id in Ids(added);
    }
  }

  lemma PublishedLeavesDeferred(s1: Db, planned: Planned)
    requires Holds(s1, Live) && Unstaged(s1) == [] && RunBatch(s1.tables, s1.next, [planned]).Some?
    ensures var e := Exec(s1, PublishedScript(s1, [planned]));
            && e.outbox == s1.outbox == Deferred(s1) && Holds(e, Live)
            && e.tables == Do(s1, Transact([planned])).tables && e.dirty == s1.dirty
  {
    PublishedEffect(s1, [planned]);
    var e := Exec(s1, PublishedScript(s1, [planned]));
    forall record ensures record in e.outbox <==> record in s1.outbox { AddedAreNew(s1, [planned], record); }
    AscendingUnique(e.outbox, s1.outbox);
    OutboxSplits(s1);
  }

  // ----- where the record is published alone -----

  // The transaction has committed, and whatever was queued or committed since, nothing was recorded.
  ghost predicate Committed(s1: Db, planned: Planned, m: Db) {
    RunBatch(s1.tables, s1.next, [planned]).Some? &&
      m == Do(s1, Transact([planned])).(disk := m.disk, writers := m.writers)
  }

  lemma CutState(s1: Db, planned: Planned, middle: seq<Step>, tail: seq<Step>, cut: nat)
    requires RunBatch(s1.tables, s1.next, [planned]).Some? && Quiet(middle) && 1 <= cut <= 1 + |middle|
    ensures Committed(s1, planned, Exec(s1, ([Transact([planned])] + middle + tail)[..cut]))
  {
    var part := middle[..cut - 1];
    assert ([Transact([planned])] + middle + tail)[..cut] == [Transact([planned])] + part;
    ExecOne(s1, Transact([planned]));
    ExecAppend(s1, [Transact([planned])], part);
    QuietExec(Do(s1, Transact([planned])), part);
  }

  /** The recovery after such a stop publishes the record and deletes it. */
  lemma NextRecovery(s1: Db, planned: Planned, m: Db, listed: seq<string>)
    requires Tidy(s1) && Unstaged(s1) == [] && Committed(s1, planned, m) && Holds(m, Live) && Lists(listed, m.dirty)
    ensures PublishedAlone(s1, planned, Recovered(m, listed))
  {
    var e := Recovered(m, listed);
    RecoverGood(m, listed, Live);
    RecoveredHolds(m, listed, Live);
    forall record ensures record in e.outbox <==> record in s1.outbox { StagedAreOld(s1, planned, m, record); }
    AscendingUnique(e.outbox, s1.outbox);
  }

  lemma StagedAreOld(s1: Db, planned: Planned, m: Db, record: Record)
    requires Tidy(s1) && Unstaged(s1) == [] && Committed(s1, planned, m)
    ensures record in m.outbox && record.id in m.staged <==> record in s1.outbox
  {
    AddedSelects(s1, [planned], Live);
    AddedAreNew(s1, [planned], record);
  }

  // A deferred write that stops before it has marked its record.
  lemma DeferredStopsCommitted(s1: Db, planned: Planned, cut: nat)
    requires 1 <= cut < |DeferredScript(s1, planned)|
    ensures Committed(s1, planned, Exec(s1, DeferredScript(s1, planned)[..cut]))
  {
    var added := AddedRecords(s1, [planned]);
    DeferredShape(s1, planned);
    var writes := Writes(planned.table, Queued(Do(s1, Transact([planned])), planned, added));
    CutState(s1, planned, writes, [Defer(added[0].id)], cut);
  }

  // The steps of a published write: `stage` touches only documents and writers.
  ghost predicate Stages(planned: Planned, id: nat, stage: seq<Step>, script: seq<Step>) {
    Quiet(stage) && script == [Transact([planned])] + stage + [Purge({id}), Forget(id)]
  }

  lemma PublishedStages(s1: Db, planned: Planned)
    requires Tidy(s1) && Unstaged(s1) == [] && RunBatch(s1.tables, s1.next, [planned]).Some? &&
             AddedRecords(s1, [planned]) != []
    ensures Stages(planned, AddedRecords(s1, [planned])[0].id, Staging(s1, planned), PublishedScript(s1, [planned]))
  {
    PublishedShape(s1, planned);
    StagingQuiet(s1, planned);
  }

  lemma StagingQuiet(s1: Db, planned: Planned)
    ensures Quiet(Staging(s1, planned))
  {
    var s2, added := Do(s1, Transact([planned])), AddedRecords(s1, [planned]);
    QuietCommit(planned.table, RecordOps(added, RowsOf(s2, planned.table)));
  }

  lemma QuietCommit(table: string, ops: seq<WriterOp>)
    ensures Quiet(Writes(table, ops) + [Commit(table)])
  {
  }

  // Stopping before the record is deleted.
  lemma StopsBeforePurge(s1: Db, planned: Planned, id: nat, stage: seq<Step>, script: seq<Step>, cut: nat)
    requires RunBatch(s1.tables, s1.next, [planned]).Some? && Stages(planned, id, stage, script) &&
             1 <= cut < |script| - 1
    ensures Committed(s1, planned, Exec(s1, script[..cut]))
  {
    CutState(s1, planned, stage, [Purge({id}), Forget(id)], cut);
  }

  // The record is gone, and the sets in memory are what they were before the write.
  ghost predicate Purged(s1: Db, planned: Planned, m: Db) {
    && PublishedAlone(s1, planned, m)
    && m.staged == s1.staged && m.deferred == s1.deferred && m.dirty == s1.dirty
  }

  // Stopping after it.
  lemma StopsAfterPurge(s1: Db, planned: Planned, id: nat, stage: seq<Step>, script: seq<Step>, cut: nat)
    requires Tidy(s1) && RunBatch(s1.tables, s1.next, [planned]).Some? && Stages(planned, id, stage, script)
    requires AddedRecords(s1, [planned]) != [] && id == AddedRecords(s1, [planned])[0].id
    requires |script| - 1 <= cut <= |script|
    ensures Purged(s1, planned, Exec(s1, script[..cut]))
  {
    var head, tail := [Transact([planned])] + stage, [Purge({id}), Forget(id)];
    var m := Exec(s1, head);
    assert script[..|head|] == head;
    StopsBeforePurge(s1, planned, id, stage, script, |head|);
    RecordPurged(s1, planned, m);
    assert script[..cut] == head + tail[..cut - |head|];
    ExecAppend(s1, head, tail[..cut - |head|]);
    ExecTwo(m, Purge({id}), Forget(id));
  }

  lemma ExecTwo(s: Db, first: Step, second: Step)
    ensures Exec(s, [first, second][..1]) == Do(s, first)
    ensures Exec(s, [first, second][..2]) == Do(Do(s, first), second)
  {
    assert [first, second][..1] == [first] && [first, second][..2] == [first, second];
    ExecOne(s, first);
    ExecOne(Do(s, first), second);
    ExecAppend(s, [first], [second]);
    assert [first] + [second] == [first, second];
  }

  lemma RecordPurged(s1: Db, planned: Planned, m: Db)
    requires Tidy(s1) && AddedRecords(s1, [planned]) != [] && Committed(s1, planned, m)
    ensures var id := AddedRecords(s1, [planned])[0].id;
            var e := Do(m, Purge({id}));
            Purged(s1, planned, e) && Purged(s1, planned, Do(e, Forget(id)))
  {
    SingleRecord(s1, planned);
    AddedPurged(s1, m, AddedRecords(s1, [planned])[0]);
  }

  lemma AddedPurged(s1: Db, m: Db, record: Record)
    requires Tidy(s1) && record.id == s1.next && m.outbox == s1.outbox + [record]
    requires m.staged == s1.staged && m.deferred == s1.deferred
    ensures var e := Do(m, Purge({record.id}));
            && e == m.(outbox := s1.outbox) && Do(e, Forget(record.id)) == e
  {
    PurgeAdded(s1.outbox, record);
    assert record.id !in s1.staged;
    assert s1.staged - {record.id} == s1.staged;
  }

  lemma PurgeAdded(records: seq<Record>, record: Record)
    requires forall other :: other in records ==> other.id != record.id
    ensures Drop(records + [record], {record.id}) == records
  {
    DropAll(records, {record.id});
    assert (records + [record])[..|records|] == records;
  }

  // ----- the guard is exact -----

  /** What a call left is enough: after a crash the disk gives SQLite's rows, and without one the next
      recovery still leaves a disk that does. */
  ghost predicate Lasts(m: Db, crash: bool) {
    if crash then Recoverable(Do(m, Crash))
    else forall listed :: Lists(listed, m.dirty) ==> Recoverable(Recovered(m, listed))
  }

  ghost predicate Survives(s: Db, event: Event) {
    Lasts(Exec(s, Performed(s, event)), event.crash)
  }

  lemma StrictIsRecoverable(s: Db)
    requires Holds(s, Strict)
    ensures Recoverable(s)
  {
    HoldsWeaker(s, Strict, Live);
    HoldsWeaker(s, Strict, Crashable);
    CrashableIsRecoverable(s);
  }

  lemma GuardSuffices(s: Db, event: Event)
    requires Holds(s, Strict) && Admissible(s, event) && Guarded(s, event)
    ensures Survives(s, event)
  {
    GuardedCall(s, event);
    StrictLasts(Exec(s, Performed(s, event)), event.crash);
  }

  lemma StrictLasts(m: Db, crash: bool)
    requires Holds(if crash then Do(m, Crash) else m, Strict)
    ensures Lasts(m, crash)
  {
    if crash {
      StrictIsRecoverable(Do(m, Crash));
    } else {
      forall listed | Lists(listed, m.dirty) ensures Recoverable(Recovered(m, listed)) {
        RecoveredHolds(m, listed, Strict);
        StrictIsRecoverable(Recovered(m, listed));
      }
    }
  }

  // A call stopped inside the steps that follow its recovery.
  lemma StoppedInBody(s: Db, first: seq<Step>, body: seq<Step>, cut: nat, rollback: bool)
    requires Plain(body) && cut >= |first|
    ensures var late := if cut - |first| < |body| then cut - |first| else |body|;
            Exec(s, StoppedAt(first + body, cut, rollback)) == Exec(Exec(s, first), body[..late])
  {
    var late := if cut - |first| < |body| then cut - |first| else |body|;
    StoppedBack(first, body, cut - |first|, rollback);
    StoppedPlain(body, cut - |first|, rollback);
    ExecAppend(s, first, body[..late]);
  }

  // Without a crash the next recovery starts from a state that is live; every table is clean.
  lemma OvertakenLater(s1: Db, planned: Planned, m: Db)
    requires Holds(s1, Strict) && Unstaged(s1) == [] && s1.dirty == {} && !Unovertaken(s1, [planned])
    requires Holds(m, Live) && Committed(s1, planned, m)
    ensures Lists([], m.dirty) && !Recoverable(Recovered(m, []))
  {
    NextRecovery(s1, planned, m, []);
    OvertakingIsFatal(s1, planned, Recovered(m, []));
  }

  lemma LiveCall(s: Db, event: Event)
    requires Holds(s, Strict) && Admissible(s, event)
    ensures Holds(Exec(s, Performed(s, event)), Live)
  {
    HoldsWeaker(s, Strict, Live);
    PerformedGood(s, event);
    GoodEnds(s, Performed(s, event), Live);
  }

  // What a write with these steps leaves when it stops `late` steps after the recovery.
  lemma StopState(s: Db, event: Event, body: seq<Step>)
    requires Plain(body) && Script(s, event.command, event.listed) == RecoverScript(s, event.listed) + body
    requires event.cut >= |RecoverScript(s, event.listed)|
    ensures var late := event.cut - |RecoverScript(s, event.listed)|;
            Exec(s, Performed(s, event)) ==
              Exec(Recovered(s, event.listed), body[..if late < |body| then late else |body|])
  {
    assert Performed(s, event) == StoppedAt(RecoverScript(s, event.listed) + body, event.cut, event.rollback);
    StoppedInBody(s, RecoverScript(s, event.listed), body, event.cut, event.rollback);
  }

  // A deferred write that stops half-way has committed its transaction and nothing more.
  lemma HalfwayState(s: Db, event: Event)
    requires event.command.Bulk? || (event.command.Mutate? && !event.command.publish)
    requires Halfway(s, event)
    ensures Committed(Recovered(s, event.listed), Mutation(event.command), Exec(s, Performed(s, event)))
  {
    var s1, planned := Recovered(s, event.listed), Mutation(event.command);
    var late := event.cut - |RecoverScript(s, event.listed)|;
    var rest := HalfwayBody(s, event);
    assert Exec(s, Performed(s, event)) == Exec(s1, DeferredScript(s1, planned)[..late]) by {
      StopState(s, event, DeferredScript(s1, planned) + rest);
      PrefixOfFirst(DeferredScript(s1, planned), rest, late);
    }
    DeferredStopsCommitted(s1, planned, late);
  }

  lemma HalfwayIsFatal(s: Db, event: Event)
    requires Holds(s, Strict) && Admissible(s, event) && !event.crash
    requires event.command.Bulk? || (event.command.Mutate? && !event.command.publish)
    requires Halfway(s, event) && !Unovertaken(Recovered(s, event.listed), [Mutation(event.command)])
    ensures !Survives(s, event)
  {
    var s1, planned, e := Recovered(s, event.listed), Mutation(event.command), Exec(s, Performed(s, event));
    assert Committed(s1, planned, e) by { HalfwayState(s, event); }
    assert Holds(e, Live) by { LiveCall(s, event); }
    SettledRecovery(s, event.listed);
    OvertakenLater(s1, planned, e);
    DoesNotLast(e, false);
  }

  lemma PrefixOfFirst(a: seq<Step>, b: seq<Step>, cut: nat)
    requires cut <= |a|
    ensures (a + b)[..cut] == a[..cut]
  {
  }

  lemma SettledRecovery(s: Db, listed: seq<string>)
    requires Holds(s, Strict) && Lists(listed, s.dirty)
    ensures var s1 := Recovered(s, listed); Holds(s1, Strict) && Unstaged(s1) == [] && s1.dirty == {}
  {
    RecoveredHolds(s, listed, Strict);
    RecoverGood(s, listed, Strict);
  }

  // The steps after the recovery begin with the deferred write.
  lemma HalfwayBody(s: Db, event: Event) returns (rest: seq<Step>)
    requires event.command.Bulk? || (event.command.Mutate? && !event.command.publish)
    requires Halfway(s, event)
    ensures var write := DeferredScript(Recovered(s, event.listed), Mutation(event.command));
            && Script(s, event.command, event.listed) == RecoverScript(s, event.listed) + (write + rest)
            && Plain(write + rest)
  {
    var s1 := Recovered(s, event.listed);
    var write := DeferredScript(s1, Mutation(event.command));
    MutatePlain(s1, Mutation(event.command), false);
    rest := [];
    assert write + [] == write;
    if event.command.Bulk? {
      var command := event.command;
      BulkPlain(s1, command.table, command.rows, command.upsert, command.publish);
      EmptyBulk(s1, command.table, command.upsert);
      if command.publish { rest := FlushScript(Exec(s1, write)); }
    }
  }

  lemma EmptyBulk(s1: Db, table: string, upsert: bool)
    ensures |DeferredScript(s1, PlannedBulk(table, [], upsert))| <= 1
  {
    var planned := PlannedBulk(table, [], upsert);
    if RunBatch(s1.tables, s1.next, [planned]).Some? {
      SingleRecord(s1, planned);
      assert Refreshes([]) == [];
    }
  }

  lemma PublishedStopIsFatal(s1: Db, planned: Planned, late: nat, crash: bool)
    requires Holds(s1, Strict) && Unstaged(s1) == [] && s1.dirty == {} && !Unovertaken(s1, [planned])
    requires var body := PublishedScript(s1, [planned]);
             1 <= late <= |body| && (crash ==> late >= |body| - 1) && Holds(Exec(s1, body[..late]), Live)
    ensures !Lasts(Exec(s1, PublishedScript(s1, [planned])[..late]), crash)
  {
    PublishedStages(s1, planned);
    var id, stage, body := AddedRecords(s1, [planned])[0].id, Staging(s1, planned), PublishedScript(s1, [planned]);
    var m := Exec(s1, body[..late]);
    if late < |body| - 1 {
      StopsBeforePurge(s1, planned, id, stage, body, late);
      OvertakenLater(s1, planned, m);
    } else {
      StopsAfterPurge(s1, planned, id, stage, body, late);
      PurgedIsFatal(s1, planned, m);
    }
    DoesNotLast(m, crash);
  }

  // The steps of a published write are not over with the transaction.
  lemma PublishedLasts(s1: Db, planned: Planned)
    requires Holds(s1, Strict) && Unstaged(s1) == [] && !Unovertaken(s1, [planned])
    ensures |PublishedScript(s1, [planned])| >= 3
  {
    PublishedStages(s1, planned);
  }

  // What a published write leaves when it stops `done` steps after the recovery.
  lemma PublishedStopState(s: Db, event: Event, planned: Planned, done: nat)
    requires event.command == Mutate(planned, true) && event.cut >= |RecoverScript(s, event.listed)|
    requires var body, late := PublishedScript(Recovered(s, event.listed), [planned]),
                               event.cut - |RecoverScript(s, event.listed)|;
             done == if late < |body| then late else |body|
    ensures done <= |PublishedScript(Recovered(s, event.listed), [planned])|
    ensures Exec(s, Performed(s, event)) ==
            Exec(Recovered(s, event.listed), PublishedScript(Recovered(s, event.listed), [planned])[..done])
  {
    var s1 := Recovered(s, event.listed);
    BatchPlain(s1, [planned]);
    MutateShape(s, planned, true, event.listed);
    StopState(s, event, PublishedScript(s1, [planned]));
  }

  lemma PublishedFatalAt(s: Db, event: Event, s1: Db, planned: Planned, done: nat)
    requires Holds(s1, Strict) && Unstaged(s1) == [] && s1.dirty == {} && !Unovertaken(s1, [planned])
    requires var body := PublishedScript(s1, [planned]);
             && 1 <= done <= |body| && (event.crash ==> done >= |body| - 1)
             && Exec(s, Performed(s, event)) == Exec(s1, body[..done])
    requires Holds(Exec(s, Performed(s, event)), Live)
    ensures !Survives(s, event)
  {
    PublishedStopIsFatal(s1, planned, done, event.crash);
  }

  lemma PublishedIsFatal(s: Db, event: Event)
    requires Holds(s, Strict) && Admissible(s, event) && event.command.Mutate? && event.command.publish
    requires Exposed(s, event) && !Unovertaken(Recovered(s, event.listed), [event.command.planned])
    ensures !Survives(s, event)
  {
    var s1, planned := Recovered(s, event.listed), event.command.planned;
    var body, late := PublishedScript(s1, [planned]), event.cut - |RecoverScript(s, event.listed)|;
    var done := if late < |body| then late else |body|;
    SettledRecovery(s, event.listed);
    LiveCall(s, event);
    PublishedLasts(s1, planned);
    PublishedStopState(s, event, planned, done);
    PublishedFatalAt(s, event, s1, planned, done);
  }

  lemma DoesNotLast(m: Db, crash: bool)
    requires if crash then !Recoverable(Do(m, Crash)) else Lists([], m.dirty) && !Recoverable(Recovered(m, []))
    ensures !Lasts(m, crash)
  {
  }

  lemma SameDisk(m: Db, e: Db)
    requires e.tables == m.tables && e.outbox == m.outbox && e.dirty == m.dirty && e.disk == m.disk
    ensures Recoverable(e) <==> Recoverable(m)
  {
    forall table ensures Replayed(e, table) == Replayed(m, table) {
      assert RowsOf(e, table) == RowsOf(m, table) && Documents(e, table) == Documents(m, table);
    }
  }

  lemma CrashKeepsDisk(m: Db)
    ensures Recoverable(Do(m, Crash)) <==> Recoverable(m)
  {
    var e := Do(m, Crash);
    assert e.tables == m.tables && e.outbox == m.outbox && e.dirty == m.dirty && e.disk == m.disk;
    SameDisk(m, e);
  }

  // Once the record is deleted a crash makes no difference, and the next recovery changes nothing.
  lemma PurgedIsFatal(s1: Db, planned: Planned, m: Db)
    requires Holds(s1, Strict) && Unstaged(s1) == [] && s1.dirty == {} && !Unovertaken(s1, [planned])
    requires Purged(s1, planned, m)
    ensures !Recoverable(Do(m, Crash))
    ensures Lists([], m.dirty) && !Recoverable(Recovered(m, []))
  {
    OvertakingIsFatal(s1, planned, m);
    CrashKeepsDisk(m);
    forall record | record in m.outbox ensures record.id in m.deferred { DropMembers(s1.outbox, s1.staged, record); }
    QuietRecovery(m);
  }

  /** Recovery has nothing to do when no table is dirty and every record is deferred. */
  lemma QuietRecovery(s: Db)
    requires forall record :: record in s.outbox ==> record.id in s.deferred
    ensures RecoverScript(s, []) == [] && Recovered(s, []) == s
  {
    var ids := Ids(s.outbox) - s.deferred;
    assert ids == {};
    forall record ensures record !in Keep(s.outbox, ids) { KeepMembers(s.outbox, ids, record); }
    EmptyOutbox(Keep(s.outbox, ids));
  }

  /** The guard is exact, for every call and wherever it stops: what the call leaves survives the next
      recovery or the crash if and only if the call was guarded.  Only a write can fail it, when its
      record is published alone although it overtakes a deferred one. */
  lemma GuardIsExact(s: Db, event: Event)
    requires Holds(s, Strict) && Admissible(s, event)
    ensures Survives(s, event) <==> Guarded(s, event)
  {
    if Guarded(s, event) {
      GuardSuffices(s, event);
    } else if event.command.Mutate? && event.command.publish {
      PublishedIsFatal(s, event);
    } else {
      HalfwayIsFatal(s, event);
    }
  }

  ghost predicate AdmissibleRun(s: Db, events: seq<Event>) {
    events != [] ==>
      var front, last := events[..|events| - 1], events[|events| - 1];
      AdmissibleRun(s, front) && Admissible(Run(s, front), last)
  }

  /** Whatever call the run has come to, what that call leaves is enough. */
  ghost predicate RunSurvives(s: Db, events: seq<Event>) {
    events != [] ==>
      var front, last := events[..|events| - 1], events[|events| - 1];
      RunSurvives(s, front) && Survives(Run(s, front), last)
  }

  lemma LastIsExact(s: Db, front: seq<Event>, last: Event)
    requires Holds(s, Strict) && GuardedRun(s, front) && Admissible(Run(s, front), last)
    ensures Survives(Run(s, front), last) <==> Guarded(Run(s, front), last)
  {
    GuardedRunKeeps(s, front);
    GuardIsExact(Run(s, front), last);
  }

  /** The guard is exact for whole runs: every prefix of a run survives, be it followed by a crash or by
      the recovery of the next call, if and only if the run is guarded. */
  lemma {:induction false} GuardedRunIsExact(s: Db, events: seq<Event>)
    requires Holds(s, Strict) && AdmissibleRun(s, events)
    ensures RunSurvives(s, events) <==> GuardedRun(s, events)
  {
    if events != [] {
      var front, last := events[..|events| - 1], events[|events| - 1];
      GuardedRunIsExact(s, front);
      if GuardedRun(s, front) { LastIsExact(s, front, last); }
    }
  }

  // ----- the guard is necessary: a trace -----

  lemma UpdateOne(rows: Rows, key: Key, assignments: Columns)
    requires key in rows
    ensures UpdateRows(rows, [key], assignments) == rows[key := rows[key] + assignments]
    ensures FetchAll(rows, [key]) == Some([Upsert(Row(key, rows[key]))])
  {
    assert [key][..0] == [];
    assert UpdateRows(rows, [], assignments) == rows && FetchAll(rows, []) == Some([]);
    var none: seq<Operation> := [];
    assert none + [Upsert(Row(key, rows[key]))] == [Upsert(Row(key, rows[key]))];
  }

  lemma UpdateRecord(s: Db, table: string, key: Key, assignments: Columns)
    requires table in s.tables && key in s.tables[table]
    ensures var planned := PlannedUpdate(table, [key], assignments);
            var after := s.tables[table][key := s.tables[table][key] + assignments];
            && RunBatch(s.tables, s.next, [planned]).Some?
            && Do(s, Transact([planned])).tables == s.tables[table := after]
            && AddedRecords(s, [planned]) == [Record(s.next, table, [Upsert(Row(key, after[key]))])]
  {
    var planned := PlannedUpdate(table, [key], assignments);
    var after := s.tables[table][key := s.tables[table][key] + assignments];
    UpdateOne(s.tables[table], key, assignments);
    UpdateOne(after, key, map[]);
    assert ApplyPlanned(s.tables[table], planned) == Some(Change(after, [Upsert(Row(key, after[key]))]));
    assert [planned][..0] == [];
    assert RunBatch(s.tables, s.next, []) == Some(Effect(s.tables, []));
    SingleRecord(s, planned);
  }

  /** A deferred update leaves its record as the newest operation on its key. */
  lemma DeferredUpdateEnds(s: Db, table: string, key: Key, assignments: Columns)
    requires Holds(s, Strict) && s.outbox == [] && table in s.tables && key in s.tables[table]
    ensures var e := Exec(s, DeferredScript(s, PlannedUpdate(table, [key], assignments)));
            && Holds(e, Strict) && Unstaged(e) == [] && e.dirty == s.dirty
            && e.tables == s.tables[table := s.tables[table][key := s.tables[table][key] + assignments]]
            && LastIn(e.outbox, table, key) == Some(Upsert(Row(key, s.tables[table][key] + assignments)))
  {
    var planned := PlannedUpdate(table, [key], assignments);
    UpdateRecord(s, table, key, assignments);
    DeferredCrashable(s, planned);
    HoldsWeaker(s, Strict, Crashable);
    DeferredGood(s, planned, Crashable);
    DeferredEffect(s, planned);
    var op := Upsert(Row(key, s.tables[table][key] + assignments));
    OneRecord(Record(s.next, table, [op]), op, table, key);
    var added := AddedRecords(s, [planned]);
    assert [] + added == added;
  }

  lemma OneRecord(record: Record, op: Operation, table: string, key: Key)
    requires record.table == table && record.operations == [op] && op.Target() == key
    ensures LastIn([record], table, key) == Some(op)
  {
    assert Last([op], key) == Some(op);
  }

  /** Publishing a second update of a key with a deferred one overtakes it. */
  lemma SecondUpdateOvertakes(s1: Db, table: string, key: Key, second: Columns)
    requires Holds(s1, Strict) && Unstaged(s1) == [] && table in s1.tables && key in s1.tables[table]
    requires LastIn(s1.outbox, table, key) == Some(Upsert(Row(key, s1.tables[table][key])))
    requires s1.tables[table][key] + second != s1.tables[table][key]
    ensures var planned := PlannedUpdate(table, [key], second);
            && RunBatch(s1.tables, s1.next, [planned]).Some?
            && !KeyUnovertaken(s1, table, key, RowsOf(Do(s1, Transact([planned])), table))
  {
    UpdateRecord(s1, table, key, second);
    OutboxSplits(s1);
    assert Deferred(s1) == s1.outbox;
    var rows := RowsOf(Do(s1, Transact([PlannedUpdate(table, [key], second)])), table);
    assert Sql(rows, key)[0] == s1.tables[table][key] + second != Sql(s1.tables[table], key)[0];
  }

  lemma SecondUpdateReverts(s1: Db, table: string, key: Key, second: Columns)
    requires Holds(s1, Strict) && Unstaged(s1) == [] && s1.dirty == {} && table in s1.tables && key in s1.tables[table]
    requires LastIn(s1.outbox, table, key) == Some(Upsert(Row(key, s1.tables[table][key])))
    requires s1.tables[table][key] + second != s1.tables[table][key]
    ensures var e := Reopened(Exec(s1, PublishedScript(s1, [PlannedUpdate(table, [key], second)])), []);
            && table in e.tables
            && Sql(e.tables[table], key) == [s1.tables[table][key] + second]
            && Found(Documents(e, table), key) == [s1.tables[table][key]]
  {
    var planned := PlannedUpdate(table, [key], second);
    SecondUpdateOvertakes(s1, table, key, second);
    UpdateRecord(s1, table, key, second);
    HoldsWeaker(s1, Strict, Live);
    PublishedLeavesDeferred(s1, planned);
    OvertakenKeyReverts(s1, planned, Exec(s1, PublishedScript(s1, [planned])), table, key);
    ReopenIsReplay(Exec(s1, PublishedScript(s1, [planned])), [], table);
  }

  // The calls of a run that all complete, no table being dirty in between.
  function Calls(s: Db, commands: seq<Command>): seq<Event> {
    if commands == [] then []
    else
      var front := Calls(s, commands[..|commands| - 1]);
      front + [Completed(Run(s, front), commands[|commands| - 1])]
  }

  function Completed(s: Db, command: Command): Event {
    Event(command, [], |Script(s, command, [])|, false, false)
  }

  lemma OneMoreCall(s: Db, commands: seq<Command>, command: Command)
    ensures Run(s, Calls(s, commands + [command])) ==
            var before := Run(s, Calls(s, commands)); Exec(before, Script(before, command, []))
  {
    var front := Calls(s, commands);
    assert (commands + [command])[..|commands|] == commands;
    assert Calls(s, commands + [command]) == front + [Completed(Run(s, front), command)];
    assert (front + [Completed(Run(s, front), command)])[..|front|] == front;
  }

  // Creating the first table of a new database.
  lemma FirstTable(table: string, contents: Rows)
    ensures AtRest(Run(Empty(), Calls(Empty(), [Rebuild(table, contents)])), map[table := contents])
  {
    FirstCall(Rebuild(table, contents));
    CreatesAnother(Empty(), table, contents);
    CreatesTable(table, contents);
  }

  // Creating a table when nothing is outstanding.
  lemma CreatesAnother(s: Db, table: string, contents: Rows)
    requires s.outbox == []
    ensures Exec(s, Script(s, Rebuild(table, contents), [])) ==
            Exec(Do(s, Replace(table, contents)), RebuildScript(table))
  {
    ReplaceShape(s, table, contents, []);
    NothingToFlush(s);
    ReplaceEffect(s, table, contents);
    assert [] + ReplaceScript(table, contents) == ReplaceScript(table, contents);
  }

  lemma ReplaceEffect(s: Db, table: string, contents: Rows)
    ensures Exec(s, ReplaceScript(table, contents)) == Exec(Do(s, Replace(table, contents)), RebuildScript(table))
  {
    ExecOne(s, Replace(table, contents));
    ExecAppend(s, [Replace(table, contents)], RebuildScript(table));
  }

  lemma FirstCall(command: Command)
    ensures Run(Empty(), Calls(Empty(), [command])) == Exec(Empty(), Script(Empty(), command, []))
  {
    OneMoreCall(Empty(), [], command);
    assert [] + [command] == [command];
  }

  lemma NothingToFlush(s: Db)
    requires s.outbox == []
    ensures FlushScript(s) == []
  {
  }

  ghost predicate AtRest(s: Db, tables: map<string, Rows>) {
    Holds(s, Strict) && s.tables == tables && s.outbox == [] && s.dirty == {}
  }

  lemma CreatesTable(table: string, contents: Rows)
    ensures AtRest(Exec(Do(Empty(), Replace(table, contents)), RebuildScript(table)), map[table := contents])
  {
    var s := Empty();
    var s1 := Do(s, Replace(table, contents));
    EmptyDatabase();
    ReplaceStep(s, table, contents, Strict);
    RebuildGood(s1, table, Strict);
    GoodEnds(s1, RebuildScript(table), Strict);
    RebuildEffect(s1, table);
  }

  /** The guard cannot be dropped.  In a new database: create a table with one row, defer an update of
      it, publish a second update, crash, reopen.  The index shows the first update although SQLite
      holds both. */
  lemma GuardIsNecessary(table: string, key: Key, row: Columns, first: Columns, second: Columns)
    requires row + first + second != row + first
    ensures var commands := [Rebuild(table, map[key := row]), Mutate(PlannedUpdate(table, [key], first), false),
                             Mutate(PlannedUpdate(table, [key], second), true)];
            var s := Run(Empty(), Calls(Empty(), commands));
            var e := Reopened(s, []);
            && table in e.tables && Sql(e.tables[table], key) == [row + first + second]
            && Found(Documents(e, table), key) == [row + first]
  {
    var create := Rebuild(table, map[key := row]);
    var update1, update2 := PlannedUpdate(table, [key], first), PlannedUpdate(table, [key], second);
    var s1 := Run(Empty(), Calls(Empty(), [create, Mutate(update1, false)]));
    FirstUpdate(table, key, row, first);
    NextCall([create, Mutate(update1, false)], Mutate(update2, true));
    ThreeCommands(create, Mutate(update1, false), Mutate(update2, true));
    SecondUpdateReverts(s1, table, key, second);
  }

  lemma FirstUpdate(table: string, key: Key, row: Columns, first: Columns)
    ensures var create, update := Rebuild(table, map[key := row]), Mutate(PlannedUpdate(table, [key], first), false);
            var s1 := Run(Empty(), Calls(Empty(), [create, update]));
            && Holds(s1, Strict) && Unstaged(s1) == [] && s1.dirty == {}
            && table in s1.tables && key in s1.tables[table] && s1.tables[table][key] == row + first
            && LastIn(s1.outbox, table, key) == Some(Upsert(Row(key, row + first)))
  {
    var create, update := Rebuild(table, map[key := row]), Mutate(PlannedUpdate(table, [key], first), false);
    var s0 := Run(Empty(), Calls(Empty(), [create]));
    FirstTable(table, map[key := row]);
    ThreeCommands(create, update, update);
    assert Run(Empty(), Calls(Empty(), [create, update])) == Exec(s0, DeferredScript(s0, update.planned)) by {
      NextCall([create], update);
    }
    DeferredUpdateEnds(s0, table, key, first);
  }

  lemma ThreeCommands(a: Command, b: Command, c: Command)
    ensures [a] + [b] == [a, b] && [a, b] + [c] == [a, b, c]
  {
  }

  // With nothing to recover the steps of an update are its own.
  lemma QuietMutate(s: Db, command: Command)
    requires command.Mutate? && Tidy(s) && Unstaged(s) == []
    ensures Script(s, command, []) == MutateScript(s, command.planned, command.publish)
  {
    forall record | record in s.outbox ensures record.id in s.deferred { DropMembers(s.outbox, s.staged, record); }
    QuietRecovery(s);
    MutateShape(s, command.planned, command.publish, []);
    var script := MutateScript(s, command.planned, command.publish);
    assert [] + script == script;
  }

  // One more update after calls that left nothing to recover.
  lemma NextCall(commands: seq<Command>, command: Command)
    requires command.Mutate? && Unstaged(Run(Empty(), Calls(Empty(), commands))) == []
    requires Tidy(Run(Empty(), Calls(Empty(), commands)))
    ensures var before := Run(Empty(), Calls(Empty(), commands));
            Run(Empty(), Calls(Empty(), commands + [command])) ==
              Exec(before, MutateScript(before, command.planned, command.publish))
  {
    OneMoreCall(Empty(), commands, command);
    QuietMutate(Run(Empty(), Calls(Empty(), commands)), command);
  }
}
