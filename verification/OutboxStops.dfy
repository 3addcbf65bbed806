/** Where a call can stop, and the guard under which what it leaves is safe. */
module OutboxStops {
  import opened Wrappers
  import opened Outbox
  import opened OutboxFacts
  import opened OutboxInvariant
  import opened OutboxScripts
  import opened OutboxRollback
  import opened OutboxWrites

  // The mutation of a write, which runs after the recovery.
  function Mutation(command: Command): Planned
    requires command.Mutate? || command.Bulk?
  {
    match command
    case Mutate(planned, _) => planned
    case Bulk(table, rows, upsert, _) => PlannedBulk(table, rows, upsert)
  }

  /** The call stopped after its transaction and before its record was deferred: the record it left is
      unstaged, so the next recovery publishes and deletes it. */
  predicate Halfway(s: Db, event: Event)
    requires event.command.Mutate? || event.command.Bulk?
  {
    var first := |RecoverScript(s, event.listed)|;
    first < event.cut < first + |DeferredScript(Recovered(s, event.listed), Mutation(event.command))|
  }

  /** The record the call added is published alone, now or by the next recovery.  A published write
      does that once its transaction has committed, unless a crash comes before the record is deleted;
      a deferred write only if it stops half-way and the process carries on. */
  predicate Exposed(s: Db, event: Event) {
    match event.command
    case Mutate(planned, true) =>
      var first, body := |RecoverScript(s, event.listed)|, PublishedScript(Recovered(s, event.listed), [planned]);
      first < event.cut && (event.crash ==> event.cut >= first + |body| - 1)
    case Mutate(_, false) => !event.crash && Halfway(s, event)
    case Bulk(_, _, _, _) => !event.crash && Halfway(s, event)
    case _ => false
  }

  /** Such a record may not overtake a deferred one that names one of its keys. */
  ghost predicate Guarded(s: Db, event: Event) {
    Exposed(s, event) ==> Unovertaken(Recovered(s, event.listed), [Mutation(event.command)])
  }

  // One call: cut after some number of steps by an error, or by a crash that wipes the memory.
  datatype Event = Event(command: Command, listed: seq<string>, cut: nat, rollback: bool, crash: bool)

  function Performed(s: Db, event: Event): seq<Step> {
    StoppedAt(Script(s, event.command, event.listed), event.cut, event.rollback)
  }

  function Happen(s: Db, event: Event): Db {
    var e := Exec(s, Performed(s, event));
    if event.crash then Do(e, Crash) else e
  }

  ghost predicate Admissible(s: Db, event: Event) {
    WellFormed(event.command) && Lists(event.listed, s.dirty) && Named(s, event.command)
  }

  // ----- where a call may stop -----

  /** Stopping in a safe first script, or before the second has begun. */
  lemma StopsEarly(s: Db, a: seq<Step>, b: seq<Step>, cut: nat, rollback: bool)
    requires Good(s, a, Strict) && InstallsDirty(s, a) && Plain(b) && cut <= |a|
    ensures Good(s, StoppedAt(a + b, cut, rollback), Strict)
    ensures Holds(Exec(s, StoppedAt(a + b, cut, rollback)), Strict)
  {
    if cut < |a| {
      assert (a + b)[..cut] == a[..cut];
      assert StoppedAt(a + b, cut, rollback) == StoppedAt(a, cut, rollback);
    } else {
      StoppedBack(a, b, 0, rollback);
      assert StoppedAt(b, 0, rollback) == [];
      assert a + [] == a == StoppedAt(a, cut, rollback);
    }
    StoppedGood(s, a, cut, rollback, Strict);
    GoodEnds(s, StoppedAt(a, cut, rollback), Strict);
  }

  lemma StopsInside(s: Db, script: seq<Step>, cut: nat, rollback: bool)
    requires Good(s, script, Strict) && Plain(script)
    ensures Holds(Exec(s, StoppedAt(script, cut, rollback)), Strict)
  {
    assert InstallsDirty(s, script);
    StoppedGood(s, script, cut, rollback, Strict);
    GoodEnds(s, StoppedAt(script, cut, rollback), Strict);
  }

  /** Stopping anywhere in a second script that is safe where it starts. */
  lemma StopsLate(s: Db, a: seq<Step>, b: seq<Step>, cut: nat, rollback: bool)
    requires Good(Exec(s, a), b, Strict) && Plain(b) && cut >= |a|
    ensures Holds(Exec(s, StoppedAt(a + b, cut, rollback)), Strict)
  {
    var late := cut - |a|;
    var done := StoppedAt(b, late, rollback);
    StoppedBack(a, b, late, rollback);
    assert StoppedAt(a + b, cut, rollback) == a + done;
    assert Exec(s, a + done) == Exec(Exec(s, a), done) by { ExecAppend(s, a, done); }
    assert Holds(Exec(Exec(s, a), done), Strict) by { StopsInside(Exec(s, a), b, late, rollback); }
  }

  // Three scripts in a row, stopped outside the second.
  lemma StopsAround(s: Db, first: seq<Step>, write: seq<Step>, rest: seq<Step>, cut: nat, rollback: bool)
    requires Good(s, first, Strict) && InstallsDirty(s, first) && Plain(write) && Plain(rest)
    requires Good(Exec(Exec(s, first), write), rest, Strict)
    requires !(|first| < cut < |first| + |write|)
    ensures Holds(Exec(s, StoppedAt(first + (write + rest), cut, rollback)), Strict)
  {
    if cut <= |first| {
      StopsEarly(s, first, write + rest, cut, rollback);
    } else {
      assert Exec(s, first + write) == Exec(Exec(s, first), write) by { ExecAppend(s, first, write); }
      Regroup(first, write, rest);
      assert Holds(Exec(s, StoppedAt(first + write + rest, cut, rollback)), Strict) by {
        StopsLate(s, first + write, rest, cut, rollback);
      }
    }
  }

  lemma NothingAfter(s: Db)
    requires Holds(s, Strict)
    ensures Good(s, [], Strict)
  {
    GoodNone(s, Strict);
  }

  // A deferred write after `first`, stopped outside the half-way stretch.
  lemma WriteStops(s: Db, first: seq<Step>, planned: Planned, cut: nat, rollback: bool)
    requires Good(s, first, Strict) && InstallsDirty(s, first)
    requires Holds(Exec(s, first), Strict) && Unstaged(Exec(s, first)) == []
    requires !(|first| < cut < |first| + |DeferredScript(Exec(s, first), planned)|)
    ensures Holds(Exec(s, StoppedAt(first + DeferredScript(Exec(s, first), planned), cut, rollback)), Strict)
  {
    var write := DeferredScript(Exec(s, first), planned);
    WriteThenFlush(Exec(s, first), planned, false);
    StopsAround(s, first, write, [], cut, rollback);
    assert write + [] == write;
  }

  lemma MutateStops(s: Db, planned: Planned, event: Event)
    requires Holds(s, Strict) && Lists(event.listed, s.dirty)
    requires event.command == Mutate(planned, false) && !Halfway(s, event)
    ensures Holds(Exec(s, Performed(s, event)), Strict)
  {
    RecoveredHolds(s, event.listed, Strict);
    RecoverGood(s, event.listed, Strict);
    RecoverInstalls(s, event.listed);
    MutateShape(s, planned, false, event.listed);
    WriteStops(s, RecoverScript(s, event.listed), planned, event.cut, event.rollback);
  }

  // A bulk write after `first`, stopped outside the half-way stretch.
  lemma BulkBodyStops(s: Db, first: seq<Step>, planned: Planned, publish: bool, cut: nat, rollback: bool)
    requires planned.PlannedBulk? && Good(s, first, Strict) && InstallsDirty(s, first)
    requires Holds(Exec(s, first), Strict) && Unstaged(Exec(s, first)) == []
    requires !(|first| < cut < |first| + |DeferredScript(Exec(s, first), planned)|)
    ensures var body := BulkScript(Exec(s, first), planned.table, planned.rows, planned.upsert, publish);
            Holds(Exec(s, StoppedAt(first + body, cut, rollback)), Strict)
  {
    var s1 := Exec(s, first);
    if planned.rows == [] || TransactScript(s1, [planned]) == [] {
      var body := BulkScript(s1, planned.table, planned.rows, planned.upsert, publish);
      IdleBulk(s1, planned, publish);
      assert [] + body == body;
      StopsAround(s, first, [], body, cut, rollback);
    } else {
      WriteThenFlush(s1, planned, publish);
      var write := DeferredScript(s1, planned);
      StopsAround(s, first, write, if publish then FlushScript(Exec(s1, write)) else [], cut, rollback);
    }
  }

  lemma BulkStops(s: Db, planned: Planned, publish: bool, event: Event)
    requires Holds(s, Strict) && Lists(event.listed, s.dirty) && planned.PlannedBulk?
    requires event.command == Bulk(planned.table, planned.rows, planned.upsert, publish) && !Halfway(s, event)
    ensures Holds(Exec(s, Performed(s, event)), Strict)
  {
    RecoveredHolds(s, event.listed, Strict);
    RecoverGood(s, event.listed, Strict);
    RecoverInstalls(s, event.listed);
    BulkBodyStops(s, RecoverScript(s, event.listed), planned, publish, event.cut, event.rollback);
  }

  lemma WriteThenFlush(s1: Db, planned: Planned, publish: bool)
    requires Holds(s1, Strict) && Unstaged(s1) == []
    ensures var write := DeferredScript(s1, planned);
            var rest := if publish then FlushScript(Exec(s1, write)) else [];
            Plain(write) && Plain(rest) && Good(Exec(s1, write), rest, Strict)
  {
    var write := DeferredScript(s1, planned);
    DeferredCrashable(s1, planned);
    MutatePlain(s1, planned, false);
    var s2 := Exec(s1, write);
    FlushGood(s2, Strict);
    FlushPlain(s2);
    NothingAfter(s2);
  }

  // A bulk write without rows, or one whose transaction fails.
  lemma IdleBulk(s1: Db, planned: Planned, publish: bool)
    requires Holds(s1, Strict) && planned.PlannedBulk? && (planned.rows == [] || TransactScript(s1, [planned]) == [])
    ensures Good(s1, BulkScript(s1, planned.table, planned.rows, planned.upsert, publish), Strict)
    ensures Plain(BulkScript(s1, planned.table, planned.rows, planned.upsert, publish))
  {
    GoodNone(s1, Strict);
    FlushGood(s1, Strict);
    FlushPlain(s1);
  }

  /** A deferred write whose half-way state a crash ends, or that does not stop half-way. */
  lemma DeferredCall(s: Db, event: Event)
    requires Holds(s, Strict) && Lists(event.listed, s.dirty)
    requires event.command.Bulk? || (event.command.Mutate? && !event.command.publish)
    requires event.crash || !Halfway(s, event)
    ensures Good(s, Performed(s, event), Crashable)
    ensures Holds(Happen(s, event), Strict)
  {
    var script, done := Script(s, event.command, event.listed), Performed(s, event);
    ScriptInstalls(s, event.command, event.listed);
    UnguardedCall(s, event.command, event.listed);
    StoppedGood(s, script, event.cut, event.rollback, Crashable);
    if event.crash {
      GoodEnds(s, done, Crashable);
      CrashStep(Exec(s, done));
    } else if event.command.Mutate? {
      MutateStops(s, event.command.planned, event);
    } else {
      var command := event.command;
      BulkStops(s, PlannedBulk(command.table, command.rows, command.upsert), command.publish, event);
    }
  }

  lemma StrictEvent(s: Db, event: Event)
    requires Holds(s, Strict) && Admissible(s, event) && StrictCall(s, event)
    ensures Good(s, Performed(s, event), Crashable)
    ensures Holds(Happen(s, event), Strict)
  {
    var script, done := Script(s, event.command, event.listed), Performed(s, event);
    ScriptInstalls(s, event.command, event.listed);
    StrictCallGood(s, event);
    StoppedGood(s, script, event.cut, event.rollback, Strict);
    GoodEnds(s, done, Strict);
    GoodWeaker(s, done, Strict, Crashable);
    GoodEnds(s, done, Crashable);
    CrashStep(Exec(s, done));
  }

  // ----- a published write before its record is deleted -----

  // Queueing and committing change nothing but writers and documents.
  predicate Quiet(steps: seq<Step>) {
    forall step :: step in steps ==> step.Write? || step.Commit?
  }

  lemma {:induction false} QuietExec(s: Db, steps: seq<Step>)
    requires Quiet(steps)
    ensures var e := Exec(s, steps); e == s.(disk := e.disk, writers := e.writers)
  {
    if steps != [] {
      var front, last := steps[..|steps| - 1], steps[|steps| - 1];
      assert steps == front + [last];
      assert last in steps && forall step :: step in front ==> step in steps;
      QuietExec(s, front);
      var e := Exec(s, front);
      assert Exec(s, steps) == Do(e, last);
    }
  }

  function Staging(s: Db, planned: Planned): seq<Step> {
    var s1, added := Do(s, Transact([planned])), AddedRecords(s, [planned]);
    Writes(planned.table, RecordOps(added, RowsOf(s1, planned.table))) + [Commit(planned.table)]
  }

  lemma KeepAdded(records: seq<Record>, added: seq<Record>)
    requires forall record :: record in records ==> record.id !in Ids(added)
    ensures Keep(records + added, Ids(added)) == added
  {
    KeepAppend(records, added, Ids(added));
    KeepAll(added, Ids(added));
    forall record ensures record !in Keep(records, Ids(added)) { KeepMembers(records, Ids(added), record); }
    EmptyOutbox(Keep(records, Ids(added)));
    assert [] + added == added;
  }

  lemma OneGroup(record: Record)
    ensures ForTable([record], record.table) == [record] && Names([record]) == [record.table]
    ensures Forgets([record]) == [Forget(record.id)]
  {
    assert [record][..0] == [];
    assert [] + [record] == [record];
  }

  // The group a published mutation applies is the one record it added.
  lemma AddedGroup(s: Db, planned: Planned)
    requires Tidy(s) && Unstaged(s) == [] && RunBatch(s.tables, s.next, [planned]).Some? &&
             AddedRecords(s, [planned]) != []
    ensures var s1, added := Do(s, Transact([planned])), AddedRecords(s, [planned]);
            && added == [added[0]] && added[0].table == planned.table
            && Keep(s1.outbox, Ids(added)) == Group(s1, planned.table, Ids(added)) == Drop(added, s1.staged) == added
  {
    var s1, added := Do(s, Transact([planned])), AddedRecords(s, [planned]);
    SingleRecord(s, planned);
    DropAll(added, s1.staged);
    OneGroup(added[0]);
    KeepAdded(s.outbox, added);
  }

  lemma GroupSteps(s: Db, record: Record)
    requires Keep(s.outbox, {record.id}) == [record] == Drop([record], s.staged)
    ensures var writes := Writes(record.table, RecordOps([record], RowsOf(s, record.table)));
            ApplyScript(s, {record.id}) == writes + [Commit(record.table)] + [Purge({record.id}), Forget(record.id)]
  {
    OneGroup(record);
    var group, names := GroupScript(s, record.table, {record.id}), [record.table];
    assert Ids([record]) == {record.id};
    assert names[1..] == [];
    assert GroupsScript(s, names, {record.id}) == group + GroupsScript(Exec(s, group), names[1..], {record.id}) ==
           group;
    var writes := Writes(record.table, RecordOps([record], RowsOf(s, record.table)));
    assert group == writes + [Commit(record.table), Purge({record.id})] + [Forget(record.id)];
  }

  lemma PublishedShape(s: Db, planned: Planned)
    requires Tidy(s) && Unstaged(s) == [] && RunBatch(s.tables, s.next, [planned]).Some? &&
             AddedRecords(s, [planned]) != []
    ensures var id := AddedRecords(s, [planned])[0].id;
            PublishedScript(s, [planned]) == [Transact([planned])] + Staging(s, planned) + [Purge({id}), Forget(id)]
  {
    var s1, added := Do(s, Transact([planned])), AddedRecords(s, [planned]);
    AddedGroup(s, planned);
    assert Ids(added) == {added[0].id};
    ExecOne(s, Transact([planned]));
    GroupSteps(s1, added[0]);
    Regroup([Transact([planned])], Staging(s, planned), [Purge({added[0].id}), Forget(added[0].id)]);
  }

  /** Until its record is deleted, a published write is crashable whatever it overtakes. */
  lemma PublishedUntilPurge(s: Db, planned: Planned)
    requires Holds(s, Crashable) && Unstaged(s) == []
    requires RunBatch(s.tables, s.next, [planned]).Some? && AddedRecords(s, [planned]) != []
    ensures Good(s, [Transact([planned])] + Staging(s, planned), Crashable)
  {
    var s1, added := Do(s, Transact([planned])), AddedRecords(s, [planned]);
    var table, writes := planned.table, Writes(planned.table, RecordOps(added, RowsOf(s1, planned.table)));
    TransactGood(s, [planned], Crashable);
    GoodEnds(s, [Transact([planned])], Crashable);
    SingleRecord(s, planned);
    AddedGroup(s, planned);
    TransactOutbox(s, [planned]);
    forall record | record in s1.outbox && record.id !in s1.staged ensures record.id in Ids(added) {
      DropMembers(s1.outbox, s1.staged, record);
    }
    StageGroup(s1, table, Ids(added), Crashable);
    GoodEnds(s1, writes, Crashable);
    CommitStep(Exec(s1, writes), table, Crashable);
    Snoc(s1, writes, Commit(table), Crashable);
    TrailOne(s, Transact([planned]));
    Chain(s, [Transact([planned])], Staging(s, planned), Crashable);
  }

  lemma StoppedInPrefix(first: seq<Step>, body: seq<Step>, safe: seq<Step>, late: nat, cut: nat, rollback: bool)
    requires Plain(body) && safe <= body && late <= |safe| && cut == |first| + late
    ensures StoppedAt(first + body, cut, rollback) == first + safe[..late]
  {
    StoppedBack(first, body, late, rollback);
    assert StoppedAt(body, late, rollback) == body[..late] == safe[..late];
  }

  lemma GoodUpTo(s: Db, first: seq<Step>, safe: seq<Step>, late: nat)
    requires Good(s, first, Crashable) && Good(Exec(s, first), safe, Crashable) && late <= |safe|
    ensures Good(s, first + safe[..late], Crashable)
  {
    GoodPrefix(Exec(s, first), safe, late, Crashable);
    GoodAppend(s, first, safe[..late], Crashable);
  }

  // A stop inside a second script, of which a prefix is known to be crashable.
  lemma StopsInPrefix(s: Db, first: seq<Step>, body: seq<Step>, safe: seq<Step>, late: nat, cut: nat, rollback: bool)
    requires Good(s, first, Crashable) && Good(Exec(s, first), safe, Crashable)
    requires Plain(body) && safe <= body && late <= |safe| && cut == |first| + late
    ensures Good(s, StoppedAt(first + body, cut, rollback), Crashable)
  {
    GoodUpTo(s, first, safe, late);
    StoppedInPrefix(first, body, safe, late, cut, rollback);
  }

  // A published write after `first`, stopped before its record is deleted.
  lemma PublishedStops(s: Db, first: seq<Step>, planned: Planned, late: nat, cut: nat,
                       rollback: bool)
    requires Good(s, first, Crashable) && Holds(Exec(s, first), Strict) && Unstaged(Exec(s, first)) == []
    requires !Unovertaken(Exec(s, first), [planned]) && late + 1 < |PublishedScript(Exec(s, first), [planned])|
    requires cut == |first| + late
    ensures Good(s, StoppedAt(first + PublishedScript(Exec(s, first), [planned]), cut, rollback), Crashable)
  {
    var s1 := Exec(s, first);
    var body, safe := PublishedScript(s1, [planned]), [Transact([planned])] + Staging(s1, planned);
    HoldsWeaker(s1, Strict, Crashable);
    PublishedUntilPurge(s1, planned);
    PublishedShape(s1, planned);
    BatchPlain(s1, [planned]);
    StopsInPrefix(s, first, body, safe, late, cut, rollback);
  }

  lemma PublishedAnywhere(s: Db, first: seq<Step>, planned: Planned, cut: nat, rollback: bool)
    requires Good(s, first, Strict) && InstallsDirty(s, first)
    requires Holds(Exec(s, first), Strict) && Unstaged(Exec(s, first)) == []
    requires !Unovertaken(Exec(s, first), [planned])
    requires cut <= |first| || cut + 1 < |first| + |PublishedScript(Exec(s, first), [planned])|
    ensures var done := StoppedAt(first + PublishedScript(Exec(s, first), [planned]), cut, rollback);
            Good(s, done, Crashable) && (cut <= |first| ==> Holds(Exec(s, done), Strict))
  {
    var body := PublishedScript(Exec(s, first), [planned]);
    if cut <= |first| {
      BatchPlain(Exec(s, first), [planned]);
      StopsEarly(s, first, body, cut, rollback);
      GoodWeaker(s, StoppedAt(first + body, cut, rollback), Strict, Crashable);
    } else {
      GoodWeaker(s, first, Strict, Crashable);
      PublishedStops(s, first, planned, cut - |first|, cut, rollback);
    }
  }

  /** A published write that has not committed its transaction, or whose record a crash leaves behind. */
  lemma PublishedCall(s: Db, event: Event)
    requires Holds(s, Strict) && Lists(event.listed, s.dirty) && event.command.Mutate? && event.command.publish
    requires !Exposed(s, event) && !Unovertaken(Recovered(s, event.listed), [event.command.planned])
    ensures Good(s, Performed(s, event), Crashable)
    ensures Holds(Happen(s, event), Strict)
  {
    var planned := event.command.planned;
    RecoveredHolds(s, event.listed, Strict);
    RecoverGood(s, event.listed, Strict);
    RecoverInstalls(s, event.listed);
    MutateShape(s, planned, true, event.listed);
    PublishedAnywhere(s, RecoverScript(s, event.listed), planned, event.cut, event.rollback);
    GoodEnds(s, Performed(s, event), Crashable);
    CrashStep(Exec(s, Performed(s, event)));
  }

  /** A guarded call is crashable at each of its steps and leaves the next call as safe. */
  lemma GuardedCall(s: Db, event: Event)
    requires Holds(s, Strict) && Admissible(s, event) && Guarded(s, event)
    ensures Good(s, Performed(s, event), Crashable)
    ensures Holds(Happen(s, event), Strict)
  {
    if StrictCall(s, event) {
      StrictEvent(s, event);
    } else if event.command.Mutate? && event.command.publish {
      PublishedCall(s, event);
    } else {
      DeferredCall(s, event);
    }
  }

  ghost predicate StrictCall(s: Db, event: Event) {
    match event.command
    case Mutate(planned, _) => Unovertaken(Recovered(s, event.listed), [planned])
    case Bulk(table, rows, upsert, _) => Unovertaken(Recovered(s, event.listed), [PlannedBulk(table, rows, upsert)])
    case _ => true
  }

  lemma StrictCallGood(s: Db, event: Event)
    requires Holds(s, Strict) && Admissible(s, event) && StrictCall(s, event)
    ensures Good(s, Script(s, event.command, event.listed), Strict)
  {
    match event.command
    case Read => RecoverGood(s, event.listed, Strict);
    case Flush => FlushGood(s, Strict);
    case Mutate(planned, publish) => MutateGood(s, planned, publish, event.listed, Strict);
    case Bulk(table, rows, upsert, publish) => BulkGood(s, table, rows, upsert, publish, event.listed, Strict);
    case Batch(batch) => BatchGood(s, batch, Strict);
    case Rebuild(table, contents) => RebuildCallGood(s, table, contents, Strict);
    case Remove(table) => RemoveCallGood(s, table, Strict);
  }
}
