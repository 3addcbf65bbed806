/** The database object: the methods that perform the outbox protocol.  `if *` stands for an I/O
    error, after which a method returns false with the steps performed so far; a crash is such a stop
    followed by `CrashAndForget`. */
module OutboxDatabase {
  import opened Wrappers
  import opened Outbox
  import opened OutboxInvariant
  import opened OutboxScripts
  import opened OutboxRollback
  import opened OutboxWrites
  import opened OutboxCalls
  import opened OutboxRows

  class Database {
    var tables: map<string, Rows>
    var outbox: seq<Record>
    var next: nat
    var dirty: set<string>
    var disk: Disk
    var deferred: set<nat>
    var staged: set<nat>
    var writers: map<string, seq<WriterOp>>

    function State(): Db
      reads this
    {
      Db(tables, outbox, next, dirty, disk, deferred, staged, writers)
    }

    constructor ()
      ensures State() == Db(map[], [], 0, {}, map[], {}, {}, map[])
    {
      tables, outbox, next, dirty, disk := map[], [], 0, {}, map[];
      deferred, staged, writers := {}, {}, map[];
    }

    method CrashAndForget()
      modifies this
      ensures State() == Do(old(State()), Crash)
    {
      deferred, staged, writers := {}, {}, map[];
    }

    method QueueInWriter(table: string, op: WriterOp)
      modifies this`writers
      ensures State() == Do(old(State()), Write(table, op))
    {
      writers := writers[table := (if table in writers then writers[table] else []) + [op]];
    }

    /** Deletes each key and re-adds upserted rows; an unresolved refresh is refused. */
    method StageRowOperations(table: string, operations: seq<Operation>) returns (ok: bool, ghost queued: seq<WriterOp>)
      modifies this`writers
      ensures queued <= StageOps(operations) && State() == Queue(old(State()), table, queued)
      ensures ok ==> queued == StageOps(operations) && forall op :: op in operations ==> !op.Refresh?
    {
      queued := [];
      for i := 0 to |operations|
        invariant queued == StageOps(operations[..i]) && State() == Queue(old(State()), table, queued)
        invariant forall op :: op in operations[..i] ==> !op.Refresh?
      {
        var op := operations[i];
        assert operations[..i + 1][..i] == operations[..i];
        StagePrefix(operations, i);
        StagePrefix(operations, i + 1);
        assert StageOps(operations[..i + 1]) == queued + WriterOps(op);
        if op.Refresh? { return false, queued; }
        if * { return false, queued; }
        QueueInWriter(table, DeleteTerm(op.Target()));
        QueueSnoc(old(State()), table, queued, DeleteTerm(op.Target()));
        queued := queued + [DeleteTerm(op.Target())];
        if op.Upsert? {
          if * { return false, queued; }
          QueueInWriter(table, AddDocument(op.row));
          QueueSnoc(old(State()), table, queued, AddDocument(op.row));
          queued := queued + [AddDocument(op.row)];
        }
      }
      assert operations[..|operations|] == operations;
      ok := true;
    }

    /** Queues one outstanding record, its refreshes resolved against the current rows. */
    method StageOutbox(table: string, id: nat) returns (ok: bool, ghost queued: seq<WriterOp>)
      modifies this`writers
      ensures State() == Queue(old(State()), table, queued)
      ensures var found := Find(outbox, id);
              if found.None? || found.value.table != table || table !in tables then !ok && queued == []
              else
                var ops := StageOps(ResolveAll(found.value.operations, tables[table]));
                queued <= ops && (ok ==> queued == ops)
    {
      match Find(outbox, id)
      case None => return false, [];
      case Some(record) =>
        if record.table != table || table !in tables { return false, []; }
        ok, queued := StageRowOperations(table, ResolveAll(record.operations, tables[table]));
    }

    // The protocol invariant; every method keeps it, also when it fails half-way.
    ghost predicate Valid()
      reads this
    {
      Holds(State(), Live)
    }

    /** Stages the records of one table that are not staged yet. */
    method StageGroup(table: string, ids: seq<nat>, ghost chosen: set<nat>)
      returns (ok: bool, ghost queued: seq<WriterOp>)
      requires Valid() && ids == IdList(Group(State(), table, chosen))
      modifies this`writers
      ensures queued <= ToQueue(old(State()), table, chosen) && State() == Queue(old(State()), table, queued)
      ensures ok ==> queued == ToQueue(old(State()), table, chosen)
    {
      ghost var s0, group := State(), Group(State(), table, chosen);
      queued := [];
      assert group[..0] == [];
      for j := 0 to |ids|
        invariant queued == RecordOps(Drop(group[..j], s0.staged), RowsOf(s0, table))
        invariant queued <= ToQueue(s0, table, chosen)
        invariant State() == Queue(s0, table, queued)
      {
        if ids[j] !in staged {
          FindInGroup(s0, table, chosen, j);
          ghost var more: seq<WriterOp>;
          ok, more := StageOutbox(table, ids[j]);
          QueueAppend(s0, table, queued, more);
          StagedOneMore(s0, table, chosen, j, queued, more);
          queued := queued + more;
          if !ok { return; }
        } else {
          GroupPrefix(group, s0.staged, RowsOf(s0, table), j);
        }
      }
      assert group[..|ids|] == group;
      ok := true;
    }

    /** Makes everything queued for the table visible at once. */
    method CommitIndex(table: string) returns (ok: bool)
      modifies this`disk, this`writers
      ensures State() == if ok then Do(old(State()), Commit(table)) else old(State())
    {
      var installed := At(disk, PathsOf(table).final);
      if !installed.Whole? { return false; }
      if * { return false; }
      var buffered := if table in writers then writers[table] else [];
      disk := disk[PathsOf(table).final := Whole(ApplyWriter(installed.documents, buffered))];
      writers := writers[table := []];
      ok := true;
    }

    method ForgetIds(ids: seq<nat>, ghost group: seq<Record>)
      requires ids == IdList(group)
      modifies this`deferred, this`staged
      ensures State() == Exec(old(State()), Forgets(group))
    {
      for j := 0 to |ids|
        invariant State() == Exec(old(State()), Forgets(group)[..j])
      {
        OneStep(old(State()), Forgets(group), j);
        deferred := deferred - {ids[j]};
        staged := staged - {ids[j]};
      }
      assert Forgets(group)[..|ids|] == Forgets(group);
    }

    /** Publishes one table's part of a group of records: stage those not staged yet, commit, delete
        the records, forget their ids. */
    method PublishGroup(table: string, ids: seq<nat>, ghost chosen: set<nat>) returns (ok: bool, ghost done: nat)
      requires Valid() && ids == IdList(Group(State(), table, chosen))
      modifies this
      ensures var script := GroupScript(old(State()), table, chosen);
              && done <= |script| && State() == Exec(old(State()), script[..done])
              && (ok ==> done == |script|)
    {
      ghost var s0 := State();
      ghost var queued: seq<WriterOp>;
      ok, queued := StageGroup(table, ids, chosen);
      GroupCut(s0, table, chosen, queued);
      done := |queued|;
      if ok { ok, done := PublishStaged(table, ids, chosen, s0); }
    }

    // The rest, once all records of the group are staged.
    method PublishStaged(table: string, ids: seq<nat>, ghost chosen: set<nat>, ghost s0: Db)
      returns (ok: bool, ghost done: nat)
      requires ids == IdList(Group(s0, table, chosen)) && State() == Queue(s0, table, ToQueue(s0, table, chosen))
      modifies this
      ensures var script := GroupScript(s0, table, chosen);
              && done <= |script| && State() == Exec(s0, script[..done]) && (ok ==> done == |script|)
    {
      ghost var group := Group(s0, table, chosen);
      GroupCut(s0, table, chosen, ToQueue(s0, table, chosen));
      done := |ToQueue(s0, table, chosen)|;
      ok := CommitIndex(table);
      if !ok { return; }
      done := done + 1;
      GroupCommitted(s0, table, chosen);
      ok := PurgeGroup(ids, group);
      if !ok { return; }
      done := done + 1 + |ids|;
      GroupFinished(s0, table, chosen);
    }

    // The transaction that deletes the published records, and then their ids in memory.
    method PurgeGroup(ids: seq<nat>, ghost group: seq<Record>) returns (ok: bool)
      requires ids == IdList(group)
      modifies this`outbox, this`deferred, this`staged
      ensures State() == if ok then Exec(Do(old(State()), Purge(Ids(group))), Forgets(group)) else old(State())
    {
      if * { return false; }
      outbox := Drop(outbox, IdSet(ids));
      IdsOfGroup(group);
      ForgetIds(ids, group);
      ok := true;
    }

    /** The same, keeping the invariant wherever it stops. */
    method ApplyGroup(table: string, ids: seq<nat>, ghost chosen: set<nat>) returns (ok: bool, ghost done: nat)
      requires Valid() && Selects(State(), chosen, Live) && table in tables
      requires ids == IdList(Group(State(), table, chosen))
      modifies this
      ensures Valid()
      ensures var script := GroupScript(old(State()), table, chosen);
              && done <= |script| && State() == Exec(old(State()), script[..done])
              && (ok ==> done == |script|)
    {
      GroupGood(State(), table, chosen, Live);
      ok, done := PublishGroup(table, ids, chosen);
      StopsHolding(old(State()), GroupScript(old(State()), table, chosen), done);
    }

    /** Publishes the records that `ids` names, table by table.  Callers pass every outstanding id or
        exactly the unstaged ones, in id order. */
    method ApplyOutboxes(ids: seq<nat>) returns (ok: bool)
      requires Valid() && IdOrder(ids) && Selects(State(), IdSet(ids), Live)
      modifies this
      ensures Valid() && Follows(old(State()), ApplyScript(old(State()), IdSet(ids)), State(), ok)
    {
      ghost var s0 := State();
      var names, groups := GroupByTable(ids);
      StartFollowing(s0, ids, groups);
      ghost var performed: seq<Step>;
      ok, performed := ApplyTables(names, groups, IdSet(ids));
      FollowsSome(s0, ApplyScript(s0, IdSet(ids)), performed, ok);
    }

    method ApplyTables(names: seq<string>, groups: map<string, seq<nat>>, ghost chosen: set<nat>)
      returns (ok: bool, ghost performed: seq<Step>)
      requires Following(State(), names, 0, groups, chosen)
      modifies this
      ensures Valid() && State() == Exec(old(State()), performed)
      ensures var script := GroupsScript(old(State()), names, chosen);
              if ok then performed == script else performed <= script
    {
      ghost var s0, script := State(), GroupsScript(State(), names, chosen);
      performed := [];
      StartReached(s0, names, chosen);
      for i := 0 to |names|
        invariant Following(State(), names, i, groups, chosen)
        invariant Reached(s0, State(), performed, names, i, chosen, script)
      {
        ghost var before := State();
        ghost var done: nat;
        ok, done := ApplyGroup(names[i], GroupIds(groups, names[i]), chosen);
        ReachedNext(s0, before, State(), performed, names, i, chosen, script, done);
        performed := performed + GroupScript(before, names[i], chosen)[..done];
        if !ok { return; }
        FollowingNext(before, State(), names, i, groups, chosen);
      }
      ReachedEnd(s0, State(), performed, names, chosen, script);
      ok := true;
    }

    // The publication of deferred writes is left to the next flush.
    method ReplayOutbox() returns (ok: bool)
      requires Valid()
      modifies this
      ensures Valid() && Follows(old(State()), ReplayScript(old(State())), State(), ok)
    {
      Outstanding(State(), deferred);
      ok := ApplyOutboxes(IdList(Drop(outbox, deferred)));
    }

    /** Publishes every outstanding record. */
    method Flush() returns (ok: bool)
      requires Valid()
      modifies this
      ensures Valid() && Follows(old(State()), FlushScript(old(State())), State(), ok)
    {
      ghost var s0 := State();
      var ids := IdList(outbox);
      AllOutstanding(s0);
      FlushGood(s0, Live);
      ok := ApplyOutboxes(ids);
      if ok {
        ForgetIds(ids, s0.outbox);
        ExecAppend(s0, ApplyScript(s0, Ids(s0.outbox)), Forgets(s0.outbox));
        GoodEnds(s0, FlushScript(s0), Live);
      } else {
        FollowsFront(s0, ApplyScript(s0, Ids(s0.outbox)), Forgets(s0.outbox), State());
      }
    }

    // One action on the directories of a table.
    method Perform(table: string, action: FileAction)
      modifies this`disk
      ensures State() == Do(old(State()), Files(table, action))
    {
      disk := Act(disk, PathsOf(table), if table in tables then tables[table] else map[], action);
    }

    method RemoveDirectory(table: string, slot: Slot) returns (ok: bool)
      modifies this`disk
      ensures Follows(old(State()), FileSteps(table, Removal(slot)), State(), ok)
    {
      ghost var s0, script := State(), FileSteps(table, Removal(slot));
      FollowsTwo(s0, script);
      if * { return false; }
      Perform(table, Tear(slot));
      if * { return false; }
      Perform(table, Clear(slot));
      return true;
    }

    /** Writes every row to a new generation beside the installed one. */
    method BuildGeneration(table: string) returns (ok: bool)
      modifies this`disk
      ensures Follows(old(State()), FileSteps(table, BuildActions()), State(), ok)
    {
      ghost var s0, clear, fill := State(), FileSteps(table, Removal(Building)), FileSteps(table, [Create, Fill]);
      BuildParts(table);
      ok := RemoveDirectory(table, Building);
      if !ok { FollowsFront(s0, clear, fill, State()); return; }
      ghost var s1 := State();
      FollowsTwo(s1, fill);
      ok := CreateAndFill(table);
      FollowsBack(s0, clear, fill, State(), ok);
    }

    method CreateAndFill(table: string) returns (ok: bool)
      modifies this`disk
      ensures Follows(old(State()), FileSteps(table, [Create, Fill]), State(), ok)
    {
      FollowsTwo(State(), FileSteps(table, [Create, Fill]));
      if * { return false; }
      Perform(table, Create);
      if * { return false; }
      Perform(table, Fill);
      return true;
    }

    /** Installs the generation that was built. */
    method SwapIndexGeneration(table: string) returns (ok: bool)
      modifies this`disk
      ensures Follows(old(State()), FileSteps(table, SwapActions(PathsOf(table))), State(), ok)
    {
      ghost var s0, clear, install := State(), FileSteps(table, Removal(Retired)), InstallSteps(table);
      SwapParts(table);
      ok := RemoveDirectory(table, Retired);
      if !ok { FollowsFront(s0, clear, install, State()); return; }
      RetiredRemoved(s0, table);
      ok := MoveAndRetire(table);
      FollowsBack(s0, clear, install, State(), ok);
    }

    // The previous generation is looked for once the retired one has been removed.
    method MoveAndRetire(table: string) returns (ok: bool)
      requires PathsOf(table).retired in disk && At(disk, PathsOf(table).retired).Absent?
      modifies this`disk
      ensures Follows(old(State()), InstallSteps(table), State(), ok)
    {
      ghost var s1, moves, clear := State(), FileSteps(table, Moves()), FileSteps(table, Removal(Retired));
      var hadPrevious := !At(disk, PathsOf(table).final).Absent?;
      ok := MoveIntoPlace(table, hadPrevious);
      if !hadPrevious {
        InstalledAlone(s1, table, State(), ok);
      } else if !ok {
        FollowsFront(s1, moves, clear, State());
      } else {
        ok := RemoveDirectory(table, Retired);
        FollowsBack(s1, moves, clear, State(), ok);
      }
    }

    // When the new generation cannot be moved into place the previous one is moved back, and an
    // error of that move is ignored.
    method MoveIntoPlace(table: string, hadPrevious: bool) returns (ok: bool)
      modifies this`disk
      ensures hadPrevious ==> Follows(old(State()), FileSteps(table, Moves()), State(), ok)
      ensures !hadPrevious ==> State() == if ok then Do(old(State()), Install(table)) else old(State())
    {
      ghost var s0 := State();
      FollowsTwo(s0, FileSteps(table, Moves()));
      if hadPrevious {
        if * { return false; }
        Perform(table, Rename(Final, Retired));
      }
      if * {
        if hadPrevious {
          if * { return false; }
          Perform(table, Rename(Retired, Final));
          MovedBack(s0, table);
        }
        return false;
      }
      Perform(table, Rename(Building, Final));
      return true;
    }

    /** Rebuilds the index of a dirty table from its rows. */
    method RebuildTable(table: string) returns (ok: bool)
      requires Valid() && table in dirty
      modifies this
      ensures Valid() && Follows(old(State()), RebuildScript(table), State(), ok)
    {
      ghost var s0 := State();
      ok := BuildAndSwap(table);
      RebuildGood(s0, table, Live);
      RebuildInstalls(s0, table);
      FollowsHolds(s0, RebuildScript(table), State(), ok, Live);
    }

    method BuildAndSwap(table: string) returns (ok: bool)
      modifies this
      ensures Follows(old(State()), RebuildScript(table), State(), ok)
    {
      ghost var s0 := State();
      Close(table);
      ExecOne(s0, CloseIndex(table));
      ok := BuildThenSwap(table);
      RebuildParts(table);
      FollowsBack(s0, [CloseIndex(table)], FileSteps(table, BuildActions()) + SwapScript(table), State(), ok);
    }

    // The writer of the table goes away with what was queued in it.
    method Close(table: string)
      modifies this`writers
      ensures State() == Do(old(State()), CloseIndex(table))
    {
      writers := writers - {table};
    }

    method BuildThenSwap(table: string) returns (ok: bool)
      modifies this
      ensures Follows(old(State()), FileSteps(table, BuildActions()) + SwapScript(table), State(), ok)
    {
      ghost var s1 := State();
      ok := BuildGeneration(table);
      if !ok {
        FollowsFront(s1, FileSteps(table, BuildActions()), SwapScript(table), State());
      } else {
        ok := SwapAndClean(table);
        FollowsBack(s1, FileSteps(table, BuildActions()), SwapScript(table), State(), ok);
      }
    }

    method SwapAndClean(table: string) returns (ok: bool)
      modifies this
      ensures Follows(old(State()), SwapScript(table), State(), ok)
    {
      ghost var s0 := State();
      ok := SwapIndexGeneration(table);
      SwappedNotClean(s0, table, State(), ok);
      if ok {
        if * {
          ok := false;
        } else {
          SwappedAndClean(s0, table, State());
          ClearDirty(table);
        }
      }
    }

    method ClearDirty(table: string)
      modifies this`dirty
      ensures State() == Do(old(State()), MarkClean(table))
    {
      dirty := dirty - {table};
    }

    /** The dirty tables, each once. */
    method DirtyTables() returns (names: seq<string>)
      ensures Lists(names, dirty)
    {
      names := [];
      var rest := dirty;
      while rest != {}
        invariant rest <= dirty && Distinct(names)
        invariant forall name :: name in names <==> name in dirty && name !in rest
        decreases |rest|
      {
        var name :| name in rest;
        names := names + [name];
        rest := rest - {name};
      }
    }

    method RebuildAll(names: seq<string>) returns (ok: bool)
      requires Valid() && Lists(names, dirty)
      modifies this
      ensures Valid() && Follows(old(State()), RebuildsScript(names), State(), ok)
    {
      ghost var s0 := State();
      for i := 0 to |names|
        invariant Valid() && State() == Exec(s0, RebuildsScript(names[..i]))
      {
        StillDirty(s0, names, i);
        ok := RebuildTable(names[i]);
        RebuildsSplit(names, i);
        FollowsBack(s0, RebuildsScript(names[..i]), RebuildScript(names[i]), State(), ok);
        if !ok {
          FollowsLonger(s0, RebuildsScript(names[..i + 1]), RebuildsScript(names), State());
          return;
        }
      }
      assert names[..|names|] == names;
      ok := true;
    }

    /** Rebuilds the dirty tables and replays the outbox; every call that reads the index starts here. */
    method Recover() returns (ok: bool, ghost listed: seq<string>)
      requires Valid()
      modifies this
      ensures Valid() && Lists(listed, old(dirty)) &&
              Follows(old(State()), RecoverScript(old(State()), listed), State(), ok)
    {
      ghost var s0 := State();
      var names := DirtyTables();
      listed := names;
      ok := RebuildAll(names);
      ghost var replay := ReplayScript(Exec(s0, RebuildsScript(names)));
      if !ok {
        FollowsFront(s0, RebuildsScript(names), replay, State());
      } else {
        ok := ReplayOutbox();
        FollowsBack(s0, RebuildsScript(names), replay, State(), ok);
      }
    }

    /** The table of each outstanding id: table names in order, and the ids of each. */
    method GroupByTable(ids: seq<nat>) returns (names: seq<string>, groups: map<string, seq<nat>>)
      ensures Grouped(outbox, ids, names, groups)
    {
      names, groups := [], map[];
      for i := 0 to |ids|
        invariant Grouped(outbox, ids[..i], names, groups)
      {
        GroupedNext(outbox, ids, i, names, groups);
        match Find(outbox, ids[i])
        case None =>
        case Some(record) =>
          names := InsertName(record.table, names);
          groups := groups[record.table := GroupIds(groups, record.table) + [ids[i]]];
      }
      assert ids[..|ids|] == ids;
    }

    /** One transaction: all mutations of the batch, each with its record, or nothing. */
    method Persist(batch: seq<Planned>) returns (ok: bool, added: seq<Record>)
      modifies this`tables, this`outbox, this`next
      ensures !ok ==> State() == old(State())
      ensures ok ==> RunBatch(old(tables), old(next), batch).Some? && added == AddedRecords(old(State()), batch)
      ensures ok ==> State() == Do(old(State()), Transact(batch))
    {
      added := [];
      var effect := RunMutations(batch);
      if effect.None? { return false, added; }
      if * { return false, added; }
      added := effect.value.records;
      tables, outbox, next := effect.value.tables, outbox + added, next + |added|;
      ok := true;
    }

    // Inside the transaction: one mutation after another, until one fails.
    method RunMutations(batch: seq<Planned>) returns (r: Option<Effect>)
      ensures r == RunBatch(tables, next, batch)
    {
      var effect := Effect(tables, []);
      for i := 0 to |batch|
        invariant RunBatch(tables, next, batch[..i]) == Some(effect)
      {
        BatchStops(tables, next, batch, i + 1);
        BatchOneMore(tables, next, batch, i);
        var one := RunOne(effect, batch[i]);
        if one.None? { return None; }
        effect := one.value;
      }
      assert batch[..|batch|] == batch;
      return Some(effect);
    }

    // One mutation on its table, with the record of what it changed.
    method RunOne(before: Effect, planned: Planned) returns (after: Option<Effect>)
      ensures after == OneMore(before, next, planned)
    {
      var changed, added := before.tables, before.records;
      if planned.table !in changed { return None; }
      var change := ApplyPlanned(changed[planned.table], planned);
      if change.None? { return None; }
      changed := changed[planned.table := change.value.rows];
      if change.value.operations != [] {
        added := added + [Record(next + |added|, planned.table, change.value.operations)];
      }
      return Some(Effect(changed, added));
    }

    /** Commits a batch in SQLite and publishes the records it added. */
    method PersistAndPublish(batch: seq<Planned>) returns (ok: bool)
      requires Valid() && Unstaged(State()) == []
      modifies this
      ensures Valid() && Follows(old(State()), PublishedScript(old(State()), batch), State(), ok)
      ensures ok ==> RunBatch(old(tables), old(next), batch).Some?
    {
      ghost var s0 := State();
      var added: seq<Record>;
      NotStarted(s0, PublishedScript(s0, batch));
      ok, added := Persist(batch);
      if !ok { return; }
      AfterTransaction(s0, batch);
      ok := ApplyOutboxes(IdList(added));
      ExecOne(s0, Transact(batch));
      FollowsBack(s0, TransactScript(s0, batch), ApplyScript(Do(s0, Transact(batch)), Ids(added)), State(), ok);
    }

    /** Commits one mutation in SQLite, queues it in the writer and leaves its record deferred. */
    method PersistAndDefer(planned: Planned) returns (ok: bool)
      requires Valid() && Unstaged(State()) == []
      modifies this
      ensures Valid() && Follows(old(State()), DeferredScript(old(State()), planned), State(), ok)
      ensures ok ==> RunBatch(old(tables), old(next), [planned]).Some?
    {
      ghost var s0 := State();
      ok := QueueAndDefer(planned);
      DeferredHolds(s0, planned, State(), ok);
    }

    method QueueAndDefer(planned: Planned) returns (ok: bool)
      requires Tidy(State())
      modifies this
      ensures Follows(old(State()), DeferredScript(old(State()), planned), State(), ok)
      ensures ok ==> RunBatch(old(tables), old(next), [planned]).Some?
    {
      ghost var s0 := State();
      var added: seq<Record>;
      NotStarted(s0, DeferredScript(s0, planned));
      ok, added := Persist([planned]);
      if ok && added == [] { NothingToDefer(s0, planned); }
      if ok && added != [] { ok := DeferRecord(planned, added, s0); }
    }

    method DeferRecord(planned: Planned, added: seq<Record>, ghost s0: Db) returns (ok: bool)
      requires Tidy(s0) && RunBatch(s0.tables, s0.next, [planned]).Some?
      requires State() == Do(s0, Transact([planned])) && added == AddedRecords(s0, [planned]) != []
      modifies this
      ensures Follows(s0, DeferredScript(s0, planned), State(), ok)
    {
      ghost var s1 := State();
      AddedRecord(s0, s1, planned, added);
      ghost var queued: seq<WriterOp>;
      ok, queued := QueueMutation(planned, added);
      DeferredCut(s0, s1, planned, added, queued);
      if ok { Remember(added[0].id); }
    }

    method Remember(id: nat)
      modifies this`deferred, this`staged
      ensures State() == Do(old(State()), Defer(id))
    {
      deferred := deferred + {id};
      staged := staged + {id};
    }

    // A bulk write queues the rows it was given, an update or delete the record it stored.
    method QueueMutation(planned: Planned, added: seq<Record>) returns (ok: bool, ghost queued: seq<WriterOp>)
      requires |added| == 1 && Find(outbox, added[0].id) == Some(added[0]) && added[0].table == planned.table
      requires planned.table in tables
      modifies this`writers
      ensures State() == Queue(old(State()), planned.table, queued)
      ensures var ops := Queued(old(State()), planned, added); queued <= ops && (ok ==> queued == ops)
    {
      if planned.PlannedBulk? {
        ok, queued := StageRowOperations(planned.table, Upserts(planned.rows));
      } else {
        OneRecordOps(added, tables[planned.table]);
        ok, queued := StageOutbox(planned.table, added[0].id);
      }
    }

    /** Opening starts with empty sets and writers, and recovers. */
    method Open() returns (ok: bool, ghost listed: seq<string>)
      requires Holds(State(), Crashable)
      modifies this
      ensures Valid() && Serves(Do(old(State()), Crash), Read, listed, State(), ok)
    {
      CrashStep(State());
      CrashAndForget();
      HoldsWeaker(State(), Strict, Live);
      ok, listed := Recover();
    }

    /** An update or delete of the keys its filter matched: SQLite's tables are left as they were or as
        the mutation should leave them, and the latter if the call succeeds. */
    method MutateTyped(planned: Planned, publish: bool, maxRows: Option<nat>)
      returns (ok: bool, ghost listed: seq<string>)
      requires Valid() && (planned.PlannedUpdate? || planned.PlannedDelete?)
      modifies this
      ensures Valid() && Serves(old(State()), Mutate(planned, publish), listed, State(), ok)
      ensures ok && maxRows.Some? ==> |planned.keys| <= maxRows.value
      ensures tables == old(tables) || PerformsOne(old(tables), planned, tables)
      ensures ok ==> PerformsOne(old(tables), planned, tables)
    {
      ghost var s0 := State();
      ok, listed := Recover();
      ghost var s1, first := State(), ok;
      RecoveredHolds(s0, listed, Live);
      if ok {
        if maxRows.Some? && |planned.keys| > maxRows.value {
          NotStarted(s1, MutateScript(s1, planned, publish));
          ok := false;
        } else if publish {
          ok := PersistAndPublish([planned]);
        } else {
          ok := PersistAndDefer(planned);
        }
      }
      MutateServed(s0, s1, State(), planned, publish, listed, first, ok);
      MutationDone(s0, s1, State(), Mutate(planned, publish), listed, first, ok);
    }

    /** Inserts or upserts rows; the publishing form flushes only after a write that succeeded. */
    method BulkWrite(table: string, rows: seq<Row>, upsert: bool, publish: bool)
      returns (ok: bool, ghost listed: seq<string>)
      requires Valid()
      modifies this
      ensures Valid() && Serves(old(State()), Bulk(table, rows, upsert, publish), listed, State(), ok)
      ensures tables == old(tables) || PerformsOne(old(tables), PlannedBulk(table, rows, upsert), tables)
      ensures ok && rows != [] ==> PerformsOne(old(tables), PlannedBulk(table, rows, upsert), tables)
    {
      ghost var s0 := State();
      ok, listed := Recover();
      ghost var s1, first := State(), ok;
      RecoveredHolds(s0, listed, Live);
      if ok { ok := WriteRows(table, rows, upsert, publish); }
      BulkServed(s0, s1, State(), Bulk(table, rows, upsert, publish), listed, first, ok);
      MutationDone(s0, s1, State(), Bulk(table, rows, upsert, publish), listed, first, ok);
    }

    method WriteRows(table: string, rows: seq<Row>, upsert: bool, publish: bool) returns (ok: bool)
      requires Valid() && Unstaged(State()) == []
      modifies this
      ensures Valid() && Follows(old(State()), BulkScript(old(State()), table, rows, upsert, publish), State(), ok)
      ensures ok && rows != [] ==> RunBatch(old(tables), old(next), [PlannedBulk(table, rows, upsert)]).Some?
    {
      ghost var s0 := State();
      if rows == [] {
        ok := true;
        if publish { ok := Flush(); }
        return;
      }
      NotStarted(s0, BulkScript(s0, table, rows, upsert, publish));
      if * { return false; }
      ok := PersistAndDefer(PlannedBulk(table, rows, upsert));
      ghost var s1 := State();
      if !ok { BulkStopped(s0, s1, table, rows, upsert, publish); return; }
      if publish { ok := Flush(); }
      BulkWritten(s0, s1, State(), table, rows, upsert, publish, ok);
    }

    /** Applies a batch atomically on top of a flushed index and publishes it. */
    method MutateBatch(batch: seq<Planned>) returns (ok: bool)
      requires Valid()
      modifies this
      ensures Valid() && Follows(old(State()), Script(old(State()), Batch(batch), []), State(), ok)
      ensures tables == old(tables) || PerformsAll(old(tables), batch, tables)
      ensures ok ==> PerformsAll(old(tables), batch, tables)
    {
      ghost var s0 := State();
      FlushGood(s0, Live);
      ok := Flush();
      ghost var s1, first, body := State(), ok, PublishedScript(Exec(s0, FlushScript(s0)), batch);
      if ok {
        if * {
          NotStarted(s1, body);
          ok := false;
        } else {
          ok := PersistAndPublish(batch);
        }
      }
      BatchServed(s0, s1, State(), batch, body, first, ok);
      CallDone(s0, s1, State(), Batch(batch), [], first, ok);
    }

    /** Creating, reindexing and altering a table: a catalog transaction that sets the rows and the
        dirty flag, then a rebuild.  A new name must be apart from the others for the invariant to last. */
    method ReplaceTable(table: string, contents: Rows) returns (ok: bool)
      requires Valid()
      modifies this
      ensures Follows(old(State()), Script(old(State()), Rebuild(table, contents), []), State(), ok)
      ensures tables == old(tables) || tables == old(tables)[table := contents]
      ensures ok ==> tables == old(tables)[table := contents]
      ensures Apart(old(tables).Keys + {table}) ==> Valid()
    {
      ghost var s0 := State();
      FlushGood(s0, Live);
      ok := Flush();
      ghost var s1, first := State(), ok;
      if ok { ok := ReplaceAndRebuild(table, contents); }
      ReplaceServed(s0, s1, State(), table, contents, first, ok);
      ReplacedByCall(s0, table, contents, State(), ok);
    }

    method ReplaceAndRebuild(table: string, contents: Rows) returns (ok: bool)
      requires Valid() && outbox == []
      modifies this
      ensures Follows(old(State()), ReplaceScript(table, contents), State(), ok)
      ensures Apart(old(tables).Keys + {table}) ==> Valid()
    {
      ghost var s0, replace := State(), [Replace(table, contents)];
      NotStarted(s0, ReplaceScript(table, contents));
      if * { return false; }
      ExecOne(s0, Replace(table, contents));
      tables, dirty := tables[table := contents], dirty + {table};
      ghost var s1 := State();
      ok := BuildAndSwap(table);
      FollowsBack(s0, replace, RebuildScript(table), State(), ok);
      if Apart(s0.tables.Keys + {table}) { StaysValid(s0, s1, State(), table, contents, ok); }
    }

    /** Drops the rows, the records and the catalog entry in one transaction, then the directory. */
    method DropTable(table: string) returns (ok: bool)
      requires Valid()
      modifies this
      ensures Valid() && Follows(old(State()), Script(old(State()), Remove(table), []), State(), ok)
      ensures tables == old(tables) || tables == old(tables) - {table}
      ensures ok ==> table in old(tables) && tables == old(tables) - {table}
    {
      ghost var s0 := State();
      FlushGood(s0, Live);
      ok := Flush();
      ghost var s1, first := State(), ok;
      if ok {
        if table !in tables {
          NotStarted(s1, RemoveScript(s1, table));
          ok := false;
        } else {
          ok := RemoveTable(table);
          RemovedHolds(s1, table, State(), ok);
        }
      }
      RemoveServed(s0, s1, State(), table, first, ok);
      RemovedByCall(s0, table, State(), ok);
    }

    method RemoveTable(table: string) returns (ok: bool)
      requires table in tables
      modifies this
      ensures Follows(old(State()), RemoveScript(old(State()), table), State(), ok)
    {
      ghost var s0 := State();
      if * {
        NotStarted(s0, RemoveScript(s0, table));
        return false;
      }
      Unregister(table);
      ghost var s1 := State();
      ok := RemoveDirectory(table, Final);
      RemovedAfterDrop(s0, s1, State(), table, ok);
    }

    // The transaction that drops the table and its records, and the writer closed after it.
    method Unregister(table: string)
      modifies this`tables, this`dirty, this`outbox, this`writers
      ensures State() == Do(Do(old(State()), Step.DropTable(table)), CloseIndex(table))
    {
      tables, dirty := tables - {table}, dirty - {table};
      outbox := Drop(outbox, Ids(ForTable(outbox, table)));
      writers := writers - {table};
    }
  }
}
