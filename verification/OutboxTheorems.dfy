/** What the outbox protocol guarantees, and exactly when it does not. */
module OutboxTheorems {
  import opened Wrappers
  import opened Outbox
  import opened OutboxFacts
  import opened OutboxInvariant
  import opened OutboxScripts
  import opened OutboxRollback
  import opened OutboxWrites
  import opened OutboxStops
  import opened OutboxRuns

  // ----- reopening is replaying -----

  lemma WritesThenCommit(s: Db, table: string, ops: seq<WriterOp>, gone: set<nat>)
    requires Installed(s, table).Whole?
    ensures var e := Exec(s, Writes(table, ops) + [Commit(table), Purge(gone)]);
            && e == s.(outbox := Drop(s.outbox, gone), disk := e.disk, writers := e.writers)
            && Installed(e, table) == Whole(ApplyWriter(Documents(s, table), Buffered(s, table) + ops))
            && Buffered(e, table) == []
            && (forall other :: other != table ==>
                Installed(e, other) == Installed(s, other) && Buffered(e, other) == Buffered(s, other))
  {
    WritesEffect(s, table, ops);
    CommitAndPurge(Exec(s, Writes(table, ops)), table, gone);
    ExecAppend(s, Writes(table, ops), [Commit(table), Purge(gone)]);
  }

  lemma CommitAndPurge(s: Db, table: string, gone: set<nat>)
    requires Installed(s, table).Whole?
    ensures var e := Exec(s, [Commit(table), Purge(gone)]);
            && e == s.(outbox := Drop(s.outbox, gone), disk := e.disk, writers := e.writers)
            && Installed(e, table) == Whole(ApplyWriter(Documents(s, table), Buffered(s, table)))
            && Buffered(e, table) == []
            && (forall other :: other != table ==>
                Installed(e, other) == Installed(s, other) && Buffered(e, other) == Buffered(s, other))
  {
    var s1 := Do(s, Commit(table));
    TrailOne(s, Commit(table));
    TrailOne(s1, Purge(gone));
    ExecAppend(s, [Commit(table)], [Purge(gone)]);
    assert [Commit(table)] + [Purge(gone)] == [Commit(table), Purge(gone)];
  }

  // A process that has just started: nothing staged, no writer open.
  ghost predicate Fresh(s: Db) {
    s.staged == {} && s.deferred == {} && forall table :: Buffered(s, table) == []
  }

  // The final documents of `table` once its group has been replayed.
  function GroupReplayed(s: Db, ids: set<nat>, table: string): seq<Row> {
    ApplyWriter(Documents(s, table), RecordOps(Group(s, table, ids), RowsOf(s, table)))
  }

  ghost predicate ReplaysGroup(s: Db, e: Db, table: string, ids: set<nat>) {
    && Fresh(e)
    && e == s.(outbox := Drop(s.outbox, Ids(Group(s, table, ids))), disk := e.disk, writers := e.writers)
    && Installed(e, table) == Whole(GroupReplayed(s, ids, table))
    && (forall other :: other != table ==> Installed(e, other) == Installed(s, other))
  }

  lemma GroupReplays(s: Db, table: string, ids: set<nat>)
    requires Fresh(s) && Installed(s, table).Whole?
    ensures ReplaysGroup(s, Exec(s, GroupScript(s, table, ids)), table, ids)
  {
    var group := Group(s, table, ids);
    DropAll(group, {});
    var ops := RecordOps(group, RowsOf(s, table));
    var head := Writes(table, ops) + [Commit(table), Purge(Ids(group))];
    WritesThenCommit(s, table, ops, Ids(group));
    assert [] + ops == ops;
    var s1 := Exec(s, head);
    ForgetsEffect(s1, group);
    ExecAppend(s, head, Forgets(group));
    var none: set<nat> := {};
    assert none - Ids(group) == none;
  }

  lemma {:induction false} PurgedGroup(s: Db, table: string, other: string, ids: set<nat>)
    requires Tidy(s)
    ensures var left := s.(outbox := Drop(s.outbox, Ids(Group(s, table, ids))));
            Group(left, other, ids) == if other == table then [] else Group(s, other, ids)
  {
    var gone := Ids(Group(s, table, ids));
    var left := s.(outbox := Drop(s.outbox, gone));
    KeepDropped(s.outbox, gone, ids);
    if other == table {
      EmptyOutbox(Group(left, table, ids));
      forall record ensures record !in Group(left, table, ids) {
        GroupMembers(left, table, ids, record);
        DropMembers(s.outbox, gone, record);
        GroupMembers(s, table, ids, record);
      }
    } else {
      forall record | record in Keep(s.outbox, ids) && record.table == other ensures record.id !in gone {
        KeepMembers(s.outbox, ids, record);
        if record.id in gone {
          var twin :| twin in Group(s, table, ids) && twin.id == record.id;
          GroupMembers(s, table, ids, twin);
          UniqueIds(s.outbox, record, twin);
        }
      }
      DropElsewhere(Keep(s.outbox, ids), gone, other);
    }
  }

  lemma KeepDropped(records: seq<Record>, gone: set<nat>, ids: set<nat>)
    ensures Keep(Drop(records, gone), ids) == Drop(Keep(records, ids), gone)
  {
    DropCommutes(records, gone, ids);
  }

  lemma GroupLeaves(s: Db, s1: Db, name: string, ids: set<nat>, table: string)
    requires Tidy(s) && ReplaysGroup(s, s1, name, ids)
    ensures Group(s1, table, ids) == if table == name then [] else Group(s, table, ids)
  {
    PurgedGroup(s, name, table, ids);
    assert Group(s1, table, ids) == Group(s.(outbox := s1.outbox), table, ids);
  }

  lemma GroupThenRest(s: Db, s1: Db, name: string, ids: set<nat>, table: string)
    requires Tidy(s) && Fresh(s) && Installed(s, table).Whole? && ReplaysGroup(s, s1, name, ids)
    ensures Tidy(s1) && Fresh(s1) && s1.tables == s.tables
    ensures forall other :: Installed(s, other).Whole? ==> Installed(s1, other).Whole?
    ensures GroupReplayed(s1, ids, table) == GroupReplayed(s, ids, table)
    ensures Documents(s1, table) == if table == name then GroupReplayed(s, ids, table) else Documents(s, table)
  {
    GroupTidy(s, s1, name, ids);
    GroupLeaves(s, s1, name, ids, table);
  }

  lemma {:induction false} GroupsReplay(s: Db, names: seq<string>, ids: set<nat>, table: string)
    requires Tidy(s) && Fresh(s) && Installed(s, table).Whole?
    requires forall name :: name in names ==> Installed(s, name).Whole?
    ensures var e := Exec(s, GroupsScript(s, names, ids));
            && e.tables == s.tables
            && Documents(e, table) == if table in names then GroupReplayed(s, ids, table) else Documents(s, table)
    decreases |names|
  {
    if names != [] {
      var first := GroupScript(s, names[0], ids);
      assert names == [names[0]] + names[1..];
      GroupReplays(s, names[0], ids);
      var s1 := Exec(s, first);
      GroupThenRest(s, s1, names[0], ids, table);
      GroupsReplay(s1, names[1..], ids, table);
      ExecAppend(s, first, GroupsScript(s1, names[1..], ids));
    }
  }

  lemma GroupTidy(s: Db, s1: Db, table: string, ids: set<nat>)
    requires Tidy(s) && Fresh(s) && Fresh(s1)
    requires s1 == s.(outbox := Drop(s.outbox, Ids(Group(s, table, ids))), disk := s1.disk, writers := s1.writers)
    requires Installed(s1, table).Whole?
    requires forall other :: other != table ==> Installed(s1, other) == Installed(s, other)
    ensures Tidy(s1)
  {
    var gone := Ids(Group(s, table, ids));
    PurgeTidy(s, gone);
    InstalledTidy(Do(s, Purge(gone)), s1);
  }

  lemma InstalledTidy(s: Db, s1: Db)
    requires Tidy(s) && s1 == s.(disk := s1.disk, writers := s1.writers)
    requires forall table :: table in s.tables && table !in s.dirty ==> Installed(s1, table).Whole?
    ensures Tidy(s1)
  {
  }

  lemma KeepEverything(records: seq<Record>)
    ensures Keep(records, Ids(records)) == records
  {
    KeepAll(records, Ids(records));
  }

  lemma ReadyTidy(s: Db, s1: Db)
    requires Tidy(s) && s1.tables == s.tables && s1.outbox == s.outbox && s1.next == s.next && s1.dirty == {}
    requires s1.staged == s1.deferred == {}
    requires forall table :: table in s.tables ==> Installed(s1, table).Whole?
    ensures Tidy(s1)
  {
  }

  // The state between the rebuilds and the replay of a reopened database.
  function Rebuilds(s: Db, listed: seq<string>): Db {
    Exec(Do(s, Crash), RebuildsScript(listed))
  }

  lemma InstalledAgain(s: Db, listed: seq<string>, table: string)
    requires Tidy(s) && Lists(listed, s.dirty) && table in s.tables
    ensures Installed(Rebuilds(s, listed), table) ==
            if table in s.dirty then Whole(Snapshot(RowsOf(s, table))) else Installed(s, table)
    ensures Installed(Rebuilds(s, listed), table).Whole?
  {
    var crashed := Do(s, Crash);
    CrashedTable(s, table);
    RebuildsEffect(crashed, listed);
    RebuiltInstalled(crashed, Rebuilds(s, listed), listed, table);
  }

  lemma CrashedTable(s: Db, table: string)
    ensures Installed(Do(s, Crash), table) == Installed(s, table) && RowsOf(Do(s, Crash), table) == RowsOf(s, table)
  {
  }

  lemma RebuiltInstalled(s: Db, e: Db, listed: seq<string>, table: string)
    requires AllRebuilt(s, e, listed) && table in s.tables
    ensures Installed(e, table) ==
            if table in listed then Whole(Snapshot(RowsOf(s, table))) else Installed(s, table)
  {
  }

  lemma RebuildsReady(s: Db, listed: seq<string>, table: string)
    requires Tidy(s) && Lists(listed, s.dirty) && table in s.tables
    ensures var s1 := Rebuilds(s, listed);
            && Tidy(s1) && Fresh(s1) && s1.tables == s.tables && s1.outbox == s.outbox
            && (forall other :: other in s.tables ==> Installed(s1, other).Whole?)
            && Documents(s1, table) == if table in s.dirty then Snapshot(RowsOf(s, table)) else Documents(s, table)
  {
    var s1 := Rebuilds(s, listed);
    RebuildsFresh(s, listed);
    forall other | other in s.tables ensures Installed(s1, other).Whole? { InstalledAgain(s, listed, other); }
    InstalledAgain(s, listed, table);
    ReadyTidy(s, s1);
  }

  lemma RebuildsFresh(s: Db, listed: seq<string>)
    requires Tidy(s) && Lists(listed, s.dirty)
    ensures var s1 := Rebuilds(s, listed);
            && s1 == s.(deferred := {}, staged := {}, dirty := {}, disk := s1.disk, writers := s1.writers) && Fresh(s1)
  {
    var crashed := Do(s, Crash);
    RebuildsEffect(crashed, listed);
    assert forall table :: Buffered(crashed, table) == [];
    assert Rebuilds(s, listed).dirty == {};
  }

  lemma AllNames(records: seq<Record>, table: string)
    ensures table in Names(records) <==> ForTable(records, table) != []
  {
    NamesMembers(records, table);
    EmptyOutbox(ForTable(records, table));
    forall record ensures record in ForTable(records, table) <==> record in records && record.table == table {
      ForTableMembers(records, table, record);
    }
  }

  /** Opening the database after a crash installs, for every table, exactly the replay of the outbox
      over the committed documents. */
  lemma ReopenIsReplay(s: Db, listed: seq<string>, table: string)
    requires Tidy(s) && Lists(listed, s.dirty) && table in s.tables
    ensures Reopened(s, listed).tables == s.tables
    ensures Documents(Reopened(s, listed), table) == Replayed(s, table)
  {
    RebuildsReady(s, listed, table);
    var s1 := Rebuilds(s, listed);
    var ids := Ids(s1.outbox) - s1.deferred;
    assert ids == Ids(s.outbox);
    KeepEverything(s.outbox);
    var names := Names(s.outbox);
    forall name | name in names ensures name in s.tables { NamesMembers(s.outbox, name); }
    GroupsReplay(s1, names, ids, table);
    ExecAppend(Do(s, Crash), RebuildsScript(listed), ReplayScript(s1));
    AllNames(s.outbox, table);
  }

  /** Reopening restores SQLite's rows if and only if the outbox left on disk can: there is no other
      way for a crash to lose or revert a row. */
  lemma ReopenIffRecoverable(s: Db, listed: seq<string>)
    requires Tidy(s) && Lists(listed, s.dirty)
    ensures (forall table :: table in s.tables ==> Agrees(Documents(Reopened(s, listed), table), s.tables[table])) <==>
            Recoverable(s)
  {
    forall table | table in s.tables ensures Documents(Reopened(s, listed), table) == Replayed(s, table) {
      ReopenIsReplay(s, listed, table);
    }
  }

  // ----- deferred writes -----

  lemma ExecThree(s: Db, first: Step, middle: seq<Step>, last: Step)
    ensures Exec(s, [first] + middle + [last]) == Do(Exec(Do(s, first), middle), last)
  {
    TrailOne(s, first);
    ExecAppend(s, [first], middle);
    var e := Exec(s, [first] + middle);
    TrailOne(e, last);
    ExecAppend(s, [first] + middle, [last]);
  }

  /** What a complete deferred write leaves: its record outstanding and marked as deferred. */
  lemma DeferredEffect(s: Db, planned: Planned)
    requires RunBatch(s.tables, s.next, [planned]).Some? && AddedRecords(s, [planned]) != []
    ensures var s1 := Do(s, Transact([planned])); var id := AddedRecords(s, [planned])[0].id;
            var e := Exec(s, DeferredScript(s, planned));
            e == s1.(writers := e.writers, deferred := s1.deferred + {id}, staged := s1.staged + {id})
  {
    var s1, added := Do(s, Transact([planned])), AddedRecords(s, [planned]);
    var m := Exec(s1, Writes(planned.table, Queued(s1, planned, added)));
    assert m == s1.(writers := m.writers) by { WritesEffect(s1, planned.table, Queued(s1, planned, added)); }
    assert Exec(s, DeferredScript(s, planned)) == Do(m, Defer(added[0].id)) by { DeferredSteps(s, planned); }
    DeferredMarks(s1, m, Exec(s, DeferredScript(s, planned)), added[0].id);
  }

  lemma DeferredMarks(s1: Db, m: Db, e: Db, id: nat)
    requires m == s1.(writers := m.writers) && e == Do(m, Defer(id))
    ensures e == s1.(writers := e.writers, deferred := s1.deferred + {id}, staged := s1.staged + {id})
  {
  }

  lemma DeferredSteps(s: Db, planned: Planned)
    requires RunBatch(s.tables, s.next, [planned]).Some? && AddedRecords(s, [planned]) != []
    ensures var s1, added := Do(s, Transact([planned])), AddedRecords(s, [planned]);
            Exec(s, DeferredScript(s, planned)) ==
            Do(Exec(s1, Writes(planned.table, Queued(s1, planned, added))), Defer(added[0].id))
  {
    var s1, added := Do(s, Transact([planned])), AddedRecords(s, [planned]);
    DeferredShape(s, planned);
    ExecThree(s, Transact([planned]), Writes(planned.table, Queued(s1, planned, added)), Defer(added[0].id));
  }

  lemma DeferredShape(s: Db, planned: Planned)
    requires RunBatch(s.tables, s.next, [planned]).Some? && AddedRecords(s, [planned]) != []
    ensures var added := AddedRecords(s, [planned]);
            DeferredScript(s, planned) ==
            [Transact([planned])] + Writes(planned.table, Queued(Do(s, Transact([planned])), planned, added)) +
              [Defer(added[0].id)]
  {
    TrailOne(s, Transact([planned]));
  }

  // ----- prefix consistency -----

  /** Every state a run passes through, call by call and step by step. */
  function History(s: Db, events: seq<Event>): (history: seq<Db>)
    ensures |history| > 0
  {
    if events == [] then [s]
    else
      var front, last := events[..|events| - 1], events[|events| - 1];
      History(s, front) + Trail(Run(s, front), Performed(Run(s, front), last))[1..]
  }

  // Calls may fail half-way, but the process lives.  No guard is assumed.
  ghost predicate LiveRun(s: Db, events: seq<Event>) {
    events != [] ==>
      var front, last := events[..|events| - 1], events[|events| - 1];
      LiveRun(s, front) && !last.crash && Admissible(Run(s, front), last)
  }

  lemma PerformedGood(before: Db, event: Event)
    requires Holds(before, Live) && Admissible(before, event)
    ensures Good(before, Performed(before, event), Live)
  {
    var script := Script(before, event.command, event.listed);
    CallKeepsLive(before, event.command, event.listed);
    ScriptInstalls(before, event.command, event.listed);
    StoppedGood(before, script, event.cut, event.rollback, Live);
  }

  lemma LongerHistory(history: seq<Db>, before: Db, steps: seq<Step>)
    requires history != [] && history[|history| - 1] == before && Linked(history, Live) && Good(before, steps, Live)
    ensures var longer := history + Trail(before, steps)[1..];
            Linked(longer, Live) && longer[0] == history[0] && longer[|longer| - 1] == Exec(before, steps)
  {
    TrailEnds(before, steps);
    LinkedAppend(history, Trail(before, steps), Live);
  }

  lemma {:induction false} LiveRunLinked(s: Db, events: seq<Event>)
    requires Holds(s, Live) && LiveRun(s, events)
    ensures Linked(History(s, events), Live)
    ensures var history := History(s, events); history[0] == s && history[|history| - 1] == Run(s, events)
  {
    if events != [] {
      var front, last := events[..|events| - 1], events[|events| - 1];
      LiveRunLinked(s, front);
      PerformedGood(Run(s, front), last);
      LongerHistory(History(s, front), Run(s, front), Performed(Run(s, front), last));
    } else {
      assert History(s, events) == [s];
    }
  }

  ghost predicate AllPublished(s: Db) {
    forall table :: table in s.tables && table !in s.dirty ==> Agrees(Documents(s, table), s.tables[table])
  }

  ghost predicate ShownBefore(history: seq<Db>, i: nat, table: string, j: nat)
    requires i < |history|
  {
    j <= i && table in history[j].tables && Agrees(Documents(history[i], table), history[j].tables[table])
  }

  ghost predicate Clean(s: Db, table: string) {
    table in s.tables && table !in s.dirty
  }

  /** `shown` names, for each state of the history, an earlier one whose rows the index shows while the
      table is clean; and it never moves back. */
  ghost predicate Shows(history: seq<Db>, table: string, shown: seq<nat>) {
    && |shown| == |history|
    && (forall i, j :: 0 <= i <= j < |shown| ==> shown[i] <= shown[j])
    && (forall i :: 0 <= i < |shown| ==> shown[i] <= i)
    && (forall i :: 0 <= i < |history| && Clean(history[i], table) ==> ShownBefore(history, i, table, shown[i]))
  }

  // One more state either shows its own rows or what the state before it showed.
  lemma OneMoreShown(history: seq<Db>, next: Db, table: string, shown: seq<nat>) returns (longer: seq<nat>)
    requires history != [] && Shows(history, table, shown) && Publishes(history[|history| - 1], next)
    ensures Shows(history + [next], table, longer)
  {
    var n, all := |history|, history + [next];
    var last := history[n - 1];
    var renewed := Clean(next, table) && Agrees(Documents(next, table), next.tables[table]);
    longer := shown + [if renewed then n else shown[n - 1]];
    forall i | 0 <= i < |all| && Clean(all[i], table) ensures ShownBefore(all, i, table, longer[i]) {
      if i < n {
        assert ShownBefore(history, i, table, shown[i]);
      } else if longer[n] != n {
        assert Clean(last, table) && Documents(next, table) == Documents(last, table);
        assert ShownBefore(history, n - 1, table, shown[n - 1]);
      }
    }
  }

  lemma {:induction false} HistoryShows(history: seq<Db>, table: string) returns (shown: seq<nat>)
    requires history != [] && Linked(history, Live) && AllPublished(history[0])
    ensures Shows(history, table, shown)
  {
    if |history| == 1 {
      shown := [0];
    } else {
      var front, last := history[..|history| - 1], history[|history| - 1];
      assert Publishes(front[|front| - 1], last);
      shown := HistoryShows(front, table);
      shown := OneMoreShown(front, last, table, shown);
      assert front + [last] == history;
    }
  }

  /** Prefix consistency: along every run without a crash, guarded or not and however many calls failed
      half-way, the published documents of a table are, whenever it is clean, exactly the rows SQLite
      held at some earlier step; that step never moves back, so that no reader sees an older state
      after a newer one; and there is at most one document for a key. */
  lemma PrefixConsistency(s: Db, events: seq<Event>, table: string)
    requires Holds(s, Live) && AllPublished(s) && LiveRun(s, events)
    ensures exists shown: seq<nat> :: Shows(History(s, events), table, shown)
    ensures forall i, key :: 0 <= i < |History(s, events)| && Clean(History(s, events)[i], table) ==>
                               |Found(Documents(History(s, events)[i], table), key)| <= 1
  {
    LiveRunLinked(s, events);
    var history := History(s, events);
    var shown := HistoryShows(history, table);
    forall i, key | 0 <= i < |history| && Clean(history[i], table)
      ensures |Found(Documents(history[i], table), key)| <= 1
    {
      assert ShownBefore(history, i, table, shown[i]);
    }
  }

  // ----- flushing -----

  /** Complete calls leave no stray bookkeeping. */
  lemma CompleteCallTracks(s: Db, command: Command, listed: seq<string>)
    requires Holds(s, Live) && Tracked(s) && WellFormed(command) && Lists(listed, s.dirty) && Named(s, command)
    ensures Tracked(Exec(s, Script(s, command, listed)))
  {
    match command
    case Read => RecoverGood(s, listed, Live);
    case Flush => FlushGood(s, Live);
    case Mutate(planned, publish) =>
      RecoverGood(s, listed, Live);
      RecoveredHolds(s, listed, Live);
      var s1 := Recovered(s, listed);
      if publish { PublishedTracks(s1, [planned]); } else { DeferredTracks(s1, planned); }
      ExecAppend(s, RecoverScript(s, listed), MutateScript(s1, planned, publish));
    case Bulk(table, rows, upsert, publish) =>
      RecoverGood(s, listed, Live);
      RecoveredHolds(s, listed, Live);
      var s1 := Recovered(s, listed);
      BulkTracks(s1, table, rows, upsert, publish);
      ExecAppend(s, RecoverScript(s, listed), BulkScript(s1, table, rows, upsert, publish));
    case Batch(batch) =>
      FlushGood(s, Live);
      var s1 := Exec(s, FlushScript(s));
      GoodEnds(s, FlushScript(s), Live);
      UnovertakenAfterFlush(s1, batch);
      PublishedTracks(s1, batch);
      ExecAppend(s, FlushScript(s), PublishedScript(s1, batch));
    case Rebuild(table, contents) =>
      FlushGood(s, Live);
      var s1 := Exec(s, FlushScript(s));
      ReplaceTracks(s1, table, contents);
      ExecAppend(s, FlushScript(s), [Replace(table, contents)] + RebuildScript(table));
    case Remove(table) =>
      FlushGood(s, Live);
      var s1 := Exec(s, FlushScript(s));
      RemoveTracks(s1, table);
      ExecAppend(s, FlushScript(s), RemoveScript(s1, table));
  }

  lemma PublishedTracks(s1: Db, batch: seq<Planned>)
    requires Holds(s1, Live) && Unstaged(s1) == [] && Tracked(s1)
    ensures Tracked(Exec(s1, PublishedScript(s1, batch)))
  {
    TransactGood(s1, batch, Live);
    var tx := TransactScript(s1, batch);
    var s2 := Exec(s1, tx);
    GoodEnds(s1, tx, Live);
    var ids := Ids(AddedRecords(s1, batch));
    if RunBatch(s1.tables, s1.next, batch).Some? {
      AddedSelects(s1, batch, Live);
      TransactTracks(s1, batch);
    } else {
      forall record | record in s1.outbox ensures record.id in s1.staged { DropMembers(s1.outbox, s1.staged, record); }
    }
    ApplyGood(s2, ids, Live);
    ExecAppend(s1, tx, ApplyScript(s2, ids));
  }

  lemma TransactTracks(s: Db, batch: seq<Planned>)
    requires Tracked(s) && RunBatch(s.tables, s.next, batch).Some?
    ensures Tracked(Do(s, Transact(batch)))
  {
    var after := Do(s, Transact(batch));
    forall id | id in s.staged ensures id in Ids(after.outbox) {
      var record :| record in s.outbox && record.id == id;
      assert record in after.outbox;
    }
  }

  lemma DeferredTracks(s1: Db, planned: Planned)
    requires Holds(s1, Live) && Unstaged(s1) == [] && Tracked(s1)
    ensures Tracked(Exec(s1, DeferredScript(s1, planned)))
  {
    TransactGood(s1, [planned], Live);
    if RunBatch(s1.tables, s1.next, [planned]).Some? {
      TransactTracks(s1, [planned]);
      var added := AddedRecords(s1, [planned]);
      if added != [] {
        DeferredEffect(s1, planned);
        assert added[0] in Do(s1, Transact([planned])).outbox;
      }
    }
  }

  lemma BulkTracks(s1: Db, table: string, rows: seq<Row>, upsert: bool, publish: bool)
    requires Holds(s1, Live) && Unstaged(s1) == [] && Tracked(s1)
    ensures Tracked(Exec(s1, BulkScript(s1, table, rows, upsert, publish)))
  {
    var planned := PlannedBulk(table, rows, upsert);
    if rows == [] {
      if publish { FlushGood(s1, Live); }
    } else if TransactScript(s1, [planned]) != [] {
      DeferredTracks(s1, planned);
      DeferredGood(s1, planned, Live);
      var write := DeferredScript(s1, planned);
      GoodEnds(s1, write, Live);
      if publish {
        FlushGood(Exec(s1, write), Live);
        ExecAppend(s1, write, FlushScript(Exec(s1, write)));
      } else {
        assert write + [] == write;
      }
    }
  }

  lemma ReplaceTracks(s1: Db, table: string, contents: Rows)
    requires s1.outbox == [] && s1.staged == {} && Apart(s1.tables.Keys + {table})
    ensures Tracked(Exec(s1, [Replace(table, contents)] + RebuildScript(table)))
  {
    var s2 := Do(s1, Replace(table, contents));
    ExecOne(s1, Replace(table, contents));
    RebuildEffect(s2, table);
    ExecAppend(s1, [Replace(table, contents)], RebuildScript(table));
  }

  lemma DropAndClose(s: Db, table: string)
    ensures Exec(s, [DropTable(table), CloseIndex(table)]) == Do(Do(s, DropTable(table)), CloseIndex(table))
  {
    TrailOne(s, DropTable(table));
    TrailOne(Do(s, DropTable(table)), CloseIndex(table));
    ExecAppend(s, [DropTable(table)], [CloseIndex(table)]);
    assert [DropTable(table)] + [CloseIndex(table)] == [DropTable(table), CloseIndex(table)];
  }

  lemma RemoveTracks(s1: Db, table: string)
    requires s1.outbox == [] && s1.staged == {}
    ensures Tracked(Exec(s1, RemoveScript(s1, table)))
  {
    if table in s1.tables {
      var head, files := [DropTable(table), CloseIndex(table)], FileSteps(table, [Tear(Final), Clear(Final)]);
      DropAndClose(s1, table);
      FilesTrack(Exec(s1, head), table);
      ExecAppend(s1, head, files);
    }
  }

  lemma FilesTrack(s: Db, table: string)
    requires s.staged == {}
    ensures Tracked(Exec(s, FileSteps(table, [Tear(Final), Clear(Final)])))
  {
    FileStepsEffect(s, table, [Tear(Final), Clear(Final)]);
  }

  /** A complete flush publishes everything and leaves nothing to do. */
  lemma FlushPublishesEverything(s: Db)
    requires Holds(s, Live) && Tracked(s)
    ensures var e := Exec(s, FlushScript(s));
            && e.tables == s.tables && AllPublished(e)
            && e.outbox == [] && e.deferred == {} && e.staged == {}
  {
    FlushGood(s, Live);
  }
}
