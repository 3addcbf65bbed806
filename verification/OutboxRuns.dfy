/** Whole runs of the database: calls that complete, fail half-way or are ended by a crash. */
module OutboxRuns {
  import opened Wrappers
  import opened Outbox
  import opened OutboxFacts
  import opened OutboxInvariant
  import opened OutboxScripts
  import opened OutboxWrites
  import opened OutboxStops

  // ----- runs -----

  function Run(s: Db, events: seq<Event>): Db {
    if events == [] then s else Happen(Run(s, events[..|events| - 1]), events[|events| - 1])
  }

  ghost predicate GuardedRun(s: Db, events: seq<Event>) {
    events != [] ==>
      var before := Run(s, events[..|events| - 1]);
      var last := events[|events| - 1];
      GuardedRun(s, events[..|events| - 1]) && Admissible(before, last) && Guarded(before, last)
  }

  lemma {:induction false} GuardedRunKeeps(s: Db, events: seq<Event>)
    requires Holds(s, Strict) && GuardedRun(s, events)
    ensures Holds(Run(s, events), Strict)
  {
    if events != [] {
      GuardedRunKeeps(s, events[..|events| - 1]);
      GuardedCall(Run(s, events[..|events| - 1]), events[|events| - 1]);
    }
  }

  /** The index a table has once every outstanding record has been replayed, in id order, over the
      committed documents; a dirty table is rebuilt first. */
  function Replayed(s: Db, table: string): seq<Row> {
    var rows := RowsOf(s, table);
    ApplyWriter(if table in s.dirty then Snapshot(rows) else Documents(s, table),
                RecordOps(ForTable(s.outbox, table), rows))
  }

  /** Replaying what is on disk gives exactly the SQLite rows. */
  ghost predicate Recoverable(s: Db) {
    forall table :: table in s.tables ==> Agrees(Replayed(s, table), s.tables[table])
  }

  lemma ReplayedKey(s: Db, table: string, key: Key)
    requires table in s.tables
    ensures Found(Replayed(s, table), key) ==
            match ViewOf(s, table, key).outbox
            case Some(value) => value
            case None => if table in s.dirty then Sql(s.tables[table], key) else Found(Documents(s, table), key)
  {
    var rows := RowsOf(s, table);
    SnapshotAgrees(rows);
    forall record | record in ForTable(s.outbox, table) ensures record.table == table {
      ForTableMembers(s.outbox, table, record);
    }
    RecordsEffect(if table in s.dirty then Snapshot(rows) else Documents(s, table),
                  ForTable(s.outbox, table), table, rows, key);
    LastInForTable(s.outbox, table, key);
  }

  /** The key-by-key invariant says exactly that the disk is recoverable. */
  lemma CrashableIsRecoverable(s: Db)
    requires Holds(s, Live)
    ensures Holds(s, Crashable) <==> Recoverable(s)
  {
    if Holds(s, Crashable) {
      forall table, key | table in s.tables ensures Found(Replayed(s, table), key) == Sql(s.tables[table], key) {
        assert KeyOk(ViewOf(s, table, key), Crashable);
        ReplayedKey(s, table, key);
      }
    }
    if Recoverable(s) {
      forall table, key | table in s.tables ensures KeyOk(ViewOf(s, table, key), Crashable) {
        assert KeyOk(ViewOf(s, table, key), Live);
        assert Found(Replayed(s, table), key) == Sql(s.tables[table], key);
        ReplayedKey(s, table, key);
      }
    }
  }

  // What opening the database after a crash leaves.
  function Reopened(s: Db, listed: seq<string>): Db {
    Recovered(Do(s, Crash), listed)
  }

  ghost predicate Restored(s: Db, reopened: Db) {
    && reopened.tables == s.tables && reopened.outbox == [] && reopened.dirty == {}
    && forall table :: table in s.tables ==> Agrees(Documents(reopened, table), s.tables[table])
  }

  lemma ReopenRestores(s: Db, listed: seq<string>)
    requires Holds(s, Crashable) && Lists(listed, s.dirty)
    ensures Restored(s, Reopened(s, listed)) && Holds(Reopened(s, listed), Strict)
  {
    var crashed := Do(s, Crash);
    CrashStep(s);
    RecoverGood(crashed, listed, Strict);
    var e := Reopened(s, listed);
    GoodEnds(crashed, RecoverScript(crashed, listed), Strict);
    EmptyOutbox(e.outbox);
    HoldsWeaker(e, Strict, Live);
    forall table | table in s.tables ensures Agrees(Documents(e, table), s.tables[table]) {
      NoRecordsMeansPublished(e, table);
    }
  }

  /** Crash convergence: in every guarded run, over tables whose names are apart, the outbox replayed over
      the committed index gives SQLite's rows, and reopening restores them. */
  lemma CrashConvergence(s: Db, events: seq<Event>, listed: seq<string>)
    requires Holds(s, Strict) && GuardedRun(s, events)
    requires Lists(listed, Run(s, events).dirty)
    ensures Recoverable(Run(s, events))
    ensures Restored(Run(s, events), Reopened(Run(s, events), listed))
  {
    GuardedRunKeeps(s, events);
    var e := Run(s, events);
    HoldsWeaker(e, Strict, Crashable);
    HoldsWeaker(e, Strict, Live);
    CrashableIsRecoverable(e);
    ReopenRestores(e, listed);
  }

  /** The same at each step inside the last call: it may be cut anywhere. */
  lemma CrashConvergenceInside(s: Db, events: seq<Event>, last: Event, cut: nat, listed: seq<string>)
    requires Holds(s, Strict) && GuardedRun(s, events + [last]) && cut <= |Performed(Run(s, events), last)|
    requires Lists(listed, Exec(Run(s, events), Performed(Run(s, events), last)[..cut]).dirty)
    ensures var before := Run(s, events);
            var e := Exec(before, Performed(before, last)[..cut]);
            Recoverable(e) && Restored(e, Reopened(e, listed))
  {
    assert (events + [last])[..|events|] == events;
    var before := Run(s, events);
    GuardedRunKeeps(s, events);
    GuardedCall(before, last);
    GoodPrefix(before, Performed(before, last), cut, Crashable);
    var done := Performed(before, last)[..cut];
    GoodEnds(before, done, Crashable);
    var e := Exec(before, done);
    HoldsWeaker(e, Crashable, Live);
    CrashableIsRecoverable(e);
    ReopenRestores(e, listed);
  }

  function Empty(): Db {
    Db(map[], [], 0, {}, map[], {}, {}, map[])
  }

  /** An empty database starts every run. */
  lemma EmptyDatabase()
    ensures Holds(Empty(), Strict)
  {
  }
}
