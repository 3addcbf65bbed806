/** Which table names can live together.  The directories of all tables lie beside each other, so the
    rebuild of one table can pass through the directory in which another is installed. */
module OutboxNames {
  import opened Outbox
  import opened OutboxFacts
  import opened OutboxFiles
  import opened OutboxScripts
  import opened OutboxRollback
  import opened OutboxStops
  import opened OutboxRuns
  import opened OutboxGuards

  /** The names a table definition may have: those without the reserved prefix. */
  predicate Accepted(name: string) {
    !("__aq_" <= name)
  }

  lemma AcceptedIff(name: string)
    ensures Accepted(name) <==> |name| < 5 || name[0] != '_' || name[1] != '_' || name[2] != 'a' || name[3] != 'q' ||
                                name[4] != '_'
  {
    if |name| >= 5 && name[..5] == "__aq_" { assert name[0] == name[..5][0] && name[4] == name[..5][4]; }
  }

  /** Names that are all accepted, and clash with each other. */
  lemma RetiredNames()
    ensures Accepted("a") && Accepted("a.b") && Accepted("a.retired")
    ensures Clash("a", "a.retired") && Clash("a.b", "a.retired") && !Clash("a.retired", "a")
  {
    StemOf("a.b", 1);
    StemOf("a.retired", 1);
    assert "a.b"[..1] == "a" && "a.retired"[..1] == "a";
  }

  lemma BuildingNames()
    ensures Accepted("x") && Accepted(".x.building")
    ensures Clash("x", ".x.building") && !Clash(".x.building", "x")
  {
    StemOf(".x.building", 2);
    assert ".x.building"[..2] == ".x";
  }

  // The last dot of the name; -1 if it has none.
  ghost predicate LastDotAt(name: string, dot: int) {
    && -1 <= dot < |name| && (dot >= 0 ==> name[dot] == '.')
    && forall i :: dot < i < |name| ==> name[i] != '.'
  }

  lemma StemOf(name: string, dot: int)
    requires LastDotAt(name, dot)
    ensures Stem(name) == if dot > 0 then name[..dot] else name
  {
  }

  /** The directories of a table: its own name; its name with `retired` in place of the extension, if it has
      one, a dot in front not starting one; and its name between a dot and `building`. */
  lemma DirectoriesOf(name: string, dot: int)
    requires LastDotAt(name, dot)
    ensures PathsOf(name).final == name
    ensures PathsOf(name).retired == (if dot > 0 then name[..dot] else name) + ".retired"
    ensures PathsOf(name).building == "." + name + ".building"
  {
    StemOf(name, dot);
  }

  // ----- what a rebuild does to another table -----

  /** A rebuild leaves the index of another table in place if and only if their names do not clash;
      otherwise it removes it. */
  lemma RebuildSparesIff(s: Db, table: string, other: string)
    requires table != other && Installed(s, other).Whole?
    ensures Installed(Exec(s, RebuildScript(table)), other) == Installed(s, other) <==> !Clash(table, other)
    ensures Clash(table, other) ==> Installed(Exec(s, RebuildScript(table)), other).Absent?
  {
    if Clash(table, other) { RebuildRemoves(s, table, other); } else { RebuildSpares(s, table, other); }
  }

  // A rebuild installs what its file steps install.
  lemma RebuildSwaps(s: Db, table: string, other: string, m: Db)
    requires m == Exec(Do(s, CloseIndex(table)), FileSteps(table, BuildActions() + SwapActions(PathsOf(table))))
    ensures Installed(Exec(s, RebuildScript(table)), other) == Installed(m, other)
  {
    RebuildSteps(s, table);
  }

  lemma RebuildSpares(s: Db, table: string, other: string)
    requires table != other && !Clash(table, other)
    ensures Installed(Exec(s, RebuildScript(table)), other) == Installed(s, other)
  {
    var s1 := Do(s, CloseIndex(table));
    var m := Exec(s1, FileSteps(table, BuildActions() + SwapActions(PathsOf(table))));
    assert Installed(m, other) == Installed(s1, other) by { SwapEffect(s1, table); }
    RebuildSwaps(s, table, other, m);
  }

  lemma RebuildRemoves(s: Db, table: string, other: string)
    requires Clash(table, other)
    ensures Installed(Exec(s, RebuildScript(table)), other).Absent?
  {
    var s1 := Do(s, CloseIndex(table));
    var m := Exec(s1, FileSteps(table, BuildActions() + SwapActions(PathsOf(table))));
    assert Installed(m, other).Absent? by { SwapRemoves(s1, table, other); }
    RebuildSwaps(s, table, other, m);
  }

  lemma SwapRemoves(s: Db, table: string, other: string)
    requires Clash(table, other)
    ensures Installed(Exec(s, FileSteps(table, BuildActions() + SwapActions(PathsOf(table)))), other).Absent?
  {
    FileStepsEffect(s, table, BuildActions() + SwapActions(PathsOf(table)));
    SwapInstalls(s.disk, table, RowsOf(s, table));
  }

  // ----- a clash is fatal -----

  lemma RebuildKeepsRest(s: Db, table: string)
    ensures var e := Exec(s, RebuildScript(table));
            e.tables == s.tables && e.outbox == s.outbox && e.dirty == s.dirty - {table}
  {
    RebuildSteps(s, table);
    SwapEffect(Do(s, CloseIndex(table)), table);
  }

  function Creations(table: string, other: string): seq<Command> {
    [Rebuild(other, map[0 := map[]]), Rebuild(table, map[])]
  }

  // The second of two complete calls.
  lemma TwoCalls(first: Command, second: Command)
    ensures var s1 := Run(Empty(), Calls(Empty(), [first]));
            Run(Empty(), Calls(Empty(), [first, second])) == Exec(s1, Script(s1, second, []))
  {
    ThreeCommands(first, second, second);
    OneMoreCall(Empty(), [first], second);
  }

  lemma SecondCreationLoses(s1: Db, table: string, other: string)
    requires Clash(table, other) && AtRest(s1, map[other := map[0 := map[]]])
    ensures var e := Exec(s1, Script(s1, Rebuild(table, map[]), []));
            e.dirty == {} && !Restored(e, Reopened(e, []))
  {
    var replaced := Do(s1, Replace(table, map[]));
    CreatesAnother(s1, table, map[]);
    RebuildKeepsRest(replaced, table);
    assert Installed(s1, other).Whole?;
    RebuildSparesIff(replaced, table, other);
    LostForever(Exec(replaced, RebuildScript(table)), other);
  }

  /** Create a table with one row and then another whose directories clash with it.  No table is dirty
      and no record is outstanding, but the first table's index is gone, and reopening does not bring
      it back. */
  lemma ClashIsFatal(table: string, other: string)
    requires Clash(table, other)
    ensures var s := Run(Empty(), Calls(Empty(), Creations(table, other)));
            s.dirty == {} && !Restored(s, Reopened(s, []))
  {
    FirstTable(other, map[0 := map[]]);
    TwoCalls(Rebuild(other, map[0 := map[]]), Rebuild(table, map[]));
    SecondCreationLoses(Run(Empty(), Calls(Empty(), [Rebuild(other, map[0 := map[]])])), table, other);
  }

  lemma LostForever(s: Db, other: string)
    requires s.outbox == [] && other in s.tables && s.tables[other] == map[0 := map[]] && Installed(s, other).Absent?
    ensures !Restored(s, Reopened(s, []))
  {
    var crashed := Do(s, Crash);
    QuietRecovery(crashed);
    assert Documents(crashed, other) == [];
    assert Found([], 0) == [] && Sql(map[0 := map[]], 0) == [map[]];
    assert !Agrees(Documents(crashed, other), s.tables[other]);
  }

  // ----- runs over a set of names -----

  /** A run that creates tables only under the given names; otherwise it is guarded. */
  ghost predicate GuardedOver(s: Db, events: seq<Event>, names: set<string>) {
    events != [] ==>
      var front, last := events[..|events| - 1], events[|events| - 1];
      var before := Run(s, front);
      && GuardedOver(s, front, names) && WellFormed(last.command) && Lists(last.listed, before.dirty)
      && (last.command.Rebuild? ==> last.command.table in names) && Guarded(before, last)
  }

  predicate CreatesOnly(steps: seq<Step>, names: set<string>) {
    forall step :: step in steps && step.Replace? ==> step.table in names
  }

  lemma {:induction false} ExecTables(s: Db, steps: seq<Step>, names: set<string>)
    requires s.tables.Keys <= names && CreatesOnly(steps, names)
    ensures Exec(s, steps).tables.Keys <= names
  {
    if steps != [] {
      var front, last := steps[..|steps| - 1], steps[|steps| - 1];
      assert steps == front + [last];
      ExecTables(s, front, names);
      StepTables(Exec(s, front), last, names);
    }
  }

  lemma StepTables(s: Db, step: Step, names: set<string>)
    requires s.tables.Keys <= names && (step.Replace? ==> step.table in names)
    ensures Do(s, step).tables.Keys <= names
  {
    if step.Transact? && RunBatch(s.tables, s.next, step.batch).Some? { BatchIsRecorded(s.tables, s.next, step.batch); }
  }

  lemma {:induction false} RebuildsCreateNone(tables: seq<string>, names: set<string>)
    ensures CreatesOnly(RebuildsScript(tables), names)
  {
    if tables != [] { RebuildsCreateNone(tables[..|tables| - 1], names); }
  }

  lemma RecoverCreatesNone(s: Db, listed: seq<string>, names: set<string>)
    ensures CreatesOnly(RecoverScript(s, listed), names)
  {
    var s1 := Exec(s, RebuildsScript(listed));
    RebuildsCreateNone(listed, names);
    ApplyPlain(s1, Ids(s1.outbox) - s1.deferred);
  }

  lemma CreatesAppend(a: seq<Step>, b: seq<Step>, names: set<string>)
    requires CreatesOnly(a, names) && CreatesOnly(b, names)
    ensures CreatesOnly(a + b, names)
  {
  }

  // What a call does after its recovery or flush.
  lemma PlainCreates(steps: seq<Step>, names: set<string>)
    requires Plain(steps)
    ensures CreatesOnly(steps, names)
  {
  }

  lemma AfterRecoveryCreates(s: Db, listed: seq<string>, body: seq<Step>, names: set<string>)
    requires Plain(body)
    ensures CreatesOnly(RecoverScript(s, listed) + body, names)
  {
    RecoverCreatesNone(s, listed, names);
    PlainCreates(body, names);
    CreatesAppend(RecoverScript(s, listed), body, names);
  }

  lemma AfterFlushCreates(s: Db, body: seq<Step>, names: set<string>)
    requires CreatesOnly(body, names)
    ensures CreatesOnly(FlushScript(s) + body, names)
  {
    FlushPlain(s);
    PlainCreates(FlushScript(s), names);
    CreatesAppend(FlushScript(s), body, names);
  }

  lemma MutateCreates(s: Db, planned: Planned, publish: bool, listed: seq<string>, names: set<string>)
    ensures CreatesOnly(Script(s, Mutate(planned, publish), listed), names)
  {
    var s1 := Exec(s, RecoverScript(s, listed));
    MutatePlain(s1, planned, publish);
    MutateShape(s, planned, publish, listed);
    AfterRecoveryCreates(s, listed, MutateScript(s1, planned, publish), names);
  }

  lemma BulkCreates(s: Db, table: string, rows: seq<Row>, upsert: bool, publish: bool, listed: seq<string>,
                    names: set<string>)
    ensures CreatesOnly(Script(s, Bulk(table, rows, upsert, publish), listed), names)
  {
    var s1 := Exec(s, RecoverScript(s, listed));
    BulkPlain(s1, table, rows, upsert, publish);
    BulkShape(s, table, rows, upsert, publish, listed);
    AfterRecoveryCreates(s, listed, BulkScript(s1, table, rows, upsert, publish), names);
  }

  lemma BatchCreates(s: Db, batch: seq<Planned>, listed: seq<string>, names: set<string>)
    ensures CreatesOnly(Script(s, Batch(batch), listed), names)
  {
    var s1 := Exec(s, FlushScript(s));
    BatchPlain(s1, batch);
    PlainCreates(PublishedScript(s1, batch), names);
    BatchShape(s, batch, listed);
    AfterFlushCreates(s, PublishedScript(s1, batch), names);
  }

  lemma ReplaceCreates(s: Db, table: string, contents: Rows, listed: seq<string>, names: set<string>)
    requires table in names
    ensures CreatesOnly(Script(s, Rebuild(table, contents), listed), names)
  {
    ReplaceShape(s, table, contents, listed);
    AfterFlushCreates(s, ReplaceScript(table, contents), names);
  }

  lemma RemoveCreates(s: Db, table: string, listed: seq<string>, names: set<string>)
    ensures CreatesOnly(Script(s, Remove(table), listed), names)
  {
    RemoveShape(s, table, listed);
    AfterFlushCreates(s, RemoveScript(Exec(s, FlushScript(s)), table), names);
  }

  lemma ScriptCreates(s: Db, command: Command, listed: seq<string>, names: set<string>)
    requires command.Rebuild? ==> command.table in names
    ensures CreatesOnly(Script(s, command, listed), names)
  {
    match command
    case Read => RecoverCreatesNone(s, listed, names);
    case Flush =>
      FlushPlain(s);
      PlainCreates(FlushScript(s), names);
    case Mutate(planned, publish) => MutateCreates(s, planned, publish, listed, names);
    case Bulk(table, rows, upsert, publish) => BulkCreates(s, table, rows, upsert, publish, listed, names);
    case Batch(batch) => BatchCreates(s, batch, listed, names);
    case Rebuild(table, contents) => ReplaceCreates(s, table, contents, listed, names);
    case Remove(table) => RemoveCreates(s, table, listed, names);
  }

  lemma StoppedCreates(script: seq<Step>, cut: nat, rollback: bool, names: set<string>)
    requires CreatesOnly(script, names)
    ensures CreatesOnly(StoppedAt(script, cut, rollback), names)
  {
  }

  lemma TablesStay(before: Db, event: Event, names: set<string>)
    requires before.tables.Keys <= names && (event.command.Rebuild? ==> event.command.table in names)
    ensures Happen(before, event).tables.Keys <= names
  {
    ScriptCreates(before, event.command, event.listed, names);
    StoppedCreates(Script(before, event.command, event.listed), event.cut, event.rollback, names);
    ExecTables(before, Performed(before, event), names);
    StepTables(Exec(before, Performed(before, event)), Crash, names);
  }

  lemma {:induction false} OverIsGuarded(events: seq<Event>, names: set<string>)
    requires Apart(names) && GuardedOver(Empty(), events, names)
    ensures GuardedRun(Empty(), events) && Run(Empty(), events).tables.Keys <= names
  {
    if events != [] {
      var front, last := events[..|events| - 1], events[|events| - 1];
      OverIsGuarded(front, names);
      StayApart(Run(Empty(), front).tables.Keys, last.command, names);
      TablesStay(Run(Empty(), front), last, names);
    }
  }

  lemma StayApart(tables: set<string>, command: Command, names: set<string>)
    requires Apart(names) && tables <= names && (command.Rebuild? ==> command.table in names)
    ensures command.Rebuild? ==> Apart(tables + {command.table})
  {
    if command.Rebuild? {
      forall table, other | table in tables + {command.table} && other in tables + {command.table}
        ensures !Clash(table, other)
      {
        assert table in names && other in names;
      }
    }
  }

  /** Every run over these names that is otherwise guarded can be reopened. */
  ghost predicate Converges(names: set<string>) {
    forall events, listed :: GuardedOver(Empty(), events, names) && Lists(listed, Run(Empty(), events).dirty) ==>
      Restored(Run(Empty(), events), Reopened(Run(Empty(), events), listed))
  }

  lemma RebuildIsOver(s: Db, events: seq<Event>, table: string, contents: Rows, names: set<string>)
    requires GuardedOver(s, events, names) && Run(s, events).dirty == {} && table in names
    ensures GuardedOver(s, events + [Completed(Run(s, events), Rebuild(table, contents))], names)
  {
    var last := Completed(Run(s, events), Rebuild(table, contents));
    assert (events + [last])[..|events|] == events;
    assert !Exposed(Run(s, events), last);
  }

  lemma CreationsAreGuarded(table: string, other: string, names: set<string>)
    requires table in names && other in names
    ensures GuardedOver(Empty(), Calls(Empty(), Creations(table, other)), names)
  {
    var first, second := Rebuild(other, map[0 := map[]]), Rebuild(table, map[]);
    var one := Calls(Empty(), [first]);
    FirstTable(other, map[0 := map[]]);
    CallsSnoc([], first);
    CallsSnoc([first], second);
    assert [] + [first] == [first] && [first] + [second] == Creations(table, other);
    RebuildIsOver(Empty(), [], other, map[0 := map[]], names);
    RebuildIsOver(Empty(), one, table, map[], names);
  }

  lemma CallsSnoc(commands: seq<Command>, command: Command)
    ensures var front := Calls(Empty(), commands);
            Calls(Empty(), commands + [command]) == front + [Completed(Run(Empty(), front), command)]
  {
    assert (commands + [command])[..|commands|] == commands;
  }

  /** Names are safe together if and only if none of their directories clash: then crash convergence
      holds for every guarded run over them, and otherwise creating two tables is enough to break it. */
  lemma NamesAreExact(names: set<string>)
    ensures Converges(names) <==> Apart(names)
  {
    if Apart(names) {
      forall events, listed | GuardedOver(Empty(), events, names) && Lists(listed, Run(Empty(), events).dirty)
        ensures Restored(Run(Empty(), events), Reopened(Run(Empty(), events), listed))
      {
        OverIsGuarded(events, names);
        EmptyDatabase();
        CrashConvergence(Empty(), events, listed);
      }
    } else {
      var table, other :| table in names && other in names && Clash(table, other);
      var events := Calls(Empty(), Creations(table, other));
      CreationsAreGuarded(table, other, names);
      ClashIsFatal(table, other);
      assert Lists([], Run(Empty(), events).dirty);
    }
  }
}
