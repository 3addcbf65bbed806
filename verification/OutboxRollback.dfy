/** Where a script can stop.  An error leaves the steps performed so far; an error of the rename
    that installs a new generation is followed by one more step that moves the retired one back. */
module OutboxRollback {
  import opened Outbox
  import opened OutboxFiles
  import opened OutboxInvariant
  import opened OutboxScripts

  predicate Installs(step: Step) {
    step.Files? && step.action == Rename(Building, Final)
  }

  function StoppedAt(script: seq<Step>, cut: nat, rollback: bool): seq<Step> {
    if cut >= |script| then script
    else if rollback && Installs(script[cut]) then script[..cut] + [Files(script[cut].table, Rename(Retired, Final))]
    else script[..cut]
  }

  // A generation is only ever installed while the catalog calls its table dirty.
  ghost predicate InstallsDirty(s: Db, script: seq<Step>) {
    forall i :: 0 <= i < |script| && Installs(script[i]) ==> script[i].table in Exec(s, script[..i]).dirty
  }

  // No generation is installed and no table is added.
  predicate Plain(steps: seq<Step>) {
    forall step :: step in steps ==> !Installs(step) && !step.Replace?
  }

  lemma InstallsAppend(s: Db, a: seq<Step>, b: seq<Step>)
    requires InstallsDirty(s, a) && InstallsDirty(Exec(s, a), b)
    ensures InstallsDirty(s, a + b)
  {
    var both := a + b;
    forall i | 0 <= i < |both| && Installs(both[i]) ensures both[i].table in Exec(s, both[..i]).dirty {
      PrefixOfBoth(a, b, i);
      if i >= |a| { ExecAppend(s, a, b[..i - |a|]); }
    }
  }

  lemma PrefixOfBoth(a: seq<Step>, b: seq<Step>, i: nat)
    requires i < |a + b|
    ensures i < |a| ==> (a + b)[..i] == a[..i] && (a + b)[i] == a[i]
    ensures i >= |a| ==> (a + b)[..i] == a + b[..i - |a|] && (a + b)[i] == b[i - |a|]
  {
  }

  lemma {:induction false} GroupsPlain(s: Db, names: seq<string>, ids: set<nat>)
    ensures Plain(GroupsScript(s, names, ids))
    decreases |names|
  {
    if names != [] {
      GroupsPlain(Exec(s, GroupScript(s, names[0], ids)), names[1..], ids);
    }
  }

  lemma ApplyPlain(s: Db, ids: set<nat>)
    ensures Plain(ApplyScript(s, ids))
  {
    GroupsPlain(s, Names(Keep(s.outbox, ids)), ids);
  }

  lemma FlushPlain(s: Db)
    ensures Plain(FlushScript(s))
  {
    ApplyPlain(s, Ids(s.outbox));
  }

  lemma MutatePlain(s: Db, planned: Planned, publish: bool)
    ensures Plain(MutateScript(s, planned, publish))
  {
    if publish { BatchPlain(s, [planned]); }
  }

  lemma BatchPlain(s: Db, batch: seq<Planned>)
    ensures Plain(PublishedScript(s, batch))
  {
    ApplyPlain(Exec(s, TransactScript(s, batch)), Ids(AddedRecords(s, batch)));
  }

  lemma BulkPlain(s: Db, table: string, rows: seq<Row>, upsert: bool, publish: bool)
    ensures Plain(BulkScript(s, table, rows, upsert, publish))
  {
    var write := DeferredScript(s, PlannedBulk(table, rows, upsert));
    MutatePlain(s, PlannedBulk(table, rows, upsert), false);
    FlushPlain(s);
    FlushPlain(Exec(s, write));
  }

  lemma ExecOne(s: Db, step: Step)
    ensures Exec(s, [step]) == Do(s, step)
  {
    var steps := [step];
    assert steps[..|steps| - 1] == [];
  }

  lemma FilesInstall(s: Db, table: string, actions: seq<FileAction>)
    requires table in s.dirty
    ensures InstallsDirty(s, FileSteps(table, actions))
  {
    var files := FileSteps(table, actions);
    forall i | 0 <= i < |files| && Installs(files[i]) ensures files[i].table in Exec(s, files[..i]).dirty {
      assert files[..i] == FileSteps(table, actions[..i]);
      FileStepsEffect(s, table, actions[..i]);
    }
  }

  lemma RebuildInstalls(s: Db, table: string)
    requires table in s.dirty
    ensures InstallsDirty(s, RebuildScript(table))
  {
    var close, files := [CloseIndex(table)], FileSteps(table, BuildActions() + SwapActions(PathsOf(table)));
    var s1 := Exec(s, close);
    ExecOne(s, CloseIndex(table));
    FilesInstall(s1, table, BuildActions() + SwapActions(PathsOf(table)));
    InstallsAppend(s, close, files);
    InstallsAppend(s, close + files, [MarkClean(table)]);
  }

  lemma {:induction false} RebuildsInstall(s: Db, tables: seq<string>)
    requires Tidy(s) && Distinct(tables) && forall table :: table in tables ==> table in s.dirty
    ensures InstallsDirty(s, RebuildsScript(tables))
  {
    if tables != [] {
      var front, last := tables[..|tables| - 1], tables[|tables| - 1];
      assert tables == front + [last];
      RebuildsInstall(s, front);
      RebuildsEffect(s, front);
      RebuildInstalls(Exec(s, RebuildsScript(front)), last);
      InstallsAppend(s, RebuildsScript(front), RebuildScript(last));
    }
  }

  lemma RecoverInstalls(s: Db, listed: seq<string>)
    requires Tidy(s) && Lists(listed, s.dirty)
    ensures InstallsDirty(s, RecoverScript(s, listed))
  {
    RebuildsInstall(s, listed);
    var s1 := Exec(s, RebuildsScript(listed));
    ApplyPlain(s1, Ids(s1.outbox) - s1.deferred);
    InstallsAppend(s, RebuildsScript(listed), ReplayScript(Exec(s, RebuildsScript(listed))));
  }

  lemma RebuildCallInstalls(s1: Db, table: string, contents: Rows)
    ensures InstallsDirty(s1, [Replace(table, contents)] + RebuildScript(table))
  {
    var s2 := Exec(s1, [Replace(table, contents)]);
    ExecOne(s1, Replace(table, contents));
    RebuildInstalls(s2, table);
    InstallsAppend(s1, [Replace(table, contents)], RebuildScript(table));
  }

  lemma AfterFlush(s: Db, body: seq<Step>)
    requires InstallsDirty(Exec(s, FlushScript(s)), body)
    ensures InstallsDirty(s, FlushScript(s) + body)
  {
    FlushPlain(s);
    InstallsAppend(s, FlushScript(s), body);
  }

  lemma AfterRecovery(s: Db, listed: seq<string>, body: seq<Step>)
    requires Tidy(s) && Lists(listed, s.dirty) && Plain(body)
    ensures InstallsDirty(s, RecoverScript(s, listed) + body)
  {
    RecoverInstalls(s, listed);
    InstallsAppend(s, RecoverScript(s, listed), body);
  }

  lemma MutateInstalls(s: Db, planned: Planned, publish: bool, listed: seq<string>)
    requires Tidy(s) && Lists(listed, s.dirty)
    ensures InstallsDirty(s, Script(s, Mutate(planned, publish), listed))
  {
    var recovered := Exec(s, RecoverScript(s, listed));
    MutatePlain(recovered, planned, publish);
    AfterRecovery(s, listed, MutateScript(recovered, planned, publish));
  }

  lemma BulkInstalls(s: Db, table: string, rows: seq<Row>, upsert: bool, publish: bool, listed: seq<string>)
    requires Tidy(s) && Lists(listed, s.dirty)
    ensures InstallsDirty(s, Script(s, Bulk(table, rows, upsert, publish), listed))
  {
    var recovered := Exec(s, RecoverScript(s, listed));
    BulkPlain(recovered, table, rows, upsert, publish);
    AfterRecovery(s, listed, BulkScript(recovered, table, rows, upsert, publish));
  }

  lemma BatchInstalls(s: Db, batch: seq<Planned>)
    ensures InstallsDirty(s, FlushScript(s) + PublishedScript(Exec(s, FlushScript(s)), batch))
  {
    BatchPlain(Exec(s, FlushScript(s)), batch);
    AfterFlush(s, PublishedScript(Exec(s, FlushScript(s)), batch));
  }

  lemma RemoveInstalls(s: Db, table: string)
    ensures InstallsDirty(s, FlushScript(s) + RemoveScript(Exec(s, FlushScript(s)), table))
  {
    AfterFlush(s, RemoveScript(Exec(s, FlushScript(s)), table));
  }

  lemma ScriptInstalls(s: Db, command: Command, listed: seq<string>)
    requires Tidy(s) && Lists(listed, s.dirty)
    ensures InstallsDirty(s, Script(s, command, listed))
  {
    match command
    case Read => RecoverInstalls(s, listed);
    case Flush => FlushPlain(s);
    case Mutate(planned, publish) =>
      MutateShape(s, planned, publish, listed);
      MutateInstalls(s, planned, publish, listed);
    case Bulk(table, rows, upsert, publish) =>
      BulkShape(s, table, rows, upsert, publish, listed);
      BulkInstalls(s, table, rows, upsert, publish, listed);
    case Batch(batch) =>
      BatchShape(s, batch, listed);
      BatchInstalls(s, batch);
    case Rebuild(table, contents) =>
      ReplaceShape(s, table, contents, listed);
      RebuildCallInstalls(Exec(s, FlushScript(s)), table, contents);
      AfterFlush(s, ReplaceScript(table, contents));
    case Remove(table) =>
      RemoveShape(s, table, listed);
      RemoveInstalls(s, table);
  }

  /** Stopping anywhere, with or without moving the retired generation back, breaks nothing. */
  lemma StoppedGood(s: Db, script: seq<Step>, cut: nat, rollback: bool, level: Level)
    requires Good(s, script, level) && InstallsDirty(s, script)
    ensures Good(s, StoppedAt(script, cut, rollback), level)
  {
    if cut < |script| {
      GoodPrefix(s, script, cut, level);
      if rollback && Installs(script[cut]) {
        var table := script[cut].table;
        GoodEnds(s, script[..cut], level);
        var e := Exec(s, script[..cut]);
        ApartSpares(e.tables.Keys, table, [Rename(Retired, Final)]);
        FileStep(e, table, Rename(Retired, Final), level);
        Snoc(s, script[..cut], Files(table, Rename(Retired, Final)), level);
      }
    }
  }

  /** `e` is what a call that follows `script` leaves: all of its steps, or up to where it stopped. */
  ghost predicate Follows(s: Db, script: seq<Step>, e: Db, ok: bool) {
    if ok then e == Exec(s, script) else exists cut: nat, rollback :: e == Exec(s, StoppedAt(script, cut, rollback))
  }

  lemma FollowsPrefix(s: Db, script: seq<Step>, cut: nat)
    requires cut <= |script|
    ensures Follows(s, script, Exec(s, script[..cut]), false)
    ensures cut == |script| ==> Follows(s, script, Exec(s, script[..cut]), true)
  {
    assert script[..cut] == StoppedAt(script, cut, false);
    if cut == |script| { assert script[..cut] == script; }
  }

  lemma FollowsFront(s: Db, a: seq<Step>, b: seq<Step>, e: Db)
    requires Follows(s, a, e, false)
    ensures Follows(s, a + b, e, false)
  {
    var cut: nat, rollback :| e == Exec(s, StoppedAt(a, cut, rollback));
    if cut >= |a| {
      assert (a + b)[..|a|] == a;
      FollowsPrefix(s, a + b, |a|);
    } else {
      assert (a + b)[..cut] == a[..cut];
      assert StoppedAt(a, cut, rollback) == StoppedAt(a + b, cut, rollback);
    }
  }

  lemma StoppedBack(a: seq<Step>, b: seq<Step>, cut: nat, rollback: bool)
    ensures StoppedAt(a + b, |a| + cut, rollback) == a + StoppedAt(b, cut, rollback)
  {
    if cut < |b| {
      assert (a + b)[..|a| + cut] == a + b[..cut];
      assert (a + b)[|a| + cut] == b[cut];
    }
  }

  lemma StoppedPlain(steps: seq<Step>, cut: nat, rollback: bool)
    requires Plain(steps)
    ensures StoppedAt(steps, cut, rollback) == steps[..if cut < |steps| then cut else |steps|]
  {
    if cut < |steps| { assert steps[cut] in steps; }
  }

  lemma FollowsBack(s: Db, a: seq<Step>, b: seq<Step>, e: Db, ok: bool)
    requires Follows(Exec(s, a), b, e, ok)
    ensures Follows(s, a + b, e, ok)
  {
    if ok {
      ExecAppend(s, a, b);
    } else {
      var cut: nat, rollback :| e == Exec(Exec(s, a), StoppedAt(b, cut, rollback));
      ExecAppend(s, a, StoppedAt(b, cut, rollback));
      StoppedBack(a, b, cut, rollback);
    }
  }

  lemma FollowsHolds(s: Db, script: seq<Step>, e: Db, ok: bool, level: Level)
    requires Good(s, script, level) && InstallsDirty(s, script) && Follows(s, script, e, ok)
    ensures Holds(e, level)
  {
    if ok {
      GoodEnds(s, script, level);
    } else {
      var cut: nat, rollback :| e == Exec(s, StoppedAt(script, cut, rollback));
      StoppedGood(s, script, cut, rollback, level);
      GoodEnds(s, StoppedAt(script, cut, rollback), level);
    }
  }
}
