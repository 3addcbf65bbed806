/** How the steps of the database's methods follow their scripts. */
module OutboxCalls {
  import opened Wrappers
  import opened Outbox
  import opened OutboxFacts
  import opened OutboxFiles
  import opened OutboxInvariant
  import opened OutboxScripts
  import opened OutboxRollback
  import opened OutboxWrites
  import opened OutboxStops
  import opened OutboxTheorems

  lemma OneStep(s: Db, steps: seq<Step>, done: nat)
    requires done < |steps|
    ensures Exec(s, steps[..done + 1]) == Do(Exec(s, steps[..done]), steps[done])
  {
    assert steps[..done + 1][..done] == steps[..done];
  }

  /** The record an id names, if it is still outstanding. */
  function Find(records: seq<Record>, id: nat): Option<Record> {
    if records == [] then None
    else if records[|records| - 1].id == id then Some(records[|records| - 1])
    else Find(records[..|records| - 1], id)
  }

  lemma {:induction false} FindMember(records: seq<Record>, id: nat)
    ensures match Find(records, id)
            case Some(record) => record in records && record.id == id
            case None => forall record :: record in records ==> record.id != id
  {
    if records != [] {
      var front, last := records[..|records| - 1], records[|records| - 1];
      FindMember(front, id);
      assert records == front + [last];
    }
  }

  // The outstanding records that `ids` names, in the order of `ids`.
  function Collect(records: seq<Record>, ids: seq<nat>): seq<Record> {
    if ids == [] then []
    else
      var before := Collect(records, ids[..|ids| - 1]);
      match Find(records, ids[|ids| - 1])
      case Some(record) => before + [record]
      case None => before
  }

  // Every caller passes ids in id order.
  predicate IdOrder(ids: seq<nat>) {
    forall i, j :: 0 <= i < j < |ids| ==> ids[i] < ids[j]
  }

  function IdSet(ids: seq<nat>): set<nat> {
    set id | id in ids
  }

  function IdList(records: seq<Record>): (ids: seq<nat>)
    ensures |ids| == |records|
  {
    seq(|records|, i requires 0 <= i < |records| => records[i].id)
  }

  lemma {:induction false} CollectMembers(records: seq<Record>, ids: seq<nat>, record: Record)
    requires Ascending(records)
    ensures record in Collect(records, ids) <==> record in records && record.id in ids
  {
    if ids != [] {
      var front, last := ids[..|ids| - 1], ids[|ids| - 1];
      CollectMembers(records, front, record);
      FindMember(records, last);
      assert ids == front + [last];
      if record in records && record.id == last { UniqueIds(records, record, Find(records, last).value); }
    }
  }

  lemma {:induction false} CollectAscending(records: seq<Record>, ids: seq<nat>)
    requires Ascending(records) && IdOrder(ids)
    ensures Ascending(Collect(records, ids))
  {
    if ids != [] {
      var front, last := ids[..|ids| - 1], ids[|ids| - 1];
      CollectAscending(records, front);
      FindMember(records, last);
      var before := Collect(records, front);
      forall i | 0 <= i < |before| ensures before[i].id < last {
        CollectMembers(records, front, before[i]);
        var k :| 0 <= k < |front| && front[k] == before[i].id;
        assert ids[k] < ids[|ids| - 1];
      }
    }
  }

  lemma KeepAscending(records: seq<Record>, ids: set<nat>)
    requires Ascending(records)
    ensures Ascending(Keep(records, ids))
    decreases |records|
  {
    if records != [] {
      var front, last := records[..|records| - 1], records[|records| - 1];
      KeepAscending(front, ids);
      var kept := Keep(front, ids);
      forall i | 0 <= i < |kept| ensures kept[i].id < last.id {
        KeepMembers(front, ids, kept[i]);
        var at :| 0 <= at < |front| && front[at] == kept[i];
        assert records[at].id < records[|records| - 1].id;
      }
    }
  }

  /** The table names of the outstanding records in name order, and the ids of each table. */
  ghost predicate Grouped(records: seq<Record>, ids: seq<nat>, names: seq<string>, groups: map<string, seq<nat>>) {
    && names == Names(Collect(records, ids))
    && forall name :: GroupIds(groups, name) == IdList(ForTable(Collect(records, ids), name))
  }

  lemma GroupedNext(records: seq<Record>, ids: seq<nat>, i: nat, names: seq<string>, groups: map<string, seq<nat>>)
    requires i < |ids| && Grouped(records, ids[..i], names, groups)
    ensures match Find(records, ids[i])
            case None => Grouped(records, ids[..i + 1], names, groups)
            case Some(record) =>
              Grouped(records, ids[..i + 1], InsertName(record.table, names),
                      groups[record.table := GroupIds(groups, record.table) + [ids[i]]])
  {
    CollectNext(records, ids, i);
  }

  /** What one more id adds to the names and groups of the records found. */
  lemma CollectNext(records: seq<Record>, ids: seq<nat>, i: nat)
    requires i < |ids|
    ensures var before, after := Collect(records, ids[..i]), Collect(records, ids[..i + 1]);
            match Find(records, ids[i])
            case None => after == before
            case Some(record) =>
              && record.id == ids[i] && Names(after) == InsertName(record.table, Names(before))
              && forall name :: IdList(ForTable(after, name)) ==
                   IdList(ForTable(before, name)) + (if record.table == name then [ids[i]] else [])
  {
    assert ids[..i + 1][..i] == ids[..i];
    var before := Collect(records, ids[..i]);
    match Find(records, ids[i])
    case None =>
    case Some(record) =>
      FindMember(records, ids[i]);
      assert (before + [record])[..|before|] == before;
      forall name {
        ForTableOne(before, record, name);
      }
  }

  /** Looking ids up one by one finds the records a selection by id keeps. */
  lemma CollectIsKeep(records: seq<Record>, ids: seq<nat>)
    requires Ascending(records) && IdOrder(ids)
    ensures Collect(records, ids) == Keep(records, IdSet(ids))
  {
    CollectAscending(records, ids);
    KeepAscending(records, IdSet(ids));
    forall record ensures record in Collect(records, ids) <==> record in Keep(records, IdSet(ids)) {
      CollectMembers(records, ids, record);
      KeepMembers(records, IdSet(ids), record);
    }
    AscendingUnique(Collect(records, ids), Keep(records, IdSet(ids)));
  }

  lemma FollowsLonger(s: Db, part: seq<Step>, script: seq<Step>, e: Db)
    requires Follows(s, part, e, false) && part <= script
    ensures Follows(s, script, e, false)
  {
    FollowsFront(s, part, script[|part|..], e);
    assert part + script[|part|..] == script;
  }

  lemma FollowsSome(s: Db, script: seq<Step>, performed: seq<Step>, ok: bool)
    requires if ok then performed == script else performed <= script
    ensures Follows(s, script, Exec(s, performed), ok)
  {
    FollowsPrefix(s, script, |performed|);
    assert script[..|performed|] == performed;
  }

  // The ways to stop in a script of two steps.
  lemma FollowsTwo(s: Db, script: seq<Step>)
    requires |script| == 2
    ensures Follows(s, script, s, false) && Follows(s, script, Do(s, script[0]), false)
    ensures Follows(s, script, Do(Do(s, script[0]), script[1]), true)
  {
    assert script[..0] == [];
    OneStep(s, script, 0);
    OneStep(s, script, 1);
    FollowsPrefix(s, script, 0);
    FollowsPrefix(s, script, 1);
    FollowsPrefix(s, script, 2);
  }

  function Removal(slot: Slot): seq<FileAction> {
    [Tear(slot), Clear(slot)]
  }

  function Moves(): seq<FileAction> {
    [Rename(Final, Retired), Rename(Building, Final)]
  }

  function Install(table: string): Step {
    Files(table, Rename(Building, Final))
  }

  lemma FileStepsAppend(table: string, a: seq<FileAction>, b: seq<FileAction>)
    ensures FileSteps(table, a + b) == FileSteps(table, a) + FileSteps(table, b)
  {
  }

  lemma BuildParts(table: string)
    ensures FileSteps(table, BuildActions()) == FileSteps(table, Removal(Building)) + FileSteps(table, [Create, Fill])
  {
    FileStepsAppend(table, Removal(Building), [Create, Fill]);
    assert BuildActions() == Removal(Building) + [Create, Fill];
  }

  lemma SwapParts(table: string)
    ensures FileSteps(table, SwapActions(PathsOf(table))) == FileSteps(table, Removal(Retired)) + InstallSteps(table)
  {
    var paths := PathsOf(table);
    if paths.final == paths.retired {
      FileStepsAppend(table, Removal(Retired), [Rename(Building, Final)]);
      assert SwapActions(paths) == Removal(Retired) + [Rename(Building, Final)];
      assert FileSteps(table, [Rename(Building, Final)]) == [Install(table)];
    } else {
      FileStepsAppend(table, Moves(), Removal(Retired));
      FileStepsAppend(table, Removal(Retired), Moves() + Removal(Retired));
      assert SwapActions(paths) == Removal(Retired) + (Moves() + Removal(Retired));
    }
  }

  // The steps of a swap after the retired directory has been removed.
  function InstallSteps(table: string): seq<Step> {
    if PathsOf(table).final == PathsOf(table).retired then [Install(table)]
    else FileSteps(table, Moves()) + FileSteps(table, Removal(Retired))
  }

  lemma RetiredRemoved(s: Db, table: string)
    ensures var e := Exec(s, FileSteps(table, Removal(Retired)));
            e == s.(disk := e.disk) && PathsOf(table).retired in e.disk && At(e.disk, PathsOf(table).retired).Absent?
  {
    FileStepsEffect(s, table, Removal(Retired));
    RemovalResult(s.disk, PathsOf(table), RowsOf(s, table), Retired);
  }

  // Without a previous generation there is nothing to move away and nothing to remove afterwards.
  lemma NothingRetired(s: Db, table: string)
    requires PathsOf(table).final != PathsOf(table).retired && PathsOf(table).retired in s.disk
    requires At(s.disk, PathsOf(table).retired).Absent? && Installed(s, table).Absent?
    ensures Exec(s, FileSteps(table, Moves()) + FileSteps(table, Removal(Retired))) == Do(s, Install(table))
  {
    BuildingApart(table);
    FileStepsAppend(table, Moves(), Removal(Retired));
    FileStepsEffect(s, table, Moves() + Removal(Retired));
    InstallOnly(s.disk, PathsOf(table), RowsOf(s, table));
    FileOnly(s, table, Rename(Building, Final));
  }

  lemma InstalledAlone(s: Db, table: string, e: Db, ok: bool)
    requires PathsOf(table).retired in s.disk && At(s.disk, PathsOf(table).retired).Absent? &&
             Installed(s, table).Absent?
    requires e == if ok then Do(s, Install(table)) else s
    ensures Follows(s, InstallSteps(table), e, ok)
  {
    if !ok {
      NotStarted(s, InstallSteps(table));
    } else if PathsOf(table).final == PathsOf(table).retired {
      ExecOne(s, Install(table));
    } else {
      NothingRetired(s, table);
    }
  }

  lemma MovedBack(s: Db, table: string)
    ensures Follows(s, FileSteps(table, Moves()),
                    Do(Do(s, Files(table, Rename(Final, Retired))), Files(table, Rename(Retired, Final))), false)
  {
    var script, back := FileSteps(table, Moves()), Files(table, Rename(Retired, Final));
    var s1 := Do(s, script[0]);
    assert script[..1] == [script[0]];
    ExecOne(s, script[0]);
    ExecOne(s1, back);
    ExecAppend(s, script[..1], [back]);
    assert StoppedAt(script, 1, true) == script[..1] + [back];
  }

  // Installing the generation and clearing the flag.
  function SwapScript(table: string): seq<Step> {
    FileSteps(table, SwapActions(PathsOf(table))) + [MarkClean(table)]
  }

  lemma SwappedNotClean(s: Db, table: string, e: Db, ok: bool)
    requires Follows(s, FileSteps(table, SwapActions(PathsOf(table))), e, ok)
    ensures Follows(s, SwapScript(table), e, false)
  {
    var files := FileSteps(table, SwapActions(PathsOf(table)));
    if ok {
      FollowsPrefix(s, files, |files|);
      assert files[..|files|] == files;
    }
    FollowsFront(s, files, [MarkClean(table)], e);
  }

  lemma SwappedAndClean(s: Db, table: string, e: Db)
    requires Follows(s, FileSteps(table, SwapActions(PathsOf(table))), e, true)
    ensures Follows(s, SwapScript(table), Do(e, MarkClean(table)), true)
  {
    var files := FileSteps(table, SwapActions(PathsOf(table)));
    ExecOne(e, MarkClean(table));
    FollowsBack(s, files, [MarkClean(table)], Do(e, MarkClean(table)), true);
  }

  lemma RebuildParts(table: string)
    ensures RebuildScript(table) == [CloseIndex(table)] + (FileSteps(table, BuildActions()) + SwapScript(table))
  {
    assert FileSteps(table, BuildActions() + SwapActions(PathsOf(table))) ==
           FileSteps(table, BuildActions()) + FileSteps(table, SwapActions(PathsOf(table)));
  }

  lemma StillDirty(s: Db, names: seq<string>, i: nat)
    requires Tidy(s) && Lists(names, s.dirty) && i < |names|
    ensures names[i] in Exec(s, RebuildsScript(names[..i])).dirty
  {
    RebuildsEffect(s, names[..i]);
  }

  lemma {:induction false} RebuildsSplit(names: seq<string>, i: nat)
    requires i < |names|
    ensures RebuildsScript(names[..i]) + RebuildScript(names[i]) <= RebuildsScript(names)
    ensures RebuildsScript(names[..i + 1]) == RebuildsScript(names[..i]) + RebuildScript(names[i])
  {
    assert names[..i + 1][..i] == names[..i];
    if i + 1 == |names| {
      assert names[..i + 1] == names;
    } else {
      var front := names[..|names| - 1];
      assert front[..i] == names[..i];
      RebuildsSplit(front, i);
    }
  }

  lemma Outstanding(s: Db, gone: set<nat>)
    requires Tidy(s)
    ensures IdOrder(IdList(Drop(s.outbox, gone))) && IdSet(IdList(Drop(s.outbox, gone))) == Ids(s.outbox) - gone
  {
    var left := Drop(s.outbox, gone);
    DropAscending(s.outbox, gone);
    IdsOfGroup(left);
    forall id ensures id in Ids(left) <==> id in Ids(s.outbox) - gone {
      if id in Ids(left) {
        var record :| record in left && record.id == id;
        DropMembers(s.outbox, gone, record);
      }
      if id in Ids(s.outbox) - gone {
        var record :| record in s.outbox && record.id == id;
        DropMembers(s.outbox, gone, record);
      }
    }
  }

  lemma AllOutstanding(s: Db)
    requires Tidy(s)
    ensures IdOrder(IdList(s.outbox)) && IdSet(IdList(s.outbox)) == Ids(s.outbox)
  {
    IdsOfGroup(s.outbox);
  }

  function GroupIds(groups: map<string, seq<nat>>, name: string): seq<nat> {
    if name in groups then groups[name] else []
  }

  lemma StopsHolding(s: Db, script: seq<Step>, cut: nat)
    requires Good(s, script, Live) && cut <= |script|
    ensures Holds(Exec(s, script[..cut]), Live)
  {
    GoodPrefix(s, script, cut, Live);
    GoodEnds(s, script[..cut], Live);
  }

  predicate Sorted(names: seq<string>) {
    forall i, j :: 0 <= i < j < |names| ==> Ordering.CompareString(names[i], names[j]).Less?
  }

  lemma StringLessChain(a: string, b: string, c: string)
    requires Ordering.CompareString(a, b).Less? && Ordering.CompareString(b, c).Less?
    ensures Ordering.CompareString(a, c).Less?
  {
    Ordering.StringChain(a, b, c);
    Ordering.StringMirror(a, c);
    Ordering.StringMirror(b, c);
    Ordering.StringMirror(a, b);
  }

  lemma {:induction false} InsertSorted(name: string, names: seq<string>)
    requires Sorted(names)
    ensures Sorted(InsertName(name, names))
  {
    if names != [] {
      Ordering.StringMirror(name, names[0]);
      var rest := names[1..];
      assert Sorted(rest);
      if Ordering.CompareString(name, names[0]).Less? {
        forall j | 0 <= j < |names| ensures Ordering.CompareString(name, names[j]).Less? {
          if j > 0 { StringLessChain(name, names[0], names[j]); }
        }
      } else if Ordering.CompareString(name, names[0]).Greater? {
        InsertSorted(name, rest);
        var longer := InsertName(name, rest);
        forall j | 0 <= j < |longer| ensures Ordering.CompareString(names[0], longer[j]).Less? {
          InsertNameMembers(name, rest, longer[j]);
          if longer[j] in rest {
            var k :| 0 <= k < |rest| && rest[k] == longer[j];
            assert names[k + 1] == longer[j];
          }
        }
      }
    }
  }

  lemma {:induction false} NamesSorted(records: seq<Record>)
    ensures Sorted(Names(records))
  {
    if records != [] {
      NamesSorted(records[..|records| - 1]);
      InsertSorted(records[|records| - 1].table, Names(records[..|records| - 1]));
    }
  }

  lemma KeptTables(s: Db, chosen: set<nat>)
    requires Tidy(s)
    ensures forall record :: record in Keep(s.outbox, chosen) ==> record.table in s.tables
  {
    forall record | record in Keep(s.outbox, chosen) ensures record.table in s.tables {
      KeepMembers(s.outbox, chosen, record);
    }
  }

  // What `apply_outboxes` relies on while the tables from the i-th on are still to do.
  ghost predicate Following(now: Db, names: seq<string>, i: nat, groups: map<string, seq<nat>>, chosen: set<nat>) {
    && Holds(now, Live) && Selects(now, chosen, Live) && Sorted(names)
    && forall k :: i <= k < |names| ==>
         names[k] in now.tables && GroupIds(groups, names[k]) == IdList(Group(now, names[k], chosen))
  }

  // It has performed the steps of the tables before the i-th.
  ghost predicate Reached(s0: Db, now: Db, performed: seq<Step>, names: seq<string>, i: nat, chosen: set<nat>,
                          script: seq<Step>) {
    i <= |names| && now == Exec(s0, performed) && performed + GroupsScript(now, names[i..], chosen) == script
  }

  lemma StartFollowing(s0: Db, ids: seq<nat>, groups: map<string, seq<nat>>)
    requires Holds(s0, Live) && IdOrder(ids) && Selects(s0, IdSet(ids), Live)
    requires forall name :: GroupIds(groups, name) == IdList(ForTable(Collect(s0.outbox, ids), name))
    ensures Names(Collect(s0.outbox, ids)) == Names(Keep(s0.outbox, IdSet(ids)))
    ensures Following(s0, Names(Keep(s0.outbox, IdSet(ids))), 0, groups, IdSet(ids))
  {
    var kept := Keep(s0.outbox, IdSet(ids));
    CollectIsKeep(s0.outbox, ids);
    NamesSorted(kept);
    KeptTables(s0, IdSet(ids));
    forall name | name in Names(kept) ensures name in s0.tables { NamesMembers(kept, name); }
  }

  lemma StartReached(s0: Db, names: seq<string>, chosen: set<nat>)
    ensures Reached(s0, s0, [], names, 0, chosen, GroupsScript(s0, names, chosen))
  {
    assert names[0..] == names;
    assert [] + GroupsScript(s0, names, chosen) == GroupsScript(s0, names, chosen);
  }

  lemma ReachedEnd(s0: Db, now: Db, performed: seq<Step>, names: seq<string>, chosen: set<nat>, script: seq<Step>)
    requires Reached(s0, now, performed, names, |names|, chosen, script)
    ensures performed == script
  {
    assert names[|names|..] == [];
    assert performed + [] == performed;
  }

  lemma ReachedNext(s0: Db, before: Db, now: Db, performed: seq<Step>, names: seq<string>, i: nat, chosen: set<nat>,
                    script: seq<Step>, done: nat)
    requires i < |names| && Reached(s0, before, performed, names, i, chosen, script)
    requires done <= |GroupScript(before, names[i], chosen)|
    requires now == Exec(before, GroupScript(before, names[i], chosen)[..done])
    ensures var here := GroupScript(before, names[i], chosen);
            && now == Exec(s0, performed + here[..done]) && performed + here[..done] <= script
            && (done == |here| ==> Reached(s0, now, performed + here[..done], names, i + 1, chosen, script))
  {
    var here, rest := GroupScript(before, names[i], chosen), names[i..];
    assert rest[0] == names[i] && rest[1..] == names[i + 1..];
    PartWay(performed, here, GroupsScript(Exec(before, here), names[i + 1..], chosen), done);
    ExecAppend(s0, performed, here[..done]);
  }

  lemma PartWay(performed: seq<Step>, here: seq<Step>, later: seq<Step>, done: nat)
    requires done <= |here|
    ensures performed + here[..done] <= performed + (here + later)
    ensures done == |here| ==> here[..done] == here && performed + here[..done] + later == performed + (here + later)
  {
  }

  lemma FollowingNext(before: Db, now: Db, names: seq<string>, i: nat, groups: map<string, seq<nat>>, chosen: set<nat>)
    requires Following(before, names, i, groups, chosen) && i < |names|
    requires var here := GroupScript(before, names[i], chosen); now == Exec(before, here[..|here|])
    ensures Following(now, names, i + 1, groups, chosen)
  {
    var here := GroupScript(before, names[i], chosen);
    assert here[..|here|] == here;
    GroupGood(before, names[i], chosen, Live);
    GoodEnds(before, here, Live);
    SelectsAfterGroup(before, now, names[i], chosen);
    assert now.tables == before.tables;
    forall k | i < k < |names| ensures Group(now, names[k], chosen) == Group(before, names[k], chosen) {
      Ordering.StringMirror(names[i], names[k]);
      OtherGroup(before, now, names[i], chosen, names[k]);
    }
  }

  lemma SelectsAfterGroup(s: Db, e: Db, table: string, chosen: set<nat>)
    requires Tidy(s) && GroupDone(s, e, table, chosen) && Selects(s, chosen, Live)
    ensures Selects(e, chosen, Live)
  {
    forall record { GroupRemains(s, e, table, chosen, record); }
  }

  lemma OtherGroup(s: Db, e: Db, table: string, chosen: set<nat>, other: string)
    requires Tidy(s) && GroupDone(s, e, table, chosen) && other != table
    ensures Group(e, other, chosen) == Group(s, other, chosen)
  {
    PurgedGroup(s, table, other, chosen);
    assert Group(e, other, chosen) == Group(s.(outbox := e.outbox), other, chosen);
  }

  // The state after `ops` have been queued for `table`.
  function Queue(s: Db, table: string, ops: seq<WriterOp>): Db {
    if ops == [] then s else s.(writers := s.writers[table := Buffered(s, table) + ops])
  }

  lemma QueueSnoc(s: Db, table: string, ops: seq<WriterOp>, op: WriterOp)
    ensures Do(Queue(s, table, ops), Write(table, op)) == Queue(s, table, ops + [op])
  {
    assert Buffered(s, table) + ops + [op] == Buffered(s, table) + (ops + [op]);
    if ops != [] {
      var longer := Buffered(s, table) + (ops + [op]);
      assert s.writers[table := Buffered(s, table) + ops][table := longer] == s.writers[table := longer];
    } else {
      assert Buffered(s, table) + ([] + [op]) == Buffered(s, table) + [op];
    }
  }

  lemma {:induction false} QueueIsWrites(s: Db, table: string, ops: seq<WriterOp>)
    ensures Exec(s, Writes(table, ops)) == Queue(s, table, ops)
  {
    if ops != [] {
      var front, last := ops[..|ops| - 1], ops[|ops| - 1];
      QueueIsWrites(s, table, front);
      assert Writes(table, ops)[..|front|] == Writes(table, front);
      QueueSnoc(s, table, front, last);
      assert ops == front + [last];
    }
  }

  lemma {:induction false} StagePrefix(operations: seq<Operation>, i: nat)
    requires i <= |operations|
    ensures StageOps(operations[..i]) <= StageOps(operations)
  {
    if i == |operations| {
      assert operations[..i] == operations;
    } else {
      StagePrefix(operations[..|operations| - 1], i);
      assert operations[..|operations| - 1][..i] == operations[..i];
    }
  }

  lemma QueueAppend(s: Db, table: string, a: seq<WriterOp>, b: seq<WriterOp>)
    ensures Queue(Queue(s, table, a), table, b) == Queue(s, table, a + b)
  {
    if a == [] {
      assert a + b == b;
    } else if b == [] {
      assert a + b == a;
    } else {
      assert Buffered(s, table) + a + b == Buffered(s, table) + (a + b);
      var longer := Buffered(s, table) + (a + b);
      assert s.writers[table := Buffered(s, table) + a][table := longer] == s.writers[table := longer];
    }
  }

  lemma IdsOfGroup(group: seq<Record>)
    ensures IdSet(IdList(group)) == Ids(group)
  {
    forall id ensures id in IdSet(IdList(group)) <==> id in Ids(group) {
      if id in Ids(group) {
        var record :| record in group && record.id == id;
        var i :| 0 <= i < |group| && group[i] == record;
        assert IdList(group)[i] == id;
      }
      if id in IdList(group) {
        var i :| 0 <= i < |group| && IdList(group)[i] == id;
        assert group[i] in group;
      }
    }
  }

  lemma FindInGroup(s: Db, table: string, chosen: set<nat>, j: nat)
    requires Tidy(s) && j < |Group(s, table, chosen)|
    ensures var record := Group(s, table, chosen)[j];
            Find(s.outbox, record.id) == Some(record) && record.table == table && table in s.tables
  {
    var record := Group(s, table, chosen)[j];
    GroupMembers(s, table, chosen, record);
    FindMember(s.outbox, record.id);
    UniqueIds(s.outbox, record, Find(s.outbox, record.id).value);
  }

  /** How the queued operations grow with the next record of a group. */
  lemma {:induction false} GroupPrefix(group: seq<Record>, staged: set<nat>, rows: Rows, j: nat)
    requires j < |group|
    ensures var here := if group[j].id in staged then [] else StageOps(ResolveAll(group[j].operations, rows));
            && RecordOps(Drop(group[..j + 1], staged), rows) == RecordOps(Drop(group[..j], staged), rows) + here
            && RecordOps(Drop(group[..j + 1], staged), rows) <= RecordOps(Drop(group, staged), rows)
  {
    var before := Drop(group[..j], staged);
    assert group[..j + 1] == group[..j] + [group[j]];
    DropOne(group[..j], group[j], staged);
    assert (before + [group[j]])[..|before|] == before;
    assert group == group[..j + 1] + group[j + 1..];
    DropAppend(group[..j + 1], group[j + 1..], staged);
    RecordOpsPrefix(Drop(group[..j + 1], staged), Drop(group[j + 1..], staged), rows);
  }

  lemma StagedOneMore(s: Db, table: string, chosen: set<nat>, j: nat, queued: seq<WriterOp>, more: seq<WriterOp>)
    requires j < |Group(s, table, chosen)| && Group(s, table, chosen)[j].id !in s.staged
    requires queued == RecordOps(Drop(Group(s, table, chosen)[..j], s.staged), RowsOf(s, table))
    requires more <= StageOps(ResolveAll(Group(s, table, chosen)[j].operations, RowsOf(s, table)))
    ensures queued + more <= ToQueue(s, table, chosen)
    ensures more == StageOps(ResolveAll(Group(s, table, chosen)[j].operations, RowsOf(s, table))) ==>
              queued + more == RecordOps(Drop(Group(s, table, chosen)[..j + 1], s.staged), RowsOf(s, table))
  {
    GroupPrefix(Group(s, table, chosen), s.staged, RowsOf(s, table), j);
  }

  lemma {:induction false} RecordOpsPrefix(a: seq<Record>, b: seq<Record>, rows: Rows)
    ensures RecordOps(a, rows) <= RecordOps(a + b, rows)
  {
    if b == [] {
      assert a + b == a;
    } else {
      RecordOpsPrefix(a, b[..|b| - 1], rows);
      assert (a + b)[..|a + b| - 1] == a + b[..|b| - 1];
    }
  }

  // What staging a group queues.
  function ToQueue(s: Db, table: string, chosen: set<nat>): seq<WriterOp> {
    RecordOps(Drop(Group(s, table, chosen), s.staged), RowsOf(s, table))
  }

  lemma GroupShape(s: Db, table: string, chosen: set<nat>)
    ensures var group := Group(s, table, chosen);
            GroupScript(s, table, chosen) ==
            Writes(table, ToQueue(s, table, chosen)) + [Commit(table), Purge(Ids(group))] + Forgets(group)
  {
  }

  /** While a group is being staged, the script has been followed as far as the queue reaches. */
  lemma GroupCut(s: Db, table: string, chosen: set<nat>, queued: seq<WriterOp>)
    requires queued <= ToQueue(s, table, chosen)
    ensures |queued| <= |GroupScript(s, table, chosen)|
    ensures Exec(s, GroupScript(s, table, chosen)[..|queued|]) == Queue(s, table, queued)
  {
    var ops := ToQueue(s, table, chosen);
    assert Writes(table, ops)[..|queued|] == Writes(table, queued);
    QueueIsWrites(s, table, queued);
    GroupShape(s, table, chosen);
    assert GroupScript(s, table, chosen)[..|queued|] == Writes(table, ops)[..|queued|];
  }

  /** After the staging the script commits, ... */
  lemma GroupCommitted(s: Db, table: string, chosen: set<nat>)
    ensures var ops := ToQueue(s, table, chosen); var script := GroupScript(s, table, chosen);
            && |ops| + 1 < |script|
            && Exec(s, script[..|ops| + 1]) == Do(Queue(s, table, ops), Commit(table))
  {
    var ops := ToQueue(s, table, chosen);
    GroupCut(s, table, chosen, ops);
    GroupShape(s, table, chosen);
    OneStep(s, GroupScript(s, table, chosen), |ops|);
  }

  /** ... purges and forgets. */
  lemma GroupFinished(s: Db, table: string, chosen: set<nat>)
    ensures var group := Group(s, table, chosen);
            var ops := ToQueue(s, table, chosen);
            var script := GroupScript(s, table, chosen);
            && |script| == |ops| + 2 + |group|
            && Exec(s, script[..|script|]) ==
               Exec(Do(Do(Queue(s, table, ops), Commit(table)), Purge(Ids(group))), Forgets(group))
  {
    var group := Group(s, table, chosen);
    var ops := ToQueue(s, table, chosen);
    var script := GroupScript(s, table, chosen);
    GroupCommitted(s, table, chosen);
    GroupShape(s, table, chosen);
    OneStep(s, script, |ops| + 1);
    var head := Writes(table, ops) + [Commit(table), Purge(Ids(group))];
    assert script[..|ops| + 2] == head;
    ExecAppend(s, head, Forgets(group));
    assert script[..|script|] == head + Forgets(group);
  }

  // ----- calls -----

  /** The call, complete or cut short, as an event of a run. */
  ghost predicate Serves(s: Db, command: Command, listed: seq<string>, e: Db, ok: bool) {
    Lists(listed, s.dirty) && Follows(s, Script(s, command, listed), e, ok)
  }

  /** One script after another: the second is only started when the first is complete. */
  lemma Then(s: Db, a: seq<Step>, middle: Db, b: seq<Step>, e: Db, first: bool, ok: bool)
    requires Follows(s, a, middle, first) && if first then Follows(middle, b, e, ok) else e == middle && !ok
    ensures Follows(s, a + b, e, ok)
  {
    if first { FollowsBack(s, a, b, e, ok); } else { FollowsFront(s, a, b, e); }
  }

  lemma NotStarted(s: Db, script: seq<Step>)
    ensures Follows(s, script, s, false)
  {
    FollowsPrefix(s, script, 0);
    assert script[..0] == [];
  }

  // The state a call continues from once its first script is done; any state otherwise.
  lemma MutateServed(s: Db, middle: Db, e: Db, planned: Planned, publish: bool, listed: seq<string>, first: bool,
                     ok: bool)
    requires Follows(s, RecoverScript(s, listed), middle, first)
    requires if first then Follows(middle, MutateScript(middle, planned, publish), e, ok) else e == middle && !ok
    ensures Follows(s, Script(s, Mutate(planned, publish), listed), e, ok)
  {
    MutateShape(s, planned, publish, listed);
    Then(s, RecoverScript(s, listed), middle, MutateScript(Recovered(s, listed), planned, publish), e, first, ok);
  }

  lemma BulkServed(s: Db, middle: Db, e: Db, command: Command, listed: seq<string>, first: bool, ok: bool)
    requires command.Bulk? && Follows(s, RecoverScript(s, listed), middle, first)
    requires var body := BulkScript(middle, command.table, command.rows, command.upsert, command.publish);
             if first then Follows(middle, body, e, ok) else e == middle && !ok
    ensures Follows(s, Script(s, command, listed), e, ok)
  {
    var body := BulkScript(Recovered(s, listed), command.table, command.rows, command.upsert, command.publish);
    BulkShape(s, command.table, command.rows, command.upsert, command.publish, listed);
    Then(s, RecoverScript(s, listed), middle, body, e, first, ok);
  }

  lemma BatchServed(s: Db, middle: Db, e: Db, batch: seq<Planned>, body: seq<Step>, first: bool, ok: bool)
    requires Follows(s, FlushScript(s), middle, first) && body == PublishedScript(Exec(s, FlushScript(s)), batch)
    requires if first then Follows(middle, body, e, ok) else e == middle && !ok
    ensures Follows(s, Script(s, Batch(batch), []), e, ok)
  {
    BatchShape(s, batch, []);
    FlushServed(s, middle, e, Batch(batch), body, first, ok);
  }

  lemma FlushServed(s: Db, middle: Db, e: Db, command: Command, body: seq<Step>, first: bool, ok: bool)
    requires Script(s, command, []) == FlushScript(s) + body
    requires Follows(s, FlushScript(s), middle, first)
    requires if first then Follows(middle, body, e, ok) else e == middle && !ok
    ensures Follows(s, Script(s, command, []), e, ok)
  {
    Then(s, FlushScript(s), middle, body, e, first, ok);
  }

  lemma StaysValid(s0: Db, s1: Db, e: Db, table: string, contents: Rows, ok: bool)
    requires Holds(s0, Live) && s0.outbox == [] && Apart(s0.tables.Keys + {table}) &&
             s1 == Do(s0, Replace(table, contents))
    requires Follows(s1, RebuildScript(table), e, ok)
    ensures Holds(e, Live)
  {
    ReplaceStep(s0, table, contents, Live);
    RebuildGood(s1, table, Live);
    RebuildInstalls(s1, table);
    FollowsHolds(s1, RebuildScript(table), e, ok, Live);
  }

  lemma ReplaceServed(s: Db, middle: Db, e: Db, table: string, contents: Rows, first: bool, ok: bool)
    requires Follows(s, FlushScript(s), middle, first)
    requires if first then Follows(middle, ReplaceScript(table, contents), e, ok) else e == middle && !ok
    ensures Follows(s, Script(s, Rebuild(table, contents), []), e, ok)
  {
    ReplaceShape(s, table, contents, []);
    Then(s, FlushScript(s), middle, ReplaceScript(table, contents), e, first, ok);
  }

  lemma RemovedHolds(s: Db, table: string, e: Db, ok: bool)
    requires Holds(s, Live) && s.outbox == [] && table in s.tables && Follows(s, RemoveScript(s, table), e, ok)
    ensures Holds(e, Live)
  {
    RemoveGood(s, table, Live);
    FollowsHolds(s, RemoveScript(s, table), e, ok, Live);
  }

  lemma RemoveServed(s: Db, middle: Db, e: Db, table: string, first: bool, ok: bool)
    requires Follows(s, FlushScript(s), middle, first)
    requires if first then Follows(middle, RemoveScript(middle, table), e, ok) else e == middle && !ok
    ensures Follows(s, Script(s, Remove(table), []), e, ok)
  {
    RemoveShape(s, table, []);
    Then(s, FlushScript(s), middle, RemoveScript(Exec(s, FlushScript(s)), table), e, first, ok);
  }

  lemma BulkWritten(s: Db, middle: Db, e: Db, table: string, rows: seq<Row>, upsert: bool, publish: bool, ok: bool)
    requires rows != [] && RunBatch(s.tables, s.next, [PlannedBulk(table, rows, upsert)]).Some?
    requires Follows(s, DeferredScript(s, PlannedBulk(table, rows, upsert)), middle, true)
    requires if publish then Follows(middle, FlushScript(middle), e, ok) else e == middle && ok
    ensures Follows(s, BulkScript(s, table, rows, upsert, publish), e, ok)
  {
    var write := DeferredScript(s, PlannedBulk(table, rows, upsert));
    if publish {
      FollowsBack(s, write, FlushScript(middle), e, ok);
    } else {
      assert write + [] == write;
    }
  }

  // A bulk write that stops before its record is deferred is not followed by the flush.
  lemma BulkStopped(s: Db, e: Db, table: string, rows: seq<Row>, upsert: bool, publish: bool)
    requires rows != [] && Follows(s, DeferredScript(s, PlannedBulk(table, rows, upsert)), e, false)
    ensures Follows(s, BulkScript(s, table, rows, upsert, publish), e, false)
  {
    var planned := PlannedBulk(table, rows, upsert);
    var write := DeferredScript(s, planned);
    if TransactScript(s, [planned]) != [] {
      FollowsFront(s, write, if publish then FlushScript(Exec(s, write)) else [], e);
    } else {
      NotStarted(s, []);
    }
  }

  lemma AfterTransaction(s: Db, batch: seq<Planned>)
    requires Holds(s, Live) && Unstaged(s) == [] && RunBatch(s.tables, s.next, batch).Some?
    ensures var after := Do(s, Transact(batch)); var ids := IdList(AddedRecords(s, batch));
            && Holds(after, Live) && IdOrder(ids) && IdSet(ids) == Ids(AddedRecords(s, batch))
            && Selects(after, IdSet(ids), Live)
  {
    TransactStep(s, batch, Live);
    BatchIsRecorded(s.tables, s.next, batch);
    IdsOfGroup(AddedRecords(s, batch));
    AddedSelects(s, batch, Live);
  }

  // The record of a single mutation, as staging will find it.
  lemma AddedRecord(s: Db, after: Db, planned: Planned, added: seq<Record>)
    requires Tidy(s) && RunBatch(s.tables, s.next, [planned]).Some?
    requires after == Do(s, Transact([planned])) && added == AddedRecords(s, [planned]) != []
    ensures |added| == 1 && added[0].table == planned.table && planned.table in after.tables
    ensures Find(after.outbox, added[0].id) == Some(added[0])
  {
    SingleRecord(s, planned);
    var outbox := after.outbox;
    assert outbox[|outbox| - 1] == added[0];
  }

  lemma DeferredHolds(s: Db, planned: Planned, e: Db, ok: bool)
    requires Holds(s, Live) && Unstaged(s) == [] && Follows(s, DeferredScript(s, planned), e, ok)
    ensures Holds(e, Live)
  {
    DeferredGood(s, planned, Live);
    MutatePlain(s, planned, false);
    FollowsHolds(s, DeferredScript(s, planned), e, ok, Live);
  }

  lemma NothingToDefer(s: Db, planned: Planned)
    requires RunBatch(s.tables, s.next, [planned]).Some? && AddedRecords(s, [planned]) == []
    ensures Follows(s, DeferredScript(s, planned), Do(s, Transact([planned])), true)
  {
    ExecOne(s, Transact([planned]));
  }

  lemma OneRecordOps(added: seq<Record>, rows: Rows)
    requires |added| == 1
    ensures RecordOps(added, rows) == StageOps(ResolveAll(added[0].operations, rows))
  {
    assert added[..0] == [];
    var ops := StageOps(ResolveAll(added[0].operations, rows));
    assert [] + ops == ops;
  }

  /** Where the deferral of a mutation stands once `queued` has been handed to the writer. */
  lemma DeferredCut(s: Db, s1: Db, planned: Planned, added: seq<Record>, queued: seq<WriterOp>)
    requires RunBatch(s.tables, s.next, [planned]).Some?
    requires s1 == Do(s, Transact([planned])) && added == AddedRecords(s, [planned]) != []
    requires queued <= Queued(s1, planned, added)
    ensures Follows(s, DeferredScript(s, planned), Queue(s1, planned.table, queued), false)
    ensures queued == Queued(s1, planned, added) ==>
              Follows(s, DeferredScript(s, planned), Do(Queue(s1, planned.table, queued), Defer(added[0].id)), true)
  {
    ExecOne(s, Transact([planned]));
    QueueCut(s1, planned.table, Queued(s1, planned, added), added[0].id, queued);
    var rest := Writes(planned.table, Queued(s1, planned, added)) + [Defer(added[0].id)];
    assert DeferredScript(s, planned) == [Transact([planned])] + rest by {
      DeferredShape(s, planned);
      Regroup([Transact([planned])], Writes(planned.table, Queued(s1, planned, added)), [Defer(added[0].id)]);
    }
    var e := Queue(s1, planned.table, queued);
    FollowsBack(s, [Transact([planned])], rest, e, false);
    if queued == Queued(s1, planned, added) {
      FollowsBack(s, [Transact([planned])], rest, Do(e, Defer(added[0].id)), true);
    }
  }

  lemma QueueCut(s: Db, table: string, ops: seq<WriterOp>, id: nat, queued: seq<WriterOp>)
    requires queued <= ops
    ensures Follows(s, Writes(table, ops) + [Defer(id)], Queue(s, table, queued), false)
    ensures queued == ops ==> Follows(s, Writes(table, ops) + [Defer(id)], Do(Queue(s, table, queued), Defer(id)), true)
  {
    var writes, e := Writes(table, ops), Queue(s, table, queued);
    assert writes[..|queued|] == Writes(table, queued);
    QueueIsWrites(s, table, queued);
    FollowsPrefix(s, writes, |queued|);
    FollowsFront(s, writes, [Defer(id)], e);
    if queued == ops {
      ExecOne(e, Defer(id));
      FollowsBack(s, writes, [Defer(id)], Do(e, Defer(id)), true);
    }
  }

  lemma RemovedAfterDrop(s: Db, middle: Db, e: Db, table: string, ok: bool)
    requires table in s.tables && middle == Do(Do(s, DropTable(table)), CloseIndex(table))
    requires Follows(middle, FileSteps(table, Removal(Final)), e, ok)
    ensures Follows(s, RemoveScript(s, table), e, ok)
  {
    var drop := [DropTable(table), CloseIndex(table)];
    FollowsTwo(s, drop);
    FollowsBack(s, drop, FileSteps(table, Removal(Final)), e, ok);
  }

  /** What a method leaves is what an event of a run leaves. */
  lemma ServesAsEvent(s: Db, command: Command, listed: seq<string>, e: Db, ok: bool)
    requires Serves(s, command, listed, e, ok)
    ensures exists cut: nat, rollback :: e == Happen(s, Event(command, listed, cut, rollback, false))
  {
    var script := Script(s, command, listed);
    if ok {
      assert e == Happen(s, Event(command, listed, |script|, false, false));
    } else {
      var cut: nat, rollback :| e == Exec(s, StoppedAt(script, cut, rollback));
      assert e == Happen(s, Event(command, listed, cut, rollback, false));
    }
  }
}
