/** What building and swapping a generation does to the directories on disk. */
module OutboxFiles {
  import opened Outbox

  /** One action on the directories: a removal that stops half-way leaves a torn directory, one that does not
      leaves none; a new generation is empty and then filled; a rename takes a directory that is there to its
      new name, over whatever was there.  No action touches any other directory. */
  lemma ActionDoes(disk: Disk, paths: Paths, rows: Rows, action: FileAction, path: string)
    ensures action.Tear? ==> At(Act(disk, paths, rows, action), path) ==
                             if path == paths.Of(action.slot) && !At(disk, path).Absent? then Torn else At(disk, path)
    ensures action.Clear? ==> At(Act(disk, paths, rows, action), path) ==
                              if path == paths.Of(action.slot) then Absent else At(disk, path)
    ensures action.Create? || action.Fill? ==>
              At(Act(disk, paths, rows, action), path) ==
              if path == paths.building then Whole(if action.Create? then [] else Snapshot(rows)) else At(disk, path)
    ensures action.Rename? ==>
              At(Act(disk, paths, rows, action), path) ==
              if At(disk, paths.Of(action.from)).Absent? then At(disk, path)
              else if path == paths.Of(action.to) then At(disk, paths.Of(action.from))
              else if path == paths.Of(action.from) then Absent
              else At(disk, path)
  {
  }

  lemma {:induction false} ActAllAppend(disk: Disk, paths: Paths, rows: Rows, a: seq<FileAction>, b: seq<FileAction>)
    ensures ActAll(disk, paths, rows, a + b) == ActAll(ActAll(disk, paths, rows, a), paths, rows, b)
  {
    if b == [] {
      assert a + b == a;
    } else {
      ActAllAppend(disk, paths, rows, a, b[..|b| - 1]);
      assert (a + b)[..|a + b| - 1] == a + b[..|b| - 1];
    }
  }

  lemma ActTwo(disk: Disk, paths: Paths, rows: Rows, first: FileAction, second: FileAction)
    ensures ActAll(disk, paths, rows, [first, second]) == Act(Act(disk, paths, rows, first), paths, rows, second)
  {
    assert [first, second][..1] == [first] && [first][..0] == [];
    assert ActAll(disk, paths, rows, []) == disk;
    assert ActAll(disk, paths, rows, [first]) == Act(disk, paths, rows, first);
  }

  // ----- the directories of other tables -----

  predicate Uses(action: FileAction, slot: Slot) {
    match action
    case Tear(here) => here == slot
    case Clear(here) => here == slot
    case Create => slot == Building
    case Fill => slot == Building
    case Rename(from, to) => from == slot || to == slot
  }

  /** None of the actions passes through the directory. */
  ghost predicate Avoids(paths: Paths, actions: seq<FileAction>, path: string) {
    forall action, slot :: action in actions && Uses(action, slot) ==> paths.Of(slot) != path
  }

  lemma ActAvoids(disk: Disk, paths: Paths, rows: Rows, action: FileAction, path: string)
    requires Avoids(paths, [action], path)
    ensures At(Act(disk, paths, rows, action), path) == At(disk, path)
  {
    assert action in [action];
    match action
    case Tear(slot) => assert Uses(action, slot);
    case Clear(slot) => assert Uses(action, slot);
    case Create => assert Uses(action, Building) && paths.Of(Building) == paths.building;
    case Fill => assert Uses(action, Building) && paths.Of(Building) == paths.building;
    case Rename(from, to) => assert Uses(action, from) && Uses(action, to);
  }

  /** None of the actions passes through the directory in which another of `tables` is installed. */
  ghost predicate Spares(tables: set<string>, table: string, actions: seq<FileAction>) {
    forall other :: other in tables && other != table ==> Avoids(PathsOf(table), actions, PathsOf(other).final)
  }

  lemma SparesParts(tables: set<string>, table: string, actions: seq<FileAction>)
    requires Spares(tables, table, actions) && actions != []
    ensures Spares(tables, table, actions[..|actions| - 1]) && Spares(tables, table, [actions[|actions| - 1]])
  {
    var front, last := actions[..|actions| - 1], actions[|actions| - 1];
    forall other | other in tables && other != table
      ensures Avoids(PathsOf(table), front, PathsOf(other).final) &&
              Avoids(PathsOf(table), [last], PathsOf(other).final)
    {
      assert Avoids(PathsOf(table), actions, PathsOf(other).final);
    }
  }

  /** Names that are apart keep each other's indexes safe. */
  lemma ApartSpares(tables: set<string>, table: string, actions: seq<FileAction>)
    requires Apart(tables) && table in tables
    ensures Spares(tables, table, actions)
  {
    forall other | other in tables && other != table ensures Avoids(PathsOf(table), actions, PathsOf(other).final) {
      assert !Clash(table, other);
    }
  }

  // Removing the directory a table is installed in concerns no other table.
  lemma RemovalSpares(tables: set<string>, table: string)
    ensures Spares(tables, table, [Tear(Final), Clear(Final)])
  {
  }

  // ----- building and swapping -----

  // The directory a generation is built in is neither the one it is installed in nor the retired one.
  lemma BuildingApart(table: string)
    ensures PathsOf(table).building != PathsOf(table).final && PathsOf(table).building != PathsOf(table).retired
  {
    var paths := PathsOf(table);
    assert |paths.building| > |paths.final|;
    assert paths.building[|paths.building| - 1] == 'g' && paths.retired[|paths.retired| - 1] == 'd';
  }

  lemma RemovalResult(disk: Disk, paths: Paths, rows: Rows, slot: Slot)
    ensures ActAll(disk, paths, rows, [Tear(slot), Clear(slot)]) == disk[paths.Of(slot) := Absent]
  {
    ActTwo(disk, paths, rows, Tear(slot), Clear(slot));
    var path := paths.Of(slot);
    assert disk[path := Torn][path := Absent] == disk[path := Absent];
  }

  // Building leaves the new generation beside whatever is installed.
  lemma BuildResult(disk: Disk, paths: Paths, rows: Rows)
    ensures ActAll(disk, paths, rows, BuildActions()) == disk[paths.building := Whole(Snapshot(rows))]
  {
    var clear, fill := [Tear(Building), Clear(Building)], [Create, Fill];
    var cleared := disk[paths.building := Absent];
    RemovalResult(disk, paths, rows, Building);
    ActTwo(cleared, paths, rows, Create, Fill);
    ActAllAppend(disk, paths, rows, clear, fill);
    assert BuildActions() == clear + fill;
  }

  // What the swap leaves on disk.
  function Swapped(disk: Disk, paths: Paths): Disk {
    disk[paths.retired := Absent][paths.building := Absent][paths.final := At(disk, paths.building)]
  }

  predicate Separate(paths: Paths) {
    paths.building != paths.final && paths.building != paths.retired
  }

  // Where the moves lead when the retired directory has been removed.
  lemma MovesResult(disk: Disk, paths: Paths, rows: Rows)
    requires Separate(paths) && paths.final != paths.retired && At(disk, paths.building).Whole?
    requires At(disk, paths.retired).Absent?
    ensures ActAll(disk, paths, rows, [Rename(Final, Retired), Rename(Building, Final)])[paths.retired := Absent] ==
            Swapped(disk, paths)
  {
    ActTwo(disk, paths, rows, Rename(Final, Retired), Rename(Building, Final));
    var built, final, retired, building := At(disk, paths.building), paths.final, paths.retired, paths.building;
    if At(disk, final).Absent? {
      assert disk[building := Absent][final := built][retired := Absent] == Swapped(disk, paths);
    } else {
      var away := disk[final := Absent][retired := At(disk, final)];
      assert away[building := Absent][final := built][retired := Absent] == Swapped(disk, paths);
    }
  }

  lemma SwapResult(disk: Disk, paths: Paths, rows: Rows)
    requires Separate(paths) && At(disk, paths.building).Whole?
    ensures ActAll(disk, paths, rows, SwapActions(paths)) == Swapped(disk, paths)
  {
    var clear, install := [Tear(Retired), Clear(Retired)], [Rename(Building, Final)];
    var cleared := disk[paths.retired := Absent];
    RemovalResult(disk, paths, rows, Retired);
    if paths.final == paths.retired {
      ActAllAppend(disk, paths, rows, clear, install);
      assert install[..0] == [];
      assert SwapActions(paths) == clear + install;
    } else {
      var moves := [Rename(Final, Retired), Rename(Building, Final)];
      ActAllAppend(disk, paths, rows, clear, moves);
      ActAllAppend(disk, paths, rows, clear + moves, clear);
      MovesResult(cleared, paths, rows);
      RemovalResult(ActAll(cleared, paths, rows, moves), paths, rows, Retired);
      assert Swapped(cleared, paths) == Swapped(disk, paths);
      assert SwapActions(paths) == clear + moves + clear;
    }
  }

  // Without a previous generation the moves and the removal after them only install the new one.
  lemma InstallOnly(disk: Disk, paths: Paths, rows: Rows)
    requires Separate(paths) && paths.final != paths.retired && paths.retired in disk
    requires At(disk, paths.retired).Absent? && At(disk, paths.final).Absent?
    ensures ActAll(disk, paths, rows,
                   [Rename(Final, Retired), Rename(Building, Final)] + [Tear(Retired), Clear(Retired)]) ==
            Act(disk, paths, rows, Rename(Building, Final))
  {
    var moves := [Rename(Final, Retired), Rename(Building, Final)];
    ActAllAppend(disk, paths, rows, moves, [Tear(Retired), Clear(Retired)]);
    ActTwo(disk, paths, rows, Rename(Final, Retired), Rename(Building, Final));
    var moved := Act(disk, paths, rows, Rename(Building, Final));
    RemovalResult(moved, paths, rows, Retired);
    assert moved[paths.retired := Absent] == moved;
  }

  /** Whatever an earlier crash left in any directory, building and swapping installs the new
      generation and leaves nothing else of the table on disk. */
  lemma SwapInstalls(disk: Disk, table: string, rows: Rows)
    ensures var paths := PathsOf(table);
            var e := ActAll(disk, paths, rows, BuildActions() + SwapActions(paths));
            && At(e, paths.final) == Whole(Snapshot(rows)) && At(e, paths.building).Absent?
            && (paths.retired != paths.final ==> At(e, paths.retired).Absent?)
            && forall path :: path !in {paths.final, paths.retired, paths.building} ==> At(e, path) == At(disk, path)
  {
    var paths := PathsOf(table);
    var built := disk[paths.building := Whole(Snapshot(rows))];
    BuildingApart(table);
    BuildResult(disk, paths, rows);
    SwapResult(built, paths, rows);
    ActAllAppend(disk, paths, rows, BuildActions(), SwapActions(paths));
  }
}
