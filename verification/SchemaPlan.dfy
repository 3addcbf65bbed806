/** Schema changes: a list of changes is folded into one plan, and every row is copied once. */
module SchemaPlan {
  import opened Wrappers
  import opened Sorting
  import F = Filters

  type Value = int

  datatype Column = Column(name: string, dataType: nat, nullable: bool, primaryKey: bool)

  datatype Change =
    | AddColumn(column: Column, initial: Option<Value>)
    | DropColumn(name: string)
    | RenameColumn(from: string, to: string)
    | AlterColumn(name: string, definition: Column)
    | AlterDocumentStore(store: nat)

  datatype Plan = Plan(
    target: seq<Column>,
    store: nat,
    sources: map<string, string>,            // target column -> original column
    defaults: map<string, Option<Value>>)    // target column -> default

  // The first column of that name, ignoring case.
  function FindIndex(columns: seq<Column>, name: string): (i: Option<nat>)
    ensures i.Some? ==> i.value < |columns| && F.SameName(columns[i.value].name, name)
    ensures i.None? ==> forall k :: 0 <= k < |columns| ==> !F.SameName(columns[k].name, name)
  {
    if columns == [] then None
    else if F.SameName(columns[0].name, name) then Some(0)
    else
      match FindIndex(columns[1..], name)
      case None =>
        assert forall k :: 1 <= k < |columns| ==> columns[k] == columns[1..][k - 1];
        None
      case Some(i) => Some(i + 1)
  }

  function Without(columns: seq<Column>, i: nat): seq<Column>
    requires i < |columns|
  {
    columns[..i] + columns[i + 1..]
  }

  function Start(original: seq<Column>, store: nat): Plan {
    Plan(original, store, map name | name in NamesOf(original) :: name, map[])
  }

  function NamesOf(columns: seq<Column>): set<string> {
    set i | 0 <= i < |columns| :: columns[i].name
  }

  // One change; column names in it are looked up without regard to case, the maps are keyed exactly.
  function Apply(plan: Plan, change: Change): Result<Plan> {
    match change
    case AddColumn(column, initial) =>
      if FindIndex(plan.target, column.name).Some? then Err("column already exists")
      else if !column.nullable && initial.None? then Err("non-nullable added column requires a default")
      else Ok(plan.(target := plan.target + [column], defaults := plan.defaults[column.name := initial]))
    case DropColumn(name) =>
      (match FindIndex(plan.target, name)
       case None => Err("unknown column")
       case Some(i) =>
         if plan.target[i].primaryKey then Err("primary key cannot be dropped")
         else
           var removed := plan.target[i].name;
           Ok(plan.(target := Without(plan.target, i), sources := plan.sources - {removed},
                    defaults := plan.defaults - {removed})))
    case RenameColumn(from, to) =>
      (match FindIndex(plan.target, from)
       case None => Err("unknown column")
       case Some(i) =>
         if plan.target[i].primaryKey then Err("primary key cannot be renamed")
         else if FindIndex(plan.target, to).Some? then Err("column already exists")
         else Ok(plan.(target := plan.target[i := plan.target[i].(name := to)],
                       sources := MoveKey(plan.sources, from, to), defaults := MoveKey(plan.defaults, from, to))))
    case AlterColumn(name, definition) =>
      (match FindIndex(plan.target, name)
       case None => Err("unknown column")
       case Some(i) =>
         if plan.target[i].primaryKey then Err("primary key cannot be altered")
         else if !F.SameName(definition.name, name) then Err("alter definition must retain the column name")
         else Ok(plan.(target := plan.target[i := definition])))
    case AlterDocumentStore(store) => Ok(plan.(store := store))
  }

  function MoveKey<V>(m: map<string, V>, from: string, to: string): map<string, V> {
    if from in m then (m - {from})[to := m[from]] else m
  }

  function Fold(original: seq<Column>, store: nat, changes: seq<Change>): Result<Plan> {
    if changes == [] then Ok(Start(original, store))
    else
      match Fold(original, store, changes[..|changes| - 1])
      case Err(message) => Err(message)
      case Ok(plan) => Apply(plan, changes[|changes| - 1])
  }

  // One change of the columns, sources and defaults collected so far.
  method ApplyChange(plan: Plan, change: Change) returns (r: Result<Plan>)
    ensures r == Apply(plan, change)
  {
    var target, store, sources, defaults := plan.target, plan.store, plan.sources, plan.defaults;
    match change {
      case AddColumn(column, initial) =>
        if FindIndex(target, column.name).Some? { return Err("column already exists"); }
        if !column.nullable && initial.None? { return Err("non-nullable added column requires a default"); }
        defaults := defaults[column.name := initial];
        target := target + [column];
      case DropColumn(name) =>
        var index := FindIndex(target, name);
        if index.None? { return Err("unknown column"); }
        var removed := target[index.value];
        if removed.primaryKey { return Err("primary key cannot be dropped"); }
        target := Without(target, index.value);
        sources, defaults := sources - {removed.name}, defaults - {removed.name};
      case RenameColumn(from, to) =>
        var index := FindIndex(target, from);
        if index.None? { return Err("unknown column"); }
        if target[index.value].primaryKey { return Err("primary key cannot be renamed"); }
        if FindIndex(target, to).Some? { return Err("column already exists"); }
        target := target[index.value := target[index.value].(name := to)];
        if from in sources { sources := (sources - {from})[to := sources[from]]; }
        if from in defaults { defaults := (defaults - {from})[to := defaults[from]]; }
      case AlterColumn(name, definition) =>
        var index := FindIndex(target, name);
        if index.None? { return Err("unknown column"); }
        if target[index.value].primaryKey { return Err("primary key cannot be altered"); }
        if !F.SameName(definition.name, name) { return Err("alter definition must retain the column name"); }
        target := target[index.value := definition];
      case AlterDocumentStore(documentStore) =>
        store := documentStore;
    }
    return Ok(Plan(target, store, sources, defaults));
  }

  /** Builds the plan change by change. */
  method Build(original: seq<Column>, store: nat, changes: seq<Change>) returns (r: Result<Plan>)
    ensures r == Fold(original, store, changes)
  {
    var plan := Start(original, store);
    for k := 0 to |changes|
      invariant Fold(original, store, changes[..k]) == Ok(plan)
    {
      assert changes[..k + 1][..k] == changes[..k];
      var next := ApplyChange(plan, changes[k]);
      if next.Err? {
        StopsFolding(original, store, changes, k + 1);
        return next;
      }
      plan := next.value;
    }
    assert changes[..|changes|] == changes;
    return Ok(plan);
  }

  // The first refused change refuses the list.
  lemma {:induction false} StopsFolding(original: seq<Column>, store: nat, changes: seq<Change>, k: nat)
    requires k <= |changes| && Fold(original, store, changes[..k]).Err?
    ensures Fold(original, store, changes) == Fold(original, store, changes[..k])
  {
    if k == |changes| {
      assert changes[..k] == changes;
    } else {
      assert changes[..|changes| - 1][..k] == changes[..k];
      StopsFolding(original, store, changes[..|changes| - 1], k);
    }
  }

  // ----- which changes are refused -----

  // The first column of that name.
  ghost predicate Named(columns: seq<Column>, i: nat, name: string) {
    && i < |columns| && F.SameName(columns[i].name, name)
    && forall k :: 0 <= k < i ==> !F.SameName(columns[k].name, name)
  }

  lemma {:induction false} FindsFirst(columns: seq<Column>, i: nat, name: string)
    requires Named(columns, i, name)
    ensures FindIndex(columns, name) == Some(i)
  {
    if i > 0 {
      forall k | 0 <= k < i - 1 ensures !F.SameName(columns[1..][k].name, name) {
        assert !F.SameName(columns[k + 1].name, name);
      }
      assert !F.SameName(columns[0].name, name);
      FindsFirst(columns[1..], i - 1, name);
    }
  }

  lemma {:induction false} FoundIsNamed(columns: seq<Column>, name: string)
    ensures FindIndex(columns, name).Some? ==> Named(columns, FindIndex(columns, name).value, name)
  {
    if columns != [] && !F.SameName(columns[0].name, name) {
      FoundIsNamed(columns[1..], name);
      var rest := FindIndex(columns[1..], name);
      if rest.Some? {
        forall k | 0 <= k < rest.value + 1 ensures !F.SameName(columns[k].name, name) {
          if k > 0 { assert !F.SameName(columns[1..][k - 1].name, name); }
        }
      }
    }
  }

  ghost predicate Free(columns: seq<Column>, name: string) {
    forall k :: 0 <= k < |columns| ==> !F.SameName(columns[k].name, name)
  }

  // There is such a column and it is not the primary key.
  ghost predicate Changeable(columns: seq<Column>, name: string) {
    exists i: nat :: Named(columns, i, name) && !columns[i].primaryKey
  }

  /** What a change needs: a free name for a new column and a default unless it is nullable, a column other
      than the primary key to drop, rename or alter, a free new name, and the same name when altered. */
  ghost predicate Acceptable(columns: seq<Column>, change: Change) {
    match change
    case AddColumn(column, initial) => Free(columns, column.name) && (column.nullable || initial.Some?)
    case DropColumn(name) => Changeable(columns, name)
    case RenameColumn(from, to) => Changeable(columns, from) && Free(columns, to)
    case AlterColumn(name, definition) => Changeable(columns, name) && F.SameName(definition.name, name)
    case AlterDocumentStore(_) => true
  }

  lemma FindMeans(columns: seq<Column>, name: string)
    ensures FindIndex(columns, name).None? <==> Free(columns, name)
    ensures Changeable(columns, name) <==>
            FindIndex(columns, name).Some? && !columns[FindIndex(columns, name).value].primaryKey
  {
    FoundIsNamed(columns, name);
    if i: nat :| Named(columns, i, name) && !columns[i].primaryKey { FindsFirst(columns, i, name); }
  }

  /** A change is accepted if and only if the columns so far have what it needs. */
  lemma AcceptedIff(plan: Plan, change: Change)
    ensures Apply(plan, change).Ok? <==> Acceptable(plan.target, change)
  {
    match change
    case AddColumn(column, _) => FindMeans(plan.target, column.name);
    case DropColumn(name) => FindMeans(plan.target, name);
    case RenameColumn(from, to) =>
      FindMeans(plan.target, from);
      FindMeans(plan.target, to);
    case AlterColumn(name, _) => FindMeans(plan.target, name);
    case AlterDocumentStore(_) =>
  }

  /** A list is refused if and only if one of its changes is not acceptable after those before it. */
  lemma {:induction false} RefusedIff(original: seq<Column>, store: nat, changes: seq<Change>)
    ensures Fold(original, store, changes).Err? <==>
            exists k :: 0 <= k < |changes| && RefusedAt(original, store, changes, k)
  {
    if changes != [] {
      var last := |changes| - 1;
      var front := changes[..last];
      RefusedIff(original, store, front);
      forall k | 0 <= k < last
        ensures RefusedAt(original, store, changes, k) <==> RefusedAt(original, store, front, k)
      {
        assert front[..k] == changes[..k];
      }
      if Fold(original, store, front).Ok? {
        AcceptedIff(Fold(original, store, front).value, changes[last]);
        assert RefusedAt(original, store, changes, last) <==> Fold(original, store, changes).Err?;
      } else {
        var k :| 0 <= k < |front| && RefusedAt(original, store, front, k);
        assert RefusedAt(original, store, changes, k);
      }
    }
  }

  ghost predicate RefusedAt(original: seq<Column>, store: nat, changes: seq<Change>, k: nat)
    requires k < |changes|
  {
    var before := Fold(original, store, changes[..k]);
    before.Ok? && !Acceptable(before.value.target, changes[k])
  }

  // ----- which columns the plan arrives at -----

  /** Column by column what an accepted change does: it adds its column behind the others, removes the one
      it names, changes the name of the one it names, or puts its definition in the place of the one it
      names; all other columns stay as they are. */
  ghost predicate Changes(before: Plan, after: Plan, change: Change) {
    var was, now := before.target, after.target;
    && (if change.AlterDocumentStore? then after.store == change.store else after.store == before.store)
    && match change
       case AddColumn(column, _) =>
         |now| == |was| + 1 && now[|was|] == column && forall k :: 0 <= k < |was| ==> now[k] == was[k]
       case DropColumn(name) =>
         |now| + 1 == |was| && forall i: nat, k :: Named(was, i, name) && 0 <= k < |now| ==>
                                 now[k] == was[if k < i then k else k + 1]
       case RenameColumn(from, to) =>
         |now| == |was| && forall k: nat :: k < |was| ==>
                             now[k] == if Named(was, k, from) then was[k].(name := to) else was[k]
       case AlterColumn(name, definition) =>
         |now| == |was| && forall k: nat :: k < |was| ==> now[k] == if Named(was, k, name) then definition else was[k]
       case AlterDocumentStore(_) => now == was
  }

  lemma NamedOnce(columns: seq<Column>, i: nat, k: nat, name: string)
    requires FindIndex(columns, name) == Some(i)
    ensures Named(columns, k, name) <==> k == i
  {
    FoundIsNamed(columns, name);
    if Named(columns, k, name) { FindsFirst(columns, k, name); }
  }

  /** That is what applying an accepted change does. */
  lemma ChangeDoes(plan: Plan, change: Change)
    requires Apply(plan, change).Ok?
    ensures Changes(plan, Apply(plan, change).value, change)
  {
    var columns := plan.target;
    match change
    case DropColumn(name) =>
      forall k: nat ensures Named(columns, k, name) <==> FindIndex(columns, name) == Some(k) {
        NamedOnce(columns, FindIndex(columns, name).value, k, name);
      }
    case RenameColumn(from, _) =>
      forall k: nat ensures Named(columns, k, from) <==> FindIndex(columns, from) == Some(k) {
        NamedOnce(columns, FindIndex(columns, from).value, k, from);
      }
    case AlterColumn(name, _) =>
      forall k: nat ensures Named(columns, k, name) <==> FindIndex(columns, name) == Some(k) {
        NamedOnce(columns, FindIndex(columns, name).value, k, name);
      }
    case _ =>
  }

  // ----- complete plans -----

  ghost predicate Distinct(columns: seq<Column>) {
    forall i, j :: 0 <= i < j < |columns| ==> !F.SameName(columns[i].name, columns[j].name)
  }

  /** Every target column has exactly one of a source and a default, and the sources are different
      original columns. */
  ghost predicate Complete(original: seq<Column>, plan: Plan) {
    && Distinct(plan.target)
    && plan.sources.Keys + plan.defaults.Keys == NamesOf(plan.target)
    && plan.sources.Keys !! plan.defaults.Keys
    && (forall name :: name in plan.sources ==> plan.sources[name] in NamesOf(original))
    && forall a, b :: a in plan.sources && b in plan.sources && plan.sources[a] == plan.sources[b] ==> a == b
  }

  // The change spells the column it names exactly as the table does.
  predicate ExactCase(columns: seq<Column>, change: Change) {
    match change
    case RenameColumn(from, _) => FindIndex(columns, from).Some? ==>
      columns[FindIndex(columns, from).value].name == from
    case AlterColumn(name, definition) =>
      FindIndex(columns, name).Some? ==> columns[FindIndex(columns, name).value].name == definition.name
    case _ => true
  }

  lemma NameAt(columns: seq<Column>, i: nat)
    requires i < |columns|
    ensures columns[i].name in NamesOf(columns)
  {
  }

  lemma SameNameFacts(a: string, b: string, c: string)
    ensures F.SameName(a, a)
    ensures F.SameName(a, b) <==> F.SameName(b, a)
    ensures F.SameName(a, b) && F.SameName(b, c) ==> F.SameName(a, c)
  {
  }

  lemma OthersDiffer(columns: seq<Column>, i: nat, name: string)
    requires Distinct(columns) && i < |columns| && F.SameName(columns[i].name, name)
    ensures forall k :: 0 <= k < |columns| && k != i ==> !F.SameName(columns[k].name, name)
  {
    forall k | 0 <= k < |columns| && k != i ensures !F.SameName(columns[k].name, name) {
      SameNameFacts(columns[k].name, name, columns[i].name);
      SameNameFacts(columns[i].name, columns[k].name, name);
    }
  }

  lemma WithoutDistinct(columns: seq<Column>, i: nat)
    requires Distinct(columns) && i < |columns|
    ensures Distinct(Without(columns, i))
  {
    var rest := Without(columns, i);
    forall a, b | 0 <= a < b < |rest| ensures !F.SameName(rest[a].name, rest[b].name) {
      assert rest[a] == columns[if a < i then a else a + 1];
      assert rest[b] == columns[if b < i then b else b + 1];
    }
  }

  lemma NamesWithout(columns: seq<Column>, i: nat)
    requires Distinct(columns) && i < |columns|
    ensures NamesOf(Without(columns, i)) == NamesOf(columns) - {columns[i].name} && Distinct(Without(columns, i))
  {
    WithoutDistinct(columns, i);
    SameNameFacts(columns[i].name, columns[i].name, columns[i].name);
    OthersDiffer(columns, i, columns[i].name);
    var rest := Without(columns, i);
    forall name | name in NamesOf(rest) ensures name in NamesOf(columns) && name != columns[i].name {
      var k :| 0 <= k < |rest| && rest[k].name == name;
      assert rest[k] == columns[if k < i then k else k + 1];
    }
    forall name | name in NamesOf(columns) && name != columns[i].name ensures name in NamesOf(rest) {
      var j :| 0 <= j < |columns| && columns[j].name == name;
      assert rest[if j < i then j else j - 1] == columns[j];
    }
  }

  lemma NamesReplaced(columns: seq<Column>, i: nat, column: Column)
    requires Distinct(columns) && i < |columns|
    requires forall k :: 0 <= k < |columns| && k != i ==> !F.SameName(columns[k].name, column.name)
    ensures NamesOf(columns[i := column]) == NamesOf(columns) - {columns[i].name} + {column.name}
    ensures Distinct(columns[i := column])
  {
    var after := columns[i := column];
    forall name
      ensures name in NamesOf(after) <==> (name in NamesOf(columns) && name != columns[i].name) || name == column.name
    {
      if name in NamesOf(after) {
        var k :| 0 <= k < |after| && after[k].name == name;
        if k != i { assert columns[k].name == name; SameNameFacts(columns[i].name, columns[k].name, name); }
      }
      if name in NamesOf(columns) && name != columns[i].name {
        var j :| 0 <= j < |columns| && columns[j].name == name;
        assert after[j].name == name;
      }
      if name == column.name { assert after[i].name == name; }
    }
  }

  lemma NamesAdded(columns: seq<Column>, column: Column)
    ensures NamesOf(columns + [column]) == NamesOf(columns) + {column.name}
  {
    var after := columns + [column];
    forall name ensures name in NamesOf(after) <==> name in NamesOf(columns) || name == column.name {
      if name in NamesOf(columns) {
        var j :| 0 <= j < |columns| && columns[j].name == name;
        assert after[j].name == name;
      }
      if name == column.name { assert after[|columns|].name == name; }
    }
  }

  lemma AbsentName(columns: seq<Column>, name: string)
    requires FindIndex(columns, name).None?
    ensures name !in NamesOf(columns)
  {
    SameNameFacts(name, name, name);
  }

  lemma AddKeepsComplete(original: seq<Column>, plan: Plan, column: Column, initial: Option<Value>)
    requires Complete(original, plan) && Apply(plan, AddColumn(column, initial)).Ok?
    ensures Complete(original, Apply(plan, AddColumn(column, initial)).value)
  {
    NamesAdded(plan.target, column);
    AbsentName(plan.target, column.name);
  }

  lemma DropKeepsComplete(original: seq<Column>, plan: Plan, name: string)
    requires Complete(original, plan) && Apply(plan, DropColumn(name)).Ok?
    ensures Complete(original, Apply(plan, DropColumn(name)).value)
  {
    NamesWithout(plan.target, FindIndex(plan.target, name).value);
  }

  lemma AlterKeepsComplete(original: seq<Column>, plan: Plan, name: string, definition: Column)
    requires Complete(original, plan) && Apply(plan, AlterColumn(name, definition)).Ok?
    ensures Complete(original, Apply(plan, AlterColumn(name, definition)).value) <==>
            ExactCase(plan.target, AlterColumn(name, definition))
  {
    var i := FindIndex(plan.target, name).value;
    SameNameFacts(plan.target[i].name, name, definition.name);
    SameNameFacts(definition.name, name, name);
    OthersDiffer(plan.target, i, definition.name);
    NamesReplaced(plan.target, i, definition);
    NameAt(plan.target, i);
  }

  /** An accepted change keeps a plan complete exactly when it names its column in exact case. */
  lemma ChangeKeepsComplete(original: seq<Column>, plan: Plan, change: Change)
    requires Complete(original, plan) && Apply(plan, change).Ok?
    ensures Complete(original, Apply(plan, change).value) <==> ExactCase(plan.target, change)
  {
    match change
    case AddColumn(column, initial) => AddKeepsComplete(original, plan, column, initial);
    case DropColumn(name) => DropKeepsComplete(original, plan, name);
    case RenameColumn(from, to) => RenameKeepsComplete(original, plan, from, to);
    case AlterColumn(name, definition) => AlterKeepsComplete(original, plan, name, definition);
    case AlterDocumentStore(_) =>
  }

  lemma KeysMoved(original: seq<Column>, plan: Plan, after: Plan, from: string, to: string)
    requires Complete(original, plan) && Distinct(after.target) && to !in NamesOf(plan.target)
    requires from in NamesOf(plan.target) && NamesOf(after.target) == NamesOf(plan.target) - {from} + {to}
    requires after.sources == MoveKey(plan.sources, from, to) && after.defaults == MoveKey(plan.defaults, from, to)
    ensures Complete(original, after)
  {
    assert to !in plan.sources && to !in plan.defaults;
  }

  lemma RenameKeepsComplete(original: seq<Column>, plan: Plan, from: string, to: string)
    requires Complete(original, plan) && Apply(plan, RenameColumn(from, to)).Ok?
    ensures Complete(original, Apply(plan, RenameColumn(from, to)).value) <==>
            ExactCase(plan.target, RenameColumn(from, to))
  {
    var i := FindIndex(plan.target, from).value;
    var after := Apply(plan, RenameColumn(from, to)).value;
    AbsentName(plan.target, to);
    NamesReplaced(plan.target, i, plan.target[i].(name := to));
    NameAt(plan.target, i);
    if plan.target[i].name == from {
      KeysMoved(original, plan, after, from, to);
    } else {
      NotExact(plan.target, i, from);
      assert from !in plan.sources && from !in plan.defaults;
      assert to in NamesOf(after.target) && to !in after.sources && to !in after.defaults;
    }
  }

  // Another column cannot have the exact name either.
  lemma NotExact(columns: seq<Column>, i: nat, name: string)
    requires Distinct(columns) && i < |columns| && F.SameName(columns[i].name, name) && columns[i].name != name
    ensures name !in NamesOf(columns)
  {
    OthersDiffer(columns, i, name);
    SameNameFacts(name, name, name);
  }

  /** Every change of the list is spelled exactly, given the columns the changes before it leave. */
  ghost predicate ExactList(original: seq<Column>, store: nat, changes: seq<Change>) {
    changes != [] ==>
      var front := changes[..|changes| - 1];
      && ExactList(original, store, front)
      && (Fold(original, store, front).Ok? ==>
          ExactCase(Fold(original, store, front).value.target, changes[|changes| - 1]))
  }

  lemma {:induction false} PlanIsComplete(original: seq<Column>, store: nat, changes: seq<Change>)
    requires Distinct(original) && ExactList(original, store, changes) && Fold(original, store, changes).Ok?
    ensures Complete(original, Fold(original, store, changes).value)
  {
    if changes != [] {
      PlanIsComplete(original, store, changes[..|changes| - 1]);
      ChangeKeepsComplete(original, Fold(original, store, changes[..|changes| - 1]).value, changes[|changes| - 1]);
    }
  }

  /** The plan is complete after every change of the list, and before the first. */
  ghost predicate AlwaysComplete(original: seq<Column>, store: nat, changes: seq<Change>) {
    && Fold(original, store, changes).Ok? && Complete(original, Fold(original, store, changes).value)
    && (changes != [] ==> AlwaysComplete(original, store, changes[..|changes| - 1]))
  }

  /** The plan of an accepted list stays complete after every change if and only if every change is
      spelled exactly. */
  lemma {:induction false} ExactListIff(original: seq<Column>, store: nat, changes: seq<Change>)
    requires Distinct(original) && Fold(original, store, changes).Ok?
    ensures AlwaysComplete(original, store, changes) <==> ExactList(original, store, changes)
  {
    if changes == [] {
      PlanIsComplete(original, store, changes);
    } else {
      var front := changes[..|changes| - 1];
      ExactListIff(original, store, front);
      if AlwaysComplete(original, store, front) {
        ChangeKeepsComplete(original, Fold(original, store, front).value, changes[|changes| - 1]);
      }
    }
  }

  // ----- the definition each column has in the end -----

  /** The columns by name, in lower case: what a list of changes defines, whatever the plan does. */
  function Define(columns: map<string, Column>, change: Change): map<string, Column> {
    match change
    case AddColumn(column, _) => columns[F.Lower(column.name) := column]
    case DropColumn(name) => columns - {F.Lower(name)}
    case RenameColumn(from, to) =>
      if F.Lower(from) !in columns then columns
      else (columns - {F.Lower(from)})[F.Lower(to) := columns[F.Lower(from)].(name := to)]
    case AlterColumn(name, definition) => columns[F.Lower(name) := definition]
    case AlterDocumentStore(_) => columns
  }

  function DefineAll(columns: map<string, Column>, changes: seq<Change>): map<string, Column> {
    if changes == [] then columns
    else Define(DefineAll(columns, changes[..|changes| - 1]), changes[|changes| - 1])
  }

  ghost predicate ByName(columns: seq<Column>, byName: map<string, Column>) {
    && (forall i :: 0 <= i < |columns| ==>
          F.Lower(columns[i].name) in byName && byName[F.Lower(columns[i].name)] == columns[i])
    && forall name :: name in byName ==> exists i :: 0 <= i < |columns| && F.Lower(columns[i].name) == name
  }

  lemma AddDefines(columns: seq<Column>, byName: map<string, Column>, column: Column)
    requires ByName(columns, byName) && Distinct(columns) && Free(columns, column.name)
    ensures Distinct(columns + [column]) && ByName(columns + [column], byName[F.Lower(column.name) := column])
  {
    var after, defined := columns + [column], byName[F.Lower(column.name) := column];
    forall i, j | 0 <= i < j < |after| ensures !F.SameName(after[i].name, after[j].name) {
      if j == |columns| { assert after[i] == columns[i]; }
    }
    forall name | name in defined ensures exists i :: 0 <= i < |after| && F.Lower(after[i].name) == name {
      if name == F.Lower(column.name) {
        assert F.Lower(after[|columns|].name) == name;
      } else {
        var i :| 0 <= i < |columns| && F.Lower(columns[i].name) == name;
        assert F.Lower(after[i].name) == name;
      }
    }
  }

  lemma StillThere(columns: seq<Column>, i: nat, j: nat)
    requires i < |columns| && j < |columns| && j != i
    ensures columns[j] in Without(columns, i)
  {
    assert Without(columns, i)[if j < i then j else j - 1] == columns[j];
  }

  lemma WasThere(columns: seq<Column>, i: nat, k: nat) returns (j: nat)
    requires i < |columns| && k < |Without(columns, i)|
    ensures j < |columns| && j != i && Without(columns, i)[k] == columns[j]
  {
    j := if k < i then k else k + 1;
  }

  lemma DropDefines(columns: seq<Column>, byName: map<string, Column>, i: nat, name: string)
    requires ByName(columns, byName) && Distinct(columns) && Named(columns, i, name)
    ensures Distinct(Without(columns, i)) && ByName(Without(columns, i), byName - {F.Lower(name)})
  {
    var after, left := Without(columns, i), byName - {F.Lower(name)};
    WithoutDistinct(columns, i);
    OthersDiffer(columns, i, name);
    forall k | 0 <= k < |after| ensures F.Lower(after[k].name) in left && left[F.Lower(after[k].name)] == after[k] {
      var j := WasThere(columns, i, k);
      assert !F.SameName(columns[j].name, name);
    }
    forall other | other in left ensures exists k :: 0 <= k < |after| && F.Lower(after[k].name) == other {
      var j :| 0 <= j < |columns| && F.Lower(columns[j].name) == other;
      StillThere(columns, i, j);
      var k :| 0 <= k < |after| && after[k] == columns[j];
    }
  }

  // In the place of a column another one, under its old name or a free one.
  lemma ReplaceDefines(columns: seq<Column>, byName: map<string, Column>, i: nat, name: string, column: Column)
    requires ByName(columns, byName) && Distinct(columns) && Named(columns, i, name)
    requires F.SameName(column.name, name) || Free(columns, column.name)
    ensures Distinct(columns[i := column])
    ensures ByName(columns[i := column], (byName - {F.Lower(name)})[F.Lower(column.name) := column])
  {
    var after, defined := columns[i := column], (byName - {F.Lower(name)})[F.Lower(column.name) := column];
    OthersDiffer(columns, i, name);
    ReplacedDistinct(columns, i, name, column);
    forall other | other in defined ensures exists k :: 0 <= k < |after| && F.Lower(after[k].name) == other {
      if other == F.Lower(column.name) {
        assert F.Lower(after[i].name) == other;
      } else {
        var j :| 0 <= j < |columns| && F.Lower(columns[j].name) == other;
        assert F.Lower(after[j].name) == other;
      }
    }
  }

  lemma ReplacedDistinct(columns: seq<Column>, i: nat, name: string, column: Column)
    requires Distinct(columns) && Named(columns, i, name)
    requires F.SameName(column.name, name) || Free(columns, column.name)
    ensures Distinct(columns[i := column])
    ensures forall k :: 0 <= k < |columns| && k != i ==> !F.SameName(columns[k].name, column.name)
  {
    OthersDiffer(columns, i, name);
    forall k | 0 <= k < |columns| && k != i
      ensures !F.SameName(columns[k].name, column.name) && !F.SameName(column.name, columns[k].name)
    {
      SameNameFacts(columns[k].name, column.name, name);
    }
  }

  lemma AlterSame(byName: map<string, Column>, name: string, definition: Column)
    requires F.SameName(definition.name, name)
    ensures (byName - {F.Lower(name)})[F.Lower(definition.name) := definition] == byName[F.Lower(name) := definition]
  {
  }

  lemma ChangeDefines(plan: Plan, byName: map<string, Column>, change: Change)
    requires Apply(plan, change).Ok? && Distinct(plan.target) && ByName(plan.target, byName)
    ensures Distinct(Apply(plan, change).value.target)
    ensures ByName(Apply(plan, change).value.target, Define(byName, change))
  {
    AcceptedIff(plan, change);
    match change
    case AddColumn(column, _) => AddDefines(plan.target, byName, column);
    case DropColumn(name) =>
      FoundIsNamed(plan.target, name);
      DropDefines(plan.target, byName, FindIndex(plan.target, name).value, name);
    case RenameColumn(from, to) =>
      FoundIsNamed(plan.target, from);
      var i := FindIndex(plan.target, from).value;
      ReplaceDefines(plan.target, byName, i, from, plan.target[i].(name := to));
    case AlterColumn(name, definition) =>
      FoundIsNamed(plan.target, name);
      ReplaceDefines(plan.target, byName, FindIndex(plan.target, name).value, name, definition);
      AlterSame(byName, name, definition);
    case AlterDocumentStore(_) =>
  }

  /** The plan arrives at the columns the list defines: each with the definition last given to it, under
      the name last given to it, and no others. */
  lemma {:induction false} TargetIsDefined(original: seq<Column>, byName: map<string, Column>, store: nat,
                                           changes: seq<Change>)
    requires Distinct(original) && ByName(original, byName) && Fold(original, store, changes).Ok?
    ensures Distinct(Fold(original, store, changes).value.target)
    ensures ByName(Fold(original, store, changes).value.target, DefineAll(byName, changes))
  {
    if changes != [] {
      var front := changes[..|changes| - 1];
      TargetIsDefined(original, byName, store, front);
      ChangeDefines(Fold(original, store, front).value, DefineAll(byName, front), changes[|changes| - 1]);
    }
  }

  // The change drops, renames or alters the column of that name.
  predicate Names(change: Change, name: string) {
    match change
    case DropColumn(dropped) => F.SameName(dropped, name)
    case RenameColumn(from, _) => F.SameName(from, name)
    case AlterColumn(altered, _) => F.SameName(altered, name)
    case _ => false
  }

  lemma KeepsColumn(plan: Plan, change: Change, column: Column)
    requires Apply(plan, change).Ok? && column in plan.target && !Names(change, column.name)
    ensures column in Apply(plan, change).value.target
  {
    var after := Apply(plan, change).value.target;
    var i :| 0 <= i < |plan.target| && plan.target[i] == column;
    match change
    case DropColumn(name) =>
      SameNameFacts(name, column.name, name);
      StillThere(plan.target, FindIndex(plan.target, name).value, i);
    case RenameColumn(from, _) =>
      SameNameFacts(from, column.name, from);
      assert after[i] == column;
    case AlterColumn(name, _) =>
      SameNameFacts(name, column.name, name);
      assert after[i] == column;
    case _ => assert after[i] == column;
  }

  /** A column that no later change names keeps its definition to the end. */
  lemma {:induction false} StaysUnlessNamed(original: seq<Column>, store: nat, changes: seq<Change>, k: nat,
                                            column: Column)
    requires k <= |changes| && Fold(original, store, changes).Ok? && Fold(original, store, changes[..k]).Ok?
    requires column in Fold(original, store, changes[..k]).value.target
    requires forall j :: k <= j < |changes| ==> !Names(changes[j], column.name)
    ensures column in Fold(original, store, changes).value.target
    decreases |changes|
  {
    if k == |changes| {
      assert changes[..k] == changes;
    } else {
      var front := changes[..|changes| - 1];
      assert front[..k] == changes[..k];
      StaysUnlessNamed(original, store, front, k, column);
      KeepsColumn(Fold(original, store, front).value, changes[|changes| - 1], column);
    }
  }

  // The definition a change gives to a column.
  predicate Gives(change: Change, definition: Column) {
    match change
    case AddColumn(column, _) => column == definition
    case AlterColumn(_, altered) => altered == definition
    case _ => false
  }

  lemma GivenNow(plan: Plan, change: Change, definition: Column)
    requires Apply(plan, change).Ok? && Gives(change, definition)
    ensures definition in Apply(plan, change).value.target
  {
    var after := Apply(plan, change).value.target;
    match change
    case AddColumn(_, _) => assert after[|plan.target|] == definition;
    case AlterColumn(name, _) => assert after[FindIndex(plan.target, name).value] == definition;
    case _ =>
  }

  /** So the definition last given to a column by an accepted list is the one in the plan. */
  lemma LastDefinitionCounts(original: seq<Column>, store: nat, changes: seq<Change>, k: nat, definition: Column)
    requires k < |changes| && Fold(original, store, changes).Ok? && Gives(changes[k], definition)
    requires forall j :: k < j < |changes| ==> !Names(changes[j], definition.name)
    ensures definition in Fold(original, store, changes).value.target
  {
    var upTo := changes[..k + 1];
    if Fold(original, store, upTo).Err? { StopsFolding(original, store, changes, k + 1); }
    assert upTo[..k] == changes[..k] && upTo[k] == changes[k];
    GivenNow(Fold(original, store, changes[..k]).value, changes[k], definition);
    StaysUnlessNamed(original, store, changes, k + 1, definition);
  }

  // ----- copying rows -----

  // Where the value of a target column comes from.
  datatype Cell = FromRow(value: Value) | FromDefault(initial: Option<Value>)

  type Row = map<string, Value>

  // A row with the changes applied to it one at a time; conversions are left to the end.
  function Change1(columns: seq<Column>, cells: map<string, Cell>, change: Change): map<string, Cell> {
    match change
    case AddColumn(column, initial) => cells[column.name := FromDefault(initial)]
    case DropColumn(name) =>
      (match FindIndex(columns, name)
       case None => cells
       case Some(i) => cells - {columns[i].name})
    case RenameColumn(from, to) =>
      (match FindIndex(columns, from)
       case None => cells
       case Some(i) => MoveKey(cells, columns[i].name, to))
    case AlterColumn(name, definition) =>
      (match FindIndex(columns, name)
       case None => cells
       case Some(i) => MoveKey(cells, columns[i].name, definition.name))
    case AlterDocumentStore(_) => cells
  }

  function Stepwise(original: seq<Column>, store: nat, row: Row, changes: seq<Change>): map<string, Cell> {
    if changes == [] then map name | name in row :: FromRow(row[name])
    else
      var front := changes[..|changes| - 1];
      match Fold(original, store, front)
      case Err(_) => Stepwise(original, store, row, front)
      case Ok(plan) => Change1(plan.target, Stepwise(original, store, row, front), changes[|changes| - 1])
  }

  // What the plan takes for a target column.
  function Planned(plan: Plan, row: Row, name: string): Option<Cell> {
    if name in plan.sources then
      (if plan.sources[name] in row then Some(FromRow(row[plan.sources[name]])) else None)
    else if name in plan.defaults then Some(FromDefault(plan.defaults[name]))
    else None
  }

  ghost predicate Follows(plan: Plan, row: Row, cells: map<string, Cell>) {
    && cells.Keys == NamesOf(plan.target)
    && forall name :: name in cells ==> Planned(plan, row, name) == Some(cells[name])
  }

  lemma CellsAdded(plan: Plan, after: Plan, row: Row, cells: map<string, Cell>, name: string, initial: Option<Value>)
    requires Follows(plan, row, cells) && name !in plan.sources
    requires after.sources == plan.sources && after.defaults == plan.defaults[name := initial]
    requires NamesOf(after.target) == NamesOf(plan.target) + {name}
    ensures Follows(after, row, cells[name := FromDefault(initial)])
  {
  }

  lemma CellsDropped(plan: Plan, after: Plan, row: Row, cells: map<string, Cell>, name: string)
    requires Follows(plan, row, cells)
    requires after.sources == plan.sources - {name} && after.defaults == plan.defaults - {name}
    requires NamesOf(after.target) == NamesOf(plan.target) - {name}
    ensures Follows(after, row, cells - {name})
  {
  }

  lemma CellsMoved(plan: Plan, after: Plan, row: Row, cells: map<string, Cell>, from: string, to: string)
    requires Follows(plan, row, cells) && plan.sources.Keys !! plan.defaults.Keys
    requires from in NamesOf(plan.target) && to !in plan.sources && to !in plan.defaults
    requires after.sources == MoveKey(plan.sources, from, to) && after.defaults == MoveKey(plan.defaults, from, to)
    requires NamesOf(after.target) == NamesOf(plan.target) - {from} + {to}
    ensures Follows(after, row, MoveKey(cells, from, to))
  {
    var moved := MoveKey(cells, from, to);
    assert from in cells;
    forall name | name in moved ensures Planned(after, row, name) == Some(moved[name]) {
      if name == to {
        assert Planned(plan, row, from) == Some(cells[from]);
      } else {
        assert Planned(plan, row, name) == Some(cells[name]);
      }
    }
  }

  lemma AddFollows(original: seq<Column>, plan: Plan, row: Row, cells: map<string, Cell>, column: Column,
                   initial: Option<Value>)
    requires Complete(original, plan) && Apply(plan, AddColumn(column, initial)).Ok? && Follows(plan, row, cells)
    ensures Follows(Apply(plan, AddColumn(column, initial)).value, row,
                    Change1(plan.target, cells, AddColumn(column, initial)))
  {
    NamesAdded(plan.target, column);
    AbsentName(plan.target, column.name);
    CellsAdded(plan, Apply(plan, AddColumn(column, initial)).value, row, cells, column.name, initial);
  }

  lemma DropFollows(original: seq<Column>, plan: Plan, row: Row, cells: map<string, Cell>, name: string)
    requires Complete(original, plan) && Apply(plan, DropColumn(name)).Ok? && Follows(plan, row, cells)
    ensures Follows(Apply(plan, DropColumn(name)).value, row, Change1(plan.target, cells, DropColumn(name)))
  {
    var i := FindIndex(plan.target, name).value;
    NamesWithout(plan.target, i);
    CellsDropped(plan, Apply(plan, DropColumn(name)).value, row, cells, plan.target[i].name);
  }

  lemma RenameFollows(original: seq<Column>, plan: Plan, row: Row, cells: map<string, Cell>, from: string, to: string)
    requires Complete(original, plan) && Apply(plan, RenameColumn(from, to)).Ok? &&
             ExactCase(plan.target, RenameColumn(from, to))
    requires Follows(plan, row, cells)
    ensures Follows(Apply(plan, RenameColumn(from, to)).value, row, Change1(plan.target, cells, RenameColumn(from, to)))
  {
    var i := FindIndex(plan.target, from).value;
    AbsentName(plan.target, to);
    NamesReplaced(plan.target, i, plan.target[i].(name := to));
    NameAt(plan.target, i);
    CellsMoved(plan, Apply(plan, RenameColumn(from, to)).value, row, cells, from, to);
  }

  lemma AlterFollows(original: seq<Column>, plan: Plan, row: Row, cells: map<string, Cell>, name: string,
                     definition: Column)
    requires Complete(original, plan) && Apply(plan, AlterColumn(name, definition)).Ok? &&
             ExactCase(plan.target, AlterColumn(name, definition))
    requires Follows(plan, row, cells)
    ensures Follows(Apply(plan, AlterColumn(name, definition)).value, row,
                    Change1(plan.target, cells, AlterColumn(name, definition)))
  {
    var i := FindIndex(plan.target, name).value;
    OthersDiffer(plan.target, i, definition.name);
    NamesReplaced(plan.target, i, definition);
    NameAt(plan.target, i);
    assert NamesOf(plan.target) - {definition.name} + {definition.name} == NamesOf(plan.target);
    CellsKept(plan, Apply(plan, AlterColumn(name, definition)).value, row, cells);
    MovedNowhere(cells, definition.name);
  }

  lemma MovedNowhere(cells: map<string, Cell>, name: string)
    ensures MoveKey(cells, name, name) == cells
  {
  }

  lemma CellsKept(plan: Plan, after: Plan, row: Row, cells: map<string, Cell>)
    requires Follows(plan, row, cells) && NamesOf(after.target) == NamesOf(plan.target)
    requires after.sources == plan.sources && after.defaults == plan.defaults
    ensures Follows(after, row, cells)
  {
  }

  lemma StepFollows(original: seq<Column>, plan: Plan, row: Row, cells: map<string, Cell>, change: Change)
    requires Complete(original, plan) && Apply(plan, change).Ok? && ExactCase(plan.target, change) &&
             Follows(plan, row, cells)
    ensures Follows(Apply(plan, change).value, row, Change1(plan.target, cells, change))
  {
    match change
    case AddColumn(column, initial) => AddFollows(original, plan, row, cells, column, initial);
    case DropColumn(name) => DropFollows(original, plan, row, cells, name);
    case RenameColumn(from, to) => RenameFollows(original, plan, row, cells, from, to);
    case AlterColumn(name, definition) => AlterFollows(original, plan, row, cells, name, definition);
    case AlterDocumentStore(_) =>
  }

  /** Fusion: for every row, the plan takes for each target column exactly what applying the changes
      one at a time leaves there. */
  lemma {:induction false} PlanIsStepwise(original: seq<Column>, store: nat, changes: seq<Change>, row: Row)
    requires Distinct(original) && ExactList(original, store, changes) && Fold(original, store, changes).Ok? &&
             row.Keys == NamesOf(original)
    ensures Follows(Fold(original, store, changes).value, row, Stepwise(original, store, row, changes))
  {
    if changes != [] {
      var front := changes[..|changes| - 1];
      PlanIsStepwise(original, store, front, row);
      PlanIsComplete(original, store, front);
      StepFollows(original, Fold(original, store, front).value, row, Stepwise(original, store, row, front),
                  changes[|changes| - 1]);
    }
  }

  lemma RenameLoses(original: seq<Column>, plan: Plan, row: Row, cells: map<string, Cell>, from: string, to: string)
    requires Complete(original, plan) && Apply(plan, RenameColumn(from, to)).Ok?
    requires !ExactCase(plan.target, RenameColumn(from, to))
    ensures !Follows(Apply(plan, RenameColumn(from, to)).value, row, cells)
  {
    var i := FindIndex(plan.target, from).value;
    var after := Apply(plan, RenameColumn(from, to)).value;
    NotExact(plan.target, i, from);
    AbsentName(plan.target, to);
    assert from !in plan.sources && from !in plan.defaults;
    assert after.target[i].name == to;
    NameAt(after.target, i);
    assert Planned(after, row, to) == None;
  }

  lemma AlterLoses(original: seq<Column>, plan: Plan, row: Row, cells: map<string, Cell>, name: string,
                   definition: Column)
    requires Complete(original, plan) && Apply(plan, AlterColumn(name, definition)).Ok?
    requires !ExactCase(plan.target, AlterColumn(name, definition))
    ensures !Follows(Apply(plan, AlterColumn(name, definition)).value, row, cells)
  {
    var i := FindIndex(plan.target, name).value;
    var after := Apply(plan, AlterColumn(name, definition)).value;
    SameNameFacts(plan.target[i].name, name, definition.name);
    SameNameFacts(definition.name, name, name);
    NotExact(plan.target, i, definition.name);
    assert definition.name !in plan.sources && definition.name !in plan.defaults;
    assert after.target[i].name == definition.name;
    NameAt(after.target, i);
    assert Planned(after, row, definition.name) == None;
  }

  /** From a complete plan that follows the changes so far, the next plan follows them too if and only if
      the change is spelled exactly. */
  lemma StepFollowsIff(original: seq<Column>, plan: Plan, row: Row, cells: map<string, Cell>, change: Change)
    requires Complete(original, plan) && Apply(plan, change).Ok? && Follows(plan, row, cells)
    ensures Follows(Apply(plan, change).value, row, Change1(plan.target, cells, change)) <==>
            ExactCase(plan.target, change)
  {
    if ExactCase(plan.target, change) {
      StepFollows(original, plan, row, cells, change);
    } else if change.RenameColumn? {
      RenameLoses(original, plan, row, Change1(plan.target, cells, change), change.from, change.to);
    } else {
      AlterLoses(original, plan, row, Change1(plan.target, cells, change), change.name, change.definition);
    }
  }

  /** The plan gives the row what the changes leave, after every change of the list. */
  ghost predicate AlwaysFollows(original: seq<Column>, store: nat, row: Row, changes: seq<Change>) {
    && Fold(original, store, changes).Ok?
    && Follows(Fold(original, store, changes).value, row, Stepwise(original, store, row, changes))
    && (changes != [] ==> AlwaysFollows(original, store, row, changes[..|changes| - 1]))
  }

  /** The exact condition: the plan of an accepted list follows it, change by change, if and only if
      every change is spelled exactly. */
  lemma {:induction false} FollowsIff(original: seq<Column>, store: nat, row: Row, changes: seq<Change>)
    requires Distinct(original) && Fold(original, store, changes).Ok? && row.Keys == NamesOf(original)
    ensures AlwaysFollows(original, store, row, changes) <==> ExactList(original, store, changes)
  {
    if changes == [] {
      PlanIsStepwise(original, store, changes, row);
    } else {
      var front := changes[..|changes| - 1];
      FollowsIff(original, store, row, front);
      if ExactList(original, store, front) {
        PlanIsComplete(original, store, front);
        StepFollowsIff(original, Fold(original, store, front).value, row, Stepwise(original, store, row, front),
                       changes[|changes| - 1]);
      }
    }
  }

  // ----- columns renamed in another case -----

  function Cities(): seq<Column> {
    [Column("id", 0, false, true), Column("city", 1, true, false)]
  }

  function CityAgain(): seq<Change> {
    [RenameColumn("City", "town"), DropColumn("town"), AddColumn(Column("city", 1, true, false), Some(7))]
  }

  function CitySources(): map<string, string> {
    map["id" := "id", "city" := "city"]
  }

  lemma CityColumns()
    ensures NamesOf(Cities()) == {"id", "city"}
  {
    NameAt(Cities(), 0);
    NameAt(Cities(), 1);
  }

  lemma CityNames()
    ensures F.SameName("city", "City") && !F.SameName("id", "City") && !F.SameName("id", "town")
    ensures !F.SameName("city", "town") && !F.SameName("id", "city")
    ensures F.SameName("town", "town") && "City" != "city" && "town" != "city" && "id" != "town" && "id" != "City"
  {
    assert F.Lower("City") == "city" && F.Lower("city") == "city" && F.Lower("id") == "id" && F.Lower("town") == "town";
    assert "City"[0] != "city"[0] && "town"[0] != "city"[0] && |"id"| != |"city"| && |"id"| != |"town"|;
    assert |"id"| != |"City"|;
  }

  lemma FindInTwo(first: Column, second: Column, name: string)
    requires !F.SameName(first.name, name)
    ensures FindIndex([first, second], name) == if F.SameName(second.name, name) then Some(1) else None
    ensures FindIndex([first], name) == None
  {
    assert [first, second][1..] == [second] && [second][1..] == [] && [first][1..] == [];
  }

  lemma CityRenamed()
    ensures var town := Column("town", 1, true, false);
            Apply(Start(Cities(), 0), RenameColumn("City", "town")) ==
            Ok(Plan([Cities()[0], town], 0, CitySources(), map[]))
  {
    CityNames();
    FindInTwo(Cities()[0], Cities()[1], "City");
    FindInTwo(Cities()[0], Cities()[1], "town");
    CityColumns();
    assert Start(Cities(), 0).sources == CitySources();
    assert "City" !in CitySources();
    assert Cities()[1 := Cities()[1].(name := "town")] == [Cities()[0], Column("town", 1, true, false)];
  }

  lemma TownDropped()
    ensures var town := Column("town", 1, true, false);
            Apply(Plan([Cities()[0], town], 0, CitySources(), map[]), DropColumn("town")) ==
            Ok(Plan([Cities()[0]], 0, CitySources(), map[]))
  {
    var town := Column("town", 1, true, false);
    CityNames();
    FindInTwo(Cities()[0], town, "town");
    assert Without([Cities()[0], town], 1) == [Cities()[0]];
    assert CitySources() - {"town"} == CitySources();
    var none: map<string, Option<Value>> := map[];
    assert none - {"town"} == none;
  }

  lemma CityAdded()
    ensures Apply(Plan([Cities()[0]], 0, CitySources(), map[]), CityAgain()[2]) ==
            Ok(Plan(Cities(), 0, CitySources(), map["city" := Some(7)]))
  {
    CityNames();
    FindInTwo(Cities()[0], Cities()[1], "city");
    assert [Cities()[0]] + [Cities()[1]] == Cities();
  }

  lemma CityFolds()
    ensures Fold(Cities(), 0, CityAgain()[..0]) == Ok(Start(Cities(), 0))
    ensures Fold(Cities(), 0, CityAgain()[..1]) ==
            Ok(Plan([Cities()[0], Column("town", 1, true, false)], 0, CitySources(), map[]))
    ensures Fold(Cities(), 0, CityAgain()[..2]) == Ok(Plan([Cities()[0]], 0, CitySources(), map[]))
    ensures Fold(Cities(), 0, CityAgain()) == Ok(Plan(Cities(), 0, CitySources(), map["city" := Some(7)]))
  {
    var changes := CityAgain();
    assert changes[..1][..0] == changes[..0] == [] && changes[..2][..1] == changes[..1];
    CityRenamed();
    TownDropped();
    CityAdded();
  }

  /** A column renamed in another case loses its source. */
  lemma OtherCaseLosesSource()
    ensures var plan := Fold(Cities(), 0, [RenameColumn("City", "town")]);
            plan.Ok? && "town" in NamesOf(plan.value.target) && "town" !in plan.value.sources &&
              "town" !in plan.value.defaults
  {
    CityFolds();
    assert CityAgain()[..1] == [RenameColumn("City", "town")];
    CityNames();
    NameAt([Cities()[0], Column("town", 1, true, false)], 1);
  }

  lemma StepwiseNext(original: seq<Column>, store: nat, row: Row, changes: seq<Change>, k: nat)
    requires k < |changes| && Fold(original, store, changes[..k]).Ok?
    ensures Stepwise(original, store, row, changes[..k + 1]) ==
            Change1(Fold(original, store, changes[..k]).value.target, Stepwise(original, store, row, changes[..k]),
                    changes[k])
  {
    assert changes[..k + 1][..k] == changes[..k];
  }

  lemma CityCells(row: Row)
    requires row.Keys == {"id", "city"}
    ensures Stepwise(Cities(), 0, row, CityAgain()) == map["id" := FromRow(row["id"]), "city" := FromDefault(Some(7))]
  {
    var changes := CityAgain();
    var start: map<string, Cell> := map name | name in row :: FromRow(row[name]);
    var town := Change1(Cities(), start, RenameColumn("City", "town"));
    var dropped := Change1([Cities()[0], Column("town", 1, true, false)], town, DropColumn("town"));
    CityFolds();
    assert Stepwise(Cities(), 0, row, changes[..1]) == town by { StepwiseNext(Cities(), 0, row, changes, 0); }
    assert Stepwise(Cities(), 0, row, changes[..2]) == dropped by { StepwiseNext(Cities(), 0, row, changes, 1); }
    assert Stepwise(Cities(), 0, row, changes) == dropped["city" := FromDefault(Some(7))] by {
      assert changes[..3] == changes;
      StepwiseNext(Cities(), 0, row, changes, 2);
    }
    TownCells(row);
  }

  // Cell by cell: renamed, dropped, added.
  lemma TownCells(row: Row)
    requires row.Keys == {"id", "city"}
    ensures var start := map name | name in row :: FromRow(row[name]);
            var town := Change1(Cities(), start, RenameColumn("City", "town"));
            var dropped := Change1([Cities()[0], Column("town", 1, true, false)], town, DropColumn("town"));
            dropped["city" := FromDefault(Some(7))] == map["id" := FromRow(row["id"]), "city" := FromDefault(Some(7))]
  {
    CityNames();
    FindInTwo(Cities()[0], Cities()[1], "City");
    FindInTwo(Cities()[0], Column("town", 1, true, false), "town");
    var start: map<string, Cell> := map name | name in row :: FromRow(row[name]);
    assert MoveKey(start, "city", "town") == map["id" := FromRow(row["id"]), "town" := FromRow(row["city"])];
    assert MoveKey(start, "city", "town") - {"town"} == map["id" := FromRow(row["id"])];
  }

  /** A source that such a rename leaves behind shadows the default of a column added later under the old
      name: every column has a source or a default, so nothing panics, but the rows keep the old value. */
  lemma StaleSourceShadowsDefault(row: Row)
    requires row.Keys == NamesOf(Cities())
    ensures Fold(Cities(), 0, CityAgain()).Ok?
    ensures var plan := Fold(Cities(), 0, CityAgain()).value;
            && (forall name :: name in NamesOf(plan.target) ==> name in plan.sources || name in plan.defaults)
            && "city" in row && Planned(plan, row, "city") == Some(FromRow(row["city"]))
            && "city" in Stepwise(Cities(), 0, row, CityAgain())
            && Stepwise(Cities(), 0, row, CityAgain())["city"] == FromDefault(Some(7))
  {
    CityColumns();
    CityFolds();
    CityCells(row);
  }

  // Strict conversion to the type of the target column; what it accepts is not modelled.
  type Conversion = (Column, Cell) -> Result<Value>

  // Looking up a source or default that the plan does not have is no error but a panic.
  datatype Outcome<+T> = Done(value: T) | Failed(message: string) | Panicked

  function ConvertFirst(plan: Plan, convert: Conversion, row: Row, n: nat): Outcome<seq<Value>>
    requires n <= |plan.target|
  {
    if n == 0 then Done([])
    else
      match ConvertFirst(plan, convert, row, n - 1)
      case Failed(message) => Failed(message)
      case Panicked => Panicked
      case Done(before) =>
        var column := plan.target[n - 1];
        match Planned(plan, row, column.name)
        case None => Panicked
        case Some(cell) =>
          match convert(column, cell)
          case Err(message) => Failed(message)
          case Ok(value) => Done(before + [value])
  }

  function Converted(plan: Plan, convert: Conversion, row: Row): Outcome<seq<Value>> {
    ConvertFirst(plan, convert, row, |plan.target|)
  }

  function ConvertAll(plan: Plan, convert: Conversion, rows: seq<Row>): Outcome<seq<seq<Value>>> {
    if rows == [] then Done([])
    else
      match ConvertAll(plan, convert, rows[..|rows| - 1])
      case Failed(message) => Failed(message)
      case Panicked => Panicked
      case Done(before) =>
        match Converted(plan, convert, rows[|rows| - 1])
        case Failed(message) => Failed(message)
        case Panicked => Panicked
        case Done(values) => Done(before + [values])
  }

  const BATCH: nat := 2_000

  lemma {:induction false} StopsConverting(plan: Plan, convert: Conversion, rows: seq<Row>, k: nat)
    requires k <= |rows| && !ConvertAll(plan, convert, rows[..k]).Done?
    ensures ConvertAll(plan, convert, rows) == ConvertAll(plan, convert, rows[..k])
  {
    if k == |rows| {
      assert rows[..k] == rows;
    } else {
      assert rows[..|rows| - 1][..k] == rows[..k];
      StopsConverting(plan, convert, rows[..|rows| - 1], k);
    }
  }

  /** Copies the rows in batches; the inserted batches put together are all converted rows in order,
      or nothing is kept.  An insert may fail before a row that does not convert is reached. */
  method CopyConvertedRows(plan: Plan, convert: Conversion, rows: seq<Row>) returns (r: Outcome<seq<seq<seq<Value>>>>)
    ensures r.Done? ==> ConvertAll(plan, convert, rows) == Done(Flatten(r.value))
    ensures r.Done? ==> |r.value| > 0 && |r.value[|r.value| - 1]| < BATCH
    ensures r.Done? ==> forall i :: 0 <= i < |r.value| - 1 ==> |r.value[i]| == BATCH
    ensures r.Panicked? ==> ConvertAll(plan, convert, rows).Panicked?
  {
    var inserted: seq<seq<seq<Value>>> := [];
    var batch: seq<seq<Value>> := [];
    assert rows[..0] == [] && Flatten(inserted) + batch == [];
    for k := 0 to |rows|
      invariant ConvertAll(plan, convert, rows[..k]) == Done(Flatten(inserted) + batch)
      invariant |batch| < BATCH && forall i :: 0 <= i < |inserted| ==> |inserted[i]| == BATCH
    {
      assert rows[..k + 1][..k] == rows[..k];
      match Converted(plan, convert, rows[k])
      case Failed(message) =>
        return Failed(message);
      case Panicked =>
        StopsConverting(plan, convert, rows, k + 1);
        return Panicked;
      case Done(values) =>
        assert Flatten(inserted) + batch + [values] == Flatten(inserted) + (batch + [values]);
        batch := batch + [values];
        if |batch| == BATCH {
          if * { return Failed("insert failed"); }
          assert (inserted + [batch])[..|inserted|] == inserted;
          inserted := inserted + [batch];
          batch := [];
          assert Flatten(inserted) + [] == Flatten(inserted);
        }
    }
    assert rows[..|rows|] == rows;
    if * { return Failed("insert failed"); }
    assert (inserted + [batch])[..|inserted|] == inserted;
    return Done(inserted + [batch]);
  }

  /** A copied row has one value for each target column, in their order: what its source or default gives,
      converted to the type of that column. */
  lemma {:induction false} ConvertedInOrder(plan: Plan, convert: Conversion, row: Row, n: nat)
    requires n <= |plan.target| && ConvertFirst(plan, convert, row, n).Done?
    ensures var values := ConvertFirst(plan, convert, row, n).value;
            |values| == n && forall i :: 0 <= i < n ==>
              Planned(plan, row, plan.target[i].name).Some? &&
              convert(plan.target[i], Planned(plan, row, plan.target[i].name).value) == Ok(values[i])
  {
    if n > 0 { ConvertedInOrder(plan, convert, row, n - 1); }
  }

  /** With a complete plan no row lacks a value: it fails only if one of its values does not convert. */
  lemma {:induction false} NothingMissing(original: seq<Column>, plan: Plan, convert: Conversion, row: Row, n: nat)
    requires Complete(original, plan) && row.Keys == NamesOf(original) && n <= |plan.target|
    ensures !ConvertFirst(plan, convert, row, n).Panicked?
    ensures (forall i, cell :: 0 <= i < n ==> convert(plan.target[i], cell).Ok?) ==>
              ConvertFirst(plan, convert, row, n).Done?
  {
    if n > 0 {
      NothingMissing(original, plan, convert, row, n - 1);
      NameAt(plan.target, n - 1);
    }
  }

  /** When every value converts, copying a row panics if and only if some target column has neither a
      source nor a default. */
  lemma {:induction false} PanicsIff(original: seq<Column>, plan: Plan, convert: Conversion, row: Row, n: nat)
    requires row.Keys == NamesOf(original) && n <= |plan.target|
    requires forall name :: name in plan.sources ==> plan.sources[name] in NamesOf(original)
    requires forall i, cell :: 0 <= i < n ==> convert(plan.target[i], cell).Ok?
    ensures ConvertFirst(plan, convert, row, n).Panicked? <==>
            exists i :: 0 <= i < n && plan.target[i].name !in plan.sources && plan.target[i].name !in plan.defaults
    ensures !ConvertFirst(plan, convert, row, n).Failed?
  {
    if n > 0 { PanicsIff(original, plan, convert, row, n - 1); }
  }
}
