/** The order of the fallback sort: JSON values column by column, then the document address. */
module JsonOrder {
  import opened Ordering

  // Numbers compare as reals; an object lists its entries in key order.
  datatype Json =
    | Null
    | Bool(truth: bool)
    | Number(number: real)
    | String(text: string)
    | Array(items: seq<Json>)
    | Object(entries: seq<(string, Json)>)

  function TypeRank(value: Json): nat {
    match value
    case Null => 0
    case Bool(_) => 1
    case Number(_) => 2
    case String(_) => 3
    case Array(_) => 4
    case Object(_) => 5
  }

  /** Null is greatest; values of one type compare by content, others by type. */
  function CompareJson(a: Json, b: Json): Ordering
    decreases a, 1, 0
  {
    match (a, b)
    case (Null, Null) => Equal
    case (Null, _) => Greater
    case (_, Null) => Less
    case (Number(x), Number(y)) => CompareReal(x, y)
    case (String(x), String(y)) => CompareString(x, y)
    case (Bool(x), Bool(y)) => CompareBool(x, y)
    case (Array(_), Array(_)) => CompareItems(a, b, 0)
    case (Object(_), Object(_)) => CompareEntries(a, b, 0)
    case _ => CompareInt(TypeRank(a), TypeRank(b))
  }

  // From the i-th item on, the first difference decides, then the length.
  function CompareItems(a: Json, b: Json, i: nat): Ordering
    requires a.Array? && b.Array? && i <= |a.items|
    decreases a, 0, |a.items| - i
  {
    if i == |a.items| then (if i >= |b.items| then Equal else Less)
    else if i >= |b.items| then Greater
    else CompareJson(a.items[i], b.items[i]).Then(CompareItems(a, b, i + 1))
  }

  // Entry by entry the key, then the value.
  function CompareEntries(a: Json, b: Json, i: nat): Ordering
    requires a.Object? && b.Object? && i <= |a.entries|
    decreases a, 0, |a.entries| - i
  {
    if i == |a.entries| then (if i >= |b.entries| then Equal else Less)
    else if i >= |b.entries| then Greater
    else
      CompareString(a.entries[i].0, b.entries[i].0)
        .Then(CompareJson(a.entries[i].1, b.entries[i].1))
        .Then(CompareEntries(a, b, i + 1))
  }

  /** Objects are compared by walking both entry lists at once. */
  method CompareObjects(a: Json, b: Json) returns (r: Ordering)
    requires a.Object? && b.Object?
    ensures r == CompareJson(a, b)
  {
    var i := 0;
    while i < |a.entries| && i < |b.entries|
      invariant i <= |a.entries| && i <= |b.entries|
      invariant CompareEntries(a, b, i) == CompareJson(a, b)
      decreases |a.entries| - i
    {
      var (leftKey, left) := a.entries[i];
      var (rightKey, right) := b.entries[i];
      var comparison := CompareString(leftKey, rightKey).Then(CompareJson(left, right));
      if !comparison.Equal? { return comparison; }
      i := i + 1;
    }
    return if i < |a.entries| then Greater else if i < |b.entries| then Less else Equal;
  }

  // ----- swapping the arguments mirrors the answer -----

  lemma {:induction false} JsonMirror(a: Json, b: Json)
    ensures CompareJson(a, b) == CompareJson(b, a).Reverse()
    decreases a, 1, 0
  {
    match (a, b)
    case (String(x), String(y)) => StringMirror(x, y);
    case (Array(_), Array(_)) => ItemsMirror(a, b, 0);
    case (Object(_), Object(_)) => EntriesMirror(a, b, 0);
    case _ =>
  }

  lemma {:induction false} ItemsMirror(a: Json, b: Json, i: nat)
    requires a.Array? && b.Array? && i <= |a.items| && i <= |b.items|
    ensures CompareItems(a, b, i) == CompareItems(b, a, i).Reverse()
    decreases a, 0, |a.items| - i
  {
    if i < |a.items| && i < |b.items| {
      JsonMirror(a.items[i], b.items[i]);
      ItemsMirror(a, b, i + 1);
    }
  }

  lemma {:induction false} EntriesMirror(a: Json, b: Json, i: nat)
    requires a.Object? && b.Object? && i <= |a.entries| && i <= |b.entries|
    ensures CompareEntries(a, b, i) == CompareEntries(b, a, i).Reverse()
    decreases a, 0, |a.entries| - i
  {
    if i < |a.entries| && i < |b.entries| {
      StringMirror(a.entries[i].0, b.entries[i].0);
      JsonMirror(a.entries[i].1, b.entries[i].1);
      EntriesMirror(a, b, i + 1);
    }
  }

  // ----- what the order is -----

  /** Only equal values compare as equal. */
  lemma {:induction false} EqualIsSame(a: Json, b: Json)
    ensures CompareJson(a, b).Equal? <==> a == b
    decreases a, 1, 0
  {
    match (a, b)
    case (String(x), String(y)) => StringMirror(x, y);
    case (Array(_), Array(_)) => ItemsSame(a, b, 0);
    case (Object(_), Object(_)) => EntriesSame(a, b, 0);
    case _ =>
  }

  lemma {:induction false} ItemsSame(a: Json, b: Json, i: nat)
    requires a.Array? && b.Array? && i <= |a.items| && i <= |b.items| && a.items[..i] == b.items[..i]
    ensures CompareItems(a, b, i).Equal? <==> a.items == b.items
    decreases a, 0, |a.items| - i
  {
    if i < |a.items| && i < |b.items| {
      EqualIsSame(a.items[i], b.items[i]);
      if a.items[i] == b.items[i] {
        assert a.items[..i + 1] == a.items[..i] + [a.items[i]] && b.items[..i + 1] == b.items[..i] + [b.items[i]];
        ItemsSame(a, b, i + 1);
      }
    } else {
      assert a.items[..|a.items|] == a.items && b.items[..|b.items|] == b.items;
    }
  }

  lemma {:induction false} EntriesSame(a: Json, b: Json, i: nat)
    requires a.Object? && b.Object? && i <= |a.entries| && i <= |b.entries| && a.entries[..i] == b.entries[..i]
    ensures CompareEntries(a, b, i).Equal? <==> a.entries == b.entries
    decreases a, 0, |a.entries| - i
  {
    if i < |a.entries| && i < |b.entries| {
      var x, y := a.entries[i], b.entries[i];
      StringMirror(x.0, y.0);
      EqualIsSame(x.1, y.1);
      if x == y {
        assert a.entries[..i + 1] == a.entries[..i] + [x] && b.entries[..i + 1] == b.entries[..i] + [y];
        EntriesSame(a, b, i + 1);
      }
    } else {
      assert a.entries[..|a.entries|] == a.entries && b.entries[..|b.entries|] == b.entries;
    }
  }

  /** Scalars follow their contents, false before true. */
  lemma ScalarsByContent(a: Json, b: Json)
    ensures a.Bool? && b.Bool? ==> (CompareJson(a, b).Less? <==> !a.truth && b.truth)
    ensures a.Number? && b.Number? ==> (CompareJson(a, b).Less? <==> a.number < b.number)
    ensures a.String? && b.String? ==> CompareJson(a, b) == CompareString(a.text, b.text)
  {
  }

  /** Values of different kinds: truth values, numbers, text, arrays, objects, and null after all of them. */
  lemma KindsInOrder(a: Json, b: Json)
    ensures a.Bool? && (b.Number? || b.String? || b.Array? || b.Object?) ==> CompareJson(a, b).Less?
    ensures a.Number? && (b.String? || b.Array? || b.Object?) ==> CompareJson(a, b).Less?
    ensures a.String? && (b.Array? || b.Object?) ==> CompareJson(a, b).Less?
    ensures a.Array? && b.Object? ==> CompareJson(a, b).Less?
    ensures !a.Null? && b.Null? ==> CompareJson(a, b).Less?
  {
  }

  lemma {:induction false} ItemsFrom(a: Json, b: Json, i: nat, n: nat)
    requires a.Array? && b.Array? && i <= n <= |a.items| && n <= |b.items| && a.items[..n] == b.items[..n]
    ensures CompareItems(a, b, i) == CompareItems(a, b, n)
    decreases n - i
  {
    if i < n {
      assert a.items[i] == a.items[..n][i] == b.items[..n][i] == b.items[i];
      EqualIsSame(a.items[i], b.items[i]);
      ItemsFrom(a, b, i + 1, n);
    }
  }

  /** Arrays are ordered by the first item that differs, and a proper prefix comes first. */
  lemma FirstItemDecides(a: Json, b: Json, n: nat)
    requires a.Array? && b.Array? && n <= |a.items| && n <= |b.items| && a.items[..n] == b.items[..n]
    ensures n < |a.items| && n < |b.items| && a.items[n] != b.items[n] ==>
              CompareJson(a, b) == CompareJson(a.items[n], b.items[n])
    ensures n == |a.items| < |b.items| ==> CompareJson(a, b).Less?
  {
    ItemsFrom(a, b, 0, n);
    if n < |a.items| && n < |b.items| { EqualIsSame(a.items[n], b.items[n]); }
  }

  lemma {:induction false} EntriesFrom(a: Json, b: Json, i: nat, n: nat)
    requires a.Object? && b.Object? && i <= n <= |a.entries| && n <= |b.entries| && a.entries[..n] == b.entries[..n]
    ensures CompareEntries(a, b, i) == CompareEntries(a, b, n)
    decreases n - i
  {
    if i < n {
      assert a.entries[i] == a.entries[..n][i] == b.entries[..n][i] == b.entries[i];
      StringMirror(a.entries[i].0, b.entries[i].0);
      EqualIsSame(a.entries[i].1, b.entries[i].1);
      EntriesFrom(a, b, i + 1, n);
    }
  }

  /** Objects are ordered by the first entry that differs, by its key and then by its value, and a proper
      prefix comes first. */
  lemma FirstEntryDecides(a: Json, b: Json, n: nat)
    requires a.Object? && b.Object? && n <= |a.entries| && n <= |b.entries| && a.entries[..n] == b.entries[..n]
    ensures n < |a.entries| && n < |b.entries| && a.entries[n].0 != b.entries[n].0 ==>
              CompareJson(a, b) == CompareString(a.entries[n].0, b.entries[n].0)
    ensures n < |a.entries| && n < |b.entries| && a.entries[n].0 == b.entries[n].0 &&
            a.entries[n].1 != b.entries[n].1 ==>
              CompareJson(a, b) == CompareJson(a.entries[n].1, b.entries[n].1)
    ensures n == |a.entries| < |b.entries| ==> CompareJson(a, b).Less?
  {
    EntriesFrom(a, b, 0, n);
    if n < |a.entries| && n < |b.entries| {
      StringMirror(a.entries[n].0, b.entries[n].0);
      EqualIsSame(a.entries[n].1, b.entries[n].1);
    }
  }

  // ----- "at most" chains -----

  // Of three comparisons: what chaining says, with equality chained too.
  predicate Chains(ab: Ordering, bc: Ordering, ac: Ordering) {
    !ab.Greater? && !bc.Greater? ==> !ac.Greater? && (ac.Equal? <==> ab.Equal? && bc.Equal?)
  }

  lemma StringChains(a: string, b: string, c: string)
    ensures Chains(CompareString(a, b), CompareString(b, c), CompareString(a, c))
  {
    StringsAreOrdered();
    if !CompareString(a, b).Greater? && !CompareString(b, c).Greater? { PreorderChains(CompareString, a, b, c); }
  }

  lemma {:induction false} JsonChain(a: Json, b: Json, c: Json)
    ensures Chains(CompareJson(a, b), CompareJson(b, c), CompareJson(a, c))
    decreases a, 1, 0
  {
    match (a, b, c)
    case (String(x), String(y), String(z)) => StringChains(x, y, z);
    case (Array(_), Array(_), Array(_)) => ItemsChain(a, b, c, 0);
    case (Object(_), Object(_), Object(_)) => EntriesChain(a, b, c, 0);
    case _ =>
  }

  lemma {:induction false} ItemsChain(a: Json, b: Json, c: Json, i: nat)
    requires a.Array? && b.Array? && c.Array? && i <= |a.items| && i <= |b.items| && i <= |c.items|
    ensures Chains(CompareItems(a, b, i), CompareItems(b, c, i), CompareItems(a, c, i))
    decreases a, 0, |a.items| - i
  {
    if i < |a.items| && i < |b.items| && i < |c.items| {
      JsonChain(a.items[i], b.items[i], c.items[i]);
      ItemsChain(a, b, c, i + 1);
    }
  }

  lemma {:induction false} EntriesChain(a: Json, b: Json, c: Json, i: nat)
    requires a.Object? && b.Object? && c.Object? && i <= |a.entries| && i <= |b.entries| && i <= |c.entries|
    ensures Chains(CompareEntries(a, b, i), CompareEntries(b, c, i), CompareEntries(a, c, i))
    decreases a, 0, |a.entries| - i
  {
    if i < |a.entries| && i < |b.entries| && i < |c.entries| {
      StringChains(a.entries[i].0, b.entries[i].0, c.entries[i].0);
      JsonChain(a.entries[i].1, b.entries[i].1, c.entries[i].1);
      EntriesChain(a, b, c, i + 1);
    }
  }

  /** The order of JSON values is a total preorder, by structural induction on the values. */
  lemma JsonIsOrdered()
    ensures TotalPreorder(CompareJson)
  {
    forall a, b ensures CompareJson(a, b) == CompareJson(b, a).Reverse() { JsonMirror(a, b); }
    forall a, b, c | !CompareJson(a, b).Greater? && !CompareJson(b, c).Greater? ensures !CompareJson(a, c).Greater? {
      JsonChain(a, b, c);
    }
  }
}
