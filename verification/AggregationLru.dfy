/** The shared least-recently-used cache of aggregation results. */
module AggregationLru {
  import opened Wrappers
  import opened AggregationCache
  import F = Filters

  // The shared cache holds the entries of all tables, by lower-cased table name.
  datatype TableKey = TableKey(table: string, key: Key)

  datatype Entry = Entry(key: TableKey, value: Evaluation)

  function Contents(entries: seq<Entry>): map<TableKey, Evaluation> {
    if entries == [] then map[]
    else Contents(entries[..|entries| - 1])[entries[|entries| - 1].key := entries[|entries| - 1].value]
  }

  predicate DistinctKeys(entries: seq<Entry>) {
    forall i, j :: 0 <= i < j < |entries| ==> entries[i].key != entries[j].key
  }

  lemma {:induction false} ContentsAt(entries: seq<Entry>, i: nat)
    requires DistinctKeys(entries) && i < |entries|
    ensures entries[i].key in Contents(entries) && Contents(entries)[entries[i].key] == entries[i].value
  {
    if i < |entries| - 1 { ContentsAt(entries[..|entries| - 1], i); }
  }

  lemma {:induction false} ContentsFrom(entries: seq<Entry>, key: TableKey)
    ensures key in Contents(entries) <==> exists i :: 0 <= i < |entries| && entries[i].key == key
  {
    if entries != [] {
      var front := entries[..|entries| - 1];
      ContentsFrom(front, key);
      if i :| 0 <= i < |front| && front[i].key == key { assert entries[i].key == key; }
      if i :| 0 <= i < |entries| && entries[i].key == key {
        if i < |front| { assert front[i].key == key; }
      }
    }
  }

  /** Two lists with the same entries under distinct keys hold the same. */
  lemma SameContents(a: seq<Entry>, b: seq<Entry>)
    requires DistinctKeys(a) && DistinctKeys(b) && forall entry :: entry in a <==> entry in b
    ensures Contents(a) == Contents(b)
  {
    forall key ensures key in Contents(a) <==> key in Contents(b) {
      ContentsFrom(a, key);
      ContentsFrom(b, key);
      if key in Contents(a) {
        var i :| 0 <= i < |a| && a[i].key == key;
        assert a[i] in b;
        var j :| 0 <= j < |b| && b[j] == a[i];
      }
      if key in Contents(b) {
        var i :| 0 <= i < |b| && b[i].key == key;
        assert b[i] in a;
        var j :| 0 <= j < |a| && a[j] == b[i];
      }
    }
    forall key | key in Contents(a) ensures Contents(a)[key] == Contents(b)[key] {
      ContentsFrom(a, key);
      var i :| 0 <= i < |a| && a[i].key == key;
      ContentsAt(a, i);
      assert a[i] in b;
      var j :| 0 <= j < |b| && b[j] == a[i];
      ContentsAt(b, j);
    }
  }

  // All entries but those of one key, in their order.
  function Others(entries: seq<Entry>, key: TableKey): seq<Entry> {
    if entries == [] then []
    else
      var before, last := Others(entries[..|entries| - 1], key), entries[|entries| - 1];
      if last.key == key then before else before + [last]
  }

  // All entries but those of one table, in their order.
  function OtherTables(entries: seq<Entry>, table: string): seq<Entry> {
    if entries == [] then []
    else
      var before, last := OtherTables(entries[..|entries| - 1], table), entries[|entries| - 1];
      if F.SameName(last.key.table, table) then before else before + [last]
  }

  lemma {:induction false} OthersKept(entries: seq<Entry>, key: TableKey, entry: Entry)
    ensures entry in Others(entries, key) <==> entry in entries && entry.key != key
    ensures |Others(entries, key)| <= |entries|
  {
    if entries != [] {
      OthersKept(entries[..|entries| - 1], key, entry);
      assert entries == entries[..|entries| - 1] + [entries[|entries| - 1]];
    }
  }

  lemma {:induction false} OthersDistinct(entries: seq<Entry>, key: TableKey)
    requires DistinctKeys(entries)
    ensures DistinctKeys(Others(entries, key)) &&
            (forall i :: 0 <= i < |Others(entries, key)| ==> Others(entries, key)[i].key != key)
    ensures (exists i :: 0 <= i < |entries| && entries[i].key == key) ==> |Others(entries, key)| < |entries|
  {
    if entries != [] {
      var front, last := entries[..|entries| - 1], entries[|entries| - 1];
      OthersDistinct(front, key);
      var before := Others(front, key);
      forall i | 0 <= i < |before| ensures before[i].key != last.key {
        OthersKept(front, key, before[i]);
        var k :| 0 <= k < |front| && front[k] == before[i];
        assert entries[k] == before[i];
      }
      OthersKept(front, key, last);
      if i :| 0 <= i < |entries| && entries[i].key == key { if i < |front| { assert front[i].key == key; } }
    }
  }

  lemma {:induction false} NoneOfKey(entries: seq<Entry>, key: TableKey)
    requires forall k :: 0 <= k < |entries| ==> entries[k].key != key
    ensures Others(entries, key) == entries
  {
    if entries != [] {
      NoneOfKey(entries[..|entries| - 1], key);
      assert entries == entries[..|entries| - 1] + [entries[|entries| - 1]];
    }
  }

  /** The entry of a key is taken out and the order of the others is kept. */
  lemma {:induction false} OthersInOrder(entries: seq<Entry>, i: nat)
    requires DistinctKeys(entries) && i < |entries|
    ensures Others(entries, entries[i].key) == entries[..i] + entries[i + 1..]
  {
    var n := |entries| - 1;
    var front, last := entries[..n], entries[n];
    if i == n {
      NoneOfKey(front, last.key);
      assert entries[n + 1..] == [];
    } else {
      OthersInOrder(front, i);
      assert front[..i] == entries[..i] && front[i + 1..] + [last] == entries[i + 1..];
    }
  }

  /** The order of the entries of other tables is kept. */
  lemma {:induction false} OtherTablesInOrder(a: seq<Entry>, b: seq<Entry>, table: string)
    ensures OtherTables(a + b, table) == OtherTables(a, table) + OtherTables(b, table)
    ensures |b| == 1 ==> OtherTables(b, table) == if F.SameName(b[0].key.table, table) then [] else b
  {
    if b == [] {
      assert a + b == a;
    } else {
      OtherTablesInOrder(a, b[..|b| - 1], table);
      assert (a + b)[..|a + b| - 1] == a + b[..|b| - 1];
    }
  }

  lemma {:induction false} OtherTablesKept(entries: seq<Entry>, table: string, entry: Entry)
    ensures entry in OtherTables(entries, table) <==> entry in entries && !F.SameName(entry.key.table, table)
    ensures |OtherTables(entries, table)| <= |entries|
  {
    if entries != [] {
      OtherTablesKept(entries[..|entries| - 1], table, entry);
      assert entries == entries[..|entries| - 1] + [entries[|entries| - 1]];
    }
  }

  lemma {:induction false} OtherTablesDistinct(entries: seq<Entry>, table: string)
    requires DistinctKeys(entries)
    ensures DistinctKeys(OtherTables(entries, table))
  {
    if entries != [] {
      var front, last := entries[..|entries| - 1], entries[|entries| - 1];
      OtherTablesDistinct(front, table);
      var before := OtherTables(front, table);
      forall i | 0 <= i < |before| ensures before[i].key != last.key {
        OtherTablesKept(front, table, before[i]);
        var k :| 0 <= k < |front| && front[k] == before[i];
        assert entries[k] == before[i];
      }
    }
  }

  lemma MovedToEnd(entries: seq<Entry>, i: nat)
    requires DistinctKeys(entries) && i < |entries|
    ensures var moved := Others(entries, entries[i].key) + [entries[i]];
            DistinctKeys(moved) && |moved| <= |entries| && Contents(moved) == Contents(entries)
  {
    var key := entries[i].key;
    var moved := Others(entries, key) + [entries[i]];
    OthersDistinct(entries, key);
    forall entry ensures entry in moved <==> entry in entries {
      OthersKept(entries, key, entry);
      if entry in entries && entry.key == key { var k :| 0 <= k < |entries| && entries[k] == entry; }
    }
    SameContents(moved, entries);
  }

  /** A least-recently-used cache of the given capacity; capacity zero switches it off. */
  class LruCache {
    const capacity: nat
    var entries: seq<Entry>      // the least recently used first

    ghost predicate Valid()
      reads this
    {
      DistinctKeys(entries) && |entries| <= capacity
    }

    constructor (capacity: nat)
      ensures Valid() && Contents(entries) == map[] && this.capacity == capacity
    {
      this.capacity, entries := capacity, [];
    }

    method Get(key: TableKey) returns (r: Option<Evaluation>)
      requires Valid()
      modifies this`entries
      ensures Valid() && Contents(entries) == old(Contents(entries))
      ensures r == if key in Contents(entries) then Some(Contents(entries)[key]) else None
      ensures entries == if r.Some? then Others(old(entries), key) + [Entry(key, r.value)] else old(entries)
    {
      for i := 0 to |entries|
        invariant entries == old(entries) && forall k :: 0 <= k < i ==> entries[k].key != key
      {
        if entries[i].key == key {
          ContentsAt(entries, i);
          r := Some(entries[i].value);
          MovedToEnd(entries, i);
          entries := Others(entries, key) + [entries[i]];
          return;
        }
      }
      ContentsFrom(entries, key);
      r := None;
    }

    /** Stores the value; only when the cache is full may one other entry, the least recently used,
        make room. */
    method Insert(key: TableKey, value: Evaluation)
      requires Valid()
      modifies this`entries
      ensures Valid() && (capacity == 0 ==> entries == [])
      ensures capacity > 0 ==> entries != [] && entries[|entries| - 1] == Entry(key, value)
      ensures capacity > 0 ==>
                var rest := Others(old(entries), key);
                entries[..|entries| - 1] == if |rest| < capacity then rest else rest[1..]
    {
      if capacity == 0 { return; }
      OthersDistinct(entries, key);
      OthersKept(entries, key, Entry(key, value));
      var rest := Others(entries, key);
      if |rest| == capacity { rest := rest[1..]; }
      entries := rest + [Entry(key, value)];
    }

    /** Removes exactly the entries of the table. */
    method RemoveTable(table: string)
      requires Valid()
      modifies this`entries
      ensures Valid() && entries == OtherTables(old(entries), table)
      ensures forall key :: key in Contents(entries) <==> key in old(Contents(entries)) && !F.SameName(key.table, table)
    {
      ghost var before := entries;
      OtherTablesDistinct(entries, table);
      entries := OtherTables(entries, table);
      forall entry { OtherTablesKept(before, table, entry); }
      forall key ensures key in Contents(entries) <==> key in Contents(before) && !F.SameName(key.table, table) {
        ContentsFrom(before, key);
        ContentsFrom(entries, key);
        if key in Contents(entries) {
          var i :| 0 <= i < |entries| && entries[i].key == key;
          assert entries[i] in before;
        }
        if key in Contents(before) && !F.SameName(key.table, table) {
          var i :| 0 <= i < |before| && before[i].key == key;
          assert before[i] in entries;
        }
      }
    }
  }
}
