/** What the store does below the handlers: hand over a table's rows in its own
    order, and choose the id of a new row. */
module Tables {

  /** `rows` lists each row of `table` exactly once, `ids[i]` being the key of `rows[i]`. */
  ghost predicate ListsTable<T>(rows: seq<T>, ids: seq<int>, table: map<int, T>) {
    && |rows| == |ids|
    && (forall i :: 0 <= i < |ids| ==> ids[i] in table && rows[i] == table[ids[i]])
    && (forall i, j :: 0 <= i < j < |ids| ==> ids[i] != ids[j])
    && (forall k :: k in table ==> k in ids)
  }

  /** `rows` is the table in some order the store chooses. */
  ghost predicate IsScanOf<T>(rows: seq<T>, table: map<int, T>) {
    exists ids :: ListsTable(rows, ids, table)
  }

  /** No two keys hold the same row (in both tables, each row carries its own id). */
  ghost predicate Injective<T>(table: map<int, T>) {
    forall k1, k2 :: k1 in table && k2 in table && table[k1] == table[k2] ==> k1 == k2
  }

  /** `x` is a row of `table`. */
  ghost predicate Stored<T>(table: map<int, T>, x: T) {
    exists k :: k in table && table[k] == x
  }

  /** When every row carries its own key, no two keys hold the same row, and a
      value is stored exactly when it sits under its own key. */
  lemma KeyedByOwnId<T>(table: map<int, T>, idOf: T -> int, x: T)
    requires forall k :: k in table ==> idOf(table[k]) == k
    ensures Injective(table)
    ensures Stored(table, x) <==> idOf(x) in table && table[idOf(x)] == x
  {
    var k := idOf(x);
    if k in table && table[k] == x {
      assert Stored(table, x);
    }
  }

  /** A value that occurs at exactly one index occurs once. */
  lemma {:induction false} CountOfSoleOccurrence<T>(s: seq<T>, x: T, i: int)
    requires 0 <= i < |s| && s[i] == x
    requires forall j :: 0 <= j < |s| && j != i ==> s[j] != x
    ensures multiset(s)[x] == 1
  {
    assert s == s[..i] + [x] + s[i + 1..];
    assert x !in s[..i] && x !in s[i + 1..];
  }

  /** Distinct keys, listed, are as many as the set they make up. */
  lemma {:induction false} DistinctCardinality(ids: seq<int>)
    requires forall i, j :: 0 <= i < j < |ids| ==> ids[i] != ids[j]
    ensures |set k | k in ids| == |ids|
  {
    if ids != [] {
      var init := ids[..|ids| - 1];
      DistinctCardinality(init);
      assert (set k | k in ids) == (set k | k in init) + {ids[|ids| - 1]};
      assert ids[|ids| - 1] !in init;
    }
  }

  /** A scan has one row per key. */
  lemma ScanLength<T>(rows: seq<T>, ids: seq<int>, table: map<int, T>)
    requires ListsTable(rows, ids, table)
    ensures |rows| == |table|
  {
    DistinctCardinality(ids);
    assert forall k :: k in (set k | k in ids) <==> k in table.Keys;
    assert (set k | k in ids) == table.Keys;
  }

  /** A scan holds exactly the stored rows. */
  lemma ScanMembers<T>(rows: seq<T>, ids: seq<int>, table: map<int, T>)
    requires ListsTable(rows, ids, table)
    ensures forall x :: x in rows <==> Stored(table, x)
  {
    forall x | x in rows ensures Stored(table, x) {
      var i :| 0 <= i < |rows| && rows[i] == x;
      assert ids[i] in table && table[ids[i]] == x;
    }
    forall x | Stored(table, x) ensures x in rows {
      var k :| k in table && table[k] == x;
      var i :| 0 <= i < |ids| && ids[i] == k;
      assert rows[i] == x;
    }
  }

  /** In a scan of a table whose keys hold distinct rows, each stored row occurs
      once and nothing else occurs. */
  lemma ScanCounts<T>(rows: seq<T>, ids: seq<int>, table: map<int, T>, x: T)
    requires ListsTable(rows, ids, table) && Injective(table)
    ensures multiset(rows)[x] == if Stored(table, x) then 1 else 0
  {
    if Stored(table, x) {
      var k :| k in table && table[k] == x;
      var i :| 0 <= i < |ids| && ids[i] == k;
      forall j | 0 <= j < |rows| && j != i ensures rows[j] != x {
        assert ids[j] != ids[i];
      }
      CountOfSoleOccurrence(rows, x, i);
    } else {
      forall i | 0 <= i < |rows| ensures rows[i] != x {
        assert table[ids[i]] == rows[i];
      }
    }
  }

  /** A member of any set that is not empty. */
  lemma SomeMember(s: set<int>) returns (k: int)
    ensures s == {} || k in s
  {
    if forall x :: x !in s {
      assert forall x :: x in s <==> x in {};
      k := 0;
    } else {
      k :| k in s;
    }
  }

  /** A full scan of the table (`Model.query.all()` with no ORDER BY). SQL fixes
      no order for it, so the rows come in an order this method picks freely. */
  method Scan<T>(table: map<int, T>) returns (rows: seq<T>, ghost ids: seq<int>)
    ensures ListsTable(rows, ids, table)
    ensures |rows| == |table|
    ensures forall x :: x in rows <==> Stored(table, x)
  {
    rows, ids := [], [];
    var rest := table.Keys;
    while rest != {}
      invariant rest <= table.Keys
      invariant |rows| == |ids|
      invariant forall i :: 0 <= i < |ids| ==> ids[i] in table && ids[i] !in rest && rows[i] == table[ids[i]]
      invariant forall i, j :: 0 <= i < j < |ids| ==> ids[i] != ids[j]
      invariant forall k :: k in table && k !in rest ==> k in ids
      decreases rest
    {
      ghost var some := SomeMember(rest);
      var k: int :| k in rest;
      rows, ids := rows + [table[k]], ids + [k];
      rest := rest - {k};
    }
    ScanLength(rows, ids, table);
    ScanMembers(rows, ids, table);
  }

  /** The id SQLite gives a new row of a table whose INTEGER PRIMARY KEY is not
      AUTOINCREMENT: one more than the largest id in use, or 1 in an empty table. */
  method NextRowId(keys: set<int>) returns (id: int)
    ensures id !in keys
    ensures forall k :: k in keys ==> k < id
    ensures keys == {} ==> id == 1
    ensures keys != {} ==> id - 1 in keys
  {
    if keys == {} {
      return 1;
    }
    ghost var some := SomeMember(keys);
    var largest: int :| largest in keys;
    var rest := keys - {largest};
    while rest != {}
      invariant rest <= keys && largest in keys
      invariant forall k :: k in keys && k !in rest ==> k <= largest
      decreases rest
    {
      ghost var other := SomeMember(rest);
      var k: int :| k in rest;
      if k > largest {
        largest := k;
      }
      rest := rest - {k};
    }
    id := largest + 1;
  }
}
