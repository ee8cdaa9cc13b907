/** Python's `sorted(rows, key=..., reverse=True)`: descending by key, rows with equal keys left in
    the order they came in. */
module StableSort {

  function Insert<T>(x: T, rows: seq<T>, key: T -> real): seq<T>
    decreases rows
  {
    if rows == [] || key(rows[0]) <= key(x) then [x] + rows
    else [rows[0]] + Insert(x, rows[1..], key)
  }

  function Sorted<T>(rows: seq<T>, key: T -> real): seq<T>
    decreases rows
  {
    if rows == [] then [] else Insert(rows[0], Sorted(rows[1..], key), key)
  }

  ghost predicate Descending<T>(rows: seq<T>, key: T -> real)
  {
    forall i, j :: 0 <= i < j < |rows| ==> key(rows[i]) >= key(rows[j])
  }

  /** The rows with one key, in their order. */
  function WithKey<T>(rows: seq<T>, key: T -> real, k: real): seq<T>
    decreases rows
  {
    if rows == [] then [] else (if key(rows[0]) == k then [rows[0]] else []) + WithKey(rows[1..], key, k)
  }

  lemma {:induction false} InsertFacts<T>(x: T, rows: seq<T>, key: T -> real)
    ensures multiset(Insert(x, rows, key)) == multiset{x} + multiset(rows)
    ensures |Insert(x, rows, key)| == |rows| + 1
    decreases rows
  {
    if rows != [] && key(rows[0]) > key(x) {
      InsertFacts(x, rows[1..], key);
      assert rows == [rows[0]] + rows[1..];
    }
  }

  lemma {:induction false} InsertKeepsOrder<T>(x: T, rows: seq<T>, key: T -> real)
    requires Descending(rows, key)
    ensures Descending(Insert(x, rows, key), key)
    decreases rows
  {
    if rows != [] && key(rows[0]) > key(x) {
      var rest := Insert(x, rows[1..], key);
      InsertKeepsOrder(x, rows[1..], key);
      InsertFacts(x, rows[1..], key);
      forall i | 0 <= i < |rest| ensures key(rows[0]) >= key(rest[i]) {
        assert rest[i] in multiset(rest);
        assert rest[i] == x || rest[i] in rows[1..];
      }
    }
  }

  /** Sorting rearranges the rows into descending order. */
  lemma {:induction false} SortedFacts<T>(rows: seq<T>, key: T -> real)
    ensures multiset(Sorted(rows, key)) == multiset(rows)
    ensures |Sorted(rows, key)| == |rows|
    ensures Descending(Sorted(rows, key), key)
  {
    SortedPermutes(rows, key);
    SortedDescends(rows, key);
  }

  lemma {:induction false} SortedPermutes<T>(rows: seq<T>, key: T -> real)
    ensures multiset(Sorted(rows, key)) == multiset(rows)
    ensures |Sorted(rows, key)| == |rows|
    decreases rows
  {
    if rows != [] {
      SortedPermutes(rows[1..], key);
      InsertFacts(rows[0], Sorted(rows[1..], key), key);
      assert rows == [rows[0]] + rows[1..];
    }
  }

  lemma {:induction false} SortedDescends<T>(rows: seq<T>, key: T -> real)
    ensures Descending(Sorted(rows, key), key)
    decreases rows
  {
    if rows != [] {
      SortedDescends(rows[1..], key);
      InsertKeepsOrder(rows[0], Sorted(rows[1..], key), key);
    }
  }

  lemma {:induction false} InsertStable<T>(x: T, rows: seq<T>, key: T -> real, k: real)
    ensures WithKey(Insert(x, rows, key), key, k) == (if key(x) == k then [x] else []) + WithKey(rows, key, k)
    decreases rows
  {
    if rows == [] || key(rows[0]) <= key(x) {
      WithKeyCons(x, rows, key, k);
    } else {
      InsertStable(x, rows[1..], key, k);
      WithKeyCons(rows[0], Insert(x, rows[1..], key), key, k);
    }
  }

  lemma WithKeyCons<T>(x: T, rows: seq<T>, key: T -> real, k: real)
    ensures WithKey([x] + rows, key, k) == (if key(x) == k then [x] else []) + WithKey(rows, key, k)
  {
    assert ([x] + rows)[1..] == rows;
  }

  /** Rows that tie keep their order. */
  lemma {:induction false} SortedStable<T>(rows: seq<T>, key: T -> real, k: real)
    ensures WithKey(Sorted(rows, key), key, k) == WithKey(rows, key, k)
    decreases rows
  {
    if rows != [] {
      SortedStable(rows[1..], key, k);
      InsertStable(rows[0], Sorted(rows[1..], key), key, k);
    }
  }
}
