/** The tabular input every loader and validator works on: a CSV file as pandas
    reads it, with numeric cells and `None` for a missing value (NaN). */
module Tables {
  import opened Wrappers

  datatype CsvTable = CsvTable(columns: seq<string>, rows: seq<seq<Option<real>>>)

  /** Every row has one cell per column, as in any `DataFrame`. */
  predicate Rectangular(t: CsvTable)
  {
    forall i :: 0 <= i < |t.rows| ==> |t.rows[i]| == |t.columns|
  }

  /** `DataFrame.empty`: no rows or no columns. */
  predicate IsEmpty(t: CsvTable)
  {
    |t.rows| == 0 || |t.columns| == 0
  }

  /** Number of missing cells in column `j` (`df[col].isnull().sum()`). */
  function NullCount(rows: seq<seq<Option<real>>>, j: nat): (n: nat)
    requires forall i :: 0 <= i < |rows| ==> j < |rows[i]|
    ensures n <= |rows|
  {
    if rows == [] then 0
    else NullCount(rows[..|rows| - 1], j) + (if rows[|rows| - 1][j].None? then 1 else 0)
  }

  /** A complete measurement row: time (s), voltage (V), current (A), power (W). */
  datatype Sample = Sample(time: real, voltage: real, current: real, power: real)

  /** Ascending order by `key`, as `sort_values` leaves a table. */
  ghost predicate SortedBy<T>(s: seq<T>, key: T -> real)
  {
    forall i, j :: 0 <= i < j < |s| ==> key(s[i]) <= key(s[j])
  }

  /** Inserts `x` into a table after every leading row whose key is not larger. */
  function InsertBy<T>(x: T, s: seq<T>, key: T -> real): (r: seq<T>)
    ensures |r| == |s| + 1
  {
    if s == [] then [x]
    else if key(x) < key(s[0]) then [x] + s
    else [s[0]] + InsertBy(x, s[1..], key)
  }

  /** Inserting adds exactly `x` to the rows. */
  lemma {:induction false} InsertByCount<T>(x: T, s: seq<T>, key: T -> real)
    ensures multiset(InsertBy(x, s, key)) == multiset(s) + multiset{x}
  {
    if s != [] && key(x) >= key(s[0]) {
      InsertByCount(x, s[1..], key);
      assert s == [s[0]] + s[1..];
    }
  }

  /** Inserting into a sorted table keeps it sorted and adds exactly `x`. */
  lemma {:induction false} InsertBySpec<T>(x: T, s: seq<T>, key: T -> real)
    requires SortedBy(s, key)
    ensures SortedBy(InsertBy(x, s, key), key)
    ensures multiset(InsertBy(x, s, key)) == multiset(s) + multiset{x}
  {
    InsertByCount(x, s, key);
    if s == [] {
    } else if key(x) < key(s[0]) {
      SortedCons(x, s, key);
    } else {
      assert SortedBy(s[1..], key);
      InsertBySpec(x, s[1..], key);
      InsertBehindHead(x, s, key);
    }
  }

  /** Behind a head that `x` does not precede, the sorted insertion stays sorted. */
  lemma InsertBehindHead<T>(x: T, s: seq<T>, key: T -> real)
    requires s != [] && SortedBy(s, key) && key(s[0]) <= key(x)
    requires SortedBy(InsertBy(x, s[1..], key), key)
    requires multiset(InsertBy(x, s[1..], key)) == multiset(s[1..]) + multiset{x}
    ensures SortedBy([s[0]] + InsertBy(x, s[1..], key), key)
  {
    var t := InsertBy(x, s[1..], key);
    forall k | 0 <= k < |t|
      ensures key(s[0]) <= key(t[k])
    {
      assert t[k] in multiset(s[1..]) + multiset{x};
      if t[k] != x {
        var i :| 0 <= i < |s[1..]| && s[1..][i] == t[k];
        assert key(s[0]) <= key(s[i + 1]);
      }
    }
    SortedCons(s[0], t, key);
  }

  /** A row no larger than every row of a sorted table can go in front of it. */
  lemma SortedCons<T>(y: T, t: seq<T>, key: T -> real)
    requires SortedBy(t, key)
    requires forall k :: 0 <= k < |t| ==> key(y) <= key(t[k])
    ensures SortedBy([y] + t, key)
  {
    var r := [y] + t;
    forall i, j | 0 <= i < j < |r|
      ensures key(r[i]) <= key(r[j])
    {
      if i > 0 {
        assert r[i] == t[i - 1] && r[j] == t[j - 1];
      }
    }
  }

  /** `sort_values(key)`: insertion of each row in turn into the sorted prefix. */
  function SortBy<T>(s: seq<T>, key: T -> real): (r: seq<T>)
    ensures |r| == |s|
  {
    if s == [] then [] else InsertBy(s[|s| - 1], SortBy(s[..|s| - 1], key), key)
  }

  /** `SortBy` returns the rows in ascending key order, each as often as before. */
  lemma {:induction false} SortBySpec<T>(s: seq<T>, key: T -> real)
    ensures SortedBy(SortBy(s, key), key)
    ensures multiset(SortBy(s, key)) == multiset(s)
  {
    if s != [] {
      var n := |s| - 1;
      SortBySpec(s[..n], key);
      InsertBySpec(s[n], SortBy(s[..n], key), key);
      assert s == s[..n] + [s[n]];
    }
  }
}
