/** sort.SliceStable on rows that carry a lexicographic key: the result is sorted by
    key, is a permutation, and keeps the order of rows with equal keys. */
module StableSort {
  import opened Keys

  datatype Row<T> = Row(key: Key, value: T)

  ghost predicate Sorted<T>(rows: seq<Row<T>>) {
    forall i, j :: 0 <= i < j < |rows| ==> CompareKeys(rows[i].key, rows[j].key) <= 0
  }

  /** The rows with one key, in order. */
  function WithKey<T>(rows: seq<Row<T>>, key: Key): seq<Row<T>> {
    if rows == [] then []
    else (if rows[0].key == key then [rows[0]] else []) + WithKey(rows[1..], key)
  }

  /** Inserts a row after every row whose key is not above its own. */
  function Insert<T>(rows: seq<Row<T>>, x: Row<T>): seq<Row<T>> {
    if rows == [] then [x]
    else if CompareKeys(rows[|rows| - 1].key, x.key) <= 0 then rows + [x]
    else Insert(rows[..|rows| - 1], x) + [rows[|rows| - 1]]
  }

  function Sort<T>(rows: seq<Row<T>>): seq<Row<T>> {
    if rows == [] then [] else Insert(Sort(rows[..|rows| - 1]), rows[|rows| - 1])
  }

  lemma {:induction false} InsertSorts<T>(rows: seq<Row<T>>, x: Row<T>)
    requires Sorted(rows)
    ensures Sorted(Insert(rows, x))
    ensures multiset(Insert(rows, x)) == multiset(rows) + multiset{x}
  {
    hide CompareKeys;
    if rows != [] {
      var last := rows[|rows| - 1];
      assert rows == rows[..|rows| - 1] + [last];
      KeysAntisymmetric(last.key, x.key);
      if CompareKeys(last.key, x.key) <= 0 {
        forall i | 0 <= i < |rows| ensures CompareKeys(rows[i].key, x.key) <= 0 {
          if i < |rows| - 1 {
            KeysTransitive(rows[i].key, last.key, x.key);
          }
        }
      } else {
        InsertSorts(rows[..|rows| - 1], x);
        var r := Insert(rows[..|rows| - 1], x);
        forall i | 0 <= i < |r| ensures CompareKeys(r[i].key, last.key) <= 0 {
          assert r[i] in multiset(r);
          assert r[i] == x || r[i] in rows[..|rows| - 1];
        }
      }
    }
  }

  lemma {:induction false} SortSorts<T>(rows: seq<Row<T>>)
    ensures Sorted(Sort(rows))
    ensures multiset(Sort(rows)) == multiset(rows)
  {
    if rows != [] {
      SortSorts(rows[..|rows| - 1]);
      InsertSorts(Sort(rows[..|rows| - 1]), rows[|rows| - 1]);
      MultisetInit(rows);
      hide CompareKeys;
    }
  }

  lemma MultisetInit<T>(xs: seq<T>)
    requires xs != []
    ensures multiset(xs) == multiset(xs[..|xs| - 1]) + multiset{xs[|xs| - 1]}
  {
    assert xs == xs[..|xs| - 1] + [xs[|xs| - 1]];
  }

  lemma {:induction false} WithKeyAppend<T>(a: seq<Row<T>>, b: seq<Row<T>>, key: Key)
    ensures WithKey(a + b, key) == WithKey(a, key) + WithKey(b, key)
  {
    if a == [] {
      assert a + b == b;
    } else {
      WithKeyAppend(a[1..], b, key);
      assert (a + b)[1..] == a[1..] + b;
    }
  }

  lemma {:induction false} InsertIsStable<T>(rows: seq<Row<T>>, x: Row<T>, key: Key)
    ensures WithKey(Insert(rows, x), key) == WithKey(rows + [x], key)
  {
    hide CompareKeys;
    if rows != [] {
      var init, last := rows[..|rows| - 1], rows[|rows| - 1];
      assert rows == init + [last];
      if CompareKeys(last.key, x.key) > 0 {
        InsertIsStable(init, x, key);
        KeysAntisymmetric(last.key, x.key);
        WithKeyAppend(Insert(init, x), [last], key);
        WithKeyAppend(init, [x], key);
        WithKeyAppend(init, [last], key);
        WithKeyAppend(rows, [x], key);
      }
    }
  }

  /** Rows with equal keys keep their order. */
  lemma {:induction false} SortIsStable<T>(rows: seq<Row<T>>, key: Key)
    ensures WithKey(Sort(rows), key) == WithKey(rows, key)
  {
    if rows != [] {
      var init, last := rows[..|rows| - 1], rows[|rows| - 1];
      SortIsStable(init, key);
      InsertIsStable(Sort(init), last, key);
      WithKeyAppend(Sort(init), [last], key);
      WithKeyAppend(init, [last], key);
      assert rows == init + [last];
    }
  }

  function Values<T>(rows: seq<Row<T>>): (r: seq<T>)
    ensures |r| == |rows| && forall i :: 0 <= i < |r| ==> r[i] == rows[i].value
  {
    seq(|rows|, i requires 0 <= i < |rows| => rows[i].value)
  }

  /** What a function makes of the values, in order. */
  function Image<T, U>(rows: seq<Row<T>>, f: T -> U): (r: seq<U>)
    ensures |r| == |rows| && forall i :: 0 <= i < |r| ==> r[i] == f(rows[i].value)
  {
    seq(|rows|, i requires 0 <= i < |rows| => f(rows[i].value))
  }

  lemma ImageAppend<T, U>(a: seq<Row<T>>, b: seq<Row<T>>, f: T -> U)
    ensures Image(a + b, f) == Image(a, f) + Image(b, f)
  {
  }

  lemma {:induction false} InsertKeepsImage<T, U>(rows: seq<Row<T>>, x: Row<T>, f: T -> U)
    ensures multiset(Image(Insert(rows, x), f)) == multiset(Image(rows, f)) + multiset{f(x.value)}
  {
    hide CompareKeys;
    if rows != [] {
      var init, last := rows[..|rows| - 1], rows[|rows| - 1];
      InsertKeepsImage(init, x, f);
      assert rows == init + [last];
      ImageAppend(init, [last], f);
      ImageAppend(Insert(init, x), [last], f);
      ImageAppend(rows, [x], f);
    }
  }

  lemma ImageInit<T, U>(rows: seq<Row<T>>, f: T -> U)
    requires rows != []
    ensures multiset(Image(rows, f)) ==
            multiset(Image(rows[..|rows| - 1], f)) + multiset{f(rows[|rows| - 1].value)}
  {
    var init, last := rows[..|rows| - 1], rows[|rows| - 1];
    assert rows == init + [last];
    ImageAppend(init, [last], f);
    assert Image([last], f) == [f(last.value)];
  }

  /** No value is lost or added, whatever is looked at of each. */
  lemma {:induction false} SortKeepsImage<T, U>(rows: seq<Row<T>>, f: T -> U)
    ensures multiset(Image(Sort(rows), f)) == multiset(Image(rows, f))
  {
    if rows != [] {
      var init, last := rows[..|rows| - 1], rows[|rows| - 1];
      SortKeepsImage(init, f);
      InsertKeepsImage(Sort(init), last, f);
      ImageInit(rows, f);
    }
  }
}
