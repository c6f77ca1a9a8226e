/** The canonical row lists that are hashed for a check-in (hashing/canonical.go): rows
    stably sorted by key, the last of each key kept. */
module CanonicalRows {
  import opened Options
  import opened Keys
  import opened Text
  import opened StableSort

  // ----- the last row of each ID

  ghost predicate IsLast<T>(rows: seq<Row<T>>, id: T -> string, i: nat)
    requires i < |rows|
  {
    forall j :: i < j < |rows| ==> id(rows[j].value) != id(rows[i].value)
  }

  /** Among the first k rows, those no later row replaces. */
  ghost function Kept<T>(rows: seq<Row<T>>, id: T -> string, k: nat): seq<Row<T>>
    requires k <= |rows|
  {
    if k == 0 then []
    else Kept(rows, id, k - 1) + if IsLast(rows, id, k - 1) then [rows[k - 1]] else []
  }

  ghost function Canonical<T>(rows: seq<Row<T>>, id: T -> string): seq<Row<T>> {
    Kept(Sort(rows), id, |Sort(rows)|)
  }

  /** Filters through a map from ID to last position, unless every ID is unique. */
  method KeepLast<T>(rows: seq<Row<T>>, id: T -> string) returns (kept: seq<Row<T>>)
    ensures kept == Kept(rows, id, |rows|)
  {
    AllKept(rows, id, |rows|);
    if |rows| <= 1 {
      return rows;
    }
    var index := LastPositions(rows, id);
    if |index| == |rows| {
      return rows;
    }
    kept := FilterLast(rows, id, index);
  }

  method FilterLast<T>(rows: seq<Row<T>>, id: T -> string, index: map<string, nat>) returns (kept: seq<Row<T>>)
    requires forall i :: 0 <= i < |rows| ==> Located(rows, id, index, i)
    ensures kept == Kept(rows, id, |rows|)
  {
    hide IsLast;
    kept := [];
    for i := 0 to |rows|
      invariant kept == Kept(rows, id, i)
    {
      assert Located(rows, id, index, i);
      if index[id(rows[i].value)] == i {
        kept := kept + [rows[i]];
      }
    }
  }

  /** The index knows the row's ID, and points at the row exactly if it is the last. */
  ghost predicate Located<T>(rows: seq<Row<T>>, id: T -> string, index: map<string, nat>, i: nat)
    requires i < |rows|
  {
    id(rows[i].value) in index && (index[id(rows[i].value)] == i <==> IsLast(rows, id, i))
  }

  ghost predicate DistinctIDs<T>(rows: seq<Row<T>>, id: T -> string, k: nat)
    requires k <= |rows|
  {
    forall i, j :: 0 <= i < j < k ==> id(rows[i].value) != id(rows[j].value)
  }

  /** The last position of each ID among the first k rows. */
  ghost predicate Indexed<T>(rows: seq<Row<T>>, id: T -> string, index: map<string, nat>, k: nat)
    requires k <= |rows|
  {
    && (forall i :: 0 <= i < k ==> id(rows[i].value) in index && i <= index[id(rows[i].value)])
    && (forall n :: n in index ==> index[n] < k && id(rows[index[n]].value) == n)
    && |index| <= k && (|index| == k ==> DistinctIDs(rows, id, k))
  }

  method LastPositions<T>(rows: seq<Row<T>>, id: T -> string) returns (index: map<string, nat>)
    ensures forall i :: 0 <= i < |rows| ==> Located(rows, id, index, i)
    ensures |index| == |rows| ==> DistinctIDs(rows, id, |rows|)
  {
    index := map[];
    for i := 0 to |rows|
      invariant Indexed(rows, id, index, i)
    {
      IndexNext(rows, id, index, i);
      index := index[id(rows[i].value) := i];
    }
    forall i | 0 <= i < |rows| ensures Located(rows, id, index, i) {
      LocatedAt(rows, id, index, i);
    }
  }

  lemma IndexNext<T>(rows: seq<Row<T>>, id: T -> string, index: map<string, nat>, i: nat)
    requires i < |rows| && Indexed(rows, id, index, i)
    ensures Indexed(rows, id, index[id(rows[i].value) := i], i + 1)
  {
    SizeAfter(index, id(rows[i].value), i);
  }

  lemma LocatedAt<T>(rows: seq<Row<T>>, id: T -> string, index: map<string, nat>, i: nat)
    requires i < |rows| && Indexed(rows, id, index, |rows|)
    ensures Located(rows, id, index, i)
  {
  }

  lemma SizeAfter(index: map<string, nat>, n: string, i: nat)
    ensures |index[n := i]| == |index| + if n in index then 0 else 1
  {
    assert index[n := i].Keys == index.Keys + {n};
  }

  /** Rows with distinct IDs are all kept. */
  lemma {:induction false} AllKept<T>(rows: seq<Row<T>>, id: T -> string, k: nat)
    requires k <= |rows|
    ensures DistinctIDs(rows, id, |rows|) ==> Kept(rows, id, k) == rows[..k]
  {
    if k > 0 {
      AllKept(rows, id, k - 1);
    }
  }

  // ----- what the list is

  /** Rows have equal IDs exactly when they have equal keys. */
  ghost predicate Faithful<T>(rows: seq<Row<T>>, id: T -> string) {
    forall i, j :: 0 <= i < |rows| && 0 <= j < |rows| ==>
      (id(rows[i].value) == id(rows[j].value) <==> rows[i].key == rows[j].key)
  }

  function LastOf<T>(rows: seq<Row<T>>, key: Key): Option<Row<T>> {
    if rows == [] then None
    else if rows[|rows| - 1].key == key then Some(rows[|rows| - 1])
    else LastOf(rows[..|rows| - 1], key)
  }

  ghost predicate Ascending<T>(rows: seq<Row<T>>) {
    forall i, j :: 0 <= i < j < |rows| ==> CompareKeys(rows[i].key, rows[j].key) < 0
  }

  lemma {:induction false} LastOfWithKey<T>(rows: seq<Row<T>>, key: Key)
    ensures LastOf(rows, key) ==
            var w := WithKey(rows, key); if w == [] then None else Some(w[|w| - 1])
  {
    if rows != [] {
      var init, last := rows[..|rows| - 1], rows[|rows| - 1];
      LastOfWithKey(init, key);
      WithKeyAppend(init, [last], key);
      assert rows == init + [last];
    }
  }

  lemma SortKeepsLast<T>(rows: seq<Row<T>>, key: Key)
    ensures LastOf(Sort(rows), key) == LastOf(rows, key)
  {
    LastOfWithKey(rows, key);
    LastOfWithKey(Sort(rows), key);
    SortIsStable(rows, key);
  }

  lemma {:induction false} KeptMembers<T>(rows: seq<Row<T>>, id: T -> string, k: nat)
    requires k <= |rows|
    ensures forall r :: r in Kept(rows, id, k) <==> exists i :: 0 <= i < k && rows[i] == r && IsLast(rows, id, i)
  {
    if k > 0 {
      KeptMembers(rows, id, k - 1);
      hide IsLast;
    }
  }

  lemma KeptStands<T>(rows: seq<Row<T>>, id: T -> string, k: nat, r: Row<T>) returns (i: nat)
    requires k <= |rows| && r in Kept(rows, id, k)
    ensures i < k && rows[i] == r && IsLast(rows, id, i)
  {
    KeptMembers(rows, id, k);
    hide Kept, IsLast;
    i :| 0 <= i < k && rows[i] == r && IsLast(rows, id, i);
  }

  lemma {:induction false} LastOfStands<T>(rows: seq<Row<T>>, key: Key) returns (i: int)
    ensures -1 <= i < |rows|
    ensures LastOf(rows, key) == if i < 0 then None else Some(rows[i])
    ensures i >= 0 ==> rows[i].key == key
    ensures forall j :: i < j < |rows| ==> rows[j].key != key
  {
    if rows == [] {
      i := -1;
    } else if rows[|rows| - 1].key == key {
      i := |rows| - 1;
    } else {
      i := LastOfStands(rows[..|rows| - 1], key);
    }
  }

  /** With faithful IDs, what is kept is the last row of each key. */
  lemma {:induction false} KeptIsLast<T>(rows: seq<Row<T>>, id: T -> string, r: Row<T>)
    requires Faithful(rows, id)
    ensures r in Kept(rows, id, |rows|) <==> LastOf(rows, r.key) == Some(r)
  {
    KeptMembers(rows, id, |rows|);
    hide Kept;
    var i := LastOfStands(rows, r.key);
    if i >= 0 {
      assert IsLast(rows, id, i);
    }
    if j :| 0 <= j < |rows| && rows[j] == r && IsLast(rows, id, j) {
      assert i == j;
    }
  }

  lemma {:induction false} KeptAscends<T>(rows: seq<Row<T>>, id: T -> string, k: nat)
    requires Sorted(rows) && Faithful(rows, id) && k <= |rows|
    ensures Ascending(Kept(rows, id, k))
  {
    if k > 0 {
      KeptAscends(rows, id, k - 1);
      var before := Kept(rows, id, k - 1);
      forall i | 0 <= i < |before| && IsLast(rows, id, k - 1)
        ensures CompareKeys(before[i].key, rows[k - 1].key) < 0
      {
        var j := KeptStands(rows, id, k - 1, before[i]);
        KeysAntisymmetric(rows[j].key, rows[k - 1].key);
      }
    }
  }

  lemma SortKeepsFaithful<T>(rows: seq<Row<T>>, id: T -> string)
    requires Faithful(rows, id)
    ensures Faithful(Sort(rows), id) && Sorted(Sort(rows))
  {
    SortSorts(rows);
    hide Sort, Sorted;
    var s := Sort(rows);
    forall i, j | 0 <= i < |s| && 0 <= j < |s|
      ensures id(s[i].value) == id(s[j].value) <==> s[i].key == s[j].key
    {
      assert s[i] in multiset(rows) && s[j] in multiset(rows) by {
        assert s[i] in multiset(s) && s[j] in multiset(s);
      }
    }
  }

  /** Strictly ascending keys, and of each key the last row of the input. */
  lemma CanonicalIsLastPerKey<T>(rows: seq<Row<T>>, id: T -> string)
    requires Faithful(rows, id)
    ensures Ascending(Canonical(rows, id))
    ensures forall r :: r in Canonical(rows, id) <==> LastOf(rows, r.key) == Some(r)
  {
    SortKeepsFaithful(rows, id);
    hide Sort, Faithful;
    KeptAscends(Sort(rows), id, |Sort(rows)|);
    forall r ensures r in Canonical(rows, id) <==> LastOf(rows, r.key) == Some(r) {
      KeptIsLast(Sort(rows), id, r);
      SortKeepsLast(rows, r.key);
    }
  }

  /** The last row of a strictly ascending list is above all others. */
  lemma LastIsTop<T>(a: seq<Row<T>>, r: Row<T>)
    requires Ascending(a) && r in a
    ensures r == a[|a| - 1] || CompareKeys(r.key, a[|a| - 1].key) < 0
  {
    var i :| 0 <= i < |a| && a[i] == r;
  }

  lemma {:induction false} AscendingIsUnique<T>(a: seq<Row<T>>, b: seq<Row<T>>)
    requires Ascending(a) && Ascending(b) && forall r :: r in a <==> r in b
    ensures a == b
    decreases |a|
  {
    BothOrNone(a, b);
    if a != [] {
      LastsSame(a, b);
      WithoutLast(a);
      WithoutLast(b);
      hide Ascending;
      var a', b', x := a[..|a| - 1], b[..|b| - 1], a[|a| - 1];
      assert forall r :: r in a' <==> r in a && r != x;
      assert forall r :: r in b' <==> r in b && r != x;
      AscendingIsUnique(a', b');
      assert a == a' + [x] && b == b' + [x];
    }
  }

  lemma BothOrNone<T>(a: seq<T>, b: seq<T>)
    requires forall r :: r in a <==> r in b
    ensures a == [] <==> b == []
  {
    if a != [] {
      assert a[0] in b;
    }
    if b != [] {
      assert b[0] in a;
    }
  }

  lemma LastsSame<T>(a: seq<Row<T>>, b: seq<Row<T>>)
    requires Ascending(a) && Ascending(b) && a != [] && b != []
    requires forall r :: r in a <==> r in b
    ensures a[|a| - 1] == b[|b| - 1]
  {
    hide Ascending, CompareKeys;
    var x, y := a[|a| - 1], b[|b| - 1];
    assert x in a && y in b;
    LastIsTop(b, x);
    LastIsTop(a, y);
    KeysAntisymmetric(x.key, y.key);
  }

  lemma WithoutLast<T>(a: seq<Row<T>>)
    requires Ascending(a) && a != []
    ensures Ascending(a[..|a| - 1])
    ensures forall r :: r in a[..|a| - 1] <==> r in a && r != a[|a| - 1]
  {
    var x, init := a[|a| - 1], a[..|a| - 1];
    KeysAntisymmetric(x.key, x.key);
    hide CompareKeys;
    assert a == init + [x];
    assert forall i :: 0 <= i < |init| ==> CompareKeys(init[i].key, x.key) < 0;
  }

  ghost predicate SameLast<T>(a: seq<Row<T>>, b: seq<Row<T>>) {
    forall key :: LastOf(a, key) == LastOf(b, key)
  }

  /** Two inputs give the same rows exactly when they agree on the last row of each key:
      how rows of different keys are mixed does not matter. */
  lemma SameRowsIffSameLast<T>(a: seq<Row<T>>, b: seq<Row<T>>, id: T -> string)
    requires Faithful(a, id) && Faithful(b, id)
    ensures Canonical(a, id) == Canonical(b, id) <==> SameLast(a, b)
  {
    CanonicalIsLastPerKey(a, id);
    CanonicalIsLastPerKey(b, id);
    hide Canonical, Faithful, Ascending;
    if Canonical(a, id) == Canonical(b, id) {
      forall key ensures LastOf(a, key) == LastOf(b, key) {
        var i := LastOfStands(a, key);
        var j := LastOfStands(b, key);
        if i >= 0 {
          assert a[i] in Canonical(b, id);
        }
        if j >= 0 {
          assert b[j] in Canonical(a, id);
        }
      }
    }
    if SameLast(a, b) {
      forall r ensures r in Canonical(a, id) <==> r in Canonical(b, id) {
        assert LastOf(a, r.key) == LastOf(b, r.key);
      }
      AscendingIsUnique(Canonical(a, id), Canonical(b, id));
    }
  }

  // ----- lists of values keyed by their own content

  function Keyed<T>(vs: seq<T>, keyOf: T -> Key): (r: seq<Row<T>>)
    ensures |r| == |vs| && forall i :: 0 <= i < |r| ==> r[i] == Row(keyOf(vs[i]), vs[i])
  {
    seq(|vs|, i requires 0 <= i < |vs| => Row(keyOf(vs[i]), vs[i]))
  }

  /** The canonical list: what is hashed. */
  ghost function List<T>(vs: seq<T>, keyOf: T -> Key, id: T -> string): seq<T> {
    Values(Canonical(Keyed(vs, keyOf), id))
  }

  ghost predicate IsLastOfKey<T>(vs: seq<T>, keyOf: T -> Key, i: nat)
    requires i < |vs|
  {
    forall j :: i < j < |vs| ==> keyOf(vs[j]) != keyOf(vs[i])
  }

  /** Values have equal IDs exactly when they have equal keys. */
  ghost predicate NoClash<T>(vs: seq<T>, keyOf: T -> Key, id: T -> string) {
    forall i, j :: 0 <= i < |vs| && 0 <= j < |vs| ==> (id(vs[i]) == id(vs[j]) <==> keyOf(vs[i]) == keyOf(vs[j]))
  }

  /** Rows of the canonical list are keyed by their values. */
  lemma CanonicalIsKeyed<T>(vs: seq<T>, keyOf: T -> Key, id: T -> string)
    ensures forall r :: r in Canonical(Keyed(vs, keyOf), id) ==> r.key == keyOf(r.value) && r.value in vs
  {
    var rows := Keyed(vs, keyOf);
    SortSorts(rows);
    hide IsLast;
    forall r | r in Canonical(rows, id) ensures r.key == keyOf(r.value) && r.value in vs {
      var j := KeptStands(Sort(rows), id, |Sort(rows)|, r);
      assert Sort(rows)[j] in multiset(Sort(rows));
      assert r in multiset(rows);
    }
  }

  lemma LastOfKeyed<T>(vs: seq<T>, keyOf: T -> Key, key: Key) returns (i: int)
    ensures -1 <= i < |vs|
    ensures LastOf(Keyed(vs, keyOf), key) == if i < 0 then None else Some(Row(key, vs[i]))
    ensures i >= 0 ==> keyOf(vs[i]) == key && IsLastOfKey(vs, keyOf, i)
    ensures i < 0 ==> forall j :: 0 <= j < |vs| ==> keyOf(vs[j]) != key
    ensures forall j :: 0 <= j < |vs| && keyOf(vs[j]) == key && IsLastOfKey(vs, keyOf, j) ==> j == i
  {
    var rows := Keyed(vs, keyOf);
    i := LastOfStands(rows, key);
    assert forall j :: 0 <= j < |vs| ==> rows[j].key == keyOf(vs[j]);
    forall j | 0 <= j < i && keyOf(vs[j]) == key ensures !IsLastOfKey(vs, keyOf, j) {
      LaterIsLast(vs, keyOf, j, i);
    }
  }

  /** Without clashes the list ascends strictly by key and holds the last value of each
      key, nothing else. */
  lemma ListIsLastPerKey<T(!new)>(vs: seq<T>, keyOf: T -> Key, id: T -> string)
    requires NoClash(vs, keyOf, id)
    ensures var r := List(vs, keyOf, id);
            && (forall i, j :: 0 <= i < j < |r| ==> CompareKeys(keyOf(r[i]), keyOf(r[j])) < 0)
            && (forall v :: v in r <==> exists i :: 0 <= i < |vs| && vs[i] == v && IsLastOfKey(vs, keyOf, i))
  {
    var rows := Keyed(vs, keyOf);
    var c := Canonical(rows, id);
    CanonicalIsLastPerKey(rows, id);
    CanonicalIsKeyed(vs, keyOf, id);
    hide Canonical, NoClash, Keyed, IsLastOfKey;
    forall v ensures v in Values(c) <==> exists i :: 0 <= i < |vs| && vs[i] == v && IsLastOfKey(vs, keyOf, i) {
      var i := LastOfKeyed(vs, keyOf, keyOf(v));
      if v in Values(c) {
        var k :| 0 <= k < |c| && c[k].value == v;
        assert c[k] in c;
      }
      if j :| 0 <= j < |vs| && vs[j] == v && IsLastOfKey(vs, keyOf, j) {
        var k :| 0 <= k < |c| && c[k] == Row(keyOf(v), v);
        assert Values(c)[k] == v;
      }
    }
    forall i | 0 <= i < |c| ensures c[i].key == keyOf(c[i].value) {
      assert c[i] in c;
    }
  }

  lemma LaterIsLast<T>(vs: seq<T>, keyOf: T -> Key, i: nat, j: nat)
    requires i < j < |vs| && keyOf(vs[i]) == keyOf(vs[j])
    ensures !IsLastOfKey(vs, keyOf, i)
  {
  }

  /** The last value of each key is the same in both. */
  ghost predicate SameLastValues<T>(a: seq<T>, b: seq<T>, keyOf: T -> Key) {
    SameLast(Keyed(a, keyOf), Keyed(b, keyOf))
  }

  /** Two inputs give the same list exactly when they agree on the last value of each key. */
  lemma {:induction false} SameListIffSameLast<T>(a: seq<T>, b: seq<T>, keyOf: T -> Key, id: T -> string)
    requires NoClash(a, keyOf, id) && NoClash(b, keyOf, id)
    ensures List(a, keyOf, id) == List(b, keyOf, id) <==> SameLastValues(a, b, keyOf)
  {
    var p, q := Canonical(Keyed(a, keyOf), id), Canonical(Keyed(b, keyOf), id);
    SameRowsIffSameLast(Keyed(a, keyOf), Keyed(b, keyOf), id);
    CanonicalIsKeyed(a, keyOf, id);
    CanonicalIsKeyed(b, keyOf, id);
    hide Canonical;
    if List(a, keyOf, id) == List(b, keyOf, id) {
      assert Values(p) == Values(q);
      assert |p| == |Values(p)| && |q| == |Values(q)|;
      forall i | 0 <= i < |p| ensures p[i] == q[i] {
        assert p[i] in p && q[i] in q;
        assert Values(p)[i] == Values(q)[i];
      }
      assert p == q;
    }
  }

  /** Inputs that list the values of each key in the same order give the same list. */
  lemma ReorderingKeepsList<T>(a: seq<T>, b: seq<T>, keyOf: T -> Key, id: T -> string)
    requires NoClash(a, keyOf, id) && NoClash(b, keyOf, id)
    requires forall key :: WithKey(Keyed(a, keyOf), key) == WithKey(Keyed(b, keyOf), key)
    ensures List(a, keyOf, id) == List(b, keyOf, id)
  {
    hide List, WithKey;
    forall key ensures LastOf(Keyed(a, keyOf), key) == LastOf(Keyed(b, keyOf), key) {
      LastOfWithKey(Keyed(a, keyOf), key);
      LastOfWithKey(Keyed(b, keyOf), key);
    }
    SameListIffSameLast(a, b, keyOf, id);
  }

  /** If the last value of every key is in the list, no IDs clash: a value whose ID a
      value of another key has loses its place to it. */
  lemma {:induction false} CompleteListHasNoClash<T(!new)>(vs: seq<T>, keyOf: T -> Key, id: T -> string)
    requires forall v, w :: keyOf(v) == keyOf(w) ==> id(v) == id(w)
    requires forall i :: 0 <= i < |vs| && IsLastOfKey(vs, keyOf, i) ==> vs[i] in List(vs, keyOf, id)
    ensures NoClash(vs, keyOf, id)
  {
    hide Canonical, Keyed, IsLastOfKey;
    forall i, j | 0 <= i < |vs| && 0 <= j < |vs| && id(vs[i]) == id(vs[j])
      ensures keyOf(vs[i]) == keyOf(vs[j])
    {
      var k := LastOfKeyed(vs, keyOf, keyOf(vs[i]));
      var l := LastOfKeyed(vs, keyOf, keyOf(vs[j]));
      ListHasOnePerID(vs, keyOf, id, vs[k], vs[l]);
    }
  }

  lemma ListHasOnePerID<T>(vs: seq<T>, keyOf: T -> Key, id: T -> string, v: T, w: T)
    requires v in List(vs, keyOf, id) && w in List(vs, keyOf, id) && id(v) == id(w)
    ensures v == w
  {
    hide Keyed, Sort, IsLast;
    var s := Sort(Keyed(vs, keyOf));
    var c := Canonical(Keyed(vs, keyOf), id);
    var i :| 0 <= i < |c| && c[i].value == v;
    var j :| 0 <= j < |c| && c[j].value == w;
    assert c[i] in c && c[j] in c;
    var k := KeptStands(s, id, |s|, c[i]);
    var l := KeptStands(s, id, |s|, c[j]);
    LastIsOneOfID(s, id, k, l);
  }

  lemma LastIsOneOfID<T>(rows: seq<Row<T>>, id: T -> string, i: nat, j: nat)
    requires i < |rows| && j < |rows| && IsLast(rows, id, i) && IsLast(rows, id, j)
    requires id(rows[i].value) == id(rows[j].value)
    ensures i == j
  {
  }

  // ----- sorted text

  function StringRows(ss: seq<string>): (r: seq<Row<string>>)
    ensures |r| == |ss| && forall i :: 0 <= i < |r| ==> r[i] == Row([Codes(ss[i])], ss[i])
  {
    seq(|ss|, i requires 0 <= i < |ss| => Row([Codes(ss[i])], ss[i]))
  }

  /** sort.Strings. */
  function SortedStrings(ss: seq<string>): (r: seq<string>)
    ensures |r| == |Sort(StringRows(ss))|
  {
    Values(Sort(StringRows(ss)))
  }

  function Itself(s: string): string { s }

  lemma SortedStringsSort(ss: seq<string>)
    ensures multiset(SortedStrings(ss)) == multiset(ss)
    ensures InOrder(SortedStrings(ss))
  {
    var rows, s := StringRows(ss), Sort(StringRows(ss));
    SortSorts(rows);
    SortKeepsImage(rows, Itself);
    hide Sort, CompareKeys;
    assert Image(rows, Itself) == ss && Image(s, Itself) == SortedStrings(ss);
    forall i, j | 0 <= i < j < |s| ensures CompareStrings(s[i].value, s[j].value) <= 0 {
      assert s[i] in multiset(s) && s[j] in multiset(s);
      assert s[i] in rows && s[j] in rows;
      OneElement(Codes(s[i].value), Codes(s[j].value));
      assert CompareKeys(s[i].key, s[j].key) <= 0;
    }
  }

  lemma OneElement(a: seq<int>, b: seq<int>)
    ensures CompareKeys([a], [b]) == CompareSeqs(a, b)
  {
    SeqsAntisymmetric(a, b);
    CompareKeysHead(a, b, [], []);
    assert [a] + [] == [a] && [b] + [] == [b];
  }

  ghost predicate InOrder(ss: seq<string>) {
    forall i, j :: 0 <= i < j < |ss| ==> CompareStrings(ss[i], ss[j]) <= 0
  }

  lemma LastIsGreatest(ss: seq<string>, x: string)
    requires InOrder(ss) && x in multiset(ss)
    ensures CompareStrings(x, ss[|ss| - 1]) <= 0
  {
    hide CompareStrings;
    StringsReflexive(x);
    assert x in ss;
    var i :| 0 <= i < |ss| && ss[i] == x;
  }

  lemma {:induction false} SortedIsUnique(a: seq<string>, b: seq<string>)
    requires multiset(a) == multiset(b) && InOrder(a) && InOrder(b)
    ensures a == b
    decreases |a|
  {
    SameSize(a, b);
    if a != [] {
      LastsAgree(a, b);
      assert InOrder(a[..|a| - 1]) && InOrder(b[..|b| - 1]);
      hide InOrder;
      MultisetInit(a);
      MultisetInit(b);
      CancelOne(multiset(a[..|a| - 1]), multiset(b[..|b| - 1]), a[|a| - 1]);
      SortedIsUnique(a[..|a| - 1], b[..|b| - 1]);
      assert a == a[..|a| - 1] + [a[|a| - 1]] && b == b[..|b| - 1] + [a[|a| - 1]];
    }
  }

  lemma SameSize(a: seq<string>, b: seq<string>)
    requires multiset(a) == multiset(b)
    ensures |a| == |b|
  {
    assert |a| == |multiset(a)| && |b| == |multiset(b)|;
  }

  lemma LastsAgree(a: seq<string>, b: seq<string>)
    requires multiset(a) == multiset(b) && InOrder(a) && InOrder(b) && a != [] && b != []
    ensures a[|a| - 1] == b[|b| - 1]
  {
    hide InOrder, CompareStrings;
    var x, y := a[|a| - 1], b[|b| - 1];
    assert x in multiset(a) && y in multiset(b);
    LastIsGreatest(b, x);
    LastIsGreatest(a, y);
    StringsAntisymmetric(x, y);
  }

  lemma CancelOne(a: multiset<string>, b: multiset<string>, x: string)
    requires a + multiset{x} == b + multiset{x}
    ensures a == b
  {
    assert a == a + multiset{x} - multiset{x};
    assert b == b + multiset{x} - multiset{x};
  }

  lemma StringsAntisymmetric(x: string, y: string)
    requires CompareStrings(x, y) <= 0 && CompareStrings(y, x) <= 0
    ensures x == y
  {
    SeqsAntisymmetric(Codes(x), Codes(y));
    CodesInjective(x, y);
  }

  /** The order of a list does not matter once it is sorted. */
  lemma SortedStringsForgetOrder(a: seq<string>, b: seq<string>)
    requires multiset(a) == multiset(b)
    ensures SortedStrings(a) == SortedStrings(b)
  {
    SortedStringsSort(a);
    SortedStringsSort(b);
    hide SortedStrings;
    SortedIsUnique(SortedStrings(a), SortedStrings(b));
  }
}
