/** One entry per name: the first entry of the name that is better than plain, else the
    first. The merged Windows list and the combined package list are built this way. */
module FirstOrBetter {

  /** The names in order of first appearance. */
  function Names<T>(xs: seq<T>, key: T -> string): seq<string> {
    if xs == [] then []
    else
      var before, x := Names(xs[..|xs| - 1], key), xs[|xs| - 1];
      if key(x) in before then before else before + [key(x)]
  }

  function Of<T>(xs: seq<T>, key: T -> string, name: string): seq<T> {
    if xs == [] then []
    else Of(xs[..|xs| - 1], key, name) + if key(xs[|xs| - 1]) == name then [xs[|xs| - 1]] else []
  }

  /** The first better entry, else the first. */
  function Best<T>(xs: seq<T>, better: T -> bool): T
    requires xs != []
  {
    if |xs| == 1 then xs[0]
    else
      var b := Best(xs[..|xs| - 1], better);
      if better(xs[|xs| - 1]) && !better(b) then xs[|xs| - 1] else b
  }

  lemma {:induction false} NamesHaveEntries<T>(xs: seq<T>, key: T -> string)
    ensures forall n :: n in Names(xs, key) <==> Of(xs, key, n) != []
    ensures forall i :: 0 <= i < |xs| ==> key(xs[i]) in Names(xs, key)
    ensures forall i, j :: 0 <= i < j < |Names(xs, key)| ==> Names(xs, key)[i] != Names(xs, key)[j]
  {
    if xs != [] {
      NamesHaveEntries(xs[..|xs| - 1], key);
    }
  }

  /** xs[p] is the first better entry of its name, or the first entry if none is better. */
  ghost predicate FirstBetter<T>(xs: seq<T>, key: T -> string, better: T -> bool, p: nat)
    requires p < |xs|
  {
    && (forall q :: 0 <= q < p && key(xs[q]) == key(xs[p]) ==> !better(xs[q]))
    && (better(xs[p]) || forall q :: 0 <= q < |xs| && key(xs[q]) == key(xs[p]) ==> p <= q && !better(xs[q]))
  }

  lemma {:induction false} BestStands<T>(xs: seq<T>, key: T -> string, better: T -> bool, name: string)
    returns (p: nat)
    requires Of(xs, key, name) != []
    ensures p < |xs| && key(xs[p]) == name && xs[p] == Best(Of(xs, key, name), better)
    ensures FirstBetter(xs, key, better, p)
  {
    var init, x := xs[..|xs| - 1], xs[|xs| - 1];
    var before := Of(init, key, name);
    if before == [] {
      p := |xs| - 1;
      NoEntries(init, key, name);
      assert Of(xs, key, name) == [x];
    } else {
      p := BestStands(init, key, better, name);
      if key(x) == name {
        assert Of(xs, key, name) == before + [x];
        assert (before + [x])[..|before|] == before;
        if better(x) && !better(xs[p]) {
          p := |xs| - 1;
        }
      } else {
        assert Of(xs, key, name) == before + [] == before;
      }
    }
  }

  lemma {:induction false} NoEntries<T>(xs: seq<T>, key: T -> string, name: string)
    requires Of(xs, key, name) == []
    ensures forall q :: 0 <= q < |xs| ==> key(xs[q]) != name
  {
    if xs != [] {
      NoEntries(xs[..|xs| - 1], key, name);
    }
  }

  /** The best entry of each name, by first appearance of the names. */
  function Picked<T>(xs: seq<T>, key: T -> string, better: T -> bool): (r: seq<T>)
    ensures |r| == |Names(xs, key)|
  {
    NamesHaveEntries(xs, key);
    seq(|Names(xs, key)|, k requires 0 <= k < |Names(xs, key)| =>
      assert Names(xs, key)[k] in Names(xs, key);
      Best(Of(xs, key, Names(xs, key)[k]), better))
  }

  /** e stands in xs as the first better entry of its name, or else the first. */
  ghost predicate IsFirstBetter<T>(xs: seq<T>, key: T -> string, better: T -> bool, e: T) {
    exists p :: 0 <= p < |xs| && xs[p] == e && FirstBetter(xs, key, better, p)
  }

  /** Each name once, with the first better entry of that name, or else the first. */
  lemma PickedIsBest<T(!new)>(xs: seq<T>, key: T -> string, better: T -> bool)
    ensures var r := Picked(xs, key, better);
            && (forall k :: 0 <= k < |r| ==> IsFirstBetter(xs, key, better, r[k]))
            && (forall j, k :: 0 <= j < k < |r| ==> key(r[j]) != key(r[k]))
            && (forall x :: x in xs ==> exists k :: 0 <= k < |r| && key(r[k]) == key(x))
  {
    var r, names := Picked(xs, key, better), Names(xs, key);
    hide Names, FirstBetter, Picked;
    forall k | 0 <= k < |r| ensures key(r[k]) == names[k] && IsFirstBetter(xs, key, better, r[k])
    {
      var p := PickedStands(xs, key, better, k);
    }
    EachNameOnce(xs, key, r);
  }

  lemma FirstIsMember<T>(xs: seq<T>, key: T -> string, better: T -> bool, e: T)
    requires IsFirstBetter(xs, key, better, e)
    ensures e in xs
  {
  }

  lemma PickedStands<T>(xs: seq<T>, key: T -> string, better: T -> bool, k: nat) returns (p: nat)
    requires k < |Names(xs, key)|
    ensures p < |xs| && xs[p] == Picked(xs, key, better)[k] && key(xs[p]) == Names(xs, key)[k]
    ensures FirstBetter(xs, key, better, p)
  {
    NamesHaveEntries(xs, key);
    hide FirstBetter, Of, Names;
    assert Names(xs, key)[k] in Names(xs, key);
    p := BestStands(xs, key, better, Names(xs, key)[k]);
  }

  lemma EachNameOnce<T(!new)>(xs: seq<T>, key: T -> string, r: seq<T>)
    requires |r| == |Names(xs, key)| && forall k :: 0 <= k < |r| ==> key(r[k]) == Names(xs, key)[k]
    ensures forall j, k :: 0 <= j < k < |r| ==> key(r[j]) != key(r[k])
    ensures forall x :: x in xs ==> exists k :: 0 <= k < |r| && key(r[k]) == key(x)
  {
    NamesHaveEntries(xs, key);
    hide Names;
    forall x | x in xs ensures exists k :: 0 <= k < |r| && key(r[k]) == key(x) {
      assert key(x) in Names(xs, key);
    }
  }

  /** A new name adds its entry; a known one replaces its entry if it is better. */
  lemma {:induction false} PickedAppend<T>(xs: seq<T>, x: T, key: T -> string, better: T -> bool)
    ensures Names(xs + [x], key) ==
            if key(x) in Names(xs, key) then Names(xs, key) else Names(xs, key) + [key(x)]
    ensures key(x) !in Names(xs, key) ==> Picked(xs + [x], key, better) == Picked(xs, key, better) + [x]
    ensures forall k :: 0 <= k < |Names(xs, key)| && Names(xs, key)[k] == key(x) ==>
              var before := Picked(xs, key, better);
              Picked(xs + [x], key, better) ==
              if better(x) && !better(before[k]) then before[k := x] else before
  {
    var ys, before, names := xs + [x], Picked(xs, key, better), Names(xs, key);
    var after := Picked(ys, key, better);
    assert ys[..|xs|] == xs;
    NamesHaveEntries(xs, key);
    forall k | 0 <= k < |names|
      ensures after[k] == if names[k] == key(x) && better(x) && !better(before[k]) then x else before[k]
    {
      assert names[k] in names;
      var group := Of(xs, key, names[k]);
      assert before[k] == Best(group, better) && Names(ys, key)[k] == names[k];
      if names[k] == key(x) {
        assert (group + [x])[..|group|] == group;
      } else {
        assert group + [] == group;
      }
    }
    if key(x) !in names {
      assert Of(xs, key, key(x)) == [];
      assert after[|names|] == x;
    }
  }

  // ----- where each name's entry is

  /** The index maps each name to the position of its entry. */
  ghost predicate Indexed(index: map<string, nat>, offset: nat, names: seq<string>) {
    && (forall n :: n in index <==> n in names)
    && (forall n :: n in index ==> offset <= index[n] < offset + |names| && names[index[n] - offset] == n)
  }

  lemma IndexedAt(index: map<string, nat>, offset: nat, names: seq<string>, n: string)
    requires Indexed(index, offset, names)
    ensures n in index <==> n in names
    ensures n in index ==> offset <= index[n] < offset + |names| && names[index[n] - offset] == n
  {
  }

  lemma IndexAppend(index: map<string, nat>, offset: nat, names: seq<string>, n: string)
    requires Indexed(index, offset, names) && n !in names
    ensures Indexed(index[n := offset + |names|], offset, names + [n])
  {
  }

  lemma NothingPicked<T>(key: T -> string, better: T -> bool)
    ensures Names([], key) == [] && Picked([], key, better) == []
    ensures forall offset: nat :: Indexed(map[], offset, [])
  {
  }
}
