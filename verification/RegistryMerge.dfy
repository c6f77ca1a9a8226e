/** The merge of registry packages with winget rows (packages/windows.go,
    mergeRegistryAndWinget): a greedy matching by rank, the registry entries enriched
    from it, and one appended entry for each winget name that is left. */
module RegistryMerge {
  import opened Options
  import opened Text
  import opened DottedVersions
  import opened FirstOrBetter

  datatype Package = Package(name: string, currentVersion: string, availableVersion: string,
                             needsUpdate: bool, sourceRepository: string, wingetID: string,
                             wingetPinned: bool, wingetStoreApp: bool)

  datatype WingetRow = WingetRow(pkg: Package, id: string, truncated: bool)

  datatype Origin = Origin(registry: bool, wingetID: string)

  function NormalName(name: string): string { ToLower(TrimSpace(name)) }

  /** Three for an equal name and version, two for an equal name, one for a truncated
      name that begins the registry's, with an equal version. */
  function MatchRank(reg: Package, row: WingetRow): (rank: nat)
    ensures rank <= 3
    ensures rank >= 2 <==> NormalName(row.pkg.name) == NormalName(reg.name)
  {
    var name, rowName := NormalName(reg.name), NormalName(row.pkg.name);
    var same := VersionsEqual(reg.currentVersion, row.pkg.currentVersion);
    if rowName == name then (if same then 3 else 2)
    else if row.truncated && rowName != "" && HasPrefix(name, rowName) && same then 1
    else 0
  }

  // ----- the matching

  /** Each registry entry has at most one row, each row at most one entry, and every
      matched pair has a positive rank; -1 stands for no row. */
  ghost predicate Matching(reg: seq<Package>, rows: seq<WingetRow>, m: seq<int>) {
    && |m| == |reg|
    && (forall i :: 0 <= i < |m| ==> -1 <= m[i] < |rows|)
    && (forall i :: 0 <= i < |m| && m[i] >= 0 ==> MatchRank(reg[i], rows[m[i]]) > 0)
    && (forall i, k :: 0 <= i < k < |m| && m[i] >= 0 ==> m[i] != m[k])
  }

  ghost predicate Taken(m: seq<int>, j: int) { exists i :: 0 <= i < |m| && m[i] == j }

  /** The pair (i, j) goes before (k, l): a higher rank, then registry and row order. */
  predicate GoesBefore(reg: seq<Package>, rows: seq<WingetRow>, i: int, j: int, k: int, l: int)
    requires 0 <= i < |reg| && 0 <= k < |reg| && 0 <= j < |rows| && 0 <= l < |rows|
  {
    var r, s := MatchRank(reg[i], rows[j]), MatchRank(reg[k], rows[l]);
    r > s || (r == s && (i < k || (i == k && j < l)))
  }

  /** A pair is matched, or one of its sides has a partner that goes before. */
  ghost predicate SettledAt(reg: seq<Package>, rows: seq<WingetRow>, m: seq<int>, i: int, j: int)
    requires |m| == |reg| && 0 <= i < |reg| && 0 <= j < |rows|
  {
    || MatchRank(reg[i], rows[j]) == 0
    || m[i] == j
    || (0 <= m[i] < |rows| && GoesBefore(reg, rows, i, m[i], i, j))
    || (exists k :: 0 <= k < |m| && m[k] == j && GoesBefore(reg, rows, k, j, i, j))
  }

  /** No pair could claim both its sides: maximal, stable, ties by position. */
  ghost predicate Settled(reg: seq<Package>, rows: seq<WingetRow>, m: seq<int>)
    requires |m| == |reg|
  {
    forall i, j :: 0 <= i < |reg| && 0 <= j < |rows| ==> SettledAt(reg, rows, m, i, j)
  }

  /** A settled pair that is not matched has a matched rival that goes before. */
  lemma {:induction false} Rival(reg: seq<Package>, rows: seq<WingetRow>, n: seq<int>, i: nat,
                                 j: nat) returns (k: nat)
    requires Matching(reg, rows, n) && Settled(reg, rows, n)
    requires i < |reg| && j < |rows| && MatchRank(reg[i], rows[j]) > 0 && n[i] != j
    ensures k < |reg| && n[k] >= 0 && (k == i || n[k] == j) && GoesBefore(reg, rows, k, n[k], i, j)
  {
    hide MatchRank, GoesBefore;
    assert SettledAt(reg, rows, n, i, j);
    if 0 <= n[i] && GoesBefore(reg, rows, i, n[i], i, j) {
      k := i;
    } else {
      k :| 0 <= k < |n| && n[k] == j && GoesBefore(reg, rows, k, j, i, j);
    }
  }

  /** Two settled matchings agree on every pair, in the order of the pairs. */
  lemma {:induction false} SettledAgree(reg: seq<Package>, rows: seq<WingetRow>, m: seq<int>, n: seq<int>,
                                        i: nat, j: nat)
    requires Matching(reg, rows, m) && Settled(reg, rows, m)
    requires Matching(reg, rows, n) && Settled(reg, rows, n)
    requires i < |reg| && j < |rows| && m[i] == j
    ensures n[i] == j
    decreases 3 - MatchRank(reg[i], rows[j]), i, j
  {
    hide MatchRank, Settled;
    if n[i] != j {
      var k := Rival(reg, rows, n, i, j);
      SettledAgree(reg, rows, n, m, k, n[k]);
    }
  }

  /** There is one settled matching only: rank, then position, decide everything. */
  lemma {:induction false} SettledIsUnique(reg: seq<Package>, rows: seq<WingetRow>, m: seq<int>, n: seq<int>)
    requires Matching(reg, rows, m) && Settled(reg, rows, m)
    requires Matching(reg, rows, n) && Settled(reg, rows, n)
    ensures m == n
  {
    hide MatchRank, Settled;
    forall i | 0 <= i < |m| ensures m[i] == n[i] {
      if m[i] >= 0 {
        SettledAgree(reg, rows, m, n, i, m[i]);
      } else if n[i] >= 0 {
        SettledAgree(reg, rows, n, m, i, n[i]);
      }
    }
  }

  /** No pair of positive rank has both sides free, and none outranks both partners. */
  lemma {:induction false} SettledIsMaximalAndStable(reg: seq<Package>, rows: seq<WingetRow>, m: seq<int>,
          i: nat, j: nat)
    requires Matching(reg, rows, m) && Settled(reg, rows, m)
    requires i < |reg| && j < |rows| && MatchRank(reg[i], rows[j]) > 0
    ensures m[i] >= 0 || Taken(m, j)
    ensures (m[i] >= 0 && MatchRank(reg[i], rows[m[i]]) >= MatchRank(reg[i], rows[j])) ||
            exists k :: 0 <= k < |m| && m[k] == j && MatchRank(reg[k], rows[j]) >= MatchRank(reg[i], rows[j])
  {
    assert SettledAt(reg, rows, m, i, j);
  }

  // ----- what the matching means for names and versions

  /** Equal names, letter case and spaces around them aside. */
  predicate SameName(reg: Package, row: WingetRow) {
    ToLower(TrimSpace(reg.name)) == ToLower(TrimSpace(row.pkg.name))
  }

  predicate SameVersion(reg: Package, row: WingetRow) {
    VersionsEqual(reg.currentVersion, row.pkg.currentVersion)
  }

  /** The row's name was cut off, and its version is the entry's. */
  predicate CutOffName(reg: Package, row: WingetRow) {
    !SameName(reg, row) && row.truncated && TrimSpace(row.pkg.name) != "" &&
    ToLower(TrimSpace(row.pkg.name)) <= ToLower(TrimSpace(reg.name)) && SameVersion(reg, row)
  }

  lemma RankMeans(reg: Package, row: WingetRow)
    ensures MatchRank(reg, row) == 3 <==> SameName(reg, row) && SameVersion(reg, row)
    ensures MatchRank(reg, row) == 2 <==> SameName(reg, row) && !SameVersion(reg, row)
    ensures MatchRank(reg, row) == 1 <==> CutOffName(reg, row)
  {
    hide VersionsEqual, TrimSpace;
    assert |ToLower(TrimSpace(row.pkg.name))| == |TrimSpace(row.pkg.name)|;
  }

  /** Entry k with row l wins over entry i with row j: name and version count more than a
      name alone, a name more than a name cut off, and then the earlier entry and row wins. */
  predicate WinsOver(reg: seq<Package>, rows: seq<WingetRow>, k: int, l: int, i: int, j: int)
    requires 0 <= i < |reg| && 0 <= k < |reg| && 0 <= j < |rows| && 0 <= l < |rows|
  {
    var earlier := k < i || (k == i && l < j);
    if SameName(reg[i], rows[j]) && SameVersion(reg[i], rows[j]) then
      SameName(reg[k], rows[l]) && SameVersion(reg[k], rows[l]) && earlier
    else if SameName(reg[i], rows[j]) then
      SameName(reg[k], rows[l]) && (SameVersion(reg[k], rows[l]) || earlier)
    else SameName(reg[k], rows[l]) || (CutOffName(reg[k], rows[l]) && earlier)
  }

  /** A pair that fits is matched, or one of its sides went to a pair that wins over it. */
  ghost predicate TakenByWinner(reg: seq<Package>, rows: seq<WingetRow>, m: seq<int>, i: int, j: int)
    requires |m| == |reg| && 0 <= i < |reg| && 0 <= j < |rows|
  {
    || m[i] == j
    || (0 <= m[i] < |rows| && WinsOver(reg, rows, i, m[i], i, j))
    || (exists k :: 0 <= k < |m| && m[k] == j && WinsOver(reg, rows, k, j, i, j))
  }

  /** Exactly the pairs that fit can be matched, and the winner gets each side. */
  ghost predicate MatchedByName(reg: seq<Package>, rows: seq<WingetRow>, m: seq<int>) {
    && |m| == |reg|
    && (forall i :: 0 <= i < |m| && 0 <= m[i] < |rows| ==>
          SameName(reg[i], rows[m[i]]) || CutOffName(reg[i], rows[m[i]]))
    && (forall i, j :: 0 <= i < |reg| && 0 <= j < |rows| &&
                       (SameName(reg[i], rows[j]) || CutOffName(reg[i], rows[j])) ==>
          TakenByWinner(reg, rows, m, i, j))
  }

  /** What the ranks stand for. */
  lemma {:induction false} SettledMatchesByName(reg: seq<Package>, rows: seq<WingetRow>, m: seq<int>)
    requires Matching(reg, rows, m) && Settled(reg, rows, m)
    ensures MatchedByName(reg, rows, m)
  {
    hide MatchRank, SameName, SameVersion, CutOffName;
    forall i | 0 <= i < |m| && 0 <= m[i] < |rows|
      ensures SameName(reg[i], rows[m[i]]) || CutOffName(reg[i], rows[m[i]])
    {
      RankMeans(reg[i], rows[m[i]]);
    }
    forall i, j | 0 <= i < |reg| && 0 <= j < |rows| && (SameName(reg[i], rows[j]) || CutOffName(reg[i], rows[j]))
      ensures TakenByWinner(reg, rows, m, i, j)
    {
      RankMeans(reg[i], rows[j]);
      assert SettledAt(reg, rows, m, i, j);
      if k :| 0 <= k < |m| && m[k] == j && GoesBefore(reg, rows, k, j, i, j) {
        BeforeWins(reg, rows, k, j, i, j);
      } else if m[i] != j {
        BeforeWins(reg, rows, i, m[i], i, j);
      }
    }
  }

  lemma BeforeWins(reg: seq<Package>, rows: seq<WingetRow>, k: int, l: int, i: int, j: int)
    requires 0 <= i < |reg| && 0 <= k < |reg| && 0 <= j < |rows| && 0 <= l < |rows|
    requires GoesBefore(reg, rows, k, l, i, j) && MatchRank(reg[i], rows[j]) > 0
    ensures WinsOver(reg, rows, k, l, i, j)
  {
    RankMeans(reg[i], rows[j]);
    RankMeans(reg[k], rows[l]);
    hide MatchRank, SameName, SameVersion, CutOffName;
  }

  // ----- finding it

  /** The pairs the passes have dealt with when they reach entry i in the pass of a rank. */
  predicate Done(reg: seq<Package>, rows: seq<WingetRow>, rank: nat, i: nat, k: int, l: int)
    requires 0 <= k < |reg| && 0 <= l < |rows|
  {
    MatchRank(reg[k], rows[l]) > rank || (MatchRank(reg[k], rows[l]) == rank && k < i)
  }

  /** Matched pairs are among the pairs dealt with, and those are settled. */
  ghost predicate Before(reg: seq<Package>, rows: seq<WingetRow>, m: seq<int>, rank: nat, i: nat)
    requires |m| == |reg|
  {
    && (forall k :: 0 <= k < |m| && 0 <= m[k] < |rows| ==> Done(reg, rows, rank, i, k, m[k]))
    && (forall k, l :: 0 <= k < |reg| && 0 <= l < |rows| && Done(reg, rows, rank, i, k, l) ==>
          SettledAt(reg, rows, m, k, l))
  }

  ghost predicate UsedAgrees(m: seq<int>, used: seq<bool>) {
    forall j :: 0 <= j < |used| ==> (used[j] <==> Taken(m, j))
  }

  /** The first free row of a rank. */
  method FindRow(reg: Package, rows: seq<WingetRow>, used: array<bool>, rank: nat) returns (j: int)
    requires used.Length == |rows|
    ensures -1 <= j < |rows| && (j >= 0 ==> !used[j] && MatchRank(reg, rows[j]) == rank)
    ensures forall l :: 0 <= l < (if j < 0 then |rows| else j) ==> used[l] || MatchRank(reg, rows[l]) != rank
  {
    hide MatchRank, NormalName, VersionsEqual, HasPrefix;
    for k := 0 to |rows|
      invariant forall l :: 0 <= l < k ==> used[l] || MatchRank(reg, rows[l]) != rank
    {
      if !used[k] && MatchRank(reg, rows[k]) == rank {
        return k;
      }
    }
    return -1;
  }

  /** What the row found for entry i says: none when it is matched, else the first free
      one of the rank. */
  ghost predicate Found(reg: seq<Package>, rows: seq<WingetRow>, m: seq<int>, used: seq<bool>, rank: nat,
                        i: nat, j: int)
    requires |m| == |reg| && |used| == |rows| && i < |reg|
  {
    && -1 <= j < |rows|
    && (m[i] >= 0 ==> j < 0)
    && (j >= 0 ==> !used[j] && MatchRank(reg[i], rows[j]) == rank)
    && (m[i] < 0 ==> forall l :: 0 <= l < (if j < 0 then |rows| else j) ==>
          used[l] || MatchRank(reg[i], rows[l]) != rank)
  }

  /** Matching one more entry settles its pairs of the current rank. */
  lemma FoundIsFree(reg: seq<Package>, rows: seq<WingetRow>, m: seq<int>, used: seq<bool>, rank: nat, i: nat,
                    j: int)
    requires |m| == |reg| && |used| == |rows| && i < |reg| && Found(reg, rows, m, used, rank, i, j)
    ensures -1 <= j < |rows| && (j >= 0 ==> m[i] < 0)
  {
  }

  lemma {:induction false} MatchedOne(reg: seq<Package>, rows: seq<WingetRow>, m: seq<int>, n: seq<int>,
                                      used: seq<bool>, rank: nat, i: nat, j: int)
    requires Matching(reg, rows, m) && |used| == |rows| && UsedAgrees(m, used) && i < |reg| && rank > 0
    requires Before(reg, rows, m, rank, i) && Found(reg, rows, m, used, rank, i, j)
    requires n == if j < 0 then m else m[i := j]
    ensures Matching(reg, rows, n) && Before(reg, rows, n, rank, i + 1)
    ensures UsedAgrees(n, if j < 0 then used else used[j := true])
  {
    FoundIsFree(reg, rows, m, used, rank, i, j);
    TakenAfter(m, n, used, i, j);
    hide MatchRank, SettledAt, Before, UsedAgrees, Matching, Done, GoesBefore, Found;
    StillSettled(reg, rows, m, n, rank, i, j);
    NowSettled(reg, rows, m, n, used, rank, i, j);
    StillMatching(reg, rows, m, n, used, rank, i, j);
    NowBefore(reg, rows, m, n, rank, i, j);
  }

  lemma NowBefore(reg: seq<Package>, rows: seq<WingetRow>, m: seq<int>, n: seq<int>, rank: nat, i: nat, j: int)
    requires |m| == |reg| && i < |reg| && -1 <= j < |rows| && Before(reg, rows, m, rank, i)
    requires n == (if j < 0 then m else m[i := j]) && (j >= 0 ==> MatchRank(reg[i], rows[j]) == rank)
    requires forall k, l :: 0 <= k < |reg| && 0 <= l < |rows| && Done(reg, rows, rank, i, k, l) ==>
               SettledAt(reg, rows, n, k, l)
    requires forall l :: 0 <= l < |rows| && MatchRank(reg[i], rows[l]) == rank ==> SettledAt(reg, rows, n, i, l)
    ensures Before(reg, rows, n, rank, i + 1)
  {
    hide SettledAt, MatchRank;
    assert forall k, l :: 0 <= k < |reg| && 0 <= l < |rows| && Done(reg, rows, rank, i + 1, k, l) ==>
        Done(reg, rows, rank, i, k, l) || (k == i && MatchRank(reg[i], rows[l]) == rank);
  }

  lemma {:induction false} StillMatching(reg: seq<Package>, rows: seq<WingetRow>, m: seq<int>, n: seq<int>,
                                         used: seq<bool>, rank: nat, i: nat, j: int)
    requires Matching(reg, rows, m) && |used| == |rows| && UsedAgrees(m, used) && i < |reg| && rank > 0
    requires Found(reg, rows, m, used, rank, i, j) && n == if j < 0 then m else m[i := j]
    ensures Matching(reg, rows, n)
  {
    hide MatchRank;
    if j >= 0 {
      assert !Taken(m, j);
    }
  }

  lemma {:induction false} NowSettled(reg: seq<Package>, rows: seq<WingetRow>, m: seq<int>, n: seq<int>,
                                      used: seq<bool>, rank: nat, i: nat, j: int)
    requires Matching(reg, rows, m) && |used| == |rows| && UsedAgrees(m, used) && i < |reg|
    requires Before(reg, rows, m, rank, i) && Found(reg, rows, m, used, rank, i, j)
    requires n == if j < 0 then m else m[i := j]
    ensures forall l :: 0 <= l < |rows| && MatchRank(reg[i], rows[l]) == rank ==> SettledAt(reg, rows, n, i, l)
  {
    hide MatchRank, Matching;
    MatchingBounds(reg, rows, m);
    forall l | 0 <= l < |rows| && MatchRank(reg[i], rows[l]) == rank ensures SettledAt(reg, rows, n, i, l) {
      if m[i] >= 0 {
        assert Done(reg, rows, rank, i, i, m[i]);
      } else if l != j && (j < 0 || l < j) {
        var k := TakenBefore(reg, rows, m, used, rank, i, l);
        assert n[k] == l;
      }
    }
  }

  lemma MatchingBounds(reg: seq<Package>, rows: seq<WingetRow>, m: seq<int>)
    requires Matching(reg, rows, m)
    ensures |m| == |reg| && forall i :: 0 <= i < |m| ==> -1 <= m[i] < |rows|
  {
  }

  /** A used row of the rank went to a pair that goes before. */
  lemma TakenBefore(reg: seq<Package>, rows: seq<WingetRow>, m: seq<int>, used: seq<bool>, rank: nat, i: nat,
                    l: nat)
    returns (k: nat)
    requires |m| == |reg| && |used| == |rows| && UsedAgrees(m, used) && i < |reg| && l < |rows| && used[l]
    requires Before(reg, rows, m, rank, i) && MatchRank(reg[i], rows[l]) == rank
    ensures k < |m| && m[k] == l && GoesBefore(reg, rows, k, l, i, l)
  {
    hide MatchRank, SettledAt;
    k :| 0 <= k < |m| && m[k] == l;
    assert Done(reg, rows, rank, i, k, m[k]);
  }

  lemma TakenAfter(m: seq<int>, n: seq<int>, used: seq<bool>, i: nat, j: int)
    requires UsedAgrees(m, used) && i < |m| && -1 <= j < |used|
    requires n == if j < 0 then m else m[i := j]
    requires j >= 0 ==> m[i] < 0
    ensures UsedAgrees(n, if j < 0 then used else used[j := true])
  {
    if j >= 0 {
      forall l | 0 <= l < |used| ensures used[j := true][l] <==> Taken(n, l) {
        if l == j {
          assert n[i] == j;
        } else if used[l] {
          var k :| 0 <= k < |m| && m[k] == l;
          assert n[k] == l;
        } else if k :| 0 <= k < |n| && n[k] == l {
          assert m[k] == l;
        }
      }
    }
  }

  lemma StillSettled(reg: seq<Package>, rows: seq<WingetRow>, m: seq<int>, n: seq<int>, rank: nat, i: nat,
                     j: int)
    requires |m| == |reg| && Before(reg, rows, m, rank, i) && i < |m| && -1 <= j < |rows|
    requires n == if j < 0 then m else m[i := j]
    requires j >= 0 ==> m[i] < 0
    ensures forall k, l :: 0 <= k < |reg| && 0 <= l < |rows| && Done(reg, rows, rank, i, k, l) ==>
              SettledAt(reg, rows, n, k, l)
  {
    hide MatchRank;
    forall k, l | 0 <= k < |reg| && 0 <= l < |rows| && Done(reg, rows, rank, i, k, l)
      ensures SettledAt(reg, rows, n, k, l)
    {
      assert SettledAt(reg, rows, m, k, l);
      if x :| 0 <= x < |m| && m[x] == l && GoesBefore(reg, rows, x, l, k, l) {
        assert n[x] == l;
      }
    }
  }

  /** The rank-greedy passes. */
  method MatchRows(reg: seq<Package>, rows: seq<WingetRow>) returns (matchOf: array<int>, used: array<bool>)
    ensures fresh(matchOf) && fresh(used) && matchOf.Length == |reg| && used.Length == |rows|
    ensures Matching(reg, rows, matchOf[..]) && Settled(reg, rows, matchOf[..])
    ensures UsedAgrees(matchOf[..], used[..]) && MatchedByName(reg, rows, matchOf[..])
  {
    hide MatchedByName, MatchRank, Matching, Before, UsedAgrees, Settled, Found;
    used := new bool[|rows|](j => false);
    matchOf := new int[|reg|](i => -1);
    NothingMatched(reg, rows, matchOf[..], used[..]);
    var rank := 3;
    while rank > 0
      invariant 0 <= rank <= 3
      invariant Matching(reg, rows, matchOf[..]) && UsedAgrees(matchOf[..], used[..])
      invariant Before(reg, rows, matchOf[..], rank, 0)
    {
      for i := 0 to |reg|
        invariant Matching(reg, rows, matchOf[..]) && UsedAgrees(matchOf[..], used[..])
        invariant Before(reg, rows, matchOf[..], rank, i)
      {
        MatchEntry(reg, rows, matchOf, used, rank, i);
      }
      NextRank(reg, rows, matchOf[..], rank);
      rank := rank - 1;
    }
    AllSettled(reg, rows, matchOf[..]);
    SettledMatchesByName(reg, rows, matchOf[..]);
  }

  /** One entry in the pass of a rank: it takes the first free row, unless it has one. */
  method MatchEntry(reg: seq<Package>, rows: seq<WingetRow>, matchOf: array<int>, used: array<bool>, rank: nat,
                    i: nat)
    requires i < |reg| == matchOf.Length && |rows| == used.Length && rank > 0
    requires Matching(reg, rows, matchOf[..]) && UsedAgrees(matchOf[..], used[..])
    requires Before(reg, rows, matchOf[..], rank, i)
    modifies matchOf, used
    ensures Matching(reg, rows, matchOf[..]) && UsedAgrees(matchOf[..], used[..])
    ensures Before(reg, rows, matchOf[..], rank, i + 1)
  {
    hide MatchRank, Matching, Before, UsedAgrees, Settled;
    ghost var m, u := matchOf[..], used[..];
    if matchOf[i] >= 0 {
      MatchedOne(reg, rows, m, m, u, rank, i, -1);
      return;
    }
    var j := FindRow(reg[i], rows, used, rank);
    MatchedOne(reg, rows, m, if j < 0 then m else m[i := j], u, rank, i, j);
    if j >= 0 {
      matchOf[i], used[j] := j, true;
      assert matchOf[..] == m[i := j] && used[..] == u[j := true];
    }
  }

  lemma NothingMatched(reg: seq<Package>, rows: seq<WingetRow>, m: seq<int>, used: seq<bool>)
    requires |m| == |reg| && |used| == |rows|
    requires (forall i :: 0 <= i < |m| ==> m[i] == -1) && forall j :: 0 <= j < |used| ==> !used[j]
    ensures Matching(reg, rows, m) && UsedAgrees(m, used) && Before(reg, rows, m, 3, 0)
  {
  }

  lemma NextRank(reg: seq<Package>, rows: seq<WingetRow>, m: seq<int>, rank: nat)
    requires |m| == |reg| && Before(reg, rows, m, rank, |reg|) && rank > 0
    ensures Before(reg, rows, m, rank - 1, 0)
  {
    hide MatchRank, SettledAt;
  }

  lemma AllSettled(reg: seq<Package>, rows: seq<WingetRow>, m: seq<int>)
    requires |m| == |reg| && Before(reg, rows, m, 0, 0)
    ensures Settled(reg, rows, m)
  {
    hide MatchRank;
    forall i, j | 0 <= i < |reg| && 0 <= j < |rows| ensures SettledAt(reg, rows, m, i, j) {
      assert MatchRank(reg[i], rows[j]) == 0 || Done(reg, rows, 0, 0, i, j);
    }
  }

  // ----- the merged list

  /** A registry entry with what its row knows; without one it is local. An update the
      row offers is taken over when the installed version is older, and then it names the
      available version if the registry does not. */
  function Enriched(reg: Package, row: Option<WingetRow>): (e: Package)
    ensures e.name == reg.name && e.currentVersion == reg.currentVersion
    ensures var taken := row.Some? && row.value.pkg.needsUpdate &&
                         InstalledIsOlder(reg.currentVersion, row.value.pkg.availableVersion);
            (e.needsUpdate <==> reg.needsUpdate || taken) &&
            e.availableVersion == if taken && reg.availableVersion == "" then row.value.pkg.availableVersion
                                  else reg.availableVersion
    ensures e.sourceRepository == if row.Some? then row.value.pkg.sourceRepository else "local"
    ensures row.Some? ==>
              var p := row.value.pkg;
              e.wingetID == p.wingetID && e.wingetPinned == p.wingetPinned && e.wingetStoreApp == p.wingetStoreApp
    ensures row.None? ==> e == reg.(sourceRepository := "local")
  {
    match row
    case None => reg.(sourceRepository := "local")
    case Some(r) =>
      var e := reg.(sourceRepository := r.pkg.sourceRepository, wingetID := r.pkg.wingetID,
                    wingetPinned := r.pkg.wingetPinned, wingetStoreApp := r.pkg.wingetStoreApp);
      if r.pkg.needsUpdate && InstalledIsOlder(reg.currentVersion, r.pkg.availableVersion) then
        e.(needsUpdate := true,
           availableVersion := if e.availableVersion == "" then r.pkg.availableVersion else e.availableVersion)
      else e
  }

  function RowOf(rows: seq<WingetRow>, j: int): Option<WingetRow> {
    if 0 <= j < |rows| then Some(rows[j]) else None
  }

  function Heads(reg: seq<Package>, rows: seq<WingetRow>, m: seq<int>): (r: seq<Package>)
    requires |m| == |reg|
    ensures |r| == |reg| && forall i :: 0 <= i < |r| ==> r[i] == Enriched(reg[i], RowOf(rows, m[i]))
  {
    seq(|reg|, i requires 0 <= i < |reg| => Enriched(reg[i], RowOf(rows, m[i])))
  }

  function HeadOrigins(rows: seq<WingetRow>, m: seq<int>): (r: seq<Origin>)
    ensures |r| == |m|
    ensures forall i :: 0 <= i < |r| ==> r[i] == Origin(true, IDOf(RowOf(rows, m[i])))
  {
    seq(|m|, i requires 0 <= i < |m| => Origin(true, IDOf(RowOf(rows, m[i]))))
  }

  function IDOf(row: Option<WingetRow>): string { if row == None then "" else row.value.id }

  function RowName(row: WingetRow): string { NormalName(row.pkg.name) }

  predicate RowNeedsUpdate(row: WingetRow) { row.pkg.needsUpdate }

  /** The names of matched rows. */
  function MatchedNames(rows: seq<WingetRow>, m: seq<int>): set<string> {
    set i | 0 <= i < |m| && 0 <= m[i] < |rows| :: RowName(rows[m[i]])
  }

  /** The unmatched rows whose name no matched row has. */
  ghost function Leftover(rows: seq<WingetRow>, m: seq<int>, k: nat): seq<WingetRow>
    requires k <= |rows|
  {
    if k == 0 then []
    else
      Leftover(rows, m, k - 1) +
      if Taken(m, k - 1) || RowName(rows[k - 1]) in MatchedNames(rows, m) then [] else [rows[k - 1]]
  }

  /** The rows appended to the registry's entries: one for each leftover name. */
  ghost function Appended(rows: seq<WingetRow>, m: seq<int>): seq<WingetRow> {
    Picked(Leftover(rows, m, |rows|), RowName, RowNeedsUpdate)
  }

  function Packages(rows: seq<WingetRow>): (r: seq<Package>)
    ensures |r| == |rows| && forall k :: 0 <= k < |r| ==> r[k] == rows[k].pkg
  {
    seq(|rows|, k requires 0 <= k < |rows| => rows[k].pkg)
  }

  function Origins(rows: seq<WingetRow>): (r: seq<Origin>)
    ensures |r| == |rows| && forall k :: 0 <= k < |r| ==> r[k] == Origin(false, rows[k].id)
  {
    seq(|rows|, k requires 0 <= k < |rows| => Origin(false, rows[k].id))
  }

  ghost predicate IsLeft(rows: seq<WingetRow>, m: seq<int>, j: nat)
    requires j < |rows|
  {
    !Taken(m, j) && RowName(rows[j]) !in MatchedNames(rows, m)
  }

  lemma {:induction false} LeftoverStands(rows: seq<WingetRow>, m: seq<int>, k: nat,
                                          r: WingetRow) returns (j: nat)
    requires k <= |rows| && r in Leftover(rows, m, k)
    ensures j < k && rows[j] == r && IsLeft(rows, m, j)
  {
    hide MatchedNames, Taken, RowName;
    if r in Leftover(rows, m, k - 1) {
      j := LeftoverStands(rows, m, k - 1, r);
    } else {
      j := k - 1;
    }
  }

  lemma {:induction false} LeftoverHas(rows: seq<WingetRow>, m: seq<int>, k: nat, j: nat)
    requires j < k <= |rows| && IsLeft(rows, m, j)
    ensures rows[j] in Leftover(rows, m, k)
  {
    hide MatchedNames, Taken, RowName;
    if j < k - 1 {
      LeftoverHas(rows, m, k - 1, j);
    }
  }

  /** A free row with the name of a registry entry: a matched row has that name. */
  lemma {:induction false} NameIsMatched(reg: seq<Package>, rows: seq<WingetRow>, m: seq<int>, i: nat, j: nat)
    requires Matching(reg, rows, m) && Settled(reg, rows, m)
    requires i < |reg| && j < |rows| && RowName(rows[j]) == NormalName(reg[i].name) && !Taken(m, j)
    ensures RowName(rows[j]) in MatchedNames(rows, m)
  {
    RankOfName(reg[i], rows[j]);
    SettledIsMaximalAndStable(reg, rows, m, i, j);
    hide Settled, MatchRank, NormalName;
    assert m[i] >= 0;
    RankOfName(reg[i], rows[m[i]]);
    assert RowName(rows[m[i]]) in MatchedNames(rows, m);
  }

  /** A leftover row shares its name with no registry entry. */
  lemma {:induction false} LeftoverNamesAreNew(reg: seq<Package>, rows: seq<WingetRow>, m: seq<int>,
          r: WingetRow, i: nat)
    requires Matching(reg, rows, m) && Settled(reg, rows, m)
    requires r in Leftover(rows, m, |rows|) && i < |reg|
    ensures RowName(r) != NormalName(reg[i].name)
  {
    hide Settled, Matching, RowName, NormalName, Leftover, MatchedNames;
    var j := LeftoverStands(rows, m, |rows|, r);
    if RowName(r) == NormalName(reg[i].name) {
      NameIsMatched(reg, rows, m, i, j);
    }
  }

  lemma RankOfName(reg: Package, row: WingetRow)
    ensures MatchRank(reg, row) >= 2 <==> RowName(row) == NormalName(reg.name)
  {
  }

  /** Appended names are new and distinct, and each appended row is the first of its name
      that needs an update, or the first of its name when none does. */
  lemma {:induction false} AppendedRowsAreNew(reg: seq<Package>, rows: seq<WingetRow>, m: seq<int>)
    requires Matching(reg, rows, m) && Settled(reg, rows, m)
    ensures var t := Appended(rows, m);
            && (forall k, i :: 0 <= k < |t| && 0 <= i < |reg| ==> RowName(t[k]) != NormalName(reg[i].name))
            && (forall j, k :: 0 <= j < k < |t| ==> RowName(t[j]) != RowName(t[k]))
            && (forall k :: 0 <= k < |t| ==>
                  IsFirstBetter(Leftover(rows, m, |rows|), RowName, RowNeedsUpdate, t[k]))
  {
    var left := Leftover(rows, m, |rows|);
    PickedIsBest(left, RowName, RowNeedsUpdate);
    hide Settled, Matching, IsFirstBetter, Leftover, Picked, RowName, RowNeedsUpdate;
    var t := Appended(rows, m);
    forall k, i | 0 <= k < |t| && 0 <= i < |reg| ensures RowName(t[k]) != NormalName(reg[i].name) {
      FirstIsMember(left, RowName, RowNeedsUpdate, t[k]);
      LeftoverNamesAreNew(reg, rows, m, t[k], i);
    }
  }

  /** No row gets lost: it is matched, or its name is a matched or an appended one. */
  lemma NoRowIsLost(rows: seq<WingetRow>, m: seq<int>, j: nat)
    requires j < |rows|
    ensures Taken(m, j) || RowName(rows[j]) in MatchedNames(rows, m) ||
            exists k :: 0 <= k < |Appended(rows, m)| && RowName(Appended(rows, m)[k]) == RowName(rows[j])
  {
    hide Leftover, Picked, RowName, MatchedNames, RowNeedsUpdate, Taken, IsFirstBetter;
    if !Taken(m, j) && RowName(rows[j]) !in MatchedNames(rows, m) {
      LeftoverHas(rows, m, |rows|, j);
      ghost var left := Leftover(rows, m, |rows|);
      PickedIsBest(left, RowName, RowNeedsUpdate);
      var k :| 0 <= k < |Picked(left, RowName, RowNeedsUpdate)| &&
               RowName(Picked(left, RowName, RowNeedsUpdate)[k]) == RowName(rows[j]);
      assert RowName(Appended(rows, m)[k]) == RowName(rows[j]);
    }
  }

  /** The list and its origins, for a matching. */
  ghost predicate IsMerged(reg: seq<Package>, rows: seq<WingetRow>, m: seq<int>, pkgs: seq<Package>,
                           origins: seq<Origin>)
  {
    && Matching(reg, rows, m) && Settled(reg, rows, m) && MatchedByName(reg, rows, m)
    && pkgs == Heads(reg, rows, m) + Packages(Appended(rows, m))
    && origins == HeadOrigins(rows, m) + Origins(Appended(rows, m))
  }

  /** The settled matching is unique, so this says what the result is. */
  method MergeRegistryAndWinget(reg: seq<Package>, rows: seq<WingetRow>)
    returns (pkgs: seq<Package>, origins: seq<Origin>)
    ensures exists m :: IsMerged(reg, rows, m, pkgs, origins)
  {
    hide MatchedByName, Matching, Settled, UsedAgrees, Enriched, Leftover, MatchRank, Picked;
    ghost var m;
    if |rows| == 0 {
      m := seq(|reg|, i => -1);
      NoRows(reg, rows, m);
      SettledMatchesByName(reg, rows, m);
      pkgs, origins := [], [];
      for i := 0 to |reg|
        invariant |pkgs| == |origins| == i
        invariant forall k :: 0 <= k < i ==> pkgs[k] == Enriched(reg[k], None) && origins[k] == Origin(true, "")
      {
        pkgs := pkgs + [Enriched(reg[i], None)];
        origins := origins + [Origin(true, "")];
      }
      assert IsMerged(reg, rows, m, pkgs, origins);
      return;
    }
    var matchOf, used := MatchRows(reg, rows);
    m := matchOf[..];
    var matchedNames;
    MatchingLength(reg, rows, m);
    pkgs, origins, matchedNames := EnrichAll(reg, rows, matchOf);
    pkgs, origins := AppendLeftover(rows, m, used, matchedNames, pkgs, origins);
    assert IsMerged(reg, rows, m, pkgs, origins);
  }

  lemma MatchingLength(reg: seq<Package>, rows: seq<WingetRow>, m: seq<int>)
    requires Matching(reg, rows, m)
    ensures |m| == |reg| && forall i :: 0 <= i < |m| ==> m[i] < |rows|
  {
  }

  lemma NoRows(reg: seq<Package>, rows: seq<WingetRow>, m: seq<int>)
    requires |rows| == 0 && |m| == |reg| && forall i :: 0 <= i < |m| ==> m[i] == -1
    ensures Matching(reg, rows, m) && Settled(reg, rows, m) && Appended(rows, m) == []
  {
  }

  method EnrichAll(reg: seq<Package>, rows: seq<WingetRow>, matchOf: array<int>)
    returns (pkgs: seq<Package>, origins: seq<Origin>, matchedNames: set<string>)
    requires matchOf.Length == |reg| && forall i :: 0 <= i < |reg| ==> matchOf[i] < |rows|
    ensures pkgs == Heads(reg, rows, matchOf[..]) && origins == HeadOrigins(rows, matchOf[..])
    ensures matchedNames == MatchedNames(rows, matchOf[..])
  {
    hide RowName, InstalledIsOlder;
    pkgs, origins, matchedNames := reg, seq(|reg|, i => Origin(true, "")), {};
    for i := 0 to |reg|
      invariant |pkgs| == |origins| == |reg|
      invariant forall k :: 0 <= k < i ==> pkgs[k] == Enriched(reg[k], RowOf(rows, matchOf[k]))
      invariant forall k :: 0 <= k < i ==> origins[k] == Origin(true, IDOf(RowOf(rows, matchOf[k])))
      invariant forall k :: i <= k < |reg| ==> pkgs[k] == reg[k] && origins[k] == Origin(true, "")
      invariant matchedNames == MatchedNames(rows, matchOf[..i])
    {
      MatchedNamesStep(rows, matchOf[..], i);
      var j := matchOf[i];
      if j < 0 {
        pkgs := pkgs[i := pkgs[i].(sourceRepository := "local")];
        continue;
      }
      var row := rows[j].pkg;
      origins := origins[i := origins[i].(wingetID := rows[j].id)];
      matchedNames := matchedNames + {NormalName(row.name)};
      var p := pkgs[i].(sourceRepository := row.sourceRepository, wingetID := row.wingetID,
                        wingetPinned := row.wingetPinned, wingetStoreApp := row.wingetStoreApp);
      if row.needsUpdate && InstalledIsOlder(p.currentVersion, row.availableVersion) {
        p := p.(needsUpdate := true);
        if p.availableVersion == "" {
          p := p.(availableVersion := row.availableVersion);
        }
      }
      pkgs := pkgs[i := p];
    }
    assert matchOf[..|reg|] == matchOf[..];
  }

  lemma MatchedNamesStep(rows: seq<WingetRow>, m: seq<int>, i: nat)
    requires i < |m| && m[i] < |rows|
    ensures MatchedNames(rows, m[..i + 1]) ==
            MatchedNames(rows, m[..i]) + if m[i] < 0 then {} else {NormalName(rows[m[i]].pkg.name)}
  {
    hide NormalName;
    var a, b := m[..i], m[..i + 1];
    assert forall k :: 0 <= k < i ==> b[k] == a[k];
    assert b[i] == m[i];
  }

  /** Appends one entry for each leftover name; a later row that needs an update replaces
      an entry that does not. */
  method AppendLeftover(rows: seq<WingetRow>, ghost m: seq<int>, used: array<bool>, matchedNames: set<string>,
                        heads: seq<Package>, headOrigins: seq<Origin>)
    returns (pkgs: seq<Package>, origins: seq<Origin>)
    requires used.Length == |rows| && UsedAgrees(m, used[..]) && matchedNames == MatchedNames(rows, m)
    requires |heads| == |headOrigins|
    ensures pkgs == heads + Packages(Appended(rows, m))
    ensures origins == headOrigins + Origins(Appended(rows, m))
  {
    hide RowName, Picked, Names, MatchedNames, Taken, Packages, Origins, Leftover, UsedAgrees, Indexed;
    pkgs, origins := heads, headOrigins;
    var appended: map<string, nat> := map[];
    ghost var left: seq<WingetRow> := [];
    NothingPicked(RowName, RowNeedsUpdate);
    NothingLeft();
    for j := 0 to |rows|
      invariant left == Leftover(rows, m, j)
      invariant pkgs == heads + Packages(Picked(left, RowName, RowNeedsUpdate))
      invariant origins == headOrigins + Origins(Picked(left, RowName, RowNeedsUpdate))
      invariant Indexed(appended, |heads|, Names(left, RowName))
    {
      LeftoverStep(rows, m, used[..], j);
      if used[j] || RowName(rows[j]) in matchedNames {
        continue;
      }
      pkgs, origins, appended := AddLeftover(rows[j], left, heads, headOrigins, pkgs, origins, appended);
      left := left + [rows[j]];
    }
  }

  /** Adds a leftover row to what the rows before it appended. */
  method AddLeftover(row: WingetRow, ghost left: seq<WingetRow>, ghost heads: seq<Package>,
                     ghost headOrigins: seq<Origin>, pkgs: seq<Package>, origins: seq<Origin>,
                     appended: map<string, nat>)
    returns (pkgs': seq<Package>, origins': seq<Origin>, appended': map<string, nat>)
    requires |heads| == |headOrigins| && Indexed(appended, |heads|, Names(left, RowName))
    requires pkgs == heads + Packages(Picked(left, RowName, RowNeedsUpdate))
    requires origins == headOrigins + Origins(Picked(left, RowName, RowNeedsUpdate))
    ensures Indexed(appended', |heads|, Names(left + [row], RowName))
    ensures pkgs' == heads + Packages(Picked(left + [row], RowName, RowNeedsUpdate))
    ensures origins' == headOrigins + Origins(Picked(left + [row], RowName, RowNeedsUpdate))
  {
    hide RowName, Picked, Names, Packages, Origins, Indexed;
    pkgs', origins', appended' := pkgs, origins, appended;
    var key := RowName(row);
    PickedAppend(left, row, RowName, RowNeedsUpdate);
    ghost var picked, names := Picked(left, RowName, RowNeedsUpdate), Names(left, RowName);
    IndexedAt(appended, |heads|, names, key);
    if key in appended {
      var k := appended[key];
      ReplaceOne(heads, headOrigins, picked, k, row);
      if row.pkg.needsUpdate && !pkgs[k].needsUpdate {
        pkgs' := pkgs[k := row.pkg];
        origins' := origins[k := origins[k].(wingetID := row.id)];
      }
      return;
    }
    AppendOne(heads, headOrigins, picked, row);
    IndexAppend(appended, |heads|, names, key);
    pkgs' := pkgs + [row.pkg];
    origins' := origins + [Origin(false, row.id)];
    appended' := appended[key := |pkgs|];
  }

  lemma ReplaceOne(heads: seq<Package>, headOrigins: seq<Origin>, picked: seq<WingetRow>, k: nat,
                   row: WingetRow)
    requires |heads| == |headOrigins| <= k < |heads| + |picked|
    ensures |Packages(picked)| == |Origins(picked)| == |picked|
    ensures (heads + Packages(picked))[k] == picked[k - |heads|].pkg
    ensures (heads + Packages(picked))[k := row.pkg] == heads + Packages(picked[k - |heads| := row])
    ensures var o := headOrigins + Origins(picked);
            o[k := o[k].(wingetID := row.id)] == headOrigins + Origins(picked[k - |heads| := row])
  {
  }

  lemma AppendOne(heads: seq<Package>, headOrigins: seq<Origin>, picked: seq<WingetRow>, row: WingetRow)
    ensures |Packages(picked)| == |picked|
    ensures heads + Packages(picked) + [row.pkg] == heads + Packages(picked + [row])
    ensures headOrigins + Origins(picked) + [Origin(false, row.id)] == headOrigins + Origins(picked + [row])
  {
  }

  lemma LeftoverStep(rows: seq<WingetRow>, m: seq<int>, used: seq<bool>, j: nat)
    requires |used| == |rows| && UsedAgrees(m, used) && j < |rows|
    ensures Leftover(rows, m, j + 1) ==
            Leftover(rows, m, j) + if used[j] || RowName(rows[j]) in MatchedNames(rows, m) then [] else [rows[j]]
  {
    hide Taken, MatchedNames, RowName;
  }

  lemma NothingLeft()
    ensures Packages([]) == [] && Origins([]) == [] && forall rows, m :: Leftover(rows, m, 0) == []
  {
  }
}
