/** Which installed kernel is the newest of the running one's line (system/reboot.go). */
module Kernel {
  import opened Keys
  import opened Text
  import opened Decimal

  predicate IsPartBreak(c: char) { c == '.' || c == '-' || c == '+' }

  predicate IsPartChar(c: char) { !IsPartBreak(c) }

  /** The non-empty parts between '.', '-' and '+'. */
  function ParseKernelVersion(s: string): (r: seq<string>)
    ensures forall i :: 0 <= i < |r| ==> r[i] != ""
    decreases |s|
  {
    var t := TrimLeft(s, IsPartBreak);
    var n := PrefixLen(t, IsPartChar);
    if t == "" then [] else [t[..n]] + ParseKernelVersion(t[n..])
  }

  predicate IsNumber(part: string) { Atoi(part).1 }

  /** A number outranks a label. */
  function PartKey(part: string): seq<int> {
    if IsNumber(part) then [1, Atoi(part).0] else [0] + Codes(part)
  }

  function PartKeys(parts: seq<string>): (k: Key)
    ensures |k| == |parts| && forall i :: 0 <= i < |k| ==> k[i] == PartKey(parts[i])
  {
    seq(|parts|, i requires 0 <= i < |parts| => PartKey(parts[i]))
  }

  function VersionKey(v: string): Key { PartKeys(ParseKernelVersion(v)) }

  /** The order compareKernelVersions decides. */
  function Compare(a: string, b: string): int { CompareKeys(VersionKey(a), VersionKey(b)) }

  function PartAt(parts: seq<string>, i: nat): string { if i < |parts| then parts[i] else "" }

  lemma PartsCompareAsKeys(a: string, b: string)
    ensures CompareSeqs(PartKey(a), PartKey(b)) ==
            if IsNumber(a) && IsNumber(b) then CompareInts(Atoi(a).0, Atoi(b).0)
            else if IsNumber(a) then 1 else if IsNumber(b) then -1 else CompareStrings(a, b)
  {
    hide Atoi;
    var ka, kb := PartKey(a), PartKey(b);
    CompareSeqsHead(ka[0], kb[0], ka[1..], kb[1..]);
    assert ka == [ka[0]] + ka[1..] && kb == [kb[0]] + kb[1..];
    if IsNumber(a) && IsNumber(b) {
      CompareSeqsHead(Atoi(a).0, Atoi(b).0, [], []);
      assert ka[1..] == [Atoi(a).0] + [] && kb[1..] == [Atoi(b).0] + [];
    } else if !IsNumber(a) && !IsNumber(b) {
      assert ka[1..] == Codes(a) && kb[1..] == Codes(b);
    }
  }

  /** One position of the loop: the parts there decide, or the rest does. */
  lemma CompareAt(a: seq<string>, b: seq<string>, i: nat)
    requires i < |a| && i < |b|
    ensures var c := CompareSeqs(PartKey(a[i]), PartKey(b[i]));
            CompareKeys(PartKeys(a)[i..], PartKeys(b)[i..]) ==
            if c != 0 then c else CompareKeys(PartKeys(a)[i + 1..], PartKeys(b)[i + 1..])
  {
    hide PartKey;
    var ka, kb := PartKeys(a), PartKeys(b);
    assert ka[i..] == [ka[i]] + ka[i + 1..] && kb[i..] == [kb[i]] + kb[i + 1..];
    CompareKeysHead(ka[i], kb[i], ka[i + 1..], kb[i + 1..]);
    SeqsAntisymmetric(ka[i], kb[i]);
  }

  method CompareKernelVersions(v1: string, v2: string) returns (r: int)
    ensures r == Compare(v1, v2)
  {
    hide PartKey, Atoi;
    var parts1, parts2 := ParseKernelVersion(v1), ParseKernelVersion(v2);
    ghost var ka, kb := PartKeys(parts1), PartKeys(parts2);
    var maxLen := |parts1|;
    if |parts2| > maxLen {
      maxLen := |parts2|;
    }
    for i := 0 to maxLen
      invariant i <= |parts1| && i <= |parts2|
      invariant Compare(v1, v2) == CompareKeys(ka[i..], kb[i..])
    {
      var p1, p2 := PartAt(parts1, i), PartAt(parts2, i);
      if i < |parts1| && i < |parts2| {
        CompareAt(parts1, parts2, i);
        PartsCompareAsKeys(p1, p2);
        SeqsAntisymmetric(PartKey(p1), PartKey(p2));
        KeysAntisymmetric(VersionKey(v1), VersionKey(v2));
      }
      if p1 == p2 {
        continue;
      }
      if p1 == "" {
        return -1;
      }
      if p2 == "" {
        return 1;
      }
      var n1, n2 := Atoi(p1).0, Atoi(p2).0;
      if IsNumber(p1) && IsNumber(p2) {
        if n1 < n2 {
          return -1;
        }
        if n1 > n2 {
          return 1;
        }
      } else if IsNumber(p1) {
        return 1;
      } else if IsNumber(p2) {
        return -1;
      } else {
        CodesInjective(p1, p2);
        SeqsAntisymmetric(Codes(p1), Codes(p2));
        if CompareStrings(p1, p2) < 0 {
          return -1;
        }
        return 1;
      }
    }
    return 0;
  }

  lemma {:induction false} CompareOrderLaws(a: string, b: string, c: string)
    ensures OrderLaws(Compare(a, b), Compare(b, a), Compare(b, c), Compare(a, c))
  {
    KeysOrderLaws(VersionKey(a), VersionKey(b), VersionKey(c));
  }

  // ----- flavours

  /** The pattern ^\d+\.\d+. */
  predicate HasVersionCore(release: string) {
    var n := PrefixLen(release, IsDigit);
    n > 0 && n + 1 < |release| && release[n] == '.' && IsDigit(release[n + 1])
  }

  /** The pattern ^v\d+l?$. */
  predicate IsPiVariant(part: string) {
    part != "" && part[0] == 'v' &&
    var n := PrefixLen(part[1..], IsDigit);
    n > 0 && (part[1..][n..] == "" || part[1..][n..] == "l")
  }

  predicate IsLabelTail(c: char) { IsDigit(c) || c == '_' }

  function Label(part: string): string {
    if IsPiVariant(part) then part else TrimRight(part, IsLabelTail)
  }

  function Labels(parts: seq<string>): seq<string> {
    if parts == [] then []
    else
      Labels(parts[..|parts| - 1]) +
      if IsNumber(parts[|parts| - 1]) then [] else [Label(parts[|parts| - 1])]
  }

  function Join(labels: seq<string>): string {
    if labels == [] then "" else if |labels| == 1 then labels[0]
    else labels[0] + "-" + Join(labels[1..])
  }

  /** The line a release belongs to. */
  function Flavour(release: string): string { Join(Labels(ParseKernelVersion(release))) }

  method KernelFlavour(release: string) returns (flavour: string)
    ensures flavour == Flavour(release)
  {
    hide IsNumber, Label;
    var parts := ParseKernelVersion(release);
    var labels := [];
    for k := 0 to |parts|
      invariant labels == Labels(parts[..k])
    {
      assert parts[..k + 1][..k] == parts[..k];
      if IsNumber(parts[k]) {
        continue;
      }
      if IsPiVariant(parts[k]) {
        labels := labels + [parts[k]];
        LabelOf(parts[k]);
        continue;
      }
      LabelOf(parts[k]);
      labels := labels + [TrimRight(parts[k], IsLabelTail)];
    }
    assert parts[..|parts|] == parts;
    flavour := Join(labels);
  }

  lemma LabelOf(part: string)
    ensures Label(part) == if IsPiVariant(part) then part else TrimRight(part, IsLabelTail)
  {
  }

  // ----- selection

  predicate Sorted(s: seq<string>) {
    forall i, j :: 0 <= i < j < |s| ==> Compare(s[i], s[j]) <= 0
  }

  /** sort.Slice by compareKernelVersions: the order of ties is not promised. */
  method SortKernels(kernels: seq<string>) returns (sorted: seq<string>)
    ensures multiset(sorted) == multiset(kernels) && Sorted(sorted)
  {
    hide Compare;
    sorted := [];
    for k := 0 to |kernels|
      invariant multiset(sorted) == multiset(kernels[..k]) && Sorted(sorted)
    {
      assert kernels[..k + 1] == kernels[..k] + [kernels[k]];
      sorted := Insert(sorted, kernels[k]);
    }
    assert kernels[..|kernels|] == kernels;
  }

  method Insert(s: seq<string>, x: string) returns (r: seq<string>)
    requires Sorted(s)
    ensures multiset(r) == multiset(s) + multiset{x} && Sorted(r)
  {
    hide Compare;
    var i := |s|;
    while i > 0
      invariant 0 <= i <= |s|
      invariant forall j :: i <= j < |s| ==> Compare(x, s[j]) <= 0
    {
      var c := CompareKernelVersions(s[i - 1], x);
      if c <= 0 {
        break;
      }
      CompareOrderLaws(s[i - 1], x, x);
      i := i - 1;
    }
    r := s[..i] + [x] + s[i..];
    forall j | 0 <= j < i ensures Compare(s[j], x) <= 0 {
      CompareOrderLaws(s[j], s[i - 1], x);
    }
    InsertedAt(s, i, x);
  }

  lemma {:induction false} InsertedAt(s: seq<string>, i: nat, x: string)
    requires Sorted(s) && i <= |s|
    requires forall j :: 0 <= j < i ==> Compare(s[j], x) <= 0
    requires forall j :: i <= j < |s| ==> Compare(x, s[j]) <= 0
    ensures Sorted(s[..i] + [x] + s[i..])
    ensures multiset(s[..i] + [x] + s[i..]) == multiset(s) + multiset{x}
  {
    hide Compare;
    assert s == s[..i] + s[i..];
  }

  predicate Usable(candidates: seq<string>, c: string) { c in candidates && HasVersionCore(c) }

  predicate UsableOfLine(candidates: seq<string>, flavour: string, c: string) {
    Usable(candidates, c) && Flavour(c) == flavour
  }

  /** The candidates a selection chooses from: those of the line, or all usable ones. */
  ghost predicate Eligible(candidates: seq<string>, flavour: string, c: string) {
    && Usable(candidates, c)
    && ((exists d :: UsableOfLine(candidates, flavour, d)) ==> Flavour(c) == flavour)
  }

  method SelectLatestKernel(candidates: seq<string>, flavour: string) returns (latest: string)
    ensures latest == "" <==> forall c :: !Usable(candidates, c)
    ensures latest != "" ==> Eligible(candidates, flavour, latest)
    ensures latest != "" ==> forall c :: Eligible(candidates, flavour, c) ==> Compare(c, latest) <= 0
  {
    hide Compare, HasVersionCore, Flavour;
    var usable := [];
    for k := 0 to |candidates|
      invariant forall c :: c in usable <==> Usable(candidates[..k], c)
    {
      assert candidates[..k + 1] == candidates[..k] + [candidates[k]];
      if HasVersionCore(candidates[k]) {
        usable := usable + [candidates[k]];
      }
    }
    assert candidates[..|candidates|] == candidates;
    if |usable| == 0 {
      return "";
    }
    assert Usable(candidates, usable[0]);
    var matching := [];
    for k := 0 to |usable|
      invariant forall c :: c in matching <==> c in usable[..k] && Flavour(c) == flavour
    {
      assert usable[..k + 1] == usable[..k] + [usable[k]];
      var f := KernelFlavour(usable[k]);
      if f == flavour {
        matching := matching + [usable[k]];
      }
    }
    assert usable[..|usable|] == usable;
    if |matching| == 0 {
      assert forall d :: UsableOfLine(candidates, flavour, d) ==> d in matching;
      matching := usable;
    } else {
      assert UsableOfLine(candidates, flavour, matching[0]);
    }
    assert forall c :: Eligible(candidates, flavour, c) <==> c in matching;
    var sorted := SortKernels(matching);
    SameMembers(sorted, matching);
    latest := sorted[|sorted| - 1];
    assert latest in matching && Usable(candidates, latest);
    LastIsNewest(sorted);
    EmptyHasNoCore();
  }

  lemma SameMembers(a: seq<string>, b: seq<string>)
    requires multiset(a) == multiset(b)
    ensures |a| == |b| && forall c :: c in a <==> c in b
  {
    assert |multiset(a)| == |a| && |multiset(b)| == |b|;
    assert forall c :: c in a <==> c in multiset(a);
    assert forall c :: c in b <==> c in multiset(b);
  }

  lemma EmptyHasNoCore()
    ensures !HasVersionCore("")
  {
  }

  lemma LastIsNewest(s: seq<string>)
    requires s != [] && Sorted(s)
    ensures forall c :: c in s ==> Compare(c, s[|s| - 1]) <= 0
  {
    hide Compare;
    forall i | 0 <= i < |s| ensures Compare(s[i], s[|s| - 1]) <= 0 {
      CompareOrderLaws(s[i], s[i], s[i]);
    }
  }

  predicate IsOutdated(running: string, latest: string) {
    running != "" && latest != "" && Compare(running, latest) < 0
  }

  method KernelIsOutdated(running: string, latest: string) returns (outdated: bool)
    ensures outdated <==> IsOutdated(running, latest)
  {
    if running == "" || latest == "" {
      return false;
    }
    var c := CompareKernelVersions(running, latest);
    return c < 0;
  }

  /** The first source with a usable candidate; |sources| if none has one. */
  ghost predicate IsFirstUsable(sources: seq<seq<string>>, k: nat) {
    && k <= |sources|
    && (forall j, c :: 0 <= j < k ==> !Usable(sources[j], c))
    && (k < |sources| ==> exists c :: Usable(sources[k], c))
  }

  /** latestInstalledKernel: boot, rpm, dpkg and modules are asked in turn. */
  method LatestInstalledKernel(sources: seq<seq<string>>, running: string) returns (latest: string)
    ensures latest == "" <==> IsFirstUsable(sources, |sources|)
    ensures latest != "" ==>
              exists k :: 0 <= k < |sources| && IsFirstUsable(sources, k) &&
                          Newest(sources[k], Flavour(running), latest)
  {
    hide Compare, Flavour, HasVersionCore, Eligible;
    var flavour := KernelFlavour(running);
    latest := "";
    for i := 0 to |sources|
      invariant forall j, c :: 0 <= j < i ==> !Usable(sources[j], c)
    {
      latest := SelectLatestKernel(sources[i], flavour);
      if latest != "" {
        EligibleIsUsable(sources[i], flavour, latest);
        assert IsFirstUsable(sources, i) && Newest(sources[i], flavour, latest);
        return;
      }
    }
    latest := "";
  }

  /** An eligible candidate that no eligible one is newer than. */
  ghost predicate Newest(candidates: seq<string>, flavour: string, c: string) {
    Eligible(candidates, flavour, c) && forall d :: Eligible(candidates, flavour, d) ==> Compare(d, c) <= 0
  }

  lemma EligibleIsUsable(candidates: seq<string>, flavour: string, c: string)
    requires Eligible(candidates, flavour, c)
    ensures Usable(candidates, c)
  {
  }

  /** The first usable source has an eligible kernel newer than the running one. */
  ghost predicate HasNewer(sources: seq<seq<string>>, running: string) {
    exists k :: 0 <= k < |sources| && IsFirstUsable(sources, k) &&
                exists c :: Eligible(sources[k], Flavour(running), c) && Compare(running, c) < 0
  }

  /** The kernel half of the reboot check: the running kernel is stale exactly when the
      first usable source has an eligible newer one. A host that runs the selected
      kernel is not stale, whatever its text. */
  method KernelIsStale(sources: seq<seq<string>>, running: string) returns (stale: bool)
    ensures stale <==> running != "" && HasNewer(sources, running)
  {
    hide Compare, Flavour, Eligible;
    var latest := LatestInstalledKernel(sources, running);
    stale := KernelIsOutdated(running, latest);
    hide IsFirstUsable, Newest, HasNewer;
    if latest != "" {
      ghost var k :| 0 <= k < |sources| && IsFirstUsable(sources, k) &&
                     Newest(sources[k], Flavour(running), latest);
      NewerThanRunning(sources, k, running, latest);
    } else {
      NothingNewer(sources, running);
    }
  }

  lemma NewerThanRunning(sources: seq<seq<string>>, k: nat, running: string, latest: string)
    requires k < |sources| && IsFirstUsable(sources, k) && Newest(sources[k], Flavour(running), latest)
    ensures HasNewer(sources, running) <==> Compare(running, latest) < 0
  {
    hide Compare, Flavour, Eligible;
    if HasNewer(sources, running) {
      var j, c :| 0 <= j < |sources| && IsFirstUsable(sources, j) &&
                       Eligible(sources[j], Flavour(running), c) && Compare(running, c) < 0;
      assert j == k;
      CompareOrderLaws(running, c, latest);
    }
  }

  lemma NothingNewer(sources: seq<seq<string>>, running: string)
    requires IsFirstUsable(sources, |sources|)
    ensures !HasNewer(sources, running)
  {
    hide Compare, Flavour, HasVersionCore;
    forall k | 0 <= k < |sources| ensures !IsFirstUsable(sources, k) {
    }
  }
}
