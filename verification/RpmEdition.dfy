/** [epoch:]version-release strings: splitting and comparing them (rpm_version.go),
    how zypper's editions are printed, and its security-fix test (zypper.go). */
module RpmEdition {
  import opened Keys
  import opened Text
  import opened Decimal
  import Rpm = RpmVersion

  predicate IsColon(c: char) { c == ':' }

  datatype EVR = EVR(epoch: string, version: string, release: string)

  function VersionRelease(epoch: string, s: string): EVR {
    var i := LastIndex(s, '-');
    if i >= 0 then EVR(epoch, s[..i], s[i + 1..]) else EVR(epoch, s, "")
  }

  /** The parts of an edition; a missing or empty epoch reads as "0". */
  function Split(evr: string): EVR {
    var k := IndexWhere(evr, IsColon);
    if k < |evr| then VersionRelease(if k == 0 then "0" else evr[..k], evr[k + 1..])
    else VersionRelease("0", evr)
  }

  method SplitRPMEVR(evr: string) returns (epoch: string, version: string, release: string)
    ensures EVR(epoch, version, release) == Split(evr)
  {
    epoch := "0";
    var rest := evr;
    var k := IndexWhere(evr, IsColon);
    if k < |evr| {
      if k > 0 {
        epoch := evr[..k];
      }
      rest := evr[k + 1..];
    }
    var i := LastIndex(rest, '-');
    if i >= 0 {
      return epoch, rest[..i], rest[i + 1..];
    }
    return epoch, rest, "";
  }

  /** Epoch and version alone. */
  function CompareEV(a: EVR, b: EVR): int {
    var c := Rpm.Compare(a.epoch, b.epoch);
    if c != 0 then c else Rpm.Compare(a.version, b.version)
  }

  /** The order on split editions: a missing release ties with every release. */
  function CompareSplit(a: EVR, b: EVR): int {
    var c := CompareEV(a, b);
    if c != 0 then c
    else if a.release == "" || b.release == "" then 0
    else Rpm.Compare(a.release, b.release)
  }

  function Compare(a: string, b: string): int { CompareSplit(Split(a), Split(b)) }

  method CompareRPMEVR(a: string, b: string) returns (r: int)
    ensures r == Compare(a, b)
  {
    hide Rpm.Compare, Split;
    var ea, va, ra := SplitRPMEVR(a);
    var eb, vb, rb := SplitRPMEVR(b);
    assert Split(a) == EVR(ea, va, ra) && Split(b) == EVR(eb, vb, rb);
    var c := Rpm.RPMVerCmp(ea, eb);
    if c != 0 {
      return c;
    }
    c := Rpm.RPMVerCmp(va, vb);
    if c != 0 {
      return c;
    }
    if ra == "" || rb == "" {
      return 0;
    }
    r := Rpm.RPMVerCmp(ra, rb);
  }

  lemma RpmOrderLaws(a: string, b: string, c: string)
    ensures OrderLaws(Rpm.Compare(a, b), Rpm.Compare(b, a), Rpm.Compare(b, c), Rpm.Compare(a, c))
  {
    KeysOrderLaws(Rpm.VersionKey(a), Rpm.VersionKey(b), Rpm.VersionKey(c));
  }

  lemma EVOrderLaws(a: EVR, b: EVR, c: EVR)
    ensures OrderLaws(CompareEV(a, b), CompareEV(b, a), CompareEV(b, c), CompareEV(a, c))
  {
    hide Rpm.Compare;
    RpmOrderLaws(a.epoch, b.epoch, c.epoch);
    RpmOrderLaws(c.epoch, b.epoch, a.epoch);
    RpmOrderLaws(a.epoch, c.epoch, b.epoch);
    RpmOrderLaws(a.version, b.version, c.version);
  }

  /** On all strings the order is antisymmetric and its strict part is transitive. */
  lemma CompareIsStrictPartialOrder(a: string, b: string, c: string)
    ensures -1 <= Compare(a, b) <= 1
    ensures Compare(a, b) == -Compare(b, a)
    ensures Compare(a, b) < 0 && Compare(b, c) < 0 ==> Compare(a, c) < 0
  {
    hide Rpm.Compare, Split, CompareEV;
    var x, y, z := Split(a), Split(b), Split(c);
    EVOrderLaws(x, y, z);
    EVOrderLaws(z, y, x);
    EVOrderLaws(x, z, y);
    RpmOrderLaws(x.release, y.release, z.release);
  }

  /** With a release on every side it is a total preorder. */
  lemma {:induction false} CompareOrderLaws(a: string, b: string, c: string)
    requires Split(a).release != "" && Split(b).release != "" && Split(c).release != ""
    ensures OrderLaws(Compare(a, b), Compare(b, a), Compare(b, c), Compare(a, c))
  {
    hide Rpm.Compare, Split, CompareEV;
    SplitOrderLaws(Split(a), Split(b), Split(c));
  }

  /** Only the middle edition's missing release can break a chain. */
  lemma SplitOrderLaws(x: EVR, y: EVR, z: EVR)
    requires y.release != ""
    ensures -1 <= CompareSplit(x, y) <= 1 && CompareSplit(x, y) == -CompareSplit(y, x)
    ensures CompareSplit(x, y) <= 0 && CompareSplit(y, z) <= 0 ==> CompareSplit(x, z) <= 0
    ensures x.release != "" && z.release != "" ==>
              OrderLaws(CompareSplit(x, y), CompareSplit(y, x), CompareSplit(y, z), CompareSplit(x, z))
  {
    hide Rpm.Compare, CompareEV;
    EVOrderLaws(x, y, z);
    EVOrderLaws(z, y, x);
    EVOrderLaws(x, z, y);
    RpmOrderLaws(x.release, y.release, z.release);
  }

  lemma {:induction false} SplitsAre()
    ensures Split("1-1") == EVR("0", "1", "1") && Split("1-2") == EVR("0", "1", "2")
    ensures Split("1") == EVR("0", "1", "")
  {
    SplitInvertsEdition("", "1", "1");
    SplitInvertsEdition("", "1", "2");
    assert Edition("", "1", "1") == "1-1" && Edition("", "1", "2") == "1-2";
    IndexWhereIs("1", IsColon, 1);
    LastIndexIs("1", '-', -1);
  }

  /** A tie is not transitive: an edition without a release ties with two that differ. */
  lemma {:induction false} TieIsNotTransitive()
    ensures Compare("1-1", "1") == 0 && Compare("1", "1-2") == 0 && Compare("1-1", "1-2") == -1
  {
    SplitsAre();
    OneBelowTwo();
    hide Split, Rpm.Compare;
    Rpm.SameStrings("0");
    Rpm.SameStrings("1");
  }

  lemma {:induction false} OneBelowTwo()
    ensures Rpm.Compare("1", "2") == -1
  {
    DigitKeys("1", 1);
    DigitKeys("2", 2);
    hide Rpm.VersionKey;
    CompareKeysHead([4, 1], [4, 2], [[1]], [[1]]);
    CompareSeqsHead(4, 4, [1], [2]);
    CompareSeqsHead(1, 2, [], []);
    assert [4] + [1] == [4, 1] && [4] + [2] == [4, 2] && [1] + [] == [1] && [2] + [] == [2];
  }

  lemma DigitKeys(s: string, n: nat)
    requires |s| == 1 && IsDigit(s[0]) && DigitValue(s[0]) == n
    ensures Rpm.VersionKey(s) == [[4, n], [1]]
  {
    Rpm.KeyUnfold(s);
    assert s[..1] == s && s[1..] == "";
    PrefixLenIs(s, IsDigit, 1);
    assert Value(s) == n;
    Rpm.KeyUnfold("");
  }

  // ----- zypper

  predicate AbsentEpoch(epoch: string) { epoch == "" || epoch == "(none)" || epoch == "0" }

  /** rpmEdition: an EVR the way zypper prints it. */
  function Edition(epoch: string, version: string, release: string): string {
    var evr := version + "-" + release;
    if !AbsentEpoch(epoch) then epoch + ":" + evr else evr
  }

  lemma VersionReleaseOf(epoch: string, version: string, release: string)
    requires '-' !in release
    ensures VersionRelease(epoch, version + "-" + release) == EVR(epoch, version, release)
  {
    var s := version + "-" + release;
    LastIndexIs(s, '-', |version|);
    assert s[..|version|] == version && s[|version| + 1..] == release;
  }

  lemma SplitWithEpoch(epoch: string, rest: string)
    requires epoch != "" && ':' !in epoch
    ensures Split(epoch + ":" + rest) == VersionRelease(epoch, rest)
  {
    var s := epoch + ":" + rest;
    assert s[|epoch|] == ':';
    assert forall i :: 0 <= i < |epoch| ==> s[i] == epoch[i] && epoch[i] in epoch;
    IndexWhereIs(s, IsColon, |epoch|);
    assert s[..|epoch|] == epoch && s[|epoch| + 1..] == rest;
  }

  /** Splitting undoes printing; an absent epoch comes back as "0". */
  lemma SplitInvertsEdition(epoch: string, version: string, release: string)
    requires ':' !in epoch && ':' !in version && ':' !in release && '-' !in release
    ensures Split(Edition(epoch, version, release)) ==
            EVR(if AbsentEpoch(epoch) then "0" else epoch, version, release)
  {
    var rest := version + "-" + release;
    if AbsentEpoch(epoch) {
      assert IndexWhere(rest, IsColon) == |rest| by {
        assert forall i :: 0 <= i < |rest| ==> rest[i] != ':';
      }
      VersionReleaseOf("0", version, release);
    } else {
      SplitWithEpoch(epoch, rest);
      VersionReleaseOf(epoch, version, release);
    }
  }

  // ----- what decides

  /** Any printed edition: epoch and release may be missing. */
  function Printed(epoch: string, version: string, release: string): string {
    (if epoch == "" then "" else epoch + ":") + version + if release == "" then "" else "-" + release
  }

  /** The fields can be told apart. */
  predicate CanPrint(epoch: string, version: string, release: string) {
    && ':' !in epoch && '-' !in release
    && (epoch == "" ==> ':' !in version && ':' !in release) && (release == "" ==> '-' !in version)
  }

  function EpochOr0(epoch: string): string { if epoch == "" then "0" else epoch }

  lemma {:induction false} SplitPrinted(epoch: string, version: string, release: string)
    requires CanPrint(epoch, version, release)
    ensures Split(Printed(epoch, version, release)) == EVR(EpochOr0(epoch), version, release)
  {
    var rest := version + if release == "" then "" else "-" + release;
    RestOfPrinted(EpochOr0(epoch), version, release);
    if epoch == "" {
      assert Printed(epoch, version, release) == rest;
      assert ':' !in rest;
      hide VersionRelease;
      SplitWithoutEpoch(rest);
    } else {
      assert Printed(epoch, version, release) == epoch + ":" + rest;
      hide VersionRelease, Split, Printed;
      SplitWithEpoch(epoch, rest);
    }
  }

  lemma SplitWithoutEpoch(rest: string)
    requires ':' !in rest
    ensures Split(rest) == VersionRelease("0", rest)
  {
    IndexWhereIs(rest, IsColon, |rest|);
  }

  lemma RestOfPrinted(epoch: string, version: string, release: string)
    requires '-' !in release && (release == "" ==> '-' !in version)
    ensures VersionRelease(epoch, version + if release == "" then "" else "-" + release) ==
            EVR(epoch, version, release)
  {
    if release == "" {
      assert version + "" == version;
      LastIndexIs(version, '-', -1);
    } else {
      assert version + ("-" + release) == version + "-" + release;
      VersionReleaseOf(epoch, version, release);
    }
  }

  /** The epoch decides, an absent one as "0"; then the version; then the release, if
      both have one. */
  lemma {:induction false} FieldsDecide(e: string, v: string, r: string, f: string, w: string, s: string)
    requires CanPrint(e, v, r) && CanPrint(f, w, s)
    ensures Compare(Printed(e, v, r), Printed(f, w, s)) ==
            if Rpm.Compare(EpochOr0(e), EpochOr0(f)) != 0 then Rpm.Compare(EpochOr0(e), EpochOr0(f))
            else if Rpm.Compare(v, w) != 0 then Rpm.Compare(v, w)
            else if r != "" && s != "" then Rpm.Compare(r, s)
            else 0
  {
    SplitPrinted(e, v, r);
    SplitPrinted(f, w, s);
    hide Rpm.Compare, Printed, Split;
  }

  predicate CrossesFix(fix: string, current: string, available: string) {
    Compare(current, fix) < 0 && Compare(fix, available) <= 0
  }

  predicate FixesSecurity(fixes: seq<string>, current: string, available: string) {
    exists k :: 0 <= k < |fixes| && CrossesFix(fixes[k], current, available)
  }

  method ZypperFixesSecurity(fixes: seq<string>, current: string, available: string) returns (found: bool)
    ensures found <==> FixesSecurity(fixes, current, available)
  {
    hide Compare;
    for k := 0 to |fixes|
      invariant forall m :: 0 <= m < k ==> !CrossesFix(fixes[m], current, available)
    {
      var x := CompareRPMEVR(current, fixes[k]);
      if x < 0 {
        var y := CompareRPMEVR(fixes[k], available);
        if y <= 0 {
          assert CrossesFix(fixes[k], current, available);
          return true;
        }
      }
    }
    return false;
  }

  /** Splitting an upgrade never loses a fix, releases or not. */
  lemma {:induction false} SplitKeepsFixes(fixes: seq<string>, a: string, b: string, c: string)
    ensures FixesSecurity(fixes, a, c) ==> FixesSecurity(fixes, a, b) || FixesSecurity(fixes, b, c)
  {
    hide Compare;
    if k :| 0 <= k < |fixes| && CrossesFix(fixes[k], a, c) {
      CompareIsStrictPartialOrder(fixes[k], b, c);
      CompareIsStrictPartialOrder(b, fixes[k], c);
      assert CrossesFix(fixes[k], a, b) || CrossesFix(fixes[k], b, c);
    }
  }

  /** The upgrade from b to c only adds a release, and a does not lack one there. */
  predicate DropsUpper(a: EVR, b: EVR, c: EVR) {
    CompareEV(b, c) == 0 && b.release == "" && c.release != "" &&
    (CompareEV(a, b) < 0 || a.release != "")
  }

  /** The upgrade from a to b only adds a release, and c is beyond b. */
  predicate DropsLower(a: EVR, b: EVR, c: EVR) {
    CompareEV(a, b) == 0 && a.release == "" && b.release != "" &&
    (CompareEV(b, c) < 0 || c.release == "" || Rpm.Compare(b.release, c.release) < 0)
  }

  /** Whether the two halves of an upgrade find exactly the fixes the whole finds. */
  predicate SplitsExactly(a: string, b: string, c: string) {
    !DropsUpper(Split(a), Split(b), Split(c)) && !DropsLower(Split(a), Split(b), Split(c))
  }

  lemma {:induction false} HalvesAddNothing(fix: string, a: string, b: string, c: string)
    requires Compare(a, b) <= 0 && Compare(b, c) <= 0 && SplitsExactly(a, b, c)
    requires CrossesFix(fix, a, b) || CrossesFix(fix, b, c)
    ensures CrossesFix(fix, a, c)
  {
    hide Rpm.Compare, Split, CompareEV;
    var x, y, z, f := Split(a), Split(b), Split(c), Split(fix);
    EVOrderLaws(x, y, z);
    EVOrderLaws(x, y, f);
    EVOrderLaws(x, f, y);
    EVOrderLaws(y, z, f);
    EVOrderLaws(f, y, z);
    EVOrderLaws(y, f, z);
    EVOrderLaws(x, f, z);
    RpmOrderLaws(f.release, y.release, z.release);
    RpmOrderLaws(x.release, y.release, f.release);
    RpmOrderLaws(y.release, f.release, z.release);
  }

  /** Text appended after a separator makes a version newer. */
  lemma {:induction false} AppendedIsNewer(s: string)
    ensures Rpm.Compare(s, s + ".1") == -1
    decreases |s|
  {
    hide Rpm.VersionKey;
    var n := PrefixLen(s, Rpm.IsSeparator);
    var t := s[n..];
    Rpm.KeySkipsSeparators(s, n);
    if t == "" {
      AppendedToSeparators(s);
    } else {
      assert (s + ".1")[n..] == t + ".1" && (s + ".1")[n] == s[n];
      Rpm.KeySkipsSeparators(s + ".1", n);
      AppendedIsNewer(t[Rpm.HeadLen(t)..]);
      AppendedToToken(t);
    }
  }

  lemma AppendedToSeparators(s: string)
    requires forall i :: 0 <= i < |s| ==> Rpm.IsSeparator(s[i])
    ensures Rpm.Compare(s, s + ".1") == -1
  {
    var u := s + ".1";
    Rpm.KeySkipsSeparators(s, |s|);
    Rpm.KeySkipsSeparators(u, |s| + 1);
    assert u[|s| + 1..] == "1" && s[|s|..] == "";
    DigitKeys("1", 1);
    Rpm.KeyUnfold("");
  }

  lemma AppendedToToken(t: string)
    requires t != "" && !Rpm.IsSeparator(t[0])
    requires var rest := t[Rpm.HeadLen(t)..]; Rpm.Compare(rest, rest + ".1") == -1
    ensures Rpm.Compare(t, t + ".1") == -1
  {
    SameHead(t);
    hide Rpm.VersionKey, Rpm.HeadKey, Rpm.HeadLen, Rpm.Compare;
    assert (t + ".1")[Rpm.HeadLen(t)..] == t[Rpm.HeadLen(t)..] + ".1";
    Rpm.CompareHeads(t, t + ".1");
  }

  lemma SameHead(t: string)
    requires t != "" && !Rpm.IsSeparator(t[0])
    ensures Rpm.HeadKey(t + ".1") == Rpm.HeadKey(t) && Rpm.HeadLen(t + ".1") == Rpm.HeadLen(t)
  {
    var u := t + ".1";
    var l, d := PrefixLen(t, IsLetter), PrefixLen(t, IsDigit);
    PrefixLenIs(u, IsLetter, l);
    PrefixLenIs(u, IsDigit, d);
    assert u[..l] == t[..l] && u[..d] == t[..d];
  }

  /** An edition with b's epoch and version and a release above r. */
  function NewerRelease(b: string, r: string): string {
    Split(b).epoch + ":" + (Split(b).version + "-" + (r + ".1"))
  }

  lemma NewerReleaseSplits(b: string, r: string)
    requires '-' !in r
    ensures Split(NewerRelease(b, r)) == EVR(Split(b).epoch, Split(b).version, r + ".1")
  {
    SplitParts(b);
    hide Split;
    SplitWithEpoch(Split(b).epoch, Split(b).version + "-" + (r + ".1"));
    VersionReleaseOf(Split(b).epoch, Split(b).version, r + ".1");
  }

  lemma SplitParts(b: string)
    ensures Split(b).epoch != "" && ':' !in Split(b).epoch && '-' !in Split(b).release
  {
  }

  /** In the excluded cases some fix is found by a half and not by the whole. */
  lemma {:induction false} HalfFindsMore(a: string, b: string, c: string) returns (fix: string)
    requires Compare(a, b) <= 0 && Compare(b, c) <= 0 && !SplitsExactly(a, b, c)
    ensures (CrossesFix(fix, a, b) || CrossesFix(fix, b, c)) && !CrossesFix(fix, a, c)
  {
    hide Split, NewerRelease, Rpm.Compare, CompareEV, CompareSplit;
    var x, y, z := Split(a), Split(b), Split(c);
    SplitParts(a);
    SplitParts(b);
    SplitParts(c);
    if DropsUpper(x, y, z) {
      var r := if x.release == "" || Rpm.Compare(x.release, z.release) <= 0 then z.release else x.release;
      fix := NewerRelease(b, r);
      NewerReleaseSplits(b, r);
      AppendedIsNewer(r);
      RpmOrderLaws(x.release, z.release, x.release);
      Rpm.SameStrings(r);
      AntisymmetricAt(fix, c);
      UpperWitness(x, y, z, Split(fix), r);
    } else if z.release != "" && CompareEV(y, z) == 0 {
      fix := c;
      LowerWitness(x, y, z, z);
    } else {
      fix := NewerRelease(b, y.release);
      NewerReleaseSplits(b, y.release);
      AppendedIsNewer(y.release);
      SameEV(z, y, Split(fix));
      EVBound(y, z);
      LowerWitness(x, y, z, Split(fix));
    }
  }

  lemma EVBound(x: EVR, y: EVR)
    requires CompareSplit(x, y) <= 0
    ensures CompareEV(x, y) <= 0
  {
  }

  lemma AntisymmetricAt(a: string, b: string)
    ensures Compare(a, b) == -Compare(b, a)
  {
    CompareIsStrictPartialOrder(a, b, a);
  }

  lemma UpperWitness(x: EVR, y: EVR, z: EVR, f: EVR, r: string)
    requires CompareSplit(x, y) <= 0 && CompareSplit(y, z) <= 0 && DropsUpper(x, y, z)
    requires f.epoch == y.epoch && f.version == y.version && f.release != ""
    requires Rpm.Compare(r, f.release) < 0 && Rpm.Compare(z.release, r) <= 0
    requires x.release != "" ==> Rpm.Compare(x.release, r) <= 0
    ensures CompareSplit(x, f) < 0 && CompareSplit(f, y) <= 0 && CompareSplit(f, z) > 0
  {
    SameEV(x, y, f);
    SameEV(z, y, f);
    hide Rpm.Compare, CompareEV;
    EVOrderLaws(y, z, z);
    EVOrderLaws(f, y, y);
    EVOrderLaws(f, z, z);
    EVOrderLaws(x, y, y);
    RpmOrderLaws(z.release, r, f.release);
    RpmOrderLaws(x.release, r, f.release);
    RpmOrderLaws(f.release, z.release, z.release);
  }

  lemma LowerWitness(x: EVR, y: EVR, z: EVR, f: EVR)
    requires CompareSplit(x, y) <= 0 && CompareSplit(y, z) <= 0 && DropsLower(x, y, z)
    requires CompareEV(y, f) == 0 && f.release != "" && Rpm.Compare(y.release, f.release) < 0
    requires f == z || CompareEV(f, z) < 0 || (CompareEV(f, z) == 0 && z.release == "")
    ensures CompareSplit(y, f) < 0 && CompareSplit(f, z) <= 0 && CompareSplit(x, f) >= 0
  {
    hide Rpm.Compare, CompareEV;
    EVOrderLaws(x, y, f);
    EVOrderLaws(f, y, x);
    EVOrderLaws(y, x, f);
    EVOrderLaws(f, z, z);
    RpmOrderLaws(z.release, z.release, z.release);
  }

  /** Editions with y's epoch and version compare with the others as y does. */
  lemma SameEV(x: EVR, y: EVR, f: EVR)
    requires f.epoch == y.epoch && f.version == y.version
    ensures CompareEV(x, f) == CompareEV(x, y) && CompareEV(f, x) == CompareEV(y, x)
    ensures CompareEV(y, f) == 0 && CompareEV(f, y) == 0
  {
    hide Rpm.Compare;
    Rpm.SameStrings(y.epoch);
    Rpm.SameStrings(y.version);
  }

  /** The interval law of the security-fix test, with its exact condition: for every
      a <= b <= c, the two halves find the fixes of the whole for all fix lists if and
      only if SplitsExactly holds. */
  lemma {:induction false} FixesSecuritySplits(a: string, b: string, c: string)
    requires Compare(a, b) <= 0 && Compare(b, c) <= 0
    ensures SplitsExactly(a, b, c) <==>
            forall fixes ::
              FixesSecurity(fixes, a, c) <==> FixesSecurity(fixes, a, b) || FixesSecurity(fixes, b, c)
  {
    hide Compare, SplitsExactly, CrossesFix;
    if SplitsExactly(a, b, c) {
      forall fixes
        ensures FixesSecurity(fixes, a, c) <==> FixesSecurity(fixes, a, b) || FixesSecurity(fixes, b, c)
      {
        SplitKeepsFixes(fixes, a, b, c);
        forall k | 0 <= k < |fixes| && (CrossesFix(fixes[k], a, b) || CrossesFix(fixes[k], b, c))
          ensures CrossesFix(fixes[k], a, c)
        {
          HalvesAddNothing(fixes[k], a, b, c);
        }
      }
    } else {
      var fix := HalfFindsMore(a, b, c);
      var fixes := [fix];
      assert fixes[0] == fix;
      assert !FixesSecurity(fixes, a, c);
      assert FixesSecurity(fixes, a, b) || FixesSecurity(fixes, b, c);
    }
  }

  /** With a release on a and b, the condition always holds. */
  lemma ReleasesSplitExactly(a: string, b: string, c: string)
    requires Split(a).release != "" && Split(b).release != ""
    ensures SplitsExactly(a, b, c)
  {
  }

  /** Missing releases can make a half find a fix that the whole upgrade does not cross. */
  lemma {:induction false} MissingReleaseBreaksSplit()
    ensures Compare("1-1", "1") <= 0 && Compare("1", "1-2") <= 0 && !SplitsExactly("1-1", "1", "1-2")
  {
    TieIsNotTransitive();
    SplitsAre();
    hide Split, Compare;
    Rpm.SameStrings("0");
    Rpm.SameStrings("1");
  }

  // ----- when ties chain

  /** Chains through b hold for all neighbours exactly when b has a release. */
  lemma {:induction false} ChainsExactlyThroughReleases(b: string)
    ensures Split(b).release != "" <==>
            forall a, c :: Compare(a, b) <= 0 && Compare(b, c) <= 0 ==> Compare(a, c) <= 0
  {
    hide Split, CompareSplit, NewerRelease;
    if Split(b).release != "" {
      forall a, c | Compare(a, b) <= 0 && Compare(b, c) <= 0 ensures Compare(a, c) <= 0 {
        SplitOrderLaws(Split(a), Split(b), Split(c));
      }
    } else {
      var a, c := NewerRelease(b, "1.1"), NewerRelease(b, "1");
      BrokenChain(b);
      assert Compare(a, b) <= 0 && Compare(b, c) <= 0 && Compare(a, c) > 0;
    }
  }

  /** Without a release, b ties with a newer and an older release of itself. */
  lemma {:induction false} BrokenChain(b: string)
    requires Split(b).release == ""
    ensures var a, c := NewerRelease(b, "1.1"), NewerRelease(b, "1");
            Compare(a, b) == 0 && Compare(b, c) == 0 && Compare(a, c) > 0
  {
    var a, c := NewerRelease(b, "1.1"), NewerRelease(b, "1");
    NewerReleaseSplits(b, "1.1");
    NewerReleaseSplits(b, "1");
    LongerIsNewer();
    hide Split, NewerRelease, Rpm.Compare;
    SameEV(Split(b), Split(b), Split(a));
    SameEV(Split(a), Split(b), Split(c));
  }

  lemma {:induction false} LongerIsNewer()
    ensures Rpm.Compare("1.1" + ".1", "1" + ".1") > 0
  {
    AppendedIsNewer("1.1");
    assert "1" + ".1" == "1.1";
    RpmOrderLaws("1.1", "1.1" + ".1", "1.1");
    hide Rpm.Compare;
  }

  /** An edition with b's epoch and version and no release. */
  function Unreleased(b: string): string { Split(b).epoch + ":" + (Split(b).version + "-" + "") }

  lemma UnreleasedSplits(b: string)
    ensures Split(Unreleased(b)) == EVR(Split(b).epoch, Split(b).version, "")
  {
    SplitParts(b);
    hide Split;
    SplitWithEpoch(Split(b).epoch, Split(b).version + "-" + "");
    VersionReleaseOf(Split(b).epoch, Split(b).version, "");
  }

  /** "Less, then not above" gives "less" for everything above a exactly when a has no
      release: only then can no tie lead back to it. */
  lemma {:induction false} LessThenNotAboveExactly(a: string)
    ensures Split(a).release == "" <==>
            forall b, c :: Compare(a, b) < 0 && Compare(b, c) <= 0 ==> Compare(a, c) < 0
  {
    hide Split, CompareEV, NewerRelease, Unreleased, Rpm.Compare;
    if Split(a).release == "" {
      forall b, c | Compare(a, b) < 0 && Compare(b, c) <= 0 ensures Compare(a, c) < 0 {
        EVOrderLaws(Split(a), Split(b), Split(c));
      }
    } else {
      var b, c := NewerRelease(a, Split(a).release), Unreleased(a);
      SplitParts(a);
      NewerReleaseSplits(a, Split(a).release);
      UnreleasedSplits(a);
      AppendedIsNewer(Split(a).release);
      SameEV(Split(b), Split(a), Split(c));
      SameEV(Split(a), Split(a), Split(b));
      assert Compare(a, b) < 0 && Compare(b, c) <= 0 && Compare(a, c) == 0;
    }
  }

  /** A fix counts when the available edition reaches it, and not when the current one has
      it already. */
  lemma {:induction false} FixAtBounds(current: string, available: string)
    requires Compare(current, available) < 0
    ensures FixesSecurity([available], current, available) && !FixesSecurity([current], current, available)
  {
    hide Compare;
    CompareIsStrictPartialOrder(current, current, current);
    CompareIsStrictPartialOrder(available, available, available);
    assert CrossesFix([available][0], current, available);
  }
}
