/** Release versions of the agent (pkgversion/compare.go) and the config migration
    steps that are chosen by comparing them (config/migrate.go). */
module PkgVersion {
  import opened Keys
  import opened Text
  import opened Decimal

  predicate IsDot(c: char) { c == '.' }

  predicate IsPlus(c: char) { c == '+' }

  predicate IsDash(c: char) { c == '-' }

  /** strings.Split on a dot: always at least one field. */
  function Fields(s: string): (r: seq<string>)
    ensures r != []
  {
    var i := IndexWhere(s, IsDot);
    if i == |s| then [s] else [s[..i]] + Fields(s[i + 1..])
  }

  function TrimV(s: string): string { if HasPrefix(s, "v") then s[1..] else s }

  /** Core and pre-release of a version, build metadata dropped. */
  function SplitPreRelease(version: string): (string, string) {
    var v := TrimSpace(TrimV(TrimSpace(version)));
    var w := v[..IndexWhere(v, IsPlus)];
    var i := IndexWhere(w, IsDash);
    if i < |w| then (w[..i], w[i + 1..]) else (w, "")
  }

  /** A version component; text that is no number reads as 0. */
  function Part(field: string): int { Atoi(TrimSpace(TrimV(field))).0 }

  function Parts(fields: seq<string>): (r: seq<int>)
    ensures |r| == |fields| && forall i :: 0 <= i < |r| ==> r[i] == Part(fields[i])
  {
    seq(|fields|, i requires 0 <= i < |fields| => Part(fields[i]))
  }

  method ParseVersionParts(v: string) returns (out: seq<int>)
    ensures out == Parts(Fields(v))
  {
    var parts := Fields(v);
    hide Fields, TrimSpace, TrimV, Atoi;
    out := [];
    for k := 0 to |parts|
      invariant |out| == k && forall i :: 0 <= i < k ==> out[i] == Part(parts[i])
    {
      var p := TrimSpace(TrimV(parts[k]));
      out := out + [Atoi(p).0];
    }
  }

  // ----- numeric components, the shorter list padded with zeros

  function At(p: seq<int>, i: nat): int { if i < |p| then p[i] else 0 }

  /** A component list without its trailing zeros. */
  function TrimZeros(p: seq<int>): seq<int> {
    if p == [] then []
    else if p[0] == 0 && TrimZeros(p[1..]) == [] then []
    else [p[0]] + TrimZeros(p[1..])
  }

  predicate NonNegative(p: seq<int>) { forall i :: 0 <= i < |p| ==> p[i] >= 0 }

  function Rest(p: seq<int>): seq<int> { if p == [] then [] else p[1..] }

  /** The order of two lists after padding. */
  function ComparePadded(p: seq<int>, q: seq<int>): int
    decreases |p| + |q|
  {
    if p == [] && q == [] then 0
    else if At(p, 0) != At(q, 0) then CompareInts(At(p, 0), At(q, 0))
    else ComparePadded(Rest(p), Rest(q))
  }

  method CompareNumericParts(p: seq<int>, q: seq<int>) returns (r: int)
    ensures r == ComparePadded(p, q)
  {
    var maxLen := |p|;
    if |q| > maxLen {
      maxLen := |q|;
    }
    for i := 0 to maxLen
      invariant ComparePadded(p, q) == ComparePadded(Drop(p, i), Drop(q, i))
    {
      var a, b := At(p, i), At(q, i);
      assert At(Drop(p, i), 0) == a && At(Drop(q, i), 0) == b;
      assert Rest(Drop(p, i)) == Drop(p, i + 1) && Rest(Drop(q, i)) == Drop(q, i + 1);
      if a > b {
        return 1;
      }
      if a < b {
        return -1;
      }
    }
    return 0;
  }

  function Drop(p: seq<int>, i: nat): seq<int> { if i <= |p| then p[i..] else [] }

  /** Padding with zeros is ignoring trailing zeros. */
  lemma {:induction false} PaddedIgnoresTrailingZeros(p: seq<int>, q: seq<int>)
    requires NonNegative(p) && NonNegative(q)
    ensures ComparePadded(p, q) == CompareSeqs(TrimZeros(p), TrimZeros(q))
    decreases |p| + |q|
  {
    if p != [] || q != [] {
      PaddedIgnoresTrailingZeros(Rest(p), Rest(q));
      if p != [] && q != [] {
        CompareSeqsHead(p[0], q[0], TrimZeros(p[1..]), TrimZeros(q[1..]));
      }
    }
  }

  // ----- pre-releases

  /** A numeric identifier ranks below a textual one. */
  function IdentifierKey(id: string): seq<int> {
    var (n, ok) := Atoi(id);
    if ok then [0, n] else [1] + Codes(id)
  }

  function IdentifierKeys(ids: seq<string>): (k: Key)
    ensures |k| == |ids| && forall i :: 0 <= i < |k| ==> k[i] == IdentifierKey(ids[i])
  {
    seq(|ids|, i requires 0 <= i < |ids| => IdentifierKey(ids[i]))
  }

  /** Two identifiers at one position: numbers as numbers, text as text, a number first. */
  function CompareIdentifiers(a: string, b: string): int {
    var (na, okA) := Atoi(a);
    var (nb, okB) := Atoi(b);
    if okA && okB then CompareInts(na, nb)
    else if okA then -1
    else if okB then 1
    else CompareStrings(a, b)
  }

  lemma IdentifiersCompareAsKeys(a: string, b: string)
    ensures CompareIdentifiers(a, b) == CompareSeqs(IdentifierKey(a), IdentifierKey(b))
  {
    var (na, okA) := Atoi(a);
    var (nb, okB) := Atoi(b);
    CompareSeqsHead(if okA then 0 else 1, if okB then 0 else 1,
                    IdentifierKey(a)[1..], IdentifierKey(b)[1..]);
    assert IdentifierKey(a) == [IdentifierKey(a)[0]] + IdentifierKey(a)[1..];
    assert IdentifierKey(b) == [IdentifierKey(b)[0]] + IdentifierKey(b)[1..];
    if okA && okB {
      CompareSeqsHead(na, nb, [], []);
      assert IdentifierKey(a)[1..] == [na] + [] && IdentifierKey(b)[1..] == [nb] + [];
    } else if !okA && !okB {
      assert IdentifierKey(a)[1..] == Codes(a) && IdentifierKey(b)[1..] == Codes(b);
    }
  }

  method ComparePreRelease(pre1: string, pre2: string) returns (r: int)
    ensures r == CompareKeys(IdentifierKeys(Fields(pre1)), IdentifierKeys(Fields(pre2)))
  {
    hide IdentifierKey, Atoi;
    var a, b := Fields(pre1), Fields(pre2);
    ghost var ka, kb := IdentifierKeys(a), IdentifierKeys(b);
    var maxLen := |a|;
    if |b| > maxLen {
      maxLen := |b|;
    }
    for i := 0 to maxLen
      invariant i <= |a| && i <= |b|
      invariant CompareKeys(ka, kb) == CompareKeys(ka[i..], kb[i..])
    {
      if i >= |a| {
        return -1;
      }
      if i >= |b| {
        return 1;
      }
      assert ka[i..] == [ka[i]] + ka[i + 1..] && kb[i..] == [kb[i]] + kb[i + 1..];
      CompareKeysHead(ka[i], kb[i], ka[i + 1..], kb[i + 1..]);
      IdentifiersCompareAsKeys(a[i], b[i]);
      SeqsAntisymmetric(ka[i], kb[i]);
      var na, errA := Atoi(a[i]).0, !Atoi(a[i]).1;
      var nb, errB := Atoi(b[i]).0, !Atoi(b[i]).1;
      if !errA && !errB {
        if na != nb {
          if na > nb {
            return 1;
          }
          return -1;
        }
      } else if !errA {
        return -1;
      } else if !errB {
        return 1;
      } else {
        var c := CompareStrings(a[i], b[i]);
        if c != 0 {
          if c > 0 {
            return 1;
          }
          return -1;
        }
      }
    }
    return 0;
  }

  // ----- Semantic Versioning 2.0.0, item 11

  /** Digits only: a number of any length. */
  predicate IsNumeric(id: string) { id != "" && AllDigits(id) }

  /** Numeric identifiers compare as numbers, others as ASCII text, and a numeric one has
      lower precedence than any other. */
  function IdentifierPrecedence(a: string, b: string): int {
    if IsNumeric(a) && IsNumeric(b) then CompareInts(Value(a), Value(b))
    else if IsNumeric(a) then -1
    else if IsNumeric(b) then 1
    else CompareStrings(a, b)
  }

  /** The first difference decides; if there is none, the list with more fields is higher. */
  function Precedence(a: seq<string>, b: seq<string>): int {
    if a == [] then (if b == [] then 0 else -1)
    else if b == [] then 1
    else if IdentifierPrecedence(a[0], b[0]) != 0 then IdentifierPrecedence(a[0], b[0])
    else Precedence(a[1..], b[1..])
  }

  /** The parser takes the identifier for a number exactly when it is numeric: no number
      beyond 64 bits, and no signed one. */
  predicate IsUsual(id: string) { Atoi(id).1 <==> IsNumeric(id) }

  predicate AllUsual(ids: seq<string>) { forall i :: 0 <= i < |ids| ==> IsUsual(ids[i]) }

  lemma UsualValue(id: string)
    ensures IsUsual(id) && IsNumeric(id) ==> Atoi(id) == (Value(id), true)
  {
  }

  lemma {:induction false} UsualIdentifiersAgree(a: string, b: string)
    requires IsUsual(a) && IsUsual(b)
    ensures CompareIdentifiers(a, b) == IdentifierPrecedence(a, b)
  {
    UsualValue(a);
    UsualValue(b);
    hide Atoi, IsNumeric, CompareStrings;
  }

  /** A usual identifier that an unusual one is ordered against differently. */
  function Witness(id: string): string {
    if IsNumeric(id) then "-" else if HasPrefix(id, "-") then "1" else ""
  }

  /** An identifier as Semantic Versioning writes it. */
  predicate IsLegal(id: string) {
    id != "" && forall i :: 0 <= i < |id| ==> IsDigit(id[i]) || IsLetter(id[i]) || id[i] == '-'
  }

  predicate AllLegal(ids: seq<string>) { forall i :: 0 <= i < |ids| ==> IsLegal(ids[i]) }

  lemma {:induction false} UnusualDisagrees(id: string)
    requires !IsUsual(id)
    ensures IsUsual(Witness(id)) && (IsLegal(id) ==> IsLegal(Witness(id)))
    ensures var w := Witness(id);
            CompareIdentifiers(id, w) != 0 && IdentifierPrecedence(id, w) == -CompareIdentifiers(id, w)
  {
    if IsNumeric(id) {
      CompareSeqsHead(id[0] as int, '-' as int, Codes(id)[1..], []);
      assert Codes(id) == [id[0] as int] + Codes(id)[1..] && Codes("-") == ['-' as int] + [];
    } else {
      assert Value("1"[1..]) == 0 && Value("1") == 1;
    }
  }

  /** The source orders an identifier as item 11 does, against every identifier of the
      usual kind, exactly when it is of that kind itself. */
  lemma {:induction false} IdentifierFollowsItem11Exactly(a: string)
    ensures IsUsual(a) <==> forall b :: IsUsual(b) ==> CompareIdentifiers(a, b) == IdentifierPrecedence(a, b)
  {
    if IsUsual(a) {
      forall b | IsUsual(b) ensures CompareIdentifiers(a, b) == IdentifierPrecedence(a, b) {
        UsualIdentifiersAgree(a, b);
      }
    } else {
      UnusualDisagrees(a);
    }
  }

  /** The order of identifier lists that the source decides. */
  function CompareLists(a: seq<string>, b: seq<string>): int {
    CompareKeys(IdentifierKeys(a), IdentifierKeys(b))
  }

  lemma {:induction false} CompareListsStep(a: seq<string>, b: seq<string>)
    requires a != [] && b != []
    ensures CompareLists(a, b) ==
            if CompareIdentifiers(a[0], b[0]) != 0 then CompareIdentifiers(a[0], b[0])
            else CompareLists(a[1..], b[1..])
  {
    var x, y := IdentifierKey(a[0]), IdentifierKey(b[0]);
    IdentifiersCompareAsKeys(a[0], b[0]);
    hide IdentifierKey, CompareIdentifiers;
    assert IdentifierKeys(a) == [x] + IdentifierKeys(a[1..]) && IdentifierKeys(b) == [y] + IdentifierKeys(b[1..]);
    CompareKeysHead(x, y, IdentifierKeys(a[1..]), IdentifierKeys(b[1..]));
    SeqsAntisymmetric(x, y);
  }

  lemma {:induction false} UsualListsAgree(a: seq<string>, b: seq<string>)
    requires AllUsual(a) && AllUsual(b)
    ensures CompareLists(a, b) == Precedence(a, b)
  {
    hide IsUsual, CompareIdentifiers, IdentifierPrecedence;
    if a != [] && b != [] {
      CompareListsStep(a, b);
      UsualIdentifiersAgree(a[0], b[0]);
      UsualListsAgree(a[1..], b[1..]);
    }
  }

  /** A list of usual identifiers that this list is ordered against differently. */
  lemma {:induction false} UnusualListDisagrees(a: seq<string>) returns (b: seq<string>)
    requires !AllUsual(a)
    ensures AllUsual(b) && CompareLists(a, b) != Precedence(a, b)
    ensures AllLegal(a) ==> AllLegal(b)
  {
    hide IsUsual, IsLegal, CompareIdentifiers, IdentifierPrecedence, Witness;
    if IsUsual(a[0]) {
      var rest := UnusualListDisagrees(a[1..]);
      b := [a[0]] + rest;
      assert b[1..] == rest;
      CompareListsStep(a, b);
      EqualIdentifiers(a[0]);
    } else {
      b := [Witness(a[0])];
      UnusualDisagrees(a[0]);
      CompareListsStep(a, b);
    }
  }

  lemma EqualIdentifiers(id: string)
    ensures CompareIdentifiers(id, id) == 0 && IdentifierPrecedence(id, id) == 0
  {
    SeqsAntisymmetric(Codes(id), Codes(id));
  }

  /** A pre-release is ordered as item 11 orders it, against every pre-release of usual
      identifiers, exactly when its own identifiers are usual. */
  lemma {:induction false} PreReleaseFollowsItem11Exactly(a: seq<string>)
    ensures AllUsual(a) <==> forall b :: AllUsual(b) ==> CompareLists(a, b) == Precedence(a, b)
    ensures AllLegal(a) ==>
              (AllUsual(a) <==>
               forall b :: AllUsual(b) && AllLegal(b) ==> CompareLists(a, b) == Precedence(a, b))
  {
    if AllUsual(a) {
      forall b | AllUsual(b) ensures CompareLists(a, b) == Precedence(a, b) {
        UsualListsAgree(a, b);
      }
    } else {
      var b := UnusualListDisagrees(a);
    }
  }

  /** A signed identifier: below "3" for the source, above it for item 11. */
  lemma {:induction false} SignedIdentifierDeparts()
    ensures CompareIdentifiers("-5", "3") == -1 && IdentifierPrecedence("-5", "3") == 1
  {
    assert Value("5"[1..]) == 0 && Value("3"[1..]) == 0;
    assert Value("5") == 5 && Value("3") == 3;
    assert "-5"[1..] == "5";
  }

  lemma Pow10Of19()
    ensures Pow10(19) == 10_000_000_000_000_000_000
  {
    assert Pow10(4) == 10_000;
    assert Pow10(8) == 100_000_000;
    assert Pow10(12) == 1_000_000_000_000;
    assert Pow10(16) == 10_000_000_000_000_000;
  }

  lemma LongValue(s: string)
    requires |s| >= 20 && AllDigits(s) && s[0] != '0'
    ensures Value(s) > MAX_INT
  {
    Pow10Of19();
    PowMonotone(19, |s| - 1);
    Multiples(0, DigitValue(s[0]), Pow10(|s| - 1));
    hide Pow10;
  }

  /** Two numbers beyond 64 bits: text for the source, numbers for item 11. */
  lemma {:induction false} LongIdentifiersDepart(a: string, b: string)
    requires AllDigits(a) && AllDigits(b) && 20 <= |a| < |b| && a[0] > b[0] > '0'
    ensures CompareIdentifiers(a, b) == 1 && IdentifierPrecedence(a, b) == -1
  {
    LongValue(a);
    LongValue(b);
    LongerValues(a, b);
    CompareSeqsHead(a[0] as int, b[0] as int, Codes(a)[1..], Codes(b)[1..]);
    assert Codes(a) == [a[0] as int] + Codes(a)[1..] && Codes(b) == [b[0] as int] + Codes(b)[1..];
  }

  // ----- versions

  /** The key of a version: its components, whether it is a release, its pre-release. */
  function VersionKey(v: string): Key {
    var (core, pre) := SplitPreRelease(v);
    [TrimZeros(Parts(Fields(core)))] +
    if pre == "" then [[1]] else [[0]] + IdentifierKeys(Fields(pre))
  }

  /** The order Compare decides. */
  function Order(a: string, b: string): int {
    CompareKeys(VersionKey(a), VersionKey(b))
  }

  lemma {:induction false} FieldsKeepSigns(s: string)
    requires '-' !in s
    ensures forall i :: 0 <= i < |Fields(s)| ==> '-' !in Fields(s)[i]
    decreases |s|
  {
    var i := IndexWhere(s, IsDot);
    if i < |s| {
      FieldsKeepSigns(s[i + 1..]);
    }
  }

  lemma {:induction false} CorePartsNonNegative(v: string)
    ensures NonNegative(Parts(Fields(SplitPreRelease(v).0)))
  {
    var core := SplitPreRelease(v).0;
    assert '-' !in core;
    hide SplitPreRelease;
    FieldsKeepSigns(core);
    forall i | 0 <= i < |Fields(core)| ensures Part(Fields(core)[i]) >= 0 {
      PartNonNegative(Fields(core)[i]);
    }
  }

  lemma PartNonNegative(field: string)
    requires '-' !in field
    ensures Part(field) >= 0
  {
    var t := TrimLeft(TrimV(field), IsSpace);
    assert '-' !in t;
    assert TrimSpace(TrimV(field)) <= t;
  }

  lemma {:induction false} OrderSteps(a: string, b: string)
    ensures var (c1, pre1) := SplitPreRelease(a);
            var (c2, pre2) := SplitPreRelease(b);
            var n := ComparePadded(Parts(Fields(c1)), Parts(Fields(c2)));
            Order(a, b) == if n != 0 then n
                           else if pre1 == "" && pre2 == "" then 0
                           else if pre1 == "" then 1
                           else if pre2 == "" then -1
                           else CompareKeys(IdentifierKeys(Fields(pre1)), IdentifierKeys(Fields(pre2)))
  {
    CorePartsNonNegative(a);
    CorePartsNonNegative(b);
    hide SplitPreRelease, Parts, IdentifierKeys, TrimZeros;
    var (c1, pre1) := SplitPreRelease(a);
    var (c2, pre2) := SplitPreRelease(b);
    var p, q := Parts(Fields(c1)), Parts(Fields(c2));
    PaddedIgnoresTrailingZeros(p, q);
    SeqsAntisymmetric(TrimZeros(p), TrimZeros(q));
    var ka, kb := VersionKey(a)[1..], VersionKey(b)[1..];
    CompareKeysHead(TrimZeros(p), TrimZeros(q), ka, kb);
    var r1, r2 := if pre1 == "" then [1] else [0], if pre2 == "" then [1] else [0];
    CompareKeysHead(r1, r2, ka[1..], kb[1..]);
    assert VersionKey(a) == [TrimZeros(p)] + ka && VersionKey(b) == [TrimZeros(q)] + kb;
    assert ka == [r1] + ka[1..] && kb == [r2] + kb[1..];
  }

  method Compare(a: string, b: string) returns (r: int)
    ensures r == Order(a, b)
  {
    hide Order, SplitPreRelease;
    OrderSteps(a, b);
    var (c1, pre1) := SplitPreRelease(a);
    var (c2, pre2) := SplitPreRelease(b);
    var p := ParseVersionParts(c1);
    var q := ParseVersionParts(c2);
    var c := CompareNumericParts(p, q);
    if c != 0 {
      return c;
    }
    if pre1 == "" && pre2 == "" {
      return 0;
    }
    if pre1 == "" {
      return 1;
    }
    if pre2 == "" {
      return -1;
    }
    r := ComparePreRelease(pre1, pre2);
  }

  /** A total preorder on all strings. */
  lemma {:induction false} CompareOrderLaws(a: string, b: string, c: string)
    ensures OrderLaws(Order(a, b), Order(b, a), Order(b, c), Order(a, c))
  {
    KeysOrderLaws(VersionKey(a), VersionKey(b), VersionKey(c));
  }

  // ----- migration

  datatype Config = Config(hostID: string, configVersion: string)

  datatype Step = Step(version: string, apply: Config -> Config)

  predicate ValidHostID(id: string) {
    1 <= |id| <= 64 && forall i :: 0 <= i < |id| ==> IsLetter(id[i]) || IsDigit(id[i]) || id[i] == '-'
  }

  /** The 2.1.4 step: a host ID is trimmed, and dropped when it is not one. */
  function Migrate214(c: Config): Config {
    var id := TrimSpace(c.hostID);
    c.(hostID := if id != "" && !ValidHostID(id) then "" else id)
  }

  /** The step is newer than the config. */
  predicate Applies(step: Step, configVersion: string) {
    Order(step.version, configVersion) > 0
  }

  /** The config after the steps newer than it, in order, and the steps that ran. */
  function RunSteps(c: Config, steps: seq<Step>): (Config, seq<string>) {
    if steps == [] then (c, [])
    else
      var step := steps[|steps| - 1];
      var (d, ran) := RunSteps(c, steps[..|steps| - 1]);
      if Applies(step, d.configVersion) then (step.apply(d), ran + [step.version]) else (d, ran)
  }

  method MigrateConfig(c: Config, binaryVersion: string, steps: seq<Step>)
    returns (d: Config, ran: seq<string>)
    ensures c.configVersion == binaryVersion ==> d == c && ran == []
    ensures c.configVersion != binaryVersion ==>
              ran == RunSteps(c, steps).1 &&
              d == RunSteps(c, steps).0.(configVersion := binaryVersion)
  {
    hide Order;
    d, ran := c, [];
    if c.configVersion == binaryVersion {
      return;
    }
    for k := 0 to |steps|
      invariant (d, ran) == RunSteps(c, steps[..k])
    {
      assert steps[..k + 1][..k] == steps[..k];
      var r := Compare(steps[k].version, d.configVersion);
      if r > 0 {
        d := steps[k].apply(d);
        ran := ran + [steps[k].version];
      }
    }
    assert steps[..|steps|] == steps;
    d := d.(configVersion := binaryVersion);
  }

  predicate KeepsVersion(step: Step, c: Config) { step.apply(c).configVersion == c.configVersion }

  /** The versions of the steps newer than a config version. */
  function Selected(steps: seq<Step>, configVersion: string): seq<string> {
    if steps == [] then []
    else
      Selected(steps[..|steps| - 1], configVersion) +
      if Applies(steps[|steps| - 1], configVersion) then [steps[|steps| - 1].version] else []
  }

  /** Steps that leave the version alone are chosen by the version on disk. */
  lemma {:induction false} RanIsSelected(c: Config, steps: seq<Step>)
    requires forall k, x :: 0 <= k < |steps| ==> KeepsVersion(steps[k], x)
    ensures RunSteps(c, steps).1 == Selected(steps, c.configVersion)
    ensures RunSteps(c, steps).0.configVersion == c.configVersion
  {
    hide Order;
    if steps != [] {
      RanIsSelected(c, steps[..|steps| - 1]);
      assert KeepsVersion(steps[|steps| - 1], RunSteps(c, steps[..|steps| - 1]).0);
    }
  }

  lemma {:induction false} NewerConfigSkips(step: Step, older: string, newer: string)
    requires Order(older, newer) <= 0
    ensures Applies(step, newer) ==> Applies(step, older)
    ensures Order(older, newer) == 0 ==> (Applies(step, newer) <==> Applies(step, older))
  {
    hide Order;
    CompareOrderLaws(older, newer, step.version);
    CompareOrderLaws(newer, older, step.version);
    CompareOrderLaws(step.version, older, older);
    CompareOrderLaws(step.version, newer, newer);
  }

  /** A newer config runs a subset of the steps an older one runs, and a config of the
      same rank runs the same steps. */
  lemma {:induction false} NewerConfigRunsFewerSteps(steps: seq<Step>, older: string, newer: string)
    requires Order(older, newer) <= 0
    ensures multiset(Selected(steps, newer)) <= multiset(Selected(steps, older))
    ensures Order(older, newer) == 0 ==> Selected(steps, newer) == Selected(steps, older)
  {
    hide Order, Applies;
    if steps != [] {
      NewerConfigRunsFewerSteps(steps[..|steps| - 1], older, newer);
      NewerConfigSkips(steps[|steps| - 1], older, newer);
    }
  }

  /** After a migration the config carries the binary's version and nothing runs again. */
  lemma {:induction false} MigrationIsDone(c: Config, steps: seq<Step>, binaryVersion: string)
    requires forall k, x :: 0 <= k < |steps| ==> KeepsVersion(steps[k], x)
    requires forall k :: 0 <= k < |steps| ==> Order(steps[k].version, binaryVersion) <= 0
    ensures Selected(steps, binaryVersion) == []
    ensures RunSteps(c.(configVersion := binaryVersion), steps) == (c.(configVersion := binaryVersion), [])
  {
    hide Order;
    if steps != [] {
      MigrationIsDone(c, steps[..|steps| - 1], binaryVersion);
    }
  }

  lemma TrimSpaceIdempotent(s: string)
    ensures TrimSpace(TrimSpace(s)) == TrimSpace(s)
  {
    var l := TrimLeft(s, IsSpace);
    var t := TrimSpace(s);
    if t != "" {
      assert t[0] == l[0];
      PrefixLenIs(t, IsSpace, 0);
    }
  }

  /** The step leaves an empty or a valid host ID, and running it again changes nothing,
      so a release candidate's config may run its release's step twice. */
  lemma Migrate214Idempotent(c: Config)
    ensures Migrate214(Migrate214(c)) == Migrate214(c)
    ensures Migrate214(c).hostID == "" || ValidHostID(Migrate214(c).hostID)
    ensures ValidHostID(c.hostID) ==> Migrate214(c) == c
  {
    TrimSpaceIdempotent(c.hostID);
    if ValidHostID(c.hostID) {
      assert !IsSpace(c.hostID[0]) && !IsSpace(c.hostID[|c.hostID| - 1]);
      PrefixLenIs(c.hostID, IsSpace, 0);
    }
  }
}
