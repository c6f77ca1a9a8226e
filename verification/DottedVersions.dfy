/** Purely numeric dotted versions as Windows reports them (packages/windows.go). */
module DottedVersions {
  import opened Options
  import opened Keys
  import opened Text
  import opened Decimal
  import opened PkgVersion

  const MAX_UINT64: nat := 0xffff_ffff_ffff_ffff

  /** strconv.ParseUint(f, 10, 64). */
  function ParseUint(f: string): Option<int> {
    if f == "" || !AllDigits(f) || Value(f) > MAX_UINT64 then None else Some(Value(f))
  }

  function ParseFields(fields: seq<string>): Option<seq<int>> {
    if fields == [] then Some([])
    else
      match (ParseFields(fields[..|fields| - 1]), ParseUint(fields[|fields| - 1]))
      case (Some(p), Some(n)) => Some(p + [n])
      case _ => None
  }

  function DottedText(v: string): string { TrimV(TrimSpace(v)) }

  /** The components, or None for text that is not a dotted number. */
  function Components(v: string): Option<seq<int>> {
    if DottedText(v) == "" then None else ParseFields(Fields(DottedText(v)))
  }

  lemma {:induction false} NoFieldMayFail(fields: seq<string>, k: nat)
    requires k < |fields| && ParseFields(fields[..k + 1]) == None
    ensures ParseFields(fields) == None
    decreases |fields|
  {
    if k + 1 < |fields| {
      assert fields[..|fields| - 1][..k + 1] == fields[..k + 1];
      NoFieldMayFail(fields[..|fields| - 1], k);
    } else {
      assert fields[..k + 1] == fields;
    }
  }

  method ParseDottedVersion(v: string) returns (out: seq<int>, ok: bool)
    ensures Components(v) == if ok then Some(out) else None
  {
    var t := TrimV(TrimSpace(v));
    if t == "" {
      return [], false;
    }
    var fields := Fields(t);
    hide ParseUint, Fields;
    out := [];
    for k := 0 to |fields|
      invariant ParseFields(fields[..k]) == Some(out)
    {
      assert fields[..k + 1][..k] == fields[..k];
      var n := ParseUint(fields[k]);
      if n == None {
        NoFieldMayFail(fields, k);
        return [], false;
      }
      out := out + [n.value];
    }
    assert fields[..|fields|] == fields;
    return out, true;
  }

  /** The order of two dotted versions, the shorter padded with zeros. */
  function CompareDotted(a: string, b: string): Option<int> {
    match (Components(a), Components(b))
    case (Some(p), Some(q)) => Some(ComparePadded(p, q))
    case _ => None
  }

  method CompareDottedVersions(a: string, b: string) returns (cmp: int, ok: bool)
    ensures CompareDotted(a, b) == if ok then Some(cmp) else None
  {
    hide Components;
    var p, okA := ParseDottedVersion(a);
    var q, okB := ParseDottedVersion(b);
    if !okA || !okB {
      return 0, false;
    }
    var i := 0;
    while i < |p| || i < |q|
      invariant ComparePadded(p, q) == ComparePadded(Drop(p, i), Drop(q, i))
      decreases |p| + |q| - i
    {
      var x, y := At(p, i), At(q, i);
      assert At(Drop(p, i), 0) == x && At(Drop(q, i), 0) == y;
      assert Rest(Drop(p, i)) == Drop(p, i + 1) && Rest(Drop(q, i)) == Drop(q, i + 1);
      if x != y {
        return if x < y then -1 else 1, true;
      }
      i := i + 1;
    }
    return 0, true;
  }

  lemma {:induction false} FieldsNonNegative(fields: seq<string>)
    ensures match ParseFields(fields) case Some(p) => NonNegative(p) case None => true
  {
    if fields != [] {
      FieldsNonNegative(fields[..|fields| - 1]);
    }
  }

  lemma CompareDottedAsSeqs(a: string, b: string)
    requires Components(a).Some? && Components(b).Some?
    ensures CompareDotted(a, b) ==
            Some(CompareSeqs(TrimZeros(Components(a).value), TrimZeros(Components(b).value)))
  {
    FieldsNonNegative(Fields(DottedText(a)));
    FieldsNonNegative(Fields(DottedText(b)));
    PaddedIgnoresTrailingZeros(Components(a).value, Components(b).value);
  }

  /** A total preorder on all numeric versions. */
  lemma CompareDottedOrderLaws(a: string, b: string, c: string)
    requires Components(a).Some? && Components(b).Some? && Components(c).Some?
    ensures OrderLaws(CompareDotted(a, b).value, CompareDotted(b, a).value,
                      CompareDotted(b, c).value, CompareDotted(a, c).value)
  {
    CompareDottedAsSeqs(a, b);
    CompareDottedAsSeqs(b, a);
    CompareDottedAsSeqs(b, c);
    CompareDottedAsSeqs(a, c);
    hide Components, CompareDotted, TrimZeros;
    var p, q, r := TrimZeros(Components(a).value), TrimZeros(Components(b).value), TrimZeros(Components(c).value);
    SeqsAntisymmetric(p, q);
    if CompareSeqs(p, q) <= 0 && CompareSeqs(q, r) <= 0 {
      SeqsTransitive(p, q, r);
    }
  }

  predicate VersionsEqual(a: string, b: string) {
    match CompareDotted(a, b)
    case Some(c) => c == 0
    case None => ToLower(TrimSpace(a)) == ToLower(TrimSpace(b))
  }

  /** Reflexive and symmetric; transitive among numeric and among other versions. */
  lemma VersionsEqualLaws(a: string, b: string, c: string)
    ensures VersionsEqual(a, a) && VersionsEqual(a, b) == VersionsEqual(b, a)
    ensures Components(a).Some? == Components(b).Some? && Components(b).Some? == Components(c).Some? ==>
              (VersionsEqual(a, b) && VersionsEqual(b, c) ==> VersionsEqual(a, c))
  {
    hide Components, ComparePadded, TrimSpace;
    if Components(a).Some? {
      CompareDottedOrderLaws(a, a, a);
      if Components(b).Some? {
        CompareDottedOrderLaws(a, b, a);
        CompareDottedOrderLaws(b, a, b);
        if Components(c).Some? {
          CompareDottedOrderLaws(a, b, c);
          CompareDottedOrderLaws(c, b, a);
          CompareDottedOrderLaws(c, a, c);
        }
      }
    }
  }

  // ----- when equality chains

  predicate IsDigitOrDot(c: char) { IsDigit(c) || c == '.' }

  predicate DigitsAndDots(s: string) { forall i :: 0 <= i < |s| ==> IsDigitOrDot(s[i]) }

  lemma {:induction false} FieldsParse(fields: seq<string>, k: nat)
    requires ParseFields(fields).Some? && k < |fields|
    ensures ParseUint(fields[k]).Some?
  {
    if k < |fields| - 1 {
      FieldsParse(fields[..|fields| - 1], k);
    }
  }

  lemma DigitsAndDotsJoin(a: string, c: char, rest: string)
    requires AllDigits(a) && IsDot(c) && DigitsAndDots(rest)
    ensures DigitsAndDots(a + [c] + rest) && DigitsAndDots(a)
  {
  }

  lemma {:induction false} DigitFieldsAreDigits(s: string)
    requires forall k :: 0 <= k < |Fields(s)| ==> AllDigits(Fields(s)[k])
    ensures DigitsAndDots(s)
    decreases |s|
  {
    FieldsUnfold(s);
    hide AllDigits, DigitsAndDots, Fields, IndexWhere;
    var i := IndexWhere(s, IsDot);
    assert AllDigits(Fields(s)[0]);
    if i < |s| {
      var rest := s[i + 1..];
      forall k | 0 <= k < |Fields(rest)| ensures AllDigits(Fields(rest)[k]) {
        assert Fields(rest)[k] == Fields(s)[k + 1];
      }
      DigitFieldsAreDigits(rest);
      DigitsAndDotsJoin(s[..i], s[i], rest);
      assert s == s[..i] + [s[i]] + rest;
    } else {
      DigitsAlone(s);
    }
  }

  lemma {:induction false} FieldsUnfold(s: string)
    ensures var i := IndexWhere(s, IsDot);
            if i < |s| then Fields(s) == [s[..i]] + Fields(s[i + 1..]) && IsDot(s[i])
            else Fields(s) == [s] && s[..i] == s
  {
    hide IndexWhere;
  }

  lemma DigitsAlone(s: string)
    requires AllDigits(s)
    ensures DigitsAndDots(s)
  {
  }

  /** A numeric version is digits and dots, but for spaces around it and one v. */
  lemma {:induction false} NumericText(b: string)
    requires Components(b).Some?
    ensures DottedText(b) != "" && DigitsAndDots(DottedText(b))
    ensures TrimSpace(b) == DottedText(b) || TrimSpace(b) == "v" + DottedText(b)
    ensures ToLower(TrimSpace(b)) == TrimSpace(b)
  {
    var d := DottedText(b);
    forall k | 0 <= k < |Fields(d)| ensures AllDigits(Fields(d)[k]) {
      FieldsParse(Fields(d), k);
    }
    DigitFieldsAreDigits(d);
    hide TrimSpace, Fields;
    if HasPrefix(TrimSpace(b), "v") {
      assert TrimSpace(b) == "v" + d;
    }
  }

  /** Text of digits and dots is its own dotted text, with a V before it it is none. */
  lemma {:induction false} DottedAgain(d: string)
    requires d != "" && DigitsAndDots(d)
    ensures TrimSpace(d) == d && DottedText(d) == d
    ensures TrimSpace("V" + d) == "V" + d && Components("V" + d) == None
  {
    TrimmedStays(d);
    TrimmedStays("V" + d);
    var e := "V" + d;
    assert DottedText(e) == e;
    var f := Fields(e)[0];
    assert f == e[..IndexWhere(e, IsDot)] && f[0] == 'V';
    if ParseFields(Fields(e)).Some? {
      FieldsParse(Fields(e), 0);
    }
  }

  lemma TrimmedStays(s: string)
    requires s != "" && !IsSpace(s[0]) && !IsSpace(s[|s| - 1])
    ensures TrimSpace(s) == s
  {
    PrefixLenIs(s, IsSpace, 0);
  }

  /** A numeric version written with a v, which folds to texts that are not numeric. */
  predicate HasV(b: string) { Components(b).Some? && HasPrefix(TrimSpace(b), "v") }

  lemma {:induction false} SameTextSameComponents(a: string, b: string)
    requires TrimSpace(a) == TrimSpace(b)
    ensures Components(a) == Components(b)
  {
  }

  /** Chains through b hold for all neighbours exactly when b is not a numeric version
      written with a v. */
  lemma {:induction false} EqualityChainsExactly(b: string)
    ensures !HasV(b) <==> forall a, c :: VersionsEqual(a, b) && VersionsEqual(b, c) ==> VersionsEqual(a, c)
  {
    hide Components, TrimSpace, VersionsEqual;
    if HasV(b) {
      var d := DottedText(b);
      BrokenEquality(b);
      assert VersionsEqual(d, b) && VersionsEqual(b, "V" + d) && !VersionsEqual(d, "V" + d);
    } else {
      forall a, c | VersionsEqual(a, b) && VersionsEqual(b, c) ensures VersionsEqual(a, c) {
        EqualityChains(a, b, c);
      }
    }
  }

  lemma LowerOfDigits(d: string)
    requires DigitsAndDots(d)
    ensures ToLower(d) == d && ToLower("V" + d) == "v" + d
  {
    assert |ToLower("V" + d)| == |"v" + d|;
  }

  lemma {:induction false} BrokenEquality(b: string)
    requires HasV(b)
    ensures var d := DottedText(b);
            VersionsEqual(d, b) && VersionsEqual(b, "V" + d) && !VersionsEqual(d, "V" + d)
  {
    var d := DottedText(b);
    NumericText(b);
    DottedAgain(d);
    LowerOfDigits(d);
    CompareDottedOrderLaws(b, b, b);
    assert Components(d) == Components(b);
    hide Components, TrimSpace, DottedText, ToLower, DigitsAndDots, ComparePadded;
  }

  lemma {:induction false} EqualityChains(a: string, b: string, c: string)
    requires VersionsEqual(a, b) && VersionsEqual(b, c) && !HasV(b)
    ensures VersionsEqual(a, c)
  {
    VersionsEqualLaws(a, b, c);
    if Components(b).Some? {
      OnlyNumericEquals(a, b);
      VersionsEqualLaws(b, c, b);
      OnlyNumericEquals(c, b);
    } else if Components(a).Some? && Components(c).Some? {
      NumericText(a);
      NumericText(c);
      SameTextSameComponents(a, c);
      CompareDottedOrderLaws(a, a, a);
    }
    hide Components, TrimSpace;
  }

  lemma {:induction false} OnlyNumericEquals(a: string, b: string)
    requires VersionsEqual(a, b) && Components(b).Some? && !HasV(b)
    ensures Components(a).Some?
  {
    if Components(a).None? {
      NumericText(b);
      FoldedDigits(TrimSpace(a), TrimSpace(b));
      SameTextSameComponents(a, b);
    }
  }

  lemma FoldedDigits(s: string, t: string)
    requires ToLower(s) == ToLower(t) && DigitsAndDots(t)
    ensures s == t
  {
    assert |s| == |ToLower(s)| == |t|;
    forall i | 0 <= i < |s| ensures s[i] == t[i] {
      assert ToLower(s)[i] == ToLower(t)[i] && IsDigitOrDot(t[i]);
    }
  }

  predicate IsUnknownVersion(v: string) {
    var t := TrimSpace(v);
    t == "" || ToLower(t) == "unknown"
  }

  /** Non-numeric versions leave it to winget. */
  predicate InstalledIsOlder(installed: string, available: string) {
    !IsUnknownVersion(installed) &&
    match CompareDotted(installed, available)
    case Some(c) => c < 0
    case None => true
  }
}
