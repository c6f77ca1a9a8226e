/** What comparing two written release versions of the agent gives, on their parts:
    the first component that differs decides, then having no pre-release, then item 11
    of Semantic Versioning 2.0.0; build metadata never does. */
module PkgWritten {
  import opened Keys
  import opened Text
  import opened Decimal
  import opened PkgVersion

  function JoinDots(fields: seq<string>): string {
    if fields == [] then "" else if |fields| == 1 then fields[0] else fields[0] + "." + JoinDots(fields[1..])
  }

  /** Components in digits that fit an int, a pre-release without spaces or a plus, and
      build metadata without spaces. */
  datatype Written = Written(parts: seq<string>, pre: string, build: string)

  predicate IsWritten(v: Written) {
    && v.parts != [] && (forall i :: 0 <= i < |v.parts| ==> IsNumeric(v.parts[i]) && Value(v.parts[i]) <= MAX_INT)
    && (forall i :: 0 <= i < |v.pre| ==> !IsSpace(v.pre[i]) && v.pre[i] != '+')
    && forall i :: 0 <= i < |v.build| ==> !IsSpace(v.build[i])
  }

  function Print(v: Written): string {
    JoinDots(v.parts) + (if v.pre == "" then "" else "-" + v.pre) + if v.build == "" then "" else "+" + v.build
  }

  function Values(parts: seq<string>): (r: seq<int>)
    requires forall i :: 0 <= i < |parts| ==> AllDigits(parts[i])
    ensures |r| == |parts| && forall i :: 0 <= i < |r| ==> r[i] == Value(parts[i])
  {
    seq(|parts|, i requires 0 <= i < |parts| => Value(parts[i]))
  }

  /** The lists agree before k, and at k the first has the lower component; a component
      that is missing counts as 0. */
  predicate LowerFirstAt(p: seq<int>, q: seq<int>, k: nat) {
    At(p, k) < At(q, k) && forall i: nat :: i < k ==> At(p, i) == At(q, i)
  }

  /** The first component that differs decides. */
  lemma {:induction false} PaddedMeans(p: seq<int>, q: seq<int>)
    ensures ComparePadded(p, q) == -1 <==> exists k: nat :: LowerFirstAt(p, q, k)
    ensures ComparePadded(p, q) == 1 <==> exists k: nat :: LowerFirstAt(q, p, k)
    ensures ComparePadded(p, q) == 0 <==> forall k: nat :: At(p, k) == At(q, k)
    ensures -1 <= ComparePadded(p, q) <= 1
    decreases |p| + |q|
  {
    if p != [] || q != [] {
      var r, t := Rest(p), Rest(q);
      PaddedMeans(r, t);
      assert forall k: nat :: At(p, k + 1) == At(r, k) && At(q, k + 1) == At(t, k);
      if At(p, 0) == At(q, 0) {
        LaterFirst(p, q);
        LaterFirst(q, p);
        assert (forall k: nat :: At(p, k) == At(q, k)) <==> (forall k: nat :: At(r, k) == At(t, k)) by {
          assert forall k: nat :: k > 0 ==> At(p, k) == At(r, k - 1) && At(q, k) == At(t, k - 1);
        }
      } else {
        assert LowerFirstAt(p, q, 0) || LowerFirstAt(q, p, 0);
      }
    }
  }

  lemma LaterFirst(p: seq<int>, q: seq<int>)
    requires At(p, 0) == At(q, 0)
    ensures (exists k: nat :: LowerFirstAt(p, q, k)) <==> exists k: nat :: LowerFirstAt(Rest(p), Rest(q), k)
  {
    var r, t := Rest(p), Rest(q);
    assert forall k: nat :: At(p, k + 1) == At(r, k) && At(q, k + 1) == At(t, k);
    if k: nat :| LowerFirstAt(p, q, k) {
      assert forall i: nat :: i < k - 1 ==> At(r, i) == At(p, i + 1) && At(t, i) == At(q, i + 1);
      assert LowerFirstAt(r, t, k - 1);
    }
    if k: nat :| LowerFirstAt(r, t, k) {
      assert forall i: nat :: 0 < i < k + 1 ==> At(r, i - 1) == At(p, i) && At(t, i - 1) == At(q, i);
      assert LowerFirstAt(p, q, k + 1);
    }
  }

  // ----- reading a written version

  lemma {:induction false} FieldsOfJoin(fields: seq<string>)
    requires fields != [] && forall i :: 0 <= i < |fields| ==> '.' !in fields[i]
    ensures Fields(JoinDots(fields)) == fields
  {
    if |fields| > 1 {
      FieldsOfJoin(fields[1..]);
      CutDot(fields[0], JoinDots(fields[1..]));
      hide IndexWhere;
      assert fields == [fields[0]] + fields[1..];
    } else {
      IndexWhereIs(fields[0], IsDot, |fields[0]|);
    }
  }

  lemma CutDot(f: string, rest: string)
    requires '.' !in f
    ensures var s := f + "." + rest;
            IndexWhere(s, IsDot) == |f| < |s| && s[..|f|] == f && s[|f| + 1..] == rest
  {
    var s := f + "." + rest;
    assert forall i :: 0 <= i < |f| ==> s[i] == f[i] && f[i] in f;
    IndexWhereIs(s, IsDot, |f|);
  }

  /** Characters that neither start nor end anything in a version's core. */
  predicate IsCoreChar(c: char) { IsDigit(c) || c == '.' }

  lemma {:induction false} JoinedChars(fields: seq<string>)
    requires forall i :: 0 <= i < |fields| ==> AllDigits(fields[i]) && fields[i] != ""
    ensures forall i :: 0 <= i < |JoinDots(fields)| ==> IsCoreChar(JoinDots(fields)[i])
    ensures fields != [] ==> JoinDots(fields) != "" && IsDigit(JoinDots(fields)[0])
  {
    if |fields| > 1 {
      JoinedChars(fields[1..]);
    }
  }

  lemma NoSpaceAround(s: string)
    requires forall i :: 0 <= i < |s| ==> !IsSpace(s[i])
    ensures TrimSpace(s) == s
  {
    PrefixLenIs(s, IsSpace, 0);
  }

  /** Core and pre-release are read back, and the build metadata is dropped. */
  lemma {:induction false} SplitPrinted(v: Written)
    requires IsWritten(v)
    ensures SplitPreRelease(Print(v)) == (JoinDots(v.parts), v.pre)
    ensures SplitPreRelease("v" + Print(v)) == (JoinDots(v.parts), v.pre)
  {
    TrimmedPrinted(v);
    CoreHasNoSigns(v);
    hide SplitPreRelease, TrimSpace, TrimV, JoinDots, IsWritten;
    SplitTrimmed(Print(v), JoinDots(v.parts), v.pre, v.build);
    SplitTrimmed("v" + Print(v), JoinDots(v.parts), v.pre, v.build);
  }

  lemma {:induction false} SplitTrimmed(version: string, core: string, pre: string, build: string)
    requires TrimSpace(TrimV(TrimSpace(version))) ==
             core + (if pre == "" then "" else "-" + pre) + if build == "" then "" else "+" + build
    requires '-' !in core && '+' !in core + if pre == "" then "" else "-" + pre
    ensures SplitPreRelease(version) == (core, pre)
  {
    var w := core + if pre == "" then "" else "-" + pre;
    CutAt(w, build);
    CutPre(core, pre);
    hide TrimSpace, TrimV, IndexWhere;
    SplitCut(version, w + if build == "" then "" else "+" + build, w, core, pre);
  }

  /** The source's two cuts, at the plus and at the dash. */
  lemma {:induction false} SplitCut(version: string, v: string, w: string, core: string, pre: string)
    requires v == TrimSpace(TrimV(TrimSpace(version))) && w == v[..IndexWhere(v, IsPlus)]
    requires var i := IndexWhere(w, IsDash);
             if pre == "" then i == |w| && w == core else i == |core| < |w| && w[..i] == core && w[i + 1..] == pre
    ensures SplitPreRelease(version) == (core, pre)
  {
    hide TrimSpace, TrimV, IndexWhere;
  }

  lemma {:induction false} TrimmedPrinted(v: Written)
    requires IsWritten(v)
    ensures TrimSpace(TrimV(TrimSpace(Print(v)))) == Print(v)
    ensures TrimSpace(TrimV(TrimSpace("v" + Print(v)))) == Print(v)
  {
    var s := Print(v);
    NoSpaces(v);
    StartsWithDigit(v);
    hide Print, TrimSpace, IsSpace;
    NoSpaceAround(s);
    SpacelessV();
    NoSpaceAround("v" + s);
    DroppedV(s);
    hide TrimV;
  }

  lemma DroppedV(s: string)
    requires s != "" && s[0] != 'v'
    ensures TrimV(s) == s && TrimV("v" + s) == s
  {
    assert ("v" + s)[1..] == s;
  }

  lemma SpacelessV()
    ensures !IsSpace('v')
  {
  }

  lemma StartsWithDigit(v: Written)
    requires IsWritten(v)
    ensures Print(v) != "" && Print(v)[0] != 'v'
  {
    JoinedChars(v.parts);
    hide JoinDots;
  }

  lemma CoreHasNoSigns(v: Written)
    requires IsWritten(v)
    ensures var core := JoinDots(v.parts);
            '-' !in core && '+' !in core + if v.pre == "" then "" else "-" + v.pre
  {
    JoinedChars(v.parts);
    var core := JoinDots(v.parts);
    assert forall i :: 0 <= i < |core| ==> IsCoreChar(core[i]);
    hide JoinDots;
  }

  lemma NoSpaces(v: Written)
    requires IsWritten(v)
    ensures forall i :: 0 <= i < |Print(v)| ==> !IsSpace(Print(v)[i])
  {
    JoinedChars(v.parts);
    var core := JoinDots(v.parts);
    assert forall i :: 0 <= i < |core| ==> IsCoreChar(core[i]);
    hide JoinDots;
  }

  lemma CutAt(w: string, build: string)
    requires '+' !in w
    ensures var s := w + if build == "" then "" else "+" + build;
            s[..IndexWhere(s, IsPlus)] == w
  {
    var s := w + if build == "" then "" else "+" + build;
    assert forall i :: 0 <= i < |w| ==> s[i] == w[i] && w[i] in w;
    IndexWhereIs(s, IsPlus, |w|);
  }

  lemma CutPre(core: string, pre: string)
    requires '-' !in core
    ensures var w := core + if pre == "" then "" else "-" + pre;
            var i := IndexWhere(w, IsDash);
            if pre == "" then i == |w| && w == core else i == |core| && w[..i] == core && w[i + 1..] == pre
  {
    var w := core + if pre == "" then "" else "-" + pre;
    assert forall i :: 0 <= i < |core| ==> w[i] == core[i] && core[i] in core;
    IndexWhereIs(w, IsDash, |core|);
  }

  lemma {:induction false} PartsOfDigits(v: Written)
    requires IsWritten(v)
    ensures Parts(Fields(JoinDots(v.parts))) == Values(v.parts)
  {
    FieldsOfJoin(v.parts);
    forall i | 0 <= i < |v.parts| ensures Part(v.parts[i]) == Value(v.parts[i]) {
      NoSpaceAround(v.parts[i]);
      assert TrimV(v.parts[i]) == v.parts[i];
    }
    hide Fields, Part, JoinDots;
  }

  // ----- what decides

  /** Components, then having no pre-release, then the pre-releases. */
  function WrittenOrder(v: Written, w: Written): int
    requires IsWritten(v) && IsWritten(w)
  {
    var n := ComparePadded(Values(v.parts), Values(w.parts));
    if n != 0 then n
    else if v.pre == "" && w.pre == "" then 0
    else if v.pre == "" then 1
    else if w.pre == "" then -1
    else Precedence(Fields(v.pre), Fields(w.pre))
  }

  /** Comparing written versions whose pre-releases have usual identifiers follows the
      parts; a leading v changes nothing. */
  lemma {:induction false} WrittenCompare(v: Written, w: Written)
    requires IsWritten(v) && IsWritten(w) && AllUsual(Fields(v.pre)) && AllUsual(Fields(w.pre))
    ensures Order(Print(v), Print(w)) == WrittenOrder(v, w)
    ensures Order("v" + Print(v), Print(w)) == WrittenOrder(v, w)
  {
    SplitPrinted(v);
    SplitPrinted(w);
    PartsOfDigits(v);
    PartsOfDigits(w);
    hide SplitPreRelease, Print, JoinDots, Parts, Order, Precedence, IdentifierKeys, AllUsual, Fields,
         ComparePadded;
    OrderSteps(Print(v), Print(w));
    OrderSteps("v" + Print(v), Print(w));
    if v.pre != "" && w.pre != "" {
      UsualListsAgree(Fields(v.pre), Fields(w.pre));
    }
  }

  /** A migration step runs for the configs of lower versions than its own. */
  lemma {:induction false} StepRunsBelow(step: Step, v: Written, configVersion: Written)
    requires IsWritten(v) && IsWritten(configVersion) && step.version == Print(v)
    requires AllUsual(Fields(v.pre)) && AllUsual(Fields(configVersion.pre))
    ensures Applies(step, Print(configVersion)) <==> WrittenOrder(v, configVersion) > 0
  {
    hide Print, WrittenOrder, Order, AllUsual, Fields, IsWritten;
    WrittenCompare(v, configVersion);
  }
}
