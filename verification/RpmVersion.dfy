/** rpm version ordering (rpm_version.go): the scan of rpmvercmp and the key it compares. */
module RpmVersion {
  import opened Keys
  import opened Text
  import opened Decimal

  predicate IsSeparator(c: char) {
    !IsDigit(c) && !IsLetter(c) && c != '~' && c != '^'
  }

  // ----- the key of a version

  /** The first token of a string that does not start with a separator:
      tilde, end, caret, letters in byte order, number, in that order. */
  function HeadKey(s: string): (k: seq<int>)
    requires s == "" || !IsSeparator(s[0])
    ensures k != []
    ensures k[0] == if s == "" then 1 else if s[0] == '~' then 0 else if s[0] == '^' then 2
                    else if IsLetter(s[0]) then 3 else 4
  {
    if s == "" then [1]
    else if s[0] == '~' then [0]
    else if s[0] == '^' then [2]
    else if IsLetter(s[0]) then [3] + Codes(s[..PrefixLen(s, IsLetter)])
    else [4, Value(s[..PrefixLen(s, IsDigit)])]
  }

  /** How many characters the first token takes. */
  function HeadLen(s: string): (n: nat)
    requires s != "" && !IsSeparator(s[0])
    ensures 0 < n <= |s|
  {
    if s[0] == '~' || s[0] == '^' then 1
    else if IsLetter(s[0]) then PrefixLen(s, IsLetter)
    else PrefixLen(s, IsDigit)
  }

  /** The tokens of one string, the end mark [1] last; separators only separate. */
  function VersionKey(s: string): Key
    decreases |s|
  {
    var t := TrimLeft(s, IsSeparator);
    if t == "" then [HeadKey(t)] else [HeadKey(t)] + VersionKey(t[HeadLen(t)..])
  }

  /** The order rpmvercmp decides. */
  function Compare(a: string, b: string): int {
    CompareKeys(VersionKey(a), VersionKey(b))
  }

  lemma {:induction false} KeySkipsSeparators(s: string, n: nat)
    requires n <= |s| && (forall k :: 0 <= k < n ==> IsSeparator(s[k]))
    requires n < |s| ==> !IsSeparator(s[n])
    ensures VersionKey(s) == VersionKey(s[n..])
  {
    PrefixLenIs(s, IsSeparator, n);
    PrefixLenIs(s[n..], IsSeparator, 0);
    assert TrimLeft(s, IsSeparator) == s[n..] == TrimLeft(s[n..], IsSeparator);
  }

  lemma KeyUnfold(s: string)
    requires s == "" || !IsSeparator(s[0])
    ensures VersionKey(s) == [HeadKey(s)] + if s == "" then [] else VersionKey(s[HeadLen(s)..])
  {
    PrefixLenIs(s, IsSeparator, 0);
    assert TrimLeft(s, IsSeparator) == s;
  }

  /** Two strings without leading separators: their first tokens decide, or what
      follows them does. */
  lemma CompareHeads(a: string, b: string)
    requires (a == "" || !IsSeparator(a[0])) && (b == "" || !IsSeparator(b[0]))
    ensures HeadKey(a) != HeadKey(b) ==> Compare(a, b) == CompareSeqs(HeadKey(a), HeadKey(b))
    ensures HeadKey(a) == HeadKey(b) ==>
              (a == "" <==> b == "") &&
              (a == "" ==> Compare(a, b) == 0) &&
              (a != "" ==> Compare(a, b) == Compare(a[HeadLen(a)..], b[HeadLen(b)..]))
  {
    hide VersionKey, HeadKey, HeadLen;
    KeyUnfold(a);
    KeyUnfold(b);
    var u := if a == "" then [] else VersionKey(a[HeadLen(a)..]);
    var v := if b == "" then [] else VersionKey(b[HeadLen(b)..]);
    CompareKeysHead(HeadKey(a), HeadKey(b), u, v);
  }

  /** Two runs of the same class compare as the source compares them. */
  lemma CompareRuns(a: string, b: string)
    requires a != "" && b != "" && (IsDigit(a[0]) || IsLetter(a[0]))
    requires IsDigit(a[0]) <==> IsDigit(b[0])
    requires IsLetter(a[0]) <==> IsLetter(b[0])
    ensures var x, y := a[..HeadLen(a)], b[..HeadLen(b)];
            CompareSeqs(HeadKey(a), HeadKey(b)) ==
            if IsDigit(a[0]) then
              var u, v := TrimLeft(x, IsZero), TrimLeft(y, IsZero);
              if |u| != |v| then CompareInts(|u|, |v|) else CompareStrings(u, v)
            else CompareStrings(x, y)
  {
    var x, y := a[..HeadLen(a)], b[..HeadLen(b)];
    if IsDigit(a[0]) {
      TrimmedCompare(x, y);
      CompareSeqsHead(4, 4, [Value(x)], [Value(y)]);
      CompareSeqsHead(Value(x), Value(y), [], []);
      assert [4] + [Value(x)] == HeadKey(a) && [4] + [Value(y)] == HeadKey(b);
      assert [Value(x)] + [] == [Value(x)] && [Value(y)] + [] == [Value(y)];
    } else {
      CompareSeqsHead(3, 3, Codes(x), Codes(y));
    }
  }

  lemma DifferentRanks(s: string, t: string)
    requires (s == "" || !IsSeparator(s[0])) && (t == "" || !IsSeparator(t[0]))
    requires HeadKey(s)[0] != HeadKey(t)[0]
    ensures Compare(s, t) == CompareInts(HeadKey(s)[0], HeadKey(t)[0])
  {
    hide HeadKey, VersionKey;
    CompareHeads(s, t);
  }

  /** Two tildes, or two carets: the rest decides. */
  lemma SameMark(s: string, t: string)
    requires s != "" && t != "" && s[0] == t[0] && (s[0] == '~' || s[0] == '^')
    ensures Compare(s, t) == Compare(s[1..], t[1..])
  {
    hide VersionKey;
    CompareHeads(s, t);
  }

  /** Two runs of one class: the runs decide, or the rest does. */
  lemma RunsDecide(s: string, t: string)
    requires s != "" && t != "" && (IsDigit(s[0]) || IsLetter(s[0]))
    requires IsDigit(s[0]) <==> IsDigit(t[0])
    requires IsLetter(s[0]) <==> IsLetter(t[0])
    ensures var c := CompareSeqs(HeadKey(s), HeadKey(t));
            Compare(s, t) == if c != 0 then c else Compare(s[HeadLen(s)..], t[HeadLen(t)..])
  {
    hide VersionKey, HeadKey;
    CompareHeads(s, t);
    SeqsAntisymmetric(HeadKey(s), HeadKey(t));
  }

  predicate At(s: string, i: nat, c: char) { i < |s| && s[i] == c }

  /** Where the run of class characters that starts at i ends. */
  method Scan(s: string, i: nat, ok: char -> bool) returns (k: nat)
    requires i <= |s|
    ensures k == i + PrefixLen(s[i..], ok) && i <= k <= |s|
  {
    k := i;
    while k < |s| && ok(s[k])
      invariant i <= k <= |s|
      invariant forall m :: i <= m < k ==> ok(s[m])
    {
      k := k + 1;
    }
    PrefixLenIs(s[i..], ok, k - i);
  }

  lemma SlicedAt(s: string, i: nat, k: nat)
    requires i <= k <= |s|
    ensures s[i..k] == s[i..][..k - i] && s[k..] == s[i..][k - i..]
  {
  }

  /** Reads the run at i in a and its counterpart at j in b: c decides unless it is 0. */
  method CompareRunsAt(a: string, i: nat, b: string, j: nat) returns (c: int, i': nat, j': nat)
    requires i < |a| && j < |b| && (IsDigit(a[i]) || IsLetter(a[i]))
    requires !IsSeparator(b[j]) && b[j] != '~' && b[j] != '^'
    ensures i < i' <= |a| && j <= j' <= |b|
    ensures c != 0 ==> Compare(a[i..], b[j..]) == c
    ensures c == 0 ==> Compare(a[i..], b[j..]) == Compare(a[i'..], b[j'..])
  {
    hide Compare, VersionKey, HeadKey, Value, PrefixLen, CompareStrings;
    ghost var s, t := a[i..], b[j..];
    assert s[0] == a[i] && t[0] == b[j];
    var numeric := IsDigit(a[i]);
    var inRun := if numeric then IsDigit else IsLetter;
    i' := Scan(a, i, inRun);
    j' := Scan(b, j, inRun);
    var sa, sb := a[i..i'], b[j..j'];
    if sb == "" {
      DifferentRanks(s, t);
      return if numeric then 1 else -1, i', j';
    }
    RunsDecide(s, t);
    CompareRuns(s, t);
    hide CompareSeqs;
    SlicedAt(a, i, i');
    SlicedAt(b, j, j');
    assert sa == s[..HeadLen(s)] && sb == t[..HeadLen(t)];
    if numeric {
      sa := TrimLeft(sa, IsZero);
      sb := TrimLeft(sb, IsZero);
      if |sa| != |sb| {
        return if |sa| > |sb| then 1 else -1, i', j';
      }
    }
    c := CompareStrings(sa, sb);
  }

  /** rpmvercmp: two positions move over the strings, token by token. */
  method RPMVerCmp(a: string, b: string) returns (r: int)
    ensures r == Compare(a, b)
  {
    hide Compare, HeadKey, VersionKey, PrefixLen;
    if a == b {
      SameStrings(a);
      return 0;
    }
    var i, j := 0, 0;
    assert a[0..] == a && b[0..] == b;
    while i < |a| || j < |b|
      invariant 0 <= i <= |a| && 0 <= j <= |b|
      invariant Compare(a, b) == Compare(a[i..], b[j..])
      decreases |a| - i + |b| - j
    {
      var i0, j0 := i, j;
      i := Scan(a, i, IsSeparator);
      j := Scan(b, j, IsSeparator);
      Skipped(a, i0, i, b, j0, j);
      ghost var s, t := a[i..], b[j..];
      if At(a, i, '~') || At(b, j, '~') {
        if !At(a, i, '~') {
          DifferentRanks(s, t);
          return 1;
        }
        if !At(b, j, '~') {
          DifferentRanks(s, t);
          return -1;
        }
        SameMark(s, t);
        i, j := i + 1, j + 1;
        continue;
      }
      if At(a, i, '^') || At(b, j, '^') {
        if !(At(a, i, '^') && At(b, j, '^')) {
          DifferentRanks(s, t);
        }
        if i >= |a| {
          return -1;
        }
        if j >= |b| {
          return 1;
        }
        if a[i] != '^' {
          return 1;
        }
        if b[j] != '^' {
          return -1;
        }
        SameMark(s, t);
        i, j := i + 1, j + 1;
        continue;
      }
      if i >= |a| || j >= |b| {
        break;
      }
      var c;
      c, i, j := CompareRunsAt(a, i, b, j);
      if c != 0 {
        return c;
      }
    }
    OneRanOut(a[i..], b[j..]);
    if i >= |a| && j >= |b| {
      return 0;
    }
    if i >= |a| {
      return -1;
    }
    return 1;
  }

  lemma SameStrings(a: string)
    ensures Compare(a, a) == 0
  {
    KeysAntisymmetric(VersionKey(a), VersionKey(a));
  }

  lemma {:induction false} SkippedOne(s: string, i0: nat, i: nat)
    requires i0 <= i <= |s| && i == i0 + PrefixLen(s[i0..], IsSeparator)
    ensures VersionKey(s[i0..]) == VersionKey(s[i..])
    ensures i < |s| ==> !IsSeparator(s[i])
  {
    hide VersionKey;
    var u, n := s[i0..], i - i0;
    KeySkipsSeparators(u, n);
    assert u[n..] == s[i..];
    assert i < |s| ==> u[n] == s[i];
  }

  /** Skipping separators on both sides changes nothing. */
  lemma {:induction false} Skipped(a: string, i0: nat, i: nat, b: string, j0: nat, j: nat)
    requires i0 <= i <= |a| && i == i0 + PrefixLen(a[i0..], IsSeparator)
    requires j0 <= j <= |b| && j == j0 + PrefixLen(b[j0..], IsSeparator)
    ensures Compare(a[i0..], b[j0..]) == Compare(a[i..], b[j..])
    ensures i < |a| ==> !IsSeparator(a[i])
    ensures j < |b| ==> !IsSeparator(b[j])
  {
    hide VersionKey, IsSeparator;
    SkippedOne(a, i0, i);
    SkippedOne(b, j0, j);
  }

  /** One string has run out, and the other continues with a letter or a digit. */
  lemma OneRanOut(s: string, t: string)
    requires s == "" || t == ""
    requires (s == "" || IsLetter(s[0]) || IsDigit(s[0])) && (t == "" || IsLetter(t[0]) || IsDigit(t[0]))
    ensures Compare(s, t) == if s == "" && t == "" then 0 else if s == "" then -1 else 1
  {
    hide VersionKey;
    CompareHeads(s, t);
  }

  // ----- separators only separate

  predicate AllSeparators(s: string) { forall k :: 0 <= k < |s| ==> IsSeparator(s[k]) }

  /** Separators in front change nothing, whatever follows them. */
  lemma {:induction false} FrontSeparators(s: string, b: string)
    requires AllSeparators(s)
    ensures VersionKey(s + b) == VersionKey(b)
  {
    hide VersionKey;
    var n := PrefixLen(b, IsSeparator);
    var t := s + b;
    assert forall k :: 0 <= k < |s| ==> t[k] == s[k];
    assert forall k :: 0 <= k < |b| ==> t[|s| + k] == b[k];
    KeySkipsSeparators(t, |s| + n);
    KeySkipsSeparators(b, n);
    assert t[|s| + n..] == b[n..];
  }

  lemma RunBefore(a: string, u: string, ok: char -> bool)
    requires PrefixLen(a, ok) < |a| || u == "" || !ok(u[0])
    ensures PrefixLen(a + u, ok) == PrefixLen(a, ok)
    ensures (a + u)[..PrefixLen(a, ok)] == a[..PrefixLen(a, ok)]
  {
    var t := a + u;
    assert forall k :: 0 <= k < |a| ==> t[k] == a[k];
    assert u != "" ==> t[|a|] == u[0];
    PrefixLenIs(t, ok, PrefixLen(a, ok));
  }

  /** The first token of a ends before u, so it does not depend on u. */
  lemma {:induction false} HeadBefore(a: string, u: string)
    requires a != "" && !IsSeparator(a[0])
    requires HeadLen(a) < |a| || u == "" || !SameRun(a[0], u[0])
    ensures HeadLen(a + u) == HeadLen(a) && HeadKey(a + u) == HeadKey(a)
    ensures (a + u)[HeadLen(a)..] == a[HeadLen(a)..] + u
  {
    hide PrefixLen, Value;
    assert (a + u)[0] == a[0];
    if IsLetter(a[0]) {
      RunBefore(a, u, IsLetter);
    } else if IsDigit(a[0]) {
      RunBefore(a, u, IsDigit);
    }
  }

  /** Characters that join to one run when they meet. */
  predicate SameRun(c: char, d: char) { (IsDigit(c) && IsDigit(d)) || (IsLetter(c) && IsLetter(d)) }

  /** A text without its leading separators, and what its first token leaves of that. */
  function Core(a: string): (t: string)
    ensures t == "" || (!IsSeparator(t[0]) && a != "" && t[|t| - 1] == a[|a| - 1])
    ensures |t| <= |a|
  {
    TrimLeft(a, IsSeparator)
  }

  function Rest(a: string): (r: string)
    requires Core(a) != ""
    ensures |r| < |a| && (r != "" ==> r[|r| - 1] == a[|a| - 1])
  {
    Core(a)[HeadLen(Core(a))..]
  }

  lemma CoreThen(a: string, u: string)
    ensures VersionKey(a + u) == VersionKey(Core(a) + u)
  {
    hide VersionKey;
    var n := PrefixLen(a, IsSeparator);
    assert a + u == a[..n] + (a[n..] + u);
    FrontSeparators(a[..n], a[n..] + u);
  }

  /** The first token of a text, then the rest, when what comes after the text does not
      continue its last token. */
  lemma {:induction false} HeadThen(a: string, u: string)
    requires Core(a) != "" && (u == "" || !SameRun(a[|a| - 1], u[0]))
    ensures VersionKey(a + u) == [HeadKey(Core(a))] + VersionKey(Rest(a) + u)
  {
    WholeRun(Core(a));
    CoreThen(a, u);
    hide VersionKey, HeadKey, HeadLen, Core, SameRun;
    TokenThenRest(Core(a), u);
  }

  /** What follows a can be exchanged for anything with the same key, as long as neither
      continues the last token of a. */
  lemma {:induction false} RestDecides(a: string, u: string, v: string)
    requires VersionKey(u) == VersionKey(v)
    requires u == "" || a == "" || !SameRun(a[|a| - 1], u[0])
    requires v == "" || a == "" || !SameRun(a[|a| - 1], v[0])
    ensures VersionKey(a + u) == VersionKey(a + v)
    decreases |a|
  {
    hide VersionKey, HeadKey, HeadLen, SameRun, Core, Rest;
    if Core(a) == "" {
      CoreThen(a, u);
      CoreThen(a, v);
      assert "" + u == u && "" + v == v;
    } else {
      HeadThen(a, u);
      HeadThen(a, v);
      RestDecides(Rest(a), u, v);
    }
  }

  lemma {:induction false} TokenThenRest(t: string, u: string)
    requires t != "" && !IsSeparator(t[0])
    requires HeadLen(t) < |t| || u == "" || !SameRun(t[0], u[0])
    ensures VersionKey(t + u) == [HeadKey(t)] + VersionKey(t[HeadLen(t)..] + u)
  {
    HeadBefore(t, u);
    hide VersionKey, HeadKey, HeadLen, SameRun;
    KeyUnfold(t + u);
  }

  /** A token that is all of a string ends in a character of its own class. */
  lemma WholeRun(t: string)
    requires t != "" && !IsSeparator(t[0])
    ensures HeadLen(t) == |t| ==> forall d :: SameRun(t[0], d) ==> SameRun(t[|t| - 1], d)
  {
  }

  /** Separators only separate: any two runs of them do the same, between two texts and
      at the end. */
  lemma {:induction false} SeparatorsAreAlike(a: string, s: string, t: string, b: string)
    requires AllSeparators(s) && AllSeparators(t) && (b != "" ==> s != "" && t != "")
    ensures VersionKey(a + s + b) == VersionKey(a + t + b)
    ensures VersionKey(a + s) == VersionKey(a)
  {
    hide VersionKey;
    FrontSeparators(s, b);
    FrontSeparators(t, b);
    RestDecides(a, s + b, t + b);
    assert a + s + b == a + (s + b) && a + t + b == a + (t + b);
    FrontSeparators(s, "");
    assert s + "" == s && a + "" == a;
    RestDecides(a, s, "");
  }

  lemma JoinedRun(t: string, b: string)
    requires t != "" && b != "" && !IsSeparator(t[0]) && HeadLen(t) == |t| && SameRun(t[|t| - 1], b[0])
    ensures HeadLen(t + b) == |t| + HeadLen(b) && (t + b)[HeadLen(t + b)..] == b[HeadLen(b)..]
  {
    var u, n := t + b, HeadLen(b);
    assert forall k :: 0 <= k < |t| ==> u[k] == t[k];
    assert forall k :: 0 <= k < |b| ==> u[|t| + k] == b[k];
    if IsLetter(t[0]) {
      PrefixLenIs(u, IsLetter, |t| + n);
    } else {
      PrefixLenIs(u, IsDigit, |t| + n);
    }
  }

  lemma RunHasCore(a: string, c: char)
    requires a != "" && SameRun(a[|a| - 1], c)
    ensures Core(a) != ""
  {
  }

  /** A separator between two characters of one run makes one token two. */
  lemma {:induction false} SeparatorSplitsRun(a: string, u: string, b: string)
    requires a != "" && b != "" && SameRun(a[|a| - 1], b[0]) && VersionKey(u) == VersionKey(b)
    requires u != "" && IsSeparator(u[0])
    ensures |VersionKey(a + u)| == |VersionKey(a + b)| + 1
    decreases |a|
  {
    RunHasCore(a, b[0]);
    NoRunWithSeparator(a[|a| - 1], u[0]);
    StartsRun(a[|a| - 1], b[0]);
    hide VersionKey, HeadKey, HeadLen, SameRun, IsSeparator, Core;
    HeadThen(a, u);
    CoreThen(a, b);
    if Rest(a) != "" {
      InnerToken(Core(a), b);
      SeparatorSplitsRun(Rest(a), u, b);
    } else {
      assert Rest(a) + u == u;
      LastToken(Core(a), b);
    }
  }

  lemma InnerToken(t: string, b: string)
    requires t != "" && !IsSeparator(t[0]) && t[HeadLen(t)..] != ""
    ensures |VersionKey(t + b)| == 1 + |VersionKey(t[HeadLen(t)..] + b)|
  {
    hide VersionKey, HeadKey, HeadLen, SameRun;
    TokenThenRest(t, b);
  }

  lemma LastToken(t: string, b: string)
    requires t != "" && b != "" && !IsSeparator(t[0]) && t[HeadLen(t)..] == "" && SameRun(t[|t| - 1], b[0])
    ensures |VersionKey(t + b)| == |VersionKey(b)|
  {
    JoinedRun(t, b);
    StartsRun(t[|t| - 1], b[0]);
    hide VersionKey, HeadKey, HeadLen, SameRun;
    KeyUnfold(b);
    KeyUnfold(t + b);
  }

  lemma NoRunWithSeparator(c: char, d: char)
    requires IsSeparator(d)
    ensures !SameRun(c, d)
  {
  }

  lemma StartsRun(c: char, d: char)
    requires SameRun(c, d)
    ensures !IsSeparator(d)
  {
  }

  /** Leaving separators out changes the key exactly when it joins two runs. */
  lemma {:induction false} SeparatorsMatterExactly(a: string, s: string, b: string)
    requires a != "" && b != "" && s != "" && AllSeparators(s)
    ensures VersionKey(a + s + b) == VersionKey(a + b) <==> !SameRun(a[|a| - 1], b[0])
  {
    hide VersionKey, SameRun;
    if SameRun(a[|a| - 1], b[0]) {
      FrontSeparators(s, b);
      SeparatorSplitsRun(a, s + b, b);
      assert a + s + b == a + (s + b);
    } else {
      NoRunWithSeparator(a[|a| - 1], s[0]);
      FrontSeparators(s, b);
      RestDecides(a, s + b, b);
      assert a + s + b == a + (s + b);
    }
  }
}
