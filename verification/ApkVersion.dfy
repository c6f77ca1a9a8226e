/** Alpine version ordering (apk_version.go): a stateful lexer, a token comparer
    with two rules for leading zeros, and the comparison loop over two lexers. */
module ApkVersion {
  import opened Keys
  import opened Text

  const INITIAL_DIGIT := 0
  const DIGIT := 1
  const LETTER := 2
  const SUFFIX := 3
  const SUFFIX_NO := 4
  const COMMIT_HASH := 5
  const REVISION_NO := 6
  const END := 7
  const INVALID := 8

  const SUFFIX_INVALID := 0
  const SUFFIX_NONE := 5

  /** Suffixes below SUFFIX_NONE are pre-releases, the ones above it are patches. */
  function SuffixValue(name: string): (r: int)
    ensures 0 <= r <= 10 && r != SUFFIX_NONE
  {
    if name == "alpha" then 1 else if name == "beta" then 2
    else if name == "pre" then 3 else if name == "rc" then 4
    else if name == "cvs" then 6 else if name == "svn" then 7
    else if name == "git" then 8 else if name == "hg" then 9
    else if name == "p" then 10 else SUFFIX_INVALID
  }

  const TWO_64: nat := 0x1_0000_0000_0000_0000
  const TWO_31: nat := 0x8000_0000

  /** The value of a digit run accumulated in a uint64, which wraps around. */
  function Number64(digits: string): nat
    requires AllDigits(digits)
  {
    if digits == "" then 0
    else (Number64(digits[..|digits| - 1]) * 10 + DigitValue(digits[|digits| - 1])) % TWO_64
  }

  datatype Token = Token(kind: int, suffix: int, number: nat, value: string)

  /** A lexer's state: the text left to read and the current token. */
  datatype Lex = Lex(s: string, t: Token)

  function Start(v: string): (l: Lex)
    ensures WellFormed(l.t)
  {
    DigitsOf(Lex(v, Token(INITIAL_DIGIT, 0, 0, "")))
  }

  /** What reading a digit run does to a state; an empty run is an invalid token. */
  function DigitsOf(l: Lex): (r: Lex)
    ensures |r.s| <= |l.s|
  {
    var n := PrefixLen(l.s, IsDigit);
    Lex(l.s[n..], Token(if n == 0 then INVALID else l.t.kind, l.t.suffix, Number64(l.s[..n]), l.s[..n]))
  }

  function Reject(l: Lex): Lex { l.(t := l.t.(kind := INVALID)) }

  /** What reading the next token does to a state. */
  function NextOf(l: Lex): (r: Lex)
    ensures |r.s| <= |l.s|
    ensures r.t.kind < END ==> |r.s| < |l.s|
    ensures WellFormed(l.t) ==> WellFormed(r.t)
  {
    if l.s == "" then l.(t := l.t.(kind := END))
    else
      var c := l.s[0];
      if IsLowerLetter(c) then
        if l.t.kind > DIGIT then Reject(l)
        else Lex(l.s[1..], l.t.(kind := LETTER, value := l.s[..1]))
      else if c == '.' then
        if l.t.kind > DIGIT then Reject(l)
        else DigitsOf(Lex(l.s[1..], l.t.(kind := DIGIT)))
      else if c == '_' then
        if l.t.kind > SUFFIX_NO then Reject(l)
        else
          var n := PrefixLen(l.s[1..], IsLowerLetter);
          var name := l.s[1..][..n];
          var t := l.t.(value := name, suffix := SuffixValue(name));
          Lex(l.s[1..][n..], t.(kind := if t.suffix == SUFFIX_INVALID then INVALID else SUFFIX))
      else if IsDigit(c) then
        if l.t.kind != SUFFIX then Reject(l)
        else DigitsOf(l.(t := l.t.(kind := SUFFIX_NO)))
      else if c == '~' then
        if l.t.kind >= COMMIT_HASH then Reject(l)
        else
          var n := PrefixLen(l.s[1..], IsHexDigit);
          Lex(l.s[1..][n..],
              l.t.(value := l.s[1..][..n], kind := if n == 0 then INVALID else COMMIT_HASH))
      else if c == '-' then
        if l.t.kind >= REVISION_NO || !HasPrefix(l.s, "-r") then Reject(l)
        else DigitsOf(Lex(l.s[2..], l.t.(kind := REVISION_NO)))
      else Reject(l)
  }

  /** The lexer of the source: reading moves along s and overwrites t. */
  class VersionLexer {
    var s: string
    var t: Token

    ghost function State(): Lex
      reads this
    {
      Lex(s, t)
    }

    constructor (v: string)
      ensures State() == Lex(v, Token(INITIAL_DIGIT, 0, 0, ""))
    {
      s, t := v, Token(INITIAL_DIGIT, 0, 0, "");
    }

    method Digits()
      modifies this
      ensures State() == DigitsOf(old(State()))
    {
      var i, n := 0, 0;
      while i < |s| && IsDigit(s[i])
        invariant 0 <= i <= |s|
        invariant forall k :: 0 <= k < i ==> IsDigit(s[k])
        invariant n == Number64(s[..i])
        invariant s == old(s) && t == old(t)
      {
        assert s[..i + 1][..i] == s[..i];
        n := (n * 10 + DigitValue(s[i])) % TWO_64;
        i := i + 1;
      }
      PrefixLenIs(s, IsDigit, i);
      t := t.(number := n, value := s[..i]);
      s := s[i..];
      if i == 0 {
        t := t.(kind := INVALID);
      }
    }

    method Span(ok: char -> bool) returns (v: string)
      modifies this
      ensures v == old(s)[..PrefixLen(old(s), ok)] && s == old(s)[PrefixLen(old(s), ok)..]
      ensures t == old(t)
    {
      var i := 0;
      while i < |s| && ok(s[i])
        invariant 0 <= i <= |s|
        invariant forall k :: 0 <= k < i ==> ok(s[k])
        invariant s == old(s) && t == old(t)
      {
        i := i + 1;
      }
      PrefixLenIs(s, ok, i);
      v := s[..i];
      s := s[i..];
    }

    method Next()
      modifies this
      ensures State() == NextOf(old(State()))
    {
      if s == "" {
        t := t.(kind := END);
        return;
      }
      var c := s[0];
      if IsLowerLetter(c) {
        if t.kind > DIGIT {
          t := t.(kind := INVALID);
          return;
        }
        t := t.(kind := LETTER);
        t := t.(value := s[..1]);
        s := s[1..];
      } else if c == '.' {
        if t.kind > DIGIT {
          t := t.(kind := INVALID);
          return;
        }
        s := s[1..];
        t := t.(kind := DIGIT);
        Digits();
      } else if c == '_' {
        if t.kind > SUFFIX_NO {
          t := t.(kind := INVALID);
          return;
        }
        s := s[1..];
        var v := Span(IsLowerLetter);
        t := t.(value := v);
        t := t.(suffix := SuffixValue(t.value));
        if t.suffix == SUFFIX_INVALID {
          t := t.(kind := INVALID);
          return;
        }
        t := t.(kind := SUFFIX);
      } else if IsDigit(c) {
        if t.kind != SUFFIX {
          t := t.(kind := INVALID);
          return;
        }
        t := t.(kind := SUFFIX_NO);
        Digits();
      } else if c == '~' {
        if t.kind >= COMMIT_HASH {
          t := t.(kind := INVALID);
          return;
        }
        s := s[1..];
        var v := Span(IsHexDigit);
        t := t.(value := v);
        if t.value == "" {
          t := t.(kind := INVALID);
          return;
        }
        t := t.(kind := COMMIT_HASH);
      } else if c == '-' {
        if t.kind >= REVISION_NO || !HasPrefix(s, "-r") {
          t := t.(kind := INVALID);
          return;
        }
        s := s[2..];
        t := t.(kind := REVISION_NO);
        Digits();
      } else {
        t := t.(kind := INVALID);
      }
    }
  }

  /** How many leading zeros a digit run has. */
  function Zeros(s: string): nat { PrefixLen(s, IsZero) }

  predicate IsZero(c: char) { c == '0' }

  /** apk-tools 2's key of a component: leading zeros make a negative number, and
      the digits after them act as a further component. */
  function LegacyKey(s: string): (int, nat, bool)
    requires AllDigits(s)
  {
    var z: int := Zeros(s);
    var n := Number64(s[z..]);
    if z == 0 then (if n < TWO_31 then n else TWO_31, 0, false)
    else (-z, n, z < |s|)
  }

  function LegacyLeadingZeroCompare(a: string, b: string): int
    requires AllDigits(a) && AllDigits(b)
  {
    var (ka, ra, hasA) := LegacyKey(a);
    var (kb, rb, hasB) := LegacyKey(b);
    if ka != kb then CompareInts(ka, kb)
    else if hasA != hasB then (if hasA then 1 else -1)
    else CompareInts(ra, rb)
  }

  /** What the lexer guarantees of a token that can be compared. */
  predicate WellFormed(t: Token) {
    && 0 <= t.kind <= INVALID
    && (t.kind == DIGIT ==> t.value != "" && AllDigits(t.value) && t.number == Number64(t.value))
    && (t.kind == LETTER ==> |t.value| == 1)
    && (t.kind == SUFFIX ==> 1 <= t.suffix <= 10 && t.suffix != SUFFIX_NONE)
  }

  /** apkTokenCompare: two tokens of one kind. */
  function TokenCompare(a: Token, b: Token, legacy: bool): int
    requires WellFormed(a) && WellFormed(b) && a.kind == b.kind < END
  {
    if a.kind == DIGIT then
      if HasPrefix(a.value, "0") || HasPrefix(b.value, "0") then
        if legacy then LegacyLeadingZeroCompare(a.value, b.value)
        else CompareStrings(a.value, b.value)
      else CompareInts(a.number, b.number)
    else if a.kind == INITIAL_DIGIT || a.kind == SUFFIX_NO || a.kind == REVISION_NO then
      CompareInts(a.number, b.number)
    else if a.kind == LETTER then CompareInts(a.value[0] as int, b.value[0] as int)
    else if a.kind == SUFFIX then CompareInts(a.suffix, b.suffix)
    else CompareStrings(a.value, b.value)
  }

  /** The order of token kinds, lowest first: pre-release suffix, invalid, end,
      revision, commit hash, suffix number, patch suffix, letter, digits, first digits. */
  function Rank(t: Token): int {
    if t.kind == SUFFIX then (if t.suffix < SUFFIX_NONE then 0 else 6)
    else if t.kind == INITIAL_DIGIT then 9
    else if t.kind == DIGIT then 8
    else if t.kind == LETTER then 7
    else if t.kind == SUFFIX_NO then 5
    else if t.kind == COMMIT_HASH then 4
    else if t.kind == REVISION_NO then 3
    else if t.kind == END then 2
    else 1
  }

  /** The place of a dotted component among the components. Components with leading
      zeros come first; within them apk 3 reads a fraction, apk 2 its negative rule. */
  function ComponentKey(value: string, legacy: bool): seq<int>
    requires AllDigits(value) && value != ""
  {
    if value[0] != '0' then [1, Number64(value)]
    else if legacy then
      var z: int := Zeros(value);
      [0, -z, if z < |value| then 1 else 0, Number64(value[z..])]
    else [0] + Codes(value)
  }

  /** A token's key: its rank, then what orders tokens of that rank. */
  function TokenKey(t: Token, legacy: bool): seq<int>
    requires WellFormed(t)
  {
    [Rank(t)] +
    if t.kind == INITIAL_DIGIT || t.kind == SUFFIX_NO || t.kind == REVISION_NO then [t.number]
    else if t.kind == DIGIT then ComponentKey(t.value, legacy)
    else if t.kind == LETTER then [t.value[0] as int]
    else if t.kind == SUFFIX then [t.suffix]
    else if t.kind == COMMIT_HASH then Codes(t.value)
    else []
  }

  lemma CompareFour(a: int, b: int, c: int, d: int, x: int, y: int, z: int, w: int)
    ensures CompareSeqs([a, b, c, d], [x, y, z, w]) ==
            if a != x then CompareInts(a, x) else if b != y then CompareInts(b, y)
            else if c != z then CompareInts(c, z) else CompareInts(d, w)
  {
    CompareSeqsHead(a, x, [b, c, d], [y, z, w]);
    CompareSeqsHead(b, y, [c, d], [z, w]);
    CompareSeqsHead(c, z, [d], [w]);
    CompareSeqsHead(d, w, [], []);
    assert [a] + [b, c, d] == [a, b, c, d] && [x] + [y, z, w] == [x, y, z, w];
    assert [b] + [c, d] == [b, c, d] && [y] + [z, w] == [y, z, w];
    assert [c] + [d] == [c, d] && [z] + [w] == [z, w];
    assert [d] + [] == [d] && [w] + [] == [w];
  }

  lemma ZerosOf(a: string)
    requires a != ""
    ensures a[0] == '0' <==> Zeros(a) > 0
  {
  }

  /** Two components with leading zeros, by apk 2's rule. */
  lemma LegacyCompare(a: string, b: string)
    requires AllDigits(a) && AllDigits(b) && a != "" && b != "" && a[0] == b[0] == '0'
    ensures CompareSeqs(ComponentKey(a, true), ComponentKey(b, true)) == LegacyLeadingZeroCompare(a, b)
  {
    ZerosOf(a);
    ZerosOf(b);
    var ka, kb := ComponentKey(a, true), ComponentKey(b, true);
    CompareFour(ka[0], ka[1], ka[2], ka[3], kb[0], kb[1], kb[2], kb[3]);
    assert ka == [ka[0], ka[1], ka[2], ka[3]] && kb == [kb[0], kb[1], kb[2], kb[3]];
  }

  /** A component with leading zeros is below one without, by every rule. */
  lemma MixedCompare(a: string, b: string, legacy: bool)
    requires AllDigits(a) && AllDigits(b) && a != "" && b != "" && a[0] == '0' != b[0]
    ensures CompareSeqs(ComponentKey(a, legacy), ComponentKey(b, legacy)) == -1
    ensures LegacyLeadingZeroCompare(a, b) == CompareStrings(a, b) == -1
    ensures LegacyLeadingZeroCompare(b, a) == CompareStrings(b, a) == 1
  {
    ZerosOf(a);
    ZerosOf(b);
    assert Codes(a)[0] == '0' as int < Codes(b)[0];
  }

  lemma ComponentCompare(a: string, b: string, legacy: bool)
    requires AllDigits(a) && AllDigits(b) && a != "" && b != ""
    ensures CompareSeqs(ComponentKey(a, legacy), ComponentKey(b, legacy)) ==
            if a[0] == '0' || b[0] == '0' then
              (if legacy then LegacyLeadingZeroCompare(a, b) else CompareStrings(a, b))
            else CompareInts(Number64(a), Number64(b))
  {
    if a[0] == '0' && b[0] == '0' {
      if legacy {
        LegacyCompare(a, b);
      } else {
        CompareSeqsHead(0, 0, Codes(a), Codes(b));
      }
    } else if a[0] == '0' {
      MixedCompare(a, b, legacy);
    } else if b[0] == '0' {
      MixedCompare(b, a, legacy);
      SeqsAntisymmetric(ComponentKey(a, legacy), ComponentKey(b, legacy));
    } else {
      CompareSeqsHead(1, 1, [Number64(a)], [Number64(b)]);
    }
  }

  /** Tokens of one kind compare as their keys do. */
  lemma TokenCompareIsKeyOrder(a: Token, b: Token, legacy: bool)
    requires WellFormed(a) && WellFormed(b) && a.kind == b.kind < END
    ensures TokenCompare(a, b, legacy) == CompareSeqs(TokenKey(a, legacy), TokenKey(b, legacy))
  {
    var ka, kb := TokenKey(a, legacy), TokenKey(b, legacy);
    CompareSeqsHead(Rank(a), Rank(b), ka[1..], kb[1..]);
    assert ka == [Rank(a)] + ka[1..] && kb == [Rank(b)] + kb[1..];
    if a.kind == DIGIT {
      ComponentCompare(a.value, b.value, legacy);
    }
  }

  /** The key of the rest of a version, read from a lexer state. */
  ghost function KeyFrom(l: Lex, legacy: bool): Key
    requires WellFormed(l.t)
    decreases |l.s|, if l.t.kind < END then 1 else 0
  {
    [TokenKey(l.t, legacy)] +
    if l.t.kind >= END then [] else KeyFrom(NextOf(l), legacy)
  }

  /** A version's key depends on that version alone. */
  ghost function VersionKey(v: string, legacy: bool): Key {
    KeyFrom(Start(v), legacy)
  }

  /** Two tokens of one kind: they decide, or the rest of the versions does. */
  lemma {:induction false} CompareStep(a: Lex, b: Lex, legacy: bool)
    requires WellFormed(a.t) && WellFormed(b.t) && a.t.kind == b.t.kind < END
    ensures CompareKeys(KeyFrom(a, legacy), KeyFrom(b, legacy)) ==
            var c := TokenCompare(a.t, b.t, legacy);
            if c != 0 then c
            else CompareKeys(KeyFrom(NextOf(a), legacy), KeyFrom(NextOf(b), legacy))
  {
    hide NextOf;
    var ta, tb := TokenKey(a.t, legacy), TokenKey(b.t, legacy);
    TokenCompareIsKeyOrder(a.t, b.t, legacy);
    SeqsAntisymmetric(ta, tb);
    CompareKeysHead(ta, tb, KeyFrom(NextOf(a), legacy), KeyFrom(NextOf(b), legacy));
  }

  /** Tokens of different kinds, or two final ones: the ranks decide. */
  lemma CompareStop(a: Lex, b: Lex, legacy: bool)
    requires WellFormed(a.t) && WellFormed(b.t) && (a.t.kind != b.t.kind || a.t.kind >= END)
    ensures CompareKeys(KeyFrom(a, legacy), KeyFrom(b, legacy)) == CompareInts(Rank(a.t), Rank(b.t))
  {
    hide NextOf, ComponentKey, Codes;
    var ta, tb := TokenKey(a.t, legacy), TokenKey(b.t, legacy);
    assert KeyFrom(a, legacy)[0] == ta && KeyFrom(b, legacy)[0] == tb;
    assert ta[0] == Rank(a.t) && tb[0] == Rank(b.t);
    if a.t.kind == b.t.kind {
      assert KeyFrom(a, legacy) == [ta] == [tb] == KeyFrom(b, legacy);
      KeysAntisymmetric([ta], [tb]);
    }
  }

  /** The order compareAPKVersions decides. */
  ghost function Compare(a: string, b: string, legacy: bool): int {
    CompareKeys(VersionKey(a, legacy), VersionKey(b, legacy))
  }

  method CompareAPKVersions(a: string, b: string, legacy: bool) returns (r: int)
    ensures r == Compare(a, b, legacy)
  {
    hide NextOf, DigitsOf;
    var la := new VersionLexer(a);
    var lb := new VersionLexer(b);
    la.Digits();
    lb.Digits();
    assert la.State() == Start(a) && lb.State() == Start(b);
    while la.t.kind == lb.t.kind && la.t.kind < END
      invariant la != lb && fresh(la) && fresh(lb) && WellFormed(la.t) && WellFormed(lb.t)
      invariant Compare(a, b, legacy) ==
                CompareKeys(KeyFrom(la.State(), legacy), KeyFrom(lb.State(), legacy))
      decreases |la.s|, if la.t.kind < END then 1 else 0
    {
      CompareStep(la.State(), lb.State(), legacy);
      var c := TokenCompare(la.t, lb.t, legacy);
      if c != 0 {
        return c;
      }
      la.Next();
      lb.Next();
    }
    CompareStop(la.State(), lb.State(), legacy);
    var ta, tb := la.t, lb.t;
    if ta.kind == tb.kind {
      return 0;
    }
    if ta.kind == SUFFIX && ta.suffix < SUFFIX_NONE {
      return -1;
    }
    if tb.kind == SUFFIX && tb.suffix < SUFFIX_NONE {
      return 1;
    }
    if ta.kind > tb.kind {
      return -1;
    }
    return 1;
  }

  /** Version comparison is a total preorder on all strings, valid or not, and two
      versions tie exactly when their keys are equal. */
  lemma {:induction false} CompareOrderLaws(a: string, b: string, c: string, legacy: bool)
    ensures OrderLaws(Compare(a, b, legacy), Compare(b, a, legacy),
                      Compare(b, c, legacy), Compare(a, c, legacy))
    ensures Compare(a, b, legacy) == 0 <==> VersionKey(a, legacy) == VersionKey(b, legacy)
  {
    KeysOrderLaws(VersionKey(a, legacy), VersionKey(b, legacy), VersionKey(c, legacy));
    KeysAntisymmetric(VersionKey(a, legacy), VersionKey(b, legacy));
  }

  // ----- where the two modes can differ

  /** No dotted component starts with a zero. */
  predicate NoZeroComponent(s: string) {
    forall i :: 0 <= i < |s| - 1 && s[i] == '.' ==> s[i + 1] != '0'
  }

  /** The current token is no component with leading zeros, and none is to come. */
  predicate Plain(l: Lex) {
    (l.t.kind == DIGIT && l.t.value != "" ==> l.t.value[0] != '0') && NoZeroComponent(l.s)
  }

  lemma {:induction false} PlainNext(l: Lex)
    requires NoZeroComponent(l.s) && l.t.kind < END
    ensures Plain(NextOf(l))
  {
    hide Number64, SuffixValue;
    var n := NextOf(l);
    NextIsSuffix(l);
    SuffixHasNoZero(l.s, |l.s| - |n.s|);
    if l.s != "" && l.s[0] == '.' && |l.s| > 1 {
      assert l.s[1] != '0';
    }
  }

  lemma DropTwice(s: string, k: nat)
    requires k <= |s|
    ensures forall n :: 0 <= n <= |s| - k ==> s[k..][n..] == s[k + n..]
  {
  }

  lemma {:induction false} NextIsSuffix(l: Lex)
    ensures NextOf(l).s == l.s[|l.s| - |NextOf(l).s|..]
  {
    hide Number64, SuffixValue, PrefixLen, WellFormed;
    if l.s != "" {
      DropTwice(l.s, 1);
      if |l.s| > 1 {
        DropTwice(l.s, 2);
      }
    }
  }

  lemma SuffixHasNoZero(s: string, n: nat)
    requires NoZeroComponent(s) && n <= |s|
    ensures NoZeroComponent(s[n..])
  {
    var t := s[n..];
    forall i | 0 <= i < |t| - 1 && t[i] == '.' ensures t[i + 1] != '0' {
      assert s[n + i] == '.';
    }
  }

  /** One of two tokens without leading zeros: both modes compare them alike. */
  lemma {:induction false} TokensAgree(a: Token, b: Token)
    requires WellFormed(a) && WellFormed(b) && a.kind == b.kind < END
    requires a.kind == DIGIT ==> a.value[0] != '0' || b.value[0] != '0'
    ensures TokenCompare(a, b, true) == TokenCompare(a, b, false)
  {
    if a.kind == DIGIT && (a.value[0] == '0' || b.value[0] == '0') {
      TokenCompareIsKeyOrder(a, b, true);
      TokenCompareIsKeyOrder(a, b, false);
      if a.value[0] != b.value[0] {
        ZeroesFirst(a, b, true);
        ZeroesFirst(a, b, false);
      }
    }
  }

  lemma ZeroKey(value: string, legacy: bool)
    requires AllDigits(value) && value != ""
    ensures ComponentKey(value, legacy) != []
    ensures ComponentKey(value, legacy)[0] == if value[0] == '0' then 0 else 1
  {
  }

  lemma ZeroesFirst(a: Token, b: Token, legacy: bool)
    requires WellFormed(a) && WellFormed(b) && a.kind == b.kind == DIGIT
    requires (a.value[0] == '0') != (b.value[0] == '0')
    ensures CompareSeqs(TokenKey(a, legacy), TokenKey(b, legacy)) == if a.value[0] == '0' then -1 else 1
  {
    var x, y := ComponentKey(a.value, legacy), ComponentKey(b.value, legacy);
    ZeroKey(a.value, legacy);
    ZeroKey(b.value, legacy);
    assert TokenKey(a, legacy) == [8] + x && TokenKey(b, legacy) == [8] + y;
    hide ComponentKey, TokenKey;
    CompareSeqsHead(8, 8, x, y);
    CompareSeqsHead(x[0], y[0], x[1..], y[1..]);
    assert x == [x[0]] + x[1..] && y == [y[0]] + y[1..];
  }

  lemma {:induction false} ModesAgreeFrom(a: Lex, b: Lex)
    requires WellFormed(a.t) && WellFormed(b.t) && (Plain(a) || Plain(b))
    ensures CompareKeys(KeyFrom(a, true), KeyFrom(b, true)) == CompareKeys(KeyFrom(a, false), KeyFrom(b, false))
    decreases |a.s|, if a.t.kind < END then 1 else 0
  {
    hide NextOf, TokenCompare, KeyFrom, NoZeroComponent, Number64;
    if a.t.kind == b.t.kind && a.t.kind < END {
      CompareStep(a, b, true);
      CompareStep(a, b, false);
      TokensAgree(a.t, b.t);
      if Plain(a) {
        PlainNext(a);
      } else {
        PlainNext(b);
      }
      ModesAgreeFrom(NextOf(a), NextOf(b));
    } else {
      CompareStop(a, b, true);
      CompareStop(a, b, false);
    }
  }

  /** The two modes only disagree when both versions have a component with a leading zero. */
  lemma {:induction false} ModesAgree(a: string, b: string)
    requires NoZeroComponent(a) || NoZeroComponent(b)
    ensures Compare(a, b, true) == Compare(a, b, false)
  {
    var x, y := Start(a), Start(b);
    if NoZeroComponent(a) {
      SuffixHasNoZero(a, |a| - |x.s|);
    } else {
      SuffixHasNoZero(b, |b| - |y.s|);
    }
    hide KeyFrom, NoZeroComponent;
    ModesAgreeFrom(x, y);
  }

  /** With leading zeros on both sides they can: 0.012 is above 0.04 for apk-tools 2 and
      below it for apk-tools 3. */
  lemma {:induction false} ModesDisagree()
    ensures Compare("0.012", "0.04", true) == 1 && Compare("0.012", "0.04", false) == -1
  {
    hide Compare, LegacyLeadingZeroCompare, CompareStrings;
    Spellings();
    ComponentsDisagree();
    SecondDecides("0", "012", "04", true);
    SecondDecides("0", "012", "04", false);
  }

  lemma Spellings()
    ensures "0" + ("." + "012") == "0.012" && "0" + ("." + "04") == "0.04"
  {
    var s, t := "0" + ("." + "012"), "0" + ("." + "04");
    assert s[0] == '0' && s[1] == '.' && s[2] == '0' && s[3] == '1' && s[4] == '2';
    assert t[0] == '0' && t[1] == '.' && t[2] == '0' && t[3] == '4';
  }

  lemma StartOf(digits: string, rest: string)
    requires AllDigits(digits) && digits != "" && (rest == "" || !IsDigit(rest[0]))
    ensures Start(digits + rest) == Lex(rest, Token(INITIAL_DIGIT, 0, Number64(digits), digits))
  {
    PrefixLenIs(digits + rest, IsDigit, |digits|);
    assert (digits + rest)[..|digits|] == digits && (digits + rest)[|digits|..] == rest;
  }

  lemma ComponentOf(l: Lex, digits: string)
    requires l.t.kind <= DIGIT && l.s == "." + digits && AllDigits(digits) && digits != ""
    ensures NextOf(l) == Lex("", Token(DIGIT, l.t.suffix, Number64(digits), digits))
  {
    PrefixLenIs(digits, IsDigit, |digits|);
    assert l.s[1..] == digits && digits[..|digits|] == digits && digits[|digits|..] == "";
    hide Number64, SuffixValue;
  }

  lemma FirstNumbersCompare(a: Token, b: Token, legacy: bool)
    requires WellFormed(a) && WellFormed(b) && a.kind == b.kind == INITIAL_DIGIT
    ensures TokenCompare(a, b, legacy) == CompareInts(a.number, b.number)
  {
  }

  lemma ZeroedCompare(a: Token, b: Token, legacy: bool)
    requires WellFormed(a) && WellFormed(b) && a.kind == b.kind == DIGIT && a.value[0] == b.value[0] == '0'
    ensures TokenCompare(a, b, legacy) ==
            if legacy then LegacyLeadingZeroCompare(a.value, b.value) else CompareStrings(a.value, b.value)
  {
  }

  /** Versions of two components that differ in the second, both with leading zeros. */
  lemma {:induction false} SecondDecides(first: string, x: string, y: string, legacy: bool)
    requires AllDigits(first) && first != "" && AllDigits(x) && AllDigits(y) && x != "" && y != ""
    requires x[0] == y[0] == '0'
    requires (if legacy then LegacyLeadingZeroCompare(x, y) else CompareStrings(x, y)) != 0
    ensures Compare(first + ("." + x), first + ("." + y), legacy) ==
            if legacy then LegacyLeadingZeroCompare(x, y) else CompareStrings(x, y)
  {
    StartOf(first, "." + x);
    StartOf(first, "." + y);
    var a, b := Start(first + ("." + x)), Start(first + ("." + y));
    ComponentOf(a, x);
    ComponentOf(b, y);
    hide NextOf, KeyFrom, Start, LegacyLeadingZeroCompare, CompareStrings, CompareKeys, TokenCompare, AllDigits;
    FirstNumbersCompare(a.t, b.t, legacy);
    ZeroedCompare(NextOf(a).t, NextOf(b).t, legacy);
    CompareStep(a, b, legacy);
    CompareStep(NextOf(a), NextOf(b), legacy);
  }

  lemma {:induction false} ComponentsDisagree()
    ensures LegacyLeadingZeroCompare("012", "04") == 1 && CompareStrings("012", "04") == -1
  {
    PrefixLenIs("012", IsZero, 1);
    PrefixLenIs("04", IsZero, 1);
    assert "012"[1..] == "12" && "04"[1..] == "4" && "12"[..1] == "1" && "1"[..0] == "" && "4"[..0] == "";
    assert Number64("1") == 1 && Number64("12") == 12 && Number64("4") == 4;
    CompareSeqsHead('0' as int, '0' as int, Codes("12"), Codes("4"));
    CompareSeqsHead('1' as int, '4' as int, Codes("2"), []);
    assert Codes("012") == ['0' as int] + Codes("12") && Codes("04") == ['0' as int] + Codes("4");
    assert Codes("12") == ['1' as int] + Codes("2") && Codes("4") == ['4' as int] + [];
  }
}
