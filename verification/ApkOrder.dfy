/** The order of valid apk versions, field by field: what comparing two printed versions
    gives, stated on their parts alone. */
module ApkOrder {
  import opened Keys
  import opened Text
  import Decimal
  import opened ApkVersion
  import opened ApkGrammar

  // ----- numbers

  lemma {:induction false} ValueSnoc(s: string)
    requires AllDigits(s) && s != ""
    ensures Decimal.Value(s) == Decimal.Value(s[..|s| - 1]) * 10 + DigitValue(s[|s| - 1])
  {
    if |s| == 1 {
      assert s[1..] == "" && s[..0] == "";
    } else {
      var t := s[1..];
      ValueSnoc(t);
      assert t[..|t| - 1] == s[..|s| - 1][1..];
      assert Decimal.Pow10(|s| - 1) == 10 * Decimal.Pow10(|s| - 2);
      assert DigitValue(s[0]) * Decimal.Pow10(|s| - 1) == 10 * (DigitValue(s[0]) * Decimal.Pow10(|s| - 2)) by {
        Regroup(DigitValue(s[0]), Decimal.Pow10(|s| - 2));
      }
    }
  }

  lemma Regroup(d: nat, p: nat)
    ensures d * (10 * p) == 10 * (d * p)
  {
  }

  lemma {:induction false} ModMultiple(k: nat, y: nat)
    ensures (k * TWO_64 + y) % TWO_64 == y % TWO_64
  {
    if k > 0 {
      ModMultiple(k - 1, y);
      assert k * TWO_64 + y == ((k - 1) * TWO_64 + y) + TWO_64;
    }
  }

  lemma {:induction false} ModTen(x: nat, d: nat)
    ensures (x % TWO_64 * 10 + d) % TWO_64 == (x * 10 + d) % TWO_64
  {
    var q, r := x / TWO_64, x % TWO_64;
    ModMultiple(10 * q, r * 10 + d);
    assert x * 10 + d == 10 * q * TWO_64 + (r * 10 + d);
  }

  /** The lexer's number is the value of the digits, up to the width of a uint64. */
  lemma {:induction false} NumberIsValue(s: string)
    requires AllDigits(s)
    ensures Number64(s) == Decimal.Value(s) % TWO_64
  {
    if s != "" {
      var init := s[..|s| - 1];
      NumberIsValue(init);
      ValueSnoc(s);
      ModTen(Decimal.Value(init), DigitValue(s[|s| - 1]));
    }
  }

  // ----- the order, on the parts

  function NumberOrder(a: string, b: string): int
    requires AllDigits(a) && AllDigits(b)
  {
    CompareInts(Decimal.Value(a) % TWO_64, Decimal.Value(b) % TWO_64)
  }

  /** apk-tools 2 on components of which one has leading zeros: that one is lower; more
      zeros are lower; then having digits after them is higher, and then their value. */
  function ZeroedOrder(a: string, b: string): int
    requires AllDigits(a) && AllDigits(b)
  {
    var y, z := PrefixLen(a, IsZero), PrefixLen(b, IsZero);
    if y == 0 && z > 0 then 1
    else if y > 0 && z == 0 then -1
    else if y != z then CompareInts(z, y)
    else if a[y..] != "" && b[z..] == "" then 1
    else if a[y..] == "" && b[z..] != "" then -1
    else NumberOrder(a[y..], b[z..])
  }

  /** Components by value; with a leading zero as fractions, or by the rule of apk-tools 2. */
  function ComponentOrder(a: string, b: string, legacy: bool): int
    requires AllDigits(a) && AllDigits(b) && a != "" && b != ""
  {
    if a[0] != '0' && b[0] != '0' then NumberOrder(a, b)
    else if legacy then ZeroedOrder(a, b)
    else CompareStrings(a, b)
  }

  const SUFFIXES := ["alpha", "beta", "pre", "rc", "cvs", "svn", "git", "hg", "p"]

  /** The place of a suffix: the first four are pre-releases, the others patches. */
  function SuffixPlace(name: string): (k: nat)
    requires name in SUFFIXES
    ensures k < 9 && SUFFIXES[k] == name
  {
    assert SUFFIXES == ["alpha", "beta", "pre", "rc", "cvs", "svn", "git", "hg", "p"];
    if name == "alpha" then 0 else if name == "beta" then 1 else if name == "pre" then 2
    else if name == "rc" then 3 else if name == "cvs" then 4 else if name == "svn" then 5
    else if name == "git" then 6 else if name == "hg" then 7 else 8
  }

  predicate IsPatch(name: string)
    requires name in SUFFIXES
  {
    SuffixPlace(name) >= 4
  }

  lemma SuffixValues(name: string)
    ensures SuffixValue(name) != SUFFIX_INVALID <==> name in SUFFIXES
    ensures name in SUFFIXES ==> SuffixValue(name) == SuffixPlace(name) + if IsPatch(name) then 2 else 1
  {
    assert SUFFIXES == ["alpha", "beta", "pre", "rc", "cvs", "svn", "git", "hg", "p"];
    assert SUFFIXES[0] == "alpha" && SUFFIXES[1] == "beta" && SUFFIXES[2] == "pre" && SUFFIXES[3] == "rc";
    assert SUFFIXES[4] == "cvs" && SUFFIXES[5] == "svn" && SUFFIXES[6] == "git" && SUFFIXES[7] == "hg";
    assert SUFFIXES[8] == "p";
  }

  /** What is left of two versions behind equal parts: a suffix just read may still have
      its number, and then come components, letter, suffixes, hash and revision. */
  function RestOrder(m: string, v: Version, n: string, w: Version, legacy: bool): int
    requires WellFormedTail(v) && WellFormedTail(w) && AllDigits(m) && AllDigits(n)
    decreases |v.components| + |v.suffixes|, |m|, |v.letter| + |v.hash|
  {
    // the number of a suffix is above what follows, but for a patch suffix
    if m != "" && n != "" then
      if NumberOrder(m, n) != 0 then NumberOrder(m, n) else RestOrder("", v, "", w, legacy)
    else if m != "" then if w.suffixes != [] && IsPatch(SuffixName(w)) then -1 else 1
    else if n != "" then if v.suffixes != [] && IsPatch(SuffixName(v)) then 1 else -1
    // a further component is above everything that follows
    else if v.components != [] && w.components != [] then
      var c := ComponentOrder(v.components[0], w.components[0], legacy);
      if c != 0 then c
      else RestOrder("", v.(components := v.components[1..]), "", w.(components := w.components[1..]), legacy)
    else if v.components != [] then 1
    else if w.components != [] then -1
    // so is a letter
    else if v.letter != "" && w.letter != "" then
      if v.letter != w.letter then (if v.letter[0] < w.letter[0] then -1 else 1)
      else RestOrder("", v.(letter := ""), "", w.(letter := ""), legacy)
    else if v.letter != "" then 1
    else if w.letter != "" then -1
    // a pre-release suffix is below what follows and below nothing, a patch suffix above
    else if v.suffixes != [] && w.suffixes != [] then
      var p, q := SuffixPlace(SuffixName(v)), SuffixPlace(SuffixName(w));
      if p != q then CompareInts(p, q)
      else
        RestOrder(v.suffixes[0].number, v.(suffixes := v.suffixes[1..]),
                  w.suffixes[0].number, w.(suffixes := w.suffixes[1..]), legacy)
    else if v.suffixes != [] then if IsPatch(SuffixName(v)) then 1 else -1
    else if w.suffixes != [] then if IsPatch(SuffixName(w)) then -1 else 1
    // a hash is above a revision and above nothing
    else if v.hash != "" && w.hash != "" then
      if CompareStrings(v.hash, w.hash) != 0 then CompareStrings(v.hash, w.hash)
      else RestOrder("", v.(hash := ""), "", w.(hash := ""), legacy)
    else if v.hash != "" then 1
    else if w.hash != "" then -1
    // a revision is above nothing
    else if v.revision != "" && w.revision != "" then NumberOrder(v.revision, w.revision)
    else if v.revision != "" then 1
    else if w.revision != "" then -1
    else 0
  }

  function SuffixName(v: Version): (name: string)
    requires WellFormedTail(v) && v.suffixes != []
    ensures name in SUFFIXES && name == v.suffixes[0].name
  {
    SuffixValues(v.suffixes[0].name);
    v.suffixes[0].name
  }

  // ----- reading a printed version

  function RestText(n: string, v: Version): string { n + PrintFromComponents(v) }

  /** What can follow a token of the kind: the fields come in their order. */
  predicate Follows(kind: int, n: string, v: Version) {
    && 0 <= kind < END && WellFormedTail(v) && AllDigits(n)
    && (n != "" ==> kind == SUFFIX && v.components == [] && v.letter == "")
    && (v.components != [] || v.letter != "" ==> kind <= DIGIT)
    && (v.suffixes != [] ==> kind <= SUFFIX_NO)
    && (v.hash != "" ==> kind < COMMIT_HASH) && (v.revision != "" ==> kind < REVISION_NO)
  }

  /** A lexer state in front of the rest of a printed version. */
  predicate Before(l: Lex, n: string, v: Version) {
    Follows(l.t.kind, n, v) && l.s == RestText(n, v)
  }

  /** The kind of the token that comes next. */
  function NextKind(n: string, v: Version): int {
    if n != "" then SUFFIX_NO
    else if v.components != [] then DIGIT
    else if v.letter != "" then LETTER
    else if v.suffixes != [] then SUFFIX
    else if v.hash != "" then COMMIT_HASH
    else if v.revision != "" then REVISION_NO
    else END
  }

  lemma DigitsThen(t: Token, run: string, rest: string)
    requires AllDigits(run) && run != "" && (rest == "" || !IsDigit(rest[0]))
    ensures DigitsOf(Lex(run + rest, t)) == Lex(rest, Token(t.kind, t.suffix, Number64(run), run))
  {
    RunThen(run, rest, IsDigit);
    hide Number64, PrefixLen;
  }

  lemma SuffixNumberNext(l: Lex)
    requires l.s != "" && IsDigit(l.s[0]) && l.t.kind == SUFFIX
    ensures NextOf(l) == DigitsOf(l.(t := l.t.(kind := SUFFIX_NO)))
  {
    hide DigitsOf, SuffixValue;
  }

  lemma {:induction false} NumberNext(l: Lex, n: string, v: Version)
    requires Before(l, n, v) && n != ""
    ensures var r := NextOf(l);
            r.t.kind == SUFFIX_NO && r.t.number == Number64(n) && r.t.value == n && Before(r, "", v)
  {
    PrintFromComponentsHead(v);
    var rest := PrintFromComponents(v);
    hide NextOf, DigitsOf, PrintFromComponents, Number64;
    SuffixNumberNext(l);
    DigitsThen(l.t.(kind := SUFFIX_NO), n, rest);
    assert "" + rest == rest;
  }

  lemma DotNext(l: Lex)
    requires l.s != "" && l.s[0] == '.' && l.t.kind <= DIGIT
    ensures NextOf(l) == DigitsOf(Lex(l.s[1..], l.t.(kind := DIGIT)))
  {
    hide DigitsOf;
  }

  lemma LaterComponents(v: Version)
    requires WellFormedTail(v) && v.components != []
    ensures WellFormedTail(v.(components := v.components[1..]))
    ensures v.components[0] != "" && AllDigits(v.components[0])
  {
    hide WellFormedSuffix;
  }

  lemma {:induction false} ComponentNext(l: Lex, v: Version)
    requires Before(l, "", v) && v.components != []
    ensures var r := NextOf(l);
            && r.t.kind == DIGIT && r.t.value == v.components[0] && r.t.number == Number64(v.components[0])
            && Before(r, "", v.(components := v.components[1..]))
  {
    var c, w := v.components[0], v.(components := v.components[1..]);
    PrintFromComponentsHead(w);
    ComponentPrinted(v);
    LaterComponents(v);
    ComponentFollows(l.t.kind, v);
    var rest := PrintFromComponents(w);
    hide NextOf, DigitsOf, PrintFromComponents, Number64, WellFormedTail, Follows;
    assert l.s == "." + (c + rest) && l.s[1..] == c + rest;
    assert l.t.kind <= DIGIT;
    DotNext(l);
    DigitsThen(l.t.(kind := DIGIT), c, rest);
    assert RestText("", w) == rest;
  }

  lemma ComponentFollows(kind: int, v: Version)
    requires Follows(kind, "", v) && v.components != []
    ensures kind <= DIGIT && Follows(DIGIT, "", v.(components := v.components[1..]))
  {
    LaterComponents(v);
    hide WellFormedTail;
  }

  lemma {:induction false} ComponentPrinted(v: Version)
    requires v.components != []
    ensures RestText("", v) == "." + (v.components[0] + PrintFromComponents(v.(components := v.components[1..])))
  {
    var c, w := v.components[0], v.(components := v.components[1..]);
    assert PrintFromLetter(w) == PrintFromLetter(v) by { hide PrintSuffixes, PrintHash; }
    hide PrintFromLetter;
    assert PrintComponents(v.components) == "." + c + PrintComponents(w.components);
  }

  lemma {:induction false} LetterNext(l: Lex, v: Version)
    requires Before(l, "", v) && v.components == [] && v.letter != ""
    ensures var r := NextOf(l);
            r.t.kind == LETTER && r.t.value == v.letter && Before(r, "", v.(letter := ""))
  {
    hide PrintFromSuffixes, Number64, SuffixValue, DigitsOf;
    assert l.s == v.letter + PrintFromSuffixes(v);
    assert l.s[..1] == v.letter && l.s[1..] == PrintFromSuffixes(v.(letter := "")) by { LetterIgnored(v); }
  }

  lemma LetterIgnored(v: Version)
    ensures PrintFromSuffixes(v.(letter := "")) == PrintFromSuffixes(v)
  {
  }

  lemma {:induction false} SuffixNext(l: Lex, v: Version)
    requires Before(l, "", v) && v.components == [] && v.letter == "" && v.suffixes != []
    ensures var r, p := NextOf(l), v.suffixes[0];
            && r.t.kind == SUFFIX && r.t.suffix == SuffixValue(p.name)
            && Before(r, p.number, v.(suffixes := v.suffixes[1..]))
  {
    var p, w := v.suffixes[0], v.(suffixes := v.suffixes[1..]);
    SuffixPrinted(v);
    PrintFromSuffixesHead(w);
    LaterSuffixes(v);
    var rest := RestText(p.number, w);
    hide PrintFromComponents, PrintFromSuffixes, Number64, SuffixValue, DigitsOf, WellFormedTail, PrefixLen;
    assert l.s[1..] == p.name + rest;
    RunThen(p.name, rest, IsLowerLetter);
  }

  lemma LaterSuffixes(v: Version)
    requires WellFormedTail(v) && v.suffixes != []
    ensures var p := v.suffixes[0];
            && WellFormedTail(v.(suffixes := v.suffixes[1..])) && AllDigits(p.number)
            && SuffixValue(p.name) != SUFFIX_INVALID && forall i :: 0 <= i < |p.name| ==> IsLowerLetter(p.name[i])
  {
    SuffixNameLetters(v.suffixes[0].name);
    hide SuffixValue;
  }

  lemma SuffixPrinted(v: Version)
    requires v.components == [] && v.letter == "" && v.suffixes != []
    ensures var p, w := v.suffixes[0], v.(suffixes := v.suffixes[1..]);
            RestText("", v) == "_" + (p.name + RestText(p.number, w)) &&
            PrintFromComponents(w) == PrintFromSuffixes(w)
  {
    hide PrintHash;
  }

  lemma {:induction false} HashNext(l: Lex, v: Version)
    requires Before(l, "", v) && v.components == [] && v.letter == "" && v.suffixes == [] && v.hash != ""
    ensures var r := NextOf(l);
            r.t.kind == COMMIT_HASH && r.t.value == v.hash && Before(r, "", v.(hash := ""))
  {
    var rest := PrintRevision(v.revision);
    assert l.s == "~" + (v.hash + rest) && RestText("", v.(hash := "")) == rest;
    RunThen(v.hash, rest, IsHexDigit);
    hide Number64, SuffixValue, DigitsOf, PrefixLen, RestText, PrintRevision;
    assert l.s[1..] == v.hash + rest;
  }

  lemma {:induction false} RevisionNext(l: Lex, v: Version)
    requires Before(l, "", v) && v.components == [] && v.letter == "" && v.suffixes == [] && v.hash == ""
    requires v.revision != ""
    ensures var r := NextOf(l);
            && r.t.kind == REVISION_NO && r.t.number == Number64(v.revision)
            && Before(r, "", v.(revision := ""))
  {
    RevisionPrinted(v);
    assert v.revision + "" == v.revision;
    hide Number64, RestText, NextOf, DigitsOf;
    DashNext(l);
    assert l.s[2..] == v.revision;
    DigitsThen(l.t.(kind := REVISION_NO), v.revision, "");
  }

  lemma RevisionPrinted(v: Version)
    requires v.components == [] && v.letter == "" && v.suffixes == [] && v.hash == "" && v.revision != ""
    ensures RestText("", v) == "-r" + v.revision && RestText("", v.(revision := "")) == ""
  {
  }

  lemma DashNext(l: Lex)
    requires "-r" <= l.s && l.t.kind < REVISION_NO
    ensures NextOf(l) == DigitsOf(Lex(l.s[2..], l.t.(kind := REVISION_NO)))
  {
    hide DigitsOf, SuffixValue;
  }

  lemma EndNext(l: Lex, v: Version)
    requires Before(l, "", v) && NextKind("", v) == END
    ensures NextOf(l).t.kind == END
  {
    hide DigitsOf;
  }

  /** The kind of the token read next, and of a suffix its value. */
  lemma {:induction false} ReadsKind(l: Lex, n: string, v: Version)
    requires Before(l, n, v) && WellFormed(l.t)
    ensures var t := NextOf(l).t;
            && WellFormed(t) && t.kind == NextKind(n, v)
            && (t.kind == SUFFIX ==> v.suffixes != [] && t.suffix == SuffixValue(v.suffixes[0].name))
  {
    hide NextOf, RestText, SuffixValue, WellFormedTail;
    if n != "" {
      NumberNext(l, n, v);
    } else if v.components != [] {
      ComponentNext(l, v);
    } else if v.letter != "" {
      LetterNext(l, v);
    } else if v.suffixes != [] {
      SuffixNext(l, v);
    } else if v.hash != "" {
      HashNext(l, v);
    } else if v.revision != "" {
      RevisionNext(l, v);
    } else {
      EndNext(l, v);
    }
  }

  /** The rank of the next token, from the field. */
  function FieldRank(n: string, v: Version): int
    requires WellFormedTail(v)
  {
    match NextKind(n, v)
    case 1 => 8
    case 2 => 7
    case 3 => if v.suffixes == [] then 0 else if IsPatch(SuffixName(v)) then 6 else 0
    case 4 => 5
    case 5 => 4
    case 6 => 3
    case _ => 2
  }

  lemma {:induction false} RankOfField(t: Token, n: string, v: Version)
    requires WellFormedTail(v) && t.kind == NextKind(n, v)
    requires t.kind == SUFFIX ==> v.suffixes != [] && t.suffix == SuffixValue(v.suffixes[0].name)
    ensures Rank(t) == FieldRank(n, v)
  {
    if t.kind == SUFFIX {
      SuffixValues(SuffixName(v));
    }
    hide SuffixValue, WellFormedTail, SuffixPlace, IsPatch;
  }

  /** Different fields: their ranks decide, as RestOrder says. */
  lemma {:induction false} DifferentFields(m: string, v: Version, n: string, w: Version, kind: int,
                                           legacy: bool)
    requires Follows(kind, m, v) && Follows(kind, n, w) && NextKind(m, v) != NextKind(n, w)
    ensures RestOrder(m, v, n, w, legacy) == CompareInts(FieldRank(m, v), FieldRank(n, w))
  {
    hide WellFormedTail, SuffixPlace, IsPatch, NumberOrder, ComponentOrder;
  }

  /** What is left of two printed versions compares as its parts do. */
  lemma {:induction false} RestCompares(a: Lex, b: Lex, m: string, v: Version, n: string, w: Version,
                                        legacy: bool)
    requires Before(a, m, v) && Before(b, n, w) && a.t.kind == b.t.kind && WellFormed(a.t) && WellFormed(b.t)
    ensures CompareKeys(KeyFrom(NextOf(a), legacy), KeyFrom(NextOf(b), legacy)) == RestOrder(m, v, n, w, legacy)
    decreases |a.s| + |b.s|, 1
  {
    ReadsKind(a, m, v);
    ReadsKind(b, n, w);
    hide NextOf, KeyFrom, RestText, WellFormedTail, CompareKeys, SuffixValue;
    if NextKind(m, v) != NextKind(n, w) {
      CompareStop(NextOf(a), NextOf(b), legacy);
      RankOfField(NextOf(a).t, m, v);
      RankOfField(NextOf(b).t, n, w);
      DifferentFields(m, v, n, w, a.t.kind, legacy);
    } else if NextKind(m, v) == END {
      CompareStop(NextOf(a), NextOf(b), legacy);
    } else {
      SameField(a, b, m, v, n, w, legacy);
    }
  }

  lemma NumberTokens(t: Token, u: Token, legacy: bool)
    requires WellFormed(t) && WellFormed(u) && t.kind == u.kind && (t.kind == SUFFIX_NO || t.kind == REVISION_NO)
    ensures TokenCompare(t, u, legacy) == CompareInts(t.number, u.number)
  {
  }

  lemma {:induction false} ComponentTokens(t: Token, u: Token, legacy: bool)
    requires WellFormed(t) && WellFormed(u) && t.kind == u.kind == DIGIT
    ensures TokenCompare(t, u, legacy) == ComponentOrder(t.value, u.value, legacy)
  {
    NumberIsValue(t.value);
    NumberIsValue(u.value);
    hide Number64, CompareStrings;
    if t.value[0] == '0' || u.value[0] == '0' {
      ZeroedTokens(t.value, u.value);
    }
  }

  lemma {:induction false} ZeroedTokens(a: string, b: string)
    requires AllDigits(a) && AllDigits(b) && a != "" && b != "" && (a[0] == '0' || b[0] == '0')
    ensures LegacyLeadingZeroCompare(a, b) == ZeroedOrder(a, b)
  {
    NumberIsValue(a[PrefixLen(a, IsZero)..]);
    NumberIsValue(b[PrefixLen(b, IsZero)..]);
    hide Number64, Decimal.Value;
  }

  lemma LetterTokens(t: Token, u: Token, legacy: bool)
    requires WellFormed(t) && WellFormed(u) && t.kind == u.kind == LETTER
    ensures TokenCompare(t, u, legacy) ==
            if t.value == u.value then 0 else if t.value[0] < u.value[0] then -1 else 1
  {
  }

  lemma SuffixTokens(t: Token, u: Token, legacy: bool)
    requires WellFormed(t) && WellFormed(u) && t.kind == u.kind == SUFFIX
    ensures TokenCompare(t, u, legacy) == CompareInts(t.suffix, u.suffix)
  {
  }

  lemma SuffixOrder(a: string, b: string)
    requires a in SUFFIXES && b in SUFFIXES
    ensures CompareInts(SuffixValue(a), SuffixValue(b)) == CompareInts(SuffixPlace(a), SuffixPlace(b))
  {
    SuffixValues(a);
    SuffixValues(b);
    hide SuffixValue, SuffixPlace;
  }

  lemma HashTokens(t: Token, u: Token, legacy: bool)
    requires WellFormed(t) && WellFormed(u) && t.kind == u.kind == COMMIT_HASH
    ensures TokenCompare(t, u, legacy) == CompareStrings(t.value, u.value)
  {
  }

  /** The same field next on both sides: it decides, or what follows it does. */
  lemma {:induction false} SameField(a: Lex, b: Lex, m: string, v: Version, n: string, w: Version, legacy: bool)
    requires Before(a, m, v) && Before(b, n, w) && a.t.kind == b.t.kind && WellFormed(a.t) && WellFormed(b.t)
    requires NextKind(m, v) == NextKind(n, w) < END
    requires WellFormed(NextOf(a).t) && WellFormed(NextOf(b).t)
    requires NextOf(a).t.kind == NextOf(b).t.kind == NextKind(m, v)
    ensures CompareKeys(KeyFrom(NextOf(a), legacy), KeyFrom(NextOf(b), legacy)) == RestOrder(m, v, n, w, legacy)
    decreases |a.s| + |b.s|, 0
  {
    var x, y := NextOf(a), NextOf(b);
    CompareStep(x, y, legacy);
    hide NextOf, KeyFrom, CompareKeys, TokenCompare, RestText, SuffixValue, SuffixPlace, CompareStrings, Number64,
         ComponentOrder, IsPatch;
    if m != "" {
      NumberNext(a, m, v);
      NumberNext(b, n, w);
      NumberTokens(x.t, y.t, legacy);
      NumberIsValue(m);
      NumberIsValue(n);
      RestCompares(x, y, "", v, "", w, legacy);
    } else if v.components != [] {
      ComponentNext(a, v);
      ComponentNext(b, w);
      ComponentTokens(x.t, y.t, legacy);
      RestCompares(x, y, "", v.(components := v.components[1..]), "", w.(components := w.components[1..]), legacy);
    } else if v.letter != "" {
      LetterNext(a, v);
      LetterNext(b, w);
      LetterTokens(x.t, y.t, legacy);
      RestCompares(x, y, "", v.(letter := ""), "", w.(letter := ""), legacy);
    } else if v.suffixes != [] {
      SuffixNext(a, v);
      SuffixNext(b, w);
      SuffixTokens(x.t, y.t, legacy);
      SuffixOrder(SuffixName(v), SuffixName(w));
      RestCompares(x, y, v.suffixes[0].number, v.(suffixes := v.suffixes[1..]), w.suffixes[0].number,
                   w.(suffixes := w.suffixes[1..]), legacy);
    } else if v.hash != "" {
      HashNext(a, v);
      HashNext(b, w);
      HashTokens(x.t, y.t, legacy);
      RestCompares(x, y, "", v.(hash := ""), "", w.(hash := ""), legacy);
    } else {
      RevisionNext(a, v);
      RevisionNext(b, w);
      NumberTokens(x.t, y.t, legacy);
      NumberIsValue(v.revision);
      NumberIsValue(w.revision);
      RestCompares(x, y, "", v.(revision := ""), "", w.(revision := ""), legacy);
    }
  }

  // ----- whole versions

  /** The first numbers decide, then the rest. */
  function Order(v: Version, w: Version, legacy: bool): int
    requires WellFormedVersion(v) && WellFormedVersion(w)
  {
    if NumberOrder(v.first, w.first) != 0 then NumberOrder(v.first, w.first)
    else RestOrder("", v, "", w, legacy)
  }

  /** Comparing two printed versions compares their parts, in both modes. */
  lemma {:induction false} PrintedCompare(v: Version, w: Version, legacy: bool)
    requires WellFormedVersion(v) && WellFormedVersion(w)
    ensures Compare(Print(v), Print(w), legacy) == Order(v, w, legacy)
  {
    StartsPrinted(v);
    StartsPrinted(w);
    var a, b := Start(Print(v)), Start(Print(w));
    NumberIsValue(v.first);
    NumberIsValue(w.first);
    hide Start, NextOf, KeyFrom, CompareKeys, RestText, Number64, Print, TokenCompare, WellFormedTail;
    FirstNumbersCompare(a.t, b.t, legacy);
    CompareStep(a, b, legacy);
    RestCompares(a, b, "", v, "", w, legacy);
  }

  lemma {:induction false} StartsPrinted(v: Version)
    requires WellFormedVersion(v)
    ensures var l := Start(Print(v));
            l.t.kind == INITIAL_DIGIT && l.t.number == Number64(v.first) && Before(l, "", v)
  {
    var rest := PrintFromComponents(v);
    PrintFromComponentsHead(v);
    hide PrintFromComponents, Number64, Start;
    StartOf(v.first, rest);
    assert "" + rest == rest;
  }

  // ----- revisions

  lemma ComponentsTie(c: string, legacy: bool)
    requires AllDigits(c) && c != ""
    ensures ComponentOrder(c, c, legacy) == 0
  {
    hide Decimal.Value, Codes;
    SeqsAntisymmetric(Codes(c), Codes(c));
  }

  /** Versions that differ in the revision only compare by it. */
  lemma {:induction false} RevisionDecides(m: string, v: Version, r: string, legacy: bool)
    requires WellFormedTail(v) && AllDigits(m) && AllDigits(r)
    ensures WellFormedTail(v.(revision := r))
    ensures RestOrder(m, v, m, v.(revision := r), legacy) ==
            if v.revision == r then 0 else if r == "" then 1 else if v.revision == "" then -1
            else NumberOrder(v.revision, r)
    decreases |v.components| + |v.suffixes|, |m|, |v.letter| + |v.hash|
  {
    var w := v.(revision := r);
    hide NumberOrder, ComponentOrder, CompareStrings, SuffixPlace, IsPatch;
    NumbersTie(m);
    if m != "" {
      RevisionDecides("", v, r, legacy);
    } else if v.components != [] {
      ComponentsTie(v.components[0], legacy);
      RevisionDecides("", v.(components := v.components[1..]), r, legacy);
    } else if v.letter != "" {
      RevisionDecides("", v.(letter := ""), r, legacy);
    } else if v.suffixes != [] {
      RevisionDecides(v.suffixes[0].number, v.(suffixes := v.suffixes[1..]), r, legacy);
    } else if v.hash != "" {
      StringsReflexive(v.hash);
      RevisionDecides("", v.(hash := ""), r, legacy);
    } else {
      NumbersTie(r);
    }
  }

  lemma NumbersTie(s: string)
    requires AllDigits(s)
    ensures NumberOrder(s, s) == 0
  {
  }

  lemma SmallNumber(x: nat)
    requires x < TWO_64
    ensures x % TWO_64 == x
  {
  }

  lemma {:induction false} NumbersAscend(a: string, b: string)
    requires AllDigits(a) && AllDigits(b) && Decimal.Value(a) < Decimal.Value(b) < TWO_64
    ensures NumberOrder(a, b) == -1 && a != b
  {
    hide Decimal.Value;
    SmallNumber(Decimal.Value(a));
    SmallNumber(Decimal.Value(b));
  }

  /** A rebuild is newer: -r10 is above -r9, and -r0 above no revision. */
  lemma {:induction false} RevisionsAscend(v: Version, r: string, legacy: bool)
    requires WellFormedVersion(v) && AllDigits(r) && r != ""
    requires v.revision == "" || Decimal.Value(v.revision) < Decimal.Value(r) < TWO_64
    ensures WellFormedVersion(v.(revision := r))
    ensures Compare(Print(v), Print(v.(revision := r)), legacy) == -1
  {
    NumbersTie(v.first);
    if v.revision != "" {
      NumbersAscend(v.revision, r);
    }
    hide WellFormedTail, RestOrder, Print, Compare, NumberOrder, Decimal.Value;
    RevisionDecides("", v, r, legacy);
    PrintedCompare(v, v.(revision := r), legacy);
  }
}
