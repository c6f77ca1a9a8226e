/** Which strings apkVersionValid accepts: a structured version, its printer, a
    recursive-descent parser that inverts the printer, and the proof that the lexer
    loop accepts exactly what the parser reads. */
module ApkGrammar {
  import opened Options
  import opened Text
  import opened ApkVersion

  datatype SuffixPart = SuffixPart(name: string, number: string)

  /** digits('.'digits)* letter? ('_'name digits*)* ('~'hex+)? ('-r'digits+)?,
      with "" for each optional part that is absent. */
  datatype Version = Version(first: string, components: seq<string>, letter: string,
                             suffixes: seq<SuffixPart>, hash: string, revision: string)

  const EMPTY := Version("", [], "", [], "", "")

  predicate WellFormedSuffix(p: SuffixPart) {
    SuffixValue(p.name) != SUFFIX_INVALID && AllDigits(p.number)
  }

  /** Every part is well formed; the first digits may still be missing. */
  predicate WellFormedTail(v: Version) {
    && AllDigits(v.first)
    && (forall i :: 0 <= i < |v.components| ==> v.components[i] != "" && AllDigits(v.components[i]))
    && (v.letter == "" || (|v.letter| == 1 && IsLowerLetter(v.letter[0])))
    && (forall i :: 0 <= i < |v.suffixes| ==> WellFormedSuffix(v.suffixes[i]))
    && (forall i :: 0 <= i < |v.hash| ==> IsHexDigit(v.hash[i]))
    && AllDigits(v.revision)
  }

  predicate WellFormedVersion(v: Version) { v.first != "" && WellFormedTail(v) }

  function PrintComponents(cs: seq<string>): string {
    if cs == [] then "" else "." + cs[0] + PrintComponents(cs[1..])
  }

  function PrintSuffixes(ps: seq<SuffixPart>): string {
    if ps == [] then "" else "_" + ps[0].name + ps[0].number + PrintSuffixes(ps[1..])
  }

  function PrintRevision(r: string): string { if r == "" then "" else "-r" + r }

  function PrintHash(h: string, r: string): string {
    (if h == "" then "" else "~" + h) + PrintRevision(r)
  }

  function PrintFromSuffixes(v: Version): string { PrintSuffixes(v.suffixes) + PrintHash(v.hash, v.revision) }

  function PrintFromLetter(v: Version): string { v.letter + PrintFromSuffixes(v) }

  function PrintFromComponents(v: Version): string { PrintComponents(v.components) + PrintFromLetter(v) }

  function Print(v: Version): string { v.first + PrintFromComponents(v) }

  // ----- the parser, one function per part; each returns the parts from there on

  function ParseRevision(s: string): Option<Version> {
    if s == "" then Some(EMPTY)
    else if HasPrefix(s, "-r") && |s| > 2 && AllDigits(s[2..]) then Some(EMPTY.(revision := s[2..]))
    else None
  }

  function ParseHash(s: string): Option<Version> {
    if s != "" && s[0] == '~' then
      var n := PrefixLen(s[1..], IsHexDigit);
      match ParseRevision(s[1..][n..])
      case Some(v) => if n > 0 then Some(v.(hash := s[1..][..n])) else None
      case None => None
    else ParseRevision(s)
  }

  /** The suffix at the start of s, and what follows it. */
  function SuffixAt(s: string): (r: (SuffixPart, string))
    requires s != "" && s[0] == '_'
    ensures s == "_" + r.0.name + r.0.number + r.1
    ensures AllDigits(r.0.number) && |r.1| < |s|
  {
    var n := PrefixLen(s[1..], IsLowerLetter);
    var rest := s[1..][n..];
    var d := PrefixLen(rest, IsDigit);
    (SuffixPart(s[1..][..n], rest[..d]), rest[d..])
  }

  function ParseSuffixes(s: string): Option<Version>
    decreases |s|
  {
    if s != "" && s[0] == '_' then
      var (p, rest) := SuffixAt(s);
      match ParseSuffixes(rest)
      case Some(v) =>
        if WellFormedSuffix(p) then Some(v.(suffixes := [p] + v.suffixes)) else None
      case None => None
    else ParseHash(s)
  }

  function ParseLetter(s: string): Option<Version> {
    if s != "" && IsLowerLetter(s[0]) then
      match ParseSuffixes(s[1..])
      case Some(v) => Some(v.(letter := s[..1]))
      case None => None
    else ParseSuffixes(s)
  }

  /** The component at the start of s, and what follows it. */
  function ComponentAt(s: string): (r: (string, string))
    requires s != "" && s[0] == '.'
    ensures s == "." + r.0 + r.1 && AllDigits(r.0) && |r.1| < |s|
  {
    var n := PrefixLen(s[1..], IsDigit);
    (s[1..][..n], s[1..][n..])
  }

  function ParseComponents(s: string): Option<Version>
    decreases |s|
  {
    if s != "" && s[0] == '.' then
      var (c, rest) := ComponentAt(s);
      match ParseComponents(rest)
      case Some(v) => if c != "" then Some(v.(components := [c] + v.components)) else None
      case None => None
    else ParseLetter(s)
  }

  function Parse(s: string): Option<Version> {
    var n := PrefixLen(s, IsDigit);
    match ParseComponents(s[n..])
    case Some(v) => if n > 0 then Some(v.(first := s[..n])) else None
    case None => None
  }

  // ----- what is parsed prints back

  lemma ConsSuffix(p: SuffixPart, v: Version)
    ensures PrintFromSuffixes(v.(suffixes := [p] + v.suffixes)) ==
            "_" + p.name + p.number + PrintFromSuffixes(v)
  {
    hide PrintHash;
    assert ([p] + v.suffixes)[1..] == v.suffixes;
    assert PrintSuffixes([p] + v.suffixes) == "_" + p.name + p.number + PrintSuffixes(v.suffixes);
  }

  lemma ConsComponent(c: string, v: Version)
    ensures PrintFromComponents(v.(components := [c] + v.components)) == "." + c + PrintFromComponents(v)
  {
    hide PrintFromLetter;
    assert ([c] + v.components)[1..] == v.components;
    assert PrintComponents([c] + v.components) == "." + c + PrintComponents(v.components);
    PrintFromLetterIgnores(v, [c] + v.components);
  }

  lemma PrintFromLetterIgnores(v: Version, cs: seq<string>)
    ensures PrintFromLetter(v.(components := cs)) == PrintFromLetter(v)
  {
  }

  lemma ParseRevisionPrints(s: string)
    ensures match ParseRevision(s)
            case Some(v) =>
              && AllDigits(v.revision) && PrintRevision(v.revision) == s
              && v == EMPTY.(revision := v.revision)
            case None => true
  {
  }

  lemma {:induction false} ParseHashPrints(s: string)
    ensures match ParseHash(s)
            case Some(v) =>
              && WellFormedTail(v) && PrintHash(v.hash, v.revision) == s
              && v == EMPTY.(hash := v.hash, revision := v.revision)
            case None => true
  {
    hide WellFormedSuffix, ParseRevision, PrintRevision;
    ParseRevisionPrints(s);
    if s != "" && s[0] == '~' {
      var n := PrefixLen(s[1..], IsHexDigit);
      ParseRevisionPrints(s[1..][n..]);
      assert s == "~" + s[1..][..n] + s[1..][n..];
    } else {
      assert "" + s == s;
    }
  }

  lemma {:induction false} ParseSuffixesPrints(s: string)
    ensures match ParseSuffixes(s)
            case Some(v) =>
              && WellFormedTail(v) && PrintFromSuffixes(v) == s
              && v.first == "" && v.components == [] && v.letter == ""
            case None => true
    decreases |s|
  {
    hide SuffixValue, ParseHash, PrintHash, SuffixAt;
    if s != "" && s[0] == '_' {
      hide PrintFromSuffixes;
      var (p, rest) := SuffixAt(s);
      ParseSuffixesPrints(rest);
      if v :| ParseSuffixes(rest) == Some(v) {
        ConsSuffix(p, v);
      }
    } else {
      ParseHashPrints(s);
    }
  }

  lemma ParseLetterPrints(s: string)
    ensures match ParseLetter(s)
            case Some(v) =>
              && WellFormedTail(v) && PrintFromLetter(v) == s
              && v.first == "" && v.components == []
            case None => true
  {
    if s != "" && IsLowerLetter(s[0]) {
      ParseSuffixesPrints(s[1..]);
      assert s == s[..1] + s[1..];
    } else {
      ParseSuffixesPrints(s);
    }
  }

  lemma {:induction false} ParseComponentsPrints(s: string)
    ensures match ParseComponents(s)
            case Some(v) => WellFormedTail(v) && PrintFromComponents(v) == s && v.first == ""
            case None => true
    decreases |s|
  {
    hide ParseLetter, PrintFromLetter, ComponentAt, SuffixValue;
    if s != "" && s[0] == '.' {
      hide PrintFromComponents;
      var (c, rest) := ComponentAt(s);
      ParseComponentsPrints(rest);
      if v :| ParseComponents(rest) == Some(v) {
        ConsComponent(c, v);
      }
    } else {
      ParseLetterPrints(s);
    }
  }

  // ----- what is printed parses back

  /** A digit, letter or hex run followed by something else is read back whole. */
  lemma RunThen(run: string, rest: string, ok: char -> bool)
    requires forall i :: 0 <= i < |run| ==> ok(run[i])
    requires rest == "" || !ok(rest[0])
    ensures PrefixLen(run + rest, ok) == |run|
    ensures (run + rest)[..|run|] == run && (run + rest)[|run|..] == rest
  {
    PrefixLenIs(run + rest, ok, |run|);
  }

  lemma PrintHashParses(v: Version)
    requires WellFormedTail(v) && v == EMPTY.(hash := v.hash, revision := v.revision)
    ensures ParseHash(PrintHash(v.hash, v.revision)) == Some(v)
  {
    var r := PrintRevision(v.revision);
    assert r != "" ==> r[2..] == v.revision;
    assert ParseRevision(r) == Some(v.(hash := ""));
    var s := PrintHash(v.hash, v.revision);
    if v.hash == "" {
      assert s == r;
    } else {
      assert s[1..] == v.hash + r;
      RunThen(v.hash, r, IsHexDigit);
    }
  }

  lemma PrintHashHead(h: string, r: string)
    ensures PrintHash(h, r) == "" || PrintHash(h, r)[0] in "~-"
  {
  }

  /** A printed suffix is read back, whatever follows that is not a digit. */
  lemma {:induction false} SuffixAtPrinted(p: SuffixPart, rest: string)
    requires WellFormedSuffix(p) && (rest == "" || rest[0] in "_~-")
    ensures SuffixAt("_" + p.name + p.number + rest) == (p, rest)
  {
    SuffixNameLetters(p.name);
    hide SuffixValue;
    assert ("_" + p.name + p.number + rest)[1..] == p.name + (p.number + rest);
    RunThen(p.name, p.number + rest, IsLowerLetter);
    RunThen(p.number, rest, IsDigit);
  }

  lemma {:induction false} PrintSuffixesParses(v: Version)
    requires WellFormedTail(v) && v.first == "" && v.components == [] && v.letter == ""
    ensures ParseSuffixes(PrintFromSuffixes(v)) == Some(v)
    decreases |v.suffixes|
  {
    hide SuffixValue, ParseHash, SuffixAt;
    PrintFromSuffixesHead(v);
    if v.suffixes == [] {
      PrintHashHead(v.hash, v.revision);
      assert PrintFromSuffixes(v) == PrintHash(v.hash, v.revision);
      PrintHashParses(v);
    } else {
      hide PrintFromSuffixes;
      var p, w := v.suffixes[0], v.(suffixes := v.suffixes[1..]);
      PrintSuffixesParses(w);
      PrintFromSuffixesHead(w);
      ConsSuffix(p, w);
      SuffixAtPrinted(p, PrintFromSuffixes(w));
      assert v == w.(suffixes := [p] + w.suffixes);
    }
  }

  lemma SuffixNameLetters(name: string)
    requires SuffixValue(name) != SUFFIX_INVALID
    ensures forall i :: 0 <= i < |name| ==> IsLowerLetter(name[i])
  {
  }

  lemma PrintFromSuffixesHead(v: Version)
    ensures PrintFromSuffixes(v) == "" || PrintFromSuffixes(v)[0] in "_~-"
  {
    PrintHashHead(v.hash, v.revision);
  }

  lemma {:induction false} PrintLetterParses(v: Version)
    requires WellFormedTail(v) && v.first == "" && v.components == []
    ensures ParseLetter(PrintFromLetter(v)) == Some(v)
  {
    var w := v.(letter := "");
    PrintSuffixesParses(w);
    PrintFromSuffixesHead(v);
    var s := PrintFromLetter(v);
    assert PrintFromSuffixes(v) == PrintFromSuffixes(w);
    hide PrintFromSuffixes, ParseSuffixes, SuffixValue;
    if v.letter != "" {
      assert s[..1] == v.letter && s[1..] == PrintFromSuffixes(w);
    } else {
      assert s == PrintFromSuffixes(w);
    }
  }

  lemma PrintFromComponentsHead(v: Version)
    requires WellFormedTail(v)
    ensures var s := PrintFromComponents(v); s == "" || !IsDigit(s[0])
  {
    PrintFromSuffixesHead(v);
  }

  lemma ComponentAtPrinted(c: string, rest: string)
    requires AllDigits(c) && (rest == "" || !IsDigit(rest[0]))
    ensures ComponentAt("." + c + rest) == (c, rest)
  {
    assert ("." + c + rest)[1..] == c + rest;
    RunThen(c, rest, IsDigit);
  }

  lemma {:induction false} PrintComponentsParses(v: Version)
    requires WellFormedTail(v) && v.first == ""
    ensures ParseComponents(PrintFromComponents(v)) == Some(v)
    decreases |v.components|
  {
    hide SuffixValue, ParseLetter, PrintFromLetter, ComponentAt;
    if v.components == [] {
      PrintFromComponentsHead(v);
      assert PrintFromComponents(v) == PrintFromLetter(v);
      PrintLetterParses(v);
      PrintFromLetterHead(v);
    } else {
      hide PrintFromComponents;
      var c, w := v.components[0], v.(components := v.components[1..]);
      PrintComponentsParses(w);
      PrintFromComponentsHead(w);
      ConsComponent(c, w);
      ComponentAtPrinted(c, PrintFromComponents(w));
      assert v == w.(components := [c] + w.components);
    }
  }

  lemma PrintFromLetterHead(v: Version)
    requires WellFormedTail(v)
    ensures var s := PrintFromLetter(v); s == "" || s[0] != '.'
  {
    hide SuffixValue;
    PrintFromSuffixesHead(v);
  }

  /** Printer and parser undo each other. */
  lemma {:induction false} ParseInvertsPrint(v: Version)
    requires WellFormedVersion(v)
    ensures Parse(Print(v)) == Some(v)
  {
    var w := v.(first := "");
    PrintComponentsParses(w);
    PrintFromComponentsHead(w);
    RunThen(v.first, PrintFromComponents(w), IsDigit);
  }

  lemma PrintFromLetterIgnoresFirst(v: Version, f: string)
    ensures PrintFromLetter(v.(first := f)) == PrintFromLetter(v)
  {
  }

  lemma {:induction false} PrintInvertsParse(s: string)
    requires Parse(s).Some?
    ensures WellFormedVersion(Parse(s).value) && Print(Parse(s).value) == s
  {
    hide ParseComponents, PrintFromLetter, SuffixValue;
    var n := PrefixLen(s, IsDigit);
    ParseComponentsPrints(s[n..]);
    var v := ParseComponents(s[n..]).value;
    PrintFromLetterIgnoresFirst(v, s[..n]);
    assert s == s[..n] + s[n..];
  }

  // ----- the lexer loop accepts what the parser reads

  /** The lexer reaches the end of the text without an invalid token. */
  ghost predicate Accepts(l: Lex)
    decreases |l.s|, if l.t.kind < END then 1 else 0
  {
    if l.t.kind < END then Accepts(NextOf(l)) else l.t.kind == END
  }

  ghost predicate Valid(v: string) { Accepts(Start(v)) }

  method APKVersionValid(v: string) returns (ok: bool)
    ensures ok <==> Valid(v)
  {
    hide NextOf, DigitsOf;
    var l := new VersionLexer(v);
    l.Digits();
    while l.t.kind < END
      invariant fresh(l)
      invariant Accepts(l.State()) <==> Valid(v)
      decreases |l.s|, if l.t.kind < END then 1 else 0
    {
      l.Next();
    }
    ok := l.t.kind == END;
  }

  lemma AcceptsNext(l: Lex)
    requires l.t.kind < END
    ensures Accepts(l) == Accepts(NextOf(l))
  {
    hide NextOf;
  }

  /** The next token is the last one, an error, and nothing is accepted. */
  lemma RejectedNext(l: Lex)
    requires l.t.kind < END && NextOf(l).t.kind == INVALID
    ensures !Accepts(l)
  {
    hide NextOf;
    AcceptsNext(l);
  }

  lemma AcceptsRevision(l: Lex)
    requires l.t.kind == REVISION_NO
    ensures Accepts(l) <==> l.s == ""
  {
    assert Accepts(l) == Accepts(NextOf(l));
    assert NextOf(l).t.kind == if l.s == "" then END else INVALID;
  }

  lemma AcceptsAtRevision(l: Lex)
    requires l.t.kind < REVISION_NO
    requires l.s == "" || l.s[0] == '-'
    ensures Accepts(l) <==> ParseRevision(l.s).Some?
  {
    var n := NextOf(l);
    assert Accepts(l) == Accepts(n);
    if HasPrefix(l.s, "-r") {
      var d := PrefixLen(l.s[2..], IsDigit);
      if d > 0 {
        AcceptsRevision(n);
        assert AllDigits(l.s[2..]) <==> d == |l.s[2..]|;
      }
    }
  }

  lemma AcceptsAtHash(l: Lex)
    requires l.t.kind < COMMIT_HASH
    requires l.s == "" || l.s[0] in "~-"
    ensures Accepts(l) <==> ParseHash(l.s).Some?
  {
    if l.s != "" && l.s[0] == '~' {
      var n := NextOf(l);
      var d := PrefixLen(l.s[1..], IsHexDigit);
      assert n.s == l.s[1..][d..] && Accepts(l) == Accepts(n);
      if d > 0 {
        if n.s == "" || n.s[0] == '-' {
          AcceptsAtRevision(n);
        } else {
          RejectedNext(n);
        }
      }
    } else {
      AcceptsAtRevision(l);
    }
  }

  /** From a letter or a suffix number on. */
  lemma {:induction false} AcceptsAtSuffixes(l: Lex)
    requires LETTER <= l.t.kind <= SUFFIX_NO
    requires l.t.kind == SUFFIX ==> l.s == "" || !IsDigit(l.s[0])
    ensures Accepts(l) <==> ParseSuffixes(l.s).Some?
    decreases |l.s|
  {
    if l.s == "" || l.s[0] in "~-" {
      AcceptsAtHash(l);
    } else if l.s[0] == '_' {
      AcceptsSuffix(l);
    } else {
      RejectedNext(l);
    }
  }

  /** One suffix, with its digits if it has any, then the rest. */
  lemma {:induction false} AcceptsSuffix(l: Lex)
    requires l.t.kind <= SUFFIX_NO && l.s != "" && l.s[0] == '_'
    ensures Accepts(l) <==> ParseSuffixes(l.s).Some?
    decreases |l.s|, 0
  {
    hide NextOf, SuffixAt, SuffixValue, ParseHash;
    var (p, rest) := SuffixAt(l.s);
    var m := NextOf(l);
    NextSuffix(l);
    AcceptsNext(l);
    if WellFormedSuffix(p) {
      if p.number != "" {
        assert m.s[|p.number|..] == rest && IsDigit(m.s[0]);
        NextSuffixNumber(m);
        AcceptsNext(m);
        AcceptsAtSuffixes(NextOf(m));
      } else {
        assert m.s == rest;
        AcceptsAtSuffixes(m);
      }
    } else {
      assert !Accepts(m);
    }
  }

  /** The token read at a suffix: its name, then its digits are next. */
  lemma {:induction false} NextSuffix(l: Lex)
    requires l.t.kind <= SUFFIX_NO && l.s != "" && l.s[0] == '_'
    ensures var (p, rest) := SuffixAt(l.s);
            && NextOf(l).s == p.number + rest
            && NextOf(l).t.kind == (if WellFormedSuffix(p) then SUFFIX else INVALID)
            && PrefixLen(p.number + rest, IsDigit) == |p.number|
  {
    hide SuffixValue, DigitsOf, PrefixLen;
    var rest := l.s[1..][PrefixLen(l.s[1..], IsLowerLetter)..];
    var d := PrefixLen(rest, IsDigit);
    assert rest == rest[..d] + rest[d..];
  }

  lemma NextSuffixNumber(m: Lex)
    requires m.t.kind == SUFFIX && m.s != "" && IsDigit(m.s[0])
    ensures NextOf(m).t.kind == SUFFIX_NO && NextOf(m).s == m.s[PrefixLen(m.s, IsDigit)..]
  {
  }

  lemma {:induction false} AcceptsAtComponents(l: Lex)
    requires l.t.kind <= DIGIT
    ensures Accepts(l) <==> ParseComponents(l.s).Some?
    decreases |l.s|
  {
    var n := NextOf(l);
    if l.s == "" || l.s[0] in "~-" {
      AcceptsAtHash(l);
    } else if l.s[0] == '.' {
      var d := PrefixLen(l.s[1..], IsDigit);
      assert n.s == l.s[1..][d..] && Accepts(l) == Accepts(n);
      if d > 0 {
        AcceptsAtComponents(n);
      }
    } else if IsLowerLetter(l.s[0]) {
      assert n.s == l.s[1..] && n.t.kind == LETTER && Accepts(l) == Accepts(n);
      AcceptsAtSuffixes(n);
    } else if l.s[0] == '_' {
      AcceptsSuffix(l);
    } else {
      RejectedNext(l);
    }
  }

  /** apkVersionValid accepts exactly the printed forms of well-formed versions,
      and each accepted string has one structure. */
  lemma {:induction false} ValidIffPrinted(s: string)
    ensures Valid(s) <==> exists v :: WellFormedVersion(v) && Print(v) == s
    ensures Valid(s) <==> Parse(s).Some?
  {
    var l := Start(s);
    assert l.s == s[PrefixLen(s, IsDigit)..];
    if PrefixLen(s, IsDigit) > 0 {
      AcceptsAtComponents(l);
    }
    if Parse(s).Some? {
      PrintInvertsParse(s);
    }
    if v :| WellFormedVersion(v) && Print(v) == s {
      ParseInvertsPrint(v);
    }
  }

  // ----- splitAPKNameVersion

  /** The pattern ^r\d+$ at the end of a package entry. */
  predicate IsRevisionText(s: string) {
    |s| >= 2 && s[0] == 'r' && AllDigits(s[1..])
  }

  method SplitAPKNameVersion(s: string) returns (name: string, version: string)
    ensures (name, version) == Split(s)
  {
    var i := LastIndex(s, '-');
    if i <= 0 || i + 1 >= |s| {
      return "", "";
    }
    if IsRevisionText(s[i + 1..]) {
      var j := LastIndex(s[..i], '-');
      if j <= 0 {
        return "", "";
      }
      i := j;
    }
    var c := s[i + 1];
    if c < '0' || c > '9' {
      return "", "";
    }
    return s[..i], s[i + 1..];
  }

  /** The split of the source, as a function of the entry. */
  function Split(s: string): (string, string) {
    var i := LastIndex(s, '-');
    if i <= 0 || i + 1 >= |s| then ("", "")
    else
      var k := if IsRevisionText(s[i + 1..]) then LastIndex(s[..i], '-') else i;
      if k <= 0 || !IsDigit(s[k + 1]) then ("", "") else (s[..k], s[k + 1..])
  }

  lemma {:induction false} SuffixesHaveNoDash(ps: seq<SuffixPart>)
    requires forall i :: 0 <= i < |ps| ==> WellFormedSuffix(ps[i])
    ensures '-' !in PrintSuffixes(ps)
  {
    if ps != [] {
      SuffixesHaveNoDash(ps[1..]);
      SuffixNameLetters(ps[0].name);
    }
  }

  lemma {:induction false} ComponentsHaveNoDash(cs: seq<string>)
    requires forall i :: 0 <= i < |cs| ==> AllDigits(cs[i])
    ensures '-' !in PrintComponents(cs)
  {
    if cs != [] {
      ComponentsHaveNoDash(cs[1..]);
    }
  }

  /** What precedes "-r" has no '-'. */
  function Body(v: Version): string {
    v.first + PrintComponents(v.components) + v.letter + PrintSuffixes(v.suffixes) +
    (if v.hash == "" then "" else "~" + v.hash)
  }

  lemma PrintIsBodyThenRevision(v: Version)
    ensures Print(v) == Body(v) + PrintRevision(v.revision)
  {
    hide PrintComponents, PrintSuffixes, PrintRevision;
  }

  lemma BodyHasNoDash(v: Version)
    requires WellFormedVersion(v)
    ensures '-' !in Body(v) && Body(v) != "" && IsDigit(Body(v)[0])
  {
    hide SuffixValue;
    SuffixesHaveNoDash(v.suffixes);
    ComponentsHaveNoDash(v.components);
    hide PrintComponents, PrintSuffixes;
    assert '-' !in v.letter && '-' !in v.hash && '-' !in v.first;
  }

  /** A name and a valid version joined by '-' split back into the two. */
  lemma SplitInvertsJoin(name: string, version: string)
    requires name != "" && Valid(version)
    ensures Split(name + "-" + version) == (name, version)
  {
    hide Body, Print, Valid, WellFormedVersion;
    ValidIffPrinted(version);
    var v :| WellFormedVersion(v) && Print(v) == version;
    BodyHasNoDash(v);
    PrintIsBodyThenRevision(v);
    SplitJoined(name, Body(v), v.revision) by { RevisionDigits(v); }
  }

  lemma RevisionDigits(v: Version)
    requires WellFormedVersion(v)
    ensures AllDigits(v.revision)
  {
  }

  lemma SplitJoined(name: string, body: string, revision: string)
    requires name != "" && body != "" && '-' !in body && IsDigit(body[0]) && AllDigits(revision)
    ensures Split(name + "-" + (body + PrintRevision(revision))) == (name, body + PrintRevision(revision))
  {
    hide Split;
    if revision == "" {
      assert body + PrintRevision(revision) == body;
      SplitPlain(name, body);
    } else {
      assert name + "-" + (body + PrintRevision(revision)) == name + "-" + body + "-r" + revision;
      assert body + PrintRevision(revision) == body + "-r" + revision;
      SplitRevision(name, body, revision);
    }
  }

  lemma SplitPlain(name: string, body: string)
    requires name != "" && body != "" && '-' !in body && IsDigit(body[0])
    ensures Split(name + "-" + body) == (name, body)
  {
    var s := name + "-" + body;
    LastIndexIs(s, '-', |name|);
    assert s[..|name|] == name && s[|name| + 1..] == body;
  }

  lemma {:induction false} SplitRevision(name: string, body: string, revision: string)
    requires name != "" && body != "" && '-' !in body && IsDigit(body[0])
    requires revision != "" && AllDigits(revision)
    ensures Split(name + "-" + body + "-r" + revision) == (name, body + "-r" + revision)
  {
    var s := name + "-" + body + "-r" + revision;
    var i := |name| + 1 + |body|;
    assert '-' !in revision;
    LastIndexIs(s, '-', i);
    assert s[i + 1..] == "r" + revision;
    assert ("r" + revision)[1..] == revision;
    assert s[..i] == name + "-" + body;
    LastIndexIs(s[..i], '-', |name|);
    assert s[..|name|] == name && s[|name| + 1..] == body + "-r" + revision;
  }
}
