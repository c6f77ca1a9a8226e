/** What an unreadable apk version has in common with readable ones: the text read before
    the first error is the lowest valid version that is not below it. */
module ApkReadable {
  import opened Keys
  import opened Text
  import opened ApkVersion
  import opened ApkGrammar

  // ----- the text that can be read

  /** The text the lexer takes before it ends or meets an error. */
  function Taken(l: Lex): (r: string)
    requires l.t.kind < END
    ensures r <= l.s
    decreases |l.s|
  {
    var n := NextOf(l);
    NextIsSuffix(l);
    if n.t.kind >= END then ""
    else
      var c := l.s[..|l.s| - |n.s|];
      assert l.s == c + n.s;
      c + Taken(n)
  }

  /** At least the first number can be read. */
  predicate StartsReadable(v: string) { Start(v).t.kind < END }

  /** A version up to its first error. */
  function ReadablePrefix(v: string): (r: string)
    requires StartsReadable(v)
    ensures r <= v
  {
    var l := Start(v);
    assert v == v[..|v| - |l.s|] + l.s;
    v[..|v| - |l.s|] + Taken(l)
  }

  /** The lexer state with the rest cut off at the first error. */
  function CutOff(l: Lex): Lex
    requires l.t.kind < END
  {
    Lex(Taken(l), l.t)
  }

  /** A run that ends within a text ends at the same place when less follows it. */
  lemma SameRunLen(s: string, t: string, ok: char -> bool)
    requires t <= s && PrefixLen(s, ok) <= |t|
    ensures PrefixLen(t, ok) == PrefixLen(s, ok) && t[..PrefixLen(t, ok)] == s[..PrefixLen(s, ok)]
  {
    PrefixLenIs(t, ok, PrefixLen(s, ok));
  }

  lemma DigitsOfCut(l: Lex, u: string)
    requires u <= l.s && |l.s| - |DigitsOf(l).s| <= |u|
    ensures DigitsOf(Lex(u, l.t)) == Lex(u[|l.s| - |DigitsOf(l).s|..], DigitsOf(l).t)
  {
    SameRunLen(l.s, u, IsDigit);
    hide PrefixLen, Number64;
  }

  predicate StartsNumber(s: string) { s != "" && (s[0] == '.' || IsDigit(s[0]) || HasPrefix(s, "-r")) }

  /** How many characters stand before a number, and what kind of token it becomes. */
  function Lead(s: string): nat
    requires StartsNumber(s)
  {
    if s[0] == '.' then 1 else if s[0] == '-' then 2 else 0
  }

  function NumberKind(s: string): int
    requires StartsNumber(s)
  {
    if s[0] == '.' then DIGIT else if s[0] == '-' then REVISION_NO else SUFFIX_NO
  }

  lemma NextIsNumber(l: Lex)
    requires StartsNumber(l.s) && l.t.kind < END
    ensures |l.s| >= Lead(l.s)
    ensures NextOf(l) == Reject(l) ||
            NextOf(l) == DigitsOf(Lex(l.s[Lead(l.s)..], l.t.(kind := NumberKind(l.s))))
    ensures forall u :: u != "" && StartsNumber(u) && u[0] == l.s[0] && NextOf(l) != Reject(l) ==>
              NextOf(Lex(u, l.t)) == DigitsOf(Lex(u[Lead(u)..], l.t.(kind := NumberKind(l.s))))
  {
    hide DigitsOf, SuffixValue;
  }

  lemma {:induction false} DigitTokenOfCut(l: Lex, u: string)
    requires l.t.kind < END && NextOf(l).t.kind < END && StartsNumber(l.s)
    requires u <= l.s && |l.s| - |NextOf(l).s| <= |u|
    ensures NextOf(Lex(u, l.t)) == Lex(u[|l.s| - |NextOf(l).s|..], NextOf(l).t)
  {
    NextIsNumber(l);
    var n := Lead(l.s);
    var m := Lex(l.s[n..], l.t.(kind := NumberKind(l.s)));
    assert NextOf(l) == DigitsOf(m);
    assert n <= |u| && u[..n] == l.s[..n];
    assert u != "" && u[0] == l.s[0] && u[n..] <= l.s[n..];
    assert StartsNumber(u) && Lead(u) == n;
    hide NextOf, DigitsOf, StartsNumber, Lead;
    DigitsOfCut(m, u[n..]);
  }

  lemma {:induction false} SpanTokenOfCut(l: Lex, u: string)
    requires l.t.kind < END && NextOf(l).t.kind < END && l.s != "" && (l.s[0] == '_' || l.s[0] == '~')
    requires u <= l.s && |l.s| - |NextOf(l).s| <= |u|
    ensures NextOf(Lex(u, l.t)) == Lex(u[|l.s| - |NextOf(l).s|..], NextOf(l).t)
  {
    assert u != "" && u[0] == l.s[0] && u[1..] <= l.s[1..];
    hide DigitsOf, SuffixValue, PrefixLen;
    if l.s[0] == '_' {
      SameRunLen(l.s[1..], u[1..], IsLowerLetter);
    } else {
      SameRunLen(l.s[1..], u[1..], IsHexDigit);
    }
  }

  lemma {:induction false} LetterTokenOfCut(l: Lex, u: string)
    requires l.t.kind < END && NextOf(l).t.kind < END && l.s != "" && IsLowerLetter(l.s[0])
    requires u <= l.s && |l.s| - |NextOf(l).s| <= |u|
    ensures NextOf(Lex(u, l.t)) == Lex(u[|l.s| - |NextOf(l).s|..], NextOf(l).t)
  {
    hide DigitsOf, SuffixValue, PrefixLen;
    assert u[..1] == l.s[..1];
  }

  /** Reading one token of a text cut off behind it reads the same token. */
  lemma {:induction false} NextOfCut(l: Lex, u: string)
    requires l.t.kind < END && NextOf(l).t.kind < END
    requires u <= l.s && |l.s| - |NextOf(l).s| <= |u|
    ensures NextOf(Lex(u, l.t)) == Lex(u[|l.s| - |NextOf(l).s|..], NextOf(l).t)
  {
    ReadingStarts(l);
    hide NextOf;
    if IsLowerLetter(l.s[0]) {
      LetterTokenOfCut(l, u);
    } else if l.s[0] == '_' || l.s[0] == '~' {
      SpanTokenOfCut(l, u);
    } else {
      DigitTokenOfCut(l, u);
    }
  }

  lemma ReadingStarts(l: Lex)
    requires l.t.kind < END && NextOf(l).t.kind < END
    ensures l.s != "" && (IsLowerLetter(l.s[0]) || l.s[0] in "_~" || StartsNumber(l.s))
  {
    hide DigitsOf, SuffixValue, PrefixLen;
  }

  lemma {:induction false} CutNext(l: Lex)
    requires l.t.kind < END && NextOf(l).t.kind < END
    ensures NextOf(CutOff(l)) == CutOff(NextOf(l))
  {
    NextIsSuffix(l);
    var c := l.s[..|l.s| - |NextOf(l).s|];
    assert l.s == c + NextOf(l).s;
    NextOfCut(l, Taken(l));
    hide NextOf;
    assert Taken(l) == c + Taken(NextOf(l));
    assert (c + Taken(NextOf(l)))[|c|..] == Taken(NextOf(l));
  }

  lemma CutEnds(l: Lex)
    requires l.t.kind < END && NextOf(l).t.kind >= END
    ensures CutOff(l).s == "" && NextOf(CutOff(l)).t.kind == END
  {
  }

  // ----- where it stands in the order

  /** Below or at an accepted text exactly when the cut-off text is. */
  lemma {:induction false} CutIsLeastAbove(l: Lex, m: Lex, legacy: bool)
    requires WellFormed(l.t) && WellFormed(m.t) && l.t.kind < END && Accepts(m)
    ensures Accepts(CutOff(l))
    ensures CompareKeys(KeyFrom(l, legacy), KeyFrom(m, legacy)) <= 0 <==>
            CompareKeys(KeyFrom(CutOff(l), legacy), KeyFrom(m, legacy)) <= 0
    decreases |l.s|
  {
    CutAccepts(l);
    if l.t.kind != m.t.kind {
      hide NextOf, CutOff, KeyFrom;
      CompareStop(l, m, legacy);
      CompareStop(CutOff(l), m, legacy);
    } else {
      var n, k := NextOf(l), NextOf(m);
      if n.t.kind < END {
        CutNext(l);
        CutIsLeastAbove(n, k, legacy);
      } else {
        CutEnds(l);
        EndsAlike(n, NextOf(CutOff(l)), k, legacy);
      }
      hide NextOf, KeyFrom, TokenCompare, Accepts;
      CompareStep(l, m, legacy);
      CompareStep(CutOff(l), m, legacy);
    }
  }

  lemma {:induction false} CutAccepts(l: Lex)
    requires l.t.kind < END
    ensures Accepts(CutOff(l))
    decreases |l.s|
  {
    if NextOf(l).t.kind < END {
      CutNext(l);
      CutAccepts(NextOf(l));
      hide NextOf, CutOff;
    } else {
      CutEnds(l);
      hide NextOf, CutOff;
    }
  }

  /** An end or an error, against what an accepted text goes on with: the end instead
      changes nothing. */
  lemma {:induction false} EndsAlike(n: Lex, e: Lex, k: Lex, legacy: bool)
    requires WellFormed(n.t) && WellFormed(e.t) && WellFormed(k.t)
    requires n.t.kind >= END && e.t.kind == END && (k.t.kind < END || k.t.kind == END)
    ensures CompareKeys(KeyFrom(n, legacy), KeyFrom(k, legacy)) <= 0 <==>
            CompareKeys(KeyFrom(e, legacy), KeyFrom(k, legacy)) <= 0
  {
    hide KeyFrom;
    CompareStop(n, k, legacy);
    CompareStop(e, k, legacy);
  }

  /** The readable prefix is valid, and the valid versions not below the two are the same. */
  lemma {:induction false} PrefixIsLeastAbove(v: string, w: string, legacy: bool)
    requires StartsReadable(v) && Valid(w)
    ensures Valid(ReadablePrefix(v))
    ensures Compare(v, w, legacy) <= 0 <==> Compare(ReadablePrefix(v), w, legacy) <= 0
  {
    StartOfPrefix(v);
    hide KeyFrom, NextOf, Accepts, CutOff, ReadablePrefix;
    CutIsLeastAbove(Start(v), Start(w), legacy);
  }

  lemma {:induction false} StartOfPrefix(v: string)
    requires StartsReadable(v)
    ensures Start(ReadablePrefix(v)) == CutOff(Start(v))
  {
    var l, p := Start(v), ReadablePrefix(v);
    var c := v[..|v| - |l.s|];
    SameRunLen(v, p, IsDigit);
    hide Number64, Taken;
    assert p[|c|..] == Taken(l);
  }

  /** A valid version is its own readable prefix. */
  lemma {:induction false} ValidIsPrefix(v: string)
    requires Valid(v)
    ensures StartsReadable(v) && ReadablePrefix(v) == v
  {
    assert v == v[..|v| - |Start(v).s|] + Start(v).s;
    AcceptedIsTaken(Start(v));
  }

  lemma {:induction false} AcceptedIsTaken(l: Lex)
    requires Accepts(l) && l.t.kind < END
    ensures Taken(l) == l.s
    decreases |l.s|
  {
    NextIsSuffix(l);
    if NextOf(l).t.kind < END {
      AcceptedIsTaken(NextOf(l));
      assert l.s == l.s[..|l.s| - |NextOf(l).s|] + NextOf(l).s;
    }
  }

  // ----- low versions

  function Alphas(k: nat): string { if k == 0 then "" else "_alpha" + Alphas(k - 1) }

  lemma AlphaNext(l: Lex, k: nat)
    requires k > 0 && l.s == Alphas(k) && l.t.kind <= SUFFIX_NO
    ensures NextOf(l) == Lex(Alphas(k - 1), Token(SUFFIX, 1, l.t.number, "alpha"))
  {
    var rest := "alpha" + Alphas(k - 1);
    assert l.s[0] == '_' && l.s[1..] == rest;
    PrefixLenIs(rest, IsLowerLetter, 5);
    assert rest[..5] == "alpha" && rest[5..] == Alphas(k - 1);
  }

  lemma {:induction false} AlphasAccepted(l: Lex, k: nat)
    requires l.s == Alphas(k) && l.t.kind <= SUFFIX_NO
    ensures Accepts(l)
    decreases k
  {
    if k > 0 {
      AlphaNext(l, k);
      AlphasAccepted(NextOf(l), k - 1);
      hide NextOf;
    }
  }

  predicate IsAlpha(x: Lex, k: nat) { x.s == Alphas(k) && x.t.kind == SUFFIX && x.t.suffix == 1 }

  lemma AlphaAfter(l: Lex, k: nat)
    requires k > 0 && l.s == Alphas(k) && l.t.kind <= SUFFIX_NO
    ensures IsAlpha(NextOf(l), k - 1)
  {
    AlphaNext(l, k);
    hide NextOf, Alphas;
  }

  /** An alpha against a token, given what the texts behind them do. */
  lemma {:induction false} AlphaAgainst(x: Lex, n: Lex, legacy: bool)
    requires x.t.kind == SUFFIX && x.t.suffix == 1 && WellFormed(x.t) && WellFormed(n.t)
    requires n.t.kind == SUFFIX ==> CompareKeys(KeyFrom(NextOf(x), legacy), KeyFrom(NextOf(n), legacy)) < 0
    ensures CompareKeys(KeyFrom(x, legacy), KeyFrom(n, legacy)) < 0
  {
    hide NextOf, KeyFrom;
    if n.t.kind == SUFFIX {
      CompareStep(x, n, legacy);
    } else {
      CompareStop(x, n, legacy);
    }
  }

  /** More alphas than the other text has characters are below whatever it goes on with. */
  lemma {:induction false} AlphasLower(x: Lex, n: Lex, k: nat, legacy: bool)
    requires IsAlpha(x, k) && WellFormed(x.t) && WellFormed(n.t) && (n.t.kind < END ==> k > |n.s|)
    ensures CompareKeys(KeyFrom(x, legacy), KeyFrom(n, legacy)) < 0
    decreases k
  {
    var goOn := n.t.kind == SUFFIX;
    if goOn {
      AlphaAfter(x, k);
    }
    hide NextOf, KeyFrom, Alphas, CompareKeys, WellFormed;
    if goOn {
      AlphasLower(NextOf(x), NextOf(n), k - 1, legacy);
    }
    AlphaAgainst(x, n, legacy);
  }

  lemma ReadableStarts(v: string)
    requires StartsReadable(v)
    ensures Start(v).t.kind == INITIAL_DIGIT
  {
  }

  lemma LowStart(k: nat)
    requires k > 0
    ensures Start(Low(k)) == Lex(Alphas(k), Token(INITIAL_DIGIT, 0, 0, "0"))
  {
    assert Alphas(k)[0] == '_';
    StartOf("0", Alphas(k));
    assert "0"[..0] == "";
  }

  function Low(k: nat): string { "0" + Alphas(k) }

  lemma {:induction false} AlphasBehindZero(l: Lex, m: Lex, k: nat, legacy: bool)
    requires WellFormed(l.t) && WellFormed(m.t) && l.t.kind == m.t.kind == INITIAL_DIGIT
    requires l.t.number == 0 && k > 0 && l.s == Alphas(k) && k > |m.s|
    ensures CompareKeys(KeyFrom(l, legacy), KeyFrom(m, legacy)) < 0
  {
    AlphaAfter(l, k);
    FirstNumbersCompare(l.t, m.t, legacy);
    hide NextOf, KeyFrom, Alphas, IsAlpha, TokenCompare, CompareKeys, WellFormed;
    AlphasLower(NextOf(l), NextOf(m), k - 1, legacy);
    CompareStep(l, m, legacy);
  }

  /** There is a valid version below each one that can be read at all. */
  lemma {:induction false} LowIsLower(v: string, legacy: bool)
    requires StartsReadable(v)
    ensures Valid(Low(|v| + 1)) && Compare(Low(|v| + 1), v, legacy) < 0
  {
    var k := |v| + 1;
    LowStart(k);
    ReadableStarts(v);
    hide NextOf, KeyFrom, Alphas, Low, Number64, CompareKeys, Accepts;
    AlphasAccepted(Start(Low(k)), k);
    AlphasBehindZero(Start(Low(k)), Start(v), k, legacy);
  }

  /** What cannot be read at all is below everything else. */
  lemma {:induction false} UnreadableIsLowest(v: string, w: string, legacy: bool)
    requires !StartsReadable(v) && StartsReadable(w)
    ensures Compare(v, w, legacy) < 0
  {
    hide NextOf, KeyFrom;
    CompareStop(Start(v), Start(w), legacy);
  }
}
