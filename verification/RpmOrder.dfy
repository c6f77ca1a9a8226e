/** The order of rpm versions, token by token, stated on the texts alone. */
module RpmOrder {
  import opened Keys
  import opened Text
  import Decimal
  import Rpm = RpmVersion

  /** Everything but digits, letters, tilde and caret. */
  predicate Separates(c: char) {
    !('0' <= c <= '9') && !('a' <= c <= 'z') && !('A' <= c <= 'Z') && c != '~' && c != '^'
  }

  /** The text from its first token on. */
  function Tokens(s: string): (t: string)
    ensures |t| <= |s| && (t == "" || !Separates(t[0]))
  {
    if s != "" && Separates(s[0]) then Tokens(s[1..]) else s
  }

  /** A tilde is below the end, the end below a caret, that below letters, letters below
      digits. */
  function Place(t: string): int
    requires t == "" || !Separates(t[0])
  {
    if t == "" then 1 else if t[0] == '~' then 0 else if t[0] == '^' then 2
    else if IsLetter(t[0]) then 3 else 4
  }

  /** How many characters the first token has. */
  function Length(t: string): (n: nat)
    requires t != "" && !Separates(t[0])
    ensures 0 < n <= |t|
    ensures IsDigit(t[0]) ==> AllDigits(t[..n])
  {
    if IsLetter(t[0]) then PrefixLen(t, IsLetter) else if IsDigit(t[0]) then PrefixLen(t, IsDigit) else 1
  }

  /** Letters compare as text, digits as numbers of any length. */
  function TokenOrder(x: string, y: string): int
    requires x != "" && y != "" && !Separates(x[0]) && !Separates(y[0]) && Place(x) == Place(y)
  {
    if IsLetter(x[0]) then CompareStrings(x[..Length(x)], y[..Length(y)])
    else if IsDigit(x[0]) then CompareInts(Decimal.Value(x[..Length(x)]), Decimal.Value(y[..Length(y)]))
    else 0
  }

  /** The first tokens decide, then what follows them. */
  function Order(s: string, t: string): int
    decreases |s| + |t|
  {
    var x, y := Tokens(s), Tokens(t);
    if Place(x) != Place(y) then CompareInts(Place(x), Place(y))
    else if x == "" then 0
    else if TokenOrder(x, y) != 0 then TokenOrder(x, y)
    else Order(x[Length(x)..], y[Length(y)..])
  }

  lemma {:induction false} TokensAreCore(s: string)
    ensures Tokens(s) == Rpm.Core(s)
  {
    if s != "" && Separates(s[0]) {
      TokensAreCore(s[1..]);
      assert Rpm.IsSeparator(s[0]);
    } else {
      PrefixLenIs(s, Rpm.IsSeparator, 0);
    }
  }

  lemma {:induction false} CoreKey(s: string)
    ensures Rpm.VersionKey(s) == Rpm.VersionKey(Tokens(s))
  {
    TokensAreCore(s);
    Rpm.CoreThen(s, "");
    assert s + "" == s && Rpm.Core(s) + "" == Rpm.Core(s);
    hide Rpm.VersionKey, Rpm.Core;
  }

  lemma {:induction false} HeadsCompare(x: string, y: string)
    requires (x == "" || !Separates(x[0])) && (y == "" || !Separates(y[0]))
    ensures Rpm.HeadKey(x)[0] == Place(x) && Rpm.HeadKey(y)[0] == Place(y)
    ensures x != "" ==> Rpm.HeadLen(x) == Length(x)
    ensures Place(x) == Place(y) && x != "" ==> CompareSeqs(Rpm.HeadKey(x), Rpm.HeadKey(y)) == TokenOrder(x, y)
  {
    if x != "" && Place(x) == Place(y) {
      if IsLetter(x[0]) {
        CompareSeqsHead(3, 3, Codes(x[..Length(x)]), Codes(y[..Length(y)]));
      } else if IsDigit(x[0]) {
        var a, b := Decimal.Value(x[..Length(x)]), Decimal.Value(y[..Length(y)]);
        CompareSeqsHead(4, 4, [a], [b]);
        CompareSeqsHead(a, b, [], []);
        assert Rpm.HeadKey(x) == [4] + ([a] + []) && Rpm.HeadKey(y) == [4] + ([b] + []);
      }
    }
  }

  /** rpmvercmp decides this order, on all strings. */
  lemma {:induction false} CompareIsOrder(s: string, t: string)
    ensures Rpm.Compare(s, t) == Order(s, t)
    decreases |s| + |t|
  {
    CoreKey(s);
    CoreKey(t);
    var x, y := Tokens(s), Tokens(t);
    HeadsCompare(x, y);
    assert (x == "" || !Rpm.IsSeparator(x[0])) && (y == "" || !Rpm.IsSeparator(y[0]));
    hide Rpm.VersionKey, Rpm.HeadKey, Rpm.HeadLen, Tokens, TokenOrder, Length, CompareSeqs, Separates;
    SeqsAntisymmetric(Rpm.HeadKey(x), Rpm.HeadKey(y));
    if Place(x) != Place(y) {
      Rpm.DifferentRanks(x, y);
    } else {
      Rpm.CompareHeads(x, y);
      if x != "" && TokenOrder(x, y) == 0 {
        CompareIsOrder(x[Length(x)..], y[Length(y)..]);
      }
    }
  }
}
