/** String helpers shared by the models. A char stands for one character of the
    source's strings; the bytes the sources test for are all ASCII. */
module Text {

  predicate IsDigit(c: char) { '0' <= c <= '9' }

  predicate IsLowerLetter(c: char) { 'a' <= c <= 'z' }

  predicate IsLetter(c: char) { 'a' <= c <= 'z' || 'A' <= c <= 'Z' }

  predicate IsHexDigit(c: char) { IsDigit(c) || 'a' <= c <= 'f' || 'A' <= c <= 'F' }

  predicate AllDigits(s: string) { forall i :: 0 <= i < |s| ==> IsDigit(s[i]) }

  function DigitValue(c: char): (n: nat)
    requires IsDigit(c)
    ensures n <= 9
  {
    c as int - '0' as int
  }

  /** How many leading characters of s satisfy ok. */
  function PrefixLen(s: string, ok: char -> bool): (n: nat)
    ensures n <= |s|
    ensures forall i :: 0 <= i < n ==> ok(s[i])
    ensures n < |s| ==> !ok(s[n])
  {
    if s == "" || !ok(s[0]) then 0 else 1 + PrefixLen(s[1..], ok)
  }

  lemma PrefixLenIs(s: string, ok: char -> bool, n: nat)
    requires n <= |s| && (forall i :: 0 <= i < n ==> ok(s[i])) && (n < |s| ==> !ok(s[n]))
    ensures PrefixLen(s, ok) == n
  {
  }

  predicate HasPrefix(s: string, p: string) { p <= s }

  /** The position of the last c in s, or -1. */
  function LastIndex(s: string, c: char): (r: int)
    ensures -1 <= r < |s|
    ensures r >= 0 ==> s[r] == c
    ensures forall i :: r < i < |s| ==> s[i] != c
  {
    if s == "" then -1
    else if s[|s| - 1] == c then |s| - 1
    else LastIndex(s[..|s| - 1], c)
  }

  lemma LastIndexIs(s: string, c: char, r: int)
    requires -1 <= r < |s| && (r >= 0 ==> s[r] == c)
    requires forall i :: r < i < |s| ==> s[i] != c
    ensures LastIndex(s, c) == r
  {
  }

  /** The position of the first character of s satisfying ok, or |s|. */
  function IndexWhere(s: string, ok: char -> bool): (r: nat)
    ensures r <= |s|
    ensures r < |s| ==> ok(s[r])
    ensures forall i :: 0 <= i < r ==> !ok(s[i])
  {
    if s == "" || ok(s[0]) then 0 else 1 + IndexWhere(s[1..], ok)
  }

  lemma IndexWhereIs(s: string, ok: char -> bool, r: nat)
    requires r <= |s| && (r < |s| ==> ok(s[r])) && forall i :: 0 <= i < r ==> !ok(s[i])
    ensures IndexWhere(s, ok) == r
  {
  }

  /** ASCII lower-casing, as strings.ToLower on the identifiers the agent folds. */
  function LowerChar(c: char): char {
    if 'A' <= c <= 'Z' then (c as int - 'A' as int + 'a' as int) as char else c
  }

  function ToLower(s: string): (r: string)
    ensures |r| == |s| && forall i :: 0 <= i < |s| ==> r[i] == LowerChar(s[i])
  {
    seq(|s|, i requires 0 <= i < |s| => LowerChar(s[i]))
  }

  lemma ToLowerIdempotent(s: string)
    ensures ToLower(ToLower(s)) == ToLower(s)
  {
    assert forall c: char :: LowerChar(LowerChar(c)) == LowerChar(c);
  }

  predicate IsSpace(c: char) {
    c == ' ' || '\t' <= c <= '\r' || c as int == 0x85 || c as int == 0xA0
  }

  function TrimLeft(s: string, cut: char -> bool): string {
    s[PrefixLen(s, cut)..]
  }

  function TrimRight(s: string, cut: char -> bool): (r: string)
    ensures r <= s
    ensures r != "" ==> !cut(r[|r| - 1])
    ensures forall i :: |r| <= i < |s| ==> cut(s[i])
  {
    if s == "" || !cut(s[|s| - 1]) then s else TrimRight(s[..|s| - 1], cut)
  }

  function TrimSpace(s: string): string {
    TrimRight(TrimLeft(s, IsSpace), IsSpace)
  }

  /** The character classes, spelt out. */
  lemma CharClasses(c: char)
    ensures IsDigit(c) <==> c in "0123456789"
    ensures IsLowerLetter(c) <==> c in "abcdefghijklmnopqrstuvwxyz"
    ensures IsLetter(c) <==> c in "abcdefghijklmnopqrstuvwxyzABCDEFGHIJKLMNOPQRSTUVWXYZ"
    ensures IsHexDigit(c) <==> c in "0123456789abcdefABCDEF"
  {
  }

  /** Lower-casing turns the k-th capital letter into the k-th small one and keeps others. */
  lemma LowerCase(k: nat, c: char)
    requires k < 26
    ensures LowerChar("ABCDEFGHIJKLMNOPQRSTUVWXYZ"[k]) == "abcdefghijklmnopqrstuvwxyz"[k]
    ensures c !in "ABCDEFGHIJKLMNOPQRSTUVWXYZ" ==> LowerChar(c) == c
  {
  }
}
