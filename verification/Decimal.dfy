/** Digit runs as numbers: unbounded values, rpm's way of comparing them as text,
    and strconv.Atoi with its 64-bit range. */
module Decimal {
  import opened Keys
  import opened Text

  function Pow10(n: nat): (p: nat)
    ensures p >= 1
  {
    if n == 0 then 1 else 10 * Pow10(n - 1)
  }

  /** The number a digit run denotes. */
  function Value(s: string): nat
    requires AllDigits(s)
  {
    if s == "" then 0 else DigitValue(s[0]) * Pow10(|s| - 1) + Value(s[1..])
  }

  lemma {:induction false} Multiples(d: nat, e: nat, p: nat)
    requires d < e
    ensures d * p + p <= e * p
  {
    assert e * p == (e - 1) * p + p;
    if d < e - 1 {
      Multiples(d, e - 1, p);
    }
  }

  lemma {:induction false} ValueBound(s: string)
    requires AllDigits(s)
    ensures Value(s) < Pow10(|s|)
  {
    if s != "" {
      ValueBound(s[1..]);
      Multiples(DigitValue(s[0]), 10, Pow10(|s| - 1));
    }
  }

  lemma {:induction false} SameLengthValues(a: string, b: string)
    requires AllDigits(a) && AllDigits(b) && |a| == |b|
    ensures CompareStrings(a, b) == CompareInts(Value(a), Value(b))
  {
    if a != "" {
      SameLengthValues(a[1..], b[1..]);
      assert Codes(a)[1..] == Codes(a[1..]) && Codes(b)[1..] == Codes(b[1..]);
      var p := Pow10(|a| - 1);
      ValueBound(a[1..]);
      ValueBound(b[1..]);
      if a[0] < b[0] {
        Multiples(DigitValue(a[0]), DigitValue(b[0]), p);
      } else if b[0] < a[0] {
        Multiples(DigitValue(b[0]), DigitValue(a[0]), p);
      }
    }
  }

  lemma LongerValues(a: string, b: string)
    requires AllDigits(a) && AllDigits(b) && |a| < |b| && b[0] != '0'
    ensures Value(a) < Value(b)
  {
    ValueBound(a);
    PowMonotone(|a|, |b| - 1);
    Multiples(0, DigitValue(b[0]), Pow10(|b| - 1));
  }

  lemma {:induction false} PowMonotone(m: nat, n: nat)
    requires m <= n
    ensures Pow10(m) <= Pow10(n)
  {
    if m < n {
      PowMonotone(m, n - 1);
    }
  }

  predicate IsZero(c: char) { c == '0' }

  lemma {:induction false} ValueTrim(s: string)
    requires AllDigits(s)
    ensures AllDigits(TrimLeft(s, IsZero)) && Value(TrimLeft(s, IsZero)) == Value(s)
  {
    if s != "" && s[0] == '0' {
      ValueTrim(s[1..]);
      assert TrimLeft(s, IsZero) == TrimLeft(s[1..], IsZero);
    } else {
      assert TrimLeft(s, IsZero) == s;
    }
  }

  /** Comparing trimmed runs by length, then as text, compares the numbers. */
  lemma {:induction false} TrimmedCompare(a: string, b: string)
    requires AllDigits(a) && AllDigits(b)
    ensures var x, y := TrimLeft(a, IsZero), TrimLeft(b, IsZero);
            CompareInts(Value(a), Value(b)) ==
            if |x| != |y| then CompareInts(|x|, |y|) else CompareStrings(x, y)
  {
    var x, y := TrimLeft(a, IsZero), TrimLeft(b, IsZero);
    ValueTrim(a);
    ValueTrim(b);
    if |x| < |y| {
      LongerValues(x, y);
    } else if |y| < |x| {
      LongerValues(y, x);
    } else {
      SameLengthValues(x, y);
    }
  }

  const MAX_INT: int := 0x7fff_ffff_ffff_ffff

  /** strconv.Atoi: the number and whether it parsed. A syntax error gives 0, a number
      out of range the nearest 64-bit one, both with false. */
  function Atoi(s: string): (int, bool) {
    var negative := s != "" && s[0] == '-';
    var d := if s != "" && (s[0] == '-' || s[0] == '+') then s[1..] else s;
    if d == "" || !AllDigits(d) then (0, false)
    else if negative then
      if Value(d) > MAX_INT + 1 then (-MAX_INT - 1, false) else (-(Value(d) as int), true)
    else
      if Value(d) > MAX_INT then (MAX_INT, false) else (Value(d), true)
  }
}
