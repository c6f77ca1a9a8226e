/** Lexicographic orders on integer sequences and on sequences of them.

    Every version comparer of the agent is proved equal to CompareKeys of a key
    that depends on one version string alone, so the order laws are proved here
    once, on keys, and hold for each comparer on all strings. */
module Keys {

  /** -1, 0 or 1: how two integers compare. */
  function CompareInts(a: int, b: int): (r: int)
    ensures (r == -1 <==> a < b) && (r == 0 <==> a == b) && (r == 1 <==> a > b)
  {
    if a < b then -1 else if a > b then 1 else 0
  }

  /** Lexicographic order; a proper prefix comes first. */
  function CompareSeqs(a: seq<int>, b: seq<int>): int {
    if a == [] then (if b == [] then 0 else -1)
    else if b == [] then 1
    else if a[0] != b[0] then CompareInts(a[0], b[0])
    else CompareSeqs(a[1..], b[1..])
  }

  type Key = seq<seq<int>>

  /** Lexicographic order on keys, elements compared with CompareSeqs. */
  function CompareKeys(a: Key, b: Key): int {
    if a == [] then (if b == [] then 0 else -1)
    else if b == [] then 1
    else if a[0] != b[0] then CompareSeqs(a[0], b[0])
    else CompareKeys(a[1..], b[1..])
  }

  lemma {:induction false} SeqsAntisymmetric(a: seq<int>, b: seq<int>)
    ensures -1 <= CompareSeqs(a, b) <= 1
    ensures CompareSeqs(a, b) == -CompareSeqs(b, a)
    ensures CompareSeqs(a, b) == 0 <==> a == b
  {
    if a != [] && b != [] {
      SeqsAntisymmetric(a[1..], b[1..]);
      if a[0] == b[0] && a[1..] == b[1..] {
        assert a == [a[0]] + a[1..] && b == [b[0]] + b[1..];
      }
    }
  }

  lemma {:induction false} SeqsTransitive(a: seq<int>, b: seq<int>, c: seq<int>)
    requires CompareSeqs(a, b) <= 0 && CompareSeqs(b, c) <= 0
    ensures CompareSeqs(a, c) <= 0
    ensures CompareSeqs(a, b) < 0 || CompareSeqs(b, c) < 0 ==> CompareSeqs(a, c) < 0
  {
    if a != [] && b != [] && c != [] && a[0] == b[0] == c[0] {
      SeqsTransitive(a[1..], b[1..], c[1..]);
    }
  }

  lemma {:induction false} KeysAntisymmetric(a: Key, b: Key)
    ensures -1 <= CompareKeys(a, b) <= 1
    ensures CompareKeys(a, b) == -CompareKeys(b, a)
    ensures CompareKeys(a, b) == 0 <==> a == b
  {
    if a != [] && b != [] {
      SeqsAntisymmetric(a[0], b[0]);
      KeysAntisymmetric(a[1..], b[1..]);
      if a[0] == b[0] && a[1..] == b[1..] {
        assert a == [a[0]] + a[1..] && b == [b[0]] + b[1..];
      }
    }
  }

  lemma {:induction false} KeysTransitive(a: Key, b: Key, c: Key)
    requires CompareKeys(a, b) <= 0 && CompareKeys(b, c) <= 0
    ensures CompareKeys(a, c) <= 0
    ensures CompareKeys(a, b) < 0 || CompareKeys(b, c) < 0 ==> CompareKeys(a, c) < 0
  {
    if a != [] && b != [] && c != [] {
      SeqsAntisymmetric(a[0], b[0]);
      SeqsAntisymmetric(b[0], c[0]);
      SeqsAntisymmetric(a[0], c[0]);
      if CompareSeqs(a[0], b[0]) <= 0 && CompareSeqs(b[0], c[0]) <= 0 {
        SeqsTransitive(a[0], b[0], c[0]);
      }
      if a[0] == b[0] == c[0] {
        KeysTransitive(a[1..], b[1..], c[1..]);
      }
    }
  }

  /** The laws of a total preorder for one comparison function, at three points. */
  ghost predicate OrderLaws(xy: int, yx: int, yz: int, xz: int) {
    && -1 <= xy <= 1
    && xy == -yx
    && (xy <= 0 && yz <= 0 ==> xz <= 0)
    && (xy <= 0 && yz <= 0 && (xy < 0 || yz < 0) ==> xz < 0)
  }

  lemma KeysOrderLaws(a: Key, b: Key, c: Key)
    ensures OrderLaws(CompareKeys(a, b), CompareKeys(b, a), CompareKeys(b, c), CompareKeys(a, c))
  {
    KeysAntisymmetric(a, b);
    if CompareKeys(a, b) <= 0 && CompareKeys(b, c) <= 0 {
      KeysTransitive(a, b, c);
    }
  }

  /** A common first element does not matter; different first elements decide. */
  lemma CompareKeysHead(x: seq<int>, y: seq<int>, a: Key, b: Key)
    ensures CompareKeys([x] + a, [y] + b) == if x == y then CompareKeys(a, b) else CompareSeqs(x, y)
  {
    assert ([x] + a)[1..] == a && ([y] + b)[1..] == b;
  }

  /** The character codes of a string; strings.Compare is CompareSeqs on them. */
  function Codes(s: string): (r: seq<int>)
    ensures |r| == |s| && forall i :: 0 <= i < |s| ==> r[i] == s[i] as int
  {
    seq(|s|, i requires 0 <= i < |s| => s[i] as int)
  }

  /** a is a proper part of b in front, or is lower where they first differ. */
  predicate LowerAt(a: seq<int>, b: seq<int>, k: nat) {
    k <= |a| && k < |b| && a[..k] == b[..k] && (k < |a| ==> a[k] < b[k])
  }

  /** The first difference decides. */
  lemma {:induction false} LowerMeans(a: seq<int>, b: seq<int>)
    ensures CompareSeqs(a, b) == -1 <==> exists k: nat :: LowerAt(a, b, k)
    ensures CompareSeqs(a, b) == 1 <==> exists k: nat :: LowerAt(b, a, k)
  {
    if a == [] || b == [] {
      assert a == [] && b != [] ==> LowerAt(a, b, 0);
      assert b == [] && a != [] ==> LowerAt(b, a, 0);
    } else if a[0] != b[0] {
      assert if a[0] < b[0] then LowerAt(a, b, 0) else LowerAt(b, a, 0);
      assert forall k: nat :: 0 < k <= |a| && k <= |b| ==> a[..k][0] != b[..k][0];
    } else {
      LowerMeans(a[1..], b[1..]);
      LowerLater(a, b);
      LowerLater(b, a);
    }
  }

  lemma {:induction false} LowerLater(a: seq<int>, b: seq<int>)
    requires a != [] && b != [] && a[0] == b[0]
    ensures (exists k: nat :: LowerAt(a, b, k)) <==> exists k: nat :: LowerAt(a[1..], b[1..], k)
  {
    if k: nat :| LowerAt(a, b, k) {
      assert k > 0 && a[..k][1..] == a[1..][..k - 1] && b[..k][1..] == b[1..][..k - 1];
      assert LowerAt(a[1..], b[1..], k - 1);
    }
    if k: nat :| LowerAt(a[1..], b[1..], k) {
      assert a[..k + 1] == [a[0]] + a[1..][..k] && b[..k + 1] == [b[0]] + b[1..][..k];
      assert LowerAt(a, b, k + 1);
    }
  }

  lemma CodesInjective(a: string, b: string)
    ensures Codes(a) == Codes(b) <==> a == b
  {
    if Codes(a) == Codes(b) {
      assert |a| == |b|;
      forall i | 0 <= i < |a| ensures a[i] == b[i] {
        assert Codes(a)[i] == Codes(b)[i];
      }
    }
  }

  function CompareStrings(a: string, b: string): int {
    CompareSeqs(Codes(a), Codes(b))
  }

  lemma StringsReflexive(x: string)
    ensures CompareStrings(x, x) == 0
  {
    SeqsAntisymmetric(Codes(x), Codes(x));
  }

  /** Equal leading elements cancel; different ones decide. */
  lemma CompareSeqsHead(x: int, y: int, a: seq<int>, b: seq<int>)
    ensures CompareSeqs([x] + a, [y] + b) == if x == y then CompareSeqs(a, b) else CompareInts(x, y)
  {
    assert ([x] + a)[1..] == a && ([y] + b)[1..] == b;
  }
}
