/** Numbers in base 2^16, most significant digit first, and the 32-bit word operations on them. */
module Digits {
  import opened Words

  const B := 0x1_0000

  function HHalf(x: int): int {
    x / B
  }

  function LHalf(x: int): int {
    x % B
  }

  /** The bitwise `|` of a multiple of 2^k and a number below 2^k: they share no bit. */
  function Join(high: int, low: int, k: nat): int
    requires high % Pow2(k) == 0 && 0 <= low < Pow2(k)
  {
    high + low
  }

  lemma Pow2Sixteen()
    ensures Pow2(16) == B
  {
    assert Pow2(4) == 16;
    assert Pow2(8) == 256;
    assert Pow2(12) == 4096;
  }

  /** `COMBINE`: two digits make a word. */
  function Combine(a: int, b: int): (w: int)
    requires 0 <= a < B && 0 <= b < B
    ensures w == a * B + b && 0 <= w < WORD
  {
    Pow2Sixteen();
    Join(Wrap(a * B), b, 16)
  }

  /** The product of two digits fits a word. */
  function Product(a: int, b: int): (w: int)
    requires 0 <= a < B && 0 <= b < B
    ensures w == a * b
  {
    DigitProduct(a, b);
    Wrap(a * b)
  }

  lemma DigitProduct(a: int, b: int)
    requires 0 <= a < B && 0 <= b < B
    ensures 0 <= a * b <= (B - 1) * (B - 1)
  {
    MulMono(0, a, b);
    MulMono(a, B - 1, b);
    assert (B - 1) * b == b * (B - 1);
  }

  ghost function BPow(n: nat): (p: nat)
    ensures p > 0
  {
    if n == 0 then 1 else B * BPow(n - 1)
  }

  ghost predicate AllDigits(s: seq<int>) {
    forall i :: 0 <= i < |s| ==> 0 <= s[i] < B
  }

  ghost function Val(s: seq<int>): int {
    if s == [] then 0 else Val(s[..|s| - 1]) * B + s[|s| - 1]
  }

  lemma {:induction false} ValBound(s: seq<int>)
    requires AllDigits(s)
    ensures 0 <= Val(s) < BPow(|s|)
  {
    if s != [] {
      ValBound(s[..|s| - 1]);
    }
  }

  lemma {:induction false} BPowAdd(a: nat, b: nat)
    ensures BPow(a + b) == BPow(a) * BPow(b)
  {
    if a > 0 {
      BPowAdd(a - 1, b);
      assert B * (BPow(a - 1) * BPow(b)) == (B * BPow(a - 1)) * BPow(b);
    }
  }

  lemma {:induction false} ValConcat(a: seq<int>, b: seq<int>)
    ensures Val(a + b) == Val(a) * BPow(|b|) + Val(b)
  {
    if b == [] {
      assert a + b == a;
    } else {
      var k := |b| - 1;
      ValConcat(a, b[..k]);
      assert (a + b)[..|a + b| - 1] == a + b[..k];
      assert Val(a) * BPow(k) * B == Val(a) * (B * BPow(k));
    }
  }

  lemma ValSplit(s: seq<int>, k: nat)
    requires k <= |s|
    ensures Val(s) == Val(s[..k]) * BPow(|s| - k) + Val(s[k..])
  {
    var a, b := s[..k], s[k..];
    assert s == a + b && |b| == |s| - k;
    ValConcat(a, b);
  }

  lemma ValCons(d: int, s: seq<int>)
    ensures Val([d] + s) == d * BPow(|s|) + Val(s)
  {
    ValConcat([d], s);
    assert Val([d]) == d by { assert [d][..0] == []; }
  }

  ghost predicate Zeros(s: seq<int>) {
    forall i :: 0 <= i < |s| ==> s[i] == 0
  }

  lemma {:induction false} ValZeros(s: seq<int>)
    requires Zeros(s)
    ensures Val(s) == 0
  {
    if s != [] { ValZeros(s[..|s| - 1]); }
  }

  lemma {:induction false} ZeroVal(s: seq<int>)
    requires AllDigits(s) && Val(s) == 0
    ensures Zeros(s)
  {
    if s != [] {
      ValBound(s[..|s| - 1]);
      ZeroVal(s[..|s| - 1]);
      assert s == s[..|s| - 1] + [s[|s| - 1]];
    }
  }

  /** A small number has leading zeros. */
  lemma {:induction false} LeadingZeros(s: seq<int>, k: nat)
    requires AllDigits(s) && k <= |s| && Val(s) < BPow(k)
    ensures Zeros(s[..|s| - k]) && Val(s) == Val(s[|s| - k..])
  {
    ValBound(s);
    if k == 0 {
      ZeroVal(s);
      assert s[..|s|] == s;
    } else {
      var p := s[..|s| - 1];
      LeadingZeros(p, k - 1);
      assert p[..|p| - (k - 1)] == s[..|s| - k];
      assert s[|s| - k..][..k - 1] == p[|p| - (k - 1)..];
    }
  }

  lemma MulMono(a: int, b: int, c: int)
    requires a <= b && c >= 0
    ensures a * c <= b * c
  {
  }
}
