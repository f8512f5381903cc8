/** 64-bit division in base 2^16: `__qdivrem` and its wrappers. */
module Divide {
  import opened Words
  import opened Digits
  import opened ProgramD
  import opened Shifts

  const QUAD := WORD * WORD

  datatype Outcome =
    | Trap                       // the processor's divide error
    | Done(q: int, r: int)

  /** The four digits of a 64-bit number, at indices 1 to 4. */
  method Split(x: int) returns (u: array<int>)
    requires 0 <= x < QUAD
    ensures fresh(u) && u.Length == 5 && u[0] == 0 && AllDigits(u[..]) && Val(u[..]) == x
  {
    u := new int[5](i => 0);
    u[1] := HHalf(x / WORD);
    u[2] := LHalf(x / WORD);
    u[3] := HHalf(x % WORD);
    u[4] := LHalf(x % WORD);
    FiveDigits(u[..]);
  }

  lemma FiveDigits(s: seq<int>)
    requires |s| == 5
    ensures Val(s) == (((s[0] * B + s[1]) * B + s[2]) * B + s[3]) * B + s[4]
  {
    assert s[..4][..3] == s[..3] && s[..3][..2] == s[..2] && s[..2][..1] == s[..1] && s[..1][..0] == [];
    assert Val(s[..1]) == s[0];
    assert Val(s[..2]) == s[0] * B + s[1];
    assert Val(s[..3]) == (s[0] * B + s[1]) * B + s[2];
    assert Val(s[..4]) == ((s[0] * B + s[1]) * B + s[2]) * B + s[3];
  }

  /** Packing the digits at indices 1 to 4 into a 64-bit number. */
  method Pack(u: array<int>) returns (x: int)
    requires u.Length == 5 && u[0] == 0 && AllDigits(u[..])
    ensures x == Val(u[..])
  {
    FiveDigits(u[..]);
    x := Combine(u[1], u[2]) * WORD + Combine(u[3], u[4]);
  }

  /** One divisor digit: four divisions of a two-digit number, carrying the remainder along. */
  method ShortDivision(u: array<int>, t: int) returns (q: int, r: int)
    requires u.Length == 5 && u[0] == 0 && AllDigits(u[..]) && 0 < t < B
    ensures Val(u[..]) == q * t + r && 0 <= r < t && 0 <= q < QUAD
  {
    FiveDigits(u[..]);
    var q1 := u[1] / t;
    DigitStep(0, u[1], t);
    var rbj := Combine(u[1] % t, u[2]);
    DigitStep(u[1] % t, u[2], t);
    var q2 := rbj / t;
    ghost var r2 := rbj % t;
    DigitStep(r2, u[3], t);
    rbj := Combine(rbj % t, u[3]);
    var q3 := rbj / t;
    ghost var r3 := rbj % t;
    DigitStep(r3, u[4], t);
    rbj := Combine(rbj % t, u[4]);
    var q4 := rbj / t;
    r := rbj % t;
    q := Combine(q1, q2) * WORD + Combine(q3, q4);
    ShortValue(u[1], u[2], u[3], u[4], q1, q2, q3, q4, u[1] % t, r2, r3, r, t);
  }

  lemma DigitStep(r: int, d: int, t: int)
    requires 0 <= r < t < B && 0 <= d < B
    ensures var x := r * B + d; 0 <= x / t < B && 0 <= x % t < t && x == (x / t) * t + x % t
  {
    var x := r * B + d;
    assert x < t * B by { MulMono(r, t - 1, B); }
    if x / t >= B { MulMono(B, x / t, t); }
  }

  lemma ShortValue(u1: int, u2: int, u3: int, u4: int, q1: int, q2: int, q3: int, q4: int, r1: int, r2: int, r3: int,
      r4: int, t: int)
    requires u1 == q1 * t + r1 && r1 * B + u2 == q2 * t + r2 && r2 * B + u3 == q3 * t + r3 && r3 * B + u4 == q4 * t + r4
    ensures ((u1 * B + u2) * B + u3) * B + u4 == ((q1 * B + q2) * WORD + q3 * B + q4) * t + r4
  {
    var a, b, c, d := q1 * t, q2 * t, q3 * t, q4 * t;
    assert ((q1 * B + q2) * WORD + q3 * B + q4) * t == (a * B + b) * WORD + c * B + d;
  }

  // ----- the main loop -----

  /** After the quotient digits before index qi: what is divided, and what is left. */
  ghost predicate Divided(q: seq<int>, u: seq<int>, U: int, V: int, qi: nat) {
    && |q| == 5 && |u| == 5 && qi <= 5 && AllDigits(u) && AllDigits(q[..qi])
    && U == Val(q[..qi]) * (V * BPow(5 - qi)) + Val(u)
  }

  lemma NextDigit(q: seq<int>, u: seq<int>, q': seq<int>, u': seq<int>, U: int, V: int, qi: nat, W: int, R: int)
    requires Divided(q, u, U, V, qi) && qi < 5 && |u'| == 5 && |q'| == 5 && AllDigits(u')
    requires q'[..qi] == q[..qi] && 0 <= q'[qi] < B && u'[qi + 1..] == u[qi + 1..]
    requires W == Val(u[..qi + 1]) && R == Val(u'[..qi + 1]) && W == q'[qi] * V + R
    ensures Divided(q', u', U, V, qi + 1)
  {
    ValSplit(u, qi + 1);
    ValSplit(u', qi + 1);
    assert q'[..qi + 1][..qi] == q[..qi];
    NextDigitValue(Val(q[..qi]), q'[qi], V, BPow(4 - qi), W, R, Val(u[qi + 1..]));
  }

  lemma NextDigitValue(Q: int, d: int, V: int, p: int, W: int, R: int, tail: int)
    requires W == d * V + R
    ensures Q * (V * (B * p)) + (W * p + tail) == (Q * B + d) * (V * p) + (R * p + tail)
  {
    assert Q * (V * (B * p)) == (Q * B) * (V * p);
    assert W * p == d * (V * p) + R * p by { assert (d * V) * p == d * (V * p); }
    assert (Q * B + d) * (V * p) == (Q * B) * (V * p) + d * (V * p);
  }

  /** With zeros in front, a prefix and a window of it have the same value. */
  lemma WindowVal(u: seq<int>, a: nat, b: nat)
    requires a <= b <= |u| && Zeros(u[..a])
    ensures Val(u[..b]) == Val(u[a..b])
  {
    ValConcat(u[..a], u[a..b]);
    assert u[..b] == u[..a] + u[a..b];
    ValZeros(u[..a]);
  }

  /** When the window starts at u[a]: zeros before it, and its first n digits are below V. */
  ghost predicate Below(u: seq<int>, V: int, a: nat, n: nat) {
    a + n <= |u| && Zeros(u[..a]) && Val(u[..a + n]) < V
  }

  lemma StillBelow(u: seq<int>, u': seq<int>, V: int, a: nat, n: nat)
    requires Below(u, V, a, n) && a + n < |u| == |u'| && AllDigits(u') && V < BPow(n)
    requires u'[..a] == u[..a] && Val(u'[a..a + n + 1]) < V
    ensures Below(u', V, a + 1, n)
  {
    SameWindow(u', a, n);
    FrontZero(u', a, n);
  }

  lemma SameWindow(u: seq<int>, a: nat, n: nat)
    requires a + n < |u| && Zeros(u[..a])
    ensures Val(u[..a + n + 1]) == Val(u[a..a + n + 1])
  {
    WindowVal(u, a, a + n + 1);
  }

  lemma FrontZero(u: seq<int>, a: nat, n: nat)
    requires AllDigits(u) && a + n < |u| && Val(u[a..a + n + 1]) < BPow(n)
    ensures u[a] == 0
  {
    var w := u[a..a + n + 1];
    LeadingZeros(w, n);
    assert w[..1][0] == u[a];
  }

  method OneDigit(u: array<int>, v: array<int>, q: array<int>, a: nat, vo: nat, n: nat, ghost U: int, ghost V: int)
    requires u.Length == v.Length == q.Length == 5 && u != v && u != q && v != q
    requires n >= 2 && a + n < 5 && vo + n == 4
    requires AllDigits(v[..]) && v[vo + 1] >= B / 2 && V == Val(v[vo + 1..])
    requires Divided(q[..], u[..], U, V, a + n) && Below(u[..], V, a, n)
    modifies u, q
    ensures v[..] == old(v[..]) && q[0] == old(q[0])
    ensures Divided(q[..], u[..], U, V, a + n + 1) && Below(u[..], V, a + 1, n)
  {
    ghost var u0, q0, vs := u[..], q[..], v[vo + 1..];
    assert v[vo + 1..vo + n + 1] == vs;
    WindowVal(u0, a, a + n);
    assert u[a..a + n] == u0[a..a + n] && u[a..a + n + 1] == u0[a..a + n + 1];
    var d := QuotientDigit(u, v, a, vo, n);
    q[a + n] := d;
    ghost var u1, q1 := u[..], q[..];
    assert u1[..a] == u0[..a] && u1[a + n + 1..] == u0[a + n + 1..] && q1[..a + n] == q0[..a + n];
    assert u1[a..a + n + 1] == u[a..a + n + 1];
    SameWindow(u0, a, n);
    SameWindow(u1, a, n);
    assert Divided(q1, u1, U, V, a + n + 1) by {
      NextDigit(q0, u0, q1, u1, U, V, a + n, Val(u0[..a + n + 1]), Val(u1[..a + n + 1]));
    }
    assert Below(u1, V, a + 1, n) by {
      ValBound(vs);
      StillBelow(u0, u1, V, a, n);
    }
  }

  /** D2 to D7. */
  method MainLoop(u: array<int>, v: array<int>, q: array<int>, uo: nat, vo: nat, m: nat, n: nat)
    requires u.Length == v.Length == q.Length == 5 && u != v && u != q && v != q
    requires n >= 2 && uo + m + n == 4 && vo + n == 4
    requires AllDigits(u[..]) && AllDigits(v[..]) && v[vo + 1] >= B / 2
    requires Zeros(u[..uo]) && Val(u[..uo + n]) < Val(v[vo + 1..]) && Zeros(q[..4 - m])
    modifies u, q
    ensures v[..] == old(v[..]) && AllDigits(u[..]) && AllDigits(q[..]) && Zeros(u[..5 - n]) && q[0] == 0
    ensures Val(old(u[..])) == Val(q[..]) * Val(v[vo + 1..]) + Val(u[..])
    ensures 0 <= Val(u[..]) < Val(v[vo + 1..])
  {
    ghost var U, vs, V := Val(u[..]), v[..], Val(v[vo + 1..]);
    ValZeros(q[..4 - m]);
    var j := 0;
    while j <= m
      invariant 0 <= j <= m + 1 && v[..] == vs && V == Val(v[vo + 1..])
      invariant Divided(q[..], u[..], U, V, 4 - m + j) && Below(u[..], V, uo + j, n) && q[0] == 0
    {
      OneDigit(u, v, q, uo + j, vo, n, U, V);
      assert v[vo + 1..] == vs[vo + 1..];
      j := j + 1;
    }
    assert q[..][..5] == q[..] && u[..][..5] == u[..];
    ValBound(u[..]);
  }

  // ----- leading zeros -----

  lemma DropZeros(s: seq<int>, k: nat)
    requires k <= |s| && Zeros(s[..k])
    ensures Val(s) == Val(s[k..])
  {
    WindowVal(s, k, |s|);
    assert s[..|s|] == s && s[k..|s|] == s[k..];
  }

  /** Leading zeros bound a number from above, a leading digit bounds it from below. */
  lemma Size(s: seq<int>, k: nat)
    requires AllDigits(s) && k <= |s| && Zeros(s[..k])
    ensures Val(s) == Val(s[k..]) && Val(s) < BPow(|s| - k)
    ensures k < |s| && s[k] != 0 ==> Val(s) >= BPow(|s| - k - 1)
  {
    var r := s[k..];
    assert Val(s) == Val(r) by { DropZeros(s, k); }
    assert Val(r) < BPow(|r|) by { ValBound(r); }
    if k < |s| && s[k] != 0 {
      assert Val(r) >= BPow(|r| - 1) by { TopDigit(r); }
    }
  }

  lemma TopDigit(s: seq<int>)
    requires |s| > 0 && AllDigits(s) && s[0] != 0
    ensures Val(s) >= BPow(|s| - 1)
  {
    ProgramD.OneDigit(s);
    MulMono(1, s[0], BPow(|s| - 1));
  }

  lemma {:induction false} BPowMono(a: nat, b: nat)
    requires a <= b
    ensures BPow(a) <= BPow(b)
  {
    if a < b { BPowMono(a, b - 1); }
  }

  lemma LongEnough(s: seq<int>, k: nat, n: nat, v: int)
    requires AllDigits(s) && k <= |s| && Zeros(s[..k]) && n > 0 && Val(s) >= v >= BPow(n - 1)
    ensures |s| - k >= n
  {
    Size(s, k);
    if |s| - k < n { BPowMono(|s| - k, n - 1); }
  }

  /** The dividend has no fewer digits than the divisor. */
  method CountDividend(u: array<int>, n: nat, ghost v: int) returns (m: nat, uo: nat)
    requires u.Length == 5 && AllDigits(u[..]) && u[0] == 0 && 2 <= n <= 4
    requires v >= BPow(n - 1) && Val(u[..]) >= v
    ensures uo + m + n == 4 && Zeros(u[..uo + 1])
  {
    m, uo := 4 - n, 0;
    while u[uo + 1] == 0
      invariant uo + m + n == 4 && Zeros(u[..uo + 1])
      decreases m
    {
      LongEnough(u[..], uo + 2, n, v);
      m := m - 1;
      uo := uo + 1;
    }
  }

  // ----- normalising -----

  /** D1: the shift that brings the divisor's leading digit to at least B / 2. */
  method LeadingShift(v1: int) returns (d: nat)
    requires 0 < v1 < B
    ensures d < 16 && B / 2 <= v1 * Pow2(d) < B
  {
    var t := v1;
    d := 0;
    assert Pow2(0) == 1;
    hide Pow2;
    while t < B / 2
      invariant t == v1 * Pow2(d) && 0 < t < B && d < 16 && Pow2(d) <= t
      decreases B - t
    {
      ShiftCount(d);
      ShiftMore(v1, d);
      t := Wrap(t * 2);
      d := d + 1;
    }
  }

  lemma ShiftMore(v: int, d: nat)
    ensures v * Pow2(d + 1) == 2 * (v * Pow2(d)) && Pow2(d + 1) == 2 * Pow2(d)
  {
  }

  lemma ShiftCount(d: nat)
    requires d < 16 && Pow2(d) < B / 2
    ensures d < 15
  {
    Pow2Sixteen();
    assert 2 * Pow2(15) == B;
  }

  /** Shifting a buffer whose top has room multiplies it. */
  lemma ShiftedVal(s: seq<int>, s': seq<int>, off: nat, d: nat)
    requires |s| == |s'| && off < |s| && AllDigits(s) && d <= 16 && Moved(s[off], d) == 0
    requires s'[..off] == s[..off] && s'[off..] == Left(s[off..], d) && Zeros(s[..off])
    ensures AllDigits(s') && Val(s') == Val(s) * Pow2(d) && s'[off] >= Kept(s[off], d)
  {
    hide Val, Pow2, Left, Kept, Moved, BPow;
    var r, r' := s[off..], s'[off..];
    LeftFits(r, d);
    LeftFirst(r, d);
    assert Zeros(s'[..off]);
    DropZeros(s, off);
    DropZeros(s', off);
    assert forall i :: 0 <= i < |s'| ==> s'[i] == if i < off then s'[..off][i] else s'[off..][i - off];
    assert s'[off] == s'[off..][0];
  }

  lemma LeftFits(r: seq<int>, d: nat)
    requires |r| > 0 && AllDigits(r) && d <= 16 && Moved(r[0], d) == 0
    ensures AllDigits(Left(r, d)) && Val(Left(r, d)) == Val(r) * Pow2(d)
  {
    LeftVal(r, d);
    assert 0 * BPow(|r|) == 0;
  }

  lemma LeftFirst(r: seq<int>, d: nat)
    requires |r| > 0 && AllDigits(r) && d <= 16
    ensures |Left(r, d)| > 0 && Left(r, d)[0] >= Kept(r[0], d)
  {
    if |r| > 1 { KeptMoved(r[1], d); }
  }

  /** Shifts dividend and divisor left by d bits. */
  method Normalise(u: array<int>, v: array<int>, uo: nat, vo: nat, m: nat, n: nat, d: nat)
    requires u.Length == v.Length == 5 && u != v && n >= 2 && uo + m + n == 4 && vo + n == 4
    requires AllDigits(u[..]) && AllDigits(v[..]) && Zeros(u[..uo + 1]) && Zeros(v[..vo + 1])
    requires d < 16 && B / 2 <= v[vo + 1] * Pow2(d) < B
    modifies u, v
    ensures AllDigits(u[..]) && AllDigits(v[..]) && Zeros(u[..uo]) && Zeros(v[..vo + 1]) && v[vo + 1] >= B / 2
    ensures Val(u[..]) == old(Val(u[..])) * Pow2(d) && Val(v[..]) == old(Val(v[..])) * Pow2(d)
  {
    if d > 0 {
      ghost var k := v[vo + 1];
      assert Moved(0, d) == 0;
      NoOverflow(k, d);
      ShiftUp(u, uo, m + n, d);
      ShiftUp(v, vo + 1, n - 1, d);
    }
  }

  /** A number is shifted up within its array, whose first digit from off on loses no bits. */
  method ShiftUp(p: array<int>, off: nat, len: nat, d: nat)
    requires off + len + 1 == p.Length && 0 < d < 16 && AllDigits(p[..]) && Zeros(p[..off]) && Moved(p[off], d) == 0
    modifies p
    ensures AllDigits(p[..]) && Zeros(p[..off]) && p[off] >= Kept(old(p[off]), d)
    ensures Val(p[..]) == old(Val(p[..])) * Pow2(d)
  {
    hide Val, Left, Pow2, Kept, Moved;
    ghost var s := p[..];
    Shl(p, off, len, d);
    assert p[..off] == s[..off] && p[..][..off] == p[..off];
    assert p[off..off + len + 1] == p[..][off..] && s[off..off + len + 1] == s[off..];
    ShiftedVal(s, p[..], off, d);
  }

  lemma NoOverflow(a: int, d: nat)
    requires 0 <= a < B && d <= 16 && a * Pow2(d) < B
    ensures Moved(a, d) == 0 && Kept(a, d) == a * Pow2(d)
  {
    KeptMoved(a, d);
  }

  /** The digits shifted back, once what the shift loses is known to be zero. */
  lemma UnshiftedVal(u0: seq<int>, u1: seq<int>, k: nat, d: nat) returns (lost: int)
    requires |u0| == |u1| && 0 < k < |u0| && AllDigits(u0) && Zeros(u0[..k]) && Zeros(u1[..k]) && d <= 16
    requires u1[k..] == Right(0, u0[k..], d)
    ensures AllDigits(u1) && 0 <= lost < Pow2(d) && Val(u1) * Pow2(d) + lost == Val(u0)
  {
    var r, r' := u0[k..], u1[k..];
    lost := Lost(r[|r| - 1], d);
    assert Val(u0) == Val(r) by { DropZeros(u0, k); }
    assert Val(u1) == Val(r') by { DropZeros(u1, k); }
    assert AllDigits(r') && Val(r') * Pow2(d) + lost == Val(r) by { RightVal(0, r, d); }
    assert forall i :: 0 <= i < |u1| ==> u1[i] == if i < k then u1[..k][i] else r'[i - k];
  }

  /** Undoing the shift gives the remainder of the unshifted numbers. */
  method Remainder(u: array<int>, n: nat, d: nat, ghost U: int, ghost V: int, ghost Q: int)
    requires u.Length == 5 && 2 <= n <= 4 && d < 16 && AllDigits(u[..]) && Zeros(u[..5 - n])
    requires U * Pow2(d) == Q * (V * Pow2(d)) + Val(u[..]) && Val(u[..]) < V * Pow2(d)
    modifies u
    ensures AllDigits(u[..]) && u[0] == 0
    ensures U == Q * V + Val(u[..]) && Val(u[..]) < V
  {
    assert u[0] == u[..5 - n][0];
    if d > 0 {
      ghost var u0 := u[..];
      var i := 4 - n;
      assert u0[i] == u0[..5 - n][i];
      Unshift(u, i, d);
      u[i] := 0;
      assert forall k :: 0 <= k < i ==> u[k] == u0[..5 - n][k];
      assert u[..][i + 1..] == u[i + 1..];
      ghost var lost := UnshiftedVal(u0, u[..], i + 1, d);
      Exact(U, V, Q, Pow2(d), Val(u0), Val(u[..]), lost);
    } else {
      assert Pow2(0) == 1;
    }
  }

  lemma Exact(U: int, V: int, Q: int, p: int, R: int, r: int, lost: int)
    requires p > 0 && U * p == Q * (V * p) + R && r * p + lost == R && 0 <= lost < p && R < V * p
    ensures U == Q * V + r && r < V
  {
    var x := U - Q * V;
    assert x * p == U * p - Q * (V * p) by { assert Q * (V * p) == (Q * V) * p; }
    assert R == x * p + 0;
    Unique(R, p, x, 0);
    Unique(R, p, r, lost);
    ProgramD.Compare(x, V - 1, p);
  }

  // ----- __qdivrem -----

  /** The quotient buffer, with the digits before the first computed one set to zero. */
  method ClearQuotient(m: nat) returns (qs: array<int>)
    requires m <= 4
    ensures fresh(qs) && qs.Length == 5 && Zeros(qs[..4 - m])
  {
    qs := new int[5];
    var i := 4 - m;
    while i > 0
      invariant 0 <= i <= 4 - m && forall k :: i <= k < 4 - m ==> qs[k] == 0
    {
      i := i - 1;
      qs[i] := 0;
    }
  }

  /** Counts the dividend's digits and scales both numbers so that the main loop can start. */
  method Scale(u: array<int>, v: array<int>, vo: nat, n: nat) returns (m: nat, uo: nat, d: nat)
    requires u.Length == v.Length == 5 && u != v && 2 <= n <= 4 && vo + n == 4
    requires AllDigits(u[..]) && AllDigits(v[..]) && u[0] == 0 && Zeros(v[..vo + 1]) && v[vo + 1] != 0
    requires Val(u[..]) >= Val(v[..])
    modifies u, v
    ensures uo + m + n == 4 && d < 16 && AllDigits(u[..]) && AllDigits(v[..]) && v[vo + 1] >= B / 2
    ensures Zeros(u[..uo]) && Val(u[..uo + n]) < Val(v[vo + 1..])
    ensures Val(u[..]) == old(Val(u[..])) * Pow2(d) && Val(v[vo + 1..]) == old(Val(v[..])) * Pow2(d)
  {
    ghost var u0, V := u[..], Val(v[..]);
    assert V >= BPow(n - 1) by { Size(v[..], vo + 1); }
    m, uo := CountDividend(u, n, V);
    d := LeadingShift(v[vo + 1]);
    Normalise(u, v, uo, vo, m, n, d);
    assert Val(v[..]) == Val(v[vo + 1..]) by {
      DropZeros(v[..], vo + 1);
      assert v[..][vo + 1..] == v[vo + 1..];
    }
    assert Val(u[..uo + n]) < Val(v[..]) by {
      Room(u0, u[..], uo, n, Pow2(d), V);
      assert u[..][..uo + n] == u[..uo + n];
    }
  }

  /** A divisor of at least two digits. */
  method LongDivision(u: array<int>, v: array<int>, vo: nat, n: nat) returns (q: int, r: int)
    requires u.Length == v.Length == 5 && u != v && 2 <= n <= 4 && vo + n == 4
    requires AllDigits(u[..]) && AllDigits(v[..]) && u[0] == 0 && Zeros(v[..vo + 1]) && v[vo + 1] != 0
    requires Val(u[..]) >= Val(v[..])
    modifies u, v
    ensures old(Val(u[..])) == q * old(Val(v[..])) + r && 0 <= r < old(Val(v[..]))
  {
    ghost var U, V := Val(u[..]), Val(v[..]);
    var m, uo, d := Scale(u, v, vo, n);
    var qs := ClearQuotient(m);
    MainLoop(u, v, qs, uo, vo, m, n);
    Remainder(u, n, d, U, V, Val(qs[..]));
    q := Pack(qs);
    r := Pack(u);
    ValBound(u[..]);
  }

  /** The first window is below the divisor: before the shift it started with a zero digit. */
  lemma Room(u0: seq<int>, u: seq<int>, uo: nat, n: nat, p: int, V: int)
    requires |u0| == |u| && n >= 1 && uo + n < |u| && AllDigits(u0) && AllDigits(u) && Zeros(u0[..uo + 1])
    requires p > 0 && Val(u) == Val(u0) * p && V >= BPow(n - 1)
    ensures Val(u[..uo + n]) < V * p
  {
    var tail := |u| - uo - n;
    var T, w := BPow(tail), Val(u[..uo + n]);
    assert w * T <= Val(u) by { ValSplit(u, uo + n); ValBound(u[uo + n..]); }
    assert Val(u0) < BPow(n - 1) * T by { Size(u0, uo + 1); BPowAdd(n - 1, tail); }
    RoomValue(w, T, Val(u0), BPow(n - 1), V, p);
  }

  lemma RoomValue(w: int, T: int, U: int, b: int, V: int, p: int)
    requires T > 0 && p > 0 && w * T <= U * p && U < b * T && b <= V
    ensures w < V * p
  {
    assert U < V * T by { MulMono(b, V, T); }
    StrictMono(U, V * T, p);
    assert (V * T) * p == (V * p) * T;
    ProgramD.Compare(w, V * p - 1, T);
  }

  method QDivRem(uq: int, vq: int) returns (res: Outcome)
    requires 0 <= uq < QUAD && 0 <= vq < QUAD
    ensures res == if vq == 0 then Trap else Done(uq / vq, uq % vq)
  {
    if vq == 0 {
      return Trap;
    }
    if uq < vq {
      Unique(uq, vq, 0, uq);
      return Done(0, uq);
    }
    var u := Split(uq);
    var v := Split(vq);
    var n, vo := 4, 0;
    while v[vo + 1] == 0
      invariant vo + n == 4 && 2 <= n && Zeros(v[..vo + 1])
      decreases n
    {
      n := n - 1;
      if n == 1 {
        assert v[4] == vq by { FiveDigits(v[..]); assert forall k :: 0 <= k < 3 ==> v[k] == v[..3][k]; }
        var q, r := ShortDivision(u, v[vo + 2]);
        Unique(uq, vq, q, r);
        return Done(q, r);
      }
      vo := vo + 1;
    }
    var q, r := LongDivision(u, v, vo, n);
    Unique(uq, vq, q, r);
    res := Done(q, r);
  }

  // ----- the wrappers -----

  method UDivDi3(a: int, b: int) returns (res: Outcome)
    requires 0 <= a < QUAD && 0 <= b < QUAD
    ensures res == if b == 0 then Trap else Done(a / b, a % b)
  {
    res := QDivRem(a, b);
  }

  /** The 64-bit two's complement reading of x. */
  function SignedQuad(x: int): (s: int)
    ensures -QUAD / 2 <= s < QUAD / 2
  {
    var w := x % QUAD;
    if w < QUAD / 2 then w else w - QUAD
  }

  function Abs(x: int): nat {
    if x < 0 then -x else x
  }

  /** C's division: truncated toward zero. */
  function Truncated(a: int, b: int): int
    requires b != 0
  {
    if (a < 0) != (b < 0) then -(Abs(a) / Abs(b)) else Abs(a) / Abs(b)
  }

  /** Its quotient leaves a remainder with the sign of the dividend, or none, smaller than the divisor. */
  lemma TruncatedMeans(a: int, b: int)
    requires b != 0
    ensures var r := a - Truncated(a, b) * b; Abs(r) < Abs(b) && (r == 0 || (r < 0 <==> a < 0))
  {
    var q, r := Abs(a) / Abs(b), Abs(a) % Abs(b);
    assert Abs(a) == q * Abs(b) + r;
    assert Truncated(a, b) * b == if a < 0 then -(q * Abs(b)) else q * Abs(b) by {
      Signs(q, b);
    }
  }

  lemma Signs(q: int, b: int)
    ensures (-q) * b == -(q * b) && q * (-b) == -(q * b)
  {
  }

  /** The sign put back modulo 2^64; only the smallest number divided by -1 does not fit. */
  lemma SignedQuotient(a: int, b: int, q: int)
    requires -QUAD / 2 <= a < QUAD / 2 && -QUAD / 2 <= b < QUAD / 2
    requires 0 <= q <= Abs(a) && (Abs(b) > 1 && a != 0 ==> q < Abs(a)) && (Abs(b) == 1 ==> q == Abs(a))
    ensures var neg, x := (a < 0) != (b < 0), if (a < 0) != (b < 0) then -q else q;
      && SignedQuad(if neg then (-q) % QUAD else q) == SignedQuad(x)
      && (!(a == -QUAD / 2 && b == -1) && b != 0 ==> SignedQuad(x) == x)
  {
  }

  lemma SignBack(a: int, b: int, q: int)
    requires -QUAD / 2 <= a < QUAD / 2 && -QUAD / 2 <= b < QUAD / 2 && b != 0 && q == Abs(a) / Abs(b)
    ensures var s := SignedQuad(if (a < 0) != (b < 0) then (-q) % QUAD else q);
      s == SignedQuad(Truncated(a, b)) && (!(a == -QUAD / 2 && b == -1) ==> s == Truncated(a, b))
  {
    QuotientAtMost(Abs(a), Abs(b));
    SignedQuotient(a, b, q);
  }

  lemma AbsWrap(a: int)
    requires -QUAD / 2 <= a < QUAD / 2
    ensures (if a < 0 then (-(a % QUAD)) % QUAD else a % QUAD) == Abs(a) && (Abs(a) == 0 <==> a == 0)
    ensures 0 <= Abs(a) < QUAD
  {
  }

  /** `__divdi3`; the quotient is null when the processor traps. */
  method DivDi3(a: int, b: int) returns (trap: bool, q: int)
    requires -QUAD / 2 <= a < QUAD / 2 && -QUAD / 2 <= b < QUAD / 2
    ensures trap <==> b == 0
    ensures !trap ==> q == SignedQuad(Truncated(a, b))
    ensures !trap && !(a == -QUAD / 2 && b == -1) ==> q == Truncated(a, b)
  {
    var ua, ub := a % QUAD, b % QUAD;
    var neg := false;
    if a < 0 {
      ua := (-ua) % QUAD;
      neg := !neg;
    }
    if b < 0 {
      ub := (-ub) % QUAD;
      neg := !neg;
    }
    AbsWrap(a);
    AbsWrap(b);
    var res := QDivRem(ua, ub);
    if res.Trap? {
      return true, 0;
    }
    var uq := res.q;
    SignBack(a, b, uq);
    if neg {
      uq := (-uq) % QUAD;
    }
    trap, q := false, SignedQuad(uq);
  }

  lemma QuotientAtMost(a: int, b: int)
    requires a >= 0 && b > 0
    ensures 0 <= a / b <= a && (b > 1 && a > 0 ==> a / b < a) && (b == 1 ==> a / b == a)
  {
    var q := a / b;
    assert a == q * b + a % b;
    if q < 0 { MulMono(q, -1, b); }
    if q >= 0 { MulMono(1, b, q); if b > 1 { MulMono(2, b, q); } }
  }
}
