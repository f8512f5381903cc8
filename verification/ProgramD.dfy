/** Steps D4 to D6 of Program D: one quotient digit is multiplied out, subtracted and corrected. */
module ProgramD {
  import opened Words
  import opened Digits
  import opened Estimate

  /** A difference modulo 2^32 splits into a digit and a borrow. */
  lemma Borrow(x: int)
    requires -(B - 1) * B <= x < B
    ensures var w := Wrap(x); var t := (B - HHalf(w)) % B;
      0 <= LHalf(w) < B && 0 <= t < B && LHalf(w) - t * B == x
  {
    if x < 0 { assert Wrap(x) == x + WORD; }
  }

  lemma BorrowDigit(u: int, v: int, q: int, t: int)
    requires 0 <= u < B && 0 <= v < B && 0 <= q < B && 0 <= t < B
    ensures var w := Wrap(u - v * q - t); var t' := (B - HHalf(w)) % B;
      0 <= LHalf(w) < B && 0 <= t' < B && LHalf(w) - t' * B == u - v * q - t
  {
    DigitProduct(v, q);
    Borrow(u - v * q - t);
  }

  lemma SubtractStep(d: int, t: int, t': int, u: int, v: int, q: int, p: int, P: int, s: int, S: int, o: int, U: int,
      w: int, W: int)
    requires d - t' * B == u - v * q - t && s - t * p == o - q * w
    requires P == B * p && S == d * p + s && U == u * p + o && W == v * p + w
    ensures S - t' * P == U - q * W
  {
    assert d * p - t' * P == (d - t' * B) * p;
    assert (u - v * q - t) * p == u * p - q * (v * p) - t * p by {
      assert (u - v * q - t) * p == u * p - (v * q) * p - t * p;
      assert (v * q) * p == q * (v * p);
    }
    assert q * W == q * (v * p) + q * w;
  }

  /** One more digit in front: the difference stays right, with the new borrow. */
  lemma SubtractMore(d: int, rest: seq<int>, u: int, us: seq<int>, v: int, vs: seq<int>, q: int, t: int, t': int)
    requires |rest| == |us| == |vs|
    requires d - t' * B == u - v * q - t && Val(rest) - t * BPow(|rest|) == Val(us) - q * Val(vs)
    ensures Val([d] + rest) - t' * BPow(|rest| + 1) == Val([u] + us) - q * Val([v] + vs)
  {
    ValCons(d, rest);
    ValCons(u, us);
    ValCons(v, vs);
    assert BPow(|rest| + 1) == B * BPow(|rest|);
    SubtractStep(d, t, t', u, v, q, BPow(|rest|), BPow(|rest| + 1), Val(rest), Val([d] + rest), Val(us), Val([u] + us),
      Val(vs), Val([v] + vs));
  }

  /** The digits and the final borrow of us - q * vs, worked out from the right. */
  function Difference(us: seq<int>, vs: seq<int>, q: int): (seq<int>, int)
    requires |us| == |vs|
  {
    if us == [] then ([], 0)
    else
      var (rest, t) := Difference(us[1..], vs[1..], q);
      var w := Wrap(us[0] - vs[0] * q - t);
      ([LHalf(w)] + rest, (B - HHalf(w)) % B)
  }

  lemma {:induction false} DifferenceVal(us: seq<int>, vs: seq<int>, q: int)
    requires |us| == |vs| && AllDigits(us) && AllDigits(vs) && 0 <= q < B
    ensures var (s, t) := Difference(us, vs, q);
      |s| == |us| && AllDigits(s) && 0 <= t < B && Val(s) - t * BPow(|us|) == Val(us) - q * Val(vs)
  {
    if us != [] {
      var (rest, t) := Difference(us[1..], vs[1..], q);
      var (s, t') := Difference(us, vs, q);
      DifferenceVal(us[1..], vs[1..], q);
      BorrowDigit(us[0], vs[0], q, t);
      assert us == [us[0]] + us[1..] && vs == [vs[0]] + vs[1..];
      hide Val, BPow, Wrap, LHalf, HHalf;
      SubtractMore(s[0], rest, us[0], us[1..], vs[0], vs[1..], q, t, t');
    }
  }

  /** D4 without its last step: subtracts qhat * v[1..n] from u[1..n], the final borrow is t. */
  method SubtractDigits(u: array<int>, v: array<int>, uo: nat, vo: nat, n: nat, qhat: int) returns (t: int)
    requires u != v && uo + n < u.Length && vo + n < v.Length && 0 <= qhat < B
    requires AllDigits(v[vo + 1..vo + n + 1])
    modifies u
    ensures forall k :: 0 <= k < u.Length && !(uo < k <= uo + n) ==> u[k] == old(u[k])
    ensures (u[uo + 1..uo + n + 1], t) == Difference(old(u[uo + 1..uo + n + 1]), v[vo + 1..vo + n + 1], qhat)
  {
    ghost var us, vs := u[uo + 1..uo + n + 1], v[vo + 1..vo + n + 1];
    t := 0;
    var i := n;
    while i > 0
      invariant 0 <= i <= n
      invariant forall k :: 0 <= k < u.Length && !(uo + i < k <= uo + n) ==> u[k] == old(u[k])
      invariant (u[uo + i + 1..uo + n + 1], t) == Difference(us[i..], vs[i..], qhat)
      invariant v[vo + 1..vo + n + 1] == vs
    {
      ghost var rest := u[uo + i + 1..uo + n + 1];
      assert us[i - 1] == u[uo + i] && vs[i - 1] == v[vo + i];
      assert us[i - 1..][1..] == us[i..] && vs[i - 1..][1..] == vs[i..];
      t := Wrap(u[uo + i] - Product(v[vo + i], qhat) - t);
      u[uo + i] := LHalf(t);
      t := (B - HHalf(t)) % B;
      assert u[uo + i..uo + n + 1] == [u[uo + i]] + rest;
      i := i - 1;
    }
  }

  /** The digits and the final carry of us + vs. */
  function Sum(us: seq<int>, vs: seq<int>): (seq<int>, int)
    requires |us| == |vs|
  {
    if us == [] then ([], 0)
    else
      var (rest, t) := Sum(us[1..], vs[1..]);
      var w := t + us[0] + vs[0];
      ([LHalf(w)] + rest, HHalf(w))
  }

  lemma {:induction false} SumVal(us: seq<int>, vs: seq<int>)
    requires |us| == |vs| && AllDigits(us) && AllDigits(vs)
    ensures var (s, t) := Sum(us, vs);
      |s| == |us| && AllDigits(s) && 0 <= t <= 1 && Val(s) + t * BPow(|us|) == Val(us) + Val(vs)
  {
    if us != [] {
      var (rest, t) := Sum(us[1..], vs[1..]);
      var (s, t') := Sum(us, vs);
      SumVal(us[1..], vs[1..]);
      assert us == [us[0]] + us[1..] && vs == [vs[0]] + vs[1..];
      hide Val, BPow;
      AddMore(s[0], rest, us[0], us[1..], vs[0], vs[1..], t, t');
    }
  }

  lemma AddMore(d: int, rest: seq<int>, u: int, us: seq<int>, v: int, vs: seq<int>, t: int, t': int)
    requires |rest| == |us| == |vs|
    requires d + t' * B == u + v + t && Val(rest) + t * BPow(|rest|) == Val(us) + Val(vs)
    ensures Val([d] + rest) + t' * BPow(|rest| + 1) == Val([u] + us) + Val([v] + vs)
  {
    ValCons(d, rest);
    ValCons(u, us);
    ValCons(v, vs);
    assert BPow(|rest| + 1) == B * BPow(|rest|);
    AddStep(d, t, t', u, v, BPow(|rest|));
  }

  lemma AddStep(d: int, t: int, t': int, u: int, v: int, p: int)
    requires d + t' * B == u + v + t
    ensures d * p + t' * (B * p) == u * p + v * p + t * p
  {
    assert d * p + t' * (B * p) == (d + t' * B) * p;
  }

  /** D6 without its last step: adds v[1..n] to u[1..n], the final carry is t. */
  method AddDigits(u: array<int>, v: array<int>, uo: nat, vo: nat, n: nat) returns (t: int)
    requires u != v && uo + n < u.Length && vo + n < v.Length
    requires AllDigits(u[uo + 1..uo + n + 1]) && AllDigits(v[vo + 1..vo + n + 1])
    modifies u
    ensures forall k :: 0 <= k < u.Length && !(uo < k <= uo + n) ==> u[k] == old(u[k])
    ensures (u[uo + 1..uo + n + 1], t) == Sum(old(u[uo + 1..uo + n + 1]), v[vo + 1..vo + n + 1])
  {
    ghost var us, vs := u[uo + 1..uo + n + 1], v[vo + 1..vo + n + 1];
    t := 0;
    var i := n;
    while i > 0
      invariant 0 <= i <= n && 0 <= t <= 1
      invariant forall k :: 0 <= k < u.Length && !(uo + i < k <= uo + n) ==> u[k] == old(u[k])
      invariant (u[uo + i + 1..uo + n + 1], t) == Sum(us[i..], vs[i..])
      invariant v[vo + 1..vo + n + 1] == vs
    {
      ghost var rest := u[uo + i + 1..uo + n + 1];
      assert us[i - 1] == u[uo + i] && vs[i - 1] == v[vo + i];
      assert us[i - 1..][1..] == us[i..] && vs[i - 1..][1..] == vs[i..];
      t := Wrap(t + u[uo + i] + v[vo + i]);
      u[uo + i] := LHalf(t);
      t := HHalf(t);
      assert u[uo + i..uo + n + 1] == [u[uo + i]] + rest;
      i := i - 1;
    }
  }

  // ----- one quotient digit -----

  /** The leading digits of a window and of a normalised divisor, as the estimate needs them. */
  lemma LeadingDigits(w: seq<int>, v: seq<int>)
    requires |w| == |v| + 1 && |v| >= 2 && AllDigits(w) && AllDigits(v) && v[0] >= B / 2
    requires Val(w[..|v|]) < Val(v)
    ensures Leading(Val(w), Val(v), w[0], w[1], w[2], v[0], v[1], BPow(|v| - 2))
  {
    assert Val(w) < Val(v) * B by { assert w[..|w| - 1] == w[..|v|]; }
    LeadingOrder(w, v);
    ThreeDigits(w);
    TwoDigits(v);
  }

  /** The first one, two or three digits, as a number. */
  lemma ValFirst(s: seq<int>)
    ensures |s| >= 1 ==> Val(s[..1]) == s[0]
    ensures |s| >= 2 ==> Val(s[..2]) == s[0] * B + s[1]
    ensures |s| >= 3 ==> Val(s[..3]) == (s[0] * B + s[1]) * B + s[2]
  {
    if |s| >= 1 { assert s[..1][..0] == []; }
    if |s| >= 2 { assert s[..2][..1] == s[..1]; }
    if |s| >= 3 { assert s[..3][..2] == s[..2]; }
  }

  /** A number lies between its first k digits and their successor, at the places they have. */
  lemma FirstDigits(s: seq<int>, k: nat)
    requires k <= |s| && AllDigits(s)
    ensures Val(s[..k]) * BPow(|s| - k) <= Val(s) < (Val(s[..k]) + 1) * BPow(|s| - k)
  {
    ValSplit(s, k);
    ValBound(s[k..]);
    Between(Val(s[..k]), BPow(|s| - k), Val(s[k..]));
  }

  lemma ThreeDigits(s: seq<int>)
    requires |s| >= 3 && AllDigits(s)
    ensures var p, a := BPow(|s| - 3), (s[0] * B + s[1]) * B + s[2];
      a * p <= Val(s) < (a + 1) * p
  {
    ValFirst(s);
    hide Val, BPow;
    FirstDigits(s, 3);
  }

  lemma TwoDigits(s: seq<int>)
    requires |s| >= 2 && AllDigits(s)
    ensures var p, a := BPow(|s| - 2), s[0] * B + s[1];
      a * p <= Val(s) < (a + 1) * p
  {
    ValFirst(s);
    hide Val, BPow;
    FirstDigits(s, 2);
  }

  lemma OneDigit(s: seq<int>)
    requires |s| >= 1 && AllDigits(s)
    ensures s[0] * BPow(|s| - 1) <= Val(s) < (s[0] + 1) * BPow(|s| - 1)
  {
    ValFirst(s);
    hide Val, BPow;
    FirstDigits(s, 1);
  }

  lemma Between(a: int, p: int, r: int)
    requires 0 <= r < p
    ensures a * p <= a * p + r < (a + 1) * p
  {
  }

  lemma Compare(a: int, b: int, p: int)
    requires p > 0 && a * p < (b + 1) * p
    ensures a <= b
  {
    if a >= b + 1 { MulMono(b + 1, a, p); }
  }

  /** The window's leading digit does not exceed the divisor's. */
  lemma LeadingOrder(w: seq<int>, v: seq<int>)
    requires |w| == |v| + 1 && |v| >= 1 && AllDigits(w) && AllDigits(v) && Val(w[..|v|]) < Val(v)
    ensures w[0] <= v[0]
  {
    OneDigit(w[..|v|]);
    OneDigit(v);
    Compare(w[0], v[0], BPow(|v| - 1));
  }

  /** Subtracting the borrow from the leading digit: a wrapped result shows in the upper half. */
  lemma Subtracted(W: int, V: int, qhat: int, w0: int, lo: int, lo': int, t: int, p: int)
    requires W == w0 * p + lo && lo' - t * p == lo - qhat * V && 0 <= lo' < p
    requires 0 <= w0 < B && 0 <= t < B
    ensures var x := Wrap(w0 - t);
      && (HHalf(x) == 0 ==> LHalf(x) * p + lo' == W - qhat * V && W >= qhat * V)
      && (HHalf(x) != 0 ==> LHalf(x) * p + lo' == W - qhat * V + B * p && W < qhat * V)
  {
    assert (w0 - t) * p == w0 * p - t * p;
    if w0 - t < 0 {
      assert Wrap(w0 - t) == w0 - t + WORD;
      assert LHalf(Wrap(w0 - t)) == w0 - t + B;
      MulMono(w0 - t, -1, p);
      assert (w0 - t + B) * p == (w0 - t) * p + B * p;
    } else {
      MulMono(0, w0 - t, p);
    }
  }

  /** Adding the divisor back once brings the leading digit to zero. */
  lemma AddedBack(R: int, V: int, d: int, c: int, lo: int, lo': int, p: int)
    requires d * p + lo == R - V + B * p && lo' + c * p == lo + V && 0 <= lo' < p && 0 <= R < V < p
    ensures d + c == B && R == lo'
  {
    var x := d + c - B;
    assert R == x * p + lo' by {
      assert x * p == d * p + c * p - B * p;
    }
    if x > 0 { MulMono(1, x, p); }
    if x < 0 { MulMono(x, -1, p); }
  }

  ghost predicate Buffers(u: array<int>, v: array<int>, uo: nat, vo: nat, n: nat)
    reads u, v
  {
    && u != v && uo + n < u.Length && vo + n < v.Length && n >= 2
    && AllDigits(u[..]) && AllDigits(v[vo + 1..vo + n + 1])
  }

  /** D3 on the buffers. */
  method Guess(u: array<int>, v: array<int>, uo: nat, vo: nat, n: nat) returns (qhat: int)
    requires Buffers(u, v, uo, vo, n) && v[vo + 1] >= B / 2
    requires Val(u[uo..uo + n]) < Val(v[vo + 1..vo + n + 1])
    ensures 0 <= qhat < B
    ensures var W, V := Val(u[uo..uo + n + 1]), Val(v[vo + 1..vo + n + 1]);
      (qhat - 1) * V <= W < (qhat + 1) * V
  {
    ghost var w, vs := u[uo..uo + n + 1], v[vo + 1..vo + n + 1];
    assert w[..n] == u[uo..uo + n];
    LeadingDigits(w, vs);
    ghost var corrections;
    qhat, corrections := QHat(u[uo], u[uo + 1], u[uo + 2], v[vo + 1], v[vo + 2], Val(w), Val(vs), BPow(n - 2));
  }

  /** Digits outside a window of digits. */
  lemma Patched(s: seq<int>, s': seq<int>, uo: nat, n: nat)
    requires AllDigits(s) && |s'| == |s| && uo + n < |s|
    requires forall k :: 0 <= k < |s| && !(uo <= k <= uo + n) ==> s'[k] == s[k]
    requires 0 <= s'[uo] < B && AllDigits(s'[uo + 1..uo + n + 1])
    ensures AllDigits(s')
  {
    forall k | uo < k <= uo + n ensures 0 <= s'[k] < B {
      assert s'[k] == s'[uo + 1..uo + n + 1][k - uo - 1];
    }
  }

  lemma Halves(x: int)
    ensures 0 <= LHalf(x) < B
  {
  }

  /** D4: the window loses qhat times the divisor; a non-zero upper half of t tells that it wrapped. */
  method Subtract(u: array<int>, v: array<int>, uo: nat, vo: nat, n: nat, qhat: int) returns (t: int)
    requires Buffers(u, v, uo, vo, n) && 0 <= qhat < B
    modifies u
    ensures AllDigits(u[..]) && forall k :: 0 <= k < u.Length && !(uo <= k <= uo + n) ==> u[k] == old(u[k])
    ensures var W, W', V := Val(old(u[uo..uo + n + 1])), Val(u[uo..uo + n + 1]), Val(v[vo + 1..vo + n + 1]);
      && (HHalf(t) == 0 ==> W' == W - qhat * V && W >= qhat * V)
      && (HHalf(t) != 0 ==> W' == W - qhat * V + B * BPow(n) && W < qhat * V)
  {
    hide Val, BPow, Difference, Wrap, HHalf, LHalf;
    ghost var w, lo, vs := u[uo..uo + n + 1], u[uo + 1..uo + n + 1], v[vo + 1..vo + n + 1];
    assert w == [w[0]] + lo;
    ValCons(w[0], lo);
    DifferenceVal(lo, vs, qhat);
    t := SubtractDigits(u, v, uo, vo, n, qhat);
    ghost var lo' := u[uo + 1..uo + n + 1];
    ValBound(lo');
    Subtracted(Val(w), Val(vs), qhat, w[0], Val(lo), Val(lo'), t, BPow(n));
    t := Wrap(u[uo] - t);
    Halves(t);
    u[uo] := LHalf(t);
    Patched(old(u[..]), u[..], uo, n);
    assert u[uo..uo + n + 1] == [u[uo]] + lo';
    ValCons(u[uo], lo');
    assert v[vo + 1..vo + n + 1] == vs;
  }

  /** D6: the window wrapped below zero; adding the divisor once makes it the remainder R. */
  method AddBack(u: array<int>, v: array<int>, uo: nat, vo: nat, n: nat, ghost R: int)
    requires Buffers(u, v, uo, vo, n)
    requires var V := Val(v[vo + 1..vo + n + 1]); 0 <= R < V && Val(u[uo..uo + n + 1]) == R - V + B * BPow(n)
    modifies u
    ensures AllDigits(u[..]) && forall k :: 0 <= k < u.Length && !(uo <= k <= uo + n) ==> u[k] == old(u[k])
    ensures Val(u[uo..uo + n + 1]) == R
  {
    hide Val, BPow, Sum;
    ghost var w, lo, vs := u[uo..uo + n + 1], u[uo + 1..uo + n + 1], v[vo + 1..vo + n + 1];
    assert w == [w[0]] + lo;
    ValCons(w[0], lo);
    ValBound(vs);
    SumVal(lo, vs);
    var t := AddDigits(u, v, uo, vo, n);
    ghost var lo' := u[uo + 1..uo + n + 1];
    ValBound(lo');
    AddedBack(R, Val(vs), w[0], t, Val(lo), Val(lo'), BPow(n));
    u[uo] := LHalf(u[uo] + t);
    assert u[uo] == 0 && u[uo..uo + n + 1] == [0] + lo';
    assert forall k :: uo < k <= uo + n ==> u[k] == lo'[k - uo - 1];
    ValCons(0, lo');
  }

  /** D3 to D6: divides the window u[0..n] by v[1..n], leaving the remainder in place. */
  method QuotientDigit(u: array<int>, v: array<int>, uo: nat, vo: nat, n: nat) returns (q: int)
    requires Buffers(u, v, uo, vo, n) && v[vo + 1] >= B / 2
    requires Val(u[uo..uo + n]) < Val(v[vo + 1..vo + n + 1])
    modifies u
    ensures AllDigits(u[..]) && 0 <= q < B
    ensures forall k :: 0 <= k < u.Length && !(uo <= k <= uo + n) ==> u[k] == old(u[k])
    ensures var W, R, V := Val(old(u[uo..uo + n + 1])), Val(u[uo..uo + n + 1]), Val(v[vo + 1..vo + n + 1]);
      W == q * V + R && 0 <= R < V
  {
    ghost var W, vs, V := Val(u[uo..uo + n + 1]), v[vo + 1..vo + n + 1], Val(v[vo + 1..vo + n + 1]);
    ValBound(u[uo..uo + n + 1]);
    var qhat := Guess(u, v, uo, vo, n);
    Neighbours(qhat, W, V);
    ghost var product := qhat * V;
    var t := Subtract(u, v, uo, vo, n, qhat);
    assert v[vo + 1..vo + n + 1] == vs;
    if HHalf(t) != 0 {
      qhat := qhat - 1;
      assert qhat * V == product - V;
      AddBack(u, v, uo, vo, n, W - (product - V));
      assert v[vo + 1..vo + n + 1] == vs;
    } else {
      ValBound(u[uo..uo + n + 1]);
    }
    q := qhat;
  }

  lemma Neighbours(q: int, W: int, V: int)
    requires W >= 0
    ensures (q - 1) * V == q * V - V && (q + 1) * V == q * V + V
    ensures W < q * V ==> q != 0
  {
  }
}
