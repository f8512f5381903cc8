/** Shifting digit buffers by less than a digit, to normalise the divisor and to undo it. */
module Shifts {
  import opened Words
  import opened Digits

  /** Shifting by sh bits splits every digit at sh bits from its top. */
  lemma Halves(a: int, sh: nat)
    requires 0 <= a < B && sh <= 16
    ensures Pow2(sh) * Pow2(16 - sh) == B
    ensures var x := a * Pow2(sh);
      && 0 <= x < WORD && x / B == a / Pow2(16 - sh) && 0 <= a / Pow2(16 - sh) < Pow2(sh)
      && LHalf(x) % Pow2(sh) == 0
  {
    var p, k := Pow2(sh), Pow2(16 - sh);
    Pow2Add(sh, 16 - sh);
    Pow2Sixteen();
    SplitDigit(a, p, k);
    assert a * p < B * p by { StrictMono(a, B, p); }
    assert p <= B by { MulMono(1, k, p); }
    MulMono(p, B, B);
  }

  lemma StrictMono(a: int, b: int, c: int)
    requires a < b && c > 0
    ensures a * c < b * c
  {
  }

  lemma SplitDigit(a: int, p: int, k: int)
    requires 0 <= a < B && p > 0 && k > 0 && p * k == B
    ensures (a * p) / B == a / k && 0 <= a / k < p && LHalf(a * p) == (a % k) * p && LHalf(a * p) % p == 0
  {
    var h, l := a / k, a % k;
    assert a == h * k + l && 0 <= l < k;
    assert a * p == h * B + l * p by { assert (h * k) * p == h * (p * k); }
    assert 0 <= l * p < B by { MulMono(l, k - 1, p); MulMono(0, l, p); assert (k - 1) * p == B - p; }
    DivMod(a * p, h, l * p);
    if h >= p { MulMono(p, h, k); }
    if h < 0 { MulMono(h, -1, k); }
    MultipleMod(l, p);
  }

  lemma DivMod(x: int, h: int, l: int)
    requires x == h * B + l && 0 <= l < B
    ensures x / B == h && x % B == l
  {
  }

  lemma MultipleMod(l: int, p: int)
    requires p > 0 && l >= 0
    ensures (l * p) % p == 0
    decreases l
  {
    if l > 0 {
      MultipleMod(l - 1, p);
      assert l * p == (l - 1) * p + p;
      AddModulus((l - 1) * p, p);
    }
  }

  lemma AddModulus(x: int, p: int)
    requires p > 0
    ensures (x + p) % p == x % p
  {
    var q, r := x / p, x % p;
    assert x + p == (q + 1) * p + r by { assert x == q * p + r; assert (q + 1) * p == q * p + p; }
    Unique(x + p, p, q + 1, r);
  }

  lemma Unique(x: int, p: int, q: int, r: int)
    requires p > 0 && x == q * p + r && 0 <= r < p
    ensures x / p == q && x % p == r
  {
    var q', r' := x / p, x % p;
    assert x == q' * p + r' && 0 <= r' < p;
    assert (q' - q) * p == q' * p - q * p && (q - q') * p == q * p - q' * p;
    if q' > q { MulMono(1, q' - q, p); }
    if q' < q { MulMono(1, q - q', p); }
  }

  // ----- shifting left -----

  /** The part of a digit that stays in it, and the part that moves to the digit before. */
  function Kept(a: int, sh: nat): int {
    LHalf(a * Pow2(sh))
  }

  function Moved(a: int, sh: nat): int
    requires sh <= 16
  {
    a / Pow2(16 - sh)
  }

  lemma KeptMoved(a: int, sh: nat)
    requires 0 <= a < B && sh <= 16
    ensures Kept(a, sh) + Moved(a, sh) * B == a * Pow2(sh)
    ensures 0 <= Kept(a, sh) <= B - Pow2(sh) && 0 <= Moved(a, sh) < Pow2(sh)
  {
    Halves(a, sh);
    SplitDigit(a, Pow2(sh), Pow2(16 - sh));
    KeptBound(a % Pow2(16 - sh), Pow2(sh), Pow2(16 - sh));
  }

  lemma KeptBound(l: int, p: int, k: int)
    requires 0 <= l < k && p > 0 && p * k == B
    ensures 0 <= l * p <= B - p
  {
    MulMono(l, k - 1, p);
    MulMono(0, l, p);
    assert (k - 1) * p == B - p;
  }

  /** The digits of s shifted left by sh bits; what falls out at the top is lost. */
  function Left(s: seq<int>, sh: nat): seq<int>
    requires sh <= 16
  {
    if s == [] then []
    else [Kept(s[0], sh) + if |s| == 1 then 0 else Moved(s[1], sh)] + Left(s[1..], sh)
  }

  lemma {:induction false} LeftVal(s: seq<int>, sh: nat)
    requires AllDigits(s) && sh <= 16
    ensures |Left(s, sh)| == |s| && AllDigits(Left(s, sh))
    ensures Val(Left(s, sh)) + (if s == [] then 0 else Moved(s[0], sh)) * BPow(|s|) == Val(s) * Pow2(sh)
  {
    hide Val, Kept, Moved, Pow2, BPow;
    ValNone();
    if s != [] {
      var r := s[1..];
      LeftVal(r, sh);
      KeptMoved(s[0], sh);
      if r != [] { KeptMoved(r[0], sh); }
      var next := if r == [] then 0 else Moved(r[0], sh);
      var d := Kept(s[0], sh) + next;
      assert s == [s[0]] + r && Left(s, sh) == [d] + Left(r, sh);
      LeftCons(s[0], r, Left(r, sh), sh, next);
    }
  }

  lemma ValNone()
    ensures Val([]) == 0
  {
  }

  /** One more digit in front. */
  lemma LeftCons(a: int, r: seq<int>, shifted: seq<int>, sh: nat, next: int)
    requires sh <= 16 && |shifted| == |r| && Kept(a, sh) + Moved(a, sh) * B == a * Pow2(sh)
    requires Val(shifted) + next * BPow(|r|) == Val(r) * Pow2(sh)
    ensures Val([Kept(a, sh) + next] + shifted) + Moved(a, sh) * BPow(|r| + 1) == Val([a] + r) * Pow2(sh)
  {
    hide Val, Kept, Moved, Pow2;
    ValCons(a, r);
    ValCons(Kept(a, sh) + next, shifted);
    LeftMore(a, Moved(a, sh), Kept(a, sh) + next, next, Pow2(sh), BPow(|r|), Val(shifted), Val(r));
  }

  lemma LeftMore(a: int, top: int, d: int, next: int, p: int, bp: int, shifted: int, r: int)
    requires d - next + top * B == a * p && shifted + next * bp == r * p
    ensures d * bp + shifted + top * (B * bp) == (a * bp + r) * p
  {
    assert d * bp - next * bp + top * (B * bp) == (d - next + top * B) * bp;
    assert (a * p) * bp == (a * bp) * p;
    assert (a * bp + r) * p == (a * bp) * p + r * p;
  }

  /** The two parts of a shifted digit share no bit; nothing is lost in 32 bits. */
  function KeptWord(a: int, sh: nat): (w: int)
    requires 0 <= a < B && sh <= 16
    ensures w == Kept(a, sh)
  {
    Halves(a, sh);
    LHalf(Wrap(a * Pow2(sh)))
  }

  function ShiftedDigit(a: int, b: int, sh: nat): (d: int)
    requires 0 <= a < B && 0 <= b < B && sh <= 16
    ensures d == Kept(a, sh) + Moved(b, sh)
  {
    Halves(a, sh);
    Halves(b, sh);
    Join(KeptWord(a, sh), b / Pow2(16 - sh), sh)
  }

  lemma LeftAt(s: seq<int>, i: int, sh: nat)
    requires 0 <= i < |s| && sh <= 16
    ensures Left(s[i..], sh)
      == [Kept(s[i], sh) + if i + 1 == |s| then 0 else Moved(s[i + 1], sh)] + Left(s[i + 1..], sh)
    ensures Left([], sh) == []
  {
    assert s[i..][1..] == s[i + 1..];
  }

  lemma Regroup(a: seq<int>, d: int, t: seq<int>)
    ensures a + ([d] + t) == (a + [d]) + t
  {
  }

  /** `shl`: shifts p[0..len] left by sh bits. */
  method Shl(p: array<int>, off: nat, len: nat, sh: nat)
    requires off + len < p.Length && 0 < sh < 16 && AllDigits(p[..])
    modifies p
    ensures p[off..off + len + 1] == Left(old(p[off..off + len + 1]), sh)
    ensures forall k :: 0 <= k < p.Length && !(off <= k <= off + len) ==> p[k] == old(p[k])
  {
    hide ShiftedDigit, KeptWord, Kept, Moved, Left, Pow2;
    ghost var s := p[off..off + len + 1];
    var i := 0;
    while i < len
      invariant 0 <= i <= len
      invariant forall k :: 0 <= k < p.Length && !(off <= k < off + i) ==> p[k] == old(p[k])
      invariant p[off..off + i] + Left(s[i..], sh) == Left(s, sh)
    {
      assert p[off + i] == s[i] && p[off + i + 1] == s[i + 1];
      ghost var done := p[off..off + i];
      LeftAt(s, i, sh);
      p[off + i] := ShiftedDigit(p[off + i], p[off + i + 1], sh);
      Regroup(done, p[off + i], Left(s[i + 1..], sh));
      assert p[off..off + i + 1] == done + [p[off + i]];
      i := i + 1;
    }
    assert p[off + i] == s[i] && s[i + 1..] == [];
    LeftAt(s, i, sh);
    ghost var done := p[off..off + i];
    p[off + i] := KeptWord(p[off + i], sh);
    assert p[off..off + i + 1] == done + [p[off + i]];
  }

  // ----- shifting right -----

  /** The digits of s shifted right by d bits, when the digit before s is prev. */
  function Right(prev: int, s: seq<int>, d: nat): seq<int>
    requires d <= 16
    decreases s
  {
    if s == [] then [] else [Moved(s[0], 16 - d) + Kept(prev, 16 - d)] + Right(s[0], s[1..], d)
  }

  /** The bits of a digit below its d-th one. */
  ghost function Lost(a: int, d: nat): int {
    a % Pow2(d)
  }

  lemma LostKept(a: int, d: nat)
    requires 0 <= a < B && d <= 16
    ensures Moved(a, 16 - d) * Pow2(d) + Lost(a, d) == a && 0 <= Lost(a, d)
    ensures Kept(a, 16 - d) * Pow2(d) == Lost(a, d) * B
    ensures 0 <= Moved(a, 16 - d) < Pow2(16 - d) && 0 <= Kept(a, 16 - d) <= B - Pow2(16 - d)
  {
    assert 16 - (16 - d) == d;
    var p, k := Pow2(16 - d), Pow2(d);
    Halves(a, 16 - d);
    SplitDigit(a, p, k);
    LostMore(a, p, k);
  }

  lemma LostMore(a: int, p: int, k: int)
    requires a >= 0 && p > 0 && k > 0 && p * k == B
    ensures (a / k) * k + a % k == a && 0 <= a % k && ((a % k) * p) * k == (a % k) * B && (a % k) * p <= B - p
  {
    var l := a % k;
    assert (l * p) * k == l * (p * k);
    KeptBound(l, p, k);
  }

  lemma {:induction false} RightVal(prev: int, s: seq<int>, d: nat)
    requires 0 <= prev < B && AllDigits(s) && d <= 16
    ensures |Right(prev, s, d)| == |s| && AllDigits(Right(prev, s, d))
    ensures Val(Right(prev, s, d)) * Pow2(d) + (if s == [] then Lost(prev, d) else Lost(s[|s| - 1], d))
         == Val(s) + Lost(prev, d) * BPow(|s|)
    decreases s
  {
    if s != [] {
      var r := s[1..];
      RightVal(s[0], r, d);
      LostKept(s[0], d);
      LostKept(prev, d);
      var e := Moved(s[0], 16 - d) + Kept(prev, 16 - d);
      assert s == [s[0]] + r && Right(prev, s, d) == [e] + Right(s[0], r, d);
      ValCons(s[0], r);
      ValCons(e, Right(s[0], r, d));
      RightMore(s[0], e, Moved(s[0], 16 - d), Kept(prev, 16 - d), Lost(s[0], d), Lost(prev, d), Pow2(d), BPow(|r|),
        Val(Right(s[0], r, d)));
    }
  }

  lemma RightMore(a: int, e: int, moved: int, kept: int, lost: int, before: int, p: int, bp: int, shifted: int)
    requires e == moved + kept && moved * p + lost == a && kept * p == before * B
    ensures (e * bp + shifted) * p == a * bp - lost * bp + before * (B * bp) + shifted * p
  {
    assert (e * bp + shifted) * p == (moved * p + kept * p) * bp + shifted * p;
    assert (moved * p + kept * p) * bp == (a - lost) * bp + (before * B) * bp;
  }

  function RightDigit(prev: int, a: int, d: nat): (e: int)
    requires 0 <= prev < B && 0 <= a < B && d <= 16
    ensures e == Moved(a, 16 - d) + Kept(prev, 16 - d)
  {
    Halves(prev, 16 - d);
    Halves(a, 16 - d);
    Join(KeptWord(prev, 16 - d), Moved(a, 16 - d), 16 - d)
  }

  lemma RightAt(s: seq<int>, i: int, d: nat)
    requires 0 <= i < |s| && d <= 16
    ensures i > 0 ==>
      Right(s[i - 1], s[i..], d) == [Moved(s[i], 16 - d) + Kept(s[i - 1], 16 - d)] + Right(s[i], s[i + 1..], d)
    ensures Right(s[i], [], d) == []
  {
    assert s[i..][1..] == s[i + 1..];
  }

  /** The loop that takes a shift of the digits after index off back, from the right. */
  method Unshift(u: array<int>, off: nat, d: nat)
    requires off < u.Length && 0 < d < 16 && AllDigits(u[..])
    modifies u
    ensures u[off + 1..] == Right(old(u[off]), old(u[off + 1..]), d)
    ensures forall k :: 0 <= k <= off ==> u[k] == old(u[k])
  {
    hide RightDigit, Kept, Moved, Pow2, Right;
    ghost var s := u[..];
    var i := u.Length - 1;
    assert s[i + 1..] == [];
    RightAt(s, i, d);
    while i > off
      invariant off <= i < u.Length
      invariant u[..i + 1] == s[..i + 1]
      invariant u[i + 1..] == Right(s[i], s[i + 1..], d)
    {
      ghost var done := u[i + 1..];
      assert u[i] == u[..i + 1][i] && u[i - 1] == u[..i + 1][i - 1];
      RightAt(s, i, d);
      u[i] := RightDigit(u[i - 1], u[i], d);
      assert u[i..] == [u[i]] + done;
      i := i - 1;
    }
  }
}
