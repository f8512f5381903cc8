/** The least address at or after a given one with prescribed low bits. */
module Alignment {
  import opened Words

  lemma Unique(q: int, r: int, x: int, m: int)
    requires m > 0 && x == q * m + r && 0 <= r < m
    ensures x / m == q && x % m == r
  {
    NotAbove(q, r, x / m, x % m, m);
    NotAbove(x / m, x % m, q, r, m);
  }

  lemma NotAbove(q: int, r: int, q': int, r': int, m: int)
    requires m > 0 && q * m + r == q' * m + r' && 0 <= r < m && 0 <= r' < m
    ensures q <= q'
  {
    Distribute(q, q', m);
    if q > q' { Product(q - q' - 1, m); }
  }

  lemma Distribute(q: int, q': int, m: int)
    ensures q * m == q' * m + m + (q - q' - 1) * m
  {
  }

  lemma Product(a: int, b: int)
    requires b >= 0
    ensures a >= 0 ==> a * b >= 0
    ensures a <= 0 ==> a * b <= 0
  {
  }

  /** The bits below the next one, and that one. */
  lemma NextBit(x: int, p: int)
    requires p > 0 && x >= 0
    ensures x % (2 * p) == (x / p % 2) * p + x % p
  {
    var q, b := x / p / 2, x / p % 2;
    assert x == q * (2 * p) + (b * p + x % p) by {
      assert x == x / p * p + x % p;
      assert x / p == 2 * q + b;
      assert (2 * q + b) * p == q * (2 * p) + b * p;
    }
    assert b == 0 || b == 1;
    Unique(q, b * p + x % p, x, 2 * p);
  }

  /** Adding p flips bit p and leaves the bits below. */
  lemma FlipBit(x: int, p: int)
    requires p > 0 && x >= 0
    ensures (x + p) % p == x % p && (x + p) / p == x / p + 1 && ((x + p) / p) % 2 == 1 - x / p % 2
  {
    Unique(x / p + 1, x % p, x + p, p);
  }

  /** r is the least number from x on that agrees with ofs modulo m. */
  ghost predicate LeastFrom(r: int, x: int, m: int, ofs: int)
    requires m > 0
  {
    r >= x && r % m == ofs % m && forall a :: a >= x && a % m == ofs % m ==> a >= r
  }

  /** It is less than m away. */
  lemma LeastBelow(r: int, x: int, m: int, ofs: int)
    requires m > 0 && LeastFrom(r, x, m, ofs)
    ensures x <= r < x + m
  {
    if r >= x + m {
      Unique(r / m - 1, r % m, r - m, m);
    }
  }

  lemma Closer(a: int, r: int, m: int)
    requires m > 0 && a % m == r % m && a > r
    ensures a >= r + m
  {
    var k := a / m - r / m;
    assert a - r == k * m by { assert a == a / m * m + a % m && r == r / m * m + r % m; }
    Product(k, m);
    assert k >= 1;
    Product(k - 1, m);
  }

  lemma LeastStep(r: int, x: int, p: int, ofs: int, r': int)
    requires p > 0 && x >= 0 && ofs >= 0 && LeastFrom(r, x, p, ofs)
    requires r' == if (r / p) % 2 != (ofs / p) % 2 then r + p else r
    ensures LeastFrom(r', x, 2 * p, ofs)
  {
    NextBit(r, p);
    NextBit(ofs, p);
    FlipBit(r, p);
    NextBit(r + p, p);
    forall a | a >= x && a % (2 * p) == ofs % (2 * p) ensures a >= r' {
      NextBit(a, p);
      LowBits(a, ofs, p);
      if r' != r && a > r { Closer(a, r, p); }
    }
  }

  /** Numbers that agree modulo 2p agree modulo p and in the next bit. */
  lemma LowBits(a: int, b: int, p: int)
    requires p > 0 && a >= 0 && b >= 0 && a % (2 * p) == b % (2 * p)
    ensures a % p == b % p && a / p % 2 == b / p % 2
  {
    NextBit(a, p);
    NextBit(b, p);
    var i, j := a / p % 2, b / p % 2;
    assert i * p + a % p == j * p + b % p;
    Bit(i, p);
    Bit(j, p);
  }

  lemma Bit(i: int, p: int)
    ensures i == 0 ==> i * p == 0
    ensures i == 1 ==> i * p == p
  {
  }

  lemma LeastStart(x: int, ofs: int)
    ensures LeastFrom(x, x, 1, ofs)
  {
  }

  /** A word has the low bits of the number it is cut from. */
  lemma WrappedBit(r: int, i: nat)
    requires 0 <= r < 2 * WORD && i < 32
    ensures Wrap(r) / Pow2(i) % 2 == r / Pow2(i) % 2 && Wrap(Wrap(r) + Pow2(i)) == Wrap(r + Pow2(i))
  {
    hide Pow2;
    WrapAdd(r, Pow2(i));
    WrapOnce(r);
    if r >= WORD {
      WordSplit(i);
      MinusEven(r, Pow2(i), Pow2(31 - i));
    }
  }

  lemma WrapAdd(a: int, b: int)
    ensures Wrap(Wrap(a) + b) == Wrap(a + b)
  {
  }

  lemma WrapOnce(r: int)
    requires 0 <= r < 2 * WORD
    ensures Wrap(r) == if r >= WORD then r - WORD else r
  {
  }

  lemma WordSplit(i: nat)
    requires i < 32
    ensures WORD == 2 * Pow2(31 - i) * Pow2(i)
  {
    Pow2Add(i, 31 - i);
    WordIsPow2();
    Twice(Pow2(31 - i), Pow2(i));
  }

  lemma MinusEven(r: int, p: int, k: int)
    requires p > 0
    ensures (r - 2 * k * p) / p % 2 == r / p % 2
  {
    var q, c := r / p, r % p;
    Cancel(q, 2 * k, p, c);
    Unique(q - 2 * k, c, r - 2 * k * p, p);
    TwiceOff(q, k);
  }

  lemma WordIsPow2()
    ensures 2 * Pow2(31) == WORD
  {
    Pow2Add(8, 8);
    assert Pow2(8) == 0x100 && Pow2(16) == 0x10000;
    Pow2Add(16, 15);
    assert Pow2(15) * 2 == Pow2(16);
  }

  lemma Twice(k: int, p: int)
    ensures 2 * (p * k) == (2 * k) * p
  {
  }

  lemma Cancel(q: int, k: int, p: int, c: int)
    ensures (q - k) * p + c == q * p + c - k * p
  {
  }

  lemma TwiceOff(q: int, k: int)
    ensures (q - 2 * k) % 2 == q % 2
  {
  }

  /** In 32 bits, the least number from x on with the remainder of ofs. */
  ghost predicate WrappedLeast(addr: int, x: int, m: int, ofs: int)
    requires m > 0
  {
    exists r :: LeastFrom(r, x, m, ofs) && addr == Wrap(r)
  }

  /** The loop over the bits in `lmm_alloc_gen`, in 32-bit words: r is the address that is meant. */
  method AlignUp(x: int, align_bits: nat, align_ofs: int) returns (addr: int, ghost r: int)
    requires 0 <= x < WORD && align_bits <= 32 && align_ofs >= 0
    ensures LeastFrom(r, x, Pow2(align_bits), align_ofs) && r < x + Pow2(align_bits) && addr == Wrap(r)
    ensures WrappedLeast(addr, x, Pow2(align_bits), align_ofs)
  {
    hide LeastFrom, Wrap;
    addr, r := x, x;
    WrapSmall(x);
    LeastStart(x, align_ofs);
    var i := 0;
    while i < align_bits
      invariant 0 <= i <= align_bits && LeastFrom(r, x, Pow2(i), align_ofs) && x <= r < x + Pow2(i) && addr == Wrap(r)
    {
      var bit := Pow2(i);
      LeastStep(r, x, bit, align_ofs, if (r / bit) % 2 != (align_ofs / bit) % 2 then r + bit else r);
      BitBound(i);
      WrappedBit(r, i);
      if (addr / bit) % 2 != (align_ofs / bit) % 2 {
        addr, r := Wrap(addr + bit), r + bit;
      }
      i := i + 1;
    }
  }

  lemma WrapSmall(x: int)
    ensures 0 <= x < WORD ==> Wrap(x) == x
  {
  }

  lemma BitBound(i: nat)
    ensures Pow2(i + 1) == 2 * Pow2(i) && (i < 32 ==> Pow2(i) < WORD)
  {
    WordIsPow2();
    if i < 32 { Pow2Mono(i, 31); }
  }
}
