/** 32-bit words and powers of two. */
module Words {

  const WORD := 0x1_0000_0000

  /** The result of unsigned 32-bit arithmetic. */
  function Wrap(x: int): (w: int)
    ensures 0 <= w < WORD
  {
    x % WORD
  }

  /** The same bits read as a signed number. */
  function Signed(x: int): (s: int)
    ensures -WORD / 2 <= s < WORD / 2
  {
    if Wrap(x) < WORD / 2 then Wrap(x) else Wrap(x) - WORD
  }

  function Pow2(n: nat): (p: nat)
    ensures p > 0
  {
    if n == 0 then 1 else 2 * Pow2(n - 1)
  }

  lemma OneTimes(x: int)
    ensures 1 * x == x
  {
  }

  lemma Doubled(x: int, y: int)
    ensures 2 * (x * y) == (2 * x) * y
  {
  }

  lemma {:induction false} Pow2Add(a: nat, b: nat)
    ensures Pow2(a + b) == Pow2(a) * Pow2(b)
  {
    if a == 0 {
      OneTimes(Pow2(b));
    } else {
      Pow2Add(a - 1, b);
      assert a + b - 1 == a - 1 + b;
      Doubled(Pow2(a - 1), Pow2(b));
    }
  }

  lemma {:induction false} Pow2Mono(a: nat, b: nat)
    requires a <= b
    ensures Pow2(a) <= Pow2(b)
  {
    if a < b { Pow2Mono(a, b - 1); }
  }
}
