/** Printing numbers and reading them back. */
module Numerals {

  /** `sizeof(long int) * 8` */
  const MAXBUF := 32

  // ----- digits -----

  function DigitChar(d: int, upcase: bool): (c: char)
    requires 0 <= d < 16
  {
    if d < 10 then '0' + d as char else (if upcase then 'A' else 'a') + (d - 10) as char
  }

  /** The digit that a character stands for, or -1. */
  function DigitValue(c: char, base: int): (d: int)
    ensures -1 <= d && (d >= 0 ==> d < base)
  {
    if '0' <= c <= '9' && c as int - '0' as int < base then c as int - '0' as int
    else if 'a' <= c <= 'z' && c as int - 'a' as int + 10 < base then c as int - 'a' as int + 10
    else if 'A' <= c <= 'Z' && c as int - 'A' as int + 10 < base then c as int - 'A' as int + 10
    else -1
  }

  lemma DigitRead(d: int, base: int, upcase: bool)
    requires 0 <= d < base <= 16
    ensures DigitValue(DigitChar(d, upcase), base) == d
  {
  }

  lemma Shrinks(u: int, base: int)
    requires u >= 0 && base >= 2
    ensures 0 <= u / base && (u > 0 ==> u / base < u) && (u / base == 0 <==> u < base) && 0 <= u % base < base
    ensures u / base * base + u % base == u
  {
  }

  function Digits(u: nat, base: int, upcase: bool): (s: string)
    requires 2 <= base <= 16
    ensures |s| > 0
    decreases u
  {
    Shrinks(u, base);
    (if u / base == 0 then [] else Digits(u / base, base, upcase)) + [DigitChar(u % base, upcase)]
  }

  lemma {:induction false} AllDigits(u: nat, base: int, upcase: bool, i: int)
    requires 2 <= base <= 16 && 0 <= i < |Digits(u, base, upcase)|
    ensures DigitValue(Digits(u, base, upcase)[i], base) >= 0
    decreases u
  {
    Shrinks(u, base);
    DigitRead(u % base, base, upcase);
    if i < |Digits(u, base, upcase)| - 1 { AllDigits(u / base, base, upcase, i); }
  }

  lemma DigitIn(d: int, upcase: bool)
    requires 0 <= d < 16
    ensures DigitChar(d, upcase) == (if upcase then "0123456789ABCDEF" else "0123456789abcdef")[d]
  {
  }

  /** Place i of a number's text holds the character for its digit, in the case asked for. */
  lemma {:induction false} DigitsAt(u: nat, base: int, upcase: bool, i: int)
    requires 2 <= base <= 16 && 0 <= i < |Digits(u, base, upcase)|
    ensures var c := Digits(u, base, upcase)[|Digits(u, base, upcase)| - 1 - i];
      c == (if upcase then "0123456789ABCDEF" else "0123456789abcdef")[Place(u, base, i)]
    decreases u
  {
    Shrinks(u, base);
    DigitIn(u % base, upcase);
    if i > 0 {
      DigitsAt(u / base, base, upcase, i - 1);
    }
  }

  /** The digit at place i, counted from the last one. */
  function Place(u: nat, base: int, i: nat): (d: int)
    requires 2 <= base <= 16
    ensures 0 <= d < base
  {
    Shrinks(u, base);
    if i == 0 then u % base else Place(u / base, base, i - 1)
  }

  /** No number begins with a zero digit but zero itself. */
  lemma {:induction false} NoLeadingZero(u: nat, base: int, upcase: bool)
    requires 2 <= base <= 16
    ensures Digits(u, base, upcase)[0] == '0' <==> u == 0
    decreases u
  {
    Shrinks(u, base);
    if u / base != 0 {
      NoLeadingZero(u / base, base, upcase);
    }
  }

  function Copies(c: char, n: int): (s: string)
    ensures |s| == if n > 0 then n else 0
    ensures forall i :: 0 <= i < |s| ==> s[i] == c
  {
    if n <= 0 then [] else Copies(c, n - 1) + [c]
  }

  // ----- printing -----

  /** `#`, `-`, `0` and what a sign flag puts before a number that is not negative (NUL for nothing). */
  datatype Flags = Flags(altfmt: bool, ladjust: bool, zero: bool, plus: char)

  function Prefix(u: nat, base: int, altfmt: bool): string {
    if u == 0 || !altfmt then "" else if base == 8 then "0" else if base == 16 then "0x" else ""
  }

  function SignOf(sign_char: char): string {
    if sign_char == '\0' then "" else [sign_char]
  }

  /** A number's text: blanks first or last, zeros after the sign and the prefix. */
  function Rendered(sign_char: char, u: nat, base: int, upcase: bool, f: Flags, width: int): string
    requires 2 <= base <= 16
  {
    var sign, prefix, digits := SignOf(sign_char), Prefix(u, base, f.altfmt), Digits(u, base, upcase);
    var pad := width - |sign| - |prefix| - |digits|;
    (if !f.zero && !f.ladjust then Copies(' ', pad) else []) + sign + prefix
    + (if f.zero then Copies('0', pad) else []) + digits
    + (if !f.zero && f.ladjust then Copies(' ', pad) else [])
  }

  lemma RenderedParts(sign_char: char, u: nat, base: int, upcase: bool, f: Flags, width: int, pad: int)
    requires 2 <= base <= 16
    requires pad == width - |SignOf(sign_char)| - |Prefix(u, base, f.altfmt)| - |Digits(u, base, upcase)|
    ensures var blanks := if !f.zero && !f.ladjust then Copies(' ', pad) else [];
      var zeros := if f.zero then Copies('0', pad) else [];
      var body := blanks + SignOf(sign_char) + Prefix(u, base, f.altfmt) + zeros + Digits(u, base, upcase);
      Rendered(sign_char, u, base, upcase, f, width) == if !f.zero && f.ladjust then body + Copies(' ', pad) else body
  {
  }

  /** Zeros and blanks that are not there. */
  lemma Empty(sign: string, prefix: string, digits: string)
    ensures [] + sign + prefix + [] + digits == sign + prefix + digits
    ensures sign + prefix + digits + [] == sign + prefix + digits
  {
  }

  lemma NoZeros(blanks: string, sign: string, prefix: string, digits: string)
    ensures blanks + sign + prefix + [] + digits == blanks + sign + prefix + digits
  {
  }

  lemma NoBlanks(sign: string, prefix: string, zeros: string, digits: string)
    ensures [] + sign + prefix + zeros + digits == sign + prefix + zeros + digits
  {
  }

  /** The text, case by case: sign, prefix and digits, and for a wider field zeros before the digits, or blanks after
      them, or blanks before it all. */
  lemma RenderedCases(sign_char: char, u: nat, base: int, upcase: bool, f: Flags, width: int)
    requires 2 <= base <= 16
    ensures var sign := if sign_char == '\0' then "" else [sign_char];
      var prefix := if !f.altfmt || u == 0 then "" else if base == 8 then "0" else if base == 16 then "0x" else "";
      var digits, out := Digits(u, base, upcase), Rendered(sign_char, u, base, upcase, f, width);
      var pad := width - |sign| - |prefix| - |digits|;
      if pad <= 0 then out == sign + prefix + digits
      else if f.zero then out == sign + prefix + seq(pad, _ => '0') + digits
      else if f.ladjust then out == sign + prefix + digits + seq(pad, _ => ' ')
      else out == seq(pad, _ => ' ') + sign + prefix + digits
  {
    hide Digits, Rendered, Copies;
    var sign, prefix, digits := SignOf(sign_char), Prefix(u, base, f.altfmt), Digits(u, base, upcase);
    var pad := width - |sign| - |prefix| - |digits|;
    RenderedParts(sign_char, u, base, upcase, f, width, pad);
    Empty(sign, prefix, digits);
    if pad > 0 {
      assert Copies('0', pad) == seq(pad, _ => '0') && Copies(' ', pad) == seq(pad, _ => ' ');
      NoZeros(Copies(' ', pad), sign, prefix, digits);
      NoBlanks(sign, prefix, Copies('0', pad), digits);
    } else {
      assert Copies('0', pad) == [] == Copies(' ', pad);
    }
  }

  /** The text is as long as the wider of the field and the number. */
  lemma RenderedLength(sign_char: char, u: nat, base: int, upcase: bool, f: Flags, width: int)
    requires 2 <= base <= 16
    ensures var natural := |SignOf(sign_char)| + |Prefix(u, base, f.altfmt)| + |Digits(u, base, upcase)|;
      |Rendered(sign_char, u, base, upcase, f, width)| == if width > natural then width else natural
  {
  }

  function Power(base: int, k: nat): (p: nat)
    requires base >= 1
    ensures p >= 1
  {
    if k == 0 then 1 else ProductPositive(base, Power(base, k - 1)); base * Power(base, k - 1)
  }

  lemma ProductPositive(a: int, b: int)
    requires a >= 1 && b >= 1
    ensures a * b >= a && a * b >= b
  {
  }

  lemma ProductMono(a: int, b: int, c: int, d: int)
    requires 0 <= a <= b && 0 <= c <= d
    ensures a * c <= b * d
  {
    assert a * c <= b * c by { assert (b - a) * c >= 0; }
    assert b * c <= b * d by { assert b * (d - c) >= 0; }
  }

  lemma Quotient(u: int, base: int, bound: int)
    requires 0 <= u && base >= 2 && bound >= 0
    ensures u / base < bound <==> u < base * bound
  {
    Shrinks(u, base);
    var q := u / base;
    if q < bound {
      ProductMono(q + 1, bound, base, base);
      assert (q + 1) * base == q * base + base;
    } else {
      ProductMono(bound, q, base, base);
    }
  }

  /** How many digits a number has. */
  lemma {:induction false} DigitsLength(u: nat, base: int, upcase: bool, k: nat)
    requires 2 <= base <= 16
    ensures |Digits(u, base, upcase)| <= k + 1 <==> u < Power(base, k + 1)
    decreases k
  {
    Shrinks(u, base);
    assert Power(base, k + 1) == base * Power(base, k);
    ProductPositive(base, Power(base, k));
    if u / base != 0 {
      if k == 0 {
        assert Power(base, 1) == base;
      } else {
        Quotient(u, base, Power(base, k));
        DigitsLength(u / base, base, upcase, k - 1);
      }
    }
  }

  lemma {:induction false} PowerSum(base: int, a: nat, b: nat)
    requires base >= 1
    ensures Power(base, a + b) == Power(base, a) * Power(base, b)
  {
    if a > 0 {
      PowerSum(base, a - 1, b);
      var x, y := Power(base, a - 1), Power(base, b);
      assert base * (x * y) == (base * x) * y;
    } else {
      assert Power(base, 0) * Power(base, b) == Power(base, b);
    }
  }

  lemma {:induction false} PowerMono(base: int, base': int, k: nat)
    requires 1 <= base <= base'
    ensures Power(base, k) <= Power(base', k)
  {
    if k > 0 {
      PowerMono(base, base', k - 1);
      ProductMono(base, base', Power(base, k - 1), Power(base', k - 1));
    }
  }

  /** The square of the square of a power. */
  lemma PowerFourfold(base: int, k: nat, p: int)
    requires base >= 1 && p == Power(base, k)
    ensures Power(base, 4 * k) == (p * p) * (p * p)
  {
    PowerSum(base, k, k);
    PowerSum(base, 2 * k, 2 * k);
  }

  /** The buffer has room for the digits of every 64-bit number from base 4 on, and in base 2 exactly for 32-bit
      numbers. */
  lemma BufferFits(u: nat, base: int, upcase: bool)
    requires 2 <= base <= 16 && u < 0x1_0000_0000_0000_0000
    ensures |Digits(u, base, upcase)| <= MAXBUF <==> u < Power(base, MAXBUF)
    ensures base >= 4 ==> |Digits(u, base, upcase)| <= MAXBUF
    ensures base == 2 ==> (|Digits(u, base, upcase)| <= MAXBUF <==> u < 0x1_0000_0000)
  {
    DigitsLength(u, base, upcase, MAXBUF - 1);
    assert Power(4, 2) == 16 && Power(2, 2) == 4;
    PowerFourfold(4, 2, 16);
    PowerFourfold(4, 8, 0x1_0000);
    PowerFourfold(2, 2, 4);
    PowerFourfold(2, 8, 0x100);
    if base >= 4 { PowerMono(4, base, MAXBUF); }
  }

  /** 2^32 has 33 binary digits, one more than the buffer has places. */
  lemma BinaryTooLong()
    ensures |Digits(0x1_0000_0000, 2, false)| > MAXBUF
  {
    BufferFits(0x1_0000_0000, 2, false);
  }

  /** `digits[u % base]` and `u / base` */
  function Last(u: nat, base: int, upcase: bool): char
    requires 2 <= base <= 16
  {
    Shrinks(u, base);
    DigitChar(u % base, upcase)
  }

  function Rest(u: nat, base: int): nat
    requires 2 <= base <= 16
  {
    Shrinks(u, base);
    u / base
  }

  /** The digits of u, but none for zero. */
  function Front(u: nat, base: int, upcase: bool): string
    requires 2 <= base <= 16
  {
    if u == 0 then [] else Digits(u, base, upcase)
  }

  lemma FrontNone(base: int, upcase: bool, t: string)
    requires 2 <= base <= 16
    ensures Front(0, base, upcase) + t == t
  {
  }

  lemma LastDigit(u: nat, base: int, upcase: bool)
    requires 2 <= base <= 16
    ensures Digits(u, base, upcase) == Front(Rest(u, base), base, upcase) + [Last(u, base, upcase)]
  {
    Shrinks(u, base);
  }

  lemma LastOfFront(u: nat, base: int, upcase: bool)
    requires 2 <= base <= 16 && u > 0
    ensures Rest(u, base) < u && |Front(u, base, upcase)| > 0
    ensures Front(u, base, upcase) == Front(Rest(u, base), base, upcase) + [Last(u, base, upcase)]
  {
    Shrinks(u, base);
  }

  lemma Room(front: string, tail: string, all: string)
    requires all == front + tail && |front| > 0
    ensures |tail| < |all|
  {
  }

  lemma Shifted(a: string, c: char, t: string)
    ensures (a + [c]) + t == a + ([c] + t)
  {
  }

  /** `*p-- = c`, as seen from the digits after p */
  method PutDigit(buf: array<char>, p: int, c: char)
    requires 0 <= p < buf.Length
    modifies buf
    ensures buf[p..] == [c] + old(buf[p + 1..])
  {
    buf[p] := c;
  }

  /** One more digit: the last one of u, for which there is room. */
  method PutNext(buf: array<char>, p: int, u: nat, base: int, upcase: bool, ghost all: string)
    requires buf.Length == MAXBUF && 2 <= base <= 16 && |all| <= MAXBUF && -1 <= p < MAXBUF - 1 && u > 0
    requires all == Front(u, base, upcase) + buf[p + 1..]
    modifies buf
    ensures 0 <= p && all == Front(Rest(u, base), base, upcase) + buf[p..]
  {
    hide Front, Last, Rest;
    ghost var tail := buf[p + 1..];
    LastOfFront(u, base, upcase);
    Room(Front(u, base, upcase), tail, all);
    Shifted(Front(Rest(u, base), base, upcase), Last(u, base, upcase), tail);
    PutDigit(buf, p, Last(u, base, upcase));
  }

  /** The rest of the digits, those of u before those in the buffer. */
  method FillRest(buf: array<char>, p0: int, u0: nat, base: int, upcase: bool, ghost all: string) returns (p: int)
    requires buf.Length == MAXBUF && 2 <= base <= 16 && |all| <= MAXBUF && -1 <= p0 < MAXBUF - 1
    requires all == Front(u0, base, upcase) + buf[p0 + 1..]
    modifies buf
    ensures -1 <= p < MAXBUF && buf[p + 1..] == all
  {
    hide Front, Last, Rest;
    var u := u0;
    p := p0;
    while u != 0
      invariant -1 <= p < MAXBUF - 1
      invariant all == Front(u, base, upcase) + buf[p + 1..]
      decreases u
    {
      LastOfFront(u, base, upcase);
      PutNext(buf, p, u, base, upcase, all);
      p := p - 1;
      u := Rest(u, base);
    }
    FrontNone(base, upcase, buf[p + 1..]);
  }

  method FillDigits(buf: array<char>, u0: nat, base: int, upcase: bool) returns (p: int)
    requires buf.Length == MAXBUF && 2 <= base <= 16 && u0 < Power(base, MAXBUF)
    modifies buf
    ensures MAXBUF - 1 - p == |Digits(u0, base, upcase)| && -1 <= p && buf[p + 1..] == Digits(u0, base, upcase)
  {
    hide Digits, Last, Rest;
    DigitsLength(u0, base, upcase, MAXBUF - 1);
    ghost var all := Digits(u0, base, upcase);
    p := MAXBUF - 1;
    var u := u0;
    LastDigit(u, base, upcase);
    PutDigit(buf, p, Last(u, base, upcase));
    u := Rest(u, base);
    assert buf[MAXBUF..] == [];
    p := FillRest(buf, p - 1, u, base, upcase, all);
  }

  /** `while (--length >= 0)`: once run, the length is negative and no other padding happens. */
  method Pad(out0: string, c: char, length0: int) returns (out: string, length: int)
    ensures out == out0 + Copies(c, length0) && length < 0 && (length0 < 0 ==> out == out0)
  {
    out, length := out0, length0 - 1;
    while length >= 0
      invariant length == length0 - 1 || -1 <= length < length0
      invariant out == out0 + Copies(c, length0 - 1 - length)
      decreases length
    {
      out := out + [c];
      length := length - 1;
    }
  }

  /** Everything before the digits. Padding leaves a negative length behind. */
  method PutHead(sign_char: char, prefix: string, f: Flags, length0: int) returns (out: string, length: int)
    ensures var blanks := if !f.zero && !f.ladjust then Copies(' ', length0) else [];
      var zeros := if f.zero then Copies('0', length0) else [];
      out == blanks + SignOf(sign_char) + prefix + zeros
    ensures if f.zero || !f.ladjust then length < 0 else length == length0
  {
    hide Copies;
    out, length := [], length0;
    if !f.zero && !f.ladjust {
      out, length := Pad(out, ' ', length);
    }
    if sign_char != '\0' {
      out := out + [sign_char];
    }
    out := out + prefix;
    if f.zero {
      out, length := Pad(out, '0', length);
    }
  }

  method PutBuffer(out0: string, buf: array<char>, p0: int) returns (out: string)
    requires 0 <= p0 <= buf.Length
    ensures out == out0 + buf[p0..]
  {
    var p := p0;
    out := out0;
    while p != buf.Length
      invariant p0 <= p <= buf.Length && out == out0 + buf[p0..p]
      decreases buf.Length - p
    {
      out := out + [buf[p]];
      p := p + 1;
    }
  }

  /** `print_num`: digits are put into a buffer from its end, then everything goes out. The buffer has room for MAXBUF
      digits. */
  method PrintNum(sign_char: char, u0: nat, base: int, upcase: bool, f: Flags, width: int) returns (out: string)
    requires 2 <= base <= 16 && u0 < Power(base, MAXBUF)
    ensures out == Rendered(sign_char, u0, base, upcase, f, width)
  {
    var buf := new char[MAXBUF];
    var prefix := Prefix(u0, base, f.altfmt);
    var p := FillDigits(buf, u0, base, upcase);
    var length := width - (MAXBUF - 1 - p);
    if sign_char != '\0' {
      length := length - 1;
    }
    length := length - |prefix|;
    RenderedParts(sign_char, u0, base, upcase, f, width, length);
    out, length := PutHead(sign_char, prefix, f, length);
    out := PutBuffer(out, buf, p + 1);
    if f.ladjust {
      out, length := Pad(out, ' ', length);
    }
  }
}
