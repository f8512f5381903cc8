/** Reading numbers, and reading back what was printed. */
module Parsing {
  import opened Words
  import opened Numerals

  // ----- reading -----

  /** `isspace` */
  predicate IsSpace(c: char) {
    c == ' ' || c == '\U{c}' || c == '\n' || c == '\r' || c == '\t' || c == '\U{b}'
  }

  function Strip(s: string): string {
    if s != [] && IsSpace(s[0]) then Strip(s[1..]) else s
  }

  /** The number that the digits at the front of s add to v, and what comes after them. */
  function Value(s: string, base: int, v: int): int {
    if s != [] && DigitValue(s[0], base) >= 0 then Value(s[1..], base, v * base + DigitValue(s[0], base)) else v
  }

  function AfterDigits(s: string, base: int): string {
    if s != [] && DigitValue(s[0], base) >= 0 then AfterDigits(s[1..], base) else s
  }

  predicate HexPrefix(s: string) {
    |s| >= 2 && s[0] == '0' && (s[1] == 'x' || s[1] == 'X')
  }

  /** The base that is used, and the text from the first digit on. */
  function ActualBase(s: string, base: int): int {
    if (base == 16 || base == 0) && HexPrefix(s) then 16
    else if base != 0 then base
    else if s != [] && s[0] == '0' then 8 else 10
  }

  function FromDigits(s: string, base: int): string {
    if (base == 16 || base == 0) && HexPrefix(s) then s[2..] else s
  }

  function AfterSign(s: string): string {
    if s != [] && s[0] == '-' then s[1..] else s
  }

  function Magnitude(s: string, base: int): int {
    Value(FromDigits(s, base), ActualBase(s, base), 0)
  }

  /** What `strtol` returns: a sign is skipped only when it is a minus. */
  function LongOf(s: string, base: int): int {
    var t := Strip(s);
    var m := Magnitude(AfterSign(t), base);
    Signed(if t != [] && t[0] == '-' then -m else m)
  }

  /** What `strtoul` returns. */
  function UnsignedOf(s: string, base: int): int {
    Wrap(Magnitude(Strip(s), base))
  }

  // ----- what these mean -----

  /** White space is blanks, tabs, line feeds, vertical tabs, form feeds and carriage returns. */
  lemma SpaceMeans(c: char)
    ensures IsSpace(c) <==> c as int == 0x20 || 9 <= c as int <= 13
  {
  }

  /** Nothing but white space is skipped, and all of it. */
  lemma {:induction false} StripSpace(s: string) returns (n: int)
    ensures 0 <= n <= |s| && Strip(s) == s[n..] && forall i :: 0 <= i < n ==> IsSpace(s[i])
    ensures n < |s| ==> !IsSpace(s[n])
  {
    if s != [] && IsSpace(s[0]) {
      n := StripSpace(s[1..]);
      assert s[1..][n..] == s[n + 1..];
      n := n + 1;
    } else {
      n := 0;
    }
  }

  /** A digit is a decimal digit or a letter in either case, worth less than the base. */
  lemma DigitMeans(c: char, base: int, d: int)
    requires 0 <= d && base <= 36
    ensures DigitValue(c, base) == d <==>
      d < base && (if d < 10 then c as int == 0x30 + d else c as int == 0x61 + d - 10 || c as int == 0x41 + d - 10)
  {
  }

  ghost predicate AllDigit(s: string, base: int) {
    forall i :: 0 <= i < |s| ==> DigitValue(s[i], base) >= 0
  }

  /** Reading stops at the first character that is no digit. */
  lemma {:induction false} DigitsEnd(s: string, base: int) returns (n: int)
    ensures 0 <= n <= |s| && AfterDigits(s, base) == s[n..] && AllDigit(s[..n], base)
    ensures n < |s| ==> DigitValue(s[n], base) < 0
    ensures forall v :: Value(s, base, v) == Value(s[..n], base, v)
  {
    if s != [] && DigitValue(s[0], base) >= 0 {
      n := DigitsEnd(s[1..], base);
      assert s[1..][n..] == s[n + 1..];
      assert s[..n + 1][1..] == s[1..][..n];
      forall i | 0 <= i < n + 1 ensures DigitValue(s[i], base) >= 0 { assert i > 0 ==> s[i] == s[1..][..n][i - 1]; }
      n := n + 1;
    } else {
      n := 0;
      assert s[..0] == [];
    }
  }

  /** One digit more: what is before it counts base times. */
  lemma {:induction false} ValueMore(s: string, c: char, base: int, v: int)
    requires AllDigit(s, base) && DigitValue(c, base) >= 0
    ensures Value(s + [c], base, v) == Value(s, base, v) * base + DigitValue(c, base)
  {
    if s == [] {
      assert [] + [c] == [c] && [c][1..] == [];
    } else {
      assert (s + [c])[1..] == s[1..] + [c];
      ValueMore(s[1..], c, base, v * base + DigitValue(s[0], base));
    }
  }

  /** Base 0: a number is hexadecimal after 0x, otherwise octal when it begins with a 0, otherwise decimal. */
  lemma BaseZero(s: string)
    ensures var hex := |s| >= 2 && (s[..2] == "0x" || s[..2] == "0X");
      Magnitude(s, 0) == if hex then Value(s[2..], 16, 0) else Value(s, if s != [] && s[0] == '0' then 8 else 10, 0)
  {
    if |s| >= 2 {
      assert s[..2] == [s[0], s[1]];
      assert "0x"[0] == '0' && "0x"[1] == 'x' && "0X"[0] == '0' && "0X"[1] == 'X';
    }
  }

  /** Twelve in three ways. */
  lemma Twelve()
    ensures LongOf("12", 0) == LongOf("014", 0) == LongOf("0xc", 0) == 12
  {
    assert "12"[1..] == "2" && "014"[1..] == "14" && "14"[1..] == "4" && "0xc"[2..] == "c";
  }

  lemma WrapStep(v: int, base: int, d: int)
    ensures Wrap(Wrap(v) * base + d) == Wrap(v * base + d)
  {
    var q := v / WORD;
    assert v == q * WORD + Wrap(v);
    assert v * base + d == (q * base) * WORD + (Wrap(v) * base + d);
    WrapPlus(Wrap(v) * base + d, q * base);
  }

  lemma WrapPlus(x: int, k: int)
    ensures Wrap(k * WORD + x) == Wrap(x)
  {
  }

  /** Skips the white space of s from p on. */
  method SkipSpace(s: string) returns (p: int)
    ensures 0 <= p <= |s| && s[p..] == Strip(s)
  {
    p := 0;
    while p < |s| && IsSpace(s[p])
      invariant 0 <= p <= |s| && Strip(s[p..]) == Strip(s)
    {
      assert s[p..][1..] == s[p + 1..];
      p := p + 1;
    }
  }

  /** The loop over the digits, in 32-bit words; it stops at the end of the text. */
  method ReadDigits(s: string, p0: int, base: int) returns (v: int, p: int)
    requires 0 <= p0 <= |s|
    ensures v == Wrap(Value(s[p0..], base, 0)) && p0 <= p <= |s| && s[p..] == AfterDigits(s[p0..], base)
  {
    ghost var exact := 0;
    v, p := 0, p0;
    while p < |s| && DigitValue(s[p], base) >= 0
      invariant p0 <= p <= |s| && v == Wrap(exact)
      invariant Value(s[p..], base, exact) == Value(s[p0..], base, 0)
      invariant AfterDigits(s[p..], base) == AfterDigits(s[p0..], base)
    {
      assert s[p..][1..] == s[p + 1..];
      WrapStep(exact, base, DigitValue(s[p], base));
      v := Wrap(v * base + DigitValue(s[p], base));
      exact := exact * base + DigitValue(s[p], base);
      p := p + 1;
    }
  }

  /** The base and the place of the first digit. */
  method ReadBase(s: string, p0: int, base0: int) returns (p: int, base: int)
    requires 0 <= p0 <= |s|
    ensures p0 <= p <= |s| && s[p..] == FromDigits(s[p0..], base0) && base == ActualBase(s[p0..], base0)
  {
    p, base := p0, base0;
    if (base == 16 || base == 0) && p + 1 < |s| && s[p] == '0' && (s[p + 1] == 'x' || s[p + 1] == 'X') {
      p, base := p + 2, 16;
    }
    if base == 0 {
      base := if p < |s| && s[p] == '0' then 8 else 10;
    }
  }

  /** `strtol`; out_p is where reading stopped. */
  method Strtol(s: string, base: int) returns (r: int, out_p: int)
    ensures r == LongOf(s, base)
    ensures 0 <= out_p <= |s|
    ensures var t := AfterSign(Strip(s)); s[out_p..] == AfterDigits(FromDigits(t, base), ActualBase(t, base))
  {
    var p := SkipSpace(s);
    var is_neg := false;
    if p < |s| && s[p] == '-' {
      is_neg, p := true, p + 1;
    }
    assert s[p..] == AfterSign(Strip(s));
    var actual;
    p, actual := ReadBase(s, p, base);
    r, out_p := ReadDigits(s, p, actual);
    ghost var m := Magnitude(AfterSign(Strip(s)), base);
    WrapStep(m, -1, 0);
    WrapStep(m, 1, 0);
    r := Signed(if is_neg then -r else r);
  }

  /** `strtoul` */
  method Strtoul(s: string, base: int) returns (r: int, out_p: int)
    ensures r == UnsignedOf(s, base)
    ensures 0 <= out_p <= |s|
    ensures var t := Strip(s); s[out_p..] == AfterDigits(FromDigits(t, base), ActualBase(t, base))
  {
    var p := SkipSpace(s);
    var actual;
    p, actual := ReadBase(s, p, base);
    r, out_p := ReadDigits(s, p, actual);
  }
}
