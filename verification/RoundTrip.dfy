/** What is printed reads back as the number it was. */
module RoundTrip {
  import opened Words
  import opened Numerals
  import opened Parsing

  lemma {:induction false} DigitsBack(u: nat, base: int, upcase: bool, t: string)
    requires 2 <= base <= 16
    ensures Value(Digits(u, base, upcase) + t, base, 0) == Value(t, base, u)
    decreases u
  {
    Shrinks(u, base);
    var d := DigitChar(u % base, upcase);
    DigitRead(u % base, base, upcase);
    var front := if u / base == 0 then [] else Digits(u / base, base, upcase);
    assert Digits(u, base, upcase) + t == front + ([d] + t);
    if u / base != 0 {
      DigitsBack(u / base, base, upcase, [d] + t);
    } else {
      assert front + ([d] + t) == [d] + t;
    }
    assert ([d] + t)[1..] == t;
  }

  lemma {:induction false} ZerosBack(n: int, s: string, base: int)
    requires base >= 2
    ensures Value(Copies('0', n) + s, base, 0) == Value(s, base, 0)
  {
    if n > 0 {
      assert Copies('0', n) + s == Copies('0', n - 1) + (['0'] + s);
      ZerosBack(n - 1, ['0'] + s, base);
      assert (['0'] + s)[1..] == s;
    } else {
      assert Copies('0', n) + s == s;
    }
  }

  lemma {:induction false} BlanksStripped(n: int, s: string)
    ensures Strip(Copies(' ', n) + s) == Strip(s)
  {
    if n > 0 {
      assert Copies(' ', n) + s == Copies(' ', n - 1) + ([' '] + s);
      BlanksStripped(n - 1, [' '] + s);
      assert ([' '] + s)[1..] == s;
    } else {
      assert Copies(' ', n) + s == s;
    }
  }

  /** Zeros, digits and blanks, in that order. */
  function Body(z: int, u: nat, base: int, upcase: bool, b: int): string
    requires 2 <= base <= 16
  {
    Copies('0', z) + Digits(u, base, upcase) + Copies(' ', b)
  }

  lemma BodyBack(z: int, u: nat, base: int, upcase: bool, b: int)
    requires 2 <= base <= 16
    ensures var s := Body(z, u, base, upcase, b);
      Value(s, base, 0) == u && s != [] && DigitValue(s[0], base) >= 0 && !HexPrefix(s)
  {
    var s, digits, blanks := Body(z, u, base, upcase, b), Digits(u, base, upcase), Copies(' ', b);
    assert s == Copies('0', z) + (digits + blanks);
    ZerosBack(z, digits + blanks, base);
    DigitsBack(u, base, upcase, blanks);
    forall i | 0 <= i < |s| ensures DigitValue(s[i], base) >= 0 || s[i] == ' ' {
      if 0 <= i - |Copies('0', z)| < |digits| { AllDigits(u, base, upcase, i - |Copies('0', z)|); }
    }
    if z <= 0 { AllDigits(u, base, upcase, 0); }
  }

  lemma Regrouped(a: string, sign: string, prefix: string, zeros: string, digits: string, b: string)
    ensures a + sign + prefix + zeros + digits + b == a + (sign + (prefix + (zeros + digits + b)))
  {
  }

  function If(c: bool, n: int): int {
    if c then n else 0
  }

  /** How a printed text begins, and what follows. */
  lemma Shape(sign_char: char, u: nat, base: int, upcase: bool, f: Flags, width: int) returns (a: int, z: int, b: int)
    requires 2 <= base <= 16
    ensures Rendered(sign_char, u, base, upcase, f, width)
      == Copies(' ', a) + (SignOf(sign_char) + (Prefix(u, base, f.altfmt) + Body(z, u, base, upcase, b)))
    ensures f.zero ==> a == b == 0
  {
    hide Copies, Digits, Prefix, SignOf;
    var sign, prefix, digits := SignOf(sign_char), Prefix(u, base, f.altfmt), Digits(u, base, upcase);
    var pad := width - |sign| - |prefix| - |digits|;
    a, z, b := If(!f.zero && !f.ladjust, pad), If(f.zero, pad), If(!f.zero && f.ladjust, pad);
    assert Copies(' ', 0) == [] && Copies('0', 0) == [];
    Regrouped(Copies(' ', a), sign, prefix, Copies('0', z), digits, Copies(' ', b));
  }

  lemma Stripped(s: string, base: int)
    requires s != [] && DigitValue(s[0], base) >= 0
    ensures Strip(s) == s && AfterSign(s) == s && s[0] != '-' && s[0] != '+'
  {
  }

  lemma LongFrom(s: string, sign_char: char, body: string, u: int)
    requires sign_char == '\0' || sign_char == ' ' || sign_char == '+' || sign_char == '-'
    requires Strip(s) == Strip(SignOf(sign_char) + body) && body != [] && DigitValue(body[0], 10) >= 0
    requires 0 <= Value(body, 10, 0) == u && u < 0x8000_0000 + (if sign_char == '-' then 1 else 0)
    ensures LongOf(s, 10) == if sign_char == '+' then 0 else if sign_char == '-' then -u else u
  {
    SignRead(sign_char, body);
  }

  /** A signed decimal reads back, whatever the width and the flags, unless a plus sign was printed before it: `strtol`
      stops at a plus sign. */
  lemma SignedBack(n: int, f: Flags, width: int)
    requires -0x8000_0000 <= n < 0x8000_0000 && (f.plus == '\0' || f.plus == ' ' || f.plus == '+')
    ensures var sign_char := if n < 0 then '-' else f.plus;
      var text := Rendered(sign_char, if n < 0 then -n else n, 10, false, f, width);
      LongOf(text, 10) == n <==> !(sign_char == '+' && n > 0)
  {
    var sign_char, u := if n < 0 then '-' else f.plus, if n < 0 then -n else n;
    var out := Rendered(sign_char, u, 10, false, f, width);
    var a, z, b := Shape(sign_char, u, 10, false, f, width);
    var body := Body(z, u, 10, false, b);
    assert Prefix(u, 10, f.altfmt) + body == body;
    BodyBack(z, u, 10, false, b);
    BlanksStripped(a, SignOf(sign_char) + body);
    LongFrom(out, sign_char, body, u);
  }

  lemma SignRead(sign_char: char, body: string)
    requires sign_char == '\0' || sign_char == ' ' || sign_char == '+' || sign_char == '-'
    requires body != [] && DigitValue(body[0], 10) >= 0
    ensures var t := Strip(SignOf(sign_char) + body);
      && (sign_char == '-' ==> t != [] && t[0] == '-' && AfterSign(t) == body)
      && (sign_char == '+' ==> t != [] && t[0] == '+' && AfterSign(t) == t && Value(t, 10, 0) == 0)
      && (sign_char == '\0' || sign_char == ' ' ==> t == body && AfterSign(t) == body)
  {
    Stripped(body, 10);
    var s := SignOf(sign_char) + body;
    if sign_char == '\0' {
      assert s == body;
    } else {
      assert s[1..] == body;
    }
  }

  lemma UnsignedPlain(s: string, rest: string, base: int, u: nat)
    requires Strip(s) == rest && !HexPrefix(rest) && Value(rest, base, 0) == u < WORD && base != 0
    ensures UnsignedOf(s, base) == u
  {
  }

  lemma UnsignedHex(s: string, rest: string, u: nat)
    requires Strip(s) == ['0', 'x'] + rest && Value(rest, 16, 0) == u < WORD
    ensures UnsignedOf(s, 16) == u
  {
    assert (['0', 'x'] + rest)[2..] == rest;
  }

  lemma ZeroFirst(s: string, base: int)
    requires base >= 2
    ensures Strip(['0'] + s) == ['0'] + s && Value(['0'] + s, base, 0) == Value(s, base, 0)
  {
    assert (['0'] + s)[1..] == s;
  }

  /** An octal prefix and digits do not look like a hexadecimal prefix. */
  lemma NoHexPrefix(body: string)
    requires body != [] && DigitValue(body[0], 16) >= 0
    ensures !HexPrefix(['0'] + body)
  {
  }

  lemma PrefixOf(u: nat, base: int, altfmt: bool)
    requires base == 8 || base == 16
    ensures Prefix(u, base, altfmt) == if u == 0 || !altfmt then [] else if base == 8 then ['0'] else ['0', 'x']
  {
  }

  /** An octal or hexadecimal number reads back, with or without its prefix. */
  lemma UnsignedBack(u: nat, base: int, upcase: bool, f: Flags, width: int)
    requires u < WORD && (base == 8 || base == 16)
    ensures UnsignedOf(Rendered('\0', u, base, upcase, f, width), base) == u
  {
    hide Rendered, Body, Value, Strip, HexPrefix, Prefix, UnsignedOf, Digits, Copies;
    var out := Rendered('\0', u, base, upcase, f, width);
    var a, z, b := Shape('\0', u, base, upcase, f, width);
    var prefix, body := Prefix(u, base, f.altfmt), Body(z, u, base, upcase, b);
    var rest := SignOf('\0') + (prefix + body);
    assert rest == prefix + body;
    BlanksStripped(a, rest);
    BodyBack(z, u, base, upcase, b);
    Stripped(body, base);
    PrefixOf(u, base, f.altfmt);
    if prefix == [] {
      assert rest == body;
      UnsignedPlain(out, rest, base, u);
    } else if base == 8 {
      ZeroFirst(body, base);
      NoHexPrefix(body);
      UnsignedPlain(out, rest, base, u);
    } else {
      ZeroFirst(['x'] + body, base);
      assert rest == ['0'] + (['x'] + body);
      UnsignedHex(out, body, u);
    }
  }

  lemma StopsAtX(body: string)
    ensures Value(['0', 'x'] + body, 16, 0) == 0
  {
    var s := ['0', 'x'] + body;
    assert s[1..] == ['x'] + body;
    assert Value(s, 16, 0) == Value(s[1..], 16, 0);
  }

  /** `%p`: eight digits after a prefix of its own, which reads back unless `#` adds another prefix. */
  lemma PointerBack(u: nat, f: Flags)
    requires u < WORD
    ensures UnsignedOf("0x" + Rendered('\0', u, 16, false, f.(zero := true), 8), 16) == u <==> !(f.altfmt && u != 0)
  {
    hide Rendered, Body, Value, Strip, HexPrefix, Prefix, UnsignedOf, Digits;
    var out := Rendered('\0', u, 16, false, f.(zero := true), 8);
    var a, z, b := Shape('\0', u, 16, false, f.(zero := true), 8);
    var body := Body(z, u, 16, false, b);
    assert Copies(' ', a) == [] && SignOf('\0') == [];
    PrefixOf(u, 16, f.altfmt);
    BodyBack(z, u, 16, false, b);
    var text := "0x" + out;
    ZeroFirst(['x'] + out, 16);
    assert text == ['0'] + (['x'] + out) && text == ['0', 'x'] + out;
    if f.altfmt && u != 0 {
      assert out == ['0', 'x'] + body;
      StopsAtX(body);
      UnsignedHex(text, out, 0);
    } else {
      assert out == body;
      UnsignedHex(text, out, u);
    }
  }

  /** The number 7 printed with a plus sign reads back as something else, and so does the pointer 0x7 with two
      prefixes. */
  lemma SevenLost()
    ensures LongOf(Rendered('+', 7, 10, false, Flags(false, false, false, '+'), 0), 10) != 7
    ensures UnsignedOf("0x" + Rendered('\0', 7, 16, false, Flags(true, false, true, '\0'), 8), 16) != 7
  {
    SignedBack(7, Flags(false, false, false, '+'), 0);
    PointerBack(7, Flags(true, false, true, '\0'));
  }
}
