/** Characters, digits and numerals shared by the formatting and parsing functions of the
    C library. A string ends at its length or at a NUL, whichever comes first. */
module Text {

  const NUL: char := '\0'

  function At(s: string, i: nat): char
  {
    if i < |s| then s[i] else NUL
  }

  predicate IsSpace(c: char)
  {
    c == ' ' || c == '\n' || c == '\r' || c == '\t' || c as int == 11 || c as int == 12
  }

  /** White space: tab, line feed, vertical tab, form feed, carriage return and blank. */
  lemma SpaceMeans(c: char)
    ensures IsSpace(c) <==> 9 <= c as int <= 13 || c as int == 32
  {
  }

  predicate IsDigit(c: char)
  {
    '0' <= c <= '9'
  }

  /** The value of c as a digit of the given base, -1 if it is none. */
  function DigitOf(c: char, base: int): int
  {
    if '0' <= c <= '9' && c as int - '0' as int < base then c as int - '0' as int
    else if 'a' <= c <= 'z' && c as int - 'a' as int + 10 < base then c as int - 'a' as int + 10
    else if 'A' <= c <= 'Z' && c as int - 'A' as int + 10 < base then c as int - 'A' as int + 10
    else -1
  }

  const DIGITS: string := "0123456789abcdef"

  /** The numeral of u: no leading zero, but "0" for zero. */
  function Digits(u: nat, base: nat): (s: string)
    requires 2 <= base <= 16
    ensures |s| > 0
  {
    if u < base then [DIGITS[u]] else
      DivMod(u, base);
      Digits(u / base, base) + [DIGITS[u % base]]
  }

  predicate AllDigits(s: string, base: int)
  {
    forall i :: 0 <= i < |s| ==> DigitOf(s[i], base) >= 0
  }

  /** What a string of digits denotes, most significant first. */
  function Denotes(s: string, base: int): int
  {
    if s == "" then 0 else Denotes(s[..|s| - 1], base) * base + DigitOf(s[|s| - 1], base)
  }

  /** How many digits s starts with. */
  function SpanDigits(s: string, base: int): (n: nat)
    ensures n <= |s| && AllDigits(s[..n], base) && DigitOf(At(s, n), base) < 0
  {
    if s == "" || DigitOf(s[0], base) < 0 then 0 else
      var n := SpanDigits(s[1..], base);
      assert s[..n + 1] == [s[0]] + s[1..][..n];
      n + 1
  }

  /** How many white-space characters s starts with. */
  function SpanSpaces(s: string): (n: nat)
    ensures n <= |s| && (forall i :: 0 <= i < n ==> IsSpace(s[i])) && !IsSpace(At(s, n))
  {
    if s == "" || !IsSpace(s[0]) then 0 else 1 + SpanSpaces(s[1..])
  }

  function Repeat(c: char, n: int): (s: string)
    ensures |s| == if n < 0 then 0 else n
    ensures forall i :: 0 <= i < |s| ==> s[i] == c
  {
    if n <= 0 then "" else [c] + Repeat(c, n - 1)
  }

  lemma DigitChar(v: nat, base: nat)
    requires v < base <= 16
    ensures DigitOf(DIGITS[v], base) == v && DIGITS[v] != 'x' && DIGITS[v] != 'X' && DIGITS[v] != '-' && DIGITS[v] != '+'
    ensures v > 0 ==> DIGITS[v] != '0'
    ensures !IsSpace(DIGITS[v])
  {
  }

  lemma {:induction false} DigitsAreDigits(u: nat, base: nat)
    requires 2 <= base <= 16
    ensures forall c :: c in Digits(u, base) ==>
      DigitOf(c, base) >= 0 && c != 'x' && c != 'X' && c != '-' && c != '+' && !IsSpace(c)
    ensures u > 0 ==> Digits(u, base)[0] != '0'
  {
    if u < base {
      DigitChar(u, base);
    } else {
      DigitsAreDigits(u / base, base);
      DigitChar(u % base, base);
    }
  }

  lemma {:induction false} ZerosDenoteZero(n: int, base: nat)
    requires base >= 1
    ensures Denotes(Repeat('0', n), base) == 0 && AllDigits(Repeat('0', n), base)
  {
    if n > 0 {
      var z := Repeat('0', n);
      assert z[..|z| - 1] == Repeat('0', n - 1) by {
        assert forall i :: 0 <= i < n - 1 ==> z[i] == Repeat('0', n - 1)[i];
      }
      ZerosDenoteZero(n - 1, base);
    }
  }

  lemma DenotesSnoc(s: string, c: char, base: int)
    ensures Denotes(s + [c], base) == Denotes(s, base) * base + DigitOf(c, base)
  {
    assert (s + [c])[..|s|] == s;
  }

  lemma DivMod(u: nat, base: nat)
    requires base > 0
    ensures u / base * base + u % base == u
    ensures base > 1 && u > 0 ==> u / base < u
  {
    var q := u / base;
    assert q * base + u % base == u;
    if base > 1 { MulAtLeastTwice(q, base); }
  }

  lemma MulAtLeastTwice(q: nat, base: nat)
    requires base > 1
    ensures q * base >= 2 * q
  {
    assert q * base == 2 * q + q * (base - 2);
  }

  function Pow(b: nat, n: nat): nat
  {
    if n == 0 then 1 else b * Pow(b, n - 1)
  }

  lemma {:induction false} PowGrows(a: nat, b: nat, n: nat)
    requires a <= b
    ensures Pow(a, n) <= Pow(b, n)
  {
    if n > 0 {
      PowGrows(a, b, n - 1);
      MulGrows(a, b, Pow(a, n - 1), Pow(b, n - 1));
    }
  }

  lemma MulGrows(a: nat, b: nat, x: nat, y: nat)
    requires a <= b && x <= y
    ensures a * x <= b * y
  {
    assert b * y == a * x + a * (y - x) + (b - a) * y;
  }

  lemma QuotientFits(u: nat, base: nat, n: nat)
    requires base >= 2 && u < Pow(base, n + 1)
    ensures u / base < Pow(base, n)
  {
    DivMod(u, base);
    if u / base >= Pow(base, n) {
      MulGrows(base, base, Pow(base, n), u / base);
    }
  }

  lemma SmallQuotient(u: nat, base: nat)
    requires base > 0
    ensures u / base == 0 <==> u < base
    ensures u < base ==> u % base == u
  {
    DivMod(u, base);
    if u / base > 0 && u < base {
      MulGrows(1, u / base, base, base);
    }
  }

  /** Appending the digit for v. */
  lemma AppendDigit(s: string, v: nat, base: nat)
    requires v < base <= 16
    ensures Denotes(s + [DIGITS[v]], base) == Denotes(s, base) * base + v
  {
    DenotesSnoc(s, DIGITS[v], base);
    DigitChar(v, base);
  }

  /** Reading a numeral back gives the number, also behind leading zeros. */
  lemma {:induction false} DigitsDenote(z: string, u: nat, base: nat)
    requires 2 <= base <= 16 && Denotes(z, base) == 0
    ensures Denotes(z + Digits(u, base), base) == u
  {
    if u < base {
      AppendDigit(z, u, base);
    } else {
      DivMod(u, base);
      var q: nat, v: nat := u / base, u % base;
      var d, c := Digits(q, base), [DIGITS[v]];
      assert Denotes(z + d, base) == q by { DigitsDenote(z, q, base); }
      assert Denotes((z + d) + c, base) == q * base + v by { AppendDigit(z + d, v, base); }
      assert q * base + v == u;
      assert (z + d) + c == z + (d + c);
    }
  }

  /** A run of digits followed by something else. */
  lemma {:induction false} SpanExactly(d: string, rest: string, base: int)
    requires AllDigits(d, base) && DigitOf(At(rest, 0), base) < 0
    ensures SpanDigits(d + rest, base) == |d|
  {
    if d == "" {
      assert d + rest == rest;
    } else {
      assert (d + rest)[1..] == d[1..] + rest;
      SpanExactly(d[1..], rest, base);
    }
  }

  lemma {:induction false} SpanSpacesExactly(d: string, rest: string)
    requires (forall i :: 0 <= i < |d| ==> IsSpace(d[i])) && !IsSpace(At(rest, 0))
    ensures SpanSpaces(d + rest) == |d|
  {
    if d == "" {
      assert d + rest == rest;
    } else {
      assert (d + rest)[1..] == d[1..] + rest;
      SpanSpacesExactly(d[1..], rest);
    }
  }

  /** A 32-bit long holds x reduced to the range from -2^31 to 2^31 - 1. */
  function Long(x: int): (y: int)
    ensures -0x8000_0000 <= y < 0x8000_0000
    ensures -0x8000_0000 <= x < 0x8000_0000 ==> y == x
  {
    (x + 0x8000_0000) % 0x1_0000_0000 - 0x8000_0000
  }

  function ULong(x: int): (y: nat)
    ensures y < 0x1_0000_0000
    ensures 0 <= x < 0x1_0000_0000 ==> y == x
  {
    x % 0x1_0000_0000
  }

  lemma LongShift(x: int, k: int)
    ensures Long(x + k * 0x1_0000_0000) == Long(x)
    ensures ULong(x + k * 0x1_0000_0000) == ULong(x)
  {
  }

  /** Reducing early does not change the reduced result of one step of a digit loop. */
  lemma LongStep(a: int, b: int, d: int)
    ensures Long(Long(a) * b + d) == Long(a * b + d)
    ensures ULong(ULong(a) * b + d) == ULong(a * b + d)
  {
    var k := (a + 0x8000_0000) / 0x1_0000_0000;
    assert Long(a) == a - k * 0x1_0000_0000;
    assert Long(a) * b + d == (a * b + d) + (-k * b) * 0x1_0000_0000;
    LongShift(a * b + d, -k * b);
    var h := a / 0x1_0000_0000;
    assert ULong(a) == a - h * 0x1_0000_0000;
    assert ULong(a) * b + d == (a * b + d) + (-h * b) * 0x1_0000_0000;
    LongShift(a * b + d, -h * b);
  }

  lemma LongNegate(a: int)
    ensures Long(-Long(a)) == Long(-a)
  {
    var k := (a + 0x8000_0000) / 0x1_0000_0000;
    LongShift(-a, k);
  }
}
