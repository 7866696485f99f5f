/** strtol and strtoul (tasks/libc/stdlib). */
module Strtol {
  import opened Text

  /** The value returned, and the index that out_p points to. */
  datatype Parsed = Parsed(value: int, end: nat)

  /** Where the digits start and in which base they are read, once spaces and sign are gone. */
  function Prefix(p: string, i: nat, base: int): (r: (nat, int))
    requires i <= |p|
    ensures i <= r.0 <= |p|
  {
    if (base == 16 || base == 0) && At(p, i) == '0' && (At(p, i + 1) == 'x' || At(p, i + 1) == 'X') then (i + 2, 16)
    else if base != 0 then (i, base)
    else (i, if At(p, i) == '0' then 8 else 10)
  }

  /** The end of the numeral that starts at i, and what it denotes. */
  function Numeral(p: string, i: nat, base: int): (r: Parsed)
    requires i <= |p|
    ensures i <= r.end <= |p|
  {
    var (j, b) := Prefix(p, i, base);
    var n := SpanDigits(p[j..], b);
    Parsed(Denotes(p[j..j + n], b), j + n)
  }

  function Signed(r: Parsed, isNeg: bool): Parsed
  {
    Parsed(Long(if isNeg then -r.value else r.value), r.end)
  }

  /** A '-' is skipped and negates. A '+' is recognised but not skipped. */
  function ParseLong(p: string, base: int): Parsed
  {
    var i := SpanSpaces(p);
    if At(p, i) == '-' then Signed(Numeral(p, i + 1, base), true) else Signed(Numeral(p, i, base), false)
  }

  function ParseULong(p: string, base: int): Parsed
  {
    var r := Numeral(p, SpanSpaces(p), base); Parsed(ULong(r.value), r.end)
  }

  /** The loop that skips white space. */
  method SkipSpaces(p: string) returns (i: nat)
    ensures i == SpanSpaces(p)
  {
    i := 0;
    while IsSpace(At(p, i))
      invariant i <= |p| && i + SpanSpaces(p[i..]) == SpanSpaces(p)
      decreases |p| - i
    {
      assert p[i..][1..] == p[i + 1..];
      i := i + 1;
    }
  }

  /** The steps between the sign and the digits, the same in both functions. */
  method SkipPrefix(p: string, start: nat, base0: int) returns (i: nat, base: int)
    requires start <= |p|
    ensures (i, base) == Prefix(p, start, base0)
  {
    i, base := start, base0;
    if (base == 16 || base == 0) && At(p, i) == '0' && (At(p, i + 1) == 'x' || At(p, i + 1) == 'X') {
      i := i + 2;
      base := 16;
    }
    if base == 0 {
      if At(p, i) == '0' {
        base := 8;
      } else {
        base := 10;
      }
    }
  }

  /** The digit loop ends at the first character that is no digit. */
  lemma LoopEnd(p: string, j: nat, i: nat, base: int)
    requires j <= i <= |p| && AllDigits(p[j..i], base) && DigitOf(At(p, i), base) < 0
    ensures SpanDigits(p[j..], base) == i - j
  {
    assert p[j..] == p[j..i] + p[i..];
    SpanExactly(p[j..i], p[i..], base);
  }

  lemma LoopStep(p: string, j: nat, i: nat, base: int)
    requires j <= i < |p| && AllDigits(p[j..i], base) && DigitOf(p[i], base) >= 0
    ensures AllDigits(p[j..i + 1], base)
    ensures Denotes(p[j..i + 1], base) == Denotes(p[j..i], base) * base + DigitOf(p[i], base)
  {
    assert p[j..i + 1] == p[j..i] + [p[i]];
    DenotesSnoc(p[j..i], p[i], base);
  }

  /** The digit loop of strtol. */
  method ReadLong(p: string, j: nat, base: int) returns (v: int, i: nat)
    requires j <= |p|
    ensures i == j + SpanDigits(p[j..], base) && v == Long(Denotes(p[j..i], base))
  {
    v, i := 0, j;
    while DigitOf(At(p, i), base) >= 0
      invariant j <= i <= |p| && AllDigits(p[j..i], base) && v == Long(Denotes(p[j..i], base))
      decreases |p| - i
    {
      LoopStep(p, j, i, base);
      LongStep(Denotes(p[j..i], base), base, DigitOf(p[i], base));
      v := Long(v * base + DigitOf(p[i], base));
      i := i + 1;
    }
    LoopEnd(p, j, i, base);
  }

  /** strtol from line 37 on: everything after the sign. */
  method FinishLong(p: string, start: nat, base0: int, isNeg: bool) returns (v: int, outP: nat)
    requires start <= |p|
    ensures Parsed(v, outP) == Signed(Numeral(p, start, base0), isNeg)
  {
    var i, base := SkipPrefix(p, start, base0);
    v, outP := ReadLong(p, i, base);
    if isNeg {
      LongNegate(Denotes(p[i..outP], base));
      v := Long(-v);
    }
  }

  method Strtol(p: string, base0: int) returns (v: int, outP: nat)
    ensures Parsed(v, outP) == ParseLong(p, base0)
  {
    var isNeg := false;
    var i := SkipSpaces(p);
    if At(p, i) == '-' {
      isNeg := true;
      i := i + 1;
    } else if At(p, i) == '+' {
      isNeg := false;
    }
    v, outP := FinishLong(p, i, base0, isNeg);
  }

  /** The digit loop of strtoul. */
  method ReadULong(p: string, j: nat, base: int) returns (v: nat, i: nat)
    requires j <= |p|
    ensures i == j + SpanDigits(p[j..], base) && v == ULong(Denotes(p[j..i], base))
  {
    v, i := 0, j;
    while DigitOf(At(p, i), base) >= 0
      invariant j <= i <= |p| && AllDigits(p[j..i], base) && v == ULong(Denotes(p[j..i], base))
      decreases |p| - i
    {
      LoopStep(p, j, i, base);
      LongStep(Denotes(p[j..i], base), base, DigitOf(p[i], base));
      v := ULong(v * base + DigitOf(p[i], base));
      i := i + 1;
    }
    LoopEnd(p, j, i, base);
  }

  method Strtoul(p: string, base0: int) returns (v: nat, outP: nat)
    ensures Parsed(v, outP) == ParseULong(p, base0)
  {
    var i := SkipSpaces(p);
    var base;
    i, base := SkipPrefix(p, i, base0);
    v, outP := ReadULong(p, i, base);
  }

  // ---------- Numerals in context ----------

  lemma NumeralFrom(p: string, i: nat, base0: int, j: nat, base: int, d: string, rest: string)
    requires i <= |p| && Prefix(p, i, base0) == (j, base) && p[j..] == d + rest
    requires AllDigits(d, base) && DigitOf(At(rest, 0), base) < 0
    ensures Numeral(p, i, base0) == Parsed(Denotes(d, base), j + |d|)
  {
    SpanExactly(d, rest, base);
    assert p[j..j + |d|] == p[j..][..|d|] == d;
  }

  /** Digits at index i, then something else: what the functions find there. */
  lemma NumeralAt(p: string, i: nat, d: string, rest: string, base: int)
    requires i <= |p| && p[i..] == d + rest && base != 0
    requires AllDigits(d, base) && DigitOf(At(rest, 0), base) < 0
    requires base == 16 ==> At(p, i + 1) !in {'x', 'X'}
    ensures Numeral(p, i, base) == Parsed(Denotes(d, base), i + |d|)
  {
    NumeralFrom(p, i, base, i, base, d, rest);
  }

  lemma {:induction false} SpacesAt(p: string, i: nat)
    requires i <= |p| && (forall k :: 0 <= k < i ==> IsSpace(p[k])) && !IsSpace(At(p, i))
    ensures SpanSpaces(p) == i
  {
    if i > 0 {
      SpacesAt(p[1..], i - 1);
    }
  }

  /** Base 0 reads an octal numeral behind a zero that no 'x' follows. */
  lemma OctalAt(p: string, i: nat)
    requires i < |p| && p[i] == '0' && At(p, i + 1) !in {'x', 'X'}
    ensures Numeral(p, i, 0) == Numeral(p, i, 8)
  {
  }

  /** Bases 0 and 16 read a hexadecimal numeral behind "0x". */
  lemma HexAt(p: string, i: nat, d: string, rest: string, base: int)
    requires i + 2 <= |p| && p[i] == '0' && p[i + 1] == 'x' && p[i + 2..] == d + rest
    requires AllDigits(d, 16) && DigitOf(At(rest, 0), 16) < 0 && (base == 0 || base == 16)
    ensures Numeral(p, i, base) == Parsed(Denotes(d, 16), i + 2 + |d|)
  {
    assert Prefix(p, i, base) == (i + 2, 16);
    NumeralFrom(p, i, base, i + 2, 16, d, rest);
  }
}
