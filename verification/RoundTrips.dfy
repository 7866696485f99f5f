/** Printing a number with sprintf and reading it back with strtol or strtoul. */
module RoundTrips {
  import opened Text
  import opened Format
  import opened Strtol

  /** A field as blanks, sign, prefix, zeros, digits and blanks. */
  datatype Parts = Parts(front: string, zeros: string, back: string)

  function PartsOf(used: nat, left: bool, zero: bool, width: int): (p: Parts)
    ensures forall i :: 0 <= i < |p.front| ==> p.front[i] == ' '
    ensures forall i :: 0 <= i < |p.back| ==> p.back[i] == ' '
  {
    var pad := width - used;
    if zero then Parts("", Repeat('0', pad), "")
    else if left then Parts("", "", Repeat(' ', pad))
    else Parts(Repeat(' ', pad), "", "")
  }

  lemma FieldParts(sign: string, prefix: string, digits: string, left: bool, zero: bool, width: int)
    ensures var p := PartsOf(|digits| + |sign| + |prefix|, left, zero, width);
      Field(sign, prefix, digits, left, zero, width)
      == p.front + (sign + (prefix + ((p.zeros + digits) + p.back)))
  {
    var p := PartsOf(|digits| + |sign| + |prefix|, left, zero, width);
    if zero {
      assert sign + prefix + p.zeros + digits == p.front + (sign + (prefix + ((p.zeros + digits) + p.back)));
    } else if left {
      assert sign + prefix + digits + p.back == p.front + (sign + (prefix + ((p.zeros + digits) + p.back)));
    } else {
      assert p.front + sign + prefix + digits == p.front + (sign + (prefix + ((p.zeros + digits) + p.back)));
    }
  }

  lemma OtherCharacters(base: nat)
    requires base >= 1
    ensures DigitOf(' ', base) < 0 && DigitOf(NUL, base) < 0 && DigitOf('0', base) >= 0 && !IsSpace('0')
  {
  }

  /** Zeros and a numeral: all digits, with the value of the numeral, and no 'x' in second place. */
  lemma PaddedNumeral(zeros: string, u: nat, base: nat, back: string, n: int)
    requires 2 <= base <= 16 && zeros == Repeat('0', n)
    requires forall i :: 0 <= i < |back| ==> back[i] == ' '
    ensures var d := zeros + Digits(u, base);
      && AllDigits(d, base) && Denotes(d, base) == u && d != ""
      && (forall i :: 0 <= i < |d| ==> !IsSpace(d[i]) && d[i] != '-' && d[i] != '+')
      && DigitOf(At(back, 0), base) < 0 && At(d + back, 1) !in {'x', 'X'}
  {
    hide Digits, Denotes, Repeat, DigitOf, IsSpace;
    var d := zeros + Digits(u, base);
    OtherCharacters(base);
    ZerosDenoteZero(n, base);
    DigitsDenote(zeros, u, base);
    DigitsAreDigits(u, base);
    forall i | 0 <= i < |d|
      ensures DigitOf(d[i], base) >= 0 && !IsSpace(d[i]) && d[i] !in {'-', '+', 'x', 'X'}
    {
      if i >= |zeros| {
        assert d[i] == Digits(u, base)[i - |zeros|];
        assert Digits(u, base)[i - |zeros|] in Digits(u, base);
      }
    }
    assert At(d + back, 1) == if 1 < |d| then d[1] else At(back, 1 - |d|);
  }

  /** The parser returned n and stopped behind the digits, with only padding left. */
  predicate ReadsBack(r: Parsed, n: int, out: string, base: int)
  {
    && r.value == n && 0 < r.end <= |out| && DigitOf(out[r.end - 1], base) >= 0
    && forall i :: r.end <= i < |out| ==> out[i] == ' '
  }

  // ---------- %d and strtol ----------

  /** Blanks, then perhaps a minus sign, then digits: strtol finds them. */
  lemma ParseDigits(p: string, i: nat, negative: bool, j: nat, d: string, back: string)
    requires i <= |p| && (forall k :: 0 <= k < i ==> p[k] == ' ') && (negative <==> At(p, i) == '-')
    requires j == (if negative then i + 1 else i) && j <= |p| && p[j..] == d + back
    requires AllDigits(d, 10) && d != "" && DigitOf(At(back, 0), 10) < 0 && !IsSpace(d[0])
    ensures ParseLong(p, 10) == Signed(Parsed(Denotes(d, 10), j + |d|), negative)
  {
    assert p[j..][0] == d[0];
    SpacesAt(p, i);
    NumeralAt(p, j, d, back, 10);
  }

  /** A plus sign stops the parser where it stands. */
  lemma ParsePlus(p: string, i: nat)
    requires i < |p| && (forall k :: 0 <= k < i ==> p[k] == ' ') && p[i] == '+'
    ensures ParseLong(p, 10) == Parsed(0, i)
  {
    SpacesAt(p, i);
    assert p[i..] == "" + p[i..];
    NumeralAt(p, i, "", p[i..], 10);
  }

  lemma Suffixes(p: string, front: string, sign: string, rest: string)
    requires p == front + (sign + rest)
    ensures p[|front| + |sign|..] == rest && |p| == |front| + |sign| + |rest|
    ensures forall k :: 0 <= k < |front| ==> p[k] == front[k]
    ensures sign != "" ==> p[|front|] == sign[0]
    ensures sign == "" && rest != "" ==> p[|front|] == rest[0]
  {
  }

  /** Blanks, then a sign (NUL for none), then digits: strtol finds them unless the sign is a plus. */
  lemma ParseSigned(p: string, i: nat, sign: char, j: nat, d: string, back: string)
    requires d != "" && i < |p| && j == (if sign == NUL then i else i + 1)
    requires p[j..] == d + back && (forall k :: 0 <= k < i ==> p[k] == ' ')
    requires p[i] == (if sign == NUL then d[0] else sign) && sign in {NUL, '-', ' ', '+'}
    requires AllDigits(d, 10) && DigitOf(At(back, 0), 10) < 0 && !IsSpace(d[0]) && d[0] != '-'
    ensures ParseLong(p, 10) == if sign == '+' then Parsed(0, i)
      else Signed(Parsed(Denotes(d, 10), j + |d|), sign == '-')
  {
    if sign == '-' {
      ParseDigits(p, i, true, j, d, back);
    } else if sign == '+' {
      ParsePlus(p, i);
    } else {
      ParseBlank(p, i, sign, j, d, back);
    }
  }

  lemma ParseBlank(p: string, i: nat, sign: char, j: nat, d: string, back: string)
    requires d != "" && i < |p| && j == (if sign == NUL then i else i + 1)
    requires p[j..] == d + back && (forall k :: 0 <= k < i ==> p[k] == ' ')
    requires sign != NUL ==> p[i] == ' '
    requires AllDigits(d, 10) && DigitOf(At(back, 0), 10) < 0 && !IsSpace(d[0]) && d[0] != '-'
    ensures ParseLong(p, 10) == Signed(Parsed(Denotes(d, 10), j + |d|), false)
  {
    assert p[j..][0] == d[0];
    forall k | 0 <= k < j ensures p[k] == ' ' {
      assert k < i || (k == i && sign != NUL);
    }
    ParseDigits(p, j, false, j, d, back);
  }

  /** The field of a signed number, taken apart. */
  lemma SignedParts(n: int, f: Flags, zero: bool, width: int) returns (p: Parts, d: string, rest: string)
    ensures var sign, u := Sign(n < 0, f.plus), Magnitude(n);
      && Number(u, 10, sign, f, zero, width) == p.front + (sign + rest) && rest == d + p.back
      && AllDigits(d, 10) && Denotes(d, 10) == u && d != "" && !IsSpace(d[0]) && d[0] != '-'
      && DigitOf(At(p.back, 0), 10) < 0
      && (forall i :: 0 <= i < |p.front| ==> p.front[i] == ' ') && (forall i :: 0 <= i < |p.back| ==> p.back[i] == ' ')
  {
    hide Digits, Denotes, Field, DigitOf, Repeat, IsSpace, Number, PartsOf;
    var u, sign := Magnitude(n), Sign(n < 0, f.plus);
    var digits := Digits(u, 10);
    p := PartsOf(|digits| + |sign|, f.left, zero, width);
    d := p.zeros + digits;
    rest := d + p.back;
    DecimalField(u, sign, f, zero, width);
    FieldParts(sign, "", digits, f.left, zero, width);
    EmptyFront(rest);
    PartsZeros(|digits| + |sign|, f.left, zero, width);
    PaddedNumeral(p.zeros, u, 10, p.back, |p.zeros|);
  }

  lemma DecimalField(u: nat, sign: string, f: Flags, zero: bool, width: int)
    ensures Number(u, 10, sign, f, zero, width) == Field(sign, "", Digits(u, 10), f.left, zero, width)
  {
  }

  lemma PartsZeros(used: nat, left: bool, zero: bool, width: int)
    ensures var z := PartsOf(used, left, zero, width).zeros; z == Repeat('0', |z|)
  {
    RepeatLength('0', PartsOf(used, left, zero, width).zeros, width - used, zero);
  }

  lemma SignedField(n: int, f: Flags, zero: bool, width: int)
    requires -0x8000_0000 <= n < 0x8000_0000 && f.plus in {NUL, '+', ' '}
    ensures var out := Number(Magnitude(n), 10, Sign(n < 0, f.plus), f, zero, width);
      ReadsBack(ParseLong(out, 10), n, out, 10) <==> !(f.plus == '+' && n >= 0)
  {
    hide Number, Denotes, ParseLong, ReadsBack;
    var sign := Sign(n < 0, f.plus);
    var out := Number(Magnitude(n), 10, sign, f, zero, width);
    var p, d, rest := SignedParts(n, f, zero, width);
    Suffixes(out, p.front, sign, rest);
    assert rest[0] == d[0];
    var c := if n < 0 then '-' else f.plus;
    ParseSigned(out, |p.front|, c, |p.front| + |sign|, d, p.back);
    SignedEnds(p.front, sign, d, p.back, rest, n, out);
  }

  lemma RepeatLength(c: char, s: string, n: int, b: bool)
    requires s == if b then Repeat(c, n) else ""
    ensures s == Repeat(c, |s|)
  {
    if n < 0 { assert Repeat(c, n) == Repeat(c, 0); }
  }

  lemma SignedEnds(front: string, sign: string, d: string, back: string, rest: string, n: int, out: string)
    requires out == front + (sign + rest) && rest == d + back
    requires sign in {"", "-", " ", "+"} && AllDigits(d, 10) && d != ""
    requires -0x8000_0000 <= n < 0x8000_0000 && Denotes(d, 10) == Magnitude(n) && (sign == "-" <==> n < 0)
    requires forall i :: 0 <= i < |back| ==> back[i] == ' '
    requires ParseLong(out, 10) == if sign == "+" then Parsed(0, |front|)
      else Signed(Parsed(Denotes(d, 10), |front| + |sign| + |d|), sign == "-")
    ensures ReadsBack(ParseLong(out, 10), n, out, 10) <==> sign != "+"
  {
    hide Denotes, ParseLong;
    Suffixes(out, front, sign, rest);
    var j := |front| + |sign|;
    if sign != "+" {
      assert out[j + |d| - 1] == rest[|d| - 1] && DigitOf(d[|d| - 1], 10) >= 0;
      forall i | j + |d| <= i < |out| ensures out[i] == ' ' {
        assert out[i] == rest[i - j] && rest[i - j] == back[i - j - |d|];
      }
    }
  }

  lemma {:induction false} FlagsPlus(fmt: string, f: Flags)
    requires f.plus in {NUL, '+', ' '}
    ensures FlagsOf(fmt, f).0.plus in {NUL, '+', ' '}
    decreases |fmt|
  {
    var c := At(fmt, 0);
    if fmt != "" && IsFlag(c) {
      var f' := if c == '#' then f.(alt := true) else if c == '-' then f.(left := true)
        else if c == '+' then f.(plus := '+') else if f.plus == NUL then f.(plus := ' ') else f;
      FlagsPlus(fmt[1..], f');
    }
  }

  lemma DirectivePlus(fmt: string, args: seq<int>)
    ensures DirectiveOf(fmt, args).flags.plus in {NUL, '+', ' '}
  {
    FlagsPlus(fmt, NO_FLAGS);
    var (f0, r0) := FlagsOf(fmt, NO_FLAGS);
    var r1 := if At(r0, 0) == '0' then r0[1..] else r0;
    assert WidthOf(r1, f0, args).0.plus == f0.plus;
  }

  /** A format that is one directive prints what that directive prints. */
  lemma RenderOne(fmt: string, args: seq<int>)
    requires At(fmt, 0) == '%' && DirectiveOf(fmt[1..], args).rest == ""
    ensures Render(fmt, args) == Convert(DirectiveOf(fmt[1..], args)).0
  {
  }

  lemma ConvertSigned(d: Directive)
    requires d.conv in {'d', 'D'} && d.longs <= 1
    ensures Convert(d).0 ==
      Number(Magnitude(Long(Arg(d.args))), 10, Sign(Long(Arg(d.args)) < 0, d.flags.plus), d.flags, d.zero, d.width)
  {
  }

  /** For every int, and every %d directive with whatever flags, width and precision, strtol reads
      back what sprintf wrote, except that it stops at the '+' that a '+' flag puts in front of a
      number that is not negative. */
  lemma SprintfStrtol(fmt: string, args: seq<int>)
    requires At(fmt, 0) == '%'
    requires var d := DirectiveOf(fmt[1..], args); d.conv in {'d', 'D'} && d.longs <= 1 && d.rest == ""
    ensures var d := DirectiveOf(fmt[1..], args);
      var n, out := Long(Arg(d.args)), Render(fmt, args);
      ReadsBack(ParseLong(out, 10), n, out, 10) <==> !(d.flags.plus == '+' && n >= 0)
  {
    var d := DirectiveOf(fmt[1..], args);
    DirectivePlus(fmt[1..], args);
    RenderOne(fmt, args);
    ConvertSigned(d);
    SignedField(Long(Arg(d.args)), d.flags, d.zero, d.width);
  }

  // ---------- %x, %o, %u and strtoul ----------

  /** The base that strtoul is given suits the numeral: the same base, or base 0 for a numeral
      that the '#' flag has marked. */
  predicate Suits(base: nat, alt: bool, parseBase: int)
  {
    parseBase == base || (parseBase == 0 && alt && (base == 8 || base == 16))
  }

  lemma OneMoreZero(n: nat)
    ensures "0" + Repeat('0', n) == Repeat('0', n + 1)
  {
  }

  /** A numeral without prefix, and a lone zero, which never has one. */
  lemma ParsePlain(p: string, i: nat, zeros: string, u: nat, base: nat, back: string, parseBase: int)
    requires 2 <= base <= 16 && zeros == Repeat('0', |zeros|) && i <= |p|
    requires p[i..] == (zeros + Digits(u, base)) + back && forall k :: 0 <= k < |back| ==> back[k] == ' '
    requires parseBase == base || (parseBase == 0 && u == 0)
    ensures Numeral(p, i, parseBase) == Parsed(u, i + |zeros| + |Digits(u, base)|)
  {
    hide Numeral, Denotes, SpanDigits;
    var d := zeros + Digits(u, base);
    PaddedNumeral(zeros, u, base, back, |zeros|);
    assert At(p, i + 1) == At(d + back, 1) && At(p, i) == d[0] by {
      assert p[i..][0] == p[i];
    }
    if parseBase == base {
      NumeralAt(p, i, d, back, base);
    } else {
      assert d[0] == '0' by {
        if |zeros| == 0 { assert d[0] == Digits(0, base)[0]; } else { assert d[0] == zeros[0]; }
      }
      OctalAt(p, i);
      PaddedNumeral(zeros, 0, 8, back, |zeros|);
      assert Digits(0, 8) == Digits(0, base);
      NumeralAt(p, i, d, back, 8);
    }
  }

  /** An octal numeral with at least one zero in front. */
  lemma ParseOctal(p: string, i: nat, zeros: string, u: nat, back: string, parseBase: int)
    requires zeros == Repeat('0', |zeros|) && zeros != "" && i <= |p| && (parseBase == 0 || parseBase == 8)
    requires p[i..] == (zeros + Digits(u, 8)) + back && forall k :: 0 <= k < |back| ==> back[k] == ' '
    ensures Numeral(p, i, parseBase) == Parsed(u, i + |zeros| + |Digits(u, 8)|)
  {
    ParsePlain(p, i, zeros, u, 8, back, 8);
    if parseBase == 0 {
      var d := zeros + Digits(u, 8);
      PaddedNumeral(zeros, u, 8, back, |zeros|);
      assert At(p, i + 1) == At(d + back, 1) && p[i..][0] == d[0] == zeros[0];
      OctalAt(p, i);
    }
  }

  /** A hexadecimal numeral behind the prefix "0x". */
  lemma ParseHex(p: string, i: nat, zeros: string, u: nat, back: string, parseBase: int)
    requires zeros == Repeat('0', |zeros|) && i <= |p| && (parseBase == 0 || parseBase == 16)
    requires p[i..] == "0x" + ((zeros + Digits(u, 16)) + back) && forall k :: 0 <= k < |back| ==> back[k] == ' '
    ensures Numeral(p, i, parseBase) == Parsed(u, i + 2 + |zeros| + |Digits(u, 16)|)
  {
    PaddedNumeral(zeros, u, 16, back, |zeros|);
    assert p[i..][0] == '0' && p[i..][1] == 'x';
    assert p[i + 2..] == p[i..][2..] == (zeros + Digits(u, 16)) + back;
    HexAt(p, i, zeros + Digits(u, 16), back, parseBase);
  }

  lemma UnsignedEnd(out: string, i: nat, prefix: string, zeros: string, digits: string, back: string, u: nat, base: nat)
    requires i <= |out| && out[i..] == prefix + ((zeros + digits) + back) && digits != ""
    requires 2 <= base <= 16 && digits == Digits(u, base) && u < 0x1_0000_0000
    requires forall k :: 0 <= k < |back| ==> back[k] == ' '
    ensures ReadsBack(Parsed(u, i + |prefix| + |zeros| + |digits|), u, out, base)
  {
    var tail := out[i..];
    var e := |prefix| + |zeros| + |digits|;
    DigitsAreDigits(u, base);
    assert out[i + e - 1] == tail[e - 1] == digits[|digits| - 1];
    assert digits[|digits| - 1] in digits;
    forall k | i + e <= k < |out| ensures out[k] == ' ' {
      assert out[k] == tail[k - i] == back[k - i - e];
    }
  }

  lemma UnsignedStart(out: string, front: string, tail: string)
    requires out == front + tail && tail != "" && !IsSpace(tail[0])
    requires forall i :: 0 <= i < |front| ==> front[i] == ' '
    ensures SpanSpaces(out) == |front| && out[|front|..] == tail
  {
    SpacesAt(out, |front|);
  }

  lemma EmptyFront(s: string)
    ensures "" + s == s
  {
  }

  lemma JoinFront(a: string, b: string, c: string, d: string)
    ensures a + ((b + c) + d) == ((a + b) + c) + d
  {
  }

  lemma TailStart(prefix: string, d: string, back: string)
    requires d != "" && !IsSpace(d[0]) && (prefix == "" || prefix[0] == '0')
    ensures var tail := prefix + (d + back); tail != "" && !IsSpace(tail[0])
  {
    var tail := prefix + (d + back);
    assert tail[0] == if prefix == "" then d[0] else prefix[0];
  }

  lemma PrefixStart(u: nat, base: nat, alt: bool)
    ensures var prefix := BasePrefix(u, base, alt); prefix == "" || prefix[0] == '0'
  {
  }

  /** The field of an unsigned number, taken apart. */
  lemma UnsignedParts(u: nat, base: nat, prefix: string, f: Flags, zero: bool, width: int) returns (p: Parts, tail: string)
    requires 2 <= base <= 16 && prefix == BasePrefix(u, base, f.alt)
    ensures Number(u, base, "", f, zero, width) == p.front + tail
    ensures tail == prefix + ((p.zeros + Digits(u, base)) + p.back)
    ensures p.zeros == Repeat('0', |p.zeros|) && tail != "" && !IsSpace(tail[0])
    ensures (forall i :: 0 <= i < |p.front| ==> p.front[i] == ' ') && (forall i :: 0 <= i < |p.back| ==> p.back[i] == ' ')
  {
    hide Digits, Denotes, Field, DigitOf, Repeat, IsSpace, PartsOf, BasePrefix;
    var digits := Digits(u, base);
    p := PartsOf(|digits| + |prefix|, f.left, zero, width);
    tail := prefix + ((p.zeros + digits) + p.back);
    FieldParts("", prefix, digits, f.left, zero, width);
    EmptyFront(tail);
    PartsZeros(|digits| + |prefix|, f.left, zero, width);
    PaddedNumeral(p.zeros, u, base, p.back, |p.zeros|);
    PrefixStart(u, base, f.alt);
    TailStart(prefix, p.zeros + digits, p.back);
  }

  /** What strtoul finds behind the blanks, case by case of the prefix. */
  lemma ParseTail(out: string, i: nat, prefix: string, zeros: string, u: nat, base: nat, alt: bool, back: string, parseBase: int)
    requires (base == 8 || base == 10 || base == 16) && Suits(base, alt, parseBase) && i <= |out|
    requires prefix == BasePrefix(u, base, alt) && zeros == Repeat('0', |zeros|)
    requires out[i..] == prefix + ((zeros + Digits(u, base)) + back)
    requires forall k :: 0 <= k < |back| ==> back[k] == ' '
    ensures Numeral(out, i, parseBase) == Parsed(u, i + |prefix| + |zeros| + |Digits(u, base)|)
  {
    if prefix == "" {
      EmptyFront((zeros + Digits(u, base)) + back);
      ParsePlain(out, i, zeros, u, base, back, parseBase);
    } else if base == 8 {
      OneMoreZero(|zeros|);
      JoinFront(prefix, zeros, Digits(u, base), back);
      ParseOctal(out, i, prefix + zeros, u, back, parseBase);
    } else {
      ParseHex(out, i, zeros, u, back, parseBase);
    }
  }

  lemma UnsignedField(u: nat, base: nat, f: Flags, zero: bool, width: int, parseBase: int, out: string)
    requires u < 0x1_0000_0000 && (base == 8 || base == 10 || base == 16) && Suits(base, f.alt, parseBase)
    requires out == Number(u, base, "", f, zero, width)
    ensures ReadsBack(ParseULong(out, parseBase), u, out, base)
  {
    hide Digits, Number, BasePrefix, Numeral, SpanSpaces, IsSpace, ReadsBack, ParseULong;
    var prefix := BasePrefix(u, base, f.alt);
    var p, tail := UnsignedParts(u, base, prefix, f, zero, width);
    UnsignedStart(out, p.front, tail);
    ParseTail(out, |p.front|, prefix, p.zeros, u, base, f.alt, p.back, parseBase);
    UnsignedEnd(out, |p.front|, prefix, p.zeros, Digits(u, base), p.back, u, base);
    ParseULongAt(out, |p.front|, parseBase);
  }

  lemma ParseULongAt(p: string, i: nat, base: int)
    requires i <= |p| && SpanSpaces(p) == i && 0 <= Numeral(p, i, base).value < 0x1_0000_0000
    ensures ParseULong(p, base) == Numeral(p, i, base)
  {
  }

  /** For every unsigned int, and every %u, %x or %o directive with whatever flags, width and
      precision, strtoul with the base of the conversion reads back what sprintf wrote; with
      base 0 it does so too for %x and %o under the '#' flag, also for 0, which gets no prefix. */
  lemma SprintfStrtoul(fmt: string, args: seq<int>, parseBase: int)
    requires At(fmt, 0) == '%'
    requires var d := DirectiveOf(fmt[1..], args);
      d.conv in {'u', 'U', 'x', 'X', 'o', 'O'} && d.longs <= 1 && d.rest == "" && Suits(BaseOf(d.conv), d.flags.alt, parseBase)
    ensures var d := DirectiveOf(fmt[1..], args);
      var u, out := ULong(Arg(d.args)), Render(fmt, args);
      ReadsBack(ParseULong(out, parseBase), u, out, BaseOf(d.conv))
  {
    var d := DirectiveOf(fmt[1..], args);
    RenderOne(fmt, args);
    ConvertUnsigned(d);
    UnsignedField(ULong(Arg(d.args)), BaseOf(d.conv), d.flags, d.zero, d.width, parseBase, Render(fmt, args));
  }

  lemma ConvertUnsigned(d: Directive)
    requires d.conv in {'u', 'U', 'x', 'X', 'o', 'O'} && d.longs <= 1
    ensures BaseOf(d.conv) == 8 || BaseOf(d.conv) == 10 || BaseOf(d.conv) == 16
    ensures Convert(d).0 == Number(ULong(Arg(d.args)), BaseOf(d.conv), "", d.flags, d.zero, d.width)
  {
  }
}
