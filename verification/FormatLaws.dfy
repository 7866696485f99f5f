/** How long a printed number is, and where _doprnt departs from what it announces: capital
    letters, negative widths and pointers. */
module FormatLaws {
  import opened Text
  import opened Format
  import opened DirectiveLaws

  // ---------- Length ----------

  /** The length of a number with its sign and its prefix, before any padding. */
  function Bare(d: Directive, arg: int): nat
    requires BaseOf(d.conv) != 0
  {
    var u, base := ValueOf(d, arg), BaseOf(d.conv);
    |SignOf(d, arg)| + |BasePrefix(u, base, d.flags.alt)| + |Digits(u, base)|
  }

  lemma Between(u: nat, q: nat, r: nat, base: nat, low: nat, high: nat)
    requires u == q * base + r && r < base && low <= q < high
    ensures base * low <= u < base * high
  {
    MulGrows(base, base, low, q);
    MulGrows(base, base, q + 1, high);
    assert base * (q + 1) == q * base + base;
  }

  /** One more digit: if the quotient is between two powers of the base, so is the number. */
  lemma OneMoreDigit(u: nat, base: nat, n: nat)
    requires base > 0 && n >= 1 && u / base < Pow(base, n) && (n == 1 || Pow(base, n - 1) <= u / base)
    ensures u < Pow(base, n + 1) && (u >= base ==> Pow(base, n) <= u)
  {
    var q, r := u / base, u % base;
    DivMod(u, base);
    assert Pow(base, 0) == 1 && Pow(base, 1) == base * Pow(base, 0);
    Between(u, q, r, base, if n > 1 then Pow(base, n - 1) else 0, Pow(base, n));
  }

  /** A numeral has as many digits as it needs: with n of them, the number is below the n-th power
      of the base and, unless n is 1, not below the one before. */
  lemma {:induction false} DigitCount(u: nat, base: nat)
    requires 2 <= base <= 16
    ensures var n := |Digits(u, base)|;
      u < Pow(base, n) && (n == 1 || Pow(base, n - 1) <= u)
  {
    if u < base {
      assert Pow(base, 0) == 1 && Pow(base, 1) == base;
    } else {
      DivMod(u, base);
      DigitCount(u / base, base);
      OneMoreDigit(u, base, |Digits(u / base, base)|);
    }
  }

  /** Every number fills its field exactly, or overflows it unpadded. %p ignores the width: its
      field has eight characters, and "0x" goes out before the field. */
  lemma NumberLength(d: Directive, arg: int)
    requires BaseOf(d.conv) != 0
    ensures var bare := Bare(d, arg);
      |NumberText(d, arg)| ==
        if d.conv == 'p' then 2 + (if bare < 8 then 8 else bare)
        else if bare < d.width then d.width else bare
    ensures var u, n := ValueOf(d, arg), |Digits(ValueOf(d, arg), BaseOf(d.conv))|;
      u < Pow(BaseOf(d.conv), n) && (n == 1 || Pow(BaseOf(d.conv), n - 1) <= u)
  {
    DigitCount(ValueOf(d, arg), BaseOf(d.conv));
  }

  // ---------- %X ----------

  predicate IsLower(c: char)
  {
    'a' <= c <= 'z'
  }

  predicate NoLower(s: string)
  {
    forall i :: 0 <= i < |s| ==> !IsLower(s[i])
  }

  function Capital(c: char): char
  {
    if IsLower(c) then (c as int - 'a' as int + 'A' as int) as char else c
  }

  function Capitals(s: string): (r: string)
    ensures |r| == |s| && forall i :: 0 <= i < |s| ==> r[i] == Capital(s[i])
  {
    if s == "" then "" else [Capital(s[0])] + Capitals(s[1..])
  }

  /** Every hexadecimal digit of u is below 10. */
  predicate DecimalOnly(u: nat)
  {
    u % 16 < 10 && (u < 16 || DecimalOnly(u / 16))
  }

  lemma NoLowerConcat(a: string, b: string)
    ensures NoLower(a + b) <==> NoLower(a) && NoLower(b)
  {
    if NoLower(a + b) {
      forall i | 0 <= i < |a| ensures !IsLower(a[i]) {
        assert a[i] == (a + b)[i];
      }
      forall i | 0 <= i < |b| ensures !IsLower(b[i]) {
        assert b[i] == (a + b)[|a| + i];
      }
    }
  }

  lemma {:induction false} DigitsNoLower(u: nat)
    ensures NoLower(Digits(u, 16)) <==> DecimalOnly(u)
  {
    var c := DIGITS[u % 16];
    assert NoLower([c]) <==> u % 16 < 10 by {
      assert IsLower([c][0]) <==> u % 16 >= 10;
    }
    if u >= 16 {
      DivMod(u, 16);
      DigitsNoLower(u / 16);
      NoLowerConcat(Digits(u / 16, 16), [c]);
    }
  }

  lemma FieldNoLower(sign: string, prefix: string, digits: string, left: bool, zero: bool, width: int)
    ensures NoLower(Field(sign, prefix, digits, left, zero, width)) <==> NoLower(sign) && NoLower(prefix) && NoLower(digits)
  {
    var pad := width - |digits| - |sign| - |prefix|;
    var blanks, zeros := Repeat(' ', pad), Repeat('0', pad);
    NoLowerConcat(sign, prefix);
    if zero {
      NoLowerConcat(sign + prefix, zeros);
      NoLowerConcat(sign + prefix + zeros, digits);
    } else if left {
      NoLowerConcat(sign + prefix, digits);
      NoLowerConcat(sign + prefix + digits, blanks);
    } else {
      NoLowerConcat(blanks, sign);
      NoLowerConcat(blanks + sign, prefix);
      NoLowerConcat(blanks + sign + prefix, digits);
    }
  }

  lemma CapitalsUnchanged(s: string)
    ensures Capitals(s) == s <==> NoLower(s)
  {
    if Capitals(s) == s {
      forall i | 0 <= i < |s| ensures !IsLower(s[i]) {
        assert Capitals(s)[i] == Capital(s[i]);
      }
    }
  }

  lemma HexNoLower(u: nat, f: Flags, zero: bool, width: int)
    ensures NoLower(Number(u, 16, "", f, zero, width)) <==> !(f.alt && u != 0) && DecimalOnly(u)
  {
    DigitsNoLower(u);
    FieldNoLower("", BasePrefix(u, 16, f.alt), Digits(u, 16), f.left, zero, width);
    assert IsLower("0x"[1]);
  }

  /** %X prints just what %x prints. That has capital letters only, as announced, iff there is no
      "0x" in front of it and every digit is below 10. */
  lemma CapitalsExactly(d: Directive, arg: int)
    requires d.conv == 'X'
    ensures NumberText(d, arg) == NumberText(d.(conv := 'x'), arg)
    ensures NoLower(NumberText(d, arg)) <==> !(d.flags.alt && ValueOf(d, arg) != 0) && DecimalOnly(ValueOf(d, arg))
    ensures NumberText(d, arg) == Capitals(NumberText(d.(conv := 'x'), arg)) <==> NoLower(NumberText(d, arg))
  {
    hide Number, DecimalOnly, NoLower, Capitals;
    HexNoLower(ValueOf(d, arg), d.flags, d.zero, d.width);
    CapitalsUnchanged(NumberText(d, arg));
  }

  // ---------- A negative width ----------

  /** The width is a '*' whose argument is negative. */
  predicate NegativeStar(fmt: string, args: seq<int>)
  {
    var r0 := FlagsOf(fmt, NO_FLAGS).1;
    var r1 := if At(r0, 0) == '0' then r0[1..] else r0;
    At(r1, 0) == '*' && Long(Arg(args)) < 0
  }

  /** The directive as section 7.19.6.1 of ISO/IEC 9899:1999 reads it: a negative width is a '-'
      flag and a positive width. */
  function StandardDirective(fmt: string, args: seq<int>): Directive
  {
    var d := DirectiveOf(fmt, args);
    if NegativeStar(fmt, args) then d.(flags := d.flags.(left := true)) else d
  }

  lemma StarWidth(fmt: string, args: seq<int>)
    requires NegativeStar(fmt, args)
    ensures var d := DirectiveOf(fmt, args);
      d.width == -Long(Arg(args)) && (d.flags.left <==> !FlagsOf(fmt, NO_FLAGS).0.left)
  {
  }

  /** Right and left adjustment differ iff there are blanks to print. */
  lemma AdjustmentShows(sign: string, prefix: string, digits: string, width: int)
    requires digits != "" && digits[|digits| - 1] != ' '
    ensures Field(sign, prefix, digits, false, false, width) == Field(sign, prefix, digits, true, false, width)
      <==> |sign| + |prefix| + |digits| >= width
  {
    var pad := width - |digits| - |sign| - |prefix|;
    var right, left := Field(sign, prefix, digits, false, false, width), Field(sign, prefix, digits, true, false, width);
    if pad > 0 {
      assert right[|right| - 1] == digits[|digits| - 1];
      assert left[|left| - 1] == Repeat(' ', pad)[pad - 1];
    } else {
      assert right == "" + sign + prefix + digits;
      assert left == sign + prefix + digits + "";
    }
  }

  lemma LastDigit(u: nat, base: nat)
    requires 2 <= base <= 16
    ensures Digits(u, base)[|Digits(u, base)| - 1] != ' '
  {
    DigitsAreDigits(u, base);
    assert Digits(u, base)[|Digits(u, base)| - 1] in Digits(u, base);
  }

  /** A negative '*' width toggles the adjustment instead of setting it. A number comes out as the
      standard has it iff no '-' came before, or zeros pad it, or it fills the field, or the
      conversion is %p, which has a width of its own. */
  lemma NegativeWidthExactly(fmt: string, args: seq<int>)
    requires BaseOf(DirectiveOf(fmt, args).conv) != 0
    ensures var d := DirectiveOf(fmt, args);
      Convert(d) == Convert(StandardDirective(fmt, args)) <==>
        (NegativeStar(fmt, args) ==>
          !FlagsOf(fmt, NO_FLAGS).0.left || d.zero || d.conv == 'p' || Bare(d, Arg(d.args)) >= -Long(Arg(args)))
  {
    hide DirectiveOf, Digits, Repeat, FlagsOf;
    var d, e := DirectiveOf(fmt, args), StandardDirective(fmt, args);
    if NegativeStar(fmt, args) && FlagsOf(fmt, NO_FLAGS).0.left {
      StarWidth(fmt, args);
      var u, base := ValueOf(d, Arg(d.args)), BaseOf(d.conv);
      assert ValueOf(e, Arg(e.args)) == u && SignOf(e, Arg(e.args)) == SignOf(d, Arg(d.args));
      if d.conv != 'p' && !d.zero {
        LastDigit(u, base);
        AdjustmentShows(SignOf(d, Arg(d.args)), BasePrefix(u, base, d.flags.alt), Digits(u, base), d.width);
      }
    } else if NegativeStar(fmt, args) {
      StarWidth(fmt, args);
      assert e == d;
    }
  }

  // ---------- %p ----------

  /** Eight or more hexadecimal digits: no 'x' among them. */
  lemma PaddedHex(u: nat)
    ensures var plain := Field("", "", Digits(u, 16), false, true, 8);
      |plain| >= 8 && forall i :: 0 <= i < |plain| ==> plain[i] != 'x'
  {
    hide Digits, Repeat, DigitOf, IsSpace;
    var digits := Digits(u, 16);
    var zeros := Repeat('0', 8 - |digits|);
    var plain := Field("", "", digits, false, true, 8);
    DigitsAreDigits(u, 16);
    assert plain == zeros + digits;
    forall i | 0 <= i < |plain| ensures plain[i] != 'x' {
      if i >= |zeros| { assert digits[i - |zeros|] in digits; }
    }
  }

  /** %p prints 0x%08x, as announced, iff it has no '#' flag or the pointer is null. */
  lemma PointerExactly(d: Directive, arg: int)
    requires d.conv == 'p'
    ensures NumberText(d, arg) == "0x" + NumberText(Directive(NO_FLAGS, true, 8, d.longs, 'x', d.rest, d.args), arg)
      <==> !d.flags.alt || ValueOf(d, arg) == 0
  {
    hide Digits, Repeat;
    var u := ValueOf(d, arg);
    var plain := NumberText(Directive(NO_FLAGS, true, 8, d.longs, 'x', d.rest, d.args), arg);
    assert plain == Field("", "", Digits(u, 16), false, true, 8);
    if d.flags.alt && u != 0 {
      PaddedHex(u);
      assert NumberText(d, arg)[3] == 'x' && ("0x" + plain)[3] == plain[1];
    }
  }

  // ---------- Inputs that show the difference ----------

  lemma SmallDigits()
    ensures Digits(10, 16) == "a" && Digits(5, 10) == "5"
    ensures Repeat(' ', -1) == "" && Repeat(' ', 2) == "  "
  {
  }

  /** %X of 10. */
  lemma LowerCaseOutput()
    ensures Render("%X", [10]) == "a"
  {
    hide DirectiveOf, Digits, Repeat;
    SmallDigits();
    assert "%X"[1..] == DirectiveText("", false, NoWidth, NoPrecision, 0, 'X', "");
    DirectiveMeans("", false, NoWidth, NoPrecision, 0, 'X', "", [10]);
    assert NumberText(DirectiveOf("%X"[1..], [10]), 10) == "" + "" + "" + "a";
  }

  lemma FiveInThree(d: Directive)
    requires d.conv == 'd' && d.flags.plus == NUL && !d.flags.alt && !d.zero && d.width == 3 && d.longs == 0
    ensures NumberText(d, 5) == if d.flags.left then "5  " else "  5"
  {
    hide Digits, Repeat;
    SmallDigits();
    assert Field("", "", "5", d.flags.left, false, 3) == if d.flags.left then "" + "" + "5" + "  " else "  " + "" + "" + "5";
  }

  /** %-*d of 5 with the width -3: the standard has the blanks behind the digit. */
  lemma ToggledOutput()
    ensures Render("%-*d", [-3, 5]) == "  5"
    ensures Convert(StandardDirective("-*d", [-3, 5])).0 == "5  "
  {
    hide DirectiveOf, NumberText, Long;
    assert Long(-3) == -3;
    assert "%-*d"[1..] == "-*d" == DirectiveText("-", false, FromArgument, NoPrecision, 0, 'd', "");
    DirectiveMeans("-", false, FromArgument, NoPrecision, 0, 'd', "", [-3, 5]);
    FlagsMean("-", "*d", NO_FLAGS);
    assert "-" + "*d" == "-*d" && NegativeStar("-*d", [-3, 5]);
    FiveInThree(DirectiveOf("-*d", [-3, 5]));
    FiveInThree(StandardDirective("-*d", [-3, 5]));
  }
}
