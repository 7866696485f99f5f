/** What the text of a format means: each part of a directive, the conversions and plain text. */
module DirectiveLaws {
  import opened Text
  import opened Format

  // ---------- The text of a directive ----------

  datatype Width = NoWidth | Written(n: nat) | FromArgument

  datatype Precision = NoPrecision | Dot | DotWritten(n: nat) | DotArgument

  function WidthText(w: Width): string
  {
    match w
    case NoWidth => ""
    case Written(n) => Digits(n, 10)
    case FromArgument => "*"
  }

  function PrecisionText(p: Precision): string
  {
    match p
    case NoPrecision => ""
    case Dot => "."
    case DotWritten(n) => "." + Digits(n, 10)
    case DotArgument => ".*"
  }

  /** A character that can only be the conversion: no part of a directive before it starts with it. */
  predicate IsConversion(c: char)
  {
    c != NUL && c != '#' && c != '-' && c != '+' && c != ' ' && c != '*' && c != '.' && c != 'l' && !('0' <= c <= '9')
  }

  function DirectiveText(fs: string, zero: bool, w: Width, p: Precision, longs: nat, c: char, rest: string): string
  {
    fs + ((if zero then "0" else "") + (WidthText(w) + (PrecisionText(p) + (Repeat('l', longs) + ([c] + rest)))))
  }

  lemma {:induction false} NumberRead(d: string, t: string)
    requires AllDigits(d, 10)
    ensures Denotes(d, 10) >= 0 && NumberOf(d + t, 0) == NumberOf(t, Denotes(d, 10))
  {
    if d == "" {
      assert d + t == t;
    } else {
      var front, x := d[..|d| - 1], d[|d| - 1];
      assert d + t == front + ([x] + t);
      NumberRead(front, [x] + t);
      assert DigitOf(x, 10) >= 0 && ([x] + t)[1..] == t;
    }
  }

  /** A written number, in front of something that is no digit. */
  lemma WrittenNumber(n: nat, t: string)
    requires !IsDigit(At(t, 0))
    ensures IsDigit(Digits(n, 10)[0]) && (n > 0 ==> Digits(n, 10)[0] != '0')
    ensures NumberOf(Digits(n, 10) + t, 0) == (n, t)
  {
    var d := Digits(n, 10);
    DigitsAreDigits(n, 10);
    assert d[0] in d;
    forall i | 0 <= i < |d| ensures DigitOf(d[i], 10) >= 0 {
      assert d[i] in d;
    }
    NumberRead(d, t);
    assert "" + d == d;
    DigitsDenote("", n, 10);
  }

  lemma {:induction false} LongsRead(n: nat, t: string)
    requires At(t, 0) != 'l'
    ensures CountLongs(Repeat('l', n) + t) == n && (Repeat('l', n) + t)[n..] == t
  {
    if n == 0 {
      assert Repeat('l', 0) + t == t;
    } else {
      assert (Repeat('l', n) + t)[1..] == Repeat('l', n - 1) + t;
      LongsRead(n - 1, t);
    }
  }

  lemma PrecisionRead(p: Precision, t: string, args: seq<int>)
    requires At(t, 0) != '.' && At(t, 0) != '*' && !IsDigit(At(t, 0))
    ensures SkipPrecision(PrecisionText(p) + t, args) == (t, if p.DotArgument? then Tail(args) else args)
  {
    hide Digits;
    var s := PrecisionText(p) + t;
    match p
    case NoPrecision => assert s == t;
    case Dot => assert s[1..] == t;
    case DotWritten(n) =>
      WrittenNumber(n, t);
      assert s[1..] == Digits(n, 10) + t;
    case DotArgument => assert s[2..] == t;
  }

  /** The width that an argument gives, and whether it is negative, which toggles the adjustment. */
  function StarArgument(w: Width, args: seq<int>): int
  {
    if w.FromArgument? then Long(Arg(args)) else 0
  }

  lemma WidthRead(w: Width, f: Flags, t: string, args: seq<int>)
    requires At(t, 0) != '*' && !IsDigit(At(t, 0))
    ensures var a := StarArgument(w, args);
      WidthOf(WidthText(w) + t, f, args) == (
        f.(left := f.left != (a < 0)),
        match w { case NoWidth => 0 case Written(n) => n case FromArgument => if a < 0 then -a else a },
        t, if w.FromArgument? then Tail(args) else args)
  {
    var s := WidthText(w) + t;
    match w
    case NoWidth => assert s == t;
    case Written(n) => WrittenNumber(n, t);
    case FromArgument => assert s[1..] == t;
  }

  /** How the part behind the flags starts. */
  lemma Starts(zero: bool, w: Width, p: Precision, longs: nat, c: char, rest: string)
    requires IsConversion(c) && (w.Written? ==> w.n > 0)
    ensures var t := Repeat('l', longs) + ([c] + rest); var u := PrecisionText(p) + t; var v := WidthText(w) + u;
      && At(t, 0) != '.' && At(t, 0) != '*' && !IsDigit(At(t, 0))
      && At(u, 0) != '*' && !IsDigit(At(u, 0))
      && At(v, 0) != '0' && !IsFlag(At(v, 0))
  {
    if w.Written? {
      WrittenNumber(w.n, "");
    }
  }

  lemma FlagsAndZero(fs: string, zero: bool, v: string)
    requires (forall c :: c in fs ==> IsFlag(c)) && !IsFlag(At(v, 0)) && At(v, 0) != '0'
    ensures var (f, r0) := FlagsOf(fs + ((if zero then "0" else "") + v), NO_FLAGS);
      && f == Flags('#' in fs, '-' in fs, if '+' in fs then '+' else if ' ' in fs then ' ' else NUL)
      && (At(r0, 0) == '0' <==> zero) && (if zero then r0[1..] else r0) == v
  {
    var tail := (if zero then "0" else "") + v;
    if zero { assert tail[1..] == v; } else { assert tail == v; }
    FlagsMean(fs, tail, NO_FLAGS);
  }

  /** What a directive means: any flags in any order, '0' for zero padding, a width that is written or
      comes from an argument, a precision, any number of 'l', and the conversion. */
  lemma DirectiveMeans(fs: string, zero: bool, w: Width, p: Precision, longs: nat, c: char, rest: string, args: seq<int>)
    requires (forall f :: f in fs ==> f == '#' || f == '-' || f == '+' || f == ' ')
    requires IsConversion(c) && (w.Written? ==> w.n > 0)
    ensures var d, a := DirectiveOf(DirectiveText(fs, zero, w, p, longs, c, rest), args), StarArgument(w, args);
      && d.zero == zero && d.longs == longs && d.conv == c && d.rest == rest
      && d.width == (match w { case NoWidth => 0 case Written(n) => n case FromArgument => if a < 0 then -a else a })
      && d.flags.alt == ('#' in fs) && d.flags.left == (('-' in fs) != (a < 0))
      && d.flags.plus == (if '+' in fs then '+' else if ' ' in fs then ' ' else NUL)
      && d.args == var b := if w.FromArgument? then Tail(args) else args; if p.DotArgument? then Tail(b) else b
  {
    hide FlagsOf, WidthOf, SkipPrecision, CountLongs, WidthText, PrecisionText, Repeat;
    var t := Repeat('l', longs) + ([c] + rest);
    var u := PrecisionText(p) + t;
    var v := WidthText(w) + u;
    Starts(zero, w, p, longs, c, rest);
    FlagsAndZero(fs, zero, v);
    var f := FlagsOf(DirectiveText(fs, zero, w, p, longs, c, rest), NO_FLAGS).0;
    WidthRead(w, f, u, args);
    PrecisionRead(p, t, if w.FromArgument? then Tail(args) else args);
    LongsRead(longs, [c] + rest);
    assert ([c] + rest)[1..] == rest;
  }

  // ---------- Plain text and the other conversions ----------

  /** Text without '%' is copied. */
  lemma {:induction false} TextIsCopied(text: string, fmt: string, args: seq<int>)
    requires forall i :: 0 <= i < |text| ==> text[i] != '%' && text[i] != NUL
    ensures Render(text + fmt, args) == text + Render(fmt, args)
  {
    if text == "" {
      assert text + fmt == fmt;
    } else {
      assert (text + fmt)[1..] == text[1..] + fmt;
      TextIsCopied(text[1..], fmt, args);
      assert text == [text[0]] + text[1..];
    }
  }

  /** %c prints the low byte of its argument. Any character that is no conversion, '%' for one,
      prints itself and takes no argument. */
  lemma OtherConversions(d: Directive)
    ensures d.conv == 'c' ==> Convert(d).1 == Tail(d.args) && |Convert(d).0| == 1 && Convert(d).0[0] as int == Arg(d.args) % 256
    ensures d.conv !in "oOdDuUpxXzZcbBtsrRnN" && d.conv != NUL ==> Convert(d) == ([d.conv], d.args)
    ensures d.conv in "oOdDuUpxXzZ" ==> Convert(d).1 == Tail(d.args)
  {
  }

  lemma {:induction false} PercentPrintsItself(fmt: string, args: seq<int>)
    ensures Render("%%" + fmt, args) == "%" + Render(fmt, args)
  {
    var s := "%%" + fmt;
    assert s[1..] == DirectiveText("", false, NoWidth, NoPrecision, 0, '%', fmt);
    DirectiveMeans("", false, NoWidth, NoPrecision, 0, '%', fmt, args);
  }

  // ---------- Numbers ----------

  /** The base that each conversion stands for. */
  function WrittenBase(conv: char): nat
  {
    if conv == 'o' || conv == 'O' then 8
    else if conv == 'd' || conv == 'D' || conv == 'u' || conv == 'U' then 10
    else 16
  }

  predicate IsSignedConversion(conv: char)
  {
    conv == 'd' || conv == 'D' || conv == 'z' || conv == 'Z'
  }

  /** An argument counts modulo 2^32, with two or more 'l' modulo 2^64, as a signed or an unsigned
      number. */
  lemma ArgumentMeans(arg: int, longs: nat)
    ensures longs <= 1 ==>
      && -0x8000_0000 <= SignedArg(arg, longs) < 0x8000_0000 && (SignedArg(arg, longs) - arg) % 0x1_0000_0000 == 0
      && 0 <= UnsignedArg(arg, longs) < 0x1_0000_0000 && (UnsignedArg(arg, longs) - arg) % 0x1_0000_0000 == 0
    ensures longs > 1 ==>
      && -0x8000_0000_0000_0000 <= SignedArg(arg, longs) < 0x8000_0000_0000_0000
      && 0 <= UnsignedArg(arg, longs) < 0x1_0000_0000_0000_0000
      && (SignedArg(arg, longs) - arg) % 0x1_0000_0000_0000_0000 == 0
      && (UnsignedArg(arg, longs) - arg) % 0x1_0000_0000_0000_0000 == 0
  {
    if longs > 1 {
      Reduced64(arg);
    } else {
      Reduced32(arg);
    }
  }

  lemma Reduced32(x: int)
    ensures (Long(x) - x) % 0x1_0000_0000 == 0 && (ULong(x) - x) % 0x1_0000_0000 == 0
  {
    var k, h := (x + 0x8000_0000) / 0x1_0000_0000, x / 0x1_0000_0000;
    assert Long(x) - x == -k * 0x1_0000_0000;
    assert ULong(x) - x == -h * 0x1_0000_0000;
  }

  lemma Reduced64(x: int)
    ensures (SignedArg(x, 2) - x) % 0x1_0000_0000_0000_0000 == 0 && (UnsignedArg(x, 2) - x) % 0x1_0000_0000_0000_0000 == 0
  {
    var k, h := (x + 0x8000_0000_0000_0000) / 0x1_0000_0000_0000_0000, x / 0x1_0000_0000_0000_0000;
    assert SignedArg(x, 2) - x == -k * 0x1_0000_0000_0000_0000;
    assert UnsignedArg(x, 2) - x == -h * 0x1_0000_0000_0000_0000;
  }

  /** Sign and magnitude of what is printed. */
  lemma SignMeans(d: Directive, arg: int)
    ensures !IsSignedConversion(d.conv) ==> SignOf(d, arg) == "" && ValueOf(d, arg) == UnsignedArg(arg, d.longs)
    ensures IsSignedConversion(d.conv) ==>
      var n := SignedArg(arg, d.longs);
      && ValueOf(d, arg) == (if n < 0 then -n else n)
      && SignOf(d, arg) == if n < 0 then "-" else if d.flags.plus != NUL then [d.flags.plus] else ""
  {
  }

  /** What stands where in a printed number: sign and prefix, then the digits of the value in the base
      of the conversion. Zeros fill the field between the two, blanks behind them or before them. */
  lemma NumberPlaced(d: Directive, arg: int)
    requires d.conv in "oOdDuUxXzZ"
    ensures BaseOf(d.conv) == WrittenBase(d.conv)
    ensures var text, u, base := NumberText(d, arg), ValueOf(d, arg), WrittenBase(d.conv);
      var lead := SignOf(d, arg) + (if !d.flags.alt || u == 0 || base == 10 then "" else if base == 8 then "0" else "0x");
      Placed(text, lead, Digits(u, base), d.zero, d.flags.left) && Denotes(Digits(u, base), base) == u
  {
    hide Digits, Repeat;
    var u, base := ValueOf(d, arg), WrittenBase(d.conv);
    var sign, prefix, digits := SignOf(d, arg), BasePrefix(u, base, d.flags.alt), Digits(u, base);
    FieldPlaced(sign, prefix, digits, d.flags.left, d.zero, d.width);
    assert "" + digits == digits && Denotes("", base) == 0;
    DigitsDenote("", u, base);
  }

  /** The text is lead and digits with padding between, behind or before them. */
  predicate Placed(text: string, lead: string, digits: string, zero: bool, left: bool)
  {
    var pad := |text| - |lead| - |digits|;
    && pad >= 0
    && if zero then lead <= text && text[|lead| + pad..] == digits && AllAre(text[|lead|..|lead| + pad], '0')
       else if left then lead + digits <= text && AllAre(text[|lead| + |digits|..], ' ')
       else text[pad..] == lead + digits && AllAre(text[..pad], ' ')
  }

  predicate AllAre(s: string, c: char)
  {
    forall i :: 0 <= i < |s| ==> s[i] == c
  }

  lemma FieldPlaced(sign: string, prefix: string, digits: string, left: bool, zero: bool, width: int)
    ensures Placed(Field(sign, prefix, digits, left, zero, width), sign + prefix, digits, zero, left)
  {
    var text, n := Field(sign, prefix, digits, left, zero, width), width - |digits| - |sign| - |prefix|;
    var lead, fill := sign + prefix, Repeat(if zero then '0' else ' ', n);
    if zero {
      assert text == lead + (fill + digits);
    } else if left {
      assert text == (lead + digits) + fill;
    } else {
      assert text == fill + (lead + digits);
    }
  }

  /** "%08lx" of 255, as a hex dump prints addresses. */
  lemma ZeroPaddedOutput()
    ensures Render("%08lx", [255]) == "000000ff"
  {
    hide Field, DirectiveOf;
    assert Digits(8, 10) == "8" && Repeat('l', 1) == "l";
    assert "%08lx"[1..] == DirectiveText("", true, Written(8), NoPrecision, 1, 'x', "");
    DirectiveMeans("", true, Written(8), NoPrecision, 1, 'x', "", [255]);
    ZeroPaddedNumber(DirectiveOf("%08lx"[1..], [255]));
  }

  lemma ZeroPaddedNumber(d: Directive)
    requires d.flags == NO_FLAGS && d.zero && d.width == 8 && d.longs == 1 && d.conv == 'x'
    ensures NumberText(d, 255) == "000000ff"
  {
    assert Digits(255, 16) == Digits(15, 16) + "f" == "ff";
    assert Repeat('0', 6) == "000000";
  }
}
