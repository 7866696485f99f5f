/** _doprnt and the functions that call it with a buffer as its sink
    (tasks/libc/stdio/doprnt.c and sprintf.c), proved against Format. */
module Doprnt {
  import opened Text
  import opened Format

  // ---------- The sink: sprintf.c ----------

  /** At most max characters of s; all of them if max is negative, as in SPRINTF_UNLIMITED. */
  function Cap(s: string, max: int): string
  {
    if max < 0 || |s| <= max then s else s[..max]
  }

  class SprintfState {
    /** The characters stored so far, from the start of the caller's buffer. */
    var buf: string
    var len: int
    const max: int
    /** Everything that was handed to savechar. */
    ghost var sent: string

    ghost predicate Valid()
      reads this
    {
      len == |buf| && buf == Cap(sent, max)
    }

    constructor (max: int)
      ensures Valid() && sent == "" && this.max == max
    {
      this.max := max;
      len, buf, sent := 0, "", "";
    }

    method Savechar(c: char)
      requires Valid()
      modifies this
      ensures Valid() && sent == old(sent) + [c]
    {
      sent := sent + [c];
      if max != -1 {
        if len == max {
          return;
        }
      }
      len := len + 1;
      buf := buf + [c];
    }
  }

  // ---------- Numbers ----------

  const MAXBUF: nat := 32

  /** The values whose numeral surely fits into the digit buffer. */
  predicate Fits(u: nat, base: nat)
  {
    2 <= base <= 16 && (u < 0x1_0000_0000 || (base >= 8 && u < 0x1_0000_0000_0000_0000))
  }

  lemma {:induction false} PowAdd(b: nat, m: nat, n: nat)
    ensures Pow(b, m + n) == Pow(b, m) * Pow(b, n)
  {
    if m > 0 {
      PowAdd(b, m - 1, n);
      assert b * (Pow(b, m - 1) * Pow(b, n)) == (b * Pow(b, m - 1)) * Pow(b, n);
    }
  }

  /** Powers of b by repeated squaring. */
  lemma PowersOf(b: nat, b1: nat, b2: nat, b4: nat, b8: nat, b16: nat)
    requires b1 == b && b2 == b1 * b1 && b4 == b2 * b2 && b8 == b4 * b4 && b16 == b8 * b8
    ensures Pow(b, 32) == b16 * b16
  {
    assert Pow(b, 0) == 1 && Pow(b, 1) == b1;
    PowAdd(b, 1, 1);
    PowAdd(b, 2, 2);
    PowAdd(b, 4, 4);
    PowAdd(b, 8, 8);
    PowAdd(b, 16, 16);
  }

  lemma FitsPow(u: nat, base: nat)
    requires Fits(u, base)
    ensures u < Pow(base, MAXBUF)
  {
    if u < 0x1_0000_0000 {
      PowersOf(2, 2, 4, 16, 256, 65536);
      PowGrows(2, base, 32);
    } else {
      PowersOf(8, 8, 64, 4096, 0x100_0000, 0x1_0000_0000_0000);
      PowGrows(8, base, 32);
    }
  }

  /** The digits of u are still to be written in front of tail. */
  ghost predicate Pending(u0: nat, base: nat, u: nat, tail: string)
    requires 2 <= base <= 16
  {
    Digits(u0, base) == (if u == 0 then "" else Digits(u, base)) + tail
  }

  lemma Rejoin(all: string, d: string, front: string, c: string, tail: string)
    requires all == d + tail && d == front + c
    ensures all == front + (c + tail)
  {
  }

  /** One turn of the digit loop: the last digit of u goes to index p, the rest is left in q. */
  method StoreDigit(buf: array<char>, p: nat, u: nat, base: nat) returns (q: nat, ghost c: string)
    requires 2 <= base <= 16 && p < buf.Length && u < Pow(base, p + 1)
    modifies buf
    ensures buf[p..] == c + old(buf[p + 1..])
    ensures Digits(u, base) == (if q == 0 then "" else Digits(q, base)) + c
    ensures q < Pow(base, p) && (u > 0 ==> q < u)
  {
    buf[p] := DIGITS[u % base];
    q := u / base;
    c := [DIGITS[u % base]];
    DivisionDigits(u, base);
    QuotientFits(u, base, p);
    DivMod(u, base);
  }

  /** The do-while loop that fills the digit buffer backwards: p never leaves the buffer, and
      what stands behind it is the numeral. */
  method FillDigits(u0: nat, base: nat, buf: array<char>) returns (p: int)
    requires Fits(u0, base) && buf.Length == MAXBUF
    modifies buf
    ensures -1 <= p < MAXBUF - 1 && buf[p + 1..] == Digits(u0, base)
  {
    p := MAXBUF - 1;
    FitsPow(u0, base);
    var u: nat;
    ghost var c: string;
    u, c := StoreDigit(buf, p, u0, base);
    p := p - 1;
    while u != 0
      invariant -1 <= p < MAXBUF - 1 && u < Pow(base, p + 1)
      invariant Pending(u0, base, u, buf[p + 1..])
      decreases u
    {
      ghost var tail, v := buf[p + 1..], u;
      u, c := StoreDigit(buf, p, u, base);
      Rejoin(Digits(u0, base), Digits(v, base), if u == 0 then "" else Digits(u, base), c, tail);
      p := p - 1;
    }
  }

  lemma DivisionDigits(u: nat, base: nat)
    requires 2 <= base <= 16
    ensures Digits(u, base) == (if u / base == 0 then "" else Digits(u / base, base)) + [DIGITS[u % base]]
  {
    SmallQuotient(u, base);
  }

  /** A padding loop: it emits c as often as length says, and leaves length negative. */
  method Pad(c: char, length0: int, sink: SprintfState) returns (length: int)
    requires sink.Valid()
    modifies sink
    ensures sink.Valid() && sink.sent == old(sink.sent) + Repeat(c, length0) && length < 0
  {
    length := length0 - 1;
    while length >= 0
      invariant sink.Valid()
      invariant sink.sent + Repeat(c, length + 1) == old(sink.sent) + Repeat(c, length0)
      decreases length
    {
      assert sink.sent + Repeat(c, length + 1) == sink.sent + [c] + Repeat(c, length);
      sink.Savechar(c);
      length := length - 1;
    }
  }

  method Put(s: string, sink: SprintfState)
    requires sink.Valid()
    modifies sink
    ensures sink.Valid() && sink.sent == old(sink.sent) + s
  {
    for i := 0 to |s|
      invariant sink.Valid() && sink.sent == old(sink.sent) + s[..i]
    {
      assert s[..i + 1] == s[..i] + [s[i]];
      sink.Savechar(s[i]);
    }
    assert s[..|s|] == s;
  }

  /** The output part of print_num: three padding loops, of which at most one pads. */
  method PutField(sign: string, prefix: string, digits: string, ladjust: bool, padc: char, width: int, sink: SprintfState)
    requires sink.Valid() && (padc == ' ' || padc == '0')
    modifies sink
    ensures sink.Valid() && sink.sent == old(sink.sent) + Field(sign, prefix, digits, ladjust, padc == '0', width)
  {
    hide Field, Repeat, Cap;
    var length := width - |digits| - |sign| - |prefix|;
    RepeatNothing(' ', length);
    if padc == ' ' && !ladjust {
      length := Pad(' ', length, sink);
    }
    Put(sign, sink);
    Put(prefix, sink);
    if padc == '0' {
      length := Pad('0', length, sink);
    }
    Put(digits, sink);
    if ladjust {
      length := Pad(' ', length, sink);
    }
    FieldJoin(old(sink.sent), sign, prefix, digits, ladjust, padc == '0', width, sink.sent);
  }

  lemma RepeatNothing(c: char, n: int)
    ensures n <= 0 ==> Repeat(c, n) == ""
  {
  }

  /** The pieces in the order the code emits them make up the field. */
  lemma FieldJoin(before: string, sign: string, prefix: string, digits: string, left: bool, zero: bool, width: int, after: string)
    requires var pad := width - |digits| - |sign| - |prefix|;
      after == ((((before + (if !zero && !left then Repeat(' ', pad) else "")) + sign) + prefix)
        + (if zero then Repeat('0', pad) else "")) + digits + (if left && !zero then Repeat(' ', pad) else "")
    ensures after == before + Field(sign, prefix, digits, left, zero, width)
  {
  }

  /** print_num */
  method PrintNumber(u: nat, base: nat, sign: string, f: Flags, padc: char, width: int, sink: SprintfState)
    requires sink.Valid() && Fits(u, base) && (padc == ' ' || padc == '0')
    modifies sink
    ensures sink.Valid() && sink.sent == old(sink.sent) + Number(u, base, sign, f, padc == '0', width)
  {
    var buf := new char[MAXBUF](_ => NUL);
    var prefix := "";
    if u != 0 && f.alt {
      if base == 8 {
        prefix := "0";
      } else if base == 16 {
        prefix := "0x";
      }
    }
    var p := FillDigits(u, base, buf);
    PutField(sign, prefix, buf[p + 1..], f.left, padc, width, sink);
  }

  // ---------- Directives ----------

  method ReadFlags(fmt: string, i: nat) returns (f: Flags, j: nat)
    requires i <= |fmt|
    ensures i <= j <= |fmt| && FlagsOf(fmt[i..], NO_FLAGS) == (f, fmt[j..])
  {
    f, j := NO_FLAGS, i;
    while IsFlag(At(fmt, j))
      invariant i <= j <= |fmt| && FlagsOf(fmt[i..], NO_FLAGS) == FlagsOf(fmt[j..], f)
      decreases |fmt| - j
    {
      assert fmt[j..][1..] == fmt[j + 1..];
      if fmt[j] == '#' {
        f := f.(alt := true);
      } else if fmt[j] == '-' {
        f := f.(left := true);
      } else if fmt[j] == '+' {
        f := f.(plus := '+');
      } else {
        if f.plus == NUL {
          f := f.(plus := ' ');
        }
      }
      j := j + 1;
    }
  }

  method ReadNumber(fmt: string, i: nat) returns (n: nat, j: nat)
    requires i <= |fmt|
    ensures i <= j <= |fmt| && NumberOf(fmt[i..], 0) == (n, fmt[j..])
  {
    n, j := 0, i;
    while IsDigit(At(fmt, j))
      invariant i <= j <= |fmt| && NumberOf(fmt[i..], 0) == NumberOf(fmt[j..], n)
      decreases |fmt| - j
    {
      assert fmt[j..][1..] == fmt[j + 1..];
      n := 10 * n + (fmt[j] as int - '0' as int);
      j := j + 1;
    }
  }

  /** va_arg */
  method NextArg(args: seq<int>, a: nat) returns (v: int, a': nat)
    requires a <= |args|
    ensures a <= a' <= |args| && v == Arg(args[a..]) && args[a'..] == Tail(args[a..])
  {
    if a < |args| {
      v, a' := args[a], a + 1;
    } else {
      v, a' := 0, a;
    }
  }

  method ReadWidth(fmt: string, i: nat, f0: Flags, args: seq<int>, a0: nat)
    returns (f: Flags, length: int, j: nat, a: nat)
    requires i <= |fmt| && a0 <= |args|
    ensures i <= j <= |fmt| && a <= |args|
    ensures WidthOf(fmt[i..], f0, args[a0..]) == (f, length, fmt[j..], args[a..])
  {
    f, length, j, a := f0, 0, i, a0;
    if IsDigit(At(fmt, j)) {
      length, j := ReadNumber(fmt, j);
    } else if At(fmt, j) == '*' {
      length, a := NextArg(args, a);
      length := Long(length);
      j := j + 1;
      if length < 0 {
        f := f.(left := !f.left);
        length := -length;
      }
    }
  }

  method ReadPrecision(fmt: string, i: nat, args: seq<int>, a0: nat) returns (j: nat, a: nat)
    requires i <= |fmt| && a0 <= |args|
    ensures i <= j <= |fmt| && a <= |args|
    ensures SkipPrecision(fmt[i..], args[a0..]) == (fmt[j..], args[a..])
  {
    j, a := i, a0;
    if At(fmt, j) == '.' {
      j := j + 1;
      if IsDigit(At(fmt, j)) {
        var _, k := ReadNumber(fmt, j);
        j := k;
      } else if At(fmt, j) == '*' {
        var _, b := NextArg(args, a);
        a := b;
        j := j + 1;
      }
    }
  }

  method ReadLongs(fmt: string, i: nat) returns (longs: nat)
    requires i <= |fmt|
    ensures longs == CountLongs(fmt[i..]) && i + longs <= |fmt|
  {
    longs := 0;
    while At(fmt, i + longs) == 'l'
      invariant i + longs <= |fmt| && longs + CountLongs(fmt[i + longs..]) == CountLongs(fmt[i..])
      decreases |fmt| - longs
    {
      assert fmt[i + longs..][1..] == fmt[i + longs + 1..];
      longs := longs + 1;
    }
  }

  /** Lines 203 to 268 of _doprnt: from behind the '%' up to the conversion character. */
  method ReadDirective(fmt: string, i: nat, args: seq<int>, a0: nat)
    returns (f: Flags, padc: char, length: int, longs: nat, j: nat, a: nat)
    requires i <= |fmt| && a0 <= |args|
    ensures i <= j <= |fmt| && a <= |args| && (padc == ' ' || padc == '0')
    ensures DirectiveOf(fmt[i..], args[a0..]) == Directive(f, padc == '0', length, longs, At(fmt, j),
              if At(fmt, j) == NUL then fmt[j..] else fmt[j + 1..], args[a..])
  {
    hide FlagsOf, WidthOf, SkipPrecision, CountLongs;
    padc := ' ';
    f, j := ReadFlags(fmt, i);
    assert At(fmt[j..], 0) == At(fmt, j) && (j < |fmt| ==> fmt[j..][1..] == fmt[j + 1..]);
    if At(fmt, j) == '0' {
      padc := '0';
      j := j + 1;
    }
    f, length, j, a := ReadWidth(fmt, j, f, args, a0);
    j, a := ReadPrecision(fmt, j, args, a);
    longs := ReadLongs(fmt, j);
    assert fmt[j..][longs..] == fmt[j + longs..];
    j := j + longs;
    assert At(fmt[j..], 0) == At(fmt, j) && (j < |fmt| ==> fmt[j..][1..] == fmt[j + 1..]);
  }

  /** The switch of _doprnt. */
  method PrintConversion(f: Flags, padc: char, length: int, longs: nat, conv: char, args: seq<int>, a0: nat,
                         ghost rest: string, sink: SprintfState) returns (a: nat)
    requires sink.Valid() && a0 <= |args| && (padc == ' ' || padc == '0') && !Unmodelled(conv)
    modifies sink
    ensures sink.Valid() && a <= |args|
    ensures Convert(Directive(f, padc == '0', length, longs, conv, rest, args[a0..])).1 == args[a..]
    ensures sink.sent == old(sink.sent)
      + Convert(Directive(f, padc == '0', length, longs, conv, rest, args[a0..])).0
  {
    a := a0;
    if conv == NUL {
    } else if conv == 'c' {
      var v;
      v, a := NextArg(args, a);
      sink.Savechar((v % 256) as char);
    } else if BaseOf(conv) == 0 {
      sink.Savechar(conv);
    } else {
      var v;
      v, a := NextArg(args, a);
      PrintNumeric(f, padc, length, longs, conv, v, rest, args[a0..], sink);
    }
  }

  /** The numeric cases of the switch. */
  method PrintNumeric(f: Flags, padc: char, length: int, longs: nat, conv: char, v: int,
                      ghost rest: string, ghost args: seq<int>, sink: SprintfState)
    requires sink.Valid() && (padc == ' ' || padc == '0') && BaseOf(conv) != 0
    modifies sink
    ensures sink.Valid()
    ensures sink.sent == old(sink.sent) + NumberText(Directive(f, padc == '0', length, longs, conv, rest, args), v)
  {
    var base := BaseOf(conv);
    if IsSigned(conv) {
      var n := SignedArg(v, longs);
      PrintSigned(n, base, f, padc, length, sink);
    } else {
      var u := UnsignedArg(v, longs);
      if conv == 'p' {
        Put("0x", sink);
        PrintNumber(u, base, "", f, '0', 8, sink);
        JoinOutput(old(sink.sent), "0x", Number(u, base, "", f, true, 8));
      } else {
        PrintNumber(u, base, "", f, padc, length, sink);
      }
    }
  }

  /** print_signed */
  method PrintSigned(n: int, base: nat, f: Flags, padc: char, length: int, sink: SprintfState)
    requires sink.Valid() && 8 <= base <= 16 && (padc == ' ' || padc == '0')
    requires -0x8000_0000_0000_0000 <= n < 0x8000_0000_0000_0000
    modifies sink
    ensures sink.Valid()
    ensures sink.sent == old(sink.sent) + Number(Magnitude(n), base, Sign(n < 0, f.plus), f, padc == '0', length)
  {
    if n >= 0 {
      PrintNumber(n, base, if f.plus == NUL then "" else [f.plus], f, padc, length, sink);
    } else {
      PrintNumber(-n, base, "-", f, padc, length, sink);
    }
  }

  /** _doprnt */
  method DoPrint(fmt: string, args: seq<int>, sink: SprintfState)
    requires sink.Valid() && Supported(fmt, args)
    modifies sink
    ensures sink.Valid() && sink.sent == old(sink.sent) + Render(fmt, args)
  {
    hide Convert, DirectiveOf;
    var i: nat, a: nat := 0, 0;
    while At(fmt, i) != NUL
      invariant i <= |fmt| && a <= |args| && sink.Valid() && Supported(fmt[i..], args[a..])
      invariant sink.sent + Render(fmt[i..], args[a..]) == old(sink.sent) + Render(fmt, args)
      decreases |fmt| - i
    {
      assert fmt[i..][1..] == fmt[i + 1..];
      if fmt[i] != '%' {
        sink.Savechar(fmt[i]);
        i := i + 1;
      } else {
        i, a := PrintDirective(fmt, i, args, a, sink);
      }
    }
  }

  method PrintDirective(fmt: string, i: nat, args: seq<int>, a0: nat, sink: SprintfState) returns (j: nat, a: nat)
    requires sink.Valid() && i < |fmt| && a0 <= |args| && fmt[i] == '%' && Supported(fmt[i..], args[a0..])
    modifies sink
    ensures sink.Valid() && i < j <= |fmt| && a <= |args| && Supported(fmt[j..], args[a..])
    ensures sink.sent + Render(fmt[j..], args[a..]) == old(sink.sent) + Render(fmt[i..], args[a0..])
  {
    assert fmt[i..][1..] == fmt[i + 1..];
    var f, padc, length, longs;
    f, padc, length, longs, j, a := ReadDirective(fmt, i + 1, args, a0);
    ghost var d := DirectiveOf(fmt[i + 1..], args[a0..]);
    var conv := At(fmt, j);
    a := PrintConversion(f, padc, length, longs, conv, args, a, d.rest, sink);
    if conv != NUL {
      j := j + 1;
    }
    assert fmt[j..] == d.rest && args[a..] == Convert(d).1;
    RenderDirective(fmt[i..], args[a0..]);
    JoinOutput(old(sink.sent), Convert(d).0, Render(d.rest, Convert(d).1));
  }

  lemma JoinOutput(before: string, x: string, y: string)
    ensures (before + x) + y == before + (x + y)
  {
  }

  lemma RenderDirective(fmt: string, args: seq<int>)
    requires At(fmt, 0) == '%'
    ensures var d := DirectiveOf(fmt[1..], args);
      && Render(fmt, args) == Convert(d).0 + Render(d.rest, Convert(d).1)
      && (Supported(fmt, args) <==> !Unmodelled(d.conv) && Supported(d.rest, Convert(d).1))
  {
  }

  // ---------- sprintf.c ----------

  const SPRINTF_UNLIMITED: int := -1

  /** vsprintf: what it stores in front of the final NUL, and what it returns. */
  method Vsprintf(fmt: string, args: seq<int>) returns (s: string, len: int)
    requires Supported(fmt, args)
    ensures s == Render(fmt, args) && len == |s|
  {
    var state := new SprintfState(SPRINTF_UNLIMITED);
    DoPrint(fmt, args, state);
    s, len := state.buf, state.len;
  }

  /** vsnprintf: it stores up to size characters and the NUL behind them, and returns the number
      stored. That is the number needed iff the output has at most size characters, and string
      and NUL stay within size bytes iff it has fewer. */
  method Vsnprintf(size: nat, fmt: string, args: seq<int>) returns (s: string, len: int)
    requires Supported(fmt, args) && size < 0x8000_0000
    ensures s == Cap(Render(fmt, args), size) && len == |s|
    ensures s <= Render(fmt, args) && len == (if |Render(fmt, args)| < size then |Render(fmt, args)| else size)
    ensures len == |Render(fmt, args)| <==> |Render(fmt, args)| <= size
    ensures len + 1 <= size <==> |Render(fmt, args)| < size
  {
    var state := new SprintfState(size);
    DoPrint(fmt, args, state);
    s, len := state.buf, state.len;
  }
}
