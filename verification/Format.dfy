/** What _doprnt prints (tasks/libc/stdio/doprnt.c): the specification of the format
    interpreter, as functions on the rest of the format and the rest of the arguments. */
module Format {
  import opened Text

  /** The '#', '-' and '+' or ' ' flags; plus is NUL when there is neither. */
  datatype Flags = Flags(alt: bool, left: bool, plus: char)

  const NO_FLAGS := Flags(false, false, NUL)

  /** Everything between '%' and the conversion character, that character, and what remains
      of the format and of the arguments behind it. */
  datatype Directive = Directive(flags: Flags, zero: bool, width: int, longs: nat, conv: char,
                                 rest: string, args: seq<int>)

  // Reading an argument. C leaves a missing one undefined; here it is 0.

  function Arg(args: seq<int>): int
  {
    if args == [] then 0 else args[0]
  }

  function Tail(args: seq<int>): seq<int>
  {
    if args == [] then [] else args[1..]
  }

  // ---------- Directives ----------

  function FlagsOf(fmt: string, f: Flags): (r: (Flags, string))
    ensures |r.1| <= |fmt|
  {
    var c := At(fmt, 0);
    if fmt == "" then (f, fmt)
    else if c == '#' then FlagsOf(fmt[1..], f.(alt := true))
    else if c == '-' then FlagsOf(fmt[1..], f.(left := true))
    else if c == '+' then FlagsOf(fmt[1..], f.(plus := '+'))
    else if c == ' ' then FlagsOf(fmt[1..], if f.plus == NUL then f.(plus := ' ') else f)
    else (f, fmt)
  }

  function NumberOf(fmt: string, n: nat): (r: (nat, string))
    ensures |r.1| <= |fmt|
  {
    if fmt != "" && IsDigit(fmt[0]) then NumberOf(fmt[1..], 10 * n + (fmt[0] as int - '0' as int)) else (n, fmt)
  }

  /** A width: digits, or '*' for an argument, whose sign toggles the adjustment. */
  function WidthOf(fmt: string, f: Flags, args: seq<int>): (r: (Flags, int, string, seq<int>))
    ensures |r.2| <= |fmt|
  {
    if IsDigit(At(fmt, 0)) then
      var (n, rest) := NumberOf(fmt, 0); (f, n, rest, args)
    else if At(fmt, 0) == '*' then
      var w := Long(Arg(args));
      (if w < 0 then f.(left := !f.left) else f, if w < 0 then -w else w, fmt[1..], Tail(args))
    else
      (f, 0, fmt, args)
  }

  /** A precision is read and, for the conversions modelled here, ignored. */
  function SkipPrecision(fmt: string, args: seq<int>): (r: (string, seq<int>))
    ensures |r.0| <= |fmt|
  {
    if At(fmt, 0) != '.' then (fmt, args)
    else if IsDigit(At(fmt, 1)) then (NumberOf(fmt[1..], 0).1, args)
    else if At(fmt, 1) == '*' then (fmt[2..], Tail(args))
    else (fmt[1..], args)
  }

  function CountLongs(fmt: string): (n: nat)
    ensures n <= |fmt|
  {
    if At(fmt, 0) == 'l' then 1 + CountLongs(fmt[1..]) else 0
  }

  function DirectiveOf(fmt: string, args: seq<int>): (d: Directive)
    ensures |d.rest| <= |fmt|
  {
    var (f0, r0) := FlagsOf(fmt, NO_FLAGS);
    var zero := At(r0, 0) == '0';
    var r1 := if zero then r0[1..] else r0;
    var (f, w, r2, a1) := WidthOf(r1, f0, args);
    var (r3, a2) := SkipPrecision(r2, a1);
    var longs := CountLongs(r3);
    var r4 := r3[longs..];
    Directive(f, zero, w, longs, At(r4, 0), if At(r4, 0) == NUL then r4 else r4[1..], a2)
  }

  // ---------- Conversions ----------

  function Sign(negative: bool, plus: char): string
  {
    if negative then "-" else if plus == NUL then "" else [plus]
  }

  function BasePrefix(u: nat, base: nat, alt: bool): string
  {
    if u == 0 || !alt then "" else if base == 8 then "0" else if base == 16 then "0x" else ""
  }

  /** Sign, prefix and digits in a field: blanks go in front of all three, zeros between prefix
      and digits, and blanks behind when left-adjusted. Zero padding wins over left-adjustment. */
  function Field(sign: string, prefix: string, digits: string, left: bool, zero: bool, width: int): string
  {
    var pad := width - |digits| - |sign| - |prefix|;
    if zero then sign + prefix + Repeat('0', pad) + digits
    else if left then sign + prefix + digits + Repeat(' ', pad)
    else Repeat(' ', pad) + sign + prefix + digits
  }

  function Number(u: nat, base: nat, sign: string, f: Flags, zero: bool, width: int): string
    requires 2 <= base <= 16
  {
    Field(sign, BasePrefix(u, base, f.alt), Digits(u, base), f.left, zero, width)
  }

  function SignedArg(arg: int, longs: nat): (n: int)
    ensures -0x8000_0000_0000_0000 <= n < 0x8000_0000_0000_0000
  {
    if longs > 1 then (arg + 0x8000_0000_0000_0000) % 0x1_0000_0000_0000_0000 - 0x8000_0000_0000_0000 else Long(arg)
  }

  function UnsignedArg(arg: int, longs: nat): (u: nat)
    ensures u < 0x1_0000_0000_0000_0000
  {
    if longs > 1 then arg % 0x1_0000_0000_0000_0000 else ULong(arg)
  }

  function Magnitude(n: int): nat
  {
    if n < 0 then -n else n
  }

  /** The base of a numeric conversion, 0 for any other. */
  function BaseOf(conv: char): (base: nat)
    ensures base != 0 ==> 8 <= base <= 16
  {
    if conv in {'o', 'O'} then 8
    else if conv in {'d', 'D', 'u', 'U'} then 10
    else if conv in {'x', 'X', 'p', 'z', 'Z'} then 16
    else 0
  }

  predicate IsSigned(conv: char)
  {
    conv in {'d', 'D', 'z', 'Z'}
  }

  /** The conversions that are not modelled. */
  predicate Unmodelled(conv: char)
  {
    conv in {'b', 'B', 't', 's', 'r', 'R', 'n', 'N'}
  }

  /** The number a numeric directive prints without its sign, and the sign. */
  function ValueOf(d: Directive, arg: int): nat
  {
    if IsSigned(d.conv) then Magnitude(SignedArg(arg, d.longs)) else UnsignedArg(arg, d.longs)
  }

  function SignOf(d: Directive, arg: int): string
  {
    if IsSigned(d.conv) then Sign(SignedArg(arg, d.longs) < 0, d.flags.plus) else ""
  }

  /** What a numeric directive prints for its argument. %p sets a width and zero padding of its
      own, behind an "0x" that is not part of the field. */
  function NumberText(d: Directive, arg: int): string
    requires BaseOf(d.conv) != 0
  {
    if d.conv == 'p' then "0x" + Number(ValueOf(d, arg), 16, "", d.flags, true, 8)
    else Number(ValueOf(d, arg), BaseOf(d.conv), SignOf(d, arg), d.flags, d.zero, d.width)
  }

  /** What a directive prints, and the arguments it leaves. */
  function Convert(d: Directive): (string, seq<int>)
  {
    var base := BaseOf(d.conv);
    if d.conv == NUL then ("", d.args)
    else if d.conv == 'c' then ([(Arg(d.args) % 256) as char], Tail(d.args))
    else if base == 0 then ([d.conv], d.args)
    else (NumberText(d, Arg(d.args)), Tail(d.args))
  }

  /** The whole output of _doprnt. */
  function Render(fmt: string, args: seq<int>): string
    decreases |fmt|
  {
    if At(fmt, 0) == NUL then ""
    else if fmt[0] != '%' then [fmt[0]] + Render(fmt[1..], args)
    else
      var d := DirectiveOf(fmt[1..], args);
      Convert(d).0 + Render(d.rest, Convert(d).1)
  }

  /** Every directive that Render meets has a modelled conversion. */
  predicate Supported(fmt: string, args: seq<int>)
    decreases |fmt|
  {
    if At(fmt, 0) == NUL then true
    else if fmt[0] != '%' then Supported(fmt[1..], args)
    else
      var d := DirectiveOf(fmt[1..], args);
      !Unmodelled(d.conv) && Supported(d.rest, Convert(d).1)
  }

  // ---------- What the flags mean ----------

  predicate IsFlag(c: char)
  {
    c == '#' || c == '-' || c == '+' || c == ' '
  }

  /** The flags may come in any order and any number; '+' beats a blank wherever it stands. */
  lemma {:induction false} FlagsMean(fs: string, rest: string, f: Flags)
    requires (forall c :: c in fs ==> IsFlag(c)) && !IsFlag(At(rest, 0))
    ensures FlagsOf(fs + rest, f) == (Flags(
      f.alt || '#' in fs, f.left || '-' in fs,
      if '+' in fs then '+' else if f.plus == NUL && ' ' in fs then ' ' else f.plus), rest)
  {
    if fs == "" {
      assert fs + rest == rest;
    } else {
      var c := fs[0];
      assert (fs + rest)[1..] == fs[1..] + rest;
      assert fs == [c] + fs[1..] && IsFlag(c) && (fs + rest)[0] == c;
      assert '#' in fs <==> c == '#' || '#' in fs[1..];
      assert '-' in fs <==> c == '-' || '-' in fs[1..];
      assert '+' in fs <==> c == '+' || '+' in fs[1..];
      assert ' ' in fs <==> c == ' ' || ' ' in fs[1..];
      var f' := if c == '#' then f.(alt := true) else if c == '-' then f.(left := true)
        else if c == '+' then f.(plus := '+') else if f.plus == NUL then f.(plus := ' ') else f;
      FlagsMean(fs[1..], rest, f');
    }
  }
}
