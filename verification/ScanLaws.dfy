/** When the count that sscanf returns is the number of numbers in the input. */
module ScanLaws {
  import opened Text
  import opened Doscan

  /** A directive that the scan reaches, and the input that is left there. */
  datatype Attempt = Attempt(conv: char, discard: bool, input: string)

  function Reached(fmt: string, s: string): seq<Attempt>
    requires Scannable(fmt)
    decreases |fmt|
  {
    if At(fmt, 0) == NUL then []
    else if fmt[0] == '%' then
      var k := Stars(fmt[1..]);
      var a := Attempt(At(fmt, 1 + k), k > 0, s);
      [a] + Reached(fmt[2 + k..], s[ScanDirective(a.conv, a.discard, s).used..])
    else
      var (go, n) := Plain(fmt[0], s);
      if go then Reached(fmt[1..], s[n..]) else []
  }

  /** There is a digit among the characters that the directive takes. */
  ghost predicate ReadsNumber(a: Attempt)
  {
    && ScanBase(a.conv) != 0
    && exists i :: 0 <= i < ScanDirective(a.conv, a.discard, a.input).used && DigitOf(a.input[i], ScanBase(a.conv)) >= 0
  }

  /** The input goes on with a number: a digit, or '-' and a digit. */
  predicate NumberAhead(a: Attempt)
  {
    var base := ScanBase(a.conv);
    base != 0 && (DigitOf(At(a.input, 0), base) >= 0 || (At(a.input, 0) == '-' && DigitOf(At(a.input, 1), base) >= 0))
  }

  /** The numbers that are read and not thrown away. */
  ghost function Present(reached: seq<Attempt>): nat
  {
    if reached == [] then 0
    else (if !reached[0].discard && ReadsNumber(reached[0]) then 1 else 0) + Present(reached[1..])
  }

  /** Nothing is missing where a directive wants a number that it does not throw away. */
  predicate NoneMissing(reached: seq<Attempt>)
  {
    forall i :: 0 <= i < |reached| && !reached[i].discard ==> NumberAhead(reached[i])
  }

  lemma FirstIsDigit(s: string, base: int)
    ensures Run(s, base).1 > 0 <==> DigitOf(At(s, 0), base) >= 0
    ensures Run(s, base).1 > 0 ==> s != "" && DigitOf(s[0], base) >= 0
    ensures Run(s, base).1 == 0 ==> Run(s, base).0 == 0
  {
    assert s[..0] == "";
  }

  /** A directive reads a number iff one lies ahead. If not, it takes nothing, or a lone '-', and
      its value is 0. */
  lemma {:induction false} ReadsExactly(a: Attempt)
    requires ScanBase(a.conv) != 0
    ensures ReadsNumber(a) <==> NumberAhead(a)
    ensures !NumberAhead(a) ==> Integer(a.input, ScanBase(a.conv)) == (0, if At(a.input, 0) == '-' then 1 else 0)
  {
    var s, base := a.input, ScanBase(a.conv);
    var used := ScanDirective(a.conv, a.discard, s).used;
    if At(s, 0) == '-' {
      FirstIsDigit(s[1..], base);
      assert At(s[1..], 0) == At(s, 1);
      if NumberAhead(a) { assert s[1..][0] == s[1] && 1 < used; }
    } else {
      FirstIsDigit(s, base);
      if NumberAhead(a) { assert 0 < used; }
    }
  }

  lemma OneDirective(s: string)
    ensures Scannable("%d") && Scan("%d", s) == ScanDirective('d', false, s)
    ensures Reached("%d", s) == [Attempt('d', false, s)]
  {
    hide Integer;
    assert Stars("d") == 0 && "%d"[1..] == "d" && "%d"[2..] == "";
    var r := ScanDirective('d', false, s);
    assert Scan("", s[r.used..]) == Scanned(0, [], 0) && Reached("", s[r.used..]) == [];
  }

  /** The count of "%d" is 1 whatever the input is, and one number is stored. It was read from the
      input iff that starts with a digit, or with '-' and a digit; else it is 0. */
  lemma MissingNumberCounts(s: string)
    ensures Scannable("%d")
    ensures var r, a := Scan("%d", s), Attempt('d', false, s);
      && r.count == 1 && |r.stored| == 1 && Reached("%d", s) == [a]
      && (ReadsNumber(a) <==> IsDigit(At(s, 0)) || (At(s, 0) == '-' && IsDigit(At(s, 1))))
      && (!ReadsNumber(a) ==> r == Scanned(1, [0], if At(s, 0) == '-' then 1 else 0))
  {
    hide Scan, Scannable, Reached, Integer, ReadsNumber;
    OneDirective(s);
    ReadsExactly(Attempt('d', false, s));
  }

  /** Two inputs without a number. */
  lemma NothingToRead()
    ensures Scannable("%d") && Scan("%d", "x") == Scanned(1, [0], 0) && Scan("%d", "-x") == Scanned(1, [0], 1)
    ensures Present(Reached("%d", "x")) == Present(Reached("%d", "-x")) == 0
  {
    MissingNumberCounts("x");
    MissingNumberCounts("-x");
  }

  /** How many directives count. */
  function Kept(reached: seq<Attempt>): nat
  {
    if reached == [] then 0 else (if reached[0].discard then 0 else 1) + Kept(reached[1..])
  }

  lemma DirectiveCounts(conv: char, discard: bool, s: string)
    ensures ScanDirective(conv, discard, s).count == if discard then 0 else 1
  {
  }

  lemma {:induction false} CountsKept(fmt: string, s: string)
    requires Scannable(fmt)
    ensures Scan(fmt, s).count == Kept(Reached(fmt, s))
    decreases |fmt|
  {
    hide ScanDirective, Plain, Stars;
    if At(fmt, 0) == NUL {
    } else if fmt[0] == '%' {
      var k := Stars(fmt[1..]);
      var a := Attempt(At(fmt, 1 + k), k > 0, s);
      var r := ScanDirective(a.conv, a.discard, s);
      var rest := s[r.used..];
      DirectiveCounts(a.conv, a.discard, s);
      CountsKept(fmt[2 + k..], rest);
      assert Reached(fmt, s) == [a] + Reached(fmt[2 + k..], rest);
      assert Scan(fmt, s) == r.Then(Scan(fmt[2 + k..], rest));
    } else {
      var (go, n) := Plain(fmt[0], s);
      if go { CountsKept(fmt[1..], s[n..]); }
    }
  }

  lemma {:induction false} PresentExactly(reached: seq<Attempt>)
    ensures Present(reached) <= Kept(reached)
    ensures Present(reached) == Kept(reached) <==> NoneMissing(reached)
  {
    if reached != [] {
      var a, rest := reached[0], reached[1..];
      PresentExactly(rest);
      if ScanBase(a.conv) != 0 { ReadsExactly(a); }
      assert NoneMissing(reached) <==> (a.discard || NumberAhead(a)) && NoneMissing(rest) by {
        assert forall i :: 0 <= i < |rest| ==> rest[i] == reached[i + 1];
        assert forall i :: 0 < i < |reached| ==> reached[i] == rest[i - 1];
      }
    }
  }

  /** For every format and input: the count is never too low, and it is the number of numbers read
      iff no directive that counts stands where there is no number. Unknown directives count too,
      and read nothing. */
  lemma {:induction false} CountExactly(fmt: string, s: string)
    requires Scannable(fmt)
    ensures Scan(fmt, s).count >= Present(Reached(fmt, s))
    ensures Scan(fmt, s).count == Present(Reached(fmt, s)) <==> NoneMissing(Reached(fmt, s))
  {
    CountsKept(fmt, s);
    PresentExactly(Reached(fmt, s));
  }

  // ---------- What a format character does ----------

  /** A character other than '%' and white space: the scan goes on behind it iff the input goes on with
      just that character. If not, the scan ends there, with nothing counted or stored any more. */
  lemma LiteralExactly(c: char, rest: string, s: string)
    requires c != NUL && c != '%' && !IsSpace(c) && Scannable(rest)
    ensures Scannable([c] + rest)
    ensures var r := Scan([c] + rest, s);
      if s != "" && s[0] == c then
        var q := Scan(rest, s[1..]); r.count == q.count && r.stored == q.stored && r.used == 1 + q.used
      else r.count == 0 && r.stored == [] && r.used == 1
  {
    assert ([c] + rest)[1..] == rest;
  }

  /** White space in the format takes all the white space that comes, maybe none. */
  lemma BlankExactly(c: char, rest: string, blanks: string, s: string)
    requires IsSpace(c) && Scannable(rest)
    requires (forall i :: 0 <= i < |blanks| ==> IsSpace(blanks[i])) && (s == "" || !IsSpace(s[0]))
    ensures Scannable([c] + rest)
    ensures var r, q := Scan([c] + rest, blanks + s), Scan(rest, s);
      r.count == q.count && r.stored == q.stored && r.used == |blanks| + q.used
  {
    assert ([c] + rest)[1..] == rest && (blanks + s)[|blanks|..] == s;
    SpanSpacesExactly(blanks, s);
  }

  lemma {:induction false} StarsRead(k: nat, t: string)
    requires At(t, 0) != '*'
    ensures Stars(Repeat('*', k) + t) == k && (Repeat('*', k) + t)[k..] == t
  {
    if k == 0 {
      assert Repeat('*', 0) + t == t;
    } else {
      assert (Repeat('*', k) + t)[1..] == Repeat('*', k - 1) + t;
      StarsRead(k - 1, t);
    }
  }

  /** A directive with any number of '*' takes the same input as without: with none its value is stored
      and counted, with one or more it is not. */
  lemma DirectiveExactly(k: nat, c: char, rest: string, s: string)
    requires (c == 'd' || c == 'x') && Scannable(rest)
    ensures Scannable("%" + (Repeat('*', k) + ([c] + rest)))
    ensures var r := Scan("%" + (Repeat('*', k) + ([c] + rest)), s);
      var (v, n) := Integer(s, if c == 'd' then 10 else 16);
      var q := Scan(rest, s[n..]);
      && r.count == (if k == 0 then 1 else 0) + q.count
      && r.stored == (if k == 0 then [v] else []) + q.stored && r.used == n + q.used
  {
    hide Integer;
    var fmt := "%" + (Repeat('*', k) + ([c] + rest));
    StarsRead(k, [c] + rest);
    assert fmt[1..] == Repeat('*', k) + ([c] + rest);
    assert fmt[1 + k..] == fmt[1..][k..] == [c] + rest;
    assert At(fmt, 1 + k) == c by { assert fmt[1 + k] == fmt[1 + k..][0]; }
    assert fmt[2 + k..] == fmt[1 + k..][1..] == rest;
  }
}
