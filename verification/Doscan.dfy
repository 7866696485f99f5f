/** _doscan over a string (tasks/libc/stdio/doscan.c and sscanf.c). */
module Doscan {
  import opened Text

  /** The value returned, the numbers stored through the pointer arguments, and how many
      characters of the input were consumed. */
  datatype Scanned = Scanned(count: nat, stored: seq<int>, used: nat)
  {
    function Then(r: Scanned): Scanned
    {
      Scanned(count + r.count, stored + r.stored, used + r.used)
    }
  }

  /** Leading '*' characters of a directive: any number of them discards the value. */
  function Stars(fmt: string): (n: nat)
    ensures n <= |fmt|
  {
    if At(fmt, 0) == '*' then 1 + Stars(fmt[1..]) else 0
  }

  /** The format has no %s, and does not end inside a directive. */
  predicate Scannable(fmt: string)
    decreases |fmt|
  {
    if At(fmt, 0) == NUL then true
    else if fmt[0] != '%' then Scannable(fmt[1..])
    else
      var k := Stars(fmt[1..]);
      At(fmt, 1 + k) != NUL && At(fmt, 1 + k) != 's' && Scannable(fmt[2 + k..])
  }

  /** The digits s starts with, maybe none: what they denote, and how many they are. */
  function Run(s: string, base: int): (r: (int, nat))
    ensures r.1 <= |s|
  {
    var n := SpanDigits(s, base);
    (Denotes(s[..n], base), n)
  }

  /** An optional '-' and digits: the value as a 32-bit long, and the length. */
  function Integer(s: string, base: int): (r: (int, nat))
    ensures r.1 <= |s|
  {
    if At(s, 0) == '-' then
      var (v, n) := Run(s[1..], base); (Long(-v), n + 1)
    else
      var (v, n) := Run(s, base); (Long(v), n)
  }

  /** The base of an integer directive, 0 for any other. */
  function ScanBase(conv: char): int
  {
    if conv == 'd' then 10 else if conv == 'x' then 16 else 0
  }

  /** One directive: an unknown one reads nothing, but counts all the same. */
  function ScanDirective(conv: char, discard: bool, s: string): (r: Scanned)
    ensures r.used <= |s|
  {
    if ScanBase(conv) != 0 then
      var (v, n) := Integer(s, ScanBase(conv));
      Scanned(if discard then 0 else 1, if discard then [] else [v], n)
    else
      Scanned(if discard then 0 else 1, [], 0)
  }

  /** A format character other than '%': white space matches any white space, another character
      only itself. Whether the scan goes on, and how much is consumed: the character that does
      not match is consumed too. */
  function Plain(c: char, s: string): (r: (bool, nat))
    requires c != NUL
    ensures r.0 ==> r.1 <= |s|
  {
    if IsSpace(c) then (true, SpanSpaces(s)) else (At(s, 0) == c, 1)
  }

  function Scan(fmt: string, s: string): Scanned
    requires Scannable(fmt)
    decreases |fmt|
  {
    if At(fmt, 0) == NUL then Scanned(0, [], 0)
    else if fmt[0] == '%' then
      var k := Stars(fmt[1..]);
      var r := ScanDirective(At(fmt, 1 + k), k > 0, s);
      r.Then(Scan(fmt[2 + k..], s[r.used..]))
    else
      var (go, n) := Plain(fmt[0], s);
      if go then Scanned(0, [], n).Then(Scan(fmt[1..], s[n..])) else Scanned(0, [], n)
  }

  // ---------- The cursor of sscanf.c ----------

  class Cursor {
    const s: string
    var pos: nat

    constructor (s: string)
      ensures this.s == s && pos == 0
    {
      this.s := s;
      pos := 0;
    }

    /** What is left of the input. */
    function Rest(): string
      requires pos <= |s|
      reads this
    {
      s[pos..]
    }

    /** readchar: it may read the NUL at the end, and nothing beyond. */
    method Readchar() returns (c: char)
      requires pos <= |s|
      modifies this
      ensures c == At(s, old(pos)) && pos == old(pos) + 1
    {
      c := At(s, pos);
      pos := pos + 1;
    }

    /** unchar */
    method Unchar()
      requires pos > 0
      modifies this
      ensures pos == old(pos) - 1
    {
      pos := pos - 1;
    }
  }

  /** Lines 59 and 60 of _doscan. */
  method ScanSpaces(cur: Cursor)
    requires cur.pos <= |cur.s|
    modifies cur
    ensures cur.pos == old(cur.pos) + SpanSpaces(old(cur.Rest())) && cur.pos <= |cur.s|
  {
    var c := cur.Readchar();
    while IsSpace(c)
      invariant 0 < cur.pos <= |cur.s| + 1 && c == At(cur.s, cur.pos - 1)
      invariant cur.pos - 1 + SpanSpaces(cur.s[cur.pos - 1..]) == old(cur.pos) + SpanSpaces(old(cur.Rest()))
      decreases |cur.s| + 1 - cur.pos
    {
      assert cur.s[cur.pos - 1..][1..] == cur.s[cur.pos..];
      c := cur.Readchar();
    }
    cur.Unchar();
  }

  /** The digit loop of %d and of %x, from the lookahead c0 on. The accumulator is a 32-bit long. */
  method ScanDigits(cur: Cursor, c0: char, base: int, ghost rest: string) returns (n: int)
    requires 0 < cur.pos <= |cur.s| + 1 && rest == cur.s[cur.pos - 1..] && c0 == At(rest, 0)
    modifies cur
    ensures cur.pos == old(cur.pos) - 1 + Run(rest, base).1 && n == Long(Run(rest, base).0)
  {
    var c := c0;
    n := 0;
    ghost var k := 0;
    while DigitOf(c, base) >= 0
      invariant k <= |rest| && cur.pos == old(cur.pos) + k && c == At(rest, k)
      invariant AllDigits(rest[..k], base) && n == Long(Denotes(rest[..k], base))
      decreases |rest| - k
    {
      DigitStep(rest, k, base);
      n := Long(n * base + DigitOf(c, base));
      c := cur.Readchar();
      k := k + 1;
    }
    RunEnd(rest, k, base);
    cur.Unchar();
  }

  lemma RunEnd(rest: string, k: nat, base: int)
    requires k <= |rest| && AllDigits(rest[..k], base) && DigitOf(At(rest, k), base) < 0
    ensures Run(rest, base) == (Denotes(rest[..k], base), k)
  {
    assert rest == rest[..k] + rest[k..];
    SpanExactly(rest[..k], rest[k..], base);
  }

  lemma DigitStep(p: string, k: nat, base: int)
    requires k < |p| && AllDigits(p[..k], base) && DigitOf(p[k], base) >= 0
    ensures AllDigits(p[..k + 1], base)
    ensures Long(Denotes(p[..k + 1], base)) == Long(Long(Denotes(p[..k], base)) * base + DigitOf(p[k], base))
  {
    assert p[..k + 1] == p[..k] + [p[k]];
    DenotesSnoc(p[..k], p[k], base);
    LongStep(Denotes(p[..k], base), base, DigitOf(p[k], base));
  }

  /** The %d and %x cases, up to the store. */
  method ScanInteger(cur: Cursor, base: int) returns (n: int)
    requires cur.pos <= |cur.s|
    modifies cur
    ensures cur.pos == old(cur.pos) + Integer(old(cur.Rest()), base).1 && cur.pos <= |cur.s|
    ensures n == Integer(old(cur.Rest()), base).0
  {
    ghost var rest := cur.Rest();
    var c := cur.Readchar();
    var neg := c == '-';
    if neg {
      c := cur.Readchar();
      rest := rest[1..];
    }
    n := ScanDigits(cur, c, base, rest);
    if neg {
      LongNegate(Run(rest, base).0);
      n := Long(-n);
    }
  }

  /** Lines 57 to 66 of _doscan: a format character that is not '%'. */
  method MatchPlain(c: char, cur: Cursor) returns (go: bool)
    requires cur.pos <= |cur.s| && c != NUL
    modifies cur
    ensures old(cur.pos) <= cur.pos && (go, cur.pos - old(cur.pos)) == Plain(c, old(cur.Rest()))
  {
    go := true;
    if IsSpace(c) {
      ScanSpaces(cur);
    } else {
      var d := cur.Readchar();
      go := c == d;
    }
  }

  /** The switch of _doscan, and the count behind it. */
  method MatchDirective(conv: char, discard: bool, cur: Cursor) returns (count: nat, stored: seq<int>)
    requires cur.pos <= |cur.s|
    modifies cur
    ensures cur.pos <= |cur.s| && old(cur.pos) <= cur.pos
    ensures ScanDirective(conv, discard, old(cur.Rest())) == Scanned(count, stored, cur.pos - old(cur.pos))
  {
    count, stored := 0, [];
    if ScanBase(conv) != 0 {
      var n := ScanInteger(cur, ScanBase(conv));
      if !discard {
        stored := [n];
      }
    }
    if !discard {
      count := 1;
    }
  }

  /** The scan has done what done says, and the rest of the format is to be matched with s. */
  ghost predicate Progress(all: Scanned, done: Scanned, fmt: string, s: string)
  {
    Scannable(fmt) && all == done.Then(Scan(fmt, s))
  }

  lemma ProgressStart(fmt: string, s: string)
    requires Scannable(fmt)
    ensures Progress(Scan(fmt, s), Scanned(0, [], 0), fmt[0..], s)
  {
    assert fmt[0..] == fmt;
    ThenNothing(Scan(fmt, s), 0);
  }

  lemma ProgressEnd(all: Scanned, done: Scanned, fmt: string, s: string)
    requires Progress(all, done, fmt, s) && At(fmt, 0) == NUL
    ensures all == done
  {
    ThenNothing(done, 0);
  }

  lemma DirectiveStep(all: Scanned, done: Scanned, fmt: string, s: string, k: nat, r: Scanned, fmt': string, s': string)
    requires Progress(all, done, fmt, s) && At(fmt, 0) == '%' && k == Stars(fmt[1..])
    requires r == ScanDirective(At(fmt, 1 + k), k > 0, s) && s' == s[r.used..]
    requires 2 + k <= |fmt| ==> fmt' == fmt[2 + k..]
    ensures 2 + k <= |fmt| && Progress(all, done.Then(r), fmt', s')
  {
    ThenAssoc(done, r, Scan(fmt', s'));
  }

  lemma PlainStep(all: Scanned, done: Scanned, fmt: string, s: string, go: bool, n: nat)
    requires Progress(all, done, fmt, s) && At(fmt, 0) != NUL && fmt[0] != '%' && (go, n) == Plain(fmt[0], s)
    ensures go ==> Progress(all, done.Then(Scanned(0, [], n)), fmt[1..], s[n..])
    ensures !go ==> all == done.Then(Scanned(0, [], n))
  {
    if go {
      ThenAssoc(done, Scanned(0, [], n), Scan(fmt[1..], s[n..]));
    }
  }

  /** One directive of the format, from its '%' on. */
  method ScanItem(fmt: string, i: nat, cur: Cursor, ghost all: Scanned, ghost done: Scanned)
    returns (count: nat, got: seq<int>, j: nat)
    requires cur.pos <= |cur.s| && i < |fmt| && fmt[i] == '%' && Progress(all, done, fmt[i..], cur.Rest())
    modifies cur
    ensures old(cur.pos) <= cur.pos <= |cur.s| && i < j <= |fmt|
    ensures Progress(all, done.Then(Scanned(count, got, cur.pos - old(cur.pos))), fmt[j..], cur.Rest())
  {
    ghost var s, rest := cur.Rest(), fmt[i..];
    assert rest[1..] == fmt[i + 1..];
    var k := CountStars(fmt, i + 1);
    count, got := MatchDirective(At(fmt, i + 1 + k), k > 0, cur);
    j := i + 2 + k;
    ghost var r := Scanned(count, got, cur.pos - old(cur.pos));
    assert cur.Rest() == s[r.used..] && At(rest, 1 + k) == At(fmt, i + 1 + k);
    DirectiveStep(all, done, rest, s, k, r, if j <= |fmt| then fmt[j..] else "", cur.Rest());
  }

  /** One format character that is not '%'. */
  method ScanChar(fmt: string, i: nat, cur: Cursor, ghost all: Scanned, ghost done: Scanned) returns (go: bool)
    requires cur.pos <= |cur.s| && At(fmt, i) != NUL && fmt[i] != '%' && Progress(all, done, fmt[i..], cur.Rest())
    modifies cur
    ensures old(cur.pos) <= cur.pos
    ensures var done' := Scanned(done.count, done.stored, done.used + cur.pos - old(cur.pos));
      if go then cur.pos <= |cur.s| && Progress(all, done', fmt[i + 1..], cur.Rest()) else all == done'
  {
    ghost var s, n, rest := cur.Rest(), 0, fmt[i..];
    go := MatchPlain(fmt[i], cur);
    n := cur.pos - old(cur.pos);
    PlainStep(all, done, rest, s, go, n);
    ThenNothing(done, n);
    assert rest[1..] == fmt[i + 1..];
    if go {
      assert s[n..] == cur.Rest();
    }
  }

  /** _doscan, with the stored numbers in order: it does all that is to be done at its start,
      which is Scan of the format and the input. */
  method DoScan(fmt: string, cur: Cursor, ghost rest: string, ghost all: Scanned) returns (vals: nat, stored: seq<int>)
    requires cur.pos <= |cur.s| && rest == cur.Rest() && Progress(all, Scanned(0, [], 0), fmt[0..], rest)
    modifies cur
    ensures cur.pos >= old(cur.pos) && all == Scanned(vals, stored, cur.pos - old(cur.pos))
  {
    hide Progress, Scan, Scannable;
    vals, stored := 0, [];
    var i: nat := 0;
    ghost var p0 := cur.pos;
    while At(fmt, i) != NUL
      invariant i <= |fmt| && p0 <= cur.pos <= |cur.s|
      invariant Progress(all, Scanned(vals, stored, cur.pos - p0), fmt[i..], cur.Rest())
      decreases |fmt| - i
    {
      ghost var done := Scanned(vals, stored, cur.pos - p0);
      if fmt[i] != '%' {
        var go := ScanChar(fmt, i, cur, all, done);
        if !go {
          return;
        }
        i := i + 1;
      } else {
        var count, got, j := ScanItem(fmt, i, cur, all, done);
        vals, stored, i := vals + count, stored + got, j;
      }
    }
    ProgressEnd(all, Scanned(vals, stored, cur.pos - p0), fmt[i..], cur.Rest());
  }

  /** vsscanf: what it returns and what it stores. */
  method Vsscanf(s: string, fmt: string) returns (vals: nat, stored: seq<int>)
    requires Scannable(fmt)
    ensures vals == Scan(fmt, s).count && stored == Scan(fmt, s).stored
  {
    hide Progress, Scan, Scannable;
    var cur := new Cursor(s);
    assert cur.Rest() == s;
    ProgressStart(fmt, s);
    ghost var all := Scan(fmt, s);
    vals, stored := DoScan(fmt, cur, s, all);
  }

  lemma ThenNothing(a: Scanned, n: nat)
    ensures a.Then(Scanned(0, [], n)) == Scanned(a.count, a.stored, a.used + n)
    ensures Scanned(0, [], 0).Then(a) == a
  {
  }

  lemma ThenAssoc(a: Scanned, b: Scanned, c: Scanned)
    ensures a.Then(b.Then(c)) == a.Then(b).Then(c)
  {
  }

  /** The '*' characters of a directive, line 162. */
  method CountStars(fmt: string, i: nat) returns (k: nat)
    requires i <= |fmt|
    ensures k == Stars(fmt[i..]) && i + k <= |fmt|
  {
    k := 0;
    while At(fmt, i + k) == '*'
      invariant i + k <= |fmt| && k + Stars(fmt[i + k..]) == Stars(fmt[i..])
      decreases |fmt| - k
    {
      assert fmt[i + k..][1..] == fmt[i + k + 1..];
      k := k + 1;
    }
  }
}
