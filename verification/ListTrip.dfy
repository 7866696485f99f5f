/** Printing a list of ints with sprintf and reading it back with sscanf under the same format. */
module ListTrip {
  import opened Text
  import opened Format
  import opened Doscan

  /** One number of the list: the conversion it is printed and read with, and its value. */
  datatype Item = Item(conv: char, value: int)

  predicate IsInt(x: int)
  {
    -0x8000_0000 <= x < 0x8000_0000
  }

  predicate IsItem(x: Item)
  {
    (x.conv == 'd' || x.conv == 'x') && IsInt(x.value)
  }

  /** A character that can stand behind a number of the given conversion. */
  predicate Separates(conv: char, c: char)
  {
    c != NUL && c != '%' && DigitOf(c, ScanBase(conv)) < 0
  }

  /** Ints, each with %d or %x, and a separator behind each but the last. */
  ghost predicate IsList(xs: seq<Item>, seps: seq<char>)
  {
    && (xs != [] ==> |seps| == |xs| - 1)
    && (forall i :: 0 <= i < |xs| ==> IsItem(xs[i]))
    && (forall i :: 0 <= i < |xs| - 1 ==> Separates(xs[i].conv, seps[i]))
  }

  function Percent(conv: char): string
  {
    ['%', conv]
  }

  function ListFormat(xs: seq<Item>, seps: seq<char>): string
    requires xs != [] ==> |seps| == |xs| - 1
  {
    if xs == [] then "" else if |xs| == 1 then Percent(xs[0].conv)
    else Percent(xs[0].conv) + ([seps[0]] + ListFormat(xs[1..], seps[1..]))
  }

  function Values(xs: seq<Item>): seq<int>
  {
    if xs == [] then [] else [xs[0].value] + Values(xs[1..])
  }

  /** What %d or %x prints for an int. */
  function Printed(x: Item): string
  {
    if x.conv == 'd' then Sign(x.value < 0, NUL) + Digits(Magnitude(x.value), 10) else Digits(ULong(x.value), 16)
  }

  function Joined(xs: seq<Item>, seps: seq<char>): string
    requires xs != [] ==> |seps| == |xs| - 1
  {
    if xs == [] then "" else if |xs| == 1 then Printed(xs[0])
    else Printed(xs[0]) + ([seps[0]] + Joined(xs[1..], seps[1..]))
  }

  // ---------- Printing ----------

  lemma PlainDirective(conv: char, rest: string, args: seq<int>)
    requires conv == 'd' || conv == 'x'
    ensures DirectiveOf([conv] + rest, args) == Directive(NO_FLAGS, false, 0, 0, conv, rest, args)
  {
    var fmt := [conv] + rest;
    assert FlagsOf(fmt, NO_FLAGS) == (NO_FLAGS, fmt);
    assert WidthOf(fmt, NO_FLAGS, args) == (NO_FLAGS, 0, fmt, args);
    assert SkipPrecision(fmt, args) == (fmt, args);
    assert CountLongs(fmt) == 0 && fmt[0..] == fmt && fmt[1..] == rest;
  }

  lemma PlainField(sign: string, digits: string)
    ensures Field(sign, "", digits, false, false, 0) == sign + digits
  {
    assert Repeat(' ', 0 - |digits| - |sign| - 0) == "";
  }

  lemma PlainNumber(x: Item, d: Directive)
    requires d == Directive(NO_FLAGS, false, 0, 0, x.conv, d.rest, d.args) && IsItem(x) && Arg(d.args) == x.value
    ensures Convert(d) == (Printed(x), Tail(d.args))
  {
    hide Digits, Field;
    if x.conv == 'd' {
      PlainField(Sign(x.value < 0, NUL), Digits(Magnitude(x.value), 10));
    } else {
      PlainField("", Digits(ULong(x.value), 16));
      assert "" + Digits(ULong(x.value), 16) == Digits(ULong(x.value), 16);
    }
  }

  lemma RenderItem(x: Item, rest: string, args: seq<int>)
    requires args != [] && IsItem(x) && args[0] == x.value
    ensures Render(Percent(x.conv) + rest, args) == Printed(x) + Render(rest, args[1..])
  {
    var fmt := Percent(x.conv) + rest;
    assert fmt[1..] == [x.conv] + rest;
    PlainDirective(x.conv, rest, args);
    PlainNumber(x, DirectiveOf(fmt[1..], args));
  }

  lemma RenderPlain(c: char, rest: string, args: seq<int>)
    requires c != NUL && c != '%'
    ensures Render([c] + rest, args) == [c] + Render(rest, args)
  {
    assert ([c] + rest)[1..] == rest;
  }

  lemma TailIsList(xs: seq<Item>, seps: seq<char>)
    requires IsList(xs, seps) && |xs| > 1
    ensures IsList(xs[1..], seps[1..]) && IsItem(xs[0]) && Separates(xs[0].conv, seps[0])
  {
    var ys, ts := xs[1..], seps[1..];
    assert forall i :: 0 <= i < |ys| ==> ys[i] == xs[i + 1];
    assert forall i :: 0 <= i < |ts| ==> ts[i] == seps[i + 1];
  }

  lemma {:induction false} RenderList(xs: seq<Item>, seps: seq<char>)
    requires IsList(xs, seps)
    ensures Render(ListFormat(xs, seps), Values(xs)) == Joined(xs, seps)
  {
    hide Convert, DirectiveOf, Printed, IsItem, Percent;
    if |xs| == 1 {
      assert IsItem(xs[0]) && Percent(xs[0].conv) + "" == Percent(xs[0].conv);
      RenderItem(xs[0], "", Values(xs));
      assert Printed(xs[0]) + "" == Printed(xs[0]);
    } else if |xs| > 1 {
      TailIsList(xs, seps);
      var rest := ListFormat(xs[1..], seps[1..]);
      RenderItem(xs[0], [seps[0]] + rest, Values(xs));
      RenderPlain(seps[0], rest, Values(xs[1..]));
      RenderList(xs[1..], seps[1..]);
    }
  }

  // ---------- Scanning ----------

  lemma DigitsStart(u: nat, base: nat)
    requires 2 <= base <= 16
    ensures !IsSpace(Digits(u, base)[0]) && Digits(u, base)[0] != '-'
  {
    DigitsAreDigits(u, base);
    assert Digits(u, base)[0] in Digits(u, base);
  }

  lemma PrintedStart(x: Item)
    ensures Printed(x) != "" && !IsSpace(Printed(x)[0])
    ensures Printed(x)[0] == '-' <==> x.conv == 'd' && x.value < 0
  {
    hide Digits;
    DigitsStart(Magnitude(x.value), 10);
    DigitsStart(ULong(x.value), 16);
  }

  lemma RunOfDigits(u: nat, base: nat, rest: string)
    requires 2 <= base <= 16 && DigitOf(At(rest, 0), base) < 0
    ensures Run(Digits(u, base) + rest, base) == (u, |Digits(u, base)|)
  {
    var d := Digits(u, base);
    DigitsAreDigits(u, base);
    forall i | 0 <= i < |d| ensures DigitOf(d[i], base) >= 0 {
      assert d[i] in d;
    }
    SpanExactly(d, rest, base);
    assert (d + rest)[..|d|] == d && "" + d == d;
    DigitsDenote("", u, base);
  }

  /** An int read modulo 2^32 is that int again: so %x brings back negative numbers. */
  lemma LongOfULong(x: int)
    requires IsInt(x)
    ensures Long(ULong(x)) == x
  {
  }

  /** A printed int in front of something that is no digit reads back as itself. */
  lemma IntegerOfPrinted(x: Item, rest: string)
    requires IsItem(x) && DigitOf(At(rest, 0), ScanBase(x.conv)) < 0
    ensures Integer(Printed(x) + rest, ScanBase(x.conv)) == (x.value, |Printed(x)|)
  {
    hide Digits, Denotes, Run, Long, ULong;
    var s := Printed(x) + rest;
    PrintedStart(x);
    LongOfULong(x.value);
    if x.conv == 'x' {
      RunOfDigits(ULong(x.value), 16, rest);
    } else {
      RunOfDigits(Magnitude(x.value), 10, rest);
      if x.value < 0 {
        assert s[1..] == Digits(Magnitude(x.value), 10) + rest;
      } else {
        assert s == Digits(Magnitude(x.value), 10) + rest;
      }
    }
  }

  lemma ScannableItem(conv: char, rest: string)
    requires Scannable(rest) && (conv == 'd' || conv == 'x')
    ensures Scannable(Percent(conv) + rest)
  {
    var fmt := Percent(conv) + rest;
    assert Stars(fmt[1..]) == 0 && fmt[2..] == rest;
  }

  lemma {:induction false} ListFormatScannable(xs: seq<Item>, seps: seq<char>)
    requires IsList(xs, seps)
    ensures Scannable(ListFormat(xs, seps))
  {
    if |xs| == 1 {
      assert IsItem(xs[0]);
      ScannableItem(xs[0].conv, "");
      assert Percent(xs[0].conv) + "" == Percent(xs[0].conv);
    } else if |xs| > 1 {
      TailIsList(xs, seps);
      var rest := ListFormat(xs[1..], seps[1..]);
      ListFormatScannable(xs[1..], seps[1..]);
      assert ([seps[0]] + rest)[1..] == rest;
      ScannableItem(xs[0].conv, [seps[0]] + rest);
    }
  }

  /** One item: the number is stored and counted, and the scan goes on behind it. */
  lemma ScanItemOnce(x: Item, rest: string, s: string)
    requires Scannable(rest) && IsItem(x) && DigitOf(At(s, 0), ScanBase(x.conv)) < 0
    ensures Scannable(Percent(x.conv) + rest)
    ensures Scan(Percent(x.conv) + rest, Printed(x) + s) == Scanned(1, [x.value], |Printed(x)|).Then(Scan(rest, s))
  {
    hide Printed, Integer;
    var fmt := Percent(x.conv) + rest;
    ScannableItem(x.conv, rest);
    assert Stars(fmt[1..]) == 0 && fmt[2..] == rest;
    IntegerOfPrinted(x, s);
    assert (Printed(x) + s)[|Printed(x)|..] == s;
  }

  /** One separator, white space or not, in front of something that is no white space. */
  lemma ScanSeparator(c: char, rest: string, s: string)
    requires Scannable(rest) && c != NUL && c != '%' && s != "" && !IsSpace(s[0])
    ensures Scannable([c] + rest)
    ensures Scan([c] + rest, [c] + s) == Scanned(0, [], 1).Then(Scan(rest, s))
  {
    assert ([c] + rest)[1..] == rest && ([c] + s)[1..] == s;
    if IsSpace(c) {
      SpanSpacesExactly([c], s);
    }
  }

  lemma ScanNothing(s: string)
    ensures Scannable("") && Scan("", s) == Scanned(0, [], 0)
  {
  }

  lemma JoinedStart(xs: seq<Item>, seps: seq<char>)
    requires xs != [] && |seps| == |xs| - 1
    ensures Joined(xs, seps) != "" && !IsSpace(Joined(xs, seps)[0])
  {
    hide Printed;
    PrintedStart(xs[0]);
    assert Joined(xs, seps)[0] == Printed(xs[0])[0];
  }

  lemma {:induction false} ScanList(xs: seq<Item>, seps: seq<char>)
    requires IsList(xs, seps)
    ensures Scannable(ListFormat(xs, seps))
    ensures Scan(ListFormat(xs, seps), Joined(xs, seps)) == Scanned(|xs|, Values(xs), |Joined(xs, seps)|)
    decreases xs, 1
  {
    hide Scan, Scannable, Printed, Percent, IsItem;
    ListFormatScannable(xs, seps);
    if xs == [] {
      ScanNothing("");
    } else if |xs| == 1 {
      assert IsItem(xs[0]) && Percent(xs[0].conv) + "" == Percent(xs[0].conv) && Printed(xs[0]) + "" == Printed(xs[0]);
      ScanNothing("");
      ScanItemOnce(xs[0], "", "");
    } else {
      ScanListStep(xs, seps);
    }
  }

  lemma Unfold(xs: seq<Item>, seps: seq<char>)
    requires |xs| > 1 && |seps| == |xs| - 1
    ensures ListFormat(xs, seps) == Percent(xs[0].conv) + ([seps[0]] + ListFormat(xs[1..], seps[1..]))
    ensures Joined(xs, seps) == Printed(xs[0]) + ([seps[0]] + Joined(xs[1..], seps[1..]))
    ensures Values(xs) == [xs[0].value] + Values(xs[1..])
  {
  }

  lemma ThenTwice(v: int, n: nat, k: nat, vs: seq<int>, m: nat)
    ensures Scanned(1, [v], n).Then(Scanned(0, [], 1).Then(Scanned(k, vs, m))) == Scanned(1 + k, [v] + vs, n + 1 + m)
  {
    assert [] + vs == vs;
  }

  lemma {:induction false} ScanListStep(xs: seq<Item>, seps: seq<char>)
    requires IsList(xs, seps) && |xs| > 1
    ensures Scannable(ListFormat(xs, seps))
    ensures Scan(ListFormat(xs, seps), Joined(xs, seps)) == Scanned(|xs|, Values(xs), |Joined(xs, seps)|)
    decreases xs, 0
  {
    hide Scan, Scannable, Printed, Percent, IsItem, IsSpace, DigitOf, ListFormat, Joined, Values;
    TailIsList(xs, seps);
    Unfold(xs, seps);
    var rest, s := ListFormat(xs[1..], seps[1..]), Joined(xs[1..], seps[1..]);
    ScanList(xs[1..], seps[1..]);
    JoinedStart(xs[1..], seps[1..]);
    ScanSeparator(seps[0], rest, s);
    ScanItemOnce(xs[0], [seps[0]] + rest, [seps[0]] + s);
    ThenTwice(xs[0].value, |Printed(xs[0])|, |xs| - 1, Values(xs[1..]), |s|);
  }

  /** The list round trip: for every list of ints, each with %d or %x, and every choice of
      separators, each one a character that is neither '%' nor a digit of the number before it,
      sscanf of the sprintf output with the same format stores that list, returns its length and
      consumes all of the output. Negative numbers come back through %x too. */
  lemma SprintfSscanf(xs: seq<Item>, seps: seq<char>)
    requires IsList(xs, seps)
    ensures var fmt := ListFormat(xs, seps); var out := Render(fmt, Values(xs));
      Scannable(fmt) && Scan(fmt, out) == Scanned(|xs|, Values(xs), |out|)
  {
    hide Scan, Scannable, Render, Joined;
    RenderList(xs, seps);
    ScanList(xs, seps);
  }

  // ---------- Other separators ----------

  /** A separator of the format takes this one of the input. */
  predicate Takes(c: char, c': char)
  {
    if IsSpace(c) then IsSpace(c') else c == c'
  }

  /** The input has separators of its own. Where the format has white space, so has the input. */
  ghost predicate OtherSeparators(xs: seq<Item>, seps: seq<char>, seps': seq<char>)
  {
    && IsList(xs, seps) && |seps'| == |seps|
    && (forall i :: 0 <= i < |xs| - 1 ==> DigitOf(seps'[i], ScanBase(xs[i].conv)) < 0)
    && (forall i :: 0 <= i < |xs| - 1 ==> IsSpace(seps[i]) ==> IsSpace(seps'[i]))
  }

  /** How many separators match, from the first on. */
  function Matching(seps: seq<char>, seps': seq<char>): (n: nat)
    requires |seps'| == |seps|
    ensures n <= |seps|
    ensures forall i :: 0 <= i < n ==> Takes(seps[i], seps'[i])
    ensures n < |seps| ==> !Takes(seps[n], seps'[n])
  {
    if seps == [] || !Takes(seps[0], seps'[0]) then 0 else 1 + Matching(seps[1..], seps'[1..])
  }

  lemma TailSeparators(xs: seq<Item>, seps: seq<char>, seps': seq<char>)
    requires OtherSeparators(xs, seps, seps') && |xs| > 1
    ensures OtherSeparators(xs[1..], seps[1..], seps'[1..])
  {
    TailIsList(xs, seps);
    var ys, ts, us := xs[1..], seps[1..], seps'[1..];
    assert forall i :: 0 <= i < |ys| ==> ys[i] == xs[i + 1];
    assert forall i :: 0 <= i < |ts| ==> ts[i] == seps[i + 1] && us[i] == seps'[i + 1];
  }

  /** One separator of the format against one of the input. */
  lemma ScanOtherSeparator(c: char, c': char, rest: string, s: string)
    requires Scannable(rest) && c != NUL && c != '%' && s != "" && !IsSpace(s[0]) && (IsSpace(c) ==> IsSpace(c'))
    ensures Scannable([c] + rest)
    ensures Scan([c] + rest, [c'] + s) == if Takes(c, c') then Scanned(0, [], 1).Then(Scan(rest, s)) else Scanned(0, [], 1)
  {
    assert ([c] + rest)[1..] == rest && ([c'] + s)[1..] == s;
    if IsSpace(c) {
      SpanSpacesExactly([c'], s);
    }
  }

  lemma ThenStop(v: int, n: nat)
    ensures Scanned(1, [v], n).Then(Scanned(0, [], 1)) == Scanned(1, [v], n + 1)
  {
  }

  lemma JoinedNext(xs: seq<Item>, seps: seq<char>)
    requires |xs| > 1 && |seps| == |xs| - 1
    ensures Joined(xs, seps) == Printed(xs[0]) + ([seps[0]] + Joined(xs[1..], seps[1..]))
  {
  }

  lemma {:induction false} ValuesCount(xs: seq<Item>)
    ensures |Values(xs)| == |xs| && forall i :: 0 <= i < |xs| ==> Values(xs)[i] == xs[i].value
  {
    if xs != [] { ValuesCount(xs[1..]); }
  }

  /** Numbers joined with other separators than those of the format: the scan returns exactly the numbers
      up to the first separator that does not match, all of them if every one does. */
  lemma {:induction false} ScanOtherList(xs: seq<Item>, seps: seq<char>, seps': seq<char>)
    requires xs != [] && OtherSeparators(xs, seps, seps')
    ensures Scannable(ListFormat(xs, seps)) && |Values(xs)| == |xs|
    ensures var r, n := Scan(ListFormat(xs, seps), Joined(xs, seps')), Matching(seps, seps');
      r.count == n + 1 && r.stored == Values(xs)[..n + 1]
  {
    hide Scan, Scannable, Printed, Percent, IsItem, Takes, DigitOf, Joined, Integer, Values, ListFormat;
    ListFormatScannable(xs, seps);
    ValuesCount(xs);
    if |xs| == 1 {
      ScanList(xs, seps);
      assert seps == seps' == [];
      assert Values(xs)[..1] == Values(xs);
    } else {
      TailIsList(xs, seps);
      TailSeparators(xs, seps, seps');
      Unfold(xs, seps);
      JoinedNext(xs, seps');
      var rest, s := ListFormat(xs[1..], seps[1..]), Joined(xs[1..], seps'[1..]);
      ListFormatScannable(xs[1..], seps[1..]);
      JoinedStart(xs[1..], seps'[1..]);
      ScanOtherSeparator(seps[0], seps'[0], rest, s);
      ScanItemOnce(xs[0], [seps[0]] + rest, [seps'[0]] + s);
      if Takes(seps[0], seps'[0]) {
        ScanOtherList(xs[1..], seps[1..], seps'[1..]);
        var n := Matching(seps[1..], seps'[1..]);
        assert Values(xs)[..n + 2] == [xs[0].value] + Values(xs[1..])[..n + 1];
      } else {
        ThenStop(xs[0].value, |Printed(xs[0])|);
        assert ([xs[0].value] + Values(xs[1..]))[..1] == [xs[0].value];
      }
    }
  }

  lemma OneTwo(sep: char)
    ensures var xs := [Item('d', 1), Item('d', 2)];
      && ListFormat(xs, [sep]) == "%d" + [sep] + "%d" && Joined(xs, [sep]) == "1" + [sep] + "2" && Values(xs) == [1, 2]
  {
    var xs := [Item('d', 1), Item('d', 2)];
    assert xs[1..] == [Item('d', 2)] && [sep][1..] == [];
    assert Digits(1, 10) == "1" && Digits(2, 10) == "2";
    assert Values([Item('d', 2)][1..]) == [] && Values([Item('d', 2)]) == [2];
  }

  /** "1;2" under "%d,%d". */
  lemma WrongSeparator()
    ensures Scannable("%d,%d") && Scan("%d,%d", "1;2").count == 1 && Scan("%d,%d", "1;2").stored == [1]
  {
    var xs := [Item('d', 1), Item('d', 2)];
    OneTwo(',');
    OneTwo(';');
    assert OtherSeparators(xs, [','], [';']) && Matching([','], [';']) == 0;
    hide Scan, Scannable, ListFormat, Joined, Values, OtherSeparators, Matching;
    assert "%d" + [','] + "%d" == "%d,%d" && "1" + [';'] + "2" == "1;2";
    ScanOtherList(xs, [','], [';']);
    assert [1, 2][..1] == [1];
  }
}
