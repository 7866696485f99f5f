/** What strtol and strtoul make of a text, in terms of its characters. */
module StrtolLaws {
  import opened Text
  import opened Strtol

  // ---------- Digits ----------

  /** '0' to '9' are worth 0 to 9, letters 10 to 35, a capital letter as much as a small one. In a base, the
      digits are the characters worth less than it. */
  lemma DigitMeans(c: char, v: int, base: int)
    ensures 0 <= v < 10 && c as int == 48 + v ==> DigitOf(c, base) == if v < base then v else -1
    ensures 10 <= v < 36 && (c as int == 87 + v || c as int == 55 + v) ==> DigitOf(c, base) == if v < base then v else -1
    ensures !(48 <= c as int < 58) && !(65 <= c as int < 91) && !(97 <= c as int < 123) ==> DigitOf(c, base) == -1
  {
  }

  /** A numeral is read in the positional system. */
  lemma {:induction false} DenotesMeans(d: string, c: char, base: int)
    ensures Denotes("", base) == 0
    ensures Denotes(d + [c], base) == Denotes(d, base) * base + DigitOf(c, base)
  {
    assert (d + [c])[..|d|] == d;
  }

  // ---------- Prefixes ----------

  /** The text starts with "0x" or "0X". */
  predicate StartsHex(t: string)
  {
    |t| >= 2 && t[0] == '0' && (t[1] == 'x' || t[1] == 'X')
  }

  /** Behind the sign stands prefix and then t, and the call asks for base asked: t is read in base b. */
  predicate ReadIn(asked: int, prefix: string, t: string, b: int)
  {
    if StartsHex(prefix) then |prefix| == 2 && (asked == 16 || asked == 0) && b == 16
    else
      && prefix == ""
      && if asked == 16 then !StartsHex(t) && b == 16
         else if asked != 0 then b == asked
         else !StartsHex(t) && b == if t != "" && t[0] == '0' then 8 else 10
  }

  /** Every text can be taken apart in this way. */
  lemma EveryTextIsRead(asked: int, text: string)
    ensures exists prefix, t, b :: text == prefix + t && ReadIn(asked, prefix, t, b)
  {
    if StartsHex(text) && (asked == 16 || asked == 0) {
      assert text == text[..2] + text[2..] && ReadIn(asked, text[..2], text[2..], 16);
    } else {
      var b := if asked != 0 then asked else if text != "" && text[0] == '0' then 8 else 10;
      assert text == "" + text && ReadIn(asked, "", text, b);
    }
  }

  predicate AllBlank(s: string)
  {
    forall i :: 0 <= i < |s| ==> IsSpace(s[i])
  }

  /** Digits of base b, and then something that is none. */
  predicate DigitRun(d: string, rest: string, b: int)
  {
    (forall i :: 0 <= i < |d| ==> DigitOf(d[i], b) >= 0) && (rest == "" || DigitOf(rest[0], b) < 0)
  }

  lemma NumeralRead(p: string, i: nat, asked: int, prefix: string, d: string, rest: string, b: int)
    requires i <= |p| && p[i..] == prefix + (d + rest) && ReadIn(asked, prefix, d + rest, b) && DigitRun(d, rest, b)
    ensures Numeral(p, i, asked) == Parsed(Denotes(d, b), i + |prefix| + |d|)
  {
    var t := d + rest;
    assert At(p, i) == At(p[i..], 0) && At(p, i + 1) == At(p[i..], 1);
    if StartsHex(prefix) {
      assert p[i..][0] == '0' && p[i..][1] == prefix[1];
      assert p[i + 2..] == p[i..][2..] == t;
      assert Prefix(p, i, asked) == (i + 2, 16);
      NumeralFrom(p, i, asked, i + 2, 16, d, rest);
    } else {
      assert p[i..] == t;
      assert Prefix(p, i, asked) == (i, b);
      NumeralFrom(p, i, asked, i, b, d, rest);
    }
  }

  lemma BlanksRead(blanks: string, text: string)
    requires AllBlank(blanks) && (text == "" || !IsSpace(text[0]))
    ensures SpanSpaces(blanks + text) == |blanks| && (blanks + text)[|blanks|..] == text
    ensures At(blanks + text, |blanks|) == At(text, 0)
  {
    SpanSpacesExactly(blanks, text);
  }

  /** strtoul: blanks, perhaps a prefix, digits. The value is that of the digits modulo 2^32, and the end
      is behind them. There need not be any digit. */
  lemma StrtoulReads(blanks: string, prefix: string, d: string, rest: string, asked: int, b: int)
    requires AllBlank(blanks) && ReadIn(asked, prefix, d + rest, b) && DigitRun(d, rest, b)
    requires var text := prefix + (d + rest); text == "" || !IsSpace(text[0])
    ensures ParseULong(blanks + (prefix + (d + rest)), asked)
      == Parsed(Denotes(d, b) % 0x1_0000_0000, |blanks| + |prefix| + |d|)
  {
    hide Numeral, SpanSpaces, ReadIn, DigitRun;
    var text := prefix + (d + rest);
    BlanksRead(blanks, text);
    NumeralRead(blanks + text, |blanks|, asked, prefix, d, rest, b);
  }

  /** strtol: the same, with a '-' in front that negates. A '+' is no digit, so the number ends before it. */
  lemma StrtolReads(blanks: string, negative: bool, prefix: string, d: string, rest: string, asked: int, b: int)
    requires AllBlank(blanks) && ReadIn(asked, prefix, d + rest, b) && DigitRun(d, rest, b)
    requires var text := prefix + (d + rest); negative || text == "" || (!IsSpace(text[0]) && text[0] != '-')
    ensures var v, sign := Denotes(d, b), if negative then "-" else "";
      var r := ParseLong(blanks + (sign + (prefix + (d + rest))), asked);
      && r.end == |blanks| + |sign| + |prefix| + |d|
      && -0x8000_0000 <= r.value < 0x8000_0000
      && (r.value - (if negative then -v else v)) % 0x1_0000_0000 == 0
  {
    hide Numeral, SpanSpaces, ReadIn, DigitRun, Denotes;
    var text, sign := prefix + (d + rest), if negative then "-" else "";
    var p, i := blanks + (sign + text), |blanks| + |sign|;
    BlanksRead(blanks, sign + text);
    assert p[i..] == text;
    assert At(sign + text, 0) == if negative then '-' else At(text, 0);
    NumeralRead(p, i, asked, prefix, d, rest, b);
  }

  lemma TwoDigits(c: char, c': char, base: int)
    ensures Denotes([c, c'], base) == DigitOf(c, base) * base + DigitOf(c', base)
  {
    DenotesMeans("", c, base);
    DenotesMeans([c], c', base);
    assert "" + [c] == [c] && [c] + [c'] == [c, c'];
  }

  /** In base 0, "12" is twelve, "012" ten, and "0X1f" thirty-one. */
  lemma BaseZero()
    ensures ParseULong("12", 0) == Parsed(12, 2) && ParseULong("012", 0) == Parsed(10, 3)
    ensures ParseULong("0X1f", 0) == Parsed(31, 4) && ParseLong(" -0X1F", 0) == Parsed(-31, 6)
  {
    hide Denotes, ParseULong, ParseLong;
    TwoDigits('1', '2', 10);
    TwoDigits('0', '1', 8);
    DenotesMeans("01", '2', 8);
    TwoDigits('1', 'f', 16);
    TwoDigits('1', 'F', 16);
    assert "01" + ['2'] == "012" && ['1', '2'] == "12" && ['0', '1'] == "01" && ['1', 'f'] == "1f" && ['1', 'F'] == "1F";
    StrtoulReads("", "", "12", "", 0, 10);
    StrtoulReads("", "", "012", "", 0, 8);
    StrtoulReads("", "0X", "1f", "", 0, 16);
    StrtolReads(" ", true, "0X", "1F", "", 0, 16);
    assert "" + ("" + ("12" + "")) == "12" && "" + ("" + ("012" + "")) == "012";
    assert "" + ("0X" + ("1f" + "")) == "0X1f" && " " + ("-" + ("0X" + ("1F" + ""))) == " -0X1F";
  }
}
