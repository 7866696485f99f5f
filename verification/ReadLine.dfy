/** The input loop of read_syscall (kernel/syscall/io.c): a line editor over the characters
    typed at the terminal. */
module ReadLine {
  import opened Config

  const EOT_CHAR: char := '\U{04}'
  const DEL_CHAR: char := '\U{7F}'

  predicate IsNewline(c: char)
  {
    c == '\n' || c == '\r'
  }

  /** The line on the screen after some keys: DEL takes back the last character, if there is one. */
  function Edited(keys: string): string
  {
    if keys == "" then "" else
      var line, c := Edited(keys[..|keys| - 1]), keys[|keys| - 1];
      if c != DEL_CHAR then line + [c] else if line == "" then "" else line[..|line| - 1]
  }

  /** None of the keys ends the line, and none of them fills it to count characters. */
  ghost predicate Continues(keys: string, count: nat)
  {
    && (forall i :: 0 <= i < |keys| ==> keys[i] != EOT_CHAR && !IsNewline(keys[i]))
    && (forall j :: 0 <= j <= |keys| ==> |Edited(keys[..j])| < count)
  }

  /** The first used keys of the input end the line, and no fewer do: by filling it, by EOT,
      which is not part of it, or by a newline, which is. */
  ghost predicate EndsWith(input: string, used: nat, count: nat, line: string)
    requires used <= |input|
  {
    if used == 0 then count == 0 && line == ""
    else
      var keys, c := input[..used - 1], input[used - 1];
      && Continues(keys, count)
      && if c == EOT_CHAR then line == Edited(keys)
         else if IsNewline(c) then line == Edited(keys) + [c]
         else |line| == count && line == Edited(input[..used])
  }

  lemma EditedNext(input: string, k: nat)
    requires k < |input|
    ensures Edited(input[..k + 1]) ==
      var line, c := Edited(input[..k]), input[k];
      if c != DEL_CHAR then line + [c] else if line == "" then "" else line[..|line| - 1]
  {
    assert input[..k + 1][..k] == input[..k];
  }

  /** What the next key does to a line that goes on. */
  lemma NextKey(input: string, k: nat, count: nat)
    requires k < |input| && Continues(input[..k], count) && |Edited(input[..k])| < count
    ensures var c, line := input[k], Edited(input[..k]);
      if c == EOT_CHAR then EndsWith(input, k + 1, count, line)
      else if IsNewline(c) then EndsWith(input, k + 1, count, line + [c])
      else if |Edited(input[..k + 1])| == count then EndsWith(input, k + 1, count, Edited(input[..k + 1]))
      else Continues(input[..k + 1], count)
  {
    EditedNext(input, k);
    var keys := input[..k + 1];
    if input[k] != EOT_CHAR && !IsNewline(input[k]) && |Edited(keys)| != count {
      forall j | 0 <= j <= |keys| ensures |Edited(keys[..j])| < count {
        if j <= k { assert keys[..j] == input[..k][..j]; } else { assert keys[..j] == keys; }
      }
    }
  }

  lemma StartOfLine(input: string, count: nat)
    ensures Edited(input[..0]) == "" && (count > 0 ==> Continues(input[..0], count))
    ensures count == 0 ==> EndsWith(input, 0, count, "")
  {
  }

  /** One turn of the loop of read_syscall: the key goes to index i, and next is the index for the
      key after it, or the length of the line if this key ends it. The index is a 32-bit unsigned
      number: after DEL it steps back by two, or by one at the start of the line, and wraps around
      before the loop's own increment brings it back. */
  method TakeKey(buf: array<char>, i: nat, c: char, ghost line: string) returns (next: nat, ended: bool)
    requires i < buf.Length && i + 1 < TWO32 && buf[..i] == line
    modifies buf
    ensures next <= i + 1
    ensures ended <==> c == EOT_CHAR || IsNewline(c)
    ensures buf[..next] ==
      if c == EOT_CHAR then line
      else if c != DEL_CHAR then line + [c]
      else if line == "" then "" else line[..|line| - 1]
  {
    buf[i] := c;
    next, ended := i, false;
    if buf[next] == EOT_CHAR {
      return next, true;
    } else if buf[next] == DEL_CHAR {
      if next != 0 {
        next := (next - 2) % TWO32;
      } else {
        next := (next - 1) % TWO32;
      }
    } else {
      if buf[next] == '\n' || buf[next] == '\r' {
        return next + 1, true;
      }
    }
    next := (next + 1) % TWO32;
  }

  /** The loop of read_syscall. It returns the count of characters read, or None while it still
      waits for input, and used says how many keys it has taken. */
  method ReadInput(buf: array<char>, count: nat, input: string) returns (r: Option<nat>, used: nat)
    requires count <= buf.Length && count < TWO32
    modifies buf
    ensures r.None? ==> used == |input| && Continues(input, count) && buf[..|Edited(input)|] == Edited(input)
    ensures r.Some? ==> used <= |input| && r.value <= count && EndsWith(input, used, count, buf[..r.value])
  {
    hide Edited, EndsWith, Continues;
    var i: nat := 0;
    used := 0;
    StartOfLine(input, count);
    while i < count
      invariant i <= count && used <= |input| && buf[..i] == Edited(input[..used])
      invariant i < count ==> Continues(input[..used], count)
      invariant i == count ==> EndsWith(input, used, count, buf[..i])
      decreases |input| - used, count - i
    {
      if used == |input| {
        assert input[..used] == input;
        return None, used;
      }
      EditedNext(input, used);
      NextKey(input, used, count);
      var ended;
      i, ended := TakeKey(buf, i, input[used], Edited(input[..used]));
      used := used + 1;
      if ended {
        return Some(i), used;
      }
      assert i == |buf[..i]|;
    }
    r := Some(i);
  }

  // ---------- The editor ----------

  /** A character and a DEL cancel out. */
  lemma DelCancels(keys: string, c: char)
    requires c != '\U{7F}'
    ensures Edited(keys + [c, '\U{7F}']) == Edited(keys)
  {
    var k2 := keys + [c, DEL_CHAR];
    assert k2[..|k2| - 1] == keys + [c] && (keys + [c])[..|keys|] == keys;
    EditedNext(k2, |keys| + 1);
    EditedNext(k2, |keys|);
    assert k2[..|keys| + 2] == k2 && k2[..|keys|] == keys;
  }

  /** DEL at the start of the line has no effect. */
  lemma {:induction false} LeadingDel(keys: string)
    ensures Edited(['\U{7F}'] + keys) == Edited(keys)
  {
    var all := ['\U{7F}'] + keys;
    if keys == "" {
      assert all[..0] == "" && Edited("") == "";
    } else {
      LeadingDel(keys[..|keys| - 1]);
      assert all[..|all| - 1] == ['\U{7F}'] + keys[..|keys| - 1];
    }
  }

  /** Without DEL the line is what was typed. */
  lemma {:induction false} NoDelNoEdit(keys: string)
    requires '\U{7F}' !in keys
    ensures Edited(keys) == keys
  {
    if keys != "" {
      NoDelNoEdit(keys[..|keys| - 1]);
    }
  }

  /** The keys determine where the line ends and what it is. */
  lemma EndIsUnique(input: string, count: nat, u: nat, line: string, v: nat, line': string)
    requires u <= v <= |input| && EndsWith(input, u, count, line) && EndsWith(input, v, count, line')
    ensures u == v && line == line'
  {
    if u < v {
      var keys := input[..v - 1];
      assert Continues(keys, count);
      assert keys[..u] == input[..u] && |Edited(keys[..u])| < count;
    }
  }

  /** A line goes on iff no key so far was EOT, line feed or carriage return, and it was never full. */
  lemma ContinuesMeans(keys: string, count: nat)
    ensures Continues(keys, count) <==>
      && '\U{04}' !in keys && '\n' !in keys && '\r' !in keys
      && forall j :: 0 <= j <= |keys| ==> |Edited(keys[..j])| < count
  {
  }

  /** What the key behind keys that go on does: EOT ends the line without being part of it, line feed and
      carriage return end it as its last character, any other key ends it iff it fills it. */
  lemma LineEnds(keys: string, c: char, rest: string, count: nat)
    requires Continues(keys, count)
    ensures var input, u := keys + [c] + rest, |keys| + 1;
      if c == '\U{04}' then EndsWith(input, u, count, Edited(keys))
      else if c == '\n' || c == '\r' then EndsWith(input, u, count, Edited(keys) + [c])
      else if |Edited(keys + [c])| == count then EndsWith(input, u, count, Edited(keys + [c]))
      else Continues(keys + [c], count)
  {
    var input, k := keys + [c] + rest, |keys|;
    assert input[..k] == keys && input[..k + 1] == keys + [c] && keys[..k] == keys;
    NextKey(input, k, count);
  }
}
