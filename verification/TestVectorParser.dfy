/** cperf_test_vector_parsing.c as it works: buffers trimmed in place, a growing value buffer, and
    a line loop that updates the vector. */
module TestVectorParser {
  import opened Bytes
  import opened TestVector

  lemma {:induction false} CStringEnd(buf: seq<char>)
    requires '\0' in buf
    ensures |CString(buf)| < |buf| && buf[|CString(buf)|] == '\0'
    ensures forall i :: 0 <= i < |CString(buf)| ==> buf[i] == CString(buf)[i] != '\0'
  {
    if buf[0] == '\0' {
    } else {
      CStringEnd(buf[1..]);
    }
  }

  lemma {:induction false} CStringIs(buf: seq<char>, n: nat)
    requires n < |buf| && buf[n] == '\0' && forall i :: 0 <= i < n ==> buf[i] != '\0'
    ensures CString(buf) == buf[..n]
  {
    if n == 0 {
    } else {
      CStringIs(buf[1..], n - 1);
      assert buf[..n] == [buf[0]] + buf[1..][..n - 1];
    }
  }

  lemma {:induction false} TrimLeftIs(s: string, n: nat)
    requires n <= |s| && (forall i :: 0 <= i < n ==> IsSpace(s[i])) && (n < |s| ==> !IsSpace(s[n]))
    ensures TrimLeft(s) == s[n..]
  {
    if n > 0 {
      TrimLeftIs(s[1..], n - 1);
      assert s[1..][n - 1..] == s[n..];
    } else {
      assert s[0..] == s;
    }
  }

  lemma {:induction false} TrimRightIs(s: string, n: nat)
    requires n <= |s| && (forall i :: n <= i < |s| ==> IsSpace(s[i])) && (n > 0 ==> !IsSpace(s[n - 1]))
    ensures TrimRight(s) == s[..n]
    decreases |s|
  {
    if n < |s| {
      TrimRightIs(s[..|s| - 1], n);
      assert s[..|s| - 1][..n] == s[..n];
    } else {
      assert s[..n] == s;
    }
  }

  lemma TrimIs(s: string, start: nat, end: nat)
    requires start <= end <= |s| && (forall i :: 0 <= i < start ==> IsSpace(s[i]))
    requires forall i :: end <= i < |s| ==> IsSpace(s[i])
    requires start < |s| ==> start < end && !IsSpace(s[start]) && (end > start + 1 ==> !IsSpace(s[end - 1]))
    ensures s[start..end] == Trim(s)
  {
    TrimLeftIs(s, start);
    TrimRightIs(s[start..], end - start);
    assert s[start..][..end - start] == s[start..end];
  }

  /** Lines 192-200: the first visible character and the end of the last one. */
  method TrimBounds(str: array<char>) returns (start: nat, end: nat)
    requires '\0' in str[..]
    ensures start <= end <= |CString(str[..])| < str.Length
    ensures CString(str[..])[start..end] == Trim(CString(str[..]))
  {
    ghost var s := CString(str[..]);
    CStringEnd(str[..]);
    start := 0;
    while str[start] != '\0' && IsSpace(str[start])
      invariant 0 <= start <= |s| && forall i :: 0 <= i < start ==> IsSpace(s[i])
      decreases |s| - start
    {
      start := start + 1;
    }
    end := start;
    while str[end] != '\0'  // strlen
      invariant start <= end <= |s|
      decreases |s| - end
    {
      end := end + 1;
    }
    while end > start + 1 && IsSpace(str[end - 1])
      invariant start <= end <= |s| && forall i :: end <= i < |s| ==> IsSpace(s[i])
      invariant start < |s| ==> start < end
    {
      end := end - 1;
    }
    TrimIs(s, start, end);
  }

  /** Lines 187-209: the string in `str` is trimmed at both ends, in place. */
  method TrimSpace(str: array<char>)
    requires '\0' in str[..]
    modifies str
    ensures CString(str[..]) == Trim(old(CString(str[..]))) && '\0' in str[..]
  {
    ghost var s := CString(str[..]);
    CStringEnd(str[..]);
    var start, end := TrimBounds(str);
    str[end] := '\0';
    if start > 0 {
      forall i | 0 <= i <= end - start {
        str[i] := str[start + i];
      }
    }
    assert str[..][end - start] == '\0';
    CStringIs(str[..], end - start);
    assert str[..][..end - start] == s[start..end];
  }

  /** Lines 233-243: a buffer twice as long with the same values. */
  method Grown(values: array<Byte>, n: nat) returns (resized: array<Byte>)
    requires n == values.Length > 0
    ensures fresh(resized) && resized.Length == 2 * n && resized[..n] == values[..n]
  {
    resized := new Byte[2 * n];
    forall i | 0 <= i < n {
      resized[i] := values[i];
    }
  }

  function Prefixed(bs: seq<Byte>, r: Option<seq<Byte>>): Option<seq<Byte>> {
    match r
    case None => None
    case Some(more) => Some(bs + more)
  }

  /** The values from token `tok` on, when `rest` is the text after it. */
  function FromToken(tok: string, rest: string): Option<seq<Byte>> {
    match StrToByte(tok)
    case None => None
    case Some(b) => Prefixed([b], ParseTokens(rest))
  }

  lemma TokensUnfold(s: string)
    ensures ParseTokens(s) == if StrTok(s, ',').0 == "" then Some([]) else FromToken(StrTok(s, ',').0, StrTok(s, ',').1)
  {
  }

  lemma PrefixedNone(r: Option<seq<Byte>>)
    ensures Prefixed([], r) == r
  {
    assert r.Some? ==> [] + r.value == r.value;
  }

  lemma PrefixedTwice(bs: seq<Byte>, b: Byte, r: Option<seq<Byte>>)
    ensures Prefixed(bs, Prefixed([b], r)) == Prefixed(bs + [b], r)
  {
    if r.Some? {
      assert bs + ([b] + r.value) == bs + [b] + r.value;
    }
  }

  /** Lines 212-271, with the buffer that doubles when it is full.  None on a token that is not a
      number or when there is no token. */
  method ReadValues(tokens: string) returns (r: Option<seq<Byte>>)
    ensures r == ParseValues(tokens)
  {
    var next := StrTok(tokens, ',');
    if next.0 == "" {
      return None;
    }
    TokensUnfold(tokens);
    var values := new Byte[32];
    var n := 0;
    PrefixedNone(FromToken(next.0, next.1));
    assert values[..n] == [];
    while true
      invariant fresh(values) && n <= values.Length && 0 < values.Length
      invariant ParseTokens(tokens) == Prefixed(values[..n], FromToken(next.0, next.1))
      decreases |next.1|
    {
      if n >= values.Length {
        values := Grown(values, n);
      }
      var b := StrToByte(next.0);
      if b.None? {
        return None;
      }
      ghost var before, rest := values[..n], ParseTokens(next.1);
      values[n] := b.value;
      assert values[..n + 1] == before + [b.value];
      PrefixedTwice(before, b.value, rest);
      TokensUnfold(next.1);
      next := StrTok(next.1, ',');
      if next.0 == "" {
        assert values[..n + 1] + [] == values[..n + 1];
        return Some(values[..n + 1]);
      }
      n := n + 1;
    }
  }

  /** What follows a NUL character does not belong to the string. */
  lemma {:induction false} CStringCut(s: string)
    ensures CString(s + "\0") == CString(s)
  {
    if s == "" || s[0] == '\0' {
    } else {
      assert (s + "\0")[1..] == s[1..] + "\0";
      CStringCut(s[1..]);
    }
  }

  /** A line of the file in a buffer of its own, as getline returns it. */
  method LineBuffer(line: string) returns (buf: array<char>)
    ensures fresh(buf) && buf[..] == line + "\0"
  {
    buf := new char[|line| + 1];
    forall i | 0 <= i < |line| {
      buf[i] := line[i];
    }
    buf[|line|] := '\0';
  }

  method TrimmedLine(line: string) returns (t: string)
    ensures t == LineText(line)
  {
    var buf := LineBuffer(line);
    assert buf[..][|line|] == '\0';
    CStringCut(line);
    TrimSpace(buf);
    t := CString(buf[..]);
  }

  lemma ShowStep(text: string, v: seq<Slot>, k: nat)
    requires |v| == 10 && k < 10
    requires forall i :: 0 <= i < 10 ==> v[i].Present? ==> v[i].length <= |v[i].data|
    ensures text + ShowFrom(v, k) == text + SlotText(k, v[k]) + ShowFrom(v, k + 1)
  {
    var a, b := SlotText(k, v[k]), ShowFrom(v, k + 1);
    assert text + (a + b) == text + a + b;
  }

  /** The vector being filled (struct cperf_test_vector). */
  class Vector {
    var slots: seq<Slot>

    constructor ()
      ensures slots == seq(10, _ => Absent)
    {
      slots := seq(10, _ => Absent);
    }

    /** Lines 305-318 and their nine copies: the data is replaced before its length is checked. */
    method SetField(k: nat, data: seq<Byte>, size: nat, tcFound: bool) returns (ok: bool)
      requires |slots| == 10 && k < 10
      modifies this
      ensures ok <==> tcFound || size <= |data|
      ensures slots == old(slots)[k := Present(data, if tcFound then StoredLength(k, |data|)
                                                     else if size <= |data| then size
                                                     else LengthOf(old(slots)[k]))]
    {
      slots := slots[k := Present(data, LengthOf(slots[k]))];
      if tcFound {
        slots := slots[k := Present(data, StoredLength(k, |data|))];
      } else if size > |data| {
        return false;
      } else {
        slots := slots[k := Present(data, size)];
      }
      ok := true;
    }

    /** Lines 275-453. */
    method ReadEntry(entry: string, opts: Options, tcFound: bool) returns (ok: bool)
      requires |slots| == |opts.sizes| == 10
      modifies this
      ensures ok <==> ParseEntry(entry, old(slots), opts, tcFound).Ok?
      ensures ok ==> slots == ParseEntry(entry, old(slots), opts, tcFound).value
      ensures !ok ==> slots == Rejected(entry, old(slots))
    {
      var first := StrTok(entry, '=');
      var second := StrTok(first.1, '=');
      if first.0 == "" || second.0 == "" {
        return false;
      }
      var data := ReadValues(second.0);
      if data.None? {
        return false;
      }
      var field := FieldFrom(first.0, 0);
      if field.None? || field.value >= 10 {
        return false;
      }
      ok := SetField(field.value, data.value, opts.sizes[field.value], tcFound);
    }

    /** Lines 510-532: an entry that ends with ',' or '=' takes further lines. */
    method ReadContinuation(line: string, text: string) returns (entry: string, rest: string)
      requires line != ""
      ensures (entry, rest) == Entry(line, text)
    {
      entry, rest := line, text;
      if line[|line| - 1] != ',' && line[|line| - 1] != '=' {
        return;
      }
      while rest != ""
        invariant Continued(line, text) == Continued(entry, rest) && entry != ""
        decreases |rest|
      {
        var (l, more) := GetLine(rest);
        var t := TrimmedLine(l);
        entry, rest := entry + t, more;
        if entry[|entry| - 1] != ',' {
          return;
        }
      }
    }

    /** Lines 456-560. */
    method ReadFile(text: string, opts: Options) returns (status: Result<seq<Slot>>)
      requires |slots| == |opts.sizes| == 10
      modifies this
      ensures status == ParseFrom(text, old(slots), opts, false, false)
      ensures status.Ok? ==> slots == status.value
    {
      var rest, tcFound, tcStart := text, false, false;
      while rest != ""
        invariant |slots| == 10
        invariant ParseFrom(text, old(slots), opts, false, false) == ParseFrom(rest, slots, opts, tcFound, tcStart)
        decreases |rest|
      {
        var (raw, more) := GetLine(rest);
        var trimmed := TrimmedLine(raw);
        var step := Classify(raw, trimmed, opts, tcFound, tcStart);
        match step
        case Stop =>
          return Finished(slots, opts, tcFound);
        case Skip(found, start) =>
          rest, tcFound, tcStart := more, found, start;
        case Field(line, start) =>
          if line == "" {
            return Undefined;
          }
          var entry, after := ReadContinuation(line, more);
          var ok := ReadEntry(entry, opts, tcFound);
          if !ok {
            return Err;
          }
          rest, tcStart := after, start;
      }
      status := Finished(slots, opts, tcFound);
    }

    /** Lines 47-60 and their nine copies: a field is printed 32 values to a line. */
    method ShowField(name: string, data: seq<Byte>) returns (text: string)
      ensures text == FieldText(name, data)
    {
      text := "\n" + name + " =\n";
      ghost var header := text;
      var i := 0;
      while i < |data|
        invariant 0 <= i <= |data| && text == header + ValuesText(data, i)
      {
        var value := ByteText(data[i]) + if i == |data| - 1 then "" else ", ";
        if i % 32 == 0 && i != 0 {
          value := "\n" + value;
        }
        assert value == ValueText(data, i);
        assert header + ValuesText(data, i) + value == header + (ValuesText(data, i) + value);
        text := text + value;
        i := i + 1;
      }
      text := text + "\n";
    }

    method ShowSlot(k: nat, s: Slot) returns (text: string)
      requires k < 10 && (s.Present? ==> s.length <= |s.data|)
      ensures text == SlotText(k, s)
    {
      text := "";
      if s.Present? {
        text := ShowField(NAMES[k], s.data[..s.length]);
      }
    }

    /** Lines 39-184. */
    method Show() returns (text: string)
      requires |slots| == 10 && forall i :: 0 <= i < 10 ==> slots[i].Present? ==> slots[i].length <= |slots[i].data|
      ensures text == ShowFrom(slots, 0)
    {
      text := "";
      var k := 0;
      assert text + ShowFrom(slots, 0) == ShowFrom(slots, 0);
      while k < 10
        invariant 0 <= k <= 10 && ShowFrom(slots, 0) == text + ShowFrom(slots, k)
      {
        var field := ShowSlot(k, slots[k]);
        ShowStep(text, slots, k);
        text := text + field;
        k := k + 1;
      }
      assert text + "" == text;
    }
  }
}
