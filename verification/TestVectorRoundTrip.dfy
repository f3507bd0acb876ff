/** Printing a test vector and parsing the text again. */
module TestVectorRoundTrip {
  import opened Bytes
  import opened TestVector

  // ---------------------------------------------------------------- trimming and lines

  predicate AllSpace(s: string) { forall i :: 0 <= i < |s| ==> IsSpace(s[i]) }

  /** Text that starts and ends with a visible character is all that trimming leaves of it. */
  lemma {:induction false} TrimRightOf(s: string, tail: string)
    requires s != "" && !IsSpace(s[|s| - 1]) && AllSpace(tail)
    ensures TrimRight(s + tail) == s
    decreases |tail|
  {
    if tail == "" {
      assert s + tail == s;
    } else {
      assert (s + tail)[..|s + tail| - 1] == s + tail[..|tail| - 1];
      TrimRightOf(s, tail[..|tail| - 1]);
    }
  }

  lemma TrimOf(s: string, tail: string)
    requires s != "" && !IsSpace(s[0]) && !IsSpace(s[|s| - 1]) && AllSpace(tail)
    ensures Trim(s + tail) == s
  {
    TrimRightOf(s, tail);
  }

  lemma {:induction false} GetLineOf(l: string, rest: string)
    requires '\n' !in l
    ensures GetLine(l + "\n" + rest) == (l + "\n", rest)
  {
    if l == "" {
      assert l + "\n" + rest == "\n" + rest;
    } else {
      assert l + "\n" + rest == [l[0]] + (l[1..] + "\n" + rest);
      GetLineOf(l[1..], rest);
      assert [l[0]] + (l[1..] + "\n") == l + "\n";
    }
  }

  // ---------------------------------------------------------------- tokens

  lemma {:induction false} UntilDelimOf(tok: string, d: char, rest: string)
    requires d !in tok && (rest == "" || rest[0] == d)
    ensures UntilDelim(tok + rest, d) == tok
  {
    if tok == "" {
      assert tok + rest == rest;
    } else {
      assert (tok + rest)[1..] == tok[1..] + rest;
      UntilDelimOf(tok[1..], d, rest);
    }
  }

  /** A line without NUL characters is a C string as it stands. */
  lemma LineTextOf(line: string)
    requires '\0' !in line
    ensures LineText(line) == Trim(line)
  {
    UntilDelimOf(line, '\0', "");
    assert line + "" == line;
  }

  lemma StrTokOf(tok: string, d: char, rest: string)
    requires tok != "" && d !in tok
    ensures StrTok(tok + [d] + rest, d) == (tok, rest)
    ensures StrTok(tok, d) == (tok, "")
  {
    UntilDelimOf(tok, d, [d] + rest);
    assert tok + [d] + rest == tok + ([d] + rest);
    UntilDelimOf(tok, d, "");
    assert tok + "" == tok;
  }

  lemma StrToByteOf(b: Byte)
    ensures StrToByte(ByteText(b)) == Some(b)
    ensures StrToByte(" " + ByteText(b)) == Some(b)
  {
    var t := ByteText(b);
    assert (" " + t)[1..] == t;
    assert TrimLeft(t) == t;
    var digits := t[2..];
    assert digits == [HexDigit(b / 16), HexDigit(b % 16)];
    assert digits[1..] == [HexDigit(b % 16)];
    assert DigitsValue(digits[1..], 16, b / 16) == Some(b);
  }

  // ---------------------------------------------------------------- the printed values

  /** The text printed from value i on, without the newline that may come before it. */
  function Body(data: seq<Byte>, i: nat): string
    requires i < |data|
    decreases |data| - i
  {
    ByteText(data[i]) +
    (if i == |data| - 1 then "\n"
     else ", " + (if (i + 1) % 32 == 0 then "\n" else "") + Body(data, i + 1))
  }

  /** The rest of the printed line that value i is on. */
  function RowText(data: seq<Byte>, i: nat): string
    requires i < |data|
    decreases |data| - i
  {
    ByteText(data[i]) +
    (if i == |data| - 1 then "" else ", " + if (i + 1) % 32 == 0 then "" else RowText(data, i + 1))
  }

  /** The first value of the next line. */
  function NextRow(data: seq<Byte>, i: nat): (n: nat)
    requires i < |data|
    ensures i < n <= |data| && (n < |data| ==> n % 32 == 0)
    decreases |data| - i
  {
    if i == |data| - 1 || (i + 1) % 32 == 0 then i + 1 else NextRow(data, i + 1)
  }

  function BodyFrom(data: seq<Byte>, n: nat): string
    requires n <= |data|
  {
    if n == |data| then "" else Body(data, n)
  }

  /** The same line after trimming. */
  function RowTrim(data: seq<Byte>, i: nat): (s: string)
    requires i < |data|
    ensures s != "" && s[0] == '0'
    decreases |data| - i
  {
    ByteText(data[i]) +
    (if i == |data| - 1 then "" else "," + if (i + 1) % 32 == 0 then "" else " " + RowTrim(data, i + 1))
  }

  /** The values of an entry as the line loop glues them together. */
  function Glued(data: seq<Byte>, i: nat): (s: string)
    requires i < |data|
    ensures s != "" && s[0] == '0'
    decreases |data| - i
  {
    ByteText(data[i]) +
    (if i == |data| - 1 then "" else "," + (if (i + 1) % 32 == 0 then "" else " ") + Glued(data, i + 1))
  }

  function GluedFrom(data: seq<Byte>, n: nat): string
    requires n <= |data|
  {
    if n == |data| then "" else Glued(data, n)
  }

  /** What comes between value i and the next one when the line is printed, and when it is read. */
  function Gap(i: nat): string { if (i + 1) % 32 == 0 then "\n" else "" }

  lemma {:induction false} ValuesAreBody(data: seq<Byte>, i: nat)
    requires i < |data|
    ensures ValuesText(data, |data|) + "\n" == ValuesText(data, i) + ((if i % 32 == 0 && i != 0 then "\n" else "") + Body(data, i))
    decreases |data| - i
  {
    var lead := if i % 32 == 0 && i != 0 then "\n" else "";
    var done, text := ValuesText(data, i), ByteText(data[i]);
    if i == |data| - 1 {
      assert ValuesText(data, |data|) == done + (lead + text + "");
      Assoc(lead, text, "\n");
      Assoc(done, lead + text, "\n");
      assert lead + text + "" == lead + text;
    } else {
      ValuesAreBody(data, i + 1);
      var next := Body(data, i + 1);
      assert ValuesText(data, i + 1) == done + (lead + text + ", ");
      assert Body(data, i) == text + (", " + Gap(i) + next);
      Assoc(done, lead + text + ", ", Gap(i) + next);
      Assoc(lead + text, ", ", Gap(i) + next);
      Assoc(", ", Gap(i), next);
      Assoc(lead, text, ", " + Gap(i) + next);
    }
  }

  lemma RegroupEnd(a: string, b: string, c: string, d: string)
    ensures a + (b + c + d) == a + (b + "") + (c + d)
  {
  }

  lemma Regroup(a: string, b: string, c: string, d: string)
    ensures a + (b + "" + (c + d)) == a + (b + c) + d
  {
  }

  lemma {:induction false} BodyLine(data: seq<Byte>, i: nat)
    requires i < |data|
    ensures Body(data, i) == RowText(data, i) + ("\n" + BodyFrom(data, NextRow(data, i)))
    ensures '\n' !in RowText(data, i) && '\0' !in RowText(data, i)
    decreases |data| - i
  {
    var text := ByteText(data[i]);
    assert '\n' !in text && '\0' !in text;
    if i == |data| - 1 {
      assert RowText(data, i) == text + "";
      assert "\n" + "" == "\n" && text + "" == text;
    } else if (i + 1) % 32 == 0 {
      var next := Body(data, i + 1);
      RegroupEnd(text, ", ", "\n", next);
    } else {
      BodyLine(data, i + 1);
      var row, tail := RowText(data, i + 1), "\n" + BodyFrom(data, NextRow(data, i + 1));
      Regroup(text, ", ", row, tail);
    }
  }

  lemma RegroupSpace(a: string, row: string, end: string)
    ensures a + (", " + (row + end)) == a + ("," + (" " + row)) + end
  {
    assert ", " == "," + " ";
  }

  /** Trimming removes the one space a line that is not the last ends with. */
  lemma {:induction false} RowTextTrims(data: seq<Byte>, i: nat)
    requires i < |data|
    ensures RowText(data, i) == RowTrim(data, i) + if NextRow(data, i) == |data| then "" else " "
    decreases |data| - i
  {
    var text := ByteText(data[i]);
    if i == |data| - 1 {
      assert text + "" + "" == text + "";
    } else if (i + 1) % 32 == 0 {
      assert ", " + "" == "," + " " && "," + "" == ",";
      Assoc(text, ",", " ");
    } else {
      RowTextTrims(data, i + 1);
      var row, end := RowTrim(data, i + 1), if NextRow(data, i + 1) == |data| then "" else " ";
      RegroupSpace(text, row, end);
    }
  }

  lemma {:induction false} RowTrimEnds(data: seq<Byte>, i: nat)
    requires i < |data|
    ensures var s := RowTrim(data, i); !IsSpace(s[|s| - 1]) && (s[|s| - 1] == ',' <==> NextRow(data, i) < |data|)
    decreases |data| - i
  {
    var text := ByteText(data[i]);
    assert !IsSpace(text[3]) && text[3] != ',';
    if i == |data| - 1 {
    } else if (i + 1) % 32 == 0 {
    } else {
      RowTrimEnds(data, i + 1);
    }
  }

  lemma {:induction false} GluedRow(data: seq<Byte>, i: nat)
    requires i < |data|
    ensures Glued(data, i) == RowTrim(data, i) + GluedFrom(data, NextRow(data, i))
    decreases |data| - i
  {
    if i == |data| - 1 || (i + 1) % 32 == 0 {
    } else {
      GluedRow(data, i + 1);
    }
  }

  lemma {:induction false} GluedNoEquals(data: seq<Byte>, i: nat)
    requires i < |data|
    ensures '=' !in Glued(data, i)
    decreases |data| - i
  {
    if i == |data| - 1 {
    } else {
      GluedNoEquals(data, i + 1);
    }
  }

  // ---------------------------------------------------------------- reading the values back

  lemma FirstLine(data: seq<Byte>, i: nat, rest: string)
    requires i < |data|
    ensures GetLine(Body(data, i) + rest) == (RowText(data, i) + "\n", BodyFrom(data, NextRow(data, i)) + rest)
  {
    var row, more := RowText(data, i), BodyFrom(data, NextRow(data, i));
    BodyLine(data, i);
    Assoc(row, "\n" + more, rest);
    Assoc("\n", more, rest);
    Assoc(row, "\n", more + rest);
    GetLineOf(row, more + rest);
  }

  lemma RowLine(data: seq<Byte>, i: nat)
    requires i < |data|
    ensures LineText(RowText(data, i) + "\n") == Trim(RowText(data, i) + "\n")
  {
    BodyLine(data, i);
    LineTextOf(RowText(data, i) + "\n");
  }

  lemma FirstLineTrims(data: seq<Byte>, i: nat)
    requires i < |data|
    ensures LineText(RowText(data, i) + "\n") == RowTrim(data, i)
  {
    RowLine(data, i);
    RowTextTrims(data, i);
    RowTrimEnds(data, i);
    var end := if NextRow(data, i) == |data| then "" else " ";
    Assoc(RowTrim(data, i), end, "\n");
    TrimOf(RowTrim(data, i), end + "\n");
  }

  /** The line loop glues the printed lines of a field to its entry and stops after the last. */
  lemma {:induction false} ContinuedOf(entry: string, data: seq<Byte>, i: nat, rest: string)
    requires i < |data| && i % 32 == 0
    ensures Continued(entry, Body(data, i) + rest) == (entry + Glued(data, i), rest)
    decreases |data| - i
  {
    var n, trimmed := NextRow(data, i), RowTrim(data, i);
    FirstLine(data, i, rest);
    FirstLineTrims(data, i);
    RowTrimEnds(data, i);
    GluedRow(data, i);
    var longer := entry + trimmed;
    assert longer[|longer| - 1] == trimmed[|trimmed| - 1];
    if n < |data| {
      ContinuedOf(longer, data, n, rest);
      Assoc(entry, trimmed, Glued(data, n));
    } else {
      assert "" + rest == rest && trimmed + "" == trimmed;
    }
  }

  lemma ByteTextNoDelim(b: Byte)
    ensures ',' !in ByteText(b) && '=' !in ByteText(b)
  {
  }

  function Sep(i: nat): string { if (i + 1) % 32 == 0 then "" else " " }

  lemma FirstToken(data: seq<Byte>, i: nat, sep: string)
    requires i < |data| && (sep == "" || sep == " ")
    ensures StrTok(sep + Glued(data, i), ',')
            == (sep + ByteText(data[i]), if i == |data| - 1 then "" else Sep(i) + Glued(data, i + 1))
  {
    var text := ByteText(data[i]);
    ByteTextNoDelim(data[i]);
    if i == |data| - 1 {
      assert Glued(data, i) == text + "" == text;
      StrTokOf(sep + text, ',', "");
    } else {
      var next := Sep(i) + Glued(data, i + 1);
      Assoc(",", Sep(i), Glued(data, i + 1));
      assert Glued(data, i) == text + ("," + next);
      Assoc(sep, text, "," + next);
      Assoc(sep + text, ",", next);
      StrTokOf(sep + text, ',', next);
    }
  }

  lemma HeadAndRest(data: seq<Byte>, i: nat)
    requires i < |data|
    ensures data[i..] == [data[i]] + data[i + 1..]
  {
  }

  lemma OneToken(s: string, tok: string, rest: string, b: Byte, bs: seq<Byte>)
    requires StrTok(s, ',') == (tok, rest) && tok != ""
    requires StrToByte(tok) == Some(b) && ParseTokens(rest) == Some(bs)
    ensures ParseTokens(s) == Some([b] + bs)
  {
  }

  /** A value is a token with its separator, which reads as the byte that was printed. */
  lemma TokenReads(b: Byte, sep: string)
    requires sep == "" || sep == " "
    ensures sep + ByteText(b) != "" && StrToByte(sep + ByteText(b)) == Some(b)
  {
    StrToByteOf(b);
    assert "" + ByteText(b) == ByteText(b);
  }

  lemma LastToken(data: seq<Byte>, i: nat, sep: string)
    requires i == |data| - 1 && (sep == "" || sep == " ")
    ensures ParseTokens(sep + Glued(data, i)) == Some(data[i..])
  {
    FirstToken(data, i, sep);
    TokenReads(data[i], sep);
    OneToken(sep + Glued(data, i), sep + ByteText(data[i]), "", data[i], []);
    HeadAndRest(data, i);
  }

  lemma NextToken(data: seq<Byte>, i: nat, sep: string)
    requires i < |data| - 1 && (sep == "" || sep == " ")
    requires ParseTokens(Sep(i) + Glued(data, i + 1)) == Some(data[i + 1..])
    ensures ParseTokens(sep + Glued(data, i)) == Some(data[i..])
  {
    FirstToken(data, i, sep);
    TokenReads(data[i], sep);
    OneToken(sep + Glued(data, i), sep + ByteText(data[i]), Sep(i) + Glued(data, i + 1), data[i], data[i + 1..]);
    HeadAndRest(data, i);
  }

  /** Every value is a token of its own and reads as the byte that was printed. */
  lemma {:induction false} TokensOf(data: seq<Byte>, i: nat, sep: string)
    requires i < |data| && (sep == "" || sep == " ")
    ensures ParseTokens(sep + Glued(data, i)) == Some(data[i..])
    decreases |data| - i
  {
    if i == |data| - 1 {
      LastToken(data, i, sep);
    } else {
      TokensOf(data, i + 1, Sep(i));
      NextToken(data, i, sep);
    }
  }

  lemma ValuesOf(data: seq<Byte>)
    requires data != []
    ensures ParseValues(Glued(data, 0)) == Some(data)
  {
    TokensOf(data, 0, "");
    FirstToken(data, 0, "");
    TokenReads(data[0], "");
    assert "" + Glued(data, 0) == Glued(data, 0);
    assert data[0..] == data;
  }

  // ---------------------------------------------------------------- field names

  lemma Lacks(key: string, name: string, p: nat)
    requires p < |name| && name[p] !in key
    ensures !Contains(key, name)
  {
    forall i | 0 <= i <= |key| ensures !StartsAt(key, name, i) {
      if i + |name| <= |key| {
        assert key[i..i + |name|][p] == key[i + p];
      }
    }
  }

  /** Position of a letter of name j that key k, for j < k, does not have. */
  function Telltale(j: nat, k: nat): nat {
    if j == 0 then 1                                 // l
    else if j == 1 then if k == 4 || k == 7 then 7 else 0   // k, c
    else if j == 2 then if k == 5 then 5 else 1             // k, u
    else if j == 3 then 5                            // k
    else if j == 4 then if k == 7 then 8 else 0             // v, c
    else if j == 5 then 1                            // u
    else if j == 6 then 6                            // v
    else if j == 7 then 8                            // x
    else 0                                           // a
  }

  lemma NameDiffers(j: nat, k: nat)
    requires j < k < 10
    ensures !Contains(NAMES[k] + " ", NAMES[j])
  {
    Lacks(NAMES[k] + " ", NAMES[j], Telltale(j, k));
  }

  lemma {:induction false} FieldFromOf(k: nat, j: nat)
    requires j <= k < 10
    ensures FieldFrom(NAMES[k] + " ", j) == Some(k)
    decreases k - j
  {
    if j < k {
      NameDiffers(j, k);
      FieldFromOf(k, j + 1);
    } else {
      assert StartsAt(NAMES[k] + " ", NAMES[k], 0);
    }
  }

  /** What reading a header line relies on. */
  predicate Plain(name: string) {
    name != "" && '=' !in name && '\n' !in name && '\0' !in name && 'a' <= name[0] <= 'p'
  }

  lemma NamesArePlain(k: nat)
    requires k < 10
    ensures Plain(NAMES[k])
  {
  }

  // ---------------------------------------------------------------- one field, then all of them

  lemma KeyAndValuesOf(name: string, data: seq<Byte>)
    requires Plain(name) && data != []
    ensures KeyAndValues(name + " =" + Glued(data, 0)) == Some((name + " ", data))
  {
    var key, values := name + " ", Glued(data, 0);
    assert '=' !in key;
    assert name + " =" + values == key + ['='] + values;
    StrTokOf(key, '=', values);
    GluedNoEquals(data, 0);
    StrTokOf(values, '=', "");
    ValuesOf(data);
  }

  lemma KeyWithoutValues(name: string)
    requires Plain(name)
    ensures KeyAndValues(name + " =") == None
  {
    var key := name + " ";
    assert '=' !in key;
    assert name + " =" == key + ['='] + "";
    StrTokOf(key, '=', "");
  }

  lemma HeaderLine(name: string, rest: string)
    requires Plain(name)
    ensures GetLine(name + " =\n" + rest) == (name + " =\n", rest)
    ensures LineText(name + " =\n") == name + " ="
    ensures !Ignored(name + " =\n") && !IsSection(name + " =")
  {
    var l := name + " =";
    assert l + "\n" == name + " =\n";
    GetLineOf(l, rest);
    LineTextOf(l + "\n");
    TrimOf(l, "\n");
  }

  function AfterEntry(r: Result<seq<Slot>>, rest: string, opts: Options, found: bool): Result<seq<Slot>>
    requires |opts.sizes| == 10 && (r.Ok? ==> |r.value| == 10)
  {
    match r
    case Ok(w) => ParseFrom(rest, w, opts, found, found)
    case Err => Err
    case Undefined => Undefined
  }

  /** The line loop on the text from a header on: the header is an entry that ends with '=' and
      swallows the lines of values. */
  lemma HeaderStep(name: string, text: string, w: seq<Slot>, opts: Options, found: bool)
    requires Plain(name) && |w| == |opts.sizes| == 10 && (found ==> opts.testName.Some?)
    ensures ParseFrom(name + " =\n" + text, w, opts, found, found)
            == AfterEntry(ParseEntry(Continued(name + " =", text).0, w, opts, found),
                          Continued(name + " =", text).1, opts, found)
  {
    HeaderLine(name, text);
    var l := name + " =";
    assert l[|l| - 1] == '=';
    assert Entry(l, text) == Continued(l, text);
  }

  lemma NewlineSkipped(text: string, w: seq<Slot>, opts: Options, found: bool)
    requires |w| == |opts.sizes| == 10
    ensures ParseFrom("\n" + text, w, opts, found, found) == ParseFrom(text, w, opts, found, found)
  {
    GetLineOf("", text);
    assert "" + "\n" + text == "\n" + text && "" + "\n" == "\n";
  }

  lemma BlankContinues(entry: string, rest: string)
    requires entry != "" && entry[|entry| - 1] == '='
    ensures Continued(entry, "\n" + rest) == (entry, rest)
  {
    GetLineOf("", rest);
    assert "" + "\n" + rest == "\n" + rest && "" + "\n" == "\n";
    LineTextOf("\n");
    assert Trim("\n") == "" && entry + "" == entry;
  }

  lemma FieldSplits(name: string, data: seq<Byte>, rest: string)
    ensures FieldText(name, data) + rest == "\n" + (name + " =\n" + (ValuesText(data, |data|) + "\n" + rest))
  {
    var values := ValuesText(data, |data|);
    var header := "\n" + (name + " =\n");
    Assoc("\n", name, " =\n");
    Assoc(header, values, "\n");
    Assoc(header, values + "\n", rest);
    Assoc("\n", name + " =\n", values + "\n" + rest);
  }

  /** The text of an empty field has no values after its '=', which is an error. */
  lemma EmptyFieldFails(name: string, rest: string, w: seq<Slot>, opts: Options, found: bool)
    requires Plain(name) && |w| == |opts.sizes| == 10 && (found ==> opts.testName.Some?)
    ensures ParseFrom(FieldText(name, []) + rest, w, opts, found, found) == Err
  {
    FieldSplits(name, [], rest);
    var text := ValuesText([], 0) + "\n" + rest;
    assert text == "\n" + rest;
    NewlineSkipped(name + " =\n" + text, w, opts, found);
    HeaderStep(name, text, w, opts, found);
    BlankContinues(name + " =", rest);
    KeyWithoutValues(name);
  }

  lemma FieldParses(name: string, data: seq<Byte>, rest: string, w: seq<Slot>, opts: Options, found: bool)
    requires Plain(name) && data != [] && |w| == |opts.sizes| == 10 && (found ==> opts.testName.Some?)
    ensures ParseFrom(FieldText(name, data) + rest, w, opts, found, found)
            == AfterEntry(Assign(name + " ", data, w, opts, found), rest, opts, found)
  {
    var text := ValuesText(data, |data|) + "\n" + rest;
    FieldSplits(name, data, rest);
    NewlineSkipped(name + " =\n" + text, w, opts, found);
    HeaderStep(name, text, w, opts, found);
    ValuesAreBody(data, 0);
    assert "" + ("" + Body(data, 0)) == Body(data, 0);
    ContinuedOf(name + " =", data, 0, rest);
    KeyAndValuesOf(name, data);
  }

  lemma AssignOf(k: nat, data: seq<Byte>, w: seq<Slot>, opts: Options, found: bool)
    requires k < 10 && |w| == |opts.sizes| == 10
    ensures Assign(NAMES[k] + " ", data, w, opts, found)
            == if found then Ok(w[k := Present(data, StoredLength(k, |data|))])
               else if opts.sizes[k] > |data| then Err
               else Ok(w[k := Present(data, opts.sizes[k])])
  {
    FieldFromOf(k, 0);
  }

  /** What the options may ask of a printed field, outside a test case. */
  predicate Parsable(s: Slot, size: nat) {
    s.Present? ==> 0 < s.length && size <= s.length
  }

  /** What the parser leaves in a field, outside a test case. */
  function Reread(s: Slot, w: Slot, size: nat): Slot
    requires s.Present? ==> s.length <= |s.data|
  {
    if s.Present? then Present(s.data[..s.length], size) else w
  }

  /** The same with the size that counts: in a test case a field keeps the length of its data. */
  function SizeOf(k: nat, s: Slot, opts: Options, found: bool): nat
    requires k < |opts.sizes|
  {
    if found then (if s.Present? then StoredLength(k, s.length) else 0) else opts.sizes[k]
  }

  lemma StoredIsShorter(k: nat, n: nat)
    ensures StoredLength(k, n) <= n
  {
  }

  /** The printed form of field k, read back into w. */
  lemma SlotParses(k: nat, s: Slot, rest: string, w: seq<Slot>, opts: Options, found: bool)
    requires k < 10 && |w| == |opts.sizes| == 10 && (found ==> opts.testName.Some?)
    requires s.Present? ==> s.length <= |s.data|
    ensures ParseFrom(SlotText(k, s) + rest, w, opts, found, found)
            == if !Parsable(s, SizeOf(k, s, opts, found)) then Err
               else ParseFrom(rest, w[k := Reread(s, w[k], SizeOf(k, s, opts, found))], opts, found, found)
  {
    StoredIsShorter(k, if s.Present? then s.length else 0);
    if s.Absent? {
      assert SlotText(k, s) + rest == rest && w[k := w[k]] == w;
    } else {
      NamesArePlain(k);
      var name := NAMES[k];
      if s.length == 0 {
        assert s.data[..0] == [];
        EmptyFieldFails(name, rest, w, opts, found);
      } else {
        FieldParses(name, s.data[..s.length], rest, w, opts, found);
        AssignOf(k, s.data[..s.length], w, opts, found);
      }
    }
  }

  /** A vector as C holds it: ten fields, no length beyond its buffer. */
  predicate WellFormed(v: seq<Slot>) {
    |v| == 10 && forall i :: 0 <= i < 10 ==> v[i].Present? ==> v[i].length <= |v[i].data|
  }

  predicate ParsableFrom(v: seq<Slot>, k: nat, opts: Options)
    requires |v| == |opts.sizes| == 10
  {
    forall i | k <= i < 10 :: Parsable(v[i], opts.sizes[i])
  }

  /** r is w with every field from k on reread. */
  predicate RereadFrom(r: seq<Slot>, v: seq<Slot>, k: nat, w: seq<Slot>, opts: Options)
    requires WellFormed(v) && |w| == |opts.sizes| == 10
  {
    |r| == 10 && forall i | 0 <= i < 10 :: r[i] == if i < k then w[i] else Reread(v[i], w[i], opts.sizes[i])
  }

  lemma {:induction false} ShowThenParseFrom(v: seq<Slot>, k: nat, w: seq<Slot>, opts: Options)
    requires WellFormed(v) && k <= 10 && |w| == |opts.sizes| == 10 && opts.testName.None?
    ensures var r := ParseFrom(ShowFrom(v, k), w, opts, false, false);
            if ParsableFrom(v, k, opts) then r.Ok? && RereadFrom(r.value, v, k, w, opts) else r == Err
    decreases 10 - k
  {
    if k == 10 {
    } else {
      SlotParses(k, v[k], ShowFrom(v, k + 1), w, opts, false);
      if Parsable(v[k], opts.sizes[k]) {
        ShowThenParseFrom(v, k + 1, w[k := Reread(v[k], w[k], opts.sizes[k])], opts);
      }
    }
  }

  /** Parsing a printed vector without naming a test case succeeds exactly when every printed
      field is non-empty and at least as long as its size option, and then rebuilds every byte of
      every printed field, with the option as its length. */
  lemma ShowThenParse(v: seq<Slot>, w: seq<Slot>, opts: Options)
    requires WellFormed(v) && |w| == |opts.sizes| == 10 && opts.testName.None?
    ensures var r := ParseFrom(ShowFrom(v, 0), w, opts, false, false);
            && (r.Ok? <==> forall i | 0 <= i < 10 :: Parsable(v[i], opts.sizes[i]))
            && (!r.Ok? ==> r == Err)
            && (r.Ok? ==> |r.value| == 10)
            && (r.Ok? ==> forall i | 0 <= i < 10 :: r.value[i] == Reread(v[i], w[i], opts.sizes[i]))
  {
    ShowThenParseFrom(v, 0, w, opts);
  }

  /** The round trip is the identity when the options carry the lengths of the fields. */
  lemma RoundTrip(v: seq<Slot>, opts: Options)
    requires WellFormed(v) && |opts.sizes| == 10 && opts.testName.None?
    requires forall i | 0 <= i < 10 :: v[i].Present? ==> 0 < v[i].length == |v[i].data| == opts.sizes[i]
    ensures ParseFrom(ShowFrom(v, 0), seq(10, _ => Absent), opts, false, false) == Ok(v)
  {
    var w := seq(10, _ => Absent);
    ShowThenParse(v, w, opts);
    var r := ParseFrom(ShowFrom(v, 0), w, opts, false, false);
    forall i | 0 <= i < 10 ensures r.value[i] == v[i] {
      assert v[i].Present? ==> v[i].data[..v[i].length] == v[i].data;
    }
    assert r.value == v;
  }
}
