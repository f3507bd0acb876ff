/** cperf_test_vector_parsing.c: what show_test_vector prints and how parse_file reads a file. */
module TestVector {
  import opened Bytes

  // ---------------------------------------------------------------- characters and C strings

  function UntilDelim(s: string, d: char): (r: string)
    ensures |r| <= |s| && s[..|r|] == r
  {
    if s == "" || s[0] == d then "" else [s[0]] + UntilDelim(s[1..], d)
  }

  /** The C string in a character buffer. */
  function CString(buf: seq<char>): string { UntilDelim(buf, '\0') }

  predicate IsSpace(c: char) {
    c == ' ' || c == '\t' || c == '\n' || c == '\r' || c == '\U{0B}' || c == '\U{0C}'
  }

  function TrimLeft(s: string): string {
    if s != "" && IsSpace(s[0]) then TrimLeft(s[1..]) else s
  }

  function TrimRight(s: string): string {
    if s != "" && IsSpace(s[|s| - 1]) then TrimRight(s[..|s| - 1]) else s
  }

  /** Lines 187-209. */
  function Trim(s: string): string { TrimRight(TrimLeft(s)) }

  /** What trimming leaves of a line: a NUL character ends it. */
  function LineText(line: string): string { Trim(CString(line)) }

  /** printf("0x%02x", b) */
  function ByteText(b: Byte): (s: string)
    ensures |s| == 4
  {
    ['0', 'x', HexDigit(b / 16), HexDigit(b % 16)]
  }

  // ---------------------------------------------------------------- strtok and strtoul

  function SkipDelim(s: string, d: char): (r: string)
    ensures |r| <= |s|
  {
    if s != "" && s[0] == d then SkipDelim(s[1..], d) else s
  }

  /** The next token of `s`, empty when there is none, and the text the next call starts from. */
  function StrTok(s: string, d: char): (r: (string, string))
    ensures r.0 != "" ==> |r.1| < |s|
  {
    var t := SkipDelim(s, d);
    var tok := UntilDelim(t, d);
    (tok, if |tok| < |t| then t[|tok| + 1..] else "")
  }

  function DigitValue(c: char): nat {
    if '0' <= c <= '9' then (c - '0') as nat
    else if 'a' <= c <= 'z' then (c - 'a') as nat + 10
    else if 'A' <= c <= 'Z' then (c - 'A') as nat + 10
    else 99
  }

  function DigitsValue(s: string, base: nat, acc: nat): Option<nat> {
    if s == "" then Some(acc)
    else if DigitValue(s[0]) < base then DigitsValue(s[1..], base, acc * base + DigitValue(s[0]))
    else None
  }

  const U64 := 0x1_0000_0000_0000_0000

  /** strtoul(tok, &end, 0) cast to uint8_t, or None when it does not use the whole token. */
  function StrToByte(tok: string): Option<Byte> {
    var t := TrimLeft(tok);
    var negative := t != "" && t[0] == '-';
    var u := if t != "" && (t[0] == '-' || t[0] == '+') then t[1..] else t;
    var hex := |u| >= 2 && u[0] == '0' && (u[1] == 'x' || u[1] == 'X');
    var digits := if hex then u[2..] else u;
    var base := if hex then 16 else if u != "" && u[0] == '0' then 8 else 10;
    if digits == "" then None
    else
      match DigitsValue(digits, base, 0)
      case None => None
      case Some(v) =>
        var long := if v >= U64 then U64 - 1 else if negative then (U64 - v) % U64 else v;
        Some(long % 256)
  }

  /** The loop of lines 229-257: every token must be a number. */
  function ParseTokens(s: string): Option<seq<Byte>>
    decreases |s|
  {
    var (tok, rest) := StrTok(s, ',');
    if tok == "" then Some([])
    else
      match StrToByte(tok)
      case None => None
      case Some(b) =>
        match ParseTokens(rest)
        case None => None
        case Some(bs) => Some([b] + bs)
  }

  /** Lines 212-271. */
  function ParseValues(s: string): Option<seq<Byte>> {
    if StrTok(s, ',').0 == "" then None else ParseTokens(s)
  }

  // ---------------------------------------------------------------- the vector

  /** A field of the vector: its buffer, of which the first `length` bytes count. */
  datatype Slot = Absent | Present(data: seq<Byte>, length: nat)

  const NAMES: seq<string> := [
    "plaintext", "cipher_key", "auth_key", "aead_key", "cipher_iv",
    "auth_iv", "aead_iv", "ciphertext", "aad", "digest"]

  datatype Options = Options(sizes: seq<nat>, testName: Option<string>)

  predicate StartsAt(s: string, t: string, i: nat) { i + |t| <= |s| && s[i..i + |t|] == t }

  predicate Contains(s: string, t: string) {
    exists i | 0 <= i <= |s| :: StartsAt(s, t, i)
  }

  /** The first field, from k on, whose name occurs in the key (the chain of strstr tests). */
  function FieldFrom(key: string, k: nat): Option<nat>
    decreases 10 - k
  {
    if k >= 10 then None
    else if Contains(key, NAMES[k]) then Some(k)
    else FieldFrom(key, k + 1)
  }

  /** The length kept with a field; an absent one has length 0. */
  function LengthOf(s: Slot): nat { if s.Absent? then 0 else s.length }

  /** plaintext and ciphertext keep their length in 32 bits, the others in 16. */
  function StoredLength(k: nat, n: nat): nat {
    if k == 0 || k == 7 then n % 0x1_0000_0000 else n % 0x1_0000
  }

  datatype Result<+T> = Ok(value: T) | Err | Undefined

  /** Lines 289-302: the key and the values of an entry. */
  function KeyAndValues(entry: string): Option<(string, seq<Byte>)> {
    var (key, afterKey) := StrTok(entry, '=');
    var (values, _) := StrTok(afterKey, '=');
    if key == "" || values == "" then None
    else
      match ParseValues(values)
      case None => None
      case Some(data) => Some((key, data))
  }

  /** Lines 304-452: the data is assigned to the field that the key names.  Outside a test case the
      length comes from the options. */
  function Assign(key: string, data: seq<Byte>, v: seq<Slot>, opts: Options, tcFound: bool): (r: Result<seq<Slot>>)
    requires |v| == |opts.sizes| == 10
    ensures r.Ok? ==> |r.value| == 10
  {
    match FieldFrom(key, 0)
    case None => Err
    case Some(k) =>
      if k >= 10 then Err
      else if tcFound then Ok(v[k := Present(data, StoredLength(k, |data|))])
      else if opts.sizes[k] > |data| then Err
      else Ok(v[k := Present(data, opts.sizes[k])])
  }

  /** Lines 275-453. */
  function ParseEntry(entry: string, v: seq<Slot>, opts: Options, tcFound: bool): (r: Result<seq<Slot>>)
    requires |v| == |opts.sizes| == 10
    ensures r.Ok? ==> |r.value| == 10
  {
    match KeyAndValues(entry)
    case None => Err
    case Some((key, data)) => Assign(key, data, v, opts, tcFound)
  }

  /** What a rejected entry leaves: a field that is too short has got its data before the check. */
  function Rejected(entry: string, v: seq<Slot>): seq<Slot>
    requires |v| == 10
  {
    match KeyAndValues(entry)
    case None => v
    case Some((key, data)) =>
      match FieldFrom(key, 0)
      case None => v
      case Some(k) => if k < 10 then v[k := Present(data, LengthOf(v[k]))] else v
  }

  /** getline: the text up to and including the next newline, and what follows. */
  function GetLine(text: string): (r: (string, string))
    ensures text == r.0 + r.1
    ensures text != "" ==> r.0 != "" && |r.1| < |text|
  {
    if text == "" then ("", "")
    else if text[0] == '\n' then ("\n", text[1..])
    else
      var (l, rest) := GetLine(text[1..]);
      ([text[0]] + l, rest)
  }

  /** Lines 512-531: lines are appended while the entry ends with a comma. */
  function Continued(entry: string, text: string): (r: (string, string))
    ensures |r.1| <= |text|
    decreases |text|
  {
    if text == "" then (entry, "")
    else
      var (line, rest) := GetLine(text);
      var longer := entry + LineText(line);
      if longer == "" || longer[|longer| - 1] != ',' then (longer, rest)
      else Continued(longer, rest)
  }

  function Entry(line: string, text: string): (r: (string, string))
    ensures |r.1| <= |text|
  {
    if line != "" && (line[|line| - 1] == ',' || line[|line| - 1] == '=') then Continued(line, text)
    else (line, text)
  }

  predicate Ignored(line: string)
    requires line != ""
  {
    line[0] == '#' || line[0] == '/' || line[0] == '\n' || line[0] == '\r' || line[0] == ' '
  }

  predicate IsSection(line: string) {
    line != "" && line[0] == '[' && line[|line| - 1] == ']'
  }

  /** Lines 540-549. */
  function Finished(v: seq<Slot>, opts: Options, tcFound: bool): Result<seq<Slot>> {
    if !tcFound && opts.testName.Some? then Err else Ok(v)
  }

  /** What the line loop does next. */
  datatype Step =
    | Stop
    | Skip(tcFound: bool, tcStart: bool)
    | Field(line: string, tcStart: bool)

  /** Lines 478-508: the fate of a line, `line` being the line after trimming. */
  function Classify(raw: string, line: string, opts: Options, tcFound: bool, tcStart: bool): Step
    requires raw != ""
  {
    if Ignored(raw) then Skip(tcFound, tcStart)
    else if IsSection(line) && tcFound then Stop
    else
      var start := tcStart || IsSection(line);
      if start && opts.testName.None? then Stop
      else if start && !tcFound then Skip(Some(line) == opts.testName, start)
      else Field(line, start)
  }

  /** The loop of lines 475-538 on the text still to be read.  An entry that is empty after
      trimming makes the code look at the character before it. */
  function ParseFrom(text: string, v: seq<Slot>, opts: Options, tcFound: bool, tcStart: bool): Result<seq<Slot>>
    requires |v| == |opts.sizes| == 10
    decreases |text|
  {
    if text == "" then Finished(v, opts, tcFound)
    else
      var (raw, rest) := GetLine(text);
      match Classify(raw, LineText(raw), opts, tcFound, tcStart)
      case Stop => Finished(v, opts, tcFound)
      case Skip(found, start) => ParseFrom(rest, v, opts, found, start)
      case Field(line, start) =>
        if line == "" then Undefined
        else
          var (entry, rest') := Entry(line, rest);
          match ParseEntry(entry, v, opts, tcFound)
          case Ok(v') => ParseFrom(rest', v', opts, tcFound, start)
          case Err => Err
          case Undefined => Undefined
  }

  // ---------------------------------------------------------------- printing

  /** What one turn of the printing loop emits. */
  function ValueText(data: seq<Byte>, i: nat): string
    requires i < |data|
  {
    (if i % 32 == 0 && i != 0 then "\n" else "") + ByteText(data[i]) + (if i == |data| - 1 then "" else ", ")
  }

  function ValuesText(data: seq<Byte>, n: nat): string
    requires n <= |data|
  {
    if n == 0 then "" else ValuesText(data, n - 1) + ValueText(data, n - 1)
  }

  /** Lines 47-60 and their nine copies. */
  function FieldText(name: string, data: seq<Byte>): string {
    "\n" + name + " =\n" + ValuesText(data, |data|) + "\n"
  }

  function SlotText(k: nat, s: Slot): string
    requires k < 10 && (s.Present? ==> s.length <= |s.data|)
  {
    if s.Absent? then "" else FieldText(NAMES[k], s.data[..s.length])
  }

  /** show_test_vector from field k on. */
  function ShowFrom(v: seq<Slot>, k: nat): string
    requires |v| == 10 && k <= 10
    requires forall i :: 0 <= i < 10 ==> v[i].Present? ==> v[i].length <= |v[i].data|
    decreases 10 - k
  {
    if k == 10 then "" else SlotText(k, v[k]) + ShowFrom(v, k + 1)
  }
}
