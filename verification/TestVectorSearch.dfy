/** Which part of a test vector file counts: the entries before the first section and, when a test
    case is named, those of its section. */
module TestVectorSearch {
  import opened Bytes
  import opened TestVector
  import opened TestVectorRoundTrip

  // ---------------------------------------------------------------- the parts of a file

  /** A line that is passed over, without its newline. */
  predicate Comment(line: string) {
    line == "" || line[0] == '#' || line[0] == '/' || line[0] == '\r' || line[0] == ' '
  }

  /** What is left of the line after trimming. */
  function Text(line: string): string { LineText(line + "\n") }

  predicate Header(line: string) {
    && '\n' !in line && !Comment(line)
    && Text(line) != "" && Text(line)[0] == '[' && Text(line)[|Text(line)| - 1] == ']'
  }

  /** The line ends the search for a test case of this name. */
  predicate Names(line: string, name: string) { !Comment(line) && Text(line) == name }

  function Lines(lines: seq<string>): string {
    if lines == [] then "" else lines[0] + "\n" + Lines(lines[1..])
  }

  predicate Proper(lines: seq<string>) { forall i :: 0 <= i < |lines| ==> '\n' !in lines[i] }

  /** A comment, or an entry with the lines it goes on in. */
  datatype Item = Note(line: string) | Setting(line: string, more: seq<string>)

  function Glue(entry: string, more: seq<string>): string
    decreases |more|
  {
    if more == [] then entry else Glue(entry + Text(more[0]), more[1..])
  }

  predicate Open(entry: string) { entry != "" && entry[|entry| - 1] == ',' }

  /** Every line but the last leaves the entry open, and the last does not. */
  predicate Closes(entry: string, more: seq<string>)
    requires more != []
    decreases |more|
  {
    var longer := entry + Text(more[0]);
    if |more| == 1 then !Open(longer) else Open(longer) && Closes(longer, more[1..])
  }

  predicate WellItem(item: Item) {
    match item
    case Note(line) => '\n' !in line && Comment(line)
    case Setting(line, more) =>
      var t := Text(line);
      && '\n' !in line && Proper(more) && !Comment(line) && t != ""
      && !(t[0] == '[' && t[|t| - 1] == ']')
      && (if t[|t| - 1] == ',' || t[|t| - 1] == '=' then more != [] && Closes(t, more) else more == [])
  }

  predicate WellItems(items: seq<Item>) { forall i :: 0 <= i < |items| ==> WellItem(items[i]) }

  function ItemText(item: Item): string {
    match item
    case Note(line) => line + "\n"
    case Setting(line, more) => line + "\n" + Lines(more)
  }

  function ItemsText(items: seq<Item>): string {
    if items == [] then "" else ItemText(items[0]) + ItemsText(items[1..])
  }

  /** The entries of these items, each glued from its lines. */
  function Entries(items: seq<Item>): seq<string> {
    if items == [] then []
    else if items[0].Note? then Entries(items[1..])
    else [Glue(Text(items[0].line), items[0].more)] + Entries(items[1..])
  }

  /** The vector after these entries, one after the other. */
  function ApplyAll(entries: seq<string>, v: seq<Slot>, opts: Options, inCase: bool): (r: Result<seq<Slot>>)
    requires |v| == |opts.sizes| == 10
    ensures r.Ok? ==> |r.value| == 10
  {
    if entries == [] then Ok(v)
    else
      match ParseEntry(entries[0], v, opts, inCase)
      case Ok(w) => ApplyAll(entries[1..], w, opts, inCase)
      case Err => Err
      case Undefined => Undefined
  }

  /** What may come behind the section: the end of the file, or another header and anything. */
  datatype Tail = End | Next(header: string, rest: string)

  predicate WellTail(tail: Tail) { tail.Next? ==> Header(tail.header) }

  function TailText(tail: Tail): string {
    match tail
    case End => ""
    case Next(header, rest) => header + "\n" + rest
  }

  // ---------------------------------------------------------------- one line

  lemma LineSplits(line: string, rest: string)
    requires '\n' !in line
    ensures GetLine(line + "\n" + rest) == (line + "\n", rest)
    ensures Ignored(line + "\n") <==> Comment(line)
  {
    GetLineOf(line, rest);
    assert line != "" ==> (line + "\n")[0] == line[0] != '\n';
  }

  lemma {:induction false} LinesGlue(entry: string, more: seq<string>, rest: string)
    requires more != [] && Proper(more) && Closes(entry, more)
    ensures Continued(entry, Lines(more) + rest) == (Glue(entry, more), rest)
    decreases |more|
  {
    var longer, others := entry + Text(more[0]), Lines(more[1..]) + rest;
    assert Lines(more) + rest == more[0] + "\n" + others;
    LineSplits(more[0], others);
    if |more| == 1 {
      assert more[1..] == [] && others == rest;
    } else {
      LinesGlue(longer, more[1..], rest);
    }
  }

  lemma EntryGlues(line: string, more: seq<string>, rest: string)
    requires WellItem(Setting(line, more))
    ensures Entry(Text(line), Lines(more) + rest) == (Glue(Text(line), more), rest)
  {
    if more == [] {
      assert Lines(more) + rest == rest;
    } else {
      LinesGlue(Text(line), more, rest);
    }
  }

  // ---------------------------------------------------------------- items

  function Continue(r: Result<seq<Slot>>, rest: string, opts: Options, found: bool): Result<seq<Slot>>
    requires |opts.sizes| == 10 && (r.Ok? ==> |r.value| == 10)
  {
    match r
    case Ok(w) => ParseFrom(rest, w, opts, found, found)
    case Err => Err
    case Undefined => Undefined
  }

  lemma NoteSkipped(line: string, rest: string, v: seq<Slot>, opts: Options, found: bool)
    requires WellItem(Note(line)) && |v| == |opts.sizes| == 10
    ensures ParseFrom(line + "\n" + rest, v, opts, found, found) == ParseFrom(rest, v, opts, found, found)
  {
    LineSplits(line, rest);
  }

  lemma SettingRead(line: string, more: seq<string>, rest: string, v: seq<Slot>, opts: Options, found: bool)
    requires WellItem(Setting(line, more)) && |v| == |opts.sizes| == 10 && (found ==> opts.testName.Some?)
    ensures ParseFrom(line + "\n" + (Lines(more) + rest), v, opts, found, found)
         == Continue(ParseEntry(Glue(Text(line), more), v, opts, found), rest, opts, found)
  {
    LineSplits(line, Lines(more) + rest);
    EntryGlues(line, more, rest);
  }

  /** Items are read as their entries, one after the other, wherever they stand. */
  lemma {:induction false} ItemsRead(items: seq<Item>, rest: string, v: seq<Slot>, opts: Options, found: bool)
    requires WellItems(items) && |v| == |opts.sizes| == 10 && (found ==> opts.testName.Some?)
    ensures ParseFrom(ItemsText(items) + rest, v, opts, found, found)
         == Continue(ApplyAll(Entries(items), v, opts, found), rest, opts, found)
    decreases |items|
  {
    if items == [] {
      assert ItemsText(items) + rest == rest;
    } else {
      var others := ItemsText(items[1..]) + rest;
      Assoc(ItemText(items[0]), ItemsText(items[1..]), rest);
      match items[0] {
        case Note(line) =>
          NoteSkipped(line, others, v, opts, found);
          ItemsRead(items[1..], rest, v, opts, found);
        case Setting(line, more) =>
          Assoc(line + "\n", Lines(more), others);
          SettingRead(line, more, others, v, opts, found);
          var entries := Entries(items);
          assert entries[1..] == Entries(items[1..]);
          var r := ParseEntry(entries[0], v, opts, found);
          if r.Ok? {
            ItemsRead(items[1..], rest, r.value, opts, found);
          }
      }
    }
  }

  /** After the section, and after the global entries when no test case is named, nothing counts. */
  lemma TailStops(tail: Tail, v: seq<Slot>, opts: Options, found: bool)
    requires WellTail(tail) && |v| == |opts.sizes| == 10 && found == opts.testName.Some?
    ensures ParseFrom(TailText(tail), v, opts, found, found) == Ok(v)
  {
    if tail.Next? {
      LineSplits(tail.header, tail.rest);
    }
  }

  lemma SectionRead(items: seq<Item>, tail: Tail, v: seq<Slot>, opts: Options, found: bool)
    requires WellItems(items) && WellTail(tail) && |v| == |opts.sizes| == 10 && found == opts.testName.Some?
    ensures ParseFrom(ItemsText(items) + TailText(tail), v, opts, found, found)
         == ApplyAll(Entries(items), v, opts, found)
  {
    ItemsRead(items, TailText(tail), v, opts, found);
    var r := ApplyAll(Entries(items), v, opts, found);
    if r.Ok? {
      TailStops(tail, r.value, opts, found);
    }
  }

  // ---------------------------------------------------------------- the search

  lemma {:induction false} PassedOver(lines: seq<string>, rest: string, v: seq<Slot>, opts: Options, name: string)
    requires Proper(lines) && |v| == |opts.sizes| == 10 && opts.testName == Some(name)
    requires forall i :: 0 <= i < |lines| ==> !Names(lines[i], name)
    ensures ParseFrom(Lines(lines) + rest, v, opts, false, true) == ParseFrom(rest, v, opts, false, true)
    decreases |lines|
  {
    if lines == [] {
      assert Lines(lines) + rest == rest;
    } else {
      var others := Lines(lines[1..]) + rest;
      assert Lines(lines) + rest == lines[0] + "\n" + others;
      LineSplits(lines[0], others);
      PassedOver(lines[1..], rest, v, opts, name);
    }
  }

  lemma HeaderStarts(line: string, rest: string, v: seq<Slot>, opts: Options, name: string)
    requires Header(line) && |v| == |opts.sizes| == 10 && opts.testName == Some(name)
    ensures ParseFrom(line + "\n" + rest, v, opts, false, false) == ParseFrom(rest, v, opts, Text(line) == name, true)
  {
    LineSplits(line, rest);
  }

  lemma NameEnds(line: string, rest: string, v: seq<Slot>, opts: Options, name: string)
    requires '\n' !in line && Names(line, name) && |v| == |opts.sizes| == 10 && opts.testName == Some(name)
    ensures ParseFrom(line + "\n" + rest, v, opts, false, true) == ParseFrom(rest, v, opts, true, true)
  {
    LineSplits(line, rest);
  }

  lemma {:induction false} LinesJoin(before: seq<string>, last: string, rest: string)
    ensures Lines(before + [last]) + rest == Lines(before) + (last + "\n" + rest)
    decreases |before|
  {
    if before == [] {
      assert before + [last] == [last] && Lines([last]) == last + "\n" + "";
    } else {
      assert (before + [last])[1..] == before[1..] + [last];
      LinesJoin(before[1..], last, rest);
      Assoc(before[0] + "\n", Lines(before[1..] + [last]), rest);
      Assoc(before[0] + "\n", Lines(before[1..]), last + "\n" + rest);
    }
  }

  /** From the first header on, lines are passed over up to the first one that names the test case. */
  lemma SearchFinds(lines: seq<string>, rest: string, v: seq<Slot>, opts: Options, name: string)
    requires Proper(lines) && |v| == |opts.sizes| == 10 && opts.testName == Some(name)
    requires lines != [] && Header(lines[0]) && Names(lines[|lines| - 1], name)
    requires forall i :: 0 <= i < |lines| - 1 ==> !Names(lines[i], name)
    ensures ParseFrom(Lines(lines) + rest, v, opts, false, false) == ParseFrom(rest, v, opts, true, true)
  {
    var others := Lines(lines[1..]) + rest;
    Assoc(lines[0] + "\n", Lines(lines[1..]), rest);
    HeaderStarts(lines[0], others, v, opts, name);
    if |lines| == 1 {
      assert others == rest;
    } else {
      var before, last := lines[1..|lines| - 1], lines[|lines| - 1];
      assert lines[1..] == before + [last];
      LinesJoin(before, last, rest);
      PassedOver(before, last + "\n" + rest, v, opts, name);
      NameEnds(last, rest, v, opts, name);
    }
  }

  lemma SearchFails(lines: seq<string>, v: seq<Slot>, opts: Options, name: string)
    requires Proper(lines) && |v| == |opts.sizes| == 10 && opts.testName == Some(name)
    requires lines != [] ==> Header(lines[0])
    requires forall i :: 0 <= i < |lines| ==> !Names(lines[i], name)
    ensures ParseFrom(Lines(lines), v, opts, false, false) == Err
  {
    if lines != [] {
      var others := Lines(lines[1..]);
      LineSplits(lines[0], others);
      PassedOver(lines[1..], "", v, opts, name);
      assert others + "" == others;
    }
  }

  // ---------------------------------------------------------------- main results

  /** A named test case: the result is the entries before the first header, followed by those behind
      the first line that is the name, up to the next header, with the lengths of their data. */
  lemma NamedCase(g: seq<Item>, lines: seq<string>, items: seq<Item>, tail: Tail, v: seq<Slot>, opts: Options, name: string)
    requires WellItems(g) && WellItems(items) && WellTail(tail) && Proper(lines)
    requires |v| == |opts.sizes| == 10 && opts.testName == Some(name)
    requires lines != [] && Header(lines[0]) && Names(lines[|lines| - 1], name)
    requires forall i :: 0 <= i < |lines| - 1 ==> !Names(lines[i], name)
    ensures ParseFrom(ItemsText(g) + (Lines(lines) + (ItemsText(items) + TailText(tail))), v, opts, false, false)
         == var r := ApplyAll(Entries(g), v, opts, false);
            if r.Ok? then ApplyAll(Entries(items), r.value, opts, true) else r
  {
    var rest := ItemsText(items) + TailText(tail);
    ItemsRead(g, Lines(lines) + rest, v, opts, false);
    var r := ApplyAll(Entries(g), v, opts, false);
    if r.Ok? {
      SearchFinds(lines, rest, r.value, opts, name);
      SectionRead(items, tail, r.value, opts, true);
    }
  }

  /** A name that no line behind the first header is: an error, whatever the entries are. */
  lemma NameMissing(g: seq<Item>, lines: seq<string>, v: seq<Slot>, opts: Options, name: string)
    requires WellItems(g) && Proper(lines) && |v| == |opts.sizes| == 10 && opts.testName == Some(name)
    requires lines != [] ==> Header(lines[0])
    requires forall i :: 0 <= i < |lines| ==> !Names(lines[i], name)
    ensures !ParseFrom(ItemsText(g) + Lines(lines), v, opts, false, false).Ok?
  {
    ItemsRead(g, Lines(lines), v, opts, false);
    var r := ApplyAll(Entries(g), v, opts, false);
    if r.Ok? {
      SearchFails(lines, r.value, opts, name);
    }
  }

  /** Without a name only the entries before the first header count. */
  lemma GlobalOnly(g: seq<Item>, tail: Tail, v: seq<Slot>, opts: Options)
    requires WellItems(g) && WellTail(tail) && |v| == |opts.sizes| == 10 && opts.testName.None?
    ensures ParseFrom(ItemsText(g) + TailText(tail), v, opts, false, false) == ApplyAll(Entries(g), v, opts, false)
  {
    SectionRead(g, tail, v, opts, false);
  }

  // ---------------------------------------------------------------- the round trip of a named case

  /** The vector after reading the printed fields from k on. */
  function Reading(v: seq<Slot>, k: nat, w: seq<Slot>, opts: Options, found: bool): (r: seq<Slot>)
    requires WellFormed(v) && |w| == |opts.sizes| == 10 && k <= 10
    ensures |r| == 10
    decreases 10 - k
  {
    if k == 10 then w
    else Reading(v, k + 1, w[k := Reread(v[k], w[k], SizeOf(k, v[k], opts, found))], opts, found)
  }

  lemma {:induction false} ReadingIs(v: seq<Slot>, k: nat, w: seq<Slot>, opts: Options, found: bool, i: nat)
    requires WellFormed(v) && |w| == |opts.sizes| == 10 && k <= 10 && i < 10
    ensures Reading(v, k, w, opts, found)[i] == if i < k then w[i] else Reread(v[i], w[i], SizeOf(i, v[i], opts, found))
    decreases 10 - k
  {
    if k == 10 {
    } else {
      ReadingIs(v, k + 1, w[k := Reread(v[k], w[k], SizeOf(k, v[k], opts, found))], opts, found, i);
    }
  }

  predicate AllParsable(v: seq<Slot>, k: nat, opts: Options, found: bool)
    requires |v| == |opts.sizes| == 10
  {
    forall i | k <= i < 10 :: Parsable(v[i], SizeOf(i, v[i], opts, found))
  }

  lemma SlotReads(v: seq<Slot>, k: nat, rest: string, w: seq<Slot>, opts: Options, found: bool)
    requires WellFormed(v) && |w| == |opts.sizes| == 10 && k < 10 && (found ==> opts.testName.Some?)
    ensures var size := SizeOf(k, v[k], opts, found);
            ParseFrom(ShowFrom(v, k) + rest, w, opts, found, found)
            == if Parsable(v[k], size)
               then ParseFrom(ShowFrom(v, k + 1) + rest, w[k := Reread(v[k], w[k], size)], opts, found, found)
               else Err
  {
    Assoc(SlotText(k, v[k]), ShowFrom(v, k + 1), rest);
    SlotParses(k, v[k], ShowFrom(v, k + 1) + rest, w, opts, found);
  }

  lemma ParsableStep(v: seq<Slot>, k: nat, opts: Options, found: bool)
    requires |v| == |opts.sizes| == 10 && k < 10
    ensures AllParsable(v, k, opts, found) <==>
              Parsable(v[k], SizeOf(k, v[k], opts, found)) && AllParsable(v, k + 1, opts, found)
  {
  }

  lemma {:induction false} ShownReads(v: seq<Slot>, k: nat, rest: string, w: seq<Slot>, opts: Options, found: bool)
    requires WellFormed(v) && |w| == |opts.sizes| == 10 && k <= 10 && (found ==> opts.testName.Some?)
    ensures ParseFrom(ShowFrom(v, k) + rest, w, opts, found, found)
         == if AllParsable(v, k, opts, found) then ParseFrom(rest, Reading(v, k, w, opts, found), opts, found, found)
            else Err
    decreases 10 - k
  {
    if k == 10 {
      assert ShowFrom(v, k) + rest == rest;
    } else {
      var size := SizeOf(k, v[k], opts, found);
      SlotReads(v, k, rest, w, opts, found);
      ParsableStep(v, k, opts, found);
      if Parsable(v[k], size) {
        ShownReads(v, k + 1, rest, w[k := Reread(v[k], w[k], size)], opts, found);
      }
    }
  }

  /** Two printed vectors, the second behind the header of the named test case: parsing succeeds
      exactly when the fields of the first are non-empty and not shorter than their options and those
      of the second are non-empty; then every field of the second is rebuilt with its own length,
      kept in 32 or 16 bits, and stands in place of the first one's. */
  lemma NamedRoundTrip(g: seq<Slot>, lines: seq<string>, u: seq<Slot>, tail: Tail, w: seq<Slot>, opts: Options, name: string)
    requires WellFormed(g) && WellFormed(u) && WellTail(tail) && Proper(lines)
    requires |w| == |opts.sizes| == 10 && opts.testName == Some(name)
    requires lines != [] && Header(lines[0]) && Names(lines[|lines| - 1], name)
    requires forall i :: 0 <= i < |lines| - 1 ==> !Names(lines[i], name)
    ensures var r := ParseFrom(ShowFrom(g, 0) + (Lines(lines) + (ShowFrom(u, 0) + TailText(tail))), w, opts, false, false);
            && (r.Ok? <==>
                forall i | 0 <= i < 10 ::
                  && (g[i].Present? ==> 0 < g[i].length && opts.sizes[i] <= g[i].length)
                  && (u[i].Present? ==> 0 < u[i].length))
            && (r.Ok? ==> |r.value| == 10)
            && (r.Ok? ==> forall i | 0 <= i < 10 ::
                  r.value[i] ==
                    if u[i].Present? then
                      Present(u[i].data[..u[i].length], u[i].length % if i == 0 || i == 7 then 0x1_0000_0000 else 0x1_0000)
                    else if g[i].Present? then Present(g[i].data[..g[i].length], opts.sizes[i])
                    else w[i])
  {
    var rest := ShowFrom(u, 0) + TailText(tail);
    var w1 := Reading(g, 0, w, opts, false);
    var w2 := Reading(u, 0, w1, opts, true);
    ShownReads(g, 0, Lines(lines) + rest, w, opts, false);
    SearchFinds(lines, rest, w1, opts, name);
    ShownReads(u, 0, TailText(tail), w1, opts, true);
    TailStops(tail, w2, opts, true);
    forall i: nat | i < 10
      ensures Parsable(g[i], SizeOf(i, g[i], opts, false)) <==>
                (g[i].Present? ==> 0 < g[i].length && opts.sizes[i] <= g[i].length)
      ensures Parsable(u[i], SizeOf(i, u[i], opts, true)) <==> (u[i].Present? ==> 0 < u[i].length)
      ensures w2[i] == Reread(u[i], Reread(g[i], w[i], opts.sizes[i]), SizeOf(i, u[i], opts, true))
    {
      ReadingIs(g, 0, w, opts, false, i);
      ReadingIs(u, 0, w1, opts, true, i);
      StoredIsShorter(i, if u[i].Present? then u[i].length else 0);
    }
  }
}
