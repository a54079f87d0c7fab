/**
 * The generated AHI contract file: a line parser for `set(NAME [==[VALUE]==])` assignments with the
 * printer that it inverts, and the typed parser that takes every required field exactly once.
 */
module ContractFile {
  import opened Wrappers

  // ----- texts -----

  predicate NewlineFree(s: string) { forall i :: 0 <= i < |s| ==> s[i] != '\n' }

  /** First position of `pattern`, or the length of the text when it does not occur. */
  function Find(s: string, pattern: string): (i: nat)
    requires pattern != []
    ensures i <= |s|
    ensures i < |s| ==> pattern <= s[i..]
  {
    if s == [] then 0
    else if pattern <= s then 0
    else
      var i := Find(s[1..], pattern);
      assert i < |s[1..]| ==> s[1..][i..] == s[1 + i..];
      1 + i
  }

  lemma NotAtStart(s: string, pattern: string)
    requires pattern != [] && s != [] && s[0] != pattern[0]
    ensures !(pattern <= s)
  {
  }

  lemma TailOfText(a: string, b: string, c: string)
    requires a != []
    ensures (a + b + c)[0] == a[0] && (a + b + c)[1..] == a[1..] + b + c
  {
  }

  /** The pattern is found right behind a prefix that avoids its first character. */
  lemma {:induction false} FindAt(prefix: string, pattern: string, rest: string)
    requires pattern != [] && forall i :: 0 <= i < |prefix| ==> prefix[i] != pattern[0]
    ensures Find(prefix + pattern + rest, pattern) == |prefix|
  {
    var s := prefix + pattern + rest;
    if prefix == [] {
      assert s == pattern + rest;
    } else {
      FindAt(prefix[1..], pattern, rest);
      TailOfText(prefix, pattern, rest);
      NotAtStart(s, pattern);
    }
  }

  lemma {:induction false} FindNothing(s: string, pattern: string)
    requires pattern != [] && forall i :: 0 <= i < |s| ==> s[i] != pattern[0]
    ensures Find(s, pattern) == |s|
  {
    if s != [] {
      FindNothing(s[1..], pattern);
      NotAtStart(s, pattern);
    }
  }

  /** A carriage return in front of the line feed belongs to the line ending. */
  function WithoutReturn(line: string): string {
    if line != [] && line[|line| - 1] == '\r' then line[..|line| - 1] else line
  }

  /** `str::lines`. */
  function Lines(text: string): seq<string>
    decreases |text|
  {
    if text == [] then []
    else
      var i := Find(text, "\n");
      if i == |text| then [text] else [WithoutReturn(text[..i])] + Lines(text[i + 1..])
  }

  lemma FirstLine(line: string, rest: string)
    requires NewlineFree(line) && (line != [] ==> line[|line| - 1] != '\r')
    ensures Lines(line + "\n" + rest) == [line] + Lines(rest)
  {
    var text := line + "\n" + rest;
    FindAt(line, "\n", rest);
    assert text[..|line|] == line && text[|line| + 1..] == rest;
  }

  // ----- one assignment -----

  const OPEN: string := "set("
  const MIDDLE: string := " [==["
  const CLOSE: string := "]==])"

  predicate NameCharacter(c: char) { 'A' <= c <= 'Z' || '0' <= c <= '9' || c == '_' }

  predicate LegalName(name: string) { name != [] && forall i :: 0 <= i < |name| ==> NameCharacter(name[i]) }

  datatype Entry = Entry(name: string, value: string)

  predicate LegalEntry(e: Entry) { LegalName(e.name) && e.value != [] && NewlineFree(e.value) }

  /** `NAME [==[VALUE`. */
  function ParseInner(inner: string): Option<Entry> {
    var i := Find(inner, MIDDLE);
    if i == |inner| then None
    else
      var name, value := inner[..i], inner[i + |MIDDLE|..];
      if !LegalName(name) || value == [] then None else Some(Entry(name, value))
  }

  /** One line of `parse_assignments`. */
  function ParseLine(line: string): Option<Entry> {
    if !(OPEN <= line) then None
    else
      var body := line[|OPEN|..];
      if |body| < |CLOSE| || body[|body| - |CLOSE|..] != CLOSE then None
      else ParseInner(body[..|body| - |CLOSE|])
  }

  function PrintLine(e: Entry): string { OPEN + (e.name + MIDDLE + e.value) + CLOSE }

  /** The first separator of a printed line is the one the printer wrote. */
  lemma SeparatorFound(name: string, value: string)
    requires LegalName(name)
    ensures Find(name + MIDDLE + value, MIDDLE) == |name|
  {
    assert MIDDLE[0] == ' ';
    FindAt(name, MIDDLE, value);
  }

  lemma ParsePrintedInner(e: Entry)
    requires LegalEntry(e)
    ensures ParseInner(e.name + MIDDLE + e.value) == Some(e)
  {
    var inner := e.name + MIDDLE + e.value;
    SeparatorFound(e.name, e.value);
    assert inner[..|e.name|] == e.name && inner[|e.name| + |MIDDLE|..] == e.value;
  }

  lemma StripWrapping(open: string, inner: string, close: string)
    ensures var line := open + inner + close;
      && open <= line && line[|open|..] == inner + close
      && line[|open|..][|inner|..] == close && line[|open|..][..|inner|] == inner
  {
  }

  lemma ParsePrintedLine(e: Entry)
    requires LegalEntry(e)
    ensures ParseLine(PrintLine(e)) == Some(e)
  {
    ParsePrintedInner(e);
    StripWrapping(OPEN, e.name + MIDDLE + e.value, CLOSE);
  }

  /** Every accepted line is a printed one. */
  lemma ParsedLineIsPrinted(line: string)
    requires ParseLine(line).Some?
    ensures line == PrintLine(ParseLine(line).value)
    ensures LegalName(ParseLine(line).value.name) && ParseLine(line).value.value != []
  {
    var body := line[|OPEN|..];
    var inner := body[..|body| - |CLOSE|];
    var i := Find(inner, MIDDLE);
    assert inner[i..] == MIDDLE + inner[i + |MIDDLE|..];
    assert inner == inner[..i] + MIDDLE + inner[i + |MIDDLE|..];
    assert body == inner + CLOSE;
    assert line == OPEN + inner + CLOSE;
  }

  // ----- the whole file -----

  datatype Raw = Raw(value: string, line: nat)

  type Table = map<string, Raw>

  /** The table after the given lines, or nothing as soon as a line is malformed or repeats a name. */
  function Assignments(lines: seq<string>, parse: string -> Option<Entry>): Option<Table> {
    if lines == [] then Some(map[])
    else
      var before, e := Assignments(lines[..|lines| - 1], parse), parse(lines[|lines| - 1]);
      if before.None? || e.None? || e.value.name in before.value then None
      else Some(before.value[e.value.name := Raw(e.value.value, |lines|)])
  }

  lemma {:induction false} BadPrefixStaysBad(lines: seq<string>, n: nat, parse: string -> Option<Entry>)
    requires n <= |lines| && Assignments(lines[..n], parse).None?
    ensures Assignments(lines, parse).None?
  {
    if n == |lines| {
      assert lines[..n] == lines;
    } else {
      assert lines[..|lines| - 1][..n] == lines[..n];
      BadPrefixStaysBad(lines[..|lines| - 1], n, parse);
    }
  }

  function ParsedText(text: string): Option<Table> {
    if text == [] then None else Assignments(Lines(text), ParseLine)
  }

  /** The loop over the lines of `parse_assignments`. */
  method ParseLines(lines: seq<string>, parse: string -> Option<Entry>) returns (r: Option<Table>)
    ensures r == Assignments(lines, parse)
  {
    var values: Table := map[];
    for i := 0 to |lines|
      invariant Assignments(lines[..i], parse) == Some(values)
    {
      assert lines[..i + 1][..i] == lines[..i] && lines[..i + 1][i] == lines[i];
      var e := parse(lines[i]);
      if e.None? || e.value.name in values {
        BadPrefixStaysBad(lines, i + 1, parse);
        return None;
      }
      values := values[e.value.name := Raw(e.value.value, i + 1)];
    }
    assert lines[..|lines|] == lines;
    r := Some(values);
  }

  /** `parse_assignments`. */
  method ParseAssignments(text: string) returns (r: Option<Table>)
    ensures r == ParsedText(text)
  {
    if text == [] { return None; }
    r := ParseLines(Lines(text), ParseLine);
  }

  function Print(entries: seq<Entry>, print_: Entry -> string): string {
    if entries == [] then "" else print_(entries[0]) + "\n" + Print(entries[1..], print_)
  }

  function PrintedLines(entries: seq<Entry>, print_: Entry -> string): (r: seq<string>)
    ensures |r| == |entries|
  {
    seq(|entries|, i requires 0 <= i < |entries| => print_(entries[i]))
  }

  ghost predicate AllLegal(entries: seq<Entry>) {
    forall i :: 0 <= i < |entries| ==> LegalEntry(entries[i])
  }

  /** A printed line survives being split into lines. */
  predicate OneLine(line: string) { NewlineFree(line) && line != [] && line[|line| - 1] != '\r' }

  lemma PrintedLinesHead(entries: seq<Entry>, print_: Entry -> string)
    requires entries != []
    ensures PrintedLines(entries, print_) == [print_(entries[0])] + PrintedLines(entries[1..], print_)
  {
  }

  /** Printing and splitting gives back the printed lines. */
  lemma {:induction false} LinesOfPrint(entries: seq<Entry>, print_: Entry -> string)
    requires forall i :: 0 <= i < |entries| ==> OneLine(print_(entries[i]))
    ensures Lines(Print(entries, print_)) == PrintedLines(entries, print_)
  {
    if entries != [] {
      var rest := entries[1..];
      assert forall i :: 0 <= i < |rest| ==> rest[i] == entries[i + 1];
      LinesOfPrint(rest, print_);
      FirstLine(print_(entries[0]), Print(rest, print_));
      PrintedLinesHead(entries, print_);
    }
  }

  lemma PrintLineIsOneLine(e: Entry)
    requires LegalEntry(e)
    ensures OneLine(PrintLine(e))
  {
    var line := PrintLine(e);
    forall i | 0 <= i < |line| ensures line[i] != '\n' { PrintedCharacter(e, i); }
    assert line[|line| - 1] == CLOSE[4] == ')';
  }

  lemma PrintedCharacter(e: Entry, i: nat)
    requires LegalEntry(e) && i < |PrintLine(e)|
    ensures PrintLine(e)[i] != '\n'
  {
    var inner := e.name + MIDDLE + e.value;
    var a := |OPEN|;
    if i < a { assert PrintLine(e)[i] == OPEN[i]; }
    else if i < a + |inner| {
      assert PrintLine(e)[i] == inner[i - a];
      var k := i - a;
      assert inner[k] == if k < |e.name| then e.name[k] else if k < |e.name| + |MIDDLE| then MIDDLE[k - |e.name|] else e.value[k - |e.name| - |MIDDLE|];
    }
    else { assert PrintLine(e)[i] == CLOSE[i - a - |inner|]; }
  }

  /** The table a list of entries stands for, with the lines they are printed on. */
  function TableOf(entries: seq<Entry>): Table {
    if entries == [] then map[]
    else
      var last := entries[|entries| - 1];
      TableOf(entries[..|entries| - 1])[last.name := Raw(last.value, |entries|)]
  }

  lemma {:induction false} NamesOfTable(entries: seq<Entry>, name: string)
    ensures name in TableOf(entries) <==> exists i :: 0 <= i < |entries| && entries[i].name == name
  {
    if entries != [] {
      var rest := entries[..|entries| - 1];
      NamesOfTable(rest, name);
      assert forall i :: 0 <= i < |rest| ==> rest[i] == entries[i];
      if i :| 0 <= i < |entries| && entries[i].name == name { assert i < |rest| ==> rest[i].name == name; }
    }
  }

  ghost predicate DistinctNames(entries: seq<Entry>) {
    entries == [] ||
    (DistinctNames(entries[..|entries| - 1]) && entries[|entries| - 1].name !in TableOf(entries[..|entries| - 1]))
  }

  /** The same, said for every pair. */
  lemma {:induction false} DistinctNamesMeans(entries: seq<Entry>)
    ensures DistinctNames(entries) <==> forall i, j :: 0 <= i < j < |entries| ==> entries[i].name != entries[j].name
  {
    if entries != [] {
      var rest, last := entries[..|entries| - 1], entries[|entries| - 1];
      DistinctNamesMeans(rest);
      NamesOfTable(rest, last.name);
      assert forall i :: 0 <= i < |rest| ==> rest[i] == entries[i];
    }
  }

  lemma {:induction false} TableLookup(entries: seq<Entry>, i: nat)
    requires i < |entries| && DistinctNames(entries)
    ensures entries[i].name in TableOf(entries) && TableOf(entries)[entries[i].name].value == entries[i].value
  {
    var rest, last := entries[..|entries| - 1], entries[|entries| - 1];
    if i < |rest| { TableLookup(rest, i); }
  }

  lemma {:induction false} AssignmentsOfPrinted(entries: seq<Entry>, print_: Entry -> string, parse: string -> Option<Entry>)
    requires forall i :: 0 <= i < |entries| ==> parse(print_(entries[i])) == Some(entries[i])
    ensures Assignments(PrintedLines(entries, print_), parse) == if DistinctNames(entries) then Some(TableOf(entries)) else None
  {
    if entries != [] {
      var rest, last := entries[..|entries| - 1], entries[|entries| - 1];
      AssignmentsOfPrinted(rest, print_, parse);
      assert PrintedLines(entries, print_)[..|entries| - 1] == PrintedLines(rest, print_);
      assert PrintedLines(entries, print_)[|entries| - 1] == print_(last);
    }
  }

  /**
   * The round trip: printing legal entries and parsing gives their table back exactly when there is
   * at least one entry and no name occurs twice. The empty list prints an empty file, which the
   * parser refuses.
   */
  lemma RoundTrip(entries: seq<Entry>)
    requires AllLegal(entries)
    ensures ParsedText(Print(entries, PrintLine)) == Some(TableOf(entries)) <==> entries != [] && DistinctNames(entries)
    ensures ParsedText(Print([], PrintLine)).None?
  {
    forall i | 0 <= i < |entries|
      ensures OneLine(PrintLine(entries[i])) && ParseLine(PrintLine(entries[i])) == Some(entries[i])
    {
      assert LegalEntry(entries[i]);
      PrintLineIsOneLine(entries[i]);
      ParsePrintedLine(entries[i]);
    }
    LinesOfPrint(entries, PrintLine);
    AssignmentsOfPrinted(entries, PrintLine, ParseLine);
  }

  /** Conversely every accepted file has exactly the printed lines of some entries without a repeated name. */
  lemma {:induction false} AcceptedIsPrinted(lines: seq<string>, parse: string -> Option<Entry>, print_: Entry -> string)
    returns (entries: seq<Entry>)
    requires Assignments(lines, parse).Some?
    requires forall line :: parse(line).Some? ==> line == print_(parse(line).value)
    ensures lines == PrintedLines(entries, print_) && DistinctNames(entries)
    ensures Assignments(lines, parse) == Some(TableOf(entries))
  {
    if lines == [] {
      entries := [];
    } else {
      var last := lines[|lines| - 1];
      var rest := AcceptedIsPrinted(lines[..|lines| - 1], parse, print_);
      entries := rest + [parse(last).value];
      assert entries[..|entries| - 1] == rest;
      assert lines == lines[..|lines| - 1] + [last];
    }
  }

  /** What the parser accepts is what the printer writes, up to line endings. */
  lemma AcceptedTextIsPrinted(text: string) returns (entries: seq<Entry>)
    requires ParsedText(text).Some?
    ensures entries != [] && DistinctNames(entries)
    ensures Lines(text) == PrintedLines(entries, PrintLine) && ParsedText(text) == Some(TableOf(entries))
  {
    forall line | ParseLine(line).Some? ensures line == PrintLine(ParseLine(line).value) { ParsedLineIsPrinted(line); }
    entries := AcceptedIsPrinted(Lines(text), ParseLine, PrintLine);
  }

  // ----- lists -----

  /** `split(';')`. */
  function Split(s: string): (r: seq<string>)
    ensures r != []
    decreases |s|
  {
    var i := Find(s, ";");
    if i == |s| then [s] else [s[..i]] + Split(s[i + 1..])
  }

  function Join(members: seq<string>): string {
    if members == [] then "" else if |members| == 1 then members[0] else members[0] + ";" + Join(members[1..])
  }

  predicate NoSeparator(s: string) { forall i :: 0 <= i < |s| ==> s[i] != ';' }

  lemma SplitHead(member: string, rest: string)
    requires NoSeparator(member)
    ensures Split(member + ";" + rest) == [member] + Split(rest)
  {
    var s := member + ";" + rest;
    FindAt(member, ";", rest);
    assert s[..|member|] == member && s[|member| + 1..] == rest;
  }

  /** Joining list members and splitting again gives the members. */
  lemma {:induction false} SplitJoin(members: seq<string>)
    requires members != [] && forall i :: 0 <= i < |members| ==> NoSeparator(members[i])
    ensures Split(Join(members)) == members
  {
    if |members| == 1 {
      FindNothing(members[0], ";");
    } else {
      SplitJoin(members[1..]);
      SplitHead(members[0], Join(members[1..]));
      assert members == [members[0]] + members[1..];
    }
  }
}
