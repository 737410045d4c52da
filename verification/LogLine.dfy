/** The text of a segment file: one line per record, written by the append path and read back
    by the recovery path through bufio.Scanner. */
module LogLine {
  import opened Text

  datatype Message = Message(offset: int, value: string)

  /** The longest line, newline included, that a default bufio.Scanner returns. */
  const MAX_LINE := 65536

  /** "offset|timestamp|checksum|value" and a newline. */
  function Format(offset: int, timestamp: int, value: string): string {
    Body(offset, timestamp, value) + "\n"
  }

  function Body(offset: int, timestamp: int, value: string): string {
    Itoa(offset) + "|" + (Itoa(timestamp) + "|" + (Hex(Crc32(value), 8) + "|" + value))
  }

  /** parseLogLine, without the timestamp that only feeds the side index. */
  function Parse(line: string): Option<Message> {
    var parts := SplitN(line, "|", 4);
    if |parts| != 4 then None
    else if Atoi(parts[0]).None? || Atoi(parts[1]).None? then None
    else if !EqualFold(Hex(Crc32(parts[3]), 8), parts[2]) then None
    else Some(Message(Atoi(parts[0]).value, parts[3]))
  }

  function DropCarriageReturn(line: string): string {
    if line != "" && line[|line| - 1] == '\r' then line[..|line| - 1] else line
  }

  /** bufio.Scanner with ScanLines: a line that does not fit the buffer ends the scan, silently
      losing everything after it. */
  function Scan(content: string): seq<string>
    decreases |content|
  {
    if content == "" then []
    else
      var i := Index(content, "\n");
      var end := if i < 0 then |content| else i;
      if end + 1 > MAX_LINE then []
      else [DropCarriageReturn(content[..end])] + (if i < 0 then [] else Scan(content[i + 1..]))
  }

  /** The record of one scanned line; a line that does not parse is skipped. */
  function ParsedLine(line: string): seq<Message> {
    match Parse(line) case None => [] case Some(m) => [m]
  }

  /** loadSegment's view of one file. */
  function Load(content: string): seq<Message> {
    FlatMap(ParsedLine, Scan(content))
  }

  /** The records that survive a write followed by a load: a condition on the arguments of the
      append alone. */
  ghost predicate Readable(offset: int, timestamp: int, value: string) {
    && '\n' !in value
    && (value != "" ==> value[|value| - 1] != '\r')
    && |Format(offset, timestamp, value)| <= MAX_LINE
  }

  /** A file whose every line ends in a newline and fits the scanner's buffer. */
  ghost predicate Intact(content: string)
    decreases |content|
  {
    content == "" ||
    (var i := Index(content, "\n");
     0 <= i < MAX_LINE && Intact(content[i + 1..]))
  }

  lemma EqualFoldReflexive(s: string)
    ensures EqualFold(s, s)
  {
  }

  lemma SplitFields(o: string, t: string, h: string, value: string)
    requires '|' !in o && '|' !in t && '|' !in h
    ensures SplitN(o + "|" + (t + "|" + (h + "|" + value)), "|", 4) == [o, t, h, value]
  {
    SplitNHead(o, '|', t + "|" + (h + "|" + value), 4);
    SplitNHead(t, '|', h + "|" + value, 3);
    SplitNHead(h, '|', value, 2);
  }

  /** The parser undoes the printer for every value, '|' included. */
  lemma ParseBody(offset: int, timestamp: int, value: string)
    ensures Parse(Body(offset, timestamp, value)) == Some(Message(offset, value))
  {
    var o, t, h := Itoa(offset), Itoa(timestamp), Hex(Crc32(value), 8);
    SplitFields(o, t, h, value);
    AtoiItoa(offset);
    AtoiItoa(timestamp);
    EqualFoldReflexive(h);
  }

  lemma FirstLine(line: string, rest: string)
    requires '\n' !in line && |line| < MAX_LINE
    ensures Scan(line + "\n" + rest) == [DropCarriageReturn(line)] + Scan(rest)
    ensures Intact(line + "\n" + rest) == Intact(rest)
  {
    IndexOfSeparator(line, '\n', rest);
    var s := line + "\n" + rest;
    assert s[..|line|] == line && s[|line| + 1..] == rest;
  }

  /** A line too long for the scanner ends the scan. */
  lemma LongLineStops(line: string, rest: string)
    requires '\n' !in line && |line| >= MAX_LINE
    ensures Scan(line + "\n" + rest) == []
  {
    IndexOfSeparator(line, '\n', rest);
  }

  lemma IntactSplit(content: string) returns (line: string, rest: string)
    requires Intact(content) && content != ""
    ensures content == line + "\n" + rest && '\n' !in line && |line| < MAX_LINE && Intact(rest)
  {
    IndexOfChar(content, '\n');
    var i := Index(content, "\n");
    line, rest := content[..i], content[i + 1..];
  }

  /** Appending text to an intact file appends to the scanned lines. */
  lemma {:induction false} ScanConcat(a: string, b: string)
    requires Intact(a)
    ensures Scan(a + b) == Scan(a) + Scan(b)
    decreases |a|
  {
    if a == "" {
      assert a + b == b;
    } else {
      var line, rest := IntactSplit(a);
      var head := [DropCarriageReturn(line)];
      FirstLine(line, rest + b);
      calc {
        Scan(a + b);
        { ConcatAssociative(line + "\n", rest, b); }
        head + Scan(rest + b);
        { ScanConcat(rest, b); }
        head + (Scan(rest) + Scan(b));
        head + Scan(rest) + Scan(b);
        { FirstLine(line, rest); }
        Scan(a) + Scan(b);
      }
    }
  }

  lemma {:induction false} IntactConcat(a: string, b: string)
    requires Intact(a) && Intact(b)
    ensures Intact(a + b)
    decreases |a|
  {
    if a == "" {
      assert a + b == b;
    } else {
      var line, rest := IntactSplit(a);
      FirstLine(line, rest + b);
      ConcatAssociative(line + "\n", rest, b);
      IntactConcat(rest, b);
    }
  }

  lemma LoadConcat(a: string, b: string)
    requires Intact(a)
    ensures Load(a + b) == Load(a) + Load(b)
  {
    ScanConcat(a, b);
    FlatMapConcat(ParsedLine, Scan(a), Scan(b));
  }

  lemma BodyLacksNewline(offset: int, timestamp: int, value: string)
    requires '\n' !in value
    ensures '\n' !in Body(offset, timestamp, value)
  {
    ItoaLacks(offset, '\n');
    ItoaLacks(timestamp, '\n');
  }

  /** What loading returns for a file of one line. */
  lemma LoadOneLine(body: string)
    requires '\n' !in body
    ensures Load(body + "\n") == if |body| < MAX_LINE then ParsedLine(DropCarriageReturn(body)) else []
    ensures |body| < MAX_LINE ==> Intact(body + "\n")
  {
    var s := body + "\n" + "";
    assert s == body + "\n";
    if |body| < MAX_LINE {
      FirstLine(body, "");
      SingleLine(DropCarriageReturn(body));
    } else {
      IndexOfSeparator(body, '\n', "");
    }
  }

  lemma SingleLine(line: string)
    ensures FlatMap(ParsedLine, [line]) == ParsedLine(line)
  {
  }

  lemma {:induction false} ScannedLinesLackNewline(content: string)
    ensures forall line :: line in Scan(content) ==> '\n' !in line
    decreases |content|
  {
    if content == "" {
    } else {
      IndexOfChar(content, '\n');
      var i := Index(content, "\n");
      if i >= 0 {
        ScannedLinesLackNewline(content[i + 1..]);
      }
    }
  }

  /** Values read back from a file never hold a newline. */
  lemma LoadedValuesLackNewline(content: string)
    ensures forall m :: m in Load(content) ==> '\n' !in m.value
  {
    ScannedLinesLackNewline(content);
    forall line, m | line in Scan(content) && m in ParsedLine(line)
      ensures '\n' !in m.value
    {
      ParsedValueInLine(line);
    }
    FlatMapForall(ParsedLine, Scan(content), (m: Message) => '\n' !in m.value);
  }

  lemma ParsedValueInLine(line: string)
    requires '\n' !in line
    ensures Parse(line).Some? ==> '\n' !in Parse(line).value.value
  {
    SplitNSubset(line, "|", 4);
  }

  lemma {:induction false} SplitNSubset(s: string, sep: string, n: nat)
    requires sep != "" && n > 0
    ensures forall k :: 0 <= k < |SplitN(s, sep, n)| ==> forall x :: x in SplitN(s, sep, n)[k] ==> x in s
    decreases n
  {
    var i := Index(s, sep);
    if n > 1 && i >= 0 {
      SplitNSubset(s[i + |sep|..], sep, n - 1);
    }
  }

  lemma BodyEnd(offset: int, timestamp: int, value: string)
    ensures var b := Body(offset, timestamp, value);
            b != "" && b[|b| - 1] == if value == "" then '|' else value[|value| - 1]
  {
  }

  /** The scanner cuts a final carriage return, and what then parses is a shorter value. */
  lemma CutLineDiffers(o: string, t: string, h: string, value: string)
    requires '|' !in o && '|' !in t && '|' !in h
    requires value != "" && value[|value| - 1] == '\r'
    ensures forall m :: m in ParsedLine(DropCarriageReturn(o + "|" + (t + "|" + (h + "|" + value)))) ==>
            m.value != value
  {
    CutFields(o, t, h, value);
    SplitFields(o, t, h, DropCarriageReturn(value));
  }

  lemma CutFields(o: string, t: string, h: string, value: string)
    requires value != "" && value[|value| - 1] == '\r'
    ensures DropCarriageReturn(o + "|" + (t + "|" + (h + "|" + value)))
            == o + "|" + (t + "|" + (h + "|" + DropCarriageReturn(value)))
  {
    var inner := h + "|" + value;
    CutBehind(h + "|", value);
    CutBehind(t + "|", inner);
    CutBehind(o + "|", t + "|" + inner);
  }

  lemma CutBehind(front: string, s: string)
    requires s != "" && s[|s| - 1] == '\r'
    ensures DropCarriageReturn(front + s) == front + DropCarriageReturn(s)
    ensures (front + s)[|front + s| - 1] == '\r'
  {
  }

  /** A line written and loaded back gives exactly its record if and only if the record is
      readable. The three ways to lose it are a newline, a final carriage return, and a line
      longer than the scanner's buffer. */
  lemma LineRoundTrip(offset: int, timestamp: int, value: string)
    ensures Load(Format(offset, timestamp, value)) == [Message(offset, value)]
            <==> Readable(offset, timestamp, value)
    ensures Readable(offset, timestamp, value) ==> Intact(Format(offset, timestamp, value))
  {
    if '\n' in value {
      LoadedValuesLackNewline(Format(offset, timestamp, value));
      assert Message(offset, value) in [Message(offset, value)];
    } else if value != "" && value[|value| - 1] == '\r' {
      ReturnIsLost(offset, timestamp, value);
    } else {
      LineFits(offset, timestamp, value);
    }
  }

  lemma ReturnIsLost(offset: int, timestamp: int, value: string)
    requires '\n' !in value && value != "" && value[|value| - 1] == '\r'
    ensures Load(Format(offset, timestamp, value)) != [Message(offset, value)]
  {
    var m := Message(offset, value);
    BodyLacksNewline(offset, timestamp, value);
    LoadOneLine(Body(offset, timestamp, value));
    CutLineDiffers(Itoa(offset), Itoa(timestamp), Hex(Crc32(value), 8), value);
    assert m in [m];
  }

  lemma LineFits(offset: int, timestamp: int, value: string)
    requires '\n' !in value && (value != "" ==> value[|value| - 1] != '\r')
    ensures Load(Format(offset, timestamp, value)) == [Message(offset, value)]
            <==> |Format(offset, timestamp, value)| <= MAX_LINE
    ensures |Format(offset, timestamp, value)| <= MAX_LINE ==> Intact(Format(offset, timestamp, value))
  {
    BodyLacksNewline(offset, timestamp, value);
    LoadOneLine(Body(offset, timestamp, value));
    BodyEnd(offset, timestamp, value);
    ParseBody(offset, timestamp, value);
  }

  /** Appending a record to an intact file: the file then loads as before plus that record if
      and only if the record is readable. */
  lemma AppendedLineLoads(content: string, offset: int, timestamp: int, value: string)
    requires Intact(content)
    ensures Load(content + Format(offset, timestamp, value)) == Load(content) + [Message(offset, value)]
            <==> Readable(offset, timestamp, value)
    ensures Readable(offset, timestamp, value) ==> Intact(content + Format(offset, timestamp, value))
  {
    var line := Format(offset, timestamp, value);
    LoadConcat(content, line);
    LineRoundTrip(offset, timestamp, value);
    CancelPrefix(Load(content), Load(line), [Message(offset, value)]);
    if Readable(offset, timestamp, value) {
      IntactConcat(content, line);
    }
  }
}
