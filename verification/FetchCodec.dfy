/** The BROKER_FETCH reply: printed by the leader's handler, parsed by the follower's TCP
    transport. */
module FetchCodec {
  import opened Text
  import opened LogLine

  // ---- Leader side ----

  function Item(m: Message): string {
    Itoa(m.offset) + ":" + m.value
  }

  function Items(records: seq<Message>): (items: seq<string>)
    ensures |items| == |records|
  {
    if records == [] then [] else [Item(records[0])] + Items(records[1..])
  }

  /** The words of handleBrokerFetch's payload. */
  function Words(topic: string, partition: int, follower: int, hw: int, records: string): seq<string> {
    ["topic=" + topic, "partition=" + Itoa(partition), "follower=" + Itoa(follower), "hw=" + Itoa(hw),
     "records=" + records]
  }

  function Payload(topic: string, partition: int, follower: int, hw: int, records: seq<Message>): string {
    Join(Words(topic, partition, follower, hw, Join(Items(records), ",")), " ")
  }

  /** protocol.Ok. */
  function Ok(correlation: string, payload: string): string {
    if payload == "" then "V1|" + correlation + "|OK\n"
    else "V1|" + correlation + "|OK|" + payload + "\n"
  }

  // ---- Follower side ----

  /** reader.ReadString('\n') followed by TrimSpace; no newline is a read error. */
  function Receive(response: string): Option<string> {
    var i := Index(response, "\n");
    if i < 0 then None else Some(TrimSpace(response[..i + 1]))
  }

  /** parseOKPayload. */
  function ParseOkPayload(line: string): Option<string> {
    var parts := Split(line, "|");
    if |parts| < 3 || parts[2] != "OK" then None
    else if |parts| < 4 then Some("")
    else Some(Join(parts[3..], "|"))
  }

  /** extractStringField. */
  function ExtractField(payload: string, key: string): string {
    Extract(payload, key + "=")
  }

  function Extract(payload: string, token: string): string {
    var i := Index(payload, token);
    if i < 0 then "" else FieldAt(payload, i + |token|)
  }

  /** The part of a payload that follows a field's token, up to the next space. */
  function FieldAt(payload: string, i: int): string
    requires 0 <= i <= |payload|
  {
    var rest := payload[i..];
    var space := Index(rest, " ");
    if space < 0 then rest else rest[..space]
  }

  /** The loop of Fetch over the comma-separated items. */
  function DecodeItems(items: seq<string>): (r: Option<seq<Message>>) {
    if items == [] then Some([])
    else if items[0] == "" then DecodeItems(items[1..])
    else match DecodeItem(items[0])
      case None => None
      case Some(m) => Prepend([m], DecodeItems(items[1..]))
  }

  function Prepend(front: seq<Message>, r: Option<seq<Message>>): Option<seq<Message>> {
    match r case None => None case Some(ms) => Some(front + ms)
  }

  lemma PrependTwice(a: seq<Message>, b: seq<Message>, r: Option<seq<Message>>)
    ensures Prepend(a, Prepend(b, r)) == Prepend(a + b, r)
    ensures Prepend([], r) == r
    ensures Prepend(a, Some([])) == Some(a)
  {
    if r.Some? {
      assert a + (b + r.value) == a + b + r.value;
      assert [] + r.value == r.value;
    }
    assert a + [] == a;
  }

  function DecodeItem(item: string): Option<Message> {
    var parts := SplitN(item, ":", 2);
    if |parts| != 2 then None
    else match Atoi(parts[0])
      case None => None
      case Some(offset) => Some(Message(offset, parts[1]))
  }

  /** TCPTransport.Fetch's reading of a reply: the high watermark and the records. */
  function Decode(payload: string): Option<(int, seq<Message>)> {
    var raw := ExtractField(payload, "hw");
    if raw == "" || Atoi(raw).None? then None
    else DecodeRecords(Atoi(raw).value, ExtractField(payload, "records"))
  }

  function DecodeRecords(hw: int, field: string): Option<(int, seq<Message>)> {
    if field == "" then Some((hw, []))
    else match DecodeItems(Split(field, ","))
      case None => None
      case Some(records) => Some((hw, records))
  }

  /** What a follower reads when the leader answers with these records. */
  function Transfer(sequence: nat, topic: string, partition: int, follower: int, hw: int, records: seq<Message>)
    : Option<(int, seq<Message>)>
  {
    match Receive(Ok(Digits(sequence), Payload(topic, partition, follower, hw, records)))
    case None => None
    case Some(line) =>
      match ParseOkPayload(line)
      case None => None
      case Some(payload) => Decode(payload)
  }

  /** The accumulation loop of Fetch. */
  method FetchRecords(items: seq<string>) returns (r: Option<seq<Message>>)
    ensures r == DecodeItems(items)
  {
    var records: seq<Message> := [];
    assert items[0..] == items;
    PrependTwice([], [], DecodeItems(items));
    for i := 0 to |items|
      invariant DecodeItems(items) == Prepend(records, DecodeItems(items[i..]))
    {
      assert items[i..][0] == items[i] && items[i..][1..] == items[i + 1..];
      if items[i] == "" {
        continue;
      }
      match DecodeItem(items[i]) {
        case None => return None;
        case Some(m) =>
          PrependTwice(records, [m], DecodeItems(items[i + 1..]));
          records := records + [m];
      }
    }
    assert items[|items|..] == [];
    PrependTwice(records, [], Some([]));
    return Some(records);
  }

  // ---- Conditions on the arguments ----

  /** A topic the field extractor cannot confuse with a field. PRODUCE and the admin commands
      split their arguments on white space, so no topic holds any. */
  ghost predicate SafeTopic(topic: string) {
    NoSpace(topic) && !Contains(topic, "hw=") && !Contains(topic, "records=")
  }

  predicate HasComma(value: string) {
    ',' in value
  }

  predicate CommaFree(m: Message) {
    !HasComma(m.value)
  }

  ghost predicate NoSpaces(records: seq<Message>) {
    forall i :: 0 <= i < |records| ==> NoSpace(records[i].value)
  }

  ghost predicate AllCommaFree(records: seq<Message>) {
    forall i :: 0 <= i < |records| ==> CommaFree(records[i])
  }

  // ---- The records field ----

  function Pieces(item: string): seq<string> {
    Split(item, ",")
  }

  /** Splitting the joined items splits each item separately. */
  lemma {:induction false} SplitJoin(items: seq<string>)
    requires items != []
    ensures Split(Join(items, ","), ",") == FlatMap(Pieces, items)
  {
    if |items| == 1 {
      assert FlatMap(Pieces, items[1..]) == [];
    } else {
      SplitJoin(items[1..]);
      SplitConcat(items[0], ',', Join(items[1..], ","));
    }
  }

  /** What arrives of a list of records: the items are cut at every comma, then decoded. */
  function Arrival(records: seq<Message>): Option<seq<Message>> {
    DecodeItems(FlatMap(Pieces, Items(records)))
  }

  lemma {:induction false} DecodeConcat(a: seq<string>, b: seq<string>)
    ensures DecodeItems(a + b) ==
            match DecodeItems(a)
            case None => None
            case Some(x) => Prepend(x, DecodeItems(b))
  {
    if a == [] {
      assert a + b == b;
      PrependTwice([], [], DecodeItems(b));
    } else {
      DecodeConcat(a[1..], b);
      assert (a + b)[0] == a[0] && (a + b)[1..] == a[1..] + b;
      if a[0] != "" && DecodeItem(a[0]).Some? && DecodeItems(a[1..]).Some? {
        PrependTwice([DecodeItem(a[0]).value], DecodeItems(a[1..]).value, DecodeItems(b));
      }
    }
  }

  lemma DecodePrinted(offset: int, value: string)
    ensures DecodeItem(Itoa(offset) + ":" + value) == Some(Message(offset, value))
  {
    ItoaLacks(offset, ':');
    SplitNHead(Itoa(offset), ':', value, 2);
    AtoiItoa(offset);
  }

  /** A value up to its first comma. */
  function Head(value: string): string {
    var i := Index(value, ",");
    if i < 0 then value else value[..i]
  }

  /** The first piece of an item keeps its offset and its value up to the first comma. */
  lemma FirstPiece(m: Message)
    ensures |Pieces(Item(m))| >= 1 && Pieces(Item(m))[0] != ""
    ensures DecodeItem(Pieces(Item(m))[0]) == Some(Message(m.offset, Head(m.value)))
    ensures CommaFree(m) ==> Pieces(Item(m)) == [Item(m)]
  {
    ItoaLacks(m.offset, ',');
    IndexOfChar(m.value, ',');
    if CommaFree(m) {
      SplitAtom(Item(m), ',');
      DecodePrinted(m.offset, m.value);
    } else {
      var i := Index(m.value, ",");
      var front, tail := Itoa(m.offset) + ":" + m.value[..i], m.value[i + 1..];
      assert Item(m) == front + "," + tail;
      SplitHead(front, ',', tail);
      DecodePrinted(m.offset, m.value[..i]);
    }
  }

  /** What arrives of one record. */
  function Cut(m: Message): Option<seq<Message>> {
    DecodeItems(Pieces(Item(m)))
  }

  /** A record that arrives at all arrives under its own offset with its value's head; anything that
      follows was forged from the rest of the value. */
  lemma CutHead(m: Message)
    ensures Cut(m).Some? ==> |Cut(m).value| >= 1 && Cut(m).value[0] == Message(m.offset, Head(m.value))
    ensures CommaFree(m) ==> Cut(m) == Some([m])
  {
    FirstPiece(m);
    IndexOfChar(m.value, ',');
    if CommaFree(m) {
      DecodeOne(Item(m), m);
    }
  }

  lemma ArrivalStep(records: seq<Message>)
    requires records != []
    ensures Arrival(records) ==
            match Cut(records[0])
            case None => None
            case Some(x) => Prepend(x, Arrival(records[1..]))
  {
    DecodeConcat(Pieces(Item(records[0])), FlatMap(Pieces, Items(records[1..])));
    assert Items(records)[1..] == Items(records[1..]);
  }

  /** A batch that arrives at all begins with its first record's offset and head. */
  lemma ArrivalHead(records: seq<Message>)
    requires records != [] && Arrival(records).Some?
    ensures Arrival(records).value != []
    ensures Arrival(records).value[0] == Message(records[0].offset, Head(records[0].value))
  {
    ArrivalStep(records);
    CutHead(records[0]);
  }

  predicate Agree(out: seq<Message>, records: seq<Message>, j: nat) {
    j <= |out| && j <= |records| && forall i :: 0 <= i < j ==> out[i] == records[i]
  }

  /** Up to the first value with a comma the records arrive unchanged, and that one arrives under its
      own offset with its value's head. */
  lemma {:induction false} ArrivalPrefix(records: seq<Message>, out: seq<Message>, j: nat)
    requires j < |records| && Arrival(records) == Some(out) && forall i :: 0 <= i < j ==> CommaFree(records[i])
    ensures Agree(out, records, j) && j < |out| && out[j] == Message(records[j].offset, Head(records[j].value))
    decreases j
  {
    if j == 0 {
      ArrivalHead(records);
    } else {
      var rest := records[1..];
      var tail := FirstArrives(records, out);
      ArrivalPrefix(rest, tail, j - 1);
      AgreeCons(records[0], tail, rest, out, records, j - 1);
    }
  }

  lemma FirstArrives(records: seq<Message>, out: seq<Message>) returns (tail: seq<Message>)
    requires records != [] && CommaFree(records[0]) && Arrival(records) == Some(out)
    ensures Arrival(records[1..]) == Some(tail) && out == [records[0]] + tail
  {
    ArrivalStep(records);
    CutHead(records[0]);
    tail := Arrival(records[1..]).value;
  }

  lemma AgreeCons(m: Message, tail: seq<Message>, rest: seq<Message>, out: seq<Message>, records: seq<Message>, j: nat)
    requires Agree(tail, rest, j) && out == [m] + tail && |records| == |rest| + 1 && records[0] == m
    requires forall i :: 0 <= i < |rest| ==> rest[i] == records[i + 1]
    ensures Agree(out, records, j + 1) && (j < |tail| ==> out[j + 1] == tail[j])
  {
    forall i | 0 <= i < j + 1
      ensures out[i] == records[i]
    {
      if i > 0 {
        assert out[i] == tail[i - 1] == rest[i - 1];
      }
    }
  }

  lemma DecodeOne(item: string, m: Message)
    requires item != "" && DecodeItem(item) == Some(m)
    ensures DecodeItems([item]) == Some([m])
  {
    assert [item][1..] == [];
    PrependTwice([m], [], Some([]));
  }

  lemma {:induction false} CommaFreeArrive(records: seq<Message>)
    requires AllCommaFree(records)
    ensures Arrival(records) == Some(records)
  {
    if records == [] {
    } else {
      ArrivalStep(records);
      CutHead(records[0]);
      CommaFreeArrive(records[1..]);
      assert records == [records[0]] + records[1..];
    }
  }

  lemma {:induction false} DecodedFromItems(items: seq<string>)
    requires forall k :: 0 <= k < |items| ==> ',' !in items[k]
    ensures DecodeItems(items).Some? ==> AllCommaFree(DecodeItems(items).value)
  {
    if items == [] {
    } else {
      DecodedFromItems(items[1..]);
      SplitNSubset(items[0], ":", 2);
    }
  }

  /** Nothing that arrives holds a comma. */
  lemma ArrivalCommaFree(records: seq<Message>)
    ensures Arrival(records).Some? ==> AllCommaFree(Arrival(records).value)
  {
    var items := Items(records);
    forall x, y | x in items && y in Pieces(x)
      ensures ',' !in y
    {
      SplitPiecesLackSeparator(x, ',');
    }
    FlatMapForall(Pieces, items, (y: string) => ',' !in y);
    var pieces := FlatMap(Pieces, items);
    assert forall k :: 0 <= k < |pieces| ==> pieces[k] in pieces;
    DecodedFromItems(pieces);
  }

  /** Nothing a follower reads holds a comma, whatever was sent. */
  lemma TransferCommaFree(sequence: nat, topic: string, partition: int, follower: int, hw: int, records: seq<Message>)
    ensures var read := Transfer(sequence, topic, partition, follower, hw, records);
            read.Some? ==> AllCommaFree(read.value.1)
  {
    match Receive(Ok(Digits(sequence), Payload(topic, partition, follower, hw, records)))
    case None =>
    case Some(line) =>
      match ParseOkPayload(line)
      case None =>
      case Some(payload) => DecodeCommaFree(payload);
  }

  lemma DecodeCommaFree(payload: string)
    ensures var read := Decode(payload); read.Some? ==> AllCommaFree(read.value.1)
  {
    var field := ExtractField(payload, "records");
    SplitPiecesLackSeparator(field, ',');
    DecodedFromItems(Split(field, ","));
  }

  // ---- The envelope ----

  lemma TrimNewline(x: string)
    requires x != "" && !IsSpace(x[0]) && !IsSpace(x[|x| - 1])
    ensures TrimSpace(x + "\n") == x
  {
    assert (x + "\n")[..|x|] == x;
  }

  lemma ReceiveLine(line: string)
    requires line != "" && !IsSpace(line[0]) && !IsSpace(line[|line| - 1]) && '\n' !in line
    ensures Receive(line + "\n") == Some(line)
  {
    IndexOfSeparator(line, '\n', "");
    assert line + "\n" + "" == line + "\n";
    assert (line + "\n")[..|line| + 1] == line + "\n";
    TrimNewline(line);
  }

  lemma SplitEnvelope(version: string, correlation: string, status: string, payload: string)
    requires '|' !in version && '|' !in correlation && '|' !in status
    ensures Split(version + "|" + (correlation + "|" + (status + "|" + payload)), "|")
            == [version, correlation, status] + Split(payload, "|")
  {
    var inner := status + "|" + payload;
    SplitHead(status, '|', payload);
    SplitHead(correlation, '|', inner);
    SplitHead(version, '|', correlation + "|" + inner);
    ThreeFirst(version, correlation, status, Split(payload, "|"));
  }

  lemma ThreeFirst<T>(a: T, b: T, c: T, rest: seq<T>)
    ensures [a] + ([b] + ([c] + rest)) == [a, b, c] + rest
  {
  }

  lemma EnvelopeRoundTrip(correlation: string, payload: string)
    requires '|' !in correlation
    ensures ParseOkPayload("V1" + "|" + (correlation + "|" + ("OK" + "|" + payload))) == Some(payload)
  {
    SplitEnvelope("V1", correlation, "OK", payload);
    var parts := ["V1", correlation, "OK"] + Split(payload, "|");
    assert parts[3..] == Split(payload, "|");
    JoinSplit(payload, "|");
  }

  // ---- Fields ----

  lemma LacksChar(w: string, token: string, k: nat)
    requires k < |token| && token[k] !in w
    ensures !Contains(w, token)
  {
    forall j | 0 <= j && j + |token| <= |w|
      ensures !OccursAt(w, token, j)
    {
      assert w[j..j + |token|][k] == w[j + k];
      assert w[j + k] in w;
    }
  }

  /** A field that prints a number lacks a token with a character that is neither in its name nor
      in a number. */
  lemma NumberWordLacks(name: string, n: int, token: string, k: nat)
    requires k < |token| && token[k] !in name && !IsDigit(token[k]) && token[k] != '-'
    ensures !Contains(name + Itoa(n), token)
  {
    ItoaLacks(n, token[k]);
    LacksChar(name + Itoa(n), token, k);
  }

  /** No token starts inside a name none of whose characters is the token's first. */
  lemma SkipName(name: string, word: string, token: string)
    requires token != "" && token[0] !in name && !Contains(word, token)
    ensures !Contains(name + word, token)
  {
    var s, n := name + word, |token|;
    forall j | 0 <= j && j + n <= |s|
      ensures !OccursAt(s, token, j)
    {
      if j < |name| {
        assert s[j..j + n][0] == name[j];
      } else {
        assert s[j..j + n] == word[j - |name|..j - |name| + n];
        assert !OccursAt(word, token, j - |name|);
      }
    }
  }

  lemma ShiftedOccurrence(front: string, rest: string, token: string, j: int)
    requires j >= |front|
    ensures OccursAt(front + rest, token, j) <==> OccursAt(rest, token, j - |front|)
  {
    if j + |token| <= |front| + |rest| {
      assert (front + rest)[j..j + |token|] == rest[j - |front|..j - |front| + |token|];
    }
  }

  lemma SpaceBreaksToken(s: string, token: string, j: int, d: int)
    requires 0 <= j <= d < j + |token| && d < |s| && s[d] == ' ' && ' ' !in token
    ensures !OccursAt(s, token, j)
  {
    if j + |token| <= |s| {
      assert s[j..j + |token|][d - j] == s[d];
      assert token[d - j] in token;
    }
  }

  lemma NoEarlierOccurrence(w: string, rest: string, token: string, j: int)
    requires ' ' !in token && !Contains(w, token) && 0 <= j < |w| + 1 + Index(rest, token)
    ensures !OccursAt(w + " " + rest, token, j)
  {
    var front := w + " ";
    var s := front + rest;
    if j >= |front| {
      ShiftedOccurrence(front, rest, token, j);
    } else if j + |token| <= |w| {
      assert s[j..j + |token|] == w[j..j + |token|];
      assert !OccursAt(w, token, j);
    } else if token != "" {
      SpaceBreaksToken(s, token, j, |w|);
    }
  }

  /** An occurrence of a token without spaces lies inside one word. */
  lemma SkipWord(w: string, rest: string, token: string)
    requires ' ' !in token && !Contains(w, token) && Contains(rest, token)
    ensures Index(w + " " + rest, token) == |w| + 1 + Index(rest, token)
  {
    var at := |w| + 1 + Index(rest, token);
    ShiftedOccurrence(w + " ", rest, token, at);
    forall j | 0 <= j < at
      ensures !OccursAt(w + " " + rest, token, j)
    {
      NoEarlierOccurrence(w, rest, token, j);
    }
    IndexIs(w + " " + rest, token, at);
  }

  lemma FieldAtShift(front: string, rest: string, s: string, i: int, j: int)
    requires 0 <= i <= |rest| && s == front + rest && j == |front| + i
    ensures FieldAt(s, j) == FieldAt(rest, i)
  {
    assert s[j..] == rest[i..];
  }

  lemma ExtractPresent(s: string, token: string, i: int)
    requires Contains(s, token) && i == Index(s, token) + |token|
    ensures Extract(s, token) == FieldAt(s, i)
  {
    var start := Index(s, token) + |token|;
    assert Extract(s, token) == FieldAt(s, start);
    assert start == i;
  }

  /** The extractor passes over a word that lacks the field's token. */
  lemma ExtractSkips(w: string, rest: string, token: string)
    requires ' ' !in token && !Contains(w, token) && Contains(rest, token)
    ensures Extract(w + " " + rest, token) == Extract(rest, token)
    ensures Contains(w + " " + rest, token)
  {
    SkipWord(w, rest, token);
    var s, i := w + " " + rest, Index(rest, token) + |token|;
    ExtractShifted(w + " ", rest, s, token, i, |w| + 1 + i);
  }

  lemma ExtractShifted(front: string, rest: string, s: string, token: string, i: int, j: int)
    requires s == front + rest && Contains(rest, token) && Contains(s, token)
    requires i == Index(rest, token) + |token| && j == Index(s, token) + |token| && j == |front| + i
    ensures Extract(s, token) == Extract(rest, token)
  {
    FieldAtShift(front, rest, s, i, j);
    ExtractPresent(rest, token, i);
    ExtractPresent(s, token, j);
  }

  lemma ExtractHere(token: string, value: string, after: string)
    requires ' ' !in value && (after == "" || after[0] == ' ')
    ensures Extract(token + (value + after), token) == value
    ensures Contains(token + (value + after), token)
  {
    var s := token + (value + after);
    assert OccursAt(s, token, 0);
    assert s[|token|..] == value + after;
    IndexOfChar(value + after, ' ');
    if after == "" {
      assert value + after == value;
    } else {
      assert value + after == value + " " + after[1..];
      IndexOfSeparator(value, ' ', after[1..]);
      assert (value + after)[..|value|] == value;
    }
  }

  /** The k-th word's field is found when no earlier word holds its token. */
  lemma {:induction false} ExtractWord(words: seq<string>, k: nat, token: string, value: string)
    requires k < |words| && words[k] == token + value && ' ' !in token && ' ' !in value
    requires forall i :: 0 <= i < k ==> !Contains(words[i], token)
    ensures Extract(Join(words, " "), token) == value
    ensures Contains(Join(words, " "), token)
    decreases k
  {
    if k == 0 {
      var after := if |words| == 1 then "" else " " + Join(words[1..], " ");
      ExtractHere(token, value, after);
      JoinFirst(words, token, value);
    } else {
      ExtractWord(words[1..], k - 1, token, value);
      ExtractSkips(words[0], Join(words[1..], " "), token);
    }
  }

  lemma JoinFirst(words: seq<string>, token: string, value: string)
    requires words != [] && words[0] == token + value
    ensures Join(words, " ") == token + (value + if |words| == 1 then "" else " " + Join(words[1..], " "))
  {
    if |words| == 1 {
      assert value + "" == value;
    } else {
      var rest := Join(words[1..], " ");
      ConcatAssociative(token + value, " ", rest);
      ConcatAssociative(token, value, " " + rest);
    }
  }

  lemma HighWatermarkField(topic: string, partition: int, follower: int, hw: int, records: string)
    requires !Contains(topic, "hw=")
    ensures ExtractField(Join(Words(topic, partition, follower, hw, records), " "), "hw") == Itoa(hw)
  {
    var token := "hw" + "=";
    assert token == "hw=";
    SkipName("topic=", topic, token);
    NumberWordLacks("partition=", partition, token, 0);
    NumberWordLacks("follower=", follower, token, 0);
    ItoaLacks(hw, ' ');
    ExtractWord(Words(topic, partition, follower, hw, records), 3, token, Itoa(hw));
  }

  lemma RecordsField(topic: string, partition: int, follower: int, hw: int, records: string)
    requires !Contains(topic, "records=") && ' ' !in records
    ensures ExtractField(Join(Words(topic, partition, follower, hw, records), " "), "records") == records
  {
    var token := "records" + "=";
    assert token == "records=";
    SkipName("topic=", topic, token);
    NumberWordsLack(partition, follower, hw, token);
    ExtractWord(Words(topic, partition, follower, hw, records), 4, token, records);
  }

  lemma NumberWordsLack(partition: int, follower: int, hw: int, token: string)
    requires token == "records="
    ensures !Contains("partition=" + Itoa(partition), token) && !Contains("follower=" + Itoa(follower), token)
    ensures !Contains("hw=" + Itoa(hw), token)
  {
    NumberWordLacks("partition=", partition, token, 5);
    NumberWordLacks("follower=", follower, token, 5);
    NumberWordLacks("hw=", hw, token, 5);
  }

  // ---- Tokens inside the topic ----

  lemma IndexInFirst(w: string, after: string, s: string, token: string)
    requires s == w + after && Contains(w, token)
    ensures Index(s, token) == Index(w, token)
  {
    var i := Index(w, token);
    assert s[i..i + |token|] == w[i..i + |token|];
    forall j | 0 <= j < i
      ensures !OccursAt(s, token, j)
    {
      assert !OccursAt(w, token, j);
      assert s[j..j + |token|] == w[j..j + |token|];
    }
    IndexIs(s, token, i);
  }

  /** A token inside the first word is taken for the field, whatever comes after that word. */
  lemma ExtractFromFirst(w: string, rest: string, token: string)
    requires ' ' !in w && Contains(w, token)
    ensures Extract(w + " " + rest, token) == Extract(w, token)
  {
    var s, k := w + " " + rest, Index(w, token) + |token|;
    ConcatAssociative(w, " ", rest);
    IndexInFirst(w, " " + rest, s, token);
    FieldEnds(w, rest, s, k);
    ExtractPresent(w, token, k);
    ExtractPresent(s, token, k);
  }

  lemma FieldEnds(w: string, rest: string, s: string, k: int)
    requires ' ' !in w && s == w + " " + rest && 0 <= k <= |w|
    ensures FieldAt(s, k) == FieldAt(w, k) == w[k..]
  {
    var tail := w[k..];
    assert ' ' !in tail;
    assert s[k..] == tail + " " + rest;
    IndexOfSeparator(tail, ' ', rest);
    assert (tail + " " + rest)[..|tail|] == tail;
    IndexOfChar(tail, ' ');
  }

  /** What the extractor makes of a topic that holds the token. */
  function Misread(topic: string, token: string): string {
    Extract("topic=" + topic, token)
  }

  lemma PayloadStart(topic: string, partition: int, follower: int, hw: int, field: string) returns (rest: string)
    ensures Join(Words(topic, partition, follower, hw, field), " ") == "topic=" + topic + " " + rest
  {
    var words := Words(topic, partition, follower, hw, field);
    rest := Join(words[1..], " ");
  }

  lemma ContainsAfter(front: string, s: string, token: string)
    requires Contains(s, token)
    ensures Contains(front + s, token)
  {
    var w, i := front + s, Index(s, token);
    var k := |front| + i;
    assert w[k..k + |token|] == s[i..i + |token|];
    assert OccursAt(w, token, k);
  }

  lemma TopicMisread(topic: string, partition: int, follower: int, hw: int, field: string, token: string)
    requires NoSpace(topic) && Contains(topic, token)
    ensures Extract(Join(Words(topic, partition, follower, hw, field), " "), token) == Misread(topic, token)
  {
    var rest := PayloadStart(topic, partition, follower, hw, field);
    var w := "topic=" + topic;
    ContainsAfter("topic=", topic, token);
    ExtractFromFirst(w, rest, token);
  }

  // ---- The whole reply ----

  lemma ItemNoSpace(m: Message)
    requires NoSpace(m.value)
    ensures NoSpace(Item(m)) && Item(m) != ""
  {
  }

  lemma JoinNoSpace(items: seq<string>, item: string, rest: seq<string>)
    requires items != [] && items[0] == item && items[1..] == rest && NoSpace(item) && NoSpace(Join(rest, ","))
    ensures NoSpace(Join(items, ",")) && (item != "" ==> Join(items, ",") != "")
  {
  }

  lemma {:induction false} JoinedItems(records: seq<Message>)
    requires NoSpaces(records)
    ensures NoSpace(Join(Items(records), ","))
    ensures records != [] ==> Join(Items(records), ",") != ""
  {
    if records == [] {
    } else {
      var items, item, rest := Items(records), Item(records[0]), Items(records[1..]);
      JoinedItems(records[1..]);
      assert items[0] == item && items[1..] == rest;
      ItemNoSpace(records[0]);
      JoinNoSpace(items, item, rest);
    }
  }

  lemma {:induction false} JoinedWords(words: seq<string>)
    requires words != [] && forall i :: 0 <= i < |words| ==> words[i] != "" && NoSpace(words[i])
    ensures var s := Join(words, " "); s != "" && '\n' !in s && !IsSpace(s[|s| - 1])
  {
    if |words| == 1 {
    } else {
      JoinedWords(words[1..]);
    }
  }

  lemma ItoaNoSpace(n: int)
    ensures NoSpace(Itoa(n))
  {
  }

  lemma PayloadShape(topic: string, partition: int, follower: int, hw: int, records: string)
    requires NoSpace(topic) && NoSpace(records)
    ensures var s := Join(Words(topic, partition, follower, hw, records), " ");
            s != "" && '\n' !in s && !IsSpace(s[|s| - 1])
  {
    ItoaNoSpace(partition);
    ItoaNoSpace(follower);
    ItoaNoSpace(hw);
    JoinedWords(Words(topic, partition, follower, hw, records));
  }

  lemma OkLine(correlation: string, payload: string)
    requires payload != "" && '\n' !in payload && !IsSpace(payload[|payload| - 1])
    requires AllDigits(correlation)
    ensures Receive(Ok(correlation, payload)) == Some("V1" + "|" + (correlation + "|" + ("OK" + "|" + payload)))
  {
    var line := "V1" + "|" + (correlation + "|" + ("OK" + "|" + payload));
    assert Ok(correlation, payload) == line + "\n";
    ReceiveLine(line);
  }

  /** The envelope: what the follower parses is the payload the leader printed. */
  lemma EnvelopeTransfer(sequence: nat, topic: string, partition: int, follower: int, hw: int, records: seq<Message>)
    requires NoSpace(topic) && NoSpaces(records)
    ensures Transfer(sequence, topic, partition, follower, hw, records)
            == Decode(Payload(topic, partition, follower, hw, records))
  {
    var payload := Payload(topic, partition, follower, hw, records);
    JoinedItems(records);
    PayloadShape(topic, partition, follower, hw, Join(Items(records), ","));
    OkLine(Digits(sequence), payload);
    EnvelopeRoundTrip(Digits(sequence), payload);
  }

  /** The watermark a follower reads: a topic that holds the token is taken for the field. */
  function ReadWatermark(topic: string, hw: int): Option<int> {
    if Contains(topic, "hw=") then Atoi(Misread(topic, "hw=")) else Some(hw)
  }

  /** The records field it reads, likewise. */
  function ReadField(topic: string, field: string): string {
    if Contains(topic, "records=") then Misread(topic, "records=") else field
  }

  lemma WatermarkRead(topic: string, partition: int, follower: int, hw: int, field: string)
    requires NoSpace(topic)
    ensures Atoi(ExtractField(Join(Words(topic, partition, follower, hw, field), " "), "hw"))
            == ReadWatermark(topic, hw)
  {
    if Contains(topic, "hw=") {
      TopicMisread(topic, partition, follower, hw, field, "hw=");
      assert "hw" + "=" == "hw=";
    } else {
      HighWatermarkField(topic, partition, follower, hw, field);
      AtoiItoa(hw);
    }
  }

  lemma FieldRead(topic: string, partition: int, follower: int, hw: int, field: string)
    requires NoSpace(topic) && ' ' !in field
    ensures ExtractField(Join(Words(topic, partition, follower, hw, field), " "), "records") == ReadField(topic, field)
  {
    if Contains(topic, "records=") {
      TopicMisread(topic, partition, follower, hw, field, "records=");
      assert "records" + "=" == "records=";
    } else {
      RecordsField(topic, partition, follower, hw, field);
    }
  }

  /** The fields: the watermark and the joined items. */
  lemma FieldTransfer(topic: string, partition: int, follower: int, hw: int, field: string)
    requires NoSpace(topic) && ' ' !in field
    ensures Decode(Join(Words(topic, partition, follower, hw, field), " "))
            == match ReadWatermark(topic, hw)
               case None => None
               case Some(mark) => DecodeRecords(mark, ReadField(topic, field))
  {
    WatermarkRead(topic, partition, follower, hw, field);
    FieldRead(topic, partition, follower, hw, field);
    EmptyIsNoNumber();
  }

  lemma EmptyIsNoNumber()
    ensures Atoi("") == None
  {
  }

  /** The items: cut at every comma. */
  lemma ItemTransfer(hw: int, records: seq<Message>)
    requires NoSpaces(records)
    ensures DecodeRecords(hw, Join(Items(records), ","))
            == match Arrival(records) case None => None case Some(ms) => Some((hw, ms))
  {
    JoinedItems(records);
    if records != [] {
      SplitJoin(Items(records));
    }
  }

  /** The records that arrive of a reply about this topic. */
  function ReadRecords(topic: string, records: seq<Message>): Option<seq<Message>> {
    if Contains(topic, "records=") then FieldRecords(Misread(topic, "records=")) else Arrival(records)
  }

  function FieldRecords(field: string): Option<seq<Message>> {
    if field == "" then Some([]) else DecodeItems(Split(field, ","))
  }

  /** The reply's transport adds nothing and hides nothing beyond the comma cuts and what it takes from the
      topic: for a safe topic a follower reads the leader's high watermark and the arrival of its
      records. */
  lemma TransferIsArrival(sequence: nat, topic: string, partition: int, follower: int, hw: int, records: seq<Message>)
    requires NoSpace(topic) && NoSpaces(records)
    ensures var mark, arrived := ReadWatermark(topic, hw), ReadRecords(topic, records);
            Transfer(sequence, topic, partition, follower, hw, records)
            == if mark.None? || arrived.None? then None else Some((mark.value, arrived.value))
    ensures SafeTopic(topic) ==> ReadWatermark(topic, hw) == Some(hw) && ReadRecords(topic, records) == Arrival(records)
  {
    EnvelopeTransfer(sequence, topic, partition, follower, hw, records);
    JoinedItems(records);
    FieldTransfer(topic, partition, follower, hw, Join(Items(records), ","));
    if ReadWatermark(topic, hw).Some? {
      ItemTransfer(ReadWatermark(topic, hw).value, records);
    }
  }

  /** A reply gives back exactly the records that were sent if and only if what is read in the topic agrees
      with them, and no value has a comma where the records are not read in the topic. For a safe topic
      that leaves the commas. */
  lemma FetchRoundTrip(sequence: nat, topic: string, partition: int, follower: int, hw: int, records: seq<Message>)
    requires NoSpace(topic) && NoSpaces(records)
    ensures Transfer(sequence, topic, partition, follower, hw, records) == Some((hw, records))
            <==> && ReadWatermark(topic, hw) == Some(hw)
                 && if Contains(topic, "records=") then FieldRecords(Misread(topic, "records=")) == Some(records)
                    else AllCommaFree(records)
    ensures SafeTopic(topic) ==>
              (Transfer(sequence, topic, partition, follower, hw, records) == Some((hw, records))
               <==> AllCommaFree(records))
  {
    TransferIsArrival(sequence, topic, partition, follower, hw, records);
    ArrivalCommaFree(records);
    if AllCommaFree(records) {
      CommaFreeArrive(records);
    }
  }

  // ---- Topics that confuse the extractor ----

  /** Every comma-free reply about this topic is read as it was sent. */
  ghost predicate CarriesAll(topic: string) {
    forall sequence: nat, partition, follower, hw, records :: NoSpaces(records) && AllCommaFree(records) ==>
      Transfer(sequence, topic, partition, follower, hw, records) == Some((hw, records))
  }

  lemma WatermarkMisread(topic: string)
    requires NoSpace(topic) && Contains(topic, "hw=")
    ensures !CarriesAll(topic)
  {
    var hw := if Atoi(Misread(topic, "hw=")) == Some(0) then 1 else 0;
    EnvelopeTransfer(0, topic, 0, 1, hw, []);
    assert "hw" + "=" == "hw=";
    TopicMisread(topic, 0, 1, hw, Join(Items([]), ","), "hw=");
    assert Transfer(0, topic, 0, 1, hw, []) != Some((hw, []));
  }

  lemma RecordsMisread(topic: string)
    requires NoSpace(topic) && Contains(topic, "records=")
    ensures !CarriesAll(topic)
  {
    var field := Misread(topic, "records=");
    var records := if DecodeRecords(0, field) == Some((0, [])) then [Message(0, "a")] else [];
    EnvelopeTransfer(0, topic, 0, 1, 0, records);
    assert "records" + "=" == "records=";
    TopicMisread(topic, 0, 1, 0, Join(Items(records), ","), "records=");
    assert Transfer(0, topic, 0, 1, 0, records) != Some((0, records));
  }

  /** A topic is safe if and only if every comma-free reply about it is read as it was sent. */
  lemma SafeTopicIff(topic: string)
    requires NoSpace(topic)
    ensures SafeTopic(topic) <==> CarriesAll(topic)
  {
    if SafeTopic(topic) {
      forall sequence: nat, partition, follower, hw, records | NoSpaces(records) && AllCommaFree(records)
        ensures Transfer(sequence, topic, partition, follower, hw, records) == Some((hw, records))
      {
        FetchRoundTrip(sequence, topic, partition, follower, hw, records);
      }
    } else if Contains(topic, "hw=") {
      WatermarkMisread(topic);
    } else {
      RecordsMisread(topic);
    }
  }
}
