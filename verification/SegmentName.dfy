/** Segment file names: printed by the append path, parsed by recovery to find a file's
    partition. */
module SegmentName {
  import opened Text

  datatype Segment = Segment(topic: string, partition: int, id: nat)

  const MARK := "-segment-"
  const EXTENSION := ".log"

  /** segmentPath without its directory. */
  function Name(s: Segment): string {
    Stem(s) + MARK + PadZeros(Digits(s.id), 6) + EXTENSION
  }

  function Stem(s: Segment): string {
    s.topic + "-" + Itoa(s.partition)
  }

  predicate HasSuffix(s: string, t: string) {
    |s| >= |t| && s[|s| - |t|..] == t
  }

  /** parseSegmentFileName. The segment id it returns may be any integer. */
  function Parse(filename: string): Option<(string, int, int)> {
    if !HasSuffix(filename, EXTENSION) || !Contains(filename, MARK) then None
    else ParseBase(filename[..|filename| - |EXTENSION|])
  }

  function ParseBase(base: string): Option<(string, int, int)> {
    var parts := Split(base, MARK);
    if |parts| != 2 then None
    else match Atoi(parts[1])
      case None => None
      case Some(id) =>
        var left := parts[0];
        var i := LastIndex(left, '-');
        if i <= 0 then None
        else match Atoi(left[i + 1..])
          case None => None
          case Some(partition) => Some((left[..i], partition, id))
  }

  /** The names that recovery can trace back: a condition on topic and partition alone. */
  predicate Recoverable(s: Segment) {
    s.topic != "" && s.partition >= 0 && !Contains(s.topic + "-", MARK)
  }

  lemma ParseName(s: Segment)
    ensures Parse(Name(s)) == ParseBase(Stem(s) + MARK + PadZeros(Digits(s.id), 6))
  {
    var base := Stem(s) + MARK + PadZeros(Digits(s.id), 6);
    var name := Name(s);
    assert name[|name| - |EXTENSION|..] == EXTENSION && name[..|name| - |EXTENSION|] == base;
    assert OccursAt(name, MARK, |Stem(s)|);
  }

  lemma DigitBreaksMark(s: string, j: int, d: int)
    requires 0 <= j <= d < j + |MARK| && d < |s| && IsDigit(s[d])
    ensures !OccursAt(s, MARK, j)
  {
    if j + |MARK| <= |s| {
      assert s[j..j + |MARK|][d - j] == s[d];
      assert !IsDigit(MARK[d - j]);
    }
  }

  /** Between a topic that lacks the marker and the marker itself there are only digits, so the
      first occurrence of the marker is the printed one. */
  lemma MarkIsFirst(topic: string, digits: string, rest: string)
    requires digits != "" && AllDigits(digits) && !Contains(topic + "-", MARK)
    ensures Index(topic + "-" + digits + MARK + rest, MARK) == |topic| + 1 + |digits|
  {
    var left := topic + "-" + digits;
    var s := left + MARK + rest;
    assert OccursAt(s, MARK, |left|);
    forall j | 0 <= j < |left|
      ensures !OccursAt(s, MARK, j)
    {
      if j + |MARK| <= |topic| + 1 {
        assert s[j..j + |MARK|] == (topic + "-")[j..j + |MARK|];
        assert !OccursAt(topic + "-", MARK, j);
      } else {
        var d := if j <= |topic| then |topic| + 1 else j;
        assert s[d] == digits[d - |topic| - 1];
        DigitBreaksMark(s, j, d);
      }
    }
  }

  lemma {:induction false} DigitsHaveNoMark(digits: string)
    requires AllDigits(digits)
    ensures Split(digits, MARK) == [digits]
  {
    forall j | 0 <= j < |digits|
      ensures !OccursAt(digits, MARK, j)
    {
      DigitBreaksMark(digits, j, j);
    }
  }

  lemma ParseRecoverable(topic: string, partition: nat, number: string)
    requires AllDigits(number) && topic != "" && !Contains(topic + "-", MARK)
    ensures ParseBase(topic + "-" + Digits(partition) + MARK + number)
            == match Atoi(number) case None => None case Some(id) => Some((topic, partition, id))
  {
    var left := topic + "-" + Digits(partition);
    var base := left + MARK + number;
    MarkIsFirst(topic, Digits(partition), number);
    assert base[..|left|] == left && base[|left| + |MARK|..] == number;
    DigitsHaveNoMark(number);
    assert Split(base, MARK) == [left, number];
    LastDash(topic, Digits(partition));
    AtoiItoa(partition);
  }

  lemma LastDash(topic: string, digits: string)
    requires AllDigits(digits)
    ensures var left := topic + "-" + digits;
            LastIndex(left, '-') == |topic| && left[..|topic|] == topic && left[|topic| + 1..] == digits
  {
    var left := topic + "-" + digits;
    assert left[|topic|] == '-';
    assert forall j :: |topic| < j < |left| ==> left[j] == digits[j - |topic| - 1];
  }

  lemma EarlierMarkRejected(topic: string, middle: string, number: string)
    requires Contains(topic + "-", MARK)
    ensures ParseBase(topic + "-" + middle + MARK + number) == None
  {
    var left := topic + "-" + middle;
    var base := left + MARK + number;
    var i := Index(topic + "-", MARK);
    assert base[i..i + |MARK|] == (topic + "-")[i..i + |MARK|];
    assert OccursAt(base, MARK, i);
    var first := Index(base, MARK);
    var rest := base[first + |MARK|..];
    var second := |left| - first - |MARK|;
    assert rest[second..second + |MARK|] == base[|left|..|left| + |MARK|] == MARK;
    assert OccursAt(rest, MARK, second);
    assert |Split(rest, MARK)| >= 2;
    assert |Split(base, MARK)| >= 3;
  }

  lemma {:induction false} NonNegativeWithoutSign(s: string)
    requires forall j :: 0 <= j < |s| ==> s[j] != '-'
    ensures Atoi(s).Some? ==> Atoi(s).value >= 0
  {
  }

  lemma ParsedPartitionNonNegative(base: string)
    ensures ParseBase(base).Some? ==> ParseBase(base).value.1 >= 0
  {
    var parts := Split(base, MARK);
    if |parts| == 2 {
      var left := parts[0];
      NonNegativeWithoutSign(left[LastIndex(left, '-') + 1..]);
    }
  }

  /** Recovery gives a file back to the partition that wrote it if and only if the topic is not
      empty, the partition is not negative, and the topic followed by '-' lacks the marker. */
  lemma NameRoundTrip(s: Segment)
    ensures Parse(Name(s)) == Some((s.topic, s.partition, s.id)) <==> Recoverable(s)
  {
    ParseName(s);
    var number := PadZeros(Digits(s.id), 6);
    AtoiPadded(s.id, 6);
    ParsedPartitionNonNegative(Stem(s) + MARK + number);
    if s.partition >= 0 {
      if Contains(s.topic + "-", MARK) {
        EarlierMarkRejected(s.topic, Itoa(s.partition), number);
      } else if s.topic != "" {
        ParseRecoverable(s.topic, s.partition, number);
      } else {
        EmptyTopicRejected(Digits(s.partition), number);
      }
    }
  }

  lemma EmptyTopicRejected(digits: string, number: string)
    requires digits != "" && AllDigits(digits)
    ensures ParseBase("" + "-" + digits + MARK + number) == None
  {
    var left := "" + "-" + digits;
    var base := left + MARK + number;
    assert !Contains("" + "-", MARK);
    MarkIsFirst("", digits, number);
    assert base[..|left|] == left;
    assert forall j :: 0 < j < |left| ==> left[j] == digits[j - 1];
    assert LastIndex(left, '-') <= 0;
  }
}
