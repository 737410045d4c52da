/** What the checksum of a log line is worth. CRC-32 tells apart any two texts that differ in at most four
    consecutive bytes, and a line loads only with the checksum of its own value. */
module Checksum {
  import opened Text
  import opened LogLine
  import opened Numbers

  const POLYNOMIAL := 0xEDB88320

  // ---- One bit ----

  function CrcBit(crc: nat): nat {
    if crc % 2 == 1 then Xor(crc / 2, POLYNOMIAL) else crc / 2
  }

  lemma BitBelow(crc: nat)
    requires crc < WORD
    ensures CrcBit(crc) < WORD
    ensures crc % 2 == 1 <==> CrcBit(crc) >= TOP
  {
    Powers();
    XorKeepsTop(crc / 2, POLYNOMIAL, 31);
  }

  lemma BitInjective(a: nat, b: nat)
    requires a < WORD && b < WORD && CrcBit(a) == CrcBit(b)
    ensures a == b
  {
    BitBelow(a);
    BitBelow(b);
    XorCancels(a / 2, b / 2, POLYNOMIAL);
  }

  /** What is above the lowest bit only moves down. */
  lemma BitShifts(a: nat, b: nat)
    ensures CrcBit(Xor(a, 2 * b)) == Xor(CrcBit(a), b)
  {
    XorHalves(a, 2 * b);
    assert 2 * b / 2 == b && 2 * b % 2 == 0;
    XorSwap(a / 2, b, POLYNOMIAL);
  }

  // ---- Many bits ----

  lemma {:induction false} BitsInjective(a: nat, b: nat, bits: nat)
    requires a < WORD && b < WORD
    ensures CrcBits(a, bits) < WORD
    ensures CrcBits(a, bits) == CrcBits(b, bits) ==> a == b
    decreases bits
  {
    if bits == 0 {
    } else {
      BitBelow(a);
      BitBelow(b);
      BitsInjective(CrcBit(a), CrcBit(b), bits - 1);
      if CrcBit(a) == CrcBit(b) {
        BitInjective(a, b);
      }
    }
  }

  lemma {:induction false} BitsShift(a: nat, b: nat, bits: nat)
    ensures CrcBits(Xor(a, Shifted(b, bits)), bits) == Xor(CrcBits(a, bits), b)
    decreases bits
  {
    if bits == 0 {
    } else {
      BitShifts(a, Shifted(b, bits - 1));
      BitsShift(CrcBit(a), b, bits - 1);
    }
  }

  lemma {:induction false} BitsCompose(a: nat, k: nat, n: nat)
    ensures CrcBits(CrcBits(a, k), n) == CrcBits(a, k + n)
    decreases k
  {
    if k == 0 {
    } else {
      BitsCompose(CrcBit(a), k - 1, n);
    }
  }

  // ---- Texts ----

  /** The text's bytes as a number, the first one lowest. */
  function Word(s: string): nat {
    if s == "" then 0 else s[0] as int % 256 + 256 * Word(s[1..])
  }

  predicate SameBytes(u: string, v: string) {
    |u| == |v| && forall i :: 0 <= i < |u| ==> u[i] as int % 256 == v[i] as int % 256
  }

  lemma {:induction false} WordInjective(u: string, v: string)
    requires |u| == |v| && Word(u) == Word(v)
    ensures SameBytes(u, v)
  {
    if u == "" {
    } else {
      var x, y := u[0] as int % 256, v[0] as int % 256;
      assert x == Word(u) % 256 && y == Word(v) % 256;
      WordInjective(u[1..], v[1..]);
      forall i | 0 <= i < |u|
        ensures u[i] as int % 256 == v[i] as int % 256
      {
        assert i > 0 ==> u[i] == u[1..][i - 1] && v[i] == v[1..][i - 1];
      }
    }
  }

  lemma {:induction false} WordBelow(s: string)
    requires |s| <= 4
    ensures Word(s) < Power(8 * |s|) <= WORD
  {
    if s == "" {
    } else {
      WordBelow(s[1..]);
      Powers();
    }
  }

  /** What lies above the lowest k bits comes down by k places while those are worked off. */
  lemma HighShifts(crc: nat, low: nat, rest: nat, k: nat, x: nat)
    requires low < Power(k) && x == Xor(crc, low + Shifted(rest, k))
    ensures Xor(CrcBits(Xor(crc, low), k), rest) == CrcBits(x, k)
  {
    BitsShift(Xor(crc, low), rest, k);
    XorAssociative(crc, low, Shifted(rest, k));
    XorDisjoint(low, rest, k);
  }

  lemma LowThenHigh(crc: nat, low: nat, rest: nat, k: nat, m: nat, x: nat)
    requires low < Power(k) && x == Xor(crc, low + Shifted(rest, k))
    ensures CrcBits(Xor(CrcBits(Xor(crc, low), k), rest), m) == CrcBits(x, k + m)
  {
    HighShifts(crc, low, rest, k, x);
    BitsCompose(x, k, m);
  }

  lemma WordStep(s: string)
    requires s != ""
    ensures Word(s) == s[0] as int % 256 + Shifted(Word(s[1..]), 8) && s[0] as int % 256 < Power(8)
  {
    Powers();
    ByteUp(Word(s[1..]));
  }

  /** Byte by byte is all bits at once: the loop over a text is one shift of its number. */
  lemma {:induction false} BytesAreBits(crc: nat, s: string, x: nat, n: nat)
    requires x == Xor(crc, Word(s)) && n == 8 * |s|
    ensures CrcBytes(crc, s) == CrcBits(x, n)
    decreases |s|
  {
    if s == "" {
      XorCommutes(crc, 0);
    } else {
      var byte, rest, m := s[0] as int % 256, s[1..], n - 8;
      var next := CrcBits(Xor(crc, byte), 8);
      var y := Xor(next, Word(rest));
      WordStep(s);
      LowThenHigh(crc, byte, Word(rest), 8, m, x);
      assert CrcBits(y, m) == CrcBits(x, n);
      BytesAreBits(next, rest, y, m);
    }
  }

  lemma {:induction false} BytesConcat(crc: nat, s: string, t: string)
    ensures CrcBytes(crc, s + t) == CrcBytes(CrcBytes(crc, s), t)
    decreases |s|
  {
    if s == "" {
      assert s + t == t;
    } else {
      assert (s + t)[0] == s[0] && (s + t)[1..] == s[1..] + t;
      BytesConcat(CrcBits(Xor(crc, s[0] as int % 256), 8), s[1..], t);
    }
  }

  lemma WordXor(a: nat, b: nat)
    requires a < WORD && b < WORD
    ensures Xor(a, b) < WORD
  {
    Powers();
    XorBelow(a, b, 32);
  }

  lemma ByteInjective(a: nat, b: nat, byte: nat)
    requires a < WORD && b < WORD && byte < 256
    ensures CrcBits(Xor(a, byte), 8) < WORD && CrcBits(Xor(b, byte), 8) < WORD
    ensures CrcBits(Xor(a, byte), 8) == CrcBits(Xor(b, byte), 8) ==> a == b
  {
    WordXor(a, byte);
    WordXor(b, byte);
    XorCancels(a, b, byte);
    BitsInjective(Xor(a, byte), Xor(b, byte), 8);
    BitsInjective(Xor(b, byte), Xor(a, byte), 8);
  }

  lemma {:induction false} BytesInjective(a: nat, b: nat, s: string)
    requires a < WORD && b < WORD
    ensures CrcBytes(a, s) < WORD
    ensures CrcBytes(a, s) == CrcBytes(b, s) ==> a == b
    decreases |s|
  {
    if s == "" {
    } else {
      var byte := s[0] as int % 256;
      ByteInjective(a, b, byte);
      BytesInjective(CrcBits(Xor(a, byte), 8), CrcBits(Xor(b, byte), 8), s[1..]);
    }
  }

  lemma ShortInjective(crc: nat, u: string, v: string)
    requires crc < WORD && |u| == |v| <= 4
    ensures CrcBytes(crc, u) == CrcBytes(crc, v) ==> SameBytes(u, v)
  {
    WordBelow(u);
    WordBelow(v);
    WordXor(crc, Word(u));
    WordXor(crc, Word(v));
    BytesAreBits(crc, u, Xor(crc, Word(u)), 8 * |u|);
    BytesAreBits(crc, v, Xor(crc, Word(v)), 8 * |v|);
    BitsInjective(Xor(crc, Word(u)), Xor(crc, Word(v)), 8 * |u|);
    XorCancels(Word(u), Word(v), crc);
    if Word(u) == Word(v) {
      WordInjective(u, v);
    }
  }

  /** Two texts that differ in at most four consecutive bytes have different checksums. */
  lemma BurstDetected(before: string, u: string, v: string, after: string)
    requires |u| == |v| <= 4 && !SameBytes(u, v)
    ensures Crc32(before + u + after) != Crc32(before + v + after)
  {
    var start := 0xFFFFFFFF;
    BytesConcat(start, before + u, after);
    BytesConcat(start, before, u);
    BytesConcat(start, before + v, after);
    BytesConcat(start, before, v);
    BytesInjective(start, start, before);
    var crc := CrcBytes(start, before);
    ShortInjective(crc, u, v);
    BytesInjective(crc, crc, u);
    BytesInjective(crc, crc, v);
    BytesInjective(CrcBytes(crc, u), CrcBytes(crc, v), after);
    XorCancels(CrcBytes(start, before + u + after), CrcBytes(start, before + v + after), 0xFFFFFFFF);
  }

  // ---- Lines ----

  function Line(o: string, t: string, h: string, value: string): string {
    o + "|" + (t + "|" + (h + "|" + value))
  }

  /** The text is cut at its first separator. */
  lemma CutOnce(s: string, n: nat)
    requires n > 1 && |SplitN(s, "|", n)| > 1
    ensures var parts := SplitN(s, "|", n);
            && '|' !in parts[0] && |parts[0]| < |s| && s == parts[0] + "|" + s[|parts[0]| + 1..]
            && parts[1..] == SplitN(s[|parts[0]| + 1..], "|", n - 1)
  {
    IndexOfChar(s, '|');
    var i := Index(s, "|");
    assert s == s[..i] + "|" + s[i + 1..];
  }

  lemma CutThrice(line: string)
    requires |SplitN(line, "|", 4)| == 4
    ensures var parts := SplitN(line, "|", 4);
            && line == Line(parts[0], parts[1], parts[2], parts[3])
            && '|' !in parts[0] && '|' !in parts[1] && '|' !in parts[2]
  {
    var parts := SplitN(line, "|", 4);
    CutOnce(line, 4);
    var two := line[|parts[0]| + 1..];
    CutOnce(two, 3);
    var three := two[|parts[1]| + 1..];
    CutOnce(three, 2);
  }

  /** The three fields in front of the value fit it. */
  predicate Fits(o: string, t: string, h: string, m: Message) {
    && '|' !in o && '|' !in t && '|' !in h
    && Atoi(o) == Some(m.offset) && Atoi(t).Some? && EqualFold(Hex(Crc32(m.value), 8), h)
  }

  /** A line loads as a record if and only if it reads offset|time|checksum|value with the checksum of that
      very value. */
  lemma ParseExact(line: string, m: Message)
    ensures Parse(line) == Some(m) <==> exists o, t, h :: Fits(o, t, h, m) && line == Line(o, t, h, m.value)
  {
    if Parse(line) == Some(m) {
      CutThrice(line);
      var parts := SplitN(line, "|", 4);
      assert Fits(parts[0], parts[1], parts[2], m);
    }
    if o, t, h :| Fits(o, t, h, m) && line == Line(o, t, h, m.value) {
      SplitFields(o, t, h, m.value);
    }
  }

  lemma {:induction false} HexFolds(a: nat, b: nat, width: nat)
    requires EqualFold(Hex(a, width), Hex(b, width)) && a < Power(4 * width) && b < Power(4 * width)
    ensures a == b
  {
    if width == 0 {
    } else {
      var x, y := Hex(a, width), Hex(b, width);
      assert x[..width - 1] == Hex(a / 16, width - 1) && y[..width - 1] == Hex(b / 16, width - 1);
      assert forall i :: 0 <= i < width - 1 ==> x[..width - 1][i] == x[i] && y[..width - 1][i] == y[i];
      assert Power(4 * width) == 16 * Power(4 * (width - 1)) by {
        assert Power(4 * width - 1) == 2 * Power(4 * width - 2);
        assert Power(4 * width - 3) == 2 * Power(4 * width - 4);
      }
      HexFolds(a / 16, b / 16, width - 1);
      assert Lower(x[width - 1]) == Lower(y[width - 1]);
    }
  }

  lemma CrcBelow(s: string)
    ensures Crc32(s) < Power(32)
  {
    Powers();
    BytesInjective(0xFFFFFFFF, 0xFFFFFFFF, s);
    XorBelow(CrcBytes(0xFFFFFFFF, s), 0xFFFFFFFF, 32);
  }

  /** A printed line in which another value took the place of its own loads if and only if the two have the
      same checksum. */
  lemma ChangedValueLoads(offset: int, timestamp: int, value: string, other: string)
    ensures Parse(Line(Itoa(offset), Itoa(timestamp), Hex(Crc32(value), 8), other)) ==
            if Crc32(other) == Crc32(value) then Some(Message(offset, other)) else None
    ensures Line(Itoa(offset), Itoa(timestamp), Hex(Crc32(value), 8), value) == Body(offset, timestamp, value)
  {
    var o, t, h := Itoa(offset), Itoa(timestamp), Hex(Crc32(value), 8);
    SplitFields(o, t, h, other);
    AtoiItoa(offset);
    AtoiItoa(timestamp);
    EqualFoldReflexive(h);
    CrcBelow(value);
    CrcBelow(other);
    if EqualFold(Hex(Crc32(other), 8), h) {
      HexFolds(Crc32(other), Crc32(value), 8);
    }
  }

  lemma NothingFirst(line: string, lines: seq<string>, all: seq<string>, loaded: seq<Message>)
    requires Parse(line) == None && all == [line] + lines && loaded == FlatMap(ParsedLine, lines)
    ensures FlatMap(ParsedLine, all) == loaded
  {
    assert all[0] == line && all[1..] == lines;
  }

  /** Loading skips a line that does not parse. */
  lemma LineSkipped(content: string, line: string, rest: string, all: string)
    requires Intact(content) && '\n' !in line && |line| < MAX_LINE && DropCarriageReturn(line) == line
    requires Parse(line) == None && all == line + "\n" + rest
    ensures Load(content + all) == Load(content) + Load(rest)
  {
    FirstLine(line, rest);
    NothingFirst(line, Scan(rest), Scan(all), Load(rest));
    LoadConcat(content, all);
  }

  /** A written line in which only the value changed is as long as the one of the new value, and ends like it. */
  lemma ChangedLine(offset: int, timestamp: int, value: string, other: string, line: string)
    requires Readable(offset, timestamp, other)
    requires line == Line(Itoa(offset), Itoa(timestamp), Hex(Crc32(value), 8), other)
    ensures '\n' !in line && |line| < MAX_LINE && DropCarriageReturn(line) == line
  {
    var o, t, h := Itoa(offset), Itoa(timestamp), Hex(Crc32(value), 8);
    ItoaLacks(offset, '\n');
    ItoaLacks(timestamp, '\n');
    assert |line| == |o| + 1 + |t| + 1 + 8 + 1 + |other| == |Body(offset, timestamp, other)|;
    assert line[|line| - 1] == if other == "" then '|' else other[|other| - 1];
  }

  /** Loading skips a written record in which at most four consecutive bytes of the value changed, and keeps
      what is around it. */
  lemma DamagedLineSkipped(content: string, offset: int, timestamp: int, before: string, u: string, v: string,
                           after: string, rest: string)
    requires Intact(content) && |u| == |v| <= 4 && !SameBytes(u, v)
    requires Readable(offset, timestamp, before + v + after)
    ensures var line := Line(Itoa(offset), Itoa(timestamp), Hex(Crc32(before + u + after), 8), before + v + after);
            Load(content + (line + "\n" + rest)) == Load(content) + Load(rest)
  {
    var value, other := before + u + after, before + v + after;
    var line := Line(Itoa(offset), Itoa(timestamp), Hex(Crc32(value), 8), other);
    BurstDetected(before, u, v, after);
    ChangedValueLoads(offset, timestamp, value, other);
    ChangedLine(offset, timestamp, value, other, line);
    LineSkipped(content, line, rest, line + "\n" + rest);
  }
}
