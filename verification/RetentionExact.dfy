/** Exactly what a retention pass drops, in terms of file times and sizes, and what an append writes. */
module RetentionExact {
  import opened Text
  import opened LogLine
  import opened SegmentedLog
  import LogDurability
  import StorageEngine

  // ---- The conditions ----

  /** The bytes in segments[i..]; a segment without a file has none. */
  function BytesFrom(disk: map<int, File>, segments: seq<int>, i: nat): nat
    requires i <= |segments|
    decreases |segments| - i
  {
    if i == |segments| then 0
    else (if segments[i] in disk then |disk[segments[i]].content| else 0) + BytesFrom(disk, segments, i + 1)
  }

  /** Age retention is on and the segment's file was last written no later than the age limit ago, or is
      missing. */
  predicate TooOld(limits: Limits, disk: map<int, File>, id: int, now: int) {
    limits.retentionMaxAge > 0 && (id in disk ==> disk[id].modTime <= now - limits.retentionMaxAge)
  }

  ghost predicate AllTooOld(limits: Limits, log: Log, i: int, now: int) {
    i < |log.segments| && forall j :: 0 <= j <= i ==> TooOld(limits, log.disk, log.segments[j], now)
  }

  /** Size retention is on and the files from this segment on exceed the limit. */
  predicate TooBig(limits: Limits, log: Log, i: nat) {
    i <= |log.segments| && limits.retentionMaxBytes > 0
    && BytesFrom(log.disk, log.segments, i) > limits.retentionMaxBytes
  }

  /** Segment i is not the last one, and it is too old with all before it, or there is too much from it on. */
  ghost predicate MustGo(limits: Limits, log: Log, i: nat, now: int) {
    i < |log.segments| - 1 && (AllTooOld(limits, log, i, now) || TooBig(limits, log, i))
  }

  /** r is log without its first k segments and their files. */
  ghost predicate WithoutFirst(log: Log, r: Log, k: nat) {
    && k < |log.segments| && |r.segments| == |log.segments| - k && r.active == log.active
    && (forall i :: 0 <= i < |r.segments| ==> r.segments[i] == log.segments[k + i])
    && (forall id :: id in r.disk <==> id in log.disk && id in r.segments)
    && (forall id :: id in r.disk ==> r.disk[id] == log.disk[id])
  }

  // ---- Dropping ----

  lemma DropFirst(log: Log)
    requires GoodSegments(log) && |log.segments| > 1
    ensures GoodSegments(DeleteOldest(log)) && WithoutFirst(log, DeleteOldest(log), 1)
    ensures GoodSegments(DropOldest(log)) && WithoutFirst(log, DropOldest(log), 1)
  {
    StorageEngine.DropKeepsSegments(log);
    TailSegments(log);
  }

  lemma DropMore(log: Log, d: Log, r: Log, m: nat, k: nat, n: nat)
    requires WithoutFirst(log, d, m) && WithoutFirst(d, r, k) && n == m + k
    ensures WithoutFirst(log, r, n)
  {
    forall i | 0 <= i < |r.segments|
      ensures r.segments[i] == log.segments[n + i]
    {
      assert r.segments[i] == d.segments[k + i];
    }
    forall id | id in r.segments
      ensures id in d.segments
    {
      var i :| 0 <= i < |r.segments| && r.segments[i] == id;
      assert d.segments[k + i] == id;
    }
  }

  lemma DropNone(log: Log)
    requires GoodSegments(log)
    ensures WithoutFirst(log, log, 0)
  {
  }

  /** What is left has the files it had. */
  lemma SameFiles(log: Log, d: Log, k: nat, i: nat)
    requires GoodSegments(log) && WithoutFirst(log, d, k) && i < |d.segments|
    ensures var id := d.segments[i];
            && id == log.segments[k + i] && (id in d.disk <==> id in log.disk)
            && (id in d.disk ==> d.disk[id] == log.disk[id])
  {
  }

  lemma {:induction false} SameBytes(log: Log, d: Log, k: nat, i: nat)
    requires GoodSegments(log) && WithoutFirst(log, d, k) && i <= |d.segments|
    ensures BytesFrom(d.disk, d.segments, i) == BytesFrom(log.disk, log.segments, k + i)
    decreases |d.segments| - i
  {
    if i == |d.segments| {
    } else {
      SameFiles(log, d, k, i);
      SameBytes(log, d, k, i + 1);
    }
  }

  lemma {:induction false} BytesShrink(disk: map<int, File>, segments: seq<int>, i: nat, j: nat)
    requires i <= j <= |segments|
    ensures BytesFrom(disk, segments, i) >= BytesFrom(disk, segments, j)
    decreases j - i
  {
    if i == j {
    } else {
      BytesShrink(disk, segments, i + 1, j);
    }
  }

  lemma {:induction false} BytesSnoc(disk: map<int, File>, segments: seq<int>, i: nat)
    requires segments != [] && i < |segments|
    ensures var n := |segments| - 1;
            BytesFrom(disk, segments, i) == BytesFrom(disk, segments[..n], i) + Size(disk, segments[n])
    decreases |segments| - i
  {
    var n := |segments| - 1;
    if i == n {
      assert BytesFrom(disk, segments, n + 1) == 0;
    } else {
      BytesSnoc(disk, segments, i + 1);
      assert segments[..n][i] == segments[i];
    }
  }

  lemma {:induction false} TotalIsBytes(disk: map<int, File>, segments: seq<int>)
    ensures TotalSize(disk, segments) == BytesFrom(disk, segments, 0)
  {
    if segments == [] {
    } else {
      TotalIsBytes(disk, segments[..|segments| - 1]);
      BytesSnoc(disk, segments, 0);
    }
  }

  // ---- Age ----

  /** The first k segments are too old, and the next one is not or is the last. */
  ghost predicate AgeStops(limits: Limits, log: Log, k: nat, now: int) {
    && k < |log.segments|
    && (forall j :: 0 <= j < k ==> TooOld(limits, log.disk, log.segments[j], now))
    && (k == |log.segments| - 1 || !TooOld(limits, log.disk, log.segments[k], now))
  }

  lemma AgeShift(limits: Limits, log: Log, d: Log, k: nat, now: int)
    requires GoodSegments(log) && WithoutFirst(log, d, 1) && AgeStops(limits, d, k, now)
    requires TooOld(limits, log.disk, log.segments[0], now)
    ensures AgeStops(limits, log, k + 1, now)
  {
    forall j | 0 <= j < k + 1
      ensures TooOld(limits, log.disk, log.segments[j], now)
    {
      if j > 0 {
        SameFiles(log, d, 1, j - 1);
        assert TooOld(limits, d.disk, d.segments[j - 1], now);
      }
    }
    SameFiles(log, d, 1, k);
  }

  /** r is what age retention leaves of log after dropping k segments. */
  ghost predicate AgedTo(limits: Limits, log: Log, r: Log, k: nat, now: int) {
    GoodSegments(r) && WithoutFirst(log, r, k) && AgeStops(limits, log, k, now)
  }

  lemma AgedMore(limits: Limits, log: Log, d: Log, r: Log, rest: nat, k: nat, now: int)
    requires GoodSegments(log) && WithoutFirst(log, d, 1) && AgedTo(limits, d, r, rest, now) && k == 1 + rest
    requires TooOld(limits, log.disk, log.segments[0], now)
    ensures AgedTo(limits, log, r, k, now)
  {
    DropMore(log, d, r, 1, rest, k);
    AgeShift(limits, log, d, rest, now);
  }

  lemma {:induction false} AgeExact(limits: Limits, log: Log, now: int, r: Log) returns (k: nat)
    requires GoodSegments(log) && r == AgeRetain(log, Cutoff(limits, now))
    ensures AgedTo(limits, log, r, k, now)
    decreases |log.segments|
  {
    var cutoff := Cutoff(limits, now);
    if cutoff.None? || |log.segments| <= 1 || TooYoung(log, cutoff.value) {
      DropNone(log);
      k := 0;
    } else {
      var d := DropOldest(log);
      DropFirst(log);
      var rest := AgeExact(limits, d, now, r);
      k := 1 + rest;
      AgedMore(limits, log, d, r, rest, k, now);
    }
  }

  // ---- Size ----

  ghost predicate SizeStops(log: Log, maxBytes: int, k: nat) {
    && k < |log.segments|
    && (forall j :: 0 <= j < k ==> BytesFrom(log.disk, log.segments, j) > maxBytes)
    && (k == |log.segments| - 1 || BytesFrom(log.disk, log.segments, k) <= maxBytes)
  }

  lemma SizeShift(log: Log, d: Log, maxBytes: int, k: nat)
    requires GoodSegments(log) && WithoutFirst(log, d, 1) && SizeStops(d, maxBytes, k)
    requires BytesFrom(log.disk, log.segments, 0) > maxBytes
    ensures SizeStops(log, maxBytes, k + 1)
  {
    forall j | 0 <= j < k + 1
      ensures BytesFrom(log.disk, log.segments, j) > maxBytes
    {
      if j > 0 {
        SameBytes(log, d, 1, j - 1);
        assert BytesFrom(d.disk, d.segments, j - 1) > maxBytes;
      }
    }
    SameBytes(log, d, 1, k);
  }

  /** r is what size retention leaves of log after dropping k segments. */
  ghost predicate SizedTo(log: Log, maxBytes: int, r: Log, k: nat) {
    GoodSegments(r) && WithoutFirst(log, r, k) && SizeStops(log, maxBytes, k)
  }

  lemma SizedMore(log: Log, d: Log, maxBytes: int, r: Log, rest: nat, k: nat)
    requires GoodSegments(log) && WithoutFirst(log, d, 1) && SizedTo(d, maxBytes, r, rest) && k == 1 + rest
    requires BytesFrom(log.disk, log.segments, 0) > maxBytes
    ensures SizedTo(log, maxBytes, r, k)
  {
    DropMore(log, d, r, 1, rest, k);
    SizeShift(log, d, maxBytes, rest);
  }

  lemma {:induction false} SizeExact(log: Log, maxBytes: int, r: Log) returns (k: nat)
    requires GoodSegments(log) && r == SizeRetain(log, maxBytes)
    ensures SizedTo(log, maxBytes, r, k)
    decreases |log.segments|
  {
    TotalIsBytes(log.disk, log.segments);
    if TotalSize(log.disk, log.segments) <= maxBytes || |log.segments| <= 1 {
      DropNone(log);
      k := 0;
    } else {
      var d := DeleteOldest(log);
      DropFirst(log);
      var rest := SizeExact(d, maxBytes, r);
      k := 1 + rest;
      SizedMore(log, d, maxBytes, r, rest, k);
    }
  }

  // ---- One pass ----

  lemma AgeDecides(limits: Limits, log: Log, k: nat, i: nat, now: int)
    requires AgeStops(limits, log, k, now) && i < |log.segments| - 1
    ensures AllTooOld(limits, log, i, now) <==> i < k
  {
    if i >= k {
      assert !TooOld(limits, log.disk, log.segments[k], now);
    }
  }

  lemma SizeDecides(limits: Limits, log: Log, aged: Log, m: nat, k: nat, i: nat)
    requires GoodSegments(log) && WithoutFirst(log, aged, m) && SizeStops(aged, limits.retentionMaxBytes, k)
    requires limits.retentionMaxBytes > 0 && m <= i < |log.segments| - 1
    ensures TooBig(limits, log, i) <==> i < m + k
  {
    SameBytes(log, aged, m, i - m);
    if i < m + k {
      assert BytesFrom(aged.disk, aged.segments, i - m) > limits.retentionMaxBytes;
    } else {
      BytesShrink(aged.disk, aged.segments, k, i - m);
    }
  }

  lemma BothDecide(limits: Limits, log: Log, m: nat, k: nat, i: nat, now: int)
    requires m <= k < |log.segments|
    requires i < |log.segments| - 1 ==> (AllTooOld(limits, log, i, now) <==> i < m)
    requires m <= i < |log.segments| - 1 ==> (TooBig(limits, log, i) <==> i < k)
    ensures i < k <==> MustGo(limits, log, i, now)
  {
  }

  /** From segment m on, exactly those before k are followed by too much. */
  ghost predicate SizeSplit(limits: Limits, log: Log, m: nat, k: nat) {
    forall i: nat :: m <= i < |log.segments| - 1 ==> (TooBig(limits, log, i) <==> i < k)
  }

  lemma SizeSplits(limits: Limits, log: Log, aged: Log, m: nat, rest: nat, k: nat)
    requires GoodSegments(log) && WithoutFirst(log, aged, m) && SizeStops(aged, limits.retentionMaxBytes, rest)
    requires limits.retentionMaxBytes > 0 && k == m + rest
    ensures SizeSplit(limits, log, m, k)
  {
    forall i: nat | m <= i < |log.segments| - 1
      ensures TooBig(limits, log, i) <==> i < k
    {
      SizeDecides(limits, log, aged, m, rest, i);
    }
  }

  /** r is log without k segments, m or more, up to where the size limit is met. */
  ghost predicate SizedFrom(limits: Limits, log: Log, r: Log, m: nat, k: nat) {
    GoodSegments(r) && WithoutFirst(log, r, k) && m <= k && SizeSplit(limits, log, m, k)
  }

  lemma SizedOn(limits: Limits, log: Log, aged: Log, m: nat, r: Log, rest: nat, k: nat)
    requires GoodSegments(log) && WithoutFirst(log, aged, m) && limits.retentionMaxBytes > 0 && k == m + rest
    requires SizedTo(aged, limits.retentionMaxBytes, r, rest)
    ensures SizedFrom(limits, log, r, m, k)
  {
    DropMore(log, aged, r, m, rest, k);
    SizeSplits(limits, log, aged, m, rest, k);
  }

  lemma AgeOnly(limits: Limits, log: Log, r: Log, m: nat, now: int)
    requires AgedTo(limits, log, r, m, now) && limits.retentionMaxBytes <= 0
    ensures SizedFrom(limits, log, r, m, m)
  {
  }

  lemma AgeThenSize(limits: Limits, log: Log, now: int, r: Log) returns (m: nat, k: nat)
    requires GoodSegments(log) && r == Retain(limits, log, now)
    ensures AgeStops(limits, log, m, now) && SizedFrom(limits, log, r, m, k)
  {
    var aged := AgeRetain(log, Cutoff(limits, now));
    m := AgeExact(limits, log, now, aged);
    if limits.retentionMaxBytes > 0 {
      var rest := SizeExact(aged, limits.retentionMaxBytes, r);
      k := m + rest;
      SizedOn(limits, log, aged, m, r, rest, k);
    } else {
      k := m;
      AgeOnly(limits, log, r, m, now);
    }
  }

  /** A pass took the first k segments, and these are exactly the ones that must go. */
  ghost predicate Passed(limits: Limits, log: Log, r: Log, k: nat, now: int) {
    WithoutFirst(log, r, k) && forall i: nat :: i < k <==> MustGo(limits, log, i, now)
  }

  /** A retention pass drops an oldest run of segments with their files, and segment i is among them if and
      only if it is not the last and either it and all before it are too old, or the files from it on
      are too big. */
  lemma RetainExact(limits: Limits, log: Log, now: int) returns (k: nat)
    requires GoodSegments(log)
    ensures GoodSegments(Retain(limits, log, now)) && Passed(limits, log, Retain(limits, log, now), k, now)
  {
    var m;
    m, k := AgeThenSize(limits, log, now, Retain(limits, log, now));
    Decided(limits, log, m, k, now);
  }

  lemma Decided(limits: Limits, log: Log, m: nat, k: nat, now: int)
    requires m <= k < |log.segments| && AgeStops(limits, log, m, now) && SizeSplit(limits, log, m, k)
    ensures forall i: nat :: i < k <==> MustGo(limits, log, i, now)
  {
    forall i: nat
      ensures i < k <==> MustGo(limits, log, i, now)
    {
      if i < |log.segments| - 1 {
        AgeDecides(limits, log, m, i, now);
      }
      BothDecide(limits, log, m, k, i, now);
    }
  }

  /** Segment i is too old, a segment before it is not, and the size limit is met from i on and not before. */
  ghost predicate Stranded(limits: Limits, log: Log, i: nat, now: int) {
    && i < |log.segments| - 1 && TooOld(limits, log.disk, log.segments[i], now) && !AllTooOld(limits, log, i, now)
    && !TooBig(limits, log, i) && (i > 0 ==> TooBig(limits, log, i - 1))
  }

  /** What is left is one segment, or files that are not too big. It begins with a segment that is too old if
      and only if such a segment was stranded behind a younger one, which went for its size. */
  lemma RetainedWithin(limits: Limits, log: Log, now: int)
    requires GoodSegments(log)
    ensures var r := Retain(limits, log, now);
            && r.segments != []
            && (|r.segments| > 1 ==> !TooBig(limits, r, 0))
            && (|r.segments| > 1 && TooOld(limits, r.disk, r.segments[0], now) <==>
                exists i: nat :: Stranded(limits, log, i, now))
  {
    var k := RetainExact(limits, log, now);
    LeftWithin(limits, log, Retain(limits, log, now), k, now);
    StrandedIff(limits, log, k, now);
  }

  lemma LeftWithin(limits: Limits, log: Log, r: Log, k: nat, now: int)
    requires GoodSegments(log) && WithoutFirst(log, r, k) && !MustGo(limits, log, k, now)
    ensures |r.segments| == |log.segments| - k
    ensures |r.segments| > 1 ==>
              && !TooBig(limits, r, 0)
              && (TooOld(limits, r.disk, r.segments[0], now) <==> TooOld(limits, log.disk, log.segments[k], now))
  {
    if |r.segments| > 1 {
      SameFiles(log, r, k, 0);
      SameBytes(log, r, k, 0);
    }
  }

  lemma StrandedIff(limits: Limits, log: Log, k: nat, now: int)
    requires k < |log.segments| && forall i: nat :: i < k <==> MustGo(limits, log, i, now)
    ensures k < |log.segments| - 1 && TooOld(limits, log.disk, log.segments[k], now) <==>
            exists i: nat :: Stranded(limits, log, i, now)
  {
    if k < |log.segments| - 1 && TooOld(limits, log.disk, log.segments[k], now) {
      assert !MustGo(limits, log, k, now);
      if k > 0 {
        assert MustGo(limits, log, k - 1, now);
      }
      assert Stranded(limits, log, k, now);
    }
    if i: nat :| Stranded(limits, log, i, now) {
      assert !MustGo(limits, log, i, now);
      if i > 0 {
        assert MustGo(limits, log, i - 1, now);
      }
    }
  }

  /** That happens: the young segment keeps the old one behind it from the age check, and then goes for its
      size. */
  lemma OldLeftBehind(now: int) returns (limits: Limits, log: Log)
    ensures GoodSegments(log) && |Retain(limits, log, now).segments| > 1
    ensures var r := Retain(limits, log, now); r.segments == [1, 2] && TooOld(limits, r.disk, r.segments[0], now)
  {
    limits := Limits(1, 2, 10);
    var disk := map[0 := File("aaa", now), 1 := File("a", now - 10), 2 := File("a", now)];
    log := Log([], 0, 2, [0, 1, 2], disk);
    assert BytesFrom(disk, [0, 1, 2], 3) == 0;
    assert BytesFrom(disk, [0, 1, 2], 2) == 1;
    assert BytesFrom(disk, [0, 1, 2], 1) == 2;
    assert BytesFrom(disk, [0, 1, 2], 0) == 5;
    var k := RetainExact(limits, log, now);
    assert !TooOld(limits, disk, log.segments[0], now);
    assert MustGo(limits, log, 0, now) && !MustGo(limits, log, 1, now);
    assert k == 1 && [0, 1, 2][1..] == [1, 2];
  }

  // ---- Every operation ----

  /** The operations that end with a retention pass. */
  predicate Retains(log: Log, op: Op) {
    op.ReplicateOp? ==> op.offset == log.nextOffset
  }

  lemma StepIsPass(limits: Limits, log: Log, op: Op)
    ensures Step(limits, log, op) ==
            if Retains(log, op) then Retain(limits, LogDurability.Unretained(limits, log, op), op.now) else log
  {
  }

  /** Every stored record, every pass and every restart is followed by exactly one such pass at its own
      time; a replicated record that is not stored leaves the log alone. */
  lemma StepRetains(limits: Limits, log: Log, op: Op, r: Log) returns (u: Log, k: nat)
    requires GoodSegments(log) && r == Step(limits, log, op)
    ensures u == LogDurability.Unretained(limits, log, op)
    ensures if Retains(log, op) then Passed(limits, u, r, k, op.now) else r == log
  {
    u, k := LogDurability.Unretained(limits, log, op), 0;
    StepIsPass(limits, log, op);
    UnretainedGood(limits, log, op);
    if Retains(log, op) {
      k := PassOn(limits, u, r, op.now);
    }
  }

  lemma PassOn(limits: Limits, u: Log, r: Log, now: int) returns (k: nat)
    requires GoodSegments(u) && r == Retain(limits, u, now)
    ensures Passed(limits, u, r, k, now)
  {
    k := RetainExact(limits, u, now);
  }

  lemma UnretainedGood(limits: Limits, log: Log, op: Op)
    requires GoodSegments(log)
    ensures GoodSegments(LogDurability.Unretained(limits, log, op))
  {
    match op
    case ProduceOp(value, now) => AppendKeepsSegments(limits, log, log.nextOffset, value, now);
    case ReplicateOp(offset, value, now) => AppendKeepsSegments(limits, log, offset, value, now);
    case RetainOp(now) =>
    case RestartOp(now) => RecoverGood(log);
  }

  lemma RecoverGood(log: Log)
    requires GoodSegments(log)
    ensures GoodSegments(Recover(log.disk))
  {
    forall id | id in log.disk
      ensures id >= 0
    {
      SegmentRange(log, id);
    }
    StorageEngine.RecoverLists(log.disk);
  }

  // ---- Appends ----

  /** The active file exists and the line would take it past the limit. */
  predicate Full(limits: Limits, log: Log, line: string) {
    log.active in log.disk && |log.disk[log.active].content| + |line| > limits.segmentMaxBytes
  }

  /** An append begins a new segment if and only if the active one is full. */
  lemma AppendRotates(limits: Limits, log: Log, offset: int, value: string, now: int)
    ensures var a, full := Append(limits, log, offset, value, now), Full(limits, log, Format(offset, now, value));
            && a.active == (if full then log.active + 1 else log.active)
            && a.segments == (if full then log.segments + [log.active + 1] else log.segments)
  {
  }

  /** What it writes: the printed line at the end of the active file, stamped with the time; no other file
      changes. */
  lemma AppendWrites(limits: Limits, log: Log, offset: int, value: string, now: int)
    requires GoodSegments(log)
    ensures var a, line := Append(limits, log, offset, value, now), Format(offset, now, value);
            var empty := Full(limits, log, line) || log.active !in log.disk;
            var before := if empty then "" else log.disk[log.active].content;
            a.disk == log.disk[a.active := File(before + line, now)]
  {
    NextSegment(log.segments, log.active);
    AppendRotates(limits, log, offset, value, now);
  }
}
