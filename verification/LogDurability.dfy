/** What survives on a partition whose files may hold records that cannot be loaded: every record
    written before the first such one stays, until retention deletes its segment. */
module LogDurability {
  import opened Text
  import opened LogLine
  import opened Ordering
  import opened SegmentedLog
  import PartitionHistory
  import StorageEngine

  // ---- Files that only grow ----

  /** Every line is complete, whether or not the scanner can return it. */
  predicate Terminated(content: string) {
    content == "" || content[|content| - 1] == '\n'
  }

  lemma TerminatedSplit(content: string) returns (line: string, rest: string)
    requires Terminated(content) && content != ""
    ensures content == line + "\n" + rest && '\n' !in line && Terminated(rest)
  {
    IndexOfChar(content, '\n');
    var i := Index(content, "\n");
    line, rest := content[..i], content[i + 1..];
  }

  /** Text added after complete lines only adds to what the scanner returns. */
  lemma {:induction false} ScanGrows(a: string, b: string)
    requires Terminated(a)
    ensures Scan(a) <= Scan(a + b)
    decreases |a|
  {
    if a == "" {
      assert Scan(a) == [];
    } else {
      var line, rest := TerminatedSplit(a);
      ConcatAssociative(line + "\n", rest, b);
      if |line| < MAX_LINE {
        FirstLine(line, rest);
        FirstLine(line, rest + b);
        ScanGrows(rest, b);
      } else {
        LongLineStops(line, rest);
      }
    }
  }

  lemma LoadGrows(a: string, b: string)
    requires Terminated(a)
    ensures Load(a) <= Load(a + b)
  {
    ScanGrows(a, b);
    var more := Scan(a + b)[|Scan(a)|..];
    assert Scan(a + b) == Scan(a) + more;
    FlatMapConcat(ParsedLine, Scan(a), more);
  }

  lemma {:induction false} IntactTerminated(content: string)
    requires Intact(content)
    ensures Terminated(content)
    decreases |content|
  {
    if content == "" {
    } else {
      var line, rest := IntactSplit(content);
      IntactTerminated(rest);
    }
  }

  // ---- What a log carries ----

  ghost predicate Complete(log: Log) {
    GoodSegments(log) && AllTerminated(log.disk)
  }

  /** The messages begin with these values from the base on, each at its own offset. */
  ghost predicate BeginsWith(messages: seq<Message>, values: seq<string>, base: int) {
    0 <= base && forall i :: 0 <= i < |values| - base ==> RecordAt(messages, values, base, i)
  }

  predicate RecordAt(messages: seq<Message>, values: seq<string>, base: nat, i: nat)
    requires base + i < |values|
  {
    i < |messages| && messages[i] == Message(base + i, values[base + i])
  }

  function OnDisk(log: Log): seq<Message> {
    LoadAll(log.disk, log.segments)
  }

  /** Both memory and files begin with the values from the base on. */
  ghost predicate Carries(log: Log, values: seq<string>, base: int) {
    BeginsWith(log.cache, values, base) && BeginsWith(OnDisk(log), values, base)
  }

  ghost predicate Lasting(log: Log, values: seq<string>, base: int) {
    Complete(log) && Carries(log, values, base)
  }

  lemma BeginsLonger(messages: seq<Message>, more: seq<Message>, values: seq<string>, base: int)
    requires BeginsWith(messages, values, base) && messages <= more
    ensures BeginsWith(more, values, base)
  {
    forall i | 0 <= i < |values| - base
      ensures RecordAt(more, values, base, i)
    {
      assert RecordAt(messages, values, base, i);
    }
  }

  lemma BeginsLater(front: seq<Message>, rest: seq<Message>, all: seq<Message>, values: seq<string>, base: int)
    requires BeginsWith(all, values, base) && all == front + rest
    ensures BeginsWith(rest, values, base + |front|)
  {
    var from := base + |front|;
    forall i | 0 <= i < |values| - from
      ensures RecordAt(rest, values, from, i)
    {
      assert RecordAt(all, values, base, |front| + i);
    }
  }

  lemma BeginsSuffix(all: seq<Message>, rest: seq<Message>, values: seq<string>, base: int)
    requires BeginsWith(all, values, base) && IsSuffix(rest, all)
    ensures BeginsWith(rest, values, base + |all| - |rest|)
  {
    if rest != all {
      BeginsLater(all[..|all| - |rest|], rest, all, values, base);
    }
  }

  lemma CarriedIsHeld(log: Log, values: seq<string>, base: int, o: int)
    requires Carries(log, values, base) && base <= o < |values|
    ensures Message(o, values[o]) in log.cache
  {
    assert RecordAt(log.cache, values, base, o - base);
    assert log.cache[o - base] == Message(o, values[o]);
  }

  lemma GoodIsComplete(limits: Limits, log: Log)
    requires GoodSegments(log) && GoodFiles(limits, log.disk)
    ensures Complete(log)
  {
    forall id | id in log.disk
      ensures Terminated(log.disk[id].content)
    {
      assert GoodFile(limits, log.disk[id].content);
      IntactTerminated(log.disk[id].content);
    }
  }

  lemma GoodCarries(limits: Limits, log: Log, values: seq<string>)
    requires Inv(limits, log) && Represents(log, values)
    ensures Lasting(log, values, |values| - |log.cache|)
  {
    var base := |values| - |log.cache|;
    GoodIsComplete(limits, log);
    SliceBegins(log.cache, values, base);
    SameCarries(log, values, base);
  }

  lemma SliceBegins(cache: seq<Message>, values: seq<string>, base: int)
    requires 0 <= base <= |values| && cache == PartitionHistory.Slice(values, base, |values|)
    ensures BeginsWith(cache, values, base)
  {
  }

  lemma SameCarries(log: Log, values: seq<string>, base: int)
    requires BeginsWith(log.cache, values, base) && OnDisk(log) == log.cache
    ensures Carries(log, values, base)
  {
  }

  // ---- Appends ----

  lemma RotatedLoaded(log: Log)
    requires Listed(log)
    ensures OnDisk(log.(active := log.active + 1, segments := log.segments + [log.active + 1])) == OnDisk(log)
  {
    RotatedLoads(log.disk, log.segments, log.active);
  }

  lemma RotatedOnDisk(log: Log, r: Log)
    requires Listed(log)
    requires RotatedOrNot(log, r)
    ensures OnDisk(r) == OnDisk(log)
  {
    RotatedLoaded(log);
  }

  lemma WrittenOnDisk(r: Log, file: File)
    requires Listed(r) && LoadFile(r.disk, r.active) <= Load(file.content)
    ensures OnDisk(r) <= LoadAll(r.disk[r.active := file], r.segments)
  {
    var n := |r.segments| - 1;
    var disk := r.disk[r.active := file];
    assert r.active !in r.segments[..n];
    LoadAllFrame(disk, r.disk, r.segments[..n]);
    PrefixConcat(LoadAll(r.disk, r.segments[..n]), LoadFile(r.disk, r.active), Load(file.content));
  }

  lemma PrefixConcat<T>(a: seq<T>, b: seq<T>, c: seq<T>)
    requires b <= c
    ensures a + b <= a + c
  {
  }

  /** Memory and files only gained records. */
  ghost predicate Grown(log: Log, after: Log) {
    Complete(after) && Longer(log, after)
  }

  predicate Longer(log: Log, after: Log) {
    log.cache <= after.cache && OnDisk(log) <= OnDisk(after)
  }

  lemma GrownCarries(log: Log, after: Log, values: seq<string>, base: int)
    requires Carries(log, values, base) && Grown(log, after)
    ensures Carries(after, values, base)
  {
    BeginsLonger(log.cache, after.cache, values, base);
    BeginsLonger(OnDisk(log), OnDisk(after), values, base);
  }

  lemma WriteGrows(r: Log, line: string, now: int)
    requires Listed(r) && Terminated(line) && AllTerminated(r.disk)
    ensures var w := Write(r, line, now); Complete(w) && OnDisk(r) <= OnDisk(w)
  {
    var w, file := Write(r, line, now), File(ActiveContent(r) + line, now);
    LoadGrows(ActiveContent(r), line);
    EmptyFile(r);
    WrittenOnDisk(r, file);
    WrittenListed(r, w, file);
    WrittenTerminated(r, file);
  }

  ghost predicate AllTerminated(disk: map<int, File>) {
    forall id :: id in disk ==> Terminated(disk[id].content)
  }

  lemma WrittenTerminated(r: Log, file: File)
    requires Terminated(file.content) && AllTerminated(r.disk)
    ensures AllTerminated(r.disk[r.active := file])
  {
  }

  predicate RotatedOrNot(log: Log, r: Log) {
    r == log || r == log.(active := log.active + 1, segments := log.segments + [log.active + 1])
  }

  lemma WrittenGrows(log: Log, r: Log, line: string, m: Message, now: int)
    requires Complete(log) && Terminated(line) && RotatedOrNot(log, r)
    ensures Grown(log, Remember(Write(r, line, now), m))
  {
    RotatedListed(log);
    RotatedOnDisk(log, r);
    WriteGrows(r, line, now);
    Remembered(Write(r, line, now), m);
  }

  /** An append adds to memory and to the files, whatever the record. */
  lemma AppendGrows(limits: Limits, log: Log, offset: int, value: string, now: int)
    requires Complete(log)
    ensures Grown(log, Append(limits, log, offset, value, now))
  {
    var line := Format(offset, now, value);
    WrittenGrows(log, Rotate(limits, log, |line|), line, Message(offset, value), now);
  }

  /** Only files and segments matter for what is on disk. */
  lemma Remembered(w: Log, m: Message)
    ensures var a := Remember(w, m); OnDisk(a) == OnDisk(w) && (Complete(w) ==> Complete(a)) && w.cache <= a.cache
  {
  }

  lemma AppendLasts(limits: Limits, log: Log, offset: int, value: string, now: int, values: seq<string>, base: int)
    ensures Lasting(log, values, base) ==> Lasting(Append(limits, log, offset, value, now), values, base)
  {
    if Lasting(log, values, base) {
      AppendGrows(limits, log, offset, value, now);
      GrownCarries(log, Append(limits, log, offset, value, now), values, base);
    }
  }

  // ---- Retention ----

  /** What a retention pass does to any log: the files lose an oldest run of records, and memory is
      either rebuilt from them or left alone with nothing lost. */
  ghost predicate Trimmed(before: Log, after: Log) {
    && IsSuffix(OnDisk(after), OnDisk(before))
    && (after.cache == OnDisk(after) || (after.cache == before.cache && OnDisk(after) == OnDisk(before)))
  }

  lemma TrimmedTransitive(a: Log, b: Log, c: Log)
    requires Trimmed(a, b) && Trimmed(b, c)
    ensures Trimmed(a, c)
  {
    SuffixTransitive(OnDisk(c), OnDisk(b), OnDisk(a));
  }

  /** How many records it took out of the files. */
  function Lost(before: Log, after: Log): int {
    |OnDisk(before)| - |OnDisk(after)|
  }

  lemma TrimmedBegins(cache: seq<Message>, files: seq<Message>, newCache: seq<Message>, newFiles: seq<Message>,
                      values: seq<string>, base: int, lost: int)
    requires BeginsWith(cache, values, base) && BeginsWith(files, values, base) && IsSuffix(newFiles, files)
    requires newCache == newFiles || (newCache == cache && newFiles == files)
    requires lost == |files| - |newFiles|
    ensures lost >= 0 && BeginsWith(newCache, values, base + lost) && BeginsWith(newFiles, values, base + lost)
  {
    BeginsSuffix(files, newFiles, values, base);
  }

  ghost predicate CarriesAfter(before: Log, after: Log, values: seq<string>, base: int) {
    Lost(before, after) >= 0 && Carries(after, values, base + Lost(before, after))
  }

  lemma TrimmedCarries(log: Log, r: Log, values: seq<string>, base: int)
    requires Carries(log, values, base) && Trimmed(log, r)
    ensures CarriesAfter(log, r, values, base)
  {
    TrimmedBegins(log.cache, OnDisk(log), r.cache, OnDisk(r), values, base, Lost(log, r));
  }

  lemma DeletedComplete(log: Log)
    requires Complete(log) && |log.segments| > 1
    ensures Complete(DeleteOldest(log)) && Complete(DropOldest(log))
  {
    StorageEngine.DropKeepsSegments(log);
  }

  lemma SuffixOfConcat<T>(front: seq<T>, rest: seq<T>, all: seq<T>)
    requires all == front + rest
    ensures IsSuffix(rest, all)
  {
    assert front == [] ==> front + rest == rest;
  }

  lemma DropTrims(log: Log)
    requires Complete(log) && |log.segments| > 1
    ensures Trimmed(log, DeleteOldest(log)) && Trimmed(log, DropOldest(log))
  {
    var first, rest := LoadFile(log.disk, log.segments[0]), LoadAll(log.disk, log.segments[1..]);
    LoadAllCons(log.disk, log.segments);
    DeletedLoads(log);
    SuffixOfConcat(first, rest, OnDisk(log));
    assert log.segments[0] !in log.disk ==> [] + rest == rest;
  }

  lemma {:induction false} AgeTrims(log: Log, cutoff: Option<int>)
    requires Complete(log)
    ensures Complete(AgeRetain(log, cutoff)) && Trimmed(log, AgeRetain(log, cutoff))
    decreases |log.segments|
  {
    if cutoff.None? || |log.segments| <= 1 || TooYoung(log, cutoff.value) {
      assert AgeRetain(log, cutoff) == log;
    } else {
      var d, r := DropOldest(log), AgeRetain(log, cutoff);
      DropTrims(log);
      DeletedComplete(log);
      assert r == AgeRetain(d, cutoff);
      AgeTrims(d, cutoff);
      TrimmedTransitive(log, d, r);
    }
  }

  lemma {:induction false} SizeTrims(log: Log, maxBytes: int)
    requires Complete(log)
    ensures Complete(SizeRetain(log, maxBytes)) && Trimmed(log, SizeRetain(log, maxBytes))
    decreases |log.segments|
  {
    if TotalSize(log.disk, log.segments) <= maxBytes || |log.segments| <= 1 {
      assert SizeRetain(log, maxBytes) == log;
    } else {
      var d, r := DeleteOldest(log), SizeRetain(log, maxBytes);
      DropTrims(log);
      DeletedComplete(log);
      assert r == SizeRetain(d, maxBytes);
      SizeTrims(d, maxBytes);
      TrimmedTransitive(log, d, r);
    }
  }

  /** A retention pass over any files, readable or not. */
  lemma RetainTrims(limits: Limits, log: Log, now: int)
    requires Complete(log)
    ensures Complete(Retain(limits, log, now)) && Trimmed(log, Retain(limits, log, now))
  {
    var aged := AgeRetain(log, Cutoff(limits, now));
    AgeTrims(log, Cutoff(limits, now));
    if limits.retentionMaxBytes > 0 {
      SizeTrims(aged, limits.retentionMaxBytes);
      TrimmedTransitive(log, aged, SizeRetain(aged, limits.retentionMaxBytes));
    }
  }

  // ---- Recovery ----

  lemma RecoverLoadsAll(log: Log)
    requires Complete(log)
    ensures var r := Recover(log.disk); Complete(r) && r.cache == OnDisk(r) == OnDisk(log)
  {
    var ids := SortedInts(log.disk.Keys);
    IdsLoad(log, ids);
    FirstId(log, ids);
    LoadEntriesRecover(log.disk, ids);
    SeededLoads(log.disk, ids);
    StorageEngine.RecoveredSegments(log.disk, ids);
  }

  lemma RecoverLasts(log: Log, values: seq<string>, base: int)
    ensures Lasting(log, values, base) ==> Lasting(Recover(log.disk), values, base)
  {
    if Lasting(log, values, base) {
      RecoverLoadsAll(log);
    }
  }

  // ---- Operations ----

  /** The log that an operation's retention pass starts from. */
  ghost function Unretained(limits: Limits, log: Log, op: Op): Log {
    match op
    case ProduceOp(value, now) => Append(limits, log, log.nextOffset, value, now)
    case ReplicateOp(offset, value, now) =>
      if offset == log.nextOffset then Append(limits, log, offset, value, now) else log
    case RetainOp(now) => log
    case RestartOp(now) => Recover(log.disk)
  }

  /** The base after an operation: it moves by the records its retention pass takes out of the files. */
  ghost function Rebase(limits: Limits, log: Log, op: Op, base: int): int {
    base + Lost(Unretained(limits, log, op), Step(limits, log, op))
  }

  lemma StepTrims(limits: Limits, log: Log, op: Op)
    requires Complete(Unretained(limits, log, op))
    ensures Complete(Step(limits, log, op)) && Trimmed(Unretained(limits, log, op), Step(limits, log, op))
  {
    var u := Unretained(limits, log, op);
    RetainTrims(limits, u, op.now);
    assert Step(limits, log, op) == Retain(limits, u, op.now) || Step(limits, log, op) == u;
  }

  lemma UnretainedLasts(limits: Limits, log: Log, op: Op, values: seq<string>, base: int)
    requires Lasting(log, values, base)
    ensures Lasting(Unretained(limits, log, op), values, base)
  {
    match op
    case ProduceOp(value, now) => AppendLasts(limits, log, log.nextOffset, value, now, values, base);
    case ReplicateOp(offset, value, now) => AppendLasts(limits, log, offset, value, now, values, base);
    case RetainOp(now) =>
    case RestartOp(now) => RecoverLasts(log, values, base);
  }

  lemma AfterMeans(u: Log, r: Log, values: seq<string>, base: int, after: int)
    ensures CarriesAfter(u, r, values, base) && after == base + Lost(u, r) ==>
              base <= after && Carries(r, values, after)
  {
  }

  /** Every operation, readable or not, keeps what the log carries but for what its retention drops. */
  lemma StepLasts(limits: Limits, log: Log, op: Op, values: seq<string>, base: int)
    ensures Lasting(log, values, base) ==>
              && base <= Rebase(limits, log, op, base)
              && Lasting(Step(limits, log, op), values, Rebase(limits, log, op, base))
  {
    if Lasting(log, values, base) {
      UnretainedLasts(limits, log, op, values, base);
      StepTrims(limits, log, op);
      TrimmedCarries(Unretained(limits, log, op), Step(limits, log, op), values, base);
      AfterMeans(Unretained(limits, log, op), Step(limits, log, op), values, base, Rebase(limits, log, op, base));
    }
  }

  lemma StoredLoads(limits: Limits, log: Log, value: string, now: int)
    requires Inv(limits, log) && Readable(log.nextOffset, now, value)
    ensures |OnDisk(Append(limits, log, log.nextOffset, value, now))| == |log.cache| + 1
  {
    AppendKeeps(limits, log, value, now);
  }

  lemma RecoveredLoads(limits: Limits, log: Log)
    requires Inv(limits, log)
    ensures |OnDisk(Recover(log.disk))| == |log.cache|
  {
    RecoverKeeps(limits, log);
  }

  lemma UnretainedLoads(limits: Limits, log: Log, op: Op)
    requires Inv(limits, log) && ReadableStep(log, op)
    ensures |OnDisk(Unretained(limits, log, op))| == |log.cache| + |Added(log, op)|
  {
    if op.RestartOp? {
      RecoveredLoads(limits, log);
    } else if Added(log, op) == [] {
      assert Unretained(limits, log, op) == log;
    } else {
      assert Unretained(limits, log, op) == Append(limits, log, log.nextOffset, op.value, op.now);
      StoredLoads(limits, log, op.value, op.now);
    }
  }

  /** On a good log the base moves by exactly what retention drops. */
  lemma RetentionMovesBase(limits: Limits, log: Log, op: Op, values: seq<string>)
    requires Inv(limits, log) && Represents(log, values) && ReadableStep(log, op)
    ensures |values + Added(log, op)| - |Step(limits, log, op).cache|
            == Rebase(limits, log, op, |values| - |log.cache|)
  {
    UnretainedLoads(limits, log, op);
    StepKeeps(limits, log, op, values);
  }
}
