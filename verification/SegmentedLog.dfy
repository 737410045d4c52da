/** One partition of the storage engine: a cache of records over segment files, with rotation,
    age and size retention, rebuild and recovery. File operations succeed. */
module SegmentedLog {
  import opened Text
  import opened LogLine
  import opened Ordering
  import PartitionHistory

  datatype File = File(content: string, modTime: int)

  datatype Limits = Limits(segmentMaxBytes: int, retentionMaxBytes: int, retentionMaxAge: int)

  /** In-memory state and the partition's files, by segment id. */
  datatype Log = Log(
    cache: seq<Message>, nextOffset: int, active: int, segments: seq<int>, disk: map<int, File>)

  /** ensurePartitionState's initial state over the given files. */
  function Fresh(disk: map<int, File>): Log {
    Log([], 0, 0, [0], disk)
  }

  // ---- Loading ----

  function LoadFile(disk: map<int, File>, id: int): seq<Message> {
    if id in disk then Load(disk[id].content) else []
  }

  function LoadAll(disk: map<int, File>, segments: seq<int>): seq<Message> {
    if segments == [] then []
    else LoadAll(disk, segments[..|segments| - 1]) + LoadFile(disk, segments[|segments| - 1])
  }

  /** loadSegment's effect on nextOffset. */
  function Advance(next: int, messages: seq<Message>): int {
    if messages == [] then next
    else
      var before := Advance(next, messages[..|messages| - 1]);
      var offset := messages[|messages| - 1].offset;
      if before <= offset then offset + 1 else before
  }

  /** rebuildPartitionFromSegments. */
  function Rebuild(log: Log): Log {
    var messages := LoadAll(log.disk, log.segments);
    log.(cache := messages, nextOffset := Advance(0, messages))
  }

  // ---- Appending ----

  function Size(disk: map<int, File>, id: int): int {
    if id in disk then |disk[id].content| else 0
  }

  /** shouldRotate and the rotation it triggers. */
  function Rotate(limits: Limits, log: Log, bytes: int): Log {
    if log.active in log.disk && Size(log.disk, log.active) + bytes > limits.segmentMaxBytes
    then log.(active := log.active + 1, segments := log.segments + [log.active + 1])
    else log
  }

  function Write(log: Log, line: string, now: int): Log {
    log.(disk := log.disk[log.active := File(ActiveContent(log) + line, now)])
  }

  function Remember(log: Log, m: Message): Log {
    log.(cache := log.cache + [m], nextOffset := m.offset + 1)
  }

  /** The body that ProduceToPartition and AppendReplicated share, without retention. */
  function Append(limits: Limits, log: Log, offset: int, value: string, now: int): Log {
    var line := Format(offset, now, value);
    Remember(Write(Rotate(limits, log, |line|), line, now), Message(offset, value))
  }

  // ---- Retention ----

  /** deleteSegment applied to the oldest segment. */
  function DeleteOldest(log: Log): Log
    requires log.segments != []
  {
    Rebuild(log.(disk := log.disk - {log.segments[0]}, segments := log.segments[1..]))
  }

  /** One turn of applyAgeRetention: a segment without a file is only forgotten. */
  function DropOldest(log: Log): Log
    requires log.segments != []
  {
    if log.segments[0] !in log.disk then log.(segments := log.segments[1..]) else DeleteOldest(log)
  }

  /** applyAgeRetention's cutoff, if age retention is configured. */
  function Cutoff(limits: Limits, now: int): Option<int> {
    if limits.retentionMaxAge <= 0 then None else Some(now - limits.retentionMaxAge)
  }

  predicate TooYoung(log: Log, cutoff: int)
    requires log.segments != []
  {
    log.segments[0] in log.disk && log.disk[log.segments[0]].modTime > cutoff
  }

  /** applyAgeRetention. */
  function AgeRetain(log: Log, cutoff: Option<int>): Log
    decreases |log.segments|
  {
    if cutoff.None? || |log.segments| <= 1 || TooYoung(log, cutoff.value) then log
    else AgeRetain(DropOldest(log), cutoff)
  }

  function TotalSize(disk: map<int, File>, segments: seq<int>): int {
    if segments == [] then 0
    else TotalSize(disk, segments[..|segments| - 1]) + Size(disk, segments[|segments| - 1])
  }

  /** applySizeRetention past its configuration check. */
  function SizeRetain(log: Log, maxBytes: int): Log
    decreases |log.segments|
  {
    if TotalSize(log.disk, log.segments) <= maxBytes || |log.segments| <= 1 then log
    else SizeRetain(DeleteOldest(log), maxBytes)
  }

  /** enforceRetentionLocked for one partition. */
  function Retain(limits: Limits, log: Log, now: int): Log {
    var aged := AgeRetain(log, Cutoff(limits, now));
    if limits.retentionMaxBytes <= 0 then aged else SizeRetain(aged, limits.retentionMaxBytes)
  }

  // ---- Public operations ----

  /** ProduceToPartition; the offset it returns is the old nextOffset. */
  function Produce(limits: Limits, log: Log, value: string, now: int): Log {
    Retain(limits, Append(limits, log, log.nextOffset, value, now), now)
  }

  /** AppendReplicated; None is its non-contiguous error, which leaves the log alone. */
  function AppendReplicated(limits: Limits, log: Log, offset: int, value: string, now: int): Option<Log> {
    if offset < log.nextOffset then Some(log)
    else if offset > log.nextOffset then None
    else Some(Retain(limits, Append(limits, log, offset, value, now), now))
  }

  /** One entry of loadData's loop. */
  function LoadEntry(log: Log, id: int): Log {
    var messages := LoadFile(log.disk, id);
    log.(segments := if log.segments == []
        || log.segments[|log.segments| - 1] != id then log.segments + [id] else log.segments,
         active := if id > log.active then id else log.active,
         cache := log.cache + messages,
         nextOffset := Advance(log.nextOffset, messages))
  }

  function LoadEntries(log: Log, ids: seq<int>): Log {
    if ids == [] then log else LoadEntry(LoadEntries(log, ids[..|ids| - 1]), ids[|ids| - 1])
  }

  /** loadData on the files of one partition. */
  ghost function Recover(disk: map<int, File>): Log {
    LoadEntries(Fresh(disk), SortedInts(disk.Keys))
  }

  /** NewStorage: recovery and then a retention pass. */
  ghost function Restart(limits: Limits, log: Log, now: int): Log {
    Retain(limits, Recover(log.disk), now)
  }

  // ---- The invariant ----

  ghost predicate Contiguous(messages: seq<Message>) {
    forall i :: 0 <= i < |messages| ==> messages[i].offset == messages[0].offset + i
  }

  ghost predicate GoodFile(limits: Limits, content: string) {
    && Intact(content)
    && Load(content) != []
    && (|content| <= limits.segmentMaxBytes || |Load(content)| == 1)
  }

  ghost predicate GoodFiles(limits: Limits, disk: map<int, File>) {
    forall id :: id in disk ==> GoodFile(limits, disk[id].content)
  }

  /** Segment ids ascend to the active one, and every file has its segment. */
  ghost predicate Listed(log: Log) {
    && log.segments != []
    && Increasing(log.segments)
    && log.segments[0] >= 0
    && log.segments[|log.segments| - 1] == log.active
    && (forall id :: id in log.disk ==> id in log.segments)
  }

  ghost predicate GoodSegments(log: Log) {
    Listed(log) && (log.active in log.disk || (log.disk == map[] && log.segments == [0]))
  }

  ghost predicate GoodCache(log: Log) {
    && Contiguous(log.cache)
    && (log.cache != [] ==> log.cache[0].offset >= 0)
    && log.nextOffset == if log.cache == [] then 0 else log.cache[0].offset + |log.cache|
  }

  /** The cache is the concatenation of the retained segments, offsets are contiguous, and every
      file is within the segment limit or holds one record. */
  ghost predicate Inv(limits: Limits, log: Log) {
    && GoodSegments(log)
    && GoodFiles(limits, log.disk)
    && log.cache == LoadAll(log.disk, log.segments)
    && GoodCache(log)
  }

  // ---- Loading lemmas ----

  lemma {:induction false} LoadAllFrame(a: map<int, File>, b: map<int, File>, segments: seq<int>)
    requires forall id :: id in segments ==> LoadFile(a, id) == LoadFile(b, id)
    ensures LoadAll(a, segments) == LoadAll(b, segments)
  {
    if segments == [] {
    } else {
      LoadAllFrame(a, b, segments[..|segments| - 1]);
    }
  }

  lemma LoadAllSnoc(disk: map<int, File>, segments: seq<int>, id: int)
    ensures LoadAll(disk, segments + [id]) == LoadAll(disk, segments) + LoadFile(disk, id)
  {
    assert (segments + [id])[..|segments|] == segments;
  }

  lemma {:induction false} LoadAllCons(disk: map<int, File>, segments: seq<int>)
    requires segments != []
    ensures LoadAll(disk, segments) == LoadFile(disk, segments[0]) + LoadAll(disk, segments[1..])
  {
    var n := |segments| - 1;
    if n == 0 {
      assert segments[..0] == [] && segments[1..] == [];
    } else {
      var first, last, middle := LoadFile(disk, segments[0]), LoadFile(disk, segments[n]), segments[1..][..n - 1];
      assert segments[..n][1..] == middle && segments[1..][n - 1] == segments[n];
      calc {
        LoadAll(disk, segments);
        LoadAll(disk, segments[..n]) + last;
        { LoadAllCons(disk, segments[..n]); }
        first + LoadAll(disk, middle) + last;
        { ConcatAssociative(first, LoadAll(disk, middle), last); }
        first + (LoadAll(disk, middle) + last);
      }
    }
  }

  lemma {:induction false} AdvanceConcat(next: int, a: seq<Message>, b: seq<Message>)
    ensures Advance(next, a + b) == Advance(Advance(next, a), b)
  {
    if b == [] {
      assert a + b == a;
    } else {
      assert (a + b)[..|a + b| - 1] == a + b[..|b| - 1];
      AdvanceConcat(next, a, b[..|b| - 1]);
    }
  }

  lemma {:induction false} AdvanceContiguous(messages: seq<Message>)
    requires Contiguous(messages) && (messages != [] ==> messages[0].offset >= 0)
    ensures Advance(0, messages) == if messages == [] then 0 else messages[0].offset + |messages|
  {
    if messages == [] {
    } else {
      AdvanceContiguous(messages[..|messages| - 1]);
    }
  }

  // ---- Appends ----

  /** A log about to be written: its active segment may not have a file yet. */
  ghost predicate Writable(limits: Limits, r: Log) {
    && Listed(r)
    && GoodFiles(limits, r.disk)
    && r.cache == LoadAll(r.disk, r.segments)
    && GoodCache(r)
  }

  lemma RotateKeeps(limits: Limits, log: Log, bytes: int)
    requires Inv(limits, log)
    ensures var r := Rotate(limits, log, bytes);
            && Writable(limits, r)
            && r.cache == log.cache && r.nextOffset == log.nextOffset
            && (r.active in r.disk ==> Size(r.disk, r.active) + bytes <= limits.segmentMaxBytes)
  {
    if Rotate(limits, log, bytes) != log {
      RotatedWritable(limits, log);
    }
  }

  lemma RotatedWritable(limits: Limits, log: Log)
    requires Inv(limits, log)
    ensures Writable(limits, log.(active := log.active + 1, segments := log.segments + [log.active + 1]))
    ensures log.active + 1 !in log.disk
  {
    RotatedListed(log);
    RotatedLoads(log.disk, log.segments, log.active);
  }

  lemma RotatedLoads(disk: map<int, File>, segments: seq<int>, active: int)
    requires segments != [] && Increasing(segments) && segments[|segments| - 1] == active
    requires forall id :: id in disk ==> id in segments
    ensures active + 1 !in disk && LoadAll(disk, segments + [active + 1]) == LoadAll(disk, segments)
  {
    NextSegment(segments, active);
    LoadAllSnoc(disk, segments, active + 1);
    assert LoadFile(disk, active + 1) == [];
  }

  lemma RotatedListed(log: Log)
    requires Listed(log)
    ensures Listed(log.(active := log.active + 1, segments := log.segments + [log.active + 1]))
  {
    NextSegment(log.segments, log.active);
  }

  lemma WrittenListed(r: Log, w: Log, file: File)
    requires Listed(r) && w.segments == r.segments && w.active == r.active && w.disk == r.disk[r.active := file]
    ensures GoodSegments(w)
  {
    assert r.active in r.segments;
  }

  lemma NextSegment(segments: seq<int>, active: int)
    requires segments != [] && Increasing(segments) && segments[|segments| - 1] == active
    ensures Increasing(segments + [active + 1]) && active + 1 !in segments
  {
    assert forall i :: 0 <= i < |segments| ==> segments[i] <= active;
  }

  function ActiveContent(log: Log): string {
    if log.active in log.disk then log.disk[log.active].content else ""
  }

  lemma GrownFile(limits: Limits, content: string, offset: int, value: string, now: int)
    requires Readable(offset, now, value)
    requires content == "" || (GoodFile(limits, content)
             && |content| + |Format(offset, now, value)| <= limits.segmentMaxBytes)
    ensures GoodFile(limits, content + Format(offset, now, value))
    ensures Load(content + Format(offset, now, value)) == Load(content) + [Message(offset, value)]
  {
    AppendedLineLoads(content, offset, now, value);
    if content == "" {
      assert Load(content) == [];
    }
  }

  lemma GrownCache(log: Log, m: Message)
    requires GoodCache(log) && m.offset == log.nextOffset
    ensures GoodCache(log.(cache := log.cache + [m], nextOffset := m.offset + 1))
  {
  }

  /** Replacing the active file adds a record to what the segments load exactly when it adds it
      to what the file loads. */
  lemma WriteLoads(r: Log, content: string, now: int, m: Message)
    requires r.segments != [] && Increasing(r.segments) && r.segments[|r.segments| - 1] == r.active
    ensures LoadAll(r.disk[r.active := File(content, now)], r.segments) == LoadAll(r.disk, r.segments) + [m]
            <==> Load(content) == LoadFile(r.disk, r.active) + [m]
  {
    var n := |r.segments| - 1;
    var disk := r.disk[r.active := File(content, now)];
    var front, last := LoadAll(r.disk, r.segments[..n]), LoadFile(r.disk, r.active);
    assert r.active !in r.segments[..n];
    LoadAllFrame(disk, r.disk, r.segments[..n]);
    assert LoadAll(disk, r.segments) == front + Load(content);
    ConcatAssociative(front, last, [m]);
    CancelPrefix(front, Load(content), last + [m]);
  }

  lemma InvAfterWrite(limits: Limits, r: Log, content: string, now: int, m: Message)
    requires Writable(limits, r) && m.offset == r.nextOffset
    requires GoodFile(limits, content) && Load(content) == LoadFile(r.disk, r.active) + [m]
    ensures Inv(limits, r.(disk := r.disk[r.active := File(content, now)], cache := r.cache + [m],
            nextOffset := m.offset + 1))
  {
    WriteLoads(r, content, now, m);
    GrownCache(r, m);
    var a := r.(disk := r.disk[r.active := File(content, now)], cache := r.cache + [m], nextOffset := m.offset + 1);
    WrittenListed(r, a, File(content, now));
    WrittenFiles(limits, r.disk, r.active, File(content, now));
  }

  lemma WrittenFiles(limits: Limits, disk: map<int, File>, id: int, file: File)
    requires GoodFiles(limits, disk) && GoodFile(limits, file.content)
    ensures GoodFiles(limits, disk[id := file])
  {
  }

  /** A readable append keeps the invariant and adds exactly its record. */
  lemma AppendKeeps(limits: Limits, log: Log, value: string, now: int)
    requires Inv(limits, log) && Readable(log.nextOffset, now, value)
    ensures var a := Append(limits, log, log.nextOffset, value, now);
            && Inv(limits, a)
            && a.cache == log.cache + [Message(log.nextOffset, value)]
            && a.nextOffset == log.nextOffset + 1
  {
    var line := Format(log.nextOffset, now, value);
    var r := Rotate(limits, log, |line|);
    RotateKeeps(limits, log, |line|);
    GrownFile(limits, ActiveContent(r), log.nextOffset, value, now);
    InvAfterWrite(limits, r, ActiveContent(r) + line, now, Message(log.nextOffset, value));
  }

  lemma AppendKeepsSegments(limits: Limits, log: Log, offset: int, value: string, now: int)
    requires GoodSegments(log)
    ensures GoodSegments(Append(limits, log, offset, value, now))
  {
    var line := Format(offset, now, value);
    var r := Rotate(limits, log, |line|);
    RotatedListed(log);
    WrittenListed(r, Append(limits, log, offset, value, now), File(ActiveContent(r) + line, now));
  }

  /** After any append to a good log, the files load back to the cache if and only if the record
      was readable. */
  lemma AppendReadableIff(limits: Limits, log: Log, value: string, now: int)
    requires Inv(limits, log)
    ensures var a := Append(limits, log, log.nextOffset, value, now);
            LoadAll(a.disk, a.segments) == a.cache <==> Readable(log.nextOffset, now, value)
  {
    var line := Format(log.nextOffset, now, value);
    var r := Rotate(limits, log, |line|);
    RotateKeeps(limits, log, |line|);
    AppendedLineLoads(ActiveContent(r), log.nextOffset, now, value);
    WriteLoads(r, ActiveContent(r) + line, now, Message(log.nextOffset, value));
    EmptyFile(r);
  }

  lemma EmptyFile(r: Log)
    ensures Load(ActiveContent(r)) == LoadFile(r.disk, r.active)
  {
  }

  // ---- Retention ----

  /** What a retention pass may do: drop an oldest run of segments with their files and records,
      never the active segment, and never move the next offset. */
  ghost predicate Retained(before: Log, after: Log) {
    && IsSuffix(after.segments, before.segments)
    && IsSuffix(after.cache, before.cache)
    && (before.cache != [] ==> after.cache != [])
    && after.nextOffset == before.nextOffset
    && after.active == before.active
    && (forall id :: id in after.disk <==> id in before.disk && id in after.segments)
    && (forall id :: id in after.disk ==> after.disk[id] == before.disk[id])
  }

  lemma RetainedTransitive(a: Log, b: Log, c: Log)
    requires Retained(a, b) && Retained(b, c)
    ensures Retained(a, c)
  {
    SuffixTransitive(c.segments, b.segments, a.segments);
    SuffixTransitive(c.cache, b.cache, a.cache);
  }

  lemma TailSegments(log: Log)
    requires GoodSegments(log) && |log.segments| > 1
    ensures Increasing(log.segments[1..]) && log.segments[1..][0] >= 0
    ensures log.segments[1..][|log.segments| - 2] == log.active
    ensures log.segments[0] !in log.segments[1..]
    ensures forall id :: id in log.segments && id != log.segments[0] ==> id in log.segments[1..]
  {
    var tail := log.segments[1..];
    assert log.segments == [log.segments[0]] + tail;
    assert log.segments[0] <= log.segments[1];
    assert forall i :: 0 <= i < |tail| ==> tail[i] == log.segments[i + 1];
  }

  /** The active segment's file keeps every remaining suffix of segments non-empty. */
  lemma TailLoads(limits: Limits, log: Log)
    requires Inv(limits, log) && |log.segments| > 1
    ensures LoadAll(log.disk, log.segments[1..]) != []
    ensures log.cache == LoadFile(log.disk, log.segments[0]) + LoadAll(log.disk, log.segments[1..])
  {
    TailSegments(log);
    LoadAllCons(log.disk, log.segments);
    var tail := log.segments[1..];
    var front := LoadAll(log.disk, tail[..|tail| - 1]);
    assert LoadAll(log.disk, tail) == front + LoadFile(log.disk, log.active);
  }

  lemma SuffixCache(log: Log, front: seq<Message>, rest: seq<Message>)
    requires GoodCache(log) && log.cache == front + rest && rest != []
    ensures GoodCache(log.(cache := rest))
    ensures IsSuffix(rest, log.cache)
  {
    assert front == [] ==> front + rest == rest;
    assert forall i :: 0 <= i < |rest| ==> rest[i] == log.cache[|front| + i];
  }

  lemma DeletedLoads(log: Log)
    requires GoodSegments(log) && |log.segments| > 1
    ensures LoadAll(log.disk - {log.segments[0]}, log.segments[1..]) == LoadAll(log.disk, log.segments[1..])
  {
    TailSegments(log);
    LoadAllFrame(log.disk, log.disk - {log.segments[0]}, log.segments[1..]);
  }

  lemma RestOfCache(limits: Limits, log: Log)
    requires Inv(limits, log) && |log.segments| > 1
    ensures var rest := LoadAll(log.disk, log.segments[1..]);
            rest != [] && GoodCache(log.(cache := rest)) && IsSuffix(rest, log.cache)
  {
    TailLoads(limits, log);
    SuffixCache(log, LoadFile(log.disk, log.segments[0]), LoadAll(log.disk, log.segments[1..]));
  }

  /** Deleting the oldest segment changes only the records, the segments and the files. */
  lemma DeletedLog(log: Log, rest: seq<Message>)
    requires GoodSegments(log) && |log.segments| > 1
    requires rest == LoadAll(log.disk, log.segments[1..]) && rest != [] && GoodCache(log.(cache := rest))
    ensures DeleteOldest(log) == log.(cache := rest, segments := log.segments[1..],
            disk := log.disk - {log.segments[0]})
    ensures LoadAll(log.disk - {log.segments[0]}, log.segments[1..]) == rest
  {
    DeletedLoads(log);
    AdvanceContiguous(rest);
  }

  lemma DeletedFiles(limits: Limits, log: Log)
    requires GoodSegments(log) && GoodFiles(limits, log.disk) && |log.segments| > 1
    ensures GoodFiles(limits, log.disk - {log.segments[0]})
    ensures GoodSegments(log.(segments := log.segments[1..], disk := log.disk - {log.segments[0]}))
  {
    TailSegments(log);
  }

  lemma DeleteOldestKeeps(limits: Limits, log: Log)
    requires Inv(limits, log) && |log.segments| > 1
    ensures Inv(limits, DeleteOldest(log)) && Retained(log, DeleteOldest(log))
    ensures |DeleteOldest(log).segments| == |log.segments| - 1
  {
    RestOfCache(limits, log);
    DeletedLog(log, LoadAll(log.disk, log.segments[1..]));
    DeletedFiles(limits, log);
    TailSegments(log);
  }

  lemma SkipMissingKeeps(limits: Limits, log: Log)
    requires Inv(limits, log) && |log.segments| > 1 && log.segments[0] !in log.disk
    ensures Inv(limits, log.(segments := log.segments[1..]))
    ensures Retained(log, log.(segments := log.segments[1..]))
  {
    TailSegments(log);
    TailLoads(limits, log);
    var r := log.(segments := log.segments[1..]);
    assert [] + LoadAll(log.disk, r.segments) == LoadAll(log.disk, r.segments);
    assert GoodSegments(r);
  }

  lemma DropOldestKeeps(limits: Limits, log: Log)
    requires Inv(limits, log) && |log.segments| > 1
    ensures Inv(limits, DropOldest(log)) && Retained(log, DropOldest(log))
    ensures |DropOldest(log).segments| == |log.segments| - 1
  {
    if log.segments[0] !in log.disk {
      SkipMissingKeeps(limits, log);
    } else {
      DeleteOldestKeeps(limits, log);
    }
  }

  lemma RetainedReflexive(log: Log)
    requires GoodSegments(log)
    ensures Retained(log, log)
  {
  }

  lemma {:induction false} AgeRetainKeeps(limits: Limits, log: Log, cutoff: Option<int>)
    requires Inv(limits, log)
    ensures Inv(limits, AgeRetain(log, cutoff)) && Retained(log, AgeRetain(log, cutoff))
    decreases |log.segments|
  {
    if cutoff.None? || |log.segments| <= 1 || TooYoung(log, cutoff.value) {
      RetainedReflexive(log);
    } else {
      var d, r := DropOldest(log), AgeRetain(log, cutoff);
      DropOldestKeeps(limits, log);
      assert r == AgeRetain(d, cutoff);
      AgeRetainKeeps(limits, d, cutoff);
      RetainedTransitive(log, d, r);
    }
  }

  lemma {:induction false} SizeRetainKeeps(limits: Limits, log: Log, maxBytes: int)
    requires Inv(limits, log)
    ensures var r := SizeRetain(log, maxBytes);
            && Inv(limits, r) && Retained(log, r)
            && (TotalSize(r.disk, r.segments) <= maxBytes || |r.segments| == 1)
    decreases |log.segments|
  {
    if TotalSize(log.disk, log.segments) <= maxBytes || |log.segments| <= 1 {
      RetainedReflexive(log);
    } else {
      var d, r := DeleteOldest(log), SizeRetain(log, maxBytes);
      DeleteOldestKeeps(limits, log);
      assert r == SizeRetain(d, maxBytes);
      SizeRetainKeeps(limits, d, maxBytes);
      RetainedTransitive(log, d, r);
    }
  }

  /** A retention pass keeps the invariant, removes only an oldest prefix, never the active
      segment, never moves the next offset, and ends within the size limit or at one segment. */
  lemma RetainKeeps(limits: Limits, log: Log, now: int)
    requires Inv(limits, log)
    ensures var r := Retain(limits, log, now);
            && Inv(limits, r) && Retained(log, r)
            && (limits.retentionMaxBytes > 0 ==>
                  TotalSize(r.disk, r.segments) <= limits.retentionMaxBytes || |r.segments| == 1)
  {
    var aged := AgeRetain(log, Cutoff(limits, now));
    AgeRetainKeeps(limits, log, Cutoff(limits, now));
    if limits.retentionMaxBytes > 0 {
      SizeRetainKeeps(limits, aged, limits.retentionMaxBytes);
      RetainedTransitive(log, aged, SizeRetain(aged, limits.retentionMaxBytes));
    }
  }

  // ---- Recovery ----

  /** The segment list recovery builds: the files' ids after the seeded segment 0. */
  function SeededIds(ids: seq<int>): seq<int> {
    if ids != [] && ids[0] == 0 then ids else [0] + ids
  }

  function Recovered(disk: map<int, File>, ids: seq<int>): Log {
    var messages := LoadAll(disk, ids);
    Log(messages, Advance(0, messages), if ids == [] then 0 else ids[|ids| - 1], SeededIds(ids), disk)
  }

  lemma {:induction false} LoadEntriesRecover(disk: map<int, File>, ids: seq<int>)
    requires Increasing(ids) && (ids != [] ==> ids[0] >= 0)
    ensures LoadEntries(Fresh(disk), ids) == Recovered(disk, ids)
  {
    if ids == [] {
    } else {
      var n := |ids| - 1;
      var front, id := ids[..n], ids[n];
      LoadEntriesRecover(disk, front);
      RecoverEntry(disk, ids);
    }
  }

  lemma RecoverEntry(disk: map<int, File>, ids: seq<int>)
    requires ids != [] && Increasing(ids) && ids[0] >= 0
    ensures LoadEntry(Recovered(disk, ids[..|ids| - 1]), ids[|ids| - 1]) == Recovered(disk, ids)
  {
    var n := |ids| - 1;
    AdvanceConcat(0, LoadAll(disk, ids[..n]), LoadFile(disk, ids[n]));
    SeedEntry(ids);
  }

  lemma SeedEntry(ids: seq<int>)
    requires ids != [] && Increasing(ids) && ids[0] >= 0
    ensures var n := |ids| - 1;
            var front := SeededIds(ids[..n]);
            && (if front[|front| - 1] != ids[n] then front + [ids[n]] else front) == SeededIds(ids)
            && (n > 0 ==> ids[n] > ids[n - 1])
  {
    var n := |ids| - 1;
    if n == 0 {
      assert ids == [ids[0]];
    } else {
      assert ids[n - 1] <= ids[n] && ids[n - 1] != ids[n];
      assert SeededIds(ids[..n]) + [ids[n]] == SeededIds(ids);
    }
  }

  function Present(disk: map<int, File>, segments: seq<int>): seq<int> {
    if segments == [] then []
    else
      var id := segments[|segments| - 1];
      Present(disk, segments[..|segments| - 1]) + if id in disk then [id] else []
  }

  lemma GrowIncreasing(xs: seq<int>, x: int)
    requires Increasing(xs) && forall y :: y in xs ==> y < x
    ensures Increasing(xs + [x])
  {
    assert forall i :: 0 <= i < |xs| ==> xs[i] in xs;
  }

  lemma BelowLast(xs: seq<int>, front: seq<int>, last: int)
    requires Increasing(xs) && xs == front + [last]
    ensures Increasing(front)
    ensures forall y :: y in front ==> y < last
  {
    forall i, j | 0 <= i < j < |front|
      ensures front[i] < front[j]
    {
      assert xs[i] == front[i] && xs[j] == front[j];
    }
    forall y | y in front
      ensures y < last
    {
      var i :| 0 <= i < |front| && front[i] == y;
      assert xs[i] == y && xs[|front|] == last;
    }
  }

  lemma {:induction false} PresentListing(disk: map<int, File>, segments: seq<int>)
    requires Increasing(segments)
    ensures Increasing(Present(disk, segments))
    ensures forall x :: x in Present(disk, segments) <==> x in segments && x in disk
  {
    if segments == [] {
    } else {
      var n := |segments| - 1;
      assert segments == segments[..n] + [segments[n]];
      BelowLast(segments, segments[..n], segments[n]);
      PresentListing(disk, segments[..n]);
      if segments[n] in disk {
        GrowIncreasing(Present(disk, segments[..n]), segments[n]);
      }
    }
  }

  lemma {:induction false} PresentLoads(disk: map<int, File>, segments: seq<int>)
    ensures LoadAll(disk, Present(disk, segments)) == LoadAll(disk, segments)
  {
    if segments == [] {
    } else {
      var n := |segments| - 1;
      PresentLoads(disk, segments[..n]);
      if segments[n] in disk {
        LoadAllSnoc(disk, Present(disk, segments[..n]), segments[n]);
      } else {
        assert Present(disk, segments) == Present(disk, segments[..n]);
        assert LoadAll(disk, segments[..n]) + [] == LoadAll(disk, segments[..n]);
      }
    }
  }

  lemma RecoveredLog(log: Log, ids: seq<int>)
    requires GoodSegments(log) && GoodCache(log) && log.cache == LoadAll(log.disk, log.segments)
    requires Increasing(ids) && Elements(ids) == log.disk.Keys
    ensures LoadEntries(Fresh(log.disk), ids) == log.(segments := SeededIds(ids))
    ensures GoodSegments(log.(segments := SeededIds(ids)))
    ensures LoadAll(log.disk, SeededIds(ids)) == log.cache
  {
    IdsLoad(log, ids);
    FirstId(log, ids);
    LoadEntriesRecover(log.disk, ids);
    AdvanceContiguous(log.cache);
    SeededLoads(log.disk, ids);
    SeededSegments(log, ids);
  }

  /** Recovery from a good log's files gives back the same records, next offset and active
      segment; its segment list may only gain a missing segment 0. */
  lemma RecoverKeeps(limits: Limits, log: Log)
    requires Inv(limits, log)
    ensures var r := Recover(log.disk);
            && Inv(limits, r)
            && r.disk == log.disk && r.cache == log.cache && r.nextOffset == log.nextOffset && r.active == log.active
  {
    RecoveredLog(log, SortedInts(log.disk.Keys));
  }

  lemma RecoverLoads(log: Log)
    requires GoodSegments(log)
    ensures Recover(log.disk).cache == LoadAll(log.disk, log.segments)
  {
    var ids := SortedInts(log.disk.Keys);
    IdsLoad(log, ids);
    FirstId(log, ids);
    LoadEntriesRecover(log.disk, ids);
  }

  /** A restart right after an append to a good log gives back every record if and only if the
      appended one was readable. */
  lemma RecoverAppendIff(limits: Limits, log: Log, value: string, now: int)
    requires Inv(limits, log)
    ensures var a := Append(limits, log, log.nextOffset, value, now);
            Recover(a.disk).cache == a.cache <==> Readable(log.nextOffset, now, value)
  {
    AppendKeepsSegments(limits, log, log.nextOffset, value, now);
    RecoverLoads(Append(limits, log, log.nextOffset, value, now));
    AppendReadableIff(limits, log, value, now);
  }

  lemma IdsLoad(log: Log, ids: seq<int>)
    requires GoodSegments(log) && Increasing(ids) && Elements(ids) == log.disk.Keys
    ensures LoadAll(log.disk, ids) == LoadAll(log.disk, log.segments)
  {
    var p := Present(log.disk, log.segments);
    PresentListing(log.disk, log.segments);
    assert forall x :: x in Elements(p) <==> x in log.disk.Keys;
    IncreasingUnique(p, ids);
    PresentLoads(log.disk, log.segments);
  }

  lemma FirstId(log: Log, ids: seq<int>)
    requires GoodSegments(log) && Increasing(ids) && Elements(ids) == log.disk.Keys
    ensures ids == [] ==> log.disk == map[]
    ensures ids != [] ==> ids[0] >= 0 && ids[|ids| - 1] == log.active
  {
    if ids == [] {
      assert log.disk.Keys == {};
    } else {
      assert ids[0] in Elements(ids) && ids[|ids| - 1] in Elements(ids);
      assert log.disk != map[];
      assert log.active in Elements(ids);
      SegmentRange(log, ids[0]);
      SegmentRange(log, ids[|ids| - 1]);
      LastIsGreatest(ids, log.active);
    }
  }

  lemma LastIsGreatest(ids: seq<int>, id: int)
    requires Increasing(ids) && id in ids
    ensures id <= ids[|ids| - 1]
  {
    var k :| 0 <= k < |ids| && ids[k] == id;
    assert k < |ids| - 1 ==> ids[k] <= ids[|ids| - 1];
  }

  lemma SegmentRange(log: Log, id: int)
    requires GoodSegments(log) && id in log.segments
    ensures 0 <= id <= log.active
  {
    var k :| 0 <= k < |log.segments| && log.segments[k] == id;
    var n := |log.segments| - 1;
    assert 0 < k ==> log.segments[0] <= log.segments[k];
    assert k < n ==> log.segments[k] <= log.segments[n];
  }

  lemma SeededLoads(disk: map<int, File>, ids: seq<int>)
    requires Increasing(ids) && Elements(ids) == disk.Keys && (ids != [] ==> ids[0] >= 0)
    ensures LoadAll(disk, SeededIds(ids)) == LoadAll(disk, ids)
  {
    if ids == [] || ids[0] != 0 {
      assert forall i :: 0 < i < |ids| ==> ids[0] <= ids[i];
      assert 0 !in Elements(ids);
      LoadAllCons(disk, [0] + ids);
      assert ([0] + ids)[1..] == ids;
    }
  }

  lemma SeededAscending(ids: seq<int>)
    requires Increasing(ids) && (ids != [] ==> ids[0] >= 0)
    ensures Increasing(SeededIds(ids)) && SeededIds(ids)[0] >= 0
    ensures ids != [] ==> SeededIds(ids)[|SeededIds(ids)| - 1] == ids[|ids| - 1]
    ensures forall id :: id in ids ==> id in SeededIds(ids)
  {
    assert forall i :: 0 < i < |ids| ==> ids[0] <= ids[i];
  }

  lemma SeededSegments(log: Log, ids: seq<int>)
    requires GoodSegments(log) && Increasing(ids) && Elements(ids) == log.disk.Keys
    requires ids == [] ==> log.disk == map[]
    requires ids != [] ==> ids[0] >= 0 && ids[|ids| - 1] == log.active
    ensures GoodSegments(log.(segments := SeededIds(ids)))
  {
    SeededAscending(ids);
    assert forall id :: id in log.disk ==> id in Elements(ids) && id in ids;
  }

  // ---- Runs ----

  datatype Op =
    | ProduceOp(value: string, now: int)
    | ReplicateOp(offset: int, value: string, now: int)
    | RetainOp(now: int)
    | RestartOp(now: int)

  ghost function Step(limits: Limits, log: Log, op: Op): Log {
    match op
    case ProduceOp(value, now) => Produce(limits, log, value, now)
    case ReplicateOp(offset, value, now) =>
      (match AppendReplicated(limits, log, offset, value, now) case None => log case Some(r) => r)
    case RetainOp(now) => Retain(limits, log, now)
    case RestartOp(now) => Restart(limits, log, now)
  }

  ghost function Run(limits: Limits, log: Log, ops: seq<Op>): Log {
    if ops == [] then log else Step(limits, Run(limits, log, ops[..|ops| - 1]), ops[|ops| - 1])
  }

  /** The values an operation adds to the partition. */
  function Added(log: Log, op: Op): seq<string> {
    match op
    case ProduceOp(value, _) => [value]
    case ReplicateOp(offset, value, _) => if offset == log.nextOffset then [value] else []
    case RetainOp(_) => []
    case RestartOp(_) => []
  }

  ghost function AllAdded(limits: Limits, log: Log, ops: seq<Op>): seq<string> {
    if ops == [] then []
    else
      var front := ops[..|ops| - 1];
      AllAdded(limits, log, front) + Added(Run(limits, log, front), ops[|ops| - 1])
  }

  /** Every record the run appends is readable at the offset it gets. */
  ghost predicate ReadableRun(limits: Limits, log: Log, ops: seq<Op>) {
    forall k :: 0 <= k < |ops| ==> ReadableStep(Run(limits, log, ops[..k]), ops[k])
  }

  ghost predicate ReadableStep(log: Log, op: Op) {
    Added(log, op) != [] ==> Readable(log.nextOffset, op.now, Added(log, op)[0])
  }

  /** The log holds the newest of these values, each at its own index as offset, and numbers the
      next record after all of them. */
  ghost predicate Represents(log: Log, values: seq<string>) {
    && |log.cache| <= |values|
    && (values != [] ==> log.cache != [])
    && log.nextOffset == |values|
    && log.cache == PartitionHistory.Slice(values, |values| - |log.cache|, |values|)
  }

  /** The offset of the oldest record still held. */
  function Base(log: Log): int {
    log.nextOffset - |log.cache|
  }

  lemma RetainedRepresents(before: Log, after: Log, values: seq<string>)
    requires Retained(before, after) && Represents(before, values)
    ensures Represents(after, values) && Base(after) >= Base(before)
  {
    var n, kept := |before.cache|, |after.cache|;
    SliceTail(values, |values| - n, n - kept);
  }

  lemma SliceTail(values: seq<string>, from: int, drop: int)
    requires 0 <= from && 0 <= drop && from + drop <= |values|
    ensures PartitionHistory.Slice(values, from, |values|)[drop..]
            == PartitionHistory.Slice(values, from + drop, |values|)
  {
  }

  lemma AppendRepresents(log: Log, a: Log, values: seq<string>, value: string)
    requires Represents(log, values) && a.cache == log.cache + [Message(log.nextOffset, value)]
    requires a.nextOffset == log.nextOffset + 1
    ensures Represents(a, values + [value]) && Base(a) == Base(log)
  {
  }

  lemma SameRecords(log: Log, r: Log, values: seq<string>)
    requires Represents(log, values) && r.cache == log.cache && r.nextOffset == log.nextOffset
    ensures Represents(r, values) && Base(r) == Base(log)
  {
  }

  /** What one operation keeps: the invariant, the history with what was added, and the base. */
  ghost predicate Kept(limits: Limits, log: Log, r: Log, values: seq<string>) {
    Inv(limits, r) && Represents(r, values) && Base(r) >= Base(log)
  }

  lemma RetainKept(limits: Limits, base: Log, log: Log, now: int, values: seq<string>)
    requires Kept(limits, base, log, values)
    ensures Kept(limits, base, Retain(limits, log, now), values)
  {
    RetainKeeps(limits, log, now);
    RetainedRepresents(log, Retain(limits, log, now), values);
  }

  lemma AppendKept(limits: Limits, log: Log, value: string, now: int, values: seq<string>)
    requires Inv(limits, log) && Represents(log, values) && Readable(log.nextOffset, now, value)
    ensures Kept(limits, log, Append(limits, log, log.nextOffset, value, now), values + [value])
  {
    AppendKeeps(limits, log, value, now);
    AppendRepresents(log, Append(limits, log, log.nextOffset, value, now), values, value);
  }

  lemma StoreKept(limits: Limits, log: Log, value: string, now: int, values: seq<string>)
    requires Inv(limits, log) && Represents(log, values) && Readable(log.nextOffset, now, value)
    ensures Kept(limits, log, Retain(limits, Append(limits, log, log.nextOffset, value, now), now), values + [value])
  {
    AppendKept(limits, log, value, now, values);
    RetainKept(limits, log, Append(limits, log, log.nextOffset, value, now), now, values + [value]);
  }

  lemma RestartKept(limits: Limits, log: Log, now: int, values: seq<string>)
    requires Inv(limits, log) && Represents(log, values)
    ensures Kept(limits, log, Restart(limits, log, now), values)
  {
    RecoverKeeps(limits, log);
    SameRecords(log, Recover(log.disk), values);
    RetainKept(limits, log, Recover(log.disk), now, values);
  }

  lemma NothingAdded(limits: Limits, log: Log, r: Log, values: seq<string>)
    requires Kept(limits, log, r, values)
    ensures Kept(limits, log, r, values + [])
  {
    assert values + [] == values;
  }

  lemma ReplicaKept(limits: Limits, log: Log, offset: int, value: string, now: int, values: seq<string>)
    requires Inv(limits, log) && Represents(log, values) && ReadableStep(log, ReplicateOp(offset, value, now))
    ensures var op := ReplicateOp(offset, value, now);
            Kept(limits, log, Step(limits, log, op), values + Added(log, op))
  {
    if offset == log.nextOffset {
      StoreKept(limits, log, value, now, values);
    } else {
      NothingAdded(limits, log, log, values);
    }
  }

  lemma StepKeeps(limits: Limits, log: Log, op: Op, values: seq<string>)
    requires Inv(limits, log) && Represents(log, values) && ReadableStep(log, op)
    ensures Kept(limits, log, Step(limits, log, op), values + Added(log, op))
  {
    match op
    case ProduceOp(value, now) => StoreKept(limits, log, value, now, values);
    case ReplicateOp(offset, value, now) => ReplicaKept(limits, log, offset, value, now, values);
    case RetainOp(now) =>
      RetainKept(limits, log, log, now, values);
      NothingAdded(limits, log, Retain(limits, log, now), values);
    case RestartOp(now) =>
      RestartKept(limits, log, now, values);
      NothingAdded(limits, log, Restart(limits, log, now), values);
  }

  /** The storage theorem: after any run of produces, replicated appends, retention passes and
      restarts whose records are readable, the cache is the concatenation of the segment files,
      every appended value kept its own offset, the next offset counts all of them, and the base
      never moved back. */
  lemma {:induction false} RunKeeps(limits: Limits, ops: seq<Op>)
    requires ReadableRun(limits, Fresh(map[]), ops)
    ensures var r := Run(limits, Fresh(map[]), ops);
            Inv(limits, r) && Represents(r, AllAdded(limits, Fresh(map[]), ops))
  {
    if ops == [] {
      FreshKeeps(limits);
    } else {
      ReadablePrefix(limits, ops);
      RunKeeps(limits, ops[..|ops| - 1]);
      LastStep(limits, ops);
    }
  }

  lemma FreshKeeps(limits: Limits)
    ensures Inv(limits, Fresh(map[])) && Represents(Fresh(map[]), [])
  {
  }

  lemma ReadablePrefix(limits: Limits, ops: seq<Op>)
    requires ops != [] && ReadableRun(limits, Fresh(map[]), ops)
    ensures ReadableRun(limits, Fresh(map[]), ops[..|ops| - 1])
    ensures ReadableStep(Run(limits, Fresh(map[]), ops[..|ops| - 1]), ops[|ops| - 1])
  {
    var n, start := |ops| - 1, Fresh(map[]);
    var front := ops[..n];
    forall k | 0 <= k < n
      ensures ReadableStep(Run(limits, start, front[..k]), front[k])
    {
      assert front[..k] == ops[..k] && front[k] == ops[k];
    }
  }

  lemma LastStep(limits: Limits, ops: seq<Op>)
    requires ops != []
    requires var front, start := ops[..|ops| - 1], Fresh(map[]);
             && ReadableStep(Run(limits, start, front), ops[|ops| - 1])
             && Inv(limits, Run(limits, start, front))
                  && Represents(Run(limits, start, front), AllAdded(limits, start, front))
    ensures var front, start := ops[..|ops| - 1], Fresh(map[]);
            Kept(limits, Run(limits, start, front), Run(limits, start, ops), AllAdded(limits, start, ops))
  {
    var front, start := ops[..|ops| - 1], Fresh(map[]);
    StepKeeps(limits, Run(limits, start, front), ops[|ops| - 1], AllAdded(limits, start, front));
  }

  /** The simple history that readers and replication rely on, read off a log. */
  ghost predicate IsHistory(r: Log, values: seq<string>) {
    && |r.cache| <= |values|
    && r.nextOffset == |values|
    && (var h := PartitionHistory.History(values, |values| - |r.cache|);
        PartitionHistory.Valid(h) && r.cache == PartitionHistory.Cache(h))
    && PartitionHistory.LastOffset(r.cache) == |values| - 1
  }

  lemma RepresentsHistory(r: Log, values: seq<string>)
    requires Represents(r, values)
    ensures IsHistory(r, values)
  {
  }

  /** The storage engine refines the history: after any readable run its cache is the history's
      and LastOffset is the history's last index. */
  lemma RunRefinesHistory(limits: Limits, ops: seq<Op>)
    requires ReadableRun(limits, Fresh(map[]), ops)
    ensures IsHistory(Run(limits, Fresh(map[]), ops), AllAdded(limits, Fresh(map[]), ops))
  {
    RunKeeps(limits, ops);
    RepresentsHistory(Run(limits, Fresh(map[]), ops), AllAdded(limits, Fresh(map[]), ops));
  }

  /** ... and AppendReplicated ignores, accepts and refuses exactly what the history does. */
  lemma ReplicaRefinesHistory(limits: Limits, r: Log, values: seq<string>, offset: int, value: string, now: int)
    requires IsHistory(r, values)
    ensures var simple := PartitionHistory.AppendReplicated(values, offset, value);
            && simple.None? == AppendReplicated(limits, r, offset, value, now).None?
            && (simple.Some? ==> simple.value == values + Added(r, ReplicateOp(offset, value, now)))
  {
    assert values + [] == values;
  }

  /** A later state holds at least as much history and at most as old records. */
  ghost predicate Extends(early: Log, before: seq<string>, late: Log, after: seq<string>) {
    early.nextOffset <= late.nextOffset && Base(early) <= Base(late) && before <= after
  }

  lemma ExtendsTransitive(a: Log, xs: seq<string>, b: Log, ys: seq<string>, c: Log, zs: seq<string>)
    requires Extends(a, xs, b, ys) && Extends(b, ys, c, zs)
    ensures Extends(a, xs, c, zs)
  {
  }

  lemma RunExtends(limits: Limits, ops: seq<Op>)
    requires ops != [] && ReadableRun(limits, Fresh(map[]), ops)
    ensures var front, start := ops[..|ops| - 1], Fresh(map[]);
            && ReadableRun(limits, start, front)
            && Extends(Run(limits, start, front), AllAdded(limits, start, front), Run(limits, start, ops),
                 AllAdded(limits, start, ops))
  {
    ReadablePrefix(limits, ops);
    RunKeeps(limits, ops[..|ops| - 1]);
    LastStep(limits, ops);
  }

  /** Offsets are never reused: along a run, the next offset never falls, the base never moves
      back, and the appended values only grow. */
  lemma {:induction false} RunMonotone(limits: Limits, ops: seq<Op>, k: nat)
    requires k <= |ops| && ReadableRun(limits, Fresh(map[]), ops)
    ensures var start := Fresh(map[]);
            Extends(Run(limits, start, ops[..k]), AllAdded(limits, start, ops[..k]), Run(limits, start, ops),
                AllAdded(limits, start, ops))
  {
    if k == |ops| {
      assert ops[..k] == ops;
    } else {
      var front, start := ops[..|ops| - 1], Fresh(map[]);
      RunExtends(limits, ops);
      assert front[..k] == ops[..k];
      RunMonotone(limits, front, k);
      ExtendsTransitive(Run(limits, start, ops[..k]), AllAdded(limits, start, ops[..k]),
                        Run(limits, start, front), AllAdded(limits, start, front),
                        Run(limits, start, ops), AllAdded(limits, start, ops));
    }
  }

  /** Without readability a restart can lose the newest record and hand its offset out again:
      every value whose line overflows the scanner's buffer does it on an empty partition. */
  lemma LongRecordReusesOffset(limits: Limits, value: string, now: int, later: int)
    requires '\n' !in value && |Format(0, now, value)| > MAX_LINE
    ensures var log := Produce(limits, Fresh(map[]), value, now);
            && log.nextOffset == 1 && log.cache == [Message(0, value)]
            && Restart(limits, log, later).nextOffset == 0 && Restart(limits, log, later).cache == []
  {
    FirstProduce(limits, value, now);
    BodyLacksNewline(0, now, value);
    LoadOneLine(Body(0, now, value));
    var disk := map[0 := File(Format(0, now, value), now)];
    LoadOnlyFile(disk);
    RetainSingle(limits, Recover(disk), later);
  }

  /** It hides what comes after it, too: a record written behind it in the same file is lost with it,
      whether the two were produced or replicated. */
  lemma LongRecordHidesNext(limits: Limits, first: Op, second: Op, v: string, w: string, now: int, later: int)
    requires first == ProduceOp(v, now) || first == ReplicateOp(0, v, now)
    requires second == ProduceOp(w, now) || second == ReplicateOp(1, w, now)
    requires '\n' !in v && |Format(0, now, v)| > MAX_LINE && RoomForBoth(limits, v, w, now)
    ensures var log := Step(limits, Step(limits, Fresh(map[]), first), second);
            && log.nextOffset == 2 && log.cache == [Message(0, v), Message(1, w)]
            && Step(limits, log, RestartOp(later)).nextOffset == 0 && Step(limits, log, RestartOp(later)).cache == []
  {
    TwoInOneFile(limits, first, second, v, w, now);
    var disk := map[0 := File(Format(0, now, v) + Format(1, now, w), now)];
    HiddenLoads(v, w, now);
    EmptyRestart(limits, Log([Message(0, v), Message(1, w)], 2, 0, [0], disk), later);
  }

  lemma TwoInOneFile(limits: Limits, first: Op, second: Op, v: string, w: string, now: int)
    requires first == ProduceOp(v, now) || first == ReplicateOp(0, v, now)
    requires second == ProduceOp(w, now) || second == ReplicateOp(1, w, now)
    requires RoomForBoth(limits, v, w, now)
    ensures Step(limits, Step(limits, Fresh(map[]), first), second)
            == Log([Message(0, v), Message(1, w)], 2, 0, [0],
                 map[0 := File(Format(0, now, v) + Format(1, now, w), now)])
  {
    FirstStep(limits, first, v, now);
    FirstProduce(limits, v, now);
    SecondStep(limits, second, v, w, now);
  }

  lemma HiddenLoads(v: string, w: string, now: int)
    requires '\n' !in v && |Format(0, now, v)| > MAX_LINE
    ensures Load(Format(0, now, v) + Format(1, now, w)) == []
  {
    BodyLacksNewline(0, now, v);
    LongLineStops(Body(0, now, v), Format(1, now, w));
  }

  lemma EmptyRestart(limits: Limits, log: Log, later: int)
    requires log.disk.Keys == {0} && LoadFile(log.disk, 0) == []
    ensures var r := Step(limits, log, RestartOp(later)); r.nextOffset == 0 && r.cache == []
  {
    LoadOnlyFile(log.disk);
    RetainSingle(limits, Recover(log.disk), later);
  }

  /** Both lines fit one segment. */
  predicate RoomForBoth(limits: Limits, v: string, w: string, now: int) {
    |Format(0, now, v)| + |Format(1, now, w)| <= limits.segmentMaxBytes
  }

  lemma SecondStep(limits: Limits, op: Op, v: string, w: string, now: int)
    requires (op == ProduceOp(w, now) || op == ReplicateOp(1, w, now)) && RoomForBoth(limits, v, w, now)
    ensures var line := Format(0, now, v);
            Step(limits, Log([Message(0, v)], 1, 0, [0], map[0 := File(line, now)]), op)
            == Log([Message(0, v), Message(1, w)], 2, 0, [0], map[0 := File(line + Format(1, now, w), now)])
  {
    var line, more := Format(0, now, v), Format(1, now, w);
    var log := Log([Message(0, v)], 1, 0, [0], map[0 := File(line, now)]);
    assert [Message(0, v)] + [Message(1, w)] == [Message(0, v), Message(1, w)];
    assert map[0 := File(line, now)][0 := File(line + more, now)] == map[0 := File(line + more, now)];
    RetainSingle(limits, Append(limits, log, 1, w, now), now);
  }

  lemma FirstStep(limits: Limits, op: Op, value: string, now: int)
    requires op == ProduceOp(value, now) || op == ReplicateOp(0, value, now)
    ensures Step(limits, Fresh(map[]), op) == Produce(limits, Fresh(map[]), value, now)
  {
  }

  lemma FirstAppend(limits: Limits, line: string, value: string, now: int)
    requires line == Format(0, now, value)
    ensures Append(limits, Fresh(map[]), 0, value, now)
            == Log([Message(0, value)], 1, 0, [0], map[0 := File(line, now)])
  {
    assert "" + line == line;
  }

  /** A single segment is never dropped. */
  lemma RetainSingle(limits: Limits, log: Log, now: int)
    requires |log.segments| <= 1
    ensures Retain(limits, log, now) == log
  {
  }

  lemma FirstProduce(limits: Limits, value: string, now: int)
    ensures Produce(limits, Fresh(map[]), value, now)
            == Log([Message(0, value)], 1, 0, [0], map[0 := File(Format(0, now, value), now)])
  {
    FirstAppend(limits, Format(0, now, value), value, now);
    RetainSingle(limits, Append(limits, Fresh(map[]), 0, value, now), now);
  }

  lemma LoadOnlyFile(disk: map<int, File>)
    requires disk.Keys == {0} && LoadFile(disk, 0) == []
    ensures var r := Recover(disk); r.nextOffset == 0 && r.cache == [] && |r.segments| == 1
  {
    IncreasingUnique(SortedInts(disk.Keys), [0]);
    LoadEntriesRecover(disk, [0]);
    LoadAllSnoc(disk, [], 0);
    assert [] + [0] == [0];
  }

  // ---- Two kinds of limits ----

  predicate NoRetention(limits: Limits) {
    limits.retentionMaxAge <= 0 && limits.retentionMaxBytes <= 0
  }

  /** Without retention an accepted record is added to the cache, readable or not. */
  lemma UnlimitedStep(limits: Limits, log: Log, op: Op)
    requires NoRetention(limits) && (op.ProduceOp? || (op.ReplicateOp? && op.offset == log.nextOffset))
    ensures var r := Step(limits, log, op);
            r.cache == log.cache + [Message(log.nextOffset, op.value)] && r.nextOffset == log.nextOffset + 1
  {
    assert Retain(limits, Append(limits, log, log.nextOffset, op.value, op.now), op.now)
        == Append(limits, log, log.nextOffset, op.value, op.now);
  }

  /** Limits under which each record gets its own segment and one segment is kept. */
  predicate OneRecordKept(limits: Limits) {
    limits.segmentMaxBytes == 1 && limits.retentionMaxBytes == 1
  }

  lemma TightCache(limits: Limits, log: Log, now: int)
    requires OneRecordKept(limits) && Inv(limits, log) && log.cache != []
    ensures |Retain(limits, log, now).cache| == 1
  {
    var r := Retain(limits, log, now);
    RetainKeeps(limits, log, now);
    assert r.cache != [];
    if |r.segments| > 1 {
      LastFileCounts(limits, r);
    } else {
      assert r.segments == [] + [r.active];
      LoadAllSnoc(r.disk, [], r.active);
      assert r.cache == LoadFile(r.disk, r.active);
      assert GoodFile(limits, r.disk[r.active].content);
      LongFile(limits, r.disk[r.active].content);
    }
  }

  lemma {:induction false} TotalSizeNonNegative(disk: map<int, File>, segments: seq<int>)
    ensures TotalSize(disk, segments) >= 0
  {
    if segments == [] {
    } else {
      TotalSizeNonNegative(disk, segments[..|segments| - 1]);
    }
  }

  lemma ShortLoadsNothing(content: string)
    requires Intact(content) && |content| <= 1
    ensures Load(content) == []
  {
    if |content| == 1 {
      assert content == "" + "\n";
      LoadOneLine("");
    }
  }

  lemma LongFile(limits: Limits, content: string)
    requires GoodFile(limits, content)
    ensures |content| > 1
  {
    if |content| <= 1 {
      ShortLoadsNothing(content);
    }
  }

  lemma LastFileCounts(limits: Limits, r: Log)
    requires Inv(limits, r) && r.active in r.disk
    ensures TotalSize(r.disk, r.segments) > 1
  {
    var n := |r.segments| - 1;
    TotalSizeNonNegative(r.disk, r.segments[..n]);
    assert GoodFile(limits, r.disk[r.active].content);
    LongFile(limits, r.disk[r.active].content);
  }

  lemma ProduceTight(limits: Limits, log: Log, values: seq<string>, w: string, now: int)
    requires OneRecordKept(limits) && Inv(limits, log) && Represents(log, values) && Readable(log.nextOffset, now, w)
    ensures var r := Produce(limits, log, w, now);
            Inv(limits, r) && Represents(r, values + [w]) && r.cache == [Message(|values|, w)]
  {
    StoreKept(limits, log, w, now, values);
    AppendKeeps(limits, log, w, now);
    TightCache(limits, Append(limits, log, log.nextOffset, w, now), now);
    LastOnly(Produce(limits, log, w, now), values, w);
  }

  lemma LastOnly(r: Log, values: seq<string>, w: string)
    requires Represents(r, values + [w]) && |r.cache| == 1
    ensures r.cache == [Message(|values|, w)]
  {
    assert (values + [w])[|values|] == w;
  }

  /** Retention does drop records: under the tight limits two readable produces leave only the
      second, with a base of 1. */
  lemma RetentionDrops(limits: Limits, v: string, w: string, now: int)
    requires OneRecordKept(limits) && Readable(0, now, v) && Readable(1, now, w)
    ensures var ops := [ProduceOp(v, now), ProduceOp(w, now)];
            var r := Run(limits, Fresh(map[]), ops);
            && ReadableRun(limits, Fresh(map[]), ops)
            && r.cache == [Message(1, w)] && r.nextOffset == 2 && Base(r) == 1
  {
    var one := Produce(limits, Fresh(map[]), v, now);
    FreshKeeps(limits);
    ProduceTight(limits, Fresh(map[]), [], v, now);
    ProduceTight(limits, one, [] + [v], w, now);
    TwoSteps(limits, ProduceOp(v, now), ProduceOp(w, now));
  }

  lemma TwoSteps(limits: Limits, first: Op, second: Op)
    ensures var start := Fresh(map[]);
            && Run(limits, start, [first, second]) == Step(limits, Step(limits, start, first), second)
            && (ReadableStep(start, first) && ReadableStep(Step(limits, start, first), second) ==>
                  ReadableRun(limits, start, [first, second]))
  {
    var ops := [first, second];
    assert ops[..1] == [first] && [first][..0] == [] && ops[..0] == [];
    assert Run(limits, Fresh(map[]), [first]) == Step(limits, Fresh(map[]), first);
  }
}
