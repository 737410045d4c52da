/** The storage engine's loops over one partition's mutable state, each proved to compute its
    function in SegmentedLog. */
module StorageEngine {
  import opened Text
  import opened LogLine
  import opened Ordering
  import opened S = SegmentedLog

  lemma {:induction false} TotalSizeCons(disk: map<int, File>, segments: seq<int>)
    requires segments != []
    ensures TotalSize(disk, segments) == Size(disk, segments[0]) + TotalSize(disk, segments[1..])
  {
    var n := |segments| - 1;
    if n == 0 {
    } else {
      TotalSizeCons(disk, segments[..n]);
      assert segments[..n][1..] == segments[1..][..n - 1];
    }
  }

  lemma {:induction false} TotalSizeFrame(a: map<int, File>, b: map<int, File>, segments: seq<int>)
    requires forall id :: id in segments ==> Size(a, id) == Size(b, id)
    ensures TotalSize(a, segments) == TotalSize(b, segments)
  {
    if segments == [] {
    } else {
      TotalSizeFrame(a, b, segments[..|segments| - 1]);
    }
  }

  /** Deleting the oldest segment lowers the real total by exactly that segment's size. */
  lemma TotalSizeAfterDelete(log: Log)
    requires GoodSegments(log) && |log.segments| > 1
    ensures var d := DeleteOldest(log);
            TotalSize(d.disk, d.segments) == TotalSize(log.disk, log.segments) - Size(log.disk, log.segments[0])
  {
    TailSegments(log);
    TotalSizeCons(log.disk, log.segments);
    TotalSizeFrame(log.disk, log.disk - {log.segments[0]}, log.segments[1..]);
  }

  lemma DropKeepsSegments(log: Log)
    requires GoodSegments(log) && |log.segments| > 1
    ensures GoodSegments(DeleteOldest(log)) && GoodSegments(DropOldest(log))
  {
    TailSegments(log);
    var d := DeleteOldest(log);
    assert d.active in d.disk;
  }

  /** What is left of the segments is all but some oldest ones, whose files are no younger than the cutoff, and
      the oldest one left has a younger file or is the last. */
  ghost predicate AgedOut(segments: seq<int>, disk: map<int, File>, left: seq<int>, cutoff: int) {
    && |left| <= |segments|
    && (forall i :: 0 <= i < |left| ==> left[i] == segments[|segments| - |left| + i])
    && (forall i :: 0 <= i < |segments| - |left| && segments[i] in disk ==> disk[segments[i]].modTime <= cutoff)
    && (|left| > 1 ==> left[0] in disk && disk[left[0]].modTime > cutoff)
  }

  /** r is what age retention leaves of log: everything when it is off. */
  ghost predicate AgePass(limits: Limits, log: Log, r: Log, now: int) {
    if limits.retentionMaxAge <= 0 then r == log
    else AgedOut(log.segments, log.disk, r.segments, now - limits.retentionMaxAge)
  }

  lemma AgeRetainMeaning(limits: Limits, log: Log, now: int, r: Log)
    requires GoodSegments(log) && r == AgeRetain(log, Cutoff(limits, now))
    ensures AgePass(limits, log, r, now)
  {
    if limits.retentionMaxAge > 0 {
      AgeRetainDrops(log, now - limits.retentionMaxAge, r);
    }
  }

  lemma {:induction false} AgeRetainDrops(log: Log, cutoff: int, r: Log)
    requires GoodSegments(log) && r == AgeRetain(log, Some(cutoff))
    ensures AgedOut(log.segments, log.disk, r.segments, cutoff)
    decreases |log.segments|
  {
    if |log.segments| <= 1 || TooYoung(log, cutoff) {
      NoneAgedOut(log.segments, log.disk, cutoff);
    } else {
      var d := DropOldest(log);
      DropKeepsSegments(log);
      AgeRetainDrops(d, cutoff, r);
      DroppedFile(log);
      AgedOutMore(log.segments, log.disk, d.segments, d.disk, r.segments, cutoff);
    }
  }

  lemma NoneAgedOut(segments: seq<int>, disk: map<int, File>, cutoff: int)
    requires |segments| > 1 ==> segments[0] in disk && disk[segments[0]].modTime > cutoff
    ensures AgedOut(segments, disk, segments, cutoff)
  {
  }

  lemma DroppedFile(log: Log)
    requires log.segments != []
    ensures DropOldest(log).segments == log.segments[1..] && DropOldest(log).disk == log.disk - {log.segments[0]}
  {
  }

  lemma AgedOutMore(segments: seq<int>, disk: map<int, File>, rest: seq<int>, files: map<int, File>, left: seq<int>,
                    cutoff: int)
    requires |segments| > 1 && Increasing(segments) && rest == segments[1..] && files == disk - {segments[0]}
    requires segments[0] in disk ==> disk[segments[0]].modTime <= cutoff
    requires AgedOut(rest, files, left, cutoff)
    ensures AgedOut(segments, disk, left, cutoff)
  {
    forall i | 0 <= i < |segments| - |left| && segments[i] in disk
      ensures disk[segments[i]].modTime <= cutoff
    {
      if i > 0 {
        assert rest[i - 1] == segments[i];
      }
    }
  }

  lemma EntriesSnoc(start: Log, ids: seq<int>, i: int)
    requires 0 <= i < |ids|
    ensures LoadEntries(start, ids[..i + 1]) == LoadEntry(LoadEntries(start, ids[..i]), ids[i])
  {
    assert ids[..i + 1][..i] == ids[..i];
  }

  class PartitionLog {
    const limits: Limits
    var cache: seq<Message>
    var nextOffset: int
    var active: int
    var segments: seq<int>
    var disk: map<int, File>

    function State(): Log
      reads this
    {
      Log(cache, nextOffset, active, segments, disk)
    }

    ghost predicate Valid()
      reads this
    {
      GoodSegments(State())
    }

    /** NewStorage over the files a partition left behind. */
    constructor (limits: Limits, files: map<int, File>, now: int)
      requires forall id :: id in files ==> id >= 0
      ensures Valid() && this.limits == limits
      ensures State() == Restart(limits, Fresh(files), now)
    {
      this.limits := limits;
      cache, nextOffset, active, segments, disk := [], 0, 0, [0], files;
      new;
      LoadData();
      EnforceRetention(now);
    }

    /** loadData: replay the files in ascending segment order. */
    method LoadData()
      requires State() == Fresh(disk)
      modifies this
      ensures State() == Recover(old(disk))
      ensures (forall id :: id in old(disk) ==> id >= 0) ==> Valid()
    {
      var ids := SortedInts(disk.Keys);
      ghost var start := State();
      for i := 0 to |ids|
        invariant State() == LoadEntries(start, ids[..i])
      {
        EntriesSnoc(start, ids, i);
        LoadEntryInPlace(ids[i]);
      }
      assert ids[..|ids|] == ids;
      RecoverLists(start.disk);
    }

    method LoadEntryInPlace(id: int)
      modifies this
      ensures State() == LoadEntry(old(State()), id)
    {
      if segments == [] || segments[|segments| - 1] != id {
        segments := segments + [id];
      }
      if id > active {
        active := id;
      }
      LoadFileInPlace(id);
    }

    method LoadFileInPlace(id: int)
      modifies this`cache, this`nextOffset
      ensures cache == old(cache) + LoadFile(disk, id)
      ensures nextOffset == Advance(old(nextOffset), LoadFile(disk, id))
    {
      if id in disk {
        LoadSegment(disk[id].content);
      }
    }

    /** loadSegment: replay one file's lines. */
    method LoadSegment(content: string)
      modifies this`cache, this`nextOffset
      ensures cache == old(cache) + Load(content)
      ensures nextOffset == Advance(old(nextOffset), Load(content))
    {
      ReplayLines(Scan(content));
    }

    method ReplayLines(lines: seq<string>)
      modifies this`cache, this`nextOffset
      ensures cache == old(cache) + FlatMap(ParsedLine, lines)
      ensures nextOffset == Advance(old(nextOffset), FlatMap(ParsedLine, lines))
    {
      ghost var done: seq<Message> := [];
      for i := 0 to |lines|
        invariant done == FlatMap(ParsedLine, lines[..i])
        invariant cache == old(cache) + done
        invariant nextOffset == Advance(old(nextOffset), done)
      {
        ReplayStep(lines, i, old(nextOffset));
        ConcatAssociative(old(cache), done, ParsedLine(lines[i]));
        LoadLine(lines[i]);
        done := done + ParsedLine(lines[i]);
      }
      assert lines[..|lines|] == lines;
    }

    method LoadLine(line: string)
      modifies this`cache, this`nextOffset
      ensures cache == old(cache) + ParsedLine(line)
      ensures nextOffset == Advance(old(nextOffset), ParsedLine(line))
    {
      var parsed := Parse(line);
      if parsed.None? {
        return;
      }
      ReplayRecord(parsed.value);
    }

    method ReplayRecord(m: Message)
      modifies this`cache, this`nextOffset
      ensures cache == old(cache) + [m]
      ensures nextOffset == Advance(old(nextOffset), [m])
    {
      cache := cache + [m];
      if nextOffset <= m.offset {
        nextOffset := m.offset + 1;
      }
      AdvanceOne(old(nextOffset), m);
    }

    /** rebuildPartitionFromSegments. */
    method RebuildFromSegments()
      modifies this`cache, this`nextOffset
      ensures State() == Rebuild(old(State()))
    {
      cache, nextOffset := [], 0;
      for i := 0 to |segments|
        invariant cache == LoadAll(disk, segments[..i])
        invariant nextOffset == Advance(0, cache)
      {
        LoadAllStep(disk, segments, i);
        if segments[i] in disk {
          var content := disk[segments[i]].content;
          AdvanceConcat(0, cache, Load(content));
          LoadSegment(content);
        }
      }
      assert segments[..|segments|] == segments;
    }

    /** deleteSegment on the oldest segment. */
    method DeleteOldestSegment()
      requires segments != []
      modifies this
      ensures State() == DeleteOldest(old(State()))
    {
      disk := disk - {segments[0]};
      segments := segments[1..];
      RebuildFromSegments();
    }

    /** One turn of applyAgeRetention's loop. */
    method DropIfOld(cutoff: int) returns (stop: bool)
      requires Valid() && |segments| > 1
      modifies this
      ensures Valid()
      ensures stop == TooYoung(old(State()), cutoff)
      ensures State() == if stop then old(State()) else DropOldest(old(State()))
    {
      DropKeepsSegments(State());
      if segments[0] !in disk {
        segments := segments[1..];
        return false;
      }
      if disk[segments[0]].modTime > cutoff {
        return true;
      }
      DeleteOldestSegment();
      return false;
    }

    /** applyAgeRetention's loop. */
    method DropOldSegments(cutoff: int)
      requires Valid()
      modifies this
      ensures Valid() && State() == AgeRetain(old(State()), Some(cutoff))
    {
      ghost var kept := AgeRetain(State(), Some(cutoff));
      while |segments| > 1
        invariant Valid()
        invariant AgeRetain(State(), Some(cutoff)) == kept
        decreases |segments|
      {
        ghost var before := State();
        var stop := DropIfOld(cutoff);
        assert AgeRetain(before, Some(cutoff)) == if stop then before else AgeRetain(State(), Some(cutoff));
        if stop {
          break;
        }
      }
    }

    /** applyAgeRetention. */
    method ApplyAgeRetention(now: int)
      requires Valid()
      modifies this
      ensures Valid() && State() == AgeRetain(old(State()), Cutoff(limits, now))
      ensures AgePass(limits, old(State()), State(), now)
    {
      AgeRetainMeaning(limits, State(), now, AgeRetain(State(), Cutoff(limits, now)));
      if limits.retentionMaxAge <= 0 {
        return;
      }
      var cutoff := now - limits.retentionMaxAge;
      DropOldSegments(cutoff);
    }

    /** applySizeRetention: the running total always equals the real size of what is left. */
    method ApplySizeRetention()
      requires Valid()
      modifies this
      ensures Valid()
      ensures State() == if limits.retentionMaxBytes <= 0
              then old(State()) else SizeRetain(old(State()), limits.retentionMaxBytes)
    {
      if limits.retentionMaxBytes <= 0 {
        return;
      }
      var total := 0;
      for i := 0 to |segments|
        invariant total == TotalSize(disk, segments[..i])
      {
        assert segments[..i + 1][..i] == segments[..i];
        if segments[i] in disk {
          total := total + |disk[segments[i]].content|;
        }
      }
      assert segments[..|segments|] == segments;
      while total > limits.retentionMaxBytes && |segments| > 1
        invariant Valid()
        invariant total == TotalSize(disk, segments)
        invariant SizeRetain(State(), limits.retentionMaxBytes) == SizeRetain(old(State()), limits.retentionMaxBytes)
        decreases |segments|
      {
        TotalSizeAfterDelete(State());
        DropKeepsSegments(State());
        if segments[0] in disk {
          total := total - |disk[segments[0]].content|;
        }
        DeleteOldestSegment();
      }
    }

    /** enforceRetentionLocked for this partition. */
    method EnforceRetention(now: int)
      requires Valid()
      modifies this
      ensures Valid() && State() == Retain(limits, old(State()), now)
    {
      ApplyAgeRetention(now);
      ApplySizeRetention();
    }

    /** The append that ProduceToPartition and AppendReplicated share. */
    method Store(offset: int, value: string, now: int)
      requires Valid()
      modifies this
      ensures Valid() && State() == Retain(limits, Append(limits, old(State()), offset, value, now), now)
    {
      AppendKeepsSegments(limits, State(), offset, value, now);
      WriteRecord(offset, value, now);
      EnforceRetention(now);
    }

    method WriteRecord(offset: int, value: string, now: int)
      modifies this
      ensures State() == Append(limits, old(State()), offset, value, now)
    {
      var line := Format(offset, now, value);
      if active in disk && |disk[active].content| + |line| > limits.segmentMaxBytes {
        active := active + 1;
        segments := segments + [active];
      }
      var content := if active in disk then disk[active].content else "";
      disk := disk[active := File(content + line, now)];
      cache := cache + [Message(offset, value)];
      nextOffset := offset + 1;
    }

    /** ProduceToPartition. */
    method ProduceToPartition(value: string, now: int) returns (offset: int)
      requires Valid()
      modifies this
      ensures Valid() && State() == Produce(limits, old(State()), value, now)
      ensures offset == old(nextOffset)
    {
      offset := nextOffset;
      Store(offset, value, now);
    }

    /** AppendReplicated: idempotent below the next offset, refused above it. */
    method AppendReplica(offset: int, value: string, now: int) returns (ok: bool)
      requires Valid()
      modifies this
      ensures Valid() && ok == (offset <= old(nextOffset))
      ensures State() == match AppendReplicated(limits, old(State()), offset, value, now)
                         case None => old(State())
                         case Some(r) => r
    {
      if offset < nextOffset {
        return true;
      }
      if offset > nextOffset {
        return false;
      }
      Store(offset, value, now);
      return true;
    }
  }

  type Key = (string, int)

  /** ensurePartitionState. */
  function LogOf(logs: map<Key, Log>, key: Key): Log {
    if key in logs then logs[key] else Fresh(map[])
  }

  /** All partitions of a broker: an append to one is followed by a retention pass over every one. */
  class Storage {
    const limits: Limits
    var logs: map<Key, Log>

    constructor (limits: Limits)
      ensures this.limits == limits && logs == map[]
    {
      this.limits := limits;
      logs := map[];
    }

    /** enforceRetentionLocked, whatever the map order. */
    method EnforceRetention(now: int)
      modifies this
      ensures logs.Keys == old(logs).Keys
      ensures forall key :: key in logs ==> logs[key] == Retain(limits, old(logs)[key], now)
    {
      var todo := logs.Keys;
      while todo != {}
        invariant todo <= old(logs).Keys && logs.Keys == old(logs).Keys
        invariant forall key :: key in logs ==>
                    logs[key] == if key in todo then old(logs)[key] else Retain(limits, old(logs)[key], now)
        decreases |todo|
      {
        var key := Choose(todo);
        logs := logs[key := Retain(limits, logs[key], now)];
        todo := todo - {key};
      }
    }

    /** What both appends end with. */
    method StoreRecord(key: Key, log: Log, offset: int, value: string, now: int)
      modifies this
      ensures logs.Keys == old(logs).Keys + {key}
      ensures logs[key] == Retain(limits, Append(limits, log, offset, value, now), now)
      ensures forall k :: k in old(logs) && k != key ==> logs[k] == Retain(limits, old(logs)[k], now)
    {
      logs := logs[key := Append(limits, log, offset, value, now)];
      EnforceRetention(now);
    }

    /** ProduceToPartition: its own partition takes a produce step, every other one a retention step. */
    method ProduceToPartition(key: Key, value: string, now: int) returns (offset: int)
      modifies this
      ensures offset == LogOf(old(logs), key).nextOffset && logs.Keys == old(logs).Keys + {key}
      ensures logs[key] == Step(limits, LogOf(old(logs), key), ProduceOp(value, now))
      ensures forall k :: k in old(logs) && k != key ==> logs[k] == Step(limits, old(logs)[k], RetainOp(now))
    {
      var log := LogOf(logs, key);
      offset := log.nextOffset;
      StoreRecord(key, log, offset, value, now);
    }

    /** AppendReplicated: its own partition takes a replicate step; only an accepted record is followed
        by a retention pass over the others. */
    method AppendReplicated(key: Key, offset: int, value: string, now: int) returns (ok: bool)
      modifies this
      ensures ok == (offset <= LogOf(old(logs), key).nextOffset) && logs.Keys == old(logs).Keys + {key}
      ensures logs[key] == Step(limits, LogOf(old(logs), key), ReplicateOp(offset, value, now))
      ensures forall k :: k in old(logs) && k != key ==>
                logs[k] == AfterReplicate(limits, LogOf(old(logs), key), offset, old(logs)[k], now)
    {
      var log := LogOf(logs, key);
      if offset != log.nextOffset {
        logs := logs[key := log];
        return offset < log.nextOffset;
      }
      StoreRecord(key, log, offset, value, now);
      return true;
    }
  }

  /** Another partition's log after an AppendReplicated to the first. */
  ghost function AfterReplicate(limits: Limits, log: Log, offset: int, other: Log, now: int): Log {
    if offset == log.nextOffset then Step(limits, other, RetainOp(now)) else other
  }

  lemma RecoveredSegments(disk: map<int, File>, ids: seq<int>)
    requires Increasing(ids) && Elements(ids) == disk.Keys && (ids != [] ==> ids[0] >= 0)
    ensures GoodSegments(Recovered(disk, ids))
  {
    var r := Recovered(disk, ids);
    assert r.segments == SeededIds(ids);
    SeededAscending(ids);
    assert forall id :: id in disk ==> id in Elements(ids) && id in r.segments;
    if ids == [] {
      assert disk.Keys == {};
    } else {
      assert ids[|ids| - 1] in Elements(ids);
    }
  }

  lemma RecoverLists(disk: map<int, File>)
    ensures (forall id :: id in disk ==> id >= 0) ==> GoodSegments(Recover(disk))
  {
    var ids := SortedInts(disk.Keys);
    if forall id :: id in disk ==> id >= 0 {
      assert ids != [] ==> ids[0] in Elements(ids);
      LoadEntriesRecover(disk, ids);
      RecoveredSegments(disk, ids);
    }
  }

  lemma LoadAllStep(disk: map<int, File>, segments: seq<int>, i: nat)
    requires i < |segments|
    ensures LoadAll(disk, segments[..i + 1]) == LoadAll(disk, segments[..i]) + LoadFile(disk, segments[i])
  {
    assert segments[..i + 1][..i] == segments[..i];
  }

  lemma ReplayStep(lines: seq<string>, i: int, next: int)
    requires 0 <= i < |lines|
    ensures var done, more := FlatMap(ParsedLine, lines[..i]), ParsedLine(lines[i]);
            && FlatMap(ParsedLine, lines[..i + 1]) == done + more
            && Advance(next, done + more) == Advance(Advance(next, done), more)
  {
    assert lines[..i + 1] == lines[..i] + [lines[i]];
    FlatMapConcat(ParsedLine, lines[..i], [lines[i]]);
    SingleLine(lines[i]);
    AdvanceConcat(next, FlatMap(ParsedLine, lines[..i]), ParsedLine(lines[i]));
  }

  lemma AdvanceOne(next: int, m: Message)
    ensures Advance(next, [m]) == if next <= m.offset then m.offset + 1 else next
  {
    assert [m][..0] == [];
  }
}
