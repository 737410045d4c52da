/** A follower's replication cycle for one partition: fetch, apply record by record, ack. The
    store is the values appended so far; retention does not affect what an append decides. */
module FollowerWorker {
  import opened Text
  import opened LogLine
  import PartitionHistory

  datatype Progress = Progress(values: seq<string>, next: int, applied: int, last: int, failed: bool)

  /** One turn of StepOnce's loop: the gap check, then the storage's own check. */
  function ApplyOne(p: Progress, record: Message): Progress {
    if record.offset != p.next then p.(failed := true)
    else match PartitionHistory.AppendReplicated(p.values, record.offset, record.value)
      case None => p.(failed := true)
      case Some(values) => Progress(values, p.next + 1, p.applied + 1, record.offset, false)
  }

  /** The loop: the first failure ends it. */
  function ApplyAll(p: Progress, records: seq<Message>): Progress
    decreases |records|
  {
    if p.failed || records == [] then p else ApplyAll(ApplyOne(p, records[0]), records[1..])
  }

  function Start(values: seq<string>, next: int): Progress {
    Progress(values, next, 0, -1, false)
  }

  class Worker {
    var nextOffset: int
    var store: seq<string>

    constructor (startOffset: int, store: seq<string>)
      requires startOffset >= 0
      ensures nextOffset == startOffset && this.store == store
    {
      nextOffset := startOffset;
      this.store := store;
    }

    /** StepOnce, given what the fetch returned, None being a transport error, and whether the ack
        got through. The ack to send, if any, is the last applied offset; a failed apply sends none,
        and a failed ack is reported without undoing anything. */
    method StepOnce(fetched: Option<seq<Message>>, acked: bool) returns (applied: int, ok: bool, ack: Option<int>)
      modifies this
      ensures fetched.None? ==>
                !ok && applied == 0 && ack == None && nextOffset == old(nextOffset) && store == old(store)
      ensures fetched.Some? ==>
                var p := ApplyAll(Start(old(store), old(nextOffset)), fetched.value);
                && store == p.values && nextOffset == p.next && applied == p.applied
                && ack == (if p.failed || p.last < 0 then None else Some(p.last))
                && ok == (!p.failed && (ack.Some? ==> acked))
    {
      if fetched.None? {
        return 0, false, None;
      }
      var records := fetched.value;
      if |records| == 0 {
        return 0, true, None;
      }
      applied := 0;
      var last := -1;
      assert records[0..] == records;
      for i := 0 to |records|
        invariant ApplyAll(Start(old(store), old(nextOffset)), records)
                  == ApplyAll(Progress(store, nextOffset, applied, last, false), records[i..])
      {
        var record := records[i];
        assert records[i..][0] == record && records[i..][1..] == records[i + 1..];
        if record.offset != nextOffset {
          return applied, false, None;
        }
        var appended := PartitionHistory.AppendReplicated(store, record.offset, record.value);
        if appended.None? {
          return applied, false, None;
        }
        store := appended.value;
        nextOffset := nextOffset + 1;
        last := record.offset;
        applied := applied + 1;
      }
      assert records[|records|..] == [];
      if last >= 0 {
        ack := Some(last);
        if !acked {
          return applied, false, ack;
        }
      } else {
        ack := None;
      }
      ok := true;
    }
  }

  /** The values of records[from..to]. */
  function Values(records: seq<Message>): (vs: seq<string>)
    ensures |vs| == |records| && forall i :: 0 <= i < |vs| ==> vs[i] == records[i].value
  {
    seq(|records|, i requires 0 <= i < |records| => records[i].value)
  }

  /** How many of k records from next on the store already has. */
  function Known(p: Progress, k: int): int {
    if |p.values| - p.next < k then |p.values| - p.next else k
  }

  /** What a batch does to a store that is at or ahead of the worker: the records before the
      first misplaced one are applied, those below the store's end change nothing, the rest are
      appended in order, and only a misplaced record makes the step fail. */
  lemma {:induction false} BatchMeaning(p: Progress, records: seq<Message>, k: nat)
    requires !p.failed && 0 <= p.next <= |p.values| && k <= |records|
    requires forall i :: 0 <= i < k ==> records[i].offset == p.next + i
    requires k < |records| ==> records[k].offset != p.next + k
    ensures var q := ApplyAll(p, records);
            && q.next == p.next + k && q.applied == p.applied + k
            && q.failed == (k < |records|)
            && q.values == p.values + Values(records[Known(p, k)..k])
            && (k > 0 ==> q.last == p.next + k - 1)
    decreases k
  {
    if k == 0 {
      assert p.values + Values(records[0..0]) == p.values;
      if records != [] {
        assert ApplyAll(p, records) == ApplyOne(p, records[0]);
      }
    } else {
      var q, rest := ApplyOne(p, records[0]), records[1..];
      BatchMeaning(q, rest, k - 1);
      assert ApplyAll(p, records) == ApplyAll(q, rest);
      BatchTail(p, records, k);
    }
  }

  lemma BatchTail(p: Progress, records: seq<Message>, k: nat)
    requires !p.failed && 0 <= p.next <= |p.values| && 0 < k <= |records| && records[0].offset == p.next
    ensures var q := ApplyOne(p, records[0]);
            q.values + Values(records[1..][Known(q, k - 1)..k - 1]) == p.values + Values(records[Known(p, k)..k])
  {
    var q, rest := ApplyOne(p, records[0]), records[1..];
    if |p.values| > p.next {
      SliceShift(records, Known(p, k), k);
    } else {
      ValuesCons(records[0], rest[0..k - 1], records[0..k]);
      ConcatAssociative(p.values, [records[0].value], Values(rest[0..k - 1]));
    }
  }

  lemma SliceShift(records: seq<Message>, a: nat, k: nat)
    requires 0 < a <= k <= |records|
    ensures records[1..][a - 1..k - 1] == records[a..k]
  {
    forall i | 0 <= i < k - a
      ensures records[1..][a - 1..k - 1][i] == records[a..k][i]
    {
    }
  }

  lemma ValuesCons(m: Message, rest: seq<Message>, all: seq<Message>)
    requires |all| == |rest| + 1 && all[0] == m && forall i :: 0 <= i < |rest| ==> all[i + 1] == rest[i]
    ensures Values(all) == [m.value] + Values(rest)
  {
    forall i | 0 <= i < |all|
      ensures Values(all)[i] == ([m.value] + Values(rest))[i]
    {
      if i > 0 {
        assert all[i - 1 + 1] == rest[i - 1];
      }
    }
  }

  /** A batch that begins in line applies something. */
  lemma {:induction false} FirstApplied(p: Progress, records: seq<Message>)
    requires !p.failed && records != [] && records[0].offset == p.next <= |p.values|
    ensures ApplyAll(p, records).applied > p.applied
  {
    AppliedGrows(ApplyOne(p, records[0]), records[1..]);
  }

  lemma {:induction false} AppliedGrows(p: Progress, records: seq<Message>)
    ensures ApplyAll(p, records).applied >= p.applied
    decreases |records|
  {
    if p.failed || records == [] {
    } else {
      AppliedGrows(ApplyOne(p, records[0]), records[1..]);
    }
  }

  /** What a batch adds to a store comes from its records. */
  lemma {:induction false} StoredFrom(p: Progress, records: seq<Message>)
    ensures var q := ApplyAll(p, records).values;
            p.values <= q && forall i :: |p.values| <= i < |q| ==> q[i] in Values(records)
    decreases |records|
  {
    if p.failed || records == [] {
    } else {
      var rest := records[1..];
      StoredFrom(ApplyOne(p, records[0]), rest);
      assert records[0].value == Values(records)[0];
      forall v | v in Values(rest)
        ensures v in Values(records)
      {
        var k :| 0 <= k < |rest| && Values(rest)[k] == v;
        assert Values(records)[k + 1] == v;
      }
    }
  }
}
