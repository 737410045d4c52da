/** Cycle after cycle: when a follower ends up with the leader's log, and after how many cycles. */
module CatchUp {
  import opened Text
  import opened LogLine
  import opened FetchCodec
  import opened PartitionHistory
  import opened FetchCycles
  import opened ReplicationProtocol
  import opened ReplicationTheorems
  import opened StorageContract
  import FollowerWorker

  /** What the follower's store holds after k cycles of a worker that began at its end, the leader's log
      staying as it is. */
  function Cycles(h: History, leaderOffset: int, mine: seq<string>, max: int, k: nat): seq<string>
    requires Valid(h)
  {
    if k == 0 then mine
    else
      var before := Cycles(h, leaderOffset, mine, max, k - 1);
      Cycle(h, leaderOffset, before, |before|, max).values
  }

  lemma {:induction false} AppliesAtEnd(p: FollowerWorker.Progress, records: seq<Message>)
    requires p.next == |p.values|
    ensures var q := FollowerWorker.ApplyAll(p, records); q.next == |q.values|
    decreases |records|
  {
    if p.failed || records == [] {
    } else {
      AppliesAtEnd(FollowerWorker.ApplyOne(p, records[0]), records[1..]);
    }
  }

  /** A worker at its store's end is there again after a cycle. */
  lemma CycleEndsAtEnd(h: History, leaderOffset: int, mine: seq<string>, max: int)
    requires Valid(h)
    ensures var p := Cycle(h, leaderOffset, mine, |mine|, max);
            p.next == |p.values| && mine <= p.values && forall i :: |mine| <= i < |p.values| ==> !HasComma(p.values[i])
  {
    var start := FollowerWorker.Start(mine, |mine|);
    var fetched := Fetched(h, leaderOffset, |mine|, max);
    if fetched.Some? {
      AppliesAtEnd(start, fetched.value);
      FollowerWorker.StoredFrom(start, fetched.value);
      NothingArrives();
      if 0 <= leaderOffset && |mine| <= leaderOffset {
        ConsumeSkipsByIndex(h, |mine|);
        ArrivalCommaFree(Take(Consume(Cache(h), |mine|).value, max));
      }
    }
  }

  /** Whatever the cycles stored has no comma. */
  lemma {:induction false} CyclesCommaFree(h: History, leaderOffset: int, mine: seq<string>, max: int, k: nat)
    requires Valid(h)
    ensures var now := Cycles(h, leaderOffset, mine, max, k);
            mine <= now && forall i :: |mine| <= i < |now| ==> !HasComma(now[i])
  {
    if k == 0 {
    } else {
      CyclesCommaFree(h, leaderOffset, mine, max, k - 1);
      CycleEndsAtEnd(h, leaderOffset, Cycles(h, leaderOffset, mine, max, k - 1), max);
    }
  }

  lemma {:induction false} CyclesStuck(h: History, leaderOffset: int, mine: seq<string>, max: int, k: nat)
    requires Valid(h) && max > 0 && h.base > 0 && |mine| < |h.values|
    ensures Cycles(h, leaderOffset, mine, max, k) == mine
  {
    if k == 0 {
    } else {
      CyclesStuck(h, leaderOffset, mine, max, k - 1);
      FetchProgress(h, leaderOffset, mine, |mine|, max);
    }
  }

  ghost predicate CommaFreeFrom(values: seq<string>, n: nat) {
    forall i :: n <= i < |values| ==> !HasComma(values[i])
  }

  /** The next batch of an undamaged log, all of it known to the manager. */
  lemma OneMore(h: History, leaderOffset: int, n: nat, max: int, mine: seq<string>, end: nat)
    requires Valid(h) && max > 0 && h.base == 0 && n <= |h.values| <= leaderOffset + 1
    requires CommaFreeFrom(h.values, n) && mine == h.values[..n] && end == Least(n + max, |h.values|)
    ensures Cycle(h, leaderOffset, mine, n, max).values == h.values[..end]
  {
    if n == |h.values| {
      assert Fetched(h, leaderOffset, n, max) == Some([]);
      assert mine == h.values[..end];
    } else {
      var records := Slice(h.values, n, end);
      FetchExact(h, leaderOffset, mine, max);
      assert mine + FollowerWorker.Values(records) == h.values[..end];
    }
  }

  /** k cycles bring exactly the next k batches. */
  lemma {:induction false} CatchesUp(h: History, leaderOffset: int, n: nat, max: int, k: nat, end: nat)
    requires Valid(h) && max > 0 && h.base == 0 && n <= |h.values| <= leaderOffset + 1
    requires CommaFreeFrom(h.values, n) && end == Least(n + k * max, |h.values|)
    ensures Cycles(h, leaderOffset, h.values[..n], max, k) == h.values[..end]
  {
    if k == 0 {
    } else {
      var before := Least(n + (k - 1) * max, |h.values|);
      BatchEnds(n, max, k, |h.values|);
      CatchesUp(h, leaderOffset, n, max, k - 1, before);
      OneMore(h, leaderOffset, before, max, h.values[..before], end);
    }
  }

  lemma BatchEnds(n: nat, max: int, k: nat, total: nat)
    requires max > 0 && k > 0 && n <= total
    ensures n <= Least(n + (k - 1) * max, total)
    ensures Least(Least(n + (k - 1) * max, total) + max, total) == Least(n + k * max, total)
  {
    var before := (k - 1) * max;
    assert k * max == before + max;
    assert before >= 0;
  }

  lemma EnoughBatches(n: nat, max: int, total: nat)
    requires max > 0 && n <= total
    ensures Least(n + (total - n) * max, total) == total
  {
    var k := total - n;
    assert k * max == k + k * (max - 1);
    assert k * (max - 1) >= 0;
  }

  /** A follower that is behind a leader whose manager knows of its whole log ends up with that log if and only
      if nothing was dropped and none of the records it lacks has a comma. */
  lemma CatchesUpIff(h: History, leaderOffset: int, n: nat, max: int)
    requires Valid(h) && max > 0 && n < |h.values| <= leaderOffset + 1
    ensures (exists k: nat :: Cycles(h, leaderOffset, h.values[..n], max, k) == h.values)
            <==> h.base == 0 && forall i :: n <= i < |h.values| ==> !HasComma(h.values[i])
  {
    var mine := h.values[..n];
    if h.base == 0 && CommaFreeFrom(h.values, n) {
      var k := |h.values| - n;
      EnoughBatches(n, max, |h.values|);
      CatchesUp(h, leaderOffset, n, max, k, |h.values|);
      assert h.values[..|h.values|] == h.values;
      assert Cycles(h, leaderOffset, mine, max, k) == h.values;
    }
    if k: nat :| Cycles(h, leaderOffset, mine, max, k) == h.values {
      CyclesCommaFree(h, leaderOffset, mine, max, k);
      if h.base > 0 {
        CyclesStuck(h, leaderOffset, mine, max, k);
      }
    }
  }

  // ---- Where a new worker begins ----

  lemma EndOfLog(leader: Node, f: Follower)
    ensures GoodFollower(leader, f) && f.store.intact && f.worker == Idle(LastOf(f.store) + 1) ==>
              f.worker == Idle(|f.store.values|)
  {
    if GoodFollower(leader, f) && f.store.intact {
      IntactIsOrderly(f.store);
      LastOfOrderly(f.store);
    }
  }

  /** A new worker or a new process of a follower resumes right after the last record of its log. */
  lemma WorkerResumes(setup: Setup, states: seq<System>, steps: seq<Step>, i: nat, id: int)
    requires Behavior(setup, states, steps) && i < |steps|
    requires steps[i] == RestartWorker(id) || steps[i] == RestartFollower(id)
    ensures id in states[i + 1].followers
    ensures var f := states[i + 1].followers[id]; f.store.intact ==> f.worker == Idle(|f.store.values|)
  {
    var s := states[i + 1];
    assert s == Next(setup, states[i], steps[i]);
    Reachable(setup, states, steps, i + 1);
    EndOfLog(s.leader, s.followers[id]);
  }
}
