/** The replication manager's mutable state and loops, each call proved to be its function in
    ReplicationState. The nested topic and partition maps are one map over pairs; each method is
    one critical section. */
module ReplicationManager {
  import opened Text
  import opened Ordering
  import opened R = ReplicationState

  type Key = (string, int)

  function At(cfg: Config, partitions: map<Key, Partition>, key: Key): Partition {
    if key in partitions then partitions[key] else Initial(cfg)
  }

  /** One turn of WaitForAckAll: what other goroutines did to the partition since the last turn,
      the clock reading, and whether the deadline had passed when it was checked. */
  datatype Turn = Turn(calls: seq<(Call, int)>, now: int, expired: bool)

  /** The partition after the given number of polls. */
  function Polled(cfg: Config, p: Partition, turns: seq<Turn>, polls: nat): Partition
    requires polls <= |turns|
  {
    if polls == 0 then p
    else
      var t := turns[polls - 1];
      Recompute(cfg, Run(cfg, Polled(cfg, p, turns, polls - 1), t.calls), t.now)
  }

  /** The poll numbered i finds the target acked by enough replicas. */
  ghost predicate PollCommits(cfg: Config, p: Partition, turns: seq<Turn>, i: nat, target: int)
    requires i < |turns|
  {
    AckedByEnough(cfg, Run(cfg, Polled(cfg, p, turns, i), turns[i].calls), turns[i].now, target)
  }

  /** ... and no earlier turn ran into the deadline. */
  ghost predicate CommitsInTime(cfg: Config, p: Partition, turns: seq<Turn>, i: int, target: int) {
    0 <= i < |turns| && PollCommits(cfg, p, turns, i, target) && forall j :: 0 <= j < i ==> !turns[j].expired
  }

  class Manager {
    const cfg: Config
    var partitions: map<Key, Partition>

    ghost predicate Valid()
      reads this
    {
      Clamped(cfg) && forall key :: key in partitions ==> Lawful(cfg, partitions[key])
    }

    constructor (cfg: Config)
      ensures Valid() && this.cfg == Clamp(cfg) && partitions == map[]
    {
      this.cfg := Clamp(cfg);
      partitions := map[];
    }

    /** ensurePartition. */
    method EnsurePartition(key: Key)
      requires Valid()
      modifies this
      ensures Valid() && partitions == old(partitions)[key := At(cfg, old(partitions), key)]
    {
      if key in partitions {
        assert partitions == partitions[key := partitions[key]];
        return;
      }
      InitialLawful(cfg);
      var followers := NewFollowers(cfg.replicationFactor);
      partitions := partitions[key := Partition(LEADER, -1, -1, followers)];
    }

    /** The end of every call: what it has written is stored and recomputed. */
    method Publish(key: Key, w: Partition, ghost call: Call, now: int)
      requires Valid() && key in partitions && Written(cfg, partitions[key], call, now) == Some(w)
      modifies this
      ensures Valid() && partitions == old(partitions)[key := Apply(cfg, old(partitions)[key], call, now)]
    {
      WrittenGrows(cfg, partitions[key], call, now);
      RecomputeLawful(cfg, w, now);
      var p := RecomputeLocked(cfg, w, now);
      partitions := partitions[key := p];
    }

    /** OnLeaderAppend. */
    method OnLeaderAppend(key: Key, offset: int, now: int)
      requires Valid()
      modifies this
      ensures Valid()
      ensures partitions == old(partitions)[key :=
              Apply(cfg, At(cfg, old(partitions), key), R.OnLeaderAppend(offset), now)]
    {
      EnsurePartition(key);
      var p := partitions[key];
      if p.role != LEADER {
        return;
      }
      ghost var before := p;
      if offset > p.leaderOffset {
        p := p.(leaderOffset := offset);
      }
      Publish(key, p, R.OnLeaderAppend(offset), now);
      UpdateTwice(old(partitions), key, before, partitions[key]);
    }

    /** AckReplica. An id out of range is refused before the partition is created. */
    method AckReplica(key: Key, id: int, offset: int, now: int) returns (ok: bool)
      requires Valid()
      modifies this
      ensures Valid() && ok == AckAccepted(cfg, At(cfg, old(partitions), key), id)
      ensures if 0 < id < cfg.replicationFactor
              then partitions == old(partitions)[key :=
                  Apply(cfg, At(cfg, old(partitions), key), R.AckReplica(id, offset), now)]
              else partitions == old(partitions)
    {
      if id <= 0 || id >= cfg.replicationFactor {
        return false;
      }
      EnsurePartition(key);
      var p := partitions[key];
      if p.role != LEADER {
        return false;
      }
      if id !in p.followers {
        return false;
      }
      p := RecordAck(cfg, p, id, offset, now);
      Publish(key, p, R.AckReplica(id, offset), now);
      return true;
    }

    /** WaitForAckAll. Time passes, so the last turn is one whose deadline check fails. */
    method WaitForAckAll(key: Key, target: int, turns: seq<Turn>) returns (ok: bool, polls: nat)
      requires Valid() && turns != [] && turns[|turns| - 1].expired
      modifies this
      ensures Valid() && 0 < polls <= |turns|
      ensures partitions == old(partitions)[key := Polled(cfg, At(cfg, old(partitions), key), turns, polls)]
      ensures ok ==> PollCommits(cfg, At(cfg, old(partitions), key), turns, polls - 1, target)
      ensures ok <==> exists i :: CommitsInTime(cfg, At(cfg, old(partitions), key), turns, i, target)
    {
      EnsurePartition(key);
      var p;
      p, ok, polls := AwaitCommit(cfg, partitions[key], target, turns);
      PolledLawful(cfg, partitions[key], turns, polls);
      partitions := partitions[key := p];
    }

    /** HighWatermark. */
    method HighWatermark(key: Key, now: int) returns (hw: int)
      requires Valid()
      modifies this
      ensures Valid()
      ensures partitions == old(partitions)[key := Apply(cfg, At(cfg, old(partitions), key), Observe, now)]
      ensures hw == partitions[key].highWatermark
    {
      EnsurePartition(key);
      ghost var p := partitions[key];
      Publish(key, partitions[key], Observe, now);
      UpdateTwice(old(partitions), key, p, partitions[key]);
      hw := partitions[key].highWatermark;
    }

    /** SetRole, with the writes that its final recomputation replaces. */
    method SetRole(key: Key, role: string, now: int) returns (ok: bool)
      requires Valid()
      modifies this
      ensures Valid() && ok == (role == LEADER || role == FOLLOWER)
      ensures partitions == if ok then old(partitions)[key :=
              Apply(cfg, At(cfg, old(partitions), key), R.SetRole(role), now)]
                            else old(partitions)
    {
      if role != LEADER && role != FOLLOWER {
        return false;
      }
      EnsurePartition(key);
      ghost var p := partitions[key];
      var w := WriteRole(partitions[key], role);
      Publish(key, w, R.SetRole(role), now);
      UpdateTwice(old(partitions), key, p, partitions[key]);
      return true;
    }

    /** BootstrapOffset, with the write that its final recomputation replaces. */
    method BootstrapOffset(key: Key, offset: int, now: int)
      requires Valid()
      modifies this
      ensures Valid()
      ensures partitions == old(partitions)[key :=
              Apply(cfg, At(cfg, old(partitions), key), R.BootstrapOffset(offset), now)]
    {
      EnsurePartition(key);
      ghost var p := partitions[key];
      var w := WriteOffset(partitions[key], offset);
      Publish(key, w, R.BootstrapOffset(offset), now);
      UpdateTwice(old(partitions), key, p, partitions[key]);
    }
  }

  /** ensurePartition's loop. */
  method NewFollowers(n: int) returns (followers: map<int, Replica>)
    requires n >= 1
    ensures followers == UnseenFollowers(n)
  {
    followers := map[];
    var id := 1;
    while id < n
      invariant 1 <= id <= n
      invariant followers == UnseenFollowers(id)
    {
      followers := followers[id := Replica(-1, None, false)];
      id := id + 1;
    }
  }

  /** What SetRole writes before it recomputes. */
  method WriteRole(p: Partition, role: string) returns (w: Partition)
    ensures w == WithRole(p, role)
  {
    w := p.(role := role);
    if role == FOLLOWER {
      w := w.(highWatermark := -1);
      w := w.(followers := map id | id in w.followers :: w.followers[id].(inSync := false));
    }
  }

  /** What BootstrapOffset writes before it recomputes. */
  method WriteOffset(p: Partition, offset: int) returns (w: Partition)
    ensures w == Bootstrapped(p, offset)
  {
    w := p;
    if offset > w.leaderOffset {
      w := w.(leaderOffset := offset);
    }
    if w.role == FOLLOWER {
      w := w.(highWatermark := offset);
    }
  }

  /** What AckReplica writes before it recomputes. */
  method RecordAck(cfg: Config, p: Partition, id: int, offset: int, now: int) returns (w: Partition)
    requires AckAccepted(cfg, p, id)
    ensures Written(cfg, p, R.AckReplica(id, offset), now) == Some(w)
  {
    var r := p.followers[id];
    var acked := offset;
    if acked > p.leaderOffset {
      acked := p.leaderOffset;
    }
    if acked > r.offset {
      r := r.(offset := acked);
    }
    r := r.(lastSeen := Some(now));
    w := p.(followers := p.followers[id := r]);
  }

  lemma {:induction false} PolledLawful(cfg: Config, p: Partition, turns: seq<Turn>, polls: nat)
    requires Clamped(cfg) && Lawful(cfg, p) && polls <= |turns|
    ensures Lawful(cfg, Polled(cfg, p, turns, polls))
  {
    if polls == 0 {
    } else {
      PolledLawful(cfg, p, turns, polls - 1);
      RunKeepsLaw(cfg, Polled(cfg, p, turns, polls - 1), turns[polls - 1].calls);
      RecomputeLawful(cfg, Run(cfg, Polled(cfg, p, turns, polls - 1), turns[polls - 1].calls), turns[polls - 1].now);
    }
  }

  /** One turn of WaitForAckAll's loop, after what other goroutines did. */
  method PollOnce(cfg: Config, p: Partition, t: Turn, target: int) returns (q: Partition, ok: bool)
    requires Clamped(cfg) && Lawful(cfg, p)
    ensures q == Recompute(cfg, Run(cfg, p, t.calls), t.now) && Lawful(cfg, q)
    ensures ok <==> AckedByEnough(cfg, Run(cfg, p, t.calls), t.now, target)
  {
    RunKeepsLaw(cfg, p, t.calls);
    RecomputeLawful(cfg, Run(cfg, p, t.calls), t.now);
    PollSucceedsIff(cfg, Run(cfg, p, t.calls), t.now, target);
    q := RecomputeLocked(cfg, Run(cfg, p, t.calls), t.now);
    var isr := StatusLocked(cfg, q, t.now);
    ok := q.highWatermark >= target && |isr| >= cfg.minInSyncReplicas;
  }

  /** The turn numbered i. */
  method PollTurn(cfg: Config, ghost start: Partition, turns: seq<Turn>, i: nat, p: Partition, target: int)
    returns (q: Partition, ok: bool)
    requires Clamped(cfg) && Lawful(cfg, start) && i < |turns| && p == Polled(cfg, start, turns, i)
    ensures q == Polled(cfg, start, turns, i + 1)
    ensures ok <==> PollCommits(cfg, start, turns, i, target)
  {
    PolledLawful(cfg, start, turns, i);
    q, ok := PollOnce(cfg, p, turns[i], target);
  }

  /** No turn before this one ended the wait. */
  ghost predicate Waiting(cfg: Config, start: Partition, turns: seq<Turn>, polls: nat, target: int) {
    polls <= |turns| &&
    forall i :: 0 <= i < polls ==> !turns[i].expired && !PollCommits(cfg, start, turns, i, target)
  }

  lemma TurnDecides(cfg: Config, start: Partition, turns: seq<Turn>, i: nat, target: int)
    requires i < |turns| && Waiting(cfg, start, turns, i, target)
    ensures PollCommits(cfg, start, turns, i, target) ==> exists k :: CommitsInTime(cfg, start, turns, k, target)
    ensures !PollCommits(cfg, start, turns, i, target) && turns[i].expired ==>
              !exists k :: CommitsInTime(cfg, start, turns, k, target)
    ensures !PollCommits(cfg, start, turns, i, target) && !turns[i].expired ==>
              Waiting(cfg, start, turns, i + 1, target)
  {
    if PollCommits(cfg, start, turns, i, target) {
      assert CommitsInTime(cfg, start, turns, i, target);
    }
  }

  /** WaitForAckAll's loop: it succeeds exactly when some poll finds the target acked by enough replicas
      before a deadline check fails. */
  method AwaitCommit(cfg: Config, start: Partition, target: int, turns: seq<Turn>)
    returns (p: Partition, ok: bool, polls: nat)
    requires Clamped(cfg) && Lawful(cfg, start) && turns != [] && turns[|turns| - 1].expired
    ensures 0 < polls <= |turns| && p == Polled(cfg, start, turns, polls)
    ensures ok ==> PollCommits(cfg, start, turns, polls - 1, target)
    ensures ok <==> exists i :: CommitsInTime(cfg, start, turns, i, target)
  {
    p, polls := start, 0;
    while true
      invariant polls < |turns| && p == Polled(cfg, start, turns, polls)
      invariant Waiting(cfg, start, turns, polls, target)
      decreases |turns| - polls
    {
      p, ok := PollTurn(cfg, start, turns, polls, p, target);
      TurnDecides(cfg, start, turns, polls, target);
      polls := polls + 1;
      if ok {
        return;
      }
      if turns[polls - 1].expired {
        return;
      }
    }
  }

  /** recomputeLocked. */
  method RecomputeLocked(cfg: Config, p: Partition, now: int) returns (q: Partition)
    requires Clamped(cfg) && GoodOffsets(cfg, p)
    ensures q == Recompute(cfg, p, now)
    ensures q.followers.Keys == p.followers.Keys && forall id :: id in p.followers ==>
              && q.followers[id].offset == p.followers[id].offset
              && q.followers[id].lastSeen == p.followers[id].lastSeen
              && (q.followers[id].inSync <==> id in Counted(cfg, p, now))
  {
    var followers, offsets := RefreshFollowers(cfg, p, now);
    var hw := LeastOf(p.leaderOffset, offsets);
    WatermarkFromOffsets(cfg, p.leaderOffset, followers, offsets, hw);
    if hw < -1 {
      hw := -1;
    }
    q := p.(followers := followers, highWatermark := hw);
  }

  /** statusLocked's in-sync list: the leader as replica 0, then followers in any order. */
  method StatusLocked(cfg: Config, p: Partition, now: int) returns (isr: seq<int>)
    ensures |isr| == 1 + |InSync(cfg, p, now)|
    ensures forall id :: id in isr <==> id == 0 || id in InSync(cfg, p, now)
  {
    var remaining := p.followers.Keys;
    isr := [0];
    ghost var all := InSync(cfg, p, now);
    while remaining != {}
      invariant remaining <= p.followers.Keys
      invariant |isr| == 1 + |all - remaining|
      invariant forall id :: id in isr <==> id == 0 || id in all - remaining
      decreases remaining
    {
      var id := Choose(remaining);
      var r := p.followers[id];
      if r.inSync && (r.lastSeen.Some? ==> now - r.lastSeen.value <= cfg.replicaLagTimeout) {
        isr := isr + [id];
        assert all - (remaining - {id}) == (all - remaining) + {id};
      } else {
        assert all - (remaining - {id}) == all - remaining;
      }
      remaining := remaining - {id};
    }
    assert all - {} == all;
  }

  /** The first loop of recomputeLocked: every follower's in-sync flag and the offsets that count
      towards the high watermark. */
  method RefreshFollowers(cfg: Config, p: Partition, now: int) returns (followers: map<int, Replica>, offsets: seq<int>)
    ensures followers == Refreshed(cfg, p.leaderOffset, p.followers, now)
    ensures forall i :: 0 <= i < |offsets| ==> IsSource(p.leaderOffset, followers, offsets[i])
    ensures p.leaderOffset in offsets
    ensures forall id :: id in followers && followers[id].inSync ==> followers[id].offset in offsets
  {
    ghost var target := Refreshed(cfg, p.leaderOffset, p.followers, now);
    var remaining: set<int> := p.followers.Keys;
    followers, offsets := p.followers, [p.leaderOffset];
    while remaining != {}
      invariant remaining <= p.followers.Keys && followers.Keys == p.followers.Keys
      invariant forall id :: id in remaining ==> followers[id] == p.followers[id]
      invariant forall id :: id in followers && id !in remaining ==> followers[id] == target[id]
      invariant forall i :: 0 <= i < |offsets| ==> IsSource(p.leaderOffset, target, offsets[i])
      invariant p.leaderOffset in offsets
      invariant forall id :: id in target && id !in remaining && target[id].inSync ==> target[id].offset in offsets
      decreases remaining
    {
      var id := Choose(remaining);
      var r := p.followers[id];
      var inSync := CaughtUp(cfg, p.leaderOffset, r, now);
      assert target[id] == r.(inSync := inSync);
      followers := followers[id := r.(inSync := inSync)];
      if inSync {
        offsets := offsets + [r.offset];
      }
      remaining := remaining - {id};
    }
    assert forall id :: id in followers ==> followers[id] == target[id];
    assert followers.Keys == target.Keys;
  }

  /** The second loop of recomputeLocked. */
  method LeastOf(leaderOffset: int, offsets: seq<int>) returns (hw: int)
    requires leaderOffset in offsets
    ensures hw in offsets && forall i :: 0 <= i < |offsets| ==> hw <= offsets[i]
  {
    hw := leaderOffset;
    for i := 0 to |offsets|
      invariant hw in offsets && forall j :: 0 <= j < i ==> hw <= offsets[j]
    {
      if offsets[i] < hw {
        hw := offsets[i];
      }
    }
  }

  ghost predicate IsSource(leaderOffset: int, followers: map<int, Replica>, offset: int) {
    offset == leaderOffset || exists id :: id in followers && followers[id].inSync && followers[id].offset == offset
  }

  lemma WatermarkFromOffsets(cfg: Config, leaderOffset: int, followers: map<int, Replica>, offsets: seq<int>, hw: int)
    requires Clamped(cfg) && forall id :: id in followers ==> 1 <= id < cfg.replicationFactor
    requires forall i :: 0 <= i < |offsets| ==> IsSource(leaderOffset, followers, offsets[i])
    requires leaderOffset in offsets
    requires forall id :: id in followers && followers[id].inSync ==> followers[id].offset in offsets
    requires hw in offsets && forall i :: 0 <= i < |offsets| ==> hw <= offsets[i]
    ensures (if hw < -1 then -1 else hw) == Watermark(cfg, leaderOffset, followers)
  {
    LeastOffsetIsLeast(leaderOffset, followers, cfg.replicationFactor);
    var least := LeastOffset(leaderOffset, followers, cfg.replicationFactor);
    assert least in offsets;
    assert IsSource(leaderOffset, followers, hw);
  }
}
