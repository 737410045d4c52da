/** The replication state read off the log of manager calls: the role, the leader's offset, each follower's
    offset and last ack, and who is in sync, each in terms of the calls alone. */
module ReplicationLog {
  import opened Text
  import opened ReplicationState

  type Calls = seq<(Call, int)>

  function After(cfg: Config, calls: Calls): Partition {
    Run(cfg, Initial(cfg), calls)
  }

  // ---- Reading a log ----

  /** Every demotion among the first k calls was followed by a promotion. */
  ghost predicate LeadsAt(calls: Calls, k: nat) {
    forall m :: 0 <= m < k <= |calls| && calls[m].0 == SetRole(FOLLOWER) ==> PromotedBetween(calls, m, k)
  }

  ghost predicate PromotedBetween(calls: Calls, m: nat, k: nat) {
    exists n :: m < n < k <= |calls| && calls[n].0 == SetRole(LEADER)
  }

  /** Call m tells the manager that the leader's log reaches o. */
  ghost predicate Reports(calls: Calls, m: nat, o: int) {
    m < |calls| &&
    match calls[m].0
    case OnLeaderAppend(offset) => offset >= o && LeadsAt(calls, m)
    case BootstrapOffset(offset) => offset >= o
    case _ => false
  }

  ghost predicate Reached(calls: Calls, k: nat, o: int) {
    o <= -1 || exists m :: 0 <= m < k && Reports(calls, m, o)
  }

  /** Call m is an ack of follower id that the manager takes. */
  ghost predicate Acks(cfg: Config, calls: Calls, m: nat, id: int) {
    m < |calls| && calls[m].0.AckReplica? && calls[m].0.id == id && 0 < id < cfg.replicationFactor && LeadsAt(calls, m)
  }

  /** ... and puts the follower at o or further: an ack counts up to where the leader is. */
  ghost predicate AcksUpTo(cfg: Config, calls: Calls, m: nat, id: int, o: int) {
    Acks(cfg, calls, m, id) && calls[m].0.offset >= o && Reached(calls, m, o)
  }

  ghost predicate Recorded(cfg: Config, calls: Calls, k: nat, id: int, o: int) {
    o <= -1 || exists m :: 0 <= m < k && AcksUpTo(cfg, calls, m, id, o)
  }

  ghost predicate LastAck(cfg: Config, calls: Calls, id: int, k: nat) {
    Acks(cfg, calls, k, id) && forall m :: k < m < |calls| ==> !Acks(cfg, calls, m, id)
  }

  /** Whether a call after these calls recomputes the in-sync set. */
  ghost predicate Recomputes(cfg: Config, calls: Calls, call: Call) {
    match call
    case OnLeaderAppend(_) => LeadsAt(calls, |calls|)
    case AckReplica(id, _) => 0 < id < cfg.replicationFactor && LeadsAt(calls, |calls|)
    case Observe => true
    case SetRole(role) => role == LEADER || role == FOLLOWER
    case BootstrapOffset(_) => true
  }

  // ---- Logs that grow ----

  lemma LeadsPrefix(front: Calls, all: Calls, k: nat)
    requires front <= all && k <= |front|
    ensures LeadsAt(all, k) <==> LeadsAt(front, k)
  {
    assert forall m :: 0 <= m < k ==> all[m] == front[m];
    forall m | 0 <= m < k
      ensures PromotedBetween(all, m, k) <==> PromotedBetween(front, m, k)
    {
      if PromotedBetween(all, m, k) {
        var n :| m < n < k <= |all| && all[n].0 == SetRole(LEADER);
        assert front[n].0 == SetRole(LEADER);
      }
      if PromotedBetween(front, m, k) {
        var n :| m < n < k <= |front| && front[n].0 == SetRole(LEADER);
        assert all[n].0 == SetRole(LEADER);
      }
    }
  }

  lemma ReportsPrefix(front: Calls, all: Calls, m: nat, o: int)
    requires front <= all && m < |front|
    ensures Reports(all, m, o) <==> Reports(front, m, o)
  {
    LeadsPrefix(front, all, m);
  }

  lemma ReachedPrefix(front: Calls, all: Calls, k: nat, o: int)
    requires front <= all && k <= |front|
    ensures Reached(all, k, o) <==> Reached(front, k, o)
  {
    forall m | 0 <= m < k
      ensures Reports(all, m, o) <==> Reports(front, m, o)
    {
      ReportsPrefix(front, all, m, o);
    }
  }

  lemma AcksPrefix(cfg: Config, front: Calls, all: Calls, m: nat, id: int, o: int)
    requires front <= all && m < |front|
    ensures Acks(cfg, all, m, id) <==> Acks(cfg, front, m, id)
    ensures AcksUpTo(cfg, all, m, id, o) <==> AcksUpTo(cfg, front, m, id, o)
  {
    LeadsPrefix(front, all, m);
    ReachedPrefix(front, all, m, o);
  }

  lemma RecordedPrefix(cfg: Config, front: Calls, all: Calls, k: nat, id: int, o: int)
    requires front <= all && k <= |front|
    ensures Recorded(cfg, all, k, id, o) <==> Recorded(cfg, front, k, id, o)
  {
    forall m | 0 <= m < k
      ensures AcksUpTo(cfg, all, m, id, o) <==> AcksUpTo(cfg, front, m, id, o)
    {
      AcksPrefix(cfg, front, all, m, id, o);
    }
  }

  lemma LeadsStep(front: Calls, all: Calls)
    requires all != [] && front == all[..|all| - 1]
    ensures var last := all[|all| - 1].0;
            LeadsAt(all, |all|) <==>
            if last == SetRole(LEADER) then true
            else if last == SetRole(FOLLOWER) then false
            else LeadsAt(front, |front|)
  {
    var n := |front|;
    LeadsPrefix(front, all, n);
    var last := all[n].0;
    if last == SetRole(LEADER) {
      forall m | 0 <= m < |all| && all[m].0 == SetRole(FOLLOWER)
        ensures PromotedBetween(all, m, |all|)
      {
        assert m < n < |all|;
      }
    } else if last == SetRole(FOLLOWER) {
      assert !PromotedBetween(all, n, |all|);
    } else {
      forall m | 0 <= m < n
        ensures PromotedBetween(all, m, n + 1) <==> PromotedBetween(all, m, n)
      {
        if PromotedBetween(all, m, n + 1) {
          var i :| m < i < n + 1 && all[i].0 == SetRole(LEADER);
          assert i < n;
        }
        if PromotedBetween(all, m, n) {
          var i :| m < i < n && all[i].0 == SetRole(LEADER);
          assert m < i < n + 1;
        }
      }
    }
  }

  // ---- The role ----

  lemma {:induction false} RoleRead(cfg: Config, calls: Calls)
    ensures After(cfg, calls).role == if LeadsAt(calls, |calls|) then LEADER else FOLLOWER
  {
    if calls == [] {
    } else {
      var front := calls[..|calls| - 1];
      RoleRead(cfg, front);
      LeadsStep(front, calls);
    }
  }

  // ---- The leader's offset ----

  lemma ReachedStep(front: Calls, all: Calls, o: int)
    requires all != [] && front == all[..|all| - 1]
    ensures Reached(all, |all|, o) <==> Reached(front, |front|, o) || Reports(all, |front|, o)
  {
    var n := |front|;
    ReachedPrefix(front, all, n, o);
    if Reached(all, n + 1, o) && !(o <= -1) {
      var m :| 0 <= m < n + 1 && Reports(all, m, o);
      assert m < n || m == n;
    }
  }

  /** What one call does to the leader's offset. */
  lemma LeaderStep(cfg: Config, front: Calls, calls: Calls, o: int)
    requires Clamped(cfg) && calls != [] && front == calls[..|calls| - 1]
    ensures After(cfg, calls).leaderOffset >= o <==> After(cfg, front).leaderOffset >= o || Reports(calls, |front|, o)
  {
    RoleRead(cfg, front);
    RunLawful(cfg, front);
    LeadsPrefix(front, calls, |front|);
  }

  /** The leader's offset is the furthest that any call reported. */
  lemma {:induction false} LeaderOffsetRead(cfg: Config, calls: Calls, o: int)
    requires Clamped(cfg)
    ensures After(cfg, calls).leaderOffset >= o <==> Reached(calls, |calls|, o)
  {
    if calls == [] {
    } else {
      var front := calls[..|calls| - 1];
      LeaderOffsetRead(cfg, front, o);
      LeaderStep(cfg, front, calls, o);
      ReachedStep(front, calls, o);
    }
  }

  // ---- Followers ----

  lemma RecordedStep(cfg: Config, front: Calls, all: Calls, id: int, o: int)
    requires all != [] && front == all[..|all| - 1]
    ensures Recorded(cfg, all, |all|, id, o) <==>
            Recorded(cfg, front, |front|, id, o) || AcksUpTo(cfg, all, |front|, id, o)
  {
    var n := |front|;
    RecordedPrefix(cfg, front, all, n, id, o);
    if Recorded(cfg, all, n + 1, id, o) && !(o <= -1) {
      var m :| 0 <= m < n + 1 && AcksUpTo(cfg, all, m, id, o);
      assert m < n || m == n;
    }
  }

  /** What one call does to one follower's offset and last ack. */
  lemma FollowerStep(cfg: Config, calls: Calls, id: int, o: int)
    requires Clamped(cfg) && calls != [] && 1 <= id < cfg.replicationFactor
    ensures var front, last := calls[..|calls| - 1], calls[|calls| - 1];
            var p, q := After(cfg, front), After(cfg, calls);
            && id in p.followers && id in q.followers
            && if Acks(cfg, calls, |front|, id)
               then && q.followers[id].lastSeen == Some(last.1)
                    && (q.followers[id].offset >= o <==>
                        p.followers[id].offset >= o || (last.0.offset >= o && p.leaderOffset >= o))
               else q.followers[id].offset == p.followers[id].offset
                    && q.followers[id].lastSeen == p.followers[id].lastSeen
  {
    var front := calls[..|calls| - 1];
    RoleRead(cfg, front);
    RunLawful(cfg, front);
    LeadsPrefix(front, calls, |front|);
  }

  /** A follower's offset is the furthest that any ack of it put it. */
  lemma {:induction false} OffsetRead(cfg: Config, calls: Calls, id: int, o: int)
    requires Clamped(cfg) && 1 <= id < cfg.replicationFactor
    ensures id in After(cfg, calls).followers
    ensures After(cfg, calls).followers[id].offset >= o <==> Recorded(cfg, calls, |calls|, id, o)
  {
    if calls == [] {
    } else {
      var front := calls[..|calls| - 1];
      OffsetRead(cfg, front, id, o);
      FollowerStep(cfg, calls, id, o);
      RecordedStep(cfg, front, calls, id, o);
      LeaderOffsetRead(cfg, front, o);
      ReachedPrefix(front, calls, |front|, o);
    }
  }

  lemma LastAckStep(cfg: Config, front: Calls, all: Calls, id: int, k: nat)
    requires all != [] && front == all[..|all| - 1]
    ensures LastAck(cfg, all, id, k) <==>
            if Acks(cfg, all, |front|, id) then k == |front| else LastAck(cfg, front, id, k)
  {
    forall m | 0 <= m < |front|
      ensures Acks(cfg, all, m, id) <==> Acks(cfg, front, m, id)
    {
      AcksPrefix(cfg, front, all, m, id, 0);
    }
  }

  /** A follower was last seen at the time of its last ack. */
  lemma {:induction false} LastSeenRead(cfg: Config, calls: Calls, id: int, t: int)
    requires Clamped(cfg) && 1 <= id < cfg.replicationFactor
    ensures id in After(cfg, calls).followers
    ensures After(cfg, calls).followers[id].lastSeen == Some(t) <==>
            exists k: nat :: LastAck(cfg, calls, id, k) && calls[k].1 == t
  {
    if calls == [] {
    } else {
      var front := calls[..|calls| - 1];
      LastSeenRead(cfg, front, id, t);
      FollowerStep(cfg, calls, id, 0);
      forall k: nat
        ensures LastAck(cfg, calls, id, k) <==>
                if Acks(cfg, calls, |front|, id) then k == |front| else LastAck(cfg, front, id, k)
      {
        LastAckStep(cfg, front, calls, id, k);
      }
      if Acks(cfg, calls, |front|, id) {
        assert LastAck(cfg, calls, id, |front|);
      }
    }
  }

  // ---- The in-sync set ----

  /** The ack that counts for follower id at the given time: its last one, not older than the timeout. */
  ghost predicate HeardWithin(cfg: Config, calls: Calls, id: int, now: int) {
    exists k: nat :: LastAck(cfg, calls, id, k) && now - calls[k].1 <= cfg.replicaLagTimeout
  }

  lemma Recomputed(cfg: Config, calls: Calls)
    requires Clamped(cfg) && calls != []
    ensures var front, last := calls[..|calls| - 1], calls[|calls| - 1];
            if Recomputes(cfg, front, last.0)
            then exists w :: After(cfg, calls) == Recompute(cfg, w, last.1)
            else After(cfg, calls) == After(cfg, front)
  {
    var front, last := calls[..|calls| - 1], calls[|calls| - 1];
    RoleRead(cfg, front);
    RunLawful(cfg, front);
    var w := Written(cfg, After(cfg, front), last.0, last.1);
    if w.Some? {
      assert After(cfg, calls) == Recompute(cfg, w.value, last.1);
    }
  }

  lemma RecomputedFlag(cfg: Config, w: Partition, now: int, id: int)
    requires id in w.followers
    ensures var q := Recompute(cfg, w, now);
            && id in q.followers
            && (q.followers[id].inSync <==>
                && (exists t :: q.followers[id].lastSeen == Some(t) && now - t <= cfg.replicaLagTimeout)
                && q.leaderOffset - q.followers[id].offset <= cfg.maxReplicaLag)
  {
    var r := w.followers[id];
    if r.lastSeen.Some? {
      assert r.lastSeen == Some(r.lastSeen.value);
    }
  }

  /** After a call that recomputes, a follower is in sync if and only if its last ack is not older than the
      timeout and it is within the permitted lag; any other call leaves everything as it was. */
  lemma InSyncRead(cfg: Config, calls: Calls, id: int)
    requires Clamped(cfg) && calls != [] && 1 <= id < cfg.replicationFactor
    ensures var front, last, q := calls[..|calls| - 1], calls[|calls| - 1], After(cfg, calls);
            && id in q.followers
            && if Recomputes(cfg, front, last.0)
               then q.followers[id].inSync <==>
                    HeardWithin(cfg, calls, id, last.1) && q.leaderOffset - q.followers[id].offset <= cfg.maxReplicaLag
               else q == After(cfg, front)
  {
    var front, last, q := calls[..|calls| - 1], calls[|calls| - 1], After(cfg, calls);
    Recomputed(cfg, calls);
    OffsetRead(cfg, calls, id, 0);
    if Recomputes(cfg, front, last.0) {
      var w :| q == Recompute(cfg, w, last.1);
      RecomputedFlag(cfg, w, last.1, id);
      SeenWithin(cfg, calls, id, last.1);
    }
  }

  lemma SeenWithin(cfg: Config, calls: Calls, id: int, now: int)
    requires Clamped(cfg) && 1 <= id < cfg.replicationFactor
    ensures id in After(cfg, calls).followers
    ensures (exists t :: After(cfg, calls).followers[id].lastSeen == Some(t) && now - t <= cfg.replicaLagTimeout)
            <==> HeardWithin(cfg, calls, id, now)
  {
    OffsetRead(cfg, calls, id, 0);
    var r := After(cfg, calls).followers[id];
    if t :| r.lastSeen == Some(t) && now - t <= cfg.replicaLagTimeout {
      LastSeenRead(cfg, calls, id, t);
    }
    if HeardWithin(cfg, calls, id, now) {
      var k: nat :| LastAck(cfg, calls, id, k) && now - calls[k].1 <= cfg.replicaLagTimeout;
      LastSeenRead(cfg, calls, id, calls[k].1);
    }
  }
}
