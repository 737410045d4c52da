/** One partition's replication state on its leader: recorded follower offsets, the in-sync set
    and the high watermark, with the effect of each manager call as a function. */
module ReplicationState {
  import opened Text

  datatype Config = Config(
    replicationFactor: int, minInSyncReplicas: int, maxReplicaLag: int, replicaLagTimeout: int, ackAllTimeout: int)

  /** lastSeen is None until the first ack: Go's zero time. */
  datatype Replica = Replica(offset: int, lastSeen: Option<int>, inSync: bool)

  datatype Partition = Partition(role: string, leaderOffset: int, highWatermark: int, followers: map<int, Replica>)

  const LEADER := "leader"
  const FOLLOWER := "follower"

  function Apart(a: int, b: int): nat {
    if a < b then b - a else a - b
  }

  /** NewManager's clamping of its configuration: each number becomes the nearest usable one. Times are in
      nanoseconds. */
  function Clamp(cfg: Config): (r: Config)
    ensures Clamped(r) && (Clamped(cfg) ==> r == cfg)
    ensures forall n :: n >= 1 ==> Apart(r.replicationFactor, cfg.replicationFactor) <= Apart(n, cfg.replicationFactor)
    ensures forall n :: 1 <= n <= r.replicationFactor ==>
              Apart(r.minInSyncReplicas, cfg.minInSyncReplicas) <= Apart(n, cfg.minInSyncReplicas)
    ensures forall n :: n >= 0 ==> Apart(r.maxReplicaLag, cfg.maxReplicaLag) <= Apart(n, cfg.maxReplicaLag)
    ensures cfg.replicaLagTimeout <= 0 ==> r.replicaLagTimeout == 10_000_000_000
    ensures cfg.replicaLagTimeout > 0 ==> r.replicaLagTimeout == cfg.replicaLagTimeout
    ensures cfg.ackAllTimeout <= 0 ==> r.ackAllTimeout == 2_000_000_000
    ensures cfg.ackAllTimeout > 0 ==> r.ackAllTimeout == cfg.ackAllTimeout
  {
    var factor := if cfg.replicationFactor < 1 then 1 else cfg.replicationFactor;
    var floor := if cfg.minInSyncReplicas < 1 then 1 else cfg.minInSyncReplicas;
    Config(factor,
           if floor > factor then factor else floor,
           if cfg.maxReplicaLag < 0 then 0 else cfg.maxReplicaLag,
           if cfg.replicaLagTimeout <= 0 then 10_000_000_000 else cfg.replicaLagTimeout,
           if cfg.ackAllTimeout <= 0 then 2_000_000_000 else cfg.ackAllTimeout)
  }

  predicate Clamped(cfg: Config) {
    1 <= cfg.minInSyncReplicas <= cfg.replicationFactor
    && 0 <= cfg.maxReplicaLag && 0 < cfg.replicaLagTimeout && 0 < cfg.ackAllTimeout
  }

  /** ensurePartition's initial state. */
  function Initial(cfg: Config): Partition {
    Partition(LEADER, -1, -1, UnseenFollowers(cfg.replicationFactor))
  }

  /** One record for each follower id from 1 below n. */
  function UnseenFollowers(n: int): (followers: map<int, Replica>)
    ensures forall id :: id in followers <==> 1 <= id < n
    ensures forall id :: id in followers ==> followers[id] == Replica(-1, None, false)
    decreases n
  {
    if n <= 1 then map[] else UnseenFollowers(n - 1)[n - 1 := Replica(-1, None, false)]
  }

  // ---- Recomputation ----

  predicate Fresh(cfg: Config, r: Replica, now: int) {
    r.lastSeen.Some? && now - r.lastSeen.value <= cfg.replicaLagTimeout
  }

  predicate CaughtUp(cfg: Config, leaderOffset: int, r: Replica, now: int) {
    Fresh(cfg, r, now) && leaderOffset - r.offset <= cfg.maxReplicaLag
  }

  function Refreshed(cfg: Config, leaderOffset: int, followers: map<int, Replica>, now: int): map<int, Replica> {
    map id | id in followers :: followers[id].(inSync := CaughtUp(cfg, leaderOffset, followers[id], now))
  }

  /** The least of the leader's offset and the in-sync offsets of followers below id n. */
  function LeastOffset(leaderOffset: int, followers: map<int, Replica>, n: nat): int {
    if n == 0 then leaderOffset
    else
      var least := LeastOffset(leaderOffset, followers, n - 1);
      if n - 1 in followers && followers[n - 1].inSync && followers[n - 1].offset < least
      then followers[n - 1].offset else least
  }

  function Watermark(cfg: Config, leaderOffset: int, followers: map<int, Replica>): int {
    var least := LeastOffset(leaderOffset, followers, if cfg.replicationFactor < 0 then 0 else cfg.replicationFactor);
    if least < -1 then -1 else least
  }

  /** recomputeLocked. */
  function Recompute(cfg: Config, p: Partition, now: int): Partition {
    var followers := Refreshed(cfg, p.leaderOffset, p.followers, now);
    p.(followers := followers, highWatermark := Watermark(cfg, p.leaderOffset, followers))
  }

  /** The in-sync set statusLocked reports: the leader, which it lists as replica 0, and the
      in-sync followers. */
  function InSync(cfg: Config, p: Partition, now: int): set<int> {
    set id | id in p.followers && p.followers[id].inSync
             && (p.followers[id].lastSeen.Some? ==> now - p.followers[id].lastSeen.value <= cfg.replicaLagTimeout)
  }

  // ---- Calls ----

  datatype Call =
    | OnLeaderAppend(offset: int)
    | AckReplica(id: int, offset: int)
    | Observe                         // HighWatermark, Status and each poll of WaitForAckAll
    | SetRole(role: string)
    | BootstrapOffset(offset: int)

  /** The new state: what the call writes, recomputed. Calls that return an error, and reports to a
      partition that is not the leader, leave it as it was. */
  function Apply(cfg: Config, p: Partition, call: Call, now: int): Partition {
    match Written(cfg, p, call, now)
    case None => p
    case Some(written) => Recompute(cfg, written, now)
  }

  function Written(cfg: Config, p: Partition, call: Call, now: int): Option<Partition> {
    match call
    case OnLeaderAppend(offset) =>
      if p.role != LEADER then None else Some(p.(leaderOffset := Max(p.leaderOffset, offset)))
    case AckReplica(id, offset) =>
      if !AckAccepted(cfg, p, id) then None
      else
        var acked := if offset > p.leaderOffset then p.leaderOffset else offset;
        var r := p.followers[id];
        Some(p.(followers := p.followers[id := r.(offset := Max(r.offset, acked), lastSeen := Some(now))]))
    case Observe => Some(p)
    case SetRole(role) => if role != LEADER && role != FOLLOWER then None else Some(WithRole(p, role))
    case BootstrapOffset(offset) => Some(Bootstrapped(p, offset))
  }

  /** What SetRole writes before it recomputes. */
  function WithRole(p: Partition, role: string): Partition {
    if role == FOLLOWER
    then Partition(role, p.leaderOffset, -1, map id | id in p.followers :: p.followers[id].(inSync := false))
    else p.(role := role)
  }

  /** What BootstrapOffset writes before it recomputes. */
  function Bootstrapped(p: Partition, offset: int): Partition {
    var raised := p.(leaderOffset := Max(p.leaderOffset, offset));
    if p.role == FOLLOWER then raised.(highWatermark := offset) else raised
  }

  predicate AckAccepted(cfg: Config, p: Partition, id: int) {
    0 < id < cfg.replicationFactor && p.role == LEADER && id in p.followers
  }

  function Run(cfg: Config, p: Partition, calls: seq<(Call, int)>): Partition {
    if calls == [] then p
    else
      var n := |calls| - 1;
      Apply(cfg, Run(cfg, p, calls[..n]), calls[n].0, calls[n].1)
  }

  /** WaitForAckAll's success test on the state it just recomputed. */
  predicate Committed(cfg: Config, p: Partition, now: int, target: int) {
    p.highWatermark >= target && 1 + |InSync(cfg, p, now)| >= cfg.minInSyncReplicas
  }

  // ---- The high-watermark law ----

  /** The high watermark is the least of the leader's offset and every in-sync follower's. */
  ghost predicate IsWatermark(p: Partition, hw: int) {
    && hw <= p.leaderOffset
    && (forall id :: id in p.followers && p.followers[id].inSync ==> hw <= p.followers[id].offset)
    && (hw == p.leaderOffset ||
        exists id :: id in p.followers && p.followers[id].inSync && hw == p.followers[id].offset)
  }

  ghost predicate GoodOffsets(cfg: Config, p: Partition) {
    && p.leaderOffset >= -1
    && (forall id :: id in p.followers <==> 1 <= id < cfg.replicationFactor)
    && (forall id :: id in p.followers ==> -1 <= p.followers[id].offset <= p.leaderOffset)
  }

  ghost predicate Lawful(cfg: Config, p: Partition) {
    && GoodOffsets(cfg, p)
    && (forall id :: id in p.followers && p.followers[id].inSync ==>
          p.leaderOffset - p.followers[id].offset <= cfg.maxReplicaLag)
    && IsWatermark(p, p.highWatermark)
  }

  lemma {:induction false} LeastOffsetIsLeast(leaderOffset: int, followers: map<int, Replica>, n: nat)
    ensures var least := LeastOffset(leaderOffset, followers, n);
            && least <= leaderOffset
            && (forall id :: id in followers && 0 <= id < n && followers[id].inSync ==> least <= followers[id].offset)
            && (least == leaderOffset
                || exists id :: id in followers && followers[id].inSync && least == followers[id].offset)
  {
    if n == 0 {
    } else {
      LeastOffsetIsLeast(leaderOffset, followers, n - 1);
    }
  }

  lemma RecomputeLawful(cfg: Config, p: Partition, now: int)
    requires Clamped(cfg) && GoodOffsets(cfg, p)
    ensures Lawful(cfg, Recompute(cfg, p, now))
  {
    var followers := Refreshed(cfg, p.leaderOffset, p.followers, now);
    LeastOffsetIsLeast(p.leaderOffset, followers, cfg.replicationFactor);
  }

  lemma InitialLawful(cfg: Config)
    requires Clamped(cfg)
    ensures Lawful(cfg, Initial(cfg))
  {
  }

  lemma RecomputeGrows(cfg: Config, p: Partition, changed: Partition, now: int)
    requires Clamped(cfg) && GoodOffsets(cfg, changed) && Grows(p, changed)
    ensures Lawful(cfg, Recompute(cfg, changed, now)) && Grows(p, Recompute(cfg, changed, now))
  {
    RecomputeLawful(cfg, changed, now);
  }

  lemma WatermarkRange(cfg: Config, p: Partition)
    requires Clamped(cfg) && Lawful(cfg, p)
    ensures Max(-1, p.leaderOffset - cfg.maxReplicaLag) <= p.highWatermark <= p.leaderOffset
  {
  }

  lemma WrittenGrows(cfg: Config, p: Partition, call: Call, now: int)
    requires Clamped(cfg) && Lawful(cfg, p)
    ensures var w := Written(cfg, p, call, now);
            w.Some? ==> GoodOffsets(cfg, w.value) && Grows(p, w.value)
  {
  }

  /** The high-watermark law: every call ends in a lawful state, the recorded offsets and the
      leader's offset only grow, and the watermark lies within the permitted lag. */
  lemma ApplyLawful(cfg: Config, p: Partition, call: Call, now: int)
    requires Clamped(cfg) && Lawful(cfg, p)
    ensures var q := Apply(cfg, p, call, now);
            && Lawful(cfg, q)
            && Grows(p, q)
            && Max(-1, q.leaderOffset - cfg.maxReplicaLag) <= q.highWatermark <= q.leaderOffset
  {
    WrittenGrows(cfg, p, call, now);
    var w := Written(cfg, p, call, now);
    if w.Some? {
      RecomputeGrows(cfg, p, w.value, now);
    }
    WatermarkRange(cfg, Apply(cfg, p, call, now));
  }

  ghost predicate Grows(p: Partition, q: Partition) {
    && p.leaderOffset <= q.leaderOffset
    && p.followers.Keys == q.followers.Keys
    && forall id :: id in p.followers ==> p.followers[id].offset <= q.followers[id].offset
  }

  lemma {:induction false} RunKeepsLaw(cfg: Config, p: Partition, calls: seq<(Call, int)>)
    requires Clamped(cfg) && Lawful(cfg, p)
    ensures Lawful(cfg, Run(cfg, p, calls))
  {
    if calls == [] {
    } else {
      var n := |calls| - 1;
      RunKeepsLaw(cfg, p, calls[..n]);
      ApplyLawful(cfg, Run(cfg, p, calls[..n]), calls[n].0, calls[n].1);
    }
  }

  /** The law over whole runs of calls from a new partition. */
  lemma RunLawful(cfg: Config, calls: seq<(Call, int)>)
    requires Clamped(cfg)
    ensures Lawful(cfg, Run(cfg, Initial(cfg), calls))
  {
    InitialLawful(cfg);
    RunKeepsLaw(cfg, Initial(cfg), calls);
  }

  /** Along a run the leader's offset and every recorded offset only grow. */
  lemma {:induction false} RunGrows(cfg: Config, calls: seq<(Call, int)>, k: nat)
    requires Clamped(cfg) && k <= |calls|
    ensures Grows(Run(cfg, Initial(cfg), calls[..k]), Run(cfg, Initial(cfg), calls))
  {
    if k == |calls| {
      assert calls[..k] == calls;
    } else {
      var n := |calls| - 1;
      var p, q, r := Run(cfg, Initial(cfg), calls[..k]), Run(cfg, Initial(cfg), calls[..n]),
          Run(cfg, Initial(cfg), calls);
      RunGrows(cfg, calls[..n], k);
      assert calls[..n][..k] == calls[..k];
      RunLawful(cfg, calls[..n]);
      ApplyLawful(cfg, q, calls[n].0, calls[n].1);
      GrowsTransitive(p, q, r);
    }
  }

  lemma GrowsTransitive(p: Partition, q: Partition, r: Partition)
    requires Grows(p, q) && Grows(q, r)
    ensures Grows(p, r)
  {
  }

  // ---- When the high watermark is monotone ----

  ghost predicate WatermarkNeverFalls(cfg: Config) {
    forall calls: seq<(Call, int)>, call: Call, now: int {:trigger Run(cfg, Initial(cfg), calls + [(call, now)])} ::
      Run(cfg, Initial(cfg), calls).highWatermark <= Run(cfg, Initial(cfg), calls + [(call, now)]).highWatermark
  }

  /** The high watermark never falls, in any run, if and only if no lag is allowed or there is no
      follower: otherwise a lagging follower can re-enter the in-sync set and pull it back. */
  lemma WatermarkMonotoneIff(cfg: Config)
    requires Clamped(cfg)
    ensures WatermarkNeverFalls(cfg) <==> cfg.maxReplicaLag == 0 || cfg.replicationFactor == 1
  {
    if cfg.maxReplicaLag == 0 || cfg.replicationFactor == 1 {
      forall calls: seq<(Call, int)>, call: Call, now: int
        ensures Run(cfg, Initial(cfg), calls).highWatermark
                <= Run(cfg, Initial(cfg), calls + [(call, now)]).highWatermark
      {
        var more := calls + [(call, now)];
        RunLawful(cfg, more);
        RunLawful(cfg, calls);
        RunGrows(cfg, more, |calls|);
        assert more[..|calls|] == calls;
        WatermarkIsLeaderOffset(cfg, Run(cfg, Initial(cfg), calls));
        WatermarkIsLeaderOffset(cfg, Run(cfg, Initial(cfg), more));
      }
    } else {
      LaggingFollowerPullsBack(cfg);
    }
  }

  lemma WatermarkIsLeaderOffset(cfg: Config, p: Partition)
    requires Lawful(cfg, p) && (cfg.maxReplicaLag == 0 || cfg.replicationFactor == 1)
    ensures p.highWatermark == p.leaderOffset
  {
  }

  lemma LaggingFollowerPullsBack(cfg: Config)
    requires Clamped(cfg) && cfg.maxReplicaLag > 0 && cfg.replicationFactor > 1
    ensures !WatermarkNeverFalls(cfg)
  {
    var first, second := (OnLeaderAppend(1), 0), (AckReplica(1, 0), 0);
    var calls := [first];
    var p := Run(cfg, Initial(cfg), calls);
    assert calls[..0] == [];
    assert Run(cfg, Initial(cfg), []) == Initial(cfg);
    assert p == Apply(cfg, Initial(cfg), first.0, 0);
    RunLawful(cfg, calls);
    assert p.highWatermark == 1;
    var more := calls + [second];
    assert more[..1] == calls;
    RunLawful(cfg, more);
    var q := Run(cfg, Initial(cfg), more);
    assert q.followers[1].inSync && q.followers[1].offset == 0;
  }

  lemma RefreshForgetsFlags(cfg: Config, leaderOffset: int, a: map<int, Replica>, b: map<int, Replica>, now: int)
    requires a.Keys == b.Keys
    requires forall id :: id in a ==> a[id].offset == b[id].offset && a[id].lastSeen == b[id].lastSeen
    ensures Refreshed(cfg, leaderOffset, a, now) == Refreshed(cfg, leaderOffset, b, now)
  {
    var x, y := Refreshed(cfg, leaderOffset, a, now), Refreshed(cfg, leaderOffset, b, now);
    assert x.Keys == a.Keys && y.Keys == b.Keys;
    assert forall id :: id in a ==> x[id] == y[id];
  }

  /** SetRole("follower") writes a watermark of -1 and clears the in-sync flags, but the
      recomputation it ends with replaces both: a demoted partition keeps the watermark and the
      in-sync set it would have as leader. */
  lemma DemotionKeepsWatermark(cfg: Config, p: Partition, now: int)
    ensures Apply(cfg, p, SetRole(FOLLOWER), now) == Recompute(cfg, p, now).(role := FOLLOWER)
  {
    RefreshForgetsFlags(cfg, p.leaderOffset, p.followers, WithRole(p, FOLLOWER).followers, now);
  }

  // ---- acks=all ----

  /** The followers that count for acks=all at the given time: acked within the timeout, and within the
      permitted lag. */
  ghost function Counted(cfg: Config, p: Partition, now: int): set<int> {
    set id | id in p.followers
             && p.followers[id].lastSeen.Some? && now - p.followers[id].lastSeen.value <= cfg.replicaLagTimeout
             && p.leaderOffset - p.followers[id].offset <= cfg.maxReplicaLag
  }

  /** What acks=all promises: the leader has the target, enough followers count, and each that counts
      has acked the target. */
  ghost predicate AckedByEnough(cfg: Config, p: Partition, now: int, target: int) {
    && target <= p.leaderOffset
    && |Counted(cfg, p, now)| >= cfg.minInSyncReplicas - 1
    && forall id :: id in Counted(cfg, p, now) ==> p.followers[id].offset >= target
  }

  /** The in-sync set that a poll reports is the set of followers that count. */
  lemma InSyncIsCounted(cfg: Config, p: Partition, now: int)
    ensures InSync(cfg, Recompute(cfg, p, now), now) == Counted(cfg, p, now)
    ensures Counted(cfg, Recompute(cfg, p, now), now) == Counted(cfg, p, now)
  {
    var q := Recompute(cfg, p, now);
    forall id
      ensures id in InSync(cfg, q, now) <==> id in Counted(cfg, p, now)
      ensures id in Counted(cfg, q, now) <==> id in Counted(cfg, p, now)
    {
    }
  }

  /** WaitForAckAll's test succeeds if and only if the target is acked by enough: not every replica has to
      be there, and none that counts may be missing it. */
  lemma PollSucceedsIff(cfg: Config, p: Partition, now: int, target: int)
    requires Clamped(cfg) && GoodOffsets(cfg, p)
    ensures Committed(cfg, Recompute(cfg, p, now), now, target) <==> AckedByEnough(cfg, p, now, target)
  {
    var q := Recompute(cfg, p, now);
    RecomputeLawful(cfg, p, now);
    InSyncIsCounted(cfg, p, now);
    forall id | id in p.followers
      ensures id in q.followers && q.followers[id].offset == p.followers[id].offset
      ensures q.followers[id].inSync <==> id in Counted(cfg, p, now)
    {
    }
    if AckedByEnough(cfg, p, now, target) && q.highWatermark != q.leaderOffset {
      var id :| id in q.followers && q.followers[id].inSync && q.highWatermark == q.followers[id].offset;
      assert id in Counted(cfg, p, now);
    }
  }

  /** A committed target is at or below the recorded offset of every in-sync follower, and with
      the leader there are enough of them. */
  lemma CommittedMeansRecorded(cfg: Config, p: Partition, now: int, target: int)
    requires Lawful(cfg, p) && Committed(cfg, p, now, target)
    ensures target <= p.leaderOffset
    ensures |InSync(cfg, p, now)| >= cfg.minInSyncReplicas - 1
    ensures forall id :: id in InSync(cfg, p, now) ==> id in p.followers && p.followers[id].offset >= target
  {
  }
}
