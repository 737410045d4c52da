/** What the replication protocol guarantees over whole behaviours. A node's values are those it accepted
    before its first unreadable record; LeaderIntactIff and FollowerIntactIff say for which steps that
    is everything. */
module ReplicationTheorems {
  import opened Text
  import opened LogLine
  import opened FetchCodec
  import opened ReplicationState
  import opened StorageContract
  import opened ReplicationProtocol
  import opened PartitionHistory
  import SegmentedLog

  ghost predicate Leads(setup: Setup, s: System, step: Step, t: System) {
    Enabled(s, step) && t == Next(setup, s, step)
  }

  ghost predicate Path(setup: Setup, states: seq<System>, steps: seq<Step>) {
    |states| == |steps| + 1 && forall i :: 0 <= i < |steps| ==> Leads(setup, states[i], steps[i], states[i + 1])
  }

  ghost predicate Behavior(setup: Setup, states: seq<System>, steps: seq<Step>) {
    Path(setup, states, steps) && Init(setup, states[0])
  }

  function Last(states: seq<System>): System
    requires states != []
  {
    states[|states| - 1]
  }

  lemma PathJoin(setup: Setup, a: seq<System>, xs: seq<Step>, b: seq<System>, ys: seq<Step>)
    requires Path(setup, a, xs) && Path(setup, b, ys) && Last(a) == b[0]
    ensures Path(setup, a + b[1..], xs + ys) && Last(a + b[1..]) == Last(b) && (a + b[1..])[0] == a[0]
  {
    var states, steps := a + b[1..], xs + ys;
    forall i | 0 <= i < |steps|
      ensures Leads(setup, states[i], steps[i], states[i + 1])
    {
      if i < |xs| {
        assert Leads(setup, a[i], xs[i], a[i + 1]);
      } else {
        assert Leads(setup, b[i - |xs|], ys[i - |xs|], b[i - |xs| + 1]);
      }
    }
  }

  lemma StepThen(setup: Setup, s: System, step: Step, b: seq<System>, ys: seq<Step>)
    requires Path(setup, b, ys) && Leads(setup, s, step, b[0])
    ensures Path(setup, [s] + b, [step] + ys) && Last([s] + b) == Last(b) && ([s] + b)[0] == s
  {
    forall i | 0 <= i < |[step] + ys|
      ensures Leads(setup, ([s] + b)[i], ([step] + ys)[i], ([s] + b)[i + 1])
    {
      if i > 0 {
        assert Leads(setup, b[i - 1], ys[i - 1], b[i]);
      }
    }
  }

  lemma {:induction false} Reachable(setup: Setup, states: seq<System>, steps: seq<Step>, i: nat)
    requires Behavior(setup, states, steps) && i < |states|
    ensures Inv(setup, states[i])
  {
    if i == 0 {
      InitKeeps(setup, states[0]);
    } else {
      Reachable(setup, states, steps, i - 1);
      assert Leads(setup, states[i - 1], steps[i - 1], states[i]);
      NextKeeps(setup, states[i - 1], steps[i - 1]);
    }
  }

  // ---- What the steps do to the stores ----

  /** The record a step writes on the leader or on a follower is readable. */
  ghost predicate LeaderWriteReadable(s: System, step: Step) {
    step.Append? ==> Survives(s.leader, SegmentedLog.ProduceOp(step.value, s.now))
  }

  ghost predicate FollowerWriteReadable(s: System, step: Step, id: int)
    requires Enabled(s, step) && id in s.followers
  {
    step.ApplyRecord? && step.id == id && Accepts(s.followers[id]) ==>
      var m := s.followers[id].worker.rest[0];
      Survives(s.followers[id].store, SegmentedLog.ReplicateOp(m.offset, m.value, s.now))
  }

  /** The worker's and the storage's checks let the next record through. */
  predicate Accepts(f: Follower)
    requires f.worker.Applying? && f.worker.rest != []
  {
    f.worker.rest[0].offset == f.worker.next && f.worker.rest[0].offset <= f.store.log.nextOffset
  }

  lemma OperateSucceeds(n: Node, op: SegmentedLog.Op)
    requires GoodStore(n)
    ensures Succeeds(n, Operate(n, op)) && Operate(n, op).intact == (n.intact && Survives(n, op))
    ensures op.RestartOp? || op.RetainOp? ==> Survives(n, op)
  {
    OperateKeeps(n, op);
  }

  lemma LeaderStep(setup: Setup, s: System, step: Step)
    requires Enabled(s, step) && GoodStore(s.leader)
    ensures Succeeds(s.leader, Next(setup, s, step).leader)
    ensures Next(setup, s, step).leader.intact == (s.leader.intact && LeaderWriteReadable(s, step))
  {
    match step
    case Append(value) => OperateSucceeds(s.leader, SegmentedLog.ProduceOp(value, s.now));
    case RestartLeader => OperateSucceeds(s.leader, SegmentedLog.RestartOp(s.now));
    case RetainLeader => OperateSucceeds(s.leader, SegmentedLog.RetainOp(s.now));
    case _ =>
  }

  lemma FollowerStep(setup: Setup, s: System, step: Step, id: int)
    requires Enabled(s, step) && id in s.followers && GoodStore(s.followers[id].store)
    ensures id in Next(setup, s, step).followers
    ensures Succeeds(s.followers[id].store, Next(setup, s, step).followers[id].store)
    ensures Next(setup, s, step).followers[id].store.intact ==
            (s.followers[id].store.intact && FollowerWriteReadable(s, step, id))
  {
    var n := s.followers[id].store;
    match step
    case ApplyRecord(k) =>
      if k == id && Accepts(s.followers[id]) {
        var m := s.followers[id].worker.rest[0];
        OperateSucceeds(n, SegmentedLog.ReplicateOp(m.offset, m.value, s.now));
      }
    case RestartFollower(k) => OperateSucceeds(n, SegmentedLog.RestartOp(s.now));
    case RetainFollower(k) => OperateSucceeds(n, SegmentedLog.RetainOp(s.now));
    case _ =>
  }

  /** Every store of a reachable state is a good one. */
  lemma StoresGood(setup: Setup, states: seq<System>, steps: seq<Step>, i: nat)
    requires Behavior(setup, states, steps) && i < |states|
    ensures GoodStore(states[i].leader)
    ensures forall id :: id in states[i].followers ==> GoodStore(states[i].followers[id].store)
  {
    Reachable(setup, states, steps, i);
    assert forall id :: id in states[i].followers ==> GoodFollower(states[i].leader, states[i].followers[id]);
  }

  lemma FollowersStay(setup: Setup, s: System, step: Step, id: int)
    requires Enabled(s, step)
    ensures id in Next(setup, s, step).followers <==> id in s.followers
  {
  }

  /** The leader is intact exactly when every value appended so far was readable at its offset. */
  lemma {:induction false} LeaderIntactIff(setup: Setup, states: seq<System>, steps: seq<Step>, i: nat)
    requires Behavior(setup, states, steps) && i < |states|
    ensures states[i].leader.intact <==> forall k :: 0 <= k < i ==> LeaderWriteReadable(states[k], steps[k])
  {
    if i == 0 {
    } else {
      LeaderIntactIff(setup, states, steps, i - 1);
      StoresGood(setup, states, steps, i - 1);
      assert Leads(setup, states[i - 1], steps[i - 1], states[i]);
      LeaderStep(setup, states[i - 1], steps[i - 1]);
    }
  }

  ghost predicate WritesReadably(setup: Setup, states: seq<System>, steps: seq<Step>, k: nat, id: int)
    requires Path(setup, states, steps) && k < |steps|
  {
    assert Leads(setup, states[k], steps[k], states[k + 1]);
    id in states[k].followers ==> FollowerWriteReadable(states[k], steps[k], id)
  }

  lemma StepWrites(setup: Setup, states: seq<System>, steps: seq<Step>, k: nat, id: int)
    requires Behavior(setup, states, steps) && k < |steps| && id in states[k + 1].followers
    ensures id in states[k].followers
    ensures states[k + 1].followers[id].store.intact ==
            (states[k].followers[id].store.intact && WritesReadably(setup, states, steps, k, id))
  {
    assert Leads(setup, states[k], steps[k], states[k + 1]);
    FollowersStay(setup, states[k], steps[k], id);
    StoresGood(setup, states, steps, k);
    FollowerStep(setup, states[k], steps[k], id);
  }

  /** A follower is intact exactly when every record it stored so far was readable at its offset. */
  lemma {:induction false} FollowerIntactIff(setup: Setup, states: seq<System>, steps: seq<Step>, i: nat, id: int)
    requires Behavior(setup, states, steps) && i < |states| && id in states[i].followers
    ensures states[i].followers[id].store.intact
            <==> forall k :: 0 <= k < i ==> WritesReadably(setup, states, steps, k, id)
  {
    if i == 0 {
      assert NewFollower(states[0].followers[id]);
    } else {
      StepWrites(setup, states, steps, i - 1, id);
      FollowerIntactIff(setup, states, steps, i - 1, id);
    }
  }

  lemma SucceedsTransitive(a: Node, b: Node, c: Node)
    requires Succeeds(a, b) && Succeeds(b, c)
    ensures Succeeds(a, c)
  {
  }

  lemma StepExtends(setup: Setup, states: seq<System>, steps: seq<Step>, k: nat)
    requires Behavior(setup, states, steps) && k < |steps|
    ensures Succeeds(states[k].leader, states[k + 1].leader)
    ensures forall id :: id in states[k].followers ==>
              && id in states[k + 1].followers
              && Succeeds(states[k].followers[id].store, states[k + 1].followers[id].store)
  {
    StoresGood(setup, states, steps, k);
    assert Leads(setup, states[k], steps[k], states[k + 1]);
    LeaderStep(setup, states[k], steps[k]);
    forall id | id in states[k].followers
      ensures id in states[k + 1].followers
      ensures Succeeds(states[k].followers[id].store, states[k + 1].followers[id].store)
    {
      FollowerStep(setup, states[k], steps[k], id);
    }
  }

  /** The leader's history only grows. */
  lemma {:induction false} LeaderExtends(setup: Setup, states: seq<System>, steps: seq<Step>, i: nat, j: nat)
    requires Behavior(setup, states, steps) && i <= j < |states|
    ensures Succeeds(states[i].leader, states[j].leader)
    decreases j
  {
    if i == j {
      assert states[i].leader.values <= states[j].leader.values;
    } else {
      LeaderExtends(setup, states, steps, i, j - 1);
      StepExtends(setup, states, steps, j - 1);
      SucceedsTransitive(states[i].leader, states[j - 1].leader, states[j].leader);
    }
  }

  /** A follower's history only grows. */
  lemma {:induction false} FollowerExtends(setup: Setup, states: seq<System>, steps: seq<Step>, i: nat, j: nat, id: int)
    requires Behavior(setup, states, steps) && i <= j < |states| && id in states[i].followers
    ensures id in states[j].followers && Succeeds(states[i].followers[id].store, states[j].followers[id].store)
    decreases j
  {
    if i == j {
      assert states[i].followers[id].store.values <= states[j].followers[id].store.values;
    } else {
      FollowerExtends(setup, states, steps, i, j - 1, id);
      StepExtends(setup, states, steps, j - 1);
      SucceedsTransitive(states[i].followers[id].store, states[j - 1].followers[id].store,
          states[j].followers[id].store);
    }
  }

  /** An earlier and a later state of one store: what it accepted before its first unreadable record
      is still there from its base on, and the base only moves forward. */
  ghost predicate Durable(n: Node, later: Node) {
    n.values <= later.values && n.base <= later.base && HeldFrom(later.log.cache, later.values, later.base)
  }

  lemma StoreIsDurable(n: Node, later: Node)
    requires Succeeds(n, later) && GoodStore(n) && GoodStore(later)
    ensures Durable(n, later) && (later.intact ==> Orderly(n) && Orderly(later))
  {
    if later.intact {
      IntactIsOrderly(n);
      IntactIsOrderly(later);
    }
  }

  /** No record written before a node's first unreadable one is ever lost or changed, on the leader or
      on a follower, restarts included, except that retention moves the node's base past it. As long
      as the node is intact its whole log is a history that only grows, and the cache is that
      history from the base on. */
  lemma RecordsSurvive(setup: Setup, states: seq<System>, steps: seq<Step>, i: nat, j: nat)
    requires Behavior(setup, states, steps) && i <= j < |states|
    ensures Durable(states[i].leader, states[j].leader)
    ensures states[j].leader.intact ==> Orderly(states[i].leader) && Orderly(states[j].leader)
    ensures forall id :: id in states[i].followers ==>
              && id in states[j].followers
              && Durable(states[i].followers[id].store, states[j].followers[id].store)
              && (states[j].followers[id].store.intact ==>
                    Orderly(states[i].followers[id].store) && Orderly(states[j].followers[id].store))
  {
    StoresGood(setup, states, steps, i);
    StoresGood(setup, states, steps, j);
    LeaderExtends(setup, states, steps, i, j);
    StoreIsDurable(states[i].leader, states[j].leader);
    forall id | id in states[i].followers
      ensures id in states[j].followers
      ensures Durable(states[i].followers[id].store, states[j].followers[id].store)
      ensures states[j].followers[id].store.intact ==>
                Orderly(states[i].followers[id].store) && Orderly(states[j].followers[id].store)
    {
      FollowerExtends(setup, states, steps, i, j, id);
      StoreIsDurable(states[i].followers[id].store, states[j].followers[id].store);
    }
  }

  // ---- Recorded offsets ----

  lemma NextGrows(setup: Setup, s: System, step: Step)
    requires Inv(setup, s) && Enabled(s, step) && !step.RestartLeader?
    ensures Grows(s.manager, Next(setup, s, step).manager)
  {
    match step
    case Report(offset) => ApplyLawful(setup.cfg, s.manager, OnLeaderAppend(offset), s.now);
    case Bootstrap(offset) => BootstrapGrows(setup, s, offset);
    case Poll => ApplyLawful(setup.cfg, s.manager, Observe, s.now);
    case Admit(id, max) => ApplyLawful(setup.cfg, s.manager, Observe, s.now);
    case DeliverAck(ack) => ApplyLawful(setup.cfg, s.manager, AckReplica(ack.id, ack.offset), s.now);
    case _ =>
  }

  lemma BootstrapGrows(setup: Setup, s: System, offset: int)
    requires Inv(setup, s)
    ensures Grows(s.manager, Manage(setup, Manage(setup, s, SetRole(LEADER)), BootstrapOffset(offset)).manager)
  {
    var t := Manage(setup, s, SetRole(LEADER));
    ApplyLawful(setup.cfg, s.manager, SetRole(LEADER), s.now);
    ApplyLawful(setup.cfg, t.manager, BootstrapOffset(offset), s.now);
    GrowsTransitive(s.manager, t.manager, Manage(setup, t, BootstrapOffset(offset)).manager);
  }

  lemma StepGrows(setup: Setup, states: seq<System>, steps: seq<Step>, k: nat)
    requires Behavior(setup, states, steps) && k < |steps| && !steps[k].RestartLeader?
    ensures Grows(states[k].manager, states[k + 1].manager)
  {
    Reachable(setup, states, steps, k);
    assert Leads(setup, states[k], steps[k], states[k + 1]);
    NextGrows(setup, states[k], steps[k]);
  }

  /** Between leader restarts the leader's offset and every recorded offset only grow. */
  lemma {:induction false} RecordedOffsetsGrow(setup: Setup, states: seq<System>, steps: seq<Step>, i: nat, j: nat)
    requires Behavior(setup, states, steps) && i <= j < |states|
    requires forall k :: i <= k < j ==> !steps[k].RestartLeader?
    ensures Grows(states[i].manager, states[j].manager)
    decreases j
  {
    if i == j {
    } else {
      RecordedOffsetsGrow(setup, states, steps, i, j - 1);
      StepGrows(setup, states, steps, j - 1);
      GrowsTransitive(states[i].manager, states[j - 1].manager, states[j].manager);
    }
  }

  // ---- What a follower holds ----

  /** No value up to and including offset i was split by the wire format. */
  ghost predicate Clean(values: seq<string>, i: int) {
    forall j :: 0 <= j <= i && j < |values| ==> !HasComma(values[j])
  }

  /** No comma at o, and no earlier value whose pieces run in line to o with another value. */
  ghost predicate Trusted(values: seq<string>, o: int) {
    0 <= o < |values| && !HasComma(values[o]) && forall w :: Forged(Message(o, w), values) ==> w == values[o]
  }

  lemma WholeHead(value: string)
    ensures !HasComma(value) ==> Head(value) == value
  {
    IndexOfChar(value, ',');
  }

  lemma CommaFreeForgesNothing(m: Message, values: seq<string>, i: int)
    requires ForgedBy(m, values, i)
    ensures HasComma(values[i])
  {
    CutHead(Message(i, values[i]));
  }

  /** A record that can be at o is the leader's own if the log is trusted at o, and never is if the
      leader's value at o has a comma. */
  lemma PossibleMeans(o: nat, w: string, values: seq<string>)
    requires Possible(Message(o, w), values) && !HasComma(w)
    ensures Trusted(values, o) ==> w == values[o]
    ensures o < |values| && HasComma(values[o]) ==> w != values[o]
    ensures Clean(values, o) ==> Trusted(values, o)
  {
    if o < |values| {
      WholeHead(values[o]);
    }
    if Clean(values, o) {
      forall v | Forged(Message(o, v), values)
        ensures false
      {
        var i :| ForgedBy(Message(o, v), values, i);
        CommaFreeForgesNothing(Message(o, v), values, i);
      }
    }
  }

  /** What one node's store holds at o: something possible there, and in its cache from its base on. */
  ghost predicate HoldsAt(n: Node, o: int, values: seq<string>) {
    && 0 <= o < |n.values|
    && Possible(Message(o, n.values[o]), values)
    && (Trusted(values, o) ==> n.values[o] == values[o])
    && (0 <= o < |values| && HasComma(values[o]) ==> n.values[o] != values[o])
    && (n.base <= o ==> Message(o, n.values[o]) in n.log.cache)
  }

  /** In every reachable state, whatever a follower accepted at an offset before its first unreadable
      record is the head of the leader's value there, or forged by one earlier value with a comma; it
      is the leader's own record exactly as PossibleMeans says. */
  lemma FollowerHolds(setup: Setup, states: seq<System>, steps: seq<Step>, i: nat, id: int, o: nat)
    requires Behavior(setup, states, steps) && i < |states| && id in states[i].followers
    requires states[i].leader.intact && o < |states[i].followers[id].store.values|
    ensures HoldsAt(states[i].followers[id].store, o, states[i].leader.values)
  {
    Reachable(setup, states, steps, i);
    var f := states[i].followers[id];
    assert GoodFollower(states[i].leader, f);
    PossibleMeans(o, f.store.values[o], states[i].leader.values);
    if f.store.base <= o {
      HeldByNode(f.store, o);
    }
  }

  // ---- Log matching ----

  lemma MatchAt(mine: seq<string>, values: seq<string>, i: nat)
    requires Copies(mine, values) && CommaFreeValues(mine) && i < |mine| && Clean(values, i)
    ensures i < |values| && mine[i] == values[i]
  {
    var m := Message(i, mine[i]);
    assert Possible(m, values);
    PossibleMeans(i, mine[i], values);
    if Forged(m, values) {
      var k :| ForgedBy(m, values, k);
      CommaFreeForgesNothing(m, values, k);
    }
  }

  lemma MatchingIff(mine: seq<string>, values: seq<string>)
    requires Copies(mine, values) && CommaFreeValues(mine)
    ensures mine <= values <==> Clean(values, |mine| - 1)
  {
    if Clean(values, |mine| - 1) {
      forall i | 0 <= i < |mine|
        ensures i < |values| && mine[i] == values[i]
      {
        MatchAt(mine, values, i);
      }
      if mine != [] {
        MatchAt(mine, values, |mine| - 1);
      }
    } else {
      var j :| 0 <= j <= |mine| - 1 && j < |values| && HasComma(values[j]);
      assert !HasComma(mine[j]);
    }
  }

  /** Log matching: in every reachable state what a follower accepted before its first unreadable
      record, which is its whole log if there is none, is a prefix of the leader's log if and only if
      none of the leader's values it has passed holds a comma. Retention, lost, repeated and reordered
      messages, and restarts never break it. */
  lemma LogMatching(setup: Setup, states: seq<System>, steps: seq<Step>, i: nat, id: int)
    requires Behavior(setup, states, steps) && i < |states| && id in states[i].followers && states[i].leader.intact
    ensures Orderly(states[i].leader)
    ensures states[i].followers[id].store.intact ==> Orderly(states[i].followers[id].store)
    ensures var mine, values := states[i].followers[id].store.values, states[i].leader.values;
            mine <= values <==> Clean(values, |mine| - 1)
  {
    Reachable(setup, states, steps, i);
    var f := states[i].followers[id];
    assert GoodFollower(states[i].leader, f);
    IntactIsOrderly(states[i].leader);
    if f.store.intact {
      IntactIsOrderly(f.store);
    }
    MatchingIff(f.store.values, states[i].leader.values);
  }

  // ---- acks=all ----

  /** A record that a node had accepted at o before its first unreadable one is in its cache at a
      later time, until retention has moved its base past o. */
  ghost predicate StillHolds(n: Node, later: Node, o: nat) {
    && n.base <= later.base
    && (o < |n.values| && later.base <= o ==> Message(o, n.values[o]) in later.log.cache)
  }

  lemma StillHeld(n: Node, later: Node, o: nat)
    requires Succeeds(n, later) && GoodStore(later)
    ensures StillHolds(n, later, o)
  {
    if o < |n.values| && later.base <= o {
      HeldByNode(later, o);
    }
  }

  /** acks=all durability: when a poll sees offset o committed, the logs of at least
      MinInSyncReplicas - 1 distinct followers have run past o, and so has the leader's if it is
      intact. On each of these nodes, a record at o written before the node's first unreadable one
      stays in every later state, restarts included, until the node's own retention drops it. The
      followers' record is the leader's own if the leader's log is trusted at o, and is not if the
      leader's value has a comma. */
  lemma AckAllDurable(setup: Setup, states: seq<System>, steps: seq<Step>, i: nat, o: nat) returns (copies: set<int>)
    requires Behavior(setup, states, steps) && i < |steps| && steps[i] == Poll
    requires Committed(setup.cfg, states[i + 1].manager, states[i + 1].now, o)
    ensures |copies| >= setup.cfg.minInSyncReplicas - 1
    ensures states[i + 1].leader.intact ==> o < |states[i + 1].leader.values|
    ensures forall j :: i < j < |states| ==> StillHolds(states[i + 1].leader, states[j].leader, o)
    ensures forall id :: id in copies ==>
              && id in states[i + 1].followers && o < states[i + 1].followers[id].store.reach
              && (states[i + 1].followers[id].store.intact ==> o < |states[i + 1].followers[id].store.values|)
    ensures forall id, j :: id in copies && i < j < |states| ==>
              && id in states[j].followers
              && StillHolds(states[i + 1].followers[id].store, states[j].followers[id].store, o)
    ensures forall id :: id in copies && states[i + 1].leader.intact ==>
              o < |states[i + 1].followers[id].store.values| ==>
              HoldsAt(states[i + 1].followers[id].store, o, states[i + 1].leader.values)
    ensures forall id, j :: id in copies && i < j < |states| && (forall k :: i < k < j ==> !steps[k].RestartLeader?) ==>
              id in states[j].manager.followers && states[j].manager.followers[id].offset >= o
  {
    var s := states[i + 1];
    copies := CommittedCopies(setup, states, steps, i, o);
    forall j | i < j < |states|
      ensures StillHolds(s.leader, states[j].leader, o)
    {
      StoresGood(setup, states, steps, j);
      LeaderExtends(setup, states, steps, i + 1, j);
      StillHeld(s.leader, states[j].leader, o);
    }
    forall id, j | id in copies && i < j < |states|
      ensures id in states[j].followers && StillHolds(s.followers[id].store, states[j].followers[id].store, o)
    {
      CopyStays(setup, states, steps, i + 1, j, id, o);
    }
    forall id | id in copies && s.leader.intact && o < |s.followers[id].store.values|
      ensures HoldsAt(s.followers[id].store, o, s.leader.values)
    {
      FollowerHolds(setup, states, steps, i + 1, id, o);
    }
    forall id, j | id in copies && i < j < |states| && (forall k :: i < k < j ==> !steps[k].RestartLeader?)
      ensures id in states[j].manager.followers && states[j].manager.followers[id].offset >= o
    {
      RecordedOffsetsGrow(setup, states, steps, i + 1, j);
    }
  }

  /** The in-sync followers behind a commit. */
  lemma CommittedCopies(setup: Setup, states: seq<System>, steps: seq<Step>, i: nat, o: nat)
    returns (copies: set<int>)
    requires Behavior(setup, states, steps) && i < |steps|
    requires Committed(setup.cfg, states[i + 1].manager, states[i + 1].now, o)
    ensures |copies| >= setup.cfg.minInSyncReplicas - 1
    ensures states[i + 1].leader.intact ==> o < |states[i + 1].leader.values|
    ensures var s := states[i + 1];
            forall id :: id in copies ==>
              && id in s.manager.followers && s.manager.followers[id].offset >= o
              && id in s.followers && o < s.followers[id].store.reach
              && (s.followers[id].store.intact ==> o < |s.followers[id].store.values|)
  {
    var s := states[i + 1];
    Reachable(setup, states, steps, i + 1);
    StoresGood(setup, states, steps, i + 1);
    copies := InSync(setup.cfg, s.manager, s.now);
    CommittedMeansRecorded(setup.cfg, s.manager, s.now, o);
    forall id | id in copies
      ensures id in s.followers && o < s.followers[id].store.reach
    {
      assert Stored(s, id, s.manager.followers[id].offset);
    }
  }

  lemma CopyStays(setup: Setup, states: seq<System>, steps: seq<Step>, i: nat, j: nat, id: int, o: nat)
    requires Behavior(setup, states, steps) && i <= j < |states| && id in states[i].followers
    ensures id in states[j].followers && StillHolds(states[i].followers[id].store, states[j].followers[id].store, o)
  {
    StoresGood(setup, states, steps, j);
    FollowerExtends(setup, states, steps, i, j, id);
    StillHeld(states[i].followers[id].store, states[j].followers[id].store, o);
  }

  // ---- Concurrent produces ----

  /** Step k, an append or a bootstrap, came after the last leader restart before state i. */
  ghost predicate Renews(steps: seq<Step>, k: int, i: int) {
    && 0 <= k < i <= |steps| && (steps[k].Append? || steps[k].Bootstrap?)
    && forall m :: k < m < i ==> !steps[m].RestartLeader?
  }

  /** The leader appended since its process began, or its manager knows the log's end. */
  ghost predicate Current(s: System) {
    s.leader.intact ==> s.started < |s.leader.values| || s.manager.leaderOffset >= |s.leader.values| - 1
  }

  lemma RenewedIsCurrent(setup: Setup, s: System, step: Step)
    requires Inv(setup, s) && Enabled(s, step) && (step.Append? || step.Bootstrap?)
    ensures Current(Next(setup, s, step))
  {
    if s.leader.intact {
      IntactIsOrderly(s.leader);
    }
  }

  lemma StaysCurrent(setup: Setup, s: System, step: Step)
    requires Inv(setup, s) && Enabled(s, step) && Current(s)
    requires !step.RestartLeader? && !step.Append? && !step.Bootstrap?
    ensures Current(Next(setup, s, step))
  {
    NextGrows(setup, s, step);
    OnlyAppendsAdd(setup, s, step);
  }

  lemma OnlyAppendsAdd(setup: Setup, s: System, step: Step)
    requires Enabled(s, step) && !step.RestartLeader? && !step.Append?
    ensures Next(setup, s, step).leader.values == s.leader.values && Next(setup, s, step).started == s.started
    ensures Next(setup, s, step).leader.intact ==> s.leader.intact
  {
    assert s.leader.values + [] == s.leader.values;
  }

  lemma {:induction false} RenewedLeader(setup: Setup, states: seq<System>, steps: seq<Step>, k: nat, i: nat)
    requires Behavior(setup, states, steps) && i < |states| && Renews(steps, k, i)
    ensures Current(states[i])
  {
    var n := i - 1;
    if !steps[n].Append? && !steps[n].Bootstrap? {
      assert Renews(steps, k, n);
      RenewedLeader(setup, states, steps, k, n);
    }
    StepCurrent(setup, states, steps, n);
  }

  lemma StepCurrent(setup: Setup, states: seq<System>, steps: seq<Step>, n: nat)
    requires Behavior(setup, states, steps) && n < |steps| && !steps[n].RestartLeader?
    requires steps[n].Append? || steps[n].Bootstrap? || Current(states[n])
    ensures Current(states[n + 1])
  {
    Reachable(setup, states, steps, n);
    assert Leads(setup, states[n], steps[n], states[n + 1]);
    if steps[n].Append? || steps[n].Bootstrap? {
      RenewedIsCurrent(setup, states[n], steps[n]);
    } else {
      StaysCurrent(setup, states[n], steps[n]);
    }
  }

  /** The leader's process has neither appended nor been told of the log it found. */
  predicate Unaware(s: System) {
    s.manager.leaderOffset == -1 && s.inFlight == {}
  }

  lemma StaysUnaware(setup: Setup, s: System, step: Step)
    requires Enabled(s, step) && !step.Append? && !step.Bootstrap? && (step.RestartLeader? || Unaware(s))
    ensures Unaware(Next(setup, s, step))
  {
  }

  lemma {:induction false} UnawareLeader(setup: Setup, states: seq<System>, steps: seq<Step>, i: nat)
    requires Behavior(setup, states, steps) && i < |states| && !exists k :: Renews(steps, k, i)
    ensures Unaware(states[i])
  {
    if i == 0 {
      assert Init(setup, states[0]);
    } else {
      var n := i - 1;
      assert Leads(setup, states[n], steps[n], states[i]);
      assert !Renews(steps, n, i);
      if !steps[n].RestartLeader? {
        forall k
          ensures !Renews(steps, k, n)
        {
          assert !Renews(steps, k, i);
        }
        UnawareLeader(setup, states, steps, n);
      }
      StaysUnaware(setup, states[n], steps[n]);
    }
  }

  /** However produce handlers interleave, the manager's leader offset stays below the log's end. Once
      nothing is in flight it is the last stored offset if and only if the log is empty or an append
      or a bootstrap came since the leader last started; before that it is -1. */
  lemma ProducesReported(setup: Setup, states: seq<System>, steps: seq<Step>, i: nat)
    requires Behavior(setup, states, steps) && i < |states| && states[i].leader.intact
    ensures states[i].manager.leaderOffset < states[i].leader.log.nextOffset
    ensures states[i].inFlight == {} ==>
              (states[i].manager.leaderOffset == LastOf(states[i].leader)
               <==> states[i].leader.values == [] || exists k :: Renews(steps, k, i))
    ensures (exists k :: Renews(steps, k, i)) || states[i].manager.leaderOffset == -1
  {
    Reachable(setup, states, steps, i);
    var s := states[i];
    IntactIsOrderly(s.leader);
    LastOfOrderly(s.leader);
    if k :| Renews(steps, k, i) {
      RenewedLeader(setup, states, steps, k, i);
      if s.inFlight == {} && s.started < |s.leader.values| {
        var last := |s.leader.values| - 1;
        assert last <= s.manager.leaderOffset || last in s.inFlight;
      }
    } else {
      UnawareLeader(setup, states, steps, i);
    }
  }

  // ---- Committed reads ----

  lemma ReadsLater(later: Node, values: seq<string>, o: int, hw: int, read: Option<seq<Message>>)
    requires Orderly(later) && values <= later.values && hw < |values|
    requires read == ReadCommitted(later.log.cache, o, hw)
    ensures o >= 0 ==> (read == Some(CommittedSlice(values, o, hw)) <==> later.base == 0 || hw < o)
    ensures o < 0 ==> read == if hw >= 0 then None else Some([])
  {
    ReadCommittedExact(HistoryOf(later), o, hw);
    if 0 <= o <= hw {
      assert Slice(values, o, hw + 1) == Slice(later.values, o, hw + 1);
    }
  }

  /** A CONSUME that reads the high watermark in one state and the log in a later one returns
      exactly the committed log from o on, as it stood at the first read, if and only if
      retention has dropped nothing by the second read or there was nothing to return. With a
      negative offset it crashes the broker if and only if something was committed. */
  lemma CommittedReads(setup: Setup, states: seq<System>, steps: seq<Step>, i: nat, j: nat, o: int)
    requires Behavior(setup, states, steps) && i <= j < |states| && states[j].leader.intact
    ensures var hw, values, read := states[i].manager.highWatermark, states[i].leader.values,
                ReadCommitted(states[j].leader.log.cache, o, states[i].manager.highWatermark);
            && hw < |values|
            && (o >= 0 ==> (read == Some(CommittedSlice(values, o, hw)) <==> states[j].leader.base == 0 || hw < o))
            && (o < 0 ==> read == if hw >= 0 then None else Some([]))
  {
    Reachable(setup, states, steps, i);
    RecordsSurvive(setup, states, steps, i, j);
    LeaderExtends(setup, states, steps, i, j);
    var hw, values, later := states[i].manager.highWatermark, states[i].leader.values, states[j].leader;
    assert hw <= states[i].manager.leaderOffset;
    ReadsLater(later, values, o, hw, ReadCommitted(later.log.cache, o, hw));
  }
}
