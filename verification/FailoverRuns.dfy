/** Failover as it runs: the fence, the snapshots and each leader update are separate steps on the
    shared metadata store, and other goroutines' commands may come between any two of them. */
module FailoverRuns {
  import opened Text
  import opened Ordering
  import opened Metadata
  import opened Election

  /** Where tryFailoverForWorker is. Electing holds the snapshot that ElectTopicLeaders took and the
      partition ids it has not visited yet. */
  datatype Place =
    | Begin
    | Fenced
    | Between(todo: set<string>)
    | Electing(todo: set<string>, topic: string, snapshot: Cluster, ids: seq<int>)
    | Done

  datatype Failover = Failover(store: State, at: Place)

  datatype Step =
    | Interfere(cmd: Command, now: int)           // another goroutine's command
    | FenceSuspect(now: int)
    | ListTopics
    | TakeSnapshot(topic: string)
    | ElectNext(now: int)
    | FinishTopic
    | Finish

  ghost predicate Enabled(r: Failover, step: Step) {
    match step
    case Interfere(cmd, _) => FromController(cmd)
    case FenceSuspect(_) => r.at.Begin?
    case ListTopics => r.at.Fenced?
    case TakeSnapshot(topic) => r.at.Between? && topic in r.at.todo && topic in r.store.cluster.topics
    case ElectNext(_) => r.at.Electing? && r.at.ids != [] && r.at.topic in r.at.snapshot.topics
    case FinishTopic => r.at.Electing? && r.at.ids == []
    case Finish => r.at.Between? && r.at.todo == {}
  }

  function FenceCommand(suspect: int): Command {
    SetBrokerFence(Some(FenceUpdate(suspect, true)))
  }

  /** The update that ElectTopicLeaders issues for a partition of its snapshot. */
  function LeaderCommand(snapshot: Cluster, topic: string, id: int, p: PartitionMeta): Command {
    SetPartitionLeader(Some(LeaderUpdate(topic, id, Elected(snapshot.brokers, p).leader,
                                         EligibleReplicas(snapshot.brokers, p.replicas))))
  }

  /** One turn of ElectTopicLeaders' loop; a refused update ends the topic's election. */
  function Turn(r: Failover, now: int): Failover
    requires r.at.Electing? && r.at.ids != [] && r.at.topic in r.at.snapshot.topics
  {
    var e, id := r.at, r.at.ids[0];
    var ps := e.snapshot.topics[e.topic].partitions;
    if id !in ps || !Moves(e.snapshot.brokers, ps[id]) then r.(at := e.(ids := e.ids[1..]))
    else
      var cmd := LeaderCommand(e.snapshot, e.topic, id, ps[id]);
      if id < 0 || cmd.update.value.leader < -1 || !Accepts(r.store, cmd, now) then r.(at := Between(e.todo))
      else Failover(Applied(r.store, cmd, now), e.(ids := e.ids[1..]))
  }

  ghost function Next(suspect: int, r: Failover, step: Step): Failover
    requires Enabled(r, step)
  {
    match step
    case Interfere(cmd, now) => r.(store := Applied(r.store, cmd, now))
    case FenceSuspect(now) => Failover(Applied(r.store, FenceCommand(suspect), now), Fenced)
    case ListTopics => r.(at := Between(r.store.cluster.topics.Keys))
    case TakeSnapshot(topic) =>
      var c := r.store.cluster;
      r.(at := Electing(r.at.todo - {topic}, topic, c, SortedInts(c.topics[topic].partitions.Keys)))
    case ElectNext(now) => Turn(r, now)
    case FinishTopic => r.(at := Between(r.at.todo))
    case Finish => r.(at := Done)
  }

  ghost predicate Leads(suspect: int, r: Failover, step: Step, t: Failover) {
    Enabled(r, step) && t == Next(suspect, r, step)
  }

  /** A whole failover on a store that the controller built. */
  ghost predicate Behavior(suspect: int, log: seq<Entry>, states: seq<Failover>, steps: seq<Step>) {
    && |states| == |steps| + 1
    && (forall i :: 0 <= i < |log| ==> FromController(log[i].0))
    && states[0] == Failover(Run(FRESH, log), Begin)
    && forall i :: 0 <= i < |steps| ==> Leads(suspect, states[i], steps[i], states[i + 1])
  }

  /** A command that makes the suspect eligible again, or a leader. */
  predicate Restores(cmd: Command, suspect: int) {
    match cmd
    case BrokerHeartbeat(id) => id == Some(suspect)
    case RegisterBroker(b) => b.Some? && b.value.id == suspect && !b.value.fenced
    case SetBrokerFence(f) => f == Some(FenceUpdate(suspect, false))
    case SetPartitionLeader(u) => u.Some? && u.value.leader == suspect
    case _ => false
  }

  ghost predicate Helps(step: Step, suspect: int) {
    step.Interfere? && Restores(step.cmd, suspect)
  }

  // ---- What a harmless command does ----

  predicate Held(c: Cluster, suspect: int, name: string, id: int) {
    name in c.topics && id in c.topics[name].partitions && c.topics[name].partitions[id].leader == suspect
  }

  /** Nothing new is led by the suspect, and a topic with a partition it leads keeps its ids. */
  ghost predicate Loses(c: Cluster, d: Cluster, suspect: int) {
    forall name, id :: Held(d, suspect, name, id) ==>
      Held(c, suspect, name, id) && d.topics[name].partitions.Keys == c.topics[name].partitions.Keys
  }

  ghost predicate Healthy(s: State) {
    Keyed(s.cluster) && AllDense(s.cluster)
  }

  ghost predicate Out(c: Cluster, suspect: int) {
    !Eligible(c.brokers, suspect)
  }

  lemma HarmlessKeeps(s: State, cmd: Command, now: int, suspect: int)
    requires Healthy(s) && FromController(cmd) && !Restores(cmd, suspect) && suspect != -1
    ensures var t := Applied(s, cmd, now); Healthy(t) && Loses(s.cluster, t.cluster, suspect)
    ensures Out(s.cluster, suspect) ==> Out(Applied(s, cmd, now).cluster, suspect)
  {
    AppliedKeyed(s, cmd, now);
    AppliedDense(s, cmd, now);
    HarmlessLoses(s, cmd, now, suspect);
  }

  lemma HarmlessLoses(s: State, cmd: Command, now: int, suspect: int)
    requires Keyed(s.cluster) && FromController(cmd) && !Restores(cmd, suspect) && suspect != -1
    ensures Loses(s.cluster, Applied(s, cmd, now).cluster, suspect)
  {
    var c, d := s.cluster, Applied(s, cmd, now).cluster;
    forall name, id | Held(d, suspect, name, id)
      ensures Held(c, suspect, name, id) && d.topics[name].partitions.Keys == c.topics[name].partitions.Keys
    {
      if cmd.SetPartitionLeader? && Accepts(s, cmd, now) && cmd.update.value.topic == name {
        assert d.topics[name].partitions.Keys == c.topics[name].partitions.Keys;
      }
    }
  }

  // ---- The invariant ----

  /** The topics whose election is still to come. */
  function Pending(r: Failover): set<string> {
    match r.at
    case Begin => r.store.cluster.topics.Keys
    case Fenced => r.store.cluster.topics.Keys
    case Between(todo) => todo
    case Electing(todo, topic, _, _) => todo + {topic}
    case Done => {}
  }

  /** A partition of the current topic that the suspect still leads is among those to be visited, led
      by the suspect in the snapshot too, and the topic's ids are the snapshot's. */
  ghost predicate Visiting(e: Place, c: Cluster, suspect: int)
    requires e.Electing?
  {
    && Keyed(e.snapshot) && Out(e.snapshot, suspect)
    && e.topic in e.snapshot.topics && Dense(e.snapshot.topics[e.topic])
    && (forall k :: 0 <= k < |e.ids| ==> e.ids[k] in e.snapshot.topics[e.topic].partitions)
    && (forall id :: Held(c, suspect, e.topic, id) ==> id in e.ids)
    && Loses(e.snapshot, c, suspect)
  }

  ghost predicate Inv(suspect: int, r: Failover) {
    && Healthy(r.store)
    && (!r.at.Begin? ==> Out(r.store.cluster, suspect))
    && (forall name, id :: Held(r.store.cluster, suspect, name, id) ==> name in Pending(r))
    && (r.at.Electing? ==> Visiting(r.at, r.store.cluster, suspect))
  }

  lemma LosesTransitive(a: Cluster, b: Cluster, c: Cluster, suspect: int)
    requires Loses(a, b, suspect) && Loses(b, c, suspect)
    ensures Loses(a, c, suspect)
  {
  }

  lemma NotHeldSince(c: Cluster, d: Cluster, suspect: int, name: string, id: int)
    requires Loses(c, d, suspect) && !Held(c, suspect, name, id)
    ensures !Held(d, suspect, name, id)
  {
  }

  /** A topic that no longer has one of its ids was made anew. */
  lemma LostAll(c: Cluster, d: Cluster, suspect: int, name: string, id: int)
    requires Loses(c, d, suspect) && name in c.topics && id in c.topics[name].partitions
    requires !(name in d.topics && id in d.topics[name].partitions)
    ensures forall k :: !Held(d, suspect, name, k)
  {
  }

  /** A harmless command keeps the invariant wherever the failover is. */
  lemma InterfereKeeps(suspect: int, r: Failover, cmd: Command, now: int)
    requires Inv(suspect, r) && FromController(cmd) && !Restores(cmd, suspect) && suspect != -1
    ensures Inv(suspect, r.(store := Applied(r.store, cmd, now)))
  {
    var t := r.(store := Applied(r.store, cmd, now));
    HarmlessKeeps(r.store, cmd, now, suspect);
    if r.at.Electing? {
      LosesTransitive(r.at.snapshot, r.store.cluster, t.store.cluster, suspect);
    }
  }

  lemma FenceKeeps(suspect: int, r: Failover, now: int)
    requires Inv(suspect, r) && r.at.Begin? && suspect != -1
    ensures Inv(suspect, Failover(Applied(r.store, FenceCommand(suspect), now), Fenced))
  {
    HarmlessKeeps(r.store, FenceCommand(suspect), now, suspect);
  }

  lemma SnapshotKeeps(suspect: int, r: Failover, topic: string)
    requires Inv(suspect, r) && Enabled(r, TakeSnapshot(topic))
    ensures Inv(suspect, Next(suspect, r, TakeSnapshot(topic)))
  {
    var c := r.store.cluster;
    var ids := SortedInts(c.topics[topic].partitions.Keys);
    assert forall id :: id in c.topics[topic].partitions <==> id in Elements(ids);
    assert forall k :: 0 <= k < |ids| ==> ids[k] in Elements(ids);
  }

  /** The leader an election names is not the suspect, and the update is one the controller issues. */
  lemma NamesAnother(e: Place, suspect: int, id: int)
    requires e.Electing? && Keyed(e.snapshot) && Out(e.snapshot, suspect) && suspect != -1
    requires e.topic in e.snapshot.topics && id in e.snapshot.topics[e.topic].partitions
    ensures var p := e.snapshot.topics[e.topic].partitions[id];
            var leader := Elected(e.snapshot.brokers, p).leader;
            && (Moves(e.snapshot.brokers, p) ==> leader != suspect && leader >= -1)
            && (p.leader == suspect ==> Moves(e.snapshot.brokers, p))
            && (Moves(e.snapshot.brokers, p) ==>
                  var cmd := LeaderCommand(e.snapshot, e.topic, id, p);
                  FromController(cmd) && !Restores(cmd, suspect))
  {
    assert Registered(e.snapshot.brokers);
    ElectedMeaning(e.snapshot.brokers, e.snapshot.topics[e.topic].partitions[id]);
  }

  /** An id is done with once the suspect does not lead it. */
  lemma PassId(suspect: int, r: Failover)
    requires Inv(suspect, r) && r.at.Electing? && r.at.ids != []
    requires !Held(r.store.cluster, suspect, r.at.topic, r.at.ids[0])
    ensures Inv(suspect, r.(at := r.at.(ids := r.at.ids[1..])))
  {
    assert r.at.ids == [r.at.ids[0]] + r.at.ids[1..];
  }

  lemma GiveUp(suspect: int, r: Failover)
    requires Inv(suspect, r) && r.at.Electing? && forall k :: !Held(r.store.cluster, suspect, r.at.topic, k)
    ensures Inv(suspect, r.(at := Between(r.at.todo)))
  {
  }

  lemma TurnKeeps(suspect: int, r: Failover, now: int)
    requires Inv(suspect, r) && Enabled(r, ElectNext(now)) && suspect != -1
    ensures Inv(suspect, Turn(r, now))
  {
    var e, id, c := r.at, r.at.ids[0], r.store.cluster;
    var p := e.snapshot.topics[e.topic].partitions[id];
    NamesAnother(e, suspect, id);
    if !Moves(e.snapshot.brokers, p) {
      NotHeldSince(e.snapshot, c, suspect, e.topic, id);
      PassId(suspect, r);
    } else {
      var cmd := LeaderCommand(e.snapshot, e.topic, id, p);
      if Accepts(r.store, cmd, now) {
        InterfereKeeps(suspect, r, cmd, now);
        MovedAway(suspect, r, cmd, now, id);
        PassId(suspect, r.(store := Applied(r.store, cmd, now)));
      } else {
        RefusedMeansGone(suspect, r, cmd, now, id);
        GiveUp(suspect, r);
      }
    }
  }

  lemma MovedAway(suspect: int, r: Failover, cmd: Command, now: int, id: int)
    requires cmd.SetPartitionLeader? && Accepts(r.store, cmd, now) && r.at.Electing?
    requires cmd.update.value.topic == r.at.topic && cmd.update.value.partition == id
    requires cmd.update.value.leader != suspect
    ensures !Held(Applied(r.store, cmd, now).cluster, suspect, r.at.topic, id)
  {
  }

  /** The store refuses an update only when the topic was made anew with other ids since the snapshot,
      and then the suspect leads nothing in it. */
  lemma RefusedMeansGone(suspect: int, r: Failover, cmd: Command, now: int, id: int)
    requires Inv(suspect, r) && r.at.Electing? && id in r.at.snapshot.topics[r.at.topic].partitions
    requires cmd == LeaderCommand(r.at.snapshot, r.at.topic, id, r.at.snapshot.topics[r.at.topic].partitions[id])
    requires !Accepts(r.store, cmd, now)
    ensures forall k :: !Held(r.store.cluster, suspect, r.at.topic, k)
  {
    LostAll(r.at.snapshot, r.store.cluster, suspect, r.at.topic, id);
  }

  lemma NextKeeps(suspect: int, r: Failover, step: Step)
    requires Inv(suspect, r) && Enabled(r, step) && suspect != -1
    requires !r.at.Begin? ==> !Helps(step, suspect)
    ensures Inv(suspect, Next(suspect, r, step))
  {
    match step
    case Interfere(cmd, now) =>
      if r.at.Begin? {
        AppliedKeyed(r.store, cmd, now);
        AppliedDense(r.store, cmd, now);
      } else {
        InterfereKeeps(suspect, r, cmd, now);
      }
    case FenceSuspect(now) => FenceKeeps(suspect, r, now);
    case TakeSnapshot(topic) => SnapshotKeeps(suspect, r, topic);
    case ElectNext(now) => TurnKeeps(suspect, r, now);
    case _ =>
  }

  lemma {:induction false} Reachable(suspect: int, log: seq<Entry>, states: seq<Failover>, steps: seq<Step>, i: nat)
    requires Behavior(suspect, log, states, steps) && i < |states| && suspect != -1
    requires forall k :: 0 <= k < i && Helps(steps[k], suspect) ==> states[k].at.Begin?
    ensures Inv(suspect, states[i])
  {
    if i == 0 {
      RunKeyed(FRESH, log);
      RunDense(log);
    } else {
      Reachable(suspect, log, states, steps, i - 1);
      assert Leads(suspect, states[i - 1], steps[i - 1], states[i]);
      NextKeeps(suspect, states[i - 1], steps[i - 1]);
    }
  }

  /** When a failover ends, the suspect leads a partition only if some other goroutine's command, after
      the fence, unfenced it, registered it again or made it a leader. Nothing else that happens in
      between, topic creation included, can leave it in place. */
  lemma SuspectNeedsHelp(suspect: int, log: seq<Entry>, states: seq<Failover>, steps: seq<Step>, name: string, id: int)
    requires Behavior(suspect, log, states, steps) && suspect != -1
    requires var end := states[|states| - 1]; end.at.Done? && Held(end.store.cluster, suspect, name, id)
    ensures exists k :: 0 <= k < |steps| && !states[k].at.Begin? && Helps(steps[k], suspect)
  {
    if forall k :: 0 <= k < |steps| && Helps(steps[k], suspect) ==> states[k].at.Begin? {
      Reachable(suspect, log, states, steps, |steps|);
    }
  }

  // ---- The help can come ----

  /** Two brokers, one topic of one partition, led by broker 0. */
  function ExampleLog(now: int): seq<Entry> {
    [(RegisterBroker(Some(Broker(0, "a", 1, 1, Some(now), false))), now),
     (RegisterBroker(Some(Broker(1, "b", 1, 1, Some(now), false))), now),
     (UpsertTopic(Some(NewTopic("t", 1, 2))), now),
     (SetPartitionLeader(Some(LeaderUpdate("t", 0, 0, [0]))), now)]
  }

  function ExamplePartition(): PartitionMeta {
    PartitionMeta(0, 0, Iota(2), [0])
  }

  function ExampleCluster(now: int, fenced: bool): Cluster {
    Cluster(map["t" := Topic("t", map[0 := ExamplePartition()], map[])],
            map[0 := Broker(0, "a", 1, 1, Some(now), fenced), 1 := Broker(1, "b", 1, 1, Some(now), false)])
  }

  lemma {:induction false} RunSnoc(s: State, log: seq<Entry>, e: Entry)
    ensures Run(s, log + [e]) == Applied(Run(s, log), e.0, e.1)
  {
    assert (log + [e])[..|log|] == log;
  }

  lemma ExampleRun(now: int)
    ensures Run(FRESH, ExampleLog(now)) == State(1, 4, ExampleCluster(now, false))
    ensures forall i :: 0 <= i < 4 ==> FromController(ExampleLog(now)[i].0)
  {
    var log := ExampleLog(now);
    assert log[..1] == [] + [log[0]] && log[..2] == log[..1] + [log[1]];
    assert log[..3] == log[..2] + [log[2]] && log == log[..3] + [log[3]];
    RunSnoc(FRESH, [], log[0]);
    RunSnoc(FRESH, log[..1], log[1]);
    RunSnoc(FRESH, log[..2], log[2]);
    RunSnoc(FRESH, log[..3], log[3]);
    assert FromController(log[2].0);
    ExampleTopic();
    var b0, b1 := Broker(0, "a", 1, 1, Some(now), false), Broker(1, "b", 1, 1, Some(now), false);
    assert Run(FRESH, log[..1]) == State(1, 1, Cluster(map[], map[0 := b0]));
    assert Run(FRESH, log[..2]) == State(1, 2, Cluster(map[], map[0 := b0, 1 := b1]));
  }

  /** The example's topic before and after it gets its leader. */
  lemma ExampleTopic()
    ensures var made := PartitionMeta(0, -1, Iota(2), Iota(2));
            && NewTopic("t", 1, 2) == Topic("t", map[0 := made], map[])
            && map[0 := made][0 := Led(made, 0, [0])] == map[0 := ExamplePartition()]
  {
  }

  /** A heartbeat of the suspect between the fence and the election undoes the failover: the suspect
      still leads when it ends. */
  lemma HeartbeatUndoesFailover(now: int) returns (states: seq<Failover>, steps: seq<Step>)
    ensures Behavior(0, ExampleLog(now), states, steps)
    ensures |steps| == 7 && steps[1] == Interfere(BrokerHeartbeat(Some(0)), now)
    ensures var end := states[|states| - 1]; end.at.Done? && Held(end.store.cluster, 0, "t", 0)
  {
    ExampleRun(now);
    var c, down := ExampleCluster(now, false), ExampleCluster(now, true);
    var s0, s1 := Failover(State(1, 4, c), Begin), Failover(State(1, 5, down), Fenced);
    var s2 := Failover(State(1, 6, c), Fenced);
    FenceAndHeartbeat(now, c, down);
    assert Leads(0, s0, FenceSuspect(now), s1);
    assert Leads(0, s1, Interfere(BrokerHeartbeat(Some(0)), now), s2);
    var rest, more := NothingMoves(now, c, s2);
    states, steps := [s0, s1] + rest, [FenceSuspect(now), Interfere(BrokerHeartbeat(Some(0)), now)] + more;
    forall i | 0 <= i < |steps|
      ensures Leads(0, states[i], steps[i], states[i + 1])
    {
      if i >= 2 {
        assert Leads(0, rest[i - 2], more[i - 2], rest[i - 1]);
      }
    }
  }

  /** The rest of the failover when the suspect is eligible again. */
  lemma NothingMoves(now: int, c: Cluster, r: Failover) returns (states: seq<Failover>, steps: seq<Step>)
    requires c == ExampleCluster(now, false) && r == Failover(State(1, 6, c), Fenced)
    ensures |states| == 6 && |steps| == 5 && states[0] == r && states[5] == r.(at := Done)
    ensures forall i :: 0 <= i < 5 ==> Leads(0, states[i], steps[i], states[i + 1])
  {
    var s3, s4 := r.(at := Between({"t"})), r.(at := Electing({}, "t", c, [0]));
    var s5, s6, s7 := r.(at := Electing({}, "t", c, [])), r.(at := Between({})), r.(at := Done);
    states, steps := [r, s3, s4, s5, s6, s7], [ListTopics, TakeSnapshot("t"), ElectNext(now), FinishTopic, Finish];
    assert c.topics.Keys == {"t"} && {"t"} - {"t"} == {};
    OnlyZero(c.topics["t"].partitions);
    assert Leads(0, r, ListTopics, s3);
    assert Leads(0, s3, TakeSnapshot("t"), s4);
    StaysPut(now, c, s4, s5);
    assert Leads(0, s5, FinishTopic, s6);
    assert Leads(0, s6, Finish, s7);
  }

  /** The election at the one partition finds its leader eligible. */
  lemma StaysPut(now: int, c: Cluster, r: Failover, s: Failover)
    requires c == ExampleCluster(now, false) && r == Failover(State(1, 6, c), Electing({}, "t", c, [0]))
    requires s == r.(at := Electing({}, "t", c, []))
    ensures Leads(0, r, ElectNext(now), s)
  {
    assert [0][1..] == [];
  }

  lemma FenceAndHeartbeat(now: int, c: Cluster, down: Cluster)
    requires c == ExampleCluster(now, false) && down == ExampleCluster(now, true)
    ensures Applied(State(1, 4, c), FenceCommand(0), now) == State(1, 5, down)
    ensures Applied(State(1, 5, down), BrokerHeartbeat(Some(0)), now) == State(1, 6, c)
  {
    assert c.brokers[0 := down.brokers[0]] == down.brokers;
    assert down.brokers[0 := c.brokers[0]] == c.brokers;
  }

  lemma OnlyZero(ps: map<int, PartitionMeta>)
    requires ps.Keys == {0}
    ensures SortedInts(ps.Keys) == [0]
  {
    assert Elements([0]) == {0};
    IncreasingUnique(SortedInts(ps.Keys), [0]);
  }
}
