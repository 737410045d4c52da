/** The cluster metadata and the command log that builds it. */
module Metadata {
  import opened Text
  import opened Ordering

  datatype PartitionMeta = PartitionMeta(id: int, leader: int, replicas: seq<int>, isr: seq<int>)

  datatype Topic = Topic(name: string, partitions: map<int, PartitionMeta>, configs: map<string, string>)

  /** lastHeartbeat is None for Go's zero time. */
  datatype Broker = Broker(id: int, host: string, port: int, epoch: int, lastHeartbeat: Option<int>, fenced: bool)

  datatype Cluster = Cluster(topics: map<string, Topic>, brokers: map<int, Broker>)

  /** A command may come without its payload. */
  datatype Command =
    | UpsertTopic(topic: Option<Topic>)
    | RegisterBroker(broker: Option<Broker>)
    | BrokerHeartbeat(beat: Option<int>)
    | SetPartitionLeader(update: Option<LeaderUpdate>)
    | SetBrokerFence(fence: Option<FenceUpdate>)
    | OtherType(name: string)

  datatype LeaderUpdate = LeaderUpdate(topic: string, partition: int, leader: int, isr: seq<int>)

  datatype FenceUpdate = FenceUpdate(id: int, fenced: bool)

  datatype State = State(term: nat, index: nat, cluster: Cluster)

  const FRESH := State(1, 0, Cluster(map[], map[]))

  /** validateCommand. */
  predicate Validated(cmd: Command) {
    match cmd
    case UpsertTopic(t) => t.Some? && t.value.name != ""
    case RegisterBroker(b) => b.Some? && b.value.id >= 0
    case BrokerHeartbeat(id) => id.Some? && id.value >= 0
    case SetPartitionLeader(u) => u.Some? && u.value.topic != "" && u.value.partition >= 0
    case SetBrokerFence(f) => f.Some? && f.value.id >= 0
    case OtherType(_) => false
  }

  function Led(p: PartitionMeta, leader: int, isr: seq<int>): PartitionMeta {
    p.(leader := leader, isr := if |isr| > 0 then isr else p.isr)
  }

  /** The switch of Apply on a validated command; None is one of its "not found" errors. */
  function Effect(c: Cluster, cmd: Command, now: int): Option<Cluster>
    requires Validated(cmd)
  {
    match cmd
    case UpsertTopic(t) => Some(c.(topics := c.topics[t.value.name := t.value]))
    case RegisterBroker(b) =>
      var broker := if b.value.lastHeartbeat.None? then b.value.(lastHeartbeat := Some(now)) else b.value;
      Some(c.(brokers := c.brokers[broker.id := broker]))
    case BrokerHeartbeat(id) =>
      if id.value !in c.brokers then None
      else
        var b := c.brokers[id.value].(lastHeartbeat := Some(now), fenced := false);
        Some(c.(brokers := c.brokers[b.id := b]))
    case SetPartitionLeader(u) =>
      if u.value.topic !in c.topics then None
      else if u.value.partition !in c.topics[u.value.topic].partitions then None
      else
        var t := c.topics[u.value.topic];
        var p := Led(t.partitions[u.value.partition], u.value.leader, u.value.isr);
        Some(c.(topics := c.topics[u.value.topic := t.(partitions := t.partitions[u.value.partition := p])]))
    case SetBrokerFence(f) =>
      if f.value.id !in c.brokers then None
      else
        var b := c.brokers[f.value.id].(fenced := f.value.fenced);
        Some(c.(brokers := c.brokers[b.id := b]))
  }

  predicate Accepts(s: State, cmd: Command, now: int) {
    Validated(cmd) && Effect(s.cluster, cmd, now).Some?
  }

  /** RaftMetadataStore.Apply. */
  function Applied(s: State, cmd: Command, now: int): State {
    if Accepts(s, cmd, now) then s.(index := s.index + 1, cluster := Effect(s.cluster, cmd, now).value) else s
  }

  /** A command and the clock reading it is applied with. */
  type Entry = (Command, int)

  function Run(s: State, log: seq<Entry>): State {
    if log == [] then s else Applied(Run(s, log[..|log| - 1]), log[|log| - 1].0, log[|log| - 1].1)
  }

  // ---- The state is the fold of the accepted commands ----

  function Accepted(s: State, log: seq<Entry>): seq<Entry> {
    if log == [] then []
    else
      var n := |log| - 1;
      Accepted(s, log[..n]) + if Accepts(Run(s, log[..n]), log[n].0, log[n].1) then [log[n]] else []
  }

  /** Any two command logs with the same accepted commands build the same state, and the index
      counts those commands. */
  lemma {:induction false} FoldOfAccepted(s: State, log: seq<Entry>)
    ensures Run(s, Accepted(s, log)) == Run(s, log)
    ensures Run(s, log).index == s.index + |Accepted(s, log)|
    ensures Run(s, log).term == s.term
    ensures Accepted(s, Accepted(s, log)) == Accepted(s, log)
  {
    if log == [] {
    } else {
      var n := |log| - 1;
      FoldOfAccepted(s, log[..n]);
      var front, all := Accepted(s, log[..n]), Accepted(s, log);
      if Accepts(Run(s, log[..n]), log[n].0, log[n].1) {
        assert all[..|all| - 1] == front && all[|all| - 1] == log[n];
      } else {
        assert all == front;
      }
    }
  }

  // ---- What every command keeps ----

  /** Topics are stored under their own non-empty name, brokers under their own non-negative id. */
  ghost predicate Keyed(c: Cluster) {
    && (forall name :: name in c.topics ==> name != "" && c.topics[name].name == name)
    && (forall id :: id in c.brokers ==> id >= 0 && c.brokers[id].id == id)
  }

  lemma AppliedKeyed(s: State, cmd: Command, now: int)
    requires Keyed(s.cluster)
    ensures Keyed(Applied(s, cmd, now).cluster)
  {
  }

  /** In every reachable state. */
  lemma {:induction false} RunKeyed(s: State, log: seq<Entry>)
    requires Keyed(s.cluster)
    ensures Keyed(Run(s, log).cluster)
  {
    if log == [] {
    } else {
      RunKeyed(s, log[..|log| - 1]);
      AppliedKeyed(Run(s, log[..|log| - 1]), log[|log| - 1].0, log[|log| - 1].1);
    }
  }

  // ---- Topics made through the controller ----

  /** 0, 1, .. n-1. */
  function Iota(n: nat): (s: seq<int>)
    ensures |s| == n && forall i :: 0 <= i < n ==> s[i] == i
  {
    seq(n, i => i)
  }

  /** The topic that CreateTopic upserts: nobody leads, everyone is in sync. */
  function NewTopic(name: string, partitions: nat, replicationFactor: nat): Topic {
    var replicas := Iota(replicationFactor);
    Topic(name, map i | 0 <= i < partitions :: PartitionMeta(i, -1, replicas, replicas), map[])
  }

  /** The commands the controller's methods issue. */
  ghost predicate FromController(cmd: Command) {
    match cmd
    case UpsertTopic(t) => t.Some? && exists name, n, rf :: n > 0 && rf > 0 && t.value == NewTopic(name, n, rf)
    case SetPartitionLeader(u) => u.Some? && u.value.leader >= -1
    case _ => true
  }

  /** The partition ids are exactly 0..k-1 for some k > 0, each stored under itself, with a leader
      of at least -1. */
  ghost predicate Dense(t: Topic) {
    && |t.partitions| > 0
    && (forall id :: id in t.partitions <==> 0 <= id < |t.partitions|)
    && (forall id :: id in t.partitions ==> t.partitions[id].id == id && t.partitions[id].leader >= -1)
  }

  ghost predicate AllDense(c: Cluster) {
    forall name :: name in c.topics ==> Dense(c.topics[name])
  }

  lemma {:induction false} IotaCount(n: nat)
    ensures |Elements(Iota(n))| == n
  {
    if n == 0 {
    } else {
      IotaCount(n - 1);
      assert Iota(n) == Iota(n - 1) + [n - 1];
      assert Elements(Iota(n)) == Elements(Iota(n - 1)) + {n - 1};
    }
  }

  lemma NewTopicDense(name: string, n: nat, rf: nat)
    requires n > 0
    ensures Dense(NewTopic(name, n, rf)) && |NewTopic(name, n, rf).partitions| == n
  {
    var ps := NewTopic(name, n, rf).partitions;
    IotaCount(n);
    forall i
      ensures i in ps.Keys <==> i in Elements(Iota(n))
    {
      assert 0 <= i < n ==> Iota(n)[i] == i;
    }
    assert ps.Keys == Elements(Iota(n));
    assert |ps| == |ps.Keys|;
  }

  lemma LedDense(t: Topic, id: int, leader: int, isr: seq<int>)
    requires Dense(t) && id in t.partitions && leader >= -1
    ensures Dense(t.(partitions := t.partitions[id := Led(t.partitions[id], leader, isr)]))
  {
    var ps := t.partitions[id := Led(t.partitions[id], leader, isr)];
    assert ps.Keys == t.partitions.Keys;
    assert |ps| == |ps.Keys| == |t.partitions.Keys| == |t.partitions|;
  }

  lemma AppliedDense(s: State, cmd: Command, now: int)
    requires AllDense(s.cluster) && FromController(cmd)
    ensures AllDense(Applied(s, cmd, now).cluster)
  {
    match cmd
    case UpsertTopic(t) =>
      var name, n, rf :| n > 0 && rf > 0 && t.value == NewTopic(name, n, rf);
      NewTopicDense(name, n, rf);
    case SetPartitionLeader(u) =>
      if Accepts(s, cmd, now) {
        LedDense(s.cluster.topics[u.value.topic], u.value.partition, u.value.leader, u.value.isr);
      }
    case _ =>
  }

  /** After any log of controller commands, in any interleaving, every topic has dense partition
      ids. */
  lemma {:induction false} RunDense(log: seq<Entry>)
    requires forall i :: 0 <= i < |log| ==> FromController(log[i].0)
    ensures AllDense(Run(FRESH, log).cluster)
  {
    if log == [] {
    } else {
      var n := |log| - 1;
      RunDense(log[..n]);
      AppliedDense(Run(FRESH, log[..n]), log[n].0, log[n].1);
    }
  }

  // ---- Key routing ----

  /** 32-bit FNV-1a. */
  function Fnv1a(key: string): (h: nat)
    ensures h < 0x1_0000_0000
  {
    if key == "" then 2166136261
    else Xor(Fnv1a(key[..|key| - 1]), key[|key| - 1] as int % 256) * 16777619 % 0x1_0000_0000
  }

  /** getPartition. */
  function PartitionForKey(key: string, count: int): int
    requires count > 0
  {
    Fnv1a(key) % count
  }

  /** The "topic has no partitions" and "partition metadata missing" errors of PRODUCE cannot occur
      for a topic made through the controller, whatever the key and whatever happened since. */
  lemma RoutingFindsPartition(log: seq<Entry>, topic: string, key: string)
    requires forall i :: 0 <= i < |log| ==> FromController(log[i].0)
    requires topic in Run(FRESH, log).cluster.topics
    ensures var ps := Run(FRESH, log).cluster.topics[topic].partitions;
            && |ps| > 0 && PartitionForKey(key, |ps|) in ps
            && ps[PartitionForKey(key, |ps|)].id == PartitionForKey(key, |ps|)
  {
    RunDense(log);
    var ps := Run(FRESH, log).cluster.topics[topic].partitions;
    assert 0 <= PartitionForKey(key, |ps|) < |ps|;
  }
}
