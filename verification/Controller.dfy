/** The metadata store and the controller on top of it, as objects updated in place. A snapshot is a
    value, which is what the source's deep copies amount to; each controller method is one critical
    section here. */
module Controller {
  import opened Text
  import opened Ordering
  import M = Metadata
  import opened Election

  /** How many changes were made, and whether an error cut the loop short. */
  datatype Outcome = Done(changes: nat) | Failed(changes: nat)

  class MetadataStore {
    const term: nat
    var index: nat
    var cluster: M.Cluster

    ghost function State(): M.State
      reads this
    {
      M.State(term, index, cluster)
    }

    ghost predicate Valid()
      reads this
    {
      M.Keyed(cluster)
    }

    /** NewRaftMetadataStore. */
    constructor ()
      ensures Valid() && State() == M.FRESH
    {
      term, index, cluster := 1, 0, M.Cluster(map[], map[]);
    }

    /** Apply: the new term and index, or an error. */
    method Apply(cmd: M.Command, now: int) returns (ok: bool)
      requires Valid()
      modifies this
      ensures Valid() && State() == M.Applied(old(State()), cmd, now)
      ensures ok <==> M.Accepts(old(State()), cmd, now)
      ensures ok ==> index == old(index) + 1
    {
      M.AppliedKeyed(State(), cmd, now);
      if !M.Validated(cmd) {
        return false;
      }
      match cmd {
        case UpsertTopic(t) =>
          cluster := cluster.(topics := cluster.topics[t.value.name := t.value]);
        case RegisterBroker(b) =>
          var broker := b.value;
          if broker.lastHeartbeat.None? {
            broker := broker.(lastHeartbeat := Some(now));
          }
          cluster := cluster.(brokers := cluster.brokers[broker.id := broker]);
        case BrokerHeartbeat(id) =>
          if id.value !in cluster.brokers {
            return false;
          }
          var b := cluster.brokers[id.value];
          b := b.(lastHeartbeat := Some(now));
          b := b.(fenced := false);
          cluster := cluster.(brokers := cluster.brokers[b.id := b]);
        case SetPartitionLeader(u) =>
          if u.value.topic !in cluster.topics {
            return false;
          }
          var topic := cluster.topics[u.value.topic];
          if u.value.partition !in topic.partitions {
            return false;
          }
          var partition := topic.partitions[u.value.partition].(leader := u.value.leader);
          if |u.value.isr| > 0 {
            partition := partition.(isr := u.value.isr);
          }
          topic := topic.(partitions := topic.partitions[u.value.partition := partition]);
          cluster := cluster.(topics := cluster.topics[u.value.topic := topic]);
        case SetBrokerFence(f) =>
          if f.value.id !in cluster.brokers {
            return false;
          }
          var broker := cluster.brokers[f.value.id].(fenced := f.value.fenced);
          cluster := cluster.(brokers := cluster.brokers[broker.id := broker]);
      }
      index := index + 1;
      return true;
    }
  }

  /** electFromReplicas: the first eligible replica. */
  method ElectFromReplicas(brokers: map<int, M.Broker>, replicas: seq<int>) returns (leader: int)
    ensures leader == FirstEligible(brokers, replicas)
  {
    for i := 0 to |replicas|
      invariant FirstEligible(brokers, replicas) == FirstEligible(brokers, replicas[i..])
    {
      if Eligible(brokers, replicas[i]) {
        return replicas[i];
      }
      assert replicas[i..][1..] == replicas[i + 1..];
    }
    return -1;
  }

  /** selectEligibleReplicas. */
  method SelectEligibleReplicas(brokers: map<int, M.Broker>, replicas: seq<int>) returns (out: seq<int>)
    ensures out == EligibleReplicas(brokers, replicas)
  {
    out := [];
    for i := 0 to |replicas|
      invariant out == EligibleReplicas(brokers, replicas[..i])
    {
      assert replicas[..i + 1][..i] == replicas[..i];
      if Eligible(brokers, replicas[i]) {
        out := out + [replicas[i]];
      }
    }
    assert replicas[..|replicas|] == replicas;
  }

  /** The body of ElectTopicLeaders' loop up to the command: the target leader and its ISR. */
  method ChooseLeader(brokers: map<int, M.Broker>, p: M.PartitionMeta) returns (target: int, isr: seq<int>)
    requires Registered(brokers)
    ensures target == Elected(brokers, p).leader
    ensures Moves(brokers, p) ==> target >= -1 && M.Led(p, target, isr) == Elected(brokers, p)
  {
    ElectedMeaning(brokers, p);
    FirstIsHead(brokers, p.replicas);
    target, isr := p.leader, [];
    if !Eligible(brokers, target) {
      target := ElectFromReplicas(brokers, p.replicas);
    }
    if target != p.leader {
      isr := SelectEligibleReplicas(brokers, p.replicas);
      if |isr| == 0 && target >= 0 {
        isr := [target];
      }
    }
  }

  /** The topic has partitions 0, 1, .. n-1, each led by nobody, with replicas 0, 1, .. rf-1, all in sync. */
  ghost predicate MadeNew(t: M.Topic, n: int, rf: int) {
    && t.configs == map[]
    && (forall i :: i in t.partitions <==> 0 <= i < n)
    && (forall i :: i in t.partitions ==> t.partitions[i].id == i && t.partitions[i].leader == -1)
    && (forall i :: i in t.partitions ==> FirstIds(t.partitions[i].replicas, rf) && FirstIds(t.partitions[i].isr, rf))
  }

  ghost predicate FirstIds(ids: seq<int>, n: int) {
    |ids| == n && forall i :: 0 <= i < n ==> ids[i] == i
  }

  class Controller {
    const store: MetadataStore

    constructor (store: MetadataStore)
      ensures this.store == store
    {
      this.store := store;
    }

    /** CreateTopic. */
    method CreateTopic(name: string, partitions: int, replicationFactor: int, now: int) returns (ok: bool)
      requires store.Valid()
      modifies store
      ensures store.Valid()
      ensures ok <==> name != "" && partitions > 0 && replicationFactor > 0
      ensures store.State() == if ok
                               then M.Applied(old(store.State()),
                                   M.UpsertTopic(Some(M.NewTopic(name, partitions, replicationFactor))), now)
                               else old(store.State())
      ensures ok ==> name in store.cluster.topics && MadeNew(store.cluster.topics[name], partitions, replicationFactor)
    {
      if name == "" || partitions <= 0 || replicationFactor <= 0 {
        return false;
      }
      var replicas: seq<int> := [];
      for i := 0 to replicationFactor
        invariant replicas == M.Iota(i)
      {
        replicas := replicas + [i];
      }
      var partitionMap: map<int, M.PartitionMeta> := map[];
      for i := 0 to partitions
        invariant partitionMap == map k | 0 <= k < i :: M.PartitionMeta(k, -1, replicas, replicas)
      {
        partitionMap := partitionMap[i := M.PartitionMeta(i, -1, replicas, replicas)];
      }
      ok := store.Apply(M.UpsertTopic(Some(M.Topic(name, partitionMap, map[]))), now);
    }

    /** RegisterBroker; an epoch of 0 or less is replaced by the clock. */
    method RegisterBroker(id: int, host: string, port: int, epoch: int, now: int) returns (ok: bool)
      requires store.Valid()
      modifies store
      ensures store.Valid() && (ok <==> id >= 0 && host != "" && port > 0)
      ensures store.index == old(store.index) + if ok then 1 else 0
      ensures store.cluster.topics == old(store.cluster.topics)
      ensures store.cluster.brokers == if ok
              then old(store.cluster.brokers)[id :=
                  M.Broker(id, host, port, if epoch <= 0 then now else epoch, Some(now), false)]
                                       else old(store.cluster.brokers)
    {
      if id < 0 || host == "" || port <= 0 {
        return false;
      }
      var stamp := epoch;
      if epoch <= 0 {
        stamp := now;
      }
      ok := store.Apply(M.RegisterBroker(Some(M.Broker(id, host, port, stamp, Some(now), false))), now);
    }

    /** SetPartitionLeader. */
    method SetPartitionLeader(topic: string, partition: int, leader: int, isr: seq<int>, now: int) returns (ok: bool)
      requires store.Valid()
      modifies store
      ensures store.Valid()
      ensures ok <==> partition >= 0 && leader >= -1 && topic in old(store.cluster.topics)
                      && partition in old(store.cluster.topics)[topic].partitions
      ensures store.State() == if ok
                               then M.Applied(old(store.State()),
                                   M.SetPartitionLeader(Some(M.LeaderUpdate(topic, partition, leader, isr))), now)
                               else old(store.State())
    {
      if topic == "" || partition < 0 || leader < -1 {
        return false;
      }
      ok := store.Apply(M.SetPartitionLeader(Some(M.LeaderUpdate(topic, partition, leader, isr))), now);
    }

    /** SetBrokerFence. */
    method SetBrokerFence(id: int, fenced: bool, now: int) returns (ok: bool)
      requires store.Valid()
      modifies store
      ensures store.Valid() && (ok <==> id in old(store.cluster.brokers))
      ensures store.index == old(store.index) + if ok then 1 else 0
      ensures store.cluster.topics == old(store.cluster.topics)
      ensures store.cluster.brokers == if ok
              then old(store.cluster.brokers)[id := old(store.cluster.brokers)[id].(fenced := fenced)]
                                       else old(store.cluster.brokers)
    {
      if id < 0 {
        return false;
      }
      ok := store.Apply(M.SetBrokerFence(Some(M.FenceUpdate(id, fenced))), now);
    }

    /** One turn of ReconcileBrokerHealth's loop. */
    method ReconcileBroker(brokers: map<int, M.Broker>, id: int, timeout: int, now: int, ghost seen: set<int>)
      returns (ok: bool, changed: bool)
      requires store.Valid() && id in brokers && id !in seen
      requires store.cluster.brokers == PartlyReconciled(brokers, now, timeout, seen)
      modifies store
      ensures store.Valid() && ok && store.cluster.topics == old(store.cluster.topics)
      ensures store.cluster.brokers == PartlyReconciled(brokers, now, timeout, seen + {id})
      ensures changed <==> id in Misfenced(brokers, now, timeout)
      ensures store.index == old(store.index) + if changed then 1 else 0
    {
      var b := brokers[id];
      var target := b.lastHeartbeat.None? || now - b.lastHeartbeat.value > timeout;
      ok, changed := true, b.fenced != target;
      if changed {
        ok := SetBrokerFence(id, target, now);
      }
      assert store.cluster.brokers == PartlyReconciled(brokers, now, timeout, seen)[id := b.(fenced := target)];
      PartlyReconciledStep(brokers, now, timeout, seen, id);
    }

    /** ReconcileBrokerHealth: fences exactly the stale brokers and counts the changes exactly. */
    method ReconcileBrokerHealth(timeout: int, now: int) returns (r: Outcome)
      requires store.Valid()
      modifies store
      ensures store.Valid() && store.cluster.topics == old(store.cluster.topics)
      ensures r == if timeout <= 0 then Failed(0) else Done(|Misfenced(old(store.cluster.brokers), now, timeout)|)
      ensures store.cluster.brokers == if timeout <= 0
              then old(store.cluster.brokers) else Reconciled(old(store.cluster.brokers), now, timeout)
      ensures timeout > 0 ==>
                forall id :: id in store.cluster.brokers ==>
                  (store.cluster.brokers[id].fenced <==> !HeardSince(store.cluster.brokers[id], now, timeout))
      ensures store.index == old(store.index) + r.changes
    {
      if timeout <= 0 {
        return Failed(0);
      }
      var brokers := store.cluster.brokers;
      var ids := SortInts(brokers.Keys);
      ghost var wrong := Misfenced(brokers, now, timeout);
      var changes: nat := 0;
      VisitEnds(ids);
      PartlyReconciledEnds(brokers, now, timeout);
      for i := 0 to |ids|
        invariant store.Valid() && store.cluster.topics == old(store.cluster.topics)
        invariant store.cluster.brokers == PartlyReconciled(brokers, now, timeout, Elements(ids[..i]))
        invariant changes == Tally(ids[..i], wrong)
        invariant store.index == old(store.index) + changes
      {
        VisitNext(ids, i, wrong);
        var ok, changed := ReconcileBroker(brokers, ids[i], timeout, now, Elements(ids[..i]));
        if !ok {
          return Failed(changes);
        }
        if changed {
          changes := changes + 1;
        }
      }
      TallyCounts(ids, wrong);
      return Done(changes);
    }

    /** One turn of ElectTopicLeaders' loop; it fails on a negative id whose leader has to move. */
    method ElectPartition(snapshot: M.Cluster, topic: string, id: int, now: int, ghost seen: set<int>)
      returns (ok: bool, changed: bool)
      requires store.Valid() && topic in snapshot.topics && id in snapshot.topics[topic].partitions && id !in seen
      requires store.cluster == PartlyElected(snapshot, topic, seen)
      modifies store
      ensures store.Valid()
      ensures changed <==> id in Moving(snapshot.brokers, snapshot.topics[topic].partitions)
      ensures ok <==> changed ==> id >= 0
      ensures store.cluster == PartlyElected(snapshot, topic, if ok then seen + {id} else seen)
      ensures store.index == old(store.index) + if ok && changed then 1 else 0
    {
      var p := snapshot.topics[topic].partitions[id];
      assert store.cluster.brokers == snapshot.brokers;
      PartlyElectedStep(snapshot, topic, seen, id);
      var target, isr := ChooseLeader(snapshot.brokers, p);
      ok, changed := true, target != p.leader;
      if changed {
        ok := SetPartitionLeader(topic, id, target, isr, now);
      } else {
        ElectedMeaning(snapshot.brokers, p);
      }
    }

    /** ElectTopicLeaders' loop. */
    method ElectPartitions(topic: string, now: int) returns (r: Outcome)
      requires store.Valid() && topic in store.cluster.topics
      modifies store
      ensures store.Valid()
      ensures r.Failed? == Blocked(old(store.cluster.brokers), old(store.cluster.topics)[topic].partitions)
      ensures r.Failed? ==> store.cluster == old(store.cluster) && r.changes == 0
      ensures r.Done? ==>
                var ids := old(store.cluster.topics)[topic].partitions.Keys;
                store.cluster == PartlyElected(old(store.cluster), topic, ids)
      ensures r.Done? ==> r.changes == |Moving(old(store.cluster.brokers), old(store.cluster.topics)[topic].partitions)|
      ensures store.index == old(store.index) + r.changes
    {
      var snapshot := store.cluster;
      var ids := SortInts(snapshot.topics[topic].partitions.Keys);
      ghost var moving := Moving(snapshot.brokers, snapshot.topics[topic].partitions);
      var changes: nat := 0;
      VisitEnds(ids);
      assert store.cluster == PartlyElected(snapshot, topic, {}) by {
        PartlyElectedEnds(snapshot, topic);
      }
      for i := 0 to |ids|
        invariant store.Valid() && store.cluster == PartlyElected(snapshot, topic, Elements(ids[..i]))
        invariant changes == Tally(ids[..i], moving)
        invariant forall k :: 0 <= k < i && ids[k] in moving ==> ids[k] >= 0
        invariant store.index == old(store.index) + changes
      {
        VisitNext(ids, i, moving);
        var ok, changed := ElectPartition(snapshot, topic, ids[i], now, Elements(ids[..i]));
        if !ok {
          RefusedFirst(snapshot, topic, ids, i);
          return Failed(changes);
        }
        if changed {
          changes := changes + 1;
        }
      }
      TallyCounts(ids, moving);
      NeverRefused(snapshot, topic, ids);
      return Done(changes);
    }

    /** ElectTopicLeaders: the whole topic is elected, or nothing changes; the count is exact. */
    method ElectTopicLeaders(topic: string, now: int) returns (r: Outcome)
      requires store.Valid()
      modifies store
      ensures store.Valid() && store.cluster.brokers == old(store.cluster.brokers)
      ensures store.cluster.topics == if topic in old(store.cluster.topics)
                                      then old(store.cluster.topics)[topic :=
                                          ElectedTopic(old(store.cluster.brokers), old(store.cluster.topics)[topic])]
                                      else old(store.cluster.topics)
      ensures r == if topic !in old(store.cluster.topics)
              || Blocked(old(store.cluster.brokers), old(store.cluster.topics)[topic].partitions)
                   then Failed(0)
                   else Done(|Moving(old(store.cluster.brokers), old(store.cluster.topics)[topic].partitions)|)
      ensures store.index == old(store.index) + r.changes
    {
      if topic == "" || topic !in store.cluster.topics {
        return Failed(0);
      }
      PartlyElectedEnds(store.cluster, topic);
      r := ElectPartitions(topic, now);
    }

    /** The topic loop of tryFailoverForWorker, in whatever order the topics are visited. */
    method ElectAllTopics(now: int)
      requires store.Valid()
      modifies store
      ensures store.Valid() && store.cluster.brokers == old(store.cluster.brokers)
      ensures store.cluster.topics == TopicsLeft(old(store.cluster), {})
    {
      var snapshot := store.cluster;
      var todo := snapshot.topics.Keys;
      TopicsLeftAll(snapshot);
      while todo != {}
        invariant store.Valid() && todo <= snapshot.topics.Keys && store.cluster.brokers == snapshot.brokers
        invariant store.cluster.topics == TopicsLeft(snapshot, todo)
        decreases |todo|
      {
        var name := Choose(todo);
        TopicsLeftStep(snapshot, todo, name);
        var _ := ElectTopicLeaders(name, now);
        todo := todo - {name};
      }
    }

    /** tryFailoverForWorker: fences the suspect and elects every topic. */
    method TryFailover(leader: int, now: int)
      requires store.Valid()
      modifies store
      ensures store.Valid() && store.cluster == FailedOver(old(store.cluster), leader)
    {
      var _ := SetBrokerFence(leader, true, now);
      ElectAllTopics(now);
    }
  }

  /** The topics when all but the given ones have been elected. */
  ghost function TopicsLeft(c: M.Cluster, todo: set<string>): map<string, M.Topic> {
    map name | name in c.topics ::
      if name in todo then c.topics[name] else ElectedTopic(c.brokers, c.topics[name])
  }

  lemma TopicsLeftAll(c: M.Cluster)
    ensures TopicsLeft(c, c.topics.Keys) == c.topics
  {
  }

  lemma TopicsLeftStep(c: M.Cluster, todo: set<string>, name: string)
    requires name in todo && name in c.topics
    ensures TopicsLeft(c, todo)[name] == c.topics[name]
    ensures TopicsLeft(c, todo - {name}) == TopicsLeft(c, todo)[name := ElectedTopic(c.brokers, c.topics[name])]
  {
  }

  /** The brokers when only the seen ones have been reconciled. */
  ghost function PartlyReconciled(brokers: map<int, M.Broker>, now: int, timeout: int,
                                  seen: set<int>): map<int, M.Broker> {
    map id | id in brokers ::
      if id in seen then brokers[id].(fenced := Stale(brokers[id], now, timeout)) else brokers[id]
  }

  lemma PartlyReconciledStep(brokers: map<int, M.Broker>, now: int, timeout: int, seen: set<int>, id: int)
    requires id in brokers && id !in seen
    ensures PartlyReconciled(brokers, now, timeout, seen + {id}) ==
            var before := PartlyReconciled(brokers, now, timeout, seen);
            before[id := brokers[id].(fenced := Stale(brokers[id], now, timeout))]
  {
  }

  lemma PartlyReconciledEnds(brokers: map<int, M.Broker>, now: int, timeout: int)
    ensures PartlyReconciled(brokers, now, timeout, {}) == brokers
    ensures PartlyReconciled(brokers, now, timeout, brokers.Keys) == Reconciled(brokers, now, timeout)
  {
  }

  ghost function PartlyElectedPartitions(brokers: map<int, M.Broker>, ps: map<int, M.PartitionMeta>, seen: set<int>)
    : map<int, M.PartitionMeta>
  {
    map id | id in ps :: if id in seen then Elected(brokers, ps[id]) else ps[id]
  }

  /** The cluster when only the seen partitions of the topic have been elected. */
  ghost function PartlyElected(c: M.Cluster, topic: string, seen: set<int>): M.Cluster
    requires topic in c.topics
  {
    var t := c.topics[topic];
    c.(topics := c.topics[topic := t.(partitions := PartlyElectedPartitions(c.brokers, t.partitions, seen))])
  }

  lemma PartlyElectedEnds(c: M.Cluster, topic: string)
    requires topic in c.topics
    ensures var t := c.topics[topic];
            && PartlyElected(c, topic, {}) == c
            && PartlyElected(c, topic, t.partitions.Keys) ==
               c.(topics := c.topics[topic := t.(partitions := ElectedPartitions(c.brokers, t.partitions))])
  {
    var ps := c.topics[topic].partitions;
    assert PartlyElectedPartitions(c.brokers, ps, {}) == ps;
    assert c.topics[topic := c.topics[topic]] == c.topics;
    assert PartlyElectedPartitions(c.brokers, ps, ps.Keys) == ElectedPartitions(c.brokers, ps);
  }

  lemma PartlyElectedStep(c: M.Cluster, topic: string, seen: set<int>, id: int)
    requires topic in c.topics && id in c.topics[topic].partitions && id !in seen
    ensures var t, u := c.topics[topic], PartlyElected(c, topic, seen).topics[topic];
            && u.partitions[id] == t.partitions[id]
            && PartlyElected(c, topic, seen + {id}) ==
               (var ps := u.partitions[id := Elected(c.brokers, t.partitions[id])];
                c.(topics := PartlyElected(c, topic, seen).topics[topic := u.(partitions := ps)]))
            && (Elected(c.brokers, t.partitions[id]) == t.partitions[id] ==>
                  PartlyElected(c, topic, seen + {id}) == PartlyElected(c, topic, seen))
  {
    var t, e := c.topics[topic], Elected(c.brokers, c.topics[topic].partitions[id]);
    var before, after := PartlyElectedPartitions(c.brokers, t.partitions, seen),
        PartlyElectedPartitions(c.brokers, t.partitions, seen + {id});
    assert after == before[id := e];
    assert e == t.partitions[id] ==> after == before;
    assert c.topics[topic := t.(partitions := before)][topic := t.(partitions := after)]
        == c.topics[topic := t.(partitions := after)];
  }

  lemma {:induction false} TallyNone(ids: seq<int>, counted: set<int>)
    requires forall k :: 0 <= k < |ids| ==> ids[k] !in counted
    ensures Tally(ids, counted) == 0
  {
    if ids == [] {
    } else {
      TallyNone(ids[..|ids| - 1], counted);
    }
  }

  lemma NeverRefused(c: M.Cluster, topic: string, ids: seq<int>)
    requires topic in c.topics && Elements(ids) == c.topics[topic].partitions.Keys
    requires forall k :: 0 <= k < |ids| && ids[k] in Moving(c.brokers, c.topics[topic].partitions) ==> ids[k] >= 0
    ensures !Blocked(c.brokers, c.topics[topic].partitions)
  {
    forall id | id in Moving(c.brokers, c.topics[topic].partitions)
      ensures id >= 0
    {
      assert id in Elements(ids);
      var k :| 0 <= k < |ids| && ids[k] == id;
    }
  }

  /** Where the election is refused, nothing has changed yet. */
  lemma RefusedFirst(c: M.Cluster, topic: string, ids: seq<int>, i: nat)
    requires topic in c.topics && i < |ids| && forall k :: 0 <= k < i ==> ids[k] < ids[i]
    requires ids[i] < 0 && ids[i] in Moving(c.brokers, c.topics[topic].partitions)
    requires forall k :: 0 <= k < i && ids[k] in Moving(c.brokers, c.topics[topic].partitions) ==> ids[k] >= 0
    ensures var ps := c.topics[topic].partitions;
            Blocked(c.brokers, ps) && Tally(ids[..i], Moving(c.brokers, ps)) == 0
    ensures PartlyElected(c, topic, Elements(ids[..i])) == c
  {
    var ps := c.topics[topic].partitions;
    forall id | id in Elements(ids[..i])
      ensures id !in Moving(c.brokers, ps)
    {
      var k :| 0 <= k < i && ids[k] == id;
    }
    assert forall k :: 0 <= k < i ==> ids[..i][k] in Elements(ids[..i]);
    TallyNone(ids[..i], Moving(c.brokers, ps));
    assert PartlyElectedPartitions(c.brokers, ps, Elements(ids[..i])) == ps;
    assert c.topics[topic := c.topics[topic]] == c.topics;
  }
}
