/** The cluster metadata read off the command log: which commands are accepted, who is registered, when each
    broker was last heard from and whether it is fenced, and who leads each partition, each in terms of
    the commands alone. */
module MetadataLog {
  import opened Text
  import opened Metadata
  import opened Election

  type Commands = seq<Entry>

  function Cluster(log: Commands): Metadata.Cluster {
    Run(FRESH, log).cluster
  }

  // ---- Brokers ----

  /** Command m registers broker id. */
  predicate Registers(log: Commands, m: nat, id: int) {
    m < |log| && id >= 0 && log[m].0.RegisterBroker? && log[m].0.broker.Some? && log[m].0.broker.value.id == id
  }

  ghost predicate Known(log: Commands, k: nat, id: int) {
    exists m :: 0 <= m < k && Registers(log, m, id)
  }

  /** Command m is a heartbeat of broker id, and the broker is known by then. */
  ghost predicate Beats(log: Commands, m: nat, id: int) {
    m < |log| && log[m].0 == BrokerHeartbeat(Some(id)) && Known(log, m, id)
  }

  /** Command m fences or unfences broker id, and the broker is known by then. */
  ghost predicate SetsFence(log: Commands, m: nat, id: int) {
    m < |log| && log[m].0.SetBrokerFence? && log[m].0.fence.Some? && log[m].0.fence.value.id == id && Known(log, m, id)
  }

  /** Command m tells that broker id was alive. */
  ghost predicate Hears(log: Commands, m: nat, id: int) {
    Registers(log, m, id) || Beats(log, m, id)
  }

  /** ... at this time: the clock's, or the one that a registration brings along. */
  function HeardAt(log: Commands, m: nat): int
    requires m < |log|
  {
    if log[m].0.RegisterBroker? && log[m].0.broker.Some? && log[m].0.broker.value.lastHeartbeat.Some?
    then log[m].0.broker.value.lastHeartbeat.value
    else log[m].1
  }

  ghost predicate LastHeard(log: Commands, id: int, m: nat) {
    Hears(log, m, id) && forall k :: m < k < |log| ==> !Hears(log, k, id)
  }

  /** Command m decides whether broker id is fenced. */
  ghost predicate DecidesFence(log: Commands, m: nat, id: int) {
    Hears(log, m, id) || SetsFence(log, m, id)
  }

  function FenceAt(log: Commands, m: nat): bool
    requires m < |log|
  {
    match log[m].0
    case RegisterBroker(b) => b.Some? && b.value.fenced
    case SetBrokerFence(f) => f.Some? && f.value.fenced
    case _ => false
  }

  ghost predicate LastFence(log: Commands, id: int, m: nat) {
    DecidesFence(log, m, id) && forall k :: m < k < |log| ==> !DecidesFence(log, k, id)
  }

  // ---- Growing logs ----

  lemma KnownPrefix(front: Commands, all: Commands, k: nat, id: int)
    requires front <= all && k <= |front|
    ensures Known(all, k, id) <==> Known(front, k, id)
  {
    assert forall m :: 0 <= m < k ==> (Registers(all, m, id) <==> Registers(front, m, id));
  }

  lemma EventsPrefix(front: Commands, all: Commands, m: nat, id: int)
    requires front <= all && m < |front|
    ensures Hears(all, m, id) <==> Hears(front, m, id)
    ensures DecidesFence(all, m, id) <==> DecidesFence(front, m, id)
    ensures HeardAt(all, m) == HeardAt(front, m) && FenceAt(all, m) == FenceAt(front, m)
  {
    KnownPrefix(front, all, m, id);
  }

  lemma KnownStep(front: Commands, all: Commands, id: int)
    requires all != [] && front == all[..|all| - 1]
    ensures Known(all, |all|, id) <==> Known(front, |front|, id) || Registers(all, |front|, id)
  {
    var n := |front|;
    KnownPrefix(front, all, n, id);
    if Known(all, n + 1, id) {
      var m :| 0 <= m < n + 1 && Registers(all, m, id);
      assert m < n || m == n;
    }
  }

  lemma LastStep(front: Commands, all: Commands, id: int, m: nat)
    requires all != [] && front == all[..|all| - 1]
    ensures LastHeard(all, id, m) <==> if Hears(all, |front|, id) then m == |front| else LastHeard(front, id, m)
    ensures LastFence(all, id, m) <==>
            if DecidesFence(all, |front|, id) then m == |front| else LastFence(front, id, m)
  {
    forall k | 0 <= k < |front|
      ensures Hears(all, k, id) <==> Hears(front, k, id)
      ensures DecidesFence(all, k, id) <==> DecidesFence(front, k, id)
    {
      EventsPrefix(front, all, k, id);
    }
  }

  // ---- What the state says of a broker ----

  /** A broker is in the metadata if and only if it was registered. */
  lemma {:induction false} RegisteredRead(log: Commands, id: int)
    ensures id in Cluster(log).brokers <==> Known(log, |log|, id)
    ensures id in Cluster(log).brokers ==> Cluster(log).brokers[id].id == id
  {
    RunKeyed(FRESH, log);
    if log == [] {
    } else {
      var front := log[..|log| - 1];
      RegisteredRead(front, id);
      RunKeyed(FRESH, front);
      KnownStep(front, log, id);
    }
  }

  /** What one command does to one broker. */
  lemma BrokerStep(log: Commands, id: int)
    requires log != []
    ensures var front, n := log[..|log| - 1], |log| - 1;
            var c, d := Cluster(front), Cluster(log);
            && (Hears(log, n, id) ==> id in d.brokers && d.brokers[id].lastHeartbeat == Some(HeardAt(log, n)))
            && (DecidesFence(log, n, id) ==> id in d.brokers && d.brokers[id].fenced == FenceAt(log, n))
            && (!Hears(log, n, id) && id in d.brokers ==>
                  id in c.brokers && d.brokers[id].lastHeartbeat == c.brokers[id].lastHeartbeat)
            && (!DecidesFence(log, n, id) && id in d.brokers ==>
                  id in c.brokers && d.brokers[id].fenced == c.brokers[id].fenced)
  {
    var front := log[..|log| - 1];
    RegisteredRead(front, id);
    RunKeyed(FRESH, front);
    KnownPrefix(front, log, |front|, id);
  }

  /** A broker's last heartbeat is the time of the last command that tells it was alive. */
  lemma {:induction false} LastHeartbeatRead(log: Commands, id: int, t: int)
    requires id in Cluster(log).brokers
    ensures Cluster(log).brokers[id].lastHeartbeat.Some?
    ensures Cluster(log).brokers[id].lastHeartbeat == Some(t) <==>
            exists m: nat :: LastHeard(log, id, m) && HeardAt(log, m) == t
  {
    var front := log[..|log| - 1];
    BrokerStep(log, id);
    forall m: nat
      ensures LastHeard(log, id, m) <==> if Hears(log, |front|, id) then m == |front| else LastHeard(front, id, m)
      ensures m < |front| ==> HeardAt(log, m) == HeardAt(front, m)
    {
      LastStep(front, log, id, m);
      if m < |front| {
        EventsPrefix(front, log, m, id);
      }
    }
    if Hears(log, |front|, id) {
      assert LastHeard(log, id, |front|);
    } else {
      LastHeartbeatRead(front, id, t);
    }
  }

  /** A broker is fenced as the last command that decides it says. */
  lemma {:induction false} FenceRead(log: Commands, id: int)
    requires id in Cluster(log).brokers
    ensures exists m: nat :: LastFence(log, id, m) && Cluster(log).brokers[id].fenced == FenceAt(log, m)
  {
    var front := log[..|log| - 1];
    BrokerStep(log, id);
    if DecidesFence(log, |front|, id) {
      LastStep(front, log, id, |front|);
      assert LastFence(log, id, |front|);
    } else {
      FenceRead(front, id);
      var m: nat :| LastFence(front, id, m) && Cluster(front).brokers[id].fenced == FenceAt(front, m);
      LastStep(front, log, id, m);
      EventsPrefix(front, log, m, id);
      assert LastFence(log, id, m) && FenceAt(log, m) == FenceAt(front, m);
    }
  }

  // ---- Broker health ----

  /** The last command that tells of the broker is not older than the timeout. */
  ghost predicate HeardWithin(log: Commands, id: int, now: int, timeout: int) {
    exists m: nat :: LastHeard(log, id, m) && now - HeardAt(log, m) <= timeout
  }

  lemma HeardRead(log: Commands, now: int, timeout: int, id: int)
    requires id in Cluster(log).brokers
    ensures HeardSince(Cluster(log).brokers[id], now, timeout) <==> HeardWithin(log, id, now, timeout)
  {
    LastHeartbeatRead(log, id, 0);
    LastHeartbeatRead(log, id, Cluster(log).brokers[id].lastHeartbeat.value);
    if HeardWithin(log, id, now, timeout) {
      var m: nat :| LastHeard(log, id, m) && now - HeardAt(log, m) <= timeout;
      LastHeartbeatRead(log, id, HeardAt(log, m));
    }
  }

  /** A reconciliation leaves a broker unfenced if and only if the log tells of it within the timeout. */
  lemma ReconcileExact(log: Commands, now: int, timeout: int, id: int)
    requires id in Cluster(log).brokers
    ensures id in Reconciled(Cluster(log).brokers, now, timeout)
    ensures !Reconciled(Cluster(log).brokers, now, timeout)[id].fenced <==> HeardWithin(log, id, now, timeout)
  {
    HeardRead(log, now, timeout, id);
  }

  /** After a reconciliation and an election a partition is led by a broker that the log tells of within the
      timeout, or by nobody, and then the log tells of none of its replicas within it. */
  lemma LeaderHeard(log: Commands, now: int, timeout: int, p: PartitionMeta)
    ensures var leader := Elected(Reconciled(Cluster(log).brokers, now, timeout), p).leader;
            if leader == -1
            then forall i :: 0 <= i < |p.replicas| && p.replicas[i] in Cluster(log).brokers ==>
                !HeardWithin(log, p.replicas[i], now, timeout)
            else leader in Cluster(log).brokers && HeardWithin(log, leader, now, timeout)
  {
    var brokers := Reconciled(Cluster(log).brokers, now, timeout);
    RunKeyed(FRESH, log);
    ReconcileThenElect(Cluster(log), now, timeout, p);
    var leader := Elected(brokers, p).leader;
    forall id | id in Cluster(log).brokers
      ensures HeardSince(Cluster(log).brokers[id], now, timeout) <==> HeardWithin(log, id, now, timeout)
    {
      HeardRead(log, now, timeout, id);
    }
  }

  // ---- Topics ----

  /** Command m stores a topic under the name. */
  predicate Upserts(log: Commands, m: nat, name: string) {
    m < |log| && name != "" && log[m].0.UpsertTopic? && log[m].0.topic.Some? && log[m].0.topic.value.name == name
  }

  /** Command m is the last one before k to do so. */
  ghost predicate LastUpsert(log: Commands, k: nat, name: string, m: nat) {
    m < k && Upserts(log, m, name) && forall l :: m < l < k ==> !Upserts(log, l, name)
  }

  /** The partition as command m stores it. */
  predicate Brings(log: Commands, m: nat, id: int) {
    m < |log| && log[m].0.UpsertTopic? && log[m].0.topic.Some? && id in log[m].0.topic.value.partitions
  }

  /** By command k the topic is there with that partition. */
  ghost predicate Present(log: Commands, k: nat, name: string, id: int) {
    exists m: nat :: LastUpsert(log, k, name, m) && Brings(log, m, id)
  }

  /** Command m names a leader for the partition. */
  predicate Leads(log: Commands, m: nat, name: string, id: int) {
    && m < |log| && id >= 0 && log[m].0.SetPartitionLeader? && log[m].0.update.Some?
    && log[m].0.update.value.topic == name && log[m].0.update.value.partition == id
  }

  /** ... and an in-sync list with it. */
  predicate Lists(log: Commands, m: nat, name: string, id: int) {
    Leads(log, m, name, id) && |log[m].0.update.value.isr| > 0
  }

  /** Command l is the last one to name a leader after command m. */
  ghost predicate LastLead(log: Commands, name: string, id: int, m: nat, l: nat) {
    m < l && Leads(log, l, name, id) && NeverLed(log, name, id, l)
  }

  ghost predicate NeverLed(log: Commands, name: string, id: int, m: nat) {
    forall k :: m < k < |log| ==> !Leads(log, k, name, id)
  }

  ghost predicate LastList(log: Commands, name: string, id: int, m: nat, l: nat) {
    m < l && Lists(log, l, name, id) && NeverListed(log, name, id, l)
  }

  ghost predicate NeverListed(log: Commands, name: string, id: int, m: nat) {
    forall k :: m < k < |log| ==> !Lists(log, k, name, id)
  }

  lemma UpsertStep(front: Commands, all: Commands, name: string, m: nat)
    requires all != [] && front == all[..|all| - 1]
    ensures LastUpsert(all, |all|, name, m) <==>
            if Upserts(all, |front|, name) then m == |front| else LastUpsert(front, |front|, name, m)
  {
    assert forall k :: 0 <= k < |front| ==> (Upserts(all, k, name) <==> Upserts(front, k, name));
  }

  /** The stored topic is this one but for leaders and in-sync lists. */
  ghost predicate SameShape(c: Metadata.Cluster, name: string, t: Topic) {
    && name in c.topics && c.topics[name].name == t.name && c.topics[name].configs == t.configs
    && c.topics[name].partitions.Keys == t.partitions.Keys
    && forall id :: id in t.partitions ==>
         SamePlace(c.topics[name].partitions[id], t.partitions[id])
  }

  ghost predicate SamePlace(p: PartitionMeta, q: PartitionMeta) {
    p.id == q.id && p.replicas == q.replicas
  }

  /** What one command does to a topic. */
  lemma TopicStep(front: Commands, all: Commands, name: string, t: Topic)
    requires all != [] && front == all[..|all| - 1]
    ensures if Upserts(all, |front|, name) then SameShape(Cluster(all), name, all[|front|].0.topic.value)
            else && (name in Cluster(all).topics <==> name in Cluster(front).topics)
                 && (SameShape(Cluster(front), name, t) ==> SameShape(Cluster(all), name, t))
  {
    RunKeyed(FRESH, front);
  }

  /** A topic is in the metadata if and only if some command stored it; then its partitions, their ids
      and their replicas are those of the last such command. */
  lemma {:induction false} TopicRead(log: Commands, name: string)
    ensures name in Cluster(log).topics <==> exists m: nat :: LastUpsert(log, |log|, name, m)
    ensures forall m: nat :: LastUpsert(log, |log|, name, m) ==> SameShape(Cluster(log), name, log[m].0.topic.value)
  {
    if log == [] {
    } else {
      var front := log[..|log| - 1];
      TopicRead(front, name);
      forall m: nat
        ensures LastUpsert(log, |log|, name, m) <==>
                if Upserts(log, |front|, name) then m == |front| else LastUpsert(front, |front|, name, m)
        ensures LastUpsert(log, |log|, name, m) ==> SameShape(Cluster(log), name, log[m].0.topic.value)
      {
        UpsertStep(front, log, name, m);
        if LastUpsert(log, |log|, name, m) {
          TopicStep(front, log, name, log[m].0.topic.value);
        }
      }
      TopicKept(front, log, name);
    }
  }

  lemma TopicKept(front: Commands, all: Commands, name: string)
    requires all != [] && front == all[..|all| - 1]
    requires name in Cluster(front).topics <==> exists m: nat :: LastUpsert(front, |front|, name, m)
    ensures name in Cluster(all).topics <==> exists m: nat :: LastUpsert(all, |all|, name, m)
  {
    TopicStep(front, all, name, Topic(name, map[], map[]));
    if Upserts(all, |front|, name) {
      UpsertStep(front, all, name, |front|);
    } else {
      forall m: nat
        ensures LastUpsert(all, |all|, name, m) <==> LastUpsert(front, |front|, name, m)
      {
        UpsertStep(front, all, name, m);
      }
    }
  }

  // ---- Leaders and in-sync lists ----

  lemma LeadStep(front: Commands, all: Commands, name: string, id: int, m: nat, l: nat)
    requires all != [] && front == all[..|all| - 1] && m < |front|
    ensures NeverLed(all, name, id, m) <==> NeverLed(front, name, id, m) && !Leads(all, |front|, name, id)
    ensures NeverListed(all, name, id, m) <==> NeverListed(front, name, id, m) && !Lists(all, |front|, name, id)
    ensures LastLead(all, name, id, m, l) <==>
            if Leads(all, |front|, name, id) then l == |front| else LastLead(front, name, id, m, l)
    ensures LastList(all, name, id, m, l) <==>
            if Lists(all, |front|, name, id) then l == |front| else LastList(front, name, id, m, l)
  {
    assert forall k :: 0 <= k < |front| ==> (Leads(all, k, name, id) <==> Leads(front, k, name, id));
    assert forall k :: 0 <= k < |front| ==> (Lists(all, k, name, id) <==> Lists(front, k, name, id));
  }

  /** Since command m stored its topic with q, the partition p has the leader and the in-sync list that were
      last named for it, or q's. */
  ghost predicate LedAs(log: Commands, name: string, id: int, m: nat, q: PartitionMeta, p: PartitionMeta) {
    && (NeverLed(log, name, id, m) ==> p.leader == q.leader)
    && (NeverListed(log, name, id, m) ==> p.isr == q.isr)
    && (forall l: nat :: LastLead(log, name, id, m, l) ==> p.leader == log[l].0.update.value.leader)
    && (forall l: nat :: LastList(log, name, id, m, l) ==> p.isr == log[l].0.update.value.isr)
  }

  lemma LedStep(front: Commands, all: Commands, name: string, id: int, m: nat, q: PartitionMeta, p: PartitionMeta,
                r: PartitionMeta)
    requires all != [] && front == all[..|all| - 1] && m < |front| && LedAs(front, name, id, m, q, p)
    requires r.leader == if Leads(all, |front|, name, id) then all[|front|].0.update.value.leader else p.leader
    requires r.isr == if Lists(all, |front|, name, id) then all[|front|].0.update.value.isr else p.isr
    ensures LedAs(all, name, id, m, q, r)
  {
    LeadStep(front, all, name, id, m, m);
    forall l: nat | LastLead(all, name, id, m, l)
      ensures r.leader == all[l].0.update.value.leader
    {
      LeadStep(front, all, name, id, m, l);
    }
    forall l: nat | LastList(all, name, id, m, l)
      ensures r.isr == all[l].0.update.value.isr
    {
      LeadStep(front, all, name, id, m, l);
    }
  }

  ghost predicate Holds(c: Metadata.Cluster, name: string, id: int) {
    name in c.topics && id in c.topics[name].partitions
  }

  /** What one command does to a partition that is there and whose topic it does not store again. */
  lemma PartitionStep(front: Commands, all: Commands, name: string, id: int)
    requires all != [] && front == all[..|all| - 1] && Holds(Cluster(front), name, id)
    requires !Upserts(all, |front|, name)
    ensures Holds(Cluster(all), name, id)
    ensures var p, r := Cluster(front).topics[name].partitions[id], Cluster(all).topics[name].partitions[id];
            && r.leader == (if Leads(all, |front|, name, id) then all[|front|].0.update.value.leader else p.leader)
            && r.isr == (if Lists(all, |front|, name, id) then all[|front|].0.update.value.isr else p.isr)
  {
    RunKeyed(FRESH, front);
  }

  lemma StoredLed(log: Commands, name: string, id: int)
    requires log != [] && Upserts(log, |log| - 1, name) && Brings(log, |log| - 1, id)
    ensures Holds(Cluster(log), name, id)
    ensures var p := Cluster(log).topics[name].partitions[id];
            LedAs(log, name, id, |log| - 1, log[|log| - 1].0.topic.value.partitions[id], p)
  {
  }

  /** A partition has the leader and the in-sync list that were last named for it since its topic was last
      stored, or those it was stored with. */
  lemma {:induction false} LeaderRead(log: Commands, name: string, id: int, m: nat)
    requires LastUpsert(log, |log|, name, m) && Brings(log, m, id)
    ensures Holds(Cluster(log), name, id)
    ensures var p := Cluster(log).topics[name].partitions[id];
            LedAs(log, name, id, m, log[m].0.topic.value.partitions[id], p)
  {
    var front := log[..|log| - 1];
    UpsertStep(front, log, name, m);
    if m == |front| {
      StoredLed(log, name, id);
    } else {
      var q := log[m].0.topic.value.partitions[id];
      LeaderRead(front, name, id, m);
      PartitionStep(front, log, name, id);
      LedStep(front, log, name, id, m, q, Cluster(front).topics[name].partitions[id],
              Cluster(log).topics[name].partitions[id]);
    }
  }

  // ---- Which commands are accepted ----

  ghost predicate Acceptable(log: Commands, m: nat)
    requires m < |log|
  {
    match log[m].0
    case UpsertTopic(t) => t.Some? && t.value.name != ""
    case RegisterBroker(b) => b.Some? && b.value.id >= 0
    case BrokerHeartbeat(id) => id.Some? && Known(log, m, id.value)
    case SetPartitionLeader(u) => u.Some? && u.value.partition >= 0 && Present(log, m, u.value.topic, u.value.partition)
    case SetBrokerFence(f) => f.Some? && Known(log, m, f.value.id)
    case OtherType(_) => false
  }

  lemma PresentPrefix(front: Commands, all: Commands, name: string, id: int)
    requires front <= all
    ensures Present(all, |front|, name, id) <==> Present(front, |front|, name, id)
  {
    assert forall m :: 0 <= m < |front| ==> (Upserts(all, m, name) <==> Upserts(front, m, name));
    assert forall m :: 0 <= m < |front| ==> (Brings(all, m, id) <==> Brings(front, m, id));
    assert forall m: nat :: LastUpsert(all, |front|, name, m) <==> LastUpsert(front, |front|, name, m);
  }

  lemma PresentRead(log: Commands, name: string, id: int)
    ensures Present(log, |log|, name, id) <==> Holds(Cluster(log), name, id)
  {
    TopicRead(log, name);
    if name in Cluster(log).topics {
      var m: nat :| LastUpsert(log, |log|, name, m);
      assert Brings(log, m, id) <==> id in log[m].0.topic.value.partitions;
    }
  }

  /** A command is accepted if and only if it is well formed and what it speaks of is there: the log before
      it registered the broker, or last stored the topic with the partition. Refused ones change nothing. */
  lemma AcceptedIff(log: Commands, m: nat)
    requires m < |log|
    ensures Accepts(Run(FRESH, log[..m]), log[m].0, log[m].1) <==> Acceptable(log, m)
    ensures !Acceptable(log, m) ==> Run(FRESH, log[..m + 1]) == Run(FRESH, log[..m])
    ensures Acceptable(log, m) ==> Run(FRESH, log[..m + 1]).index == Run(FRESH, log[..m]).index + 1
  {
    var front := log[..m];
    assert log[..m + 1][..m] == front && log[..m + 1][m] == log[m];
    RunKeyed(FRESH, front);
    match log[m].0 {
      case BrokerHeartbeat(id) =>
        if id.Some? {
          KnownPrefix(front, log, m, id.value);
          RegisteredRead(front, id.value);
        }
      case SetBrokerFence(f) =>
        if f.Some? {
          KnownPrefix(front, log, m, f.value.id);
          RegisteredRead(front, f.value.id);
        }
      case SetPartitionLeader(u) =>
        if u.Some? {
          PresentPrefix(front, log, u.value.topic, u.value.partition);
          PresentRead(front, u.value.topic, u.value.partition);
        }
      case _ =>
    }
  }
}
