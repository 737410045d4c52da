/** Leader election, fencing and failover as functions of the metadata, and what they guarantee. */
module Election {
  import opened Metadata

  // ---- One partition ----

  /** isBrokerEligible. */
  predicate Eligible(brokers: map<int, Broker>, id: int) {
    id in brokers && !brokers[id].fenced
  }

  ghost predicate NoneEligible(brokers: map<int, Broker>, replicas: seq<int>) {
    forall i :: 0 <= i < |replicas| ==> !Eligible(brokers, replicas[i])
  }

  /** selectEligibleReplicas. */
  function EligibleReplicas(brokers: map<int, Broker>, replicas: seq<int>): seq<int> {
    if replicas == [] then []
    else
      var n := |replicas| - 1;
      EligibleReplicas(brokers, replicas[..n]) + if Eligible(brokers, replicas[n]) then [replicas[n]] else []
  }

  /** electFromReplicas. */
  function FirstEligible(brokers: map<int, Broker>, replicas: seq<int>): int {
    if replicas == [] then -1
    else if Eligible(brokers, replicas[0]) then replicas[0]
    else FirstEligible(brokers, replicas[1..])
  }

  /** The partition after an election over the given brokers. */
  function Elected(brokers: map<int, Broker>, p: PartitionMeta): PartitionMeta {
    if Eligible(brokers, p.leader) then p
    else
      var leader := FirstEligible(brokers, p.replicas);
      if leader == p.leader then p else Led(p, leader, EligibleReplicas(brokers, p.replicas))
  }

  predicate Moves(brokers: map<int, Broker>, p: PartitionMeta) {
    Elected(brokers, p).leader != p.leader
  }

  lemma {:induction false} EligibleListed(brokers: map<int, Broker>, replicas: seq<int>)
    ensures forall id :: id in EligibleReplicas(brokers, replicas) <==> id in replicas && Eligible(brokers, id)
    ensures NoneEligible(brokers, replicas) <==> EligibleReplicas(brokers, replicas) == []
  {
    if replicas == [] {
    } else {
      var n := |replicas| - 1;
      EligibleListed(brokers, replicas[..n]);
      assert replicas == replicas[..n] + [replicas[n]];
      if NoneEligible(brokers, replicas[..n]) && !Eligible(brokers, replicas[n]) {
        assert forall i :: 0 <= i < n ==> replicas[i] == replicas[..n][i];
      }
    }
  }

  lemma {:induction false} EligibleConcat(brokers: map<int, Broker>, a: seq<int>, b: seq<int>)
    ensures EligibleReplicas(brokers, a + b) == EligibleReplicas(brokers, a) + EligibleReplicas(brokers, b)
  {
    if b == [] {
      assert a + b == a;
    } else {
      var n := |b| - 1;
      EligibleConcat(brokers, a, b[..n]);
      assert (a + b)[..|a + b| - 1] == a + b[..n] && (a + b)[|a + b| - 1] == b[n];
    }
  }

  /** electFromReplicas and selectEligibleReplicas agree: the elected leader is the head of the new
      ISR, and -1 is elected exactly when no replica is eligible. */
  lemma {:induction false} FirstIsHead(brokers: map<int, Broker>, replicas: seq<int>)
    ensures FirstEligible(brokers, replicas) ==
            (if EligibleReplicas(brokers, replicas) == [] then -1 else EligibleReplicas(brokers, replicas)[0])
  {
    if replicas == [] {
    } else {
      FirstIsHead(brokers, replicas[1..]);
      assert replicas == replicas[..1] + replicas[1..];
      EligibleConcat(brokers, replicas[..1], replicas[1..]);
      assert EligibleReplicas(brokers, replicas[..1]) == if Eligible(brokers, replicas[0]) then [replicas[0]] else [];
    }
  }

  /** Broker ids are not negative, as every registration checks. */
  ghost predicate Registered(brokers: map<int, Broker>) {
    forall id :: id in brokers ==> id >= 0
  }

  /** After an election a partition is led by a registered, unfenced broker, or by -1 with no
      eligible replica; a new leader heads the new ISR, which lists exactly the eligible replicas;
      eligible leaders are left alone; and a second election changes nothing. */
  lemma ElectedMeaning(brokers: map<int, Broker>, p: PartitionMeta)
    requires Registered(brokers)
    ensures var q := Elected(brokers, p);
            && (Eligible(brokers, q.leader) || (q.leader == -1 && NoneEligible(brokers, p.replicas)))
            && (Eligible(brokers, p.leader) ==> q == p)
            && (Moves(brokers, p) && q.leader != -1 ==>
                  && |q.isr| > 0 && q.isr[0] == q.leader
                  && forall id :: id in q.isr <==> id in p.replicas && Eligible(brokers, id))
            && (q.leader == -1 ==> q.isr == p.isr)
            && (!Moves(brokers, p) ==> q == p)
            && q == p.(leader := q.leader, isr := q.isr)
            && Elected(brokers, q) == q
  {
    EligibleListed(brokers, p.replicas);
    FirstIsHead(brokers, p.replicas);
  }

  /** How many of the first k replicas are registered and not fenced. */
  ghost function Standing(brokers: map<int, Broker>, replicas: seq<int>, k: nat): nat
    requires k <= |replicas|
  {
    if k == 0 then 0
    else
      var id := replicas[k - 1];
      Standing(brokers, replicas, k - 1) + if id in brokers && !brokers[id].fenced then 1 else 0
  }

  /** Replica i is the first that is registered and not fenced. */
  ghost predicate FirstStanding(brokers: map<int, Broker>, replicas: seq<int>, i: nat) {
    && i < |replicas| && replicas[i] in brokers && !brokers[replicas[i]].fenced
    && forall j :: 0 <= j < i && replicas[j] in brokers ==> brokers[replicas[j]].fenced
  }

  /** The list has the registered, unfenced replicas and no others, in their order. */
  ghost predicate ListsStanding(brokers: map<int, Broker>, replicas: seq<int>, isr: seq<int>) {
    && |isr| == Standing(brokers, replicas, |replicas|)
    && forall i :: 0 <= i < |replicas| && replicas[i] in brokers && !brokers[replicas[i]].fenced ==>
         Standing(brokers, replicas, i) < |isr| && isr[Standing(brokers, replicas, i)] == replicas[i]
  }

  lemma {:induction false} StandingFront(brokers: map<int, Broker>, replicas: seq<int>, n: nat, k: nat)
    requires k <= n <= |replicas|
    ensures Standing(brokers, replicas[..n], k) == Standing(brokers, replicas, k)
  {
    if k == 0 {
    } else {
      StandingFront(brokers, replicas, n, k - 1);
    }
  }

  lemma {:induction false} EligibleAt(brokers: map<int, Broker>, replicas: seq<int>, i: nat)
    ensures |EligibleReplicas(brokers, replicas)| == Standing(brokers, replicas, |replicas|)
    ensures i < |replicas| && replicas[i] in brokers && !brokers[replicas[i]].fenced ==>
              && Standing(brokers, replicas, i) < |EligibleReplicas(brokers, replicas)|
              && EligibleReplicas(brokers, replicas)[Standing(brokers, replicas, i)] == replicas[i]
  {
    if replicas == [] {
    } else {
      var n := |replicas| - 1;
      EligibleAt(brokers, replicas[..n], i);
      StandingFront(brokers, replicas, n, n);
      if i < n {
        StandingFront(brokers, replicas, n, i);
      }
    }
  }

  lemma EligibleExact(brokers: map<int, Broker>, replicas: seq<int>)
    ensures ListsStanding(brokers, replicas, EligibleReplicas(brokers, replicas))
  {
    EligibleAt(brokers, replicas, 0);
    forall i: nat | i < |replicas| && replicas[i] in brokers && !brokers[replicas[i]].fenced
      ensures Standing(brokers, replicas, i) < |EligibleReplicas(brokers, replicas)|
      ensures EligibleReplicas(brokers, replicas)[Standing(brokers, replicas, i)] == replicas[i]
    {
      EligibleAt(brokers, replicas, i);
    }
  }

  lemma {:induction false} FirstExact(brokers: map<int, Broker>, replicas: seq<int>, i: nat)
    requires FirstStanding(brokers, replicas, i)
    ensures FirstEligible(brokers, replicas) == replicas[i]
  {
    if i == 0 {
    } else {
      assert forall j :: 0 <= j < i - 1 ==> replicas[1..][j] == replicas[j + 1];
      FirstExact(brokers, replicas[1..], i - 1);
    }
  }

  lemma {:induction false} NobodyStands(brokers: map<int, Broker>, replicas: seq<int>, k: nat)
    requires k <= |replicas|
    ensures Standing(brokers, replicas, k) == 0 <==>
            forall j :: 0 <= j < k && replicas[j] in brokers ==> brokers[replicas[j]].fenced
  {
    if k == 0 {
    } else {
      NobodyStands(brokers, replicas, k - 1);
    }
  }

  lemma {:induction false} SomeoneStands(brokers: map<int, Broker>, replicas: seq<int>, k: nat)
    requires k <= |replicas| && Standing(brokers, replicas, k) > 0
    ensures exists i: nat :: FirstStanding(brokers, replicas, i)
  {
    if Standing(brokers, replicas, k - 1) > 0 {
      SomeoneStands(brokers, replicas, k - 1);
    } else {
      NobodyStands(brokers, replicas, k - 1);
      assert FirstStanding(brokers, replicas, k - 1);
    }
  }

  /** A leader that is registered and not fenced stays, with its in-sync list. Any other is replaced by the
      first replica that is, the list then naming all such replicas in their order; where there is none,
      nobody leads and the list stays. */
  lemma ElectedExact(brokers: map<int, Broker>, p: PartitionMeta)
    requires Registered(brokers)
    ensures var q := Elected(brokers, p);
            && q.id == p.id && q.replicas == p.replicas
            && (p.leader in brokers && !brokers[p.leader].fenced ==> q.leader == p.leader && q.isr == p.isr)
            && (!(p.leader in brokers && !brokers[p.leader].fenced) ==>
                  && (forall i: nat :: FirstStanding(brokers, p.replicas, i) ==>
                        q.leader == p.replicas[i] && ListsStanding(brokers, p.replicas, q.isr))
                  && (Standing(brokers, p.replicas, |p.replicas|) == 0 ==> q.leader == -1 && q.isr == p.isr))
    ensures Standing(brokers, p.replicas, |p.replicas|) == 0 || exists i: nat :: FirstStanding(brokers, p.replicas, i)
  {
    EligibleExact(brokers, p.replicas);
    FirstIsHead(brokers, p.replicas);
    forall i: nat | FirstStanding(brokers, p.replicas, i)
      ensures FirstEligible(brokers, p.replicas) == p.replicas[i]
    {
      FirstExact(brokers, p.replicas, i);
    }
    if Standing(brokers, p.replicas, |p.replicas|) > 0 {
      SomeoneStands(brokers, p.replicas, |p.replicas|);
    }
  }

  // ---- One topic ----

  function ElectedPartitions(brokers: map<int, Broker>, ps: map<int, PartitionMeta>): map<int, PartitionMeta> {
    map id | id in ps :: Elected(brokers, ps[id])
  }

  function Moving(brokers: map<int, Broker>, ps: map<int, PartitionMeta>): set<int> {
    set id | id in ps && Moves(brokers, ps[id])
  }

  /** SetPartitionLeader refuses a negative partition id. The controller makes no topic with one; on
      other metadata ids are visited in ascending order, so the refusal comes before any change. */
  ghost predicate Blocked(brokers: map<int, Broker>, ps: map<int, PartitionMeta>) {
    exists id :: id in Moving(brokers, ps) && id < 0
  }

  /** The topic after ElectTopicLeaders. */
  ghost function ElectedTopic(brokers: map<int, Broker>, t: Topic): Topic {
    if Blocked(brokers, t.partitions) then t else t.(partitions := ElectedPartitions(brokers, t.partitions))
  }

  lemma ElectedTopicIdempotent(brokers: map<int, Broker>, t: Topic)
    requires Registered(brokers)
    ensures ElectedTopic(brokers, ElectedTopic(brokers, t)) == ElectedTopic(brokers, t)
    ensures !Blocked(brokers, t.partitions) ==> Moving(brokers, ElectedTopic(brokers, t).partitions) == {}
  {
    if !Blocked(brokers, t.partitions) {
      var once := ElectedPartitions(brokers, t.partitions);
      forall id | id in t.partitions
        ensures Elected(brokers, once[id]) == once[id]
      {
        ElectedMeaning(brokers, t.partitions[id]);
      }
      assert ElectedPartitions(brokers, once) == once;
      assert forall id :: id in once ==> !Moves(brokers, once[id]);
    }
  }

  lemma DenseNotBlocked(brokers: map<int, Broker>, t: Topic)
    requires Dense(t)
    ensures !Blocked(brokers, t.partitions)
  {
  }

  // ---- Health ----

  predicate Stale(b: Broker, now: int, timeout: int) {
    b.lastHeartbeat.None? || now - b.lastHeartbeat.value > timeout
  }

  /** The brokers after ReconcileBrokerHealth: fenced exactly when stale. */
  function Reconciled(brokers: map<int, Broker>, now: int, timeout: int): map<int, Broker> {
    map id | id in brokers :: brokers[id].(fenced := Stale(brokers[id], now, timeout))
  }

  function Misfenced(brokers: map<int, Broker>, now: int, timeout: int): set<int> {
    set id | id in brokers && brokers[id].fenced != Stale(brokers[id], now, timeout)
  }

  /** The broker was heard from within the timeout. */
  predicate HeardSince(b: Broker, now: int, timeout: int) {
    b.lastHeartbeat.Some? && now - b.lastHeartbeat.value <= timeout
  }

  /** After a reconciliation and an election, every leader is a broker that was heard from within
      the timeout, or -1 with no such replica. */
  lemma ReconcileThenElect(c: Cluster, now: int, timeout: int, p: PartitionMeta)
    requires Keyed(c)
    ensures var leader := Elected(Reconciled(c.brokers, now, timeout), p).leader;
            if leader == -1
            then forall i :: 0 <= i < |p.replicas| && p.replicas[i] in c.brokers ==>
                !HeardSince(c.brokers[p.replicas[i]], now, timeout)
            else leader in c.brokers && HeardSince(c.brokers[leader], now, timeout)
  {
    var brokers := Reconciled(c.brokers, now, timeout);
    assert Registered(brokers);
    ElectedMeaning(brokers, p);
    if Elected(brokers, p).leader == -1 {
      assert !Eligible(brokers, -1);
      forall i | 0 <= i < |p.replicas| && p.replicas[i] in c.brokers
        ensures !HeardSince(c.brokers[p.replicas[i]], now, timeout)
      {
        assert !Eligible(brokers, p.replicas[i]);
      }
    }
  }

  // ---- Failover ----

  function Fence(brokers: map<int, Broker>, id: int): map<int, Broker> {
    if id in brokers then brokers[id := brokers[id].(fenced := true)] else brokers
  }

  /** The cluster after tryFailoverForWorker. */
  ghost function FailedOver(c: Cluster, leader: int): Cluster {
    var brokers := Fence(c.brokers, leader);
    Cluster(map name | name in c.topics :: ElectedTopic(brokers, c.topics[name]), brokers)
  }

  /** When nothing comes between its steps, a failover on topics made through the controller leaves
      no partition of any topic with the suspected broker, and does not touch the partitions of
      eligible leaders. What can happen when something does come between is in FailoverRuns. */
  lemma FailoverClears(log: seq<Entry>, leader: int, name: string, id: int)
    requires forall i :: 0 <= i < |log| ==> FromController(log[i].0)
    requires var c := Run(FRESH, log).cluster; name in c.topics && id in c.topics[name].partitions
    ensures var c := Run(FRESH, log).cluster;
            var p, q := c.topics[name].partitions[id], FailedOver(c, leader).topics[name].partitions[id];
            && (leader != -1 ==> q.leader != leader)
            && (Eligible(c.brokers, p.leader) && p.leader != leader ==> q == p)
            && (q.leader == -1 <==>
                !Eligible(Fence(c.brokers, leader), p.leader) && NoneEligible(Fence(c.brokers, leader), p.replicas))
            && Dense(FailedOver(c, leader).topics[name])
  {
    var c := Run(FRESH, log).cluster;
    var t, brokers := c.topics[name], Fence(c.brokers, leader);
    RunKeyed(FRESH, log);
    RunDense(log);
    DenseNotBlocked(brokers, t);
    assert Registered(brokers);
    ElectedMeaning(brokers, t.partitions[id]);
    Leaderless(brokers, t.partitions[id]);
    ElectedDense(brokers, t);
  }

  lemma Leaderless(brokers: map<int, Broker>, p: PartitionMeta)
    requires Registered(brokers)
    ensures Elected(brokers, p).leader == -1 <==> !Eligible(brokers, p.leader) && NoneEligible(brokers, p.replicas)
  {
    assert !Eligible(brokers, -1);
    ElectedMeaning(brokers, p);
    EligibleListed(brokers, p.replicas);
    FirstIsHead(brokers, p.replicas);
  }

  lemma ElectedDense(brokers: map<int, Broker>, t: Topic)
    requires Registered(brokers) && Dense(t)
    ensures Dense(ElectedTopic(brokers, t))
  {
    DenseNotBlocked(brokers, t);
    var ps := ElectedPartitions(brokers, t.partitions);
    assert ps.Keys == t.partitions.Keys;
    assert |ps| == |ps.Keys| == |t.partitions.Keys| == |t.partitions|;
    forall id | id in ps
      ensures ps[id].id == id && ps[id].leader >= -1
    {
      ElectedMeaning(brokers, t.partitions[id]);
    }
  }
}
