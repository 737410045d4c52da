/** Behaviours in which the guarantees of ReplicationTheorems and FetchCycles fail, one for each condition
    they carry: a value that forges a record, a record too long to be loaded again, a retention pass,
    and a leader whose manager does not know its log. */
module ReplicationWitnesses {
  import opened Text
  import opened LogLine
  import opened FetchCodec
  import opened ReplicationState
  import opened StorageContract
  import opened ReplicationProtocol
  import opened ReplicationTheorems
  import opened FetchCycles
  import PartitionHistory
  import SegmentedLog

  // ---- Building behaviours ----

  /** One follower, with the same kind of storage engine as the leader. */
  function Opening(setup: Setup, e: Engine, now: int): System {
    System(NewNode(e), 0, {}, {}, Initial(setup.cfg), map[1 := Follower(NewNode(e), Idle(0))], {}, {}, {}, now)
  }

  /** A setup with followers of which one has to ack. The others stay silent. */
  ghost predicate Pair(setup: Setup) {
    && Clamped(setup.cfg) && SafeTopic(setup.topic)
    && setup.cfg.replicationFactor >= 2 && setup.cfg.minInSyncReplicas <= 2
  }

  lemma StartBehavior(setup: Setup, e: Engine, now: int)
    requires Pair(setup) && Reliable(e)
    ensures Behavior(setup, [Opening(setup, e, now)], [])
    ensures Leading(setup, Opening(setup, e, now), -1) && Unseen(Initial(setup.cfg))
  {
    InitialLawful(setup.cfg);
  }

  lemma Join(setup: Setup, a: seq<System>, xs: seq<Step>, b: seq<System>, ys: seq<Step>)
    requires Behavior(setup, a, xs) && Path(setup, b, ys) && Last(a) == b[0]
    ensures Behavior(setup, a + b[1..], xs + ys) && Last(a + b[1..]) == Last(b)
  {
    PathJoin(setup, a, xs, b, ys);
  }

  /** What a block of steps leaves alone. */
  predicate Quiet(s: System, t: System) {
    t.acks == s.acks && t.now == s.now
  }

  ghost predicate Leading(setup: Setup, s: System, o: int) {
    Lawful(setup.cfg, s.manager) && s.manager.role == LEADER && s.manager.leaderOffset == o
  }

  /** No follower has acked yet. */
  ghost predicate Unseen(p: Partition) {
    forall id :: id in p.followers ==> p.followers[id].lastSeen.None?
  }

  /** A value is appended and reported. */
  lemma ProduceBlock(setup: Setup, s: System, value: string) returns (states: seq<System>, steps: seq<Step>)
    requires Pair(setup) && NoSpace(value) && Leading(setup, s, s.leader.log.nextOffset - 1)
    ensures Path(setup, states, steps) && states[0] == s && Quiet(s, Last(states))
    ensures Last(states).leader == Operate(s.leader, SegmentedLog.ProduceOp(value, s.now))
    ensures Leading(setup, Last(states), s.leader.log.nextOffset) && Last(states).followers == s.followers
    ensures Unseen(s.manager) ==>
              Unseen(Last(states).manager) && Last(states).manager.highWatermark == s.leader.log.nextOffset
  {
    var o := s.leader.log.nextOffset;
    var t := Next(setup, s, Append(value));
    var u := Next(setup, t, Report(o));
    ApplyLawful(setup.cfg, s.manager, OnLeaderAppend(o), s.now);
    states, steps := [s, t, u], [Append(value), Report(o)];
    assert Leads(setup, s, Append(value), t) && Leads(setup, t, Report(o), u);
  }

  /** A new follower asks for the leader's first records. */
  lemma RequestBlock(setup: Setup, s: System, max: nat) returns (states: seq<System>, steps: seq<Step>)
    requires Pair(setup) && 1 in s.followers && s.followers[1].worker == Idle(0) && max > 0
    requires s.manager.leaderOffset >= 0 && Leading(setup, s, s.manager.leaderOffset)
    ensures Path(setup, states, steps) && states[0] == s && Quiet(s, Last(states)) && Last(states).leader == s.leader
    ensures Leading(setup, Last(states), s.manager.leaderOffset) && Request(1, 0, max) in Last(states).requests
    ensures Unseen(s.manager) ==> Unseen(Last(states).manager)
    ensures 1 in Last(states).followers && Last(states).followers[1] == s.followers[1].(worker := Fetching(0))
  {
    var t := Next(setup, s, StartFetch(1));
    ApplyLawful(setup.cfg, t.manager, Observe, t.now);
    var u := Next(setup, t, Admit(1, max));
    states, steps := [s, t, u], [StartFetch(1), Admit(1, max)];
    assert Leads(setup, s, steps[0], t);
    assert Leads(setup, t, steps[1], u);
  }

  /** The leader serves the request and the follower receives the reply. */
  lemma ReplyBlock(setup: Setup, s: System, max: nat, records: seq<Message>, arrived: seq<Message>)
    returns (states: seq<System>, steps: seq<Step>)
    requires 1 in s.followers && s.followers[1].worker == Fetching(0) && Request(1, 0, max) in s.requests
    requires s.leader.log.cache != [] && Take(s.leader.log.cache, max) == records
    requires Transfer(0, setup.topic, setup.partition, 1, 0, records) == Some((0, arrived)) && arrived != []
    ensures Path(setup, states, steps) && states[0] == s
    ensures var t := Last(states);
            && t == s.(followers := t.followers, replies := t.replies) && 1 in t.followers
            && t.followers[1] == s.followers[1].(worker := Applying(0, arrived, -1))
  {
    var request, reply := Request(1, 0, max), Reply(1, arrived);
    var t := s.(replies := s.replies + {reply});
    ServesFrom0(setup, s, request, records, arrived);
    ServeLeads(setup, s, request, 0, 0, t);
    var u := Next(setup, t, Receive(1, reply));
    states, steps := [s, t, u], [Serve(request, 0, 0), Receive(1, reply)];
    assert Leads(setup, t, steps[1], u);
  }

  lemma ServeLeads(setup: Setup, s: System, request: Request, sequence: nat, hw: int, t: System)
    requires request in s.requests && t == Served(setup, s, request, sequence, hw)
    ensures Leads(setup, s, Serve(request, sequence, hw), t)
  {
  }

  lemma ServesFrom0(setup: Setup, s: System, request: Request, records: seq<Message>, arrived: seq<Message>)
    requires request.offset == 0 && s.leader.log.cache != [] && Take(s.leader.log.cache, request.max) == records
    requires Transfer(0, setup.topic, setup.partition, request.id, 0, records) == Some((0, arrived))
    ensures Served(setup, s, request, 0, 0) == s.(replies := s.replies + {Reply(request.id, arrived)})
  {
    assert s.leader.log.cache[0..] == s.leader.log.cache;
  }

  /** Every follower has its record, and none but the first was ever heard of. */
  ghost predicate OnlyFirst(cfg: Config, p: Partition) {
    && (forall id :: id in p.followers <==> 1 <= id < cfg.replicationFactor)
    && forall id :: id in p.followers && id != 1 ==> p.followers[id].lastSeen == None
  }

  lemma FirstFollowerAcks(cfg: Config, p: Partition, o: nat, now: int)
    requires Clamped(cfg) && cfg.replicationFactor >= 2 && Lawful(cfg, p) && p.role == LEADER && p.leaderOffset == o
    requires Unseen(p)
    ensures var q := Apply(cfg, p, AckReplica(1, o), now);
            && Lawful(cfg, q) && q.leaderOffset == o && Counted(cfg, q, now) == {1}
            && q.followers[1].offset == o && OnlyFirst(cfg, q)
  {
    ApplyLawful(cfg, p, AckReplica(1, o), now);
    var q := Apply(cfg, p, AckReplica(1, o), now);
    forall id
      ensures id in Counted(cfg, q, now) <==> id == 1
    {
    }
  }

  lemma FirstFollowerCommits(cfg: Config, p: Partition, o: nat, now: int)
    requires Clamped(cfg) && cfg.replicationFactor >= 2 && cfg.minInSyncReplicas <= 2
    requires Lawful(cfg, p) && p.role == LEADER && p.leaderOffset == o && Unseen(p)
    ensures var q := Apply(cfg, Apply(cfg, p, AckReplica(1, o), now), Observe, now);
            && Committed(cfg, q, now, o) && OnlyFirst(cfg, q)
  {
    var acked := Apply(cfg, p, AckReplica(1, o), now);
    FirstFollowerAcks(cfg, p, o, now);
    PollSucceedsIff(cfg, acked, now, o);
  }

  /** The follower acks its last record and the leader's next poll commits it. */
  lemma AckBlock(setup: Setup, s: System, o: nat) returns (states: seq<System>, steps: seq<Step>)
    requires Pair(setup) && 1 in s.followers && s.followers[1].worker == Applying(o + 1, [], o) && Leading(setup, s, o)
    requires Unseen(s.manager)
    ensures Path(setup, states, steps) && states[0] == s && |steps| == 3 && steps[2] == Poll
    ensures Last(states).leader == s.leader && 1 in Last(states).followers
    ensures Last(states).followers[1].store == s.followers[1].store
    ensures Committed(setup.cfg, Last(states).manager, Last(states).now, o)
    ensures OnlyFirst(setup.cfg, Last(states).manager)
  {
    var t := Next(setup, s, SendAck(1));
    var u := Next(setup, t, DeliverAck(Ack(1, o)));
    var v := Next(setup, u, Poll);
    FirstFollowerCommits(setup.cfg, s.manager, o, s.now);
    states, steps := [s, t, u, v], [SendAck(1), DeliverAck(Ack(1, o)), Poll];
    assert Leads(setup, s, steps[0], t) && Leads(setup, t, steps[1], u) && Leads(setup, u, steps[2], v);
  }

  // ---- Engines ----

  /** An engine that drops nothing: an accepted record is added to the cache. */
  ghost predicate Plain(e: Engine) {
    forall log, op :: Accepted(log, op) ==>
      && e.step(log, op).cache == log.cache + [Message(log.nextOffset, op.value)]
      && e.step(log, op).nextOffset == log.nextOffset + 1
  }

  predicate Accepted(log: SegmentedLog.Log, op: SegmentedLog.Op) {
    op.ProduceOp? || (op.ReplicateOp? && op.offset == log.nextOffset)
  }

  lemma SegmentedPlain(limits: SegmentedLog.Limits)
    requires SegmentedLog.NoRetention(limits)
    ensures Plain(Segmented(limits)) && Reliable(Segmented(limits))
  {
    SegmentedReliable(limits);
    var e := Segmented(limits);
    forall log, op | Accepted(log, op)
      ensures && e.step(log, op).cache == log.cache + [Message(log.nextOffset, op.value)]
              && e.step(log, op).nextOffset == log.nextOffset + 1
    {
      SegmentedLog.UnlimitedStep(limits, log, op);
    }
  }

  // ---- A forged record ----

  /** A value with a comma followed by what looks like another record arrives as two records. */
  lemma ForgedArrival(o: int, x: string, p: int, y: string)
    requires ',' !in x && ',' !in y
    ensures Arrival([Message(o, x + "," + (Itoa(p) + ":" + y))]) == Some([Message(o, x), Message(p, y)])
  {
    var m := Message(o, x + "," + (Itoa(p) + ":" + y));
    var front, back := Itoa(o) + ":" + x, Itoa(p) + ":" + y;
    ItoaLacks(o, ',');
    ItoaLacks(p, ',');
    assert Item(m) == front + "," + back;
    SplitHead(front, ',', back);
    SplitAtom(back, ',');
    TwoPieces(m, front, back, Message(o, x), Message(p, y));
    ArrivalOfOne(m);
  }

  lemma TwoPieces(m: Message, front: string, back: string, a: Message, b: Message)
    requires Pieces(Item(m)) == [front, back] && front == Itoa(a.offset) + ":" + a.value
    requires back == Itoa(b.offset) + ":" + b.value
    ensures Cut(m) == Some([a, b])
  {
    DecodePrinted(a.offset, a.value);
    DecodePrinted(b.offset, b.value);
    DecodeOne(back, b);
    var items := [front, back];
    assert items[0] == front && items[1..] == [back];
    assert DecodeItems(items) == Prepend([a], DecodeItems([back]));
    assert [a] + [b] == [a, b];
  }

  lemma ArrivalOfOne(m: Message)
    ensures Arrival([m]) == Cut(m)
  {
    assert [m][1..] == [];
    ArrivalStep([m]);
    if Cut(m).Some? {
      PrependTwice(Cut(m).value, [], Some([]));
    }
  }

  /** Two produces, each reported, from the start. */
  lemma TwoProduced(setup: Setup, e: Engine, v: string, w: string, now: int)
    returns (states: seq<System>, steps: seq<Step>)
    requires Pair(setup) && Reliable(e) && NoSpace(v) && NoSpace(w)
    requires e.step(SegmentedLog.Fresh(map[]), SegmentedLog.ProduceOp(v, now)).nextOffset == 1
    ensures Behavior(setup, states, steps)
    ensures var s := Last(states);
            && s.leader == Operate(Operate(NewNode(e), SegmentedLog.ProduceOp(v, now)), SegmentedLog.ProduceOp(w, now))
            && Leading(setup, s, 1) && Unseen(s.manager) && s.manager.highWatermark == 1 && s.now == now
            && 1 in s.followers && s.followers[1] == Follower(NewNode(e), Idle(0))
  {
    StartBehavior(setup, e, now);
    states, steps := [Opening(setup, e, now)], [];
    var b, ys := ProduceBlock(setup, Last(states), v);
    Join(setup, states, steps, b, ys);
    states, steps := states + b[1..], steps + ys;
    assert Last(states).leader.log.nextOffset == 1;
    b, ys := ProduceBlock(setup, Last(states), w);
    Join(setup, states, steps, b, ys);
    states, steps := states + b[1..], steps + ys;
  }

  lemma PlainTwo(e: Engine, v: string, w: string, now: int)
    requires Plain(e)
    ensures var one := Operate(NewNode(e), SegmentedLog.ProduceOp(v, now));
            var two := Operate(one, SegmentedLog.ProduceOp(w, now));
            one.log.nextOffset == 1 && two.log.cache == [Message(0, v), Message(1, w)]
  {
    assert [Message(0, v)] + [Message(1, w)] == [Message(0, v), Message(1, w)];
  }

  /** A poll commits a comma-free record that no follower has: for all comma-free x, y and w with
      y != w, the leader holds w at offset 1 and the only other replica holds y there. */
  lemma CommitsForged(setup: Setup, limits: SegmentedLog.Limits, x: string, y: string, w: string)
    returns (states: seq<System>, steps: seq<Step>)
    requires Pair(setup) && SegmentedLog.NoRetention(limits) && NoSpace(x) && NoSpace(y) && NoSpace(w)
    requires ',' !in x && ',' !in y && ',' !in w && y != w
    ensures Behavior(setup, states, steps) && steps != [] && steps[|steps| - 1] == Poll
    ensures var s := Last(states);
            && Committed(setup.cfg, s.manager, s.now, 1)
            && s.leader.log.cache == [Message(0, x + "," + ("1" + ":" + y)), Message(1, w)]
            && 1 in s.followers && s.followers[1].store.log.cache == [Message(0, x), Message(1, y)]
  {
    SegmentedPlain(limits);
    states, steps := ForgedOn(setup, Segmented(limits), x, y, w);
  }

  lemma ForgedOn(setup: Setup, e: Engine, x: string, y: string, w: string)
    returns (states: seq<System>, steps: seq<Step>)
    requires Pair(setup) && Reliable(e) && Plain(e) && NoSpace(x) && NoSpace(y) && NoSpace(w) && ',' !in x && ',' !in y
    ensures Behavior(setup, states, steps) && steps != [] && steps[|steps| - 1] == Poll
    ensures var s := Last(states);
            && Committed(setup.cfg, s.manager, s.now, 1)
            && s.leader.log.cache == [Message(0, x + "," + ("1" + ":" + y)), Message(1, w)]
            && 1 in s.followers && s.followers[1].store.log.cache == [Message(0, x), Message(1, y)]
  {
    var v := x + "," + ("1" + ":" + y);
    ForgeryReadable(x, y);
    PlainTwo(e, v, w, 0);
    states, steps := TwoProduced(setup, e, v, w, 0);
    ForgedTransfer(setup, x, y);
    var b, ys := RequestBlock(setup, Last(states), 1);
    Join(setup, states, steps, b, ys);
    states, steps := states + b[1..], steps + ys;
    assert Take([Message(0, v), Message(1, w)], 1) == [Message(0, v)];
    b, ys := ReplyBlock(setup, Last(states), 1, [Message(0, v)], [Message(0, x), Message(1, y)]);
    Join(setup, states, steps, b, ys);
    states, steps := states + b[1..], steps + ys;
    b, ys := ApplyTwo(setup, Last(states), e, x, y);
    Join(setup, states, steps, b, ys);
    states, steps := states + b[1..], steps + ys;
    b, ys := AckBlock(setup, Last(states), 1);
    Join(setup, states, steps, b, ys);
    states, steps := states + b[1..], steps + ys;
  }

  lemma ForgeryReadable(x: string, y: string)
    requires NoSpace(x) && NoSpace(y)
    ensures NoSpace(x + "," + ("1" + ":" + y)) && Itoa(1) == "1"
  {
  }

  lemma ForgedTransfer(setup: Setup, x: string, y: string)
    requires SafeTopic(setup.topic) && NoSpace(x) && NoSpace(y) && ',' !in x && ',' !in y
    ensures Transfer(0, setup.topic, setup.partition, 1, 0, [Message(0, x + "," + ("1" + ":" + y))])
            == Some((0, [Message(0, x), Message(1, y)]))
  {
    ForgeryReadable(x, y);
    TransferIsArrival(0, setup.topic, setup.partition, 1, 0, [Message(0, x + "," + ("1" + ":" + y))]);
    ForgedArrival(0, x, 1, y);
  }

  /** A store after two records from the start. */
  function Replicated(e: Engine, x: string, y: string, now: int): Node {
    Operate(Operate(NewNode(e), SegmentedLog.ReplicateOp(0, x, now)), SegmentedLog.ReplicateOp(1, y, now))
  }

  lemma ApplyTwo(setup: Setup, s: System, e: Engine, x: string, y: string)
    returns (states: seq<System>, steps: seq<Step>)
    requires Plain(e) && 1 in s.followers
    requires s.followers[1] == Follower(NewNode(e), Applying(0, [Message(0, x), Message(1, y)], -1))
    ensures Path(setup, states, steps) && states[0] == s && steps != []
    ensures var t := Last(states);
            && t == s.(followers := t.followers) && 1 in t.followers
            && t.followers[1] == Follower(Replicated(e, x, y, s.now), Applying(2, [], 1))
            && t.followers[1].store.log.cache == [Message(0, x), Message(1, y)]
  {
    var t := Next(setup, s, ApplyRecord(1));
    assert t.followers[1].worker.rest == [Message(1, y)];
    assert t.followers[1].store.log.cache == [] + [Message(0, x)];
    var u := Next(setup, t, ApplyRecord(1));
    assert u.followers[1].store.log.cache == [Message(0, x)] + [Message(1, y)];
    assert [Message(1, y)][1..] == [] && u.followers[1].worker == Applying(2, [], 1);
    states, steps := [s, t, u], [ApplyRecord(1), ApplyRecord(1)];
    assert Leads(setup, s, steps[0], t);
    assert Leads(setup, t, steps[1], u);
  }

  // ---- A record too long to load ----

  predicate Empty(log: SegmentedLog.Log) {
    log.cache == [] && log.nextOffset == 0
  }

  /** An engine that loads neither of two records back: a restart right after them finds an empty log. */
  ghost predicate Forgets(e: Engine, first: SegmentedLog.Op, second: SegmentedLog.Op) {
    var log := e.step(e.step(SegmentedLog.Fresh(map[]), first), second);
    forall later :: Empty(e.step(log, SegmentedLog.RestartOp(later)))
  }

  lemma SegmentedForgets(limits: SegmentedLog.Limits, first: SegmentedLog.Op, second: SegmentedLog.Op, v: string,
                         w: string, now: int)
    requires first == SegmentedLog.ProduceOp(v, now) || first == SegmentedLog.ReplicateOp(0, v, now)
    requires second == SegmentedLog.ProduceOp(w, now) || second == SegmentedLog.ReplicateOp(1, w, now)
    requires '\n' !in v && |Format(0, now, v)| > MAX_LINE && SegmentedLog.RoomForBoth(limits, v, w, now)
    ensures Forgets(Segmented(limits), first, second)
  {
    var e := Segmented(limits);
    var log := e.step(e.step(SegmentedLog.Fresh(map[]), first), second);
    forall later
      ensures Empty(e.step(log, SegmentedLog.RestartOp(later)))
    {
      SegmentedLog.LongRecordHidesNext(limits, first, second, v, w, now, later);
    }
  }

  /** The leader and the follower restart. */
  lemma RestartBlock(setup: Setup, s: System) returns (states: seq<System>, steps: seq<Step>)
    requires 1 in s.followers
    ensures Path(setup, states, steps) && states[0] == s && |steps| == 2
    ensures Last(states).leader == Operate(s.leader, SegmentedLog.RestartOp(s.now))
    ensures 1 in Last(states).followers
    ensures Last(states).followers[1].store == Operate(s.followers[1].store, SegmentedLog.RestartOp(s.now))
  {
    var t := Next(setup, s, RestartLeader);
    var u := Next(setup, t, RestartFollower(1));
    states, steps := [s, t, u], [RestartLeader, RestartFollower(1)];
    assert Leads(setup, s, steps[0], t);
    assert Leads(setup, t, steps[1], u);
  }

  /** The poll at step i commits offset 1, with both values on both replicas; at the end neither replica
      has either, and the leader would give offset 0 to the next value. */
  ghost predicate Lost(setup: Setup, states: seq<System>, steps: seq<Step>, i: nat, v: string, w: string) {
    && Behavior(setup, states, steps) && i < |steps| && steps[i] == Poll
    && (var s, both := states[i + 1], [Message(0, v), Message(1, w)];
        && Committed(setup.cfg, s.manager, s.now, 1) && s.leader.log.cache == both
        && 1 in s.followers && s.followers[1].store.log.cache == both)
    && (var t := Last(states); Empty(t.leader.log) && 1 in t.followers && Empty(t.followers[1].store.log))
  }

  /** Acked by every replica, then gone: v is any value whose line is too long for the scanner, w any
      value produced after it with acks=all. Once that produce has succeeded, restarts lose both. */
  lemma CommittedThenLost(setup: Setup, limits: SegmentedLog.Limits, v: string, w: string, now: int)
    returns (states: seq<System>, steps: seq<Step>, i: nat)
    requires Pair(setup) && SegmentedLog.NoRetention(limits) && SegmentedLog.RoomForBoth(limits, v, w, now)
    requires NoSpace(v) && NoSpace(w) && ',' !in v && ',' !in w && |Format(0, now, v)| > MAX_LINE
    ensures Lost(setup, states, steps, i, v, w)
  {
    var e := Segmented(limits);
    SegmentedPlain(limits);
    assert '\n' !in v;
    var p0, p1 := SegmentedLog.ProduceOp(v, now), SegmentedLog.ProduceOp(w, now);
    var r0, r1 := SegmentedLog.ReplicateOp(0, v, now), SegmentedLog.ReplicateOp(1, w, now);
    SegmentedForgets(limits, p0, p1, v, w, now);
    SegmentedForgets(limits, r0, r1, v, w, now);
    states, steps, i := ForgottenAfterCommit(setup, e, v, w, now);
  }

  lemma ForgottenAfterCommit(setup: Setup, e: Engine, v: string, w: string, now: int)
    returns (states: seq<System>, steps: seq<Step>, i: nat)
    requires Pair(setup) && Reliable(e) && Plain(e) && NoSpace(v) && NoSpace(w) && ',' !in v && ',' !in w
    requires Forgets(e, SegmentedLog.ProduceOp(v, now), SegmentedLog.ProduceOp(w, now))
    requires Forgets(e, SegmentedLog.ReplicateOp(0, v, now), SegmentedLog.ReplicateOp(1, w, now))
    ensures Lost(setup, states, steps, i, v, w)
  {
    states, steps := CommitBoth(setup, e, v, w, now);
    i := |steps| - 1;
    var b, ys := RestartBlock(setup, Last(states));
    Join(setup, states, steps, b, ys);
    states, steps := states + b[1..], steps + ys;
  }

  /** Two values appended, replicated in one batch and committed, from the start. */
  lemma CommitBoth(setup: Setup, e: Engine, v: string, w: string, now: int)
    returns (states: seq<System>, steps: seq<Step>)
    requires Pair(setup) && Reliable(e) && Plain(e) && NoSpace(v) && NoSpace(w) && ',' !in v && ',' !in w
    ensures Behavior(setup, states, steps) && steps != [] && steps[|steps| - 1] == Poll
    ensures var s, both := Last(states), [Message(0, v), Message(1, w)];
            && Committed(setup.cfg, s.manager, s.now, 1) && OnlyFirst(setup.cfg, s.manager)
            && s.leader.log.cache == both
            && s.leader == Operate(Operate(NewNode(e), SegmentedLog.ProduceOp(v, now)), SegmentedLog.ProduceOp(w, now))
            && 1 in s.followers && s.followers[1].store == Replicated(e, v, w, now)
            && s.followers[1].store.log.cache == both
  {
    var both := [Message(0, v), Message(1, w)];
    PlainTwo(e, v, w, now);
    BothTransfer(setup, v, w);
    states, steps := TwoProduced(setup, e, v, w, now);
    var b, ys := RequestBlock(setup, Last(states), 2);
    Join(setup, states, steps, b, ys);
    states, steps := states + b[1..], steps + ys;
    b, ys := ReplyBlock(setup, Last(states), 2, both, both);
    Join(setup, states, steps, b, ys);
    states, steps := states + b[1..], steps + ys;
    b, ys := ApplyTwo(setup, Last(states), e, v, w);
    Join(setup, states, steps, b, ys);
    states, steps := states + b[1..], steps + ys;
    b, ys := AckBlock(setup, Last(states), 1);
    Join(setup, states, steps, b, ys);
    states, steps := states + b[1..], steps + ys;
  }

  /** With three replicas or more of which two must have a record, acks=all succeeds while the others are
      silent. */
  lemma CommitsWithoutAll(setup: Setup, limits: SegmentedLog.Limits, v: string, w: string, now: int)
    returns (states: seq<System>, steps: seq<Step>)
    requires Pair(setup) && setup.cfg.replicationFactor >= 3 && setup.cfg.minInSyncReplicas == 2
    requires SegmentedLog.NoRetention(limits) && NoSpace(v) && NoSpace(w) && ',' !in v && ',' !in w
    ensures Behavior(setup, states, steps) && steps != [] && steps[|steps| - 1] == Poll
    ensures var s := Last(states);
            && Committed(setup.cfg, s.manager, s.now, 1)
            && 2 in s.manager.followers && s.manager.followers[2].lastSeen == None
  {
    SegmentedPlain(limits);
    states, steps := CommitBoth(setup, Segmented(limits), v, w, now);
  }

  lemma BothTransfer(setup: Setup, v: string, w: string)
    requires SafeTopic(setup.topic) && NoSpace(v) && NoSpace(w) && ',' !in v && ',' !in w
    ensures var both := [Message(0, v), Message(1, w)];
            Transfer(0, setup.topic, setup.partition, 1, 0, both) == Some((0, both))
  {
    FetchRoundTrip(0, setup.topic, setup.partition, 1, 0, [Message(0, v), Message(1, w)]);
  }

  /** The request line of the shortest PRODUCE for a value. */
  function ProduceLine(value: string): string {
    "V1|1|PRODUCE|t :" + value
  }

  lemma {:induction false} DigitsAtLeast(n: nat, k: nat)
    requires k > 0 && n >= PowerOfTen(k - 1)
    ensures |Digits(n)| >= k
  {
    if k == 1 {
    } else {
      assert PowerOfTen(k - 1) == 10 * PowerOfTen(k - 2);
      DigitsAtLeast(n / 10, k - 1);
    }
  }

  function PowerOfTen(k: nat): (p: nat)
    ensures p > 0
  {
    if k == 0 then 1 else 10 * PowerOfTen(k - 1)
  }

  /** Such values get through: with a millisecond clock of 13 digits, a request of 65511 value bytes
      fits the request scanner's buffer and its log line does not fit the same buffer. */
  lemma OverlongAdmitted(value: string, now: int)
    requires |value| == 65511 && now >= PowerOfTen(12)
    ensures |ProduceLine(value)| + 1 <= MAX_LINE && |Format(0, now, value)| > MAX_LINE
  {
    DigitsAtLeast(now, 13);
  }

  // ---- Retention ----

  /** An engine that keeps one record. */
  ghost predicate KeepsOne(e: Engine, v: string, w: string, now: int) {
    var one := Operate(NewNode(e), SegmentedLog.ProduceOp(v, now));
    var two := Operate(one, SegmentedLog.ProduceOp(w, now));
    one.log.nextOffset == 1 && two.intact && two.log.cache == [Message(1, w)]
  }

  lemma SegmentedKeepsOne(limits: SegmentedLog.Limits, v: string, w: string, now: int)
    requires SegmentedLog.OneRecordKept(limits) && Readable(0, now, v) && Readable(1, now, w)
    ensures KeepsOne(Segmented(limits), v, w, now)
  {
    SegmentedLog.RetentionDrops(limits, v, w, now);
    SegmentedLog.TwoSteps(limits, SegmentedLog.ProduceOp(v, now), SegmentedLog.ProduceOp(w, now));
    SegmentedLog.FirstProduce(limits, v, now);
  }

  /** With everything readable and committed, CONSUME from 0 skips to offset 1 without saying so, and
      CONSUME from 1 returns nothing although offset 1 is committed and stored. */
  ghost predicate Misread(setup: Setup, states: seq<System>, steps: seq<Step>, v: string, w: string) {
    && Behavior(setup, states, steps)
    && (var s := Last(states);
        && s.leader.intact && s.leader.values == [v, w] && s.leader.base == 1 && s.manager.highWatermark == 1
        && s.leader.log.cache == [Message(1, w)]
        && PartitionHistory.ReadCommitted(s.leader.log.cache, 0, 1) == Some([Message(1, w)])
        && PartitionHistory.ReadCommitted(s.leader.log.cache, 1, 1) == Some([]))
  }

  lemma MisreadByOne(setup: Setup, e: Engine, v: string, w: string, now: int)
    returns (states: seq<System>, steps: seq<Step>)
    requires Pair(setup) && Reliable(e) && KeepsOne(e, v, w, now) && NoSpace(v) && NoSpace(w)
    ensures Misread(setup, states, steps, v, w)
  {
    states, steps := TwoProduced(setup, e, v, w, now);
    assert [] + [v] + [w] == [v, w];
    assert Last(states).leader.values == [] + [v] + [w];
    var cache := [Message(1, w)];
    PartitionHistory.UpToPrefix(cache, 1, 1);
    assert cache[0..] == cache && cache[..1] == cache;
  }

  /** Retention alone makes committed reads wrong. */
  lemma RetentionMisreads(setup: Setup, limits: SegmentedLog.Limits, v: string, w: string, now: int)
    returns (states: seq<System>, steps: seq<Step>)
    requires Pair(setup) && SegmentedLog.OneRecordKept(limits) && NoSpace(v) && NoSpace(w)
    requires Readable(0, now, v) && Readable(1, now, w)
    ensures Misread(setup, states, steps, v, w)
  {
    SegmentedReliable(limits);
    SegmentedKeepsOne(limits, v, w, now);
    states, steps := MisreadByOne(setup, Segmented(limits), v, w, now);
  }

  // ---- A manager that does not know its log ----

  lemma OneAppended(setup: Setup, e: Engine, v: string, now: int) returns (s: System, t: System)
    requires Pair(setup) && Reliable(e) && NoSpace(v) && e.readable(0, now, v)
    ensures s == Opening(setup, e, now) && Init(setup, s) && t == Next(setup, s, Append(v))
    ensures Leads(setup, s, Append(v), t) && Inv(setup, t)
    ensures t.leader.intact && t.leader.values == [v] && t.leader.base == 0 && t.inFlight == {0}
  {
    s := Opening(setup, e, now);
    StartBehavior(setup, e, now);
    t := Next(setup, s, Append(v));
    assert Leads(setup, s, Append(v), t);
    InitKeeps(setup, s);
    AppendKeeps(setup, s, v);
    IntactIsOrderly(t.leader);
    assert [] + [v] == [v];
  }

  /** A record that is appended and not yet reported is not served: the worker is behind, nothing was
      dropped, and it gets nothing. */
  lemma UnreportedNotServed(setup: Setup, limits: SegmentedLog.Limits, v: string, now: int)
    returns (states: seq<System>, steps: seq<Step>)
    requires Pair(setup) && NoSpace(v) && Readable(0, now, v)
    ensures Behavior(setup, states, steps)
    ensures steps == [Append(v), StartFetch(1), Admit(1, 1), Receive(1, Reply(1, []))]
    ensures var t := Last(states);
            && t.leader.intact && t.leader.values == [v] && t.leader.base == 0 && t.manager.leaderOffset == -1
            && 1 in t.followers && t.followers[1] == Follower(NewNode(Segmented(limits)), Idle(0))
  {
    SegmentedReliable(limits);
    states, steps := UnreportedOn(setup, Segmented(limits), v, now);
  }

  lemma UnreportedOn(setup: Setup, e: Engine, v: string, now: int) returns (states: seq<System>, steps: seq<Step>)
    requires Pair(setup) && Reliable(e) && NoSpace(v) && e.readable(0, now, v)
    ensures Behavior(setup, states, steps)
    ensures steps == [Append(v), StartFetch(1), Admit(1, 1), Receive(1, Reply(1, []))]
    ensures var t := Last(states);
            && t.leader.intact && t.leader.values == [v] && t.leader.base == 0 && t.manager.leaderOffset == -1
            && 1 in t.followers && t.followers[1] == Follower(NewNode(e), Idle(0))
  {
    var s, t := OneAppended(setup, e, v, now);
    var b, ys := AskedInVain(setup, t, 1, 1);
    StepThen(setup, s, Append(v), b, ys);
    states, steps := [s] + b, [Append(v)] + ys;
  }

  /** A restarted leader does not know the end of its log until a bootstrap or an append. */
  lemma RestartedUnaware(setup: Setup, limits: SegmentedLog.Limits, v: string, now: int)
    returns (states: seq<System>, steps: seq<Step>)
    requires Pair(setup) && NoSpace(v) && Readable(0, now, v)
    ensures Behavior(setup, states, steps) && steps == [Append(v), Report(0), RestartLeader]
    ensures var t := Last(states);
            && t.leader.intact && t.leader.values == [v] && t.inFlight == {}
            && LastOf(t.leader) == 0 && t.manager.leaderOffset == -1
  {
    SegmentedReliable(limits);
    states, steps := RestartedOn(setup, Segmented(limits), v, now);
  }

  lemma RestartedOn(setup: Setup, e: Engine, v: string, now: int) returns (states: seq<System>, steps: seq<Step>)
    requires Pair(setup) && Reliable(e) && NoSpace(v) && e.readable(0, now, v)
    ensures Behavior(setup, states, steps) && steps == [Append(v), Report(0), RestartLeader]
    ensures var t := Last(states);
            && t.leader.intact && t.leader.values == [v] && t.inFlight == {}
            && LastOf(t.leader) == 0 && t.manager.leaderOffset == -1
  {
    var s, t := OneAppended(setup, e, v, now);
    var b, ys := ReportAndRestart(setup, t, v);
    StepThen(setup, s, Append(v), b, ys);
    states, steps := [s] + b, [Append(v)] + ys;
  }

  lemma ReportAndRestart(setup: Setup, t: System, v: string) returns (states: seq<System>, steps: seq<Step>)
    requires Inv(setup, t) && 0 in t.inFlight && t.leader.intact && t.leader.values == [v]
    ensures Path(setup, states, steps) && states[0] == t && steps == [Report(0), RestartLeader]
    ensures var w := Last(states);
            && w.leader.intact && w.leader.values == [v] && w.inFlight == {}
            && LastOf(w.leader) == 0 && w.manager.leaderOffset == -1
  {
    var u := Manage(setup, t, OnLeaderAppend(0)).(inFlight := t.inFlight - {0});
    var w := LeaderReloaded(setup, u);
    states, steps := [t, u, w], [Report(0), RestartLeader];
    assert Leads(setup, t, steps[0], u);
    assert Leads(setup, u, steps[1], w);
    ReloadedUnaware(setup, t, u, v);
  }

  lemma ReloadedUnaware(setup: Setup, t: System, u: System, v: string)
    requires GoodStore(t.leader) && t.leader.intact && t.leader.values == [v] && u.leader == t.leader
    ensures var w := LeaderReloaded(setup, u);
            && w.leader.intact && w.leader.values == [v] && w.inFlight == {}
            && LastOf(w.leader) == 0 && w.manager.leaderOffset == -1
  {
    RestartedLast(t.leader, u.now);
  }

  lemma RestartedLast(n: Node, now: int)
    requires GoodStore(n) && n.intact
    ensures var w := Operate(n, SegmentedLog.RestartOp(now));
            w.intact && w.values == n.values && LastOf(w) == |n.values| - 1
  {
    var w := Operate(n, SegmentedLog.RestartOp(now));
    OperateKeeps(n, SegmentedLog.RestartOp(now));
    assert n.values + [] == n.values;
    IntactIsOrderly(w);
    LastOfOrderly(w);
  }
}
