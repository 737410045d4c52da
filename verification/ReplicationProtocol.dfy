/** Replication of one partition under one fixed leader, as a step protocol: produce handlers,
    follower workers, the fetch wire format, the manager's acks, clocks, retention, and restarts that
    reload the log from disk, in every interleaving. */
module ReplicationProtocol {
  import opened Text
  import opened LogLine
  import opened FetchCodec
  import opened ReplicationState
  import opened StorageContract
  import PartitionHistory
  import SegmentedLog

  datatype Setup = Setup(cfg: Config, topic: string, partition: int)

  /** Where a follower's worker is in its cycle. */
  datatype Worker =
    | Idle(next: int)
    | Fetching(next: int)
    | Applying(next: int, rest: seq<Message>, last: int)

  datatype Follower = Follower(store: Node, worker: Worker)

  datatype Request = Request(id: int, offset: int, max: int)
  datatype Reply = Reply(id: int, records: seq<Message>)
  datatype Ack = Ack(id: int, offset: int)

  /** Messages stay in their sets once sent: each may be lost, delayed or seen any number of
      times. started is the number of values accepted when the leader's process began, inFlight the
      offsets appended but not yet reported, lastOffsets the LastOffset readings not yet used. The
      clock may read anything at any time, so one clock serves all processes. */
  datatype System = System(
    leader: Node,
    started: int,
    inFlight: set<int>,
    lastOffsets: set<int>,
    manager: Partition,
    followers: map<int, Follower>,
    requests: set<Request>,
    replies: set<Reply>,
    acks: set<Ack>,
    now: int)

  datatype Step =
    | Append(value: string)                       // ProduceToPartition
    | Report(offset: int)                         // OnLeaderAppend by the same handler, later
    | ReadLast                                    // reconcileRoles reads LastOffset
    | Bootstrap(offset: int)                      // ... and uses it, later
    | Poll                                        // HighWatermark, Status, or a turn of WaitForAckAll
    | Tick(now: int)
    | StartFetch(id: int)
    | AbortFetch(id: int)
    | Admit(id: int, max: int)                    // handleBrokerFetch up to its guard
    | Serve(request: Request, sequence: nat, hw: int) // ... its log read and reply
    | Receive(id: int, reply: Reply)
    | ApplyRecord(id: int)
    | SendAck(id: int)
    | DeliverAck(ack: Ack)
    | RestartWorker(id: int)                      // a new worker over the running storage
    | RestartFollower(id: int)                    // a new process over the files
    | RestartLeader
    | RetainLeader
    | RetainFollower(id: int)

  ghost predicate Init(setup: Setup, s: System) {
    && Clamped(setup.cfg) && SafeTopic(setup.topic)
    && Reliable(s.leader.engine) && s.leader == NewNode(s.leader.engine)
    && s.started == 0 && s.inFlight == {} && s.lastOffsets == {}
    && s.manager == Initial(setup.cfg)
    && (forall id :: id in s.followers ==> NewFollower(s.followers[id]))
    && s.requests == {} && s.replies == {} && s.acks == {}
  }

  ghost predicate NewFollower(f: Follower) {
    Reliable(f.store.engine) && f == Follower(NewNode(f.store.engine), Idle(0))
  }

  function Take(records: seq<Message>, max: int): seq<Message> {
    if 0 <= max < |records| then records[..max] else records
  }

  ghost predicate Enabled(s: System, step: Step) {
    match step
    case Append(value) => NoSpace(value)
    case Report(offset) => offset in s.inFlight
    case ReadLast => true
    case Bootstrap(offset) => offset in s.lastOffsets
    case Poll => true
    case Tick(_) => true
    case StartFetch(id) => id in s.followers && s.followers[id].worker.Idle?
    case AbortFetch(id) => id in s.followers && s.followers[id].worker.Fetching?
    case Admit(id, max) => id in s.followers && s.followers[id].worker.Fetching? && max > 0
    case Serve(request, _, _) => request in s.requests
    case Receive(id, reply) =>
      id in s.followers && s.followers[id].worker.Fetching? && reply in s.replies && reply.id == id
    case ApplyRecord(id) =>
      id in s.followers && s.followers[id].worker.Applying? && s.followers[id].worker.rest != []
    case SendAck(id) =>
      id in s.followers && s.followers[id].worker.Applying? && s.followers[id].worker.rest == []
    case DeliverAck(ack) => ack in s.acks
    case RestartWorker(id) => id in s.followers
    case RestartFollower(id) => id in s.followers
    case RestartLeader => true
    case RetainLeader => true
    case RetainFollower(id) => id in s.followers
  }

  function WithFollower(s: System, id: int, f: Follower): System {
    s.(followers := s.followers[id := f])
  }

  function WithWorker(s: System, id: int, worker: Worker): System
    requires id in s.followers
  {
    WithFollower(s, id, s.followers[id].(worker := worker))
  }

  function LastOf(n: Node): int {
    PartitionHistory.LastOffset(n.log.cache)
  }

  /** One turn of StepOnce's loop: the worker's gap check, then the storage's own check. */
  function ApplyNext(f: Follower, now: int): Follower
    requires f.worker.Applying? && f.worker.rest != []
  {
    var w, m := f.worker, f.worker.rest[0];
    if m.offset != w.next || m.offset > f.store.log.nextOffset then f.(worker := Idle(w.next))
    else Follower(Operate(f.store, SegmentedLog.ReplicateOp(m.offset, m.value, now)),
                  Applying(w.next + 1, w.rest[1..], m.offset))
  }

  function Reloaded(f: Follower, now: int): Follower {
    var store := Operate(f.store, SegmentedLog.RestartOp(now));
    Follower(store, Idle(LastOf(store) + 1))
  }

  function Trimmed(f: Follower, now: int): Follower {
    f.(store := Operate(f.store, SegmentedLog.RetainOp(now)))
  }

  function Received(next: int, reply: Reply): Worker {
    if reply.records == [] then Idle(next) else Applying(next, reply.records, -1)
  }

  function AckSent(s: System, id: int): System
    requires id in s.followers && s.followers[id].worker.Applying?
  {
    var w := s.followers[id].worker;
    WithWorker(s, id, Idle(w.next)).(acks := if w.last >= 0 then s.acks + {Ack(id, w.last)} else s.acks)
  }

  function Manage(setup: Setup, s: System, call: Call): System {
    s.(manager := Apply(setup.cfg, s.manager, call, s.now))
  }

  /** handleBrokerFetch's log read and reply. A negative offset would crash the leader instead. */
  function Served(setup: Setup, s: System, request: Request, sequence: nat, hw: int): System {
    match PartitionHistory.Consume(s.leader.log.cache, request.offset)
    case None => s
    case Some(messages) =>
      match Transfer(sequence, setup.topic, setup.partition, request.id, hw, Take(messages, request.max))
      case None => s
      case Some(read) => s.(replies := s.replies + {Reply(request.id, read.1)})
  }

  function Admitted(setup: Setup, s: System, id: int, max: int): System
    requires id in s.followers
  {
    var t := Manage(setup, s, Observe);
    var offset := s.followers[id].worker.next;
    if t.manager.leaderOffset < 0 || offset > t.manager.leaderOffset
    then t.(replies := t.replies + {Reply(id, [])})
    else t.(requests := t.requests + {Request(id, offset, max)})
  }

  function Appended(s: System, value: string): System {
    s.(leader := Operate(s.leader, SegmentedLog.ProduceOp(value, s.now)),
       inFlight := s.inFlight + {s.leader.log.nextOffset})
  }

  function LeaderReloaded(setup: Setup, s: System): System {
    s.(leader := Operate(s.leader, SegmentedLog.RestartOp(s.now)), started := |s.leader.values|,
       inFlight := {}, lastOffsets := {}, manager := Initial(setup.cfg), requests := {})
  }

  ghost function Next(setup: Setup, s: System, step: Step): System
    requires Enabled(s, step)
  {
    match step
    case Append(value) => Appended(s, value)
    case Report(offset) => Manage(setup, s, OnLeaderAppend(offset)).(inFlight := s.inFlight - {offset})
    case ReadLast => s.(lastOffsets := s.lastOffsets + {LastOf(s.leader)})
    case Bootstrap(offset) => Manage(setup, Manage(setup, s, SetRole(LEADER)), BootstrapOffset(offset))
    case Poll => Manage(setup, s, Observe)
    case Tick(now) => s.(now := now)
    case StartFetch(id) => WithWorker(s, id, Fetching(s.followers[id].worker.next))
    case AbortFetch(id) => WithWorker(s, id, Idle(s.followers[id].worker.next))
    case Admit(id, max) => Admitted(setup, s, id, max)
    case Serve(request, sequence, hw) => Served(setup, s, request, sequence, hw)
    case Receive(id, reply) => WithWorker(s, id, Received(s.followers[id].worker.next, reply))
    case ApplyRecord(id) => WithFollower(s, id, ApplyNext(s.followers[id], s.now))
    case SendAck(id) => AckSent(s, id)
    case DeliverAck(ack) => Manage(setup, s, AckReplica(ack.id, ack.offset))
    case RestartWorker(id) => WithWorker(s, id, Idle(LastOf(s.followers[id].store) + 1))
    case RestartFollower(id) => WithFollower(s, id, Reloaded(s.followers[id], s.now))
    case RestartLeader => LeaderReloaded(setup, s)
    case RetainLeader => s.(leader := Operate(s.leader, SegmentedLog.RetainOp(s.now)))
    case RetainFollower(id) => WithFollower(s, id, Trimmed(s.followers[id], s.now))
  }

  // ---- What can arrive at a follower ----

  /** The leader's value at this offset, up to its first comma. */
  predicate Genuine(m: Message, values: seq<string>) {
    0 <= m.offset < |values| && m.value == Head(values[m.offset])
  }

  /** A record made of what follows a comma in the earlier value i: the pieces of that value run in
      line from i to this offset. */
  ghost predicate ForgedBy(m: Message, values: seq<string>, i: int) {
    0 <= i < m.offset && i < |values| && RunsTo(Cut(Message(i, values[i])), i, m)
  }

  ghost predicate RunsTo(cut: Option<seq<Message>>, i: int, m: Message) {
    && cut.Some? && 0 <= m.offset - i < |cut.value| && cut.value[m.offset - i] == m
    && forall j :: 0 <= j <= m.offset - i ==> cut.value[j].offset == i + j
  }

  ghost predicate Forged(m: Message, values: seq<string>) {
    exists i :: ForgedBy(m, values, i)
  }

  ghost predicate Possible(m: Message, values: seq<string>) {
    Genuine(m, values) || Forged(m, values)
  }

  ghost predicate InLine(next: int, records: seq<Message>, j: int) {
    0 <= j < |records| && forall i :: 0 <= i <= j ==> records[i].offset == next + i
  }

  /** Every record the worker's gap check would let through is a possible one. */
  ghost predicate Chained(next: int, records: seq<Message>, values: seq<string>) {
    forall j :: InLine(next, records, j) ==> Possible(records[j], values)
  }

  /** Consecutive records of the leader's log, from any offset. */
  ghost predicate Consecutive(records: seq<Message>, values: seq<string>) {
    forall i :: 0 <= i < |records| ==>
      && records[i].offset == records[0].offset + i
      && 0 <= records[i].offset < |values|
      && records[i].value == values[records[i].offset]
  }

  lemma CutChained(m: Message, cut: seq<Message>, values: seq<string>, next: int, j: int)
    requires 0 <= m.offset < |values| && m.value == values[m.offset] && Cut(m) == Some(cut)
    requires InLine(next, cut, j)
    ensures Possible(cut[j], values)
  {
    CutHead(m);
    if j == 0 {
      assert Genuine(cut[0], values);
    } else {
      assert cut[0].offset == next;
      PieceForged(m, cut, values, j);
    }
  }

  /** A later piece in line with the first is forged by the value alone. */
  lemma PieceForged(m: Message, cut: seq<Message>, values: seq<string>, j: int)
    requires 0 <= m.offset < |values| && m.value == values[m.offset] && Cut(m) == Some(cut)
    requires j > 0 && InLine(m.offset, cut, j)
    ensures Forged(cut[j], values)
  {
    assert cut[j].offset == m.offset + j;
    assert RunsTo(Cut(m), m.offset, cut[j]);
    assert ForgedBy(cut[j], values, m.offset);
  }

  lemma InLinePrefix(next: int, front: seq<Message>, tail: seq<Message>, all: seq<Message>, j: int)
    requires all == front + tail && InLine(next, all, j)
    ensures j < |front| ==> InLine(next, front, j) && all[j] == front[j]
    ensures j >= |front| ==> InLine(next + |front|, tail, j - |front|) && all[j] == tail[j - |front|]
  {
    if j < |front| {
      assert forall i :: 0 <= i <= j ==> front[i] == all[i];
    } else {
      assert forall i :: 0 <= i <= j - |front| ==> tail[i] == all[|front| + i];
    }
  }

  lemma InLineBeyond(next: int, front: seq<Message>, tail: seq<Message>, all: seq<Message>, j: int)
    requires all == front + tail && InLine(next, all, j) && front != [] && j >= |front|
    requires tail != [] ==> tail[0].offset == front[0].offset + 1
    ensures tail != [] && |front| == 1 && InLine(next + 1, tail, j - 1) && all[j] == tail[j - 1]
  {
    InLinePrefix(next, front, tail, all, j);
    assert all[0] == front[0] && all[|front|] == tail[0];
  }

  /** The worker's gap check stops at the first record of a batch unless it arrives alone. */
  lemma ArrivesAlone(m: Message, rest: seq<Message>, cut: seq<Message>, tail: seq<Message>, all: seq<Message>,
                     next: int, j: int)
    requires Cut(m) == Some(cut) && Arrival(rest) == Some(tail) && all == cut + tail
    requires rest != [] ==> rest[0].offset == m.offset + 1
    requires InLine(next, all, j) && j >= |cut|
    ensures rest != [] && InLine(next + 1, tail, j - 1) && all[j] == tail[j - 1]
  {
    CutHead(m);
    NothingArrives();
    if rest != [] {
      ArrivalHead(rest);
    }
    InLineBeyond(next, cut, tail, all, j);
  }

  lemma ConsecutiveRest(records: seq<Message>, rest: seq<Message>, values: seq<string>)
    requires records != [] && rest == records[1..] && Consecutive(records, values)
    ensures 0 <= records[0].offset < |values| && records[0].value == values[records[0].offset]
    ensures Consecutive(rest, values) && (rest != [] ==> rest[0].offset == records[0].offset + 1)
  {
    assert forall i :: 0 <= i < |rest| ==> rest[i] == records[i + 1];
  }

  lemma NothingArrives()
    ensures Arrival([]) == Some([])
  {
  }

  /** A batch that arrives is what arrives of its first record, then of the others. */
  lemma ArrivesInTwo(records: seq<Message>, all: seq<Message>) returns (cut: seq<Message>, tail: seq<Message>)
    requires records != [] && Arrival(records) == Some(all)
    ensures Cut(records[0]) == Some(cut) && Arrival(records[1..]) == Some(tail) && all == cut + tail
  {
    ArrivalStep(records);
    cut, tail := Cut(records[0]).value, Arrival(records[1..]).value;
  }

  /** Whatever the commas did to a batch, a record that passes the gap check is the head of the
      leader's own value at its offset, or forged by one earlier value alone. */
  lemma {:induction false} ArrivalChained(records: seq<Message>, all: seq<Message>, values: seq<string>, next: int,
                                          j: int)
    requires Consecutive(records, values) && Arrival(records) == Some(all) && InLine(next, all, j)
    ensures Possible(all[j], values)
  {
    NothingArrives();
    assert records != [];
    var m, rest := records[0], records[1..];
    var cut, tail := ArrivesInTwo(records, all);
    ConsecutiveRest(records, rest, values);
    if j < |cut| {
      InLinePrefix(next, cut, tail, all, j);
      CutChained(m, cut, values, next, j);
    } else {
      ArrivesAlone(m, rest, cut, tail, all, next, j);
      ArrivalChained(rest, tail, values, next + 1, j - 1);
    }
  }

  // ---- The invariant ----

  ghost predicate CommaFreeValues(values: seq<string>) {
    forall i :: 0 <= i < |values| ==> !HasComma(values[i])
  }

  ghost predicate NoSpaceValues(values: seq<string>) {
    forall i :: 0 <= i < |values| ==> NoSpace(values[i])
  }

  ghost predicate Copies(mine: seq<string>, values: seq<string>) {
    forall i :: 0 <= i < |mine| ==> Possible(Message(i, mine[i]), values)
  }

  ghost predicate GoodStore(n: Node) {
    Reliable(n.engine) && Faithful(n)
  }

  /** What the worker applied last is in the log's reach, and it reads its own log right as long as
      that log is intact. */
  ghost predicate GoodPosition(f: Follower) {
    && (f.worker.Applying? ==> f.worker.last < f.store.reach)
    && (f.store.intact ==> 0 <= f.worker.next <= |f.store.values|)
  }

  /** What the worker has yet to apply comes from the leader, as long as the leader is intact. */
  ghost predicate GoodRest(leader: Node, w: Worker) {
    w.Applying? ==> AllCommaFree(w.rest) && (leader.intact ==> Chained(w.next, w.rest, leader.values))
  }

  ghost predicate GoodCopies(leader: Node, n: Node) {
    CommaFreeValues(n.values) && (leader.intact ==> Copies(n.values, leader.values))
  }

  ghost predicate GoodFollower(leader: Node, f: Follower) {
    GoodStore(f.store) && GoodPosition(f) && GoodRest(leader, f.worker) && GoodCopies(leader, f.store)
  }

  ghost predicate GoodReply(leader: Node, reply: Reply) {
    AllCommaFree(reply.records) && (leader.intact ==> forall next :: Chained(next, reply.records, leader.values))
  }

  ghost predicate GoodManager(setup: Setup, s: System) {
    Clamped(setup.cfg) && SafeTopic(setup.topic) && Lawful(setup.cfg, s.manager) && s.manager.role == LEADER
  }

  /** While the leader is intact, every offset the manager or a handler holds is one of its log, every
      offset appended since the process began is reported or still in flight, and every LastOffset
      reading covers what was there when it began. */
  ghost predicate GoodFlight(s: System) {
    s.leader.intact ==>
      && s.manager.leaderOffset < |s.leader.values|
      && 0 <= s.started <= |s.leader.values|
      && (forall o :: o in s.inFlight ==> 0 <= o < |s.leader.values|)
      && (forall o :: o in s.lastOffsets ==> s.started - 1 <= o < |s.leader.values|)
      && (forall o :: s.started <= o < |s.leader.values| ==> o <= s.manager.leaderOffset || o in s.inFlight)
  }

  ghost predicate GoodLeader(s: System) {
    GoodStore(s.leader) && NoSpaceValues(s.leader.values)
  }

  /** A follower that exists and whose log has run past the offset. */
  predicate Stored(s: System, id: int, offset: int) {
    id in s.followers && offset < s.followers[id].store.reach
  }

  /** Acks on the wire and recorded offsets speak of records that are stored. */
  ghost predicate GoodAcks(s: System) {
    && (forall ack :: ack in s.acks ==> Stored(s, ack.id, ack.offset))
    && (forall id :: id in s.manager.followers && s.manager.followers[id].offset >= 0 ==>
          Stored(s, id, s.manager.followers[id].offset))
  }

  ghost predicate GoodFollowers(s: System) {
    forall id :: id in s.followers ==> GoodFollower(s.leader, s.followers[id])
  }

  ghost predicate GoodReplies(s: System) {
    forall reply :: reply in s.replies ==> GoodReply(s.leader, reply)
  }

  ghost predicate Inv(setup: Setup, s: System) {
    && GoodManager(setup, s) && GoodLeader(s) && GoodFlight(s)
    && GoodFollowers(s) && GoodReplies(s) && GoodAcks(s)
  }

  lemma NewNodeGood(e: Engine)
    requires Reliable(e)
    ensures GoodStore(NewNode(e))
  {
    NewIsFaithful(e);
  }

  lemma InitKeeps(setup: Setup, s: System)
    requires Init(setup, s)
    ensures Inv(setup, s)
  {
    InitialLawful(setup.cfg);
    NewNodeGood(s.leader.engine);
    forall id | id in s.followers
      ensures GoodFollower(s.leader, s.followers[id])
    {
      NewNodeGood(s.followers[id].store.engine);
    }
  }

  // ---- The leader's storage ----

  lemma PossibleGrows(m: Message, values: seq<string>, more: seq<string>)
    requires Possible(m, values) && values <= more
    ensures Possible(m, more)
  {
    if Forged(m, values) {
      var i :| ForgedBy(m, values, i);
      assert ForgedBy(m, more, i);
    }
  }

  lemma ChainedGrows(next: int, records: seq<Message>, values: seq<string>, more: seq<string>)
    requires Chained(next, records, values) && values <= more
    ensures Chained(next, records, more)
  {
    forall j | InLine(next, records, j)
      ensures Possible(records[j], more)
    {
      PossibleGrows(records[j], values, more);
    }
  }

  lemma CopiesGrow(mine: seq<string>, values: seq<string>, more: seq<string>)
    requires Copies(mine, values) && values <= more
    ensures Copies(mine, more)
  {
    forall i | 0 <= i < |mine|
      ensures Possible(Message(i, mine[i]), more)
    {
      PossibleGrows(Message(i, mine[i]), values, more);
    }
  }

  /** A node after some operations: nothing is unlearned, the base and the reach never move back, and
      intact only ever becomes false. */
  predicate Succeeds(n: Node, after: Node) {
    n.values <= after.values && n.base <= after.base && n.reach <= after.reach && (after.intact ==> n.intact)
  }

  lemma FollowerSurvives(leader: Node, after: Node, f: Follower)
    requires GoodFollower(leader, f) && Succeeds(leader, after)
    ensures GoodFollower(after, f)
  {
    if after.intact {
      if f.worker.Applying? {
        ChainedGrows(f.worker.next, f.worker.rest, leader.values, after.values);
      }
      CopiesGrow(f.store.values, leader.values, after.values);
    }
  }

  lemma ReplySurvives(leader: Node, after: Node, reply: Reply)
    requires GoodReply(leader, reply) && Succeeds(leader, after)
    ensures GoodReply(after, reply)
  {
    if after.intact {
      forall next
        ensures Chained(next, reply.records, after.values)
      {
        ChainedGrows(next, reply.records, leader.values, after.values);
      }
    }
  }

  /** Changing the leader's storage, its process state and its manager. */
  lemma LeaderKeeps(setup: Setup, s: System, t: System)
    requires Inv(setup, s) && GoodManager(setup, t) && GoodLeader(t) && GoodFlight(t)
    requires Succeeds(s.leader, t.leader) && t.followers == s.followers && t.replies == s.replies && t.acks == s.acks
    requires t.manager == s.manager || t.manager == Initial(setup.cfg)
    ensures Inv(setup, t)
  {
    forall id | id in t.followers
      ensures GoodFollower(t.leader, t.followers[id])
    {
      FollowerSurvives(s.leader, t.leader, s.followers[id]);
    }
    forall reply | reply in t.replies
      ensures GoodReply(t.leader, reply)
    {
      ReplySurvives(s.leader, t.leader, reply);
    }
    assert forall id, o :: Stored(s, id, o) ==> Stored(t, id, o);
  }

  lemma LeaderOperates(s: System, op: SegmentedLog.Op)
    requires GoodLeader(s) && forall v :: v in SegmentedLog.Added(s.leader.log, op) ==> NoSpace(v)
    ensures var n := Operate(s.leader, op); GoodStore(n) && NoSpaceValues(n.values) && Succeeds(s.leader, n)
  {
    OperateKeeps(s.leader, op);
  }

  lemma AppendKeeps(setup: Setup, s: System, value: string)
    requires Inv(setup, s) && NoSpace(value)
    ensures Inv(setup, Appended(s, value))
  {
    var t := Appended(s, value);
    LeaderOperates(s, SegmentedLog.ProduceOp(value, s.now));
    if s.leader.intact {
      IntactIsOrderly(s.leader);
    }
    LeaderKeeps(setup, s, t);
  }

  lemma ReadLastKeeps(setup: Setup, s: System)
    requires Inv(setup, s)
    ensures Inv(setup, s.(lastOffsets := s.lastOffsets + {LastOf(s.leader)}))
  {
    if s.leader.intact {
      IntactIsOrderly(s.leader);
    }
    LeaderKeeps(setup, s, s.(lastOffsets := s.lastOffsets + {LastOf(s.leader)}));
  }

  lemma RestartLeaderKeeps(setup: Setup, s: System)
    requires Inv(setup, s)
    ensures Inv(setup, LeaderReloaded(setup, s))
  {
    LeaderOperates(s, SegmentedLog.RestartOp(s.now));
    InitialLawful(setup.cfg);
    LeaderKeeps(setup, s, LeaderReloaded(setup, s));
  }

  lemma RetainLeaderKeeps(setup: Setup, s: System)
    requires Inv(setup, s)
    ensures Inv(setup, s.(leader := Operate(s.leader, SegmentedLog.RetainOp(s.now))))
  {
    LeaderOperates(s, SegmentedLog.RetainOp(s.now));
    LeaderKeeps(setup, s, s.(leader := Operate(s.leader, SegmentedLog.RetainOp(s.now))));
  }

  lemma TickKeeps(setup: Setup, s: System, now: int)
    requires Inv(setup, s)
    ensures Inv(setup, s.(now := now))
  {
    LeaderKeeps(setup, s, s.(now := now));
  }

  // ---- Manager calls ----

  /** The calls of this protocol: offsets reported are stored on the leader, offsets acked are
      stored on their follower. */
  ghost predicate Backed(s: System, call: Call) {
    match call
    case OnLeaderAppend(offset) => s.leader.intact ==> offset < |s.leader.values|
    case AckReplica(id, offset) => Stored(s, id, offset)
    case Observe => true
    case SetRole(role) => role == LEADER
    case BootstrapOffset(offset) => s.leader.intact ==> offset < |s.leader.values|
  }

  lemma CallKeepsAcks(setup: Setup, s: System, call: Call)
    requires Inv(setup, s) && Backed(s, call)
    ensures GoodAcks(Manage(setup, s, call))
  {
    var t := Manage(setup, s, call);
    forall id | id in t.manager.followers && t.manager.followers[id].offset >= 0
      ensures Stored(t, id, t.manager.followers[id].offset)
    {
      assert id in s.manager.followers;
      if t.manager.followers[id].offset != s.manager.followers[id].offset {
        assert call.AckReplica? && call.id == id && t.manager.followers[id].offset <= call.offset;
      }
    }
    assert forall ack :: ack in t.acks ==> Stored(s, ack.id, ack.offset) && Stored(t, ack.id, ack.offset);
  }

  lemma CallKeeps(setup: Setup, s: System, call: Call)
    requires Inv(setup, s) && Backed(s, call)
    ensures Inv(setup, Manage(setup, s, call))
    ensures Grows(s.manager, Manage(setup, s, call).manager)
  {
    ApplyLawful(setup.cfg, s.manager, call, s.now);
    CallKeepsAcks(setup, s, call);
  }

  lemma ReportKeeps(setup: Setup, s: System, offset: int)
    requires Inv(setup, s) && offset in s.inFlight
    ensures Inv(setup, Manage(setup, s, OnLeaderAppend(offset)).(inFlight := s.inFlight - {offset}))
  {
    var t := Manage(setup, s, OnLeaderAppend(offset));
    CallKeeps(setup, s, OnLeaderAppend(offset));
    assert offset <= t.manager.leaderOffset;
    LeaderKeeps(setup, t, t.(inFlight := s.inFlight - {offset}));
  }

  lemma BootstrapKeeps(setup: Setup, s: System, offset: int)
    requires Inv(setup, s) && offset in s.lastOffsets
    ensures Inv(setup, Manage(setup, Manage(setup, s, SetRole(LEADER)), BootstrapOffset(offset)))
  {
    CallKeeps(setup, s, SetRole(LEADER));
    CallKeeps(setup, Manage(setup, s, SetRole(LEADER)), BootstrapOffset(offset));
  }

  lemma DeliverAckKeeps(setup: Setup, s: System, ack: Ack)
    requires Inv(setup, s) && ack in s.acks
    ensures Inv(setup, Manage(setup, s, AckReplica(ack.id, ack.offset)))
  {
    assert Stored(s, ack.id, ack.offset);
    CallKeeps(setup, s, AckReplica(ack.id, ack.offset));
  }

  // ---- Fetches ----

  lemma ServedConsecutive(n: Node, messages: seq<Message>, offset: int, max: int)
    requires Orderly(n) && PartitionHistory.Consume(n.log.cache, offset) == Some(messages)
    ensures Consecutive(Take(messages, max), n.values)
    ensures NoSpaceValues(n.values) ==> NoSpaces(Take(messages, max))
  {
    PartitionHistory.ConsumeSkipsByIndex(HistoryOf(n), offset);
    assert Consecutive(messages, n.values);
  }

  lemma ServeReply(setup: Setup, s: System, request: Request, sequence: nat, hw: int, messages: seq<Message>)
    requires GoodManager(setup, s) && GoodLeader(s)
    requires PartitionHistory.Consume(s.leader.log.cache, request.offset) == Some(messages)
    ensures var read := Transfer(sequence, setup.topic, setup.partition, request.id, hw, Take(messages, request.max));
            read.Some? ==> GoodReply(s.leader, Reply(request.id, read.value.1))
  {
    var records := Take(messages, request.max);
    TransferCommaFree(sequence, setup.topic, setup.partition, request.id, hw, records);
    if s.leader.intact {
      IntactIsOrderly(s.leader);
      ServedConsecutive(s.leader, messages, request.offset, request.max);
      TransferIsArrival(sequence, setup.topic, setup.partition, request.id, hw, records);
      if Arrival(records).Some? {
        var all := Arrival(records).value;
        forall next, j | InLine(next, all, j)
          ensures Possible(all[j], s.leader.values)
        {
          ArrivalChained(records, all, s.leader.values, next, j);
        }
      }
    }
  }

  /** Changing only the messages on the wire. */
  lemma WireKeeps(setup: Setup, s: System, t: System)
    requires Inv(setup, s) && t == s.(replies := t.replies, requests := t.requests) && GoodReplies(t)
    ensures Inv(setup, t)
  {
    assert forall id, o :: Stored(s, id, o) ==> Stored(t, id, o);
  }

  lemma ServeKeeps(setup: Setup, s: System, request: Request, sequence: nat, hw: int)
    requires Inv(setup, s) && request in s.requests
    ensures Inv(setup, Served(setup, s, request, sequence, hw))
  {
    var consumed := PartitionHistory.Consume(s.leader.log.cache, request.offset);
    if consumed.Some? {
      ServeReply(setup, s, request, sequence, hw, consumed.value);
    }
    WireKeeps(setup, s, Served(setup, s, request, sequence, hw));
  }

  lemma AdmitKeeps(setup: Setup, s: System, id: int, max: int)
    requires Inv(setup, s) && id in s.followers
    ensures Inv(setup, Admitted(setup, s, id, max))
  {
    CallKeeps(setup, s, Observe);
    WireKeeps(setup, Manage(setup, s, Observe), Admitted(setup, s, id, max));
  }

  // ---- Followers ----

  /** Replacing one follower by a good one that stores no less. */
  lemma FollowerKeeps(setup: Setup, s: System, id: int, f: Follower)
    requires Inv(setup, s) && id in s.followers && GoodFollower(s.leader, f) && Succeeds(s.followers[id].store, f.store)
    ensures Inv(setup, WithFollower(s, id, f))
  {
    var t := WithFollower(s, id, f);
    assert forall k, o :: Stored(s, k, o) ==> Stored(t, k, o);
  }

  lemma WorkerKeeps(setup: Setup, s: System, id: int, w: Worker)
    requires Inv(setup, s) && id in s.followers
    requires GoodPosition(s.followers[id].(worker := w)) && GoodRest(s.leader, w)
    ensures Inv(setup, WithWorker(s, id, w))
  {
    assert GoodFollower(s.leader, s.followers[id]);
    FollowerKeeps(setup, s, id, s.followers[id].(worker := w));
  }

  lemma ReceiveKeeps(setup: Setup, s: System, id: int, reply: Reply)
    requires Inv(setup, s) && id in s.followers && reply in s.replies
    ensures Inv(setup, WithWorker(s, id, Received(s.followers[id].worker.next, reply)))
  {
    assert GoodReply(s.leader, reply) && GoodFollower(s.leader, s.followers[id]);
    WorkerKeeps(setup, s, id, Received(s.followers[id].worker.next, reply));
  }

  lemma RestChained(next: int, rest: seq<Message>, values: seq<string>)
    requires Chained(next, rest, values) && rest != [] && rest[0].offset == next
    ensures Possible(rest[0], values) && Chained(next + 1, rest[1..], values)
  {
    assert InLine(next, rest, 0);
    forall j | InLine(next + 1, rest[1..], j)
      ensures Possible(rest[1..][j], values)
    {
      forall i | 0 <= i <= j + 1
        ensures rest[i].offset == next + i
      {
        if i > 0 { assert rest[1..][i - 1] == rest[i]; }
      }
      assert InLine(next, rest, j + 1);
    }
  }

  lemma CopiesSnoc(mine: seq<string>, value: string, values: seq<string>)
    requires Copies(mine, values) && Possible(Message(|mine|, value), values)
    ensures Copies(mine + [value], values)
  {
    forall i | 0 <= i < |mine + [value]|
      ensures Possible(Message(i, (mine + [value])[i]), values)
    {
      if i < |mine| {
        assert (mine + [value])[i] == mine[i];
      }
    }
  }

  /** Storing a record that passed both checks. */
  lemma StoreGood(leader: Node, n: Node, m: Message, now: int)
    requires GoodStore(n) && GoodCopies(leader, n) && CommaFree(m) && m.offset <= n.log.nextOffset
    requires leader.intact ==> Possible(m, leader.values)
    ensures var after := Operate(n, SegmentedLog.ReplicateOp(m.offset, m.value, now));
            && GoodStore(after) && GoodCopies(leader, after) && Succeeds(n, after)
            && m.offset < after.reach && (after.intact ==> m.offset < |after.values|)
  {
    var op := SegmentedLog.ReplicateOp(m.offset, m.value, now);
    var after := Operate(n, op);
    OperateKeeps(n, op);
    if after.intact {
      IntactIsOrderly(n);
      IntactIsOrderly(after);
      if leader.intact && m.offset == n.log.nextOffset {
        CopiesSnoc(n.values, m.value, leader.values);
      }
    }
  }

  /** A record that passes both contiguity checks extends the follower's log. */
  lemma ApplyGood(leader: Node, f: Follower, now: int)
    requires GoodFollower(leader, f) && f.worker.Applying? && f.worker.rest != []
    ensures GoodFollower(leader, ApplyNext(f, now)) && Succeeds(f.store, ApplyNext(f, now).store)
  {
    var w, m := f.worker, f.worker.rest[0];
    if m.offset == w.next && m.offset <= f.store.log.nextOffset {
      assert CommaFree(m);
      if leader.intact {
        RestChained(w.next, w.rest, leader.values);
      }
      StoreGood(leader, f.store, m, now);
      assert AllCommaFree(w.rest[1..]);
    }
  }

  lemma SendAckKeeps(setup: Setup, s: System, id: int)
    requires Inv(setup, s) && id in s.followers && s.followers[id].worker.Applying?
    ensures Inv(setup, AckSent(s, id))
  {
    var f := s.followers[id];
    assert GoodFollower(s.leader, f);
    var t, u := WithWorker(s, id, Idle(f.worker.next)), AckSent(s, id);
    WorkerKeeps(setup, s, id, Idle(f.worker.next));
    assert u == t.(acks := u.acks);
    assert forall k, o :: Stored(t, k, o) ==> Stored(u, k, o);
    assert Stored(t, id, f.worker.last);
  }

  lemma LastOfOrderly(n: Node)
    requires Orderly(n)
    ensures LastOf(n) == |n.values| - 1
  {
  }

  lemma RestartWorkerKeeps(setup: Setup, s: System, id: int)
    requires Inv(setup, s) && id in s.followers
    ensures Inv(setup, WithWorker(s, id, Idle(LastOf(s.followers[id].store) + 1)))
  {
    var n := s.followers[id].store;
    assert GoodFollower(s.leader, s.followers[id]);
    if n.intact {
      IntactIsOrderly(n);
      LastOfOrderly(n);
    }
    WorkerKeeps(setup, s, id, Idle(LastOf(n) + 1));
  }

  lemma ReloadGood(leader: Node, f: Follower, op: SegmentedLog.Op)
    requires GoodFollower(leader, f) && (op.RestartOp? || op.RetainOp?)
    ensures var n := Operate(f.store, op);
            && GoodFollower(leader, f.(store := n)) && Succeeds(f.store, n)
            && GoodFollower(leader, Follower(n, Idle(LastOf(n) + 1)))
  {
    var n := Operate(f.store, op);
    OperateKeeps(f.store, op);
    assert n.values == f.store.values;
    if n.intact {
      IntactIsOrderly(n);
      LastOfOrderly(n);
    }
  }

  lemma ApplyRecordKeeps(setup: Setup, s: System, id: int)
    requires Inv(setup, s) && id in s.followers && s.followers[id].worker.Applying? && s.followers[id].worker.rest != []
    ensures Inv(setup, WithFollower(s, id, ApplyNext(s.followers[id], s.now)))
  {
    assert GoodFollower(s.leader, s.followers[id]);
    ApplyGood(s.leader, s.followers[id], s.now);
    FollowerKeeps(setup, s, id, ApplyNext(s.followers[id], s.now));
  }

  lemma RestartFollowerKeeps(setup: Setup, s: System, id: int)
    requires Inv(setup, s) && id in s.followers
    ensures Inv(setup, WithFollower(s, id, Reloaded(s.followers[id], s.now)))
  {
    var f := s.followers[id];
    assert GoodFollower(s.leader, f);
    ReloadGood(s.leader, f, SegmentedLog.RestartOp(s.now));
    FollowerKeeps(setup, s, id, Reloaded(f, s.now));
  }

  lemma RetainFollowerKeeps(setup: Setup, s: System, id: int)
    requires Inv(setup, s) && id in s.followers
    ensures Inv(setup, WithFollower(s, id, Trimmed(s.followers[id], s.now)))
  {
    var f := s.followers[id];
    assert GoodFollower(s.leader, f);
    ReloadGood(s.leader, f, SegmentedLog.RetainOp(s.now));
    FollowerKeeps(setup, s, id, Trimmed(f, s.now));
  }

  lemma FetchStateKeeps(setup: Setup, s: System, id: int)
    requires Inv(setup, s) && id in s.followers
    ensures Inv(setup, WithWorker(s, id, Fetching(s.followers[id].worker.next)))
    ensures Inv(setup, WithWorker(s, id, Idle(s.followers[id].worker.next)))
  {
    assert GoodFollower(s.leader, s.followers[id]);
    WorkerKeeps(setup, s, id, Fetching(s.followers[id].worker.next));
    WorkerKeeps(setup, s, id, Idle(s.followers[id].worker.next));
  }

  /** The steps of a fetch, from the request to the acknowledgement, and of a follower's own log. */
  lemma FetchStepKeeps(setup: Setup, s: System, step: Step)
    requires Inv(setup, s) && Enabled(s, step)
    requires
      || step.StartFetch? || step.AbortFetch? || step.Admit? || step.Serve? || step.Receive? || step.ApplyRecord?
      || step.SendAck? || step.DeliverAck? || step.RestartWorker? || step.RestartFollower? || step.RetainFollower?
    ensures Inv(setup, Next(setup, s, step))
  {
    match step
    case StartFetch(id) => FetchStateKeeps(setup, s, id);
    case AbortFetch(id) => FetchStateKeeps(setup, s, id);
    case Admit(id, max) => AdmitKeeps(setup, s, id, max);
    case Serve(request, sequence, hw) => ServeKeeps(setup, s, request, sequence, hw);
    case Receive(id, reply) => ReceiveKeeps(setup, s, id, reply);
    case ApplyRecord(id) => ApplyRecordKeeps(setup, s, id);
    case SendAck(id) => SendAckKeeps(setup, s, id);
    case DeliverAck(ack) => DeliverAckKeeps(setup, s, ack);
    case RestartWorker(id) => RestartWorkerKeeps(setup, s, id);
    case RestartFollower(id) => RestartFollowerKeeps(setup, s, id);
    case RetainFollower(id) => RetainFollowerKeeps(setup, s, id);
  }

  /** Every step keeps the invariant. */
  lemma NextKeeps(setup: Setup, s: System, step: Step)
    requires Inv(setup, s) && Enabled(s, step)
    ensures Inv(setup, Next(setup, s, step))
  {
    match step
    case Append(value) => AppendKeeps(setup, s, value);
    case Report(offset) => ReportKeeps(setup, s, offset);
    case ReadLast => ReadLastKeeps(setup, s);
    case Bootstrap(offset) => BootstrapKeeps(setup, s, offset);
    case Poll => CallKeeps(setup, s, Observe);
    case Tick(now) => TickKeeps(setup, s, now);
    case RestartLeader => RestartLeaderKeeps(setup, s);
    case RetainLeader => RetainLeaderKeeps(setup, s);
    case _ => FetchStepKeeps(setup, s, step);
  }
}
