/** One replication cycle: what the leader serves a worker, as it arrives, and what the worker makes of
    it; and the steps of the protocol that run it. */
module FetchCycles {
  import opened Text
  import opened LogLine
  import opened FetchCodec
  import opened ReplicationState
  import opened StorageContract
  import opened ReplicationProtocol
  import opened ReplicationTheorems
  import opened PartitionHistory
  import FollowerWorker

  /** handleBrokerFetch for a worker at next: nothing past the offset that the manager knows of, else the
      records as they arrive. None is a reply that cannot be read. */
  function Fetched(h: History, leaderOffset: int, next: nat, max: int): Option<seq<Message>>
    requires Valid(h)
  {
    ConsumeSkipsByIndex(h, next);
    if leaderOffset < 0 || next > leaderOffset then Some([])
    else Arrival(Take(Consume(Cache(h), next).value, max))
  }

  /** One cycle of a worker at next over a store that holds mine; a reply that cannot be read fails it. */
  function Cycle(h: History, leaderOffset: int, mine: seq<string>, next: nat, max: int): FollowerWorker.Progress
    requires Valid(h)
  {
    var start := FollowerWorker.Start(mine, next);
    match Fetched(h, leaderOffset, next, max)
    case None => start.(failed := true)
    case Some(records) => FollowerWorker.ApplyAll(start, records)
  }

  /** A worker that is behind makes progress if and only if the manager knows of the record it asks for,
      the leader has dropped nothing and the reply can be read. Otherwise it stays where it is,
      whatever the commas: the reply is empty, or cannot be read, or is refused by the gap check at
      its first record. */
  lemma FetchProgress(h: History, leaderOffset: int, mine: seq<string>, next: nat, max: int)
    requires Valid(h) && next <= |mine| && max > 0 && next < |h.values|
    ensures var p, start := Cycle(h, leaderOffset, mine, next, max), FollowerWorker.Start(mine, next);
            var arrived := Fetched(h, leaderOffset, next, max);
            && (p.applied > 0 <==> next <= leaderOffset && h.base == 0 && arrived.Some?)
            && (next > leaderOffset || h.base > 0 || arrived.None? ==>
                  p == start.(failed := next <= leaderOffset && next < |Cache(h)|))
  {
    ConsumeSkipsByIndex(h, next);
    var records := Take(Consume(Cache(h), next).value, max);
    var start := FollowerWorker.Start(mine, next);
    NothingArrives();
    if next > leaderOffset || records == [] {
      assert FollowerWorker.ApplyAll(start, []) == start;
    } else if Arrival(records).Some? {
      ArrivalHead(records);
      var out := Arrival(records).value;
      assert out[0].offset == h.base + next;
      if h.base > 0 {
        assert FollowerWorker.ApplyAll(start, out) == FollowerWorker.ApplyOne(start, out[0]);
      } else {
        FollowerWorker.FirstApplied(start, out);
      }
    }
  }

  function Least(a: int, b: int): int {
    if a <= b then a else b
  }

  /** A worker at its store's end gets exactly the leader's next records if and only if the manager knows
      of the first of them, the leader has dropped nothing, and none of them has a comma. */
  lemma FetchExact(h: History, leaderOffset: int, mine: seq<string>, max: int)
    requires Valid(h) && max > 0 && |mine| < |h.values|
    ensures var records := Slice(h.values, |mine|, Least(|mine| + max, |h.values|));
            var p := Cycle(h, leaderOffset, mine, |mine|, max);
            !p.failed && p.values == mine + FollowerWorker.Values(records)
            <==> |mine| <= leaderOffset && h.base == 0 && AllCommaFree(records)
  {
    var records := Slice(h.values, |mine|, Least(|mine| + max, |h.values|));
    if |mine| > leaderOffset || h.base > 0 {
      FetchProgress(h, leaderOffset, mine, |mine|, max);
      assert |mine + FollowerWorker.Values(records)| > |mine|;
    } else {
      ServedExact(h, leaderOffset, mine, max, records);
    }
  }

  /** What the leader reads for a worker at n, as long as nothing was dropped. */
  lemma ServedRecords(h: History, n: nat, max: int, records: seq<Message>)
    requires Valid(h) && max > 0 && n < |h.values| && h.base == 0
    requires records == Slice(h.values, n, Least(n + max, |h.values|))
    ensures Consume(Cache(h), n).Some? && Take(Consume(Cache(h), n).value, max) == records
  {
    var all := Consume(Cache(h), n).value;
    assert |all| == |h.values| - n;
    assert forall i :: 0 <= i < |all| ==> all[i] == Message(n + i, h.values[n + i]);
  }

  lemma ServedExact(h: History, leaderOffset: int, mine: seq<string>, max: int, records: seq<Message>)
    requires Valid(h) && max > 0 && |mine| < |h.values| && |mine| <= leaderOffset && h.base == 0
    requires records == Slice(h.values, |mine|, Least(|mine| + max, |h.values|))
    ensures var p := Cycle(h, leaderOffset, mine, |mine|, max);
            !p.failed && p.values == mine + FollowerWorker.Values(records) <==> AllCommaFree(records)
  {
    ServedRecords(h, |mine|, max, records);
    var start := FollowerWorker.Start(mine, |mine|);
    if AllCommaFree(records) {
      CommaFreeArrive(records);
      AppliedWhole(start, records);
    } else if Arrival(records).Some? {
      ArrivalCommaFree(records);
      FollowerWorker.StoredFrom(start, Arrival(records).value);
      CommaBlocks(mine, records, FollowerWorker.ApplyAll(start, Arrival(records).value).values);
    }
  }

  /** A batch in line with the store's end is stored whole. */
  lemma AppliedWhole(start: FollowerWorker.Progress, records: seq<Message>)
    requires !start.failed && start.next == |start.values|
    requires forall i :: 0 <= i < |records| ==> records[i].offset == start.next + i
    ensures var p := FollowerWorker.ApplyAll(start, records);
            !p.failed && p.values == start.values + FollowerWorker.Values(records)
  {
    FollowerWorker.BatchMeaning(start, records, |records|);
    assert records[0..|records|] == records;
  }

  lemma CommaBlocks(mine: seq<string>, records: seq<Message>, stored: seq<string>)
    requires !AllCommaFree(records) && |mine| <= |stored|
    requires forall i :: |mine| <= i < |stored| ==> !HasComma(stored[i])
    ensures stored != mine + FollowerWorker.Values(records)
  {
    var k :| 0 <= k < |records| && !CommaFree(records[k]);
    var all := mine + FollowerWorker.Values(records);
    assert all[|mine| + k] == records[k].value;
  }

  // ---- The cycle as steps of the protocol ----

  /** The worker's position as the worker's own loop sees it. */
  function ProgressOf(f: Follower, applied: int): FollowerWorker.Progress
    requires f.worker.Applying?
  {
    FollowerWorker.Progress(f.store.values, f.worker.next, applied, f.worker.last, false)
  }

  /** A follower's turn in the protocol is a turn of the worker's loop on its history. */
  lemma TurnIsWorkers(f: Follower, now: int, applied: int)
    requires f.worker.Applying? && f.worker.rest != [] && f.store.intact && Orderly(f.store)
    requires ApplyNext(f, now).store.intact
    ensures var g, p := ApplyNext(f, now), FollowerWorker.ApplyOne(ProgressOf(f, applied), f.worker.rest[0]);
            if p.failed then g == f.(worker := Idle(p.next)) && p.next == f.worker.next && p.values == f.store.values
            else g.worker.Applying? && g.worker.rest == f.worker.rest[1..] && p == ProgressOf(g, applied + 1)
  {
    assert f.store.values + [] == f.store.values;
  }

  /** Where a worker's loop ends: at rest with nothing more to apply, or idle after a refusal. */
  ghost predicate Ended(f: Follower, p: FollowerWorker.Progress) {
    f.store.values == p.values && f.worker == if p.failed then Idle(p.next) else Applying(p.next, [], p.last)
  }

  /** What the turns of one worker leave alone. */
  ghost predicate OnlyFollower(s: System, t: System, id: int) {
    t == s.(followers := t.followers) && id in s.followers && id in t.followers
    && Succeeds(s.followers[id].store, t.followers[id].store)
  }

  lemma Refused(f: Follower, now: int, applied: int)
    requires f.worker.Applying? && f.worker.rest != [] && f.store.intact && Orderly(f.store)
    requires ApplyNext(f, now).worker.Idle?
    ensures Ended(ApplyNext(f, now), FollowerWorker.ApplyAll(ProgressOf(f, applied), f.worker.rest))
  {
    TurnIsWorkers(f, now, applied);
    var p := FollowerWorker.ApplyOne(ProgressOf(f, applied), f.worker.rest[0]);
    assert FollowerWorker.ApplyAll(ProgressOf(f, applied), f.worker.rest) == p;
  }

  lemma Advanced(f: Follower, now: int, applied: int)
    requires f.worker.Applying? && f.worker.rest != [] && f.store.intact && Orderly(f.store)
    requires ApplyNext(f, now).worker.Applying? && ApplyNext(f, now).store.intact
    ensures var g := ApplyNext(f, now);
            FollowerWorker.ApplyAll(ProgressOf(f, applied), f.worker.rest)
            == FollowerWorker.ApplyAll(ProgressOf(g, applied + 1), g.worker.rest)
  {
    TurnIsWorkers(f, now, applied);
  }

  /** The worker's turns over a whole reply, with nothing in between. */
  lemma {:induction false} ApplyRuns(setup: Setup, s: System, id: int, applied: int)
    returns (states: seq<System>, steps: seq<Step>)
    requires Inv(setup, s) && id in s.followers && s.followers[id].worker.Applying?
    ensures Path(setup, states, steps) && states[0] == s
    ensures var t, f := Last(states), s.followers[id];
            && OnlyFollower(s, t, id)
            && (t.followers[id].worker.Idle? || (t.followers[id].worker.Applying? && t.followers[id].worker.rest == []))
            && (t.followers[id].store.intact ==>
                  Ended(t.followers[id], FollowerWorker.ApplyAll(ProgressOf(f, applied), f.worker.rest)))
    decreases |s.followers[id].worker.rest|
  {
    var f := s.followers[id];
    if f.worker.rest == [] {
      states, steps := [s], [];
    } else {
      var g := ApplyNext(f, s.now);
      var u := WithFollower(s, id, g);
      assert Leads(setup, s, ApplyRecord(id), u);
      NextKeeps(setup, s, ApplyRecord(id));
      assert GoodFollower(s.leader, f);
      ApplyGood(s.leader, f, s.now);
      if f.store.intact {
        IntactIsOrderly(f.store);
      }
      if g.worker.Idle? {
        states, steps := [s, u], [ApplyRecord(id)];
        if f.store.intact {
          Refused(f, s.now, applied);
        }
      } else {
        var b, ys := ApplyRuns(setup, u, id, applied + 1);
        StepThen(setup, s, ApplyRecord(id), b, ys);
        states, steps := [s] + b, [ApplyRecord(id)] + ys;
        SucceedsTransitive(f.store, g.store, Last(b).followers[id].store);
        if Last(b).followers[id].store.intact {
          Advanced(f, s.now, applied);
        }
      }
    }
  }

  /** The worker asks; the leader's guard sends nothing back. */
  lemma AskedInVain(setup: Setup, s: System, id: int, max: int) returns (states: seq<System>, steps: seq<Step>)
    requires Inv(setup, s) && id in s.followers && s.followers[id].worker.Idle? && max > 0
    requires s.manager.leaderOffset < 0 || s.followers[id].worker.next > s.manager.leaderOffset
    ensures Path(setup, states, steps) && states[0] == s
    ensures steps == [StartFetch(id), Admit(id, max), Receive(id, Reply(id, []))]
    ensures var t := Last(states);
            && id in t.followers && t.followers[id] == s.followers[id] && t.leader == s.leader
            && t.manager.leaderOffset == s.manager.leaderOffset
  {
    var next := s.followers[id].worker.next;
    var u := WithWorker(s, id, Fetching(next));
    var v := Admitted(setup, u, id, max);
    var reply := Reply(id, []);
    var t := WithWorker(v, id, Received(next, reply));
    states, steps := [s, u, v, t], [StartFetch(id), Admit(id, max), Receive(id, reply)];
    assert Leads(setup, s, steps[0], u);
    assert Leads(setup, u, steps[1], v);
    assert Leads(setup, v, steps[2], t);
  }

  /** The worker asks and the leader lets the request in. */
  lemma Asked(setup: Setup, s: System, id: int, max: int) returns (states: seq<System>, steps: seq<Step>)
    requires Inv(setup, s) && id in s.followers && s.followers[id].worker.Idle? && max > 0
    requires 0 <= s.manager.leaderOffset && s.followers[id].worker.next <= s.manager.leaderOffset
    ensures Path(setup, states, steps) && states[0] == s && Inv(setup, Last(states))
    ensures var t, next := Last(states), s.followers[id].worker.next;
            && t.leader == s.leader && Request(id, next, max) in t.requests
            && id in t.followers && t.followers[id] == s.followers[id].(worker := Fetching(next))
  {
    var u := WithWorker(s, id, Fetching(s.followers[id].worker.next));
    var v := Admitted(setup, u, id, max);
    states, steps := [s, u, v], [StartFetch(id), Admit(id, max)];
    assert Leads(setup, s, steps[0], u);
    assert Leads(setup, u, steps[1], v);
    FetchStateKeeps(setup, s, id);
    AdmitKeeps(setup, u, id, max);
  }

  /** What serving a request adds to the wire. */
  lemma ServesArrival(setup: Setup, s: System, request: Request)
    requires Inv(setup, s) && s.leader.intact && request.offset >= 0 && Orderly(s.leader)
    ensures var messages := Consume(s.leader.log.cache, request.offset);
            && messages.Some?
            && Served(setup, s, request, 0, 0)
               == match Arrival(Take(messages.value, request.max))
                  case None => s
                  case Some(records) => s.(replies := s.replies + {Reply(request.id, records)})
  {
    ConsumeSkipsByIndex(HistoryOf(s.leader), request.offset);
    var messages := Consume(s.leader.log.cache, request.offset).value;
    ServedConsecutive(s.leader, messages, request.offset, request.max);
    TransferIsArrival(0, setup.topic, setup.partition, request.id, 0, Take(messages, request.max));
  }

  lemma Unreadable(setup: Setup, s: System, id: int, request: Request) returns (states: seq<System>, steps: seq<Step>)
    requires Inv(setup, s) && request in s.requests && Served(setup, s, request, 0, 0) == s
    requires id in s.followers && s.followers[id].worker == Fetching(request.offset)
    ensures Path(setup, states, steps) && states[0] == s && Inv(setup, Last(states))
    ensures Last(states) == WithWorker(s, id, Idle(request.offset))
  {
    var t := WithWorker(s, id, Idle(request.offset));
    states, steps := [s, s, t], [Serve(request, 0, 0), AbortFetch(id)];
    assert Leads(setup, s, steps[0], s);
    assert Leads(setup, s, steps[1], t);
    FetchStateKeeps(setup, s, id);
  }

  lemma Delivered(setup: Setup, s: System, u: System, id: int, request: Request, records: seq<Message>)
    returns (states: seq<System>, steps: seq<Step>)
    requires Inv(setup, s) && request in s.requests && Served(setup, s, request, 0, 0) == u
    requires u == s.(replies := s.replies + {Reply(id, records)})
    requires id in s.followers && s.followers[id].worker == Fetching(request.offset)
    ensures Path(setup, states, steps) && states[0] == s && Inv(setup, Last(states))
    ensures Last(states) == WithWorker(u, id, Received(request.offset, Reply(id, records)))
  {
    var reply := Reply(id, records);
    var t := WithWorker(u, id, Received(request.offset, reply));
    states, steps := [s, u, t], [Serve(request, 0, 0), Receive(id, reply)];
    assert Leads(setup, s, steps[0], u);
    assert Leads(setup, u, steps[1], t);
    ServeKeeps(setup, s, request, 0, 0);
    ReceiveKeeps(setup, u, id, reply);
  }

  /** The request is served and its reply, if it can be read, received. */
  lemma Answered(setup: Setup, s: System, id: int, request: Request, arrived: Option<seq<Message>>)
    returns (states: seq<System>, steps: seq<Step>)
    requires Inv(setup, s) && s.leader.intact && Orderly(s.leader) && request in s.requests
    requires id in s.followers && s.followers[id].worker == Fetching(request.offset) && request.id == id
    requires request.offset >= 0
    requires Consume(s.leader.log.cache, request.offset).Some?
    requires arrived == Arrival(Take(Consume(s.leader.log.cache, request.offset).value, request.max))
    ensures Path(setup, states, steps) && states[0] == s && Inv(setup, Last(states))
    ensures var t := Last(states);
            && t.leader == s.leader && id in t.followers
            && t.followers[id] == s.followers[id].(worker := Answer(request.offset, arrived))
  {
    ServesArrival(setup, s, request);
    var u := Served(setup, s, request, 0, 0);
    if arrived.None? {
      states, steps := Unreadable(setup, s, id, request);
    } else {
      states, steps := Delivered(setup, s, u, id, request, arrived.value);
    }
  }

  /** The worker after a fetch; None is a reply that cannot be read. */
  function Answer(next: int, arrived: Option<seq<Message>>): Worker {
    match arrived
    case None => Idle(next)
    case Some(records) => if records == [] then Idle(next) else Applying(next, records, -1)
  }

  /** The ack, if the loop ended without a refusal. */
  lemma AckedRuns(setup: Setup, s: System, id: int) returns (states: seq<System>, steps: seq<Step>)
    requires id in s.followers
    requires s.followers[id].worker.Idle? || (s.followers[id].worker.Applying? && s.followers[id].worker.rest == [])
    ensures Path(setup, states, steps) && states[0] == s
    ensures var t, w := Last(states), s.followers[id].worker;
            && t.leader == s.leader && id in t.followers
            && t.followers[id] == s.followers[id].(worker := Idle(w.next))
            && (w.Applying? && w.last >= 0 ==> Ack(id, w.last) in t.acks)
  {
    if s.followers[id].worker.Idle? {
      states, steps := [s], [];
    } else {
      var t := AckSent(s, id);
      states, steps := [s, t], [SendAck(id)];
      assert Leads(setup, s, SendAck(id), t);
    }
  }

  /** How a cycle that was not disturbed leaves its follower. */
  ghost predicate CycleDone(t: System, id: int, p: FollowerWorker.Progress) {
    && id in t.followers && t.followers[id].worker.Idle?
    && (t.followers[id].store.intact ==>
          && t.followers[id].store.values == p.values && t.followers[id].worker.next == p.next
          && (!p.failed && p.last >= 0 ==> Ack(id, p.last) in t.acks))
  }

  /** From every state of the protocol the steps of one cycle lead to what Cycle says, and the last applied
      offset is acked if nothing was refused. The leader is intact, and the follower is at the end
      unless it stored a record that is not readable. */
  lemma CycleRuns(setup: Setup, s: System, id: int, max: int) returns (states: seq<System>, steps: seq<Step>)
    requires Inv(setup, s) && s.leader.intact && Orderly(s.leader)
    requires id in s.followers && s.followers[id].worker.Idle? && s.followers[id].store.intact && max > 0
    ensures Path(setup, states, steps) && states[0] == s && s.followers[id].worker.next >= 0
    ensures var f := s.followers[id];
            CycleDone(Last(states), id,
                Cycle(HistoryOf(s.leader), s.manager.leaderOffset, f.store.values, f.worker.next, max))
  {
    assert GoodFollower(s.leader, s.followers[id]);
    var next, lead := s.followers[id].worker.next, s.manager.leaderOffset;
    if lead < 0 || next > lead {
      states, steps := AskedInVain(setup, s, id, max);
    } else {
      states, steps := Asked(setup, s, id, max);
      var b, ys := AnsweredRuns(setup, Last(states), id, next, max, lead);
      PathJoin(setup, states, steps, b, ys);
      states, steps := states + b[1..], steps + ys;
    }
  }

  /** The rest of a cycle once its request was let in. */
  lemma AnsweredRuns(setup: Setup, s: System, id: int, next: nat, max: int, lead: int)
    returns (states: seq<System>, steps: seq<Step>)
    requires Inv(setup, s) && s.leader.intact && Orderly(s.leader) && next <= lead
    requires id in s.followers && s.followers[id].worker == Fetching(next) && s.followers[id].store.intact
    requires Request(id, next, max) in s.requests
    ensures Path(setup, states, steps) && states[0] == s
    ensures CycleDone(Last(states), id, Cycle(HistoryOf(s.leader), lead, s.followers[id].store.values, next, max))
  {
    var arrived := Fetched(HistoryOf(s.leader), lead, next, max);
    ConsumeSkipsByIndex(HistoryOf(s.leader), next);
    states, steps := Answered(setup, s, id, Request(id, next, max), arrived);
    if Last(states).followers[id].worker.Applying? {
      var b, ys := ApplyRuns(setup, Last(states), id, 0);
      PathJoin(setup, states, steps, b, ys);
      states, steps := states + b[1..], steps + ys;
      b, ys := AckedRuns(setup, Last(states), id);
      PathJoin(setup, states, steps, b, ys);
      states, steps := states + b[1..], steps + ys;
    }
  }
}
