/** The coordinator's calls without its helper functions: who is a member after a call, in which order and
    generation, what each member owns, and what each call answers. */
module GroupExact {
  import opened Text
  import opened Ordering
  import opened Assignors
  import opened ConsumerGroups
  import opened GroupTheorems

  // ---- What an assignor gives ----

  /** Where the block of the k-th of m members begins when n partitions are dealt out in blocks. */
  function From(n: nat, m: nat, k: nat): nat
    requires m > 0
  {
    k * (n / m) + if k < n % m then k else n % m
  }

  /** Partition p of n goes to the k-th of m members in ascending order: in blocks, or in turn. */
  predicate Deals(assignor: string, n: nat, m: nat, k: nat, p: int)
    requires m > 0
  {
    if assignor == "range" then From(n, m, k) <= p < From(n, m, k + 1) else 0 <= p < n && p % m == k
  }

  /** The assignor gives partition p of n to this one of the members. */
  ghost predicate Gives(assignor: string, ids: set<string>, n: nat, id: string, p: int) {
    exists members: seq<string>, k: nat ::
      Listing(members, ids) && k < |members| && members[k] == id && Deals(assignor, n, |members|, k, p)
  }

  ghost predicate Listing(members: seq<string>, ids: set<string>) {
    Ascending(StringLeq, members) && Elements(members) == ids
  }

  lemma ListingUnique(a: seq<string>, b: seq<string>, ids: set<string>)
    requires Listing(a, ids) && Listing(b, ids)
    ensures a == b
  {
    StringOrder();
    AscendingUnique(StringLeq, a, b);
  }

  lemma DealtInTurn(members: seq<string>, n: nat, k: nat, p: int)
    requires Distinct(members) && k < |members|
    ensures p in Owned(RoundRobin(members, n), members[k]) <==> 0 <= p < n && p % |members| == k
    ensures Increasing(Owned(RoundRobin(members, n), members[k]))
  {
    RoundRobinOwned(members, n, k);
    assert Slot(p, |members|) == p % |members|;
  }

  lemma DealtInBlocks(members: seq<string>, n: nat, k: nat, p: int)
    requires Distinct(members) && k < |members|
    ensures p in Owned(Range(members, n), members[k]) <==> From(n, |members|, k) <= p < From(n, |members|, k + 1)
    ensures Increasing(Owned(Range(members, n), members[k]))
  {
    RangeOwned(members, n, |members|, k);
    InBlock(n, |members|, k, p);
    StartClosed(n, |members|, k);
    StartClosed(n, |members|, k + 1);
  }

  lemma OnePlace(assignor: string, ids: set<string>, n: nat, id: string, p: int, members: seq<string>, k: nat)
    requires Listing(members, ids) && Distinct(members) && k < |members| && members[k] == id
    ensures Gives(assignor, ids, n, id, p) <==> Deals(assignor, n, |members|, k, p)
  {
    if Gives(assignor, ids, n, id, p) {
      var ms: seq<string>, j: nat :|
        Listing(ms, ids) && j < |ms| && ms[j] == id && Deals(assignor, n, |ms|, j, p);
      ListingUnique(ms, members, ids);
    }
  }

  lemma NotGiven(assignor: string, ids: set<string>, n: nat, id: string, p: int)
    requires id !in ids
    ensures !Gives(assignor, ids, n, id, p)
  {
  }

  lemma DealtAs(assignor: string, members: seq<string>, n: nat, k: nat, p: int, a: Assignment)
    requires Distinct(members) && k < |members|
    requires a == if assignor == RANGE then Range(members, n) else RoundRobin(members, n)
    ensures p in Owned(a, members[k]) <==> Deals(assignor, n, |members|, k, p)
    ensures Increasing(Owned(a, members[k]))
  {
    if assignor == RANGE {
      DealtInBlocks(members, n, k, p);
    } else {
      DealtInTurn(members, n, k, p);
    }
  }

  lemma OwnedByMember(assignor: string, ids: set<string>, n: nat, id: string, p: int, a: Assignment)
    requires id in ids && a == Rebalanced(assignor, ids, n)
    ensures p in Owned(a, id) <==> Gives(assignor, ids, n, id, p)
    ensures Increasing(Owned(a, id))
  {
    StringOrder();
    var members := Sorted(StringLeq, ids);
    var k := IndexIn(members, id);
    DealtAs(assignor, members, n, k, p, a);
    OnePlace(assignor, ids, n, id, p, members, k);
  }

  lemma OwnedByOther(assignor: string, ids: set<string>, n: nat, id: string, a: Assignment)
    requires id !in ids && a == Rebalanced(assignor, ids, n)
    ensures Owned(a, id) == []
  {
    if ids != {} {
      RebalancedExact(assignor, ids, n);
    }
  }

  /** A rebalance gives each member, in ascending order, exactly the partitions that the assignor deals it. */
  lemma OwnedExact(assignor: string, ids: set<string>, n: nat, id: string, p: int)
    ensures p in Owned(Rebalanced(assignor, ids, n), id) <==> Gives(assignor, ids, n, id, p)
    ensures Increasing(Owned(Rebalanced(assignor, ids, n), id))
  {
    var a := Rebalanced(assignor, ids, n);
    if id in ids {
      OwnedByMember(assignor, ids, n, id, p, a);
    } else {
      NotGiven(assignor, ids, n, id, p);
      OwnedByOther(assignor, ids, n, id, a);
    }
  }

  // ---- Membership ----

  /** A member that has not been heard from within the session timeout. */
  predicate Silent(cfg: Settings, g: Group, now: int, id: string) {
    id in g.members && now - g.members[id] > cfg.sessionTimeout
  }

  ghost predicate SomeSilent(cfg: Settings, g: Group, now: int) {
    exists id :: Silent(cfg, g, now, id)
  }

  function One(b: bool): int {
    if b then 1 else 0
  }

  /** The listed ids that are in the set, in order. */
  function Keep(order: seq<string>, ids: set<string>): seq<string> {
    if order == [] then []
    else (if order[0] in ids then [order[0]] else []) + Keep(order[1..], ids)
  }

  lemma {:induction false} KeepSnoc(front: seq<string>, x: string, ids: set<string>)
    ensures Keep(front + [x], ids) == Keep(front, ids) + if x in ids then [x] else []
  {
    if front == [] {
      assert front + [x] == [x] && [x][1..] == [];
    } else {
      var all, rest := front + [x], front[1..];
      KeepSnoc(rest, x, ids);
      assert all[0] == front[0] && all[1..] == rest + [x];
      ConcatAssociative(if front[0] in ids then [front[0]] else [], Keep(rest, ids), if x in ids then [x] else []);
    }
  }

  lemma {:induction false} KeepAll(order: seq<string>, ids: set<string>)
    requires forall id :: id in order ==> id in ids
    ensures Keep(order, ids) == order
  {
    if order == [] {
    } else {
      KeepAll(order[1..], ids);
    }
  }

  lemma {:induction false} SurvivorsKept(cfg: Settings, members: map<string, int>, now: int, order: seq<string>,
                                         ids: set<string>)
    requires forall id :: id in order ==> (id in ids <==> id in members && now - members[id] <= cfg.sessionTimeout)
    ensures Survivors(cfg, members, now, order) == Keep(order, ids)
  {
    if order == [] {
    } else {
      var front, x := order[..|order| - 1], order[|order| - 1];
      assert order == front + [x];
      SurvivorsKept(cfg, members, now, front, ids);
      KeepSnoc(front, x, ids);
    }
  }

  lemma {:induction false} WithoutKept(order: seq<string>, id: string, ids: set<string>)
    requires forall x :: x in order ==> (x in ids <==> x != id)
    ensures Without(order, id) == Keep(order, ids)
  {
    if order == [] {
    } else {
      var front, x := order[..|order| - 1], order[|order| - 1];
      assert order == front + [x];
      WithoutKept(front, id, ids);
      KeepSnoc(front, x, ids);
    }
  }

  lemma {:induction false} KeepTwice(order: seq<string>, ids: set<string>, fewer: set<string>)
    requires fewer <= ids
    ensures Keep(Keep(order, ids), fewer) == Keep(order, fewer)
  {
    if order == [] {
    } else {
      KeepTwice(order[1..], ids, fewer);
      var rest := Keep(order[1..], ids);
      if order[0] in ids {
        assert ([order[0]] + rest)[1..] == rest;
      } else {
        assert Keep(order, ids) == rest;
      }
    }
  }

  // ---- Expiry ----

  /** Expiry drops the silent members and no others, and raises the generation if there were any. */
  ghost predicate Expiry(cfg: Settings, g: Group, now: int, h: Group) {
    && h.topic == g.topic && h.assignor == g.assignor
    && h.generation == g.generation + One(SomeSilent(cfg, g, now))
    && (forall id :: id in h.members <==> id in g.members && !Silent(cfg, g, now, id))
    && (forall id :: id in h.members ==> h.members[id] == g.members[id])
    && h.memberOrder == Keep(g.memberOrder, h.members.Keys)
  }

  lemma ExpiredIff(cfg: Settings, g: Group, now: int)
    requires Whole(g)
    ensures Expired(cfg, g, now) <==> SomeSilent(cfg, g, now)
  {
    var active := Survivors(cfg, g.members, now, g.memberOrder);
    SurvivorsListed(cfg, g.members, now, g.memberOrder);
    assert forall id :: id in g.memberOrder <==> id in Elements(g.memberOrder);
    if SomeSilent(cfg, g, now) {
      var id :| Silent(cfg, g, now, id);
      assert id in g.memberOrder && id !in active;
    } else {
      assert forall id :: id in g.memberOrder ==> !Silent(cfg, g, now, id);
      SurvivorsKept(cfg, g.members, now, g.memberOrder, g.members.Keys);
      KeepAll(g.memberOrder, g.members.Keys);
    }
  }

  lemma ExpireExact(cfg: Settings, g: Group, now: int)
    requires Whole(g)
    ensures Expiry(cfg, g, now, Expire(cfg, g, now))
  {
    var h := Expire(cfg, g, now);
    ExpiredIff(cfg, g, now);
    assert forall id :: id in g.memberOrder <==> id in Elements(g.memberOrder);
    if SomeSilent(cfg, g, now) {
      assert forall id :: id in h.members <==> id in g.members && !Silent(cfg, g, now, id);
      SurvivorsKept(cfg, g.members, now, g.memberOrder, h.members.Keys);
    } else {
      assert h == g && forall id :: id in g.members ==> !Silent(cfg, g, now, id);
      KeepAll(g.memberOrder, g.members.Keys);
    }
  }

  // ---- Calls on a group that exists ----

  /** The generation a call finds after expiry. */
  ghost function Generation(cfg: Settings, g: Group, now: int): int {
    g.generation + One(SomeSilent(cfg, g, now))
  }

  predicate Stays(cfg: Settings, g: Group, now: int, id: string) {
    id in g.members && !Silent(cfg, g, now, id)
  }

  /** The call comes from a member that is still there, with the current generation. */
  ghost predicate Current(cfg: Settings, g: Group, call: Call, now: int)
    requires !call.Join?
  {
    call.generation == Generation(cfg, g, now) && Stays(cfg, g, now, call.id)
  }

  /** What LeaveGroup, SyncGroup, Heartbeat and ValidateCommit make of a group on their topic: expiry, and
      then, for a current call, the departure or the heartbeat and nothing else. */
  ghost predicate Visited(cfg: Settings, g: Group, call: Call, now: int, later: int, r: Group)
    requires !call.Join?
  {
    var current := Current(cfg, g, call, now);
    && r.topic == g.topic && r.assignor == g.assignor
    && r.generation == Generation(cfg, g, now) + One(current && call.Leave?)
    && (forall id :: id in r.members <==> Stays(cfg, g, now, id) && !(current && call.Leave? && id == call.id))
    && (forall id :: id in r.members ==>
          r.members[id] == if current && (call.Sync? || call.Heartbeat?) && id == call.id then later else g.members[id])
    && r.memberOrder == Keep(g.memberOrder, r.members.Keys)
  }

  lemma LeftExact(cfg: Settings, g: Group, h: Group, call: Call, now: int, later: int, r: Group)
    requires call.Leave? && Whole(h) && Expiry(cfg, g, now, h) && Current(cfg, g, call, now)
    requires r == Exit(cfg, h, call.id)
    ensures Visited(cfg, g, call, now, later, r)
  {
    assert forall x :: x in h.memberOrder <==> x in Elements(h.memberOrder);
    WithoutKept(h.memberOrder, call.id, r.members.Keys);
    KeepTwice(g.memberOrder, h.members.Keys, r.members.Keys);
  }

  lemma BeatExact(cfg: Settings, g: Group, h: Group, call: Call, now: int, later: int, r: Group)
    requires (call.Sync? || call.Heartbeat?) && Expiry(cfg, g, now, h) && Current(cfg, g, call, now)
    requires r == h.(members := h.members[call.id := later])
    ensures Visited(cfg, g, call, now, later, r)
  {
    assert r.members.Keys == h.members.Keys;
  }

  lemma FencedExact(cfg: Settings, g: Group, h: Group, call: Call, now: int, later: int)
    requires !call.Join? && Whole(h) && Expiry(cfg, g, now, h)
    ensures Visited(cfg, g, call, now, later, Fenced(cfg, h, call, later))
  {
    var r := Fenced(cfg, h, call, later);
    if Fence(h, call.id, call.generation).Some? || call.ValidateCommit? {
      assert r == h;
    } else if call.Leave? {
      LeftExact(cfg, g, h, call, now, later, r);
    } else {
      BeatExact(cfg, g, h, call, now, later, r);
    }
  }

  /** How a call leaves the group it names, if it finds it on its topic. */
  ghost predicate LeavesAs(cfg: Settings, existing: Option<Group>, call: Call, now: int, later: int, r: Option<Group>)
    requires !call.Join?
  {
    if existing.Some? && existing.value.topic == call.topic
    then r.Some? && Visited(cfg, existing.value, call, now, later, r.value)
    else r.None?
  }

  /** A call on a group that is missing or on another topic changes nothing; any other is Visited. */
  lemma VisitExact(cfg: Settings, existing: Option<Group>, call: Call, now: int, later: int)
    requires !call.Join? && (existing.Some? ==> Whole(existing.value))
    ensures LeavesAs(cfg, existing, call, now, later, After(cfg, existing, call, now, later))
  {
    if existing.Some? && existing.value.topic == call.topic {
      var g := existing.value;
      FoundExact(cfg, g, call, now, later);
      assert After(cfg, existing, call, now, later) == Some(Fenced(cfg, Expire(cfg, g, now), call, later));
    }
  }

  lemma FoundExact(cfg: Settings, g: Group, call: Call, now: int, later: int)
    requires !call.Join? && Whole(g)
    ensures Visited(cfg, g, call, now, later, Fenced(cfg, Expire(cfg, g, now), call, later))
  {
    ExpireExact(cfg, g, now);
    ExpireWhole(cfg, g, now);
    FencedAfter(cfg, g, Expire(cfg, g, now), call, now, later);
  }

  lemma FencedAfter(cfg: Settings, g: Group, h: Group, call: Call, now: int, later: int)
    requires !call.Join?
    ensures Whole(h) && Expiry(cfg, g, now, h) ==> Visited(cfg, g, call, now, later, Fenced(cfg, h, call, later))
  {
    if Whole(h) && Expiry(cfg, g, now, h) {
      FencedExact(cfg, g, h, call, now, later);
    }
  }

  lemma ExpireWhole(cfg: Settings, g: Group, now: int)
    requires Whole(g)
    ensures Whole(Expire(cfg, g, now))
  {
    if Expired(cfg, g, now) {
      SurvivorKeys(cfg, g, now);
    }
  }

  // ---- Joins ----

  ghost predicate Remains(cfg: Settings, existing: Option<Group>, topic: string, now: int, id: string) {
    existing.Some? && existing.value.topic == topic && Stays(cfg, existing.value, now, id)
  }

  /** The generation after a join: one more for each of a new topic, a new assignor, an expiry and a new
      member. */
  ghost function JoinGeneration(cfg: Settings, existing: Option<Group>, call: Call, now: int): int
    requires call.Join?
  {
    match existing
    case None => 2
    case Some(g) =>
      g.generation + One(g.topic != call.topic) + One(call.assignor != "" && call.assignor != g.assignor)
      + One(g.topic == call.topic && SomeSilent(cfg, g, now))
      + One(!Remains(cfg, existing, call.topic, now, call.id))
  }

  ghost predicate Joined(cfg: Settings, existing: Option<Group>, call: Call, now: int, r: Group)
    requires call.Join?
  {
    && r.topic == call.topic
    && r.assignor == (if call.assignor != "" then call.assignor
                      else if existing.Some? then existing.value.assignor else "round_robin")
    && r.generation == JoinGeneration(cfg, existing, call, now)
    && (forall id :: id in r.members <==> id == call.id || Remains(cfg, existing, call.topic, now, id))
    && (forall id :: id in r.members ==>
          r.members[id] == if id == call.id then now
                           else if existing.Some? && id in existing.value.members then existing.value.members[id]
                           else r.members[id])
    && r.memberOrder == JoinOrder(cfg, existing, call, now, r.members.Keys)
  }

  /** Those who remain in their order, and a new member at the end. */
  ghost function JoinOrder(cfg: Settings, existing: Option<Group>, call: Call, now: int, ids: set<string>): seq<string>
    requires call.Join?
  {
    if existing.None? || existing.value.topic != call.topic then [call.id]
    else if Remains(cfg, existing, call.topic, now, call.id) then Keep(existing.value.memberOrder, ids)
    else Keep(existing.value.memberOrder, ids - {call.id}) + [call.id]
  }

  lemma EnsureWhole(cfg: Settings, existing: Option<Group>, topic: string, assignor: string)
    requires existing.Some? ==> Whole(existing.value)
    ensures Whole(Ensure(cfg, existing, topic, assignor))
  {
    assert Elements<string>([]) == {};
  }

  lemma SameSilence(cfg: Settings, g: Group, a: Group, now: int)
    requires a.members == g.members
    ensures SomeSilent(cfg, a, now) <==> SomeSilent(cfg, g, now)
  {
    assert forall id :: Silent(cfg, a, now, id) <==> Silent(cfg, g, now, id);
  }

  lemma EnterExact(cfg: Settings, b: Group, id: string, now: int)
    ensures var r := Enter(cfg, b, id, now);
            && r.topic == b.topic && r.assignor == b.assignor && r.generation == b.generation + One(id !in b.members)
            && r.members == b.members[id := now]
            && r.memberOrder == if id in b.members then b.memberOrder else b.memberOrder + [id]
  {
  }

  /** A join on a new group or a new topic starts from nobody. */
  lemma JoinEmpty(cfg: Settings, existing: Option<Group>, call: Call, now: int)
    requires call.Join? && (existing.Some? ==> existing.value.topic != call.topic)
    ensures Joined(cfg, existing, call, now,
                Enter(cfg, Expire(cfg, Ensure(cfg, existing, call.topic, call.assignor), now), call.id, now))
  {
    var a := Ensure(cfg, existing, call.topic, call.assignor);
    assert a.members == map[] && a.memberOrder == [];
    assert Expire(cfg, a, now) == a;
    EnterExact(cfg, a, call.id, now);
    assert [] + [call.id] == [call.id];
  }

  /** The three parts of a join on its own topic: the assignor, the expiry, the new member. */
  lemma JoinParts(cfg: Settings, g: Group, a: Group, b: Group, r: Group, call: Call, now: int)
    requires call.Join? && g.topic == call.topic
    requires a.topic == g.topic && a.members == g.members && a.memberOrder == g.memberOrder
    requires a.assignor == if call.assignor != "" then call.assignor else g.assignor
    requires a.generation == g.generation + One(call.assignor != "" && call.assignor != g.assignor)
    requires Expiry(cfg, a, now, b)
    requires r.topic == b.topic && r.assignor == b.assignor && r.members == b.members[call.id := now]
    requires r.generation == b.generation + One(call.id !in b.members)
    requires r.memberOrder == if call.id in b.members then b.memberOrder else b.memberOrder + [call.id]
    ensures Joined(cfg, Some(g), call, now, r)
  {
    SameSilence(cfg, g, a, now);
    assert forall id :: id in b.members <==> Stays(cfg, g, now, id);
    if call.id in b.members {
      assert r.members.Keys == b.members.Keys;
    } else {
      assert r.members.Keys - {call.id} == b.members.Keys;
    }
  }

  lemma EnsureSame(cfg: Settings, g: Group, call: Call)
    requires call.Join? && g.topic == call.topic
    ensures var a := Ensure(cfg, Some(g), call.topic, call.assignor);
            && a.topic == g.topic && a.members == g.members && a.memberOrder == g.memberOrder
            && a.assignor == (if call.assignor != "" then call.assignor else g.assignor)
            && a.generation == g.generation + One(call.assignor != "" && call.assignor != g.assignor)
  {
  }

  lemma JoinSame(cfg: Settings, g: Group, call: Call, now: int)
    requires call.Join? && Whole(g) && g.topic == call.topic
    ensures Joined(cfg, Some(g), call, now,
                Enter(cfg, Expire(cfg, Ensure(cfg, Some(g), call.topic, call.assignor), now), call.id, now))
  {
    var a := Ensure(cfg, Some(g), call.topic, call.assignor);
    var b := Expire(cfg, a, now);
    EnsureWhole(cfg, Some(g), call.topic, call.assignor);
    EnsureSame(cfg, g, call);
    ExpireExact(cfg, a, now);
    EnterExact(cfg, b, call.id, now);
    JoinParts(cfg, g, a, b, Enter(cfg, b, call.id, now), call, now);
  }

  /** Exactly what JoinGroup makes of its group. */
  lemma JoinExact(cfg: Settings, existing: Option<Group>, call: Call, now: int, later: int)
    requires call.Join? && (existing.Some? ==> Whole(existing.value))
    ensures var r := After(cfg, existing, call, now, later); r.Some? && Joined(cfg, existing, call, now, r.value)
  {
    if existing.Some? && existing.value.topic == call.topic {
      JoinSame(cfg, existing.value, call, now);
    } else {
      JoinEmpty(cfg, existing, call, now);
    }
  }

  // ---- Answers ----

  /** The list is ascending and holds exactly the partitions that the assignor gives the member. */
  ghost predicate OwnsExactly(owned: seq<int>, assignor: string, ids: set<string>, n: nat, id: string) {
    Increasing(owned) && forall p :: p in owned <==> Gives(assignor, ids, n, id, p)
  }

  lemma OwnedList(assignor: string, ids: set<string>, n: nat, id: string)
    ensures OwnsExactly(Owned(Rebalanced(assignor, ids, n), id), assignor, ids, n, id)
  {
    OwnedExact(assignor, ids, n, id, 0);
    forall p
      ensures p in Owned(Rebalanced(assignor, ids, n), id) <==> Gives(assignor, ids, n, id, p)
    {
      OwnedExact(assignor, ids, n, id, p);
    }
  }

  function Staying(cfg: Settings, g: Group, now: int): set<string> {
    set id | id in g.members && Stays(cfg, g, now, id)
  }

  /** The partition count behind the group's assignment once expiry is done. */
  ghost function CountNow(cfg: Settings, g: Group, now: int, n: nat): nat {
    if SomeSilent(cfg, g, now) then cfg.partitions else n
  }

  /** What a call other than a join answers about a group that was last rebalanced over n partitions. */
  ghost predicate Answers(cfg: Settings, g: Group, n: nat, call: Call, now: int, r: Reply)
    requires !call.Join?
  {
    var ids, count := Staying(cfg, g, now), CountNow(cfg, g, now, n);
    if call.generation != Generation(cfg, g, now) then r == Refused(StaleGeneration)
    else if call.id !in ids then r == Refused(UnknownMember)
    else if call.ValidateCommit? && !Gives(g.assignor, ids, count, call.id, call.partition)
    then r == Refused(NotAssigned)
    else r.Accepted? && r.generation == call.generation && OwnsExactly(r.owned, g.assignor, ids, count, call.id)
  }

  lemma ExpiredKeys(cfg: Settings, g: Group, now: int, n: nat)
    requires Sound(n, g)
    ensures var h := Expire(cfg, g, now);
            && h.members.Keys == Staying(cfg, g, now) && h.assignor == g.assignor
            && h.generation == Generation(cfg, g, now)
            && h.assignments == Rebalanced(g.assignor, Staying(cfg, g, now), CountNow(cfg, g, now, n))
  {
    var h := Expire(cfg, g, now);
    ExpireExact(cfg, g, now);
    ExpireSound(cfg, g, now, n);
    assert forall id :: id in h.members.Keys <==> id in Staying(cfg, g, now);
  }

  /** Exactly what LeaveGroup, SyncGroup, Heartbeat and ValidateCommit answer. */
  lemma AnswerExact(cfg: Settings, existing: Option<Group>, call: Call, now: int, n: nat)
    requires !call.Join? && (existing.Some? ==> Sound(n, existing.value))
    ensures var r := Answer(cfg, existing, call, now);
            if existing.None? || existing.value.topic != call.topic then r == Refused(GroupNotFound)
            else Answers(cfg, existing.value, n, call, now, r)
  {
    if existing.Some? && existing.value.topic == call.topic {
      var g := existing.value;
      ExpiredKeys(cfg, g, now, n);
      OwnedList(g.assignor, Staying(cfg, g, now), CountNow(cfg, g, now, n), call.id);
    }
  }

  /** A join answers with the new generation and exactly what the assignor gives the new set of members. */
  lemma JoinAnswer(cfg: Settings, existing: Option<Group>, call: Call, now: int, later: int, n: nat)
    requires call.Join? && (existing.Some? ==> Sound(n, existing.value))
    ensures var r, reply := After(cfg, existing, call, now, later).value, Answer(cfg, existing, call, now);
            && reply.Accepted? && reply.generation == r.generation
            && OwnsExactly(reply.owned, r.assignor, r.members.Keys,
                 if existing.Some? && r.generation == existing.value.generation then n else cfg.partitions, call.id)
  {
    var r := After(cfg, existing, call, now, later).value;
    if existing.Some? {
      AfterSound(cfg, existing.value, call, now, later, n);
      OwnedList(r.assignor, r.members.Keys, CountAfter(n, existing.value, cfg, r), call.id);
    } else {
      FirstSound(cfg, call, now, later);
      OwnedList(r.assignor, r.members.Keys, cfg.partitions, call.id);
    }
  }

  // ---- Commits over runs ----

  /** In this state the member owns the partition at that generation. */
  ghost predicate MayCommit(s: Coordinator, name: string, call: Call, n: nat)
    requires call.ValidateCommit?
  {
    && name in s.groups
    && s.groups[name].topic == call.topic && s.groups[name].generation == call.generation
    && call.id in s.groups[name].members
    && Gives(s.groups[name].assignor, s.groups[name].members.Keys, n, call.id, call.partition)
  }

  lemma CommitStep(cfg: Settings, s: Coordinator, t: Coordinator, name: string, call: Call, now: int, later: int)
    requires call.ValidateCommit? && t == Next(cfg, s, Invoke(name, call, now, later))
    ensures Answer(cfg, Find(s.groups, name), call, now).Accepted? <==>
            && name in t.groups && t.groups[name].topic == call.topic
            && t.groups[name].generation == call.generation && call.id in t.groups[name].members
            && call.partition in Owned(t.groups[name].assignments, call.id)
  {
    var existing := Find(s.groups, name);
    if existing.Some? && existing.value.topic == call.topic {
      assert t.groups[name] == Expire(cfg, existing.value, now);
      assert t.groups[name].topic == call.topic;
    } else {
      assert t == s;
    }
  }

  /** A ValidateCommit passes if and only if, in the state after it, the group exists on that topic in that
      generation, the consumer is a member, and the assignor gives it the partition, for the set of
      members and the partition count of when the generation began. */
  lemma CommitExact(settings: seq<Settings>, states: seq<Coordinator>, steps: seq<Step>, k: nat) returns (j: nat)
    requires Run(settings, states, steps) && k < |steps| && steps[k].Invoke? && steps[k].call.ValidateCommit?
    ensures steps[k].name in states[k + 1].groups ==> BeganAt(states, steps[k].name, j, k + 1)
    ensures j < |settings|
    ensures Answer(settings[k], Find(states[k].groups, steps[k].name), steps[k].call, steps[k].now).Accepted? <==>
            MayCommit(states[k + 1], steps[k].name, steps[k].call, settings[j].partitions)
  {
    var name, call := steps[k].name, steps[k].call;
    j := k;
    assert Leads(settings[k], states[k], steps[k], settings[k + 1], states[k + 1]);
    CommitStep(settings[k], states[k], states[k + 1], name, call, steps[k].now, steps[k].later);
    if name in states[k + 1].groups {
      j := FromScratch(settings, states, steps, k + 1, name);
      var g := states[k + 1].groups[name];
      OwnedExact(g.assignor, g.members.Keys, settings[j].partitions, call.id, call.partition);
    }
  }

  /** The answer to this consumer's ValidateCommit, asked now. */
  function Asked(cfg: Settings, g: Group, id: string, partition: int, now: int): Reply {
    Answer(cfg, Some(g), ValidateCommit(g.topic, id, g.generation, partition), now)
  }

  lemma AskedIff(cfg: Settings, g: Group, id: string, partition: int, now: int)
    requires Whole(g) && !SomeSilent(cfg, g, now)
    ensures Asked(cfg, g, id, partition, now).Accepted? <==> id in g.members && partition in Owned(g.assignments, id)
  {
    ExpiredIff(cfg, g, now);
    assert Expire(cfg, g, now) == g;
  }

  ghost predicate SomeoneMay(cfg: Settings, g: Group, partition: int, now: int) {
    exists id :: id in g.members && Asked(cfg, g, id, partition, now).Accepted?
  }

  lemma OneMay(cfg: Settings, g: Group, n: nat, partition: int, now: int)
    requires Whole(g) && !SomeSilent(cfg, g, now) && Balanced(g.members.Keys, n, g.assignments)
    ensures 0 <= partition < n <==> SomeoneMay(cfg, g, partition, now)
    ensures forall c, d ::
              (Asked(cfg, g, c, partition, now).Accepted? && Asked(cfg, g, d, partition, now).Accepted?) ==> c == d
  {
    forall id
      ensures Asked(cfg, g, id, partition, now).Accepted? <==>
              id in g.members && partition in Owned(g.assignments, id)
    {
      AskedIff(cfg, g, id, partition, now);
    }
    if 0 <= partition < n {
      assert OwnedBySome(g.assignments, g.members.Keys, partition);
    }
  }

  /** In every state of a run, if nobody in the group is silent, exactly one member may commit each partition
      below the count of when the generation began, and nobody any other. */
  lemma OneMayCommit(settings: seq<Settings>, states: seq<Coordinator>, steps: seq<Step>, k: nat, name: string,
                     partition: int, now: int)
    returns (j: nat)
    requires Run(settings, states, steps) && k < |states| && name in states[k].groups
    requires states[k].groups[name].members != map[] && !SomeSilent(settings[k], states[k].groups[name], now)
    ensures BeganAt(states, name, j, k)
    ensures 0 <= partition < settings[j].partitions <==>
            SomeoneMay(settings[k], states[k].groups[name], partition, now)
    ensures forall c, d ::
              (Asked(settings[k], states[k].groups[name], c, partition, now).Accepted?
               && Asked(settings[k], states[k].groups[name], d, partition, now).Accepted?) ==> c == d
  {
    j := FromScratch(settings, states, steps, k, name);
    var g := states[k].groups[name];
    Invariant(settings, states, steps, k);
    assert Settled(g);
    assert g.members.Keys != {};
    OneMay(settings[k], g, settings[j].partitions, partition, now);
  }
}
