/** The consumer-group coordinator's state and the effect of each public call on it. Times are
    nanoseconds; a call reads the clock once to expire members and may read it again to record a
    heartbeat. */
module ConsumerGroups {
  import opened Text
  import opened Ordering
  import opened Assignors

  datatype Group = Group(
    topic: string, generation: int, assignor: string,
    members: map<string, int>,          // consumer id to last heartbeat
    memberOrder: seq<string>,
    assignments: Assignment)

  /** Fixed for the life of a coordinator; a restart may come with another partition count. */
  datatype Settings = Settings(partitions: nat, sessionTimeout: int)

  datatype Error = GroupNotFound | StaleGeneration | UnknownMember | NotAssigned

  datatype Reply = Accepted(generation: int, owned: seq<int>) | Refused(error: Error)

  // ---- Pieces ----

  /** rebalanceLocked. */
  function Rebalance(cfg: Settings, g: Group): Group {
    g.(assignments := Rebalanced(g.assignor, Elements(g.memberOrder), cfg.partitions))
  }

  predicate Live(cfg: Settings, members: map<string, int>, now: int, id: string) {
    id in members && now - members[id] <= cfg.sessionTimeout
  }

  /** The members that cleanupExpiredLocked keeps, in order. */
  function Survivors(cfg: Settings, members: map<string, int>, now: int, order: seq<string>): seq<string> {
    if order == [] then []
    else
      var n := |order| - 1;
      Survivors(cfg, members, now, order[..n]) + if Live(cfg, members, now, order[n]) then [order[n]] else []
  }

  predicate Expired(cfg: Settings, g: Group, now: int) {
    |Survivors(cfg, g.members, now, g.memberOrder)| < |g.memberOrder|
  }

  /** The members that it drops. */
  function Gone(cfg: Settings, g: Group, now: int): set<string> {
    set id | id in g.memberOrder && !Live(cfg, g.members, now, id)
  }

  /** cleanupExpiredLocked. */
  function Expire(cfg: Settings, g: Group, now: int): Group {
    var active := Survivors(cfg, g.members, now, g.memberOrder);
    if !Expired(cfg, g, now) then g
    else
      var members := g.members - Gone(cfg, g, now);
      Rebalance(cfg, g.(members := members, memberOrder := active, generation := g.generation + 1))
  }

  /** ensureGroupLocked. */
  function Ensure(cfg: Settings, existing: Option<Group>, topic: string, assignor: string): Group {
    match existing
    case None => Group(topic, 1, if assignor == "" then ROUND_ROBIN else assignor, map[], [], map[])
    case Some(g) =>
      var moved := if g.topic != topic then Group(topic, g.generation + 1, g.assignor, map[], [], map[]) else g;
      if assignor != "" && assignor != moved.assignor
      then Rebalance(cfg, moved.(assignor := assignor, generation := moved.generation + 1))
      else moved
  }

  /** JoinGroup's last part, after the group exists and is cleaned. */
  function Enter(cfg: Settings, g: Group, id: string, now: int): Group {
    if id !in g.members
    then Rebalance(cfg, g.(memberOrder := g.memberOrder + [id],
                           members := g.members[id := now],
                           generation := g.generation + 1))
    else g.(members := g.members[id := now])
  }

  function Without(order: seq<string>, id: string): seq<string> {
    if order == [] then []
    else
      var n := |order| - 1;
      Without(order[..n], id) + if order[n] != id then [order[n]] else []
  }

  /** LeaveGroup's last part. */
  function Exit(cfg: Settings, g: Group, id: string): Group {
    Rebalance(cfg, g.(members := g.members - {id},
                      memberOrder := Without(g.memberOrder, id),
                      generation := g.generation + 1))
  }

  /** The generation and membership checks that every fenced call makes. */
  function Fence(g: Group, id: string, generation: int): Option<Error> {
    if generation != g.generation then Some(StaleGeneration)
    else if id !in g.members then Some(UnknownMember)
    else None
  }

  // ---- Calls ----

  datatype Call =
    | Join(topic: string, id: string, assignor: string)
    | Leave(topic: string, id: string, generation: int)
    | Sync(topic: string, id: string, generation: int)
    | Heartbeat(topic: string, id: string, generation: int)
    | ValidateCommit(topic: string, id: string, generation: int, partition: int)

  function Find(groups: map<string, Group>, name: string): Option<Group> {
    if name in groups then Some(groups[name]) else None
  }

  /** The group a fenced call works on, after expiry; None if it is missing or on another topic. */
  function Visit(cfg: Settings, existing: Option<Group>, topic: string, now: int): Option<Group> {
    if existing.None? || existing.value.topic != topic then None else Some(Expire(cfg, existing.value, now))
  }

  /** What a fenced call does to the group it visits. */
  function Fenced(cfg: Settings, g: Group, call: Call, later: int): Group
    requires !call.Join?
  {
    if call.ValidateCommit? || Fence(g, call.id, call.generation).Some? then g
    else if call.Leave? then Exit(cfg, g, call.id)
    else g.(members := g.members[call.id := later])
  }

  /** The group after a call; None means the call left the coordinator alone. */
  function After(cfg: Settings, existing: Option<Group>, call: Call, now: int, later: int): Option<Group> {
    if call.Join? then
      Some(Enter(cfg, Expire(cfg, Ensure(cfg, existing, call.topic, call.assignor), now), call.id, now))
    else match Visit(cfg, existing, call.topic, now)
      case None => None
      case Some(g) => Some(Fenced(cfg, g, call, later))
  }

  /** What a call answers. */
  function Answer(cfg: Settings, existing: Option<Group>, call: Call, now: int): Reply {
    if call.Join? then
      var g := Enter(cfg, Expire(cfg, Ensure(cfg, existing, call.topic, call.assignor), now), call.id, now);
      Accepted(g.generation, Owned(g.assignments, call.id))
    else match Visit(cfg, existing, call.topic, now)
      case None => Refused(GroupNotFound)
      case Some(g) =>
        match Fence(g, call.id, call.generation)
        case Some(error) => Refused(error)
        case None =>
          if call.ValidateCommit? && call.partition !in Owned(g.assignments, call.id) then Refused(NotAssigned)
          else Accepted(g.generation, Owned(g.assignments, call.id))
  }

  // ---- Persistence ----

  datatype Saved = Saved(
    topic: string, generation: int, assignor: string, memberOrder: seq<string>, assignments: Assignment,
    members: seq<(string, int)>)        // consumer id and heartbeat in milliseconds

  const MILLISECOND := 1_000_000

  function SavedMembers(members: map<string, int>, order: seq<string>): seq<(string, int)> {
    if order == [] then []
    else
      var n := |order| - 1;
      SavedMembers(members, order[..n]) +
      if order[n] in members then [(order[n], members[order[n]] / MILLISECOND)] else []
  }

  /** One group of saveLocked. */
  function Save(g: Group): Saved {
    Saved(g.topic, g.generation, g.assignor, g.memberOrder, g.assignments, SavedMembers(g.members, g.memberOrder))
  }

  function LoadedMembers(saved: seq<(string, int)>): map<string, int> {
    if saved == [] then map[]
    else
      var n := |saved| - 1;
      LoadedMembers(saved[..n])[saved[n].0 := saved[n].1 * MILLISECOND]
  }

  /** One group of load. */
  function Load(s: Saved): Group {
    Group(s.topic, if s.generation <= 0 then 1 else s.generation, if s.assignor == "" then ROUND_ROBIN else s.assignor,
          LoadedMembers(s.members), s.memberOrder, s.assignments)
  }

  function SaveAll(groups: map<string, Group>): map<string, Saved> {
    map name | name in groups :: Save(groups[name])
  }

  function LoadAll(file: map<string, Saved>): map<string, Group> {
    map name | name in file :: Load(file[name])
  }

  // ---- The invariant of one group ----

  /** memberOrder lists the members once each. */
  ghost predicate Whole(g: Group) {
    && Distinct(g.memberOrder)
    && Elements(g.memberOrder) == g.members.Keys
    && g.generation >= 1
    && g.assignor != ""
  }

  /** ... and the assignment is the assignor's result on the sorted set of members and n partitions:
      nothing depends on the order of joins, leaves and expiries. */
  ghost predicate Sound(n: nat, g: Group) {
    Whole(g) && g.assignments == Rebalanced(g.assignor, g.members.Keys, n)
  }

  /** What a call makes of a group that was last rebalanced over n partitions: its generation never
      falls, a new generation is rebalanced over the coordinator's own count, and the same one is
      the same configuration. */
  ghost predicate Follows(n: nat, g: Group, cfg: Settings, r: Group) {
    Advances(g, r) && Sound(CountAfter(n, g, cfg, r), r)
  }

  function CountAfter(n: nat, g: Group, cfg: Settings, r: Group): nat {
    if r.generation == g.generation then n else cfg.partitions
  }

  lemma FollowsTransitive(n: nat, g: Group, cfg: Settings, h: Group, r: Group)
    requires Follows(n, g, cfg, h) && Follows(CountAfter(n, g, cfg, h), h, cfg, r)
    ensures Follows(n, g, cfg, r)
  {
  }

  lemma DistinctSnoc<T>(front: seq<T>, x: T)
    ensures Distinct(front + [x]) <==> Distinct(front) && x !in front
  {
    var xs := front + [x];
    if Distinct(xs) {
      assert forall i :: 0 <= i < |front| ==> xs[i] == front[i] && xs[i] != xs[|front|];
    }
  }

  lemma {:induction false} SurvivorsListed(cfg: Settings, members: map<string, int>, now: int, order: seq<string>)
    ensures forall id :: id in Survivors(cfg, members, now, order) <==> id in order && Live(cfg, members, now, id)
    ensures |Survivors(cfg, members, now, order)| <= |order|
    ensures |Survivors(cfg, members, now, order)| == |order| ==> Survivors(cfg, members, now, order) == order
  {
    if order == [] {
    } else {
      var n := |order| - 1;
      SurvivorsListed(cfg, members, now, order[..n]);
      assert order == order[..n] + [order[n]];
    }
  }

  lemma {:induction false} SurvivorsDistinct(cfg: Settings, members: map<string, int>, now: int, order: seq<string>)
    requires Distinct(order)
    ensures Distinct(Survivors(cfg, members, now, order))
  {
    if order == [] {
    } else {
      var front, x := order[..|order| - 1], order[|order| - 1];
      assert order == front + [x];
      DistinctSnoc(front, x);
      SurvivorsDistinct(cfg, members, now, front);
      SurvivorsListed(cfg, members, now, front);
      DistinctSnoc(Survivors(cfg, members, now, front), x);
    }
  }

  lemma {:induction false} WithoutListed(order: seq<string>, id: string)
    ensures forall x :: x in Without(order, id) <==> x in order && x != id
    ensures Distinct(order) ==> Distinct(Without(order, id))
  {
    if order == [] {
    } else {
      var front, x := order[..|order| - 1], order[|order| - 1];
      assert order == front + [x];
      WithoutListed(front, id);
      DistinctSnoc(front, x);
      DistinctSnoc(Without(front, id), x);
    }
  }

  // ---- Generations ----

  /** Two states of a group with the same topic, assignor, members and assignment. */
  predicate SameConfig(g: Group, h: Group) {
    g.topic == h.topic && g.assignor == h.assignor && g.members.Keys == h.members.Keys && g.assignments == h.assignments
  }

  /** The generation never falls, and rises whenever the configuration changes. */
  predicate Advances(g: Group, h: Group) {
    g.generation <= h.generation && (g.generation == h.generation ==> SameConfig(g, h))
  }

  lemma AdvancesTransitive(f: Group, g: Group, h: Group)
    requires Advances(f, g) && Advances(g, h)
    ensures Advances(f, h)
  {
  }

  lemma SurvivorKeys(cfg: Settings, g: Group, now: int)
    requires Whole(g)
    ensures var active := Survivors(cfg, g.members, now, g.memberOrder);
            Distinct(active) && Elements(active) == (g.members - Gone(cfg, g, now)).Keys
  {
    SurvivorsListed(cfg, g.members, now, g.memberOrder);
    SurvivorsDistinct(cfg, g.members, now, g.memberOrder);
    SurvivingKeys(g.members, g.memberOrder, Survivors(cfg, g.members, now, g.memberOrder), Gone(cfg, g, now));
  }

  lemma SurvivingKeys(members: map<string, int>, order: seq<string>, active: seq<string>, gone: set<string>)
    requires Elements(order) == members.Keys && forall id :: id in active <==> id in order && id !in gone
    ensures Elements(active) == (members - gone).Keys
  {
    forall id
      ensures id in Elements(active) <==> id in (members - gone).Keys
    {
      assert id in order <==> id in Elements(order);
    }
  }

  lemma ExpireSound(cfg: Settings, g: Group, now: int, n: nat)
    requires Sound(n, g)
    ensures Follows(n, g, cfg, Expire(cfg, g, now))
  {
    if Expired(cfg, g, now) {
      SurvivorKeys(cfg, g, now);
      var active := Survivors(cfg, g.members, now, g.memberOrder);
      var left := g.(members := g.members - Gone(cfg, g, now), memberOrder := active, generation := g.generation + 1);
      RebalanceSound(cfg, left);
    }
  }

  lemma RebalanceSound(cfg: Settings, g: Group)
    requires Whole(g)
    ensures Sound(cfg.partitions, Rebalance(cfg, g))
  {
  }

  lemma NewGroupSound(n: nat, topic: string, generation: int, assignor: string)
    requires generation >= 1 && assignor != ""
    ensures Sound(n, Group(topic, generation, assignor, map[], [], map[]))
  {
    assert Elements<string>([]) == {};
  }

  lemma EnsureSound(cfg: Settings, g: Group, topic: string, assignor: string, n: nat)
    requires Sound(n, g)
    ensures Follows(n, g, cfg, Ensure(cfg, Some(g), topic, assignor))
  {
    NewGroupSound(cfg.partitions, topic, g.generation + 1, g.assignor);
    var moved := if g.topic != topic then Group(topic, g.generation + 1, g.assignor, map[], [], map[]) else g;
    if assignor != "" && assignor != moved.assignor {
      RebalanceSound(cfg, moved.(assignor := assignor, generation := moved.generation + 1));
    }
  }

  lemma EnterNew(cfg: Settings, g: Group, id: string, now: int)
    requires Whole(g) && id !in g.members
    ensures Sound(cfg.partitions, Enter(cfg, g, id, now))
  {
    var order := g.memberOrder + [id];
    assert id !in Elements(g.memberOrder);
    DistinctSnoc(g.memberOrder, id);
    assert Elements(order) == g.members.Keys + {id} == g.members[id := now].Keys;
  }

  lemma EnterSound(cfg: Settings, g: Group, id: string, now: int, n: nat)
    requires Sound(n, g)
    ensures Follows(n, g, cfg, Enter(cfg, g, id, now))
  {
    if id !in g.members {
      EnterNew(cfg, g, id, now);
    } else {
      BeatSound(g, id, now, n);
    }
  }

  lemma ExitSound(cfg: Settings, g: Group, id: string, n: nat)
    requires Sound(n, g) && id in g.members
    ensures Follows(n, g, cfg, Exit(cfg, g, id))
  {
    RemainingKeys(g, id);
    RebalanceSound(cfg, g.(members := g.members - {id},
                           memberOrder := Without(g.memberOrder, id),
                           generation := g.generation + 1));
  }

  lemma RemainingKeys(g: Group, id: string)
    requires Whole(g)
    ensures Distinct(Without(g.memberOrder, id))
    ensures Elements(Without(g.memberOrder, id)) == (g.members - {id}).Keys
  {
    WithoutListed(g.memberOrder, id);
    assert forall x :: x in g.memberOrder <==> x in Elements(g.memberOrder);
  }

  lemma BeatSound(g: Group, id: string, later: int, n: nat)
    requires Sound(n, g) && id in g.members
    ensures Sound(n, g.(members := g.members[id := later])) && Advances(g, g.(members := g.members[id := later]))
  {
    assert g.members[id := later].Keys == g.members.Keys;
  }

  lemma JoinSound(cfg: Settings, g: Group, topic: string, id: string, assignor: string, now: int, n: nat)
    requires Sound(n, g)
    ensures Follows(n, g, cfg, Enter(cfg, Expire(cfg, Ensure(cfg, Some(g), topic, assignor), now), id, now))
  {
    var a := Ensure(cfg, Some(g), topic, assignor);
    var b := Expire(cfg, a, now);
    var r := Enter(cfg, b, id, now);
    EnsureSound(cfg, g, topic, assignor, n);
    var m := CountAfter(n, g, cfg, a);
    ExpireSound(cfg, a, now, m);
    FollowsTransitive(n, g, cfg, a, b);
    EnterSound(cfg, b, id, now, CountAfter(n, g, cfg, b));
    FollowsTransitive(n, g, cfg, b, r);
  }

  lemma FirstJoinSound(cfg: Settings, topic: string, id: string, assignor: string, now: int)
    ensures Sound(cfg.partitions, Enter(cfg, Expire(cfg, Ensure(cfg, None, topic, assignor), now), id, now))
  {
    var g := Ensure(cfg, None, topic, assignor);
    NewGroupSound(cfg.partitions, topic, 1, g.assignor);
    ExpireSound(cfg, g, now, cfg.partitions);
    EnterSound(cfg, Expire(cfg, g, now), id, now, cfg.partitions);
  }

  lemma FencedSound(cfg: Settings, g: Group, call: Call, later: int, n: nat)
    requires Sound(n, g) && !call.Join?
    ensures Follows(n, g, cfg, Fenced(cfg, g, call, later))
  {
    var r := Fenced(cfg, g, call, later);
    if call.ValidateCommit? || Fence(g, call.id, call.generation).Some? {
      assert r == g;
    } else if call.Leave? {
      assert r == Exit(cfg, g, call.id);
      ExitSound(cfg, g, call.id, n);
    } else {
      assert r == g.(members := g.members[call.id := later]);
      BeatSound(g, call.id, later, n);
    }
  }

  lemma VisitSound(cfg: Settings, g: Group, call: Call, now: int, later: int, n: nat)
    requires Sound(n, g) && !call.Join?
    ensures Follows(n, g, cfg, Fenced(cfg, Expire(cfg, g, now), call, later))
  {
    var h := Expire(cfg, g, now);
    ExpireSound(cfg, g, now, n);
    FencedSound(cfg, h, call, later, CountAfter(n, g, cfg, h));
    FollowsTransitive(n, g, cfg, h, Fenced(cfg, h, call, later));
  }

  /** Every call keeps a group sound and advances it: the generation pins the configuration. */
  lemma AfterSound(cfg: Settings, g: Group, call: Call, now: int, later: int, n: nat)
    requires Sound(n, g)
    ensures var r := After(cfg, Some(g), call, now, later); r.Some? ==> Follows(n, g, cfg, r.value)
  {
    if call.Join? {
      JoinSound(cfg, g, call.topic, call.id, call.assignor, now, n);
    } else if g.topic == call.topic {
      VisitSound(cfg, g, call, now, later, n);
    }
  }

  /** A call that creates a group leaves it sound. */
  lemma FirstSound(cfg: Settings, call: Call, now: int, later: int)
    ensures var r := After(cfg, None, call, now, later); r.Some? ==> Sound(cfg.partitions, r.value)
  {
    if call.Join? {
      FirstJoinSound(cfg, call.topic, call.id, call.assignor, now);
    }
  }

  // ---- Saving and loading ----

  lemma {:induction false} SavedMembersRoundTrip(members: map<string, int>, order: seq<string>)
    requires Distinct(order)
    ensures var loaded := LoadedMembers(SavedMembers(members, order));
            && (forall id :: id in loaded <==> id in order && id in members)
            && (forall id :: id in loaded ==> loaded[id] == members[id] / MILLISECOND * MILLISECOND)
  {
    if order == [] {
    } else {
      var n := |order| - 1;
      var front := SavedMembers(members, order[..n]);
      SavedMembersRoundTrip(members, order[..n]);
      assert order == order[..n] + [order[n]];
      if order[n] in members {
        var all := SavedMembers(members, order);
        assert all[..|all| - 1] == front;
      } else {
        assert SavedMembers(members, order) == front;
      }
    }
  }

  /** Saving and loading a group changes nothing but the heartbeats, which lose what is below a
      millisecond. */
  lemma SaveLoad(g: Group)
    requires Whole(g)
    ensures var h := Load(Save(g));
            && h == g.(members := h.members)
            && h.members.Keys == g.members.Keys
            && (forall id :: id in g.members ==> h.members[id] == g.members[id] / MILLISECOND * MILLISECOND)
  {
    SavedMembersRoundTrip(g.members, g.memberOrder);
    var h := Load(Save(g));
    assert forall id :: id in h.members <==> id in Elements(g.memberOrder) && id in g.members;
  }

  lemma {:induction false} TruncationIdempotent(members: map<string, int>, loaded: map<string, int>, order: seq<string>)
    requires members.Keys == loaded.Keys
    requires forall id :: id in members ==> loaded[id] == members[id] / MILLISECOND * MILLISECOND
    ensures SavedMembers(loaded, order) == SavedMembers(members, order)
  {
    if order == [] {
    } else {
      TruncationIdempotent(members, loaded, order[..|order| - 1]);
    }
  }

  /** A loaded group would be saved as the same text again. */
  lemma SaveLoadSave(g: Group)
    requires Whole(g)
    ensures Save(Load(Save(g))) == Save(g)
  {
    SaveLoad(g);
    TruncationIdempotent(g.members, Load(Save(g)).members, g.memberOrder);
  }
}
