/** The coordinator's mutable state and loops, each public call proved to be one step of the
    machine in GroupTheorems. Each method is one critical section; clock readings are parameters. */
module GroupCoordinator {
  import opened Text
  import opened Ordering
  import opened Assignors
  import C = ConsumerGroups
  import T = GroupTheorems

  /** The error a call returns, if any. */
  function Failure(r: C.Reply): Option<C.Error> {
    if r.Refused? then Some(r.error) else None
  }

  /** rebalanceLocked on a duplicate-free member order. */
  method ComputeAssignments(cfg: C.Settings, g: C.Group) returns (a: Assignment)
    ensures a == C.Rebalance(cfg, g).assignments
  {
    if |g.memberOrder| == 0 {
      assert Elements(g.memberOrder) == {};
      return map[];
    }
    assert g.memberOrder[0] in Elements(g.memberOrder);
    StringOrder();
    var members := Sorted(StringLeq, Elements(g.memberOrder));
    if g.assignor == RANGE {
      a := AssignRange(members, cfg.partitions);
    } else {
      a := AssignRoundRobin(members, cfg.partitions);
    }
  }

  /** cleanupExpiredLocked's loop. */
  method SweepExpired(cfg: C.Settings, g: C.Group, now: int)
    returns (members: map<string, int>, active: seq<string>, removed: bool)
    ensures active == C.Survivors(cfg, g.members, now, g.memberOrder)
    ensures removed == C.Expired(cfg, g, now)
    ensures members == g.members - C.Gone(cfg, g, now)
  {
    members, active, removed := g.members, [], false;
    ghost var gone: set<string> := {};
    for i := 0 to |g.memberOrder|
      invariant active == C.Survivors(cfg, g.members, now, g.memberOrder[..i])
      invariant |active| <= i && (removed <==> |active| < i)
      invariant members == g.members - gone
      invariant gone == set id | id in g.memberOrder[..i] && !C.Live(cfg, g.members, now, id)
    {
      var id := g.memberOrder[i];
      assert g.memberOrder[..i + 1] == g.memberOrder[..i] + [id];
      assert g.memberOrder[..i + 1][..i] == g.memberOrder[..i];
      if id !in members {
        removed, gone := true, gone + {id};
        continue;
      }
      if now - members[id] > cfg.sessionTimeout {
        members, removed, gone := members - {id}, true, gone + {id};
        continue;
      }
      active := active + [id];
    }
    assert g.memberOrder[..|g.memberOrder|] == g.memberOrder;
  }

  /** LeaveGroup's filter loop. */
  method Remove(order: seq<string>, id: string) returns (active: seq<string>)
    ensures active == C.Without(order, id)
  {
    active := [];
    for i := 0 to |order|
      invariant active == C.Without(order[..i], id)
    {
      assert order[..i + 1][..i] == order[..i];
      if order[i] != id {
        active := active + [order[i]];
      }
    }
    assert order[..|order|] == order;
  }

  /** saveLocked's inner loop. */
  method PersistMembers(g: C.Group) returns (saved: seq<(string, int)>)
    ensures saved == C.SavedMembers(g.members, g.memberOrder)
  {
    saved := [];
    for i := 0 to |g.memberOrder|
      invariant saved == C.SavedMembers(g.members, g.memberOrder[..i])
    {
      assert g.memberOrder[..i + 1][..i] == g.memberOrder[..i];
      var id := g.memberOrder[i];
      if id !in g.members {
        continue;
      }
      saved := saved + [(id, g.members[id] / C.MILLISECOND)];
    }
    assert g.memberOrder[..|g.memberOrder|] == g.memberOrder;
  }

  /** load's inner loop. */
  method RestoreMembers(saved: seq<(string, int)>) returns (members: map<string, int>)
    ensures members == C.LoadedMembers(saved)
  {
    members := map[];
    for i := 0 to |saved|
      invariant members == C.LoadedMembers(saved[..i])
    {
      assert saved[..i + 1][..i] == saved[..i];
      members := members[saved[i].0 := saved[i].1 * C.MILLISECOND];
    }
    assert saved[..|saved|] == saved;
  }

  /** One turn of load's outer loop. */
  method RestoreGroup(saved: C.Saved) returns (g: C.Group)
    ensures g == C.Load(saved)
  {
    var members := RestoreMembers(saved.members);
    g := C.Group(saved.topic, saved.generation, saved.assignor, members, saved.memberOrder, saved.assignments);
    if g.assignor == "" {
      g := g.(assignor := ROUND_ROBIN);
    }
    if g.generation <= 0 {
      g := g.(generation := 1);
    }
  }

  /** JoinGroup's last part. */
  method AddMember(cfg: C.Settings, group: C.Group, id: string, now: int) returns (g: C.Group)
    ensures g == C.Enter(cfg, group, id, now)
  {
    g := group;
    if id !in g.members {
      g := g.(memberOrder := g.memberOrder + [id], members := g.members[id := now], generation := g.generation + 1);
      var a := ComputeAssignments(cfg, g);
      g := g.(assignments := a);
    } else {
      g := g.(members := g.members[id := now]);
    }
  }

  class GroupManager {
    const cfg: C.Settings
    var groups: map<string, C.Group>
    var file: map<string, C.Saved>      // groups.json; a missing file is an empty map

    ghost function State(): T.Coordinator
      reads this
    {
      T.Coordinator(groups, file)
    }

    /** NewGroupManager: a restart on the file that was left behind. */
    constructor (cfg: C.Settings, file: map<string, C.Saved>)
      ensures this.cfg == cfg && this.file == file && groups == C.LoadAll(file)
    {
      this.cfg, this.file, this.groups := cfg, file, map[];
      new;
      var todo := file.Keys;
      while todo != {}
        invariant todo <= file.Keys && this.file == file
        invariant groups == map name | name in file && name !in todo :: C.Load(file[name])
        decreases |todo|
      {
        var name := Choose(todo);
        var g := RestoreGroup(file[name]);
        groups := groups[name := g];
        todo := todo - {name};
      }
    }

    /** saveLocked. */
    method Save()
      modifies this`file
      ensures file == C.SaveAll(groups)
    {
      var persisted: map<string, C.Saved> := map[];
      var todo := groups.Keys;
      while todo != {}
        invariant todo <= groups.Keys
        invariant persisted == map name | name in groups && name !in todo :: C.Save(groups[name])
        decreases |todo|
      {
        var name := Choose(todo);
        var g := groups[name];
        var members := PersistMembers(g);
        persisted := persisted[name :=
            C.Saved(g.topic, g.generation, g.assignor, g.memberOrder, g.assignments, members)];
        todo := todo - {name};
      }
      file := persisted;
    }

    /** cleanupExpiredLocked. */
    method CleanupExpired(name: string, now: int)
      requires name in groups
      modifies this
      ensures groups == old(groups)[name := C.Expire(cfg, old(groups)[name], now)]
      ensures file == if C.Expired(cfg, old(groups)[name], now) then C.SaveAll(groups) else old(file)
    {
      var g := groups[name];
      var members, active, removed := SweepExpired(cfg, g, now);
      if removed {
        g := g.(members := members, memberOrder := active, generation := g.generation + 1);
        var a := ComputeAssignments(cfg, g);
        groups := groups[name := g.(assignments := a)];
        Save();
      } else {
        assert groups == groups[name := g];
      }
    }

    /** ensureGroupLocked. */
    method EnsureGroup(name: string, topic: string, assignor: string)
      modifies this`groups
      ensures groups == old(groups)[name := C.Ensure(cfg, C.Find(old(groups), name), topic, assignor)]
    {
      if name !in groups {
        var chosen := if assignor == "" then ROUND_ROBIN else assignor;
        groups := groups[name := C.Group(topic, 1, chosen, map[], [], map[])];
        return;
      }
      var g := groups[name];
      if g.topic != topic {
        g := g.(topic := topic, members := map[], memberOrder := [], assignments := map[],
            generation := g.generation + 1);
      }
      if assignor != "" && assignor != g.assignor {
        g := g.(assignor := assignor, generation := g.generation + 1);
        var a := ComputeAssignments(cfg, g);
        g := g.(assignments := a);
      }
      groups := groups[name := g];
    }

    /** JoinGroup. */
    method JoinGroup(name: string, topic: string, id: string, assignor: string, now: int) returns (r: C.Reply)
      modifies this
      ensures State() == T.Next(cfg, old(State()), T.Invoke(name, C.Join(topic, id, assignor), now, now))
      ensures r == C.Answer(cfg, C.Find(old(groups), name), C.Join(topic, id, assignor), now)
    {
      EnsureGroup(name, topic, assignor);
      ghost var ensured := groups[name];
      CleanupExpired(name, now);
      ghost var cleaned := groups[name];
      UpdateTwice(old(groups), name, ensured, cleaned);
      var g := AddMember(cfg, groups[name], id, now);
      T.JoinNext(cfg, old(State()), name, C.Join(topic, id, assignor), now, g);
      UpdateTwice(old(groups), name, cleaned, g);
      groups := groups[name := g];
      Save();
      return C.Accepted(g.generation, Owned(g.assignments, id));
    }

    /** The checks at the head of every other call: the group, its topic, expiry, the generation
        and the membership. */
    method Admit(name: string, topic: string, id: string, generation: int, now: int) returns (refusal: Option<C.Error>)
      modifies this
      ensures match C.Visit(cfg, C.Find(old(groups), name), topic, now)
              case None => refusal == Some(C.GroupNotFound) && groups == old(groups) && file == old(file)
              case Some(g) =>
                && refusal == C.Fence(g, id, generation)
                && groups == old(groups)[name := g]
                && file == if C.Expired(cfg, old(groups)[name], now) then C.SaveAll(groups) else old(file)
    {
      if name !in groups || groups[name].topic != topic {
        return Some(C.GroupNotFound);
      }
      CleanupExpired(name, now);
      if generation != groups[name].generation {
        return Some(C.StaleGeneration);
      }
      if id !in groups[name].members {
        return Some(C.UnknownMember);
      }
      return None;
    }

    /** LeaveGroup. */
    method LeaveGroup(name: string, topic: string, id: string, generation: int,
                      now: int) returns (error: Option<C.Error>)
      modifies this
      ensures State() == T.Next(cfg, old(State()), T.Invoke(name, C.Leave(topic, id, generation), now, now))
      ensures error == Failure(C.Answer(cfg, C.Find(old(groups), name), C.Leave(topic, id, generation), now))
    {
      error := Admit(name, topic, id, generation, now);
      if error.Some? {
        return;
      }
      var g := groups[name];
      var active := Remove(g.memberOrder, id);
      g := g.(members := g.members - {id}, assignments := g.assignments - {id});
      g := g.(memberOrder := active, generation := g.generation + 1);
      var a := ComputeAssignments(cfg, g);
      g := g.(assignments := a);
      T.FencedNext(cfg, old(State()), name, C.Leave(topic, id, generation), now, now, g);
      groups := groups[name := g];
      assert groups == old(groups)[name := g];
      Save();
    }

    /** The common end of SyncGroup and Heartbeat. */
    method Beat(name: string, id: string, later: int)
      requires name in groups
      modifies this
      ensures groups == old(groups)[name := old(groups)[name].(members := old(groups)[name].members[id := later])]
      ensures file == C.SaveAll(groups)
    {
      var g := groups[name];
      groups := groups[name := g.(members := g.members[id := later])];
      Save();
    }

    /** SyncGroup. */
    method SyncGroup(name: string, topic: string, id: string, generation: int, now: int,
                     later: int) returns (r: C.Reply)
      modifies this
      ensures State() == T.Next(cfg, old(State()), T.Invoke(name, C.Sync(topic, id, generation), now, later))
      ensures r == C.Answer(cfg, C.Find(old(groups), name), C.Sync(topic, id, generation), now)
    {
      var error := Admit(name, topic, id, generation, now);
      if error.Some? {
        return C.Refused(error.value);
      }
      Beat(name, id, later);
      assert groups == old(groups)[name := groups[name]];
      return C.Accepted(groups[name].generation, Owned(groups[name].assignments, id));
    }

    /** Heartbeat. */
    method Heartbeat(name: string, topic: string, id: string, generation: int, now: int, later: int)
      returns (error: Option<C.Error>)
      modifies this
      ensures State() == T.Next(cfg, old(State()), T.Invoke(name, C.Heartbeat(topic, id, generation), now, later))
      ensures error == Failure(C.Answer(cfg, C.Find(old(groups), name), C.Heartbeat(topic, id, generation), now))
    {
      error := Admit(name, topic, id, generation, now);
      if error.Some? {
        return;
      }
      Beat(name, id, later);
      assert groups == old(groups)[name := groups[name]];
    }

    /** ValidateCommit. */
    method ValidateCommit(name: string, topic: string, id: string, generation: int, partition: int, now: int)
      returns (error: Option<C.Error>)
      modifies this
      ensures State() == T.Next(cfg, old(State()),
              T.Invoke(name, C.ValidateCommit(topic, id, generation, partition), now, now))
      ensures error == Failure(C.Answer(cfg, C.Find(old(groups), name),
              C.ValidateCommit(topic, id, generation, partition), now))
      ensures error == None <==>
              && name in groups && groups[name].topic == topic && groups[name].generation == generation
              && id in groups[name].members && partition in Owned(groups[name].assignments, id)
    {
      error := Admit(name, topic, id, generation, now);
      if error.Some? {
        return;
      }
      var owned := Owned(groups[name].assignments, id);
      for i := 0 to |owned|
        invariant partition !in owned[..i]
      {
        if owned[i] == partition {
          return None;
        }
      }
      assert owned[..|owned|] == owned;
      return Some(C.NotAssigned);
    }
  }
}
