/** What the coordinator guarantees over whole runs of calls and restarts. */
module GroupTheorems {
  import opened Ordering
  import opened Assignors
  import opened ConsumerGroups

  /** Memory, and the state file on disk; a missing file is an empty one. */
  datatype Coordinator = Coordinator(groups: map<string, Group>, file: map<string, Saved>)

  datatype Step =
    | Invoke(name: string, call: Call, now: int, later: int)
    | Restart(partitions: nat)                    // with this partition count from now on

  /** The file after a call, following each saveLocked on the call's path. */
  function FileAfter(cfg: Settings, s: Coordinator, name: string, call: Call, now: int,
                     later: int): map<string, Saved> {
    var existing := Find(s.groups, name);
    var after := After(cfg, existing, call, now, later);
    if after.None? then s.file
    else if call.Join? then SaveAll(s.groups[name := after.value])
    else
      var g := Expire(cfg, existing.value, now);
      var cleaned := if Expired(cfg, existing.value, now) then SaveAll(s.groups[name := g]) else s.file;
      if call.ValidateCommit? || Fence(g, call.id, call.generation).Some? then cleaned
      else SaveAll(s.groups[name := after.value])
  }

  function Next(cfg: Settings, s: Coordinator, step: Step): Coordinator {
    match step
    case Restart(_) => Coordinator(LoadAll(s.file), s.file)
    case Invoke(name, call, now, later) =>
      (match After(cfg, Find(s.groups, name), call, now, later)
       case None => s
       case Some(g) => Coordinator(s.groups[name := g], FileAfter(cfg, s, name, call, now, later)))
  }

  lemma JoinNext(cfg: Settings, s: Coordinator, name: string, call: Call, now: int, g: Group)
    requires call.Join?
    requires var a := Ensure(cfg, Find(s.groups, name), call.topic, call.assignor);
             g == Enter(cfg, Expire(cfg, a, now), call.id, now)
    ensures Next(cfg, s, Invoke(name, call, now, now)) == Coordinator(s.groups[name := g], SaveAll(s.groups[name := g]))
    ensures Answer(cfg, Find(s.groups, name), call, now) == Accepted(g.generation, Owned(g.assignments, call.id))
  {
  }

  lemma FencedNext(cfg: Settings, s: Coordinator, name: string, call: Call, now: int, later: int, g: Group)
    requires !call.Join? && !call.ValidateCommit? && Visit(cfg, Find(s.groups, name), call.topic, now).Some?
    requires var v := Visit(cfg, Find(s.groups, name), call.topic, now).value;
             Fence(v, call.id, call.generation).None? && g == Fenced(cfg, v, call, later)
    ensures Next(cfg, s, Invoke(name, call, now, later))
            == Coordinator(s.groups[name := g], SaveAll(s.groups[name := g]))
  {
  }

  function SettingsAfter(cfg: Settings, step: Step): Settings {
    if step.Restart? then cfg.(partitions := step.partitions) else cfg
  }

  /** settings[k] is what the coordinator of states[k] runs with. */
  ghost predicate Run(settings: seq<Settings>, states: seq<Coordinator>, steps: seq<Step>) {
    && |states| == |steps| + 1 == |settings|
    && states[0] == Coordinator(map[], map[])
    && forall k :: 0 <= k < |steps| ==> Leads(settings[k], states[k], steps[k], settings[k + 1], states[k + 1])
  }

  predicate Leads(cfg: Settings, s: Coordinator, step: Step, after: Settings, t: Coordinator) {
    after == SettingsAfter(cfg, step) && t == Next(cfg, s, step)
  }

  /** The group was last rebalanced over some number of partitions. */
  ghost predicate Settled(g: Group) {
    exists n: nat :: Sound(n, g)
  }

  ghost predicate AllSettled(groups: map<string, Group>) {
    forall name :: name in groups ==> Settled(groups[name])
  }

  /** Every group of s is still there in t, and has advanced. */
  ghost predicate Progress(s: Coordinator, t: Coordinator) {
    forall name :: name in s.groups ==> name in t.groups && Advances(s.groups[name], t.groups[name])
  }

  lemma InvokedGroup(cfg: Settings, s: Coordinator, step: Step)
    requires AllSettled(s.groups) && step.Invoke?
    ensures var r := After(cfg, Find(s.groups, step.name), step.call, step.now, step.later);
            r.Some? ==> Settled(r.value) && (step.name in s.groups ==> Advances(s.groups[step.name], r.value))
  {
    if step.name in s.groups {
      var n: nat :| Sound(n, s.groups[step.name]);
      AfterSound(cfg, s.groups[step.name], step.call, step.now, step.later, n);
    } else {
      FirstSound(cfg, step.call, step.now, step.later);
    }
  }

  lemma InvokeKeeps(cfg: Settings, s: Coordinator, step: Step)
    requires AllSettled(s.groups) && step.Invoke?
    ensures AllSettled(Next(cfg, s, step).groups) && Progress(s, Next(cfg, s, step))
  {
    InvokedGroup(cfg, s, step);
    var t := Next(cfg, s, step);
    assert forall name :: name in s.groups && name != step.name ==> t.groups[name] == s.groups[name];
  }

  /** Persistence is transparent: after every call, on every path, the file holds what memory
      holds. */
  lemma InvokePersists(cfg: Settings, s: Coordinator, step: Step)
    requires step.Invoke? && s.file == SaveAll(s.groups)
    ensures Next(cfg, s, step).file == SaveAll(Next(cfg, s, step).groups)
  {
    var existing := Find(s.groups, step.name);
    if existing.Some? && !Expired(cfg, existing.value, step.now) {
      assert s.groups[step.name := existing.value] == s.groups;
    }
  }

  /** A reload keeps a group as it was, whatever the new partition count. */
  lemma ReloadedGroup(g: Group, n: nat)
    requires Sound(n, g)
    ensures var h := Load(Save(g));
            Sound(n, h) && Save(h) == Save(g) && Advances(g, h) && h.generation == g.generation
  {
    SaveLoad(g);
    SaveLoadSave(g);
  }

  lemma ReloadedAll(s: Coordinator, name: string)
    requires AllSettled(s.groups) && s.file == SaveAll(s.groups) && name in s.groups
    ensures var h := Load(s.file[name]);
            Settled(h) && Save(h) == s.file[name] && Advances(s.groups[name], h)
  {
    var n: nat :| Sound(n, s.groups[name]);
    ReloadedGroup(s.groups[name], n);
  }

  /** A reload of the whole file changes neither the file nor any configuration. */
  lemma RestartKeeps(s: Coordinator)
    requires AllSettled(s.groups) && s.file == SaveAll(s.groups)
    ensures var t := Coordinator(LoadAll(s.file), s.file);
            AllSettled(t.groups) && t.file == SaveAll(t.groups) && Progress(s, t)
  {
    var t := Coordinator(LoadAll(s.file), s.file);
    assert t.groups.Keys == s.groups.Keys;
    forall name | name in t.groups
      ensures Settled(t.groups[name]) && Advances(s.groups[name], t.groups[name])
      ensures s.file[name] == Save(t.groups[name])
    {
      ReloadedAll(s, name);
    }
    SavedAs(t.groups, s.file);
  }

  lemma SavedAs(groups: map<string, Group>, file: map<string, Saved>)
    requires groups.Keys == file.Keys && forall name :: name in groups ==> file[name] == Save(groups[name])
    ensures file == SaveAll(groups)
  {
  }

  lemma {:induction false} Invariant(settings: seq<Settings>, states: seq<Coordinator>, steps: seq<Step>, k: nat)
    requires Run(settings, states, steps) && k < |states|
    ensures AllSettled(states[k].groups) && states[k].file == SaveAll(states[k].groups)
  {
    if k == 0 {
    } else {
      Invariant(settings, states, steps, k - 1);
      assert Leads(settings[k - 1], states[k - 1], steps[k - 1], settings[k], states[k]);
      if steps[k - 1].Restart? {
        RestartKeeps(states[k - 1]);
      } else {
        InvokeKeeps(settings[k - 1], states[k - 1], steps[k - 1]);
        InvokePersists(settings[k - 1], states[k - 1], steps[k - 1]);
      }
    }
  }

  lemma StepProgress(settings: seq<Settings>, states: seq<Coordinator>, steps: seq<Step>, k: nat)
    requires Run(settings, states, steps) && k < |steps|
    ensures Progress(states[k], states[k + 1])
  {
    Invariant(settings, states, steps, k);
    assert Leads(settings[k], states[k], steps[k], settings[k + 1], states[k + 1]);
    if steps[k].Restart? {
      RestartKeeps(states[k]);
    } else {
      InvokeKeeps(settings[k], states[k], steps[k]);
    }
  }

  lemma {:induction false} ProgressAlong(states: seq<Coordinator>, i: nat, j: nat)
    requires i <= j < |states| && forall k :: i <= k < j ==> Progress(states[k], states[k + 1])
    ensures Progress(states[i], states[j])
    decreases j
  {
    if i < j {
      ProgressAlong(states, i, j - 1);
      forall name | name in states[i].groups
        ensures name in states[j].groups && Advances(states[i].groups[name], states[j].groups[name])
      {
        AdvancesTransitive(states[i].groups[name], states[j - 1].groups[name], states[j].groups[name]);
      }
    } else {
      assert forall name :: name in states[i].groups ==> Advances(states[i].groups[name], states[i].groups[name]);
    }
  }

  // ---- Incremental equals from scratch ----

  /** The current generation of the group began in state j. */
  ghost predicate BeganAt(states: seq<Coordinator>, name: string, j: nat, k: nat)
    requires k < |states| && name in states[k].groups
  {
    && 0 < j <= k && name in states[j].groups && states[j].groups[name].generation == states[k].groups[name].generation
    && (name in states[j - 1].groups ==> states[j - 1].groups[name].generation < states[j].groups[name].generation)
  }

  /** It began there with a rebalance over the partitions the broker had then. */
  ghost predicate RebalancedAt(settings: seq<Settings>, states: seq<Coordinator>, name: string, j: nat, k: nat)
    requires k < |states| == |settings| && name in states[k].groups
  {
    BeganAt(states, name, j, k) && Sound(settings[j].partitions, states[k].groups[name])
  }

  /** What one step does to a group: it is created or rebalanced over the current partitions, or keeps its own. */
  ghost predicate Moves(current: nat, s: Coordinator, t: Coordinator, name: string) {
    if name !in s.groups then name in t.groups ==> Sound(current, t.groups[name])
    else
      && name in t.groups && s.groups[name].generation <= t.groups[name].generation
      && (t.groups[name].generation == s.groups[name].generation ==> Kept(s.groups[name], t.groups[name]))
      && (t.groups[name].generation > s.groups[name].generation ==> Sound(current, t.groups[name]))
  }

  ghost predicate Kept(g: Group, h: Group) {
    forall n: nat :: Sound(n, g) ==> Sound(n, h)
  }

  /** A step that creates the group. */
  lemma BornGroup(cfg: Settings, s: Coordinator, step: Step, t: Coordinator, name: string)
    requires s.file == SaveAll(s.groups) && name !in s.groups && name in t.groups && t == Next(cfg, s, step)
    ensures step.Invoke? && Sound(cfg.partitions, t.groups[name])
  {
    if step.Invoke? {
      FirstSound(cfg, step.call, step.now, step.later);
    }
  }

  /** A step on a group that was last rebalanced over n partitions. */
  lemma SteppedGroup(cfg: Settings, s: Coordinator, step: Step, t: Coordinator, name: string, n: nat)
    requires s.file == SaveAll(s.groups) && name in s.groups && Sound(n, s.groups[name]) && t == Next(cfg, s, step)
    ensures name in t.groups && s.groups[name].generation <= t.groups[name].generation
    ensures t.groups[name].generation == s.groups[name].generation ==> Sound(n, t.groups[name])
    ensures t.groups[name].generation != s.groups[name].generation ==>
              step.Invoke? && Sound(cfg.partitions, t.groups[name])
  {
    if step.Restart? {
      ReloadedGroup(s.groups[name], n);
    } else if step.name == name {
      AfterSound(cfg, s.groups[name], step.call, step.now, step.later, n);
    }
  }

  lemma StepMoves(cfg: Settings, s: Coordinator, step: Step, after: Settings, t: Coordinator, name: string)
    requires AllSettled(s.groups) && s.file == SaveAll(s.groups) && Leads(cfg, s, step, after, t)
    ensures Moves(after.partitions, s, t, name)
  {
    if name !in s.groups {
      if name in t.groups {
        BornGroup(cfg, s, step, t, name);
      }
    } else {
      forall n: nat | Sound(n, s.groups[name])
        ensures name in t.groups && s.groups[name].generation <= t.groups[name].generation
        ensures t.groups[name].generation == s.groups[name].generation ==> Sound(n, t.groups[name])
        ensures t.groups[name].generation > s.groups[name].generation ==> Sound(after.partitions, t.groups[name])
      {
        SteppedGroup(cfg, s, step, t, name, n);
      }
      assert Settled(s.groups[name]);
    }
  }

  /** The generation of state k began at k, or wherever that of state k - 1 did. */
  lemma StepRebalance(settings: seq<Settings>, states: seq<Coordinator>, k: nat, name: string, i: nat)
    returns (j: nat)
    requires 0 < k < |states| == |settings| && name in states[k].groups
    requires Moves(settings[k].partitions, states[k - 1], states[k], name)
    requires name in states[k - 1].groups ==> RebalancedAt(settings, states, name, i, k - 1)
    ensures RebalancedAt(settings, states, name, j, k)
  {
    var s, t := states[k - 1], states[k];
    j := if name in s.groups && t.groups[name].generation == s.groups[name].generation then i else k;
  }

  lemma {:induction false} LastRebalance(settings: seq<Settings>, states: seq<Coordinator>, steps: seq<Step>, k: nat,
                                         name: string)
    returns (j: nat)
    requires Run(settings, states, steps) && k < |states| && name in states[k].groups
    ensures RebalancedAt(settings, states, name, j, k)
  {
    var i := k - 1;
    Invariant(settings, states, steps, i);
    StepMoves(settings[i], states[i], steps[i], settings[k], states[k], name);
    j := k;
    if name in states[i].groups {
      j := LastRebalance(settings, states, steps, i, name);
    }
    j := StepRebalance(settings, states, k, name, j);
  }

  /** Incremental equals from-scratch: in every state of every run a group's member list is free of
      duplicates, and its assignment is the assignor applied to the set of members and the partition
      count at the time its generation began. That is the coordinator's own count if and only if
      no restart has changed the count since, or the group is empty. */
  lemma FromScratch(settings: seq<Settings>, states: seq<Coordinator>, steps: seq<Step>, k: nat, name: string)
    returns (j: nat)
    requires Run(settings, states, steps) && k < |states| && name in states[k].groups
    ensures BeganAt(states, name, j, k)
    ensures var g := states[k].groups[name];
            && Distinct(g.memberOrder) && Elements(g.memberOrder) == g.members.Keys
            && g.assignments == Rebalanced(g.assignor, g.members.Keys, settings[j].partitions)
            && (g.members.Keys != {} ==> Balanced(g.members.Keys, settings[j].partitions, g.assignments))
            && (g.assignments == Rebalanced(g.assignor, g.members.Keys, settings[k].partitions)
                <==> g.members.Keys == {} || settings[j].partitions == settings[k].partitions)
  {
    j := LastRebalance(settings, states, steps, k, name);
    var g := states[k].groups[name];
    if g.members.Keys != {} {
      RebalancedExact(g.assignor, g.members.Keys, settings[j].partitions);
    }
    CountShows(g.assignor, g.members.Keys, settings[j].partitions, settings[k].partitions);
  }

  /** The generation pins the configuration: over a run with restarts, a group's generation never
      falls, and two states with the same generation have the same topic, assignor, members and
      assignment. */
  lemma GenerationPins(settings: seq<Settings>, states: seq<Coordinator>, steps: seq<Step>, i: nat, j: nat,
                       name: string)
    requires Run(settings, states, steps) && i <= j < |states| && name in states[i].groups
    ensures name in states[j].groups
    ensures states[i].groups[name].generation <= states[j].groups[name].generation
    ensures states[i].groups[name].generation == states[j].groups[name].generation ==>
              SameConfig(states[i].groups[name], states[j].groups[name])
  {
    forall k | i <= k < j
      ensures Progress(states[k], states[k + 1])
    {
      StepProgress(settings, states, steps, k);
    }
    ProgressAlong(states, i, j);
  }

  /** Step k is a ValidateCommit that passes. */
  ghost predicate Passes(settings: seq<Settings>, states: seq<Coordinator>, steps: seq<Step>, k: nat, name: string,
                         id: string,
                         generation: int, partition: int)
    requires k < |steps| && k < |states| && k < |settings|
  {
    && steps[k].Invoke? && steps[k].name == name && steps[k].call.ValidateCommit?
    && steps[k].call.id == id && steps[k].call.generation == generation && steps[k].call.partition == partition
    && Answer(settings[k], Find(states[k].groups, name), steps[k].call, steps[k].now).Accepted?
  }

  lemma PassMeaning(settings: seq<Settings>, states: seq<Coordinator>, steps: seq<Step>, k: nat, name: string,
                    id: string,
                    generation: int, partition: int)
    requires Run(settings, states, steps) && k < |steps|
    requires Passes(settings, states, steps, k, name, id, generation, partition)
    ensures name in states[k + 1].groups
    ensures var g := states[k + 1].groups[name];
            g.generation == generation && g.topic == steps[k].call.topic && partition in Owned(g.assignments, id)
  {
    assert Leads(settings[k], states[k], steps[k], settings[k + 1], states[k + 1]);
  }

  /** Exclusive ownership: over any whole run, restarts included, for each group, generation and
      partition at most one consumer ever passes ValidateCommit, and for one topic only. */
  lemma ExclusiveOwnership(settings: seq<Settings>, states: seq<Coordinator>, steps: seq<Step>, i: nat, j: nat,
                           name: string,
                           generation: int, partition: int, c: string, d: string)
    requires Run(settings, states, steps) && i < |steps| && j < |steps|
    requires Passes(settings, states, steps, i, name, c, generation, partition)
    requires Passes(settings, states, steps, j, name, d, generation, partition)
    ensures c == d && steps[i].call.topic == steps[j].call.topic
  {
    if i > j {
      ExclusiveOwnership(settings, states, steps, j, i, name, generation, partition, d, c);
    } else {
      PassMeaning(settings, states, steps, i, name, c, generation, partition);
      PassMeaning(settings, states, steps, j, name, d, generation, partition);
      GenerationPins(settings, states, steps, i + 1, j + 1, name);
      OneOwner(settings, states, steps, i + 1, name, partition, c, d);
    }
  }

  lemma OneOwner(settings: seq<Settings>, states: seq<Coordinator>, steps: seq<Step>, k: nat, name: string,
                 partition: int, c: string, d: string)
    requires Run(settings, states, steps) && k < |states| && name in states[k].groups
    requires partition in Owned(states[k].groups[name].assignments, c)
    requires partition in Owned(states[k].groups[name].assignments, d)
    ensures c == d
  {
    var j := FromScratch(settings, states, steps, k, name);
    assert states[k].groups[name].members.Keys != {};
  }

  /** A restart at any point of a run, with any partition count, gives back the same groups,
      generations, member lists and assignments; only heartbeats change, by less than a millisecond. */
  lemma RestartTransparent(settings: seq<Settings>, states: seq<Coordinator>, steps: seq<Step>, k: nat,
                           partitions: nat, name: string)
    requires Run(settings, states, steps) && k < |states|
    ensures var t := Next(settings[k], states[k], Restart(partitions)).groups;
            && (name in t <==> name in states[k].groups)
            && (name in t ==>
                  var g, h := states[k].groups[name], t[name];
                  && h == g.(members := h.members) && h.members.Keys == g.members.Keys
                  && forall id :: id in g.members ==> h.members[id] <= g.members[id] < h.members[id] + MILLISECOND)
  {
    Invariant(settings, states, steps, k);
    if name in states[k].groups {
      var g := states[k].groups[name];
      SaveLoad(g);
      assert Next(settings[k], states[k], Restart(partitions)).groups[name] == Load(Save(g));
    }
  }
}
