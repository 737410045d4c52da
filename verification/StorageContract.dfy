/** What replication needs of a node's storage engine, and the proof that the segmented log gives
    it. The protocol is proved over any engine that keeps this contract. */
module StorageContract {
  import opened Text
  import opened LogLine
  import opened SegmentedLog
  import opened LogDurability
  import PartitionHistory

  /** step is one storage operation, rebase moves a base by what the operation's retention pass drops, and
      readable says which records survive being loaded from disk. faithful(log, values) says that the
      log holds exactly the newest of these values; carries(log, values, base) only that it holds them
      from the base on, whatever else it holds. */
  datatype Engine = Engine(
    step: (Log, Op) -> Log,
    rebase: (Log, Op, int) -> int,
    readable: (int, int, string) -> bool,
    faithful: (Log, seq<string>) -> bool,
    carries: (Log, seq<string>, int) -> bool)

  /** A node's storage. The other fields only record its past and do not influence what it does: values
      are those it accepted before the first one that was not readable, intact says that there was none
      such, base counts the records that retention dropped, and reach is the furthest its log ever ran. */
  datatype Node = Node(engine: Engine, log: Log, values: seq<string>, intact: bool, base: int, reach: int)

  function NewNode(engine: Engine): Node {
    Node(engine, Fresh(map[]), [], true, 0, 0)
  }

  predicate Survives(n: Node, op: Op) {
    SurvivesOn(n.engine, n.log, op)
  }

  predicate SurvivesOn(e: Engine, log: Log, op: Op) {
    var added := Added(log, op);
    added == [] || e.readable(log.nextOffset, op.now, added[0])
  }

  function Operate(n: Node, op: Op): Node {
    var log, added, intact := n.engine.step(n.log, op), Added(n.log, op), n.intact && Survives(n, op);
    Node(n.engine, log, if intact then n.values + added else n.values, intact,
         n.engine.rebase(n.log, op, n.base), Max(n.reach, Max(n.log.nextOffset + |added|, log.nextOffset)))
  }

  /** The history an intact node stands for. */
  function HistoryOf(n: Node): PartitionHistory.History
    requires 0 <= n.base
  {
    PartitionHistory.History(n.values, n.base)
  }

  /** The offset that the cache starts at if it holds the newest of these values. */
  function Start(log: Log, values: seq<string>): int {
    |values| - |log.cache|
  }

  /** The log is these values from the base on, and numbers the next record after all of them. */
  ghost predicate InOrder(log: Log, values: seq<string>) {
    && |log.cache| <= |values|
    && log.nextOffset == |values|
    && (var h := PartitionHistory.History(values, Start(log, values));
        PartitionHistory.Valid(h) && log.cache == PartitionHistory.Cache(h))
  }

  /** The node's cache is that of its history. */
  ghost predicate Orderly(n: Node) {
    n.base == Start(n.log, n.values) && n.reach == |n.values| && InOrder(n.log, n.values)
  }

  ghost predicate Faithful(n: Node) {
    && n.engine.carries(n.log, n.values, n.base)
    && n.log.nextOffset <= n.reach && 0 <= n.reach
    && (n.intact ==>
          n.engine.faithful(n.log, n.values) && n.base == Start(n.log, n.values) && n.reach == |n.values|)
  }

  ghost predicate StartsFaithful(e: Engine) {
    e.faithful(Fresh(map[]), [])
  }

  ghost predicate FaithfulIsOrderly(e: Engine) {
    forall log, values :: e.faithful(log, values) ==> InOrder(log, values)
  }

  ghost predicate FaithfulCarries(e: Engine) {
    forall log, values :: e.faithful(log, values) ==> e.carries(log, values, Start(log, values))
  }

  /** On a faithful log only retention moves the base. */
  ghost predicate StepsFaithfully(e: Engine) {
    forall log, values, op :: e.faithful(log, values) && SurvivesOn(e, log, op) ==>
      && e.faithful(e.step(log, op), values + Added(log, op))
      && Start(e.step(log, op), values + Added(log, op)) == e.rebase(log, op, Start(log, values))
  }

  ghost predicate HeldFrom(cache: seq<Message>, values: seq<string>, base: int) {
    0 <= base && forall o :: base <= o < |values| ==> Message(o, values[o]) in cache
  }

  ghost predicate CarriedIsHeld(e: Engine) {
    forall log, values, base :: e.carries(log, values, base) ==> HeldFrom(log.cache, values, base)
  }

  /** Whatever the record, nothing older is lost except to retention. */
  ghost predicate StepsCarry(e: Engine) {
    forall log, values, base, op :: e.carries(log, values, base) ==>
      base <= e.rebase(log, op, base) && e.carries(e.step(log, op), values, e.rebase(log, op, base))
  }

  ghost predicate Reliable(e: Engine) {
    && StartsFaithful(e) && FaithfulIsOrderly(e) && StepsFaithfully(e)
    && FaithfulCarries(e) && CarriedIsHeld(e) && StepsCarry(e)
  }

  lemma NewIsFaithful(e: Engine)
    requires Reliable(e)
    ensures Faithful(NewNode(e))
  {
    assert e.carries(Fresh(map[]), [], 0);
  }

  lemma OperateKeeps(n: Node, op: Op)
    requires Reliable(n.engine) && Faithful(n)
    ensures Faithful(Operate(n, op)) && n.values <= Operate(n, op).values && n.base <= Operate(n, op).base
    ensures Operate(n, op).intact <==> n.intact && Survives(n, op)
  {
    if Operate(n, op).intact {
      OperatesIntact(n, op);
    }
  }

  lemma OperatesIntact(n: Node, op: Op)
    requires Reliable(n.engine) && Faithful(n) && Operate(n, op).intact
    ensures var t := Operate(n, op);
            && t.engine.faithful(t.log, t.values) && t.base == Start(t.log, t.values) && t.reach == |t.values|
            && t.engine.carries(t.log, t.values, t.base)
  {
    var t := Operate(n, op);
    assert n.engine.faithful(n.log, n.values) && SurvivesOn(n.engine, n.log, op);
    assert InOrder(n.log, n.values);
    FaithfulMeans(t.engine, t.log, t.values, t.base);
  }

  lemma FaithfulMeans(e: Engine, log: Log, values: seq<string>, base: int)
    requires Reliable(e) && e.faithful(log, values) && base == Start(log, values)
    ensures InOrder(log, values) && e.carries(log, values, base)
  {
  }

  lemma IntactIsOrderly(n: Node)
    requires Reliable(n.engine) && Faithful(n) && n.intact
    ensures Orderly(n)
  {
  }

  lemma HeldByNode(n: Node, o: int)
    requires Reliable(n.engine) && Faithful(n) && n.base <= o < |n.values|
    ensures Message(o, n.values[o]) in n.log.cache
  {
    assert HeldFrom(n.log.cache, n.values, n.base);
  }

  // ---- The segmented log ----

  ghost function Segmented(limits: Limits): Engine {
    Engine((log, op) => Step(limits, log, op),
           (log, op, base) => Rebase(limits, log, op, base),
           (offset, now, value) => Readable(offset, now, value),
           (log, values) => Exact(limits, log, values),
           (log, values, base) => Lasting(log, values, base))
  }

  ghost predicate Exact(limits: Limits, log: Log, values: seq<string>) {
    Inv(limits, log) && Represents(log, values)
  }

  lemma SegmentedSteps(limits: Limits, log: Log, values: seq<string>, op: Op)
    requires Inv(limits, log) && Represents(log, values) && ReadableStep(log, op)
    ensures Inv(limits, Step(limits, log, op)) && Represents(Step(limits, log, op), values + Added(log, op))
    ensures Start(Step(limits, log, op), values + Added(log, op)) == Rebase(limits, log, op, Start(log, values))
  {
    StepKeeps(limits, log, op, values);
    RetentionMovesBase(limits, log, op, values);
  }

  lemma SegmentedHolds(log: Log, values: seq<string>, base: int)
    requires Carries(log, values, base)
    ensures HeldFrom(log.cache, values, base)
  {
    forall o | base <= o < |values|
      ensures Message(o, values[o]) in log.cache
    {
      LogDurability.CarriedIsHeld(log, values, base, o);
    }
  }

  lemma ExactMeans(limits: Limits, log: Log, values: seq<string>)
    ensures Exact(limits, log, values) ==> InOrder(log, values) && Lasting(log, values, Start(log, values))
  {
    if Exact(limits, log, values) {
      RepresentsHistory(log, values);
      GoodCarries(limits, log, values);
    }
  }

  lemma SegmentedIsOrderly(limits: Limits)
    ensures FaithfulIsOrderly(Segmented(limits))
  {
    var e := Segmented(limits);
    forall log, values | e.faithful(log, values)
      ensures InOrder(log, values)
    {
      ExactMeans(limits, log, values);
    }
  }

  lemma SegmentedIsCarried(limits: Limits)
    ensures FaithfulCarries(Segmented(limits))
  {
    var e := Segmented(limits);
    forall log, values | e.faithful(log, values)
      ensures e.carries(log, values, Start(log, values))
    {
      ExactMeans(limits, log, values);
    }
  }

  lemma SegmentedIsFaithful(limits: Limits)
    ensures StepsFaithfully(Segmented(limits))
  {
    var e := Segmented(limits);
    forall log, values, op | e.faithful(log, values) && SurvivesOn(e, log, op)
      ensures e.faithful(e.step(log, op), values + Added(log, op))
      ensures Start(e.step(log, op), values + Added(log, op)) == e.rebase(log, op, Start(log, values))
    {
      SegmentedSteps(limits, log, values, op);
    }
  }

  lemma SegmentedIsHeld(limits: Limits)
    ensures CarriedIsHeld(Segmented(limits))
  {
    forall log, values, base | Lasting(log, values, base)
      ensures HeldFrom(log.cache, values, base)
    {
      SegmentedHolds(log, values, base);
    }
  }

  lemma SegmentedStepsCarry(limits: Limits)
    ensures StepsCarry(Segmented(limits))
  {
    var e := Segmented(limits);
    forall log, values, base, op | e.carries(log, values, base)
      ensures base <= e.rebase(log, op, base) && e.carries(e.step(log, op), values, e.rebase(log, op, base))
    {
      StepLasts(limits, log, op, values, base);
    }
  }

  /** The segmented storage engine keeps the contract, whatever its limits. */
  lemma SegmentedReliable(limits: Limits)
    ensures Reliable(Segmented(limits))
  {
    FreshKeeps(limits);
    SegmentedIsOrderly(limits);
    SegmentedIsFaithful(limits);
    SegmentedIsCarried(limits);
    SegmentedIsHeld(limits);
    SegmentedStepsCarry(limits);
  }
}
