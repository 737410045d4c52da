/** The two partition assignors of the consumer-group coordinator. */
module Assignors {
  import opened Ordering
  import opened Numbers

  type Assignment = map<string, seq<int>>

  /** A lookup that treats a missing entry as an empty list, as Go's map index does. */
  function Owned(a: Assignment, member: string): seq<int> {
    if member in a then a[member] else []
  }

  // ---- Round robin ----

  function RoundRobin(members: seq<string>, n: nat): Assignment
    requires members != []
  {
    if n == 0 then map[]
    else
      var a, member := RoundRobin(members, n - 1), members[(n - 1) % |members|];
      a[member := Owned(a, member) + [n - 1]]
  }

  method AssignRoundRobin(members: seq<string>, n: nat) returns (a: Assignment)
    requires members != []
    ensures a == RoundRobin(members, n)
  {
    a := map[];
    for partition := 0 to n
      invariant a == RoundRobin(members, partition)
    {
      var member := members[partition % |members|];
      a := a[member := Owned(a, member) + [partition]];
    }
  }

  // ---- Range ----

  /** How many of n partitions the k-th of size members gets. */
  function Count(n: nat, size: nat, k: nat): nat
    requires size > 0
  {
    n / size + (if k < n % size then 1 else 0)
  }

  /** Where the k-th member's block begins. */
  function StartOf(n: nat, size: nat, k: nat): nat
    requires size > 0
  {
    if k == 0 then 0 else StartOf(n, size, k - 1) + Count(n, size, k - 1)
  }

  function Block(from: int, count: nat): (parts: seq<int>)
    ensures |parts| == count && forall i :: 0 <= i < count ==> parts[i] == from + i
  {
    seq(count, i => from + i)
  }

  function RangeUpTo(members: seq<string>, n: nat, k: nat): Assignment
    requires k <= |members|
  {
    if k == 0 then map[]
    else RangeUpTo(members, n, k - 1)
         [members[k - 1] := Block(StartOf(n, |members|, k - 1), Count(n, |members|, k - 1))]
  }

  function Range(members: seq<string>, n: nat): Assignment {
    RangeUpTo(members, n, |members|)
  }

  method AssignRange(members: seq<string>, n: nat) returns (a: Assignment)
    requires members != []
    ensures a == Range(members, n)
  {
    var base, extra := n / |members|, n % |members|;
    var start := 0;
    a := map[];
    for i := 0 to |members|
      invariant a == RangeUpTo(members, n, i)
      invariant start == StartOf(n, |members|, i)
    {
      var count := base;
      if i < extra {
        count := count + 1;
      }
      if count == 0 {
        a := a[members[i] := []];
        continue;
      }
      var parts: seq<int> := [];
      var p := start;
      while p < start + count
        invariant start <= p <= start + count
        invariant parts == Block(start, p - start)
      {
        parts := parts + [p];
        p := p + 1;
      }
      a := a[members[i] := parts];
      start := start + count;
    }
  }

  // ---- Exact splits ----

  /** Every partition 0..n-1 goes to exactly one member, lists are ascending, and the k-th
      member's load is n divided by the number of members, rounded up for the first n % size. */
  ghost predicate ExactSplit(members: seq<string>, n: nat, a: Assignment)
    requires members != []
  {
    && (forall m :: m in a ==> m in members)
    && (forall k :: 0 <= k < |members| ==>
          Increasing(Owned(a, members[k])) && |Owned(a, members[k])| == Count(n, |members|, k))
    && (forall k, p :: 0 <= k < |members| && p in Owned(a, members[k]) ==> 0 <= p < n)
    && (forall p :: 0 <= p < n ==> HasOwner(members, a, p))
    && (forall i, j, p :: 0 <= i < j < |members| && p in Owned(a, members[i]) ==> p !in Owned(a, members[j]))
  }

  ghost predicate HasOwner(members: seq<string>, a: Assignment, p: int) {
    exists k :: 0 <= k < |members| && p in Owned(a, members[k])
  }

  /** Handing out partition n raises exactly the load of member n % size. */
  lemma CountStep(n: nat, size: nat, k: nat)
    requires size > 0 && k < size
    ensures Count(n + 1, size, k) == Count(n, size, k) + if n % size == k then 1 else 0
  {
    var q, r := n / size, n % size;
    if r + 1 < size {
      DivModUnique(n + 1, size, q, r + 1);
    } else {
      assert n + 1 == (q + 1) * size + 0;
      DivModUnique(n + 1, size, q + 1, 0);
    }
  }

  /** The k-th member's share of the first n partitions. */
  ghost predicate RoundRobinShare(owned: seq<int>, n: nat, size: nat, k: nat)
    requires size > 0
  {
    && Increasing(owned)
    && |owned| == Count(n, size, k)
    && forall p :: p in owned <==> 0 <= p < n && Slot(p, size) == k
  }

  function Slot(p: int, size: nat): int
    requires size > 0
  {
    p % size
  }

  lemma ShareStep(owned: seq<int>, n: nat, size: nat, k: nat)
    requires size > 0 && k < size && RoundRobinShare(owned, n, size, k)
    ensures RoundRobinShare(if Slot(n, size) == k then owned + [n] else owned, n + 1, size, k)
  {
    CountStep(n, size, k);
    if Slot(n, size) == k {
      ShareGrows(owned, n);
    }
  }

  lemma ShareGrows(owned: seq<int>, n: nat)
    requires Increasing(owned) && forall p :: p in owned ==> 0 <= p < n
    ensures Increasing(owned + [n])
    ensures forall p :: p in owned + [n] <==> p in owned || p == n
  {
    assert forall i :: 0 <= i < |owned| ==> owned[i] in owned;
  }

  lemma {:induction false} RoundRobinOwned(members: seq<string>, n: nat, k: nat)
    requires members != [] && Distinct(members) && k < |members|
    ensures RoundRobinShare(Owned(RoundRobin(members, n), members[k]), n, |members|, k)
  {
    if n == 0 {
    } else {
      RoundRobinOwned(members, n - 1, k);
      var turn := Slot(n - 1, |members|);
      assert turn != k ==> members[turn] != members[k];
      ShareStep(Owned(RoundRobin(members, n - 1), members[k]), n - 1, |members|, k);
    }
  }

  lemma {:induction false} RoundRobinKeys(members: seq<string>, n: nat)
    requires members != []
    ensures forall m :: m in RoundRobin(members, n) ==> m in members
  {
    if n == 0 {
    } else {
      RoundRobinKeys(members, n - 1);
    }
  }

  lemma RoundRobinExact(members: seq<string>, n: nat)
    requires members != [] && Distinct(members)
    ensures ExactSplit(members, n, RoundRobin(members, n))
  {
    var a := RoundRobin(members, n);
    RoundRobinKeys(members, n);
    forall k | 0 <= k < |members|
      ensures RoundRobinShare(Owned(a, members[k]), n, |members|, k)
    {
      RoundRobinOwned(members, n, k);
    }
    forall p | 0 <= p < n
      ensures HasOwner(members, a, p)
    {
      assert p in Owned(a, members[Slot(p, |members|)]);
    }
  }

  lemma OneMore(k: int, q: int)
    ensures (k - 1) * q + q == k * q
  {
  }

  lemma {:induction false} StartClosed(n: nat, size: nat, k: nat)
    requires size > 0 && k <= size
    ensures StartOf(n, size, k) == k * (n / size) + (if k < n % size then k else n % size)
  {
    if k == 0 {
    } else {
      StartClosed(n, size, k - 1);
      OneMore(k, n / size);
    }
  }

  /** The blocks end exactly at n. */
  lemma StartEnds(n: nat, size: nat)
    requires size > 0
    ensures StartOf(n, size, size) == n
  {
    StartClosed(n, size, size);
  }

  lemma {:induction false} StartMonotone(n: nat, size: nat, i: nat, j: nat)
    requires size > 0 && i <= j
    ensures StartOf(n, size, i) <= StartOf(n, size, j)
    decreases j
  {
    if i == j {
    } else {
      StartMonotone(n, size, i, j - 1);
    }
  }

  lemma {:induction false} BlockOf(n: nat, size: nat, k: nat, p: int) returns (i: nat)
    requires size > 0 && 0 <= p < StartOf(n, size, k)
    ensures i < k && StartOf(n, size, i) <= p < StartOf(n, size, i + 1)
  {
    if p >= StartOf(n, size, k - 1) {
      i := k - 1;
    } else {
      i := BlockOf(n, size, k - 1, p);
    }
  }

  lemma {:induction false} RangeOwned(members: seq<string>, n: nat, upTo: nat, k: nat)
    requires Distinct(members) && k < upTo <= |members|
    ensures Owned(RangeUpTo(members, n, upTo), members[k]) == Shard(n, |members|, k)
    decreases upTo
  {
    if k == upTo - 1 {
    } else {
      RangeOwned(members, n, upTo - 1, k);
      assert members[upTo - 1] != members[k];
    }
  }

  lemma {:induction false} RangeKeys(members: seq<string>, n: nat, k: nat)
    requires k <= |members|
    ensures forall m :: m in RangeUpTo(members, n, k) ==> m in members
  {
    if k == 0 {
    } else {
      RangeKeys(members, n, k - 1);
    }
  }

  lemma InBlock(n: nat, size: nat, k: nat, p: int)
    requires size > 0
    ensures p in Block(StartOf(n, size, k), Count(n, size, k)) <==> StartOf(n, size, k) <= p < StartOf(n, size, k + 1)
  {
    var parts := Block(StartOf(n, size, k), Count(n, size, k));
    if StartOf(n, size, k) <= p < StartOf(n, size, k + 1) {
      assert parts[p - StartOf(n, size, k)] == p;
    }
  }

  /** Range blocks are consecutive, and both assignors give the same loads. */
  lemma RangeExact(members: seq<string>, n: nat)
    requires members != [] && Distinct(members)
    ensures ExactSplit(members, n, Range(members, n))
    ensures forall k :: 0 <= k < |members| ==> Owned(Range(members, n), members[k]) == Shard(n, |members|, k)
  {
    RangeKeys(members, n, |members|);
    forall k | 0 <= k < |members|
      ensures Owned(Range(members, n), members[k]) == Shard(n, |members|, k)
    {
      RangeOwned(members, n, |members|, k);
    }
    ShardsSplit(members, n, Range(members, n));
  }

  lemma ShardsSplit(members: seq<string>, n: nat, a: Assignment)
    requires members != [] && forall m :: m in a ==> m in members
    requires forall k :: 0 <= k < |members| ==> Owned(a, members[k]) == Shard(n, |members|, k)
    ensures ExactSplit(members, n, a)
  {
    var size := |members|;
    forall k, p | 0 <= k < size && p in Owned(a, members[k])
      ensures 0 <= p < n
    {
      ShardWithin(n, size, k, p);
    }
    forall p | 0 <= p < n
      ensures HasOwner(members, a, p)
    {
      var k := ShardOf(n, size, p);
      assert p in Owned(a, members[k]);
    }
    forall i, j, p | 0 <= i < j < size && p in Owned(a, members[i])
      ensures p !in Owned(a, members[j])
    {
      ShardsDisjoint(n, size, i, j, p);
    }
  }

  /** The k-th member's block. */
  function Shard(n: nat, size: nat, k: nat): (parts: seq<int>)
    requires size > 0
    ensures Increasing(parts) && |parts| == Count(n, size, k)
  {
    Block(StartOf(n, size, k), Count(n, size, k))
  }

  lemma ShardWithin(n: nat, size: nat, k: nat, p: int)
    requires size > 0 && k < size && p in Shard(n, size, k)
    ensures 0 <= p < n
  {
    InBlock(n, size, k, p);
    StartMonotone(n, size, k + 1, size);
    StartEnds(n, size);
  }

  lemma ShardOf(n: nat, size: nat, p: int) returns (k: nat)
    requires size > 0 && 0 <= p < n
    ensures k < size && p in Shard(n, size, k)
  {
    StartEnds(n, size);
    k := BlockOf(n, size, size, p);
    InBlock(n, size, k, p);
  }

  lemma ShardsDisjoint(n: nat, size: nat, i: nat, j: nat, p: int)
    requires size > 0 && i < j && p in Shard(n, size, i)
    ensures p !in Shard(n, size, j)
  {
    InBlock(n, size, i, p);
    InBlock(n, size, j, p);
    StartMonotone(n, size, i + 1, j);
  }

  // ---- Rebalancing ----

  const RANGE := "range"
  const ROUND_ROBIN := "round_robin"

  /** rebalanceLocked's result: a function of the assignor, the set of members and the number of
      partitions alone. */
  function Rebalanced(assignor: string, ids: set<string>, n: nat): Assignment {
    if ids == {} then map[]
    else
      StringOrder();
      var members := Sorted(StringLeq, ids);
      if assignor == RANGE then Range(members, n) else RoundRobin(members, n)
  }

  ghost predicate OwnedBySome(a: Assignment, ids: set<string>, p: int) {
    exists m :: m in ids && p in Owned(a, m)
  }

  /** Each partition has exactly one owner, among the members, and the loads of any two members
      differ by at most one. */
  ghost predicate Balanced(ids: set<string>, n: nat, a: Assignment) {
    && (forall m :: m in a ==> m in ids)
    && (forall m, p :: p in Owned(a, m) ==> 0 <= p < n)
    && (forall p :: 0 <= p < n ==> OwnedBySome(a, ids, p))
    && (forall l, m, p :: p in Owned(a, l) && p in Owned(a, m) ==> l == m)
    && (forall l, m :: l in ids && m in ids ==> |Owned(a, l)| <= |Owned(a, m)| + 1)
  }

  function IndexIn(members: seq<string>, m: string): (k: nat)
    requires m in members
    ensures k < |members| && members[k] == m
  {
    if members[0] == m then 0 else 1 + IndexIn(members[1..], m)
  }

  lemma SplitIsBalanced(members: seq<string>, ids: set<string>, n: nat, a: Assignment)
    requires members != [] && ExactSplit(members, n, a) && Elements(members) == ids
    ensures Balanced(ids, n, a)
  {
    assert forall m :: m in members <==> m in ids;
    forall p | 0 <= p < n
      ensures OwnedBySome(a, ids, p)
    {
      assert HasOwner(members, a, p);
      var k :| 0 <= k < |members| && p in Owned(a, members[k]);
      assert members[k] in ids;
    }
    forall m, p | p in Owned(a, m)
      ensures 0 <= p < n
    {
      assert members[IndexIn(members, m)] == m;
    }
    forall l, m, p | p in Owned(a, l) && p in Owned(a, m)
      ensures l == m
    {
      assert l in members && m in members;
      var i, j := IndexIn(members, l), IndexIn(members, m);
      assert members[i] == l && members[j] == m;
    }
    forall l, m | l in ids && m in ids
      ensures |Owned(a, l)| <= |Owned(a, m)| + 1
    {
      var i, j := IndexIn(members, l), IndexIn(members, m);
      assert members[i] == l && members[j] == m;
    }
  }

  /** A rebalance over any non-empty set of members is balanced, whatever the assignor. */
  lemma RebalancedExact(assignor: string, ids: set<string>, n: nat)
    requires ids != {}
    ensures Balanced(ids, n, Rebalanced(assignor, ids, n))
  {
    StringOrder();
    var members := Sorted(StringLeq, ids);
    assert |members| == |ids|;
    RangeExact(members, n);
    RoundRobinExact(members, n);
    SplitIsBalanced(members, ids, n, Rebalanced(assignor, ids, n));
  }

  lemma LargerCountShows(assignor: string, ids: set<string>, n: nat, m: nat)
    requires ids != {} && n < m
    ensures Rebalanced(assignor, ids, n) != Rebalanced(assignor, ids, m)
  {
    RebalancedExact(assignor, ids, n);
    RebalancedExact(assignor, ids, m);
    assert OwnedBySome(Rebalanced(assignor, ids, m), ids, n);
    var member :| member in ids && n in Owned(Rebalanced(assignor, ids, m), member);
    assert n !in Owned(Rebalanced(assignor, ids, n), member);
  }

  /** An assignment tells the number of partitions it was made for. */
  lemma CountShows(assignor: string, ids: set<string>, n: nat, m: nat)
    ensures Rebalanced(assignor, ids, n) == Rebalanced(assignor, ids, m) <==> ids == {} || n == m
  {
    if ids != {} {
      if n < m {
        LargerCountShows(assignor, ids, n, m);
      } else if m < n {
        LargerCountShows(assignor, ids, m, n);
      }
    }
  }
}
