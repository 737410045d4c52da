/** sort.Strings and sort.Ints on duplicate-free input: the ascending listing of a set. */
module Ordering {
  ghost predicate TotalOrder<T(!new)>(leq: (T, T) -> bool) {
    && (forall x, y :: leq(x, y) || leq(y, x))
    && (forall x, y :: leq(x, y) && leq(y, x) ==> x == y)
    && (forall x, y, z :: leq(x, y) && leq(y, z) ==> leq(x, z))
  }

  function Elements<T>(xs: seq<T>): set<T> {
    set x | x in xs
  }

  ghost predicate Distinct<T>(xs: seq<T>) {
    forall i, j :: 0 <= i < j < |xs| ==> xs[i] != xs[j]
  }

  ghost predicate Ascending<T>(leq: (T, T) -> bool, xs: seq<T>) {
    forall i, j :: 0 <= i < j < |xs| ==> leq(xs[i], xs[j]) && xs[i] != xs[j]
  }

  /** The next key of a Go map iteration: any element not visited yet. */
  method Choose<T(==)>(s: set<T>) returns (x: T)
    requires s != {}
    ensures x in s
  {
    x :| x in s;
  }

  /** How many elements are in the given set. */
  ghost function Tally<T>(xs: seq<T>, counted: set<T>): nat {
    if xs == [] then 0
    else Tally(xs[..|xs| - 1], counted) + if xs[|xs| - 1] in counted then 1 else 0
  }

  /** One more turn of a loop over xs. */
  lemma VisitNext<T>(xs: seq<T>, i: nat, counted: set<T>)
    requires Distinct(xs) && i < |xs|
    ensures xs[i] in Elements(xs) && xs[i] !in Elements(xs[..i]) && Elements(xs[..i + 1]) == Elements(xs[..i]) + {xs[i]}
    ensures Tally(xs[..i + 1], counted) == Tally(xs[..i], counted) + if xs[i] in counted then 1 else 0
  {
    assert xs[..i + 1] == xs[..i] + [xs[i]];
    assert xs[..i + 1][..i] == xs[..i];
  }

  lemma VisitEnds<T>(xs: seq<T>)
    ensures Elements(xs[..0]) == {} && xs[..|xs|] == xs
  {
  }

  lemma CountOne<T>(counted: set<T>, seen: set<T>, x: T)
    requires x !in seen
    ensures |counted * (seen + {x})| == |counted * seen| + if x in counted then 1 else 0
  {
    assert counted * (seen + {x}) == if x in counted then counted * seen + {x} else counted * seen;
  }

  lemma LastIsNew<T>(xs: seq<T>)
    requires Distinct(xs) && xs != []
    ensures var front, x := xs[..|xs| - 1], xs[|xs| - 1];
            Distinct(front) && x !in Elements(front) && Elements(xs) == Elements(front) + {x}
  {
    assert xs == xs[..|xs| - 1] + [xs[|xs| - 1]];
  }

  /** Visiting every element once counts the set. */
  lemma {:induction false} TallyCounts<T>(xs: seq<T>, counted: set<T>)
    requires Distinct(xs)
    ensures Tally(xs, counted) == |counted * Elements(xs)|
    ensures counted <= Elements(xs) ==> Tally(xs, counted) == |counted|
  {
    if xs == [] {
      assert counted * Elements(xs) == {};
    } else {
      var front, x := xs[..|xs| - 1], xs[|xs| - 1];
      LastIsNew(xs);
      TallyCounts(front, counted);
      CountOne(counted, Elements(front), x);
    }
    assert counted <= Elements(xs) ==> counted * Elements(xs) == counted;
  }

  predicate IsLeast<T(==, !new)>(leq: (T, T) -> bool, s: set<T>, m: T) {
    m in s && forall x :: x in s ==> leq(m, x)
  }

  lemma {:induction false} LeastExists<T(!new)>(leq: (T, T) -> bool, s: set<T>)
    requires TotalOrder(leq) && s != {}
    ensures exists m :: IsLeast(leq, s, m)
  {
    var e :| e in s;
    if s == {e} {
      assert IsLeast(leq, s, e);
    } else {
      LeastExists(leq, s - {e});
      var m :| IsLeast(leq, s - {e}, m);
      var least := if leq(m, e) then m else e;
      forall x | x in s
        ensures leq(least, x)
      {
        assert x == e || x in s - {e};
      }
      assert IsLeast(leq, s, least);
    }
  }

  lemma Cons<T(!new)>(leq: (T, T) -> bool, m: T, rest: seq<T>, s: set<T>)
    requires IsLeast(leq, s, m)
    requires Ascending(leq, rest) && Elements(rest) == s - {m}
    ensures Ascending(leq, [m] + rest) && Elements([m] + rest) == s
  {
    var xs := [m] + rest;
    assert forall x :: x in rest ==> x in Elements(rest);
    forall i, j | 0 <= i < j < |xs|
      ensures leq(xs[i], xs[j]) && xs[i] != xs[j]
    {
      assert xs[j] == rest[j - 1] && rest[j - 1] in s - {m};
    }
    forall x
      ensures x in Elements(xs) <==> x in s
    {
      assert x in xs <==> x == m || x in rest;
      assert x in rest <==> x in Elements(rest);
    }
  }

  /** The ascending listing of a set. */
  function Sorted<T(==, !new)>(leq: (T, T) -> bool, s: set<T>): (xs: seq<T>)
    requires TotalOrder(leq)
    ensures Ascending(leq, xs) && Elements(xs) == s && |xs| == |s|
  {
    if s == {} then []
    else
      LeastExists(leq, s);
      var m :| m in s && IsLeast(leq, s, m);
      var rest := Sorted(leq, s - {m});
      Cons(leq, m, rest, s);
      [m] + rest
  }

  lemma HeadIsLeast<T(!new)>(leq: (T, T) -> bool, xs: seq<T>)
    requires TotalOrder(leq) && Ascending(leq, xs) && xs != []
    ensures IsLeast(leq, Elements(xs), xs[0])
  {
    forall x | x in Elements(xs)
      ensures leq(xs[0], x)
    {
      var i :| 0 <= i < |xs| && xs[i] == x;
    }
  }

  lemma NoElements<T>(xs: seq<T>)
    ensures Elements(xs) == {} <==> xs == []
  {
    if xs != [] {
      assert xs[0] in Elements(xs);
    }
  }

  /** A set has only one ascending listing, so sorting forgets the order of arrival. */
  lemma {:induction false} AscendingUnique<T(!new)>(leq: (T, T) -> bool, xs: seq<T>, ys: seq<T>)
    requires TotalOrder(leq) && Ascending(leq, xs) && Ascending(leq, ys) && Elements(xs) == Elements(ys)
    ensures xs == ys
  {
    NoElements(xs);
    NoElements(ys);
    if xs == [] {
    } else {
      HeadIsLeast(leq, xs);
      HeadIsLeast(leq, ys);
      Tail(leq, xs);
      Tail(leq, ys);
      AscendingUnique(leq, xs[1..], ys[1..]);
      assert xs == [xs[0]] + xs[1..] && ys == [ys[0]] + ys[1..];
    }
  }

  lemma Tail<T(!new)>(leq: (T, T) -> bool, xs: seq<T>)
    requires Ascending(leq, xs) && xs != []
    ensures Ascending(leq, xs[1..]) && Elements(xs[1..]) == Elements(xs) - {xs[0]}
  {
    assert xs == [xs[0]] + xs[1..];
    forall x | x in Elements(xs) - {xs[0]}
      ensures x in xs[1..]
    {
      assert x in [xs[0]] + xs[1..];
    }
  }

  predicate IntLeq(a: int, b: int) {
    a <= b
  }

  /** Byte-wise string order. */
  predicate StringLeq(a: string, b: string) {
    a == "" || (b != "" && (a[0] < b[0] || (a[0] == b[0] && StringLeq(a[1..], b[1..]))))
  }

  /** The texts first differ at i. */
  predicate DifferAt(a: string, b: string, i: nat) {
    i < |a| && i < |b| && a[i] != b[i] && forall j :: 0 <= j < i ==> a[j] == b[j]
  }

  /** A string comes before another if it is a prefix of it or has the lower byte where they first differ. */
  lemma {:induction false} StringLeqExact(a: string, b: string)
    ensures StringLeq(a, b) <==> a <= b || exists i: nat :: DifferAt(a, b, i) && a[i] < b[i]
  {
    if a == "" || b == "" || a[0] != b[0] {
      if a != "" && b != "" {
        assert a[0] < b[0] ==> DifferAt(a, b, 0);
      }
    } else {
      var x, y := a[1..], b[1..];
      StringLeqExact(x, y);
      assert a <= b <==> x <= y by {
        if x <= y {
          assert forall i :: 0 <= i < |a| ==> a[i] == b[i];
        }
      }
      assert forall i: nat :: DifferAt(x, y, i) ==> DifferAt(a, b, i + 1);
      assert forall i: nat :: i > 0 && DifferAt(a, b, i) ==> DifferAt(x, y, i - 1);
    }
  }

  lemma IntOrder()
    ensures TotalOrder(IntLeq)
  {
  }

  ghost predicate Increasing(xs: seq<int>) {
    forall i, j :: 0 <= i < j < |xs| ==> xs[i] < xs[j]
  }

  lemma AscendingInts(xs: seq<int>)
    ensures Ascending(IntLeq, xs) <==> Increasing(xs)
  {
    if Ascending(IntLeq, xs) {
      forall i, j | 0 <= i < j < |xs|
        ensures xs[i] < xs[j]
      {
        assert IntLeq(xs[i], xs[j]) && xs[i] != xs[j];
      }
    }
  }

  /** sort.Ints on the keys of a map. */
  function SortedInts(s: set<int>): (xs: seq<int>)
    ensures Increasing(xs) && Elements(xs) == s
  {
    IntOrder();
    AscendingInts(Sorted(IntLeq, s));
    Sorted(IntLeq, s)
  }

  method SortInts(s: set<int>) returns (xs: seq<int>)
    ensures Increasing(xs) && Distinct(xs) && Elements(xs) == s
  {
    xs := SortedInts(s);
  }

  lemma IncreasingUnique(xs: seq<int>, ys: seq<int>)
    requires Increasing(xs) && Increasing(ys) && Elements(xs) == Elements(ys)
    ensures xs == ys
  {
    IntOrder();
    AscendingInts(xs);
    AscendingInts(ys);
    AscendingUnique(IntLeq, xs, ys);
  }

  lemma StringOrder()
    ensures TotalOrder(StringLeq)
  {
    forall a: string, b: string ensures StringLeq(a, b) || StringLeq(b, a) { StringTotal(a, b); }
    forall a: string, b: string | StringLeq(a, b) && StringLeq(b, a) ensures a == b { StringAntisymmetric(a, b); }
    forall a: string, b: string, c: string | StringLeq(a, b) && StringLeq(b, c) ensures StringLeq(a, c) {
      StringTransitive(a, b, c);
    }
  }

  lemma {:induction false} StringTotal(a: string, b: string)
    ensures StringLeq(a, b) || StringLeq(b, a)
  {
    if a != "" && b != "" { StringTotal(a[1..], b[1..]); }
  }

  lemma {:induction false} StringAntisymmetric(a: string, b: string)
    requires StringLeq(a, b) && StringLeq(b, a)
    ensures a == b
  {
    if a != "" && b != "" {
      StringAntisymmetric(a[1..], b[1..]);
      assert a == [a[0]] + a[1..] && b == [b[0]] + b[1..];
    }
  }

  lemma {:induction false} StringTransitive(a: string, b: string, c: string)
    requires StringLeq(a, b) && StringLeq(b, c)
    ensures StringLeq(a, c)
  {
    if a != "" && a[0] == b[0] && b[0] == c[0] { StringTransitive(a[1..], b[1..], c[1..]); }
  }
}
