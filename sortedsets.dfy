// Sorted, duplicate-free sequences of node identifiers.
//
// The simulator rebuilds its infectious pool and its list of never-infected
// nodes with numpy's `setdiff1d`, which returns the unique values of its first
// argument that are absent from its second, in ascending order.  `SetDiff1d`
// below is that operation on sequences of integers.

module SortedSets {

  /** The set of elements of a sequence. */
  function SetOf(s: seq<int>): set<int>
  {
    set x | x in s
  }

  predicate Distinct(s: seq<int>)
  {
    forall a, b :: 0 <= a < b < |s| ==> s[a] != s[b]
  }

  predicate StrictlySorted(s: seq<int>)
  {
    forall a, b :: 0 <= a < b < |s| ==> s[a] < s[b]
  }

  lemma SortedIsDistinct(s: seq<int>)
    requires StrictlySorted(s)
    ensures Distinct(s)
  {
  }

  /** Adds `x` to a sorted duplicate-free sequence, keeping it so. */
  function Insert(x: int, s: seq<int>): (r: seq<int>)
    requires StrictlySorted(s)
    ensures StrictlySorted(r)
    ensures forall y :: y in r <==> y == x || y in s
  {
    if s == [] then [x]
    else if x < s[0] then [x] + s
    else if x == s[0] then s
    else
      var rest := Insert(x, s[1..]);
      assert forall y :: y in rest ==> s[0] < y;
      var r := [s[0]] + rest;
      assert StrictlySorted(r) by {
        forall a, b | 0 <= a < b < |r|
          ensures r[a] < r[b]
        {
          assert r[b] == rest[b - 1] && rest[b - 1] in rest;
          if a > 0 {
            assert r[a] == rest[a - 1];
          }
        }
      }
      r
  }

  /** numpy's `setdiff1d(a, b)`: the unique values of `a` not in `b`, ascending. */
  function SetDiff1d(a: seq<int>, b: seq<int>): (r: seq<int>)
    ensures StrictlySorted(r)
    ensures forall x :: x in r <==> x in a && x !in b
    decreases |a|
  {
    if a == [] then []
    else
      var init, last := a[..|a| - 1], a[|a| - 1];
      assert a == init + [last];
      var rest := SetDiff1d(init, b);
      if last in b then rest else Insert(last, rest)
  }

  /** A strictly sorted sequence is determined by its set of elements. */
  lemma {:induction false} SortedUnique(r1: seq<int>, r2: seq<int>)
    requires StrictlySorted(r1) && StrictlySorted(r2)
    requires forall x :: x in r1 <==> x in r2
    ensures r1 == r2
  {
    SortedIsDistinct(r1);
    SortedIsDistinct(r2);
    DistinctCard(r1);
    DistinctCard(r2);
    assert SetOf(r1) == SetOf(r2);
    if r1 != [] {
      assert r2 != [];
      // both heads are the least element of the common set
      assert r1[0] in r1 && r2[0] in r2;
      assert r2[0] in r1;
      assert r1[0] in r2;
      assert r1[0] == r2[0];
      forall x
        ensures x in r1[1..] <==> x in r2[1..]
      {
        if x in r1[1..] {
          assert x in r2;
          assert x != r2[0];
        }
        if x in r2[1..] {
          assert x in r1;
          assert x != r1[0];
        }
      }
      SortedUnique(r1[1..], r2[1..]);
      assert r1 == [r1[0]] + r1[1..];
      assert r2 == [r2[0]] + r2[1..];
    }
  }

  /** The elements of `a` that belong to `S`, in their order in `a`. */
  function Keep(a: seq<int>, S: set<int>): (r: seq<int>)
    ensures forall x :: x in r <==> x in a && x in S
    decreases |a|
  {
    if a == [] then []
    else
      var init, last := a[..|a| - 1], a[|a| - 1];
      assert a == init + [last];
      Keep(init, S) + (if last in S then [last] else [])
  }

  /** The ascending listing of a set drawn from a known universe of identifiers. */
  function SortedWithin(universe: seq<int>, S: set<int>): (r: seq<int>)
    requires S <= SetOf(universe)
    ensures StrictlySorted(r) && SetOf(r) == S
  {
    SetDiff1d(Keep(universe, S), [])
  }

  /** A duplicate-free sequence has as many elements as its set. */
  lemma {:induction false} DistinctCard(s: seq<int>)
    requires Distinct(s)
    ensures |SetOf(s)| == |s|
  {
    if s != [] {
      var init, last := s[..|s| - 1], s[|s| - 1];
      assert s == init + [last];
      assert Distinct(init);
      DistinctCard(init);
      assert last !in SetOf(init);
      assert SetOf(s) == SetOf(init) + {last};
    }
  }
}
