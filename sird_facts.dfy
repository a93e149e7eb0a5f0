// What one day of the epidemic, and a run of days, guarantee.

module SirdFacts {
  import opened SortedSets
  import opened Sird

  lemma SumSnoc(s: seq<nat>, x: nat)
    ensures Sum(s + [x]) == Sum(s) + x
  {
    assert (s + [x])[..|s|] == s;
  }

  lemma {:induction false} DistinctConcat(a: seq<int>, b: seq<int>)
    requires Distinct(a) && Distinct(b)
    requires forall x :: x in a ==> x !in b
    ensures Distinct(a + b)
  {
    forall i, j | 0 <= i < j < |a + b|
      ensures (a + b)[i] != (a + b)[j]
    {
      if i < |a| && j >= |a| {
        assert (a + b)[i] in a && (a + b)[j] == b[j - |a|];
      }
    }
  }

  /** Which pool nodes a day resolves, and to what. */
  lemma {:induction false} ResolutionsMember(p: Setting, s: State, done: seq<int>, fatal: bool, x: int)
    requires forall i :: i in done ==> i in s.days
    ensures x in Resolutions(p, s, done, fatal) <==> x in done && s.days[x] == 0 && Dies(p, s.day + 1, x) == fatal
  {
    if done != [] {
      var init, last := done[..|done| - 1], done[|done| - 1];
      assert done == init + [last];
      ResolutionsMember(p, s, init, fatal, x);
    }
  }

  lemma {:induction false} ResolutionsDistinct(p: Setting, s: State, done: seq<int>, fatal: bool)
    requires forall i :: i in done ==> i in s.days
    requires Distinct(done)
    ensures Distinct(Resolutions(p, s, done, fatal))
    ensures forall x :: x in Resolutions(p, s, done, fatal) ==> x in done
  {
    if done != [] {
      var init, last := done[..|done| - 1], done[|done| - 1];
      assert done == init + [last];
      assert Distinct(init);
      ResolutionsDistinct(p, s, init, fatal);
      assert last !in init;
      var tail := if s.days[last] == 0 && Dies(p, s.day + 1, last) == fatal then [last] else [];
      DistinctConcat(Resolutions(p, s, init, fatal), tail);
    }
  }

  /** With uniform draws in [0, 1), a death rate of at least 1 leaves nobody recovering and one of at most 0 nobody dying. */
  lemma {:induction false} ResolutionsEmpty(p: Setting, s: State, done: seq<int>, fatal: bool)
    requires forall i :: i in done ==> i in s.days
    requires UnitDraws(p.oracle)
    requires if fatal then p.deathRate <= 0.0 else p.deathRate >= 1.0
    ensures Resolutions(p, s, done, fatal) == []
  {
    if done != [] {
      var init, last := done[..|done| - 1], done[|done| - 1];
      assert done == init + [last];
      ResolutionsEmpty(p, s, init, fatal);
      assert 0.0 <= p.oracle.death(s.day + 1, last) < 1.0;
    }
  }

  lemma CardDisjointUnion(a: set<int>, b: set<int>)
    requires a * b == {}
    ensures |a + b| == |a| + |b|
  {
  }

  lemma CardSubset(a: set<int>, b: set<int>)
    requires b <= a
    ensures |a - b| == |a| - |b|
  {
    assert a == (a - b) + b;
    CardDisjointUnion(a - b, b);
  }

  /** The list and counter fields of the state after one day. */
  lemma NextFields(p: Setting, s: State)
    requires Inv(p, s)
    ensures var s' := Next(p, s);
      var dying := Resolutions(p, s, s.infected, true);
      var recovering := Resolutions(p, s, s.infected, false);
      && s'.recovered == s.recovered + recovering
      && s'.dead == s.dead + dying
      && StrictlySorted(s'.infected)
      && SetOf(s'.infected) == NextPool(p, s, s'.recovered, s'.dead)
      && NextPool(p, s, s'.recovered, s'.dead) <= SetOf(p.graph.nodes)
      && s'.nInfected == s.nInfected + [|Newly(p, s)|]
      && s'.nDead == s.nDead + [|dying|]
      && s'.nRecovered == s.nRecovered + [|recovering|]
      && s'.day == s.day + 1
      && s'.color.Keys == s.color.Keys && s'.days.Keys == s.days.Keys && s'.total.Keys == s.total.Keys
  {
    var dying := Resolutions(p, s, s.infected, true);
    var recovering := Resolutions(p, s, s.infected, false);
    var pool := NextPool(p, s, s.recovered + recovering, s.dead + dying);
    assert pool <= SetOf(p.graph.nodes);
    var r := SortedWithin(p.graph.nodes, pool);
    assert Next(p, s).infected == r;
  }

  /** A day appends to the counters and keeps the number of initial infections. */
  lemma NextKeepsFirstCount(p: Setting, s: State)
    requires Inv(p, s)
    ensures |Next(p, s).nInfected| > 0 && Next(p, s).nInfected[0] == s.nInfected[0]
  {
    NextFields(p, s);
  }

  /** Every per-node fact of one day. */
  lemma NextNode(p: Setting, s: State, n: int)
    requires Inv(p, s) && n in s.color
    ensures var s' := Next(p, s);
      && n in s'.color && n in s'.days && n in s'.total
      && s'.color[n] == NodeColor(p, s, s.infected, n)
      && s'.days[n] == NodeDays(p, s, s.infected, n)
      && s'.total[n] == NodeTotal(p, s, s.infected, n)
  {
  }

  /** Membership in the rebuilt pool and in the two lists after one day. */
  lemma NextMembers(p: Setting, s: State, n: int)
    requires Inv(p, s)
    ensures var s' := Next(p, s);
      && (n in s'.infected <==> (n in s.infected && s.days[n] != 0) || n in Newly(p, s))
      && (n in s'.recovered <==> n in s.recovered || (n in s.infected && s.days[n] == 0 && !Dies(p, s.day + 1, n)))
      && (n in s'.dead <==> n in s.dead || (n in s.infected && s.days[n] == 0 && Dies(p, s.day + 1, n)))
  {
    var s' := Next(p, s);
    NextFields(p, s);
    ResolutionsMember(p, s, s.infected, true, n);
    ResolutionsMember(p, s, s.infected, false, n);
    assert n in s'.infected <==> n in SetOf(s'.infected);
    assert n in SetOf(s'.recovered) <==> n in s'.recovered;
    assert n in SetOf(s'.dead) <==> n in s'.dead;
    assert n in SetOf(s.infected) <==> n in s.infected;
  }

  /** After the rebuild the pool holds exactly the red nodes, and the lists exactly the blue and the black ones. */
  lemma NextColorsListed(p: Setting, s: State)
    requires Inv(p, s)
    ensures var s' := Next(p, s);
      && (forall n :: n in s'.infected <==> n in s'.color && s'.color[n] == Red)
      && (forall n :: n in s'.recovered <==> n in s'.color && s'.color[n] == Blue)
      && (forall n :: n in s'.dead <==> n in s'.color && s'.color[n] == Black)
  {
    var s' := Next(p, s);
    NextFields(p, s);
    forall n
      ensures n in s'.infected <==> n in s'.color && s'.color[n] == Red
      ensures n in s'.recovered <==> n in s'.color && s'.color[n] == Blue
      ensures n in s'.dead <==> n in s'.color && s'.color[n] == Black
    {
      NextMembers(p, s, n);
      if n in s.color { NextNode(p, s, n); }
    }
  }

  lemma NodeConsistent(p: Setting, s: State, n: int)
    requires Inv(p, s) && n in s.color
    ensures Consistent(NodeColor(p, s, s.infected, n), NodeDays(p, s, s.infected, n), NodeTotal(p, s, s.infected, n))
  {
    assert Consistent(s.color[n], s.days[n], s.total[n]);
    if n in s.infected {
      assert s.color[n] == Red;
    }
  }

  /** Every node keeps the attributes of its colour. */
  lemma NextConsistent(p: Setting, s: State)
    requires Inv(p, s)
    ensures var s' := Next(p, s);
      forall n :: n in s'.color ==> n in s'.days && n in s'.total && Consistent(s'.color[n], s'.days[n], s'.total[n])
  {
    var s' := Next(p, s);
    NextFields(p, s);
    forall n | n in s'.color
      ensures n in s'.days && n in s'.total && Consistent(s'.color[n], s'.days[n], s'.total[n])
    {
      NextNode(p, s, n);
      NodeConsistent(p, s, n);
    }
  }

  /** The lists stay duplicate-free and the counters stay aligned with them. */
  lemma NextSeries(p: Setting, s: State)
    requires Inv(p, s)
    ensures var s' := Next(p, s);
      && Distinct(s'.infected) && Distinct(s'.recovered) && Distinct(s'.dead)
      && |s'.nInfected| == |s'.nDead| + 1 && |s'.nRecovered| == |s'.nDead| && s'.day == |s'.nDead|
      && Sum(s'.nDead) == |s'.dead| && Sum(s'.nRecovered) == |s'.recovered|
      && Sum(s'.nInfected) == |s'.infected| + |s'.recovered| + |s'.dead|
  {
    var s' := Next(p, s);
    var dying := Resolutions(p, s, s.infected, true);
    var recovering := Resolutions(p, s, s.infected, false);
    NextFields(p, s);
    SortedIsDistinct(s'.infected);
    ResolutionsDistinct(p, s, s.infected, true);
    ResolutionsDistinct(p, s, s.infected, false);
    DistinctConcat(s.recovered, recovering);
    DistinctConcat(s.dead, dying);
    SumSnoc(s.nDead, |dying|);
    SumSnoc(s.nRecovered, |recovering|);
    SumSnoc(s.nInfected, |Newly(p, s)|);
    NextCount(p, s);
  }

  /** One day keeps the invariant of day boundaries. */
  lemma NextPreservesInv(p: Setting, s: State)
    requires Inv(p, s)
    ensures Inv(p, Next(p, s))
  {
    NextFields(p, s);
    NextConsistent(p, s);
    NextColorsListed(p, s);
    NextSeries(p, s);
  }

  /** Counting the rebuild: the new pool is the old one less the resolved nodes plus the newly infected. */
  lemma {:induction false} CountRebuild(pool: seq<int>, dying: seq<int>, recovering: seq<int>, newly: set<int>, pool': seq<int>)
    requires Distinct(pool) && Distinct(dying) && Distinct(recovering) && Distinct(pool')
    requires forall x :: x in dying ==> x in pool
    requires forall x :: x in recovering ==> x in pool && x !in dying
    requires forall x :: x in pool ==> x !in newly
    requires forall x :: x in pool' <==> (x in pool && x !in dying && x !in recovering) || x in newly
    ensures |pool'| + |dying| + |recovering| == |pool| + |newly|
  {
    var P, D, V := SetOf(pool), SetOf(dying), SetOf(recovering);
    forall x
      ensures x in SetOf(pool') <==> x in (P - (D + V)) + newly
    {
      assert x in SetOf(pool') <==> x in pool';
      assert x in P <==> x in pool;
      assert x in D <==> x in dying;
      assert x in V <==> x in recovering;
    }
    assert SetOf(pool') == (P - (D + V)) + newly;
    assert D <= P && V <= P && D * V == {} by {
      forall x | x in D ensures x in P { assert x in dying; }
      forall x | x in V ensures x in P && x !in D { assert x in recovering; }
    }
    CardDisjointUnion(P - (D + V), newly);
    CardDisjointUnion(D, V);
    CardSubset(P, D + V);
    DistinctCard(pool);
    DistinctCard(dying);
    DistinctCard(recovering);
    DistinctCard(pool');
  }

  /** The pool after the rebuild is the old pool less the resolved nodes, plus the newly infected. */
  lemma NextCount(p: Setting, s: State)
    requires Inv(p, s)
    ensures |Next(p, s).infected| + |Resolutions(p, s, s.infected, true)| + |Resolutions(p, s, s.infected, false)|
         == |s.infected| + |Newly(p, s)|
  {
    var s' := Next(p, s);
    var dying := Resolutions(p, s, s.infected, true);
    var recovering := Resolutions(p, s, s.infected, false);
    NextFields(p, s);
    SortedIsDistinct(s'.infected);
    ResolutionsDistinct(p, s, s.infected, true);
    ResolutionsDistinct(p, s, s.infected, false);
    forall x
      ensures x in recovering ==> x !in dying
      ensures x in s'.infected <==> (x in s.infected && x !in dying && x !in recovering) || x in Newly(p, s)
    {
      NextMembers(p, s, x);
      ResolutionsMember(p, s, s.infected, true, x);
      ResolutionsMember(p, s, s.infected, false, x);
    }
    CountRebuild(s.infected, dying, recovering, Newly(p, s), s'.infected);
  }

  /**
   * What a day does to a node: colours only move forward, a total infection
   * time once drawn never changes, a node infected that day starts with its
   * full countdown (it is not processed on the day it is infected), and a
   * pool node counts down by one or, at zero, is resolved.
   */
  ghost predicate Advance(p: Setting, s: State, s': State, n: int)
  {
    && n in s.color && n in s.days && n in s.total
    && n in s'.color && n in s'.days && n in s'.total
    && (var c, c' := s.color[n], s'.color[n];
      && StepAllowed(c, c')
      && (c != Yellow ==> s'.total[n] == s.total[n])
      && (c == Yellow && c' == Yellow ==> s'.days[n] == 0 && s'.total[n] == 0)
      && (c == Yellow && c' == Red ==> s'.days[n] == s'.total[n] == Duration(p.oracle, s.day + 1, n) >= 1)
      && (c == Red && s.days[n] != 0 ==> c' == Red && s'.days[n] == s.days[n] - 1)
      && (c == Red && s.days[n] == 0 ==> c' == Outcome(p, s.day + 1, n) && s'.days[n] == 0))
  }

  lemma NextAdvances(p: Setting, s: State, n: int)
    requires Inv(p, s) && n in s.color
    ensures Advance(p, s, Next(p, s), n)
  {
    NextNode(p, s, n);
    assert Consistent(s.color[n], s.days[n], s.total[n]);
  }

  /**
   * A susceptible node is infected on a day exactly when some node of the pool
   * it neighbours draws below that node's transmission probability.
   */
  lemma NextInfects(p: Setting, s: State, n: int)
    requires Inv(p, s) && n in s.color && s.color[n] == Yellow
    ensures Next(p, s).color[n] == Red <==>
      exists i :: i in s.infected && n in p.graph.adj[i] &&
        p.oracle.infect(s.day + 1, i, n) < Beta(p.r, |p.graph.adj[i]|, s.total[i])
  {
    NextNode(p, s, n);
    if Next(p, s).color[n] == Red {
      var k :| 0 <= k < |s.infected| && Exposes(p, s.total, s.day + 1, s.infected[k], n);
      assert s.infected[k] in s.infected;
    } else {
      forall i | i in s.infected && n in p.graph.adj[i]
        ensures p.oracle.infect(s.day + 1, i, n) >= Beta(p.r, |p.graph.adj[i]|, s.total[i])
      {
        var k :| 0 <= k < |s.infected| && s.infected[k] == i;
        assert Consistent(s.color[i], s.days[i], s.total[i]);
        assert !Exposes(p, s.total, s.day + 1, s.infected[k], n);
      }
    }
  }

  /** With uniform draws in [0, 1), a death rate of at least 1 adds nobody to the recovered. */
  lemma NextNoRecovery(p: Setting, s: State)
    requires Inv(p, s) && UnitDraws(p.oracle) && p.deathRate >= 1.0
    ensures Next(p, s).recovered == s.recovered && Next(p, s).nRecovered == s.nRecovered + [0]
  {
    NextFields(p, s);
    ResolutionsEmpty(p, s, s.infected, false);
  }

  /** With uniform draws in [0, 1), a death rate of at most 0 adds nobody to the dead. */
  lemma NextNoDeath(p: Setting, s: State)
    requires Inv(p, s) && UnitDraws(p.oracle) && p.deathRate <= 0.0
    ensures Next(p, s).dead == s.dead && Next(p, s).nDead == s.nDead + [0]
  {
    NextFields(p, s);
    ResolutionsEmpty(p, s, s.infected, true);
  }

  lemma {:induction false} SumOverLe(nodes: seq<int>, f: int -> nat, g: int -> nat)
    requires forall n :: n in nodes ==> g(n) <= f(n)
    ensures SumOver(nodes, g) <= SumOver(nodes, f)
  {
    if nodes != [] {
      var init, last := nodes[..|nodes| - 1], nodes[|nodes| - 1];
      assert nodes == init + [last];
      SumOverLe(init, f, g);
    }
  }

  lemma {:induction false} SumOverLt(nodes: seq<int>, f: int -> nat, g: int -> nat, w: int)
    requires forall n :: n in nodes ==> g(n) <= f(n)
    requires w in nodes && g(w) < f(w)
    ensures SumOver(nodes, g) < SumOver(nodes, f)
  {
    var init, last := nodes[..|nodes| - 1], nodes[|nodes| - 1];
    assert nodes == init + [last];
    if w == last {
      SumOverLe(init, f, g);
    } else {
      SumOverLt(init, f, g, w);
    }
  }

  /**
   * The loop's termination argument, for any day that advances every node
   * while some node `w` is in the pool: the day either infects a yellow node
   * or leaves the yellow nodes alone and takes one unit off the countdown + 1
   * of every red node.
   */
  lemma StepDecreases(p: Setting, s: State, s': State, nodes: seq<int>, w: int)
    requires forall n :: n in nodes ==> Advance(p, s, s', n)
    requires w in nodes && w in s.color && s.color[w] == Red
    ensures
      || SumOver(nodes, YellowMark(s')) < SumOver(nodes, YellowMark(s))
      || (SumOver(nodes, YellowMark(s')) == SumOver(nodes, YellowMark(s))
          && SumOver(nodes, RedLoad(s')) < SumOver(nodes, RedLoad(s)))
  {
    SumOverLe(nodes, YellowMark(s), YellowMark(s'));
    if v :| v in nodes && s.color[v] == Yellow && s'.color[v] == Red {
      SumOverLt(nodes, YellowMark(s), YellowMark(s'), v);
    } else {
      assert forall n :: n in nodes ==> YellowMark(s)(n) <= YellowMark(s')(n);
      SumOverLe(nodes, YellowMark(s'), YellowMark(s));
      assert forall n :: n in nodes ==> RedLoad(s')(n) <= RedLoad(s)(n);
      SumOverLt(nodes, RedLoad(s), RedLoad(s'), w);
    }
  }

  /** The simulator's loop terminates: each day with a non-empty pool lowers the measure. */
  lemma NextDecreases(p: Setting, s: State)
    requires Inv(p, s) && s.infected != []
    ensures var s', nodes := Next(p, s), p.graph.nodes;
      || SumOver(nodes, YellowMark(s')) < SumOver(nodes, YellowMark(s))
      || (SumOver(nodes, YellowMark(s')) == SumOver(nodes, YellowMark(s))
          && SumOver(nodes, RedLoad(s')) < SumOver(nodes, RedLoad(s)))
  {
    var s' := Next(p, s);
    forall n | n in p.graph.nodes
      ensures Advance(p, s, s', n)
    {
      NextAdvances(p, s, n);
    }
    var w := s.infected[0];
    assert w in s.infected;
    StepDecreases(p, s, s', p.graph.nodes, w);
  }

  /**
   * The state in which the simulation from the day boundary `s` stops: days
   * follow one another by `Next` until the pool is empty.  The measure of
   * `NextDecreases` falls every day, so the definition is well founded.
   */
  ghost function Final(p: Setting, s: State): (f: State)
    ensures Inv(p, s) ==> Inv(p, f) && f.infected == []
    decreases SumOver(p.graph.nodes, YellowMark(s)), SumOver(p.graph.nodes, RedLoad(s))
  {
    if !Inv(p, s) || s.infected == [] then s
    else
      NextPreservesInv(p, s);
      NextDecreases(p, s);
      Final(p, Next(p, s))
  }

  /** A day with a non-empty pool does not change where the simulation stops. */
  lemma FinalNext(p: Setting, s: State)
    requires Inv(p, s) && s.infected != []
    ensures Final(p, Next(p, s)) == Final(p, s)
  {
  }

  /** A state with an empty pool is where the simulation stops. */
  lemma FinalSettled(p: Setting, s: State)
    requires Inv(p, s) && s.infected == []
    ensures Final(p, s) == s
  {
  }

  lemma NextDay(p: Setting, s: State)
    requires Inv(p, s)
    ensures Next(p, s).day == s.day + 1
  {
  }

  /** `s'` may follow `s` by one day, as far as each node's own attributes tell. */
  ghost predicate Follows(p: Setting, s: State, s': State)
  {
    s'.day == s.day + 1 && forall n :: n in s.color ==> Advance(p, s, s', n)
  }

  lemma NextFollows(p: Setting, s: State)
    requires Inv(p, s)
    ensures Follows(p, s, Next(p, s))
  {
    forall n | n in s.color
      ensures Advance(p, s, Next(p, s), n)
    {
      NextAdvances(p, s, n);
    }
    NextDay(p, s);
  }

  ghost predicate Trajectory(p: Setting, run: seq<State>)
  {
    forall t :: 0 < t < |run| ==> Follows(p, run[t - 1], run[t])
  }

  /** Days of a run: each satisfies the invariant and follows the day before. */
  ghost predicate IsRun(p: Setting, run: seq<State>)
  {
    (forall t :: 0 <= t < |run| ==> Inv(p, run[t])) && Trajectory(p, run)
  }

  /**
   * A red node with countdown `d` stays red through the next `d` days, its
   * countdown falling by one each day, and is resolved on the day after: it
   * dies exactly when that day's death draw falls below the death rate.  Its
   * total infection time never changes.
   */
  lemma {:induction false} CountdownResolves(p: Setting, run: seq<State>, n: int, t: nat)
    requires Trajectory(p, run) && |run| > 0 && n in run[0].color && n in run[0].days && n in run[0].total
    requires run[0].color[n] == Red && t < |run| && t <= run[0].days[n] + 1
    ensures var s, r := run[0], run[t];
      && n in r.color && n in r.days && n in r.total && r.total[n] == s.total[n] && r.day == s.day + t
      && (t <= s.days[n] ==> r.color[n] == Red && r.days[n] == s.days[n] - t)
      && (t == s.days[n] + 1 ==> r.color[n] == Outcome(p, s.day + t, n))
  {
    if t > 0 {
      CountdownResolves(p, run, n, t - 1);
      assert Follows(p, run[t - 1], run[t]);
      assert Advance(p, run[t - 1], run[t], n);
    }
  }

  /** A run that ends with an empty pool outlasts the countdown of every node red at its start. */
  lemma RunOutlastsCountdown(p: Setting, run: seq<State>, n: int)
    requires IsRun(p, run) && |run| > 0 && run[|run| - 1].infected == []
    requires n in run[0].color && run[0].color[n] == Red
    ensures |run| > run[0].days[n] + 1
  {
    // the node is still red, hence in the pool, on the last day it is known to be red
    var t := if |run| - 1 <= run[0].days[n] then |run| - 1 else run[0].days[n];
    CountdownResolves(p, run, n, t);
    assert n in run[t].infected;
  }

  lemma {:induction false} InvSnoc(p: Setting, run: seq<State>, s: State)
    requires forall t :: 0 <= t < |run| ==> Inv(p, run[t])
    requires Inv(p, s)
    ensures forall t :: 0 <= t < |run + [s]| ==> Inv(p, (run + [s])[t])
  {
    forall t | 0 <= t < |run + [s]|
      ensures Inv(p, (run + [s])[t])
    {
      if t < |run| {
        assert (run + [s])[t] == run[t];
      }
    }
  }

  lemma {:induction false} TrajectorySnoc(p: Setting, run: seq<State>, s: State)
    requires Trajectory(p, run) && |run| > 0 && Follows(p, run[|run| - 1], s)
    ensures Trajectory(p, run + [s])
  {
    var run' := run + [s];
    forall t | 0 < t < |run'|
      ensures Follows(p, run'[t - 1], run'[t])
    {
      assert run'[t - 1] == run[t - 1];
      if t < |run| {
        assert run'[t] == run[t];
      }
    }
  }

  /** A run extended by a day that follows its last day and satisfies the invariant is a run. */
  lemma IsRunSnoc(p: Setting, run: seq<State>, s: State)
    requires IsRun(p, run) && |run| > 0 && Inv(p, s) && Follows(p, run[|run| - 1], s)
    ensures IsRun(p, run + [s])
  {
    InvSnoc(p, run, s);
    TrajectorySnoc(p, run, s);
  }

  /** `s'` is the day after the day boundary `s`, whose pool is not empty. */
  ghost predicate Succeeds(p: Setting, s: State, s': State)
  {
    Inv(p, s) && s.infected != [] && s' == Next(p, s)
  }

  /** A run as the simulator saves it: each day is `Next` of the day before, which still had a non-empty pool. */
  ghost predicate Unrolled(p: Setting, run: seq<State>)
  {
    IsRun(p, run) && forall t :: 0 <= t < |run| - 1 ==> Succeeds(p, run[t], run[t + 1])
  }

  /** Appending the day after a last day whose pool is not empty keeps a run unrolled. */
  lemma {:induction false} UnrolledSnoc(p: Setting, run: seq<State>, s: State)
    requires Unrolled(p, run) && |run| > 0 && Succeeds(p, run[|run| - 1], s)
    ensures Unrolled(p, run + [s])
  {
    var last := run[|run| - 1];
    NextPreservesInv(p, last);
    NextFollows(p, last);
    IsRunSnoc(p, run, s);
    var run' := run + [s];
    forall t | 0 <= t < |run'| - 1
      ensures Succeeds(p, run'[t], run'[t + 1])
    {
      assert run'[t] == run[t];
      if t + 1 < |run| {
        assert run'[t + 1] == run[t + 1];
      }
    }
  }

  /** Every day of an unrolled run that ends with an empty pool leads to its last day: the simulation stops there. */
  lemma {:induction false} UnrolledFinal(p: Setting, run: seq<State>, t: nat)
    requires Unrolled(p, run) && t < |run| && run[|run| - 1].infected == []
    ensures Final(p, run[t]) == run[|run| - 1]
    decreases |run| - t
  {
    assert Inv(p, run[t]);
    if t == |run| - 1 {
      FinalSettled(p, run[t]);
    } else {
      assert Succeeds(p, run[t], run[t + 1]);
      FinalNext(p, run[t]);
      UnrolledFinal(p, run, t + 1);
    }
  }

  /** Recovered and dead nodes keep their colour for the rest of a run. */
  lemma {:induction false} Settled(p: Setting, run: seq<State>, n: int, t: nat, u: nat)
    requires Trajectory(p, run) && t <= u < |run|
    requires n in run[t].color && (run[t].color[n] == Blue || run[t].color[n] == Black)
    ensures n in run[u].color && run[u].color[n] == run[t].color[n]
    decreases u
  {
    if u > t {
      Settled(p, run, n, t, u - 1);
      assert Follows(p, run[u - 1], run[u]);
      assert Advance(p, run[u - 1], run[u], n);
    }
  }

  /** Along a run a node's colour only moves forward: yellow, then red, then blue or black. */
  lemma {:induction false} Forward(p: Setting, run: seq<State>, n: int, t: nat, u: nat)
    requires Trajectory(p, run) && t <= u < |run| && n in run[t].color
    ensures n in run[u].color && Later(run[t].color[n], run[u].color[n])
    decreases u
  {
    if u > t {
      Forward(p, run, n, t, u - 1);
      assert Follows(p, run[u - 1], run[u]);
      assert Advance(p, run[u - 1], run[u], n);
    }
  }

  /** The nodes still yellow on the last day of a run are those never infected: yellow on every day of it. */
  lemma NeverInfected(p: Setting, run: seq<State>, n: int)
    requires Trajectory(p, run) && |run| > 0 && n in run[0].color
    ensures var last := run[|run| - 1];
      n in last.color &&
      (last.color[n] == Yellow <==> forall t :: 0 <= t < |run| ==> n in run[t].color && run[t].color[n] == Yellow)
  {
    Forward(p, run, n, 0, |run| - 1);
    if run[|run| - 1].color[n] == Yellow {
      forall t | 0 <= t < |run|
        ensures n in run[t].color && run[t].color[n] == Yellow
      {
        Forward(p, run, n, 0, t);
        Forward(p, run, n, t, |run| - 1);
      }
    }
  }

  /**
   * When a run ends with an empty pool, a node red at its start has been
   * resolved by the death draw of the day after its countdown ran out.
   */
  lemma FinalColorOfRed(p: Setting, run: seq<State>, n: int)
    requires IsRun(p, run) && |run| > 0 && run[|run| - 1].infected == []
    requires n in run[0].color && run[0].color[n] == Red
    ensures var last := run[|run| - 1];
      n in last.color && last.color[n] == Outcome(p, run[0].day + run[0].days[n] + 1, n)
  {
    assert Inv(p, run[0]);
    RunOutlastsCountdown(p, run, n);
    var t := run[0].days[n] + 1;
    CountdownResolves(p, run, n, t);
    Settled(p, run, n, t, |run| - 1);
  }

  /** A colour that no resolution produces and that no node has on the first day never appears along a run. */
  lemma {:induction false} NeverOutcome(p: Setting, run: seq<State>, c: Color, t: nat)
    requires IsRun(p, run) && t < |run| && c != Yellow && c != Red
    requires forall n :: n in run[0].color ==> run[0].color[n] != c
    requires forall d, n :: Outcome(p, d, n) != c
    ensures forall n :: n in run[t].color ==> run[t].color[n] != c
  {
    if t > 0 {
      NeverOutcome(p, run, c, t - 1);
      assert Inv(p, run[t]) && Inv(p, run[t - 1]);
      assert Follows(p, run[t - 1], run[t]);
      forall n | n in run[t].color
        ensures run[t].color[n] != c
      {
        assert Advance(p, run[t - 1], run[t], n);
      }
    }
  }

  /** With uniform draws in [0, 1) and a death rate of at least 1, nobody recovers in a run that starts with nobody recovered. */
  lemma NobodyRecovers(p: Setting, run: seq<State>)
    requires IsRun(p, run) && |run| > 0 && UnitDraws(p.oracle) && p.deathRate >= 1.0
    requires forall n :: n in run[0].color ==> run[0].color[n] != Blue
    ensures run[|run| - 1].recovered == []
  {
    var last := run[|run| - 1];
    forall d, n
      ensures Outcome(p, d, n) != Blue
    {
      assert 0.0 <= p.oracle.death(d, n) < 1.0;
    }
    NeverOutcome(p, run, Blue, |run| - 1);
    assert Inv(p, last);
    assert forall x :: x !in last.recovered;
    assert SetOf(last.recovered) == {};
    DistinctCard(last.recovered);
  }

  /** With uniform draws in [0, 1) and a death rate of at most 0, nobody dies in a run that starts with nobody dead. */
  lemma NobodyDies(p: Setting, run: seq<State>)
    requires IsRun(p, run) && |run| > 0 && UnitDraws(p.oracle) && p.deathRate <= 0.0
    requires forall n :: n in run[0].color ==> run[0].color[n] != Black
    ensures run[|run| - 1].dead == []
  {
    var last := run[|run| - 1];
    forall d, n
      ensures Outcome(p, d, n) != Black
    {
      assert 0.0 <= p.oracle.death(d, n) < 1.0;
    }
    NeverOutcome(p, run, Black, |run| - 1);
    assert Inv(p, last);
    assert forall x :: x !in last.dead;
    assert SetOf(last.dead) == {};
    DistinctCard(last.dead);
  }

  /** The transmission probability is normalised: over `total` days and `degree` neighbours it adds up to R. */
  lemma BetaNormalised(r: real, degree: nat, total: nat)
    requires degree >= 1 && total >= 1
    ensures Beta(r, degree, total) * degree as real * total as real == r
  {
    var d, t := degree as real, total as real;
    calc {
      Beta(r, degree, total) * d * t;
      (r / d / t) * d * t;
      { assert (r / d / t) * t == r / d; }
      (r / d) * d;
    }
  }

  /** Doubling a node's degree halves its transmission probability. */
  lemma BetaHalvesWithDegree(r: real, degree: nat, total: nat)
    requires degree >= 1 && total >= 1
    ensures Beta(r, 2 * degree, total) * 2.0 == Beta(r, degree, total)
  {
    var d, t := degree as real, total as real;
    assert (2 * degree) as real == 2.0 * d;
    assert r / (2.0 * d) * 2.0 == r / d;
    assert r / (2.0 * d) / t * 2.0 == r / (2.0 * d) * 2.0 / t;
  }

  /** Three pairwise disjoint duplicate-free lists that together hold the nodes of `nodes` exactly add up to its length. */
  lemma {:induction false} PartitionCard(nodes: seq<int>, a: seq<int>, b: seq<int>, c: seq<int>)
    requires Distinct(nodes) && Distinct(a) && Distinct(b) && Distinct(c)
    requires forall n :: n in nodes <==> n in a || n in b || n in c
    requires forall n :: n in a ==> n !in b && n !in c
    requires forall n :: n in b ==> n !in c
    ensures |a| + |b| + |c| == |nodes|
  {
    var N, A, B, C := SetOf(nodes), SetOf(a), SetOf(b), SetOf(c);
    forall n
      ensures n in N <==> n in A + B + C
    {
      assert n in N <==> n in nodes;
      assert n in A <==> n in a;
      assert n in B <==> n in b;
      assert n in C <==> n in c;
    }
    assert N == (A + B) + C;
    CardDisjointUnion(A, B);
    CardDisjointUnion(A + B, C);
    DistinctCard(nodes);
    DistinctCard(a);
    DistinctCard(b);
    DistinctCard(c);
  }

  /**
   * When the pool is empty, the nodes never infected are those neither
   * recovered nor dead; dead, recovered and never-infected nodes partition the
   * graph, and every infection ever counted ended in a recovery or a death.
   */
  lemma FinalPartition(p: Setting, s: State)
    requires Inv(p, s) && s.infected == []
    ensures var u := SetDiff1d(SetDiff1d(p.graph.nodes, s.recovered), s.dead);
      && (forall n :: n in u <==> n in s.color && s.color[n] == Yellow)
      && Distinct(u)
      && (forall n :: n in s.dead ==> n !in s.recovered && n !in u)
      && (forall n :: n in s.recovered ==> n !in u)
      && (forall n :: n in p.graph.nodes <==> n in s.dead || n in s.recovered || n in u)
      && |s.dead| + |s.recovered| + |u| == |p.graph.nodes|
      && Sum(s.nInfected) == |s.dead| + |s.recovered|
  {
    var u := SetDiff1d(SetDiff1d(p.graph.nodes, s.recovered), s.dead);
    SortedIsDistinct(u);
    forall n
      ensures n in u <==> n in s.color && s.color[n] == Yellow
      ensures n in p.graph.nodes <==> n in s.dead || n in s.recovered || n in u
    {
      assert n !in s.infected;
    }
    PartitionCard(p.graph.nodes, s.dead, s.recovered, u);
  }
}
