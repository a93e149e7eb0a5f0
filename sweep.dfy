// The day as the simulator performs it: a sweep over the pool, one node at a
// time, each node first trying to infect its neighbours and then counting
// down or being resolved.  The lemmas show that after the nodes `done` have
// been visited the state is `Partial(p, s0, done)`, so that a full sweep ends
// in the node attributes and lists of `Next`, whatever the order of the pool.

module Sweep {
  import opened SortedSets
  import opened Sird
  import opened SirdFacts

  /** Node `i`, drawing against `beta`, infects the still susceptible neighbour `n` on `today`. */
  predicate Hit(p: Setting, s: State, i: int, beta: real, today: int, n: int)
  {
    && n in s.color && s.color[n] == Yellow
    && i in p.graph.adj && n in p.graph.adj[i]
    && p.oracle.infect(today, i, n) < beta
  }

  /** The trials of `i` against its neighbours: each node hit turns red with a fresh infection length. */
  function Transmitted(p: Setting, s: State, i: int, beta: real, today: int): (r: State)
    requires s.days.Keys == s.color.Keys && s.total.Keys == s.color.Keys
    ensures r.color.Keys == s.color.Keys && r.days.Keys == s.color.Keys && r.total.Keys == s.color.Keys
    ensures r.infected == s.infected && r.recovered == s.recovered && r.dead == s.dead
  {
    s.(color := map n | n in s.color :: if Hit(p, s, i, beta, today, n) then Red else s.color[n],
       days := map n | n in s.days :: if Hit(p, s, i, beta, today, n) then Duration(p.oracle, today, n) else s.days[n],
       total := map n | n in s.total :: if Hit(p, s, i, beta, today, n) then Duration(p.oracle, today, n) else s.total[n])
  }

  /** The trials of `i` change a node exactly when it is hit. */
  lemma TransmittedAt(p: Setting, s: State, i: int, beta: real, today: int, n: int)
    requires s.days.Keys == s.color.Keys && s.total.Keys == s.color.Keys && n in s.color
    ensures var r := Transmitted(p, s, i, beta, today);
      && (!Hit(p, s, i, beta, today, n) ==> r.color[n] == s.color[n] && r.days[n] == s.days[n] && r.total[n] == s.total[n])
      && (Hit(p, s, i, beta, today, n) ==> r.color[n] == Red && r.days[n] == r.total[n] == Duration(p.oracle, today, n))
  {
  }

  /** The end of the visit of `i`: a red node counts down, or at zero dies or recovers. */
  function Countdown(p: Setting, s: State, i: int, today: int): State
    requires i in s.color && i in s.days
  {
    if s.color[i] == Red && s.days[i] != 0 then s.(days := s.days[i := s.days[i] - 1])
    else if s.color[i] == Red && s.days[i] == 0 then
      if p.oracle.death(today, i) < p.deathRate then s.(color := s.color[i := Black], dead := s.dead + [i])
      else s.(color := s.color[i := Blue], recovered := s.recovered + [i])
    else s
  }

  /** One iteration of the loop over the pool, for pool node `i`. */
  function Visit(p: Setting, s: State, i: int, today: int): State
    requires s.days.Keys == s.color.Keys && s.total.Keys == s.color.Keys && i in s.color
    requires i in p.graph.adj && |p.graph.adj[i]| >= 1 && s.total[i] >= 1
  {
    var beta := Beta(p.r, |p.graph.adj[i]|, s.total[i]);
    Countdown(p, Transmitted(p, s, i, beta, today), i, today)
  }

  /** What the sweep relies on: the attribute maps share their keys, and the pool is duplicate-free and red, with a neighbour and an infection length each. */
  ghost predicate Sweepable(p: Setting, s0: State)
  {
    && s0.days.Keys == s0.color.Keys && s0.total.Keys == s0.color.Keys
    && Distinct(s0.infected)
    && (forall x :: x in s0.infected ==>
      x in s0.color && s0.color[x] == Red && s0.total[x] >= 1 && x in p.graph.adj && |p.graph.adj[x]| >= 1)
    && (forall x, m :: x in s0.infected && m in p.graph.adj[x] ==> x in p.graph.adj && m in s0.color)
  }

  lemma InvSweepable(p: Setting, s0: State)
    requires Inv(p, s0)
    ensures Sweepable(p, s0)
  {
    forall x | x in s0.infected
      ensures s0.total[x] >= 1
    {
      assert Consistent(s0.color[x], s0.days[x], s0.total[x]);
    }
  }

  /** The state of day `s0.day + 1` once the pool nodes of `done` have been visited. */
  ghost function Partial(p: Setting, s0: State, done: seq<int>): State
    requires Sweepable(p, s0) && forall i :: i in done ==> i in s0.infected
  {
    s0.(color := map n | n in s0.color :: NodeColor(p, s0, done, n),
        days := map n | n in s0.days :: NodeDays(p, s0, done, n),
        total := map n | n in s0.total :: NodeTotal(p, s0, done, n),
        recovered := s0.recovered + Resolutions(p, s0, done, false),
        dead := s0.dead + Resolutions(p, s0, done, true))
  }

  /** Being caught by one more pool node. */
  lemma CaughtExtend(p: Setting, total: map<int, nat>, day: int, done: seq<int>, i: int, n: int)
    ensures Caught(p, total, day, done + [i], n) <==> Caught(p, total, day, done, n) || Exposes(p, total, day, i, n)
  {
    var d := done + [i];
    if Caught(p, total, day, d, n) {
      var k :| 0 <= k < |d| && Exposes(p, total, day, d[k], n);
      if k < |done| {
        assert done[k] == d[k];
      }
    }
    if Caught(p, total, day, done, n) {
      var k :| 0 <= k < |done| && Exposes(p, total, day, done[k], n);
      assert d[k] == done[k];
    }
    if Exposes(p, total, day, i, n) {
      assert d[|done|] == i;
    }
  }

  /** Before any visit the day has changed nothing. */
  lemma PartialStart(p: Setting, s0: State)
    requires Sweepable(p, s0)
    ensures Partial(p, s0, []) == s0
  {
    var r := Partial(p, s0, []);
    assert r.color == s0.color;
    assert r.days == s0.days;
    assert r.total == s0.total;
  }

  /** The susceptible nodes part-way through the sweep: those not yet caught by a visited node. */
  lemma PartialYellow(p: Setting, s0: State, done: seq<int>, n: int)
    requires Sweepable(p, s0) && forall i :: i in done ==> i in s0.infected
    requires n in s0.color
    ensures var r := Partial(p, s0, done);
      n in r.color && (r.color[n] == Yellow <==> s0.color[n] == Yellow && !Caught(p, s0.total, s0.day + 1, done, n))
  {
    if n in done {
      assert n in s0.infected;
    }
  }

  /** What the visit of `i` does to node `n`, for any state it starts from. */
  lemma VisitEffect(p: Setting, s: State, i: int, today: int, n: int)
    requires s.days.Keys == s.color.Keys && s.total.Keys == s.color.Keys && i in s.color && n in s.color
    requires i in p.graph.adj && |p.graph.adj[i]| >= 1 && s.total[i] >= 1 && s.color[i] != Yellow
    ensures var beta := Beta(p.r, |p.graph.adj[i]|, s.total[i]);
      var c := Visit(p, s, i, today);
      && n in c.color && n in c.days && n in c.total
      && (n != i && Hit(p, s, i, beta, today, n) ==>
            c.color[n] == Red && c.days[n] == c.total[n] == Duration(p.oracle, today, n))
      && (n != i && !Hit(p, s, i, beta, today, n) ==>
            c.color[n] == s.color[n] && c.days[n] == s.days[n] && c.total[n] == s.total[n])
      && (n == i ==> c.total[n] == s.total[n])
      && (n == i && s.color[i] == Red && s.days[i] != 0 ==> c.color[n] == Red && c.days[n] == s.days[i] - 1)
      && (n == i && s.color[i] == Red && s.days[i] == 0 ==> c.color[n] == Outcome(p, today, i) && c.days[n] == 0)
      && (n == i && s.color[i] != Red ==> c.color[n] == s.color[n] && c.days[n] == s.days[n])
  {
    var beta := Beta(p.r, |p.graph.adj[i]|, s.total[i]);
    assert !Hit(p, s, i, beta, today, i);
    TransmittedAt(p, s, i, beta, today, n);
    TransmittedAt(p, s, i, beta, today, i);
  }

  /**
   * The rule behind the sweep, for a node `n` other than the visited `i`:
   * if `n` was where `done` left it, and the trials of `i` turned it red
   * exactly when it was still susceptible and exposed to `i`, then it is
   * where `done + [i]` leaves it.
   */
  lemma VisitRule(p: Setting, s0: State, done: seq<int>, i: int, n: int, hit: bool, a: State, c: State)
    requires n in s0.color && n in s0.days && n in s0.total && n != i
    requires n in done ==> s0.color[n] == Red
    requires n in a.color && n in a.days && n in a.total && n in c.color && n in c.days && n in c.total
    requires a.color[n] == NodeColor(p, s0, done, n) && a.days[n] == NodeDays(p, s0, done, n) && a.total[n] == NodeTotal(p, s0, done, n)
    requires hit == (a.color[n] == Yellow && Exposes(p, s0.total, s0.day + 1, i, n))
    requires hit ==> c.color[n] == Red && c.days[n] == Duration(p.oracle, s0.day + 1, n) && c.total[n] == Duration(p.oracle, s0.day + 1, n)
    requires !hit ==> c.color[n] == a.color[n] && c.days[n] == a.days[n] && c.total[n] == a.total[n]
    ensures c.color[n] == NodeColor(p, s0, done + [i], n)
    ensures c.days[n] == NodeDays(p, s0, done + [i], n)
    ensures c.total[n] == NodeTotal(p, s0, done + [i], n)
  {
    var today := s0.day + 1;
    assert n in done + [i] <==> n in done;
    CaughtExtend(p, s0.total, today, done, i, n);
  }

  /** Visiting pool node `i` moves every other node from its state part-way to its state one visit later. */
  lemma VisitOther(p: Setting, s0: State, k: nat, n: int)
    requires Sweepable(p, s0) && k < |s0.infected|
    requires n in s0.color && n != s0.infected[k]
    ensures var done, i := s0.infected[..k], s0.infected[k];
      var a := Partial(p, s0, done);
      var c := Visit(p, a, i, s0.day + 1);
      && n in c.color && n in c.days && n in c.total
      && c.color[n] == NodeColor(p, s0, done + [i], n)
      && c.days[n] == NodeDays(p, s0, done + [i], n)
      && c.total[n] == NodeTotal(p, s0, done + [i], n)
  {
    var done, i := s0.infected[..k], s0.infected[k];
    assert i in s0.infected;
    assert forall x :: x in done ==> x in s0.infected;
    var a := Partial(p, s0, done);
    assert a.color[i] == Red && a.total[i] == s0.total[i];
    var beta := Beta(p.r, |p.graph.adj[i]|, a.total[i]);
    var today := s0.day + 1;
    VisitEffect(p, a, i, today, n);
    assert n in done ==> n in s0.infected;
    var hit := Hit(p, a, i, beta, today, n);
    assert hit == (a.color[n] == Yellow && Exposes(p, s0.total, today, i, n));
    VisitRule(p, s0, done, i, n, hit, a, Visit(p, a, i, today));
  }

  /** Visiting pool node `i` counts it down or resolves it. */
  lemma VisitSelf(p: Setting, s0: State, k: nat)
    requires Sweepable(p, s0) && k < |s0.infected|
    ensures var done, i := s0.infected[..k], s0.infected[k];
      var a := Partial(p, s0, done);
      var c := Visit(p, a, i, s0.day + 1);
      && i in c.color && i in c.days && i in c.total
      && c.color[i] == NodeColor(p, s0, done + [i], i)
      && c.days[i] == NodeDays(p, s0, done + [i], i)
      && c.total[i] == NodeTotal(p, s0, done + [i], i)
  {
    var done, i := s0.infected[..k], s0.infected[k];
    assert i in s0.infected;
    assert forall x :: x in done ==> x in s0.infected;
    PrefixExcludes(s0.infected, k);
    var a := Partial(p, s0, done);
    assert a.color[i] == Red && a.days[i] == s0.days[i] && a.total[i] == s0.total[i];
    VisitEffect(p, a, i, s0.day + 1, i);
    assert i in done + [i];
  }

  /** A visit keeps the nodes of every attribute map. */
  lemma VisitKeys(p: Setting, s: State, i: int, today: int)
    requires s.days.Keys == s.color.Keys && s.total.Keys == s.color.Keys && i in s.color
    requires i in p.graph.adj && |p.graph.adj[i]| >= 1 && s.total[i] >= 1
    ensures var c := Visit(p, s, i, today);
      c.color.Keys == s.color.Keys && c.days.Keys == s.color.Keys && c.total.Keys == s.color.Keys
  {
    var t := Transmitted(p, s, i, Beta(p.r, |p.graph.adj[i]|, s.total[i]), today);
    assert t.color.Keys == s.color.Keys && t.days.Keys == s.color.Keys && t.total.Keys == s.color.Keys;
    var c := Countdown(p, t, i, today);
    assert c.total == t.total;
    assert c.color.Keys == t.color.Keys + {i} == t.color.Keys;
    assert c.days.Keys == t.days.Keys + {i} == t.days.Keys;
  }

  /** A visit appends the visited node to the list its resolution puts it on, and touches nothing else but the attribute maps. */
  lemma VisitLists(p: Setting, s: State, i: int, today: int)
    requires s.days.Keys == s.color.Keys && s.total.Keys == s.color.Keys && i in s.color
    requires i in p.graph.adj && |p.graph.adj[i]| >= 1 && s.total[i] >= 1 && s.color[i] != Yellow
    ensures var c := Visit(p, s, i, today);
      var resolved := s.color[i] == Red && s.days[i] == 0;
      && c.recovered == s.recovered + (if resolved && !Dies(p, today, i) then [i] else [])
      && c.dead == s.dead + (if resolved && Dies(p, today, i) then [i] else [])
      && c.infected == s.infected && c.nInfected == s.nInfected && c.nDead == s.nDead
      && c.nRecovered == s.nRecovered && c.day == s.day
  {
    var beta := Beta(p.r, |p.graph.adj[i]|, s.total[i]);
    TransmittedAt(p, s, i, beta, today, i);
  }

  lemma MapExt<V>(m1: map<int, V>, m2: map<int, V>)
    requires m1.Keys == m2.Keys && forall n :: n in m1 ==> m1[n] == m2[n]
    ensures m1 == m2
  {
    assert forall n :: n in m1 <==> n in m2;
    assert m1.Keys == m2.Keys;
    assert forall n :: n in m1 ==> m1[n] == m2[n];
  }

  lemma {:induction false} ResolutionsSnoc(p: Setting, s: State, done: seq<int>, i: int, fatal: bool)
    requires forall x :: x in done ==> x in s.days
    requires i in s.days
    ensures Resolutions(p, s, done + [i], fatal)
         == Resolutions(p, s, done, fatal) + (if s.days[i] == 0 && Dies(p, s.day + 1, i) == fatal then [i] else [])
  {
    assert (done + [i])[..|done|] == done;
  }

  lemma PrefixExcludes(s: seq<int>, k: nat)
    requires Distinct(s) && k < |s|
    ensures s[k] !in s[..k]
  {
    forall m | 0 <= m < k
      ensures s[..k][m] != s[k]
    {
    }
  }

  /** The attribute maps after one more visit. */
  lemma PartialMapsExtend(p: Setting, s0: State, k: nat)
    requires Sweepable(p, s0) && k < |s0.infected|
    ensures var done, i := s0.infected[..k], s0.infected[k];
      var a := Partial(p, s0, done);
      var c, e := Visit(p, a, i, s0.day + 1), Partial(p, s0, s0.infected[..k + 1]);
      && i in a.color && a.total[i] == s0.total[i]
      && c.color == e.color && c.days == e.days && c.total == e.total
  {
    var done, i := s0.infected[..k], s0.infected[k];
    var d' := s0.infected[..k + 1];
    assert d' == done + [i];
    assert i in s0.infected;
    assert forall x :: x in done ==> x in s0.infected;
    assert forall x :: x in d' ==> x in s0.infected;
    var a := Partial(p, s0, done);
    assert a.total[i] == s0.total[i];
    var c := Visit(p, a, i, s0.day + 1);
    var e := Partial(p, s0, d');
    VisitKeys(p, a, i, s0.day + 1);
    forall n | n in s0.color
      ensures c.color[n] == e.color[n] && c.days[n] == e.days[n] && c.total[n] == e.total[n]
    {
      if n == i {
        VisitSelf(p, s0, k);
      } else {
        VisitOther(p, s0, k, n);
      }
    }
    MapExt(c.color, e.color);
    MapExt(c.days, e.days);
    MapExt(c.total, e.total);
  }

  /** The sweep keeps the keys of the attribute maps. */
  lemma PartialKeys(p: Setting, s0: State, done: seq<int>)
    requires Sweepable(p, s0) && forall i :: i in done ==> i in s0.infected
    ensures var a := Partial(p, s0, done);
      a.color.Keys == s0.color.Keys && a.days.Keys == s0.color.Keys && a.total.Keys == s0.color.Keys
  {
  }

  /** Visiting the next pool node extends the sweep by that node. */
  lemma PartialExtend(p: Setting, s0: State, k: nat)
    requires Sweepable(p, s0) && k < |s0.infected|
    ensures var done, i := s0.infected[..k], s0.infected[k];
      var a := Partial(p, s0, done);
      && i in a.color && i in p.graph.adj && |p.graph.adj[i]| >= 1 && a.total[i] == s0.total[i] >= 1
      && a.days.Keys == a.color.Keys && a.total.Keys == a.color.Keys
      && Visit(p, a, i, s0.day + 1) == Partial(p, s0, s0.infected[..k + 1])
  {
    var done, i := s0.infected[..k], s0.infected[k];
    var d' := s0.infected[..k + 1];
    assert d' == done + [i];
    assert i in s0.infected;
    assert forall x :: x in done ==> x in s0.infected;
    assert forall x :: x in d' ==> x in s0.infected;
    PartialMapsExtend(p, s0, k);
    PrefixExcludes(s0.infected, k);
    ResolutionsSnoc(p, s0, done, i, true);
    ResolutionsSnoc(p, s0, done, i, false);
    var a := Partial(p, s0, done);
    assert a.color[i] == Red && a.days[i] == s0.days[i];
    VisitLists(p, a, i, s0.day + 1);
    var c, e := Visit(p, a, i, s0.day + 1), Partial(p, s0, d');
    var today := s0.day + 1;
    var rec := if s0.days[i] == 0 && !Dies(p, today, i) then [i] else [];
    var dth := if s0.days[i] == 0 && Dies(p, today, i) then [i] else [];
    assert c.recovered == a.recovered + rec;
    assert c.dead == a.dead + dth;
    AppendAssoc(s0.recovered, Resolutions(p, s0, done, false), rec);
    AppendAssoc(s0.dead, Resolutions(p, s0, done, true), dth);
  }

  lemma AppendAssoc(a: seq<int>, b: seq<int>, c: seq<int>)
    ensures (a + b) + c == a + (b + c)
  {
  }

  /** numpy's two-step rebuild of the pool lists the set it should, in ascending order. */
  lemma {:induction false} RebuildSorted(pool: seq<int>, newly: seq<int>, rec: seq<int>, dead: seq<int>, universe: seq<int>, S: set<int>)
    requires S <= SetOf(universe)
    requires S == (SetOf(pool) + SetOf(newly)) - SetOf(rec) - SetOf(dead)
    ensures SetDiff1d(SetDiff1d(pool + newly, rec), dead) == SortedWithin(universe, S)
  {
    var r1 := SetDiff1d(SetDiff1d(pool + newly, rec), dead);
    var r2 := SortedWithin(universe, S);
    forall x
      ensures x in r1 <==> x in r2
    {
      assert x in r2 <==> x in SetOf(r2);
      assert x in pool + newly <==> x in pool || x in newly;
      assert x in SetOf(pool) <==> x in pool;
      assert x in SetOf(newly) <==> x in newly;
      assert x in SetOf(rec) <==> x in rec;
      assert x in SetOf(dead) <==> x in dead;
    }
    SortedUnique(r1, r2);
  }

  /** A duplicate-free list of the newly infected has as many entries as there are newly infected nodes. */
  lemma NewlyListed(p: Setting, s0: State, newly: seq<int>)
    requires Distinct(newly)
    requires forall x :: x in newly <==> x in s0.color && s0.color[x] == Yellow && Caught(p, s0.total, s0.day + 1, s0.infected, x)
    ensures SetOf(newly) == Newly(p, s0) && |newly| == |Newly(p, s0)|
  {
    forall x
      ensures x in SetOf(newly) <==> x in Newly(p, s0)
    {
      assert x in SetOf(newly) <==> x in newly;
    }
    DistinctCard(newly);
  }

  /** A day begins at `s0`: a day boundary whose pool is not empty. */
  ghost predicate DayStart(p: Setting, s0: State)
  {
    Inv(p, s0) && s0.infected != []
  }

  /**
   * The end of the day: after the sweep over the whole pool, appending the
   * counters, rebuilding the pool from the newly infected and advancing the
   * day gives exactly `Next`.
   */
  lemma SweepComplete(p: Setting, s0: State, newly: seq<int>)
    requires DayStart(p, s0) && Distinct(newly)
    requires forall x :: x in newly <==> x in s0.color && s0.color[x] == Yellow && Caught(p, s0.total, s0.day + 1, s0.infected, x)
    ensures Sweepable(p, s0)
    ensures var a := Partial(p, s0, s0.infected);
      Next(p, s0) == a.(infected := SetDiff1d(SetDiff1d(s0.infected + newly, a.recovered), a.dead),
                        nInfected := s0.nInfected + [|newly|],
                        nDead := s0.nDead + [|Resolutions(p, s0, s0.infected, true)|],
                        nRecovered := s0.nRecovered + [|Resolutions(p, s0, s0.infected, false)|],
                        day := s0.day + 1)
  {
    InvSweepable(p, s0);
    assert s0.infected[..|s0.infected|] == s0.infected;
    var a := Partial(p, s0, s0.infected);
    NextFields(p, s0);
    var s' := Next(p, s0);
    NewlyListed(p, s0, newly);
    RebuildSorted(s0.infected, newly, a.recovered, a.dead, p.graph.nodes, NextPool(p, s0, a.recovered, a.dead));
    assert s'.color == a.color;
    assert s'.days == a.days;
    assert s'.total == a.total;
  }

  /** The list of newly infected nodes after one more visit: those already listed, then the ones the visited node caught. */
  lemma NewlyExtend(p: Setting, s0: State, k: nat, newly: seq<int>, caught: seq<int>)
    requires Sweepable(p, s0) && k < |s0.infected|
    requires Distinct(newly)
    requires forall x :: x in newly <==> x in s0.color && s0.color[x] == Yellow && Caught(p, s0.total, s0.day + 1, s0.infected[..k], x)
    requires var i := s0.infected[k];
      var beta := Beta(p.r, |p.graph.adj[i]|, s0.total[i]);
      && Distinct(caught)
      && forall x :: x in caught <==> Hit(p, Partial(p, s0, s0.infected[..k]), i, beta, s0.day + 1, x)
    ensures Distinct(newly + caught)
    ensures forall x :: x in newly + caught <==>
      x in s0.color && s0.color[x] == Yellow && Caught(p, s0.total, s0.day + 1, s0.infected[..k + 1], x)
  {
    var done, i := s0.infected[..k], s0.infected[k];
    var today := s0.day + 1;
    assert s0.infected[..k + 1] == done + [i];
    assert i in s0.infected;
    assert forall x :: x in done ==> x in s0.infected;
    var a := Partial(p, s0, done);
    var beta := Beta(p.r, |p.graph.adj[i]|, s0.total[i]);
    forall x
      ensures x in caught ==> x !in newly
      ensures x in newly + caught <==> x in s0.color && s0.color[x] == Yellow && Caught(p, s0.total, today, done + [i], x)
    {
      CaughtExtend(p, s0.total, today, done, i, x);
      if x in s0.color {
        PartialYellow(p, s0, done, x);
      }
    }
    DistinctConcat(newly, caught);
  }
}
