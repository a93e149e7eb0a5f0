// The simulator itself: the working copy of the graph with its node
// attributes, the infectious pool and the progress lists, updated in place by
// the outbreak, by each day of the main loop and by the final query for the
// nodes never infected.  Each day is proved to compute `Next` of the state the
// day began in, so everything proved about the state machine holds here.

module Epidemic {
  import opened SortedSets
  import opened Sird
  import opened SirdFacts
  import opened Sweep

  /** The state before the outbreak: every node yellow, nothing recorded, day -1. */
  ghost function Initial(g: Graph): State
  {
    State(map n | n in g.adj :: Yellow, map n | n in g.adj :: 0, map n | n in g.adj :: 0, [], [], [], [], [], [], -1)
  }

  /** The state on the first day: the seeds red with a countdown drawn on day 0, everything else yellow. */
  ghost function Seeded(p: Setting, seeds: seq<int>): State
  {
    var adj := p.graph.adj;
    State(
      map n | n in adj :: if n in seeds then Red else Yellow,
      map n | n in adj :: if n in seeds then Duration(p.oracle, 0, n) else 0,
      map n | n in adj :: if n in seeds then Duration(p.oracle, 0, n) else 0,
      seeds, [], [], [|seeds|], [], [], 0)
  }

  /** The first day satisfies the invariant, with the seeds as the pool. */
  lemma SeededInv(p: Setting, seeds: seq<int>)
    requires WellFormed(p.graph) && Distinct(seeds)
    requires forall n :: n in seeds ==> n in p.graph.adj && |p.graph.adj[n]| >= 1
    ensures Inv(p, Seeded(p, seeds))
  {
    var s := Seeded(p, seeds);
    assert Sum(s.nInfected) == |seeds| by {
      assert s.nInfected[..0] == [];
    }
  }

  /** The seeding loop on the node attributes: every seed red with its countdown and total set. */
  method SeedMaps(p: Setting, seeds: seq<int>) returns (s: State)
    requires forall n :: n in seeds ==> n in p.graph.adj
    ensures s == Seeded(p, seeds)
  {
    ghost var keys := p.graph.adj.Keys;
    var c: map<int, Color> := map n | n in p.graph.adj :: Yellow;
    var d: map<int, nat> := map n | n in p.graph.adj :: 0;
    var t: map<int, nat> := map n | n in p.graph.adj :: 0;
    for k := 0 to |seeds|
      invariant c.Keys == keys && d.Keys == keys && t.Keys == keys
      invariant forall n :: n in c ==>
        && c[n] == (if n in seeds[..k] then Red else Yellow)
        && d[n] == (if n in seeds[..k] then Duration(p.oracle, 0, n) else 0)
        && t[n] == (if n in seeds[..k] then Duration(p.oracle, 0, n) else 0)
    {
      var i := seeds[k];
      assert seeds[..k + 1] == seeds[..k] + [i];
      c := c[i := Red];
      var days := Duration(p.oracle, 0, i);
      d := d[i := days];
      t := t[i := days];
    }
    assert seeds[..|seeds|] == seeds;
    ghost var r := Seeded(p, seeds);
    MapExt(c, r.color);
    MapExt(d, r.days);
    MapExt(t, r.total);
    s := State(c, d, t, seeds, [], [], [|seeds|], [], [], 0);
  }

  /** A single state satisfying the invariant is an unrolled run. */
  lemma SingleRun(p: Setting, s: State)
    requires Inv(p, s)
    ensures Unrolled(p, [s])
  {
  }

  /** The trials of pool node `i` against its neighbours, on `today`, each succeeding when the draw falls below `beta`. */
  method Transmit(p: Setting, s: State, i: int, beta: real, today: int) returns (r: State, caught: seq<int>)
    requires i in p.graph.adj && forall m :: m in p.graph.adj[i] ==> m in s.color
    requires s.days.Keys == s.color.Keys && s.total.Keys == s.color.Keys
    ensures r == Transmitted(p, s, i, beta, today)
    ensures Distinct(caught) && forall n :: n in caught <==> Hit(p, s, i, beta, today, n)
  {
    var nbrs := p.graph.adj[i];
    var c, d, t := s.color, s.days, s.total;
    caught := [];
    for q := 0 to |nbrs|
      invariant c.Keys == s.color.Keys && d.Keys == s.color.Keys && t.Keys == s.color.Keys
      invariant forall n :: n in s.color ==>
        if Hit(p, s, i, beta, today, n) && n in nbrs[..q]
        then c[n] == Red && d[n] == Duration(p.oracle, today, n) && t[n] == Duration(p.oracle, today, n)
        else c[n] == s.color[n] && d[n] == s.days[n] && t[n] == s.total[n]
      invariant Distinct(caught)
      invariant forall n :: n in caught <==> Hit(p, s, i, beta, today, n) && n in nbrs[..q]
    {
      var j := nbrs[q];
      assert nbrs[..q + 1] == nbrs[..q] + [j];
      if c[j] == Yellow {
        if p.oracle.infect(today, i, j) < beta {
          c := c[j := Red];
          caught := caught + [j];
          var timeUntilRecovery := Duration(p.oracle, today, j);
          d := d[j := timeUntilRecovery];
          t := t[j := timeUntilRecovery];
        }
      }
    }
    assert nbrs[..|nbrs|] == nbrs;
    ghost var e := Transmitted(p, s, i, beta, today);
    forall n | n in s.color
      ensures c[n] == e.color[n] && d[n] == e.days[n] && t[n] == e.total[n]
    {
      TransmittedAt(p, s, i, beta, today, n);
    }
    MapExt(c, e.color);
    MapExt(d, e.days);
    MapExt(t, e.total);
    r := s.(color := c, days := d, total := t);
  }

  /**
   * The end of the visit of pool node `i` on `today`: a red node with days
   * left counts down; one at zero dies with the death rate, joining the dead
   * and bumping `dead`, or else recovers, joining the recovered and bumping
   * `recovered`.
   */
  method Resolve(p: Setting, s: State, i: int, today: int, dead: nat, recovered: nat)
    returns (r: State, dead': nat, recovered': nat)
    requires i in s.color && i in s.days
    ensures r == Countdown(p, s, i, today)
    ensures |r.dead| - |s.dead| == dead' - dead && |r.recovered| - |s.recovered| == recovered' - recovered
  {
    r, dead', recovered' := s, dead, recovered;
    var daysInfected := r.days[i];
    if r.color[i] == Red && daysInfected != 0 {
      r := r.(days := r.days[i := daysInfected - 1]);
    }
    if r.color[i] == Red && daysInfected == 0 {
      if p.oracle.death(today, i) < p.deathRate {
        r := r.(dead := r.dead + [i], color := r.color[i := Black]);
        dead' := dead + 1;
      } else {
        r := r.(recovered := r.recovered + [i], color := r.color[i := Blue]);
        recovered' := recovered + 1;
      }
    }
  }

  /**
   * The body of the loop over the pool on day `s0.day + 1`, for its `k`-th
   * node `i`: `i` transmits to its neighbours, the nodes it catches join the
   * newly infected, and `i` counts down or, at zero, dies with the death rate
   * or recovers, bumping the matching counter.
   */
  method VisitNode(p: Setting, s0: State, k: nat, a: State, newly: seq<int>, dead: nat, recovered: nat)
    returns (r: State, newly': seq<int>, dead': nat, recovered': nat)
    requires Sweepable(p, s0) && k < |s0.infected| && a == Partial(p, s0, s0.infected[..k])
    requires Distinct(newly)
    requires forall x :: x in newly <==>
      x in s0.color && s0.color[x] == Yellow && Caught(p, s0.total, s0.day + 1, s0.infected[..k], x)
    ensures r == Partial(p, s0, s0.infected[..k + 1])
    ensures |r.dead| - |a.dead| == dead' - dead && |r.recovered| - |a.recovered| == recovered' - recovered
    ensures Distinct(newly')
    ensures forall x :: x in newly' <==>
      x in s0.color && s0.color[x] == Yellow && Caught(p, s0.total, s0.day + 1, s0.infected[..k + 1], x)
  {
    PartialExtend(p, s0, k);
    PartialKeys(p, s0, s0.infected[..k]);
    var today := s0.day + 1;
    var i := a.infected[k];
    assert i in s0.infected;
    var beta := p.r / |p.graph.adj[i]| as real / a.total[i] as real;
    assert beta == Beta(p.r, |p.graph.adj[i]|, s0.total[i]);
    var caught;
    r, caught := Transmit(p, a, i, beta, today);
    NewlyExtend(p, s0, k, newly, caught);
    newly' := newly + caught;
    r, dead', recovered' := Resolve(p, r, i, today, dead, recovered);
    assert r == Visit(p, a, i, today);
  }

  /**
   * The loop over the pool on day `s0.day + 1`: each pool node is visited in
   * turn.  The result is `Partial` over the whole pool; `newlyInfected` lists
   * the nodes caught that day and the counters the numbers resolved.
   */
  method SweepPool(p: Setting, s0: State) returns (r: State, newlyInfected: seq<int>, newDead: nat, newRecovered: nat)
    requires Sweepable(p, s0)
    ensures r == Partial(p, s0, s0.infected)
    ensures newDead == |Resolutions(p, s0, s0.infected, true)|
    ensures newRecovered == |Resolutions(p, s0, s0.infected, false)|
    ensures Distinct(newlyInfected)
    ensures forall x :: x in newlyInfected <==>
      x in s0.color && s0.color[x] == Yellow && Caught(p, s0.total, s0.day + 1, s0.infected, x)
  {
    PartialStart(p, s0);
    r, newlyInfected, newDead, newRecovered := s0, [], 0, 0;
    for k := 0 to |s0.infected|
      invariant r == Partial(p, s0, s0.infected[..k])
      invariant |r.dead| == |s0.dead| + newDead && |r.recovered| == |s0.recovered| + newRecovered
      invariant Distinct(newlyInfected)
      invariant forall x :: x in newlyInfected <==>
        x in s0.color && s0.color[x] == Yellow && Caught(p, s0.total, s0.day + 1, s0.infected[..k], x)
    {
      r, newlyInfected, newDead, newRecovered := VisitNode(p, s0, k, r, newlyInfected, newDead, newRecovered);
    }
    assert s0.infected[..|s0.infected|] == s0.infected;
    assert r.dead == s0.dead + Resolutions(p, s0, s0.infected, true);
    assert r.recovered == s0.recovered + Resolutions(p, s0, s0.infected, false);
  }

  /**
   * One pass of the main loop on the state `s0` of a day boundary: the sweep
   * over the pool, then the counters are appended, the pool is rebuilt from
   * the old pool and the newly infected minus the recovered and the dead, and
   * the day advances.
   */
  method Day(p: Setting, s0: State) returns (s1: State)
    requires Inv(p, s0) && s0.infected != []
    ensures s1 == Next(p, s0)
  {
    InvSweepable(p, s0);
    var swept, newlyInfected, newDead, newRecovered := SweepPool(p, s0);
    var nDead := s0.nDead + [newDead];
    var nRecovered := s0.nRecovered + [newRecovered];
    var nInfected := s0.nInfected + [|newlyInfected|];
    var infected := s0.infected + newlyInfected;
    infected := SetDiff1d(infected, swept.recovered);
    infected := SetDiff1d(infected, swept.dead);
    SweepComplete(p, s0, newlyInfected);
    s1 := swept.(infected := infected, nInfected := nInfected, nDead := nDead, nRecovered := nRecovered, day := s0.day + 1);
  }

  class Simulation {
    const setting: Setting
    var color: map<int, Color>
    var infectedDays: map<int, nat>
    var totalInfectionTime: map<int, nat>
    var infected: seq<int>
    var recoveredNodes: seq<int>
    var deadNodes: seq<int>
    var nInfected: seq<nat>
    var nDead: seq<nat>
    var nRecovered: seq<nat>
    var day: int
    /** The states whose colourings are saved as figures, one per day from the onset of the outbreak. */
    ghost var history: seq<State>

    /** The simulation state held by the fields. */
    ghost function Snapshot(): State
      reads this`color, this`infectedDays, this`totalInfectionTime, this`infected, this`recoveredNodes
      reads this`deadNodes, this`nInfected, this`nDead, this`nRecovered, this`day
    {
      State(color, infectedDays, totalInfectionTime, infected, recoveredNodes, deadNodes, nInfected, nDead, nRecovered, day)
    }

    /** Writes the state `s` of a day boundary to the fields. */
    method Store(s: State)
      modifies this`color, this`infectedDays, this`totalInfectionTime, this`infected, this`recoveredNodes
      modifies this`deadNodes, this`nInfected, this`nDead, this`nRecovered, this`day
      ensures Snapshot() == s && history == old(history)
    {
      color, infectedDays, totalInfectionTime, infected, recoveredNodes, deadNodes, nInfected, nDead, nRecovered, day :=
        s.color, s.days, s.total, s.infected, s.recovered, s.dead, s.nInfected, s.nDead, s.nRecovered, s.day;
    }

    /** Before the outbreak: every node susceptible, nothing recorded, day -1. */
    ghost predicate Pristine()
      reads this
    {
      WellFormed(setting.graph) && Snapshot() == Initial(setting.graph) && history == []
    }

    /** At a day boundary: the invariant holds, and the current state is the last day saved. */
    ghost predicate Valid()
      reads this
    {
      Inv(setting, Snapshot()) && |history| > 0 && history[|history| - 1] == Snapshot()
    }

    /** The saved days form a run from the onset of the outbreak, each day computed from the one before. */
    ghost predicate Saved()
      reads this`history
    {
      |history| > 0 && history[0].day == 0 && Unrolled(setting, history)
    }

    /** The working copy of the graph, every node yellow with no infection. */
    constructor (graph: Graph, r: real, deathRate: real, oracle: Oracle)
      requires WellFormed(graph)
      ensures setting == Setting(graph, r, deathRate, oracle)
      ensures Pristine()
    {
      setting := Setting(graph, r, deathRate, oracle);
      color := map n | n in graph.adj :: Yellow;
      infectedDays := map n | n in graph.adj :: 0;
      totalInfectionTime := map n | n in graph.adj :: 0;
      infected := [];
      recoveredNodes := [];
      deadNodes := [];
      nInfected := [];
      nDead := [];
      nRecovered := [];
      day := -1;
      history := [];
      new;
      assert Snapshot() == Initial(graph);
    }

    /** Starts the outbreak: each seed turns red with an infection length drawn on day 0. */
    method Outbreak(seeds: seq<int>)
      requires Pristine()
      requires Distinct(seeds) && forall n :: n in seeds ==> n in setting.graph.adj && |setting.graph.adj[n]| >= 1
      modifies this
      ensures Snapshot() == Seeded(setting, seeds)
      ensures Valid() && Saved() && history == [Snapshot()]
    {
      var s := SeedMaps(setting, seeds);
      Store(s);
      history := [s];
      SeededInv(setting, seeds);
      FirstDay(s);
    }

    /** A state satisfying the invariant on day 0, saved as the only day so far, is a valid start. */
    lemma FirstDay(s: State)
      requires Snapshot() == s && Inv(setting, s) && s.day == 0 && history == [s]
      ensures Valid() && Saved()
    {
      SingleRun(setting, s);
    }

    /** One pass of the main loop.  Its result is `Next` of the state the day began in. */
    method Step()
      requires Valid() && infected != []
      modifies this`color, this`infectedDays, this`totalInfectionTime, this`infected, this`recoveredNodes
      modifies this`deadNodes, this`nInfected, this`nDead, this`nRecovered, this`day
      ensures Snapshot() == Next(setting, old(Snapshot())) && history == old(history)
      ensures Inv(setting, Snapshot()) && nInfected[0] == old(nInfected[0])
      ensures var nodes := setting.graph.nodes;
        || SumOver(nodes, YellowMark(Snapshot())) < SumOver(nodes, YellowMark(old(Snapshot())))
        || (SumOver(nodes, YellowMark(Snapshot())) == SumOver(nodes, YellowMark(old(Snapshot())))
            && SumOver(nodes, RedLoad(Snapshot())) < SumOver(nodes, RedLoad(old(Snapshot()))))
    {
      var s0 := State(color, infectedDays, totalInfectionTime, infected, recoveredNodes, deadNodes, nInfected, nDead, nRecovered, day);
      var s1 := Day(setting, s0);
      NextPreservesInv(setting, s0);
      NextKeepsFirstCount(setting, s0);
      NextDecreases(setting, s0);
      Store(s1);
    }

    /** The main loop: days are simulated until the pool is empty. */
    method Run()
      requires Valid() && Saved()
      modifies this
      ensures Valid() && Saved() && infected == []
      ensures history[0] == old(history)[0] && nInfected[0] == old(nInfected)[0]
      ensures Snapshot() == Final(setting, old(Snapshot())) == Final(setting, history[0])
    {
      while infected != []
        invariant Valid() && Saved()
        invariant history[0] == old(history)[0] && nInfected[0] == old(nInfected)[0]
        invariant Final(setting, Snapshot()) == Final(setting, old(Snapshot()))
        decreases SumOver(setting.graph.nodes, YellowMark(Snapshot())), SumOver(setting.graph.nodes, RedLoad(Snapshot()))
      {
        ghost var before := Snapshot();
        Advance();
        FinalNext(setting, before);
      }
      FinalSettled(setting, Snapshot());
      UnrolledFinal(setting, history, 0);
    }

    /** One pass of the main loop, with the day it ends in saved. */
    method Advance()
      requires Valid() && Saved() && infected != []
      modifies this
      ensures Snapshot() == Next(setting, old(Snapshot()))
      ensures Valid() && Saved() && history[0] == old(history)[0] && nInfected[0] == old(nInfected[0])
      ensures var nodes := setting.graph.nodes;
        || SumOver(nodes, YellowMark(Snapshot())) < SumOver(nodes, YellowMark(old(Snapshot())))
        || (SumOver(nodes, YellowMark(Snapshot())) == SumOver(nodes, YellowMark(old(Snapshot())))
            && SumOver(nodes, RedLoad(Snapshot())) < SumOver(nodes, RedLoad(old(Snapshot()))))
    {
      ghost var s := Snapshot();
      ghost var h := history;
      assert h[|h| - 1] == s;
      Step();
      assert history == h;
      Record(s);
    }

    /** Saves the day just simulated from `s` at the end of the history. */
    ghost method Record(s: State)
      requires Saved() && history[|history| - 1] == s && s.infected != []
      requires Snapshot() == Next(setting, s)
      modifies this`history
      ensures Valid() && Saved() && history[0] == old(history)[0]
    {
      ghost var h := history;
      assert Inv(setting, s);
      NextPreservesInv(setting, s);
      assert Succeeds(setting, s, Snapshot());
      history := history + [Snapshot()];
      UnrolledSnoc(setting, h, Snapshot());
    }

    /** The nodes never infected: all nodes minus the recovered minus the dead, ascending. */
    method Uninfected() returns (u: seq<int>)
      requires Valid() && infected == []
      ensures StrictlySorted(u)
      ensures forall n :: n in u <==> n in color && color[n] == Yellow
      ensures forall n :: n in setting.graph.nodes <==> n in deadNodes || n in recoveredNodes || n in u
      ensures forall n :: n in deadNodes ==> n !in recoveredNodes && n !in u
      ensures forall n :: n in recoveredNodes ==> n !in u
      ensures |deadNodes| + |recoveredNodes| + |u| == |setting.graph.nodes|
    {
      u := SetDiff1d(setting.graph.nodes, recoveredNodes);
      u := SetDiff1d(u, deadNodes);
      FinalPartition(setting, Snapshot());
    }
  }

  /**
   * Once the pool is empty, each seed has died exactly when the death draw of
   * the day after its countdown ran out fell below the death rate, and has
   * recovered otherwise.
   */
  lemma SeedFates(p: Setting, seeds: seq<int>, run: seq<State>)
    requires WellFormed(p.graph) && forall n :: n in seeds ==> n in p.graph.adj
    requires IsRun(p, run) && |run| > 0 && run[0] == Seeded(p, seeds) && run[|run| - 1].infected == []
    ensures var last := run[|run| - 1];
      forall n :: n in seeds ==>
        && (n in last.dead <==> Dies(p, Duration(p.oracle, 0, n) + 1, n))
        && (n in last.recovered <==> !Dies(p, Duration(p.oracle, 0, n) + 1, n))
  {
    var last := run[|run| - 1];
    assert Inv(p, last);
    forall n | n in seeds
      ensures && (n in last.dead <==> Dies(p, Duration(p.oracle, 0, n) + 1, n))
              && (n in last.recovered <==> !Dies(p, Duration(p.oracle, 0, n) + 1, n))
    {
      FinalColorOfRed(p, run, n);
    }
  }

  /** The first day has nobody recovered and nobody dead. */
  lemma SeededUnresolved(p: Setting, seeds: seq<int>)
    ensures var s := Seeded(p, seeds);
      forall n :: n in s.color ==> s.color[n] != Blue && s.color[n] != Black
  {
  }

  /**
   * The simulator: set up the working copy, start the outbreak at the seeds,
   * run until the pool is empty and report the per-day counters, the dead and
   * recovered nodes in order of resolution, and the nodes never infected.
   */
  method SIR(graph: Graph, seeds: seq<int>, r: real, deathRate: real, oracle: Oracle)
    returns (nInfected: seq<nat>, nDead: seq<nat>, nRecovered: seq<nat>,
             deadNodes: seq<int>, recoveredNodes: seq<int>, uninfectedNodes: seq<int>)
    requires WellFormed(graph) && Distinct(seeds) && forall n :: n in seeds ==> n in graph.adj && |graph.adj[n]| >= 1
    ensures |nInfected| == |nDead| + 1 && |nRecovered| == |nDead| && nInfected[0] == |seeds|
    ensures Sum(nDead) == |deadNodes| && Sum(nRecovered) == |recoveredNodes|
    ensures Sum(nInfected) == |recoveredNodes| + |deadNodes|
    ensures Distinct(deadNodes) && Distinct(recoveredNodes) && StrictlySorted(uninfectedNodes)
    ensures forall n :: n in graph.nodes <==> n in deadNodes || n in recoveredNodes || n in uninfectedNodes
    ensures forall n :: n in deadNodes ==> n !in recoveredNodes && n !in uninfectedNodes
    ensures forall n :: n in recoveredNodes ==> n !in uninfectedNodes
    ensures |deadNodes| + |recoveredNodes| + |uninfectedNodes| == |graph.nodes|
    ensures forall n :: n in seeds ==>
      && (n in deadNodes <==> oracle.death(Duration(oracle, 0, n) + 1, n) < deathRate)
      && (n in recoveredNodes <==> !(oracle.death(Duration(oracle, 0, n) + 1, n) < deathRate))
    ensures UnitDraws(oracle) && deathRate >= 1.0 ==> recoveredNodes == []
    ensures UnitDraws(oracle) && deathRate <= 0.0 ==> deadNodes == []
    ensures var p := Setting(graph, r, deathRate, oracle);
      var f := Final(p, Seeded(p, seeds));
      && nInfected == f.nInfected && nDead == f.nDead && nRecovered == f.nRecovered
      && deadNodes == f.dead && recoveredNodes == f.recovered
      && (forall n :: n in uninfectedNodes <==> n in f.color && f.color[n] == Yellow)
  {
    var sim := new Simulation(graph, r, deathRate, oracle);
    sim.Outbreak(seeds);
    sim.Run();
    uninfectedNodes := sim.Uninfected();
    nInfected, nDead, nRecovered := sim.nInfected, sim.nDead, sim.nRecovered;
    deadNodes, recoveredNodes := sim.deadNodes, sim.recoveredNodes;
    ghost var run := sim.history;
    assert sim.Snapshot() == Final(sim.setting, Seeded(sim.setting, seeds));
    assert run[|run| - 1].dead == deadNodes && run[|run| - 1].recovered == recoveredNodes;
    Outcomes(sim.setting, oracle, deathRate, seeds, run, deadNodes, recoveredNodes);
  }

  /** What a whole run from the seeds to an empty pool reports about the seeds and about the death rate. */
  lemma Outcomes(p: Setting, oracle: Oracle, deathRate: real, seeds: seq<int>, run: seq<State>,
                 deadNodes: seq<int>, recoveredNodes: seq<int>)
    requires p.oracle == oracle && p.deathRate == deathRate
    requires WellFormed(p.graph) && forall n :: n in seeds ==> n in p.graph.adj
    requires IsRun(p, run) && |run| > 0 && run[0] == Seeded(p, seeds) && run[|run| - 1].infected == []
    requires run[|run| - 1].dead == deadNodes && run[|run| - 1].recovered == recoveredNodes
    ensures forall n :: n in seeds ==>
      && (n in deadNodes <==> oracle.death(Duration(oracle, 0, n) + 1, n) < deathRate)
      && (n in recoveredNodes <==> !(oracle.death(Duration(oracle, 0, n) + 1, n) < deathRate))
    ensures UnitDraws(oracle) && deathRate >= 1.0 ==> recoveredNodes == []
    ensures UnitDraws(oracle) && deathRate <= 0.0 ==> deadNodes == []
  {
    SeedFates(p, seeds, run);
    SeededUnresolved(p, seeds);
    if UnitDraws(p.oracle) && p.deathRate >= 1.0 {
      NobodyRecovers(p, run);
    }
    if UnitDraws(p.oracle) && p.deathRate <= 0.0 {
      NobodyDies(p, run);
    }
  }
}
