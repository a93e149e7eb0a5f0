// The SIRD epidemic of `SIR` as a pure state machine.
//
// A node's colour is its health state: yellow is susceptible, red infected,
// blue recovered and black dead.  One application of `Next` is one pass of
// the simulator's `while` loop: every node of the infectious pool tries to
// infect each susceptible neighbour, counts down, and is resolved to dead or
// recovered once its countdown has reached zero; then the per-day counters are
// appended and the pool is rebuilt.  The random draws come from an `Oracle`,
// so every statement below holds for every sequence of draws.

module Sird {
  import opened SortedSets

  datatype Color = Yellow | Red | Blue | Black

  /** A contact graph: its node identifiers in enumeration order and each node's neighbours. */
  datatype Graph = Graph(nodes: seq<int>, adj: map<int, seq<int>>)

  /**
   * A simple undirected graph: the enumeration lists every node once, a node
   * lists each neighbour once and never itself, and neighbours are nodes whose
   * own neighbours include the node.  The degree is then the number of
   * neighbours listed.
   */
  ghost predicate WellFormed(g: Graph)
  {
    && Distinct(g.nodes)
    && (forall n :: n in g.nodes <==> n in g.adj)
    && (forall n :: n in g.adj ==> n !in g.adj[n] && Distinct(g.adj[n]))
    && (forall n, m :: n in g.adj && m in g.adj[n] ==> m in g.adj && n in g.adj[m])
  }

  /**
   * The random source.  `duration(day, n)` is the truncated normal draw for a
   * node infected on `day` (the seeds use day 0), `infect(day, i, j)` the
   * uniform draw of the trial of `i` against neighbour `j`, and `death(day, i)`
   * the uniform draw deciding whether `i` dies when it is resolved.
   */
  datatype Oracle = Oracle(duration: (int, int) -> int, infect: (int, int, int) -> real, death: (int, int) -> real)

  /** Uniform draws lie in [0, 1). */
  ghost predicate UnitDraws(o: Oracle)
  {
    forall d, i :: 0.0 <= o.death(d, i) < 1.0
  }

  /** The parameters of one run: graph, reproduction number R, death rate and random source. */
  datatype Setting = Setting(graph: Graph, r: real, deathRate: real, oracle: Oracle)

  /** The infection length drawn for `n`, at least one day. */
  function Duration(o: Oracle, day: int, n: int): (d: nat)
    ensures d >= 1 && d >= o.duration(day, n)
    ensures d == 1 || d == o.duration(day, n)
  {
    if o.duration(day, n) < 1 then 1 else o.duration(day, n)
  }

  /** The per-neighbour, per-day transmission probability R / degree / total infection time. */
  function Beta(r: real, degree: nat, total: nat): real
    requires degree >= 1 && total >= 1
  {
    r / degree as real / total as real
  }

  /** The state of the simulation at a day boundary. */
  datatype State = State(
    color: map<int, Color>,
    days: map<int, nat>,        // infected_days: the remaining countdown
    total: map<int, nat>,       // total_infection_time: the duration drawn at infection
    infected: seq<int>,         // the infectious pool
    recovered: seq<int>,        // recovered_nodes, in order of recovery
    dead: seq<int>,             // dead_nodes, in order of death
    nInfected: seq<nat>,
    nDead: seq<nat>,
    nRecovered: seq<nat>,
    day: int)

  function Sum(s: seq<nat>): nat
  {
    if s == [] then 0 else Sum(s[..|s| - 1]) + s[|s| - 1]
  }

  /** The attributes a node carries in each colour. */
  predicate Consistent(c: Color, days: nat, total: nat)
  {
    match c
    case Yellow => days == 0 && total == 0
    case Red => total >= 1 && days <= total
    case Blue => total >= 1 && days == 0
    case Black => total >= 1 && days == 0
  }

  /** The invariant of every day boundary of a run. */
  ghost predicate Inv(p: Setting, s: State)
  {
    var g := p.graph;
    && WellFormed(g)
    && s.color.Keys == g.adj.Keys && s.days.Keys == g.adj.Keys && s.total.Keys == g.adj.Keys
    && (forall n :: n in s.color ==> Consistent(s.color[n], s.days[n], s.total[n]))
    && Distinct(s.infected) && (forall n :: n in s.infected <==> n in s.color && s.color[n] == Red)
    && (forall n :: n in s.infected ==> |g.adj[n]| >= 1)   // the transmission probability divides by the degree
    && Distinct(s.recovered) && (forall n :: n in s.recovered <==> n in s.color && s.color[n] == Blue)
    && Distinct(s.dead) && (forall n :: n in s.dead <==> n in s.color && s.color[n] == Black)
    && |s.nInfected| == |s.nDead| + 1 && |s.nRecovered| == |s.nDead| && s.day == |s.nDead|
    && Sum(s.nDead) == |s.dead| && Sum(s.nRecovered) == |s.recovered|
    && Sum(s.nInfected) == |s.infected| + |s.recovered| + |s.dead|
  }

  /** On `day`, red node `i` (of total infection time `total[i]`) infects its neighbour `n`. */
  predicate Exposes(p: Setting, total: map<int, nat>, day: int, i: int, n: int)
  {
    && i in p.graph.adj && i in total && |p.graph.adj[i]| >= 1 && total[i] >= 1
    && n in p.graph.adj[i]
    && p.oracle.infect(day, i, n) < Beta(p.r, |p.graph.adj[i]|, total[i])
  }

  /**
   * Some node of `done` infects `n` on `day`.  A susceptible node turns red at
   * its first successful trial and is skipped by every later one, so after the
   * nodes of `done` have transmitted it is red exactly when this holds.
   */
  predicate Caught(p: Setting, total: map<int, nat>, day: int, done: seq<int>, n: int)
  {
    exists k :: 0 <= k < |done| && Exposes(p, total, day, done[k], n)
  }

  /** The resolution draw of `i` on `day` decides death. */
  predicate Dies(p: Setting, day: int, i: int)
  {
    p.oracle.death(day, i) < p.deathRate
  }

  /** The colour a red node takes when its countdown ends on `day`. */
  function Outcome(p: Setting, day: int, n: int): Color
  {
    if Dies(p, day, n) then Black else Blue
  }

  /** The colour of `n` once the pool nodes of `done` have been processed on day `s.day + 1`. */
  function NodeColor(p: Setting, s: State, done: seq<int>, n: int): Color
    requires n in s.color && n in s.days
  {
    if n in done then
      if s.days[n] != 0 then Red else Outcome(p, s.day + 1, n)
    else if s.color[n] == Yellow && Caught(p, s.total, s.day + 1, done, n) then Red
    else s.color[n]
  }

  /** The countdown of `n` once the pool nodes of `done` have been processed. */
  function NodeDays(p: Setting, s: State, done: seq<int>, n: int): nat
    requires n in s.color && n in s.days
  {
    if n in done then
      if s.days[n] != 0 then s.days[n] - 1 else s.days[n]
    else if s.color[n] == Yellow && Caught(p, s.total, s.day + 1, done, n) then Duration(p.oracle, s.day + 1, n)
    else s.days[n]
  }

  /** The total infection time of `n` once the pool nodes of `done` have been processed. */
  function NodeTotal(p: Setting, s: State, done: seq<int>, n: int): nat
    requires n in s.color && n in s.total
  {
    if s.color[n] == Yellow && Caught(p, s.total, s.day + 1, done, n) then Duration(p.oracle, s.day + 1, n)
    else s.total[n]
  }

  /**
   * The nodes of `done` resolved on day `s.day + 1` (countdown at zero), in
   * processing order: those that die when `fatal`, those that recover otherwise.
   */
  function Resolutions(p: Setting, s: State, done: seq<int>, fatal: bool): seq<int>
    requires forall i :: i in done ==> i in s.days
  {
    if done == [] then []
    else
      var init, last := done[..|done| - 1], done[|done| - 1];
      assert last in done;
      Resolutions(p, s, init, fatal)
        + (if s.days[last] == 0 && Dies(p, s.day + 1, last) == fatal then [last] else [])
  }

  /** The susceptible nodes infected on day `s.day + 1`. */
  ghost function Newly(p: Setting, s: State): set<int>
  {
    set n | n in s.color && s.color[n] == Yellow && Caught(p, s.total, s.day + 1, s.infected, n)
  }

  /** The pool after the rebuild: (pool + newly infected) minus recovered minus dead. */
  ghost function NextPool(p: Setting, s: State, recovered: seq<int>, dead: seq<int>): set<int>
  {
    (SetOf(s.infected) + Newly(p, s)) - SetOf(recovered) - SetOf(dead)
  }

  /** One day of the simulation. */
  ghost function Next(p: Setting, s: State): State
    requires Inv(p, s)
  {
    var dying := Resolutions(p, s, s.infected, true);
    var recovering := Resolutions(p, s, s.infected, false);
    var recovered := s.recovered + recovering;
    var dead := s.dead + dying;
    var pool := NextPool(p, s, recovered, dead);
    assert pool <= SetOf(p.graph.nodes);
    State(
      map n | n in s.color :: NodeColor(p, s, s.infected, n),
      map n | n in s.days :: NodeDays(p, s, s.infected, n),
      map n | n in s.total :: NodeTotal(p, s, s.infected, n),
      SortedWithin(p.graph.nodes, pool),
      recovered,
      dead,
      s.nInfected + [|Newly(p, s)|],
      s.nDead + [|dying|],
      s.nRecovered + [|recovering|],
      s.day + 1)
  }

  /** Colours allowed one day apart: yellow may turn red, red may turn blue or black. */
  predicate StepAllowed(c: Color, c': Color)
  {
    c' == c || (c == Yellow && c' == Red) || (c == Red && (c' == Blue || c' == Black))
  }

  /** Colours allowed any number of days apart: a node only moves forward along yellow, red, blue or black. */
  predicate Later(c: Color, c': Color)
  {
    c' == c || c == Yellow || (c == Red && c' != Yellow)
  }

  // The termination measure of the loop: the number of yellow nodes, then the
  // sum over red nodes of countdown + 1, both summed over the node enumeration.

  function SumOver(nodes: seq<int>, f: int -> nat): nat
  {
    if nodes == [] then 0 else SumOver(nodes[..|nodes| - 1], f) + f(nodes[|nodes| - 1])
  }

  function YellowMark(s: State): int -> nat
  {
    n => if n in s.color && s.color[n] == Yellow then 1 else 0
  }

  function RedLoad(s: State): int -> nat
  {
    n => if n in s.color && s.color[n] == Red && n in s.days then s.days[n] + 1 else 0
  }
}
