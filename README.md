# SIRD epidemic on a contact graph

This project models the function `SIR` of `corona_simulation_ris.py`. The function simulates a discrete-time
Susceptible–Infected–Recovered/Dead epidemic on an undirected contact graph.

Each node carries three attributes:
- a colour: yellow is susceptible, red infected, blue recovered and black dead;
- a remaining countdown (`infected_days`);
- the length of its infection (`total_infection_time`).

The outbreak starts at the seed nodes. Each seed turns red with a countdown drawn from the duration distribution, at least one day.

Every pass of the main loop is one day:
- Every node of the infectious pool tries once to infect each still-susceptible neighbour. A trial succeeds when a uniform draw falls below `beta = R / degree / total_infection_time`.
- The node then counts down by one, or, if its countdown was already zero, dies with probability `death_rate` or recovers.
- The per-day counters `n_dead`, `n_recovered` and `n_infected` are appended.
- The pool is rebuilt with numpy's `setdiff1d` as old pool plus newly infected, minus the recovered and minus the dead. The result is in ascending order.

The loop stops when the pool is empty. The function then reports:
- the counters;
- the dead and the recovered nodes, in order of resolution;
- the nodes never infected, in ascending order.

The model has five modules:

- `SortedSets`: `setdiff1d` on integer sequences (`SetDiff1d`), and the fact that a strictly sorted sequence is determined by its elements.
- `Sird`: the simulation as a pure state machine.
  - `State` holds the three attribute maps, the pool, the two lists of resolved nodes, the three counters and the day.
  - `Next` is one day, stated node by node and independently of the order in which the pool is swept:
    - a yellow node turns red exactly when some pool node has it as a neighbour and its draw falls below that node's `beta`;
    - a pool node counts down, or at zero turns black or blue.
  - `Inv` is the invariant of every day boundary.
- `SirdFacts`: lemmas about `Next` and about runs. A run is a sequence of day-boundary states, each following the one before.
- `Sweep`: the day as the source performs it, one pool node at a time, with `Partial` describing the state after a prefix of the pool. Its lemmas show that a full sweep gives `Next`'s attributes and lists, whatever the pool order.
- `Epidemic`: the imperative simulator.
  - Class `Simulation` holds the working copy's attribute maps, the pool, the lists and the counters as fields, and a ghost `history` of the saved days.
  - Its methods, for the stages of `SIR`:
    - `constructor`: the copy of the graph;
    - `Outbreak`: the seeding loop;
    - `Step`: one pass of the main loop;
    - `Advance`: one pass with the figure of that day saved;
    - `Run`: the `while` loop;
    - `Uninfected`: the final query.
  - Within a day, the sweep runs as loops over local maps: `SweepPool` over the pool, `VisitNode` for one pool node, `Transmit` over its neighbours and `Resolve` for its countdown. `Day` adds the counters and the pool rebuild.
  - Each day is proved equal to `Next` of the state it started from.
  - The top-level method `SIR` puts it all together. Its postconditions are proved from the lemmas about runs.

The random source is a parameter, `Oracle`, with three functions of the day and the node or nodes involved:
- `duration(day, n)` is the normal draw already truncated by `int()`;
- `infect(day, i, j)` is the uniform draw of `i`'s trial against `j`;
- `death(day, i)` is the uniform draw deciding `i`'s fate.

Every property below holds for every oracle.

Two behaviours of the code shape the model:
- Line 94 divides by the degree, so a pool node without neighbours raises ZeroDivisionError. The model requires every seed to have a neighbour. A node infected later always has one, because neighbours are listed both ways.
- A node of duration `D` counts down on visits 1 to `D` and is resolved on visit `D + 1`, because line 121 tests the value read at line 114, before the decrement. A node infected on day `d` is therefore resolved on day `d + D + 1`, and `SeedFates` states this for the seeds.

## Model

| member | source | states |
|---|---|---|
| SortedSets.SetDiff1d | corona_simulation_ris.py:142-143 | the result is strictly ascending and holds exactly the elements of the first list that are not in the second |
| SortedSets.Insert | corona_simulation_ris.py:142-143 | inserting into a strictly ascending list keeps it strictly ascending and adds exactly the new element |
| SortedSets.SortedUnique | corona_simulation_ris.py:142-143 | two strictly ascending lists with the same elements are equal, so the rebuilt pool depends only on its set of nodes |
| SortedSets.SortedWithin | corona_simulation_ris.py:142-143 | the ascending listing of a set of nodes is strictly ascending and holds exactly that set |
| Sird.Duration | corona_simulation_ris.py:65 | an infection length is the draw when that is at least 1, and 1 otherwise |
| Sird.Beta | corona_simulation_ris.py:94 | defines the per-trial transmission probability `R / degree / total_infection_time`, on exact reals |
| Sird.Inv | corona_simulation_ris.py:84 | defines what holds at every test of the loop condition: the attribute maps cover the nodes, each node's attributes fit its colour, the pool, recovered and dead lists hold exactly the red, blue and black nodes once each, pool nodes have a neighbour, and the counters are aligned and add up to the lists |
| Sird.NodeColor | corona_simulation_ris.py:100-131 | defines a node's colour after the pool nodes of a prefix were processed: a processed node stays red while its countdown was not 0 and otherwise takes its outcome; an unprocessed yellow node turns red when some processed node caught it; any other node keeps its colour |
| Sird.NodeDays | corona_simulation_ris.py:108-118 | defines a node's countdown after a prefix: decremented for a processed node whose countdown was not 0, the drawn duration for a node caught while yellow, unchanged otherwise |
| Sird.NodeTotal | corona_simulation_ris.py:108-111 | defines a node's total infection time after a prefix: the drawn duration for a node caught while yellow, unchanged otherwise |
| Sird.Resolutions | corona_simulation_ris.py:120-131 | defines the pool nodes resolved on a day, in pool order: those whose countdown read 0, split by whether the death draw fell below the death rate |
| Sird.Newly | corona_simulation_ris.py:100-106 | defines the set of nodes infected on a day: the yellow nodes some pool node caught |
| Sird.NextPool | corona_simulation_ris.py:139-143 | defines the set of nodes of the rebuilt pool: (pool + newly infected) minus recovered minus dead |
| Sird.Next | corona_simulation_ris.py:84-146 | defines one day: each node by the per-node rule over the day-start pool, the lists extended by the day's resolutions in pool order, the counters appended, the pool the ascending listing of (pool + newly infected) minus recovered minus dead, and the day plus one |
| SirdFacts.ResolutionsMember | corona_simulation_ris.py:120-131 | a pool node is among the day's dead (recovered) exactly when its countdown was 0 and its death draw fell below (not below) the death rate |
| SirdFacts.ResolutionsDistinct | corona_simulation_ris.py:120-131 | the nodes resolved in a day are pool nodes, each listed once |
| SirdFacts.ResolutionsEmpty | corona_simulation_ris.py:122 | with draws in [0, 1), a death rate of at most 0 resolves nobody as dead and one of at least 1 nobody as recovered |
| SirdFacts.NextFields | corona_simulation_ris.py:133-146 | after a day the lists gain the nodes resolved that day, the counters gain the day's numbers, the pool is the ascending listing of (pool + newly infected) minus the recovered minus the dead, and the day advances |
| SirdFacts.NextKeepsFirstCount | corona_simulation_ris.py:68 | a day keeps the first entry of the infection counter, the number of seeds |
| SirdFacts.NextNode | corona_simulation_ris.py:91-131 | each node's colour, countdown and infection length after a day are the per-node rule applied to the whole pool |
| SirdFacts.NextMembers | corona_simulation_ris.py:120-143 | after a day a node is in the pool exactly when it was a pool node with days left or was newly infected; it is recovered (dead) exactly when it already was, or its countdown was at zero and it did not (did) die |
| SirdFacts.NextColorsListed | corona_simulation_ris.py:102-143 | after the rebuild the pool holds exactly the red nodes, the recovered list the blue ones and the dead list the black ones |
| SirdFacts.NextConsistent | corona_simulation_ris.py:100-131 | every node keeps the attributes of its colour: yellow with no countdown, red within its drawn length, blue and black with a countdown at zero |
| SirdFacts.NextSeries | corona_simulation_ris.py:133-143 | the lists stay duplicate-free, the counters stay aligned (one more infection entry than death entries), the dead and recovered counters add up to those lists and the infection counter adds up to all nodes ever infected |
| SirdFacts.NextPreservesInv | corona_simulation_ris.py:84-146 | one day keeps the invariant of day boundaries |
| SirdFacts.CountRebuild | corona_simulation_ris.py:139-143 | the rebuilt pool is as long as the old pool plus the newly infected minus the nodes resolved |
| SirdFacts.NextCount | corona_simulation_ris.py:136-143 | after a day the pool size plus the day's deaths and recoveries equals the old pool size plus the day's infections |
| SirdFacts.NextAdvances | corona_simulation_ris.py:100-131 | a day moves a node only forward (yellow to red to blue or black); a node infected that day starts with countdown and total both equal to its drawn length of at least 1, so it is not processed that day; a red node counts down by exactly one or, at zero, takes its outcome; the total infection time of an infected node never changes |
| SirdFacts.NextInfects | corona_simulation_ris.py:100-111 | a yellow node turns red exactly when some pool node has it as a neighbour and that node's draw against it falls below its transmission probability |
| SirdFacts.NextNoRecovery | corona_simulation_ris.py:121-131 | with draws in [0, 1) and a death rate of at least 1, a day adds nobody to the recovered and appends 0 to their counter |
| SirdFacts.NextNoDeath | corona_simulation_ris.py:121-131 | with draws in [0, 1) and a death rate of at most 0, a day adds nobody to the dead and appends 0 to their counter |
| SirdFacts.StepDecreases | corona_simulation_ris.py:84 | a day in which every node moves forward and some node is red lowers the number of yellow nodes, or keeps it and lowers the total countdown of the red nodes |
| SirdFacts.NextDecreases | corona_simulation_ris.py:84 | every day with a non-empty pool lowers that measure, so the main loop terminates |
| SirdFacts.Final | corona_simulation_ris.py:84-147 | from a day boundary, repeating the day until the pool is empty ends in a day boundary with an empty pool; this is well founded by the measure of `NextDecreases` |
| SirdFacts.FinalNext | corona_simulation_ris.py:84 | a day with a non-empty pool does not change the state in which the loop stops |
| SirdFacts.FinalSettled | corona_simulation_ris.py:84 | with an empty pool the loop stops at once |
| SirdFacts.UnrolledSnoc | corona_simulation_ris.py:145-147 | saving `Next` of a last day whose pool was not empty keeps the saved days a run in which each day is `Next` of the one before |
| SirdFacts.UnrolledFinal | corona_simulation_ris.py:84-147 | in such a run ending with an empty pool, the loop started from any saved day stops at the last saved day |
| SirdFacts.NextDay | corona_simulation_ris.py:146 | the day counter advances by one |
| SirdFacts.NextFollows | corona_simulation_ris.py:84-146 | the day after a state follows it node by node |
| SirdFacts.CountdownResolves | corona_simulation_ris.py:113-131 | a node red with countdown `d` at the start of a run is still red with countdown `d - t` after `t <= d` days, and after `d + 1` days has the outcome of that day's death draw |
| SirdFacts.RunOutlastsCountdown | corona_simulation_ris.py:84 | a run that ends with an empty pool lasts beyond the countdown of every node red at its start |
| SirdFacts.IsRunSnoc | corona_simulation_ris.py:145-147 | adding a day that satisfies the invariant and follows the last saved day keeps the saved days a run |
| SirdFacts.Settled | corona_simulation_ris.py:117-131 | a recovered or dead node keeps its colour for the rest of the run |
| SirdFacts.Forward | corona_simulation_ris.py:102-131 | along a run a node's colour only moves forward: a yellow node may become anything, a red one never turns yellow again, and a blue or black one never changes |
| SirdFacts.NeverInfected | corona_simulation_ris.py:151-153 | the nodes yellow on the last day of a run are exactly those yellow on every day of it, which are the nodes never infected |
| SirdFacts.FinalColorOfRed | corona_simulation_ris.py:113-131 | once the pool is empty, a node red with countdown `d` at the start is dead exactly when its death draw on day `d + 1` fell below the death rate, and recovered otherwise |
| SirdFacts.NeverOutcome | corona_simulation_ris.py:121-131 | a colour no resolution produces and no node has at the start does not appear anywhere in a run |
| SirdFacts.NobodyRecovers | corona_simulation_ris.py:122-131 | with draws in [0, 1) and a death rate of at least 1, the recovered list is empty at the end of a run that starts with nobody recovered |
| SirdFacts.NobodyDies | corona_simulation_ris.py:122-131 | with draws in [0, 1) and a death rate of at most 0, the dead list is empty at the end of a run that starts with nobody dead |
| SirdFacts.BetaNormalised | corona_simulation_ris.py:94 | the transmission probability times the degree times the infection length is R |
| SirdFacts.BetaHalvesWithDegree | corona_simulation_ris.py:94 | doubling a node's degree halves its transmission probability |
| SirdFacts.FinalPartition | corona_simulation_ris.py:151-153 | with an empty pool the never-infected list is exactly the yellow nodes; it, the dead and the recovered are disjoint, cover the node enumeration and add up to its length; the infection counter adds up to the dead plus the recovered |
| Sweep.Countdown | corona_simulation_ris.py:113-131 | defines the end of one pool node's visit: a red node with days left counts down; one at 0 is appended to the dead and turns black when its draw falls below the death rate, and is appended to the recovered and turns blue otherwise |
| Sweep.Visit | corona_simulation_ris.py:91-131 | defines one iteration over the pool: the node's trials against its neighbours with its own `beta`, then its countdown |
| Sweep.Partial | corona_simulation_ris.py:91-131 | defines the state part-way through the day, after the visits of a prefix of the pool: the attributes by the per-node rule over the prefix and the lists extended by the prefix's resolutions |
| Sweep.Transmitted | corona_simulation_ris.py:100-111 | the trials of one pool node keep the nodes of every attribute map and leave the pool and both lists unchanged |
| Sweep.TransmittedAt | corona_simulation_ris.py:100-111 | a node hit by the trials turns red with countdown and infection length set to its drawn duration; a node not hit keeps its attributes |
| Sweep.InvSweepable | corona_simulation_ris.py:84-91 | at a day boundary the pool can be swept: pool nodes are red with a neighbour and a positive infection length, and their neighbours are nodes |
| Sweep.PartialStart | corona_simulation_ris.py:86-91 | before the first pool node is visited the state is unchanged |
| Sweep.PartialYellow | corona_simulation_ris.py:102-106 | part-way through the sweep a node is yellow exactly when it was yellow and no node visited so far has caught it |
| Sweep.VisitEffect | corona_simulation_ris.py:91-131 | the visit of a pool node changes another node exactly when it hits it, and the visited node only counts down or resolves |
| Sweep.VisitRule | corona_simulation_ris.py:100-111 | the attributes of a node other than the visited one, after the visit, are the per-node rule over the visited prefix extended by the visited node |
| Sweep.VisitOther | corona_simulation_ris.py:100-111 | visiting the next pool node gives every other node its attributes for the longer prefix of the pool |
| Sweep.VisitSelf | corona_simulation_ris.py:113-131 | visiting a pool node gives that node its own attributes for the longer prefix |
| Sweep.VisitKeys | corona_simulation_ris.py:91-131 | a visit keeps the nodes of every attribute map |
| Sweep.VisitLists | corona_simulation_ris.py:120-131 | a visit appends the visited node to the dead list when it is resolved and dies, to the recovered list when it is resolved and does not die, and changes no other list or counter |
| Sweep.ResolutionsSnoc | corona_simulation_ris.py:121-131 | visiting one more pool node adds it to the resolutions of that day exactly when it is resolved with the matching fate |
| Sweep.PartialMapsExtend | corona_simulation_ris.py:91-131 | the attribute maps after one more visit are those of the longer prefix |
| Sweep.PartialKeys | corona_simulation_ris.py:91-131 | part-way through the sweep every attribute map still has exactly the graph's nodes |
| Sweep.PartialExtend | corona_simulation_ris.py:91-131 | visiting the next pool node turns the state of a prefix into the state of the prefix one longer |
| Sweep.RebuildSorted | corona_simulation_ris.py:139-143 | the two `setdiff1d` calls over pool plus newly infected give the ascending listing of (pool + newly infected) minus recovered minus dead |
| Sweep.NewlyListed | corona_simulation_ris.py:106 | the list of newly infected holds exactly the day's newly infected nodes, each once, so its length is their number |
| Sweep.SweepComplete | corona_simulation_ris.py:91-143 | after the whole pool is swept, the attributes and lists are those of `Next` and the rebuilt pool is `Next`'s pool |
| Sweep.NewlyExtend | corona_simulation_ris.py:100-106 | after one more visit the newly infected list, extended by the nodes that visit caught, is duplicate-free and holds exactly the yellow nodes caught by the longer prefix |
| Epidemic.Initial | corona_simulation_ris.py:45-53 | defines the state before the outbreak: every node yellow with no countdown and no infection time, nothing recorded, day -1 |
| Epidemic.Seeded | corona_simulation_ris.py:57-78 | defines the onset state: the seeds red with countdown and total both equal to their duration drawn on day 0, all other nodes yellow, the pool the seeds, the infection counter the number of seeds, day 0 |
| Epidemic.SeededInv | corona_simulation_ris.py:57-75 | the state at the onset of the outbreak satisfies the invariant of day boundaries |
| Epidemic.SeedMaps | corona_simulation_ris.py:58-66 | the seeding loop makes every seed red with countdown and infection length its drawn duration, and leaves every other node yellow |
| Epidemic.Transmit | corona_simulation_ris.py:96-111 | the loop over a pool node's neighbours turns red exactly the yellow neighbours whose draw falls below `beta`, gives each a drawn duration, and lists the caught nodes once each |
| Epidemic.Resolve | corona_simulation_ris.py:113-131 | a red node with days left counts down; one at zero is appended to the dead and bumps the death counter when its draw falls below the death rate, and is appended to the recovered and bumps the recovery counter otherwise |
| Epidemic.VisitNode | corona_simulation_ris.py:91-131 | one iteration over the pool extends the swept prefix by one node, keeps the counters equal to the growth of the lists and keeps the newly infected list exact |
| Epidemic.SweepPool | corona_simulation_ris.py:86-131 | the loop over the pool gives the state swept over the whole pool, death and recovery counts equal to the day's resolutions, and exactly the day's newly infected, each once |
| Epidemic.Day | corona_simulation_ris.py:84-146 | one pass of the main loop, counters and rebuild included, computes `Next` of the state it starts from |
| Epidemic.Simulation.constructor | corona_simulation_ris.py:44-53 | the working copy starts with every node yellow, no countdown, no infection length, nothing recorded and day -1 |
| Epidemic.Simulation.Outbreak | corona_simulation_ris.py:57-79 | the seeding gives the onset state (seeds red with drawn durations, pool the seeds, infection counter the number of seeds, day 0), which is saved as the first day |
| Epidemic.Simulation.FirstDay | corona_simulation_ris.py:77-79 | the onset state satisfying the invariant and saved alone is a valid start of a run |
| Epidemic.Simulation.Step | corona_simulation_ris.py:86-146 | one pass of the main loop leaves the fields equal to `Next` of the state before it, keeps the invariant and the first infection count, and lowers the termination measure |
| Epidemic.Simulation.Advance | corona_simulation_ris.py:86-147 | one pass of the main loop with its day saved: the fields are `Next` of the previous state, and the saved days remain a run from the onset ending in the current state |
| Epidemic.Simulation.Record | corona_simulation_ris.py:145-147 | saving the new day keeps the saved days a run from the onset, each day `Next` of the one before, ending in the current state |
| Epidemic.Simulation.Run | corona_simulation_ris.py:83-147 | the main loop terminates with an empty pool, in the state `Final` of the state it started from and of the first saved day; the invariant holds and the saved days remain a run from the onset, each day `Next` of the one before |
| Epidemic.Simulation.Uninfected | corona_simulation_ris.py:151-153 | the never-infected list is strictly ascending and holds exactly the yellow nodes; it, the dead and the recovered partition the nodes and add up to their number |
| Epidemic.SeedFates | corona_simulation_ris.py:59-131 | at the end of a run each seed is dead exactly when its death draw on day (its drawn duration + 1) fell below the death rate, and recovered otherwise |
| Epidemic.Outcomes | corona_simulation_ris.py:59-131 | the seed fates, and with draws in [0, 1) no recovered nodes at a death rate of at least 1 and no dead nodes at one of at most 0 |
| Epidemic.SIR | corona_simulation_ris.py:42-155 | the counter lists are aligned and start with the number of seeds; the counters add up to the lists, and every node ever infected is dead or recovered; the dead and recovered lists are duplicate-free and the never-infected list ascending; the three lists partition the nodes; each seed is dead exactly when its resolution draw fell below the death rate; death rate 1 leaves nobody recovered and 0 nobody dead; and all six outputs are those of `Final` of the onset state: the three counters, the dead and recovered lists, and as never-infected exactly the nodes still yellow there |

## Left out

- Drawing is not modelled: the parameter `save_location`, the `save_fig` calls at lines 55, 79 and 147, `spring_layout` at line 54, and the functions `save_fig`, `animate_figs` and the script's main part after line 155. The ghost `history` of `Simulation` records the state each `save_fig` call of lines 79 and 147 would draw.
- `np.random` is replaced by the `Oracle` parameter. The normal draw's `int()` truncation and its mean and spread are folded into `oracle.duration`. Each draw is identified by its day and its nodes. No trial repeats within a day, because `WellFormed` lists each neighbour once.
- Floating-point arithmetic is modelled with mathematical reals: `beta`, `R` and `death_rate` are `real`, and comparisons are exact.
- `SIR`: requires a simple undirected graph (`WellFormed`): no self-loops, each neighbour listed once, adjacency symmetric. The degree is then the number of neighbours listed, as `G.degree()` gives at line 81. Self-loops, which `G.degree()` counts twice, and directed graphs, whose `neighbors` are successors only, are not modelled.
- Node labels are integers, so `setdiff1d`'s ordering is integer order; other labels are not modelled.
- The default arguments `R = 2.2` and `death_rate = 1/20` are ordinary parameters.
- `SIR`: requires the seeds to be distinct. The source accepts a repeated seed: it would then visit that node twice on the first day until the first rebuild removes the duplicate, and count it twice in `n_infected[0]`.
- `SIR`: requires the seeds to be nodes of the graph with at least one neighbour. The source fails at line 64 (KeyError) or at line 94 (division by zero) otherwise.
- `Day`, `SweepPool`, `VisitNode`, `Transmit` and `Resolve` update state values and local maps, and `Simulation.Step` writes the result back to the fields once per day. Aliasing between the working copy and the caller's graph (line 45 copies it) does not arise in the model: the graph is an immutable value.
- The counter `n_infected` records the seeds, then the number newly infected each day. The docstring's "amount of infected present each day" is not what the code computes; the model follows the code.
