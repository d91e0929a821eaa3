# diffusionsim in Dafny

A Dafny model of the simulation core of diffusionsim. The program reproduces
Abrahamson and Rosenkopf's 1997 threshold model of innovation diffusion on a
core–periphery network.

## What is modelled

**Tie arithmetic** (`possibleTies` and the density helpers), modules `Stats`
and `LegacyStats`.
- The number of possible ties in a network of n nodes, c of them core, split
  into core ties and peripheral ties.
- The peripheral and whole-network densities, with division by zero as an
  error.
- The closed forms the "optimized" variants evaluate, proved equal over the
  reals.

**The core–periphery generator** (`generateARCorePeriph`,
`DICorePeriphNxGenerator`), modules `GraphGen` and `LegacyGraphGen`.
- Nodes 0..c-1 form a complete core in the "core" segment; the other nodes
  are in the "periphery" segment.
- `pties` further edges are sampled without replacement from the candidate
  pairs `dissimilarProduct(periph, core) + dissimilarProduct(periph, periph)`.
- The constructor's guards are modelled too.
- Edges are a sequence of ordered pairs, as in the networkx MultiGraph.
- `random.sample` is modelled by Python 2.7's pool branch, driven by a
  sequence of draws (`Sampling`). Python switches to a set-based redraw
  branch for populations above `setsize`; it has the same possible results,
  which Sampling.SampleReachesAll characterises.

**The threshold-adoption state machine** (inside `run1997ThresholdModel`),
module `Diffusion`.
- A seed adopts. Then each round visits the unadopted nodes in a shuffled
  order.
- A node adopts when I + A·(adopted neighbours / N) > 0, and records the
  adopted neighbours it saw as its influence.
- The loop stops after a round without adoption. Its measure is the number
  of unadopted nodes.
- The shuffle is Python 2.7's Fisher–Yates, driven by draws.

**The boundary analysis** (`findWeaknessesAndPressurePoints` and the graph
filters), modules `GraphSearch`, `GraphSearchExample` and
`LegacyGraphSearch`.
- Boundary weaknesses and boundary pressure points of a target segment.
- The optional marking of the `weak`/`ppoint` flags.
- `TrueFilter`, `FalseFilter`, `WPPFilter` and the `GRAPH_FILTERS` table.
- The test network of `test/test_graphsearch.py` as a worked example.

**One experiment**, modules `Experiment` and `LegacyExperiment`.
- A trial: initialise I and A, choose the seed, run the rounds, analyse the
  boundary, and count adopters per stratum.
- A case: one generated network, then 100 (or `trials`) trials with
  running averages.
- The sweep over pties ∈ {0, 5, …} below the peripheral maximum and
  A_i ∈ {1..5}.

**The running-statistics accumulator** `Data`, module `RunningStats`.
- N, min, max, sum and sum of squares.
- The mean and the one-pass sample variance, related to two-pass
  definitions over the reals.
- The legacy `src/data.py` is the same class line for line, so one model
  serves both.

**Modelling choices**
- Floating-point values are Dafny `real`s.
- Exceptions are `Result` values carrying the exception's kind.
- Every random source is an input: `gauss` as a node-to-profit function,
  `choice` as an index, `shuffle` and `sample` as draw sequences.
- Node iteration order is ascending node id, which is Python 2's dict order
  for the small integer ids used here.
- Neighbours are the distinct adjacent nodes, as networkx returns them.

**The legacy variants.** The top-level `src/*.py` files are earlier
versions, modelled as separate modules and related to the package versions
by lemmas.
- The legacy generator marks membership with a boolean `core` attribute and
  never checks the tie count.
- The legacy analyzer has no `from __future__ import division`, so under
  Python 2 its default `proportion=1/2` is 0 and its `1/N` is 0 for N ≥ 2.
- The legacy loop uses the case parameter Ai directly.

## Model

| member | source | states |
|---|---|---|
| Network.Neighbors | src/disim/disim.py:197 | the neighbour list holds exactly the nodes adjacent to a, by an edge in either direction |
| Network.InSegment | src/disim/graphsearch.py:179 | the target list holds exactly the nodes whose segments contain the target segment |
| Network.OutsideNeighbors | src/disim/graphsearch.py:185-186 | B_a_i holds exactly the neighbours of a outside the target segment |
| Stats.Truncate | src/disim/stats.py:217-219 | `int()` rounds toward zero: the result is within 1 of x, on the side of zero |
| Stats.PairCount | src/disim/stats.py:217-218 | k(k-1)/2 is exact: twice the result is k(k-1), never negative |
| Stats.ConsecutiveProductEven | src/disim/stats.py:217-218 | k(k-1) is even, so truncating the true quotient by 2 loses nothing |
| Stats.PossibleTies | src/disim/stats.py:196-220 | total = n(n-1)/2, core = c(c-1)/2, and total = core + peripheral for all inputs |
| Stats.PeripheralTiesSplit | src/disim/stats.py:200-205 | for p = n-c ≥ 0 the peripheral maximum is p·c + p(p-1)/2, periphery–core plus periphery–periphery, hence ≥ 0 |
| Stats.NoPeripheralTies | src/disim/stats.py:217-219 | the peripheral maximum is 0 exactly when p = 0, or p = 1 with no core |
| Stats.CalcPeripheralDensity | src/disim/stats.py:222-234 | density × peripheral maximum = pties; ZeroDivision exactly when the maximum is 0 |
| Stats.PeripheralDensityIsProportion | src/disim/stats.py:222-234 | the peripheral density lies in [0,1] iff 0 ≤ pties ≤ the peripheral maximum |
| Stats.CalcNxDensity | src/disim/stats.py:256-261 | density × total = pties + core ties; ZeroDivision exactly when total is 0 |
| Stats.OptimizedPeriphDensity | src/disim/stats.py:236-248 | the closed form: result × (tn(tn-1)/2 - cn(cn-1)/2) = pt; not finite exactly when that denominator is 0 |
| Stats.OptimizedNxDensity | src/disim/stats.py:251-254 | the closed form: result × tn(tn-1)/2 = pt + cn(cn-1)/2; not finite exactly when that denominator is 0 |
| Stats.OptimizedPeriphDensityAgrees | src/disim/stats.py:236-248 | the optimized peripheral density is finite exactly when the standard one succeeds, and then the two are equal |
| Stats.OptimizedNxDensityAgrees | src/disim/stats.py:251-261 | the optimized network density is finite exactly when the standard one succeeds, and then the two are equal |
| Stats.DensityTestRows | test/test_stats.py:49-75 | the test rows: (10,1,1) gives peripheral density 10 and network density 10, and (10,10,20) gives 55/435 and 10/390 |
| Stats.NxDensityMatchesReference | test/test_stats.py:44-69 | the network density equals the test's hand formula ((c(c-1)/2)+pt)/(tn(tn-1)/2) whenever tn(tn-1) ≠ 0 |
| LegacyStats.PossibleTies | src/stats.py:131-134 | true-division halves: 2·total = n(n-1), 2·core = c(c-1), total = core + peripheral |
| LegacyStats.PossibleTiesAgree | src/stats.py:131-134 | each legacy float count equals the package's integer count for all n, c |
| LegacyStats.CalcPeripheralDensity | src/stats.py:136-148 | density × peripheral maximum = pties; ZeroDivision exactly when the maximum is 0 |
| LegacyStats.PeripheralDensityAgrees | src/stats.py:136-148 | the legacy peripheral density equals the package's, error included |
| LegacyStats.OptimizedPeriphDensityAgrees | src/stats.py:150-162 | the closed form is finite exactly when the legacy density succeeds, and then equals it |
| RunningStats.Init | src/disim/data.py:28-33 | no data, zero sums, min at the largest double, max at the smallest positive double |
| RunningStats.AddDatum | src/disim/data.py:35-41 | N grows by 1, sum by v and sum2 by v²; min and max move only to v |
| RunningStats.Average | src/disim/data.py:43-46 | average × N = sum once N > 0, and 0.0 before any datum |
| RunningStats.Variance | src/disim/data.py:48-56 | the variance is 0 for N ≤ 1 |
| RunningStats.FromData | src/disim/data.py:35-41 | feeding a sequence gives N = its length, sum = its sum, sum2 = its sum of squares |
| RunningStats.MinMaxOfData | src/disim/data.py:30-39 | min is the smaller of the sentinel and every datum, and is the sentinel or a datum; likewise max |
| RunningStats.MinIsSmallestDatum | src/disim/data.py:30-38 | after at least one datum, min is a datum and no datum is smaller |
| RunningStats.MaxStaysAtSentinel | src/disim/data.py:31-39 | when every datum is ≤ 0, max stays at the tiny positive sentinel, which is not a datum |
| RunningStats.OrderIndependent | src/disim/data.py:35-41 | any permutation of the data yields the same accumulator, min and max included |
| RunningStats.VarianceIsTwoPassVariance | src/disim/data.py:48-56 | for N > 1 the one-pass variance equals Σ(x - mean)²/(N-1), hence is ≥ 0 |
| RunningStats.AverageWithin | src/disim/data.py:43-46 | when every datum lies in [lo, hi], so does the average |
| RunningStats.WorkedExample | src/data.py:8-38 | 2,4,4,4,5,5,7,9 gives N 8, mean 5, variance 32/7, min 2, max 9 |
| Pairs.DissimilarProduct | src/disim/graphgen.py:104-107 | the result holds exactly the pairs (x, y), x in A, y in B, x ≠ y |
| Pairs.DisjointProductLength | src/disim/graphgen.py:158 | for disjoint lists the result is the whole row-major product, of length len(A)·len(B) |
| Pairs.SelfProductLength | src/disim/graphgen.py:160 | on a list of distinct nodes the result has len(A)(len(A)-1) pairs |
| Pairs.ProductIndex | src/disim/graphgen.py:107 | row-major order: entry i·len(B)+j of the product is (A[i], B[j]) |
| Pairs.Combinations2 | src/disim/graphgen.py:149 | `combinations(xs, 2)` has len(xs)(len(xs)-1)/2 entries |
| Pairs.CombinationsOfRange | src/disim/graphgen.py:149 | the pairs of range(lo, hi) are exactly the (a, b) with lo ≤ a < b < hi |
| Pairs.CombinationsNoReversal | src/disim/graphgen.py:149 | on distinct inputs no pair repeats, none is a loop, and no pair occurs reversed |
| Sampling.Sample | src/disim/graphgen.py:167 | `sample` raises exactly when k is outside 0..len(population); otherwise it returns k entries, a sub-multiset of the population |
| Sampling.SampleDistinct | src/disim/graphgen.py:167 | a sample of a distinct population is distinct and drawn from it |
| Sampling.FullSampleTakesAll | src/disim/graphgen.py:167 | a sample of the whole population is a permutation of it |
| Sampling.SampleReachesAll | src/disim/graphgen.py:167 | every arrangement of k elements the population can supply is the sample under some draws, so Sample's results are exactly those its contract admits |
| Sampling.Shuffle | src/disim/disim.py:192 | `shuffle` returns a permutation of its input |
| Sampling.ShuffleDistinct | src/disim/disim.py:192 | shuffling distinct nodes keeps them distinct |
| GraphGen.NewAttrs | src/disim/graphgen.py:109-119 | a new node has one segment, is not adopted, has empty influence, is neither weak nor a pressure point, and has no I or A |
| GraphGen.NodeAttrs | src/disim/graphgen.py:150-154 | nodes 0..n-1 carry attributes; exactly those below c are "core" and the others "periphery" |
| GraphGen.CoreEdges | src/disim/graphgen.py:148-149 | the core edges are exactly the pairs a < b < c |
| GraphGen.Candidates | src/disim/graphgen.py:157-162 | the candidates are exactly the ordered pairs from a periphery node to any other node |
| GraphGen.CandidatesLength | src/disim/graphgen.py:158-160 | there are p·c + p(p-1) candidates |
| GraphGen.CandidatesTouchPeriphery | src/disim/graphgen.py:157-162 | no candidate is a loop or joins two core nodes |
| GraphGen.Assemble | src/disim/graphgen.py:148-172 | the network has nodes 0..c+p-1 and c(c-1)/2 + len(sample) edges, all between its nodes |
| GraphGen.Generate | src/disim/graphgen.py:122-178 | the assertion fails on a negative node count; `sample` fails outside 0..p·c+p(p-1); otherwise the counts are as above |
| GraphGen.AssembleCoreComplete | src/disim/graphgen.py:147-149 | every two core nodes are adjacent, and no edge is a loop |
| GraphGen.AssembleSegments | src/disim/graphgen.py:150-154 | the "core" nodes are 0..c-1, the "periphery" nodes c..c+p-1; every node starts unadopted, with empty influence, not weak, not a pressure point |
| GraphGen.AssemblePeripheralEdges | src/disim/graphgen.py:166-170 | exactly len(sample) edges touch a periphery node |
| GraphGen.GenerateShape | test/test_graphgen.py:56-72 | a generated network has a complete core, the expected segments, and exactly pties edges touching the periphery |
| GraphGen.NewGenerator | src/disim/graphgen.py:70-97 | the constructor rejects any negative argument, and any pties above the peripheral maximum |
| GraphGen.FeasibleNextSucceeds | src/disim/graphgen.py:85-101 | once the guard passes, `next` cannot fail, and the edge count stays within n(n-1)/2 |
| GraphGen.FeasibleWithinCandidates | src/disim/graphgen.py:85-87 | every tie count the guard accepts is at most the p·c + p(p-1) candidates `sample` draws from |
| GraphGen.GeneratorBoundaries | test/test_graphgen.py:75-111 | the test's boundary cases: -1 anywhere, edges without nodes, and max+1 are rejected; 0 and the maximum are accepted |
| GraphGen.ParallelEdgesAsWritten | src/disim/graphgen.py:158-167 | with c=1, p=2, pties=3 (the guard's maximum) one draw gives edges (2,1),(1,2),(2,0): a parallel pair, and 0–1 unconnected |
| GraphGen.UnorderedCandidates | src/disim/graphgen.py:157-162 | the corrected candidates are each periphery–core pair once and each periphery–periphery pair once, smaller end first |
| GraphGen.UnorderedCandidatesShape | src/disim/graphgen.py:83-87 | the corrected candidates number exactly `possibleTies(n, c)[2]`, are distinct, and hold no pair together with its reverse |
| GraphGen.GenerateUnordered | src/disim/graphgen.py:122-178 | the corrected generator fails exactly on a negative count or pties above the peripheral maximum; otherwise the counts are as for Generate |
| GraphGen.GenerateUnorderedSimple | src/disim/graphgen.py:81-87 | the corrected generator succeeds exactly when the constructor accepts, never makes parallel edges, and at the maximum is the complete graph |
| GraphSearch.Judge | src/disim/graphsearch.py:183-200 | one target node: KeyError exactly when it has an outside neighbour but lacks I or A; otherwise its weakness and pressure-point tests |
| GraphSearch.Scan | src/disim/graphsearch.py:183-200 | the loop raises KeyError exactly when some target node lacks a key it needs |
| GraphSearch.FindWeaknessesAndPressurePoints | src/disim/graphsearch.py:134-204 | KeyError exactly when a target node lacks a needed key; with `addGraphAttrs` exactly the returned nodes get weak/ppoint set, no flag is cleared and nothing else changes; without it the network is untouched |
| GraphSearch.ScanFindings | src/disim/graphsearch.py:183-200 | the loop returns the target nodes passing each test, in target order |
| GraphSearch.SearchFindings | src/disim/graphsearch.py:176-204 | the two lists are the target-segment nodes that are weaknesses and that are pressure points, in node order |
| GraphSearch.SearchMembers | src/disim/graphsearch.py:185-198 | a node is listed weak iff it is a target node with an outside neighbour and I + A/N > 0; a pressure point iff its outside count ≥ proportion·(N - len(target)) |
| GraphSearch.SearchDistinct | src/disim/graphsearch.py:179-200 | no node is listed twice |
| GraphSearch.LowBoundEveryTarget | src/disim/graphsearch.py:196-200 | when the bound is ≤ 0 every target node is a pressure point |
| GraphSearch.SearchIgnoresAdoption | src/disim/graphsearch.py:179-200 | the result depends only on edges, segments, I and A: the adopted, influence and flag attributes are never read |
| GraphSearch.FilterNamed | src/disim/graphsearch.py:125 | `GRAPH_FILTERS` knows "all", "none" and "wpp", raising KeyError for other names; "wpp" builds thresholds 1, 1 |
| GraphSearch.Apply | src/disim/graphsearch.py:82-122 | TrueFilter accepts and FalseFilter rejects every network; WPPFilter fails exactly when the analysis does |
| GraphSearch.WPPAccepts | src/disim/graphsearch.py:112-122 | WPPFilter accepts iff #weaknesses ≥ its threshold or #pressure points ≥ its threshold |
| GraphSearch.DefaultWPPAccepts | src/disim/graphsearch.py:103-122 | with the default thresholds WPPFilter accepts iff some target node is a weakness or a pressure point |
| GraphSearchExample.ExampleBoundary | test/test_graphsearch.py:31-56 | the test network yields weaknesses [7] and pressure points [5, 7] |
| GraphSearchExample.ShapeBoundary | test/test_graphsearch.py:33-56 | any network of the test's shape yields weaknesses [7] and pressure points [5, 7] |
| GraphSearchExample.ExampleWeak | test/test_graphsearch.py:35-50 | in the test network, of the periphery nodes only 7 is a weakness |
| GraphSearchExample.ExamplePressure | test/test_graphsearch.py:35-38 | in the test network, of the periphery nodes exactly 5 and 7 reach the bound 2 |
| Diffusion.AdoptedNeighbors | src/disim/disim.py:197-199 | adoptedNeighbors holds exactly the neighbours of a that have adopted |
| Diffusion.Round | src/disim/disim.py:194-209 | a round only appends adopters, and each appended adopter is an agent of the round |
| Diffusion.VisitGrows | src/disim/disim.py:205-209 | visiting one agent adopts it or changes nothing |
| Diffusion.RoundValid | src/disim/disim.py:194-209 | a round keeps the state valid: adopters distinct, each influence exactly the neighbours adopted before it, each non-seed adopter with positive pressure |
| Diffusion.RoundAdopts | src/disim/disim.py:194-209 | the i-th agent adopts iff its pressure is positive given the adoptions earlier in the same round |
| Diffusion.FirstAgentAdopts | src/disim/disim.py:203-205 | the first agent adopts iff I + A·(adopted neighbours / N) > 0 at the round's start |
| Diffusion.RoundUnchanged | src/disim/disim.py:193-213 | a round that adopts nobody leaves the state unchanged, and then every agent's pressure is ≤ 0 |
| Diffusion.Agents | src/disim/disim.py:181-192 | the agents of a round are exactly the unadopted nodes |
| Diffusion.Step | src/disim/disim.py:179-213 | one round keeps the state valid and the adoption order, and either adopts nobody or lowers the unadopted count |
| Diffusion.Rounds | src/disim/disim.py:179-213 | the loop keeps the state valid and the adoption order, and runs at most one round more than the unadopted count |
| Diffusion.RoundsFixedPoint | src/disim/disim.py:211-213 | on exit every unadopted node has pressure ≤ 0: a fixed point |
| Diffusion.QuietRound | src/disim/disim.py:211-213 | a round that adopts nobody is a fixed point |
| Diffusion.InitSim | src/disim/disim.py:161-176 | after initialisation only the seed is adopted and every influence is empty |
| Diffusion.Run | src/disim/disim.py:176-213 | the run starts with the seed, keeps its influence empty, stays valid, and lasts between 1 and N rounds |
| Diffusion.StaysAdopted | src/disim/disim.py:207 | adoption is monotone: an adopter stays adopted |
| Diffusion.InfluencedEarlier | src/disim/disim.py:208 | every influencer of an adopter adopted strictly earlier |
| Experiment.StartTrial | src/disim/disim.py:161-165 | every node gets its I and A = Ai, unadopted, empty influence; segments and edges are kept |
| Experiment.CoreNodes | src/disim/disim.py:167-168 | coreNodes holds exactly the nodes in the "core" segment |
| Experiment.PeriphNodes | src/disim/disim.py:169-170 | periphNodes holds exactly the nodes not in the "core" segment |
| Experiment.NodesSplit | src/disim/disim.py:167-170 | the two strata are distinct and together as large as the network |
| Experiment.Choice | src/disim/disim.py:174-175 | `choice` raises on an empty list and otherwise returns a member |
| Experiment.ChoiceReachesAll | src/disim/disim.py:174-175 | every member can be chosen |
| Experiment.Seed | src/disim/disim.py:174-176 | the seed is a core node for trickle-down and a non-core node otherwise, failing when that stratum is empty |
| Experiment.Outcome | src/disim/disim.py:205-208 | the finished run's adopted flags and influences are written to the network; nothing else changes |
| Experiment.TrialErrors | src/disim/disim.py:174-245 | a trial fails exactly when a stratum is empty: `choice` raises for the seed's stratum, the ratio divides by zero for the other |
| Experiment.AnalysisSucceeds | src/disim/disim.py:216-218 | the boundary analysis inside a trial never raises, since every node has I and A |
| Experiment.TrialCounts | src/disim/disim.py:233-245 | core plus periphery adopters = all adopters, each ≤ its stratum, both ratios in [0,1], and the seed's stratum has ≥ 1 adopter |
| Experiment.TrialParts | src/disim/disim.py:233-245 | the record's counts are the adopted nodes of each stratum and its ratios are counts over stratum sizes |
| Experiment.AdoptersSplit | src/disim/disim.py:233-236 | the adopters of the two strata add up to the run's adopters |
| Experiment.SeedCounted | src/disim/disim.py:176 | the seed counts as an adopter of its stratum |
| Experiment.PtiesLevels | src/disim/disim.py:129 | the tie levels are 0, 5, 10, … below the peripheral maximum, and no more |
| Experiment.Cases | src/disim/disim.py:135-138 | five cases per tie level |
| Experiment.CaseOrder | src/disim/disim.py:138 | case 5i+j is (5i, j+1): `product` order, A_i from 1 to 5 |
| Experiment.CaseTrials | src/disim/disim.py:150-151 | exactly `trials` trial records, and the density division at line 244 needs a nonzero maximum |
| Experiment.TrialsWithin | src/disim/disim.py:243-245 | every trial record has both ratios in [0,1] |
| Experiment.RunCase | src/disim/disim.py:141-256 | a case row carries its A_i and the case runs exactly `trials` trials |
| Experiment.CaseAverages | src/disim/disim.py:243-256 | a case's averaged density is pties / total, and both averaged diffusions lie in [0,1] |
| Experiment.RowsInCaseOrder | src/disim/disim.py:141 | the case rows follow the cases in order |
| Experiment.TrialsPerCase | src/disim/disim.py:151 | the trial log holds the same number of records for every case |
| Experiment.RunnerRows | src/disim/disim.py:141-151 | each case runner keeps its case's A_i and runs `trials` trials |
| Experiment.SweepShape | src/disim/disim.py:121-256 | a completed sweep has one row per case, in case order, and `trials` records per case |
| Experiment.NoTiesNoCases | src/disim/disim.py:121-138 | with a peripheral maximum of 0 there are no cases, so the division at line 244 is never reached |
| Experiment.CasesGenerate | src/disim/disim.py:129-149 | every case's tie count is accepted both by the generator as written, which the sweep calls, and by the corrected one |
| LegacyGraphGen.CoreFlags | src/graphgen.py:122-127 | nodes below c get core=True, the others core=False |
| LegacyGraphGen.Generate | src/graphgen.py:96-149 | fails on a negative node count or a pties `sample` rejects; otherwise nodes 0..n-1, c(c-1)/2 + pties edges, the core flags, and no other attribute |
| LegacyGraphGen.GenerateAgrees | src/graphgen.py:96-149 | the legacy generator fails exactly when the package's does, builds the same topology, and flags core exactly the "core" segment |
| LegacyGraphGen.GenerateShape | src/graphgen.py:119-143 | the core is complete, no edge is a loop, and the edges beyond the core are the sample |
| LegacyGraphGen.Lift | src/graphgen.py:124-127 | the package's view of a legacy network: the flag becomes the segment, I is kept, A = A_i |
| LegacyGraphGen.NewGenerator | src/graphgen.py:53-73 | the constructor rejects only negative node counts |
| LegacyGraphGen.TiesCheckedLate | src/graphgen.py:64-77 | any tie count constructs; `next` fails exactly when `sample` does; above the peripheral maximum the package refuses while the legacy generator succeeds |
| LegacyGraphSearch.FloorDiv | src/graphsearch.py:87 | Python 2 integer `/`: the floor of the quotient |
| LegacyGraphSearch.Targets | src/graphsearch.py:78 | A holds exactly the nodes flagged core |
| LegacyGraphSearch.Tally | src/graphsearch.py:82-94 | the loop raises KeyError exactly when a target node with an outside neighbour lacks I |
| LegacyGraphSearch.FindWeaknessesAndPressurePoints | src/graphsearch.py:49-94 | the counts, or KeyError exactly when a target node with an outside neighbour lacks I |
| LegacyGraphSearch.TallyCounts | src/graphsearch.py:82-94 | the loop counts exactly the target nodes passing each test |
| LegacyGraphSearch.SearchCounts | src/graphsearch.py:75-94 | the counts are the weak and the pressure-point target nodes, each ≤ len(A) |
| LegacyGraphSearch.DefaultEveryTarget | src/graphsearch.py:49-91 | with the default proportion 1/2 = 0 every target node is a pressure point |
| LegacyGraphSearch.WeakIgnoresAmbiguity | src/graphsearch.py:86-88 | for N ≥ 2, 1/N = 0, so a node is weak iff it has an outside neighbour and I > 0 |
| LegacyGraphSearch.TrueDivisionAgrees | src/graphsearch.py:75-94 | under true division, with every A equal to A_i, the counts are the lengths of the package's lists for "core", and both fail on the same networks |
| LegacyExperiment.StartTrial | src/disim.py:141-145 | every node gets its I; topology and flags are kept |
| LegacyExperiment.TrialGraph | src/disim.py:141-145 | the trial's network: each node has its I, A = Ai, unadopted, empty influence |
| LegacyExperiment.PressureAgrees | src/disim.py:174-184 | I + Ai·(adopted neighbours / N) with the case's Ai equals the package's pressure with each node's A |
| LegacyExperiment.CoreNodes | src/disim.py:147 | coreNodes holds exactly the nodes flagged core |
| LegacyExperiment.PeriphNodes | src/disim.py:148 | periphNodes holds exactly the nodes flagged not core |
| LegacyExperiment.NodesSplit | src/disim.py:147-148 | the strata are distinct and together as large as the network |
| LegacyExperiment.TrialErrors | src/disim.py:147-216 | a trial fails exactly when a stratum is empty: `choice` for the seed's, ZeroDivision for the other |
| LegacyExperiment.TrialCounts | src/disim.py:203-216 | adopter counts add up to all adopters, each ≤ its stratum, ratios in [0,1], the seed's stratum ≥ 1 |
| LegacyExperiment.TrialParts | src/disim.py:204-216 | counts are the adopted nodes of each stratum, ratios are counts over sizes, the seed comes from its stratum |
| LegacyExperiment.AdoptersSplit | src/disim.py:204-208 | the two strata's adopters add up to the run's adopters |
| LegacyExperiment.SeedCounted | src/disim.py:156-208 | the seed counts as an adopter of its stratum |
| LegacyExperiment.CoreSize | src/disim.py:60-61 | `int(round(n·(1/3)))` is within 1/3 of n/3 |
| LegacyExperiment.CoreSizeNearest | src/disim.py:60-61 | no integer is nearer to n/3, and for n ≥ 0 the core size lies in 0..n |
| LegacyExperiment.Truncate | src/disim.py:105 | `int()` rounds toward zero |
| LegacyExperiment.CasesAgree | src/disim.py:95-105 | `int` of the float peripheral maximum is the integer maximum, so the legacy cases are the package's |
| LegacyExperiment.TrialsWithin | src/disim.py:214-216 | every trial record has both ratios in [0,1] |
| LegacyExperiment.RunCase | src/disim.py:121-226 | a case row carries its Ai and the case runs exactly 100 trials |
| LegacyExperiment.CaseAverages | src/disim.py:214-226 | the averaged density is pties / total and both averaged diffusions lie in [0,1] |
| LegacyExperiment.RunnerRows | src/disim.py:121-131 | each case runner keeps its Ai and runs 100 trials |
| LegacyExperiment.SweepShape | src/disim.py:105-226 | with the core at n/3 rounded, one row per case in case order, and 100 records per case |
| LegacyExperiment.CasesGenerate | src/disim.py:105-129 | every case's tie count is accepted by the unguarded legacy generator |

## Left out

- Plotting, the Graphviz and matplotlib drawing, and the `show` branches: rendering only.
- The regression, standardisation and min–max helpers: numpy, statsmodels and numexpr numerics over files.
- CSV logs, directories, file handles, `loadCaseLog`, the command line and the `__main__` blocks: I/O.
- The distributions behind `gauss`, `choice`, `shuffle`, `sample` and `random.seed`: the draws are inputs, and every property holds for every draw.
- `WPP_CACHE` and `clearWPPCache`: a memo keyed by object identity; the model computes the pure result every time.
- `Data.stdDev`: a square root of the modelled variance.
- The iterator protocol of `DINetworkGenerator`: only `__init__` and `next` are modelled.
- `Gorig.copy()`: values are immutable, so a copy is the value itself.
- Float rounding: all arithmetic is exact over the reals. The test in `test/test_stats.py` compares floats with `==`; the model proves the equalities exactly.
- Experiment.Sweep takes the package's core size as an input. `int(round(n * cpRatio))` with a float `cpRatio` parameter is left out; the legacy sweep's fixed ratio 1/3 is modelled as LegacyExperiment.CoreSize.
- Experiment.Sweep runs the generator as written, GraphGen.Generate, so a case network may hold the parallel edges described under Findings. The corrected GraphGen.GenerateUnordered is modelled and proved on its own; no sweep runs it.
- Sampling.Sample models only the pool branch of Python 2.7's `random.sample`. Populations above `setsize` take the set-based redraw branch, which has the same possible results (Sampling.SampleReachesAll) but reaches them from different draws.
- Diffusion.AdoptedNeighbors lists a node's influence in ascending node id. networkx lists neighbours in adjacency-dict order, which for Python 2 int keys can differ, for example `[9, 3]`; the members are the same and only their order is not modelled.
- LegacyGraphSearch.FindWeaknessesAndPressurePoints models only the default target attribute `'core'`. Other boolean attribute names are not modelled.
- LegacyExperiment.RunCase carries the float `totalPossiblePeriphTies` of `src/disim.py` as the exact integer. LegacyStats.PossibleTiesAgree and LegacyExperiment.CasesAgree justify this.
- The running averages are computed from the finished trial records rather than updated trial by trial. RunningStats.OrderIndependent and RunningStats.FromData make the two the same.
- `fullRegressionAnalysis` passes a `trickleDirection` keyword that `runOLSRegression1997` does not accept. This is in the regression code, which is left out.

## Findings

| source | as written | input that shows it | evidently intended | confidence | as-written member | corrected member |
|---|---|---|---|---|---|---|
| src/disim/graphgen.py:160 | periphery–periphery candidates are `dissimilarProduct(periph, periph)`, both orders of each pair, while the guard at line 85 allows up to `possibleTies(n, c)[2]` ties, which counts each pair once | c = 1, p = 2, pties = 3 (the guard's maximum), with draws that sample (2,1), (1,2), (2,0): the MultiGraph gets a parallel edge 1–2 and nodes 0 and 1 stay unconnected, so the densest network allowed is not complete | each unordered periphery–periphery pair is a candidate once (`combinations(periph, 2)`), so no parallel edges arise and the maximum gives the complete graph | not executed | GraphGen.ParallelEdgesAsWritten | GraphGen.GenerateUnorderedSimple |
