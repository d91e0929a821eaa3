/** One experiment of the 1997 threshold model: the trials of a case (a
    number of peripheral ties and a weight A_i of bandwagon pressure) and the
    sweep over all cases. Every random source is an input, keyed by the case
    index and the trial number: the generator's draws, the normally drawn
    assessed profits, the seed choice and the per-round shuffles. */
module Experiment {
  import opened Errors
  import opened Seqs
  import opened Network
  import Stats
  import Sampling
  import Pairs
  import GraphGen
  import GraphSearch
  import RunningStats
  import Diffusion

  // ---- One trial ----

  /** The start of a trial: every node gets its assessed profit I, the case's
      A_i, `adopted` false and an empty influence; nothing else changes. */
  function StartTrial(g: Graph, profit: Node -> real, ai: real): (r: Graph)
    requires WellFormed(g)
    ensures Diffusion.Ready(r) && r.topo == g.topo && r.attrs.Keys == g.attrs.Keys
    ensures forall a :: a in g.topo.nodes ==>
      && r.attrs[a].profit == Some(profit(a)) && r.attrs[a].ambiguity == Some(ai)
      && !r.attrs[a].adopted && r.attrs[a].influence == []
      && r.attrs[a].segments == g.attrs[a].segments
  {
    g.(attrs := map a | a in g.attrs ::
      if a in g.topo.nodes then
        g.attrs[a].(profit := Some(profit(a)), ambiguity := Some(ai), adopted := false, influence := [])
      else g.attrs[a])
  }

  /** `coreNodes`: the nodes listing "core" among their segments, in node order. */
  function CoreNodes(g: Graph): (r: seq<Node>)
    requires WellFormed(g)
    ensures forall a :: a in r <==> a in g.topo.nodes && GraphGen.CoreSegment in g.attrs[a].segments
  {
    InSegment(g, GraphGen.CoreSegment)
  }

  /** `periphNodes`: every other node, in node order. */
  function PeriphNodes(g: Graph): (r: seq<Node>)
    requires WellFormed(g)
    ensures forall a :: a in r <==> a in g.topo.nodes && GraphGen.CoreSegment !in g.attrs[a].segments
  {
    Filter(g.topo.nodes, Outside(g, GraphGen.CoreSegment))
  }

  /** Every node is in exactly one of the two lists, and neither repeats one. */
  lemma NodesSplit(g: Graph)
    requires WellFormed(g)
    ensures Distinct(CoreNodes(g)) && Distinct(PeriphNodes(g))
    ensures |CoreNodes(g)| + |PeriphNodes(g)| == |g.topo.nodes|
  {
    var core := CoreNodes(g);
    var periph := PeriphNodes(g);
    FilterDistinct(g.topo.nodes, Member(g, GraphGen.CoreSegment));
    FilterDistinct(g.topo.nodes, Outside(g, GraphGen.CoreSegment));
    var sc := set a | a in core;
    var sp := set a | a in periph;
    var sn := set a | a in g.topo.nodes;
    DistinctSize(core, sc);
    DistinctSize(periph, sp);
    DistinctSize(g.topo.nodes, sn);
    assert sc + sp == sn;
    assert sc * sp == {};
  }

  /** Python 2.7's `random.choice(xs)`: `xs[int(random() * len(xs))]`, which
      raises on an empty sequence. */
  function Choice(xs: seq<Node>, d: nat): (r: Result<Node>)
    ensures r.Err? <==> xs == []
    ensures r.Err? ==> r.error == EmptySequence
    ensures r.Ok? ==> r.value in xs
  {
    if xs == [] then Err(EmptySequence) else Ok(xs[Sampling.Slot(d, |xs|)])
  }

  /** Every element can be chosen. */
  lemma ChoiceReachesAll(xs: seq<Node>, i: nat)
    requires i < |xs|
    ensures Choice(xs, i) == Ok(xs[i])
  {
  }

  /** The seed adopter: a core node for trickle-down diffusion, else a
      peripheral one. */
  function Seed(g: Graph, down: bool, d: nat): (r: Result<Node>)
    requires WellFormed(g)
    ensures r.Err? <==> (if down then CoreNodes(g) else PeriphNodes(g)) == []
    ensures r.Ok? ==> r.value in g.topo.nodes
    ensures r.Ok? ==> (GraphGen.CoreSegment in g.attrs[r.value].segments <==> down)
  {
    if down then Choice(CoreNodes(g), d) else Choice(PeriphNodes(g), d)
  }

  /** The target segment of the boundary analysis: the periphery for
      trickle-down diffusion, else the core. */
  function TargetSegment(down: bool): string {
    if down then GraphGen.PeripherySegment else GraphGen.CoreSegment
  }

  /** The graph at the end of the rounds: `adopted` and `influence` as the
      run left them, everything else as at the start. */
  function Outcome(g: Graph, s: Diffusion.Sim): (r: Graph)
    requires WellFormed(g) && forall a :: a in g.topo.nodes ==> a in s.influence
    ensures WellFormed(r) && r.topo == g.topo
    ensures forall a :: a in g.topo.nodes ==>
      && (r.attrs[a].adopted <==> a in s.adopters) && r.attrs[a].influence == s.influence[a]
      && r.attrs[a].(adopted := g.attrs[a].adopted, influence := g.attrs[a].influence) == g.attrs[a]
  {
    g.(attrs := map a | a in g.attrs ::
      if a in g.topo.nodes then g.attrs[a].(adopted := a in s.adopters, influence := s.influence[a])
      else g.attrs[a])
  }

  /** The test "a is flagged adopted", as a predicate to count with. */
  function AdoptedFlag(g: Graph): Node -> bool {
    (a: Node) => a in g.attrs && g.attrs[a].adopted
  }

  /** One row of the trial log, less the case parameters and trial number. */
  datatype TrialRecord = TrialRecord(
    coreAdopters: nat, coreSize: nat,
    periphAdopters: nat, periphSize: nat,
    weaknesses: nat, pressurePoints: nat,
    periphDiffusion: real, coreDiffusion: real)

  /** One trial on a copy of the case's network: start, seed, the rounds, the
      boundary analysis with the default proportion 1/2, and the counts. The
      peripheral ratio is computed before the core ratio, so an empty
      periphery raises first. */
  function Trial(g: Graph, ai: real, down: bool, profit: Node -> real, seedDraw: nat, draws: nat -> nat -> nat)
    : (r: Result<TrialRecord>)
    requires WellFormed(g)
  {
    var h := StartTrial(g, profit, ai);
    var core := CoreNodes(h);
    var periph := PeriphNodes(h);
    var seed :- Seed(h, down, seedDraw);
    var sim := Diffusion.Run(h, seed, draws).0;
    var f := Outcome(h, sim);
    var found :- GraphSearch.FindWeaknessesAndPressurePoints(f, 0.5, TargetSegment(down), true);
    var nc := Count(core, AdoptedFlag(f));
    var np := Count(periph, AdoptedFlag(f));
    if periph == [] || core == [] then Err(ZeroDivision)
    else Ok(TrialRecord(nc, |core|, np, |periph|, |found.0.weak|, |found.0.ppoints|,
                        (np as real) / (|periph| as real), (nc as real) / (|core| as real)))
  }

  /** A trial fails exactly when a segment is empty: the seed's segment makes
      `choice` raise, the other one a ratio divide by zero. The boundary
      analysis never fails, since every node has I and A. */
  lemma TrialErrors(g: Graph, ai: real, down: bool, profit: Node -> real, seedDraw: nat, draws: nat -> nat -> nat)
    requires WellFormed(g)
    ensures var h := StartTrial(g, profit, ai);
      var r := Trial(g, ai, down, profit, seedDraw, draws);
      && (r.Err? <==> CoreNodes(h) == [] || PeriphNodes(h) == [])
      && (r.Err? ==> r.error == if (if down then CoreNodes(h) else PeriphNodes(h)) == [] then EmptySequence else ZeroDivision)
  {
    var h := StartTrial(g, profit, ai);
    var seed := Seed(h, down, seedDraw);
    if seed.Ok? {
      var sim := Diffusion.Run(h, seed.value, draws).0;
      AnalysisSucceeds(Outcome(h, sim), TargetSegment(down));
    }
  }

  /** On a started graph no target node lacks I or A. */
  lemma AnalysisSucceeds(f: Graph, segment: string)
    requires Diffusion.Ready(f)
    ensures GraphSearch.FindWeaknessesAndPressurePoints(f, 0.5, segment, true).Ok?
  {
  }

  /** The counts of a trial: core and peripheral adopters add up to all
      adopters, each is at most its segment's size, both ratios lie in
      [0, 1], and the seed is among the adopters of its segment. */
  lemma TrialCounts(g: Graph, ai: real, down: bool, profit: Node -> real, seedDraw: nat, draws: nat -> nat -> nat)
    requires WellFormed(g) && Trial(g, ai, down, profit, seedDraw, draws).Ok?
    ensures var h := StartTrial(g, profit, ai);
      var t := Trial(g, ai, down, profit, seedDraw, draws).value;
      var sim := Diffusion.Run(h, Seed(h, down, seedDraw).value, draws).0;
      && t.coreAdopters + t.periphAdopters == |sim.adopters|
      && t.coreSize + t.periphSize == |g.topo.nodes|
      && t.coreAdopters <= t.coreSize && t.periphAdopters <= t.periphSize
      && 0.0 <= t.coreDiffusion <= 1.0 && 0.0 <= t.periphDiffusion <= 1.0
      && (if down then t.coreAdopters else t.periphAdopters) >= 1
  {
    var h := StartTrial(g, profit, ai);
    var seed := Seed(h, down, seedDraw).value;
    var sim := Diffusion.Run(h, seed, draws).0;
    var f := Outcome(h, sim);
    var t := Trial(g, ai, down, profit, seedDraw, draws).value;
    TrialParts(g, ai, down, profit, seedDraw, draws);
    NodesSplit(h);
    AdoptersSplit(h, f, sim);
    RatioWithin(t.coreAdopters, t.coreSize);
    RatioWithin(t.periphAdopters, t.periphSize);
    SeedCounted(seed, if down then CoreNodes(h) else PeriphNodes(h), f);
  }

  /** The record of a successful trial, field by field. */
  lemma TrialParts(g: Graph, ai: real, down: bool, profit: Node -> real, seedDraw: nat, draws: nat -> nat -> nat)
    requires WellFormed(g) && Trial(g, ai, down, profit, seedDraw, draws).Ok?
    ensures var h := StartTrial(g, profit, ai);
      var t := Trial(g, ai, down, profit, seedDraw, draws).value;
      var seed := Seed(h, down, seedDraw).value;
      var f := Outcome(h, Diffusion.Run(h, seed, draws).0);
      && CoreNodes(h) != [] && PeriphNodes(h) != []
      && t.coreAdopters == Count(CoreNodes(h), AdoptedFlag(f)) && t.coreSize == |CoreNodes(h)|
      && t.periphAdopters == Count(PeriphNodes(h), AdoptedFlag(f)) && t.periphSize == |PeriphNodes(h)|
      && t.coreDiffusion == (t.coreAdopters as real) / (t.coreSize as real)
      && t.periphDiffusion == (t.periphAdopters as real) / (t.periphSize as real)
  {
  }

  /** The adopters split between the two segments. */
  lemma AdoptersSplit(h: Graph, f: Graph, sim: Diffusion.Sim)
    requires WellFormed(h) && Diffusion.Valid(h, sim)
    requires forall a :: a in h.topo.nodes ==> a in f.attrs && (f.attrs[a].adopted <==> a in sim.adopters)
    ensures Count(CoreNodes(h), AdoptedFlag(f)) + Count(PeriphNodes(h), AdoptedFlag(f)) == |sim.adopters|
  {
    NodesSplit(h);
    SplitCount(CoreNodes(h), PeriphNodes(h), sim.adopters, AdoptedFlag(f));
  }

  /** Two disjoint sequences without repetitions that together hold every
      element of zs, and a test that holds on them exactly for zs: the two
      counts add up to |zs|. */
  lemma SplitCount<T>(xs: seq<T>, ys: seq<T>, zs: seq<T>, p: T -> bool)
    requires Distinct(xs) && Distinct(ys) && Distinct(zs)
    requires forall x :: x in xs ==> x !in ys
    requires forall z :: z in zs ==> z in xs || z in ys
    requires forall x :: x in xs || x in ys ==> (p(x) <==> x in zs)
    ensures Count(xs, p) + Count(ys, p) == |zs|
  {
    FilterCardinality(xs, p);
    FilterCardinality(ys, p);
    var sx := set x | x in xs && p(x);
    var sy := set x | x in ys && p(x);
    var sz := set z | z in zs;
    DistinctSize(zs, sz);
    SplitSets(xs, ys, zs, p, sx, sy, sz);
    DisjointUnion(sx, sy, sz);
  }

  lemma SplitSets<T>(xs: seq<T>, ys: seq<T>, zs: seq<T>, p: T -> bool, sx: set<T>, sy: set<T>, sz: set<T>)
    requires forall x :: x in xs ==> x !in ys
    requires forall z :: z in zs ==> z in xs || z in ys
    requires forall x :: x in xs || x in ys ==> (p(x) <==> x in zs)
    requires sx == set x | x in xs && p(x)
    requires sy == set x | x in ys && p(x)
    requires sz == set z | z in zs
    ensures sx * sy == {} && sx + sy == sz
  {
    forall z | z in sz ensures z in sx + sy {
      assert z in zs;
    }
    forall z | z in sx + sy ensures z in sz {
      assert z in xs || z in ys;
    }
    forall z | z in sx ensures z !in sy {
      assert z in xs;
    }
  }

  lemma DisjointUnion<T>(sx: set<T>, sy: set<T>, sz: set<T>)
    requires sx * sy == {} && sx + sy == sz
    ensures |sx| + |sy| == |sz|
  {
  }

  /** The seed is flagged adopted and counted in its own segment. */
  lemma SeedCounted(seed: Node, segment: seq<Node>, f: Graph)
    requires seed in segment && seed in f.attrs && f.attrs[seed].adopted
    ensures Count(segment, AdoptedFlag(f)) >= 1
  {
    var i :| 0 <= i < |segment| && segment[i] == seed;
    assert seed in Filter(segment, AdoptedFlag(f));
  }

  /** a/b lies in [0, 1] for 0 <= a <= b, b > 0. */
  lemma RatioWithin(a: nat, b: nat)
    requires a <= b && b > 0
    ensures 0.0 <= (a as real) / (b as real) <= 1.0
  {
    var q := (a as real) / (b as real);
    assert q * (b as real) == a as real;
  }

  // ---- The sweep over cases ----

  /** `xrange(0, total, 5)` from the i-th step on: 5i, 5(i+1), ... below total. */
  function Levels(i: nat, total: int): (r: seq<nat>)
    ensures forall j :: 0 <= j < |r| ==> r[j] == 5 * (i + j) && r[j] < total
    ensures 5 * (i + |r|) >= total
    decreases total - 5 * i
  {
    if 5 * i >= total then [] else [5 * i] + Levels(i + 1, total)
  }

  /** The numbers of peripheral ties tried: 0, 5, 10, ... below `total`. */
  function PtiesLevels(total: int): (r: seq<nat>)
    ensures forall j :: 0 <= j < |r| ==> r[j] == 5 * j && r[j] < total
    ensures 5 * |r| >= total
  {
    Levels(0, total)
  }

  /** The weights of bandwagon pressure tried: 1, 2, 3, 4, 5. */
  const AiLevels: seq<nat> := Range(1, 6)

  /** `product(peripheryTies_i, A_i)`: every (pties, A_i) pair, pties major. */
  function Cases(total: int): (r: seq<(nat, nat)>)
    ensures |r| == 5 * |PtiesLevels(total)|
  {
    Pairs.Product(PtiesLevels(total), AiLevels)
  }

  /** Case 5i + j tries the i-th tie count with A_i = j + 1. */
  lemma CaseOrder(total: int, i: nat, j: nat)
    requires i < |PtiesLevels(total)| && j < 5
    ensures Cases(total)[5 * i + j] == (5 * i, j + 1)
  {
    Pairs.ProductIndex(PtiesLevels(total), AiLevels, i, j, 5 * i + j);
  }

  /** The random sources of an experiment, keyed by case index and trial
      number: the generator's draws, each node's assessed profit, the raw
      draw behind `choice`, and the draws of each round's shuffle. */
  datatype Randomness = Randomness(
    graph: nat -> nat -> nat,
    profit: nat -> nat -> Node -> real,
    seed: nat -> nat -> nat,
    shuffle: nat -> nat -> nat -> nat -> nat)

  /** The trials of case ci on network g, by trial number. */
  function TrialRunner(g: Graph, ai: nat, down: bool, ci: nat, rnd: Randomness): nat -> Result<TrialRecord>
    requires WellFormed(g)
  {
    (t: nat) => Trial(g, ai as real, down, rnd.profit(ci)(t), rnd.seed(ci)(t), rnd.shuffle(ci)(t))
  }

  /** Trials t, t+1, ..., `trials` of a case, `trial(t)` running trial t. Each
      trial also divides its tie count by `total` for the density series,
      which raises when `total` is zero. */
  function CaseTrials<R>(trial: nat -> Result<R>, total: int, t: nat, trials: int)
    : (r: Result<seq<R>>)
    ensures r.Ok? ==> |r.value| == if t <= trials then trials - t + 1 else 0
    ensures r.Ok? && t <= trials ==> total != 0
    decreases trials - t
  {
    if t > trials then Ok([])
    else
      var record :- trial(t);
      if total == 0 then Err(ZeroDivision)
      else
        var rest :- CaseTrials(trial, total, t + 1, trials);
        Ok([record] + rest)
  }

  /** Both diffusion ratios of a trial record lie in [0, 1]. */
  predicate Within(r: TrialRecord) {
    0.0 <= r.periphDiffusion <= 1.0 && 0.0 <= r.coreDiffusion <= 1.0
  }

  /** The trials that ran are records of `trial`, so they keep what every
      successful trial satisfies. */
  lemma {:induction false} CaseTrialsKeep<R>(trial: nat -> Result<R>, total: int, t: nat, trials: int, ok: R -> bool)
    requires CaseTrials(trial, total, t, trials).Ok?
    requires forall u :: trial(u).Ok? ==> ok(trial(u).value)
    ensures forall i :: 0 <= i < |CaseTrials(trial, total, t, trials).value| ==>
      ok(CaseTrials(trial, total, t, trials).value[i])
    decreases trials - t
  {
    if t <= trials {
      var ts := CaseTrials(trial, total, t, trials).value;
      CaseTrialsKeep(trial, total, t + 1, trials, ok);
      var rest := CaseTrials(trial, total, t + 1, trials).value;
      assert ts == [trial(t).value] + rest;
    }
  }

  /** Both ratios of every successful trial of a case lie in [0, 1]. */
  lemma TrialsWithin(g: Graph, ai: nat, down: bool, ci: nat, rnd: Randomness)
    requires WellFormed(g)
    ensures forall t :: TrialRunner(g, ai, down, ci, rnd)(t).Ok? ==> Within(TrialRunner(g, ai, down, ci, rnd)(t).value)
  {
    forall t | TrialRunner(g, ai, down, ci, rnd)(t).Ok? ensures Within(TrialRunner(g, ai, down, ci, rnd)(t).value) {
      TrialWithin(g, ai as real, down, rnd.profit(ci)(t), rnd.seed(ci)(t), rnd.shuffle(ci)(t));
    }
  }

  /** Both ratios of a successful trial lie in [0, 1]. */
  lemma TrialWithin(g: Graph, ai: real, down: bool, profit: Node -> real, seedDraw: nat, draws: nat -> nat -> nat)
    requires WellFormed(g) && Trial(g, ai, down, profit, seedDraw, draws).Ok?
    ensures Within(Trial(g, ai, down, profit, seedDraw, draws).value)
  {
    TrialCounts(g, ai, down, profit, seedDraw, draws);
  }

  /** One row of the case log: A_i and the averages over the case's trials. */
  datatype CaseRow = CaseRow(ai: nat, density: real, periphDiffusion: real, coreDiffusion: real)

  /** The data series a case averages. */
  function PeriphSeries(ts: seq<TrialRecord>): seq<real> {
    seq(|ts|, i requires 0 <= i < |ts| => ts[i].periphDiffusion)
  }

  function CoreSeries(ts: seq<TrialRecord>): seq<real> {
    seq(|ts|, i requires 0 <= i < |ts| => ts[i].coreDiffusion)
  }

  /** `pties / totalPossiblePeriphTies` once per trial. */
  function DensitySeries(pties: nat, total: int, m: nat): seq<real>
    requires total != 0
  {
    seq(m, _ => (pties as real) / (total as real))
  }

  /** One case: a new network from the generator, then `trials` trials on
      copies of it, and the case row of their averages. */
  function RunCase(c: int, p: int, pties: nat, ai: nat, total: int, trials: int, down: bool, ci: nat, rnd: Randomness)
    : (r: Result<(CaseRow, seq<TrialRecord>)>)
    ensures r.Ok? ==> r.value.0.ai == ai && |r.value.1| == if trials >= 1 then trials else 0
  {
    var g :- GraphGen.Generate(c, p, pties, rnd.graph(ci));
    var ts :- CaseTrials(TrialRunner(g, ai, down, ci, rnd), total, 1, trials);
    var density := if ts == [] then RunningStats.Init() else RunningStats.FromData(DensitySeries(pties, total, |ts|));
    var periph := RunningStats.FromData(PeriphSeries(ts));
    var core := RunningStats.FromData(CoreSeries(ts));
    Ok((CaseRow(ai, RunningStats.Average(density), RunningStats.Average(periph), RunningStats.Average(core)), ts))
  }

  /** A case with at least one trial averages the density to pties/total,
      and both mean diffusion ratios lie in [0, 1]. */
  lemma CaseAverages(c: int, p: int, pties: nat, ai: nat, total: int, trials: int, down: bool, ci: nat, rnd: Randomness)
    requires trials >= 1 && RunCase(c, p, pties, ai, total, trials, down, ci, rnd).Ok?
    ensures var row := RunCase(c, p, pties, ai, total, trials, down, ci, rnd).value.0;
      && total != 0 && row.density == (pties as real) / (total as real)
      && 0.0 <= row.periphDiffusion <= 1.0 && 0.0 <= row.coreDiffusion <= 1.0
  {
    var g := GraphGen.Generate(c, p, pties, rnd.graph(ci)).value;
    var trial := TrialRunner(g, ai, down, ci, rnd);
    var ts := CaseTrials(trial, total, 1, trials).value;
    TrialsWithin(g, ai, down, ci, rnd);
    CaseTrialsKeep(trial, total, 1, trials, Within);
    RowAverages(ts, pties, total, RunCase(c, p, pties, ai, total, trials, down, ci, rnd).value.0);
  }

  lemma RowAverages(ts: seq<TrialRecord>, pties: nat, total: int, row: CaseRow)
    requires ts != [] && total != 0 && forall i :: 0 <= i < |ts| ==> Within(ts[i])
    requires row.density == RunningStats.Average(RunningStats.FromData(DensitySeries(pties, total, |ts|)))
    requires row.periphDiffusion == RunningStats.Average(RunningStats.FromData(PeriphSeries(ts)))
    requires row.coreDiffusion == RunningStats.Average(RunningStats.FromData(CoreSeries(ts)))
    ensures row.density == (pties as real) / (total as real)
    ensures 0.0 <= row.periphDiffusion <= 1.0 && 0.0 <= row.coreDiffusion <= 1.0
  {
    SeriesWithin(ts);
    var v := (pties as real) / (total as real);
    RunningStats.AverageWithin(DensitySeries(pties, total, |ts|), v, v);
    RunningStats.AverageWithin(PeriphSeries(ts), 0.0, 1.0);
    RunningStats.AverageWithin(CoreSeries(ts), 0.0, 1.0);
  }

  lemma SeriesWithin(ts: seq<TrialRecord>)
    requires forall i :: 0 <= i < |ts| ==> Within(ts[i])
    ensures forall i :: 0 <= i < |ts| ==> 0.0 <= PeriphSeries(ts)[i] <= 1.0 && 0.0 <= CoreSeries(ts)[i] <= 1.0
  {
  }

  /** The outcome of one case: its row and its trial records. */
  type CaseResult<R> = Result<(CaseRow, seq<R>)>

  /** Cases ci, ci+1, ... of the sweep, `run(i, case)` running case i: the
      case rows and the trial records, or the first error. */
  function RunCases<R>(cases: seq<(nat, nat)>, ci: nat, run: (nat, (nat, nat)) -> CaseResult<R>)
    : (r: Result<(seq<CaseRow>, seq<R>)>)
    requires ci <= |cases|
    decreases |cases| - ci
  {
    if ci == |cases| then Ok(([], []))
    else
      var here := run(ci, cases[ci]);
      if here.Err? then Err(here.error)
      else
        var rest := RunCases(cases, ci + 1, run);
        if rest.Err? then Err(rest.error)
        else Ok(([here.value.0] + rest.value.0, here.value.1 + rest.value.1))
  }

  /** When every case row carries its case's A_i, the rows follow the cases. */
  lemma {:induction false} RowsInCaseOrder<R>(cases: seq<(nat, nat)>, ci: nat, run: (nat, (nat, nat)) -> CaseResult<R>)
    requires ci <= |cases| && RunCases(cases, ci, run).Ok?
    requires forall i, cs :: run(i, cs).Ok? ==> run(i, cs).value.0.ai == cs.1
    ensures |RunCases(cases, ci, run).value.0| == |cases| - ci
    ensures forall k :: ci <= k < |cases| ==> RunCases(cases, ci, run).value.0[k - ci].ai == cases[k].1
    decreases |cases| - ci
  {
    if ci < |cases| {
      var rest := RunCases(cases, ci + 1, run).value.0;
      RowsInCaseOrder(cases, ci + 1, run);
      var rows := RunCases(cases, ci, run).value.0;
      forall k | ci < k < |cases| ensures rows[k - ci].ai == cases[k].1 {
        assert rows[k - ci] == rest[k - (ci + 1)];
      }
    }
  }

  /** When every case logs m trials, the log holds m per case. */
  lemma {:induction false} TrialsPerCase<R>(cases: seq<(nat, nat)>, ci: nat, run: (nat, (nat, nat)) -> CaseResult<R>, m: nat)
    requires ci <= |cases| && RunCases(cases, ci, run).Ok?
    requires forall i, cs :: run(i, cs).Ok? ==> |run(i, cs).value.1| == m
    ensures |RunCases(cases, ci, run).value.1| == (|cases| - ci) * m
    decreases |cases| - ci
  {
    if ci < |cases| {
      TrialsPerCase(cases, ci + 1, run, m);
      LogLength(|run(ci, cases[ci]).value.1|, |RunCases(cases, ci + 1, run).value.1|, |cases| - ci, m);
    }
  }

  /** A runner whose rows carry their case's A_i and which logs m trials per
      case completes with one row per case, in case order, and m records per
      case. */
  lemma RunsShape<R>(cases: seq<(nat, nat)>, run: (nat, (nat, nat)) -> CaseResult<R>, m: nat)
    requires RunCases(cases, 0, run).Ok?
    requires forall i, cs :: run(i, cs).Ok? ==> run(i, cs).value.0.ai == cs.1 && |run(i, cs).value.1| == m
    ensures var (rows, log) := RunCases(cases, 0, run).value;
      && |rows| == |cases|
      && (forall k :: 0 <= k < |cases| ==> rows[k].ai == cases[k].1)
      && |log| == |cases| * m
  {
    RowsInCaseOrder(cases, 0, run);
    TrialsPerCase(cases, 0, run, m);
  }

  lemma LogLength(a: nat, b: nat, m: nat, t: nat)
    requires m >= 1 && a == t && b == (m - 1) * t
    ensures a + b == m * t
  {
  }

  /** How the sweep runs case i: on a new network with n - c peripheral nodes. */
  function CaseRunner(n: int, c: int, trials: int, down: bool, rnd: Randomness): (nat, (nat, nat)) -> CaseResult<TrialRecord> {
    var total := Stats.PossibleTies(n, c).periph;
    (i: nat, cs: (nat, nat)) => RunCase(c, n - c, cs.0, cs.1, total, trials, down, i, rnd)
  }

  /** Every case the runner completes has its own A_i and `trials` records. */
  lemma RunnerRows(n: int, c: int, trials: int, down: bool, rnd: Randomness)
    ensures forall i, cs :: CaseRunner(n, c, trials, down, rnd)(i, cs).Ok? ==>
      && CaseRunner(n, c, trials, down, rnd)(i, cs).value.0.ai == cs.1
      && |CaseRunner(n, c, trials, down, rnd)(i, cs).value.1| == if trials >= 1 then trials else 0
  {
  }

  /** `run1997ThresholdModel` less its I/O: n nodes, c of them core (the
      rounded `n * cpRatio` is taken as given), `trials` trials per case,
      trickle-down when `down`. */
  function Sweep(n: int, c: int, trials: int, down: bool, rnd: Randomness)
    : (r: Result<(seq<CaseRow>, seq<TrialRecord>)>)
  {
    RunCases(Cases(Stats.PossibleTies(n, c).periph), 0, CaseRunner(n, c, trials, down, rnd))
  }

  /** A sweep that completes has one case row per case, in case order, each
      with its case's A_i, and `trials` trial records per case. */
  lemma SweepShape(n: int, c: int, trials: int, down: bool, rnd: Randomness)
    requires Sweep(n, c, trials, down, rnd).Ok?
    ensures var cases := Cases(Stats.PossibleTies(n, c).periph);
      var (rows, log) := Sweep(n, c, trials, down, rnd).value;
      && |rows| == |cases|
      && (forall k :: 0 <= k < |cases| ==> rows[k].ai == cases[k].1)
      && |log| == |cases| * (if trials >= 1 then trials else 0)
  {
    var cases := Cases(Stats.PossibleTies(n, c).periph);
    var run := CaseRunner(n, c, trials, down, rnd);
    RunnerRows(n, c, trials, down, rnd);
    RunsShape(cases, run, if trials >= 1 then trials else 0);
  }

  /** With no possible peripheral tie there is no case: nothing is generated
      and the density `pties / totalPossiblePeriphTies` is never computed. */
  lemma NoTiesNoCases(n: int, c: int, trials: int, down: bool, rnd: Randomness)
    requires Stats.PossibleTies(n, c).periph <= 0
    ensures Sweep(n, c, trials, down, rnd) == Ok(([], []))
  {
    assert PtiesLevels(Stats.PossibleTies(n, c).periph) == [];
  }

  /** With 0 <= c <= n, every case's network can be generated: its tie count
      is below the peripheral maximum, so the generator as written samples it
      from its candidates, and the corrected generator accepts it as well. */
  lemma CasesGenerate(n: int, c: int, k: nat, draw: nat -> nat)
    requires 0 <= c <= n && k < |Cases(Stats.PossibleTies(n, c).periph)|
    ensures GraphGen.Generate(c, n - c, Cases(Stats.PossibleTies(n, c).periph)[k].0, draw).Ok?
    ensures GraphGen.GenerateUnordered(c, n - c, Cases(Stats.PossibleTies(n, c).periph)[k].0, draw).Ok?
  {
    var total := Stats.PossibleTies(n, c).periph;
    var levels := PtiesLevels(total);
    var i, j := DivideByFive(k, |levels|);
    CaseOrder(total, i, j);
    var pties := Cases(total)[k].0;
    assert pties == 5 * i == levels[i];
    GenerateBelowMaximum(n, c, pties, draw);
  }

  lemma GenerateBelowMaximum(n: int, c: int, pties: int, draw: nat -> nat)
    requires 0 <= c <= n && 0 <= pties <= Stats.PossibleTies(n, c).periph
    ensures GraphGen.Generate(c, n - c, pties, draw).Ok?
    ensures GraphGen.GenerateUnordered(c, n - c, pties, draw).Ok?
  {
    var p := n - c;
    assert c + p == n;
    GenerateFeasible(c, p, pties, draw);
  }

  lemma GenerateFeasible(c: nat, p: nat, pties: nat, draw: nat -> nat)
    requires pties <= Stats.PossibleTies(c + p, c).periph
    ensures GraphGen.Generate(c, p, pties, draw).Ok? && GraphGen.GenerateUnordered(c, p, pties, draw).Ok?
  {
    GraphGen.FeasibleWithinCandidates(c, p, pties);
  }

  /** k = 5i + j with j < 5, and i < m when k < 5m. */
  lemma DivideByFive(k: nat, m: nat) returns (i: nat, j: nat)
    requires k < 5 * m
    ensures k == 5 * i + j && j < 5 && i < m
  {
    i, j := k / 5, k % 5;
  }
}
