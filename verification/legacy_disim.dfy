/** The earlier top-level experiment of the 1997 threshold model on the
    legacy network. A trial draws I for every node, sets A to the case's A_i,
    seeds one core node (trickle-down) or one peripheral node, runs the
    rounds, and counts the adopters per stratum. The bandwagon pressure reads
    the case's A_i directly. The sweep fixes the core to a third of the
    nodes and runs 100 trials per case. */
module LegacyExperiment {
  import opened Errors
  import opened Seqs
  import opened Network
  import opened LegacyGraphGen
  import Stats
  import LegacyStats
  import LegacyGraphSearch
  import Diffusion
  import RunningStats
  import Experiment

  // ---- One trial ----

  /** The start of a trial: every node gets its assessed profit I. */
  function StartTrial(g: LegacyGraph, profit: Node -> real): (r: LegacyGraph)
    requires LegacyGraphGen.WellFormed(g)
    ensures LegacyGraphGen.WellFormed(r) && r.topo == g.topo && r.core == g.core
    ensures forall a :: a in g.topo.nodes ==> a in r.profit && r.profit[a] == profit(a)
  {
    g.(profit := map a | a in g.topo.nodes :: profit(a))
  }

  /** The trial's network as the rounds see it: I from `profit`, A = A_i on
      every node, nobody adopted and every influence empty. */
  function TrialGraph(g: LegacyGraph, profit: Node -> real, ai: real): (h: Graph)
    requires LegacyGraphGen.WellFormed(g)
    ensures Diffusion.Ready(h) && h.topo == g.topo
    ensures forall a :: a in g.topo.nodes ==>
      && h.attrs[a].profit == Some(profit(a)) && h.attrs[a].ambiguity == Some(ai)
      && !h.attrs[a].adopted && h.attrs[a].influence == []
  {
    Lift(StartTrial(g, profit), ai)
  }

  /** `Bik = I + Ai * Pk1` with `Pk1` the adopted neighbours over N, the
      case's A_i read directly. */
  function Pressure(g: LegacyGraph, ai: real, adopters: seq<Node>, a: Node): real
    requires a in g.profit && a in g.topo.nodes
  {
    g.profit[a] + ai * ((|Diffusion.AdoptedNeighbors(g.topo, adopters, a)| as real) / (|g.topo.nodes| as real))
  }

  /** The rounds read A from the nodes; since every node's A is A_i, that is
      the legacy pressure, so the package's rounds are the legacy rounds. */
  lemma PressureAgrees(g: LegacyGraph, profit: Node -> real, ai: real, adopters: seq<Node>, a: Node)
    requires LegacyGraphGen.WellFormed(g) && a in g.topo.nodes
    ensures Diffusion.Pressure(TrialGraph(g, profit, ai), adopters, a) == Pressure(StartTrial(g, profit), ai, adopters, a)
  {
    var h := TrialGraph(g, profit, ai);
    var s := StartTrial(g, profit);
    PressureOf(h, s, ai, adopters, a);
  }

  lemma PressureOf(h: Graph, s: LegacyGraph, ai: real, adopters: seq<Node>, a: Node)
    requires Diffusion.Ready(h) && h.topo == s.topo && a in h.topo.nodes && a in s.profit
    requires h.attrs[a].profit == Some(s.profit[a]) && h.attrs[a].ambiguity == Some(ai)
    ensures Diffusion.Pressure(h, adopters, a) == Pressure(s, ai, adopters, a)
  {
    SamePressure(h.attrs[a].profit.value, s.profit[a], h.attrs[a].ambiguity.value, ai,
      (|Diffusion.AdoptedNeighbors(h.topo, adopters, a)| as real) / (|h.topo.nodes| as real),
      (|Diffusion.AdoptedNeighbors(s.topo, adopters, a)| as real) / (|s.topo.nodes| as real));
  }

  lemma SamePressure(i1: real, i2: real, a1: real, a2: real, p1: real, p2: real)
    requires i1 == i2 && a1 == a2 && p1 == p2
    ensures i1 + a1 * p1 == i2 + a2 * p2
  {
  }

  /** `coreNodes`: the nodes flagged core, in node order. */
  function CoreNodes(g: LegacyGraph): (r: seq<Node>)
    ensures forall a :: a in r <==> a in g.topo.nodes && a in g.core && g.core[a]
  {
    LegacyGraphSearch.Targets(g)
  }

  /** `periphNodes`: the nodes flagged not core, in node order. */
  function PeriphNodes(g: LegacyGraph): (r: seq<Node>)
    ensures forall a :: a in r <==> a in g.topo.nodes && a in g.core && !g.core[a]
  {
    Filter(g.topo.nodes, LegacyGraphSearch.OffTarget(g))
  }

  /** Every node is in exactly one of the two lists, and neither repeats one. */
  lemma NodesSplit(g: LegacyGraph)
    requires LegacyGraphGen.WellFormed(g)
    ensures Distinct(CoreNodes(g)) && Distinct(PeriphNodes(g))
    ensures |CoreNodes(g)| + |PeriphNodes(g)| == |g.topo.nodes|
  {
    var core := CoreNodes(g);
    var periph := PeriphNodes(g);
    FilterDistinct(g.topo.nodes, LegacyGraphSearch.InTarget(g));
    FilterDistinct(g.topo.nodes, LegacyGraphSearch.OffTarget(g));
    var sc := set a | a in core;
    var sp := set a | a in periph;
    var sn := set a | a in g.topo.nodes;
    DistinctSize(core, sc);
    DistinctSize(periph, sp);
    DistinctSize(g.topo.nodes, sn);
    assert sc + sp == sn;
    assert sc * sp == {};
  }

  /** One row of the legacy trial log, less the case parameters and trial
      number, with the two ratios the case averages. */
  datatype LegacyRecord = LegacyRecord(
    coreAdopters: nat, coreSize: nat,
    periphAdopters: nat, periphSize: nat,
    periphDiffusion: real, coreDiffusion: real)

  /** The seed's stratum: the core for trickle-down diffusion, else the
      periphery. */
  function SeedPool(g: LegacyGraph, down: bool): seq<Node> {
    if down then CoreNodes(g) else PeriphNodes(g)
  }

  /** One legacy trial on a copy of the case's network: start, seed, the
      rounds, and the counts. The peripheral ratio is computed first, so an
      empty periphery raises before an empty core. */
  function Trial(g: LegacyGraph, ai: real, down: bool, profit: Node -> real, seedDraw: nat, draws: nat -> nat -> nat)
    : (r: Result<LegacyRecord>)
    requires LegacyGraphGen.WellFormed(g)
  {
    var h := TrialGraph(g, profit, ai);
    var core := CoreNodes(g);
    var periph := PeriphNodes(g);
    var seed :- Experiment.Choice(SeedPool(g, down), seedDraw);
    var sim := Diffusion.Run(h, seed, draws).0;
    var nc := Count(core, Diffusion.AdoptedIn(sim.adopters));
    var np := Count(periph, Diffusion.AdoptedIn(sim.adopters));
    if periph == [] || core == [] then Err(ZeroDivision)
    else Ok(LegacyRecord(nc, |core|, np, |periph|,
                         (np as real) / (|periph| as real), (nc as real) / (|core| as real)))
  }

  /** A legacy trial fails exactly when a stratum is empty: the seed's
      stratum makes `choice` raise, the other one a ratio divide by zero. */
  lemma TrialErrors(g: LegacyGraph, ai: real, down: bool, profit: Node -> real, seedDraw: nat, draws: nat -> nat -> nat)
    requires LegacyGraphGen.WellFormed(g)
    ensures var r := Trial(g, ai, down, profit, seedDraw, draws);
      && (r.Err? <==> CoreNodes(g) == [] || PeriphNodes(g) == [])
      && (r.Err? ==> r.error == if SeedPool(g, down) == [] then EmptySequence else ZeroDivision)
  {
  }

  /** The counts of a legacy trial: core and peripheral adopters add up to
      all adopters, each is at most its stratum's size, both ratios lie in
      [0, 1], and the seed is among the adopters of its stratum. */
  lemma TrialCounts(g: LegacyGraph, ai: real, down: bool, profit: Node -> real, seedDraw: nat, draws: nat -> nat -> nat)
    requires LegacyGraphGen.WellFormed(g) && Trial(g, ai, down, profit, seedDraw, draws).Ok?
    ensures var t := Trial(g, ai, down, profit, seedDraw, draws).value;
      var sim := Diffusion.Run(TrialGraph(g, profit, ai), Experiment.Choice(SeedPool(g, down), seedDraw).value, draws).0;
      && t.coreAdopters + t.periphAdopters == |sim.adopters|
      && t.coreSize + t.periphSize == |g.topo.nodes|
      && t.coreAdopters <= t.coreSize && t.periphAdopters <= t.periphSize
      && 0.0 <= t.coreDiffusion <= 1.0 && 0.0 <= t.periphDiffusion <= 1.0
      && (if down then t.coreAdopters else t.periphAdopters) >= 1
  {
    var h := TrialGraph(g, profit, ai);
    var seed := Experiment.Choice(SeedPool(g, down), seedDraw).value;
    var sim := Diffusion.Run(h, seed, draws).0;
    var t := Trial(g, ai, down, profit, seedDraw, draws).value;
    TrialParts(g, ai, down, profit, seedDraw, draws);
    NodesSplit(g);
    AdoptersSplit(g, h, sim);
    Experiment.RatioWithin(t.coreAdopters, t.coreSize);
    Experiment.RatioWithin(t.periphAdopters, t.periphSize);
    SeedCounted(seed, SeedPool(g, down), sim.adopters);
  }

  /** The record of a successful legacy trial, field by field. */
  lemma TrialParts(g: LegacyGraph, ai: real, down: bool, profit: Node -> real, seedDraw: nat, draws: nat -> nat -> nat)
    requires LegacyGraphGen.WellFormed(g) && Trial(g, ai, down, profit, seedDraw, draws).Ok?
    ensures var t := Trial(g, ai, down, profit, seedDraw, draws).value;
      var seed := Experiment.Choice(SeedPool(g, down), seedDraw).value;
      var sim := Diffusion.Run(TrialGraph(g, profit, ai), seed, draws).0;
      && CoreNodes(g) != [] && PeriphNodes(g) != [] && seed in SeedPool(g, down)
      && t.coreAdopters == Count(CoreNodes(g), Diffusion.AdoptedIn(sim.adopters)) && t.coreSize == |CoreNodes(g)|
      && t.periphAdopters == Count(PeriphNodes(g), Diffusion.AdoptedIn(sim.adopters)) && t.periphSize == |PeriphNodes(g)|
      && t.coreDiffusion == (t.coreAdopters as real) / (t.coreSize as real)
      && t.periphDiffusion == (t.periphAdopters as real) / (t.periphSize as real)
  {
  }

  /** The adopters split between the two strata. */
  lemma AdoptersSplit(g: LegacyGraph, h: Graph, sim: Diffusion.Sim)
    requires LegacyGraphGen.WellFormed(g) && h.topo == g.topo && Diffusion.Valid(h, sim)
    ensures Count(CoreNodes(g), Diffusion.AdoptedIn(sim.adopters))
      + Count(PeriphNodes(g), Diffusion.AdoptedIn(sim.adopters)) == |sim.adopters|
  {
    NodesSplit(g);
    Experiment.SplitCount(CoreNodes(g), PeriphNodes(g), sim.adopters, Diffusion.AdoptedIn(sim.adopters));
  }

  /** The seed is an adopter and counted in its own stratum. */
  lemma SeedCounted(seed: Node, stratum: seq<Node>, adopters: seq<Node>)
    requires seed in stratum && seed in adopters
    ensures Count(stratum, Diffusion.AdoptedIn(adopters)) >= 1
  {
    assert seed in Filter(stratum, Diffusion.AdoptedIn(adopters));
  }

  // ---- The sweep ----

  /** `int(round(n * cpRatio))` with cpRatio = 1/3: the integer nearest to
      n/3. A third of an integer is never halfway between two integers, so
      no tie arises. */
  function CoreSize(n: int): (c: int)
    ensures -1 <= 3 * c - n <= 1
  {
    (n + 1) / 3
  }

  /** No integer is nearer to n/3 than `CoreSize(n)`, and a network of n >= 0
      nodes has between 0 and n core nodes. */
  lemma CoreSizeNearest(n: int, k: int)
    ensures var d, e := 3 * CoreSize(n) - n, 3 * k - n;
      (if d < 0 then -d else d) <= (if e < 0 then -e else e)
    ensures n >= 0 ==> 0 <= CoreSize(n) <= n
  {
  }

  /** Python's `int(x)` on a float: truncation toward zero. */
  function Truncate(x: real): (r: int)
    ensures x >= 0.0 ==> r as real <= x < r as real + 1.0
    ensures x < 0.0 ==> r as real - 1.0 < x <= r as real
  {
    if x >= 0.0 then x.Floor else -((-x).Floor)
  }

  /** The trials per case. */
  const Trials: int := 100

  /** `product(xrange(0, int(totalPossiblePeriphTies), 5), xrange(1, 6))`
      for n nodes, c of them core. */
  function Cases(n: int, c: int): seq<(nat, nat)> {
    Experiment.Cases(Truncate(LegacyStats.PossibleTies(n, c).periph))
  }

  /** The float count of peripheral ties is an integer, so its truncation
      loses nothing and the legacy sweep tries the package's cases. */
  lemma CasesAgree(n: int, c: int)
    ensures Truncate(LegacyStats.PossibleTies(n, c).periph) == Stats.PossibleTies(n, c).periph
    ensures Cases(n, c) == Experiment.Cases(Stats.PossibleTies(n, c).periph)
  {
    LegacyStats.PossibleTiesAgree(n, c);
    var k := Stats.PossibleTies(n, c).periph;
    IntegralTruncate(k);
  }

  lemma IntegralTruncate(k: int)
    ensures Truncate(k as real) == k
  {
    if k < 0 {
      assert (-(k as real)).Floor == -k;
    }
  }

  /** The trials of case ci on network g, by trial number. */
  function TrialRunner(g: LegacyGraph, ai: nat, down: bool, ci: nat, rnd: Experiment.Randomness): nat -> Result<LegacyRecord>
    requires LegacyGraphGen.WellFormed(g)
  {
    (t: nat) => Trial(g, ai as real, down, rnd.profit(ci)(t), rnd.seed(ci)(t), rnd.shuffle(ci)(t))
  }

  /** Both ratios of a legacy record lie in [0, 1]. */
  predicate Within(r: LegacyRecord) {
    0.0 <= r.periphDiffusion <= 1.0 && 0.0 <= r.coreDiffusion <= 1.0
  }

  /** Both ratios of every successful trial of a case lie in [0, 1]. */
  lemma TrialsWithin(g: LegacyGraph, ai: nat, down: bool, ci: nat, rnd: Experiment.Randomness)
    requires LegacyGraphGen.WellFormed(g)
    ensures forall t :: TrialRunner(g, ai, down, ci, rnd)(t).Ok? ==> Within(TrialRunner(g, ai, down, ci, rnd)(t).value)
  {
    forall t | TrialRunner(g, ai, down, ci, rnd)(t).Ok? ensures Within(TrialRunner(g, ai, down, ci, rnd)(t).value) {
      TrialCounts(g, ai as real, down, rnd.profit(ci)(t), rnd.seed(ci)(t), rnd.shuffle(ci)(t));
    }
  }

  function PeriphSeries(ts: seq<LegacyRecord>): seq<real> {
    seq(|ts|, i requires 0 <= i < |ts| => ts[i].periphDiffusion)
  }

  function CoreSeries(ts: seq<LegacyRecord>): seq<real> {
    seq(|ts|, i requires 0 <= i < |ts| => ts[i].coreDiffusion)
  }

  /** One case: a new legacy network, then the 100 trials on copies of it,
      and the case row of their averages. `total` is the float
      `totalPossiblePeriphTies`, carried as the integer it equals. */
  function RunCase(c: int, p: int, pties: nat, ai: nat, total: int, down: bool, ci: nat, rnd: Experiment.Randomness)
    : (r: Experiment.CaseResult<LegacyRecord>)
    ensures r.Ok? ==> r.value.0.ai == ai && |r.value.1| == Trials
  {
    var g :- LegacyGraphGen.Generate(c, p, pties, rnd.graph(ci));
    var ts :- Experiment.CaseTrials(TrialRunner(g, ai, down, ci, rnd), total, 1, Trials);
    var density := RunningStats.FromData(Experiment.DensitySeries(pties, total, |ts|));
    var periph := RunningStats.FromData(PeriphSeries(ts));
    var core := RunningStats.FromData(CoreSeries(ts));
    Ok((Experiment.CaseRow(ai, RunningStats.Average(density), RunningStats.Average(periph), RunningStats.Average(core)), ts))
  }

  /** A legacy case averages the density to pties/total, and both mean
      diffusion ratios lie in [0, 1]. */
  lemma CaseAverages(c: int, p: int, pties: nat, ai: nat, total: int, down: bool, ci: nat, rnd: Experiment.Randomness)
    requires RunCase(c, p, pties, ai, total, down, ci, rnd).Ok?
    ensures var row := RunCase(c, p, pties, ai, total, down, ci, rnd).value.0;
      && total != 0 && row.density == (pties as real) / (total as real)
      && 0.0 <= row.periphDiffusion <= 1.0 && 0.0 <= row.coreDiffusion <= 1.0
  {
    var g := LegacyGraphGen.Generate(c, p, pties, rnd.graph(ci)).value;
    var trial := TrialRunner(g, ai, down, ci, rnd);
    var ts := Experiment.CaseTrials(trial, total, 1, Trials).value;
    TrialsWithin(g, ai, down, ci, rnd);
    Experiment.CaseTrialsKeep(trial, total, 1, Trials, Within);
    RowAverages(ts, pties, total, RunCase(c, p, pties, ai, total, down, ci, rnd).value.0);
  }

  lemma RowAverages(ts: seq<LegacyRecord>, pties: nat, total: int, row: Experiment.CaseRow)
    requires ts != [] && total != 0 && forall i :: 0 <= i < |ts| ==> Within(ts[i])
    requires row.density == RunningStats.Average(RunningStats.FromData(Experiment.DensitySeries(pties, total, |ts|)))
    requires row.periphDiffusion == RunningStats.Average(RunningStats.FromData(PeriphSeries(ts)))
    requires row.coreDiffusion == RunningStats.Average(RunningStats.FromData(CoreSeries(ts)))
    ensures row.density == (pties as real) / (total as real)
    ensures 0.0 <= row.periphDiffusion <= 1.0 && 0.0 <= row.coreDiffusion <= 1.0
  {
    var v := (pties as real) / (total as real);
    RunningStats.AverageWithin(Experiment.DensitySeries(pties, total, |ts|), v, v);
    RunningStats.AverageWithin(PeriphSeries(ts), 0.0, 1.0);
    RunningStats.AverageWithin(CoreSeries(ts), 0.0, 1.0);
  }

  /** How the legacy sweep runs case i. */
  function CaseRunner(n: int, c: int, down: bool, rnd: Experiment.Randomness)
    : (nat, (nat, nat)) -> Experiment.CaseResult<LegacyRecord>
  {
    var total := Stats.PossibleTies(n, c).periph;
    (i: nat, cs: (nat, nat)) => RunCase(c, n - c, cs.0, cs.1, total, down, i, rnd)
  }

  /** Every case the runner completes has its own A_i and 100 records. */
  lemma RunnerRows(n: int, c: int, down: bool, rnd: Experiment.Randomness)
    ensures forall i, cs :: CaseRunner(n, c, down, rnd)(i, cs).Ok? ==>
      && CaseRunner(n, c, down, rnd)(i, cs).value.0.ai == cs.1
      && |CaseRunner(n, c, down, rnd)(i, cs).value.1| == Trials
  {
  }

  /** Legacy `run1997ThresholdModel` less its I/O: n nodes, a third of them
      core, 100 trials per case, trickle-down when `down`. */
  function Sweep(n: int, down: bool, rnd: Experiment.Randomness)
    : (r: Result<(seq<Experiment.CaseRow>, seq<LegacyRecord>)>)
  {
    var c := CoreSize(n);
    Experiment.RunCases(Cases(n, c), 0, CaseRunner(n, c, down, rnd))
  }

  /** A legacy sweep that completes has one case row per case of the
      package's sweep with the same core size, in case order, each with its
      case's A_i, and 100 trial records per case. */
  lemma SweepShape(n: int, down: bool, rnd: Experiment.Randomness)
    requires Sweep(n, down, rnd).Ok?
    ensures var cases := Experiment.Cases(Stats.PossibleTies(n, CoreSize(n)).periph);
      var (rows, log) := Sweep(n, down, rnd).value;
      && |rows| == |cases|
      && (forall k :: 0 <= k < |cases| ==> rows[k].ai == cases[k].1)
      && |log| == |cases| * Trials
  {
    var c := CoreSize(n);
    CasesAgree(n, c);
    var cases := Cases(n, c);
    var run := CaseRunner(n, c, down, rnd);
    RunnerRows(n, c, down, rnd);
    Experiment.RunsShape(cases, run, Trials);
  }

  /** Every case's network can be generated: its tie count is below the
      peripheral maximum, hence within the candidates, which the legacy
      generator shares with the package's. */
  lemma CasesGenerate(n: int, k: nat, draw: nat -> nat)
    requires n >= 0 && k < |Cases(n, CoreSize(n))|
    ensures var c := CoreSize(n);
      LegacyGraphGen.Generate(c, n - c, Cases(n, c)[k].0, draw).Ok?
  {
    var c := CoreSize(n);
    CoreSizeNearest(n, 0);
    CasesAgree(n, c);
    Experiment.CasesGenerate(n, c, k, draw);
  }
}
