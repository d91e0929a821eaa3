/** The earlier top-level generator. It builds the same network as the
    package's generator, but segment membership is a boolean `core` node
    attribute, no default attributes are set, and the generator object checks
    only that the node counts are not negative. */
module LegacyGraphGen {
  import opened Errors
  import opened Seqs
  import opened Network
  import Stats
  import Sampling
  import GraphGen
  import Pairs

  /** A legacy network: the topology, each node's `core` flag and, once a
      caller sets it, each node's assessed profit `I`. */
  datatype LegacyGraph = LegacyGraph(topo: Topology, core: map<Node, bool>, profit: map<Node, real>)

  /** Nodes are unique, each carries its `core` flag, and every edge joins
      two nodes of the network. */
  predicate WellFormed(g: LegacyGraph) {
    && Distinct(g.topo.nodes)
    && (forall a :: a in g.topo.nodes ==> a in g.core)
    && (forall i :: 0 <= i < |g.topo.edges| ==>
          g.topo.edges[i].0 in g.topo.nodes && g.topo.edges[i].1 in g.topo.nodes)
  }

  /** `core=True` on the nodes below c, `core=False` on the others below n. */
  function CoreFlags(c: nat, n: nat): (r: map<Node, bool>)
    ensures forall a: Node :: a in r <==> a < n
    ensures forall a :: a in r ==> (r[a] <==> a < c)
  {
    var nodes := Range(0, n);
    assert forall a: Node :: a in nodes <==> a < n;
    map a | a in nodes :: a < c
  }

  /** Legacy `generateARCorePeriph(c, p, pties)`: the assertion on the node
      counts, the complete core, the flags, then `random.sample` of pties
      candidates, which raises for a pties outside 0..|candidates|. */
  function Generate(c: int, p: int, pties: int, draw: nat -> nat): (r: Result<LegacyGraph>)
    ensures r.Err? <==> c < 0 || p < 0 || pties < 0 || pties > p * c + p * (p - 1)
    ensures r.Err? ==> r.error == if c < 0 || p < 0 then AssertionFailed else SampleSize
    ensures r.Ok? ==> WellFormed(r.value) && r.value.topo.nodes == Range(0, c + p)
    ensures r.Ok? ==> forall a: Node :: a in r.value.core <==> a < c + p
    ensures r.Ok? ==> forall a :: a in r.value.core ==> (r.value.core[a] <==> a < c)
    ensures r.Ok? ==> r.value.profit == map[]
    ensures r.Ok? ==> |r.value.topo.edges| == Stats.PairCount(c) + pties
  {
    if c < 0 || p < 0 then Err(AssertionFailed)
    else
      GraphGen.CandidatesLength(c, p);
      var s := Sampling.Sample(GraphGen.Candidates(c, p), pties, draw);
      if s.Err? then Err(s.error)
      else
        GraphGen.SampleFromCandidates(c, p, pties, draw);
        var t := GraphGen.Assemble(c, p, s.value).topo;
        Ok(LegacyGraph(t, CoreFlags(c, c + p), map[]))
  }

  /** The legacy generator fails on the same inputs as the package's
      `generateARCorePeriph`, builds the same topology from the same draws,
      and flags as core exactly the nodes the package puts in the "core"
      segment. */
  lemma GenerateAgrees(c: int, p: int, pties: int, draw: nat -> nat)
    ensures Generate(c, p, pties, draw).Ok? <==> GraphGen.Generate(c, p, pties, draw).Ok?
    ensures Generate(c, p, pties, draw).Ok? ==>
      var (l, g) := (Generate(c, p, pties, draw).value, GraphGen.Generate(c, p, pties, draw).value);
      && l.topo == g.topo
      && forall a :: a in l.topo.nodes ==> (l.core[a] <==> GraphGen.CoreSegment in g.attrs[a].segments)
  {
    if Generate(c, p, pties, draw).Ok? {
      var s := GraphGen.GeneratedFrom(c, p, pties, draw);
      var g := GraphGen.Assemble(c, p, s);
      var l := Generate(c, p, pties, draw).value;
      forall a | a in l.topo.nodes ensures l.core[a] <==> GraphGen.CoreSegment in g.attrs[a].segments {
        assert a in GraphGen.NodeAttrs(c, c + p);
      }
    }
  }

  /** The core is complete, no edge is a self-loop, and the sampled edges are
      exactly the pties edges beyond the core. */
  lemma GenerateShape(c: int, p: int, pties: int, draw: nat -> nat)
    requires Generate(c, p, pties, draw).Ok?
    ensures var t := Generate(c, p, pties, draw).value.topo;
      && (forall a: Node, b: Node :: a < b < c ==> Adjacent(t, a, b))
      && (forall i :: 0 <= i < |t.edges| ==> t.edges[i].0 != t.edges[i].1)
      && t.edges[Stats.PairCount(c)..] == Sampling.Sample(GraphGen.Candidates(c, p), pties, draw).value
  {
    var s := GraphGen.GeneratedFrom(c, p, pties, draw);
    GraphGen.AssembleCoreComplete(c, p, s);
    Pairs.CombinationsCount(Range(0, c));
  }

  /** The package's view of a legacy network: the `core` flag becomes the
      "core" or "periphery" segment, `I` is carried over where set, every
      node gets the weight A_i, and the adoption state is the initial one. */
  function Lift(g: LegacyGraph, ai: real): (h: Graph)
    requires WellFormed(g)
    ensures Network.WellFormed(h) && h.topo == g.topo
    ensures forall a :: a in g.topo.nodes ==>
      && (GraphGen.CoreSegment in h.attrs[a].segments <==> g.core[a])
      && h.attrs[a].profit == (if a in g.profit then Some(g.profit[a]) else None)
      && h.attrs[a].ambiguity == Some(ai)
      && !h.attrs[a].adopted && h.attrs[a].influence == []
  {
    assert GraphGen.CoreSegment != GraphGen.PeripherySegment by {
      assert GraphGen.CoreSegment[0] != GraphGen.PeripherySegment[0];
    }
    Graph(g.topo, map a | a in g.core ::
      Attrs([if g.core[a] then GraphGen.CoreSegment else GraphGen.PeripherySegment], false, [], false, false,
            if a in g.profit then Some(g.profit[a]) else None, Some(ai)))
  }

  /** Legacy `DICorePeriphNxGenerator`: node counts and an unchecked tie count. */
  datatype Generator = Generator(numCore: nat, numPeriph: nat, pties: int)

  /** Legacy `DICorePeriphNxGenerator.__init__`: only the node counts are
      checked. */
  function NewGenerator(c: int, p: int, pties: int): (r: Result<Generator>)
    ensures r.Err? <==> c < 0 || p < 0
    ensures r.Err? ==> r.error == AssertionFailed
    ensures r.Ok? ==> r.value.numCore == c && r.value.numPeriph == p && r.value.pties == pties
  {
    if c < 0 || p < 0 then Err(AssertionFailed) else Ok(Generator(c, p, pties))
  }

  /** Legacy `DICorePeriphNxGenerator.next`. */
  function Next(gen: Generator, draw: nat -> nat): Result<LegacyGraph> {
    Generate(gen.numCore, gen.numPeriph, gen.pties, draw)
  }

  /** The tie count is checked only when a network is drawn: a generator
      built with any tie count fails at `next` exactly when `sample` has too
      few candidates, with `SampleSize`. Between the package's bound and the
      number of candidates, the legacy generator succeeds where the package's
      constructor refuses. */
  lemma TiesCheckedLate(c: nat, p: nat, pties: int, draw: nat -> nat)
    ensures NewGenerator(c, p, pties).Ok?
    ensures var r := Next(NewGenerator(c, p, pties).value, draw);
      && (r.Err? <==> pties < 0 || pties > p * c + p * (p - 1))
      && (r.Err? ==> r.error == SampleSize)
    ensures Stats.PossibleTies(c + p, c).periph < pties <= p * c + p * (p - 1) ==>
      && GraphGen.NewGenerator(c, p, pties) == Err(InfeasibleTies)
      && Next(NewGenerator(c, p, pties).value, draw).Ok?
  {
  }
}
