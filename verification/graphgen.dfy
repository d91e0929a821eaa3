/** The core-periphery network generator: nodes 0..c-1 form a complete core,
    nodes c..c+p-1 are the periphery, and `pties` further edges are sampled
    from the candidate edges that touch the periphery. The generator object
    checks its arguments once and then produces networks on demand. */
module GraphGen {
  import opened Errors
  import opened Seqs
  import opened Network
  import opened Pairs
  import Stats
  import Sampling

  const CoreSegment: string := "core"
  const PeripherySegment: string := "periphery"

  /** The attributes of a freshly generated node after `setDefaultNodeAttrs`. */
  function NewAttrs(segment: string): (r: Attrs)
    ensures r.segments == [segment]
    ensures !r.adopted && r.influence == [] && !r.weak && !r.ppoint
    ensures r.profit.None? && r.ambiguity.None?
  {
    Attrs([segment], false, [], false, false, None, None)
  }

  /** Core nodes below c, periphery nodes from c up to n. */
  function NodeAttrs(c: nat, n: nat): (r: map<Node, Attrs>)
    ensures forall a: Node :: a in r <==> a < n
    ensures forall a :: a in r ==>
      && (CoreSegment in r[a].segments <==> a < c)
      && (PeripherySegment in r[a].segments <==> a >= c)
      && !r[a].adopted && r[a].influence == [] && !r[a].weak && !r[a].ppoint
  {
    assert CoreSegment != PeripherySegment by {
      assert CoreSegment[0] != PeripherySegment[0];
    }
    var nodes := Range(0, n);
    assert forall a: Node :: a in nodes <==> a < n;
    map a | a in nodes :: NewAttrs(if a < c then CoreSegment else PeripherySegment)
  }

  /** The edges of the complete core, `combinations(coreNodes, 2)`. */
  function CoreEdges(c: nat): (r: seq<Edge>)
    ensures forall e :: e in r <==> e.0 < e.1 < c
  {
    CombinationsOfRange(0, c);
    Combinations2(Range(0, c))
  }

  /** `allPotentialEdges`: every periphery-core pair, then every ordered pair
      of distinct periphery nodes. */
  function Candidates(c: nat, p: nat): (r: seq<Edge>)
    ensures forall e :: e in r <==> c <= e.0 < c + p && e.1 < c + p && e.0 != e.1
  {
    DissimilarProduct(Range(c, c + p), Range(0, c)) + DissimilarProduct(Range(c, c + p), Range(c, c + p))
  }

  /** There are p*c + p(p-1) candidates: each unordered periphery pair twice. */
  lemma CandidatesLength(c: nat, p: nat)
    ensures |Candidates(c, p)| == p * c + p * (p - 1)
  {
    DisjointProductLength(Range(c, c + p), Range(0, c));
    RangeDistinct(c, c + p);
    SelfProductLength(Range(c, c + p));
  }

  /** No candidate is a self-loop or joins two core nodes. */
  lemma CandidatesTouchPeriphery(c: nat, p: nat)
    ensures forall e :: e in Candidates(c, p) ==> e.0 != e.1 && (e.0 >= c || e.1 >= c)
  {
  }

  /** The sampled edges are all candidates. */
  predicate FromCandidates(c: nat, p: nat, sample: seq<Edge>) {
    forall i :: 0 <= i < |sample| ==> sample[i] in Candidates(c, p)
  }

  /** The network built from the complete core and a sample of candidates. */
  function Assemble(c: nat, p: nat, sample: seq<Edge>): (g: Graph)
    requires FromCandidates(c, p, sample)
    ensures WellFormed(g) && g.topo.nodes == Range(0, c + p)
    ensures |g.topo.edges| == Stats.PairCount(c) + |sample|
  {
    RangeDistinct(0, c + p);
    CombinationsCount(Range(0, c));
    var g := Graph(Topology(Range(0, c + p), CoreEdges(c) + sample), NodeAttrs(c, c + p));
    forall i | 0 <= i < |g.topo.edges|
      ensures g.topo.edges[i].0 in g.topo.nodes && g.topo.edges[i].1 in g.topo.nodes
    {
      if i < |CoreEdges(c)| {
        assert g.topo.edges[i] in CoreEdges(c);
      } else {
        assert g.topo.edges[i] == sample[i - |CoreEdges(c)|];
      }
    }
    g
  }

  /** `generateARCorePeriph(c, p, pties)`: the assertion on the node counts,
      then `random.sample` of pties candidates, which raises for a pties
      outside 0..|candidates|. */
  function Generate(c: int, p: int, pties: int, draw: nat -> nat): (r: Result<Graph>)
    ensures r.Err? <==> c < 0 || p < 0 || pties < 0 || pties > p * c + p * (p - 1)
    ensures r.Err? ==> r.error == if c < 0 || p < 0 then AssertionFailed else SampleSize
    ensures r.Ok? ==> WellFormed(r.value) && r.value.topo.nodes == Range(0, c + p)
    ensures r.Ok? ==> |r.value.topo.edges| == Stats.PairCount(c) + pties
  {
    if c < 0 || p < 0 then Err(AssertionFailed)
    else
      CandidatesLength(c, p);
      var s := Sampling.Sample(Candidates(c, p), pties, draw);
      if s.Err? then Err(s.error)
      else
        SampleFromCandidates(c, p, pties, draw);
        Ok(Assemble(c, p, s.value))
  }

  /** Every sampled edge is a candidate. */
  lemma SampleFromCandidates(c: nat, p: nat, pties: int, draw: nat -> nat)
    requires Sampling.Sample(Candidates(c, p), pties, draw).Ok?
    ensures FromCandidates(c, p, Sampling.Sample(Candidates(c, p), pties, draw).value)
  {
    var s := Sampling.Sample(Candidates(c, p), pties, draw).value;
    forall i | 0 <= i < |s| ensures s[i] in Candidates(c, p) {
      assert s[i] in multiset(s);
    }
  }

  /** The sample behind a generated network. */
  lemma GeneratedFrom(c: int, p: int, pties: int, draw: nat -> nat) returns (s: seq<Edge>)
    requires Generate(c, p, pties, draw).Ok?
    ensures c >= 0 && p >= 0 && FromCandidates(c, p, s) && |s| == pties
    ensures Sampling.Sample(Candidates(c, p), pties, draw) == Ok(s)
    ensures Generate(c, p, pties, draw).value == Assemble(c, p, s)
  {
    s := Sampling.Sample(Candidates(c, p), pties, draw).value;
    SampleFromCandidates(c, p, pties, draw);
  }

  /** The core is complete, and no edge is a self-loop. */
  lemma AssembleCoreComplete(c: nat, p: nat, sample: seq<Edge>)
    requires FromCandidates(c, p, sample)
    ensures var t := Assemble(c, p, sample).topo;
      && (forall a: Node, b: Node :: a < b < c ==> Adjacent(t, a, b))
      && (forall i :: 0 <= i < |t.edges| ==> t.edges[i].0 != t.edges[i].1)
  {
    var t := Assemble(c, p, sample).topo;
    forall i | 0 <= i < |t.edges| ensures t.edges[i].0 != t.edges[i].1 {
      if i < |CoreEdges(c)| {
        assert t.edges[i] in CoreEdges(c);
      } else {
        assert t.edges[i] == sample[i - |CoreEdges(c)|];
      }
    }
  }

  /** Nodes below c carry the single segment "core", the others "periphery",
      and every node has the default flags. */
  lemma AssembleSegments(c: nat, p: nat, sample: seq<Edge>)
    requires FromCandidates(c, p, sample)
    ensures var g := Assemble(c, p, sample);
      && InSegment(g, CoreSegment) == Range(0, c)
      && InSegment(g, PeripherySegment) == Range(c, c + p)
      && forall a :: a in g.topo.nodes ==>
           !g.attrs[a].adopted && g.attrs[a].influence == [] && !g.attrs[a].weak && !g.attrs[a].ppoint
  {
    var g := Assemble(c, p, sample);
    CoreMembers(c, c + p, g);
    PeripheryMembers(c, c + p, g);
  }

  lemma CoreMembers(c: nat, n: nat, g: Graph)
    requires WellFormed(g) && c <= n && g.topo.nodes == Range(0, n) && g.attrs == NodeAttrs(c, n)
    ensures InSegment(g, CoreSegment) == Range(0, c)
  {
    FilterRangeSplit(0, c, n, Member(g, CoreSegment));
  }

  lemma PeripheryMembers(c: nat, n: nat, g: Graph)
    requires WellFormed(g) && c <= n && g.topo.nodes == Range(0, n) && g.attrs == NodeAttrs(c, n)
    ensures InSegment(g, PeripherySegment) == Range(c, n)
  {
    FilterRangeSplitAbove(0, c, n, Member(g, PeripherySegment));
  }

  /** Exactly the sampled edges touch a periphery node. */
  lemma AssemblePeripheralEdges(c: nat, p: nat, sample: seq<Edge>)
    requires FromCandidates(c, p, sample)
    ensures var g := Assemble(c, p, sample);
      IncidentEdgeCount(g.topo, set a | a in InSegment(g, PeripherySegment)) == |sample|
  {
    var g := Assemble(c, p, sample);
    PeripheralEdgesOf(c, p, sample, g);
  }

  lemma PeripheralEdgesOf(c: nat, p: nat, sample: seq<Edge>, g: Graph)
    requires FromCandidates(c, p, sample)
    requires WellFormed(g) && g.topo.nodes == Range(0, c + p) && g.attrs == NodeAttrs(c, c + p)
    requires g.topo.edges == CoreEdges(c) + sample
    ensures IncidentEdgeCount(g.topo, set a | a in InSegment(g, PeripherySegment)) == |sample|
  {
    PeripheryMembers(c, c + p, g);
    var periph := set a | a in InSegment(g, PeripherySegment);
    CountTouching(c, p, CoreEdges(c), sample, periph);
  }

  lemma CountTouching(c: nat, p: nat, core: seq<Edge>, sample: seq<Edge>, periph: set<Node>)
    requires forall e :: e in core ==> e.0 < e.1 < c
    requires FromCandidates(c, p, sample)
    requires forall a :: a in periph <==> c <= a < c + p
    ensures Count(core + sample, Touches(periph)) == |sample|
  {
    FilterAppend(core, sample, Touches(periph));
    forall i | 0 <= i < |core| ensures !Touches(periph)(core[i]) {
      assert core[i] in core;
    }
    FilterNone(core, Touches(periph));
    FilterAll(sample, Touches(periph));
  }

  /** A generated network: complete core, segments and default flags as
      `setDefaultNodeAttrs` leaves them, and exactly pties edges touching the
      periphery. */
  lemma GenerateShape(c: int, p: int, pties: int, draw: nat -> nat)
    requires Generate(c, p, pties, draw).Ok?
    ensures var g := Generate(c, p, pties, draw).value;
      && (forall a: Node, b: Node :: a < b < c ==> Adjacent(g.topo, a, b))
      && InSegment(g, CoreSegment) == Range(0, c)
      && InSegment(g, PeripherySegment) == Range(c, c + p)
      && IncidentEdgeCount(g.topo, set a | a in InSegment(g, PeripherySegment)) == pties
  {
    var s := GeneratedFrom(c, p, pties, draw);
    AssembleCoreComplete(c, p, s);
    AssembleSegments(c, p, s);
    AssemblePeripheralEdges(c, p, s);
  }

  /** `DICorePeriphNxGenerator`: the node counts and the tie count it was
      built with. */
  datatype Generator = Generator(numCore: nat, numPeriph: nat, pties: nat)

  /** The constructor's checks: no negative argument, and no more ties than
      `possibleTies` allows beyond the core. */
  predicate Feasible(gen: Generator) {
    gen.pties <= Stats.PossibleTies(gen.numCore + gen.numPeriph, gen.numCore).periph
  }

  /** `DICorePeriphNxGenerator.__init__`. */
  function NewGenerator(c: int, p: int, pties: int): (r: Result<Generator>)
    ensures r.Err? <==> c < 0 || p < 0 || pties < 0 || pties > Stats.PossibleTies(c + p, c).periph
    ensures r.Err? ==> r.error == if c < 0 || p < 0 || pties < 0 then AssertionFailed else InfeasibleTies
    ensures r.Ok? ==> r.value == Generator(c, p, pties) && Feasible(r.value)
  {
    if c < 0 || p < 0 || pties < 0 then Err(AssertionFailed)
    else if pties > Stats.PossibleTies(c + p, c).periph then Err(InfeasibleTies)
    else Ok(Generator(c, p, pties))
  }

  /** `DICorePeriphNxGenerator.next`. */
  function Next(gen: Generator, draw: nat -> nat): Result<Graph> {
    Generate(gen.numCore, gen.numPeriph, gen.pties, draw)
  }

  /** A generator that passed its checks never fails to produce a network:
      the guard's bound p*c + p(p-1)/2 is within the p*c + p(p-1) candidates. */
  lemma FeasibleNextSucceeds(gen: Generator, draw: nat -> nat)
    requires Feasible(gen)
    ensures Next(gen, draw).Ok?
    ensures |Next(gen, draw).value.topo.edges| <= Stats.PossibleTies(gen.numCore + gen.numPeriph, gen.numCore).total
  {
    var c: int, p: int := gen.numCore, gen.numPeriph;
    var t := Stats.PossibleTies(c + p, c);
    FeasibleWithinCandidates(c, p, gen.pties);
    assert |Next(gen, draw).value.topo.edges| == t.core + gen.pties;
  }

  /** Every tie count the constructor's guard accepts can be sampled from the
      candidates: p*c + p(p-1)/2 <= p*c + p(p-1). */
  lemma FeasibleWithinCandidates(c: nat, p: nat, pties: int)
    requires pties <= Stats.PossibleTies(c + p, c).periph
    ensures pties <= p * c + p * (p - 1)
  {
    Stats.PeripheralTiesSplit(c, p);
    assert Stats.PairCount(p) <= p * (p - 1);
  }

  /** The constructor's boundary cases: any negative argument fails, as does
      asking for ties with too few nodes or one tie beyond the maximum, while
      zero ties and exactly the maximum are accepted. */
  lemma GeneratorBoundaries(c: nat, p: nat)
    ensures NewGenerator(-1, 10, 10).Err? && NewGenerator(10, -1, 10).Err? && NewGenerator(10, 10, -1).Err?
    ensures NewGenerator(0, 0, 1).Err? && NewGenerator(1, 0, 1).Err? && NewGenerator(0, 1, 1).Err?
    ensures NewGenerator(0, 1, 10).Err? && NewGenerator(1, 0, 10).Err?
    ensures NewGenerator(0, 0, 0).Ok? && NewGenerator(1, 0, 0).Ok? && NewGenerator(0, 1, 0).Ok?
    ensures NewGenerator(c, p, 0).Ok?
    ensures var max := Stats.PossibleTies(c + p, c).periph;
      NewGenerator(c, p, max).Ok? && NewGenerator(c, p, max + 1).Err?
  {
    Stats.PeripheralTiesSplit(c, p);
    assert Stats.PossibleTies(1, 1).periph == 0;
    assert Stats.PossibleTies(1, 0).periph == 0;
  }

  /** Two edges join the same pair of nodes. */
  predicate SameEnds(e: Edge, f: Edge) {
    e == f || (e.1, e.0) == f
  }

  /** No two edges join the same pair of nodes: a simple graph's edge list. */
  predicate NoParallelEdges(es: seq<Edge>) {
    forall i, j :: 0 <= i < j < |es| ==> !SameEnds(es[i], es[j])
  }

  /** The as-written candidates hold each periphery pair in both orientations,
      so a sample may join the same two nodes twice while leaving another pair
      unjoined, even at the tie count the constructor allows as the maximum:
      one core node, two periphery nodes and three ties. */
  lemma ParallelEdgesAsWritten()
    ensures var g := Generate(1, 2, 3, ExampleDraw);
      && NewGenerator(1, 2, 3).Ok?
      && g.Ok? && g.value.topo.edges == [(2, 1), (1, 2), (2, 0)]
      && !NoParallelEdges(g.value.topo.edges)
      && !Adjacent(g.value.topo, 0, 1)
  {
    assert Stats.PossibleTies(3, 1).periph == 3;
    ExampleGenerate();
    ExampleTopology(Generate(1, 2, 3, ExampleDraw).value.topo);
  }

  lemma ExampleTopology(t: Topology)
    requires t.edges == [(2, 1), (1, 2), (2, 0)]
    ensures !NoParallelEdges(t.edges) && !Adjacent(t, 0, 1)
  {
    assert SameEnds(t.edges[0], t.edges[1]);
  }

  lemma ExampleGenerate()
    ensures Generate(1, 2, 3, ExampleDraw).Ok?
    ensures Generate(1, 2, 3, ExampleDraw).value.topo.edges == [(2, 1), (1, 2), (2, 0)]
  {
    assert 3 <= 2 * 1 + 2 * (2 - 1);
    var s := GeneratedFrom(1, 2, 3, ExampleDraw);
    ExampleSample();
    assert CoreEdges(1) == [] by {
      assert Range(0, 1) == [0];
      assert Combinations2([0]) == Row(0, []) + Combinations2([]);
    }
    assert Assemble(1, 2, s).topo.edges == CoreEdges(1) + s;
  }

  /** The pool algorithm takes the last slot three times. */
  lemma ExampleSample()
    ensures Sampling.Sample(Candidates(1, 2), 3, ExampleDraw) == Ok([(2, 1), (1, 2), (2, 0)])
  {
    ExampleCandidates();
    ExampleSampleOf(Candidates(1, 2));
  }

  lemma ExampleSampleOf(cands: seq<Edge>)
    requires |cands| == 4 && cands[3] == (2, 1) && cands[2] == (1, 2) && cands[1] == (2, 0)
    ensures Sampling.Sample(cands, 3, ExampleDraw) == Ok([(2, 1), (1, 2), (2, 0)])
  {
    ExamplePicks(cands);
    var s := Sampling.SamplePool(cands, 3, 0, ExampleDraw);
    assert s == [(2, 1), (1, 2), (2, 0)];
  }

  lemma ExamplePicks(cands: seq<Edge>)
    requires |cands| == 4
    ensures var s := Sampling.SamplePool(cands, 3, 0, ExampleDraw);
      |s| == 3 && s[0] == cands[3] && s[1] == cands[2] && s[2] == cands[1]
  {
    assert forall t :: 0 <= t < 3 ==> ExampleDraw(t) == 3 - t;
    Sampling.SampleFromEnd(cands, 3, 0, ExampleDraw);
  }

  /** The raw draws of the example: each `random()` call picks the last slot
      of the pool, which then simply shrinks. */
  function ExampleDraw(i: nat): nat {
    if i <= 3 then 3 - i else 0
  }

  /** The four candidates for one core and two periphery nodes. */
  lemma ExampleCandidates()
    ensures Candidates(1, 2) == [(1, 0), (2, 0), (1, 2), (2, 1)]
  {
    assert Range(0, 1) == [0];
    assert Range(1, 3) == [1, 2];
    ExampleCoreRows();
    ExamplePeripheryRows();
  }

  lemma ExampleCoreRows()
    ensures DissimilarProduct([1, 2], [0]) == [(1, 0), (2, 0)]
  {
    DisjointProductLength([1, 2], [0]);
    ExampleProduct(0, 0);
  }

  lemma ExamplePeripheryRows()
    ensures DissimilarProduct([1, 2], [1, 2]) == [(1, 2), (2, 1)]
  {
    ExampleProduct(1, 2);
    ExampleFilter();
  }

  /** Two rows of a product. */
  lemma ExampleProduct(y: nat, z: nat)
    ensures Product([1, 2], if y == z then [y] else [y, z]) ==
      Row(1, if y == z then [y] else [y, z]) + Row(2, if y == z then [y] else [y, z])
  {
    var ys := if y == z then [y] else [y, z];
    assert Product([2], ys) == Row(2, ys) + Product([], ys);
  }

  lemma ExampleFilter()
    ensures Filter(Row(1, [1, 2]) + Row(2, [1, 2]), NotLoop) == [(1, 2), (2, 1)]
    ensures Row(1, [0]) + Row(2, [0]) == [(1, 0), (2, 0)]
  {
    var a: seq<Pair> := [(1, 1)];
    var b: seq<Pair> := [(1, 2)];
    var c: seq<Pair> := [(2, 1)];
    var d: seq<Pair> := [(2, 2)];
    assert Row(1, [1, 2]) + Row(2, [1, 2]) == a + (b + (c + d));
    FilterAppend(a, b + (c + d), NotLoop);
    FilterAppend(b, c + d, NotLoop);
    FilterAppend(c, d, NotLoop);
  }

  /** The evidently intended candidates: every periphery-core pair, then each
      unordered pair of periphery nodes once. */
  function UnorderedCandidates(c: nat, p: nat): (r: seq<Edge>)
    ensures forall e :: e in r <==> (c <= e.0 < c + p && e.1 < c) || (c <= e.0 < e.1 < c + p)
  {
    CombinationsOfRange(c, c + p);
    DissimilarProduct(Range(c, c + p), Range(0, c)) + Combinations2(Range(c, c + p))
  }

  /** There are exactly as many as `possibleTies` counts beyond the core, each
      a different pair of nodes. */
  lemma UnorderedCandidatesShape(c: nat, p: nat)
    ensures |UnorderedCandidates(c, p)| == Stats.PossibleTies(c + p, c).periph
    ensures Distinct(UnorderedCandidates(c, p))
    ensures forall e :: e in UnorderedCandidates(c, p) ==> (e.1, e.0) !in UnorderedCandidates(c, p)
  {
    UnorderedCandidatesLength(c, p);
    UnorderedCandidatesDistinct(c, p);
  }

  lemma UnorderedCandidatesLength(c: nat, p: nat)
    ensures |UnorderedCandidates(c, p)| == Stats.PossibleTies(c + p, c).periph
  {
    DisjointProductLength(Range(c, c + p), Range(0, c));
    CombinationsCount(Range(c, c + p));
    Stats.PeripheralTiesSplit(c, p);
  }

  lemma UnorderedCandidatesDistinct(c: nat, p: nat)
    ensures Distinct(UnorderedCandidates(c, p))
  {
    var pc := DissimilarProduct(Range(c, c + p), Range(0, c));
    var pp := Combinations2(Range(c, c + p));
    PeripheryCoreDistinct(c, p);
    RangeDistinct(c, c + p);
    CombinationsNoReversal(Range(c, c + p));
    PeripheryPairsApart(c, p, pc, pp);
    DistinctConcat(pc, pp);
  }

  lemma PeripheryPairsApart(c: nat, p: nat, pc: seq<Edge>, pp: seq<Edge>)
    requires pc == DissimilarProduct(Range(c, c + p), Range(0, c))
    requires pp == Combinations2(Range(c, c + p))
    ensures forall e :: e in pc ==> e !in pp
  {
    CombinationsIncrease(c, c + p);
    PeripheryCorePoints(c, p);
    OrderedApart(pc, pp, c);
  }

  lemma CombinationsIncrease(lo: nat, hi: nat)
    ensures forall e :: e in Combinations2(Range(lo, hi)) ==> e.0 < e.1
  {
    CombinationsOfRange(lo, hi);
  }

  lemma PeripheryCorePoints(c: nat, p: nat)
    ensures forall e :: e in DissimilarProduct(Range(c, c + p), Range(0, c)) ==> e.1 < c <= e.0
  {
  }

  /** Pairs pointing below c from c or above share none with increasing pairs. */
  lemma OrderedApart(pc: seq<Edge>, pp: seq<Edge>, c: nat)
    requires forall e :: e in pc ==> e.1 < c <= e.0
    requires forall e :: e in pp ==> e.0 < e.1
    ensures forall e :: e in pc ==> e !in pp
  {
  }

  lemma PeripheryCoreDistinct(c: nat, p: nat)
    ensures Distinct(DissimilarProduct(Range(c, c + p), Range(0, c)))
  {
    RangeDistinct(c, c + p);
    RangeDistinct(0, c);
    ProductDistinct(Range(c, c + p), Range(0, c));
    FilterDistinct(Product(Range(c, c + p), Range(0, c)), NotLoop);
  }

  /** A sample of pairwise different pairs, none the reverse of another, has
      no parallel edges. */
  lemma NoParallelFromPool(es: seq<Edge>, pool: seq<Edge>)
    requires Distinct(es) && forall i :: 0 <= i < |es| ==> es[i] in pool
    requires forall e :: e in pool ==> (e.1, e.0) !in pool
    ensures NoParallelEdges(es)
  {
    forall i, j | 0 <= i < j < |es| ensures !SameEnds(es[i], es[j]) {
      assert es[i] in pool && es[j] in pool;
    }
  }

  /** Two edge lists with no parallel edges and no pair in common concatenate
      to one without parallel edges. */
  lemma NoParallelConcat(a: seq<Edge>, b: seq<Edge>)
    requires NoParallelEdges(a) && NoParallelEdges(b)
    requires forall e, j :: e in a && 0 <= j < |b| ==> !SameEnds(e, b[j])
    ensures NoParallelEdges(a + b)
  {
    forall i, j | 0 <= i < j < |a + b| ensures !SameEnds((a + b)[i], (a + b)[j]) {
      if j < |a| {
        assert (a + b)[i] == a[i] && (a + b)[j] == a[j];
      } else if i < |a| {
        assert (a + b)[i] in a && (a + b)[j] == b[j - |a|];
      } else {
        assert (a + b)[i] == b[i - |a|] && (a + b)[j] == b[j - |a|];
      }
    }
  }

  /** `generateARCorePeriph` as evidently intended: the same construction,
      sampling from the unordered candidates. */
  function GenerateUnordered(c: int, p: int, pties: int, draw: nat -> nat): (r: Result<Graph>)
    ensures r.Err? <==> c < 0 || p < 0 || pties < 0 || pties > Stats.PossibleTies(c + p, c).periph
    ensures r.Err? ==> r.error == if c < 0 || p < 0 then AssertionFailed else SampleSize
    ensures r.Ok? ==> WellFormed(r.value) && r.value.topo.nodes == Range(0, c + p)
    ensures r.Ok? ==> |r.value.topo.edges| == Stats.PairCount(c) + pties
  {
    if c < 0 || p < 0 then Err(AssertionFailed)
    else
      UnorderedCandidatesShape(c, p);
      var s := Sampling.Sample(UnorderedCandidates(c, p), pties, draw);
      if s.Err? then Err(s.error)
      else
        UnorderedSampleFromCandidates(c, p, pties, draw);
        Ok(Assemble(c, p, s.value))
  }

  /** Unordered candidates are candidates of the as-written generator too. */
  lemma UnorderedSampleFromCandidates(c: nat, p: nat, pties: int, draw: nat -> nat)
    requires Sampling.Sample(UnorderedCandidates(c, p), pties, draw).Ok?
    ensures var s := Sampling.Sample(UnorderedCandidates(c, p), pties, draw).value;
      && FromCandidates(c, p, s)
      && forall i :: 0 <= i < |s| ==> s[i] in UnorderedCandidates(c, p)
  {
    var s := Sampling.Sample(UnorderedCandidates(c, p), pties, draw).value;
    forall i | 0 <= i < |s| ensures s[i] in UnorderedCandidates(c, p) && s[i] in Candidates(c, p) {
      assert s[i] in multiset(s);
    }
  }

  /** The sample behind a network from the intended generator. */
  lemma UnorderedGeneratedFrom(c: int, p: int, pties: int, draw: nat -> nat) returns (s: seq<Edge>)
    requires GenerateUnordered(c, p, pties, draw).Ok?
    ensures c >= 0 && p >= 0 && |s| == pties && FromCandidates(c, p, s) && Distinct(s)
    ensures forall i :: 0 <= i < |s| ==> s[i] in UnorderedCandidates(c, p)
    ensures pties == Stats.PossibleTies(c + p, c).periph ==>
      forall e :: e in UnorderedCandidates(c, p) ==> e in s
    ensures GenerateUnordered(c, p, pties, draw).value == Assemble(c, p, s)
  {
    var cands := UnorderedCandidates(c, p);
    s := Sampling.Sample(cands, pties, draw).value;
    UnorderedCandidatesShape(c, p);
    UnorderedSampleFromCandidates(c, p, pties, draw);
    Sampling.SampleDistinct(cands, pties, draw);
    if pties == Stats.PossibleTies(c + p, c).periph {
      Sampling.FullSampleTakesAll(cands, draw);
      forall e | e in cands ensures e in s {
        assert e in multiset(cands);
      }
    }
  }

  /** The complete core plus distinct unordered candidates has no parallel edges. */
  lemma AssembleNoParallel(c: nat, p: nat, s: seq<Edge>)
    requires FromCandidates(c, p, s) && Distinct(s)
    requires forall i :: 0 <= i < |s| ==> s[i] in UnorderedCandidates(c, p)
    ensures NoParallelEdges(Assemble(c, p, s).topo.edges)
  {
    UnorderedCandidatesShape(c, p);
    NoParallelFromPool(s, UnorderedCandidates(c, p));
    CoreNoParallel(c);
    CoreApartFromSample(c, p, s);
    NoParallelConcat(CoreEdges(c), s);
    assert Assemble(c, p, s).topo.edges == CoreEdges(c) + s;
  }

  lemma CoreNoParallel(c: nat)
    ensures NoParallelEdges(CoreEdges(c))
  {
    RangeDistinct(0, c);
    CombinationsNoReversal(Range(0, c));
    NoParallelFromPool(CoreEdges(c), CoreEdges(c));
  }

  /** A core edge and a sampled edge never join the same pair. */
  lemma CoreApartFromSample(c: nat, p: nat, s: seq<Edge>)
    requires FromCandidates(c, p, s)
    ensures forall e, j :: e in CoreEdges(c) && 0 <= j < |s| ==> !SameEnds(e, s[j])
  {
    forall e, j | e in CoreEdges(c) && 0 <= j < |s| ensures !SameEnds(e, s[j]) {
      assert s[j] in Candidates(c, p);
    }
  }

  /** With every unordered candidate sampled, every two nodes are adjacent. */
  lemma AssembleComplete(c: nat, p: nat, s: seq<Edge>)
    requires FromCandidates(c, p, s)
    requires forall e :: e in UnorderedCandidates(c, p) ==> e in s
    ensures forall a: Node, b: Node :: a < b < c + p ==> Adjacent(Assemble(c, p, s).topo, a, b)
  {
    var t := Assemble(c, p, s).topo;
    assert t.edges == CoreEdges(c) + s;
    forall a: Node, b: Node | a < b < c + p ensures Adjacent(t, a, b) {
      var e := if b < c then (a, b) else if a < c then (b, a) else (a, b);
      CoveredPair(c, p, s, a, b);
      ConcatMember(CoreEdges(c), s, e);
    }
  }

  lemma CoveredPair(c: nat, p: nat, s: seq<Edge>, a: Node, b: Node)
    requires forall e :: e in UnorderedCandidates(c, p) ==> e in s
    requires a < b < c + p
    ensures var e := if b < c then (a, b) else if a < c then (b, a) else (a, b);
      e in CoreEdges(c) || e in s
  {
  }

  lemma ConcatMember<T>(x: seq<T>, y: seq<T>, e: T)
    requires e in x || e in y
    ensures e in x + y
  {
  }

  /** The intended generator accepts exactly what the constructor accepts,
      never joins two nodes twice, and at the maximum tie count yields the
      complete network. */
  lemma GenerateUnorderedSimple(c: int, p: int, pties: int, draw: nat -> nat)
    ensures NewGenerator(c, p, pties).Ok? <==> GenerateUnordered(c, p, pties, draw).Ok?
    ensures GenerateUnordered(c, p, pties, draw).Ok? ==>
      NoParallelEdges(GenerateUnordered(c, p, pties, draw).value.topo.edges)
    ensures GenerateUnordered(c, p, pties, draw).Ok? && pties == Stats.PossibleTies(c + p, c).periph ==>
      forall a: Node, b: Node :: a < b < c + p ==> Adjacent(GenerateUnordered(c, p, pties, draw).value.topo, a, b)
  {
    if GenerateUnordered(c, p, pties, draw).Ok? {
      var s := UnorderedGeneratedFrom(c, p, pties, draw);
      AssembleNoParallel(c, p, s);
      if pties == Stats.PossibleTies(c + p, c).periph {
        AssembleComplete(c, p, s);
      }
    }
  }
}
