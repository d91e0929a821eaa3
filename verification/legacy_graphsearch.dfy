/** The earlier top-level boundary analysis. It returns the two counts
    instead of the nodes, takes the weight A_i as an argument, reads segment
    membership from the boolean `core` attribute, and never changes the
    network. Without `from __future__ import division` it divides integers as
    Python 2 does: the default proportion `1/2` is 0, and `1/N` is 0 for
    every network of two or more nodes. */
module LegacyGraphSearch {
  import opened Errors
  import opened Seqs
  import opened Network
  import opened LegacyGraphGen
  import GraphGen
  import GraphSearch

  /** Python 2 `a / b` on integers with a positive divisor: the floor of the
      quotient, which Dafny's Euclidean division agrees with when b > 0. */
  function FloorDiv(a: int, b: int): (r: int)
    requires b > 0
    ensures r * b <= a < (r + 1) * b
  {
    a / b
  }

  /** The default `proportion=1/2`, an integer division. */
  const DefaultProportion: real := FloorDiv(1, 2) as real

  /** The test "a is flagged core", the target segment. */
  function InTarget(g: LegacyGraph): Node -> bool {
    (a: Node) => a in g.core && g.core[a]
  }

  /** The test "b is flagged not core". */
  function OffTarget(g: LegacyGraph): Node -> bool {
    (b: Node) => b in g.core && !g.core[b]
  }

  /** `A`: the target nodes, in node order. */
  function Targets(g: LegacyGraph): (r: seq<Node>)
    ensures forall a :: a in r <==> a in g.topo.nodes && a in g.core && g.core[a]
  {
    Filter(g.topo.nodes, InTarget(g))
  }

  /** `len(B_a_i)`: a's neighbours outside the target segment. */
  function OutsideCount(g: LegacyGraph, a: Node): nat {
    Count(Neighbors(g.topo, a), OffTarget(g))
  }

  /** `n_b * proportion`, n_b counting the nodes outside the target segment. */
  function Bound(g: LegacyGraph, proportion: real): real {
    (|g.topo.nodes| - |Targets(g)|) as real * proportion
  }

  /** The value `1/G.number_of_nodes()` takes under integer division. It is
      evaluated only on a target node, so only when N > 0. */
  function IntegerUnit(g: LegacyGraph): real {
    if |g.topo.nodes| == 0 then 0.0 else FloorDiv(1, |g.topo.nodes|) as real
  }

  /** The same quotient under true division. */
  function TrueUnit(g: LegacyGraph): real {
    if |g.topo.nodes| == 0 then 0.0 else 1.0 / (|g.topo.nodes| as real)
  }

  /** A weakness when `1/N` evaluates to `unit`: an outside neighbour and
      I + A_i * unit > 0. */
  predicate IsWeak(g: LegacyGraph, ai: real, unit: real, a: Node) {
    OutsideCount(g, a) > 0 && a in g.profit && g.profit[a] + ai * unit > 0.0
  }

  /** A pressure point: at least `bound` outside neighbours. */
  predicate IsPressurePoint(g: LegacyGraph, bound: real, a: Node) {
    OutsideCount(g, a) as real >= bound
  }

  function WeakTest(g: LegacyGraph, ai: real, unit: real): Node -> bool {
    (a: Node) => IsWeak(g, ai, unit, a)
  }

  function PressureTest(g: LegacyGraph, bound: real): Node -> bool {
    (a: Node) => IsPressurePoint(g, bound, a)
  }

  /** `I` is read only for a node with an outside neighbour; a missing one
      raises `KeyError`. */
  predicate LacksProfit(g: LegacyGraph, a: Node) {
    OutsideCount(g, a) > 0 && a !in g.profit
  }

  /** The loop over the target nodes, counting weaknesses and pressure points. */
  function Tally(g: LegacyGraph, ai: real, unit: real, bound: real, targets: seq<Node>): (r: Result<(nat, nat)>)
    ensures r.Err? <==> exists a :: a in targets && LacksProfit(g, a)
    ensures r.Err? ==> r.error == MissingKey
  {
    if targets == [] then Ok((0, 0))
    else
      var a := targets[0];
      var outside := OutsideCount(g, a);
      if outside > 0 && a !in g.profit then assert LacksProfit(g, a); Err(MissingKey)
      else
        assert forall b :: b in targets <==> b == a || b in targets[1..];
        var rest :- Tally(g, ai, unit, bound, targets[1..]);
        var weak := if outside > 0 && g.profit[a] + ai * unit > 0.0 then 1 else 0;
        var ppoint := if outside as real >= bound then 1 else 0;
        Ok((weak + rest.0, ppoint + rest.1))
  }

  /** Legacy `findWeaknessesAndPressurePoints(G, A_i, proportion)` with the
      default target segment `'core'`: the number of boundary weaknesses and
      the number of boundary pressure points, or `KeyError`. */
  function FindWeaknessesAndPressurePoints(g: LegacyGraph, ai: real, proportion: real): (r: Result<(nat, nat)>)
    ensures r.Err? <==> exists a :: a in Targets(g) && LacksProfit(g, a)
    ensures r.Err? ==> r.error == MissingKey
  {
    Tally(g, ai, IntegerUnit(g), Bound(g, proportion), Targets(g))
  }

  /** The analysis under true division, as the package computes it. */
  function TrueDivisionCounts(g: LegacyGraph, ai: real, proportion: real): (r: Result<(nat, nat)>)
    ensures r.Err? <==> exists a :: a in Targets(g) && LacksProfit(g, a)
  {
    Tally(g, ai, TrueUnit(g), Bound(g, proportion), Targets(g))
  }

  /** The loop counts exactly the targets that pass each test. */
  lemma {:induction false} TallyCounts(g: LegacyGraph, ai: real, unit: real, bound: real, targets: seq<Node>)
    requires Tally(g, ai, unit, bound, targets).Ok?
    ensures Tally(g, ai, unit, bound, targets).value
      == (Count(targets, WeakTest(g, ai, unit)), Count(targets, PressureTest(g, bound)))
  {
    if targets != [] {
      TallyCounts(g, ai, unit, bound, targets[1..]);
    }
  }

  /** The counts are those of the target nodes that are weaknesses and of
      those that are pressure points, so neither exceeds the number of
      target nodes. */
  lemma SearchCounts(g: LegacyGraph, ai: real, proportion: real)
    requires FindWeaknessesAndPressurePoints(g, ai, proportion).Ok?
    ensures var (w, pp) := FindWeaknessesAndPressurePoints(g, ai, proportion).value;
      && w == Count(Targets(g), WeakTest(g, ai, IntegerUnit(g)))
      && pp == Count(Targets(g), PressureTest(g, Bound(g, proportion)))
      && w <= |Targets(g)| && pp <= |Targets(g)|
  {
    TallyCounts(g, ai, IntegerUnit(g), Bound(g, proportion), Targets(g));
  }

  /** With the default proportion, every target node is a pressure point. */
  lemma DefaultEveryTarget(g: LegacyGraph, ai: real)
    requires FindWeaknessesAndPressurePoints(g, ai, DefaultProportion).Ok?
    ensures FindWeaknessesAndPressurePoints(g, ai, DefaultProportion).value.1 == |Targets(g)|
  {
    assert DefaultProportion == 0.0;
    SearchCounts(g, ai, DefaultProportion);
    FilterAll(Targets(g), PressureTest(g, Bound(g, DefaultProportion)));
  }

  /** In a network of two or more nodes `1/N` is 0, so A_i plays no part: a
      target node is a weakness exactly when it has an outside neighbour and
      a positive assessed profit. */
  lemma WeakIgnoresAmbiguity(g: LegacyGraph, ai: real, a: Node)
    requires |g.topo.nodes| >= 2
    ensures IsWeak(g, ai, IntegerUnit(g), a) <==> OutsideCount(g, a) > 0 && a in g.profit && g.profit[a] > 0.0
  {
    assert FloorDiv(1, |g.topo.nodes|) == 0;
  }

  /** The package's result lists, by size. */
  function Sizes(r: Result<(GraphSearch.Boundary, Graph)>): Result<(nat, nat)> {
    if r.Err? then Err(r.error) else Ok((|r.value.0.weak|, |r.value.0.ppoints|))
  }

  /** Under true division, and with every node's `A` equal to A_i, the legacy
      counts are the lengths of the lists the package's analysis returns for
      the "core" segment, and the two fail on the same networks. */
  lemma TrueDivisionAgrees(g: LegacyGraph, ai: real, proportion: real)
    requires LegacyGraphGen.WellFormed(g)
    ensures TrueDivisionCounts(g, ai, proportion)
      == Sizes(GraphSearch.FindWeaknessesAndPressurePoints(Lift(g, ai), proportion, GraphGen.CoreSegment, false))
  {
    var h := Lift(g, ai);
    var seg := GraphGen.CoreSegment;
    var bound := Bound(g, proportion);
    FilterCongruent(g.topo.nodes, InTarget(g), Member(h, seg));
    assert InSegment(h, seg) == Targets(g);
    BoundsEqual(g, h, seg, proportion);
    forall a | a in g.topo.nodes
      ensures GraphSearch.LacksKeys(h, seg, a) <==> LacksProfit(g, a)
      ensures GraphSearch.IsWeak(h, seg, a) <==> IsWeak(g, ai, TrueUnit(g), a)
      ensures GraphSearch.IsPressurePoint(h, seg, bound, a) <==> IsPressurePoint(g, bound, a)
    {
      FilterCongruent(Neighbors(g.topo, a), OffTarget(g), Outside(h, seg));
      NodeAgrees(g, ai, h, bound, a);
    }
    var r := GraphSearch.FindWeaknessesAndPressurePoints(h, proportion, seg, false);
    if r.Ok? {
      GraphSearch.SearchFindings(h, proportion, seg, false);
      TallyCounts(g, ai, TrueUnit(g), bound, Targets(g));
      FilterCongruent(Targets(g), GraphSearch.WeakTest(h, seg), WeakTest(g, ai, TrueUnit(g)));
      FilterCongruent(Targets(g), GraphSearch.PressureTest(h, seg, bound), PressureTest(g, bound));
    }
  }

  /** One node: the package's tests on the lifted network and the legacy
      tests under true division agree. */
  lemma NodeAgrees(g: LegacyGraph, ai: real, h: Graph, bound: real, a: Node)
    requires a in h.topo.nodes && a in h.attrs && h.topo.nodes == g.topo.nodes
    requires GraphSearch.OutsideCount(h, a, GraphGen.CoreSegment) == OutsideCount(g, a)
    requires h.attrs[a].profit == (if a in g.profit then Some(g.profit[a]) else None)
    requires h.attrs[a].ambiguity == Some(ai)
    ensures GraphSearch.LacksKeys(h, GraphGen.CoreSegment, a) <==> LacksProfit(g, a)
    ensures GraphSearch.IsWeak(h, GraphGen.CoreSegment, a) <==> IsWeak(g, ai, TrueUnit(g), a)
    ensures GraphSearch.IsPressurePoint(h, GraphGen.CoreSegment, bound, a) <==> IsPressurePoint(g, bound, a)
  {
    if OutsideCount(g, a) > 0 && a in g.profit {
      ImpetusIs(g.profit[a], ai, |h.topo.nodes|, TrueUnit(g));
    }
  }

  lemma ImpetusIs(profit: real, ai: real, n: nat, u: real)
    requires n > 0 && u == 1.0 / (n as real)
    ensures GraphSearch.Impetus(profit, ai, n) == profit + ai * u
  {
  }

  /** The package's pressure bound on h is the legacy bound on g when the
      two have as many nodes and the same target nodes. */
  lemma BoundsEqual(g: LegacyGraph, h: Graph, seg: string, proportion: real)
    requires Network.WellFormed(h) && |h.topo.nodes| == |g.topo.nodes| && InSegment(h, seg) == Targets(g)
    ensures GraphSearch.PressureBound(h, seg, proportion) == Bound(g, proportion)
  {
  }
}
