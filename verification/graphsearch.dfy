/** Boundary analysis after Abrahamson and Rosenkopf (1997): the boundary
    weaknesses and boundary pressure points of one target segment, and the
    graph filters that keep only networks with enough of them. */
module GraphSearch {
  import opened Errors
  import opened Seqs
  import opened Network
  import GraphGen

  /** The two lists `findWeaknessesAndPressurePoints` returns. */
  datatype Boundary = Boundary(weak: seq<Node>, ppoints: seq<Node>)

  /** `len(B_a_i)`: how many neighbours of a lie outside the target segment. */
  function OutsideCount(g: Graph, a: Node, segment: string): nat {
    |OutsideNeighbors(g, a, segment)|
  }

  /** `Bc_ik = I + A * (1/N)`: a's readiness to adopt after one adoption
      among the N nodes. */
  function Impetus(profit: real, ambiguity: real, n: nat): real
    requires n > 0
  {
    profit + ambiguity * (1.0 / (n as real))
  }

  /** The source reads `I` and `A` of a target node only when the node has an
      outside neighbour; a missing one raises `KeyError`. */
  predicate LacksKeys(g: Graph, segment: string, a: Node) {
    && a in g.attrs
    && OutsideCount(g, a, segment) > 0
    && (g.attrs[a].profit.None? || g.attrs[a].ambiguity.None?)
  }

  /** A boundary weakness: a has a tie across the boundary, and a single
      adoption would push it over its threshold. */
  predicate IsWeak(g: Graph, segment: string, a: Node) {
    && a in g.topo.nodes && a in g.attrs
    && OutsideCount(g, a, segment) > 0
    && g.attrs[a].profit.Some? && g.attrs[a].ambiguity.Some?
    && Impetus(g.attrs[a].profit.value, g.attrs[a].ambiguity.value, |g.topo.nodes|) > 0.0
  }

  /** A boundary pressure point: at least `bound` ties across the boundary. */
  predicate IsPressurePoint(g: Graph, segment: string, bound: real, a: Node) {
    OutsideCount(g, a, segment) as real >= bound
  }

  function WeakTest(g: Graph, segment: string): Node -> bool {
    (a: Node) => IsWeak(g, segment, a)
  }

  function PressureTest(g: Graph, segment: string, bound: real): Node -> bool {
    (a: Node) => IsPressurePoint(g, segment, bound, a)
  }

  /** `n_b * proportion`, where n_b counts the nodes outside the segment. */
  function PressureBound(g: Graph, segment: string, proportion: real): real
    requires WellFormed(g)
  {
    (|g.topo.nodes| - |InSegment(g, segment)|) as real * proportion
  }

  /** One pass of the loop body on target node a: whether a is a weakness
      and whether it is a pressure point. */
  function Judge(g: Graph, segment: string, bound: real, a: Node): (r: Result<(bool, bool)>)
    requires a in g.topo.nodes && a in g.attrs
    ensures r.Err? <==> LacksKeys(g, segment, a)
    ensures r.Err? ==> r.error == MissingKey
    ensures r.Ok? ==> r.value == (IsWeak(g, segment, a), IsPressurePoint(g, segment, bound, a))
  {
    var outside := OutsideCount(g, a, segment);
    var at := g.attrs[a];
    if outside > 0 && (at.profit.None? || at.ambiguity.None?) then Err(MissingKey)
    else
      var weak := outside > 0 && Impetus(at.profit.value, at.ambiguity.value, |g.topo.nodes|) > 0.0;
      Ok((weak, outside as real >= bound))
  }

  /** The loop over the target nodes in order: the nodes found, or
      `MissingKey` once a node lacks the `I` or `A` it needs. */
  function Scan(g: Graph, segment: string, bound: real, targets: seq<Node>): (r: Result<Boundary>)
    requires forall i :: 0 <= i < |targets| ==> targets[i] in g.topo.nodes && targets[i] in g.attrs
    ensures r.Err? <==> exists a :: a in targets && LacksKeys(g, segment, a)
    ensures r.Err? ==> r.error == MissingKey
  {
    if targets == [] then Ok(Boundary([], []))
    else
      var v :- Judge(g, segment, bound, targets[0]);
      assert forall a :: a in targets <==> a == targets[0] || a in targets[1..];
      var rest :- Scan(g, segment, bound, targets[1..]);
      Ok(Boundary(
        (if v.0 then [targets[0]] else []) + rest.weak,
        (if v.1 then [targets[0]] else []) + rest.ppoints))
  }

  /** `findWeaknessesAndPressurePoints(G, proportion, targetSegment,
      addGraphAttrs)`: the boundary of the target segment, and the graph,
      marked when `addGraphAttrs` holds. */
  function FindWeaknessesAndPressurePoints(g: Graph, proportion: real, segment: string, addGraphAttrs: bool)
    : (r: Result<(Boundary, Graph)>)
    requires WellFormed(g)
    ensures r.Err? <==> exists a :: a in InSegment(g, segment) && LacksKeys(g, segment, a)
    ensures r.Err? ==> r.error == MissingKey
    ensures r.Ok? && !addGraphAttrs ==> r.value.1 == g
    ensures r.Ok? && addGraphAttrs ==> var (b, h) := r.value;
      && h.topo == g.topo && h.attrs.Keys == g.attrs.Keys
      && forall a :: a in g.attrs ==>
           && h.attrs[a].weak == (g.attrs[a].weak || a in b.weak)
           && h.attrs[a].ppoint == (g.attrs[a].ppoint || a in b.ppoints)
           && h.attrs[a].(weak := g.attrs[a].weak, ppoint := g.attrs[a].ppoint) == g.attrs[a]
  {
    var targets := InSegment(g, segment);
    var found := Scan(g, segment, PressureBound(g, segment, proportion), targets);
    if found.Err? then Err(found.error)
    else Ok((found.value, if addGraphAttrs then Mark(g, found.value) else g))
  }

  /** The attribute update: `weak` set on the weaknesses, `ppoint` on the
      pressure points. */
  function Mark(g: Graph, b: Boundary): Graph {
    g.(attrs := map a | a in g.attrs ::
      g.attrs[a].(weak := g.attrs[a].weak || a in b.weak, ppoint := g.attrs[a].ppoint || a in b.ppoints))
  }

  /** The loop keeps, in order, exactly the target nodes that are weaknesses
      and exactly those that are pressure points. */
  lemma {:induction false} ScanFindings(g: Graph, segment: string, bound: real, targets: seq<Node>)
    requires forall i :: 0 <= i < |targets| ==> targets[i] in g.topo.nodes && targets[i] in g.attrs
    requires Scan(g, segment, bound, targets).Ok?
    ensures Scan(g, segment, bound, targets).value.weak == Filter(targets, WeakTest(g, segment))
    ensures Scan(g, segment, bound, targets).value.ppoints == Filter(targets, PressureTest(g, segment, bound))
  {
    if targets != [] {
      var rest := ScanStep(g, segment, bound, targets);
      ScanFindings(g, segment, bound, targets[1..]);
    }
  }

  /** One iteration of the loop: the first target node's verdicts in front of
      the rest of the findings. */
  lemma ScanStep(g: Graph, segment: string, bound: real, targets: seq<Node>) returns (rest: Boundary)
    requires targets != []
    requires forall i :: 0 <= i < |targets| ==> targets[i] in g.topo.nodes && targets[i] in g.attrs
    requires Scan(g, segment, bound, targets).Ok?
    ensures Scan(g, segment, bound, targets[1..]) == Ok(rest)
    ensures var a := targets[0];
      Scan(g, segment, bound, targets).value == Boundary(
        (if WeakTest(g, segment)(a) then [a] else []) + rest.weak,
        (if PressureTest(g, segment, bound)(a) then [a] else []) + rest.ppoints)
  {
    assert forall a :: a in targets[1..] ==> a in targets;
    rest := Scan(g, segment, bound, targets[1..]).value;
  }

  /** The returned lists are the target segment filtered by the two tests, so
      they keep node-iteration order. */
  lemma SearchFindings(g: Graph, proportion: real, segment: string, addGraphAttrs: bool)
    requires WellFormed(g)
    requires FindWeaknessesAndPressurePoints(g, proportion, segment, addGraphAttrs).Ok?
    ensures var b := FindWeaknessesAndPressurePoints(g, proportion, segment, addGraphAttrs).value.0;
      && b.weak == Filter(InSegment(g, segment), WeakTest(g, segment))
      && b.ppoints == Filter(InSegment(g, segment), PressureTest(g, segment, PressureBound(g, segment, proportion)))
  {
    ScanFindings(g, segment, PressureBound(g, segment, proportion), InSegment(g, segment));
  }

  /** A node is reported as a weakness exactly when it is in the target
      segment, has a neighbour outside it, and I + A/N > 0; as a pressure
      point exactly when it is in the segment with at least n_b * proportion
      outside neighbours. */
  lemma SearchMembers(g: Graph, proportion: real, segment: string, addGraphAttrs: bool)
    requires WellFormed(g)
    requires FindWeaknessesAndPressurePoints(g, proportion, segment, addGraphAttrs).Ok?
    ensures var b := FindWeaknessesAndPressurePoints(g, proportion, segment, addGraphAttrs).value.0;
      && (forall a :: a in b.weak <==>
            && a in g.topo.nodes && segment in g.attrs[a].segments
            && OutsideCount(g, a, segment) > 0
            && Impetus(g.attrs[a].profit.value, g.attrs[a].ambiguity.value, |g.topo.nodes|) > 0.0)
      && (forall a :: a in b.ppoints <==>
            && a in g.topo.nodes && segment in g.attrs[a].segments
            && OutsideCount(g, a, segment) as real >= PressureBound(g, segment, proportion))
  {
    SearchFindings(g, proportion, segment, addGraphAttrs);
  }

  /** Neither list repeats a node. */
  lemma SearchDistinct(g: Graph, proportion: real, segment: string, addGraphAttrs: bool)
    requires WellFormed(g)
    requires FindWeaknessesAndPressurePoints(g, proportion, segment, addGraphAttrs).Ok?
    ensures var b := FindWeaknessesAndPressurePoints(g, proportion, segment, addGraphAttrs).value.0;
      Distinct(b.weak) && Distinct(b.ppoints)
  {
    var targets := InSegment(g, segment);
    SearchFindings(g, proportion, segment, addGraphAttrs);
    FilterDistinct(g.topo.nodes, Member(g, segment));
    FilterDistinct(targets, WeakTest(g, segment));
    FilterDistinct(targets, PressureTest(g, segment, PressureBound(g, segment, proportion)));
  }

  /** With a bound of zero or less (a proportion of 0, or no node outside the
      segment) every target node is a pressure point. */
  lemma LowBoundEveryTarget(g: Graph, proportion: real, segment: string, addGraphAttrs: bool)
    requires WellFormed(g)
    requires FindWeaknessesAndPressurePoints(g, proportion, segment, addGraphAttrs).Ok?
    requires PressureBound(g, segment, proportion) <= 0.0
    ensures FindWeaknessesAndPressurePoints(g, proportion, segment, addGraphAttrs).value.0.ppoints
      == InSegment(g, segment)
  {
    SearchFindings(g, proportion, segment, addGraphAttrs);
    FilterAll(InSegment(g, segment), PressureTest(g, segment, PressureBound(g, segment, proportion)));
  }

  /** g and h agree on everything the analysis reads: edges, nodes, segments,
      I and A. They may differ in adoption state and earlier marks. */
  predicate SameBoundaryInputs(g: Graph, h: Graph) {
    && g.topo == h.topo
    && g.attrs.Keys == h.attrs.Keys
    && forall a :: a in g.attrs ==>
         && g.attrs[a].segments == h.attrs[a].segments
         && g.attrs[a].profit == h.attrs[a].profit
         && g.attrs[a].ambiguity == h.attrs[a].ambiguity
  }

  /** The `adopted`, `influence`, `weak` and `ppoint` attributes are never
      read: graphs that differ only there have the same boundary. */
  lemma SearchIgnoresAdoption(g: Graph, h: Graph, proportion: real, segment: string, addGraphAttrs: bool)
    requires WellFormed(g) && WellFormed(h) && SameBoundaryInputs(g, h)
    ensures FindWeaknessesAndPressurePoints(g, proportion, segment, addGraphAttrs).Ok? ==
      FindWeaknessesAndPressurePoints(h, proportion, segment, addGraphAttrs).Ok?
    ensures FindWeaknessesAndPressurePoints(g, proportion, segment, addGraphAttrs).Ok? ==>
      FindWeaknessesAndPressurePoints(g, proportion, segment, addGraphAttrs).value.0 ==
      FindWeaknessesAndPressurePoints(h, proportion, segment, addGraphAttrs).value.0
  {
    var bound := PressureBound(g, segment, proportion);
    SameTests(g, h, segment, bound);
    if FindWeaknessesAndPressurePoints(g, proportion, segment, addGraphAttrs).Ok? {
      var targets := InSegment(g, segment);
      SearchFindings(g, proportion, segment, addGraphAttrs);
      SearchFindings(h, proportion, segment, addGraphAttrs);
      FilterCongruent(targets, WeakTest(g, segment), WeakTest(h, segment));
      FilterCongruent(targets, PressureTest(g, segment, bound), PressureTest(h, segment, bound));
    }
  }

  /** What the analysis reads agrees between g and h: targets, bound and the
      three per-node tests. */
  lemma SameTests(g: Graph, h: Graph, segment: string, bound: real)
    requires WellFormed(g) && WellFormed(h) && SameBoundaryInputs(g, h)
    ensures InSegment(g, segment) == InSegment(h, segment)
    ensures forall proportion :: PressureBound(g, segment, proportion) == PressureBound(h, segment, proportion)
    ensures forall a :: LacksKeys(g, segment, a) == LacksKeys(h, segment, a)
    ensures forall a :: WeakTest(g, segment)(a) == WeakTest(h, segment)(a)
    ensures forall a :: PressureTest(g, segment, bound)(a) == PressureTest(h, segment, bound)(a)
  {
    FilterCongruent(g.topo.nodes, Member(g, segment), Member(h, segment));
    SameBound(g, h, segment);
    SameOutside(g, h, segment);
    forall a ensures LacksKeys(g, segment, a) == LacksKeys(h, segment, a) {
      SameNodeTests(g, h, segment, bound, a);
    }
    forall a ensures WeakTest(g, segment)(a) == WeakTest(h, segment)(a) {
      SameNodeTests(g, h, segment, bound, a);
    }
    forall a ensures PressureTest(g, segment, bound)(a) == PressureTest(h, segment, bound)(a) {
      SameNodeTests(g, h, segment, bound, a);
    }
  }

  lemma SameBound(g: Graph, h: Graph, segment: string)
    requires WellFormed(g) && WellFormed(h) && g.topo == h.topo
    requires InSegment(g, segment) == InSegment(h, segment)
    ensures forall proportion :: PressureBound(g, segment, proportion) == PressureBound(h, segment, proportion)
  {
  }

  lemma SameNodeTests(g: Graph, h: Graph, segment: string, bound: real, a: Node)
    requires SameBoundaryInputs(g, h)
    requires OutsideNeighbors(g, a, segment) == OutsideNeighbors(h, a, segment)
    ensures LacksKeys(g, segment, a) == LacksKeys(h, segment, a)
    ensures IsWeak(g, segment, a) == IsWeak(h, segment, a)
    ensures IsPressurePoint(g, segment, bound, a) == IsPressurePoint(h, segment, bound, a)
  {
  }

  lemma SameOutside(g: Graph, h: Graph, segment: string)
    requires SameBoundaryInputs(g, h)
    ensures forall a :: OutsideNeighbors(g, a, segment) == OutsideNeighbors(h, a, segment)
  {
    forall a ensures OutsideNeighbors(g, a, segment) == OutsideNeighbors(h, a, segment) {
      FilterCongruent(Neighbors(g.topo, a), Outside(g, segment), Outside(h, segment));
    }
  }

  /** The graph filters: accept every network, none, or those with at least
      `weaknessThresh` boundary weaknesses or `pressurePointThresh` boundary
      pressure points in the target segment. */
  datatype GraphFilter =
    | TrueFilter
    | FalseFilter
    | WPPFilter(weaknessThresh: int, pressurePointThresh: int, targetSegment: string)

  /** The `GRAPH_FILTERS` table keys. */
  const FilterNames: set<string> := {"all", "none", "wpp"}

  /** `GRAPH_FILTERS[name](targetSegment=segment)`: a `KeyError` for a name
      outside the table; the boundary filter keeps its default thresholds of 1. */
  function FilterNamed(name: string, segment: string): (r: Result<GraphFilter>)
    ensures r.Err? <==> name !in FilterNames
    ensures r.Err? ==> r.error == MissingKey
    ensures r.Ok? ==> (r.value.WPPFilter? <==> name == "wpp")
    ensures r.Ok? && r.value.WPPFilter? ==> r.value == WPPFilter(1, 1, segment)
  {
    if name == "all" then Ok(TrueFilter)
    else if name == "none" then Ok(FalseFilter)
    else if name == "wpp" then Ok(WPPFilter(1, 1, segment))
    else Err(MissingKey)
  }

  /** Calling a filter on a network: whether it is kept, and the network as
      the call leaves it (the boundary filter runs the search with the
      default proportion 1/2 and marks the nodes it finds). */
  function Apply(f: GraphFilter, g: Graph): (r: Result<(bool, Graph)>)
    requires WellFormed(g)
    ensures r.Err? <==> f.WPPFilter? && exists a :: a in InSegment(g, f.targetSegment) && LacksKeys(g, f.targetSegment, a)
    ensures r.Ok? && !f.WPPFilter? ==> r.value == (f.TrueFilter?, g)
  {
    match f
    case TrueFilter => Ok((true, g))
    case FalseFilter => Ok((false, g))
    case WPPFilter(weaknessThresh, pressurePointThresh, segment) =>
      var (b, h) :- FindWeaknessesAndPressurePoints(g, 0.5, segment, true);
      Ok((|b.weak| >= weaknessThresh || |b.ppoints| >= pressurePointThresh, h))
  }

  /** The boundary filter keeps a network exactly when the target segment
      holds at least `weaknessThresh` weaknesses or at least
      `pressurePointThresh` nodes with n_b/2 outside neighbours. */
  lemma WPPAccepts(g: Graph, weaknessThresh: int, pressurePointThresh: int, segment: string)
    requires WellFormed(g)
    requires Apply(WPPFilter(weaknessThresh, pressurePointThresh, segment), g).Ok?
    ensures Apply(WPPFilter(weaknessThresh, pressurePointThresh, segment), g).value.0 <==>
      || Count(InSegment(g, segment), WeakTest(g, segment)) >= weaknessThresh
      || Count(InSegment(g, segment), PressureTest(g, segment, PressureBound(g, segment, 0.5))) >= pressurePointThresh
  {
    SearchFindings(g, 0.5, segment, true);
  }

  /** With the default thresholds of 1 the boundary filter keeps a network
      exactly when some target node is a weakness or a pressure point. */
  lemma DefaultWPPAccepts(g: Graph, segment: string)
    requires WellFormed(g)
    requires Apply(WPPFilter(1, 1, segment), g).Ok?
    ensures Apply(WPPFilter(1, 1, segment), g).value.0 <==>
      exists a :: a in InSegment(g, segment) && (IsWeak(g, segment, a) || IsPressurePoint(g, segment, PressureBound(g, segment, 0.5), a))
  {
    var targets, bound := InSegment(g, segment), PressureBound(g, segment, 0.5);
    WPPAccepts(g, 1, 1, segment);
    NonEmptyFilter(targets, WeakTest(g, segment));
    NonEmptyFilter(targets, PressureTest(g, segment, bound));
  }

  /** A filter keeps something exactly when some element passes. */
  lemma NonEmptyFilter<T>(s: seq<T>, p: T -> bool)
    ensures |Filter(s, p)| >= 1 <==> exists x :: x in s && p(x)
  {
    if x :| x in s && p(x) {
      var i :| 0 <= i < |s| && s[i] == x;
      assert s[i] in Filter(s, p);
    }
    if |Filter(s, p)| >= 1 {
      assert Filter(s, p)[0] in s;
    }
  }
}
