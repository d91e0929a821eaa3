/** The boundary search on the network of the package's own boundary test:
    a complete core 0..3, periphery nodes 5..8 (there is no node 4). The
    example facts are proved about any graph of that shape, so the concrete
    map of attributes is unfolded only once. */
module GraphSearchExample {
  import opened Errors
  import opened Seqs
  import opened Network
  import opened GraphSearch
  import GraphGen

  function ExampleEdges(): seq<(Node, Node)> {
    [(0, 5), (1, 5), (2, 5), (3, 5), (5, 6), (0, 7), (2, 7), (6, 7), (1, 8), (6, 8),
     (0, 1), (0, 2), (0, 3), (1, 2), (1, 3), (2, 3)]
  }

  function ExampleAttrs(segment: string, profit: real): Attrs {
    Attrs([segment], false, [], false, false, Some(profit), Some(3.0))
  }

  /** I = -2 and A = 3 everywhere except I = 1 at node 7. */
  function ExampleGraph(): Graph {
    var core, periph := ExampleAttrs(GraphGen.CoreSegment, -2.0), ExampleAttrs(GraphGen.PeripherySegment, -2.0);
    var attrs := map[0 := core, 1 := core, 2 := core, 3 := core,
                     5 := periph, 6 := periph, 7 := ExampleAttrs(GraphGen.PeripherySegment, 1.0), 8 := periph];
    Graph(Topology([0, 1, 2, 3, 5, 6, 7, 8], ExampleEdges()), attrs)
  }

  /** What the proofs below need to know of the example network. */
  ghost predicate ExampleShape(g: Graph) {
    && g.topo.nodes == [0, 1, 2, 3, 5, 6, 7, 8]
    && g.topo.edges == ExampleEdges()
    && (forall a :: a in g.attrs <==> a in g.topo.nodes)
    && (forall a :: a in g.attrs ==>
          && g.attrs[a].segments == [if a < 4 then GraphGen.CoreSegment else GraphGen.PeripherySegment]
          && g.attrs[a].profit == Some(if a == 7 then 1.0 else -2.0)
          && g.attrs[a].ambiguity == Some(3.0))
  }

  lemma ExampleGraphShape()
    ensures ExampleShape(ExampleGraph())
  {
    var g := ExampleGraph();
    assert forall a :: a in g.attrs <==> a in g.topo.nodes;
    forall a | a in g.attrs
      ensures g.attrs[a].segments == [if a < 4 then GraphGen.CoreSegment else GraphGen.PeripherySegment]
      ensures g.attrs[a].profit == Some(if a == 7 then 1.0 else -2.0)
      ensures g.attrs[a].ambiguity == Some(3.0)
    {
    }
  }

  lemma SegmentsDiffer()
    ensures GraphGen.CoreSegment != GraphGen.PeripherySegment
  {
    assert |GraphGen.CoreSegment| != |GraphGen.PeripherySegment|;
  }

  lemma ExampleWellFormed(g: Graph)
    requires ExampleShape(g)
    ensures WellFormed(g)
  {
    assert Distinct(g.topo.nodes);
    ExampleEdgeEnds(g.topo);
  }

  lemma ExampleEdgeEnds(t: Topology)
    requires t.edges == ExampleEdges() && t.nodes == [0, 1, 2, 3, 5, 6, 7, 8]
    ensures forall i :: 0 <= i < |t.edges| ==> t.edges[i].0 in t.nodes && t.edges[i].1 in t.nodes
  {
  }

  /** The periphery is 5, 6, 7, 8. */
  lemma ExampleTargets(g: Graph)
    requires ExampleShape(g)
    ensures WellFormed(g)
    ensures InSegment(g, GraphGen.PeripherySegment) == [5, 6, 7, 8]
  {
    ExampleWellFormed(g);
    var left: seq<Node>, right: seq<Node> := [0, 1, 2, 3], [5, 6, 7, 8];
    assert g.topo.nodes == left + right;
    ExampleSides(g, left, right);
    SplitTargets(g, GraphGen.PeripherySegment, left, right);
  }

  lemma ExampleSides(g: Graph, left: seq<Node>, right: seq<Node>)
    requires ExampleShape(g) && left == [0, 1, 2, 3] && right == [5, 6, 7, 8]
    ensures forall i :: 0 <= i < |left| ==> GraphGen.PeripherySegment !in g.attrs[left[i]].segments
    ensures forall i :: 0 <= i < |right| ==> GraphGen.PeripherySegment in g.attrs[right[i]].segments
  {
    SegmentsDiffer();
  }

  lemma SplitTargets(g: Graph, segment: string, left: seq<Node>, right: seq<Node>)
    requires WellFormed(g) && g.topo.nodes == left + right
    requires forall i :: 0 <= i < |left| ==> segment !in g.attrs[left[i]].segments
    requires forall i :: 0 <= i < |right| ==> segment in g.attrs[right[i]].segments
    ensures InSegment(g, segment) == right
  {
    var member := Member(g, segment);
    FilterAppend(left, right, member);
    FilterNone(left, member);
    FilterAll(right, member);
  }

  /** The neighbours of the periphery nodes of the example. */
  function ExampleNeighbors(a: Node): set<Node> {
    if a == 5 then {0, 1, 2, 3, 6}
    else if a == 6 then {5, 7, 8}
    else if a == 7 then {0, 2, 6}
    else {1, 6}
  }

  /** The nodes adjacent to a are those of s when every edge at a leads into
      s and every node of s has an edge to a. */
  lemma AdjacentExactly(t: Topology, a: Node, s: set<Node>)
    requires forall i :: 0 <= i < |t.edges| ==>
      (t.edges[i].0 == a ==> t.edges[i].1 in s) && (t.edges[i].1 == a ==> t.edges[i].0 in s)
    requires forall b :: b in s ==> Adjacent(t, a, b)
    ensures forall b :: Adjacent(t, a, b) <==> b in s
  {
  }

  lemma ExampleEdgesLeadIn(t: Topology, a: Node)
    requires t.edges == ExampleEdges() && 5 <= a <= 8
    ensures forall i :: 0 <= i < |t.edges| ==>
      (t.edges[i].0 == a ==> t.edges[i].1 in ExampleNeighbors(a)) && (t.edges[i].1 == a ==> t.edges[i].0 in ExampleNeighbors(a))
  {
  }

  lemma ExampleEdgesReach(t: Topology, a: Node)
    requires t.edges == ExampleEdges() && 5 <= a <= 8
    ensures forall b :: b in ExampleNeighbors(a) ==> Adjacent(t, a, b)
  {
    var e := ExampleEdges();
    assert e[0] == (0, 5) && e[1] == (1, 5) && e[2] == (2, 5) && e[3] == (3, 5) && e[4] == (5, 6);
    assert e[5] == (0, 7) && e[6] == (2, 7) && e[7] == (6, 7) && e[8] == (1, 8) && e[9] == (6, 8);
  }

  lemma ExampleAdjacent(t: Topology, a: Node)
    requires t.edges == ExampleEdges() && 5 <= a <= 8
    ensures forall b :: Adjacent(t, a, b) <==> b in ExampleNeighbors(a)
  {
    ExampleEdgesLeadIn(t, a);
    ExampleEdgesReach(t, a);
    AdjacentExactly(t, a, ExampleNeighbors(a));
  }

  /** The outside neighbours of a are the nodes of s when a's neighbours are
      those of nbrs and, among them, exactly those of s lie outside. */
  lemma OutsideExactly(g: Graph, a: Node, segment: string, nbrs: set<Node>, s: set<Node>)
    requires forall b :: Adjacent(g.topo, a, b) <==> b in nbrs
    requires forall b :: b in nbrs ==> b in g.topo.nodes && b in g.attrs
    requires forall b :: b in nbrs ==> (segment !in g.attrs[b].segments <==> b in s)
    requires s <= nbrs
    ensures forall b :: b in OutsideNeighbors(g, a, segment) <==> b in s
  {
  }

  /** The core neighbours of the periphery nodes of the example. */
  function ExampleOutsideSet(a: Node): set<Node> {
    if a == 5 then {0, 1, 2, 3}
    else if a == 6 then {}
    else if a == 7 then {0, 2}
    else {1}
  }

  lemma ExampleSegments(g: Graph)
    requires ExampleShape(g)
    ensures forall b :: b in g.attrs ==> (GraphGen.PeripherySegment !in g.attrs[b].segments <==> b < 4)
  {
    SegmentsDiffer();
  }

  /** Among the neighbours of a periphery node, the outside ones are the
      core nodes. */
  lemma OutsideSetIsCore(a: Node)
    requires 5 <= a <= 8
    ensures forall b :: b in ExampleNeighbors(a) ==> (b < 4 <==> b in ExampleOutsideSet(a))
    ensures ExampleOutsideSet(a) <= ExampleNeighbors(a)
  {
  }

  lemma ExampleNeighborsPresent(g: Graph, a: Node)
    requires ExampleShape(g) && 5 <= a <= 8
    ensures forall b :: b in ExampleNeighbors(a) ==> b in g.topo.nodes && b in g.attrs
  {
  }

  /** A periphery node's outside neighbours are its core neighbours. */
  lemma ExampleOutside(g: Graph, a: Node)
    requires ExampleShape(g) && 5 <= a <= 8
    ensures forall b :: b in OutsideNeighbors(g, a, GraphGen.PeripherySegment) <==> b in ExampleOutsideSet(a)
  {
    ExampleAdjacent(g.topo, a);
    ExampleNeighborsPresent(g, a);
    ExampleSegments(g);
    OutsideSetIsCore(a);
    OutsideExactly(g, a, GraphGen.PeripherySegment, ExampleNeighbors(a), ExampleOutsideSet(a));
  }

  lemma ExampleOutsideCount(g: Graph, a: Node)
    requires ExampleShape(g) && 5 <= a <= 8
    ensures OutsideCount(g, a, GraphGen.PeripherySegment) == |ExampleOutsideSet(a)|
  {
    assert Distinct(g.topo.nodes);
    ExampleOutside(g, a);
    OutsideCountIs(g, a, GraphGen.PeripherySegment, ExampleOutsideSet(a));
  }

  /** Outside counts 4, 0, 2 and 1 for the nodes 5, 6, 7 and 8. */
  lemma ExampleOutsideCounts(g: Graph)
    requires ExampleShape(g)
    ensures OutsideCount(g, 5, GraphGen.PeripherySegment) == 4
    ensures OutsideCount(g, 6, GraphGen.PeripherySegment) == 0
    ensures OutsideCount(g, 7, GraphGen.PeripherySegment) == 2
    ensures OutsideCount(g, 8, GraphGen.PeripherySegment) == 1
  {
    ExampleOutsideCount(g, 5);
    ExampleOutsideCount(g, 6);
    ExampleOutsideCount(g, 7);
    ExampleOutsideCount(g, 8);
    SetSizes();
  }

  lemma SetSizes()
    ensures |ExampleOutsideSet(5)| == 4 && |ExampleOutsideSet(6)| == 0
    ensures |ExampleOutsideSet(7)| == 2 && |ExampleOutsideSet(8)| == 1
  {
    assert ExampleOutsideSet(5) == {0, 1, 2} + {3};
  }

  /** Over nodes without repetitions the outside count is the size of the set
      of outside neighbours. */
  lemma OutsideCountIs(g: Graph, a: Node, segment: string, s: set<Node>)
    requires Distinct(g.topo.nodes)
    requires forall b :: b in OutsideNeighbors(g, a, segment) <==> b in s
    ensures OutsideCount(g, a, segment) == |s|
  {
    FilterDistinct(g.topo.nodes, AdjacentTo(g.topo, a));
    FilterDistinct(Neighbors(g.topo, a), Outside(g, segment));
    DistinctSize(OutsideNeighbors(g, a, segment), s);
  }

  /** The filters of the periphery list that the example needs. */
  lemma PickSeven(p: Node -> bool)
    requires !p(5) && !p(6) && p(7) && !p(8)
    ensures Filter<Node>([5, 6, 7, 8], p) == [7]
  {
    var s: seq<Node> := [5, 6, 7, 8];
    assert Filter(s[3..], p) == [];
    assert Filter(s[2..], p) == [7];
    assert Filter(s[1..], p) == [7];
  }

  lemma PickFiveSeven(p: Node -> bool)
    requires p(5) && !p(6) && p(7) && !p(8)
    ensures Filter<Node>([5, 6, 7, 8], p) == [5, 7]
  {
    var s: seq<Node> := [5, 6, 7, 8];
    assert Filter(s[3..], p) == [];
    assert Filter(s[2..], p) == [7];
    assert Filter(s[1..], p) == [7];
  }

  /** Only node 7 passes the weakness test: -2 + 3/8 < 0 < 1 + 3/8, and
      node 6 has no outside neighbour. */
  lemma ExampleWeak(g: Graph, a: Node)
    requires ExampleShape(g) && 5 <= a <= 8
    ensures IsWeak(g, GraphGen.PeripherySegment, a) <==> a == 7
  {
    assert Impetus(-2.0, 3.0, 8) < 0.0 < Impetus(1.0, 3.0, 8);
    if a == 6 || a == 7 {
      ExampleOutsideCount(g, a);
      SetSizes();
    }
  }

  /** Nodes 5 and 7 have at least the bound of 2 outside neighbours. */
  lemma ExamplePressure(g: Graph, a: Node)
    requires ExampleShape(g) && 5 <= a <= 8
    ensures IsPressurePoint(g, GraphGen.PeripherySegment, 2.0, a) <==> a == 5 || a == 7
  {
    ExampleOutsideCount(g, a);
    SetSizes();
  }

  /** On the example network the periphery has the weakness 7 (one adoption
      lifts it to 1 + 3/8 > 0) and the pressure points 5 and 7 (at least
      half of the four nodes outside the periphery as neighbours). */
  lemma ExampleBoundary()
    ensures WellFormed(ExampleGraph())
    ensures var r := FindWeaknessesAndPressurePoints(ExampleGraph(), 0.5, GraphGen.PeripherySegment, true);
      r.Ok? && r.value.0 == Boundary([7], [5, 7])
  {
    ExampleGraphShape();
    ShapeBoundary(ExampleGraph());
  }

  /** Every periphery node has both I and A. */
  lemma ExampleKeysPresent(g: Graph)
    requires ExampleShape(g)
    ensures WellFormed(g)
    ensures FindWeaknessesAndPressurePoints(g, 0.5, GraphGen.PeripherySegment, true).Ok?
  {
    ExampleWellFormed(g);
    KeysPresent(g, 0.5, GraphGen.PeripherySegment, true);
  }

  /** A network whose every node has I and A raises no `KeyError`. */
  lemma KeysPresent(g: Graph, proportion: real, segment: string, addGraphAttrs: bool)
    requires WellFormed(g)
    requires forall a :: a in g.attrs ==> g.attrs[a].profit.Some? && g.attrs[a].ambiguity.Some?
    ensures FindWeaknessesAndPressurePoints(g, proportion, segment, addGraphAttrs).Ok?
  {
  }

  /** Four nodes lie outside the periphery, so the bound is 4 * 0.5 = 2. */
  lemma ExampleBound(g: Graph)
    requires ExampleShape(g)
    ensures WellFormed(g) && PressureBound(g, GraphGen.PeripherySegment, 0.5) == 2.0
  {
    ExampleTargets(g);
  }

  lemma ShapeBoundary(g: Graph)
    requires ExampleShape(g)
    ensures WellFormed(g)
    ensures var r := FindWeaknessesAndPressurePoints(g, 0.5, GraphGen.PeripherySegment, true);
      r.Ok? && r.value.0 == Boundary([7], [5, 7])
  {
    var periph := GraphGen.PeripherySegment;
    ExampleKeysPresent(g);
    ExampleTargets(g);
    ExampleBound(g);
    SearchFindings(g, 0.5, periph, true);
    ExampleWeakList(g);
    ExamplePressureList(g);
  }

  lemma ExampleWeakList(g: Graph)
    requires ExampleShape(g)
    ensures Filter<Node>([5, 6, 7, 8], WeakTest(g, GraphGen.PeripherySegment)) == [7]
  {
    ExampleWeak(g, 5);
    ExampleWeak(g, 6);
    ExampleWeak(g, 7);
    ExampleWeak(g, 8);
    PickSeven(WeakTest(g, GraphGen.PeripherySegment));
  }

  lemma ExamplePressureList(g: Graph)
    requires ExampleShape(g)
    ensures Filter<Node>([5, 6, 7, 8], PressureTest(g, GraphGen.PeripherySegment, 2.0)) == [5, 7]
  {
    ExamplePressure(g, 5);
    ExamplePressure(g, 6);
    ExamplePressure(g, 7);
    ExamplePressure(g, 8);
    PickFiveSeven(PressureTest(g, GraphGen.PeripherySegment, 2.0));
  }
}
