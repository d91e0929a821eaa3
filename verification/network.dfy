/** The networkx multigraph the simulator works on: nodes in iteration order,
    edges as ordered pairs in insertion order (parallel edges allowed), and a
    record of node attributes. */
module Network {
  import opened Errors
  import opened Seqs

  type Node = nat
  type Edge = (Node, Node)

  datatype Topology = Topology(nodes: seq<Node>, edges: seq<Edge>)

  /** Some edge joins a and b, in either orientation. */
  predicate Adjacent(t: Topology, a: Node, b: Node) {
    (a, b) in t.edges || (b, a) in t.edges
  }

  /** `G.neighbors(a)`: every adjacent node once, however many parallel edges
      join them, in node-iteration order. */
  function Neighbors(t: Topology, a: Node): (r: seq<Node>)
    ensures forall b :: b in r <==> b in t.nodes && Adjacent(t, a, b)
  {
    Filter(t.nodes, AdjacentTo(t, a))
  }

  /** The test "b is adjacent to a", as a predicate to filter with. */
  function AdjacentTo(t: Topology, a: Node): Node -> bool {
    (b: Node) => Adjacent(t, a, b)
  }

  /** Node attributes. `segments`, `adopted` and `influence` are set on every
      node of a generated network; `I` (assessed profit) and `A` (weight of
      bandwagon pressure) only once a trial starts. */
  datatype Attrs = Attrs(
    segments: seq<string>,
    adopted: bool,
    influence: seq<Node>,
    weak: bool,
    ppoint: bool,
    profit: Option<real>,
    ambiguity: Option<real>)

  datatype Graph = Graph(topo: Topology, attrs: map<Node, Attrs>)

  /** What networkx guarantees of any graph: nodes are unique, each has an
      attribute record, and every edge joins two nodes of the graph. */
  predicate WellFormed(g: Graph) {
    && Distinct(g.topo.nodes)
    && (forall a :: a in g.topo.nodes ==> a in g.attrs)
    && (forall i :: 0 <= i < |g.topo.edges| ==>
          g.topo.edges[i].0 in g.topo.nodes && g.topo.edges[i].1 in g.topo.nodes)
  }

  /** Nodes listing `segment` among their segments, in node order. */
  function InSegment(g: Graph, segment: string): (r: seq<Node>)
    requires WellFormed(g)
    ensures forall a :: a in r <==> a in g.topo.nodes && segment in g.attrs[a].segments
  {
    Filter(g.topo.nodes, Member(g, segment))
  }

  /** The test "a lists `segment`", as a predicate to filter with. */
  function Member(g: Graph, segment: string): Node -> bool {
    a => a in g.attrs && segment in g.attrs[a].segments
  }

  /** Neighbours of a outside `segment`. */
  function OutsideNeighbors(g: Graph, a: Node, segment: string): (r: seq<Node>)
    ensures forall b :: b in r <==>
      b in g.topo.nodes && Adjacent(g.topo, a, b) && b in g.attrs && segment !in g.attrs[b].segments
  {
    Filter(Neighbors(g.topo, a), Outside(g, segment))
  }

  /** The test "b has attributes and does not list `segment`". */
  function Outside(g: Graph, segment: string): Node -> bool {
    (b: Node) => b in g.attrs && segment !in g.attrs[b].segments
  }

  /** The number of edges incident to at least one node of `s` (networkx
      `len(G.edges(s))`, each edge counted once). */
  function IncidentEdgeCount(t: Topology, s: set<Node>): nat {
    Count(t.edges, Touches(s))
  }

  /** The test "e has an endpoint in s", as a predicate to count with. */
  function Touches(s: set<Node>): Edge -> bool {
    (e: Edge) => e.0 in s || e.1 in s
  }
}
