/** The threshold model of innovation diffusion (Abrahamson and Rosenkopf
    1997): in every round the agents that have not adopted are visited in a
    random order, and agent a adopts when I_a + A_a * P > 0, where P is the
    number of a's adopted neighbours over the number of nodes. Adoptions
    within a round are visible to the agents visited after them. Rounds
    repeat until one changes nothing. */
module Diffusion {
  import opened Errors
  import opened Seqs
  import opened Network
  import Sampling

  /** The state of a run: the adopters in the order they adopted, and each
      node's `influence` attribute. The order is what makes "adopted earlier"
      expressible; the `adopted` attribute is membership in it. */
  datatype Sim = Sim(adopters: seq<Node>, influence: map<Node, seq<Node>>)

  /** The test "b has adopted", as a predicate to filter with. */
  function AdoptedIn(adopters: seq<Node>): Node -> bool {
    (b: Node) => b in adopters
  }

  /** The test "b has not adopted". */
  function Waiting(adopters: seq<Node>): Node -> bool {
    (b: Node) => b !in adopters
  }

  /** Every node has its assessed profit I and its weight A of bandwagon
      pressure, as after the start of a trial. */
  predicate Ready(g: Graph) {
    && WellFormed(g)
    && forall a :: a in g.topo.nodes ==> g.attrs[a].profit.Some? && g.attrs[a].ambiguity.Some?
  }

  /** `adoptedNeighbors`: a's neighbours that have adopted, in node order. */
  function AdoptedNeighbors(t: Topology, adopters: seq<Node>, a: Node): (r: seq<Node>)
    ensures forall b :: b in r <==> b in t.nodes && Adjacent(t, a, b) && b in adopters
  {
    Filter(Neighbors(t, a), AdoptedIn(adopters))
  }

  /** `Bik = I + A * Pk1` with `Pk1 = len(adoptedNeighbors) / N` (true division). */
  function Pressure(g: Graph, adopters: seq<Node>, a: Node): real
    requires Ready(g) && a in g.topo.nodes
  {
    var at := g.attrs[a];
    at.profit.value + at.ambiguity.value * ((|AdoptedNeighbors(g.topo, adopters, a)| as real) / (|g.topo.nodes| as real))
  }

  /** One visit: a adopts when its pressure is positive, and its influence
      becomes the neighbours that had adopted by then. */
  function Visit(g: Graph, s: Sim, a: Node): Sim
    requires Ready(g) && a in g.topo.nodes
  {
    if Pressure(g, s.adopters, a) > 0.0 then
      Sim(s.adopters + [a], s.influence[a := AdoptedNeighbors(g.topo, s.adopters, a)])
    else s
  }

  /** One round: the visits of `agents` in order. */
  function Round(g: Graph, s: Sim, agents: seq<Node>): (r: Sim)
    requires Ready(g) && forall i :: 0 <= i < |agents| ==> agents[i] in g.topo.nodes
    ensures |s.adopters| <= |r.adopters| && r.adopters[..|s.adopters|] == s.adopters
    ensures forall i :: |s.adopters| <= i < |r.adopters| ==> r.adopters[i] in agents
    decreases |agents|
  {
    if agents == [] then s
    else
      var s' := Visit(g, s, agents[0]);
      VisitGrows(g, s, agents[0]);
      var r := Round(g, s', agents[1..]);
      RoundStep(s.adopters, s'.adopters, r.adopters, agents);
      r
  }

  /** A visit adds at most the visited agent. */
  lemma VisitGrows(g: Graph, s: Sim, a: Node)
    requires Ready(g) && a in g.topo.nodes
    ensures Visit(g, s, a).adopters == s.adopters || Visit(g, s, a).adopters == s.adopters + [a]
  {
  }

  lemma RoundStep(before: seq<Node>, mid: seq<Node>, after: seq<Node>, agents: seq<Node>)
    requires agents != []
    requires mid == before || mid == before + [agents[0]]
    requires |mid| <= |after| && after[..|mid|] == mid
    requires forall i :: |mid| <= i < |after| ==> after[i] in agents[1..]
    ensures |before| <= |after| && after[..|before|] == before
    ensures forall i :: |before| <= i < |after| ==> after[i] in agents
  {
    assert after[..|before|] == after[..|mid|][..|before|];
    forall i | |before| <= i < |after| ensures after[i] in agents {
      if i < |mid| {
        assert after[i] == mid[i] == agents[0];
      } else {
        assert after[i] in agents[1..];
      }
    }
  }

  /** What every reachable state satisfies. Adopters are distinct nodes; an
      adopter's influence is exactly its neighbours among the earlier
      adopters; every adopter after the first (the seed) had positive
      pressure when it adopted; nodes that have not adopted keep an empty
      influence. */
  predicate Valid(g: Graph, s: Sim) {
    && Distinct(s.adopters)
    && (forall i :: 0 <= i < |s.adopters| ==> s.adopters[i] in g.topo.nodes)
    && (forall a :: a in g.topo.nodes ==> a in s.influence)
    && (forall i :: 0 <= i < |s.adopters| ==>
          s.influence[s.adopters[i]] == AdoptedNeighbors(g.topo, s.adopters[..i], s.adopters[i]))
    && (forall a :: a in g.topo.nodes && a !in s.adopters ==> s.influence[a] == [])
    && (Ready(g) ==> forall i :: 1 <= i < |s.adopters| ==> Pressure(g, s.adopters[..i], s.adopters[i]) > 0.0)
  }

  lemma VisitValid(g: Graph, s: Sim, a: Node)
    requires Ready(g) && Valid(g, s) && a in g.topo.nodes && a !in s.adopters
    ensures Valid(g, Visit(g, s, a))
  {
    if Pressure(g, s.adopters, a) > 0.0 {
      AdoptValid(g, s, a, AdoptedNeighbors(g.topo, s.adopters, a), Visit(g, s, a));
    }
  }

  /** Appending an adopter whose influence is its adopted neighbours keeps
      the state valid. */
  lemma AdoptValid(g: Graph, s: Sim, a: Node, nbrs: seq<Node>, r: Sim)
    requires Ready(g) && Valid(g, s) && a in g.topo.nodes && a !in s.adopters
    requires Pressure(g, s.adopters, a) > 0.0
    requires nbrs == AdoptedNeighbors(g.topo, s.adopters, a)
    requires r == Sim(s.adopters + [a], s.influence[a := nbrs])
    ensures Valid(g, r)
  {
    var n := |s.adopters|;
    AppendPrefixes(s.adopters, a);
    DistinctAppend(s.adopters, a);
    forall i | 0 <= i < |r.adopters|
      ensures r.influence[r.adopters[i]] == AdoptedNeighbors(g.topo, r.adopters[..i], r.adopters[i])
    {
      if i < n {
        assert r.adopters[i] != a;
      }
    }
  }

  lemma AppendPrefixes(xs: seq<Node>, a: Node)
    ensures forall i :: 0 <= i < |xs| ==> (xs + [a])[..i] == xs[..i] && (xs + [a])[i] == xs[i]
    ensures (xs + [a])[..|xs|] == xs && (xs + [a])[|xs|] == a
  {
    forall i | 0 <= i < |xs| ensures (xs + [a])[..i] == xs[..i] {
      assert (xs + [a])[..i] == (xs + [a])[..|xs|][..i];
    }
  }

  lemma DistinctAppend(xs: seq<Node>, a: Node)
    requires Distinct(xs) && a !in xs
    ensures Distinct(xs + [a])
  {
    forall i, j | 0 <= i < j < |xs + [a]| ensures (xs + [a])[i] != (xs + [a])[j] {
      if j == |xs| {
        assert (xs + [a])[i] == xs[i];
      }
    }
  }

  lemma {:induction false} RoundValid(g: Graph, s: Sim, agents: seq<Node>)
    requires Ready(g) && Valid(g, s)
    requires forall i :: 0 <= i < |agents| ==> agents[i] in g.topo.nodes && agents[i] !in s.adopters
    requires Distinct(agents)
    ensures Valid(g, Round(g, s, agents))
    decreases |agents|
  {
    if agents != [] {
      var a := agents[0];
      VisitValid(g, s, a);
      var s' := Visit(g, s, a);
      DistinctTail(agents);
      forall i | 0 <= i < |agents[1..]| ensures agents[1..][i] !in s'.adopters {
        assert agents[1..][i] == agents[i + 1];
      }
      RoundValid(g, s', agents[1..]);
    }
  }

  /** A round that adopts nobody leaves the state as it was, and then every
      agent had pressure at most 0. */
  lemma {:induction false} RoundUnchanged(g: Graph, s: Sim, agents: seq<Node>)
    requires Ready(g) && forall i :: 0 <= i < |agents| ==> agents[i] in g.topo.nodes
    requires |Round(g, s, agents).adopters| == |s.adopters|
    ensures Round(g, s, agents) == s
    ensures forall i :: 0 <= i < |agents| ==> Pressure(g, s.adopters, agents[i]) <= 0.0
    decreases |agents|
  {
    if agents != [] {
      var s' := Visit(g, s, agents[0]);
      VisitGrows(g, s, agents[0]);
      assert |Round(g, s', agents[1..]).adopters| >= |s'.adopters|;
      RoundUnchanged(g, s', agents[1..]);
      forall i | 1 <= i < |agents| ensures Pressure(g, s.adopters, agents[i]) <= 0.0 {
        assert agents[i] == agents[1..][i - 1];
      }
    }
  }

  /** Within a round, agent i adopts exactly when its pressure is positive
      given every adoption by the agents visited before it. */
  lemma {:induction false} RoundAdopts(g: Graph, s: Sim, agents: seq<Node>, i: nat)
    requires Ready(g) && Distinct(agents) && i < |agents|
    requires forall j :: 0 <= j < |agents| ==> agents[j] in g.topo.nodes && agents[j] !in s.adopters
    ensures agents[i] in Round(g, s, agents).adopters <==>
      Pressure(g, Round(g, s, agents[..i]).adopters, agents[i]) > 0.0
    decreases |agents|
  {
    var s' := Visit(g, s, agents[0]);
    var rest := agents[1..];
    VisitGrows(g, s, agents[0]);
    DistinctTail(agents);
    forall j | 0 <= j < |rest| ensures rest[j] in g.topo.nodes && rest[j] !in s'.adopters {
      assert rest[j] == agents[j + 1];
    }
    if i == 0 {
      FirstAgentAdopts(g, s, agents);
    } else {
      RoundAdopts(g, s', rest, i - 1);
      assert agents[..i][0] == agents[0] && agents[..i][1..] == rest[..i - 1];
      assert agents[i] == rest[i - 1];
    }
  }

  /** The first agent adopts exactly when its pressure is positive: later
      visits add only later agents. */
  lemma FirstAgentAdopts(g: Graph, s: Sim, agents: seq<Node>)
    requires Ready(g) && Distinct(agents) && agents != []
    requires forall j :: 0 <= j < |agents| ==> agents[j] in g.topo.nodes && agents[j] !in s.adopters
    ensures agents[0] in Round(g, s, agents).adopters <==> Pressure(g, s.adopters, agents[0]) > 0.0
  {
    var a := agents[0];
    var s' := Visit(g, s, a);
    VisitGrows(g, s, a);
    DistinctTail(agents);
    AddsOnly(s'.adopters, Round(g, s', agents[1..]).adopters, agents[1..], a);
  }

  /** A sequence that extends `before` with elements of `added` contains a
      exactly when `before` does, unless `added` holds a. */
  lemma AddsOnly(before: seq<Node>, after: seq<Node>, added: seq<Node>, a: Node)
    requires |before| <= |after| && after[..|before|] == before
    requires forall i :: |before| <= i < |after| ==> after[i] in added
    requires a !in added
    ensures a in after <==> a in before
  {
    if a in after {
      var i :| 0 <= i < |after| && after[i] == a;
      assert after[i] == before[i];
    }
    if a in before {
      var i :| 0 <= i < |before| && before[i] == a;
      assert after[i] == a;
    }
  }

  /** The agents of a round: the nodes that have not adopted, shuffled. */
  function Agents(g: Graph, s: Sim, draw: nat -> nat): (agents: seq<Node>)
    requires WellFormed(g)
    ensures forall a :: a in agents <==> a in g.topo.nodes && a !in s.adopters
  {
    var waiting := Filter(g.topo.nodes, Waiting(s.adopters));
    Sampling.ShuffleSameMembers(waiting, draw, 0);
    forall a ensures a in Sampling.Shuffle(waiting, draw) <==> a in waiting {
      Sampling.ShuffleSameMembers(waiting, draw, a);
    }
    Sampling.Shuffle(waiting, draw)
  }

  lemma AgentsDistinct(g: Graph, s: Sim, draw: nat -> nat)
    requires WellFormed(g)
    ensures Distinct(Agents(g, s, draw))
  {
    var waiting := Filter(g.topo.nodes, Waiting(s.adopters));
    FilterDistinct(g.topo.nodes, Waiting(s.adopters));
    Sampling.ShuffleDistinct(waiting, draw);
  }

  /** One round on the current state, with `draw` the draws of its shuffle. */
  function Step(g: Graph, s: Sim, draw: nat -> nat): (r: Sim)
    requires Ready(g) && Valid(g, s)
    ensures Valid(g, r)
    ensures |s.adopters| <= |r.adopters| && r.adopters[..|s.adopters|] == s.adopters
    ensures |r.adopters| == |s.adopters| || Count(g.topo.nodes, Waiting(r.adopters)) < Count(g.topo.nodes, Waiting(s.adopters))
  {
    var agents := Agents(g, s, draw);
    AgentsDistinct(g, s, draw);
    RoundValid(g, s, agents);
    var r := Round(g, s, agents);
    if |r.adopters| > |s.adopters| then
      assert r.adopters[|s.adopters|] in agents;
      FewerWaiting(g, s.adopters, r.adopters);
      r
    else r
  }

  /** The rounds from round k on, with `draws(k)` the draws of round k's
      shuffle: the final state and the number of rounds run so far. Each
      round but the last adopts someone, so there is at most one more round
      than there are nodes waiting. */
  function Rounds(g: Graph, s: Sim, k: nat, draws: nat -> nat -> nat): (r: (Sim, nat))
    requires Ready(g) && Valid(g, s)
    ensures Valid(g, r.0)
    ensures |s.adopters| <= |r.0.adopters| && r.0.adopters[..|s.adopters|] == s.adopters
    ensures k < r.1 <= k + Count(g.topo.nodes, Waiting(s.adopters)) + 1
    decreases Count(g.topo.nodes, Waiting(s.adopters))
  {
    var s' := Step(g, s, draws(k));
    if |s'.adopters| == |s.adopters| then (s', k + 1)
    else
      var r := Rounds(g, s', k + 1, draws);
      PrefixOfPrefix(s.adopters, s'.adopters, r.0.adopters);
      r
  }

  lemma PrefixOfPrefix(a: seq<Node>, b: seq<Node>, c: seq<Node>)
    requires |a| <= |b| && b[..|a|] == a
    requires |b| <= |c| && c[..|b|] == b
    ensures c[..|a|] == a
  {
    assert c[..|a|] == c[..|b|][..|a|];
  }

  /** A round that adopted a node leaves fewer nodes waiting. */
  lemma FewerWaiting(g: Graph, before: seq<Node>, after: seq<Node>)
    requires |before| < |after| && after[..|before|] == before
    requires after[|before|] in g.topo.nodes && after[|before|] !in before
    ensures Count(g.topo.nodes, Waiting(after)) < Count(g.topo.nodes, Waiting(before))
  {
    forall x | x in g.topo.nodes && Waiting(after)(x) ensures Waiting(before)(x) {
      assert x !in after[..|before|];
    }
    FilterStrictlyMonotone(g.topo.nodes, Waiting(after), Waiting(before), after[|before|]);
  }

  /** On exit no node that has not adopted would adopt: a fixed point. */
  lemma {:induction false} RoundsFixedPoint(g: Graph, s: Sim, k: nat, draws: nat -> nat -> nat)
    requires Ready(g) && Valid(g, s)
    ensures var f := Rounds(g, s, k, draws).0;
      forall a :: a in g.topo.nodes && a !in f.adopters ==> Pressure(g, f.adopters, a) <= 0.0
    decreases Count(g.topo.nodes, Waiting(s.adopters))
  {
    var s' := Step(g, s, draws(k));
    if |s'.adopters| == |s.adopters| {
      QuietRound(g, s, draws(k));
    } else {
      RoundsFixedPoint(g, s', k + 1, draws);
    }
  }

  /** After a round that adopts nobody, no waiting node has positive pressure. */
  lemma QuietRound(g: Graph, s: Sim, draw: nat -> nat)
    requires Ready(g) && Valid(g, s)
    requires |Step(g, s, draw).adopters| == |s.adopters|
    ensures Step(g, s, draw) == s
    ensures forall a :: a in g.topo.nodes && a !in s.adopters ==> Pressure(g, s.adopters, a) <= 0.0
  {
    var agents := Agents(g, s, draw);
    RoundUnchanged(g, s, agents);
    forall a | a in g.topo.nodes && a !in s.adopters ensures Pressure(g, s.adopters, a) <= 0.0 {
      var i :| 0 <= i < |agents| && agents[i] == a;
    }
  }

  /** The start of a trial: only the seed has adopted and every influence is
      empty. */
  function InitSim(g: Graph, seed: Node): (r: Sim)
    requires Ready(g) && seed in g.topo.nodes
    ensures Valid(g, r)
    ensures forall a :: a in g.topo.nodes ==> (a in r.adopters <==> a == seed) && r.influence[a] == []
  {
    var r := Sim([seed], map a | a in g.topo.nodes :: []);
    assert r.adopters[..0] == [];
    FilterNone(Neighbors(g.topo, seed), AdoptedIn([]));
    r
  }

  /** The rounds of a trial from its seed: the final state and the number of
      rounds, the last being the one that changed nothing. */
  function Run(g: Graph, seed: Node, draws: nat -> nat -> nat): (r: (Sim, nat))
    requires Ready(g) && seed in g.topo.nodes
    ensures Valid(g, r.0) && |r.0.adopters| >= 1 && r.0.adopters[0] == seed
    ensures r.0.influence[seed] == []
    ensures 1 <= r.1 <= |g.topo.nodes|
  {
    var s := InitSim(g, seed);
    var r := Rounds(g, s, 0, draws);
    FewerThanAll(g, seed);
    r
  }

  /** Only the nodes other than the seed wait at the start. */
  lemma FewerThanAll(g: Graph, seed: Node)
    requires seed in g.topo.nodes
    ensures Count(g.topo.nodes, Waiting([seed])) < |g.topo.nodes|
  {
    var all := (b: Node) => true;
    FilterStrictlyMonotone(g.topo.nodes, Waiting([seed]), all, seed);
    FilterAll(g.topo.nodes, all);
  }

  /** Adoption is monotone: whoever has adopted is still an adopter after
      any number of further rounds. */
  lemma StaysAdopted(g: Graph, s: Sim, k: nat, draws: nat -> nat -> nat, a: Node)
    requires Ready(g) && Valid(g, s) && a in s.adopters
    ensures a in Rounds(g, s, k, draws).0.adopters
  {
    var f := Rounds(g, s, k, draws).0;
    var i :| 0 <= i < |s.adopters| && s.adopters[i] == a;
    assert f.adopters[..|s.adopters|][i] == a;
  }

  /** Every node of a valid state's influence adopted strictly earlier than
      the node it influenced. */
  lemma InfluencedEarlier(g: Graph, s: Sim, i: nat, b: Node)
    requires Valid(g, s) && i < |s.adopters| && b in s.influence[s.adopters[i]]
    ensures exists j :: 0 <= j < i && s.adopters[j] == b
  {
    assert b in s.adopters[..i];
  }
}
