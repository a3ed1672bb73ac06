/** What an agent.expand answer means, in terms of paths from the root. */
module ExpandProperties {
  import opened Sequences
  import opened Traversal
  import opened BoundedExpand

  /** The answer holds everything reachable: all nodes but the root, and all edges anchored at
      the root or at one of them. */
  ghost predicate Complete(g: Graph, root: NodeId, walk: Walk) {
    && (forall n :: n in HitIds(walk.nodes) <==> n != root && Reachable(g, [root], n))
    && (forall e :: e in walk.edges <==> ReachableEdge(g, root, e))
  }

  ghost predicate ReachableEdge(g: Graph, root: NodeId, e: Edge) {
    exists n :: Reachable(g, [root], n) && e in g.adj(n)
  }

  lemma KnownIsReachable(g: Graph, root: NodeId, k: nat, n: NodeId)
    requires n in Known(g, [root], k)
    ensures Reachable(g, [root], n)
  {
    var q := KnownHasPath(g, [root], k, n);
  }

  lemma ReachableIsKnown(g: Graph, root: NodeId, depth: nat, n: NodeId)
    requires (forall m :: m in Layer(g, [root], depth) ==> g.adj(m) == []) && Reachable(g, [root], n)
    ensures n in Known(g, [root], depth)
  {
    var q :| Path(g, [root], q) && q[|q| - 1] == n;
    PathIsKnown(g, [root], |q| - 1, q);
    if |q| - 1 <= depth {
      KnownGrowsTo(g, [root], |q| - 1, depth);
    } else {
      KnownStops(g, [root], depth, |q| - 1);
    }
  }

  lemma RootApart(root: NodeId, ids: seq<NodeId>, all: seq<NodeId>)
    requires [root] + ids <= all && Distinct(all)
    ensures root !in ids
  {
    assert all[0] == ([root] + ids)[0];
    assert forall i :: 0 <= i < |ids| ==> ids[i] == ([root] + ids)[i + 1] == all[i + 1] != all[0];
  }

  lemma EdgeOfKnown(g: Graph, root: NodeId, depth: nat, e: Edge)
    requires depth > 0 && (forall m :: m in Layer(g, [root], depth) ==> g.adj(m) == [])
    ensures e in Flow(g, Known(g, [root], depth - 1)) <==> ReachableEdge(g, root, e)
  {
    hide Flow, Discover, Known, Layer, Reachable;
    var anchors := Known(g, [root], depth - 1);
    FlowHas(g, anchors, e);
    if n :| n in anchors && e in g.adj(n) {
      KnownIsReachable(g, root, depth - 1, n);
    }
    if ReachableEdge(g, root, e) {
      var n :| Reachable(g, [root], n) && e in g.adj(n);
      ReachableIsKnown(g, root, depth, n);
      KnownNext(g, [root], depth);
    }
  }

  /** When the flag is false the answer is complete, whatever the depth limit was. */
  lemma UntruncatedIsComplete(g: Graph, root: NodeId, depth: nat, maxNodes: nat, maxEdges: nat, walk: Walk)
    requires depth > 0 && Outcome(g, root, depth, maxNodes, maxEdges, walk) && !walk.truncated
    ensures Complete(g, root, walk)
  {
    hide Flow, Discover, Known, Layer, Reachable, HopOk, BudgetLeft, ReachableEdge;
    var known := Known(g, [root], depth);
    KnownDistinct(g, [root], depth);
    RootApart(root, HitIds(walk.nodes), known);
    forall n
      ensures n in HitIds(walk.nodes) <==> n != root && Reachable(g, [root], n)
    {
      assert n in known <==> n == root || n in HitIds(walk.nodes);
      if n in known {
        KnownIsReachable(g, root, depth, n);
      }
      if Reachable(g, [root], n) {
        ReachableIsKnown(g, root, depth, n);
      }
    }
    forall e
      ensures e in walk.edges <==> ReachableEdge(g, root, e)
    {
      EdgeOfKnown(g, root, depth, e);
    }
  }

  lemma FlowDistinct(g: Graph, anchors: seq<NodeId>)
    requires UniqueIds(g) && Distinct(anchors)
    ensures Distinct(Flow(g, anchors))
  {
    if anchors != [] {
      var front, last := anchors[..|anchors| - 1], anchors[|anchors| - 1];
      FlowDistinct(g, front);
      AnchorIsFresh(g, anchors, |front|, g.adj(last));
      assert forall e :: e in Flow(g, front) ==> e.id in EdgeIds(Flow(g, front));
    }
  }

  /** An unlimited walk that saw less than everything misses an edge. */
  lemma CutMisses(g: Graph, root: NodeId, depth: nat, walk: Walk)
    requires UniqueIds(g) && depth > 0
    requires walk.edges <= Flow(g, Known(g, [root], depth - 1)) && |walk.edges| < |Flow(g, Known(g, [root], depth - 1))|
    ensures !Complete(g, root, walk)
  {
    hide Flow, Discover, Known, Layer, Reachable;
    var anchors := Known(g, [root], depth - 1);
    var all := Flow(g, anchors);
    var e := all[|walk.edges|];
    KnownDistinct(g, [root], depth - 1);
    FlowDistinct(g, anchors);
    FlowHas(g, anchors, e);
    var n :| n in anchors && e in g.adj(n);
    KnownIsReachable(g, root, depth - 1, n);
    assert ReachableEdge(g, root, e);
  }

  lemma NodeCapMisses(g: Graph, root: NodeId, depth: nat, walk: Walk)
    requires [root] + HitIds(walk.nodes) <= Known(g, [root], depth) && |Known(g, [root], depth)| > |walk.nodes| + 1
    ensures !Complete(g, root, walk)
  {
    hide Flow, Discover, Known, Layer, Reachable;
    var known := Known(g, [root], depth);
    var n := known[|walk.nodes| + 1];
    KnownDistinct(g, [root], depth);
    KnownIsReachable(g, root, depth, n);
    assert known[0] == root;
    assert forall i :: 0 <= i < |walk.nodes| ==> HitIds(walk.nodes)[i] == known[i + 1];
  }

  lemma BeyondMisses(g: Graph, root: NodeId, depth: nat, walk: Walk, n: NodeId)
    requires UniqueIds(g) && depth > 0 && walk.edges == Flow(g, Known(g, [root], depth - 1))
    requires n in Layer(g, [root], depth) && g.adj(n) != []
    ensures !Complete(g, root, walk)
  {
    hide Flow, Discover, Known, Layer, Reachable;
    var anchors := Known(g, [root], depth - 1);
    KnownNext(g, [root], depth);
    KnownDistinct(g, [root], depth);
    DistinctParts(anchors, Layer(g, [root], depth));
    assert n in Known(g, [root], depth);
    KnownIsReachable(g, root, depth, n);
    var e := g.adj(n)[0];
    FlowHas(g, anchors, e);
    assert forall m :: m in anchors && e in g.adj(m) ==> m == n;
    assert ReachableEdge(g, root, e);
  }

  /** Everything known to the walk's last anchor: when the budget ran out in front of anchor p
      and nothing is missing, the anchors from p on have no edges. */
  lemma NothingLeft(g: Graph, root: NodeId, depth: nat, walk: Walk, p: nat)
    requires UniqueIds(g) && depth > 0 && p < |Known(g, [root], depth - 1)|
    requires walk.edges == Flow(g, Known(g, [root], depth - 1)[..p]) && Complete(g, root, walk)
    ensures var anchors := Known(g, [root], depth - 1); g.adj(anchors[|anchors| - 1]) == []
  {
    hide Discover, Known, Layer, Reachable, Complete;
    var anchors := Known(g, [root], depth - 1);
    FlowOfPrefix(g, anchors[..p], anchors);
    if |walk.edges| < |Flow(g, anchors)| {
      CutMisses(g, root, depth, walk);
    } else {
      FlowOfPrefix(g, anchors[..p], anchors[..|anchors| - 1]);
    }
  }

  lemma FlagAndResult(g: Graph, root: NodeId, depth: nat, maxNodes: nat, maxEdges: nat, walk: Walk)
    requires UniqueIds(g) && depth > 0 && Outcome(g, root, depth, maxNodes, maxEdges, walk)
    ensures var anchors := Known(g, [root], depth - 1);
      && anchors != []
      && (walk.truncated <==>
            || !Complete(g, root, walk)
            || (|walk.edges| == maxEdges && g.adj(anchors[|anchors| - 1]) == []))
  {
    hide Discover, Known, Layer, Reachable, Complete, HopOk;
    KnownGrowsTo(g, [root], 0, depth - 1);
    RootLayer(g, root);
    var anchors := Known(g, [root], depth - 1);
    if !walk.truncated {
      UntruncatedIsComplete(g, root, depth, maxNodes, maxEdges, walk);
      assert |Flow(g, anchors[..|anchors| - 1])| < maxEdges;
    } else if Finished(g, root, depth, maxEdges, walk) {
      var n :| n in Layer(g, [root], depth) && g.adj(n) != [];
      BeyondMisses(g, root, depth, walk, n);
    } else if |walk.nodes| == maxNodes && |Known(g, [root], depth)| > maxNodes + 1 {
      NodeCapMisses(g, root, depth, walk);
    } else if |walk.edges| < |Flow(g, anchors)| {
      CutMisses(g, root, depth, walk);
    } else {
      var p :| 0 <= p < |anchors| && walk.edges == Flow(g, anchors[..p]);
      if Complete(g, root, walk) {
        NothingLeft(g, root, depth, walk, p);
      }
    }
  }

  /** The flag is exact up to one case, which can be told from the graph and the request: it is also raised
      when the nodes within the depth limit have just as many edges as the budget and the last of them none. */
  lemma TruncatedExactly(g: Graph, root: NodeId, depth: nat, maxNodes: nat, maxEdges: nat, walk: Walk)
    requires UniqueIds(g) && depth > 0 && Outcome(g, root, depth, maxNodes, maxEdges, walk)
    ensures var anchors := Known(g, [root], depth - 1);
      && anchors != []
      && (walk.truncated <==>
            || !Complete(g, root, walk)
            || (|Flow(g, anchors)| == maxEdges && g.adj(anchors[|anchors| - 1]) == []))
  {
    FlagAndResult(g, root, depth, maxNodes, maxEdges, walk);
    hide Discover, Known, Flow, Layer, Reachable, Complete, HopOk;
    if |walk.edges| < |Flow(g, Known(g, [root], depth - 1))| {
      CutMisses(g, root, depth, walk);
    }
  }

  /** Each recorded hop is the true shortest distance of the edge's anchor plus one. */
  lemma HopIsDistance(g: Graph, root: NodeId, depth: nat, maxNodes: nat, maxEdges: nat, walk: Walk, e: Edge)
    requires depth > 0 && Outcome(g, root, depth, maxNodes, maxEdges, walk) && e in walk.edges
    ensures e.id in walk.hops && walk.hops[e.id] > 0
    ensures exists n :: AtDistance(g, [root], n, walk.hops[e.id] - 1) && e in g.adj(n)
  {
    hide Discover, Known, Flow, AtDistance;
    assert HopOk(g, root, e, walk.hops);
    var n :| n in Layer(g, [root], walk.hops[e.id] - 1) && e in g.adj(n);
    LayerIsDistance(g, [root], walk.hops[e.id] - 1, n);
  }

  /** The lists of a capped walk are prefixes of those of any walk of the same depth whose
      budgets do not bind. */
  lemma CappedIsPrefix(g: Graph, root: NodeId, depth: nat, maxNodes: nat, maxEdges: nat, walk: Walk,
                       bigNodes: nat, bigEdges: nat, big: Walk)
    requires depth > 0
    requires Outcome(g, root, depth, maxNodes, maxEdges, walk) && Outcome(g, root, depth, bigNodes, bigEdges, big)
    requires bigEdges > |Flow(g, Known(g, [root], depth - 1))| && bigNodes >= |Known(g, [root], depth)|
    ensures walk.edges <= big.edges && HitIds(walk.nodes) <= HitIds(big.nodes)
  {
    hide Discover, Known, Flow, Layer, HopOk;
    assert Finished(g, root, depth, bigEdges, big);
    assert forall i :: 0 <= i < |walk.nodes| ==> HitIds(walk.nodes)[i] == Known(g, [root], depth)[i + 1];
    assert forall i :: 0 <= i < |big.nodes| ==> HitIds(big.nodes)[i] == Known(g, [root], depth)[i + 1];
  }

  const ONE_EDGE := Edge("e", "", "static_calls", "r", "x")

  function OneEdgeGraph(): Graph {
    Graph((n: NodeId) => if n == "r" then [ONE_EDGE] else [], (d: Edge) => d.dst, (n: NodeId) => true)
  }

  lemma OneEdgeFlows(g: Graph)
    requires g == OneEdgeGraph()
    ensures UniqueIds(g)
    ensures Flow(g, []) == [] && Flow(g, ["r"]) == [ONE_EDGE] == Flow(g, ["r", "x"])
  {
    assert Flow(g, []) == [];
    hide Flow;
    assert [] + ["r"] == ["r"] && ["r"] + ["x"] == ["r", "x"];
    FlowSnoc(g, [], "r");
    FlowSnoc(g, ["r"], "x");
    assert g.adj("r") == [ONE_EDGE] && g.adj("x") == [];
    assert [] + [ONE_EDGE] == [ONE_EDGE] == [ONE_EDGE] + [];
  }

  lemma OneEdgeLists(g: Graph)
    requires g == OneEdgeGraph()
    ensures Known(g, ["r"], 0) == ["r"] && Known(g, ["r"], 1) == ["r", "x"] == Known(g, ["r"], 2)
    ensures Layer(g, ["r"], 0) == ["r"] && Layer(g, ["r"], 2) == []
    ensures Discover(g, ["r"], [ONE_EDGE]) == ["r", "x"]
  {
    OneEdgeFlows(g);
    hide Flow, UniqueIds;
    assert Discover(g, ["r"], []) == ["r"];
    DiscoverSnoc(g, ["r"], [], ONE_EDGE);
    assert [] + [ONE_EDGE] == [ONE_EDGE] && ["r"] + ["x"] == ["r", "x"];
    hide Discover;
    assert Known(g, ["r"], 0) == ["r"];
    assert Known(g, ["r"], 1) == ["r", "x"];
    assert Known(g, ["r"], 2) == ["r", "x"];
  }

  lemma OneEdgeWalk(g: Graph, maxNodes: nat, maxEdges: nat) returns (walk: Walk)
    requires g == OneEdgeGraph() && maxNodes > 0 && maxEdges > 1
    ensures walk == Walk([ONE_EDGE], map["e" := 1], [NodeHit("x", "", "", "")], false)
    ensures Outcome(g, "r", 2, maxNodes, maxEdges, walk)
  {
    hide Flow, Discover, Known, Layer;
    OneEdgeFlows(g);
    OneEdgeLists(g);
    walk := Walk([ONE_EDGE], map["e" := 1], [NodeHit("x", "", "", "")], false);
    var known := Known(g, ["r"], 1);
    assert known[..0] == [] && known[..1] == ["r"];
    assert "r" in Layer(g, ["r"], walk.hops["e"] - 1) && ONE_EDGE in g.adj("r");
    assert HopOk(g, "r", ONE_EDGE, walk.hops);
    assert ["r"] + HitIds(walk.nodes) == ["r", "x"];
  }

  /** The exception happens: with one edge and an edge budget of one, every walk raises the flag although
      nothing is missing. */
  lemma FilledBudgetRaisesFlag(walk: Walk)
    requires Outcome(OneEdgeGraph(), "r", 2, 1, 1, walk)
    ensures walk.truncated && Complete(OneEdgeGraph(), "r", walk)
  {
    hide Outcome, Complete;
    var g := OneEdgeGraph();
    OneEdgeTruncated(g, walk);
    var calm := OneEdgeWalk(g, 2, 2);
    UntruncatedIsComplete(g, "r", 2, 2, 2, calm);
    assert HitIds(walk.nodes) == HitIds(calm.nodes);
    SameLists(g, "r", calm, walk);
  }

  lemma SameLists(g: Graph, root: NodeId, a: Walk, b: Walk)
    requires a.edges == b.edges && HitIds(a.nodes) == HitIds(b.nodes)
    ensures Complete(g, root, a) ==> Complete(g, root, b)
  {
    hide ReachableEdge, Reachable;
  }

  lemma OneEdgeTruncated(g: Graph, walk: Walk)
    requires g == OneEdgeGraph() && Outcome(g, "r", 2, 1, 1, walk)
    ensures walk.truncated && walk.edges == [ONE_EDGE] && HitIds(walk.nodes) == ["x"]
  {
    hide Flow, Discover, Known, Layer, HopOk;
    OneEdgeFlows(g);
    OneEdgeLists(g);
    var known := Known(g, ["r"], 1);
    assert known[..0] == [] && known[..1] == ["r"];
    assert !Finished(g, "r", 2, 1, walk);
    assert |walk.edges| == 1;
    assert walk.edges == [ONE_EDGE];
    assert ["r"] + HitIds(walk.nodes) == ["r", "x"];
    assert (["r"] + HitIds(walk.nodes))[1..] == HitIds(walk.nodes);
  }
}
