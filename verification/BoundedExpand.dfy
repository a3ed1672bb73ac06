/** agent.expand: the layered walk with depth, node and edge budgets, against breadth-first order. */
module BoundedExpand {
  import opened GraphReader
  import opened Sequences
  import opened Traversal
  import opened Wrappers

  datatype Direction = Callees | Callers

  /** The reader: fixed edge lists, of which a call returns the first `limit` rows. */
  datatype Walker = Walker(graph: Graph, listFails: NodeId -> Option<Failure>, getNode: NodeId -> Lookup)

  /** The graph that a direction walks; an edge reaches its other end. */
  function Directed(callees: NodeId -> seq<Edge>, callers: NodeId -> seq<Edge>, d: Direction): Graph {
    match d
    case Callees => Graph(callees, (e: Edge) => e.dst, (n: NodeId) => true)
    case Callers => Graph(callers, (e: Edge) => e.src, (n: NodeId) => true)
  }

  datatype NodeHit = NodeHit(nodeId: NodeId, repoId: string, kind: string, signature: string)

  /** The accumulating result and the bookkeeping of the walk. */
  datatype Bfs = Bfs(
    edges: seq<Edge>,
    hops: map<string, nat>,
    nodes: seq<NodeHit>,
    seenNodes: set<NodeId>,
    seenEdges: set<string>,
    nextLayer: seq<NodeId>)

  datatype Walk = Walk(edges: seq<Edge>, hops: map<string, nat>, nodes: seq<NodeHit>, truncated: bool)

  function HitIds(nodes: seq<NodeHit>): (r: seq<NodeId>)
    ensures |r| == |nodes|
    ensures forall i :: 0 <= i < |nodes| ==> r[i] == nodes[i].nodeId
  {
    seq(|nodes|, i requires 0 <= i < |nodes| => nodes[i].nodeId)
  }

  /** h is the card of its row, or a stub made from the edge e when there is none. */
  predicate Carries(h: NodeHit, e: Edge, found: Lookup) {
    if found.Found? then
      && h.kind == found.card.kind && h.signature == found.card.signature
      && h.repoId == if found.card.repoId != "" then found.card.repoId else e.repoId
    else h.kind == "" && h.signature == "" && h.repoId == e.repoId
  }

  ghost predicate FailsAs(w: Walker, failure: Failure) {
    || (exists n :: w.listFails(n) == Some(failure))
    || (failure.StoreOutage? && exists n :: w.getNode(n).Outage?)
  }

  /** Every edge is from a listing that worked, and every node from a lookup without an outage; it carries the card
      of its row, or a stub made from an edge that reaches it. */
  ghost predicate ReadFrom(w: Walker, edges: seq<Edge>, nodes: seq<NodeHit>) {
    && (forall e :: e in edges ==> exists n :: w.listFails(n).None? && e in w.graph.adj(n))
    && (forall h :: h in nodes ==>
          && !w.getNode(h.nodeId).Outage?
          && exists e :: e in edges && w.graph.reached(e) == h.nodeId && Carries(h, e, w.getNode(h.nodeId)))
  }

  /** No listing of these nodes failed. */
  ghost predicate Listable(w: Walker, nodes: seq<NodeId>) {
    forall n :: n in nodes ==> w.listFails(n).None?
  }

  lemma ReadMore(w: Walker, edges: seq<Edge>, nodes: seq<NodeHit>, e: Edge, anchor: NodeId)
    requires ReadFrom(w, edges, nodes) && w.listFails(anchor).None? && e in w.graph.adj(anchor)
    ensures ReadFrom(w, edges + [e], nodes)
    ensures forall h: NodeHit ::
      (h.nodeId == w.graph.reached(e) && Carries(h, e, w.getNode(h.nodeId)) && !w.getNode(h.nodeId).Outage?) ==>
        ReadFrom(w, edges + [e], nodes + [h])
  {
    assert e in edges + [e];
  }

  /** e was recorded at the hop after its anchor's layer. */
  ghost predicate HopOk(g: Graph, root: NodeId, e: Edge, hops: map<string, nat>) {
    && e.id in hops && hops[e.id] > 0
    && exists n :: n in Layer(g, [root], hops[e.id] - 1) && e in g.adj(n)
  }

  /** The bookkeeping matches the result, and the nodes are those its edges discover. */
  ghost predicate Sync(g: Graph, root: NodeId, s: Bfs) {
    && [root] + HitIds(s.nodes) == Discover(g, [root], s.edges)
    && s.seenNodes == (set n | n in Discover(g, [root], s.edges))
    && s.seenEdges == EdgeIds(s.edges)
    && forall e :: e in s.edges ==> HopOk(g, root, e, s.hops)
  }

  lemma HitIdsSnoc(nodes: seq<NodeHit>, hit: NodeHit)
    ensures HitIds(nodes + [hit]) == HitIds(nodes) + [hit.nodeId]
  {
  }

  /** Recording one more edge. */
  lemma SyncEdge(g: Graph, root: NodeId, s: Bfs, e: Edge, hop: nat, anchor: NodeId)
    requires Sync(g, root, s) && e.id !in s.seenEdges
    requires hop > 0 && anchor in Layer(g, [root], hop - 1) && e in g.adj(anchor)
    ensures var s' := s.(edges := s.edges + [e], hops := s.hops[e.id := hop], seenEdges := s.seenEdges + {e.id});
      && s'.seenEdges == EdgeIds(s'.edges)
      && (forall x :: x in s'.edges ==> HopOk(g, root, x, s'.hops))
      && (!Enters(g, g.reached(e)) || g.reached(e) in s.seenNodes ==> Sync(g, root, s'))
  {
    hide Discover, Layer;
    EdgeIdsSnoc(s.edges, e);
    DiscoverSnoc(g, [root], s.edges, e);
    var hops := s.hops[e.id := hop];
    forall x | x in s.edges + [e]
      ensures HopOk(g, root, x, hops)
    {
      if x in s.edges {
        assert HopOk(g, root, x, s.hops) && x.id in EdgeIds(s.edges);
      }
    }
  }

  /** Recording one more edge and the node it reaches for the first time. */
  lemma SyncNode(g: Graph, root: NodeId, s: Bfs, e: Edge, hop: nat, anchor: NodeId, hit: NodeHit)
    requires Sync(g, root, s) && e.id !in s.seenEdges
    requires hop > 0 && anchor in Layer(g, [root], hop - 1) && e in g.adj(anchor)
    requires Enters(g, g.reached(e)) && g.reached(e) !in s.seenNodes && hit.nodeId == g.reached(e)
    ensures Discover(g, [root], s.edges + [e]) == Discover(g, [root], s.edges) + [g.reached(e)]
    ensures Sync(g, root, s.(edges := s.edges + [e], hops := s.hops[e.id := hop], seenEdges := s.seenEdges + {e.id},
      nodes := s.nodes + [hit], seenNodes := s.seenNodes + {g.reached(e)}, nextLayer := s.nextLayer + [g.reached(e)]))
  {
    hide Discover, HopOk, Layer;
    SyncEdge(g, root, s, e, hop, anchor);
    DiscoverSnoc(g, [root], s.edges, e);
    HitIdsSnoc(s.nodes, hit);
  }

  /** What the node cap leaves: one edge too far for the nodes. */
  ghost predicate NodeCapHit(g: Graph, root: NodeId, s: Bfs, maxNodes: nat) {
    && |s.nodes| == maxNodes
    && |Discover(g, [root], s.edges)| == maxNodes + 2
    && [root] + HitIds(s.nodes) <= Discover(g, [root], s.edges)
    && forall e :: e in s.edges ==> HopOk(g, root, e, s.hops)
  }

  lemma GrowsBy(a: Bfs, b: Bfs, c: Bfs)
    requires a.nodes <= b.nodes && b.nextLayer == a.nextLayer + HitIds(b.nodes)[|a.nodes|..]
    requires b.nodes <= c.nodes && c.nextLayer == b.nextLayer + HitIds(c.nodes)[|b.nodes|..]
    ensures a.nodes <= c.nodes && c.nextLayer == a.nextLayer + HitIds(c.nodes)[|a.nodes|..]
  {
  }

  /** One edge of the inner loop. */
  method AbsorbEdge(w: Walker, root: NodeId, ghost anchor: NodeId, hop: nat, maxNodes: nat, e: Edge, s: Bfs)
    returns (r: Reply<Bfs>, stopped: bool)
    requires Sync(w.graph, root, s) && |s.nodes| <= maxNodes && e.id !in s.seenEdges
    requires forall n :: w.graph.resolves(n)
    requires hop > 0 && anchor in Layer(w.graph, [root], hop - 1) && e in w.graph.adj(anchor)
    requires ReadFrom(w, s.edges, s.nodes) && w.listFails(anchor).None?
    ensures r.Lost? ==> FailsAs(w, r.failure)
    ensures r.Got? ==> ReadFrom(w, r.value.edges, r.value.nodes)
    ensures r.Got? ==> r.value.edges == s.edges + [e] && |r.value.nodes| <= maxNodes
    ensures r.Got? && stopped ==> NodeCapHit(w.graph, root, r.value, maxNodes)
    ensures r.Got? && !stopped ==>
      && Sync(w.graph, root, r.value)
      && s.nodes <= r.value.nodes && r.value.nextLayer == s.nextLayer + HitIds(r.value.nodes)[|s.nodes|..]
  {
    hide Discover, Layer, HopOk, ReadFrom;
    ReadMore(w, s.edges, s.nodes, e, anchor);
    var reachedId := w.graph.reached(e);
    SyncEdge(w.graph, root, s, e, hop, anchor);
    var s1 := s.(edges := s.edges + [e], hops := s.hops[e.id := hop], seenEdges := s.seenEdges + {e.id});
    if reachedId == "" || reachedId in s.seenNodes {
      return Got(s1), false;
    }
    if |s.nodes| >= maxNodes {
      DiscoverSnoc(w.graph, [root], s.edges, e);
      return Got(s1), true;
    }
    var found := w.getNode(reachedId);
    if found.Outage? {
      return Lost(StoreOutage), false;
    }
    var hit := NodeHit(reachedId, e.repoId, "", "");
    if found.Found? {
      hit := hit.(kind := found.card.kind, signature := found.card.signature);
      if found.card.repoId != "" {
        hit := hit.(repoId := found.card.repoId);
      }
    }
    SyncNode(w.graph, root, s, e, hop, anchor, hit);
    HitIdsSnoc(s.nodes, hit);
    return Got(s1.(seenNodes := s.seenNodes + {reachedId}, nodes := s.nodes + [hit],
                    nextLayer := s.nextLayer + [reachedId])), false;
  }

  /** The edges of one anchor, already cut to the remaining edge budget. */
  method AbsorbEdges(w: Walker, root: NodeId, ghost anchor: NodeId, hop: nat, maxNodes: nat, maxEdges: nat,
                     list: seq<Edge>, s0: Bfs)
    returns (r: Reply<Bfs>, stopped: bool)
    requires Sync(w.graph, root, s0) && |s0.nodes| <= maxNodes && |s0.edges| + |list| <= maxEdges
    requires (forall n :: w.graph.resolves(n)) && FreshEdges(s0.seenEdges, list)
    requires hop > 0 && anchor in Layer(w.graph, [root], hop - 1) && forall e :: e in list ==> e in w.graph.adj(anchor)
    requires ReadFrom(w, s0.edges, s0.nodes) && w.listFails(anchor).None?
    ensures r.Lost? ==> FailsAs(w, r.failure)
    ensures r.Got? ==> ReadFrom(w, r.value.edges, r.value.nodes)
    ensures r.Got? ==> |r.value.nodes| <= maxNodes && |r.value.edges| <= maxEdges
    ensures r.Got? && !stopped ==>
      && Sync(w.graph, root, r.value)
      && r.value.edges == s0.edges + list
      && s0.nodes <= r.value.nodes && r.value.nextLayer == s0.nextLayer + HitIds(r.value.nodes)[|s0.nodes|..]
    ensures r.Got? && stopped ==>
      && NodeCapHit(w.graph, root, r.value, maxNodes)
      && exists j :: 0 <= j <= |list| && r.value.edges == s0.edges + list[..j]
  {
    hide Discover, Layer, HopOk, NodeCapHit, ReadFrom;
    var s := s0;
    assert s0.edges + list[..0] == s0.edges;
    for j := 0 to |list|
      invariant Sync(w.graph, root, s) && ReadFrom(w, s.edges, s.nodes)
      invariant s.edges == s0.edges + list[..j]
      invariant |s.nodes| <= maxNodes
      invariant s0.nodes <= s.nodes && s.nextLayer == s0.nextLayer + HitIds(s.nodes)[|s0.nodes|..]
    {
      FreshNext(s0.edges, list, j);
      if list[j].id in s.seenEdges {
        assert false;
      } else if |s.edges| >= maxEdges {
        assert false;
      } else {
        var next, full := AbsorbEdge(w, root, anchor, hop, maxNodes, list[j], s);
        if next.Lost? {
          return next, false;
        }
        if full {
          assert next.value.edges == s0.edges + list[..j + 1];
          return next, true;
        }
        GrowsBy(s0, s, next.value);
        s := next.value;
      }
    }
    assert list[..|list|] == list;
    return Got(s), false;
  }

  /* ---- The walk against breadth-first order ---- */

  /** The nodes are those that the edges reach, in order of discovery, but for the one that the node cap left out. */
  ghost predicate Entered(g: Graph, root: NodeId, maxNodes: nat, edges: seq<Edge>, nodes: seq<NodeHit>) {
    var reached := Discover(g, [root], edges);
    || [root] + HitIds(nodes) == reached
    || (|nodes| == maxNodes && |reached| == maxNodes + 2 && [root] + HitIds(nodes) <= reached)
  }

  /** Whatever the budgets, the result is a prefix of the unlimited walk of this depth. */
  ghost predicate PrefixOfWalk(g: Graph, root: NodeId, depth: nat, maxNodes: nat, maxEdges: nat,
                               edges: seq<Edge>, hops: map<string, nat>, nodes: seq<NodeHit>)
    requires depth > 0
  {
    && edges <= Flow(g, Known(g, [root], depth - 1)) && |edges| <= maxEdges
    && [root] + HitIds(nodes) <= Known(g, [root], depth) && |nodes| <= maxNodes
    && Entered(g, root, maxNodes, edges, nodes)
    && forall e :: e in edges ==> HopOk(g, root, e, hops)
  }

  /** A budget ended the walk: no edge budget was left when an anchor's turn came, an anchor's
      list was cut, or a node was left out. */
  ghost predicate BudgetEnded(g: Graph, root: NodeId, depth: nat, maxNodes: nat, maxEdges: nat,
                              edges: seq<Edge>, nodes: seq<NodeHit>)
    requires depth > 0
  {
    var anchors := Known(g, [root], depth - 1);
    || (|edges| == maxEdges && exists p :: 0 <= p < |anchors| && edges == Flow(g, anchors[..p]))
    || (|edges| == maxEdges && |edges| < |Flow(g, anchors)|)
    || (|nodes| == maxNodes && |Known(g, [root], depth)| > maxNodes + 1)
  }

  /** Every one of the first n anchors found some edge budget left. */
  ghost predicate BudgetLeft(g: Graph, anchors: seq<NodeId>, n: nat, maxEdges: nat) {
    forall p :: 0 <= p < n && p < |anchors| ==> |Flow(g, anchors[..p])| < maxEdges
  }

  lemma SyncIsPrefix(g: Graph, root: NodeId, k: nat, s: Bfs, maxNodes: nat, maxEdges: nat)
    requires Sync(g, root, s) && s.edges <= Flow(g, Known(g, [root], k))
    requires |s.edges| <= maxEdges && |s.nodes| <= maxNodes
    ensures PrefixOfWalk(g, root, k + 1, maxNodes, maxEdges, s.edges, s.hops, s.nodes)
    ensures s.edges == Flow(g, Known(g, [root], k)) ==> [root] + HitIds(s.nodes) == Known(g, [root], k + 1)
  {
    DiscoverOfPrefix(g, [root], s.edges, Flow(g, Known(g, [root], k)));
  }

  lemma NodeCapIsPrefix(g: Graph, root: NodeId, k: nat, s: Bfs, maxNodes: nat, maxEdges: nat)
    requires NodeCapHit(g, root, s, maxNodes) && s.edges <= Flow(g, Known(g, [root], k)) && |s.edges| <= maxEdges
    ensures PrefixOfWalk(g, root, k + 1, maxNodes, maxEdges, s.edges, s.hops, s.nodes)
    ensures BudgetEnded(g, root, k + 1, maxNodes, maxEdges, s.edges, s.nodes)
  {
    DiscoverOfPrefix(g, [root], s.edges, Flow(g, Known(g, [root], k)));
  }

  lemma DeeperWalk(g: Graph, root: NodeId, k: nat, depth: nat, maxNodes: nat, maxEdges: nat,
                   edges: seq<Edge>, hops: map<string, nat>, nodes: seq<NodeHit>)
    requires 0 < k <= depth
    requires PrefixOfWalk(g, root, k, maxNodes, maxEdges, edges, hops, nodes)
    requires BudgetEnded(g, root, k, maxNodes, maxEdges, edges, nodes)
    ensures PrefixOfWalk(g, root, depth, maxNodes, maxEdges, edges, hops, nodes)
    ensures BudgetEnded(g, root, depth, maxNodes, maxEdges, edges, nodes)
  {
    hide HopOk, Known, Flow, HitIds;
    KnownGrowsTo(g, [root], k, depth);
    KnownGrowsTo(g, [root], k - 1, depth - 1);
    var shallow, deep := Known(g, [root], k - 1), Known(g, [root], depth - 1);
    FlowOfPrefix(g, shallow, deep);
    assert forall p :: 0 <= p < |shallow| ==> shallow[..p] == deep[..p];
  }

  /** The state at the head of the anchor loop of layer k, p anchors of the whole list done. */
  ghost predicate AtAnchor(g: Graph, root: NodeId, k: nat, p: nat, maxNodes: nat, maxEdges: nat, s: Bfs) {
    var known := Known(g, [root], k);
    && p <= |known|
    && Sync(g, root, s)
    && |s.nodes| <= maxNodes && |s.edges| <= maxEdges
    && s.edges == Flow(g, known[..p])
    && BudgetLeft(g, known, p, maxEdges)
    && |known| <= |s.nodes| + 1 && s.nextLayer == ([root] + HitIds(s.nodes))[|known|..]
  }

  /** The state after the edge budget cut an anchor's list. */
  ghost predicate ListCut(g: Graph, root: NodeId, k: nat, maxNodes: nat, maxEdges: nat, s: Bfs) {
    && Sync(g, root, s)
    && |s.nodes| <= maxNodes && |s.edges| == maxEdges
    && s.edges <= Flow(g, Known(g, [root], k)) && |s.edges| < |Flow(g, Known(g, [root], k))|
  }

  lemma NextAnchor(g: Graph, root: NodeId, k: nat, p: nat, maxNodes: nat, maxEdges: nat,
                   s: Bfs, list: seq<Edge>, s': Bfs)
    requires AtAnchor(g, root, k, p, maxNodes, maxEdges, s) && |s.edges| < maxEdges
    requires p < |Known(g, [root], k)| && list <= g.adj(Known(g, [root], k)[p])
    requires Sync(g, root, s') && s'.edges == s.edges + list && |s'.nodes| <= maxNodes && |s'.edges| <= maxEdges
    requires s.nodes <= s'.nodes && s'.nextLayer == s.nextLayer + HitIds(s'.nodes)[|s.nodes|..]
    ensures list == g.adj(Known(g, [root], k)[p]) ==> AtAnchor(g, root, k, p + 1, maxNodes, maxEdges, s')
    ensures list != g.adj(Known(g, [root], k)[p]) && |s'.edges| == maxEdges ==>
      ListCut(g, root, k, maxNodes, maxEdges, s')
  {
    hide Known, Flow, Discover, HopOk;
    var known := Known(g, [root], k);
    assert known[..p + 1] == known[..p] + [known[p]];
    FlowSnoc(g, known[..p], known[p]);
    FlowOfPrefix(g, known[..p + 1], known);
    assert HitIds(s'.nodes) == HitIds(s.nodes) + HitIds(s'.nodes)[|s.nodes|..];
  }

  lemma StopAtAnchor(g: Graph, root: NodeId, k: nat, p: nat, maxNodes: nat, maxEdges: nat, s: Bfs)
    requires AtAnchor(g, root, k, p, maxNodes, maxEdges, s) && p < |Known(g, [root], k)| && |s.edges| == maxEdges
    ensures PrefixOfWalk(g, root, k + 1, maxNodes, maxEdges, s.edges, s.hops, s.nodes)
    ensures BudgetEnded(g, root, k + 1, maxNodes, maxEdges, s.edges, s.nodes)
  {
    hide Flow, Discover, HopOk;
    FlowOfPrefix(g, Known(g, [root], k)[..p], Known(g, [root], k));
    SyncIsPrefix(g, root, k, s, maxNodes, maxEdges);
  }

  lemma StopAfterCut(g: Graph, root: NodeId, k: nat, maxNodes: nat, maxEdges: nat, s: Bfs)
    requires ListCut(g, root, k, maxNodes, maxEdges, s)
    ensures PrefixOfWalk(g, root, k + 1, maxNodes, maxEdges, s.edges, s.hops, s.nodes)
    ensures BudgetEnded(g, root, k + 1, maxNodes, maxEdges, s.edges, s.nodes)
  {
    hide Flow, Discover, HopOk;
    SyncIsPrefix(g, root, k, s, maxNodes, maxEdges);
  }

  lemma StopAtNode(g: Graph, root: NodeId, k: nat, p: nat, maxNodes: nat, maxEdges: nat,
                   s: Bfs, list: seq<Edge>, j: nat, s': Bfs)
    requires AtAnchor(g, root, k, p, maxNodes, maxEdges, s)
    requires p < |Known(g, [root], k)| && list <= g.adj(Known(g, [root], k)[p])
    requires j <= |list| && s'.edges == s.edges + list[..j] && |s'.edges| <= maxEdges
    requires NodeCapHit(g, root, s', maxNodes)
    ensures PrefixOfWalk(g, root, k + 1, maxNodes, maxEdges, s'.edges, s'.hops, s'.nodes)
    ensures BudgetEnded(g, root, k + 1, maxNodes, maxEdges, s'.edges, s'.nodes)
  {
    hide Flow, Discover, HopOk, Known;
    var known := Known(g, [root], k);
    assert known[..p + 1] == known[..p] + [known[p]];
    FlowSnoc(g, known[..p], known[p]);
    FlowOfPrefix(g, known[..p + 1], known);
    NodeCapIsPrefix(g, root, k, s', maxNodes, maxEdges);
  }

  /** One layer. truncated also carries the flag in; stopped: the walk returned from here. */
  method WalkLayer(w: Walker, root: NodeId, hop: nat, maxNodes: nat, maxEdges: nat, layer: seq<NodeId>,
                   s0: Bfs, truncated0: bool)
    returns (r: Reply<Bfs>, truncated: bool, stopped: bool)
    requires UniqueIds(w.graph) && (forall n :: w.graph.resolves(n))
    requires hop > 0 && maxNodes > 0 && maxEdges > 0 && layer != []
    requires !truncated0 ==>
      && layer == Layer(w.graph, [root], hop - 1)
      && AtAnchor(w.graph, root, hop - 1, LayerStart(w.graph, [root], hop - 1), maxNodes, maxEdges, s0)
    requires truncated0 ==> ListCut(w.graph, root, hop - 1, maxNodes, maxEdges, s0)
    requires ReadFrom(w, s0.edges, s0.nodes)
    ensures r.Lost? ==> FailsAs(w, r.failure)
    ensures r.Got? ==> ReadFrom(w, r.value.edges, r.value.nodes)
    ensures r.Got? && stopped ==>
      && truncated
      && PrefixOfWalk(w.graph, root, hop, maxNodes, maxEdges, r.value.edges, r.value.hops, r.value.nodes)
      && BudgetEnded(w.graph, root, hop, maxNodes, maxEdges, r.value.edges, r.value.nodes)
    ensures r.Got? && !stopped ==> Listable(w, layer) && (truncated0 ==> truncated)
    ensures r.Got? && !stopped ==>
      if truncated then ListCut(w.graph, root, hop - 1, maxNodes, maxEdges, r.value)
      else AtAnchor(w.graph, root, hop - 1, |Known(w.graph, [root], hop - 1)|, maxNodes, maxEdges, r.value)
  {
    hide Known, Layer, Flow, Discover, HopOk, Sync, LayerStart, ListCut, PrefixOfWalk, BudgetEnded, BudgetLeft,
         ReadFrom;
    var g, k := w.graph, hop - 1;
    ghost var start, known := LayerStart(g, [root], k), Known(g, [root], k);
    truncated := truncated0;
    var s := s0;
    for a := 0 to |layer|
      invariant ReadFrom(w, s.edges, s.nodes) && Listable(w, layer[..a]) && (truncated0 ==> truncated)
      invariant if truncated then ListCut(g, root, k, maxNodes, maxEdges, s)
        else layer == Layer(g, [root], k) && AtAnchor(g, root, k, start + a, maxNodes, maxEdges, s)
    {
      var remaining := maxEdges - |s.edges|;
      if !truncated {
        LayerWithin(g, [root], k);
      }
      if remaining <= 0 {
        if truncated {
          StopAfterCut(g, root, k, maxNodes, maxEdges, s);
        } else {
          StopAtAnchor(g, root, k, start + a, maxNodes, maxEdges, s);
        }
        return Got(s), true, true;
      }
      CutIsFull(g, root, k, maxNodes, maxEdges, s);
      var anchor := layer[a];
      if w.listFails(anchor).Some? {
        return Lost(w.listFails(anchor).value), truncated, true;
      }
      var all := g.adj(anchor);
      var list := if |all| > remaining + 1 then all[..remaining + 1] else all;
      if |list| > remaining {
        truncated := true;
        list := list[..remaining];
      }
      ListIsFresh(g, root, k, start + a, maxNodes, maxEdges, s, list);
      var next, full := AbsorbEdges(w, root, anchor, hop, maxNodes, maxEdges, list, s);
      if next.Lost? {
        return next, truncated, true;
      }
      if full {
        ghost var j :| 0 <= j <= |list| && next.value.edges == s.edges + list[..j];
        StopAtNode(g, root, k, start + a, maxNodes, maxEdges, s, list, j, next.value);
        return next, true, true;
      }
      NextAnchor(g, root, k, start + a, maxNodes, maxEdges, s, list, next.value);
      s := next.value;
    }
    LayerWithin(g, [root], k);
    assert layer[..|layer|] == layer;
    return Got(s), truncated, false;
  }

  lemma ListIsFresh(g: Graph, root: NodeId, k: nat, p: nat, maxNodes: nat, maxEdges: nat, s: Bfs, list: seq<Edge>)
    requires UniqueIds(g) && AtAnchor(g, root, k, p, maxNodes, maxEdges, s)
    requires p < |Known(g, [root], k)| && list <= g.adj(Known(g, [root], k)[p])
    ensures FreshEdges(s.seenEdges, list)
    ensures forall e :: e in list ==> e in g.adj(Known(g, [root], k)[p])
  {
    hide Flow, Discover, Known, HopOk;
    KnownDistinct(g, [root], k);
    AnchorIsFresh(g, Known(g, [root], k), p, list);
  }

  lemma CutIsFull(g: Graph, root: NodeId, k: nat, maxNodes: nat, maxEdges: nat, s: Bfs)
    ensures ListCut(g, root, k, maxNodes, maxEdges, s) ==> |s.edges| == maxEdges
  {
  }

  predicate SeesUnseenEdge(g: Graph, frontier: seq<NodeId>, seenEdges: set<string>) {
    exists i :: 0 <= i < |frontier| && g.adj(frontier[i]) != [] && g.adj(frontier[i])[0].id !in seenEdges
  }

  /** Would one more hop produce output? Looks at the first edge of each boundary node. */
  method ProbeBeyondDepth(w: Walker, frontier: seq<NodeId>, seenEdges: set<string>) returns (r: Reply<bool>)
    ensures r.Lost? ==> FailsAs(w, r.failure)
    ensures r.Got? ==> r.value == SeesUnseenEdge(w.graph, frontier, seenEdges)
    ensures r.Got? && !r.value ==> Listable(w, frontier)
  {
    for a := 0 to |frontier|
      invariant forall i :: 0 <= i < a ==> w.listFails(frontier[i]).None?
      invariant forall i :: 0 <= i < a && w.graph.adj(frontier[i]) != [] ==> w.graph.adj(frontier[i])[0].id in seenEdges
    {
      if w.listFails(frontier[a]).Some? {
        return Lost(w.listFails(frontier[a]).value);
      }
      var all := w.graph.adj(frontier[a]);
      var edges := if |all| > 1 then all[..1] else all;
      for j := 0 to |edges|
        invariant forall i :: 0 <= i < j ==> edges[i].id in seenEdges
      {
        if edges[j].id !in seenEdges {
          return Got(true);
        }
      }
    }
    return Got(false);
  }

  /** No budget ended the walk: it is the unlimited walk of this depth, every anchor found some
      budget left, and the flag says whether an edge lies beyond the depth limit. */
  ghost predicate Finished(g: Graph, root: NodeId, depth: nat, maxEdges: nat, walk: Walk)
    requires depth > 0
  {
    var anchors := Known(g, [root], depth - 1);
    && walk.edges == Flow(g, anchors)
    && [root] + HitIds(walk.nodes) == Known(g, [root], depth)
    && BudgetLeft(g, anchors, |anchors|, maxEdges)
    && (walk.truncated <==> exists n :: n in Layer(g, [root], depth) && g.adj(n) != [])
  }

  ghost predicate Outcome(g: Graph, root: NodeId, depth: nat, maxNodes: nat, maxEdges: nat, walk: Walk)
    requires depth > 0
  {
    && PrefixOfWalk(g, root, depth, maxNodes, maxEdges, walk.edges, walk.hops, walk.nodes)
    && (|| Finished(g, root, depth, maxEdges, walk)
        || (walk.truncated && BudgetEnded(g, root, depth, maxNodes, maxEdges, walk.edges, walk.nodes)))
  }

  lemma NextLayerReady(g: Graph, root: NodeId, k: nat, maxNodes: nat, maxEdges: nat, s: Bfs)
    requires AtAnchor(g, root, k, |Known(g, [root], k)|, maxNodes, maxEdges, s)
    ensures s.nextLayer == Layer(g, [root], k + 1)
    ensures AtAnchor(g, root, k + 1, LayerStart(g, [root], k + 1), maxNodes, maxEdges, s.(nextLayer := []))
    ensures PrefixOfWalk(g, root, k + 1, maxNodes, maxEdges, s.edges, s.hops, s.nodes)
    ensures s.edges == Flow(g, Known(g, [root], k)) && [root] + HitIds(s.nodes) == Known(g, [root], k + 1)
  {
    hide Flow, Discover, HopOk;
    var known, next := Known(g, [root], k), Known(g, [root], k + 1);
    assert known[..|known|] == known;
    SyncIsPrefix(g, root, k, s, maxNodes, maxEdges);
    KnownGrows(g, [root], k);
    assert forall p :: 0 <= p <= |known| ==> known[..p] == next[..p];
  }

  /** A layer without nodes: deeper lists are the same. */
  lemma EmptyLayer(g: Graph, root: NodeId, k: nat, depth: nat)
    requires 0 < k < depth && Layer(g, [root], k) == []
    ensures LayerStart(g, [root], k) == |Known(g, [root], k)|
    ensures Known(g, [root], depth - 1) == Known(g, [root], k) == Known(g, [root], depth)
    ensures Layer(g, [root], depth) == []
  {
    hide Flow, Discover;
    LayerWithin(g, [root], k);
    KnownStops(g, [root], k, depth - 1);
    KnownStops(g, [root], k, depth);
    KnownNext(g, [root], depth);
  }

  lemma EmptyLayerFinishes(g: Graph, root: NodeId, k: nat, depth: nat, maxNodes: nat, maxEdges: nat, s: Bfs)
    requires 0 < k < depth && Layer(g, [root], k) == []
    requires AtAnchor(g, root, k, LayerStart(g, [root], k), maxNodes, maxEdges, s)
    requires [root] + HitIds(s.nodes) == Known(g, [root], k)
    ensures Outcome(g, root, depth, maxNodes, maxEdges, Walk(s.edges, s.hops, s.nodes, false))
  {
    hide Flow, Discover, HopOk, Known, Layer;
    EmptyLayer(g, root, k, depth);
    var known := Known(g, [root], k);
    assert known[..|known|] == known;
  }

  lemma CutDeeper(g: Graph, root: NodeId, k: nat, maxNodes: nat, maxEdges: nat, s: Bfs)
    requires ListCut(g, root, k, maxNodes, maxEdges, s)
    ensures ListCut(g, root, k + 1, maxNodes, maxEdges, s.(nextLayer := []))
  {
    hide Flow, Discover, HopOk;
    KnownGrows(g, [root], k);
    FlowOfPrefix(g, Known(g, [root], k), Known(g, [root], k + 1));
  }

  lemma LaterAnchorIsFresh(g: Graph, known: seq<NodeId>, layer: seq<NodeId>, i: nat)
    requires UniqueIds(g) && Distinct(known + layer) && i < |layer| && g.adj(layer[i]) != []
    ensures g.adj(layer[i])[0].id !in EdgeIds(Flow(g, known))
  {
    hide Flow;
    var all := known + layer;
    assert all[..|known| + i][..|known|] == known;
    FlowOfPrefix(g, known, all[..|known| + i]);
    AnchorIsFresh(g, all, |known| + i, g.adj(layer[i]));
    assert forall e :: e in Flow(g, known) ==> e in Flow(g, all[..|known| + i]);
  }

  /** The probe sees an unseen edge exactly when a boundary node has an edge at all. */
  lemma ProbeIsExact(g: Graph, root: NodeId, k: nat, s: Bfs)
    requires UniqueIds(g) && Sync(g, root, s) && s.edges == Flow(g, Known(g, [root], k))
    ensures forall n :: n in Layer(g, [root], k + 1) && g.adj(n) != [] ==> g.adj(n)[0].id !in s.seenEdges
  {
    hide Flow, Discover, HopOk, Known, Layer, Distinct, UniqueIds;
    KnownNext(g, [root], k + 1);
    OneDistinct(root);
    KnownDistinct(g, [root], k + 1);
    var known, layer := Known(g, [root], k), Layer(g, [root], k + 1);
    forall n | n in layer && g.adj(n) != []
      ensures g.adj(n)[0].id !in s.seenEdges
    {
      var i :| 0 <= i < |layer| && layer[i] == n;
      LaterAnchorIsFresh(g, known, layer, i);
    }
  }

  lemma OneDistinct(root: NodeId)
    ensures Distinct([root])
  {
  }

  /** The last layer is done: the probe decides the flag. */
  lemma LastLayerFinishes(g: Graph, root: NodeId, depth: nat, maxNodes: nat, maxEdges: nat, s: Bfs, beyond: bool)
    requires UniqueIds(g) && depth > 0
    requires AtAnchor(g, root, depth - 1, |Known(g, [root], depth - 1)|, maxNodes, maxEdges, s)
    requires beyond == (s.nextLayer != [] && SeesUnseenEdge(g, s.nextLayer, s.seenEdges))
    ensures Outcome(g, root, depth, maxNodes, maxEdges, Walk(s.edges, s.hops, s.nodes, beyond))
  {
    hide Flow, Discover, HopOk, Known, Layer;
    NextLayerReady(g, root, depth - 1, maxNodes, maxEdges, s);
    ProbeIsExact(g, root, depth - 1, s);
    var layer := Layer(g, [root], depth);
    assert beyond ==> exists n :: n in layer && g.adj(n) != [] by {
      if beyond {
        var i :| 0 <= i < |layer| && g.adj(layer[i]) != [] && g.adj(layer[i])[0].id !in s.seenEdges;
        assert layer[i] in layer;
      }
    }
    if n :| n in layer && g.adj(n) != [] {
      var i :| 0 <= i < |layer| && layer[i] == n;
      assert SeesUnseenEdge(g, layer, s.seenEdges);
    }
  }

  lemma CutEnds(g: Graph, root: NodeId, k: nat, depth: nat, maxNodes: nat, maxEdges: nat, s: Bfs)
    requires k < depth && ListCut(g, root, k, maxNodes, maxEdges, s)
    ensures Outcome(g, root, depth, maxNodes, maxEdges, Walk(s.edges, s.hops, s.nodes, true))
  {
    hide Flow, Discover, HopOk, Known, Layer;
    StopAfterCut(g, root, k, maxNodes, maxEdges, s);
    DeeperWalk(g, root, k + 1, depth, maxNodes, maxEdges, s.edges, s.hops, s.nodes);
  }

  lemma WalkStarts(g: Graph, root: NodeId, maxNodes: nat, maxEdges: nat)
    ensures AtAnchor(g, root, 0, 0, maxNodes, maxEdges, Bfs([], map[], [], {root}, {}, []))
  {
  }

  /** No listing of these nodes failed, but for those of the layer that is still to be walked. */
  ghost predicate ListableBut(w: Walker, nodes: seq<NodeId>, layer: seq<NodeId>, open: bool) {
    forall n :: n in nodes ==> w.listFails(n).None? || (open && n in layer)
  }

  lemma LayerListed(w: Walker, root: NodeId, hop: nat, maxNodes: nat, maxEdges: nat, layer: seq<NodeId>, s: Bfs,
                    open: bool)
    requires hop > 0 && AtAnchor(w.graph, root, hop - 1, |Known(w.graph, [root], hop - 1)|, maxNodes, maxEdges, s)
    requires ListableBut(w, Known(w.graph, [root], hop - 1), layer, true) && Listable(w, layer)
    requires open || Listable(w, s.nextLayer)
    ensures ListableBut(w, [root] + HitIds(s.nodes), s.nextLayer, open)
  {
    NextLayerReady(w.graph, root, hop - 1, maxNodes, maxEdges, s);
    KnownNext(w.graph, [root], hop);
    hide Known, Layer, Flow, Discover, AtAnchor, PrefixOfWalk;
  }

  /** bfsExpand. It fails only as some listing failed or some node lookup met an outage. */
  method BfsExpand(w: Walker, root: NodeId, depth: int, maxNodes: nat, maxEdges: nat) returns (r: Reply<Walk>)
    requires UniqueIds(w.graph) && (forall n :: w.graph.resolves(n))
    requires maxNodes > 0 && maxEdges > 0
    ensures r.Lost? ==> FailsAs(w, r.failure)
    ensures depth <= 0 ==> r == Got(Walk([], map[], [], false))
    ensures r.Got? ==> ReadFrom(w, r.value.edges, r.value.nodes)
    ensures depth > 0 && r.Got? ==> Outcome(w.graph, root, depth, maxNodes, maxEdges, r.value)
    ensures depth > 0 && r.Got? && !r.value.truncated ==> Listable(w, [root] + HitIds(r.value.nodes))
  {
    hide Known, Layer, Flow, Discover, HopOk, Sync, LayerStart, ListCut, BudgetLeft, AtAnchor, PrefixOfWalk,
         BudgetEnded, Finished, SeesUnseenEdge;
    if depth <= 0 {
      return Got(Walk([], map[], [], false));
    }
    var g := w.graph;
    var s := Bfs([], map[], [], {root}, {}, []);
    var currentLayer := [root];
    var truncated, beyond := false, false;
    WalkStarts(g, root, maxNodes, maxEdges);
    RootLayer(g, root);
    var hop := 1;
    while hop <= depth && currentLayer != []
      invariant 1 <= hop <= depth + 1 && ReadFrom(w, s.edges, s.nodes)
      invariant hop == 1 ==> !truncated && currentLayer == [root]
      invariant truncated ==> hop >= 2 && ListCut(g, root, hop - 2, maxNodes, maxEdges, s)
      invariant !truncated && hop <= depth ==>
        && currentLayer == Layer(g, [root], hop - 1)
        && AtAnchor(g, root, hop - 1, LayerStart(g, [root], hop - 1), maxNodes, maxEdges, s.(nextLayer := []))
        && [root] + HitIds(s.nodes) == Known(g, [root], hop - 1)
      invariant !truncated && hop == depth + 1 ==>
        Outcome(g, root, depth, maxNodes, maxEdges, Walk(s.edges, s.hops, s.nodes, beyond))
      invariant hop <= depth ==> !beyond
      invariant !truncated && !beyond ==> ListableBut(w, [root] + HitIds(s.nodes), currentLayer, hop <= depth)
      decreases depth - hop
    {
      if truncated {
        CutDeeper(g, root, hop - 2, maxNodes, maxEdges, s);
      }
      var next, cut, stopped := WalkLayer(w, root, hop, maxNodes, maxEdges, currentLayer,
                                           s.(nextLayer := []), truncated);
      if next.Lost? {
        return Lost(next.failure);
      }
      s := next.value;
      if stopped {
        DeeperWalk(g, root, hop, depth, maxNodes, maxEdges, s.edges, s.hops, s.nodes);
        return Got(Walk(s.edges, s.hops, s.nodes, true));
      }
      truncated := cut;
      if hop == depth && s.nextLayer != [] {
        var probe := ProbeBeyondDepth(w, s.nextLayer, s.seenEdges);
        if probe.Lost? {
          return Lost(probe.failure);
        }
        beyond := probe.value;
      }
      if !truncated {
        if hop == depth {
          LastLayerFinishes(g, root, depth, maxNodes, maxEdges, s, beyond);
        } else {
          NextLayerReady(g, root, hop - 1, maxNodes, maxEdges, s);
        }
        LayerListed(w, root, hop, maxNodes, maxEdges, currentLayer, s, hop < depth || beyond);
      }
      currentLayer := s.nextLayer;
      hop := hop + 1;
    }
    if truncated {
      CutEnds(g, root, hop - 2, depth, maxNodes, maxEdges, s);
    } else if hop <= depth {
      EmptyLayerFinishes(g, root, hop - 1, depth, maxNodes, maxEdges, s.(nextLayer := []));
    }
    return Got(Walk(s.edges, s.hops, s.nodes, truncated || beyond));
  }

  lemma RootLayer(g: Graph, root: NodeId)
    ensures Layer(g, [root], 0) == [root] == Known(g, [root], 0) && LayerStart(g, [root], 0) == 0
    ensures [root] + HitIds([]) == [root]
  {
  }
}
