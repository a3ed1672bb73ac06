/** The recall expander: a breadth-first walk from many seeds with one shared edge budget,
    entering only nodes that resolve. */
module SeedExpansion {
  import opened GraphReader
  import opened SeedExpander
  import opened Sequences
  import opened Traversal
  import opened Wrappers

  const MAX_EXPANSION_DEPTH: int := 2

  datatype Reader = Reader(
    adj: NodeId -> seq<Edge>,
    listFails: NodeId -> Option<Failure>,
    getNode: NodeId -> Lookup,
    counter: Option<seq<string> -> CountAnswer>)

  /** Edges lead to their destination; only nodes with a row are entered. */
  function Outbound(r: Reader): Graph {
    Graph(r.adj, (e: Edge) => e.dst, (n: NodeId) => r.getNode(n).Found?)
  }

  /** An expansion before the observation counts. */
  datatype Walked = Walked(edges: seq<Edge>, frontier: seq<FrontierNode>)

  datatype State = State(
    edges: seq<Edge>,
    frontier: seq<FrontierNode>,
    visited: set<NodeId>,
    seenEdges: set<string>,
    frontierIdx: map<NodeId, nat>,
    nextLayer: seq<NodeId>)

  function FrontierIds(frontier: seq<FrontierNode>): (r: seq<NodeId>)
    ensures |r| == |frontier|
    ensures forall i :: 0 <= i < |frontier| ==> r[i] == frontier[i].nodeId
  {
    seq(|frontier|, i requires 0 <= i < |frontier| => frontier[i].nodeId)
  }

  /** dedupeStrings: non-empty strings, first occurrences only. */
  function Deduped(xs: seq<string>): (r: seq<string>) {
    if xs == [] then []
    else
      var front := Deduped(xs[..|xs| - 1]);
      var x := xs[|xs| - 1];
      if x == "" || x in front then front else front + [x]
  }

  lemma {:induction false} DedupedMeans(xs: seq<string>)
    ensures Distinct(Deduped(xs))
    ensures forall x :: x in Deduped(xs) <==> x in xs && x != ""
  {
    if xs != [] {
      DedupedMeans(xs[..|xs| - 1]);
      assert xs == xs[..|xs| - 1] + [xs[|xs| - 1]];
    }
  }

  /** The first occurrences, in order. */
  lemma {:induction false} DedupedGrows(xs: seq<string>, n: nat)
    requires n <= |xs|
    ensures Deduped(xs[..n]) <= Deduped(xs)
  {
    if n < |xs| {
      DedupedGrows(xs[..|xs| - 1], n);
      assert xs[..|xs| - 1][..n] == xs[..n];
    } else {
      assert xs[..n] == xs;
    }
  }

  method DedupeStrings(xs: seq<string>) returns (r: seq<string>)
    ensures r == Deduped(xs)
  {
    var seen: set<string> := {};
    r := [];
    for i := 0 to |xs|
      invariant r == Deduped(xs[..i])
      invariant seen == set x | x in r
    {
      assert xs[..i + 1][..i] == xs[..i];
      if xs[i] != "" && xs[i] !in seen {
        seen := seen + {xs[i]};
        r := r + [xs[i]];
      }
    }
    assert xs[..|xs|] == xs;
  }

  /** Every frontier node sits in the layer of its hop. */
  ghost predicate HopsOk(g: Graph, roots: seq<NodeId>, frontier: seq<FrontierNode>) {
    forall f :: f in frontier ==> f.hop > 0 && f.nodeId in Layer(g, roots, f.hop)
  }

  /** Every frontier node carries the card of its row. */
  ghost predicate Hydrated(rd: Reader, frontier: seq<FrontierNode>) {
    forall f :: f in frontier ==>
      && rd.getNode(f.nodeId).Found?
      && var card := rd.getNode(f.nodeId).card;
      && f.repoId == card.repoId && f.kind == card.kind && f.signature == card.signature
      && f.bestSeedScore == 0.0
  }

  /** Every edge is from a listing that worked, the far end of each was looked up without an error unless it is a
      root, and the frontier carries what was found. */
  ghost predicate ReadFrom(rd: Reader, roots: seq<NodeId>, s: State) {
    && (forall e :: e in s.edges ==>
          (exists n :: rd.listFails(n).None? && e in rd.adj(n)) && (e.dst == "" || e.dst in s.visited))
    && (forall n :: n in s.visited ==> n in roots || !Fails(rd.getNode(n)))
    && Hydrated(rd, s.frontier)
  }

  /** No listing of these nodes failed. */
  ghost predicate Listable(rd: Reader, nodes: seq<NodeId>) {
    forall n :: n in nodes ==> rd.listFails(n).None?
  }

  lemma ReadNothing(rd: Reader, roots: seq<NodeId>, visited: set<NodeId>)
    requires forall n :: n in visited ==> n in roots
    ensures ReadFrom(rd, roots, State([], [], visited, {}, map[], []))
  {
  }

  lemma ReadAlike(rd: Reader, roots: seq<NodeId>, s: State)
    requires ReadFrom(rd, roots, s)
    ensures ReadFrom(rd, roots, s.(nextLayer := []))
  {
  }

  lemma ReadEdge(rd: Reader, roots: seq<NodeId>, s: State, e: Edge, anchor: NodeId, visited: set<NodeId>)
    requires ReadFrom(rd, roots, s) && rd.listFails(anchor).None? && e in rd.adj(anchor)
    requires s.visited <= visited <= s.visited + {e.dst} && (e.dst == "" || e.dst in visited)
    requires e.dst in s.visited || !Fails(rd.getNode(e.dst)) || visited == s.visited
    ensures ReadFrom(rd, roots, s.(edges := s.edges + [e], seenEdges := s.seenEdges + {e.id}, visited := visited))
  {
  }

  lemma ReadNode(rd: Reader, roots: seq<NodeId>, s: State, f: FrontierNode, s': State)
    requires ReadFrom(rd, roots, s) && Hydrated(rd, [f])
    requires s'.edges == s.edges && s'.visited == s.visited && s'.frontier == s.frontier + [f]
    ensures ReadFrom(rd, roots, s')
  {
    assert f in [f];
  }

  ghost predicate Sync(g: Graph, roots: seq<NodeId>, s: State) {
    var known := Discover(g, roots, s.edges);
    && roots + FrontierIds(s.frontier) == known
    && (forall n :: n in known ==> n in s.visited)
    && (forall n :: n in s.visited ==> n in known || !g.resolves(n))
    && s.seenEdges == EdgeIds(s.edges)
    && s.frontierIdx.Keys == (set f | f in s.frontier :: f.nodeId)
    && HopsOk(g, roots, s.frontier)
  }

  /** A node first reached by an edge of layer hop - 1 has distance hop. */
  lemma FirstReached(g: Graph, roots: seq<NodeId>, es: seq<Edge>, e: Edge, hop: nat)
    requires hop > 0 && Distinct(roots)
    requires Known(g, roots, hop - 1) <= Discover(g, roots, es) && es + [e] <= Flow(g, Known(g, roots, hop - 1))
    requires Enters(g, g.reached(e)) && g.reached(e) !in Discover(g, roots, es)
    ensures g.reached(e) in Layer(g, roots, hop)
  {
    hide Layer, Flow;
    var n := g.reached(e);
    DiscoverSnoc(g, roots, es, e);
    DiscoverOfPrefix(g, roots, es + [e], Flow(g, Known(g, roots, hop - 1)));
    var before, after := Known(g, roots, hop - 1), Known(g, roots, hop);
    assert n in Discover(g, roots, es + [e]);
    assert n in after;
    KnownNext(g, roots, hop);
    assert n !in before;
  }

  lemma SyncEdge(g: Graph, roots: seq<NodeId>, s: State, e: Edge)
    requires Sync(g, roots, s) && (!Enters(g, g.reached(e)) || g.reached(e) in s.visited)
    ensures Sync(g, roots, s.(edges := s.edges + [e], seenEdges := s.seenEdges + {e.id}))
    ensures g.reached(e) != "" && !g.resolves(g.reached(e)) ==>
      Sync(g, roots, s.(edges := s.edges + [e], seenEdges := s.seenEdges + {e.id},
        visited := s.visited + {g.reached(e)}))
  {
    hide HopsOk, Discover;
    EdgeIdsSnoc(s.edges, e);
    DiscoverSnoc(g, roots, s.edges, e);
  }

  lemma FrontierIdsSnoc(frontier: seq<FrontierNode>, f: FrontierNode)
    ensures FrontierIds(frontier + [f]) == FrontierIds(frontier) + [f.nodeId]
    ensures (set x | x in frontier + [f] :: x.nodeId) == (set x | x in frontier :: x.nodeId) + {f.nodeId}
  {
    assert f in frontier + [f];
    assert forall x :: x in frontier + [f] <==> x in frontier || x == f;
  }

  lemma SyncNode(g: Graph, roots: seq<NodeId>, s: State, e: Edge, f: FrontierNode)
    requires Sync(g, roots, s) && Enters(g, g.reached(e)) && g.reached(e) !in s.visited
    requires f.nodeId == g.reached(e) && f.hop > 0 && f.nodeId in Layer(g, roots, f.hop)
    ensures Sync(g, roots, s.(edges := s.edges + [e], seenEdges := s.seenEdges + {e.id},
      visited := s.visited + {f.nodeId}, frontierIdx := s.frontierIdx[f.nodeId := |s.frontier|],
      frontier := s.frontier + [f], nextLayer := s.nextLayer + [f.nodeId]))
  {
    hide Discover, Layer;
    EdgeIdsSnoc(s.edges, e);
    DiscoverSnoc(g, roots, s.edges, e);
    FrontierIdsSnoc(s.frontier, f);
    var known, known' := Discover(g, roots, s.edges), Discover(g, roots, s.edges + [e]);
    assert known' == known + [f.nodeId];
    assert roots + FrontierIds(s.frontier + [f]) == known';
  }

  /** One edge of a listing. None: an error ends the call. */
  method AbsorbEdge(rd: Reader, ghost roots: seq<NodeId>, ghost anchor: NodeId, hop: nat, e: Edge, s: State)
    returns (r: Reply<State>)
    requires Distinct(roots) && hop > 0 && Sync(Outbound(rd), roots, s) && e.id !in s.seenEdges
    requires ReadFrom(rd, roots, s) && rd.listFails(anchor).None? && e in rd.adj(anchor)
    requires Known(Outbound(rd), roots, hop - 1) <= Discover(Outbound(rd), roots, s.edges)
    requires s.edges + [e] <= Flow(Outbound(rd), Known(Outbound(rd), roots, hop - 1))
    ensures r.Lost? ==> FailsAs(rd, r.failure)
    ensures r.Got? ==>
      && ReadFrom(rd, roots, r.value)
      && Sync(Outbound(rd), roots, r.value)
      && r.value.edges == s.edges + [e]
      && s.frontier <= r.value.frontier
      && r.value.nextLayer == s.nextLayer + FrontierIds(r.value.frontier)[|s.frontier|..]
  {
    hide Discover, Layer, Flow, Known, HopsOk, Distinct, ReadFrom, FrontierIds;
    var g := Outbound(rd);
    var dst := e.dst;
    var s1 := s.(edges := s.edges + [e], seenEdges := s.seenEdges + {e.id});
    if dst == "" || dst in s.visited {
      SyncEdge(g, roots, s, e);
      ReadEdge(rd, roots, s, e, anchor, s.visited);
      return Got(s1);
    }
    match rd.getNode(dst)
    case Outage =>
      return Lost(StoreOutage);
    case OtherError =>
      return Lost(ReadError);
    case NotFound =>
      SyncEdge(g, roots, s, e);
      ReadEdge(rd, roots, s, e, anchor, s.visited + {dst});
      return Got(s1.(visited := s.visited + {dst}));
    case Found(card) =>
      FirstReached(g, roots, s.edges, e, hop);
      var f := FrontierNode(dst, card.repoId, card.kind, card.signature, hop, 0.0);
      SyncNode(g, roots, s, e, f);
      ReadEdge(rd, roots, s, e, anchor, s.visited + {dst});
      FrontierIdsSnoc(s.frontier, f);
      NotInFrontier(g, roots, s, dst);
      if dst in s.frontierIdx {
        // Already pinned at a hop: lower it when this one is closer.
        assert false;
      }
      var s2 := s1.(visited := s.visited + {dst}, frontierIdx := s.frontierIdx[dst := |s.frontier|],
                    frontier := s.frontier + [f], nextLayer := s.nextLayer + [dst]);
      ReadNode(rd, roots, s1.(visited := s.visited + {dst}), f, s2);
      return Got(s2);
  }

  lemma NotInFrontier(g: Graph, roots: seq<NodeId>, s: State, n: NodeId)
    requires Sync(g, roots, s) && n !in s.visited
    ensures n !in s.frontierIdx
  {
    hide Discover, HopsOk;
    forall f | f in s.frontier
      ensures f.nodeId in s.visited
    {
      var i :| 0 <= i < |s.frontier| && s.frontier[i] == f;
      assert (roots + FrontierIds(s.frontier))[|roots| + i] == f.nodeId;
    }
  }

  /** The anchor loop of layer k, p anchors of the whole list done and some budget left, or the
      budget spent. */
  ghost predicate AtAnchor(g: Graph, roots: seq<NodeId>, k: nat, p: nat, fanOut: nat, s: State) {
    var known := Known(g, roots, k);
    && p <= |known| && |roots| <= |known|
    && Sync(g, roots, s)
    && |s.edges| <= fanOut
    && known <= Discover(g, roots, s.edges)
    && (if |s.edges| == fanOut then s.edges <= Flow(g, known) else s.edges == Flow(g, known[..p]))
    && s.nextLayer == (roots + FrontierIds(s.frontier))[|known|..]
  }

  lemma GrowsBy(a: State, b: State, c: State)
    requires a.frontier <= b.frontier && b.nextLayer == a.nextLayer + FrontierIds(b.frontier)[|a.frontier|..]
    requires b.frontier <= c.frontier && c.nextLayer == b.nextLayer + FrontierIds(c.frontier)[|b.frontier|..]
    ensures a.frontier <= c.frontier && c.nextLayer == a.nextLayer + FrontierIds(c.frontier)[|a.frontier|..]
  {
  }

  /** The rows of one listing, at most as many as the budget has left. */
  method AbsorbEdges(rd: Reader, ghost roots: seq<NodeId>, ghost anchor: NodeId, hop: nat, fanOut: nat,
                     list: seq<Edge>, s0: State)
    returns (r: Reply<State>)
    requires Distinct(roots) && hop > 0 && Sync(Outbound(rd), roots, s0) && ReadFrom(rd, roots, s0)
    requires rd.listFails(anchor).None? && forall e :: e in list ==> e in rd.adj(anchor)
    requires FreshEdges(s0.seenEdges, list) && |s0.edges| + |list| <= fanOut
    requires Known(Outbound(rd), roots, hop - 1) <= Discover(Outbound(rd), roots, s0.edges)
    requires s0.edges + list <= Flow(Outbound(rd), Known(Outbound(rd), roots, hop - 1))
    ensures r.Lost? ==> FailsAs(rd, r.failure)
    ensures r.Got? ==>
      && ReadFrom(rd, roots, r.value)
      && Sync(Outbound(rd), roots, r.value)
      && r.value.edges == s0.edges + list
      && s0.frontier <= r.value.frontier
      && r.value.nextLayer == s0.nextLayer + FrontierIds(r.value.frontier)[|s0.frontier|..]
  {
    hide Discover, Layer, Flow, Known, HopsOk, ReadFrom;
    var g := Outbound(rd);
    var s := s0;
    assert s0.edges + list[..0] == s0.edges;
    for j := 0 to |list|
      invariant Sync(g, roots, s) && ReadFrom(rd, roots, s)
      invariant s.edges == s0.edges + list[..j]
      invariant s0.frontier <= s.frontier && s.nextLayer == s0.nextLayer + FrontierIds(s.frontier)[|s0.frontier|..]
    {
      FreshNext(s0.edges, list, j);
      if |s.edges| >= fanOut {
        assert false;
      } else if list[j].id in s.seenEdges {
        assert false;
      } else {
        DiscoverOfPrefix(g, roots, s0.edges, s.edges);
        assert s0.edges + list == s.edges + [list[j]] + list[j + 1..];
        var next := AbsorbEdge(rd, roots, anchor, hop, list[j], s);
        if next.Lost? {
          return next;
        }
        GrowsBy(s0, s, next.value);
        s := next.value;
      }
    }
    assert list[..|list|] == list;
    return Got(s);
  }

  lemma AnchorReady(g: Graph, roots: seq<NodeId>, k: nat, p: nat, fanOut: nat, s: State, list: seq<Edge>)
    requires UniqueIds(g) && Distinct(roots) && AtAnchor(g, roots, k, p, fanOut, s) && |s.edges| < fanOut
    requires p < |Known(g, roots, k)| && list <= g.adj(Known(g, roots, k)[p])
    ensures FreshEdges(s.seenEdges, list)
    ensures s.edges + list <= Flow(g, Known(g, roots, k)[..p + 1]) <= Flow(g, Known(g, roots, k))
    ensures list == g.adj(Known(g, roots, k)[p]) ==> s.edges + list == Flow(g, Known(g, roots, k)[..p + 1])
  {
    hide Flow, Discover, Known, HopsOk;
    var known := Known(g, roots, k);
    KnownDistinct(g, roots, k);
    AnchorIsFresh(g, known, p, list);
    assert known[..p + 1] == known[..p] + [known[p]];
    FlowSnoc(g, known[..p], known[p]);
    FlowOfPrefix(g, known[..p + 1], known);
  }

  lemma NextAnchor(g: Graph, roots: seq<NodeId>, k: nat, p: nat, fanOut: nat, s: State, list: seq<Edge>, s': State)
    requires UniqueIds(g) && Distinct(roots) && AtAnchor(g, roots, k, p, fanOut, s) && |s.edges| < fanOut
    requires p < |Known(g, roots, k)| && list <= g.adj(Known(g, roots, k)[p])
    requires Sync(g, roots, s') && s'.edges == s.edges + list && |s'.edges| <= fanOut
    requires list == g.adj(Known(g, roots, k)[p]) || |s'.edges| == fanOut
    requires s.frontier <= s'.frontier && s'.nextLayer == s.nextLayer + FrontierIds(s'.frontier)[|s.frontier|..]
    ensures AtAnchor(g, roots, k, p + 1, fanOut, s')
  {
    hide Flow, Discover, Known, HopsOk, UniqueIds, Distinct;
    AnchorReady(g, roots, k, p, fanOut, s, list);
    DiscoverOfPrefix(g, roots, s.edges, s'.edges);
    assert FrontierIds(s'.frontier) == FrontierIds(s.frontier) + FrontierIds(s'.frontier)[|s.frontier|..];
  }

  /** One layer. */
  method ExpandLayer(rd: Reader, ghost roots: seq<NodeId>, hop: nat, fanOut: nat, layer: seq<NodeId>, s0: State)
    returns (r: Reply<State>)
    requires UniqueIds(Outbound(rd)) && Distinct(roots) && hop > 0
    requires layer == Layer(Outbound(rd), roots, hop - 1)
    requires AtAnchor(Outbound(rd), roots, hop - 1, LayerStart(Outbound(rd), roots, hop - 1), fanOut, s0)
    requires ReadFrom(rd, roots, s0)
    ensures r.Lost? ==> FailsAs(rd, r.failure)
    ensures r.Got? ==> ReadFrom(rd, roots, r.value)
    ensures r.Got? && |r.value.edges| < fanOut ==> Listable(rd, layer)
    ensures r.Got? ==> AtAnchor(Outbound(rd), roots, hop - 1, |Known(Outbound(rd), roots, hop - 1)|, fanOut, r.value)
  {
    hide Discover, Layer, Flow, Known, HopsOk, Sync, LayerStart, ReadFrom;
    var g, k := Outbound(rd), hop - 1;
    ghost var start, known := LayerStart(g, roots, k), Known(g, roots, k);
    LayerWithin(g, roots, k);
    var s := s0;
    for a := 0 to |layer|
      invariant AtAnchor(g, roots, k, start + a, fanOut, s) && ReadFrom(rd, roots, s)
      invariant Listable(rd, layer[..a])
    {
      var remaining := fanOut - |s.edges|;
      if remaining <= 0 {
        break;
      }
      if rd.listFails(layer[a]).Some? {
        return Lost(rd.listFails(layer[a]).value);
      }
      var list := Cut(rd.adj(layer[a]), remaining);
      AnchorReady(g, roots, k, start + a, fanOut, s, list);
      var next := AbsorbEdges(rd, roots, layer[a], hop, fanOut, list, s);
      if next.Lost? {
        return next;
      }
      NextAnchor(g, roots, k, start + a, fanOut, s, list, next.value);
      s := next.value;
    }
    return Got(s);
  }

  /** The answer: the first fanOut edges of the breadth-first walk, and the nodes they enter. */
  ghost predicate Expanded(g: Graph, roots: seq<NodeId>, depth: nat, fanOut: nat, x: Walked)
    requires depth > 0
  {
    && x.edges == Cut(Flow(g, Known(g, roots, depth - 1)), fanOut)
    && roots + FrontierIds(x.frontier) == Discover(g, roots, x.edges)
    && HopsOk(g, roots, x.frontier)
  }

  lemma Starts(g: Graph, roots: seq<NodeId>, fanOut: nat)
    requires fanOut > 0
    ensures AtAnchor(g, roots, 0, 0, fanOut, State([], [], (set n | n in roots), {}, map[], []))
    ensures LayerStart(g, roots, 0) == 0 && Layer(g, roots, 0) == roots
  {
    assert roots + FrontierIds([]) == roots;
  }

  /** After layer k: on to the next one, or the budget is spent and the answer is known. */
  lemma LayerDone(g: Graph, roots: seq<NodeId>, k: nat, depth: nat, fanOut: nat, s: State)
    requires k < depth && AtAnchor(g, roots, k, |Known(g, roots, k)|, fanOut, s)
    ensures |s.edges| < fanOut ==>
      && s.nextLayer == Layer(g, roots, k + 1)
      && AtAnchor(g, roots, k + 1, LayerStart(g, roots, k + 1), fanOut, s.(nextLayer := []))
    ensures |s.edges| == fanOut || k + 1 == depth ==> Expanded(g, roots, depth, fanOut, Walked(s.edges, s.frontier))
  {
    hide Flow, Discover, HopsOk, Known, Layer, Distinct;
    KnownIs(g, roots, k);
    KnownIs(g, roots, depth - 1);
    KnownNext(g, roots, k + 1);
    var known, next := Known(g, roots, k), Known(g, roots, k + 1);
    assert known[..|known|] == known;
    KnownGrows(g, roots, k);
    assert next[..|known|] == known;
    KnownGrowsTo(g, roots, k, depth - 1);
    FlowOfPrefix(g, known, Known(g, roots, depth - 1));
    KnownNext(g, roots, k);
  }

  lemma EmptyLayerDone(g: Graph, roots: seq<NodeId>, k: nat, depth: nat, fanOut: nat, s: State)
    requires k < depth && Layer(g, roots, k) == [] && |s.edges| < fanOut
    requires AtAnchor(g, roots, k, LayerStart(g, roots, k), fanOut, s)
    ensures Expanded(g, roots, depth, fanOut, Walked(s.edges, s.frontier))
  {
    hide Flow, Discover, HopsOk;
    var known := Known(g, roots, k);
    LayerWithin(g, roots, k);
    KnownStops(g, roots, k, depth - 1);
    assert known[..|known|] == known;
  }

  function WalkedOf(x: Expansion): Walked { Walked(EdgesOf(x.edges), x.frontier) }

  ghost predicate FailsAs(rd: Reader, failure: Failure) {
    || (exists n :: rd.listFails(n) == Some(failure))
    || (exists n :: rd.getNode(n) == if failure.StoreOutage? then Outage else OtherError)
  }

  /** No listing of a root or of a frontier node closer than depth failed. */
  ghost predicate AllListable(rd: Reader, roots: seq<NodeId>, depth: nat, frontier: seq<FrontierNode>) {
    && Listable(rd, roots)
    && forall f :: f in frontier && f.hop < depth ==> rd.listFails(f.nodeId).None?
  }

  /** The answer in terms of the reader's lists: its edges are on them, its frontier are the nodes with a row that
      these lead to, and when the budget is not spent the lists of the seeds and of the frontier nodes closer than
      depth are there as a whole. */
  ghost predicate Covers(rd: Reader, seeds: seq<NodeId>, depth: nat, fanOut: nat, x: Expansion) {
    && (forall e :: HasEdge(x.edges, e) ==> exists n :: rd.listFails(n).None? && e in rd.adj(n))
    && (forall f :: f in x.frontier ==>
          f.nodeId != "" && f.nodeId !in seeds && exists e :: HasEdge(x.edges, e) && e.dst == f.nodeId)
    && (forall e :: HasEdge(x.edges, e) ==>
          e.dst == "" || e.dst in seeds || rd.getNode(e.dst).NotFound? || e.dst in FrontierIds(x.frontier))
    && (|x.edges| < fanOut ==>
          && (forall n, e :: n in seeds && n != "" && e in rd.adj(n) ==> HasEdge(x.edges, e) && rd.listFails(n).None?)
          && (forall f, e :: f in x.frontier && f.hop < depth && e in rd.adj(f.nodeId) ==>
                HasEdge(x.edges, e) && rd.listFails(f.nodeId).None?))
  }

  /** GraphReaderExpander.Expand, at most two hops deep. It fails only as some listing, node lookup or the counter
      failed. */
  method Expand(rd: Reader, seeds: seq<NodeId>, depth: int, fanOut: nat) returns (r: Reply<Expansion>)
    requires UniqueIds(Outbound(rd)) && fanOut > 0
    ensures r.Lost? && !FailsAs(rd, r.failure) ==>
      r.failure.StoreOutage? && exists edges :: CountsFor(rd.counter, edges).CountOutage?
    ensures seeds == [] || depth <= 0 ==> r == Got(Expansion([], [], []))
    ensures seeds != [] && depth > 0 && r.Got? ==>
      var limit := if depth >= 2 then 2 else 1;
      && Expanded(Outbound(rd), Deduped(seeds), limit, fanOut, WalkedOf(r.value))
      && Covers(rd, seeds, limit, fanOut, r.value)
      && Hydrated(rd, r.value.frontier) && r.value.frontierNodeIds == []
      && var answer := CountsFor(rd.counter, EdgesOf(r.value.edges));
      !answer.CountOutage? && forall h :: h in r.value.edges ==>
        h.count == if answer.Counts? && h.edge.id in answer.table then answer.table[h.edge.id] else 0
  {
    hide Expanded, Hydrated, EdgesOf, WithCounts, Covers;
    if |seeds| == 0 || depth <= 0 {
      return Got(Expansion([], [], []));
    }
    var limit := if depth > MAX_EXPANSION_DEPTH then MAX_EXPANSION_DEPTH else depth;
    var walked := WalkOut(rd, seeds, limit, fanOut);
    if walked.Lost? {
      return Lost(walked.failure);
    }
    var edges, outage := HydrateCounts(walked.value.edges, rd.counter);
    if outage {
      return Lost(StoreOutage);
    }
    var x := Expansion(edges, walked.value.frontier, []);
    EdgesOfWithCounts(walked.value.edges, TableOf(CountsFor(rd.counter, walked.value.edges)));
    ExpansionCovers(rd, seeds, limit, fanOut, x);
    return Got(x);
  }

  lemma HitsAreEdges(hits: seq<EdgeHit>)
    ensures forall e :: HasEdge(hits, e) <==> e in EdgesOf(hits)
  {
    forall e
      ensures HasEdge(hits, e) <==> e in EdgesOf(hits)
    {
      if h :| h in hits && h.edge == e {
        var i :| 0 <= i < |hits| && hits[i] == h;
        assert EdgesOf(hits)[i] == e;
      }
      if e in EdgesOf(hits) {
        var i :| 0 <= i < |hits| && EdgesOf(hits)[i] == e;
        assert hits[i] in hits;
      }
    }
  }

  /** What the walk has looked at, in the end. */
  ghost predicate LookedAt(rd: Reader, seeds: seq<NodeId>, depth: nat, fanOut: nat, x: Walked) {
    && (forall e :: e in x.edges ==>
          && (exists n :: rd.listFails(n).None? && e in rd.adj(n))
          && (e.dst == "" || e.dst in Deduped(seeds) || !Fails(rd.getNode(e.dst))))
    && (|x.edges| < fanOut ==> AllListable(rd, Deduped(seeds), depth, x.frontier))
  }

  lemma ExpansionCovers(rd: Reader, seeds: seq<NodeId>, depth: nat, fanOut: nat, x: Expansion)
    requires UniqueIds(Outbound(rd)) && depth > 0 && LookedAt(rd, seeds, depth, fanOut, WalkedOf(x))
    requires Expanded(Outbound(rd), Deduped(seeds), depth, fanOut, WalkedOf(x))
    ensures Covers(rd, seeds, depth, fanOut, x)
  {
    hide Flow, Discover, Known, Deduped, UniqueIds, HasEdge, EdgesOf, FrontierIds;
    var g, roots, w := Outbound(rd), Deduped(seeds), WalkedOf(x);
    assert Layer(g, roots, 0) == roots;
    hide Layer;
    HitsAreEdges(x.edges);
    DedupedMeans(seeds);
    forall f | f in x.frontier
      ensures f.nodeId != "" && f.nodeId !in seeds && exists e :: HasEdge(x.edges, e) && e.dst == f.nodeId
    {
      FrontierIsReached(rd, roots, depth, fanOut, w, f);
    }
    forall e | HasEdge(x.edges, e)
      ensures e.dst == "" || e.dst in seeds || rd.getNode(e.dst).NotFound? || e.dst in FrontierIds(x.frontier)
    {
      DiscoverHas(g, roots, w.edges, e.dst);
    }
    if |x.edges| < fanOut {
      forall n, e | n in seeds && n != "" && e in rd.adj(n)
        ensures HasEdge(x.edges, e) && rd.listFails(n).None?
      {
        ListIsThere(g, roots, depth, fanOut, w, n, 0, e);
      }
      forall f, e | f in x.frontier && f.hop < depth && e in rd.adj(f.nodeId)
        ensures HasEdge(x.edges, e) && rd.listFails(f.nodeId).None?
      {
        ListIsThere(g, roots, depth, fanOut, w, f.nodeId, f.hop, e);
      }
    }
  }

  lemma FrontierIsReached(rd: Reader, roots: seq<NodeId>, depth: nat, fanOut: nat, x: Walked, f: FrontierNode)
    requires Distinct(roots) && depth > 0 && Expanded(Outbound(rd), roots, depth, fanOut, x) && f in x.frontier
    ensures f.nodeId != "" && f.nodeId !in roots && exists e :: e in x.edges && e.dst == f.nodeId
  {
    hide Flow, Known, Layer;
    FrontierNodeMeans(Outbound(rd), roots, depth, fanOut, x, f);
    hide Discover;
    var i :| 0 <= i < |x.frontier| && x.frontier[i] == f;
    assert (roots + FrontierIds(x.frontier))[|roots| + i] == f.nodeId;
    DiscoverHas(Outbound(rd), roots, x.edges, f.nodeId);
  }

  /** With budget left, the list of a node closer than depth is there. */
  lemma ListIsThere(g: Graph, roots: seq<NodeId>, depth: nat, fanOut: nat, x: Walked, n: NodeId, hop: nat, e: Edge)
    requires depth > 0 && Expanded(g, roots, depth, fanOut, x) && |x.edges| < fanOut
    requires hop < depth && n in Layer(g, roots, hop) && e in g.adj(n)
    ensures e in x.edges
  {
    hide Flow, Discover;
    LayerInKnown(g, roots, hop, n);
    KnownGrowsTo(g, roots, hop, depth - 1);
    assert n in Known(g, roots, depth - 1);
    FlowHas(g, Known(g, roots, depth - 1), e);
  }

  lemma LayerInKnown(g: Graph, roots: seq<NodeId>, k: nat, n: NodeId)
    requires n in Layer(g, roots, k)
    ensures n in Known(g, roots, k)
  {
    LayerWithin(g, roots, k);
    var a :| 0 <= a < |Layer(g, roots, k)| && Layer(g, roots, k)[a] == n;
  }

  /** The layers, before the counts. */
  method WalkOut(rd: Reader, seeds: seq<NodeId>, limit: nat, fanOut: nat) returns (r: Reply<Walked>)
    requires UniqueIds(Outbound(rd)) && fanOut > 0 && limit > 0
    ensures r.Lost? ==> FailsAs(rd, r.failure)
    ensures r.Got? ==>
      && Expanded(Outbound(rd), Deduped(seeds), limit, fanOut, r.value)
      && Hydrated(rd, r.value.frontier) && LookedAt(rd, seeds, limit, fanOut, r.value)
  {
    hide Flow, Discover, Known, Layer, HopsOk, Sync, AtAnchor, Expanded, LayerStart, Listable, ReadFrom, LookedAt;
    var g := Outbound(rd);
    var currentLayer := DedupeStrings(seeds);
    ghost var roots := currentLayer;
    DedupedMeans(seeds);
    var s := State([], [], (set n | n in currentLayer), {}, map[], []);
    Starts(g, roots, fanOut);
    ReadNothing(rd, roots, s.visited);
    var hop := 1;
    while hop <= limit && currentLayer != [] && |s.edges| < fanOut
      invariant 1 <= hop <= limit + 1 && |s.edges| <= fanOut && ReadFrom(rd, roots, s)
      invariant |s.edges| < fanOut ==> forall j :: 0 <= j < hop - 1 ==> Listable(rd, Layer(g, roots, j))
      invariant |s.edges| < fanOut && hop <= limit ==>
        && currentLayer == Layer(g, roots, hop - 1)
        && AtAnchor(g, roots, hop - 1, LayerStart(g, roots, hop - 1), fanOut, s.(nextLayer := []))
      invariant |s.edges| == fanOut || hop > limit ==> Expanded(g, roots, limit, fanOut, Walked(s.edges, s.frontier))
      decreases limit - hop
    {
      ReadAlike(rd, roots, s);
      var next := ExpandLayer(rd, roots, hop, fanOut, currentLayer, s.(nextLayer := []));
      if next.Lost? {
        return Lost(next.failure);
      }
      s := next.value;
      AtAnchorFits(g, roots, hop - 1, fanOut, s);
      LayerDone(g, roots, hop - 1, limit, fanOut, s);
      currentLayer := s.nextLayer;
      hop := hop + 1;
    }
    if |s.edges| < fanOut && hop <= limit {
      EmptyLayerDone(g, roots, hop - 1, limit, fanOut, s.(nextLayer := []));
      EmptyLayersListable(rd, roots, hop - 1, limit);
    }
    AllLookedAt(rd, seeds, limit, fanOut, s);
    return Got(Walked(s.edges, s.frontier));
  }

  lemma EmptyLayersListable(rd: Reader, roots: seq<NodeId>, k: nat, depth: nat)
    requires Layer(Outbound(rd), roots, k) == []
    ensures forall j :: k <= j < depth ==> Listable(rd, Layer(Outbound(rd), roots, j))
  {
    forall j | k <= j < depth
      ensures Layer(Outbound(rd), roots, j) == []
    {
      if j > k {
        hide Layer;
        KnownStops(Outbound(rd), roots, k, j - 1);
        KnownStops(Outbound(rd), roots, k, j);
        KnownNext(Outbound(rd), roots, j);
      }
    }
  }

  lemma AllLookedAt(rd: Reader, seeds: seq<NodeId>, depth: nat, fanOut: nat, s: State)
    requires depth > 0 && ReadFrom(rd, Deduped(seeds), s)
    requires Expanded(Outbound(rd), Deduped(seeds), depth, fanOut, Walked(s.edges, s.frontier))
    requires |s.edges| < fanOut ==>
      forall j :: 0 <= j < depth ==> Listable(rd, Layer(Outbound(rd), Deduped(seeds), j))
    ensures LookedAt(rd, seeds, depth, fanOut, Walked(s.edges, s.frontier)) && Hydrated(rd, s.frontier)
  {
    hide Flow, Discover, Known, Deduped;
    var g, roots := Outbound(rd), Deduped(seeds);
    assert Layer(g, roots, 0) == roots;
    hide Layer;
    if |s.edges| < fanOut {
      assert Listable(rd, Layer(g, roots, 0));
      forall f | f in s.frontier && f.hop < depth
        ensures rd.listFails(f.nodeId).None?
      {
        assert f.nodeId in Layer(g, roots, f.hop) && Listable(rd, Layer(g, roots, f.hop));
      }
    }
  }

  lemma AtAnchorFits(g: Graph, roots: seq<NodeId>, k: nat, fanOut: nat, s: State)
    requires AtAnchor(g, roots, k, |Known(g, roots, k)|, fanOut, s)
    ensures |s.edges| <= fanOut
  {
  }

  /* ---- What an expansion means ---- */

  ghost predicate DifferentIds(es: seq<Edge>) {
    forall i, j :: 0 <= i < j < |es| ==> es[i].id != es[j].id
  }

  /** At most fanOut edges, with pairwise different ids; the frontier has no duplicates and
      no seed; each hop is the shortest distance from the seeds through resolving nodes. */
  lemma ExpansionMeans(g: Graph, seeds: seq<NodeId>, depth: nat, fanOut: nat, x: Walked)
    requires UniqueIds(g) && depth > 0 && Expanded(g, Deduped(seeds), depth, fanOut, x)
    ensures |x.edges| <= fanOut
    ensures DifferentIds(x.edges)
    ensures Distinct(FrontierIds(x.frontier))
    ensures forall f :: f in x.frontier ==>
      f.nodeId !in seeds && f.hop > 0 && AtDistance(g, Deduped(seeds), f.nodeId, f.hop)
  {
    hide Flow, Discover, Known, Layer, AtDistance, Deduped, UniqueIds, HopsOk;
    var roots := Deduped(seeds);
    DedupedMeans(seeds);
    KnownDistinct(g, roots, depth - 1);
    FlowIdsDiffer(g, Known(g, roots, depth - 1));
    PrefixIdsDiffer(x.edges, Flow(g, Known(g, roots, depth - 1)));
    DiscoverDistinct(g, roots, x.edges);
    DistinctParts(roots, FrontierIds(x.frontier));
    forall f | f in x.frontier
      ensures f.nodeId !in seeds && f.hop > 0 && AtDistance(g, roots, f.nodeId, f.hop)
    {
      FrontierNodeMeans(g, roots, depth, fanOut, x, f);
    }
  }

  lemma PrefixIdsDiffer(es: seq<Edge>, longer: seq<Edge>)
    requires es <= longer && DifferentIds(longer)
    ensures DifferentIds(es)
  {
    assert forall i :: 0 <= i < |es| ==> es[i] == longer[i];
  }

  lemma FrontierNodeMeans(g: Graph, roots: seq<NodeId>, depth: nat, fanOut: nat, x: Walked, f: FrontierNode)
    requires Distinct(roots) && depth > 0 && Expanded(g, roots, depth, fanOut, x) && f in x.frontier
    ensures f.nodeId != "" && f.nodeId !in roots && f.hop > 0 && AtDistance(g, roots, f.nodeId, f.hop)
  {
    hide Flow, Discover, Known, Layer, AtDistance;
    DiscoverDistinct(g, roots, x.edges);
    DistinctParts(roots, FrontierIds(x.frontier));
    LayerIsDistance(g, roots, f.hop, f.nodeId);
    var i :| 0 <= i < |x.frontier| && x.frontier[i] == f;
    DiscoverHas(g, roots, x.edges, f.nodeId);
    assert (roots + FrontierIds(x.frontier))[|roots| + i] == f.nodeId;
    assert FrontierIds(x.frontier)[i] !in roots;
  }

  lemma {:induction false} FlowIdsDiffer(g: Graph, anchors: seq<NodeId>)
    requires UniqueIds(g) && Distinct(anchors)
    ensures DifferentIds(Flow(g, anchors))
  {
    if anchors != [] {
      var front, last := anchors[..|anchors| - 1], anchors[|anchors| - 1];
      FlowIdsDiffer(g, front);
      AnchorIsFresh(g, anchors, |front|, g.adj(last));
      assert forall e :: e in Flow(g, front) ==> e.id in EdgeIds(Flow(g, front));
    }
  }
}
