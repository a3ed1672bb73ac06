/** agent.expand around the walk: request limits, observation counts and the hot-path order. */
module ExpandHandler {
  import opened GraphReader
  import opened SeedExpander
  import opened StableSort
  import opened StringOrder
  import opened Traversal
  import opened BoundedExpand
  import opened ExpandProperties
  import opened Wrappers

  const DEFAULT_EXPAND_DEPTH: nat := 5
  const HARD_EXPAND_DEPTH_CEILING: nat := 10
  const DEFAULT_EXPAND_MAX_NODES: nat := 200
  const DEFAULT_EXPAND_MAX_EDGES: nat := 400

  /** The per-service options; a value that is not positive means the default. */
  datatype Limits = Limits(depth: int, nodes: int, edges: int)

  datatype ExpandRequest = ExpandRequest(nodeId: NodeId, direction: string, depth: int, maxNodes: int, maxEdges: int,
                                         repoId: string)

  datatype ExpandResponse = ExpandResponse(rootNodeId: NodeId, edges: seq<EdgeHit>, nodes: seq<NodeHit>,
                                           truncated: bool)

  datatype ExpandError =
    | InvalidNodeId
    | InvalidDirection
    | InvalidDepth
    | RootMissing
    | RootUnreadable
    | RepoMismatch
    | WalkFailed
    | GraphOutage  // where the snapshot fallback takes over

  datatype Answer = Answered(response: ExpandResponse) | Refused(error: ExpandError)

  function Effective(option: int, default: nat): nat {
    if option > 0 then option else default
  }

  /** 0 asks for the service's depth; nothing gets past that or past the hard ceiling, and a request that would
      comes out at the lower of the two. */
  function ClampDepth(requested: nat, option: int): (d: nat)
    ensures 0 < d <= HARD_EXPAND_DEPTH_CEILING && d <= (if option > 0 then option else DEFAULT_EXPAND_DEPTH)
    ensures d <= requested || requested == 0
    ensures d in [requested, HARD_EXPAND_DEPTH_CEILING, if option > 0 then option else DEFAULT_EXPAND_DEPTH]
  {
    var cap := Effective(option, DEFAULT_EXPAND_DEPTH);
    var depth := if requested == 0 then cap else requested;
    var depth' := if depth > HARD_EXPAND_DEPTH_CEILING then HARD_EXPAND_DEPTH_CEILING else depth;
    if depth' > cap then cap else depth'
  }

  function ClampBudget(requested: int, option: int, default: nat): (b: nat)
    requires default > 0
    ensures 0 < b <= (if option > 0 then option else default)
    ensures b <= requested || requested <= 0
    ensures b in [requested, if option > 0 then option else default]
  {
    var cap := Effective(option, default);
    var budget := if requested <= 0 then cap else requested;
    if budget > cap then cap else budget
  }

  /* ---- The hot-path order ---- */

  function HopOf(hops: map<string, nat>, id: string): nat {
    if id in hops then hops[id] else 0
  }

  predicate Hotter(hops: map<string, nat>, a: EdgeHit, b: EdgeHit) {
    if a.count != b.count then a.count > b.count
    else if HopOf(hops, a.edge.id) != HopOf(hops, b.edge.id) then HopOf(hops, a.edge.id) < HopOf(hops, b.edge.id)
    else Before(a.edge.id, b.edge.id)
  }

  function ByHeat(hops: map<string, nat>): (EdgeHit, EdgeHit) -> bool {
    (a: EdgeHit, b: EdgeHit) => Hotter(hops, a, b)
  }

  lemma HeatIsWeakOrder(hops: map<string, nat>)
    ensures WeakOrder(ByHeat(hops))
  {
    BeforeIsWeakOrder();
    var before, less := BeforeFn(), ByHeat(hops);
    assert forall a, b :: before(a, b) == Before(a, b);
    forall a, b | less(a, b)
      ensures !less(b, a)
    {
      assert before(a.edge.id, b.edge.id) ==> !before(b.edge.id, a.edge.id);
    }
    forall a, b, c | !less(a, b) && !less(b, c)
      ensures !less(a, c)
    {
      assert !before(a.edge.id, b.edge.id) && !before(b.edge.id, c.edge.id) ==> !before(a.edge.id, c.edge.id);
    }
  }

  lemma HeatTies(hops: map<string, nat>, x: EdgeHit, y: EdgeHit)
    requires !Hotter(hops, x, y) && !Hotter(hops, y, x)
    ensures x.edge.id == y.edge.id
  {
    TiesAreOne(x.edge.id, y.edge.id);
  }

  ghost predicate DistinctEdges(ranked: seq<EdgeHit>) {
    forall i, j :: 0 <= i < |ranked| && 0 <= j < |ranked| && ranked[i].edge.id == ranked[j].edge.id ==>
      ranked[i] == ranked[j]
  }

  /** With distinct edge ids there is only one hot-path order: the answer does not depend on the order in
      which the walk met the edges. */
  lemma HotPathsAreCanonical(a: seq<EdgeHit>, b: seq<EdgeHit>, hops: map<string, nat>)
    requires multiset(a) == multiset(b) && DistinctEdges(a)
    ensures Sort(a, ByHeat(hops)) == Sort(b, ByHeat(hops))
  {
    var less := ByHeat(hops);
    HeatIsWeakOrder(hops);
    SortPermutes(a, less);
    SortPermutes(b, less);
    SortSorts(a, less);
    SortSorts(b, less);
    forall x, y | x in multiset(a) && y in multiset(a) && !less(x, y) && !less(y, x)
      ensures x == y
    {
      HeatTies(hops, x, y);
      assert x in a && y in a;
    }
    SortedIsUnique(Sort(a, less), Sort(b, less), less);
  }

  /** Hot paths first: by falling count, then by rising hop, then by id. */
  ghost predicate HotFirst(ranked: seq<EdgeHit>, hops: map<string, nat>) {
    forall i, j :: 0 <= i < j < |ranked| ==>
      var a, b := ranked[i], ranked[j];
      && a.count >= b.count
      && (a.count == b.count ==>
            && HopOf(hops, a.edge.id) <= HopOf(hops, b.edge.id)
            && (HopOf(hops, a.edge.id) == HopOf(hops, b.edge.id) ==> !Before(b.edge.id, a.edge.id)))
  }

  lemma SortedIsHotFirst(ranked: seq<EdgeHit>, hops: map<string, nat>)
    requires Sorted(ranked, ByHeat(hops))
    ensures HotFirst(ranked, hops)
  {
    forall i, j | 0 <= i < j < |ranked|
      ensures !Hotter(hops, ranked[j], ranked[i])
    {
    }
  }

  /* ---- The handler ---- */

  /** The reader: the edges out of and into each node. */
  datatype Store = Store(
    callees: NodeId -> seq<Edge>,
    callers: NodeId -> seq<Edge>,
    listFails: NodeId -> Option<Failure>,
    getNode: NodeId -> Lookup)

  function GraphOf(store: Store, direction: string): Graph {
    Directed(store.callees, store.callers, if direction == "callers" then Callers else Callees)
  }

  function WalkerOf(store: Store, direction: string): Walker {
    Walker(GraphOf(store, direction), store.listFails, store.getNode)
  }

  /** Every answered edge is on one of the lists. */
  ghost predicate OnLists(lists: NodeId -> seq<Edge>, hits: seq<EdgeHit>) {
    forall e :: HasEdge(hits, e) ==> exists n :: e in lists(n)
  }

  /** Every answered node is where an answered edge leads, and not the root. */
  ghost predicate LedTo(far: Edge -> NodeId, root: NodeId, hits: seq<EdgeHit>, ids: seq<NodeId>) {
    forall x :: x in ids ==> x != root && x != "" && exists e :: HasEdge(hits, e) && far(e) == x
  }

  /** The lists of the root and of the answered nodes are there as a whole, and lead nowhere else. */
  ghost predicate Closed(lists: NodeId -> seq<Edge>, far: Edge -> NodeId, root: NodeId, hits: seq<EdgeHit>,
                         ids: seq<NodeId>) {
    forall n, e :: (n == root || n in ids) && e in lists(n) ==>
      HasEdge(hits, e) && (far(e) in ["", root] || far(e) in ids)
  }

  /** The answer in terms of the lists that were asked for, far(e) being the end that an edge leads to. */
  ghost predicate Covers(lists: NodeId -> seq<Edge>, far: Edge -> NodeId, root: NodeId, hits: seq<EdgeHit>,
                         nodes: seq<NodeHit>, truncated: bool) {
    && OnLists(lists, hits)
    && LedTo(far, root, hits, HitIds(nodes))
    && (!truncated ==> Closed(lists, far, root, hits, HitIds(nodes)))
  }

  /** Every node carries the card of its row; one without a row, or whose row could not be read, is a stub. */
  ghost predicate Carded(getNode: NodeId -> Lookup, nodes: seq<NodeHit>) {
    forall x :: x in nodes ==>
      match getNode(x.nodeId)
      case Found(card) => x.kind == card.kind && x.signature == card.signature && card.repoId in ["", x.repoId]
      case Outage => false
      case _ => x.kind == "" && x.signature == ""
  }

  /** The answer of the counter, whatever else goes wrong with it: no count is 0. */
  ghost predicate Counted(counter: Option<seq<string> -> CountAnswer>, edges: seq<Edge>, hits: seq<EdgeHit>) {
    var answer := CountsFor(counter, edges);
    forall h :: h in hits ==>
      h.count == if answer.Counts? && h.edge.id in answer.table then answer.table[h.edge.id] else 0
  }

  /** A served answer is the walk that the clamped limits allow, along callees or callers as asked for, with its
      edges in hot-path order. */
  method Expand(store: Store, limits: Limits, counter: Option<seq<string> -> CountAnswer>, req: ExpandRequest)
    returns (answer: Answer, ghost walk: Walk)
    requires forall d :: UniqueIds(GraphOf(store, d))
    ensures answer == Refused(InvalidNodeId) <==> req.nodeId == ""
    ensures answer == Refused(InvalidDirection) <==> req.nodeId != "" && req.direction !in ["callees", "callers"]
    ensures answer == Refused(InvalidDepth) <==>
      req.nodeId != "" && req.direction in ["callees", "callers"] && req.depth < 0
    ensures req.nodeId != "" && req.direction in ["callees", "callers"] && req.depth >= 0 ==>
      var root := store.getNode(req.nodeId);
      && (answer == Refused(RootMissing) <==> root.NotFound?)
      && (answer == Refused(RootUnreadable) <==> root.OtherError?)
      && (answer == Refused(RepoMismatch) <==> root.Found? && req.repoId != "" && req.repoId != root.card.repoId)
      && (root.Outage? ==> answer == Refused(GraphOutage))
    ensures answer == Refused(WalkFailed) ==> FailsAs(WalkerOf(store, req.direction), ReadError)
    ensures answer == Refused(GraphOutage) ==>
      store.getNode(req.nodeId).Outage? || FailsAs(WalkerOf(store, req.direction), StoreOutage)
    ensures answer.Answered? ==>
      var r := answer.response;
      && req.depth >= 0
      && Outcome(GraphOf(store, req.direction), req.nodeId, ClampDepth(req.depth, limits.depth),
                 ClampBudget(req.maxNodes, limits.nodes, DEFAULT_EXPAND_MAX_NODES),
                 ClampBudget(req.maxEdges, limits.edges, DEFAULT_EXPAND_MAX_EDGES), walk)
      && store.getNode(req.nodeId).Found? && r.rootNodeId == store.getNode(req.nodeId).card.nodeId
      && r.nodes == walk.nodes && r.truncated == walk.truncated
      && multiset(r.edges) == multiset(WithCounts(walk.edges, TableOf(CountsFor(counter, walk.edges))))
    ensures answer.Answered? ==>
      var r := answer.response;
      && (req.direction == "callees" ==>
            Covers(store.callees, (e: Edge) => e.dst, req.nodeId, r.edges, r.nodes, r.truncated))
      && (req.direction == "callers" ==>
            Covers(store.callers, (e: Edge) => e.src, req.nodeId, r.edges, r.nodes, r.truncated))
      && Carded(store.getNode, r.nodes) && Counted(counter, walk.edges, r.edges) && HotFirst(r.edges, walk.hops)
      && (!r.truncated ==> forall n :: n == req.nodeId || n in HitIds(r.nodes) ==> store.listFails(n).None?)
  {
    hide Outcome, Sorted, ReadFrom, FailsAs, Covers, Carded, Counted, HotFirst;
    walk := Walk([], map[], [], false);
    if req.nodeId == "" {
      return Refused(InvalidNodeId), walk;
    }
    if req.direction !in ["callees", "callers"] {
      return Refused(InvalidDirection), walk;
    }
    if req.depth < 0 {
      return Refused(InvalidDepth), walk;
    }
    var depth := ClampDepth(req.depth, limits.depth);
    var maxNodes := ClampBudget(req.maxNodes, limits.nodes, DEFAULT_EXPAND_MAX_NODES);
    var maxEdges := ClampBudget(req.maxEdges, limits.edges, DEFAULT_EXPAND_MAX_EDGES);
    var w := WalkerOf(store, req.direction);
    var root := w.getNode(req.nodeId);
    match root {
      case Outage =>
        return Refused(GraphOutage), walk;
      case NotFound =>
        return Refused(RootMissing), walk;
      case OtherError =>
        return Refused(RootUnreadable), walk;
      case Found(card) =>
        if req.repoId != "" && req.repoId != card.repoId {
          return Refused(RepoMismatch), walk;
        }
    }
    var result := BfsExpand(w, req.nodeId, depth, maxNodes, maxEdges);
    if result.Lost? {
      return Refused(if result.failure.StoreOutage? then GraphOutage else WalkFailed), walk;
    }
    walk := result.value;
    var ranked, outage := HydrateCounts(result.value.edges, counter);
    var less := ByHeat(result.value.hops);
    SortPermutes(ranked, less);
    HeatIsWeakOrder(result.value.hops);
    SortSorts(ranked, less);
    var sorted := Sort(ranked, less);
    SortedIsHotFirst(sorted, walk.hops);
    AnswerCovers(w.graph, req.nodeId, depth, maxNodes, maxEdges, walk, TableOf(CountsFor(counter, walk.edges)), sorted);
    AnswerCounted(counter, walk.edges, sorted);
    AnswerCarded(w, walk.edges, walk.nodes);
    assert forall n :: n in HitIds(walk.nodes) ==> n in [req.nodeId] + HitIds(walk.nodes);
    assert req.nodeId in [req.nodeId] + HitIds(walk.nodes);
    answer := Answered(ExpandResponse(root.card.nodeId, sorted, result.value.nodes, result.value.truncated));
  }

  lemma AnswerCarded(w: Walker, edges: seq<Edge>, nodes: seq<NodeHit>)
    requires ReadFrom(w, edges, nodes)
    ensures Carded(w.getNode, nodes)
  {
  }

  lemma AnswerCounted(counter: Option<seq<string> -> CountAnswer>, edges: seq<Edge>, hits: seq<EdgeHit>)
    requires multiset(hits) == multiset(WithCounts(edges, TableOf(CountsFor(counter, edges))))
    ensures Counted(counter, edges, hits)
  {
    var counted := WithCounts(edges, TableOf(CountsFor(counter, edges)));
    SameHits(hits, counted);
    forall h | h in hits
      ensures exists i :: 0 <= i < |counted| && counted[i] == h
    {
      assert h in counted;
    }
  }

  lemma AnswerCovers(g: Graph, root: NodeId, depth: nat, maxNodes: nat, maxEdges: nat, walk: Walk,
                     table: map<string, int>, hits: seq<EdgeHit>)
    requires depth > 0 && Outcome(g, root, depth, maxNodes, maxEdges, walk) && (forall n :: g.resolves(n))
    requires multiset(hits) == multiset(WithCounts(walk.edges, table))
    ensures Covers(g.adj, g.reached, root, hits, walk.nodes, walk.truncated)
  {
    HitEdges(walk.edges, table, hits);
    WalkOnLists(g, root, depth, maxNodes, maxEdges, walk, hits);
    WalkLedTo(g, root, depth, maxNodes, maxEdges, walk, hits);
    if !walk.truncated {
      WalkClosed(g, root, depth, maxNodes, maxEdges, walk, hits);
    }
    hide OnLists, LedTo, Closed;
  }

  lemma WalkOnLists(g: Graph, root: NodeId, depth: nat, maxNodes: nat, maxEdges: nat, walk: Walk, hits: seq<EdgeHit>)
    requires depth > 0 && Outcome(g, root, depth, maxNodes, maxEdges, walk)
    requires forall e :: e in walk.edges <==> HasEdge(hits, e)
    ensures OnLists(g.adj, hits)
  {
    hide Flow, Known, Discover, Layer, HopOk, HasEdge;
    forall e | HasEdge(hits, e)
      ensures exists n :: e in g.adj(n)
    {
      FlowHas(g, Known(g, [root], depth - 1), e);
    }
  }

  lemma WalkLedTo(g: Graph, root: NodeId, depth: nat, maxNodes: nat, maxEdges: nat, walk: Walk, hits: seq<EdgeHit>)
    requires depth > 0 && Outcome(g, root, depth, maxNodes, maxEdges, walk) && (forall n :: g.resolves(n))
    requires forall e :: e in walk.edges <==> HasEdge(hits, e)
    ensures LedTo(g.reached, root, hits, HitIds(walk.nodes))
  {
    hide Flow, Known, Discover, Layer, HopOk, HasEdge;
    var reached, ids := Discover(g, [root], walk.edges), HitIds(walk.nodes);
    DiscoverDistinct(g, [root], walk.edges);
    RootApart(root, ids, reached);
    forall x | x in ids
      ensures x != root && x != "" && exists e :: HasEdge(hits, e) && g.reached(e) == x
    {
      assert x in [root] + ids;
      DiscoverHas(g, [root], walk.edges, x);
      var e :| e in walk.edges && g.reached(e) == x;
      assert HasEdge(hits, e);
    }
  }

  lemma WalkClosed(g: Graph, root: NodeId, depth: nat, maxNodes: nat, maxEdges: nat, walk: Walk, hits: seq<EdgeHit>)
    requires depth > 0 && Outcome(g, root, depth, maxNodes, maxEdges, walk) && !walk.truncated
    requires forall n :: g.resolves(n)
    requires forall e :: e in walk.edges <==> HasEdge(hits, e)
    ensures Closed(g.adj, g.reached, root, hits, HitIds(walk.nodes))
  {
    hide Flow, Known, Discover, Layer, HopOk, Reachable, HasEdge;
    var ids := HitIds(walk.nodes);
    UntruncatedIsComplete(g, root, depth, maxNodes, maxEdges, walk);
    KnownIs(g, [root], depth - 1);
    RootReachable(g, root);
    forall n, e | (n == root || n in ids) && e in g.adj(n)
      ensures HasEdge(hits, e) && (g.reached(e) in ["", root] || g.reached(e) in ids)
    {
      assert ReachableEdge(g, root, e);
      DiscoverHas(g, [root], walk.edges, g.reached(e));
    }
  }

  lemma RootReachable(g: Graph, root: NodeId)
    ensures Reachable(g, [root], root)
  {
    KnownIsReachable(g, root, 0, root);
  }

  /** An answer that is not truncated names every reachable edge and node, whatever the caller asked for. */
  lemma UntruncatedAnswerIsComplete(g: Graph, root: NodeId, depth: nat, maxNodes: nat, maxEdges: nat, walk: Walk,
                                    table: map<string, int>, hits: seq<EdgeHit>)
    requires depth > 0 && Outcome(g, root, depth, maxNodes, maxEdges, walk) && !walk.truncated
    requires multiset(hits) == multiset(WithCounts(walk.edges, table))
    ensures forall e :: ReachableEdge(g, root, e) <==> HasEdge(hits, e)
    ensures forall n :: n in HitIds(walk.nodes) <==> n != root && Reachable(g, [root], n)
  {
    hide Outcome, ReachableEdge, Reachable;
    UntruncatedIsComplete(g, root, depth, maxNodes, maxEdges, walk);
    HitEdges(walk.edges, table, hits);
  }
}
