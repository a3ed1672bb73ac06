/** Breadth-first order as a function of the graph, and what it means in terms of paths. */
module Traversal {
  import opened Sequences

  type NodeId = string

  datatype Edge = Edge(id: string, repoId: string, kind: string, src: NodeId, dst: NodeId)

  /** What the walkers see: the edge list of each node, the node an edge leads to, and whether
      that node may be entered. */
  datatype Graph = Graph(adj: NodeId -> seq<Edge>, reached: Edge -> NodeId, resolves: NodeId -> bool)

  /** Edge ids are unique over the lists of all nodes. */
  ghost predicate UniqueIds(g: Graph) {
    forall n: NodeId, m: NodeId, i, j ::
      0 <= i < |g.adj(n)| && 0 <= j < |g.adj(m)| && g.adj(n)[i].id == g.adj(m)[j].id ==> n == m && i == j
  }

  /** All edges of the anchors, in order. */
  function Flow(g: Graph, anchors: seq<NodeId>): seq<Edge> {
    if anchors == [] then [] else Flow(g, anchors[..|anchors| - 1]) + g.adj(anchors[|anchors| - 1])
  }

  predicate Enters(g: Graph, n: NodeId) { n != "" && g.resolves(n) }

  /** known, extended by the nodes that the edges reach for the first time. */
  function Discover(g: Graph, known: seq<NodeId>, es: seq<Edge>): (r: seq<NodeId>)
    ensures known <= r
  {
    if es == [] then known
    else
      var k := Discover(g, known, es[..|es| - 1]);
      var n := g.reached(es[|es| - 1]);
      if Enters(g, n) && n !in k then k + [n] else k
  }

  /** Everything within k hops of the roots, in breadth-first order. */
  function Known(g: Graph, roots: seq<NodeId>, k: nat): seq<NodeId> {
    if k == 0 then roots else Discover(g, roots, Flow(g, Known(g, roots, k - 1)))
  }

  /** The nodes first reached with k hops. */
  function Layer(g: Graph, roots: seq<NodeId>, k: nat): seq<NodeId> {
    if k == 0 then roots
    else
      KnownGrows(g, roots, k - 1);
      Known(g, roots, k)[|Known(g, roots, k - 1)|..]
  }

  lemma {:induction false} FlowOfConcat(g: Graph, xs: seq<NodeId>, ys: seq<NodeId>)
    ensures Flow(g, xs + ys) == Flow(g, xs) + Flow(g, ys)
  {
    if ys == [] {
      assert xs + ys == xs;
    } else {
      assert (xs + ys)[..|xs + ys| - 1] == xs + ys[..|ys| - 1];
      FlowOfConcat(g, xs, ys[..|ys| - 1]);
    }
  }

  lemma FlowSnoc(g: Graph, xs: seq<NodeId>, n: NodeId)
    ensures Flow(g, xs + [n]) == Flow(g, xs) + g.adj(n)
  {
    assert (xs + [n])[..|xs|] == xs;
  }

  lemma {:induction false} DiscoverOfConcat(g: Graph, known: seq<NodeId>, a: seq<Edge>, b: seq<Edge>)
    ensures Discover(g, known, a + b) == Discover(g, Discover(g, known, a), b)
  {
    if b == [] {
      assert a + b == a;
    } else {
      assert (a + b)[..|a + b| - 1] == a + b[..|b| - 1];
      DiscoverOfConcat(g, known, a, b[..|b| - 1]);
    }
  }

  lemma DiscoverSnoc(g: Graph, known: seq<NodeId>, es: seq<Edge>, e: Edge)
    ensures var k := Discover(g, known, es); var n := g.reached(e);
      Discover(g, known, es + [e]) == if Enters(g, n) && n !in k then k + [n] else k
  {
    assert (es + [e])[..|es|] == es;
  }

  lemma FlowOfPrefix(g: Graph, xs: seq<NodeId>, ys: seq<NodeId>)
    requires xs <= ys
    ensures Flow(g, xs) <= Flow(g, ys)
  {
    assert ys == xs + ys[|xs|..];
    FlowOfConcat(g, xs, ys[|xs|..]);
  }

  lemma DiscoverOfPrefix(g: Graph, known: seq<NodeId>, a: seq<Edge>, b: seq<Edge>)
    requires a <= b
    ensures Discover(g, known, a) <= Discover(g, known, b)
  {
    assert b == a + b[|a|..];
    DiscoverOfConcat(g, known, a, b[|a|..]);
  }

  lemma {:induction false} KnownGrows(g: Graph, roots: seq<NodeId>, k: nat)
    ensures Known(g, roots, k) <= Known(g, roots, k + 1)
  {
    if k > 0 {
      KnownGrows(g, roots, k - 1);
      FlowOfPrefix(g, Known(g, roots, k - 1), Known(g, roots, k));
      DiscoverOfPrefix(g, roots, Flow(g, Known(g, roots, k - 1)), Flow(g, Known(g, roots, k)));
    }
  }

  lemma {:induction false} KnownGrowsTo(g: Graph, roots: seq<NodeId>, k: nat, m: nat)
    requires k <= m
    ensures Known(g, roots, k) <= Known(g, roots, m)
    decreases m
  {
    if k < m {
      KnownGrowsTo(g, roots, k, m - 1);
      KnownGrows(g, roots, m - 1);
    }
  }

  lemma KnownIs(g: Graph, roots: seq<NodeId>, k: nat)
    ensures Known(g, roots, k + 1) == Discover(g, roots, Flow(g, Known(g, roots, k)))
  {
    hide Flow, Discover;
  }

  /** One more hop: the edges of the last layer, discovered on top of what is known. */
  lemma KnownNext(g: Graph, roots: seq<NodeId>, k: nat)
    ensures Known(g, roots, k + 1) == Discover(g, Known(g, roots, k), Flow(g, Layer(g, roots, k)))
    ensures k > 0 ==> Known(g, roots, k) == Known(g, roots, k - 1) + Layer(g, roots, k)
  {
    if k > 0 {
      KnownGrows(g, roots, k - 1);
      var before := Known(g, roots, k - 1);
      assert Known(g, roots, k) == before + Layer(g, roots, k);
      FlowOfConcat(g, before, Layer(g, roots, k));
      DiscoverOfConcat(g, roots, Flow(g, before), Flow(g, Layer(g, roots, k)));
    }
  }

  /** Where layer k starts in the breadth-first list. */
  function LayerStart(g: Graph, roots: seq<NodeId>, k: nat): nat {
    if k == 0 then 0 else |Known(g, roots, k - 1)|
  }

  lemma LayerWithin(g: Graph, roots: seq<NodeId>, k: nat)
    ensures LayerStart(g, roots, k) + |Layer(g, roots, k)| == |Known(g, roots, k)|
    ensures forall a :: 0 <= a < |Layer(g, roots, k)| ==>
      Known(g, roots, k)[LayerStart(g, roots, k) + a] == Layer(g, roots, k)[a]
  {
    hide Flow, Discover;
    KnownNext(g, roots, k);
  }

  /* ---- Membership ---- */

  lemma {:induction false} FlowHas(g: Graph, anchors: seq<NodeId>, e: Edge)
    ensures e in Flow(g, anchors) <==> exists n :: n in anchors && e in g.adj(n)
  {
    if anchors != [] {
      var front, last := anchors[..|anchors| - 1], anchors[|anchors| - 1];
      FlowHas(g, front, e);
      assert anchors == front + [last];
    }
  }

  lemma {:induction false} DiscoverHas(g: Graph, known: seq<NodeId>, es: seq<Edge>, n: NodeId)
    ensures n in Discover(g, known, es) <==>
      n in known || (Enters(g, n) && exists e :: e in es && g.reached(e) == n)
  {
    if es != [] {
      var front, last := es[..|es| - 1], es[|es| - 1];
      DiscoverHas(g, known, front, n);
      assert es == front + [last];
    }
  }

  lemma {:induction false} DiscoverDistinct(g: Graph, known: seq<NodeId>, es: seq<Edge>)
    requires Distinct(known)
    ensures Distinct(Discover(g, known, es))
  {
    if es != [] {
      DiscoverDistinct(g, known, es[..|es| - 1]);
    }
  }

  lemma KnownDistinct(g: Graph, roots: seq<NodeId>, k: nat)
    requires Distinct(roots)
    ensures Distinct(Known(g, roots, k))
  {
    if k > 0 {
      DiscoverDistinct(g, roots, Flow(g, Known(g, roots, k - 1)));
    }
  }

  /* ---- Paths ---- */

  ghost predicate Arc(g: Graph, m: NodeId, n: NodeId) {
    Enters(g, n) && exists e :: e in g.adj(m) && g.reached(e) == n
  }

  /** q walks along edges from a root; it has |q| - 1 hops. */
  ghost predicate Path(g: Graph, roots: seq<NodeId>, q: seq<NodeId>) {
    && q != [] && q[0] in roots
    && forall i :: 0 < i < |q| ==> Arc(g, q[i - 1], q[i])
  }

  ghost predicate Within(g: Graph, roots: seq<NodeId>, n: NodeId, hops: nat) {
    exists q :: Path(g, roots, q) && q[|q| - 1] == n && |q| <= hops + 1
  }

  ghost predicate Reachable(g: Graph, roots: seq<NodeId>, n: NodeId) {
    exists q :: Path(g, roots, q) && q[|q| - 1] == n
  }

  /** The shortest path to n has this many hops. */
  ghost predicate AtDistance(g: Graph, roots: seq<NodeId>, n: NodeId, hops: nat) {
    Within(g, roots, n, hops) && (hops > 0 ==> !Within(g, roots, n, hops - 1))
  }

  lemma KnownIsOneArc(g: Graph, roots: seq<NodeId>, k: nat, n: NodeId)
    ensures n in Known(g, roots, k + 1) <==> n in roots || exists m :: m in Known(g, roots, k) && Arc(g, m, n)
  {
    var before := Known(g, roots, k);
    DiscoverHas(g, roots, Flow(g, before), n);
    forall e
      ensures e in Flow(g, before) <==> exists m :: m in before && e in g.adj(m)
    {
      FlowHas(g, before, e);
    }
  }

  lemma {:induction false} KnownHasPath(g: Graph, roots: seq<NodeId>, k: nat, n: NodeId) returns (q: seq<NodeId>)
    requires n in Known(g, roots, k)
    ensures Path(g, roots, q) && q[|q| - 1] == n && |q| <= k + 1
  {
    hide Flow, Discover;
    if n in roots {
      q := [n];
    } else {
      KnownIsOneArc(g, roots, k - 1, n);
      var m :| m in Known(g, roots, k - 1) && Arc(g, m, n);
      var p := KnownHasPath(g, roots, k - 1, m);
      q := p + [n];
    }
  }

  lemma {:induction false} PathIsKnown(g: Graph, roots: seq<NodeId>, k: nat, q: seq<NodeId>)
    requires Path(g, roots, q) && |q| <= k + 1
    ensures q[|q| - 1] in Known(g, roots, k)
  {
    hide Flow, Discover;
    if |q| == 1 {
      KnownGrowsTo(g, roots, 0, k);
    } else {
      var front := q[..|q| - 1];
      PathIsKnown(g, roots, k - 1, front);
      assert Arc(g, front[|front| - 1], q[|q| - 1]);
      KnownIsOneArc(g, roots, k - 1, q[|q| - 1]);
    }
  }

  /** The breadth-first list holds exactly the nodes within k hops. */
  lemma KnownIsWithin(g: Graph, roots: seq<NodeId>, k: nat, n: NodeId)
    ensures n in Known(g, roots, k) <==> Within(g, roots, n, k)
  {
    if n in Known(g, roots, k) {
      var q := KnownHasPath(g, roots, k, n);
    }
    if Within(g, roots, n, k) {
      var q :| Path(g, roots, q) && q[|q| - 1] == n && |q| <= k + 1;
      PathIsKnown(g, roots, k, q);
    }
  }

  /** Layer k holds exactly the nodes at distance k. */
  lemma LayerIsDistance(g: Graph, roots: seq<NodeId>, k: nat, n: NodeId)
    requires Distinct(roots)
    ensures n in Layer(g, roots, k) <==> AtDistance(g, roots, n, k)
  {
    hide Within, Discover, Flow;
    KnownIsWithin(g, roots, k, n);
    if k > 0 {
      hide Known, Layer;
      KnownIsWithin(g, roots, k - 1, n);
      KnownNext(g, roots, k);
      KnownDistinct(g, roots, k);
      DistinctParts(Known(g, roots, k - 1), Layer(g, roots, k));
    }
  }

  lemma DistinctParts<T>(a: seq<T>, b: seq<T>)
    requires Distinct(a + b)
    ensures Distinct(a) && Distinct(b)
    ensures forall i, j :: 0 <= i < |a| && 0 <= j < |b| ==> a[i] != b[j]
  {
    assert forall i :: 0 <= i < |a| ==> a[i] == (a + b)[i];
    assert forall j :: 0 <= j < |b| ==> b[j] == (a + b)[|a| + j];
  }

  /** When the last layer has no edges, nothing lies beyond it. */
  lemma {:induction false} KnownStops(g: Graph, roots: seq<NodeId>, k: nat, m: nat)
    requires k <= m && forall n :: n in Layer(g, roots, k) ==> g.adj(n) == []
    ensures Known(g, roots, m) == Known(g, roots, k)
    decreases m
  {
    if k < m {
      KnownStops(g, roots, k, m - 1);
      FlowIsEmpty(g, Layer(g, roots, k));
      KnownNext(g, roots, k);
      assert Known(g, roots, m) == Discover(g, roots, Flow(g, Known(g, roots, k))) == Known(g, roots, k + 1);
    }
  }

  lemma {:induction false} FlowIsEmpty(g: Graph, anchors: seq<NodeId>)
    requires forall n :: n in anchors ==> g.adj(n) == []
    ensures Flow(g, anchors) == []
  {
    if anchors != [] {
      FlowIsEmpty(g, anchors[..|anchors| - 1]);
    }
  }

  /* ---- Edge ids ---- */

  function EdgeIds(es: seq<Edge>): set<string> { set e | e in es :: e.id }

  lemma EdgeIdsSnoc(es: seq<Edge>, e: Edge)
    ensures EdgeIds(es + [e]) == EdgeIds(es) + {e.id}
  {
    assert e in es + [e];
    assert forall x :: x in es + [e] <==> x in es || x == e;
  }

  /** The edges of list are new and pairwise different. */
  ghost predicate FreshEdges(seen: set<string>, list: seq<Edge>) {
    && (forall i :: 0 <= i < |list| ==> list[i].id !in seen)
    && (forall i, j :: 0 <= i < j < |list| ==> list[i].id != list[j].id)
  }

  lemma FreshNext(es: seq<Edge>, list: seq<Edge>, j: nat)
    requires FreshEdges(EdgeIds(es), list) && j < |list|
    ensures list[j].id !in EdgeIds(es + list[..j])
    ensures es + list[..j + 1] == es + list[..j] + [list[j]]
  {
    forall e | e in es + list[..j]
      ensures e.id != list[j].id
    {
      if e in es {
        assert e.id in EdgeIds(es);
      } else {
        var i :| 0 <= i < |list[..j]| && list[..j][i] == e;
      }
    }
  }

  /** The edges of the next anchor in the list are all new. */
  lemma AnchorIsFresh(g: Graph, anchors: seq<NodeId>, p: nat, list: seq<Edge>)
    requires UniqueIds(g) && Distinct(anchors) && p < |anchors| && list <= g.adj(anchors[p])
    ensures FreshEdges(EdgeIds(Flow(g, anchors[..p])), list)
  {
    forall i | 0 <= i < |list|
      ensures list[i].id !in EdgeIds(Flow(g, anchors[..p]))
    {
      forall e | e in Flow(g, anchors[..p])
        ensures e.id != list[i].id
      {
        FlowHas(g, anchors[..p], e);
        var n :| n in anchors[..p] && e in g.adj(n);
        var j :| 0 <= j < |g.adj(n)| && g.adj(n)[j] == e;
        var q :| 0 <= q < p && anchors[q] == n;
        assert g.adj(anchors[p])[i] == list[i];
      }
    }
  }
}
