/** agent.summarize, node target: destinations hydrated early under a cap, then deduplicated
    against the capped edges. */
module Summarize {
  import opened GraphReader
  import opened Sequences
  import opened Wrappers

  const MAX_SUMMARIZE_EDGES: nat := 32

  datatype EdgeCard = EdgeCard(edgeId: string, kind: string, src: string, dst: string, dstSignature: string)

  datatype Citation = NodeCitation(nodeId: string, snippet: string) | EdgeCitation(edgeId: string, snippet: string)

  /* ---- The resolver: distinct destinations, then hydration ---- */

  /** Distinct destinations other than the seed, in edge order. */
  function DstOrder(edges: seq<EdgeCard>, seed: string): seq<string> {
    if edges == [] then []
    else
      var front, d := DstOrder(edges[..|edges| - 1], seed), edges[|edges| - 1].dst;
      if d == "" || d == seed || d in front then front else front + [d]
  }

  method CollectDsts(edges: seq<EdgeCard>, seed: string) returns (dstOrder: seq<string>)
    ensures dstOrder == DstOrder(edges, seed)
  {
    var seenDst: set<string> := {};
    dstOrder := [];
    for i := 0 to |edges|
      invariant dstOrder == DstOrder(edges[..i], seed)
      invariant seenDst == set d | d in dstOrder
    {
      assert edges[..i + 1][..i] == edges[..i];
      var d := edges[i].dst;
      if d != "" && d != seed && d !in seenDst {
        seenDst := seenDst + {d};
        dstOrder := dstOrder + [d];
      }
    }
    assert edges[..|edges|] == edges;
  }

  /** The cards of the ids that still have a row. */
  function Cards(ids: seq<string>, getNode: string -> Lookup): seq<NodeCard> {
    if ids == [] then []
    else
      Cards(ids[..|ids| - 1], getNode)
        + (match getNode(ids[|ids| - 1])
           case Found(card) => [card]
           case _ => [])
  }

  function Signatures(ids: seq<string>, getNode: string -> Lookup): map<string, string> {
    if ids == [] then map[]
    else
      var front := Signatures(ids[..|ids| - 1], getNode);
      match getNode(ids[|ids| - 1])
      case Found(card) => front[card.nodeId := card.signature]
      case _ => front
  }

  predicate NoError(ids: seq<string>, getNode: string -> Lookup) {
    forall i :: 0 <= i < |ids| ==> !Fails(getNode(ids[i]))
  }

  /** hydrateDstNodes. None: an error other than a missing row. */
  method HydrateDstNodes(dstOrder: seq<string>, max: nat, getNode: string -> Lookup)
    returns (r: Option<(seq<NodeCard>, map<string, string>)>)
    ensures var ids := if max > 0 then Cut(dstOrder, max) else dstOrder;
      && (r.Some? <==> NoError(ids, getNode))
      && (r.Some? ==> r.value == (Cards(ids, getNode), Signatures(ids, getNode)))
  {
    var ids := if max > 0 && |dstOrder| > max then dstOrder[..max] else dstOrder;
    var targets: seq<NodeCard> := [];
    var dstSig: map<string, string> := map[];
    for i := 0 to |ids|
      invariant NoError(ids[..i], getNode)
      invariant targets == Cards(ids[..i], getNode) && dstSig == Signatures(ids[..i], getNode)
    {
      assert ids[..i + 1][..i] == ids[..i];
      match getNode(ids[i])
      case Found(card) =>
        targets := targets + [card];
        dstSig := dstSig[card.nodeId := card.signature];
      case NotFound =>
      case Outage =>
        return None;
      case OtherError =>
        return None;
    }
    assert ids[..|ids|] == ids;
    r := Some((targets, dstSig));
  }

  /** The destination signatures written back onto the edges. */
  function Backfilled(edges: seq<EdgeCard>, sigs: map<string, string>): (r: seq<EdgeCard>)
    ensures |r| == |edges|
    ensures forall i :: 0 <= i < |edges| ==>
      r[i] == if edges[i].dst in sigs then edges[i].(dstSignature := sigs[edges[i].dst]) else edges[i]
  {
    seq(|edges|, i requires 0 <= i < |edges| =>
      if edges[i].dst in sigs then edges[i].(dstSignature := sigs[edges[i].dst]) else edges[i])
  }

  /* ---- The verb: capped edges, deduplicated targets, citations ---- */

  function Wanted(edges: seq<EdgeCard>, seed: string): set<string> {
    set e | e in edges && e.dst != "" && e.dst != seed :: e.dst
  }

  function Deduplicated(targets: seq<NodeCard>, seed: string, wanted: set<string>): seq<NodeCard> {
    if targets == [] then []
    else
      var front, t := Deduplicated(targets[..|targets| - 1], seed, wanted), targets[|targets| - 1];
      if t.nodeId == "" || t.nodeId == seed || t.nodeId !in wanted || t.nodeId in CardIds(front) then front
      else front + [t]
  }

  function CardIds(cards: seq<NodeCard>): set<string> { set c | c in cards :: c.nodeId }

  lemma CardIdsSnoc(cards: seq<NodeCard>, c: NodeCard)
    ensures CardIds(cards + [c]) == CardIds(cards) + {c.nodeId}
  {
    assert c in cards + [c];
    assert forall x :: x in cards + [c] <==> x in cards || x == c;
  }

  method DeduplicatedTargets(targets: seq<NodeCard>, seed: string, edges: seq<EdgeCard>) returns (out: seq<NodeCard>)
    ensures out == Deduplicated(targets, seed, Wanted(edges, seed))
  {
    if |targets| == 0 {
      return [];
    }
    var wanted: set<string> := {};
    for i := 0 to |edges|
      invariant wanted == Wanted(edges[..i], seed)
    {
      assert edges[..i + 1] == edges[..i] + [edges[i]];
      if edges[i].dst != "" && edges[i].dst != seed {
        wanted := wanted + {edges[i].dst};
      }
    }
    assert edges[..|edges|] == edges;
    var seen: set<string> := {};
    out := [];
    for i := 0 to |targets|
      invariant out == Deduplicated(targets[..i], seed, wanted)
      invariant seen == CardIds(out)
    {
      assert targets[..i + 1][..i] == targets[..i];
      var t := targets[i];
      if t.nodeId != "" && t.nodeId != seed && t.nodeId in wanted && t.nodeId !in seen {
        CardIdsSnoc(out, t);
        seen := seen + {t.nodeId};
        out := out + [t];
      }
    }
    assert targets[..|targets|] == targets;
  }

  function EdgeCitations(edges: seq<EdgeCard>): (r: seq<Citation>)
    ensures |r| == |edges|
    ensures forall i :: 0 <= i < |edges| ==>
      r[i].EdgeCitation? && r[i].edgeId == edges[i].edgeId && r[i].snippet == edges[i].kind
  {
    seq(|edges|, i requires 0 <= i < |edges| => EdgeCitation(edges[i].edgeId, edges[i].kind))
  }

  function NodeCitations(cards: seq<NodeCard>): (r: seq<Citation>)
    ensures |r| == |cards|
    ensures forall i :: 0 <= i < |cards| ==>
      r[i].NodeCitation? && r[i].nodeId == cards[i].nodeId && r[i].snippet == cards[i].signature
  {
    seq(|cards|, i requires 0 <= i < |cards| => NodeCitation(cards[i].nodeId, cards[i].signature))
  }

  method BuildNodeCitations(seed: NodeCard, edges: seq<EdgeCard>, targets: seq<NodeCard>) returns (out: seq<Citation>)
    ensures out == [NodeCitation(seed.nodeId, seed.signature)] + EdgeCitations(edges) + NodeCitations(targets)
  {
    out := [NodeCitation(seed.nodeId, seed.signature)];
    ghost var head := out;
    for i := 0 to |edges|
      invariant out == head + EdgeCitations(edges)[..i]
    {
      out := out + [EdgeCitation(edges[i].edgeId, edges[i].kind)];
    }
    head := out;
    for i := 0 to |targets|
      invariant out == head + NodeCitations(targets)[..i]
    {
      out := out + [NodeCitation(targets[i].nodeId, targets[i].signature)];
    }
  }

  /* ---- Capping early is invisible ---- */

  lemma {:induction false} DstOrderHas(edges: seq<EdgeCard>, seed: string, d: string)
    ensures d in DstOrder(edges, seed) <==> d in Wanted(edges, seed)
  {
    if edges != [] {
      DstOrderHas(edges[..|edges| - 1], seed, d);
      assert edges == edges[..|edges| - 1] + [edges[|edges| - 1]];
    }
  }

  /** The destinations of the first n edges come first, and there are at most n of them. */
  lemma {:induction false} DstOrderOfPrefix(edges: seq<EdgeCard>, seed: string, n: nat)
    requires n <= |edges|
    ensures DstOrder(edges[..n], seed) <= DstOrder(edges, seed)
    ensures |DstOrder(edges[..n], seed)| <= n
    decreases |edges|
  {
    if n < |edges| {
      DstOrderOfPrefix(edges[..|edges| - 1], seed, n);
      assert edges[..|edges| - 1][..n] == edges[..n];
    } else if n > 0 {
      DstOrderOfPrefix(edges[..n - 1], seed, n - 1);
      assert edges[..n] == edges && edges[..n - 1][..n - 1] == edges[..n - 1];
    }
  }

  /** GetNode answers with the row it was asked for. */
  ghost predicate Honest(getNode: string -> Lookup) {
    forall id :: getNode(id).Found? ==> getNode(id).card.nodeId == id
  }

  lemma {:induction false} CardsOfConcat(a: seq<string>, b: seq<string>, getNode: string -> Lookup)
    ensures Cards(a + b, getNode) == Cards(a, getNode) + Cards(b, getNode)
  {
    if b == [] {
      assert a + b == a;
    } else {
      CardsOfConcat(a, b[..|b| - 1], getNode);
      assert (a + b)[..|a + b| - 1] == a + b[..|b| - 1];
    }
  }

  lemma {:induction false} UnwantedAddNothing(a: seq<NodeCard>, b: seq<NodeCard>, seed: string, wanted: set<string>)
    requires forall c :: c in b ==> c.nodeId !in wanted
    ensures Deduplicated(a + b, seed, wanted) == Deduplicated(a, seed, wanted)
  {
    if b == [] {
      assert a + b == a;
    } else {
      UnwantedAddNothing(a, b[..|b| - 1], seed, wanted);
      assert (a + b)[..|a + b| - 1] == a + b[..|b| - 1];
      assert b[|b| - 1] in b;
    }
  }

  lemma {:induction false} CardsMean(ids: seq<string>, getNode: string -> Lookup, c: NodeCard)
    requires Honest(getNode)
    ensures c in Cards(ids, getNode) <==> c.nodeId in ids && getNode(c.nodeId) == Found(c)
  {
    if ids != [] {
      CardsMean(ids[..|ids| - 1], getNode, c);
      assert ids == ids[..|ids| - 1] + [ids[|ids| - 1]];
    }
  }

  lemma {:induction false} SignaturesMean(ids: seq<string>, getNode: string -> Lookup, id: string)
    requires Honest(getNode)
    ensures id in Signatures(ids, getNode) <==> id in ids && getNode(id).Found?
    ensures id in ids && getNode(id).Found? ==> Signatures(ids, getNode)[id] == getNode(id).card.signature
  {
    if ids != [] {
      SignaturesMean(ids[..|ids| - 1], getNode, id);
    }
  }

  lemma {:induction false} DstOrderNoRepeats(edges: seq<EdgeCard>, seed: string)
    ensures Distinct(DstOrder(edges, seed))
  {
    if edges != [] {
      DstOrderNoRepeats(edges[..|edges| - 1], seed);
    }
  }

  /** The destinations of the capped edges are all hydrated early. */
  lemma FirstAreEarly(edges: seq<EdgeCard>, seed: string, cap: nat)
    ensures DstOrder(Cut(edges, cap), seed) <= Cut(DstOrder(edges, seed), cap)
  {
    var capped := Cut(edges, cap);
    assert capped == edges[..|capped|];
    DstOrderOfPrefix(edges, seed, |capped|);
  }

  /** For every edge list and every cap: hydrating only the first cap destinations gives the
      same deduplicated targets, in the same order, as hydrating all of them. */
  lemma EarlyCapKeepsTargets(edges: seq<EdgeCard>, seed: string, cap: nat, getNode: string -> Lookup)
    requires Honest(getNode)
    ensures var all := DstOrder(edges, seed); var wanted := Wanted(Cut(edges, cap), seed);
      Deduplicated(Cards(Cut(all, cap), getNode), seed, wanted) == Deduplicated(Cards(all, getNode), seed, wanted)
  {
    hide Cards, Deduplicated, DstOrder, Wanted;
    var all, capped := DstOrder(edges, seed), Cut(edges, cap);
    var early := Cut(all, cap);
    var rest := all[|early|..];
    assert all == early + rest;
    CardsOfConcat(early, rest, getNode);
    FirstAreEarly(edges, seed, cap);
    DstOrderNoRepeats(edges, seed);
    forall c | c in Cards(rest, getNode)
      ensures c.nodeId !in Wanted(capped, seed)
    {
      CardsMean(rest, getNode, c);
      DstOrderHas(capped, seed, c.nodeId);
      Apart(DstOrder(capped, seed), early, rest, c.nodeId);
    }
    UnwantedAddNothing(Cards(early, getNode), Cards(rest, getNode), seed, Wanted(capped, seed));
  }

  /** And the capped edges get the same destination signatures. */
  lemma EarlyCapKeepsEdges(edges: seq<EdgeCard>, seed: string, cap: nat, getNode: string -> Lookup)
    requires Honest(getNode)
    ensures var all := DstOrder(edges, seed);
      Cut(Backfilled(edges, Signatures(Cut(all, cap), getNode)), cap) ==
        Cut(Backfilled(edges, Signatures(all, getNode)), cap)
  {
    hide Signatures, DstOrder, Honest;
    var all, capped := DstOrder(edges, seed), Cut(edges, cap);
    var early := Cut(all, cap);
    FirstAreEarly(edges, seed, cap);
    var left, right := Backfilled(edges, Signatures(early, getNode)), Backfilled(edges, Signatures(all, getNode));
    forall i | 0 <= i < |capped|
      ensures left[i] == right[i]
    {
      var d := capped[i].dst;
      SignaturesMean(early, getNode, d);
      SignaturesMean(all, getNode, d);
      DstOrderHas(capped, seed, d);
      DstOrderHas(edges, seed, d);
    }
  }

  lemma Apart(first: seq<string>, early: seq<string>, rest: seq<string>, id: string)
    requires Distinct(early + rest) && first <= early && id in rest
    ensures id !in first
  {
    var j :| 0 <= j < |rest| && rest[j] == id;
    forall i | 0 <= i < |first|
      ensures first[i] != id
    {
      assert (early + rest)[i] == first[i] && (early + rest)[|early| + j] == id;
    }
  }

  /** Every cited node is the seed or the destination of a cited edge. */
  lemma CitedNodesAreReached(seed: NodeCard, edges: seq<EdgeCard>, targets: seq<NodeCard>, n: string, snippet: string)
    requires NodeCitation(n, snippet) in
      [NodeCitation(seed.nodeId, seed.signature)] + EdgeCitations(edges)
        + NodeCitations(Deduplicated(targets, seed.nodeId, Wanted(edges, seed.nodeId)))
    ensures
      || n == seed.nodeId
      || exists e :: e in edges && e.dst == n && EdgeCitation(e.edgeId, e.kind) in EdgeCitations(edges)
  {
    var out := Deduplicated(targets, seed.nodeId, Wanted(edges, seed.nodeId));
    if n != seed.nodeId {
      assert NodeCitation(n, snippet) in NodeCitations(out);
      var i :| 0 <= i < |out| && NodeCitations(out)[i] == NodeCitation(n, snippet);
      DeduplicatedMeans(targets, seed.nodeId, Wanted(edges, seed.nodeId));
      assert out[i].nodeId in CardIds(out);
      var e :| e in edges && e.dst == n;
      var j :| 0 <= j < |edges| && edges[j] == e;
      assert EdgeCitations(edges)[j] == EdgeCitation(e.edgeId, e.kind);
    }
  }

  /** No two cards are of one node. */
  ghost predicate DistinctCards(cards: seq<NodeCard>) {
    forall i, j :: 0 <= i < j < |cards| ==> cards[i].nodeId != cards[j].nodeId
  }

  /** The wanted targets, each node once. */
  lemma {:induction false} DeduplicatedMeans(targets: seq<NodeCard>, seed: string, wanted: set<string>)
    ensures var out := Deduplicated(targets, seed, wanted);
      && (forall c :: c in out ==> c in targets)
      && (forall id :: id in CardIds(out) <==> id in CardIds(targets) && id in wanted && id != seed && id != "")
      && DistinctCards(out)
  {
    if targets != [] {
      var front, last := targets[..|targets| - 1], targets[|targets| - 1];
      DeduplicatedMeans(front, seed, wanted);
      var before := Deduplicated(front, seed, wanted);
      assert targets == front + [last];
      CardIdsSnoc(front, last);
      CardIdsSnoc(before, last);
      assert forall i :: 0 <= i < |before| ==> before[i].nodeId in CardIds(before);
      hide CardIds;
    }
  }

  /** The first card of a node is the one that stays, and the order is that of these. */
  lemma {:induction false} DeduplicatedGrows(targets: seq<NodeCard>, seed: string, wanted: set<string>, n: nat)
    requires n <= |targets|
    ensures Deduplicated(targets[..n], seed, wanted) <= Deduplicated(targets, seed, wanted)
  {
    if n < |targets| {
      DeduplicatedGrows(targets[..|targets| - 1], seed, wanted, n);
      assert targets[..|targets| - 1][..n] == targets[..n];
    } else {
      assert targets[..n] == targets;
    }
  }

  /** The edges and the targets that the verb would show if every destination were hydrated. */
  ghost function AllEdges(seed: string, edges: seq<EdgeCard>, getNode: string -> Lookup): seq<EdgeCard> {
    Cut(Backfilled(edges, Signatures(DstOrder(edges, seed), getNode)), MAX_SUMMARIZE_EDGES)
  }

  ghost function AllTargets(seed: string, edges: seq<EdgeCard>, getNode: string -> Lookup): seq<NodeCard> {
    Deduplicated(Cards(DstOrder(edges, seed), getNode), seed, Wanted(Cut(edges, MAX_SUMMARIZE_EDGES), seed))
  }

  /** Whether an edge leads to a node that the verb has a card for. */
  predicate Leads(e: EdgeCard, seed: string, getNode: string -> Lookup) {
    e.dst != "" && e.dst != seed && getNode(e.dst).Found?
  }

  lemma ShownEdge(edges: seq<EdgeCard>, seed: string, getNode: string -> Lookup, i: nat)
    requires Honest(getNode) && i < |edges|
    ensures var e := Backfilled(edges, Signatures(DstOrder(edges, seed), getNode))[i];
      e == if Leads(edges[i], seed, getNode) then edges[i].(dstSignature := getNode(edges[i].dst).card.signature)
           else edges[i]
  {
    hide Signatures, DstOrder, Honest;
    SignaturesMean(DstOrder(edges, seed), getNode, edges[i].dst);
    DstOrderHas(edges, seed, edges[i].dst);
    assert edges[i] in edges;
  }

  /** One of these edges leads to this node. */
  ghost predicate Targeted(edges: seq<EdgeCard>, seed: string, getNode: string -> Lookup, id: string) {
    exists e :: e in edges && e.dst == id && Leads(e, seed, getNode)
  }

  lemma ShownTarget(edges: seq<EdgeCard>, seed: string, getNode: string -> Lookup, cap: nat, t: NodeCard)
    requires Honest(getNode)
    ensures t in Deduplicated(Cards(DstOrder(edges, seed), getNode), seed, Wanted(Cut(edges, cap), seed)) <==>
      getNode(t.nodeId) == Found(t) && Targeted(Cut(edges, cap), seed, getNode, t.nodeId)
  {
    hide Cards, Deduplicated, DstOrder;
    var all, capped := DstOrder(edges, seed), Cut(edges, cap);
    var out := Deduplicated(Cards(all, getNode), seed, Wanted(capped, seed));
    DeduplicatedMeans(Cards(all, getNode), seed, Wanted(capped, seed));
    CardsMean(all, getNode, t);
    DstOrderHas(edges, seed, t.nodeId);
    if t in out {
      assert t.nodeId in CardIds(out);
      var e :| e in capped && e.dst == t.nodeId;
      assert Leads(e, seed, getNode);
    }
    if getNode(t.nodeId) == Found(t) && Targeted(capped, seed, getNode, t.nodeId) {
      var e :| e in capped && e.dst == t.nodeId && Leads(e, seed, getNode);
      assert e in edges;
      assert t in Cards(all, getNode) && t.nodeId in CardIds(Cards(all, getNode));
      var c :| c in out && c.nodeId == t.nodeId;
      CardsMean(all, getNode, c);
    }
  }

  /** The targets: the cards of the nodes that the first 32 edges lead to, each once, whatever number of edges leads
      there. */
  lemma ShownTargets(seed: string, edges: seq<EdgeCard>, getNode: string -> Lookup)
    requires Honest(getNode)
    ensures forall t :: t in AllTargets(seed, edges, getNode) <==>
      getNode(t.nodeId) == Found(t) && Targeted(Cut(edges, 32), seed, getNode, t.nodeId)
    ensures DistinctCards(AllTargets(seed, edges, getNode))
  {
    hide Cards, Deduplicated, DstOrder, Honest, CardIds, Targeted, Wanted, DistinctCards;
    DeduplicatedMeans(Cards(DstOrder(edges, seed), getNode), seed, Wanted(Cut(edges, 32), seed));
    forall t
      ensures t in AllTargets(seed, edges, getNode) <==>
        getNode(t.nodeId) == Found(t) && Targeted(Cut(edges, 32), seed, getNode, t.nodeId)
    {
      ShownTarget(edges, seed, getNode, 32, t);
    }
  }

  /** The edges: the first 32, with the signature of the node that each one leads to. */
  lemma ShownEdges(seed: string, edges: seq<EdgeCard>, getNode: string -> Lookup)
    requires Honest(getNode)
    ensures var es := AllEdges(seed, edges, getNode);
      && |es| == (if |edges| > 32 then 32 else |edges|)
      && forall i :: 0 <= i < |es| ==>
           es[i] == if Leads(edges[i], seed, getNode)
                    then edges[i].(dstSignature := getNode(edges[i].dst).card.signature) else edges[i]
  {
    hide DstOrder, Signatures, Honest;
    var es := AllEdges(seed, edges, getNode);
    forall i | 0 <= i < |es|
      ensures es[i] == if Leads(edges[i], seed, getNode)
                       then edges[i].(dstSignature := getNode(edges[i].dst).card.signature) else edges[i]
    {
      ShownEdge(edges, seed, getNode, i);
    }
  }

  lemma BackfillKeepsWanted(edges: seq<EdgeCard>, sigs: map<string, string>, cap: nat, seed: string)
    ensures Wanted(Cut(Backfilled(edges, sigs), cap), seed) == Wanted(Cut(edges, cap), seed)
  {
    var a, b := Cut(Backfilled(edges, sigs), cap), Cut(edges, cap);
    assert forall i :: 0 <= i < |b| ==> a[i].dst == b[i].dst && a[i] in a && b[i] in b;
    forall d
      ensures d in Wanted(a, seed) <==> d in Wanted(b, seed)
    {
      if d in Wanted(a, seed) {
        var e :| e in a && e.dst == d;
        var i :| 0 <= i < |a| && a[i] == e;
        assert b[i].dst == d;
      }
      if d in Wanted(b, seed) {
        var e :| e in b && e.dst == d;
        var i :| 0 <= i < |b| && b[i] == e;
        assert a[i].dst == d;
      }
    }
  }

  /** The resolver and the verb end to end, with the early cap of the source: the edges, targets
      and citations are those of the uncapped hydration. None: a lookup error among the first
      MAX_SUMMARIZE_EDGES destinations. */
  method SummarizeNode(seed: NodeCard, edges: seq<EdgeCard>, getNode: string -> Lookup)
    returns (r: Option<(seq<EdgeCard>, seq<NodeCard>, seq<Citation>)>)
    requires Honest(getNode)
    ensures r.Some? <==> NoError(Cut(DstOrder(edges, seed.nodeId), MAX_SUMMARIZE_EDGES), getNode)
    ensures r.Some? ==>
      r.value.0 == AllEdges(seed.nodeId, edges, getNode) && r.value.1 == AllTargets(seed.nodeId, edges, getNode)
    ensures r.Some? ==>
      r.value.2 == [NodeCitation(seed.nodeId, seed.signature)] + EdgeCitations(r.value.0) + NodeCitations(r.value.1)
  {
    hide Cards, Deduplicated, DstOrder, Signatures, Wanted, Honest;
    var dstOrder := CollectDsts(edges, seed.nodeId);
    var hydrated := HydrateDstNodes(dstOrder, MAX_SUMMARIZE_EDGES, getNode);
    if hydrated.None? {
      return None;
    }
    var (targets, dstSig) := hydrated.value;
    var cappedEdges := Cut(Backfilled(edges, dstSig), MAX_SUMMARIZE_EDGES);
    var cappedTargets := DeduplicatedTargets(targets, seed.nodeId, cappedEdges);
    EarlyCapKeepsEdges(edges, seed.nodeId, MAX_SUMMARIZE_EDGES, getNode);
    EarlyCapKeepsTargets(edges, seed.nodeId, MAX_SUMMARIZE_EDGES, getNode);
    BackfillKeepsWanted(edges, dstSig, MAX_SUMMARIZE_EDGES, seed.nodeId);
    var citations := BuildNodeCitations(seed, cappedEdges, cappedTargets);
    r := Some((cappedEdges, cappedTargets, citations));
  }
}
