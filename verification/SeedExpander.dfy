/** What an expander hands to agent.recall, and the observation counts that both expanders attach to edges. */
module SeedExpander {
  import opened Traversal
  import opened Wrappers

  datatype EdgeHit = EdgeHit(edge: Edge, count: int)

  datatype FrontierNode = FrontierNode(
    nodeId: NodeId, repoId: string, kind: string, signature: string, hop: int, bestSeedScore: real)

  datatype Expansion = Expansion(edges: seq<EdgeHit>, frontier: seq<FrontierNode>, frontierNodeIds: seq<NodeId>)

  /** CountByEdgeIDs: a table, an outage of the graph store, or another error. */
  datatype CountAnswer = Counts(table: map<string, int>) | CountOutage | CountError

  /** The counts of the batched query; edges it does not mention keep 0. */
  function WithCounts(edges: seq<Edge>, table: map<string, int>): (r: seq<EdgeHit>)
    ensures |r| == |edges|
    ensures forall i :: 0 <= i < |edges| ==>
      r[i].edge == edges[i] && r[i].count == if edges[i].id in table then table[edges[i].id] else 0
  {
    seq(|edges|, i requires 0 <= i < |edges| =>
      EdgeHit(edges[i], if edges[i].id in table then table[edges[i].id] else 0))
  }

  /** e is answered, with whatever count. */
  ghost predicate HasEdge(hits: seq<EdgeHit>, e: Edge) {
    exists h :: h in hits && h.edge == e
  }

  lemma SameHits(hits: seq<EdgeHit>, counted: seq<EdgeHit>)
    requires multiset(hits) == multiset(counted)
    ensures forall h :: h in hits <==> h in counted
  {
    assert forall h :: h in hits <==> h in multiset(hits);
    assert forall h :: h in counted <==> h in multiset(counted);
  }

  /** Counting and sorting keep the edges. */
  lemma HitEdges(edges: seq<Edge>, table: map<string, int>, hits: seq<EdgeHit>)
    requires multiset(hits) == multiset(WithCounts(edges, table))
    ensures forall e :: e in edges <==> HasEdge(hits, e)
  {
    var counted := WithCounts(edges, table);
    SameHits(hits, counted);
    forall e | e in edges
      ensures HasEdge(hits, e)
    {
      var i :| 0 <= i < |edges| && edges[i] == e;
      assert counted[i] in hits;
    }
    forall h | h in hits
      ensures h.edge in edges
    {
      var i :| 0 <= i < |counted| && counted[i] == h;
      assert edges[i] == h.edge;
    }
  }

  function EdgesOf(hits: seq<EdgeHit>): (r: seq<Edge>)
    ensures |r| == |hits|
    ensures forall i :: 0 <= i < |hits| ==> r[i] == hits[i].edge
  {
    seq(|hits|, i requires 0 <= i < |hits| => hits[i].edge)
  }

  lemma EdgesOfWithCounts(edges: seq<Edge>, table: map<string, int>)
    ensures EdgesOf(WithCounts(edges, table)) == edges
  {
  }

  function NonEmptyIds(edges: seq<Edge>): (ids: seq<string>)
    ensures forall id :: id in ids <==> id != "" && exists e :: e in edges && e.id == id
  {
    assert edges != [] ==> edges == edges[..|edges| - 1] + [edges[|edges| - 1]];
    if edges == [] then []
    else NonEmptyIds(edges[..|edges| - 1]) + if edges[|edges| - 1].id == "" then [] else [edges[|edges| - 1].id]
  }

  /** What the counter says about these edges; nothing is asked when none is wired or no edge has an id. */
  function CountsFor(counter: Option<seq<string> -> CountAnswer>, edges: seq<Edge>): CountAnswer {
    if counter.None? || NonEmptyIds(edges) == [] then Counts(map[]) else counter.value(NonEmptyIds(edges))
  }

  /** A wired counter is asked about just the non-empty ids of the edges; there must be one. */
  lemma CountsAsked(counter: Option<seq<string> -> CountAnswer>, edges: seq<Edge>) returns (ids: seq<string>)
    ensures forall id :: id in ids <==> id != "" && exists e :: e in edges && e.id == id
    ensures CountsFor(counter, edges) == if counter.Some? && ids != [] then counter.value(ids) else Counts(map[])
  {
    ids := NonEmptyIds(edges);
  }

  function TableOf(answer: CountAnswer): map<string, int> {
    if answer.Counts? then answer.table else map[]
  }

  /** One query for all non-empty ids; after an error every count stays 0. */
  method HydrateCounts(edges: seq<Edge>, counter: Option<seq<string> -> CountAnswer>)
    returns (hits: seq<EdgeHit>, outage: bool)
    ensures hits == WithCounts(edges, TableOf(CountsFor(counter, edges)))
    ensures outage <==> CountsFor(counter, edges).CountOutage?
    ensures |hits| == |edges| && forall i :: 0 <= i < |edges| ==>
      var answer := CountsFor(counter, edges);
      && hits[i].edge == edges[i]
      && hits[i].count == if answer.Counts? && edges[i].id in answer.table then answer.table[edges[i].id] else 0
  {
    hits := WithCounts(edges, map[]);
    if counter.None? || |edges| == 0 {
      return hits, false;
    }
    var ids: seq<string> := [];
    for i := 0 to |edges|
      invariant ids == NonEmptyIds(edges[..i])
    {
      assert edges[..i + 1][..i] == edges[..i];
      if edges[i].id != "" {
        ids := ids + [edges[i].id];
      }
    }
    assert edges[..|edges|] == edges;
    if |ids| == 0 {
      return hits, false;
    }
    match counter.value(ids)
    case CountOutage =>
      return hits, true;
    case CountError =>
      return hits, false;
    case Counts(table) =>
      return WithCounts(edges, table), false;
  }
}
