/** agent.recall from the search results on: publish filter, frontier promotion, rerank, cap. */
module Recall {
  import opened GraphReader
  import opened SeedExpander
  import opened Sequences
  import opened StableSort
  import opened Traversal
  import SeedExpansion
  import opened Wrappers

  const KIND_CONCEPT := "concept"
  const KIND_METHOD := "method"

  /** A point payload, restricted to its string fields. */
  type Payload = map<string, string>

  function Field(p: Payload, name: string): string {
    if name in p then p[name] else ""
  }

  datatype SearchHit = SearchHit(pointId: string, score: real, payload: Payload)

  datatype Candidate = Candidate(
    pointId: string,
    score: real,
    kind: string,
    distance: int,
    payload: Payload,
    finalScore: real)

  /** One collection's results, tagged with the kind that was searched. */
  datatype Collection = Collection(kind: string, hits: seq<SearchHit>)

  /* ---- Step 3: publish filter ---- */

  function FromHit(kind: string, h: SearchHit): Candidate {
    Candidate(h.pointId, h.score, kind, 0, h.payload, 0.0)
  }

  function KeptOf(kind: string, hits: seq<SearchHit>, allow: set<string>): seq<Candidate> {
    if hits == [] then []
    else
      var h := hits[|hits| - 1];
      KeptOf(kind, hits[..|hits| - 1], allow) + if h.pointId in allow then [FromHit(kind, h)] else []
  }

  function Kept(results: seq<Collection>, allow: set<string>): seq<Candidate> {
    if results == [] then []
    else
      var r := results[|results| - 1];
      Kept(results[..|results| - 1], allow) + KeptOf(r.kind, r.hits, allow)
  }

  method CollectPointIds(results: seq<Collection>) returns (ids: set<string>)
    ensures ids == set r, h | r in results && h in r.hits && h.pointId != "" :: h.pointId
  {
    ids := {};
    for i := 0 to |results|
      invariant ids == set r, h | r in results[..i] && h in r.hits && h.pointId != "" :: h.pointId
    {
      var hits := results[i].hits;
      for j := 0 to |hits|
        invariant ids == (set r, h | r in results[..i] && h in r.hits && h.pointId != "" :: h.pointId)
          + (set h | h in hits[..j] && h.pointId != "" :: h.pointId)
      {
        assert hits[..j + 1] == hits[..j] + [hits[j]];
        if hits[j].pointId != "" {
          ids := ids + {hits[j].pointId};
        }
      }
      assert hits[..|hits|] == hits;
      assert results[..i + 1] == results[..i] + [results[i]];
    }
    assert results[..|results|] == results;
  }

  method KeepPublished(results: seq<Collection>, allow: set<string>) returns (candidates: seq<Candidate>)
    ensures candidates == Kept(results, allow)
  {
    candidates := [];
    for i := 0 to |results|
      invariant candidates == Kept(results[..i], allow)
    {
      var kind, hits := results[i].kind, results[i].hits;
      for j := 0 to |hits|
        invariant candidates == Kept(results[..i], allow) + KeptOf(kind, hits[..j], allow)
      {
        assert hits[..j + 1][..j] == hits[..j];
        if hits[j].pointId in allow {
          candidates := candidates + [FromHit(kind, hits[j])];
        }
      }
      assert hits[..|hits|] == hits && results[..i + 1][..i] == results[..i];
    }
    assert results[..|results|] == results;
  }

  /** c is the hit h of a collection of this kind, not yet scored. */
  predicate IsHit(c: Candidate, kind: string, h: SearchHit) {
    && c.pointId == h.pointId && c.score == h.score && c.payload == h.payload
    && c.kind == kind && c.distance == 0 && c.finalScore == 0.0
  }

  lemma {:induction false} KeptOfMeans(kind: string, hits: seq<SearchHit>, allow: set<string>, c: Candidate)
    ensures c in KeptOf(kind, hits, allow) <==>
      exists h :: h in hits && h.pointId in allow && IsHit(c, kind, h)
  {
    if hits != [] {
      KeptOfMeans(kind, hits[..|hits| - 1], allow, c);
      assert hits == hits[..|hits| - 1] + [hits[|hits| - 1]];
    }
  }

  lemma {:induction false} KeptMeans(results: seq<Collection>, allow: set<string>, c: Candidate)
    ensures c in Kept(results, allow) <==>
      exists r, h :: r in results && h in r.hits && h.pointId in allow && IsHit(c, r.kind, h)
  {
    if results != [] {
      var front, last := results[..|results| - 1], results[|results| - 1];
      KeptMeans(front, allow, c);
      KeptOfMeans(last.kind, last.hits, allow, c);
      assert results == front + [last];
    }
  }

  lemma {:induction false} KeptOfConcat(kind: string, a: seq<SearchHit>, b: seq<SearchHit>, allow: set<string>)
    ensures KeptOf(kind, a + b, allow) == KeptOf(kind, a, allow) + KeptOf(kind, b, allow)
  {
    if b == [] {
      assert a + b == a;
    } else {
      var front, last := b[..|b| - 1], b[|b| - 1];
      KeptOfConcat(kind, a, front, allow);
      assert (a + b)[..|a + b| - 1] == a + front && (a + b)[|a + b| - 1] == last;
    }
  }

  lemma {:induction false} KeptConcat(a: seq<Collection>, b: seq<Collection>, allow: set<string>)
    ensures Kept(a + b, allow) == Kept(a, allow) + Kept(b, allow)
  {
    hide KeptOf;
    if b == [] {
      assert a + b == a;
    } else {
      var front, last := b[..|b| - 1], b[|b| - 1];
      KeptConcat(a, front, allow);
      assert (a + b)[..|a + b| - 1] == a + front && (a + b)[|a + b| - 1] == last;
      var x := KeptOf(last.kind, last.hits, allow);
      assert Kept(a + b, allow) == Kept(a + front, allow) + x && Kept(b, allow) == Kept(front, allow) + x;
      assert (Kept(a, allow) + Kept(front, allow)) + x == Kept(a, allow) + (Kept(front, allow) + x);
    }
  }

  /** Kept candidates come in the order of the collections and of the hits in them, one for each allowed hit: wherever
      a hit stands, its candidate stands between those of what is before it and those of what is after it. */
  lemma KeptInOrder(before: seq<Collection>, kind: string, a: seq<SearchHit>, h: SearchHit, b: seq<SearchHit>,
                    after: seq<Collection>, allow: set<string>)
    ensures var left, right := before + [Collection(kind, a)], [Collection(kind, b)] + after;
      var all := before + [Collection(kind, a + [h] + b)] + after;
      && (h.pointId !in allow ==> Kept(all, allow) == Kept(left, allow) + Kept(right, allow))
      && (h.pointId in allow ==>
            && |Kept(all, allow)| == |Kept(left, allow)| + 1 + |Kept(right, allow)|
            && Kept(left, allow) <= Kept(all, allow)
            && IsHit(Kept(all, allow)[|Kept(left, allow)|], kind, h)
            && Kept(all, allow)[|Kept(left, allow)| + 1..] == Kept(right, allow))
  {
    KeptOfConcat(kind, a + [h], b, allow);
    KeptOfConcat(kind, a, [h], allow);
    KeptConcat(before + [Collection(kind, a + [h] + b)], after, allow);
    KeptConcat(before, [Collection(kind, a + [h] + b)], allow);
    KeptConcat(before, [Collection(kind, a)], allow);
    KeptConcat([Collection(kind, b)], after, allow);
    KeptOne(kind, a, allow);
    KeptOne(kind, b, allow);
    KeptOne(kind, a + [h] + b, allow);
    KeptOfOne(kind, h, allow);
    hide Kept, KeptOf, IsHit;
    var x := KeptOf(kind, [h], allow);
    var left, right := before + [Collection(kind, a)], [Collection(kind, b)] + after;
    var all := before + [Collection(kind, a + [h] + b)] + after;
    assert Kept(all, allow) == Kept(left, allow) + x + Kept(right, allow);
  }

  lemma KeptOne(kind: string, hits: seq<SearchHit>, allow: set<string>)
    ensures Kept([Collection(kind, hits)], allow) == KeptOf(kind, hits, allow)
  {
    assert [Collection(kind, hits)][..0] == [];
    assert Kept([], allow) == [];
  }

  lemma KeptOfOne(kind: string, h: SearchHit, allow: set<string>)
    ensures var x := KeptOf(kind, [h], allow);
      if h.pointId in allow then |x| == 1 && IsHit(x[0], kind, h) else x == []
  {
    assert [h][..0] == [];
    assert KeptOf(kind, [], allow) == [];
  }

  /* ---- Step 4: frontier promotion ---- */

  function SeedIds(cs: seq<Candidate>): (r: seq<string>) {
    if cs == [] then []
    else
      var front, c := SeedIds(cs[..|cs| - 1]), cs[|cs| - 1];
      var id := Field(c.payload, "node_id");
      if c.kind == KIND_CONCEPT || id == "" || id in front then front else front + [id]
  }

  /** The nodes that a candidate other than a concept stands for, each once. */
  lemma {:induction false} SeedIdsMean(cs: seq<Candidate>)
    ensures forall id :: id in SeedIds(cs) <==>
      id != "" && exists c :: c in cs && c.kind != KIND_CONCEPT && Field(c.payload, "node_id") == id
    ensures Distinct(SeedIds(cs))
  {
    if cs != [] {
      var front, last := cs[..|cs| - 1], cs[|cs| - 1];
      SeedIdsMean(front);
      hide Field;
      assert cs == front + [last];
      assert forall c :: c in cs <==> c in front || c == last;
    }
  }

  /** They come in the order of their first candidates. */
  lemma {:induction false} SeedIdsGrow(cs: seq<Candidate>, n: nat)
    requires n <= |cs|
    ensures SeedIds(cs[..n]) <= SeedIds(cs)
  {
    if n < |cs| {
      SeedIdsGrow(cs[..|cs| - 1], n);
      assert cs[..|cs| - 1][..n] == cs[..n];
    } else {
      assert cs[..n] == cs;
    }
  }

  method CollectSeedNodeIds(cs: seq<Candidate>) returns (ids: seq<string>)
    ensures ids == SeedIds(cs)
  {
    var seen: set<string> := {};
    ids := [];
    for i := 0 to |cs|
      invariant ids == SeedIds(cs[..i])
      invariant seen == set x | x in ids
    {
      assert cs[..i + 1][..i] == cs[..i];
      if cs[i].kind != KIND_CONCEPT {
        var id := Field(cs[i].payload, "node_id");
        if id != "" && id !in seen {
          seen := seen + {id};
          ids := ids + [id];
        }
      }
    }
    assert cs[..|cs|] == cs;
  }

  function BestScore(cs: seq<Candidate>): (r: real)
    ensures r >= 0.0
    ensures forall c :: c in cs ==> c.score <= r
    ensures r == 0.0 || exists c :: c in cs && c.score == r
  {
    if cs == [] then 0.0
    else
      assert cs == cs[..|cs| - 1] + [cs[|cs| - 1]];
      var r := BestScore(cs[..|cs| - 1]);
      if cs[|cs| - 1].score > r then cs[|cs| - 1].score else r
  }

  function Pow2(n: nat): (r: nat)
    ensures r > 0
  {
    if n == 0 then 1 else 2 * Pow2(n - 1)
  }

  /** Half for every hop. */
  function Discount(hop: nat): (r: real)
    ensures 0.0 < r <= 1.0
    ensures r * (Pow2(hop) as real) == 1.0
  {
    if hop == 0 then 1.0 else Discount(hop - 1) * 0.5
  }

  /** The node ids that the candidates already stand for. */
  function NodeIds(cs: seq<Candidate>): set<string> {
    set c | c in cs && Field(c.payload, "node_id") != "" :: Field(c.payload, "node_id")
  }

  function Promoted(f: FrontierNode, best: real): Candidate {
    var hop := if f.hop <= 0 then 1 else f.hop;
    var seedScore := if f.bestSeedScore <= 0.0 then best else f.bestSeedScore;
    var kind := if f.kind == "" then KIND_METHOD else f.kind;
    Candidate("", seedScore * Discount(hop), kind, hop,
      map["node_id" := f.nodeId, "repo_id" := f.repoId, "kind" := kind, "canonical_signature" := f.signature], 0.0)
  }

  function PromotedAll(frontier: seq<FrontierNode>, taken: set<string>, best: real): seq<Candidate> {
    if frontier == [] then []
    else
      var f := frontier[|frontier| - 1];
      PromotedAll(frontier[..|frontier| - 1], taken, best)
        + if f.nodeId == "" || f.nodeId in taken then [] else [Promoted(f, best)]
  }

  function FromIds(ids: seq<string>, best: real): (r: seq<FrontierNode>)
    ensures |r| == |ids|
    ensures forall i :: 0 <= i < |ids| ==>
      r[i].nodeId == ids[i] && r[i].hop == 1 && r[i].bestSeedScore == best && r[i].kind == ""
  {
    seq(|ids|, i requires 0 <= i < |ids| =>
      FrontierNode(nodeId := ids[i], repoId := "", kind := "", signature := "", hop := 1, bestSeedScore := best))
  }

  /** The frontier, or the one synthesised from the legacy id list. */
  function Frontier(x: Expansion, best: real): seq<FrontierNode> {
    if x.frontier == [] && x.frontierNodeIds != [] then FromIds(x.frontierNodeIds, best) else x.frontier
  }

  /** The legacy id list counts only when there is no typed frontier; its nodes then sit at hop 1, behind the best
      seed, so that each is promoted with half of the best score. */
  lemma LegacyFrontier(x: Expansion, best: real, ids: seq<string>)
    requires best > 0.0
    ensures x.frontier != [] ==> Frontier(x, best) == Frontier(x.(frontierNodeIds := ids), best) == x.frontier
    ensures x.frontier == [] ==>
      && SeedExpansion.FrontierIds(Frontier(x, best)) == x.frontierNodeIds
      && forall f :: f in Frontier(x, best) ==>
           var c := Promoted(f, best);
           c.distance == 1 && c.score * 2.0 == best && c.kind == "method"
  {
    assert Discount(0) == 1.0 && Discount(1) == 0.5;
    var fs := Frontier(x, best);
    forall f | x.frontier == [] && f in fs
      ensures f.hop == 1 && f.bestSeedScore == best && f.kind == ""
    {
      var i :| 0 <= i < |fs| && fs[i] == f;
    }
  }

  method FindBestScore(seeds: seq<Candidate>) returns (best: real)
    ensures best == BestScore(seeds)
  {
    best := 0.0;
    for i := 0 to |seeds|
      invariant best == BestScore(seeds[..i])
    {
      assert seeds[..i + 1][..i] == seeds[..i];
      if seeds[i].score > best {
        best := seeds[i].score;
      }
    }
    assert seeds[..|seeds|] == seeds;
  }

  method CollectNodeIds(seeds: seq<Candidate>) returns (ids: set<string>)
    ensures ids == NodeIds(seeds)
  {
    ids := {};
    for i := 0 to |seeds|
      invariant ids == NodeIds(seeds[..i])
    {
      assert seeds[..i + 1] == seeds[..i] + [seeds[i]];
      var id := Field(seeds[i].payload, "node_id");
      if id != "" {
        ids := ids + {id};
      }
    }
    assert seeds[..|seeds|] == seeds;
  }

  method PromoteOne(f: FrontierNode, best: real) returns (c: Candidate)
    ensures c == Promoted(f, best)
  {
    var hop: nat := if f.hop <= 0 then 1 else f.hop;
    var discount := 1.0;
    for h := 0 to hop
      invariant discount == Discount(h)
    {
      discount := discount * 0.5;
    }
    var seedScore := if f.bestSeedScore <= 0.0 then best else f.bestSeedScore;
    var kind := if f.kind == "" then KIND_METHOD else f.kind;
    c := Candidate("", seedScore * discount, kind, hop,
      map["node_id" := f.nodeId, "repo_id" := f.repoId, "kind" := kind, "canonical_signature" := f.signature], 0.0);
  }

  method AppendFrontierCandidates(seeds: seq<Candidate>, x: Expansion) returns (out: seq<Candidate>)
    ensures out == seeds + PromotedAll(Frontier(x, BestScore(seeds)), NodeIds(seeds), BestScore(seeds))
  {
    hide BestScore, NodeIds, Promoted;
    var best := FindBestScore(seeds);
    var frontier := x.frontier;
    if |frontier| == 0 && |x.frontierNodeIds| > 0 {
      frontier := FromIds(x.frontierNodeIds, best);
    }
    var seedSet := CollectNodeIds(seeds);
    out := seeds;
    for i := 0 to |frontier|
      invariant out == seeds + PromotedAll(frontier[..i], seedSet, best)
    {
      assert frontier[..i + 1][..i] == frontier[..i];
      if frontier[i].nodeId != "" && frontier[i].nodeId !in seedSet {
        var c := PromoteOne(frontier[i], best);
        out := out + [c];
      }
    }
    assert frontier[..|frontier|] == frontier;
  }

  /** A promoted candidate says what the frontier node says. Its score is that of the seed behind it, halved for every
      hop; hops start at 1, a missing seed score is the best one, a missing kind is method. */
  lemma PromotedShape(f: FrontierNode, best: real)
    ensures var c := Promoted(f, best);
      && c.pointId == "" && c.finalScore == 0.0
      && c.distance == (if f.hop <= 0 then 1 else f.hop)
      && c.score * (Pow2(c.distance) as real) == (if f.bestSeedScore <= 0.0 then best else f.bestSeedScore)
      && c.kind == (if f.kind == "" then "method" else f.kind) == Field(c.payload, "kind")
      && Field(c.payload, "node_id") == f.nodeId && Field(c.payload, "repo_id") == f.repoId
      && Field(c.payload, "canonical_signature") == f.signature
  {
    var hop := if f.hop <= 0 then 1 else f.hop;
    var s, d, p := if f.bestSeedScore <= 0.0 then best else f.bestSeedScore, Discount(hop), Pow2(hop) as real;
    assert (s * d) * p == s * (d * p);
  }

  /** Promoted candidates come in the order of the frontier, one for each node that is no seed. */
  lemma PromotedInOrder(frontier: seq<FrontierNode>, f: FrontierNode, taken: set<string>, best: real)
    ensures var before, all := PromotedAll(frontier, taken, best), PromotedAll(frontier + [f], taken, best);
      if f.nodeId == "" || f.nodeId in taken then all == before
      else
        |all| == |before| + 1 && before <= all && Field(all[|before|].payload, "node_id") == f.nodeId
  {
    assert (frontier + [f])[..|frontier|] == frontier;
  }

  /** Every promoted candidate has no point id, sits at hop 1 or more and shadows no seed. */
  lemma {:induction false} PromotedMeans(frontier: seq<FrontierNode>, taken: set<string>, best: real, c: Candidate)
    ensures c in PromotedAll(frontier, taken, best) <==>
      exists f :: f in frontier && f.nodeId != "" && f.nodeId !in taken && c == Promoted(f, best)
    ensures c in PromotedAll(frontier, taken, best) ==>
      && c.pointId == "" && c.distance >= 1
      && Field(c.payload, "node_id") != "" && Field(c.payload, "node_id") !in taken
  {
    if frontier != [] {
      var front, f := frontier[..|frontier| - 1], frontier[|frontier| - 1];
      hide Promoted, Field;
      PromotedMeans(front, taken, best, c);
      PromotedShape(f, best);
      assert frontier == front + [f];
      assert f in frontier && forall h :: h in frontier <==> h in front || h == f;
    }
  }

  /* ---- Step 5: rerank ---- */

  datatype Weights = Weights(cosine: real, structural: real, conceptBonus: real)

  /** The v0 cold-start ranker, or the sidecar scores by graph id. */
  datatype Ranker = ColdStart(weights: Weights) | Sidecar(scores: map<string, real>)

  function ScoreOne(w: Weights, c: Candidate): real {
    w.cosine * c.score - w.structural * (c.distance as real) + if c.kind == KIND_CONCEPT then w.conceptBonus else 0.0
  }

  /** What the v0 score rewards: similarity, closeness to the seeds, and being a concept. */
  lemma ScoresCompare(w: Weights, c: Candidate, d: Candidate)
    ensures ScoreOne(w, c) - ScoreOne(w, d) ==
      w.cosine * (c.score - d.score) + w.structural * ((d.distance - c.distance) as real)
        + (if c.kind == "concept" then w.conceptBonus else 0.0) - (if d.kind == "concept" then w.conceptBonus else 0.0)
    ensures c.score == 0.0 && c.distance == 0 && c.kind != "concept" ==> ScoreOne(w, c) == 0.0
  {
    var x, y := c.distance as real, d.distance as real;
    assert (d.distance - c.distance) as real == y - x;
    assert w.structural * (y - x) == w.structural * y - w.structural * x;
    assert w.cosine * (c.score - d.score) == w.cosine * c.score - w.cosine * d.score;
  }

  function GraphId(c: Candidate): string {
    if Field(c.payload, "node_id") != "" then Field(c.payload, "node_id")
    else if Field(c.payload, "concept_id") != "" then Field(c.payload, "concept_id")
    else c.pointId
  }

  function FinalScore(r: Ranker, c: Candidate): real {
    match r
    case ColdStart(w) => ScoreOne(w, c)
    case Sidecar(scores) =>
      if GraphId(c) != "" && GraphId(c) in scores then scores[GraphId(c)]
      else if c.finalScore == 0.0 then c.score else c.finalScore
  }

  /** The sidecar speaks of nodes by node id, of concepts by concept id, and of a point that is neither by its point id;
      a candidate it does not speak of keeps its score. */
  lemma SidecarScores(scores: map<string, real>, c: Candidate)
    requires c.finalScore == 0.0
    ensures var node, concept := Field(c.payload, "node_id"), Field(c.payload, "concept_id");
      var id := if node != "" then node else if concept != "" then concept else c.pointId;
      FinalScore(Sidecar(scores), c) == if id != "" && id in scores then scores[id] else c.score
  {
  }

  function Scored(r: Ranker, cs: seq<Candidate>): (out: seq<Candidate>)
    ensures |out| == |cs|
    ensures forall i :: 0 <= i < |cs| ==> out[i] == cs[i].(finalScore := FinalScore(r, cs[i]))
  {
    seq(|cs|, i requires 0 <= i < |cs| => cs[i].(finalScore := FinalScore(r, cs[i])))
  }

  function Better(): (Candidate, Candidate) -> bool {
    (a: Candidate, b: Candidate) => a.finalScore > b.finalScore
  }

  /** Rank: scores a copy in place, then sorts it stably by descending score. */
  method Rank(r: Ranker, candidates: seq<Candidate>) returns (ranked: seq<Candidate>)
    ensures ranked == Sort(Scored(r, candidates), Better())
  {
    var out := new Candidate[|candidates|](i requires 0 <= i < |candidates| => candidates[i]);
    for i := 0 to out.Length
      invariant out[..i] == Scored(r, candidates)[..i]
      invariant forall j :: i <= j < out.Length ==> out[j] == candidates[j]
    {
      out[i] := out[i].(finalScore := FinalScore(r, out[i]));
    }
    assert out[..] == Scored(r, candidates);
    ranked := Sort(out[..], Better());
  }

  /** A candidate without what the ranker writes. */
  function Unscored(c: Candidate): Candidate { c.(finalScore := 0.0) }

  function UnscoredAll(cs: seq<Candidate>): (r: seq<Candidate>)
    ensures |r| == |cs|
    ensures forall i :: 0 <= i < |cs| ==> r[i] == Unscored(cs[i])
  {
    seq(|cs|, i requires 0 <= i < |cs| => Unscored(cs[i]))
  }

  lemma UnscoredInsert(xs: seq<Candidate>, x: Candidate, less: (Candidate, Candidate) -> bool)
    ensures multiset(UnscoredAll(Insert(xs, x, less))) == multiset(UnscoredAll(xs)) + multiset{Unscored(x)}
  {
    if xs == [] || !less(x, xs[|xs| - 1]) {
      assert UnscoredAll(xs + [x]) == UnscoredAll(xs) + [Unscored(x)];
    } else {
      var front, last := xs[..|xs| - 1], xs[|xs| - 1];
      UnscoredInsert(front, x, less);
      assert UnscoredAll(xs) == UnscoredAll(front) + [Unscored(last)];
      assert UnscoredAll(Insert(xs, x, less)) == UnscoredAll(Insert(front, x, less)) + [Unscored(last)];
    }
  }

  lemma {:induction false} UnscoredSort(xs: seq<Candidate>, less: (Candidate, Candidate) -> bool)
    ensures multiset(UnscoredAll(Sort(xs, less))) == multiset(UnscoredAll(xs))
  {
    if xs != [] {
      var front, last := xs[..|xs| - 1], xs[|xs| - 1];
      UnscoredSort(front, less);
      UnscoredInsert(Sort(front, less), last, less);
      assert UnscoredAll(xs) == UnscoredAll(front) + [Unscored(last)];
    }
  }

  /** Reranking only permutes the candidates: apart from the score written on each, the same
      ones come out, in descending score, ties in input order. */
  lemma RankPermutes(r: Ranker, cs: seq<Candidate>, v: real)
    ensures var ranked := Sort(Scored(r, cs), Better());
      && |ranked| == |cs|
      && multiset(UnscoredAll(ranked)) == multiset(UnscoredAll(cs))
      && (forall i, j :: 0 <= i < j < |ranked| ==> ranked[i].finalScore >= ranked[j].finalScore)
      && Where(ranked, (c: Candidate) => c.finalScore == v) == Where(Scored(r, cs), (c: Candidate) => c.finalScore == v)
  {
    var scored := Scored(r, cs);
    SortPermutes(scored, Better());
    SortSorts(scored, Better());
    SortIsStable(scored, Better(), (c: Candidate) => c.finalScore == v);
    UnscoredSort(scored, Better());
    assert UnscoredAll(scored) == UnscoredAll(cs);
  }

  lemma RankedIsScored(r: Ranker, cs: seq<Candidate>, c: Candidate)
    requires c in Sort(Scored(r, cs), Better())
    ensures exists c0 :: c0 in cs && c == c0.(finalScore := FinalScore(r, c0))
  {
    SortPermutes(Scored(r, cs), Better());
    assert c in multiset(Scored(r, cs));
    var i :| 0 <= i < |cs| && Scored(r, cs)[i] == c;
  }

  /** The candidates in the order they are served: ranked, or in search order when no reranker is wired. */
  function Served(ranker: Option<Ranker>, cs: seq<Candidate>): seq<Candidate> {
    match ranker
    case Some(r) => Sort(Scored(r, cs), Better())
    case None => AsSearched(cs)
  }

  function AsSearched(cs: seq<Candidate>): (out: seq<Candidate>)
    ensures |out| == |cs|
    ensures forall i :: 0 <= i < |cs| ==> out[i] == cs[i].(finalScore := cs[i].score)
  {
    seq(|cs|, i requires 0 <= i < |cs| => cs[i].(finalScore := cs[i].score))
  }

  function ScoreOf(ranker: Option<Ranker>, c: Candidate): real {
    match ranker
    case Some(r) => FinalScore(r, c)
    case None => c.score
  }

  method OrderCandidates(ranker: Option<Ranker>, candidates: seq<Candidate>) returns (ranked: seq<Candidate>)
    ensures ranked == Served(ranker, candidates) && |ranked| == |candidates|
  {
    match ranker {
      case Some(r) =>
        ranked := Rank(r, candidates);
        SortPermutes(Scored(r, candidates), Better());
      case None =>
        ranked := candidates;
        for i := 0 to |ranked|
          invariant |ranked| == |candidates|
          invariant forall j :: 0 <= j < |ranked| ==>
            ranked[j] == if j < i then AsSearched(candidates)[j] else candidates[j]
        {
          ranked := ranked[i := ranked[i].(finalScore := ranked[i].score)];
        }
    }
  }

  lemma ServedIsScored(ranker: Option<Ranker>, cs: seq<Candidate>, c: Candidate)
    requires c in Served(ranker, cs)
    ensures exists c0 :: c0 in cs && c == c0.(finalScore := ScoreOf(ranker, c0))
  {
    match ranker
    case Some(r) => RankedIsScored(r, cs, c);
    case None =>
      var i :| 0 <= i < |cs| && AsSearched(cs)[i] == c;
      assert cs[i] in cs;
  }

  /* ---- The cap and the response ---- */

  datatype NodeHit = NodeHit(pointId: string, score: real, kind: string, nodeId: string, repoId: string,
                             signature: string)
  /** The legacy surface: nodes once more, with the whole payload. */
  datatype Hit = Hit(pointId: string, score: real, payload: Payload)
  datatype ConceptHit = ConceptHit(pointId: string, score: real, conceptId: string, name: string)

  /** The response shows a candidate with this score. */
  predicate ShowsNode(n: NodeHit, c: Candidate, score: real) {
    && n.pointId == c.pointId && n.score == score && n.kind == c.kind
    && n.nodeId == Field(c.payload, "node_id") && n.repoId == Field(c.payload, "repo_id")
    && n.signature == Field(c.payload, "canonical_signature")
  }

  predicate ShowsConcept(h: ConceptHit, c: Candidate, score: real) {
    && h.pointId == c.pointId && h.score == score
    && h.conceptId == Field(c.payload, "concept_id") && h.name == Field(c.payload, "name")
  }

  function AsNode(c: Candidate): (n: NodeHit)
    ensures ShowsNode(n, c, c.finalScore)
  {
    NodeHit(c.pointId, c.finalScore, c.kind, Field(c.payload, "node_id"), Field(c.payload, "repo_id"),
            Field(c.payload, "canonical_signature"))
  }

  function AsConcept(c: Candidate): (h: ConceptHit)
    ensures ShowsConcept(h, c, c.finalScore)
  {
    ConceptHit(c.pointId, c.finalScore, Field(c.payload, "concept_id"), Field(c.payload, "name"))
  }

  function NodesOf(cs: seq<Candidate>): seq<NodeHit> {
    if cs == [] then []
    else NodesOf(cs[..|cs| - 1]) + if cs[|cs| - 1].kind == KIND_CONCEPT then [] else [AsNode(cs[|cs| - 1])]
  }

  function HitsOf(cs: seq<Candidate>): seq<Hit> {
    if cs == [] then []
    else
      var c := cs[|cs| - 1];
      HitsOf(cs[..|cs| - 1]) + if c.kind == KIND_CONCEPT then [] else [Hit(c.pointId, c.finalScore, c.payload)]
  }

  function ConceptsOf(cs: seq<Candidate>): seq<ConceptHit> {
    if cs == [] then []
    else ConceptsOf(cs[..|cs| - 1]) + if cs[|cs| - 1].kind == KIND_CONCEPT then [AsConcept(cs[|cs| - 1])] else []
  }

  function Min(a: nat, b: nat): nat { if a < b then a else b }

  /** The projection loop, stopping at k. */
  method Project(ranked: seq<Candidate>, k: nat)
    returns (hits: seq<Hit>, nodes: seq<NodeHit>, concepts: seq<ConceptHit>)
    ensures var served := ranked[..Min(k, |ranked|)];
      hits == HitsOf(served) && nodes == NodesOf(served) && concepts == ConceptsOf(served)
    ensures |nodes| + |concepts| == Min(k, |ranked|)
  {
    hits, nodes, concepts := [], [], [];
    var taken := 0;
    for i := 0 to |ranked|
      invariant taken == Min(k, i)
      invariant hits == HitsOf(ranked[..taken])
      invariant nodes == NodesOf(ranked[..taken]) && concepts == ConceptsOf(ranked[..taken])
      invariant |nodes| + |concepts| == taken
    {
      if taken >= k {
        break;
      }
      assert ranked[..i + 1][..i] == ranked[..i];
      if ranked[i].kind == KIND_CONCEPT {
        concepts := concepts + [AsConcept(ranked[i])];
      } else {
        hits := hits + [Hit(ranked[i].pointId, ranked[i].finalScore, ranked[i].payload)];
        nodes := nodes + [AsNode(ranked[i])];
      }
      taken := taken + 1;
    }
  }

  /** Served candidates are shown in their order, a concept among the concepts, anything else among the nodes and,
      with its whole payload, among the legacy hits: each next one comes behind those before it. */
  lemma ShownInOrder(cs: seq<Candidate>, c: Candidate)
    ensures var all := cs + [c];
      if c.kind == KIND_CONCEPT then
        && NodesOf(all) == NodesOf(cs) && HitsOf(all) == HitsOf(cs)
        && |ConceptsOf(all)| == |ConceptsOf(cs)| + 1 && ConceptsOf(cs) <= ConceptsOf(all)
        && ShowsConcept(ConceptsOf(all)[|ConceptsOf(cs)|], c, c.finalScore)
      else
        && ConceptsOf(all) == ConceptsOf(cs)
        && |NodesOf(all)| == |NodesOf(cs)| + 1 && NodesOf(cs) <= NodesOf(all)
        && ShowsNode(NodesOf(all)[|NodesOf(cs)|], c, c.finalScore)
        && |HitsOf(all)| == |HitsOf(cs)| + 1 && HitsOf(cs) <= HitsOf(all)
        && HitsOf(all)[|HitsOf(cs)|].payload == c.payload
  {
    assert (cs + [c])[..|cs|] == cs;
  }

  /** The two node surfaces run in parallel. */
  lemma {:induction false} HitsMatchNodes(cs: seq<Candidate>)
    ensures |HitsOf(cs)| == |NodesOf(cs)|
    ensures forall i :: 0 <= i < |HitsOf(cs)| ==>
      && HitsOf(cs)[i].pointId == NodesOf(cs)[i].pointId && HitsOf(cs)[i].score == NodesOf(cs)[i].score
      && Field(HitsOf(cs)[i].payload, "node_id") == NodesOf(cs)[i].nodeId
  {
    if cs != [] {
      HitsMatchNodes(cs[..|cs| - 1]);
    }
  }

  lemma {:induction false} NodesOfMeans(cs: seq<Candidate>, n: NodeHit)
    requires n in NodesOf(cs)
    ensures exists c :: c in cs && c.kind != KIND_CONCEPT && n == AsNode(c)
  {
    var front, last := cs[..|cs| - 1], cs[|cs| - 1];
    assert cs == front + [last];
    if n in NodesOf(front) {
      NodesOfMeans(front, n);
    }
  }

  lemma {:induction false} ConceptsOfMeans(cs: seq<Candidate>, h: ConceptHit)
    requires h in ConceptsOf(cs)
    ensures exists c :: c in cs && c.kind == KIND_CONCEPT && h == AsConcept(c)
  {
    var front, last := cs[..|cs| - 1], cs[|cs| - 1];
    assert cs == front + [last];
    if h in ConceptsOf(front) {
      ConceptsOfMeans(front, h);
    }
  }

  /** Hits in the order of the candidates they came from. */
  lemma {:induction false} NodesDescend(cs: seq<Candidate>)
    requires forall i, j :: 0 <= i < j < |cs| ==> cs[i].finalScore >= cs[j].finalScore
    ensures var ns := NodesOf(cs); forall i, j :: 0 <= i < j < |ns| ==> ns[i].score >= ns[j].score
  {
    if cs != [] {
      var front, last := cs[..|cs| - 1], cs[|cs| - 1];
      NodesDescend(front);
      var ns, all := NodesOf(front), NodesOf(cs);
      forall i | 0 <= i < |ns|
        ensures ns[i].score >= last.finalScore
      {
        NodesOfMeans(front, ns[i]);
        var c :| c in front && c.kind != KIND_CONCEPT && ns[i] == AsNode(c);
        var m :| 0 <= m < |front| && front[m] == c;
        assert cs[m].finalScore >= cs[|front|].finalScore;
      }
      assert all == ns + if last.kind == KIND_CONCEPT then [] else [AsNode(last)];
    }
  }

  datatype Response =
    | Response(hits: seq<Hit>, nodes: seq<NodeHit>, edges: seq<EdgeHit>, concepts: seq<ConceptHit>)
    | Degraded

  /** The candidates a non-degraded recall ranks. */
  ghost function Candidates(results: seq<Collection>, allow: set<string>, x: Option<Expansion>): seq<Candidate> {
    var kept := Kept(results, allow);
    match x
    case None => kept
    case Some(e) => kept + PromotedAll(Frontier(e, BestScore(kept)), NodeIds(kept), BestScore(kept))
  }

  /** The point ids that pass the publish filter. */
  function Allowed(results: seq<Collection>, published: string -> bool): set<string> {
    set r, h | r in results && h in r.hits && h.pointId != "" && published(h.pointId) :: h.pointId
  }

  /** What the expander answers; None when none is wired or there is no seed to ask about. */
  function Asked(expander: Option<seq<string> -> Reply<Expansion>>, kept: seq<Candidate>): Option<Reply<Expansion>> {
    if expander.Some? && SeedIds(kept) != [] then Some(expander.value(SeedIds(kept))) else None
  }

  function Grown(asked: Option<Reply<Expansion>>): Option<Expansion> {
    if asked.Some? && asked.value.Got? then Some(asked.value.value) else None
  }

  /** Steps 3 to 5 of Recall. published is the filter. */
  method Recall(results: seq<Collection>, published: string -> bool, expander: Option<seq<string> -> Reply<Expansion>>,
                ranker: Option<Ranker>, k: nat)
    returns (resp: Response)
    ensures resp.Degraded? <==> Asked(expander, Kept(results, Allowed(results, published))) == Some(Lost(StoreOutage))
    ensures resp.Response? ==>
      var allow := Allowed(results, published);
      var x := Grown(Asked(expander, Kept(results, allow)));
      var cs := Candidates(results, allow, x);
      var served := Served(ranker, cs)[..Min(k, |Served(ranker, cs)|)];
      && resp.hits == HitsOf(served) && resp.nodes == NodesOf(served) && resp.concepts == ConceptsOf(served)
      && resp.edges == (if x.Some? then x.value.edges else [])
      && |resp.nodes| + |resp.concepts| == Min(k, |cs|)
      && (forall n :: n in resp.nodes ==> n.pointId == "" || published(n.pointId))
      && (forall h :: h in resp.concepts ==> h.pointId == "" || published(h.pointId))
  {
    hide Kept, SeedIds, PromotedAll, HitsOf, NodesOf, ConceptsOf;
    var edges: seq<EdgeHit> := [];
    var ids := CollectPointIds(results);
    var allowSet := set id | id in ids && published(id);
    assert allowSet == Allowed(results, published);
    var candidates := KeepPublished(results, allowSet);
    if expander.Some? {
      var seedNodeIds := CollectSeedNodeIds(candidates);
      if |seedNodeIds| > 0 {
        match expander.value(seedNodeIds)
        case Got(e) =>
          candidates := AppendFrontierCandidates(candidates, e);
          edges := e.edges;
        case Lost(failure) =>
          // An outage of the graph degrades the whole recall; any other error is soft.
          if failure.StoreOutage? {
            return Degraded;
          }
      }
    }
    var ranked := OrderCandidates(ranker, candidates);
    var hits, nodes, concepts := Project(ranked, k);
    AnsweredArePublished(results, allowSet, Grown(Asked(expander, Kept(results, allowSet))), ranker, k);
    resp := Response(hits, nodes, edges, concepts);
  }

  /** Where a served candidate comes from. */
  ghost predicate Admissible(results: seq<Collection>, allow: set<string>, x: Option<Expansion>, c: Candidate) {
    if c.pointId != "" then
      c.pointId in allow && exists r, h :: r in results && h in r.hits && h.pointId == c.pointId && r.kind == c.kind
    else
      && x.Some?
      && c.distance >= 1
      && (forall s :: s in Kept(results, allow) ==> Field(s.payload, "node_id") != Field(c.payload, "node_id"))
      && exists f :: f in Frontier(x.value, BestScore(Kept(results, allow)))
                      && f.nodeId == Field(c.payload, "node_id") != ""
  }

  /** Every candidate with a point id passed the publish filter, and every one without is a
      frontier node at hop 1 or more that shadows no seed. */
  lemma CandidatesAdmissible(results: seq<Collection>, allow: set<string>, x: Option<Expansion>, c: Candidate)
    requires "" !in allow && c in Candidates(results, allow, x)
    ensures Admissible(results, allow, x, c)
  {
    hide Kept, PromotedAll, Frontier, BestScore, NodeIds;
    var kept := Kept(results, allow);
    if c in kept {
      KeptMeans(results, allow, c);
    } else {
      PromotedMeans(Frontier(x.value, BestScore(kept)), NodeIds(kept), BestScore(kept), c);
      NodeIdsMean(kept);
    }
  }

  lemma NodeIdsMean(cs: seq<Candidate>)
    ensures forall c :: c in cs && Field(c.payload, "node_id") != "" ==> Field(c.payload, "node_id") in NodeIds(cs)
  {
  }

  /** No two of the candidates stand for one node. */
  ghost predicate DistinctNodes(cs: seq<Candidate>) {
    forall i, j :: 0 <= i < j < |cs| ==> Field(cs[i].payload, "node_id") != Field(cs[j].payload, "node_id")
  }

  lemma DistinctNodesSnoc(cs: seq<Candidate>, c: Candidate)
    requires DistinctNodes(cs) && forall d :: d in cs ==> Field(d.payload, "node_id") != Field(c.payload, "node_id")
    ensures DistinctNodes(cs + [c])
  {
  }

  lemma {:induction false} PromotedDistinct(frontier: seq<FrontierNode>, taken: set<string>, best: real)
    requires Distinct(SeedExpansion.FrontierIds(frontier))
    ensures DistinctNodes(PromotedAll(frontier, taken, best))
  {
    if frontier != [] {
      var front, f := frontier[..|frontier| - 1], frontier[|frontier| - 1];
      var ids := SeedExpansion.FrontierIds(frontier);
      assert SeedExpansion.FrontierIds(front) == ids[..|front|];
      PromotedDistinct(front, taken, best);
      hide DistinctNodes, Promoted, Field;
      forall c | c in PromotedAll(front, taken, best)
        ensures Field(c.payload, "node_id") != f.nodeId
      {
        PromotedMeans(front, taken, best, c);
        var h :| h in front && c == Promoted(h, best);
        PromotedShape(h, best);
        var m :| 0 <= m < |front| && front[m] == h;
        assert ids[m] == h.nodeId && ids[|front|] == f.nodeId;
      }
      PromotedShape(f, best);
      DistinctNodesSnoc(PromotedAll(front, taken, best), Promoted(f, best));
      assert PromotedAll(front, taken, best) + [] == PromotedAll(front, taken, best);
    }
  }

  /** With the graph expander's answer to the seeds of the kept candidates: a promoted candidate's distance is its
      shortest distance from the seeds, and no two promoted candidates stand for one node. */
  lemma PromotedAtDistance(g: Graph, kept: seq<Candidate>, depth: nat, fanOut: nat, x: Expansion)
    requires UniqueIds(g) && depth > 0 && x.frontierNodeIds == []
    requires SeedExpansion.Expanded(g, SeedExpansion.Deduped(SeedIds(kept)), depth, fanOut, SeedExpansion.WalkedOf(x))
    ensures var ps := PromotedAll(Frontier(x, BestScore(kept)), NodeIds(kept), BestScore(kept));
      && (forall c :: c in ps ==>
            c.distance > 0
            && AtDistance(g, SeedExpansion.Deduped(SeedIds(kept)), Field(c.payload, "node_id"), c.distance))
      && DistinctNodes(ps)
  {
    hide DistinctNodes, SeedIds, NodeIds, BestScore, AtDistance, UniqueIds, SeedExpansion.Expanded,
         SeedExpansion.Deduped, PromotedAll;
    SeedExpansion.ExpansionMeans(g, SeedIds(kept), depth, fanOut, SeedExpansion.WalkedOf(x));
    var best, taken := BestScore(kept), NodeIds(kept);
    PromotedDistinct(x.frontier, taken, best);
    forall c | c in PromotedAll(x.frontier, taken, best)
      ensures c.distance > 0
      ensures AtDistance(g, SeedExpansion.Deduped(SeedIds(kept)), Field(c.payload, "node_id"), c.distance)
    {
      PromotedMeans(x.frontier, taken, best, c);
      var f :| f in x.frontier && c == Promoted(f, best);
      PromotedShape(f, best);
    }
  }

  lemma AnsweredArePublished(results: seq<Collection>, allow: set<string>, x: Option<Expansion>,
                             ranker: Option<Ranker>, k: nat)
    requires "" !in allow
    ensures var all := Served(ranker, Candidates(results, allow, x));
      var served := all[..Min(k, |all|)];
      && (forall n :: n in NodesOf(served) ==> n.pointId == "" || n.pointId in allow)
      && (forall h :: h in ConceptsOf(served) ==> h.pointId == "" || h.pointId in allow)
  {
    hide Candidates, NodesOf, ConceptsOf, Served, ScoreOf;
    var cs := Candidates(results, allow, x);
    var all := Served(ranker, cs);
    var served := all[..Min(k, |all|)];
    forall n | n in NodesOf(served)
      ensures n.pointId == "" || n.pointId in allow
    {
      var c := ShownNode(ranker, cs, served, n);
      CandidatesAdmissible(results, allow, x, c);
    }
    forall h | h in ConceptsOf(served)
      ensures h.pointId == "" || h.pointId in allow
    {
      var c := ShownConcept(ranker, cs, served, h);
      CandidatesAdmissible(results, allow, x, c);
    }
  }

  lemma ShownNode(ranker: Option<Ranker>, cs: seq<Candidate>, served: seq<Candidate>, n: NodeHit) returns (c: Candidate)
    requires served <= Served(ranker, cs) && n in NodesOf(served)
    ensures c in cs && ShowsNode(n, c, ScoreOf(ranker, c))
  {
    hide Served, NodesOf;
    NodesOfMeans(served, n);
    var d :| d in served && n == AsNode(d);
    assert ShowsNode(AsNode(d), d, d.finalScore);
    assert d in Served(ranker, cs);
    ServedIsScored(ranker, cs, d);
    c :| c in cs && d == c.(finalScore := ScoreOf(ranker, c));
  }

  lemma ShownConcept(ranker: Option<Ranker>, cs: seq<Candidate>, served: seq<Candidate>, h: ConceptHit)
    returns (c: Candidate)
    requires served <= Served(ranker, cs) && h in ConceptsOf(served)
    ensures c in cs && ShowsConcept(h, c, ScoreOf(ranker, c))
  {
    hide Served, ConceptsOf;
    ConceptsOfMeans(served, h);
    var d :| d in served && h == AsConcept(d);
    assert ShowsConcept(AsConcept(d), d, d.finalScore);
    assert d in Served(ranker, cs);
    ServedIsScored(ranker, cs, d);
    c :| c in cs && d == c.(finalScore := ScoreOf(ranker, c));
  }

  /** The whole answer: the first min(k, candidates) candidates, each hit a scored copy of an admissible
      candidate; with a reranker these are the best ones, nodes in descending score. */
  lemma RecallMeans(results: seq<Collection>, allow: set<string>, x: Option<Expansion>, ranker: Option<Ranker>, k: nat)
    requires "" !in allow
    ensures var cs := Candidates(results, allow, x);
      var all := Served(ranker, cs);
      var served, dropped := all[..Min(k, |all|)], all[Min(k, |all|)..];
      && |served| == Min(k, |cs|)
      && (forall n :: n in NodesOf(served) ==>
            exists c :: c in cs && Admissible(results, allow, x, c) && ShowsNode(n, c, ScoreOf(ranker, c)))
      && (forall h :: h in ConceptsOf(served) ==>
            exists c :: c in cs && Admissible(results, allow, x, c) && ShowsConcept(h, c, ScoreOf(ranker, c)))
      && (ranker.Some? ==>
            && (forall a, b :: a in served && b in dropped ==> a.finalScore >= b.finalScore)
            && (var ns := NodesOf(served); forall i, j :: 0 <= i < j < |ns| ==> ns[i].score >= ns[j].score))
  {
    hide Candidates, Admissible, NodesOf, ConceptsOf, Sort, ScoreOf, ShowsNode, ShowsConcept;
    var cs := Candidates(results, allow, x);
    var all := Served(ranker, cs);
    if ranker.Some? {
      RankPermutes(ranker.value, cs, 0.0);
      NodesDescend(all[..Min(k, |all|)]);
    }
    hide Served;
    var served := all[..Min(k, |all|)];
    forall n | n in NodesOf(served)
      ensures exists c :: c in cs && Admissible(results, allow, x, c) && ShowsNode(n, c, ScoreOf(ranker, c))
    {
      var c := ShownNode(ranker, cs, served, n);
      CandidatesAdmissible(results, allow, x, c);
    }
    forall h | h in ConceptsOf(served)
      ensures exists c :: c in cs && Admissible(results, allow, x, c) && ShowsConcept(h, c, ScoreOf(ranker, c))
    {
      var c := ShownConcept(ranker, cs, served, h);
      CandidatesAdmissible(results, allow, x, c);
    }
  }
}
