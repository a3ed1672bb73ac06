/** The values that agent.observe writes: one Episode row with its Observation rows. */
module Episodes {

  /** weight is the bits of the float. */
  datatype Observation = Observation(
    observationId: string,
    role: string,
    nodeId: string,
    edgeId: string,
    conceptId: string,
    degradedRecallContextId: string,
    weight: int,
    createdAt: int)

  /** EpisodeAppendInput: the prepared row, with every identifier already minted. */
  datatype Episode = Episode(
    episodeId: string,
    episodeGroupId: string,
    repoId: string,
    sessionId: string,
    traceId: string,
    kind: string,
    contextId: string,
    actionJson: string,
    signalJson: string,
    outcome: string,
    createdAt: int,
    degraded: bool,
    degradedReason: string,
    observations: seq<Observation>)

  const EPISODIC_LOG_UNAVAILABLE := "episodic_log_unavailable"
  const CONSOLIDATOR_BACKPRESSURE := "consolidator_backpressure"

  /** What Drain does to a decoded row before handing it to the writer. */
  function Stamp(ep: Episode): Episode {
    if ep.degraded then ep else ep.(degraded := true, degradedReason := EPISODIC_LOG_UNAVAILABLE)
  }

  /** What is left of a row after json.Marshal and json.Unmarshal: an omitted signal is written as null and
      comes back as the JSON text null. The JSON fields stand for values, as jsonb compares them. */
  function Wire(ep: Episode): Episode {
    if ep.signalJson == "" then ep.(signalJson := "null") else ep
  }

  function StampAll(eps: seq<Episode>): (r: seq<Episode>)
    ensures |r| == |eps|
    ensures forall i :: 0 <= i < |eps| ==> r[i] == Stamp(eps[i])
  {
    seq(|eps|, i requires 0 <= i < |eps| => Stamp(eps[i]))
  }

  lemma StampAllNone()
    ensures StampAll([]) == []
  {
  }

  lemma StampAllSnoc(eps: seq<Episode>, ep: Episode)
    ensures StampAll(eps + [ep]) == StampAll(eps) + [Stamp(ep)]
  {
  }
}
