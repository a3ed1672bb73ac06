/** agent.observe: validation, the Observation list, and where the Episode row ends up. */
module ObserveService {
  import opened Episodes
  import opened Framing
  import opened WalMachine
  import opened WalSafety
  import opened DrainSpec
  import opened WalDurability
  import opened WalLoss
  import opened FileWal
  import opened Wrappers

  const NODE_HIT := "node_hit"
  const EDGE_HIT := "edge_hit"
  const CALL_EDGE_HIT := "call_edge_hit"
  const CONCEPT_HIT := "concept_hit"
  const DEGRADED_RECALL_CONTEXT := "degraded_recall_context"
  const EPISODE_KIND_AGENT := "agent"

  datatype ObservationRef = ObservationRef(role: string, nodeId: string, edgeId: string, conceptId: string, weight: int)

  datatype ObserveRequest = ObserveRequest(
    repoId: string,
    sessionId: string,
    traceId: string,
    actionJson: string,
    outcome: string,
    signalJson: string,
    contextId: string,
    observationRefs: seq<ObservationRef>,
    episodeGroupId: string)

  datatype ObserveResponse = ObserveResponse(
    episodeId: string,
    episodeGroupId: string,
    degraded: bool,
    degradedReason: string)

  datatype ObserveError =
    | HumanCorrectedNotAllowed
    | InvalidOutcome
    | MissingRepoId
    | MissingSessionId
    | MissingTraceId
    | MissingAction
    | InvalidActionJson
    | InvalidSignalJson
    | MissingContextId
    | DegradedRoleForbidden(index: nat)
    | InvalidRole(index: nat)
    | InvalidTarget(index: nat)
    | ContextNotResolved
    | MintFailed
    | AppendFailed
    | LogUnavailable
    | EnqueueFailed
    | ClosedSetViolation

  datatype Result = Ok(response: ObserveResponse) | Err(error: ObserveError)

  /** The Consolidator's backpressure source. */
  datatype Probe = NotWired | ProbeFailed | Reported(backpressured: bool)

  /* ---- Validation ---- */

  /** unicode.IsSpace. */
  predicate IsSpace(ch: char) {
    var n := ch as int;
    || 0x9 <= n <= 0xd || n == 0x20 || n == 0x85 || n == 0xa0 || n == 0x1680
    || 0x2000 <= n <= 0x200a || n == 0x2028 || n == 0x2029 || n == 0x202f || n == 0x205f || n == 0x3000
  }

  /** strings.TrimSpace: white space goes, first at the front, then at the end. */
  function TrimSpace(s: string): string {
    if s == "" then ""
    else if IsSpace(s[0]) then TrimSpace(s[1..])
    else if IsSpace(s[|s| - 1]) then TrimSpace(s[..|s| - 1])
    else s
  }

  /** A string is blank exactly when TrimSpace leaves nothing of it. */
  lemma {:induction false} BlankIsTrimmedAway(s: string)
    ensures Blank(s) <==> TrimSpace(s) == ""
    decreases |s|
  {
    hide IsSpace;
    if s != "" {
      if IsSpace(s[0]) {
        BlankIsTrimmedAway(s[1..]);
        assert s == [s[0]] + s[1..];
      } else {
        assert s[0] in s;
        if IsSpace(s[|s| - 1]) {
          BlankIsTrimmedAway(s[..|s| - 1]);
          assert |s| > 1 ==> s[..|s| - 1][0] == s[0];
          assert s == s[..|s| - 1] + [s[|s| - 1]];
        }
      }
    }
  }

  predicate Blank(s: string) {
    forall ch :: ch in s ==> IsSpace(ch)
  }

  predicate SentByCallers(role: string) {
    role == NODE_HIT || role == EDGE_HIT || role == CALL_EDGE_HIT || role == CONCEPT_HIT
  }

  /** What a caller may say about one hit: a role of the closed set, and the one target that role speaks of. */
  predicate WellTargeted(ref: ObservationRef) {
    var node, edge, concept := !Blank(ref.nodeId), !Blank(ref.edgeId), !Blank(ref.conceptId);
    || (ref.role == NODE_HIT && node && !edge && !concept)
    || (ref.role in [EDGE_HIT, CALL_EDGE_HIT] && edge && !node && !concept)
    || (ref.role == CONCEPT_HIT && concept && !node && !edge)
  }

  predicate Admissible(req: ObserveRequest, validJson: string -> bool) {
    && req.outcome in ["success", "failure", "refused", "degraded"]
    && !Blank(req.repoId) && !Blank(req.sessionId) && !Blank(req.traceId) && !Blank(req.contextId)
    && req.actionJson != "" && validJson(req.actionJson)
    && (req.signalJson != "" ==> validJson(req.signalJson))
    && forall ref :: ref in req.observationRefs ==> WellTargeted(ref)
  }

  /** What an error says about its request. */
  predicate Explains(err: ObserveError, req: ObserveRequest, validJson: string -> bool) {
    match err
    case HumanCorrectedNotAllowed => req.outcome == "human_corrected"
    case InvalidOutcome => req.outcome !in ["success", "failure", "refused", "degraded", "human_corrected"]
    case MissingRepoId => Blank(req.repoId)
    case MissingSessionId => Blank(req.sessionId)
    case MissingTraceId => Blank(req.traceId)
    case MissingContextId => Blank(req.contextId)
    case MissingAction => req.actionJson == ""
    case InvalidActionJson => req.actionJson != "" && !validJson(req.actionJson)
    case InvalidSignalJson => req.signalJson != "" && !validJson(req.signalJson)
    case DegradedRoleForbidden(i) =>
      i < |req.observationRefs| && req.observationRefs[i].role == DEGRADED_RECALL_CONTEXT
    case InvalidRole(i) =>
      && i < |req.observationRefs| && !SentByCallers(req.observationRefs[i].role)
      && req.observationRefs[i].role != DEGRADED_RECALL_CONTEXT
    case InvalidTarget(i) =>
      i < |req.observationRefs| && SentByCallers(req.observationRefs[i].role) && !WellTargeted(req.observationRefs[i])
    case _ => false
  }

  method ValidateObservationRef(index: nat, ref: ObservationRef) returns (err: Option<ObserveError>)
    ensures err.None? <==> WellTargeted(ref)
    ensures ref.role == DEGRADED_RECALL_CONTEXT <==> err == Some(DegradedRoleForbidden(index))
    ensures err == Some(InvalidRole(index)) <==> !SentByCallers(ref.role) && ref.role != DEGRADED_RECALL_CONTEXT
    ensures err == Some(InvalidTarget(index)) <==> SentByCallers(ref.role) && !WellTargeted(ref)
  {
    if ref.role == DEGRADED_RECALL_CONTEXT {
      return Some(DegradedRoleForbidden(index));
    }
    if ref.role !in [NODE_HIT, EDGE_HIT, CALL_EDGE_HIT, CONCEPT_HIT] {
      return Some(InvalidRole(index));
    }
    var hasNode, hasEdge, hasConcept := !Blank(ref.nodeId), !Blank(ref.edgeId), !Blank(ref.conceptId);
    var count := 0;
    if hasNode {
      count := count + 1;
    }
    if hasEdge {
      count := count + 1;
    }
    if hasConcept {
      count := count + 1;
    }
    if count != 1 {
      return Some(InvalidTarget(index));
    }
    var pairs :=
      if ref.role == NODE_HIT then hasNode
      else if ref.role in [EDGE_HIT, CALL_EDGE_HIT] then hasEdge
      else hasConcept;
    return if pairs then None else Some(InvalidTarget(index));
  }

  /** Accepts exactly the admissible requests; human_corrected is reported before anything else, and a bad
      ref only when everything before it is fine. */
  method ValidateObserveRequest(req: ObserveRequest, validJson: string -> bool) returns (err: Option<ObserveError>)
    ensures err.None? <==> Admissible(req, validJson)
    ensures req.outcome == "human_corrected" <==> err == Some(HumanCorrectedNotAllowed)
    ensures err.Some? ==> Explains(err.value, req, validJson)
    ensures err.Some? && (err.value.DegradedRoleForbidden? || err.value.InvalidRole? || err.value.InvalidTarget?) ==>
      var i := err.value.index;
      && i < |req.observationRefs| && !WellTargeted(req.observationRefs[i])
      && Admissible(req.(observationRefs := req.observationRefs[..i]), validJson)
  {
    if req.outcome == "human_corrected" {
      return Some(HumanCorrectedNotAllowed);
    }
    if req.outcome !in ["success", "failure", "refused", "degraded"] {
      return Some(InvalidOutcome);
    }
    if Blank(req.repoId) {
      return Some(MissingRepoId);
    }
    if Blank(req.sessionId) {
      return Some(MissingSessionId);
    }
    if Blank(req.traceId) {
      return Some(MissingTraceId);
    }
    if |req.actionJson| == 0 {
      return Some(MissingAction);
    }
    if !validJson(req.actionJson) {
      return Some(InvalidActionJson);
    }
    if |req.signalJson| > 0 && !validJson(req.signalJson) {
      return Some(InvalidSignalJson);
    }
    if Blank(req.contextId) {
      return Some(MissingContextId);
    }
    for i := 0 to |req.observationRefs|
      invariant forall ref :: ref in req.observationRefs[..i] ==> WellTargeted(ref)
    {
      err := ValidateObservationRef(i, req.observationRefs[i]);
      if err.Some? {
        return;
      }
      assert req.observationRefs[..i + 1] == req.observationRefs[..i] + [req.observationRefs[i]];
    }
    assert req.observationRefs[..|req.observationRefs|] == req.observationRefs;
    return None;
  }

  /* ---- Identifiers ---- */

  /** newUUIDv4: a fresh identifier, or an error from the random source. */
  class UuidSource {
    var issued: set<string>

    constructor ()
      ensures issued == {}
    {
      issued := {};
    }

    method Mint() returns (id: Option<string>)
      modifies this
      ensures id.None? ==> issued == old(issued)
      ensures id.Some? ==> id.value !in old(issued) && id.value != "" && issued == old(issued) + {id.value}
    {
      var candidate: string := *;
      if candidate == "" || candidate in issued {
        return None;
      }
      issued := issued + {candidate};
      return Some(candidate);
    }
  }

  /* ---- The Observation list ---- */

  /** o says what ref says. */
  predicate Records(o: Observation, ref: ObservationRef, now: int) {
    && o.role == ref.role && o.weight == ref.weight && o.createdAt == now
    && o.nodeId == ref.nodeId && o.edgeId == ref.edgeId && o.conceptId == ref.conceptId
    && o.degradedRecallContextId == ""
  }

  /** The server's own entry for a context that was served degraded. */
  predicate Marks(o: Observation, contextId: string, now: int) {
    && o.role == DEGRADED_RECALL_CONTEXT && o.weight == 0 && o.createdAt == now
    && o.nodeId == o.edgeId == o.conceptId == ""
    && o.degradedRecallContextId == contextId
  }

  /** The caller's refs in order, then one server stamp when the context was served degraded. */
  predicate Lists(obs: seq<Observation>, req: ObserveRequest, served: bool, now: int) {
    var n := |req.observationRefs|;
    && |obs| == (if served then n + 1 else n)
    && (forall i :: 0 <= i < n ==> Records(obs[i], req.observationRefs[i], now))
    && (served ==> Marks(obs[n], req.contextId, now))
  }

  ghost predicate FreshObservations(obs: seq<Observation>, before: set<string>, after: set<string>) {
    && (forall i :: 0 <= i < |obs| ==> obs[i].observationId !in before && obs[i].observationId in after)
    && (forall i, j :: 0 <= i < j < |obs| ==> obs[i].observationId != obs[j].observationId)
  }

  lemma FreshForFewer(obs: seq<Observation>, fewer: set<string>, before: set<string>, after: set<string>)
    requires FreshObservations(obs, before, after) && fewer <= before
    ensures FreshObservations(obs, fewer, after)
  {
  }

  method BuildObservations(req: ObserveRequest, served: bool, now: int, uuids: UuidSource)
    returns (obs: Option<seq<Observation>>)
    modifies uuids
    ensures old(uuids.issued) <= uuids.issued
    ensures obs.Some? ==>
      Lists(obs.value, req, served, now) && FreshObservations(obs.value, old(uuids.issued), uuids.issued)
  {
    var observations: seq<Observation> := [];
    for i := 0 to |req.observationRefs|
      invariant |observations| == i && old(uuids.issued) <= uuids.issued
      invariant forall k :: 0 <= k < i ==> Records(observations[k], req.observationRefs[k], now)
      invariant FreshObservations(observations, old(uuids.issued), uuids.issued)
    {
      var id := uuids.Mint();
      if id.None? {
        return None;
      }
      var ref := req.observationRefs[i];
      observations := observations
        + [Observation(id.value, ref.role, ref.nodeId, ref.edgeId, ref.conceptId, "", ref.weight, now)];
    }
    if served {
      var id := uuids.Mint();
      if id.None? {
        return None;
      }
      observations := observations
        + [Observation(id.value, DEGRADED_RECALL_CONTEXT, "", "", "", req.contextId, 0, now)];
    }
    return Some(observations);
  }

  function Targets(o: Observation): nat {
    (if Blank(o.nodeId) then 0 else 1) + (if Blank(o.edgeId) then 0 else 1)
    + (if Blank(o.conceptId) then 0 else 1) + (if Blank(o.degradedRecallContextId) then 0 else 1)
  }

  /** Only the server writes degraded_recall_context: exactly when the context was served degraded, once, last;
      and every entry has exactly one non-blank target. */
  lemma ObservationListMeans(obs: seq<Observation>, req: ObserveRequest, validJson: string -> bool, served: bool,
                             now: int)
    requires Admissible(req, validJson) && Lists(obs, req, served, now)
    ensures forall i :: 0 <= i < |obs| ==> Targets(obs[i]) == 1
    ensures forall i :: 0 <= i < |obs| ==>
      (obs[i].role == DEGRADED_RECALL_CONTEXT <==> served && i == |obs| - 1)
    ensures served ==> obs != [] && obs[|obs| - 1].degradedRecallContextId == req.contextId
  {
    forall i | 0 <= i < |req.observationRefs|
      ensures Targets(obs[i]) == 1 && obs[i].role != DEGRADED_RECALL_CONTEXT
    {
      assert WellTargeted(req.observationRefs[i]);
    }
  }

  /* ---- The handler ---- */

  /** Where the row of one call ended up. */
  datatype Placement =
    | Nowhere
    | Stored(row: Episode)
    | Queued(row: Episode)
    | Attempted(row: Episode, landed: nat)  // Enqueue failed with this much of the record in the file

  /** The row that a response speaks about. */
  predicate RowSays(row: Episode, req: ObserveRequest, resp: ObserveResponse, now: int) {
    && row.episodeId == resp.episodeId && row.episodeGroupId == resp.episodeGroupId
    && row.degraded == resp.degraded && row.degradedReason == resp.degradedReason
    && row.repoId == req.repoId && row.sessionId == req.sessionId && row.traceId == req.traceId
    && row.contextId == req.contextId && row.actionJson == req.actionJson && row.signalJson == req.signalJson
    && row.outcome == req.outcome && row.kind == EPISODE_KIND_AGENT && row.createdAt == now
  }

  /** The reason that a response must carry. */
  function ReasonOf(placed: Placement, probe: Probe): string {
    if placed.Queued? then EPISODIC_LOG_UNAVAILABLE
    else if probe == Reported(true) then CONSOLIDATOR_BACKPRESSURE
    else ""
  }

  /** The identifiers used up by the time the observations get theirs. */
  function Taken(issued: set<string>, wanted: string, resp: ObserveResponse): set<string> {
    issued + {resp.episodeId} + if wanted == "" then {resp.episodeGroupId} else {}
  }

  class ObserveService {
    const writer: EpisodeAppender
    const wal: FileWAL?
    const uuids: UuidSource
    const validJson: string -> bool
    /** degraded.Enforce on a degraded response. */
    const closedReason: string -> bool

    constructor (writer: EpisodeAppender, wal: FileWAL?, uuids: UuidSource, validJson: string -> bool,
                 closedReason: string -> bool)
      requires wal != null ==> wal.Valid() && FreshIds(wal.trace) && WrittenIds(wal.trace) <= uuids.issued
      ensures Valid() && this.writer == writer && this.wal == wal && this.uuids == uuids
    {
      this.writer, this.wal, this.uuids := writer, wal, uuids;
      this.validJson, this.closedReason := validJson, closedReason;
    }

    ghost function Repr(): set<object> {
      {writer, uuids} + if wal == null then {} else {wal}
    }

    /** No episode id was ever written twice, and every one came from the source. */
    ghost predicate Valid()
      reads Repr()
    {
      wal != null ==> wal.Valid() && FreshIds(wal.trace) && WrittenIds(wal.trace) <= uuids.issued
    }

    /** What one call did to the writer and the log. */
    twostate predicate Placed(placed: Placement)
      reads Repr()
    {
      && writer.rows == (if placed.Stored? then old(writer.rows) + [placed.row] else old(writer.rows))
      && (placed.Queued? || placed.Attempted? ==> wal != null)
      && (wal != null ==>
            match placed
            case Queued(row) => wal.trace == old(wal.trace) + [Write(row, |Record(wal.codec, row)|)] + [Sync]
            case Attempted(row, landed) =>
              wal.trace == old(wal.trace)
              || (landed <= |Record(wal.codec, row)| && wal.trace == old(wal.trace) + [Write(row, landed)] + [Leave])
            case _ => wal.trace == old(wal.trace))
    }

    method ApplyDegradedContract(resp: ObserveResponse) returns (res: Result)
      ensures res.Err? <==> resp.degraded && !closedReason(resp.degradedReason)
      ensures res == Ok(resp) || res == Err(ClosedSetViolation)
    {
      if resp.degraded && !closedReason(resp.degradedReason) {
        return Err(ClosedSetViolation);
      }
      return Ok(resp);
    }

    /** The writer was not asked. */
    twostate predicate Unasked()
      reads Repr()
    {
      writer.answers == old(writer.answers) && writer.rows == old(writer.rows)
    }

    /** Which of the writer's answers leads where. quiet: no system call failed meanwhile. */
    twostate predicate Follows(quiet: bool, res: Result, placed: Placement)
      reads Repr()
    {
      var n := |old(writer.answers)|;
      && |writer.answers| == n + 1 && old(writer.answers) <= writer.answers
      && match writer.answers[n]
         case NoError => placed.Stored?
         case OtherError => placed.Nowhere? && res == Err(AppendFailed)
         case EpisodicLogUnavailable =>
           if wal == null then placed.Nowhere? && res == Err(LogUnavailable)
           else if quiet then placed.Queued?
           else placed.Attempted? && res == Err(EnqueueFailed)
    }

    /** What the caller learns of a row that was stored or queued. */
    predicate Answers(resp: ObserveResponse, reason: string, res: Result) {
      if reason != "" && !closedReason(reason) then res == Err(ClosedSetViolation)
      else res == Ok(resp.(degraded := reason != "", degradedReason := reason))
    }

    /** An inadmissible request reaches nobody. The writer decides where the row of any other goes: its own table,
        the log when it reports an unavailable episodic log and a log is wired, or nowhere. */
    method Observe(req: ObserveRequest, served: Option<bool>, probe: Probe, now: int, env: Environment)
      returns (res: Result, ghost placed: Placement)
      requires Valid()
      modifies Repr(), env
      ensures Valid() && Placed(placed)
      ensures !Admissible(req, validJson) ==>
        && res.Err? && Explains(res.error, req, validJson) && placed.Nowhere?
        && Unasked() && uuids.issued == old(uuids.issued)
      ensures Admissible(req, validJson) && served.None? ==>
        res == Err(ContextNotResolved) && placed.Nowhere? && Unasked()
      ensures Admissible(req, validJson) && served.Some? ==>
        if res == Err(MintFailed) then placed.Nowhere? && Unasked()
        else Follows(env.failures == old(env.failures), res, placed)
      ensures placed.Stored? || placed.Queued? ==>
        if ReasonOf(placed, probe) == "" || closedReason(ReasonOf(placed, probe)) then res.Ok?
        else res == Err(ClosedSetViolation)
      ensures res.Ok? ==>
        && served.Some? && (placed.Stored? || placed.Queued?)
        && RowSays(placed.row, req, res.response, now)
        && Lists(placed.row.observations, req, served.value, now)
        && FreshObservations(placed.row.observations,
                             Taken(old(uuids.issued), req.episodeGroupId, res.response), uuids.issued)
        && res.response.degradedReason == ReasonOf(placed, probe)
        && res.response.degraded == (res.response.degradedReason != "")
        && res.response.episodeId !in old(uuids.issued)
        && (req.episodeGroupId != "" ==> res.response.episodeGroupId == req.episodeGroupId)
        && (req.episodeGroupId == "" ==>
              res.response.episodeGroupId !in old(uuids.issued) + {"", res.response.episodeId})
    {
      hide Lists, FreshObservations, Admissible, Explains, Exec, Legal, FreshIds, WrittenIds, Record;
      placed := Nowhere;
      var err := ValidateObserveRequest(req, validJson);
      if err.Some? {
        return Err(err.value), placed;
      }
      if served.None? {
        return Err(ContextNotResolved), placed;
      }
      var episodeId, group := MintIds(req.episodeGroupId);
      if group.None? {
        return Err(MintFailed), placed;
      }
      ghost var taken := uuids.issued;
      var observations := BuildObservations(req, served.value, now, uuids);
      if observations.None? {
        return Err(MintFailed), placed;
      }
      var pressed := probe.Reported? && probe.backpressured;
      var resp := ObserveResponse(episodeId, group.value, pressed,
                                  if pressed then CONSOLIDATOR_BACKPRESSURE else "");
      var row := Episode(resp.episodeId, resp.episodeGroupId, req.repoId, req.sessionId, req.traceId,
                         EPISODE_KIND_AGENT, req.contextId, req.actionJson, req.signalJson, req.outcome, now,
                         resp.degraded, resp.degradedReason, observations.value);
      FreshForFewer(row.observations, Taken(old(uuids.issued), req.episodeGroupId, resp), taken, uuids.issued);
      res, placed := Place(row, resp, env);
    }

    /** The episode's own id, and the caller's group or a new one; None when the source fails. */
    method MintIds(wanted: string) returns (episodeId: string, group: Option<string>)
      modifies uuids
      ensures old(uuids.issued) <= uuids.issued
      ensures group.Some? ==>
        && episodeId in uuids.issued && episodeId !in old(uuids.issued)
        && (wanted != "" ==> group.value == wanted)
        && (wanted == "" ==> group.value in uuids.issued && group.value !in old(uuids.issued) + {"", episodeId})
    {
      episodeId := "";
      var id := uuids.Mint();
      if id.None? {
        return "", None;
      }
      group := Some(wanted);
      if wanted == "" {
        group := uuids.Mint();
      }
      return id.value, group;
    }

    /** Steps 4 and 5: the writer, then the log. */
    method Place(row: Episode, resp: ObserveResponse, env: Environment) returns (res: Result, ghost placed: Placement)
      requires Valid() && row.episodeId in uuids.issued
      requires wal != null ==> row.episodeId !in WrittenIds(wal.trace)
      requires resp.degraded == (resp.degradedReason != "")
      modifies writer, wal, env
      ensures Valid() && Placed(placed) && Follows(env.failures == old(env.failures), res, placed)
      ensures placed.Stored? ==> placed.row == row && Answers(resp, resp.degradedReason, res)
      ensures placed.Queued? ==>
        && placed.row == row.(degraded := true, degradedReason := EPISODIC_LOG_UNAVAILABLE)
        && Answers(resp, EPISODIC_LOG_UNAVAILABLE, res)
    {
      hide Exec, Legal, FreshIds, WrittenIds, Record;
      var writeErr := writer.Append(row);
      if writeErr.NoError? {
        placed := Stored(row);
        res := ApplyDegradedContract(resp);
        return;
      }
      if !writeErr.EpisodicLogUnavailable? {
        return Err(AppendFailed), Nowhere;
      }
      if wal == null {
        return Err(LogUnavailable), Nowhere;
      }
      res, placed := Fallback(row, resp, env);
    }

    /** Step 5: the log instead of the writer. */
    method Fallback(row: Episode, resp: ObserveResponse, env: Environment)
      returns (res: Result, ghost placed: Placement)
      requires Valid() && wal != null
      requires row.episodeId !in WrittenIds(wal.trace) && row.episodeId in uuids.issued
      modifies wal, env
      ensures Valid() && Placed(placed)
      ensures placed.Queued? <==> env.failures == old(env.failures)
      ensures placed.Queued? || placed.Attempted?
      ensures placed.row == row.(degraded := true, degradedReason := EPISODIC_LOG_UNAVAILABLE)
      ensures placed.Attempted? ==> res == Err(EnqueueFailed)
      ensures placed.Queued? ==> Answers(resp, EPISODIC_LOG_UNAVAILABLE, res)
    {
      hide Exec, Legal, FreshIds, WrittenIds, Record, Next;
      var payload := row.(degraded := true, degradedReason := EPISODIC_LOG_UNAVAILABLE);
      ghost var es := wal.trace;
      var ok, landed := wal.Enqueue(env, payload);
      if ok {
        OneMoreEvent(es, Write(payload, landed));
        OneMoreEvent(es + [Write(payload, landed)], Sync);
        placed := Queued(payload);
        res := ApplyDegradedContract(resp.(degraded := true, degradedReason := EPISODIC_LOG_UNAVAILABLE));
      } else {
        OneMoreEvent(es, Write(payload, landed));
        OneMoreEvent(es + [Write(payload, landed)], Leave);
        placed := Attempted(payload, landed);
        res := Err(EnqueueFailed);
      }
    }
  }

  lemma OneMoreEvent(es: seq<Event>, e: Event)
    requires FreshIds(es) && (e.Write? ==> e.ep.episodeId !in WrittenIds(es))
    ensures FreshIds(es + [e])
    ensures WrittenIds(es + [e]) == WrittenIds(es) + if e.Write? then {e.ep.episodeId} else {}
  {
    assert Front(es + [e]) == es && Last(es + [e]) == e;
    assert forall x :: x in es + [e] <==> x in es || x == e;
  }

  /** Drains and flusher passes write no record, so the ids stay fresh through them as well. */
  lemma {:induction false} DrainsKeepIdsFresh(es: seq<Event>, longer: seq<Event>)
    requires FreshIds(es) && Reads(es, longer)
    ensures FreshIds(longer) && WrittenIds(longer) == WrittenIds(es)
    decreases |longer|
  {
    if |longer| > |es| {
      DrainsKeepIdsFresh(es, Front(longer));
      assert longer == Front(longer) + [Last(longer)];
      OneMoreEvent(Front(longer), Last(longer));
    } else {
      assert longer == es;
    }
  }

  /* ---- What becomes of a queued row ---- */

  /** A successful Enqueue adds its row to what a replay will read exactly when the log was clean: the offset
      within the file and at most white space of a torn record behind it. */
  lemma QueuedExactly(c: Codec, s: Log, row: Episode)
    requires RoundTrips(c) && RejectsFragments(c) && s.pc.Idle?
    ensures var s' := Next(c, Next(c, s, Write(row, |Record(c, row)|)), Sync);
      Rows(c, Pending(s')) == Rows(c, Pending(s)) + [Wire(row)] <==> s.offset <= |s.data| && White(Tail(Unread(s)))
  {
    var w := Next(c, s, Write(row, |Record(c, row)|));
    var s' := Next(c, w, Sync);
    assert Unread(s') == Unread(w);
    hide Lines, Tail, White;
    if s.offset <= |s.data| {
      AppendChunk(c, s, row, |Record(c, row)|);
      GluedLine(c, s, row);
      var line := Tail(Unread(s)) + c.enc(row);
      RowsOfConcat(c, Pending(s), [line]);
      assert Rows(c, [line]) == if White(Tail(Unread(s))) then [Wire(row)] else [];
    } else {
      AppendBeyond(c, s, row);
      assert Rows(c, Pending(s')) == [];
    }
  }

  /** A row that Observe queued, over every later mix of Observe calls, drains, failures and deaths: it is still
      to be read or the writer has it, if and only if the log was clean when it was queued; and what is read
      or stored is the row of the response exactly when the caller sent a signal. */
  lemma QueuedRowSurvives(c: Codec, es: seq<Event>, row: Episode, longer: seq<Event>)
    requires RoundTrips(c) && RejectsFragments(c) && Legal(c, longer) && FreshIds(longer) && row.degraded
    requires es + [Write(row, |Record(c, row)|)] + [Sync] <= longer
    ensures Legal(c, es)
    ensures var s := Exec(c, longer);
      && (Wire(row) in Rows(c, Pending(s)) || Wire(row) in s.delivered
          <==> CleanStep(c)(Exec(c, es), Write(row, |Record(c, row)|)))
      && (Wire(row) == row <==> row.signalJson != "")
  {
    assert es + [Write(row, |Record(c, row)|)] <= longer;
    FateOfRecord(c, es, row, longer);
    assert Stamp(Wire(row)) == Wire(row);
  }

  /** A replay that gets past a queued row stores it in its place. It is that very row exactly when the caller sent
      a signal and the row had its stamps; an omitted signal is stored as JSON null, and a row that was queued
      without the stamps gets them. */
  lemma ReplayStoresIt(c: Codec, was: Log, s: Log, m: nat, extra: seq<Episode>, k: nat, row: Episode)
    requires RoundTrips(c) && Consumed(c, was, s, m, extra)
    requires k < m && Pending(was)[k] == c.enc(row)
    ensures var at := |was.delivered| + |Rows(c, Pending(was)[..k])|;
      && at < |s.delivered| && StampedFrom(s.delivered[at], row.(signalJson := s.delivered[at].signalJson))
      && (s.delivered[at] == row <==> row.signalJson != "" && row.degraded)
  {
    hide Lines;
    var lines := Pending(was);
    RowsOfNext(c, lines, k);
    assert Rows(c, [lines[k]]) == [Wire(row)];
    assert lines[..m] == lines[..k + 1] + lines[k + 1..m];
    RowsOfConcat(c, lines[..k + 1], lines[k + 1..m]);
    var at := |Rows(c, lines[..k])|;
    assert Rows(c, lines[..m])[at] == Wire(row);
    assert StampAll(Rows(c, lines[..m]))[at] == Stamp(Wire(row));
  }
}
