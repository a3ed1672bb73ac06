/** The converse of the FIFO theorem: a record that does not land cleanly is lost for good. */
module WalLoss {
  import opened Episodes
  import opened Framing
  import opened WalMachine
  import opened WalSafety
  import opened Wrappers

  function EpisodeIds(eps: seq<Episode>): set<string> { set ep | ep in eps :: ep.episodeId }

  /** The ids of all rows ever written, whole or in part. */
  function WrittenIds(es: seq<Event>): set<string> { set e | e in es && e.Write? :: e.ep.episodeId }

  /** Every Enqueue brings a freshly minted episode id. */
  predicate FreshIds(es: seq<Event>) {
    es == [] || (FreshIds(Front(es)) && (Last(es).Write? ==> Last(es).ep.episodeId !in WrittenIds(Front(es))))
  }

  /** Whatever can still be read is a known row or does not decode. */
  ghost predicate Readable(c: Codec, s: Log) {
    && (s.pc.Cut? ==> s.data == [])
    && LinesKnown(c, Pending(s), EpisodeIds(s.written))
    && EpisodeIds(s.delivered) <= EpisodeIds(s.written)
  }

  ghost predicate LinesKnown(c: Codec, lines: seq<seq<byte>>, ids: set<string>) {
    forall line :: line in lines && c.dec(line).Some? ==> c.dec(line).value.episodeId in ids
  }

  /** The row with this id was written, will not be read again and never reached the writer. */
  ghost predicate Lost(c: Codec, s: Log, id: string) {
    && id in EpisodeIds(s.written)
    && (forall line :: line in Pending(s) && c.dec(line).Some? ==> c.dec(line).value.episodeId != id)
    && id !in EpisodeIds(s.delivered)
  }

  lemma EpisodeIdsSnoc(eps: seq<Episode>, ep: Episode)
    ensures EpisodeIds(eps + [ep]) == EpisodeIds(eps) + {ep.episodeId}
  {
    assert ep in eps + [ep];
    assert forall x :: x in eps + [ep] <==> x in eps || x == ep;
  }

  /** The line that a whole record completes. */
  lemma GluedLine(c: Codec, s: Log, ep: Episode)
    requires RoundTrips(c) && RejectsFragments(c)
    ensures c.dec(Tail(Unread(s)) + c.enc(ep)) == if White(Tail(Unread(s))) then Some(Wire(ep)) else None
  {
    TailHasNoLf(Unread(s));
  }

  lemma ReadableWrite(c: Codec, s: Log, ep: Episode, landed: nat)
    requires RoundTrips(c) && RejectsFragments(c) && Readable(c, s)
    requires Enabled(c, s, Write(ep, landed))
    ensures Readable(c, Next(c, s, Write(ep, landed)))
  {
    var s' := Next(c, s, Write(ep, landed));
    AppendChunk(c, s, ep, landed);
    EpisodeIdsSnoc(s.written, Wire(ep));
    if landed == |Record(c, ep)| {
      if s.offset <= |s.data| {
        GluedLine(c, s, ep);
      } else {
        AppendBeyond(c, s, ep);
      }
    }
  }

  lemma ReadableStep(c: Codec, s: Log, e: Event)
    requires RoundTrips(c) && RejectsFragments(c) && Readable(c, s)
    requires Enabled(c, s, e)
    ensures Readable(c, Next(c, s, e))
  {
    var s' := Next(c, s, e);
    match e
    case Write(ep, landed) =>
      ReadableWrite(c, s, ep, landed);
    case Hand =>
      EpisodeIdsSnoc(s.delivered, Stamp(c.dec(Pending(s)[0]).value));
      assert Pending(s)[0] in Pending(s);
      assert Unread(s') == Unread(s);
    case Commit | Skip =>
      AdvanceOffset(s, s');
    case Truncate =>
      NothingPastTheEnd(s);
      NothingPastTheEnd(s');
    case Reset =>
      NothingPastTheEnd(s);
      NothingPastTheEnd(s');
    case Sync | StartDrain | Count | Leave | Die =>
      assert Unread(s') == Unread(s);
  }

  lemma {:induction false} ReadableAlways(c: Codec, es: seq<Event>)
    requires RoundTrips(c) && RejectsFragments(c) && Legal(c, es)
    ensures Readable(c, Exec(c, es))
    ensures EpisodeIds(Exec(c, es).written) <= WrittenIds(es)
  {
    if es != [] {
      var front, e := Front(es), Last(es);
      var s := Exec(c, front);
      ReadableAlways(c, front);
      ReadableStep(c, s, e);
      assert es == front + [e];
      if e.Write? {
        assert e in es;
        EpisodeIdsSnoc(s.written, Wire(e.ep));
      }
    }
  }

  /* ---- What the writer is given ---- */

  /** ep is row with the degraded fields set, as they were if it had them. */
  predicate StampedFrom(ep: Episode, row: Episode) {
    && ep == row.(degraded := true, degradedReason := ep.degradedReason)
    && ep.degradedReason == if row.degraded then row.degradedReason else "episodic_log_unavailable"
  }

  ghost predicate GivenOk(c: Codec, s: Log) {
    && (s.pc.Cut? ==> s.data == [])
    && (forall line :: line in Pending(s) && c.dec(line).Some? ==> c.dec(line).value in s.written)
    && (forall ep :: ep in s.delivered ==> exists row :: row in s.written && StampedFrom(ep, row))
  }

  lemma GivenWrite(c: Codec, s: Log, ep: Episode, landed: nat)
    requires RoundTrips(c) && RejectsFragments(c) && GivenOk(c, s)
    requires Enabled(c, s, Write(ep, landed))
    ensures GivenOk(c, Next(c, s, Write(ep, landed)))
  {
    hide Lines, Tail, StampedFrom;
    AppendChunk(c, s, ep, landed);
    if landed == |Record(c, ep)| {
      if s.offset <= |s.data| {
        GluedLine(c, s, ep);
      } else {
        AppendBeyond(c, s, ep);
      }
    }
  }

  lemma GivenStep(c: Codec, s: Log, e: Event)
    requires RoundTrips(c) && RejectsFragments(c) && GivenOk(c, s)
    requires Enabled(c, s, e)
    ensures GivenOk(c, Next(c, s, e))
  {
    hide Lines, Tail;
    var s' := Next(c, s, e);
    match e
    case Write(ep, landed) =>
      GivenWrite(c, s, ep, landed);
    case Hand =>
      var row := c.dec(Pending(s)[0]).value;
      assert Pending(s)[0] in Pending(s) && StampedFrom(Stamp(row), row);
      assert Unread(s') == Unread(s);
    case Commit | Skip =>
      AdvanceOffset(s, s');
    case Truncate | Reset =>
      NothingPastTheEnd(s);
      NothingPastTheEnd(s');
    case Sync | StartDrain | Count | Leave | Die =>
      assert Unread(s') == Unread(s);
  }

  /** Over every run, whatever is torn, glued, swallowed or handed over again: the writer is given written rows only,
      all of them marked degraded, and nothing else about them changed. */
  lemma {:induction false} DeliveredAreStamped(c: Codec, es: seq<Event>, ep: Episode) returns (row: Episode)
    requires RoundTrips(c) && RejectsFragments(c) && Legal(c, es) && ep in Exec(c, es).delivered
    ensures row in Exec(c, es).written && StampedFrom(ep, row)
  {
    GivenAlways(c, es);
    row :| row in Exec(c, es).written && StampedFrom(ep, row);
  }

  lemma {:induction false} GivenAlways(c: Codec, es: seq<Event>)
    requires RoundTrips(c) && RejectsFragments(c) && Legal(c, es)
    ensures GivenOk(c, Exec(c, es))
  {
    if es == [] {
      NothingPastTheEnd(EMPTY);
    } else {
      hide GivenOk, Next, Enabled;
      GivenAlways(c, Front(es));
      GivenStep(c, Exec(c, Front(es)), Last(es));
    }
  }

  /* ---- What is lost ---- */

  lemma UncleanLoses(c: Codec, s: Log, e: Event)
    requires RoundTrips(c) && RejectsFragments(c) && Readable(c, s)
    requires Enabled(c, s, e) && !CleanStep(c)(s, e)
    requires e.ep.episodeId !in EpisodeIds(s.written)
    ensures Lost(c, Next(c, s, e), e.ep.episodeId)
  {
    EpisodeIdsSnoc(s.written, Wire(e.ep));
    if s.offset <= |s.data| {
      AppendChunk(c, s, e.ep, e.landed);
      GluedLine(c, s, e.ep);
    } else {
      AppendBeyond(c, s, e.ep);
    }
  }

  lemma LostStays(c: Codec, s: Log, e: Event, id: string)
    requires RoundTrips(c) && RejectsFragments(c) && Readable(c, s) && Lost(c, s, id)
    requires Enabled(c, s, e) && (e.Write? ==> e.ep.episodeId != id)
    ensures Lost(c, Next(c, s, e), id)
  {
    var s' := Next(c, s, e);
    match e
    case Write(ep, landed) =>
      EpisodeIdsSnoc(s.written, Wire(ep));
      AppendChunk(c, s, ep, landed);
      if landed == |Record(c, ep)| {
        if s.offset <= |s.data| {
          GluedLine(c, s, ep);
        } else {
          AppendBeyond(c, s, ep);
        }
      }
    case Hand =>
      EpisodeIdsSnoc(s.delivered, Stamp(c.dec(Pending(s)[0]).value));
      assert Pending(s)[0] in Pending(s);
      assert Unread(s') == Unread(s);
    case Commit | Skip =>
      AdvanceOffset(s, s');
    case Truncate =>
      NothingPastTheEnd(s');
    case Reset =>
      NothingPastTheEnd(s');
    case Sync | StartDrain | Count | Leave | Die =>
      assert Unread(s') == Unread(s);
  }

  /** A run with a write that was not clean has lost a row. */
  lemma {:induction false} UncleanRunLoses(c: Codec, es: seq<Event>) returns (id: string)
    requires RoundTrips(c) && RejectsFragments(c) && Legal(c, es)
    requires FreshIds(es) && !Always(c, es, CleanStep(c))
    ensures id in WrittenIds(es) && Lost(c, Exec(c, es), id)
  {
    var front, e := Front(es), Last(es);
    assert es == front + [e] && e in es;
    ReadableAlways(c, front);
    if Always(c, front, CleanStep(c)) {
      id := e.ep.episodeId;
      UncleanLoses(c, Exec(c, front), e);
    } else {
      id := UncleanRunLoses(c, front);
      LostStays(c, Exec(c, front), e, id);
    }
  }

  lemma {:induction false} ReplayedRow(delivered: seq<Episode>, written: seq<Episode>, n: nat, i: nat)
    requires Replays(delivered, written, n) && i < n
    ensures Stamp(written[i]) in delivered
    decreases |delivered|
  {
    var earlier := delivered[..|delivered| - 1];
    if i < n - 1 || Replays(earlier, written, n) {
      ReplayedRow(earlier, written, if Replays(earlier, written, n) then n else n - 1, i);
    }
  }

  lemma {:induction false} RowIsALine(c: Codec, lines: seq<seq<byte>>, ep: Episode) returns (line: seq<byte>)
    requires ep in Rows(c, lines)
    ensures line in lines && c.dec(line) == Some(ep)
  {
    if c.dec(lines[0]) == Some(ep) {
      line := lines[0];
    } else {
      line := RowIsALine(c, lines[1..], ep);
    }
  }

  lemma FifoCovers(delivered: seq<Episode>, written: seq<Episode>, rest: seq<Episode>, k: nat, ep: Episode)
    requires k <= |written| && written[k..] == rest
    requires Replays(delivered, written, k) || Replays(delivered, written, k + 1)
    requires ep in written
    ensures ep in rest || Stamp(ep) in delivered
  {
    var i :| 0 <= i < |written| && written[i] == ep;
    if i < k {
      ReplayedRow(delivered, written, if Replays(delivered, written, k) then k else k + 1, i);
    } else {
      assert written[k..][i - k] == ep;
    }
  }

  lemma LostIsNotFifo(c: Codec, s: Log, id: string)
    ensures Lost(c, s, id) ==> !Fifo(c, s)
  {
    hide Replays, Lines, Tail;
    if id in EpisodeIds(s.written) && Fifo(c, s) {
      var rest := Rows(c, Pending(s));
      var ep :| ep in s.written && ep.episodeId == id;
      FifoCovers(s.delivered, s.written, rest, |s.written| - |rest|, ep);
      if ep in rest {
        var line := RowIsALine(c, Pending(s), ep);
      } else {
        assert Stamp(ep).episodeId == id;
      }
    }
  }

  /** With fresh ids the log is a FIFO queue of the rows whose whole record reached the file, if and
      only if each of them landed on a line of its own with the offset in the file. */
  lemma FifoExactly(c: Codec, es: seq<Event>)
    requires RoundTrips(c) && RejectsFragments(c) && Legal(c, es)
    requires FreshIds(es)
    ensures Fifo(c, Exec(c, es)) <==> Always(c, es, CleanStep(c))
  {
    if Always(c, es, CleanStep(c)) {
      FifoHolds(c, es);
    } else {
      var id := UncleanRunLoses(c, es);
      LostIsNotFifo(c, Exec(c, es), id);
    }
  }

  /* ---- The two bad runs ---- */

  lemma TwoSteps(c: Codec, es: seq<Event>, e0: Event, e1: Event, s: Log)
    requires Legal(c, es) && s == Exec(c, es)
    requires Enabled(c, s, e0) && Enabled(c, Next(c, s, e0), e1)
    ensures Legal(c, es + [e0] + [e1])
    ensures Exec(c, es + [e0] + [e1]) == Next(c, Next(c, s, e0), e1)
  {
    LegalSnoc(c, es, e0);
    LegalSnoc(c, es + [e0], e1);
  }

  /** A process that dies half-way through a write leaves a tail behind which the next record is lost. */
  lemma TornWrite(c: Codec, p: Episode, n: nat)
    requires RoundTrips(c) && 0 < n < |Record(c, p)|
    ensures var es := [] + [Write(p, n)] + [Die];
      && Legal(c, es)
      && Exec(c, es) == EMPTY.(data := Record(c, p)[..n])
      && !White(Tail(Unread(Exec(c, es))))
  {
    EmptyRun(c);
    hide Exec, Legal, Lines, Tail;
    TwoSteps(c, [], Write(p, n), Die, EMPTY);
    var torn := Record(c, p)[..n];
    assert torn == c.enc(p)[..n] && [] + torn == torn;
    OpenBytes(torn);
    assert Unread(EMPTY.(data := torn)) == torn;
    assert Unread(Next(c, EMPTY, Write(p, n))) == torn;
    assert torn[0] == OPEN_BRACE && torn[0] in torn;
  }

  /** A torn tail: q is acknowledged behind it, and Drain will skip both as one corrupt line. */
  lemma TornTailLosesNext(c: Codec, es: seq<Event>, q: Episode, s: Log)
    requires RoundTrips(c) && RejectsFragments(c) && Legal(c, es) && s == Exec(c, es)
    requires s.pc.Idle? && s.offset <= |s.data| && !White(Tail(Unread(s)))
    requires FreshIds(es) && q.episodeId !in WrittenIds(es)
    ensures var r := es + [Write(q, |Record(c, q)|)] + [Sync];
      && Legal(c, r)
      && Pending(Exec(c, r)) == Pending(s) + [Tail(Unread(s)) + c.enc(q)]
      && c.dec(Tail(Unread(s)) + c.enc(q)) == None
      && Wire(q) in Exec(c, r).acknowledged
      && Lost(c, Exec(c, r), q.episodeId)
  {
    hide Exec, Legal;
    var w := Write(q, |Record(c, q)|);
    TwoSteps(c, es, w, Sync, s);
    AppendChunk(c, s, q, |Record(c, q)|);
    GluedLine(c, s, q);
    ReadableAlways(c, es);
    UncleanLoses(c, s, w);
    var s1 := Next(c, s, w);
    assert Unread(Next(c, s1, Sync)) == Unread(s1);
  }

  /** What Drain does with a record that was written across the end of the file's old offset: what sticks
      out behind the offset is a corrupt line, then the file is truncated. */
  function SkipOver(c: Codec, s: Log): seq<Event> {
    if Pending(s) == [] then [Truncate] + [Reset] else [Skip] + [Count] + [Truncate] + [Reset]
  }

  lemma StickingOut(c: Codec, q: Episode, s: Log)
    requires RoundTrips(c) && RejectsFragments(c) && s.data == Record(c, q) && 0 < s.offset
    ensures Pending(s) == [] ==> s.offset >= |s.data|
    ensures Pending(s) != [] ==>
      |Pending(s)| == 1 && c.dec(Pending(s)[0]).None? && s.offset + |Pending(s)[0]| + 1 == |s.data|
  {
    hide Lines, Tail;
    var beyond := EMPTY.(offset := s.offset);
    AppendBeyond(c, beyond, q);
    var w := Next(c, beyond, Write(q, |Record(c, q)|));
    assert w.data == s.data;
    assert Unread(w) == Unread(s);
  }

  lemma DrainedUnread(c: Codec, es: seq<Event>, q: Episode, s: Log)
    requires RoundTrips(c) && RejectsFragments(c) && Legal(c, es) && s == Exec(c, es) && s.pc.Scanning?
    requires s.data == Record(c, q) && 0 < s.offset
    ensures Legal(c, es + SkipOver(c, s))
    ensures Exec(c, es + SkipOver(c, s)).data == []
    ensures Exec(c, es + SkipOver(c, s)).delivered == s.delivered
  {
    hide Exec, Legal, Pending, Record;
    StickingOut(c, q, s);
    if Pending(s) == [] {
      assert es + SkipOver(c, s) == es + [Truncate] + [Reset];
      TwoSteps(c, es, Truncate, Reset, s);
    } else {
      TwoSteps(c, es, Skip, Count, s);
      var s' := Next(c, Next(c, s, Skip), Count);
      TwoSteps(c, es + [Skip] + [Count], Truncate, Reset, s');
      assert es + SkipOver(c, s) == es + [Skip] + [Count] + [Truncate] + [Reset];
    }
  }

  /** The compaction gap: the process stops after truncating what it delivered, q is acknowledged in
      front of the old offset or across it, and the next Drain truncates it without delivering it. */
  lemma CompactionGapLosesNext(c: Codec, es: seq<Event>, q: Episode, s: Log)
    requires RoundTrips(c) && RejectsFragments(c) && Legal(c, es) && s == Exec(c, es)
    requires s.pc.Cut? && s.data == [] && s.offset > 0
    requires FreshIds(es) && q.episodeId !in WrittenIds(es)
    ensures var r := es + [Die] + [Write(q, |Record(c, q)|)] + [Sync] + [StartDrain];
      && Legal(c, r)
      && Wire(q) in Exec(c, r).acknowledged
      && Lost(c, Exec(c, r), q.episodeId)
      && Legal(c, r + SkipOver(c, Exec(c, r)))
      && Exec(c, r + SkipOver(c, Exec(c, r))).data == []
      && Exec(c, r + SkipOver(c, Exec(c, r))).delivered == s.delivered
  {
    hide Exec, Legal;
    var w := Write(q, |Record(c, q)|);
    var s0 := Next(c, s, Die);
    TwoSteps(c, es, Die, w, s);
    ReadableAlways(c, es);
    assert Unread(s0) == Unread(s);
    UncleanLoses(c, s0, w);
    var s1 := Next(c, s0, w);
    assert s1.data == Record(c, q);
    TwoSteps(c, es + [Die] + [w], Sync, StartDrain, s1);
    var s2 := Next(c, Next(c, s1, Sync), StartDrain);
    assert Unread(s2) == Unread(s1);
    DrainedUnread(c, es + [Die] + [w] + [Sync] + [StartDrain], q, s2);
  }

  /** A record that is swallowed whole makes the gauge too high: it reads 1 and nothing is there to read. */
  lemma SwallowedOvercounts(c: Codec, es: seq<Event>, q: Episode, s: Log)
    requires RoundTrips(c) && Legal(c, es) && s == Exec(c, es)
    requires s.pc.Cut? && s.data == [] && s.offset >= |Record(c, q)|
    ensures var r := es + [Die] + [Write(q, |Record(c, q)|)] + [Sync];
      Legal(c, r) && Exec(c, r).depth == 1 && Pending(Exec(c, r)) == []
  {
    hide Exec, Legal, Lines, Tail;
    NothingPastTheEnd(s);
    var s0 := Next(c, s, Die);
    var w := Write(q, |Record(c, q)|);
    TwoSteps(c, es, Die, w, s);
    AppendBeyond(c, s0, q);
    var s1 := Next(c, s0, w);
    LegalSnoc(c, es + [Die] + [w], Sync);
    assert Unread(Next(c, s1, Sync)) == Unread(s1);
  }

  lemma EmptyRun(c: Codec)
    ensures Legal(c, []) && Exec(c, []) == EMPTY
  {
  }

  /** p written on the empty log. */
  lemma AcceptedAlone(c: Codec, p: Episode)
    requires RoundTrips(c)
    ensures var es := [] + [Write(p, |Record(c, p)|)] + [Sync];
      && Legal(c, es)
      && Exec(c, es) == Log(Record(c, p), 0, 1, Idle, true, [Wire(p)], [Wire(p)], [])
  {
    hide Exec, Legal;
    EmptyRun(c);
    assert [] + Record(c, p) == Record(c, p) && [] + [Wire(p)] == [Wire(p)];
    TwoSteps(c, [], Write(p, |Record(c, p)|), Sync, EMPTY);
  }

  /** p drained, up to the compaction. */
  lemma DrainedAlone(c: Codec, es: seq<Event>, p: Episode)
    requires RoundTrips(c) && Legal(c, es)
    requires Exec(c, es) == Log(Record(c, p), 0, 1, Idle, true, [Wire(p)], [Wire(p)], [])
    ensures var r := es + [StartDrain] + [Hand] + [Commit] + [Count];
      && Legal(c, r)
      && Exec(c, r) == Log(Record(c, p), |Record(c, p)|, 0, Scanning, true, [Wire(p)], [Wire(p)], [Stamp(Wire(p))])
  {
    hide Exec, Legal, Lines;
    var s0 := Exec(c, es);
    OneLine(c.enc(p));
    assert forall s: Log :: s.data == Record(c, p) && s.offset == 0 ==> Unread(s) == Record(c, p);
    TwoSteps(c, es, StartDrain, Hand, s0);
    var s2 := Next(c, s0.(pc := Scanning), Hand);
    assert [] + [Stamp(Wire(p))] == [Stamp(Wire(p))];
    TwoSteps(c, es + [StartDrain] + [Hand], Commit, Count, s2);
  }

  /** The gap is reachable: one row written, drained, and the file truncated. */
  lemma GapIsReachable(c: Codec, p: Episode)
    requires RoundTrips(c)
    ensures var written := [] + [Write(p, |Record(c, p)|)] + [Sync];
      var es := written + [StartDrain] + [Hand] + [Commit] + [Count] + [Truncate];
      && Legal(c, es)
      && Exec(c, es) == Log([], |Record(c, p)|, 0, Cut, true, [Wire(p)], [Wire(p)], [Stamp(Wire(p))])
  {
    hide Exec, Legal;
    var written := [] + [Write(p, |Record(c, p)|)] + [Sync];
    AcceptedAlone(c, p);
    DrainedAlone(c, written, p);
    LegalSnoc(c, written + [StartDrain] + [Hand] + [Commit] + [Count], Truncate);
  }
}
