/** The log in front of a writer that refuses a row it already holds, as the episode table's primary key does. */
module WalRefusal {
  import opened DrainSpec
  import opened Episodes
  import opened Framing
  import opened WalDurability
  import opened WalLoss
  import opened WalMachine
  import opened WalSafety
  import opened Wrappers

  /** The writer takes no row whose id it was handed before. */
  ghost predicate Refused(c: Codec, s: Log, e: Event)
    requires Enabled(c, s, e)
  {
    e.Hand? ==> c.dec(Pending(s)[0]).value.episodeId !in EpisodeIds(s.delivered)
  }

  ghost predicate RefusesRepeats(c: Codec, es: seq<Event>)
    requires Legal(c, es)
  {
    es == [] || (RefusesRepeats(c, Front(es)) && Refused(c, Exec(c, Front(es)), Last(es)))
  }

  /** The head row is stored and the offset still points at it. */
  ghost predicate Stuck(c: Codec, s: Log) {
    && !s.pc.Handed? && !s.pc.Cut?
    && Pending(s) != [] && c.dec(Pending(s)[0]).Some?
    && c.dec(Pending(s)[0]).value.episodeId in EpisodeIds(s.delivered)
  }

  /* ---- Once stuck, stuck for good ---- */

  lemma StuckStep(c: Codec, s: Log, e: Event)
    requires RoundTrips(c) && Stuck(c, s) && Enabled(c, s, e) && Refused(c, s, e)
    ensures var s' := Next(c, s, e);
      && Stuck(c, s') && s'.offset == s.offset && s'.delivered == s.delivered
      && Pending(s) <= Pending(s') && (!e.Write? ==> Pending(s') == Pending(s))
  {
    hide Lines, Tail;
    if s.offset >= |s.data| {
      NothingPastTheEnd(s);
      assert false;
    } else {
      match e
      case Write(ep, landed) =>
        AppendChunk(c, s, ep, landed);
      case Sync | StartDrain | Count | Leave | Die =>
        assert Unread(Next(c, s, e)) == Unread(s);
      case _ =>
    }
  }

  /** Whatever is enqueued, drained, fails or dies later: the offset never gets past the stored head row, and nothing
      more is delivered. */
  lemma {:induction false} StuckForever(c: Codec, es: seq<Event>, longer: seq<Event>)
    requires RoundTrips(c) && Legal(c, longer) && es <= longer && RefusesRepeats(c, longer)
    ensures Legal(c, es)
    ensures var s, s' := Exec(c, es), Exec(c, longer);
      Stuck(c, s) ==>
        && Stuck(c, s') && s'.offset == s.offset && s'.delivered == s.delivered
        && Pending(s) <= Pending(s') && (Reads(es, longer) ==> Pending(s') == Pending(s))
    decreases |longer|
  {
    hide Stuck, Next, Enabled, Refused, Pending;
    if longer != es {
      assert es <= Front(longer);
      StuckForever(c, es, Front(longer));
      if Stuck(c, Exec(c, es)) {
        StuckStep(c, Exec(c, Front(longer)), Last(longer));
      }
    }
  }

  /** A Drain of a stuck log stores nothing and moves nothing, and so does every flusher pass. */
  lemma StuckDrain(c: Codec, es: seq<Event>, longer: seq<Event>, m: nat, extra: seq<Episode>)
    requires RoundTrips(c) && Legal(c, longer) && Reads(es, longer) && RefusesRepeats(c, longer) && Legal(c, es)
    requires Stuck(c, Exec(c, es)) && Consumed(c, Exec(c, es), Exec(c, longer), m, extra)
    ensures m == 0 && extra == []
  {
    hide Stuck, Pending, StampAll, Rows, Exec, Legal;
    StuckForever(c, es, longer);
    var was := Exec(c, es);
    assert |Pending(was)[m..]| == |Pending(was)| - m;
    assert |was.delivered + StampAll(Rows(c, Pending(was)[..m])) + extra| >= |was.delivered| + |extra|;
  }

  /* ---- How it gets there ---- */

  /** Every row that the writer took was followed by its offset move. */
  ghost predicate CommitsAfterHand(c: Codec, es: seq<Event>)
    requires Legal(c, es)
  {
    es == [] || (CommitsAfterHand(c, Front(es)) && !StopsHanded(Exec(c, Front(es)), Last(es)))
  }

  predicate StopsHanded(s: Log, e: Event) { s.pc.Handed? && (e.Leave? || e.Die?) }

  lemma StopSticks(c: Codec, s: Log, e: Event)
    requires InCall(c, s) && Enabled(c, s, e) && StopsHanded(s, e)
    ensures Stuck(c, Next(c, s, e))
  {
    hide Lines, Tail;
    var head := c.dec(Pending(s)[0]).value;
    assert Unread(Next(c, s, e)) == Unread(s);
    assert Stamp(head).episodeId == head.episodeId;
  }

  /** The rows that the writer has not taken: all pending ones, but for the one being handed over. */
  ghost function Untaken(c: Codec, s: Log): seq<Episode> {
    var rows := Rows(c, Pending(s));
    if s.pc.Handed? && rows != [] then rows[1..] else rows
  }

  /** No row is pending twice and none that is still to be taken was taken before. */
  ghost predicate TakenOnce(c: Codec, s: Log) {
    && DistinctIds(Rows(c, Pending(s)))
    && (forall ep :: ep in Untaken(c, s) ==> ep.episodeId !in EpisodeIds(s.delivered))
    && (s.pc.Cut? ==> s.data == [])
    && (s.pc.Handed? ==> Pending(s) != [] && c.dec(Pending(s)[0]).Some?)
  }

  lemma RowsKnown(c: Codec, s: Log)
    requires Readable(c, s)
    ensures forall ep :: ep in Rows(c, Pending(s)) ==> ep.episodeId in EpisodeIds(s.written)
  {
    forall ep | ep in Rows(c, Pending(s))
      ensures ep.episodeId in EpisodeIds(s.written)
    {
      var line := RowIsALine(c, Pending(s), ep);
    }
  }

  lemma RowsOfHead(c: Codec, lines: seq<seq<byte>>)
    requires lines != []
    ensures Rows(c, lines) == (if c.dec(lines[0]).Some? then [c.dec(lines[0]).value] else []) + Rows(c, lines[1..])
  {
  }

  lemma DistinctSnoc(eps: seq<Episode>, ep: Episode)
    requires DistinctIds(eps) && forall x :: x in eps ==> x.episodeId != ep.episodeId
    ensures DistinctIds(eps + [ep])
  {
  }

  lemma DistinctTail(ep: Episode, eps: seq<Episode>)
    requires DistinctIds([ep] + eps)
    ensures DistinctIds(eps) && forall x :: x in eps ==> x.episodeId != ep.episodeId
  {
    var all := [ep] + eps;
    assert forall i :: 0 <= i < |eps| ==> eps[i] == all[i + 1];
    assert all[0] == ep;
  }

  lemma TakenWrite(c: Codec, s: Log, ep: Episode, landed: nat)
    requires RoundTrips(c) && RejectsFragments(c) && TakenOnce(c, s) && Readable(c, s)
    requires Enabled(c, s, Write(ep, landed)) && ep.episodeId !in EpisodeIds(s.written)
    ensures TakenOnce(c, Next(c, s, Write(ep, landed)))
  {
    hide Lines, Tail, DistinctIds, Readable;
    RowsKnown(c, s);
    DeliveredKnown(c, s);
    AppendChunk(c, s, ep, landed);
    var s' := Next(c, s, Write(ep, landed));
    if landed == |Record(c, ep)| {
      if s.offset <= |s.data| {
        var line := Tail(Unread(s)) + c.enc(ep);
        GluedLine(c, s, ep);
        RowsOfConcat(c, Pending(s), [line]);
        RowsOfHead(c, [line]);
        assert [line][1..] == [];
        if c.dec(line).Some? {
          assert Rows(c, [line]) == [Wire(ep)];
          DistinctSnoc(Rows(c, Pending(s)), Wire(ep));
        } else {
          assert Rows(c, Pending(s)) + [] == Rows(c, Pending(s));
        }
      } else {
        AppendBeyond(c, s, ep);
        assert Rows(c, Pending(s')) == [];
        NoneTwice();
      }
    }
  }

  lemma NoneTwice()
    ensures DistinctIds([])
  {
  }

  lemma DeliveredKnown(c: Codec, s: Log)
    requires Readable(c, s)
    ensures EpisodeIds(s.delivered) <= EpisodeIds(s.written)
  {
  }

  lemma TakenMove(c: Codec, s: Log, e: Event)
    requires TakenOnce(c, s) && Enabled(c, s, e) && (e.Hand? || e.Commit? || e.Skip?)
    ensures TakenOnce(c, Next(c, s, e))
  {
    hide Lines, Tail, DistinctIds;
    var s' := Next(c, s, e);
    RowsOfHead(c, Pending(s));
    if e.Hand? {
      assert Unread(s') == Unread(s);
      var head := c.dec(Pending(s)[0]).value;
      var rest := Rows(c, Pending(s)[1..]);
      DistinctTail(head, rest);
      EpisodeIdsSnoc(s.delivered, Stamp(head));
      assert ([head] + rest)[1..] == rest;
    } else {
      AdvanceOffset(s, s');
      if e.Commit? {
        var head := c.dec(Pending(s)[0]).value;
        var rest := Rows(c, Pending(s)[1..]);
        DistinctTail(head, rest);
        assert ([head] + rest)[1..] == rest;
      } else {
        assert [] + Rows(c, Pending(s)[1..]) == Rows(c, Pending(s)[1..]);
      }
    }
  }

  lemma TakenStep(c: Codec, s: Log, e: Event)
    requires RoundTrips(c) && RejectsFragments(c) && TakenOnce(c, s) && Readable(c, s)
    requires Enabled(c, s, e) && !StopsHanded(s, e)
    requires e.Write? ==> e.ep.episodeId !in EpisodeIds(s.written)
    ensures TakenOnce(c, Next(c, s, e))
  {
    hide Lines, Tail, DistinctIds, Readable;
    var s' := Next(c, s, e);
    match e
    case Write(ep, landed) =>
      TakenWrite(c, s, ep, landed);
    case Hand | Commit | Skip =>
      TakenMove(c, s, e);
    case Truncate | Reset =>
      NothingPastTheEnd(s);
      NothingPastTheEnd(s');
      NoneTwice();
    case Sync | StartDrain | Count | Leave | Die =>
      assert Unread(s') == Unread(s);
  }

  lemma {:induction false} TakenAlways(c: Codec, es: seq<Event>)
    requires RoundTrips(c) && RejectsFragments(c) && Legal(c, es) && FreshIds(es) && CommitsAfterHand(c, es)
    ensures TakenOnce(c, Exec(c, es))
  {
    hide TakenOnce, Readable, Next, Enabled;
    if es == [] {
      EmptyTaken(c);
    } else {
      TakenAlways(c, Front(es));
      ReadableAlways(c, Front(es));
      TakenStep(c, Exec(c, Front(es)), Last(es));
    }
  }

  lemma EmptyTaken(c: Codec)
    ensures TakenOnce(c, EMPTY)
  {
    NothingPastTheEnd(EMPTY);
  }

  lemma TakenIsNotStuck(c: Codec, s: Log)
    requires TakenOnce(c, s)
    ensures !Stuck(c, s)
  {
    hide Lines, Tail, DistinctIds;
    if Pending(s) != [] && c.dec(Pending(s)[0]).Some? && !s.pc.Handed? {
      RowsOfHead(c, Pending(s));
      assert c.dec(Pending(s)[0]).value in Untaken(c, s);
    }
  }

  lemma {:induction false} StopIsStuck(c: Codec, es: seq<Event>)
    requires RoundTrips(c) && Legal(c, es) && RefusesRepeats(c, es) && !CommitsAfterHand(c, es)
    ensures Stuck(c, Exec(c, es))
  {
    hide Stuck, Next, Enabled, Refused, Pending;
    var front, e := Front(es), Last(es);
    if CommitsAfterHand(c, front) {
      InCallAlways(c, front);
      StopSticks(c, Exec(c, front), e);
    } else {
      StopIsStuck(c, front);
      StuckStep(c, Exec(c, front), e);
    }
  }

  /** Over every run with fresh ids and a writer that refuses repeats: the log is stuck if and only if some Drain
      stopped, by death or by a failing offset write, between the writer's commit and the offset move. */
  lemma StuckExactly(c: Codec, es: seq<Event>)
    requires RoundTrips(c) && RejectsFragments(c) && Legal(c, es) && FreshIds(es) && RefusesRepeats(c, es)
    ensures Stuck(c, Exec(c, es)) <==> !CommitsAfterHand(c, es)
  {
    if CommitsAfterHand(c, es) {
      TakenAlways(c, es);
      TakenIsNotStuck(c, Exec(c, es));
    } else {
      StopIsStuck(c, es);
    }
  }

  lemma RefusesSnoc(c: Codec, es: seq<Event>, e: Event, s: Log)
    requires Legal(c, es) && s == Exec(c, es) && Enabled(c, s, e) && RefusesRepeats(c, es) && Refused(c, s, e)
    ensures Legal(c, es + [e]) && Exec(c, es + [e]) == Next(c, s, e) && RefusesRepeats(c, es + [e])
  {
    LegalSnoc(c, es, e);
    assert Front(es + [e]) == es && Last(es + [e]) == e;
  }

  lemma AcceptedRefuses(c: Codec, p: Episode)
    requires RoundTrips(c)
    ensures var es := [] + [Write(p, |Record(c, p)|)] + [Sync]; Legal(c, es) && RefusesRepeats(c, es)
  {
    EmptyRun(c);
    assert RefusesRepeats(c, []);
    hide Exec, Legal, Pending, RefusesRepeats;
    var w := Write(p, |Record(c, p)|);
    RefusesSnoc(c, [], w, EMPTY);
    RefusesSnoc(c, [] + [w], Sync, Next(c, EMPTY, w));
  }

  /** The head row goes to the writer for the first time, and the process dies. */
  lemma HandedAndDied(c: Codec, es: seq<Event>, s: Log)
    requires Legal(c, es) && RefusesRepeats(c, es) && s == Exec(c, es) && s.pc.Idle?
    requires Pending(s) != [] && c.dec(Pending(s)[0]).Some? && s.delivered == []
    ensures var r := es + [StartDrain] + [Hand] + [Die];
      Legal(c, r) && RefusesRepeats(c, r) && Stuck(c, Exec(c, r))
  {
    hide Exec, Legal, Lines, RefusesRepeats;
    RefusesSnoc(c, es, StartDrain, s);
    var s1 := Next(c, s, StartDrain);
    assert Unread(s1) == Unread(s);
    RefusesSnoc(c, es + [StartDrain], Hand, s1);
    var s2 := Next(c, s1, Hand);
    assert Unread(s2) == Unread(s);
    RefusesSnoc(c, es + [StartDrain] + [Hand], Die, s2);
    StopSticks(c, s2, Die);
  }

  /** It happens: one row, handed over, and the process dies. */
  lemma StuckIsReachable(c: Codec, p: Episode)
    requires RoundTrips(c)
    ensures var es := [] + [Write(p, |Record(c, p)|)] + [Sync] + [StartDrain] + [Hand] + [Die];
      Legal(c, es) && RefusesRepeats(c, es) && Stuck(c, Exec(c, es))
  {
    hide Exec, Legal, Lines, RefusesRepeats, Stuck;
    AcceptedRefuses(c, p);
    AcceptedAlone(c, p);
    OneLine(c.enc(p));
    var accepted := [] + [Write(p, |Record(c, p)|)] + [Sync];
    assert Unread(Exec(c, accepted)) == Record(c, p);
    HandedAndDied(c, accepted, Exec(c, accepted));
  }
}
