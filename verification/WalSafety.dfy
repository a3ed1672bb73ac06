/** What every run of the log keeps, and exactly when it behaves as a FIFO queue. */
module WalSafety {
  import opened Episodes
  import opened Framing
  import opened WalMachine
  import opened Wrappers

  /** P held at every step of the run. */
  ghost predicate Always(c: Codec, es: seq<Event>, P: (Log, Event) -> bool)
    requires Legal(c, es)
  {
    es == [] || (Always(c, Front(es), P) && P(Exec(c, Front(es)), Last(es)))
  }

  /* ---- FIFO ---- */

  /** delivered is the stamped written[..n], in order, each row one or more times in a row. */
  ghost predicate Replays(delivered: seq<Episode>, written: seq<Episode>, n: nat)
    decreases |delivered|
  {
    && n <= |written|
    && if delivered == [] then n == 0
       else
         && n > 0
         && delivered[|delivered| - 1] == Stamp(written[n - 1])
         && (Replays(delivered[..|delivered| - 1], written, n) || Replays(delivered[..|delivered| - 1], written, n - 1))
  }

  /** The rows past the offset are the last rows written, and the deliveries are a replay of
      all the others; at most the head row has been handed over without its offset moving. */
  ghost predicate Fifo(c: Codec, s: Log) {
    var rest := Rows(c, Pending(s));
    var k := |s.written| - |rest|;
    && k >= 0
    && s.written[k..] == rest
    && (Replays(s.delivered, s.written, k) || Replays(s.delivered, s.written, k + 1))
  }

  /** A whole record lands on a line of its own, with the offset inside the file. */
  ghost function CleanStep(c: Codec): (Log, Event) -> bool {
    (s: Log, e: Event) =>
      e.Write? && e.landed == |Record(c, e.ep)| ==> s.offset <= |s.data| && White(Tail(Unread(s)))
  }

  /** lines decode to the last written rows. */
  ghost predicate HoldsLast(c: Codec, lines: seq<seq<byte>>, written: seq<Episode>) {
    && |lines| <= |written|
    && forall i :: 0 <= i < |lines| ==> c.dec(lines[i]) == Some(written[|written| - |lines| + i])
  }

  /** All but the last `left` rows are delivered, or one more that is still being handed over. */
  ghost predicate Delivered(s: Log, left: nat)
  {
    var k := |s.written| - left;
    && k >= 0
    && (Replays(s.delivered, s.written, k + 1) || (!s.pc.Handed? && Replays(s.delivered, s.written, k)))
  }

  ghost predicate Ordered(c: Codec, s: Log) {
    && (s.pc.Cut? ==> s.data == [])
    && HoldsLast(c, Pending(s), s.written)
    && Delivered(s, |Pending(s)|)
  }

  lemma {:induction false} ReplaysLonger(delivered: seq<Episode>, written: seq<Episode>, n: nat, more: seq<Episode>)
    requires Replays(delivered, written, n)
    ensures Replays(delivered, written + more, n)
    decreases |delivered|
  {
    if delivered != [] {
      var earlier := delivered[..|delivered| - 1];
      if Replays(earlier, written, n) {
        ReplaysLonger(earlier, written, n, more);
      } else {
        ReplaysLonger(earlier, written, n - 1, more);
      }
    }
  }

  lemma ReplaysNext(delivered: seq<Episode>, written: seq<Episode>, n: nat)
    requires n > 0 && (Replays(delivered, written, n) || (n <= |written| && Replays(delivered, written, n - 1)))
    ensures Replays(delivered + [Stamp(written[n - 1])], written, n)
  {
    assert (delivered + [Stamp(written[n - 1])])[..|delivered|] == delivered;
  }

  lemma HoldsOneMore(c: Codec, lines: seq<seq<byte>>, written: seq<Episode>, line: seq<byte>, ep: Episode)
    requires HoldsLast(c, lines, written) && c.dec(line) == Some(ep)
    ensures HoldsLast(c, lines + [line], written + [ep])
  {
  }

  lemma HoldsOneLess(c: Codec, lines: seq<seq<byte>>, written: seq<Episode>)
    requires HoldsLast(c, lines, written) && lines != []
    ensures HoldsLast(c, lines[1..], written)
  {
    assert forall i :: 0 <= i < |lines| - 1 ==> lines[1..][i] == lines[i + 1];
  }

  lemma HeadDecodes(c: Codec, lines: seq<seq<byte>>, written: seq<Episode>)
    requires HoldsLast(c, lines, written) && lines != []
    ensures c.dec(lines[0]) == Some(written[|written| - |lines|])
  {
    assert c.dec(lines[0]) == Some(written[|written| - |lines| + 0]);
  }

  lemma DeliveredWrite(c: Codec, s: Log, ep: Episode, landed: nat, left: nat)
    requires Enabled(c, s, Write(ep, landed)) && Delivered(s, left)
    ensures Delivered(Next(c, s, Write(ep, landed)), if landed == |Record(c, ep)| then left + 1 else left)
  {
    var k := |s.written| - left;
    if Replays(s.delivered, s.written, k) {
      ReplaysLonger(s.delivered, s.written, k, [Wire(ep)]);
    } else {
      ReplaysLonger(s.delivered, s.written, k + 1, [Wire(ep)]);
    }
  }

  lemma OrderedWrite(c: Codec, s: Log, ep: Episode, landed: nat)
    requires RoundTrips(c) && Ordered(c, s)
    requires Enabled(c, s, Write(ep, landed)) && CleanStep(c)(s, Write(ep, landed))
    ensures Ordered(c, Next(c, s, Write(ep, landed)))
  {
    var s' := Next(c, s, Write(ep, landed));
    AppendChunk(c, s, ep, landed);
    DeliveredWrite(c, s, ep, landed, |Pending(s)|);
    if landed == |Record(c, ep)| {
      HoldsOneMore(c, Pending(s), s.written, Tail(Unread(s)) + c.enc(ep), Wire(ep));
    }
  }

  lemma OrderedHand(c: Codec, s: Log)
    requires Ordered(c, s) && Enabled(c, s, Hand)
    ensures Ordered(c, Next(c, s, Hand))
  {
    var k := |s.written| - |Pending(s)|;
    HeadDecodes(c, Pending(s), s.written);
    ReplaysNext(s.delivered, s.written, k + 1);
    assert Unread(Next(c, s, Hand)) == Unread(s);
  }

  lemma OrderedCommit(c: Codec, s: Log)
    requires Ordered(c, s) && Enabled(c, s, Commit)
    ensures Ordered(c, Next(c, s, Commit))
  {
    var s' := Next(c, s, Commit);
    AdvanceOffset(s, s');
    HoldsOneLess(c, Pending(s), s.written);
  }

  lemma OrderedStep(c: Codec, s: Log, e: Event)
    requires RoundTrips(c) && Ordered(c, s) && Enabled(c, s, e) && CleanStep(c)(s, e)
    ensures Ordered(c, Next(c, s, e))
  {
    hide Lines, Tail, HoldsLast, Replays;
    var s' := Next(c, s, e);
    match e
    case Write(ep, landed) =>
      OrderedWrite(c, s, ep, landed);
    case Hand =>
      OrderedHand(c, s);
    case Skip =>
      HeadDecodes(c, Pending(s), s.written);
    case Commit =>
      OrderedCommit(c, s);
    case Truncate =>
      NothingPastTheEnd(s);
      NothingPastTheEnd(s');
    case Reset =>
      NothingPastTheEnd(s);
      NothingPastTheEnd(s');
    case Sync | StartDrain | Count | Leave | Die =>
      assert Unread(s') == Unread(s);
  }

  lemma {:induction false} OrderedAlways(c: Codec, es: seq<Event>)
    requires RoundTrips(c) && Legal(c, es) && Always(c, es, CleanStep(c))
    ensures Ordered(c, Exec(c, es))
  {
    if es != [] {
      OrderedAlways(c, Front(es));
      OrderedStep(c, Exec(c, Front(es)), Last(es));
    }
  }

  lemma {:induction false} RowsOfLast(c: Codec, lines: seq<seq<byte>>, written: seq<Episode>)
    requires HoldsLast(c, lines, written)
    ensures Rows(c, lines) == written[|written| - |lines|..]
  {
    if lines != [] {
      HeadDecodes(c, lines, written);
      HoldsOneLess(c, lines, written);
      RowsOfLast(c, lines[1..], written);
    }
  }

  lemma FifoOfOrdered(c: Codec, s: Log)
    requires Ordered(c, s)
    ensures Fifo(c, s)
  {
    RowsOfLast(c, Pending(s), s.written);
  }

  /** Over every run, with process death, torn writes and writer or disk failures anywhere,
      the log is a FIFO queue as long as every whole record lands cleanly. */
  lemma FifoHolds(c: Codec, es: seq<Event>)
    requires RoundTrips(c) && Legal(c, es) && Always(c, es, CleanStep(c))
    ensures Fifo(c, Exec(c, es))
  {
    OrderedAlways(c, es);
    FifoOfOrdered(c, Exec(c, es));
  }

  lemma {:induction false} AlwaysPrefix(c: Codec, es: seq<Event>, k: nat, P: (Log, Event) -> bool)
    requires k <= |es| && Legal(c, es)
    ensures Legal(c, es[..k])
    ensures Always(c, es, P) ==> Always(c, es[..k], P)
  {
    if k == |es| {
      assert es[..k] == es;
    } else {
      AlwaysPrefix(c, Front(es), k, P);
      assert Front(es)[..k] == es[..k];
    }
  }

  lemma DeathKeepsFifo(c: Codec, s: Log)
    requires Fifo(c, s)
    ensures Fifo(c, Next(c, s, Die))
  {
    assert Unread(Next(c, s, Die)) == Unread(s);
  }

  /** A process killed after any number of the effects of a clean run leaves a FIFO queue. */
  lemma FifoAfterDeath(c: Codec, es: seq<Event>, k: nat)
    requires RoundTrips(c) && Legal(c, es) && Always(c, es, CleanStep(c)) && k <= |es|
    ensures Legal(c, es[..k] + [Die]) && Fifo(c, Exec(c, es[..k] + [Die]))
  {
    AlwaysPrefix(c, es, k, CleanStep(c));
    FifoHolds(c, es[..k]);
    LegalSnoc(c, es[..k], Die);
    DeathKeepsFifo(c, Exec(c, es[..k]));
  }

  /* ---- Collapsed deliveries ---- */

  /** xs without adjacent repeats. */
  function Collapse(xs: seq<Episode>): (r: seq<Episode>)
    ensures xs != [] ==> r != [] && r[|r| - 1] == xs[|xs| - 1]
  {
    if |xs| < 2 then xs
    else if xs[|xs| - 1] == xs[|xs| - 2] then Collapse(xs[..|xs| - 1])
    else Collapse(xs[..|xs| - 1]) + [xs[|xs| - 1]]
  }

  ghost predicate DistinctIds(eps: seq<Episode>) {
    forall i, j :: 0 <= i < j < |eps| ==> eps[i].episodeId != eps[j].episodeId
  }

  lemma CollapseSnoc(xs: seq<Episode>, x: Episode)
    ensures Collapse(xs + [x]) == if xs != [] && xs[|xs| - 1] == x then Collapse(xs) else Collapse(xs) + [x]
  {
    assert (xs + [x])[..|xs|] == xs;
  }

  lemma ReplayEnds(delivered: seq<Episode>, written: seq<Episode>, n: nat)
    requires Replays(delivered, written, n)
    ensures n <= |written| && (delivered == [] <==> n == 0)
    ensures n > 0 ==> delivered[|delivered| - 1] == Stamp(written[n - 1])
  {
  }

  /** The last delivery of a replay is a repeat or the next row. */
  lemma ReplayFront(delivered: seq<Episode>, written: seq<Episode>, n: nat)
    requires delivered != [] && Replays(delivered, written, n)
    ensures 0 < n <= |written| && delivered[|delivered| - 1] == Stamp(written[n - 1])
    ensures var earlier := delivered[..|delivered| - 1];
      Replays(earlier, written, n) || Replays(earlier, written, n - 1)
  {
  }

  /** What one more delivery does to the collapsed ones. */
  lemma CollapseMore(earlier: seq<Episode>, written: seq<Episode>, n: nat, m: nat)
    requires DistinctIds(written) && 0 < n <= |written| && (m == n || m == n - 1)
    requires Replays(earlier, written, m) && Collapse(earlier) == StampAll(written[..m])
    ensures Collapse(earlier + [Stamp(written[n - 1])]) == StampAll(written[..n])
  {
    hide Collapse, StampAll, Replays;
    var last := Stamp(written[n - 1]);
    CollapseSnoc(earlier, last);
    ReplayEnds(earlier, written, m);
    if m == n - 1 {
      StampAllSnoc(written[..n - 1], written[n - 1]);
      assert written[..n] == written[..n - 1] + [written[n - 1]];
      assert n > 1 ==> written[n - 2].episodeId != written[n - 1].episodeId;
    }
  }

  lemma {:induction false} CollapseReplay(delivered: seq<Episode>, written: seq<Episode>, n: nat)
    requires DistinctIds(written) && Replays(delivered, written, n)
    ensures Collapse(delivered) == StampAll(written[..n])
    decreases |delivered|
  {
    if delivered != [] {
      hide Collapse, StampAll, Replays, DistinctIds;
      ReplayFront(delivered, written, n);
      var earlier := delivered[..|delivered| - 1];
      assert delivered == earlier + [Stamp(written[n - 1])];
      var m := if Replays(earlier, written, n) then n else n - 1;
      CollapseReplay(earlier, written, m);
      CollapseMore(earlier, written, n, m);
    } else {
      ReplayEnds(delivered, written, n);
      assert written[..0] == [];
    }
  }

  lemma {:induction false} ReplayRest(delivered: seq<Episode>, written: seq<Episode>, k: nat, n: nat)
    requires k <= n <= |written|
    requires Replays(delivered, written, k) || Replays(delivered, written, k + 1)
    ensures n > k ==> Replays(delivered + StampAll(written[k..n]), written, n)
    decreases n
  {
    if n > k {
      hide Replays, StampAll;
      var earlier := delivered + StampAll(written[k..n - 1]);
      assert written[k..n] == written[k..n - 1] + [written[n - 1]];
      StampAllSnoc(written[k..n - 1], written[n - 1]);
      assert delivered + StampAll(written[k..n]) == earlier + [Stamp(written[n - 1])];
      if n == k + 1 {
        StampAllNone();
        assert written[k..k] == [] && earlier == delivered;
      } else {
        ReplayRest(delivered, written, k, n - 1);
      }
      ReplaysNext(earlier, written, n);
    }
  }

  lemma CollapseFifo(c: Codec, s: Log)
    requires Fifo(c, s) && DistinctIds(s.written)
    ensures Collapse(s.delivered + StampAll(Rows(c, Pending(s)))) == StampAll(s.written)
  {
    var rest := Rows(c, Pending(s));
    var k := |s.written| - |rest|;
    assert s.written[..|s.written|] == s.written;
    if rest == [] {
      assert s.delivered + StampAll(rest) == s.delivered;
      CollapseReplay(s.delivered, s.written, k);
    } else {
      ReplayRest(s.delivered, s.written, k, |s.written|);
      assert s.written[k..|s.written|] == rest;
      CollapseReplay(s.delivered + StampAll(rest), s.written, |s.written|);
    }
  }

  /** Deliveries with adjacent repeats collapsed, followed by the records past the offset,
      are the written rows in arrival order. */
  lemma CollapsedDeliveries(c: Codec, es: seq<Event>)
    requires RoundTrips(c) && Legal(c, es) && Always(c, es, CleanStep(c))
    requires DistinctIds(Exec(c, es).written)
    ensures var s := Exec(c, es);
      Collapse(s.delivered + StampAll(Rows(c, Pending(s)))) == StampAll(s.written)
  {
    FifoHolds(c, es);
    CollapseFifo(c, Exec(c, es));
  }

  /* ---- The offset ---- */

  ghost predicate AtBoundary(s: Log) {
    s.offset == 0 || (s.offset <= |s.data| && s.data[s.offset - 1] == LF)
  }

  /** The process does not stop, and the offset reset does not fail, between the truncation of
      delivered lines and the reset of the offset. */
  ghost function NoStopInCompaction(): (Log, Event) -> bool {
    (s: Log, e: Event) => s.pc.Cut? && s.offset > 0 ==> e.Reset?
  }

  ghost predicate OffsetOk(s: Log) {
    if s.pc.Cut? then s.data == [] else AtBoundary(s)
  }

  lemma OffsetStep(c: Codec, s: Log, e: Event)
    requires OffsetOk(s) && Enabled(c, s, e) && NoStopInCompaction()(s, e)
    ensures OffsetOk(Next(c, s, e))
  {
    if e.Commit? || e.Skip? {
      AdvanceOffset(s, Next(c, s, e));
    }
  }

  /** The offset is 0 or just past an LF inside the file, torn and glued records included. */
  lemma {:induction false} OffsetAtBoundary(c: Codec, es: seq<Event>)
    requires Legal(c, es) && Always(c, es, NoStopInCompaction())
    ensures OffsetOk(Exec(c, es))
  {
    if es != [] {
      OffsetAtBoundary(c, Front(es));
      OffsetStep(c, Exec(c, Front(es)), Last(es));
    }
  }

  /** Stopping inside compaction is the only escape, and a Drain before any Enqueue repairs it. */
  lemma DrainRepairsGap(c: Codec, es: seq<Event>)
    requires Legal(c, es)
    requires var s := Exec(c, es); s.pc.Idle? && s.data == [] && s.offset > 0
    ensures !AtBoundary(Exec(c, es))
    ensures var es' := es + [StartDrain] + [Truncate] + [Reset];
      && Legal(c, es')
      && Exec(c, es') == Exec(c, es).(offset := 0)
      && AtBoundary(Exec(c, es'))
  {
    LegalSnoc(c, es, StartDrain);
    LegalSnoc(c, es + [StartDrain], Truncate);
    LegalSnoc(c, es + [StartDrain] + [Truncate], Reset);
  }

  /* ---- The depth ---- */

  /** A whole record is not written entirely in front of an offset beyond the file end. */
  ghost function NotSwallowed(c: Codec): (Log, Event) -> bool {
    (s: Log, e: Event) =>
      e.Write? && e.landed == |Record(c, e.ep)| ==> s.offset <= |s.data| || s.offset < |s.data| + e.landed
  }

  /** Complete lines that the depth should count at this point of the call in progress. */
  ghost function Uncounted(s: Log): int {
    match s.pc
    case Written(row) => if row.Some? then -1 else 0
    case Moved => 1
    case _ => 0
  }

  ghost predicate DepthOk(s: Log) {
    var target := |Pending(s)| + Uncounted(s);
    && (s.pc.Cut? ==> s.data == [])
    && 0 <= s.depth <= target
    && (s.exact ==> s.depth == target)
  }

  lemma DepthWrite(c: Codec, s: Log, ep: Episode, landed: nat)
    requires RoundTrips(c) && DepthOk(s) && Enabled(c, s, Write(ep, landed)) && NotSwallowed(c)(s, Write(ep, landed))
    ensures DepthOk(Next(c, s, Write(ep, landed)))
  {
    hide Lines, Tail;
    AppendChunk(c, s, ep, landed);
    if landed == |Record(c, ep)| && s.offset > |s.data| {
      AppendBeyond(c, s, ep);
    }
  }

  lemma DepthStep(c: Codec, s: Log, e: Event)
    requires RoundTrips(c) && DepthOk(s) && Enabled(c, s, e) && NotSwallowed(c)(s, e)
    ensures DepthOk(Next(c, s, e))
  {
    hide Lines, Tail;
    var s' := Next(c, s, e);
    match e
    case Write(ep, landed) =>
      DepthWrite(c, s, ep, landed);
    case Commit | Skip =>
      AdvanceOffset(s, s');
    case Truncate =>
      NothingPastTheEnd(s);
      NothingPastTheEnd(s');
    case Reset =>
      NothingPastTheEnd(s);
      NothingPastTheEnd(s');
    case Sync | StartDrain | Hand | Count | Leave | Die =>
      assert Unread(s') == Unread(s);
  }

  lemma {:induction false} DepthAlways(c: Codec, es: seq<Event>)
    requires RoundTrips(c) && Legal(c, es) && Always(c, es, NotSwallowed(c))
    ensures DepthOk(Exec(c, es))
  {
    if es != [] {
      DepthAlways(c, Front(es));
      DepthStep(c, Exec(c, Front(es)), Last(es));
    }
  }

  /** Between calls the depth never exceeds the complete records past the offset, and equals
      their number, which is what a restart recomputes, while no whole record failed its
      fsync in this process. */
  lemma DepthCounts(c: Codec, es: seq<Event>, s: Log)
    requires RoundTrips(c) && Legal(c, es) && Always(c, es, NotSwallowed(c))
    requires s == Exec(c, es) && s.pc.Idle?
    ensures 0 <= s.depth <= |Pending(s)|
    ensures s.exact ==> s.depth == |Pending(s)| == Next(c, s, Die).depth
  {
    DepthAlways(c, es);
  }

  /** The gauge is right for this point of the call in progress. */
  ghost predicate Gauged(s: Log) {
    s.depth == |Pending(s)| + Uncounted(s)
  }

  /** P holds of every state of the run. */
  ghost predicate Throughout(c: Codec, es: seq<Event>, P: Log -> bool)
    requires Legal(c, es)
  {
    P(Exec(c, es)) && (es == [] || Throughout(c, Front(es), P))
  }

  /** A whole record is swallowed by an offset beyond it, or its Enqueue returns an error after it was written. */
  ghost predicate Miscounts(c: Codec, s: Log, e: Event) {
    || (e.Write? && e.landed == |Record(c, e.ep)| && s.offset >= |s.data| + e.landed)
    || (e.Leave? && s.pc.Written? && s.pc.row.Some?)
  }

  ghost function NoMiscount(c: Codec): (Log, Event) -> bool {
    (s: Log, e: Event) => !Miscounts(c, s, e)
  }

  ghost predicate CutIsEmpty(s: Log) {
    s.depth >= 0 && (s.pc.Cut? ==> s.data == [])
  }

  lemma GaugedWrite(c: Codec, s: Log, ep: Episode, landed: nat)
    requires RoundTrips(c) && CutIsEmpty(s) && Enabled(c, s, Write(ep, landed)) && Gauged(s)
    ensures CutIsEmpty(Next(c, s, Write(ep, landed)))
    ensures Gauged(Next(c, s, Write(ep, landed))) <==> !Miscounts(c, s, Write(ep, landed))
  {
    hide Lines, Tail;
    AppendChunk(c, s, ep, landed);
    if landed == |Record(c, ep)| && s.offset > |s.data| {
      AppendBeyond(c, s, ep);
    }
  }

  lemma GaugedStep(c: Codec, s: Log, e: Event)
    requires RoundTrips(c) && CutIsEmpty(s) && Enabled(c, s, e) && Gauged(s)
    ensures Gauged(Next(c, s, e)) <==> !Miscounts(c, s, e)
  {
    hide Lines, Tail;
    var s' := Next(c, s, e);
    match e
    case Write(ep, landed) =>
      GaugedWrite(c, s, ep, landed);
    case Commit | Skip =>
      AdvanceOffset(s, s');
    case Truncate | Reset =>
      NothingPastTheEnd(s);
      NothingPastTheEnd(s');
    case Sync | StartDrain | Hand | Count | Leave | Die =>
      assert Unread(s') == Unread(s);
  }

  lemma {:induction false} CutIsEmptyAlways(c: Codec, es: seq<Event>)
    requires Legal(c, es)
    ensures CutIsEmpty(Exec(c, es))
  {
    if es != [] {
      CutIsEmptyAlways(c, Front(es));
      CutIsEmptyStep(c, Exec(c, Front(es)), Last(es));
    }
  }

  lemma CutIsEmptyStep(c: Codec, s: Log, e: Event)
    requires CutIsEmpty(s) && Enabled(c, s, e)
    ensures CutIsEmpty(Next(c, s, e))
  {
    hide Lines, Record;
  }

  /** The gauge is right at every point of a run if and only if no whole record was swallowed in front of an offset
      beyond the file and none failed after it was written. */
  lemma {:induction false} DepthExactly(c: Codec, es: seq<Event>)
    requires RoundTrips(c) && Legal(c, es)
    ensures Throughout(c, es, Gauged) <==> Always(c, es, NoMiscount(c))
  {
    if es != [] {
      hide Gauged, Miscounts, Next, Enabled;
      DepthExactly(c, Front(es));
      CutIsEmptyAlways(c, Front(es));
      if Throughout(c, Front(es), Gauged) {
        GaugedStep(c, Exec(c, Front(es)), Last(es));
      }
    }
  }
}
