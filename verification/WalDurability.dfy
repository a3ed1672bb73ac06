/** What a successful Enqueue is worth: when an acknowledged row is still to be read or was delivered. */
module WalDurability {
  import opened DrainSpec
  import opened Episodes
  import opened Framing
  import opened WalMachine
  import opened WalSafety
  import opened WalLoss
  import opened Wrappers

  /** A later Drain will read the row, or the writer has it. */
  ghost predicate Kept(c: Codec, s: Log, row: Episode) {
    row in Rows(c, Pending(s)) || Stamp(row) in s.delivered
  }

  ghost predicate Durable(c: Codec, s: Log) {
    forall row :: row in s.acknowledged ==> Kept(c, s, row)
  }

  /** Every record whose Enqueue succeeded landed on a line of its own, with the offset in the file. */
  ghost predicate AcksClean(c: Codec, es: seq<Event>)
    requires Legal(c, es)
  {
    es == [] || (AcksClean(c, Front(es)) && (Last(es).Sync? ==> CleanAck(c, Front(es))))
  }

  /** es ends with the write that is about to be acknowledged. */
  ghost predicate CleanAck(c: Codec, es: seq<Event>)
    requires Legal(c, es)
  {
    es != [] && CleanStep(c)(Exec(c, Front(es)), Last(es))
  }

  /* ---- Kept rows stay kept ---- */

  /** While a row is handed over the writer has the head; while the file is cut it is empty. */
  ghost predicate InCall(c: Codec, s: Log) {
    && (s.pc.Handed? ==>
          Pending(s) != [] && c.dec(Pending(s)[0]).Some? && Stamp(c.dec(Pending(s)[0]).value) in s.delivered)
    && (s.pc.Cut? ==> s.data == [])
  }

  lemma InCallStep(c: Codec, s: Log, e: Event)
    requires InCall(c, s) && Enabled(c, s, e)
    ensures InCall(c, Next(c, s, e))
  {
    hide Lines, Tail;
    if e.Hand? {
      assert Unread(Next(c, s, e)) == Unread(s);
    }
  }

  lemma {:induction false} InCallAlways(c: Codec, es: seq<Event>)
    requires Legal(c, es)
    ensures InCall(c, Exec(c, es))
  {
    if es != [] {
      InCallAlways(c, Front(es));
      InCallStep(c, Exec(c, Front(es)), Last(es));
    }
  }

  lemma KeptWrite(c: Codec, s: Log, ep: Episode, landed: nat, row: Episode)
    requires RoundTrips(c) && Enabled(c, s, Write(ep, landed)) && Kept(c, s, row)
    ensures Kept(c, Next(c, s, Write(ep, landed)), row)
  {
    hide Lines, Tail;
    AppendChunk(c, s, ep, landed);
    if s.offset > |s.data| {
      NothingPastTheEnd(s);
    } else if landed == |Record(c, ep)| {
      RowsOfConcat(c, Pending(s), [Tail(Unread(s)) + c.enc(ep)]);
    }
  }

  lemma KeptStep(c: Codec, s: Log, e: Event, row: Episode)
    requires RoundTrips(c) && InCall(c, s) && Enabled(c, s, e) && Kept(c, s, row)
    ensures Kept(c, Next(c, s, e), row)
  {
    hide Lines, Tail;
    var s' := Next(c, s, e);
    match e
    case Write(ep, landed) =>
      KeptWrite(c, s, ep, landed, row);
    case Commit | Skip =>
      AdvanceOffset(s, s');
    case Truncate | Reset =>
      NothingPastTheEnd(s);
    case Sync | StartDrain | Hand | Count | Leave | Die =>
      assert Unread(s') == Unread(s);
  }

  /** Whatever happens later, death and failure at any effect included. */
  lemma {:induction false} KeptForever(c: Codec, es: seq<Event>, longer: seq<Event>, row: Episode)
    requires RoundTrips(c) && Legal(c, longer) && es <= longer
    ensures Legal(c, es)
    ensures Kept(c, Exec(c, es), row) ==> Kept(c, Exec(c, longer), row)
    decreases |longer|
  {
    if longer == es {
    } else {
      assert es <= Front(longer);
      KeptForever(c, es, Front(longer), row);
      InCallAlways(c, Front(longer));
      if Kept(c, Exec(c, es), row) {
        KeptStep(c, Exec(c, Front(longer)), Last(longer), row);
      }
    }
  }

  /* ---- The acknowledged row ---- */

  lemma WrittenByWrite(c: Codec, s: Log, e: Event)
    requires Enabled(c, s, e) && Next(c, s, e).pc.Written?
    ensures e.Write? && (Next(c, s, e).pc.row == if e.landed == |Record(c, e.ep)| then Some(Wire(e.ep)) else None)
  {
    hide Lines, Record;
  }

  /** What is acknowledged is the record of the write just before. */
  lemma AckedWrite(c: Codec, es: seq<Event>)
    requires Legal(c, es) && Exec(c, es).pc.Written? && Exec(c, es).pc.row.Some?
    ensures es != [] && Last(es).Write? && Last(es).landed == |Record(c, Last(es).ep)|
    ensures Exec(c, es).pc.row == Some(Wire(Last(es).ep))
  {
    hide Next, Enabled;
    WrittenByWrite(c, Exec(c, Front(es)), Last(es));
  }

  lemma CleanRowIsKept(c: Codec, s: Log, ep: Episode)
    requires RoundTrips(c) && Enabled(c, s, Write(ep, |Record(c, ep)|))
    requires CleanStep(c)(s, Write(ep, |Record(c, ep)|))
    ensures Kept(c, Next(c, s, Write(ep, |Record(c, ep)|)), Wire(ep))
  {
    hide Lines, Tail;
    AppendChunk(c, s, ep, |Record(c, ep)|);
    var line := Tail(Unread(s)) + c.enc(ep);
    RowsOfConcat(c, Pending(s), [line]);
    assert Rows(c, [line]) == [Wire(ep)];
  }

  /** A clean acknowledged row is kept over every extension of its run. */
  lemma CleanAckIsKept(c: Codec, es: seq<Event>, ep: Episode, longer: seq<Event>)
    requires RoundTrips(c) && Legal(c, longer) && es + [Write(ep, |Record(c, ep)|)] <= longer
    ensures Legal(c, es)
    ensures CleanStep(c)(Exec(c, es), Write(ep, |Record(c, ep)|)) ==> Kept(c, Exec(c, longer), Wire(ep))
  {
    var w := Write(ep, |Record(c, ep)|);
    assert Front(es + [w]) == es && Last(es + [w]) == w;
    KeptForever(c, es + [w], longer, Wire(ep));
    if CleanStep(c)(Exec(c, es), w) {
      CleanRowIsKept(c, Exec(c, es), ep);
    }
  }

  lemma AckedAt(c: Codec, es: seq<Event>)
    requires Legal(c, es) && es != [] && Last(es).Sync?
    ensures Front(es) != [] && Last(Front(es)).Write? && Legal(c, Front(Front(es)))
    ensures var w := Last(Front(es));
      && w.landed == |Record(c, w.ep)|
      && Enabled(c, Exec(c, Front(Front(es))), w)
      && es == Front(Front(es)) + [w] + [Sync]
      && Exec(c, es).acknowledged == Exec(c, Front(es)).acknowledged + [Wire(w.ep)]
  {
    AckedWrite(c, Front(es));
    assert es == Front(es) + [Sync];
    assert Front(es) == Front(Front(es)) + [Last(Front(es))];
  }

  lemma OnlySyncAcknowledges(c: Codec, s: Log, e: Event)
    requires Enabled(c, s, e) && !e.Sync?
    ensures Next(c, s, e).acknowledged == s.acknowledged
  {
    hide Lines, Record;
  }

  lemma {:induction false} CleanAcksAreDurable(c: Codec, es: seq<Event>)
    requires RoundTrips(c) && Legal(c, es) && AcksClean(c, es)
    ensures Durable(c, Exec(c, es))
  {
    hide Kept, CleanStep, Next, Enabled;
    if es != [] {
      var front, e := Front(es), Last(es);
      CleanAcksAreDurable(c, front);
      if !e.Sync? {
        OnlySyncAcknowledges(c, Exec(c, front), e);
      }
      InCallAlways(c, front);
      forall row | row in Exec(c, es).acknowledged
        ensures Kept(c, Exec(c, es), row)
      {
        if row in Exec(c, front).acknowledged {
          KeptStep(c, Exec(c, front), e, row);
        } else {
          AckedAt(c, es);
          CleanAckIsKept(c, Front(front), Last(front).ep, es);
        }
      }
    }
  }

  /* ---- The lost row ---- */

  lemma LostIsNotKept(c: Codec, s: Log, row: Episode)
    requires Lost(c, s, row.episodeId)
    ensures !Kept(c, s, row)
  {
    assert Stamp(row).episodeId == row.episodeId;
    if row in Rows(c, Pending(s)) {
      var line := RowIsALine(c, Pending(s), row);
    }
  }

  /** A row that was acknowledged without landing cleanly is lost for good. */
  lemma {:induction false} UncleanAckLoses(c: Codec, es: seq<Event>) returns (row: Episode)
    requires RoundTrips(c) && RejectsFragments(c) && Legal(c, es) && FreshIds(es) && !AcksClean(c, es)
    ensures row in Exec(c, es).acknowledged && row.episodeId in WrittenIds(es)
    ensures Lost(c, Exec(c, es), row.episodeId)
  {
    hide CleanStep, Lost;
    var front, e := Front(es), Last(es);
    assert es == front + [e] && e in es;
    ReadableAlways(c, front);
    if !AcksClean(c, front) {
      row := UncleanAckLoses(c, front);
      LostStays(c, Exec(c, front), e, row.episodeId);
    } else {
      AckedAt(c, es);
      var start, w := Front(front), Last(front);
      row := Wire(w.ep);
      ReadableAlways(c, start);
      UncleanLoses(c, Exec(c, start), w);
      LostStays(c, Exec(c, front), e, row.episodeId);
      assert w in es;
    }
  }

  /** With fresh ids, every row whose Enqueue succeeded is pending or delivered if and only if every
      acknowledged record landed on a line of its own with the offset in the file. */
  lemma DurableExactly(c: Codec, es: seq<Event>)
    requires RoundTrips(c) && RejectsFragments(c) && Legal(c, es) && FreshIds(es)
    ensures Durable(c, Exec(c, es)) <==> AcksClean(c, es)
  {
    if AcksClean(c, es) {
      CleanAcksAreDurable(c, es);
    } else {
      var row := UncleanAckLoses(c, es);
      LostIsNotKept(c, Exec(c, es), row);
    }
  }

  lemma {:induction false} LostForever(c: Codec, es: seq<Event>, longer: seq<Event>, id: string)
    requires RoundTrips(c) && RejectsFragments(c) && Legal(c, longer) && FreshIds(longer) && es <= longer
    requires id in WrittenIds(es)
    ensures Legal(c, es)
    ensures Lost(c, Exec(c, es), id) ==> Lost(c, Exec(c, longer), id)
    decreases |longer|
  {
    hide Lost, CleanStep;
    if longer != es {
      var front, e := Front(longer), Last(longer);
      assert es <= front && longer == front + [e];
      assert WrittenIds(es) <= WrittenIds(front);
      LostForever(c, es, front, id);
      ReadableAlways(c, front);
      if Lost(c, Exec(c, es), id) {
        LostStays(c, Exec(c, front), e, id);
      }
    }
  }

  /** The fate of one record over every extension of its run: kept exactly when it landed cleanly. */
  lemma FateOfRecord(c: Codec, es: seq<Event>, ep: Episode, longer: seq<Event>)
    requires RoundTrips(c) && RejectsFragments(c) && Legal(c, longer) && FreshIds(longer)
    requires es + [Write(ep, |Record(c, ep)|)] <= longer
    ensures Legal(c, es)
    ensures Kept(c, Exec(c, longer), Wire(ep)) <==> CleanStep(c)(Exec(c, es), Write(ep, |Record(c, ep)|))
  {
    hide Kept, Lost, CleanStep;
    var w := Write(ep, |Record(c, ep)|);
    var more := es + [w];
    assert Front(more) == es && Last(more) == w && w in more;
    CleanAckIsKept(c, es, ep, longer);
    FreshPrefix(more, longer);
    KeptForever(c, more, longer, Wire(ep));
    if !CleanStep(c)(Exec(c, es), w) {
      ReadableAlways(c, es);
      UncleanLoses(c, Exec(c, es), w);
      LostForever(c, more, longer, ep.episodeId);
      LostIsNotKept(c, Exec(c, longer), Wire(ep));
    }
  }

  lemma {:induction false} FreshPrefix(es: seq<Event>, longer: seq<Event>)
    requires FreshIds(longer) && es <= longer
    ensures FreshIds(es)
    decreases |longer|
  {
    if longer != es {
      assert es <= Front(longer);
      FreshPrefix(es, Front(longer));
    }
  }

  /* ---- Acknowledged and written ---- */

  /** A whole record is acknowledged: its fsync neither fails nor is cut short by death. */
  ghost function Synced(): (Log, Event) -> bool {
    (s: Log, e: Event) => s.pc.Written? && s.pc.row.Some? ==> e.Sync?
  }

  /** When every whole record got its fsync, what is acknowledged is what was written, so that the FIFO
      theorems speak of the acknowledged rows. */
  lemma {:induction false} SyncedIsAcknowledged(c: Codec, es: seq<Event>)
    requires Legal(c, es) && Always(c, es, Synced())
    ensures var s := Exec(c, es);
      s.written == s.acknowledged + InDoubt(s)
  {
    if es != [] {
      hide Next, Enabled;
      SyncedIsAcknowledged(c, Front(es));
      SyncedStep(c, Exec(c, Front(es)), Last(es));
    }
  }

  /** The row that is written but not yet acknowledged. */
  function InDoubt(s: Log): seq<Episode> {
    if s.pc.Written? && s.pc.row.Some? then [s.pc.row.value] else []
  }

  lemma SyncedStep(c: Codec, s: Log, e: Event)
    requires Enabled(c, s, e) && Synced()(s, e) && s.written == s.acknowledged + InDoubt(s)
    ensures Next(c, s, e).written == Next(c, s, e).acknowledged + InDoubt(Next(c, s, e))
  {
    hide Lines, Record;
  }

  /** Whatever Enqueues run between its Drains: with an exact gauge, a pass that stops because the gauge reads 0 or
      because a clean Drain stored nothing stops with nothing left to read. */
  lemma PassStopsEmpty(c: Codec, es: seq<Event>, s: Log, was: Log)
    requires RoundTrips(c) && Legal(c, es) && Always(c, es, NotSwallowed(c))
    requires s == Exec(c, es) && s.pc.Idle? && s.exact
    ensures s.depth == 0 ==> Pending(s) == []
    ensures var m := OneBatch(c, Pending(was), DEFAULT_DRAIN_BATCH);
      Consumed(c, was, s, m, []) && Rows(c, Pending(was)[..m]) == [] ==> Pending(s) == []
  {
    hide Exec, Legal, Lines;
    DepthCounts(c, es, s);
    var m := OneBatch(c, Pending(was), DEFAULT_DRAIN_BATCH);
    if m < |Pending(was)| {
      FullBatch(c, Pending(was), DEFAULT_DRAIN_BATCH);
    }
  }

  /* ---- A record that a flusher pass leaves behind ---- */

  /** One successful Enqueue after the other. */
  function Burst(c: Codec, es: seq<Event>, rows: seq<Episode>): seq<Event> {
    if rows == [] then es
    else
      var last := rows[|rows| - 1];
      Burst(c, es, rows[..|rows| - 1]) + [Write(last, |Record(c, last)|)] + [Sync]
  }

  /** Between calls, the offset in the file, no torn tail, nothing corrupt. */
  ghost predicate Tidy(c: Codec, s: Log) {
    s.pc.Idle? && s.offset <= |s.data| && Tail(Unread(s)) == [] && AllDecode(c, Pending(s))
  }

  lemma TidyWrite(c: Codec, s: Log, ep: Episode, e: Event)
    requires RoundTrips(c) && Tidy(c, s) && (e.Sync? || e.Leave?)
    ensures var w := Next(c, s, Write(ep, |Record(c, ep)|));
      && Enabled(c, w, e)
      && Tidy(c, Next(c, w, e))
      && |Pending(Next(c, w, e))| == |Pending(s)| + 1
      && Next(c, w, e).depth == s.depth + if e.Sync? then 1 else 0
  {
    hide Lines, Tail;
    AppendChunk(c, s, ep, |Record(c, ep)|);
    var w := Next(c, s, Write(ep, |Record(c, ep)|));
    assert Unread(Next(c, w, e)) == Unread(w);
    assert [] + c.enc(ep) == c.enc(ep);
  }

  lemma {:induction false} BurstRuns(c: Codec, es: seq<Event>, rows: seq<Episode>)
    requires RoundTrips(c) && Legal(c, es) && Tidy(c, Exec(c, es))
    ensures Legal(c, Burst(c, es, rows)) && Tidy(c, Exec(c, Burst(c, es, rows)))
    ensures |Pending(Exec(c, Burst(c, es, rows)))| == |Pending(Exec(c, es))| + |rows|
    ensures Exec(c, Burst(c, es, rows)).depth == Exec(c, es).depth + |rows|
  {
    hide Exec, Legal, Next, Tidy, Pending;
    if rows != [] {
      var front, last := Burst(c, es, rows[..|rows| - 1]), rows[|rows| - 1];
      BurstRuns(c, es, rows[..|rows| - 1]);
      var s := Exec(c, front);
      TidyIsIdle(c, s);
      TidyWrite(c, s, last, Sync);
      TwoSteps(c, front, Write(last, |Record(c, last)|), Sync, s);
    }
  }

  lemma TidyIsIdle(c: Codec, s: Log)
    requires Tidy(c, s)
    ensures s.pc.Idle?
  {
  }

  /** The fsync of one whole record fails, then a batch of Enqueues succeeds: the gauge is one short, and a
      pass in which nothing fails leaves a complete record behind. */
  lemma FailedSyncLeavesOne(c: Codec, p: Episode, rows: seq<Episode>)
    requires RoundTrips(c) && |rows| == DEFAULT_DRAIN_BATCH
    ensures var start := [] + [Write(p, |Record(c, p)|)] + [Leave];
      && Legal(c, start) && Legal(c, Burst(c, start, rows))
      && var s := Exec(c, Burst(c, start, rows));
      && s.depth == DEFAULT_DRAIN_BATCH && |Pending(s)| == DEFAULT_DRAIN_BATCH + 1
      && PassEnd(c, Pending(s), s.depth) == DEFAULT_DRAIN_BATCH
  {
    EmptyRun(c);
    assert Tidy(c, EMPTY) && Pending(EMPTY) == [];
    hide Exec, Legal, Next, Burst, PassEnd;
    TidyWrite(c, EMPTY, p, Leave);
    TwoSteps(c, [], Write(p, |Record(c, p)|), Leave, EMPTY);
    var start := [] + [Write(p, |Record(c, p)|)] + [Leave];
    BurstRuns(c, start, rows);
    UndercountLeavesOne(c, Pending(Exec(c, Burst(c, start, rows))));
  }
}
