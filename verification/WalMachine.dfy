/** The observe WAL as a machine over single disk effects, so that process death can fall
    between any two of them. The page cache survives the process. */
module WalMachine {
  import opened Episodes
  import opened Framing
  import opened Wrappers

  /** Where the call that holds the mutex is. */
  datatype Pc =
    | Idle
    // Enqueue: the write call is over, fsync and the depth bump are not; row if it is all there
    | Written(row: Option<Episode>)
    | Scanning              // Drain: at the loop head, or past the loop and before compaction
    | Handed                // Drain: the writer took the row, the offset still points at it
    | Moved                 // Drain: the offset is past the line, the depth still counts it
    | Cut                   // compaction: file truncated, offset not yet reset

  /** data and offset are on disk; depth and pc die with the process. The rest is history: the rows
      whose whole record reached the file, those whose Enqueue succeeded, and those the writer took;
      exact says that no whole record failed its fsync since this process opened the log. */
  datatype Log = Log(
    data: seq<byte>,
    offset: nat,
    depth: int,
    pc: Pc,
    exact: bool,
    written: seq<Episode>,
    acknowledged: seq<Episode>,
    delivered: seq<Episode>)

  datatype Event =
    | Write(ep: Episode, landed: nat)  // the first landed bytes of the record reach the file
    | Sync                             // fsync succeeds and the depth goes up
    | StartDrain
    | Hand                             // the writer stores the head row
    | Commit                           // the offset file is renamed past the delivered line
    | Skip                             // the offset file is renamed past a corrupt line
    | Count                            // the depth goes down, never below 0
    | Truncate
    | Reset                            // the offset file goes back to 0
    | Leave                            // the call returns from where it is
    | Die                              // the process dies and a new one opens the log

  const EMPTY := Log([], 0, 0, Idle, true, [], [], [])

  function Unread(s: Log): seq<byte> {
    if s.offset <= |s.data| then s.data[s.offset..] else []
  }

  /** The complete lines past the offset. */
  function Pending(s: Log): seq<seq<byte>> { Lines(Unread(s)) }

  predicate Enabled(c: Codec, s: Log, e: Event) {
    match e
    case Write(ep, landed) => s.pc.Idle? && landed <= |Record(c, ep)|
    case Sync => s.pc.Written? && s.pc.row.Some?
    case StartDrain => s.pc.Idle?
    case Hand => s.pc.Scanning? && Pending(s) != [] && c.dec(Pending(s)[0]).Some?
    case Skip => s.pc.Scanning? && Pending(s) != [] && c.dec(Pending(s)[0]).None?
    case Commit => s.pc.Handed? && Pending(s) != []
    case Count => s.pc.Moved?
    case Truncate => s.pc.Scanning? && s.offset >= |s.data|
    case Reset => s.pc.Cut?
    case Leave => s.pc.Written? || s.pc.Scanning? || s.pc.Handed? || s.pc.Cut?
    case Die => true
  }

  function Next(c: Codec, s: Log, e: Event): Log
    requires Enabled(c, s, e)
  {
    match e
    case Write(ep, landed) =>
      var whole := landed == |Record(c, ep)|;
      s.(data := s.data + Record(c, ep)[..landed],
         pc := Written(if whole then Some(Wire(ep)) else None),
         written := if whole then s.written + [Wire(ep)] else s.written)
    case Sync => s.(depth := s.depth + 1, pc := Idle, acknowledged := s.acknowledged + [s.pc.row.value])
    case StartDrain => s.(pc := Scanning)
    case Hand => s.(delivered := s.delivered + [Stamp(c.dec(Pending(s)[0]).value)], pc := Handed)
    case Skip => s.(offset := s.offset + |Pending(s)[0]| + 1, pc := Moved)
    case Commit => s.(offset := s.offset + |Pending(s)[0]| + 1, pc := Moved)
    case Count => s.(depth := if s.depth - 1 < 0 then 0 else s.depth - 1, pc := Scanning)
    case Truncate => s.(data := [], pc := Cut)
    case Reset => s.(offset := 0, pc := Idle)
    case Leave => s.(exact := s.exact && !(s.pc.Written? && s.pc.row.Some?), pc := Idle)
    case Die => s.(depth := |Pending(s)|, exact := true, pc := Idle)
  }

  /** A run from the empty log: every event was enabled where it happened. */
  predicate Legal(c: Codec, es: seq<Event>)
    decreases |es|, 1
  {
    es == [] || (Legal(c, Front(es)) && Enabled(c, Exec(c, Front(es)), Last(es)))
  }

  function Exec(c: Codec, es: seq<Event>): Log
    requires Legal(c, es)
    decreases |es|, 2
  {
    if es == [] then EMPTY else Next(c, Exec(c, Front(es)), Last(es))
  }

  function Front(es: seq<Event>): seq<Event> requires es != [] { es[..|es| - 1] }
  function Last(es: seq<Event>): Event requires es != [] { es[|es| - 1] }

  lemma LegalSnoc(c: Codec, es: seq<Event>, e: Event)
    requires Legal(c, es) && Enabled(c, Exec(c, es), e)
    ensures Legal(c, es + [e])
    ensures Exec(c, es + [e]) == Next(c, Exec(c, es), e)
  {
    assert Front(es + [e]) == es;
  }

  /** A run that goes on without writing a record. */
  ghost predicate Reads(es: seq<Event>, longer: seq<Event>) {
    es <= longer && forall i :: |es| <= i < |longer| ==> !longer[i].Write?
  }

  lemma ReadsNothing(es: seq<Event>)
    ensures Reads(es, es)
  {
  }

  lemma ReadsOn(a: seq<Event>, b: seq<Event>, c: seq<Event>)
    requires Reads(a, b) && Reads(b, c)
    ensures Reads(a, c)
  {
  }

  /* ---- What single effects do to the pending lines ---- */

  lemma AppendChunk(c: Codec, s: Log, ep: Episode, landed: nat)
    requires RoundTrips(c) && Enabled(c, s, Write(ep, landed))
    ensures var s' := Next(c, s, Write(ep, landed));
      && (landed < |Record(c, ep)| ==> Pending(s') == Pending(s))
      && (landed == |Record(c, ep)| && s.offset <= |s.data| ==>
            && Pending(s') == Pending(s) + [Tail(Unread(s)) + c.enc(ep)]
            && Tail(Unread(s')) == [])
      && (s.offset <= |s.data| && landed < |Record(c, ep)| ==>
            Tail(Unread(s')) == Tail(Unread(s)) + Record(c, ep)[..landed])
  {
    hide Lines, Tail;
    var s' := Next(c, s, Write(ep, landed));
    var chunk := Record(c, ep)[..landed];
    if landed < |Record(c, ep)| {
      assert chunk == c.enc(ep)[..landed];
    }
    if s.offset <= |s.data| {
      assert Unread(s') == Unread(s) + chunk;
      LinesOfConcat(Unread(s), chunk);
      TailHasNoLf(Unread(s));
      if landed < |Record(c, ep)| {
        OpenBytes(Tail(Unread(s)) + chunk);
      } else {
        assert Tail(Unread(s)) + chunk == (Tail(Unread(s)) + c.enc(ep)) + [LF];
        OneLine(Tail(Unread(s)) + c.enc(ep));
      }
    } else if landed < |Record(c, ep)| {
      NothingPastTheEnd(s);
      OpenBytes(Unread(s'));
    }
  }

  /** A whole record written while the offset lies beyond the file: only what reaches past the
      offset will ever be read, and that is a proper suffix of the record. */
  lemma AppendBeyond(c: Codec, s: Log, ep: Episode)
    requires RoundTrips(c) && s.pc.Idle? && s.offset > |s.data|
    ensures var s' := Next(c, s, Write(ep, |Record(c, ep)|));
      var j := s.offset - |s.data|;
      && Pending(s) == []
      && Pending(s') == (if j <= |c.enc(ep)| then [c.enc(ep)[j..]] else [])
      && Tail(Unread(s')) == []
  {
    var s' := Next(c, s, Write(ep, |Record(c, ep)|));
    var j := s.offset - |s.data|;
    assert s'.data == s.data + Record(c, ep);
    if j <= |c.enc(ep)| {
      assert Unread(s') == c.enc(ep)[j..] + [LF];
      OneLine(c.enc(ep)[j..]);
    } else {
      assert Unread(s') == [];
    }
  }

  lemma AdvanceOffset(s: Log, s': Log)
    requires Pending(s) != [] && s'.data == s.data && s'.offset == s.offset + |Pending(s)[0]| + 1
    ensures Pending(s') == Pending(s)[1..] && Tail(Unread(s')) == Tail(Unread(s))
    ensures s'.offset <= |s'.data| && s'.data[s'.offset - 1] == LF
  {
    hide Lines, Tail, LineEnd;
    var n := |Pending(s)[0]|;
    DropFirstLine(Unread(s));
    assert Unread(s)[n] == s.data[s.offset + n];
    assert Unread(s') == Unread(s)[n + 1..];
  }

  lemma NothingPastTheEnd(s: Log)
    requires s.offset >= |s.data|
    ensures Pending(s) == [] && Tail(Unread(s)) == []
  {
  }
}
