/** What one Drain and one flusher pass do to the pending lines, as functions on values. */
module DrainSpec {
  import opened Episodes
  import opened Framing
  import opened WalMachine
  import opened Wrappers

  const DEFAULT_DRAIN_BATCH: nat := 256

  /** How many lines one Drain consumes: corrupt lines do not count against the batch. */
  function OneBatch(c: Codec, lines: seq<seq<byte>>, batch: nat): (m: nat)
    ensures m <= |lines|
  {
    if lines == [] || batch == 0 then 0
    else 1 + OneBatch(c, lines[1..], if c.dec(lines[0]).Some? then batch - 1 else batch)
  }

  lemma RowsOfNext(c: Codec, lines: seq<seq<byte>>, m: nat)
    requires m < |lines|
    ensures Rows(c, lines[..m + 1]) == Rows(c, lines[..m]) + Rows(c, [lines[m]])
    ensures lines[m..] != [] && lines[m..][0] == lines[m] && lines[m..][1..] == lines[m + 1..]
  {
    assert lines[..m + 1] == lines[..m] + [lines[m]];
    RowsOfConcat(c, lines[..m], [lines[m]]);
  }

  lemma SliceGrows<T>(a: seq<T>, b: seq<T>, more: seq<T>)
    requires a <= b
    ensures a <= b + more && (b + more)[|a|..] == b[|a|..] + more
  {
  }

  lemma OneBatchNext(c: Codec, lines: seq<seq<byte>>, m: nat, left: nat)
    requires m <= |lines|
    ensures m == |lines| || left == 0 ==> OneBatch(c, lines[m..], left) == 0
    ensures m < |lines| && left > 0 ==>
      OneBatch(c, lines[m..], left) == 1 + OneBatch(c, lines[m + 1..], if c.dec(lines[m]).Some? then left - 1 else left)
  {
    if m < |lines| {
      assert lines[m..][1..] == lines[m + 1..];
    }
  }

  function Lowered(depth: int, n: nat): int {
    if depth - n < 0 then 0 else depth - n
  }

  /** The state at the loop head of a Drain that started at was, after m lines. */
  ghost predicate Progress(c: Codec, was: Log, s: Log, m: nat) {
    && m <= |Pending(was)|
    && s.pc.Scanning?
    && Pending(s) == Pending(was)[m..]
    && s.data == was.data
    && s.written == was.written && s.acknowledged == was.acknowledged
    && s.depth == Lowered(was.depth, m)
    && s.delivered == was.delivered + StampAll(Rows(c, Pending(was)[..m]))
  }

  /** What a Drain that started at was has done by the time it returns: the offset went past m
      lines, the writer took their rows, and extra is the head row if it was taken without its
      offset moving. */
  ghost predicate Consumed(c: Codec, was: Log, s: Log, m: nat, extra: seq<Episode>) {
    && m <= |Pending(was)|
    && Pending(s) == Pending(was)[m..]
    && s.written == was.written && s.acknowledged == was.acknowledged
    && s.depth == Lowered(was.depth, m)
    && s.delivered == was.delivered + StampAll(Rows(c, Pending(was)[..m])) + extra
    && (extra == [] || (m < |Pending(was)| && c.dec(Pending(was)[m]).Some?
                        && extra == [Stamp(c.dec(Pending(was)[m]).value)]))
  }

  lemma ProgressIsConsumed(c: Codec, was: Log, s: Log, m: nat, s': Log, extra: seq<Episode>)
    requires Progress(c, was, s, m)
    requires s'.(delivered := []) == s.(pc := Idle, delivered := []) && s'.delivered == s.delivered + extra
    requires extra == [] || (m < |Pending(was)| && c.dec(Pending(was)[m]).Some?
                             && extra == [Stamp(c.dec(Pending(was)[m]).value)])
    ensures Consumed(c, was, s', m, extra)
  {
    hide Lines, StampAll;
    assert Unread(s') == Unread(s);
  }

  lemma StampOne(c: Codec, line: seq<byte>, row: Episode)
    requires c.dec(line) == Some(row)
    ensures StampAll(Rows(c, [line])) == [Stamp(row)]
  {
    assert Rows(c, [line]) == [row];
    StampAllNone();
    assert [] + [row] == [row];
    StampAllSnoc([], row);
  }

  lemma ProgressHead(c: Codec, was: Log, s: Log, m: nat)
    requires Progress(c, was, s, m) && m < |Pending(was)|
    ensures Pending(s) != [] && Pending(s)[0] == Pending(was)[m] && s.pc.Scanning?
  {
  }

  /** The loop head after the offset went past the head line, the depth went down, and the
      writer took given. */
  lemma LineProgresses(c: Codec, was: Log, s: Log, m: nat, s': Log, given: seq<Episode>)
    requires was.depth >= 0 && Progress(c, was, s, m) && m < |Pending(was)|
    requires given == StampAll(Rows(c, [Pending(was)[m]]))
    requires s' == s.(offset := s.offset + |Pending(was)[m]| + 1, depth := Lowered(s.depth, 1),
                      delivered := s.delivered + given)
    ensures Progress(c, was, s', m + 1)
  {
    hide StampAll, Lines, Tail;
    RowsOfNext(c, Pending(was), m);
    AdvanceOffset(s, s');
    var earlier := Rows(c, Pending(was)[..m]);
    match c.dec(Pending(was)[m])
    case None =>
      StampAllNone();
      assert earlier + [] == earlier;
    case Some(row) =>
      assert Rows(c, [Pending(was)[m]]) == [row];
      StampAllSnoc([], row);
      StampAllNone();
      assert [] + [row] == [row];
      StampAllSnoc(earlier, row);
  }

  /** What reading up to the next LF finds at the loop head. */
  lemma NextLine(c: Codec, was: Log, s: Log, m: nat, rest: seq<byte>)
    requires Progress(c, was, s, m) && rest == Unread(s)
    ensures m <= |Pending(was)|
    ensures LineEnd(rest) == |rest| <==> m == |Pending(was)|
    ensures m < |Pending(was)| ==> Pending(was)[m] == rest[..LineEnd(rest)]
  {
    assert LineEnd(rest) == |rest| <==> Pending(s) == [];
  }

  /** The loop head of Drain: drained rows among the first m lines, the batch not yet full. */
  ghost predicate AtLine(c: Codec, was: Log, s: Log, m: nat, drained: nat, limit: nat) {
    && Progress(c, was, s, m)
    && drained == |Rows(c, Pending(was)[..m])| <= limit
    && m + OneBatch(c, Pending(was)[m..], limit - drained) == OneBatch(c, Pending(was), limit)
  }

  lemma AtFirstLine(c: Codec, was: Log, s: Log, limit: nat)
    requires Progress(c, was, s, 0)
    ensures AtLine(c, was, s, 0, 0, limit)
  {
    assert Pending(was)[..0] == [] && Pending(was)[0..] == Pending(was);
  }

  lemma AtNextLine(c: Codec, was: Log, s: Log, s': Log, m: nat, drained: nat, limit: nat)
    requires AtLine(c, was, s, m, drained, limit) && drained < limit
    requires m < |Pending(was)| && Progress(c, was, s', m + 1)
    ensures AtLine(c, was, s', m + 1, if c.dec(Pending(was)[m]).Some? then drained + 1 else drained, limit)
  {
    hide Lines, StampAll;
    var lines := Pending(was);
    RowsOfNext(c, lines, m);
    assert lines[m..][1..] == lines[m + 1..];
    assert |Rows(c, [lines[m]])| == if c.dec(lines[m]).Some? then 1 else 0;
  }

  lemma AtLastLine(c: Codec, was: Log, s: Log, m: nat, drained: nat, limit: nat)
    requires AtLine(c, was, s, m, drained, limit)
    ensures m <= |Pending(was)| && drained == |Rows(c, Pending(was)[..m])|
    ensures drained == limit || m == |Pending(was)| ==> m == OneBatch(c, Pending(was), limit)
  {
  }

  lemma NoRows(c: Codec)
    ensures Rows(c, []) == [] && StampAll(Rows(c, [])) == []
  {
  }

  lemma Given(c: Codec, was: Log, s: Log, m: nat, before: seq<Episode>, after: seq<Episode>)
    requires Consumed(c, was, s, m, []) && after == before + s.delivered[|was.delivered|..]
    ensures m <= |Pending(was)| && after == before + StampAll(Rows(c, Pending(was)[..m]))
  {
    hide Lines, StampAll, Rows;
    var given := StampAll(Rows(c, Pending(was)[..m]));
    assert s.delivered == was.delivered + given;
  }

  /** How many lines a pass consumes with nothing failing, when the gauge starts at depth. */
  function PassEnd(c: Codec, lines: seq<seq<byte>>, depth: int): (m: nat)
    ensures m <= |lines|
    decreases |lines|
  {
    var m := OneBatch(c, lines, DEFAULT_DRAIN_BATCH);
    if Rows(c, lines[..m]) == [] || Lowered(depth, m) == 0 then m
    else m + PassEnd(c, lines[m..], Lowered(depth, m))
  }

  lemma PassStep(c: Codec, lines: seq<seq<byte>>, moved: nat, m: nat, depth: int)
    requires moved + m <= |lines|
    ensures lines[moved..][m..] == lines[moved + m..]
    ensures StampAll(Rows(c, lines[..moved + m])) ==
      StampAll(Rows(c, lines[..moved])) + StampAll(Rows(c, lines[moved..][..m]))
    ensures m == OneBatch(c, lines[moved..], DEFAULT_DRAIN_BATCH) ==>
      PassEnd(c, lines[moved..], depth) ==
        if |Rows(c, lines[moved..][..m])| == 0 || Lowered(depth, m) == 0 then m
        else m + PassEnd(c, lines[moved + m..], Lowered(depth, m))
  {
    assert lines[..moved + m] == lines[..moved] + lines[moved..][..m];
    RowsOfConcat(c, lines[..moved], lines[moved..][..m]);
  }

  /** The last line count at which a full batch ends with lines left over; -1 if one batch
      takes everything. */
  function LastBoundary(c: Codec, lines: seq<seq<byte>>): (b: int)
    ensures -1 <= b && (lines != [] ==> b < |lines|)
    decreases |lines|
  {
    var m := OneBatch(c, lines, DEFAULT_DRAIN_BATCH);
    if m == |lines| || m == 0 then -1
    else var b := LastBoundary(c, lines[m..]); m + if b < 0 then 0 else b
  }

  lemma {:induction false} FullBatch(c: Codec, lines: seq<seq<byte>>, batch: nat)
    requires OneBatch(c, lines, batch) < |lines|
    ensures |Rows(c, lines[..OneBatch(c, lines, batch)])| == batch
  {
    var m := OneBatch(c, lines, batch);
    if batch > 0 {
      FullBatch(c, lines[1..], if c.dec(lines[0]).Some? then batch - 1 else batch);
      assert lines[..m][1..] == lines[1..][..m - 1];
    }
  }

  /** One Drain never stores more rows than the batch allows. */
  lemma {:induction false} BatchBound(c: Codec, lines: seq<seq<byte>>, batch: nat)
    ensures |Rows(c, lines[..OneBatch(c, lines, batch)])| <= batch
  {
    var m := OneBatch(c, lines, batch);
    if lines != [] && batch > 0 {
      BatchBound(c, lines[1..], if c.dec(lines[0]).Some? then batch - 1 else batch);
      assert lines[..m][1..] == lines[1..][..m - 1];
    }
  }

  /** A pass with nothing failing leaves no complete record exactly when the gauge is above the
      last batch boundary, corrupt lines and any number of batches included. */
  lemma {:induction false} PassDrainsExactly(c: Codec, lines: seq<seq<byte>>, depth: nat)
    ensures PassEnd(c, lines, depth) == |lines| <==> depth > LastBoundary(c, lines)
    decreases |lines|
  {
    var m := OneBatch(c, lines, DEFAULT_DRAIN_BATCH);
    if m < |lines| {
      FullBatch(c, lines, DEFAULT_DRAIN_BATCH);
      if depth > m {
        PassDrainsExactly(c, lines[m..], depth - m);
      }
    }
  }

  /** In particular when the gauge is exact. */
  lemma ExactDepthDrains(c: Codec, lines: seq<seq<byte>>)
    ensures PassEnd(c, lines, |lines|) == |lines|
  {
    PassDrainsExactly(c, lines, |lines|);
  }

  ghost predicate AllDecode(c: Codec, lines: seq<seq<byte>>) {
    forall line :: line in lines ==> c.dec(line).Some?
  }

  /** Without corrupt lines a batch is so many lines. */
  lemma {:induction false} OneBatchOfRows(c: Codec, lines: seq<seq<byte>>, batch: nat)
    requires AllDecode(c, lines)
    ensures OneBatch(c, lines, batch) == if |lines| < batch then |lines| else batch
  {
    if lines != [] && batch > 0 {
      OneBatchOfRows(c, lines[1..], batch - 1);
    }
  }

  /** One record more than the gauge says, at a batch boundary: the pass leaves it behind. */
  lemma UndercountLeavesOne(c: Codec, lines: seq<seq<byte>>)
    requires AllDecode(c, lines) && |lines| == DEFAULT_DRAIN_BATCH + 1
    ensures PassEnd(c, lines, DEFAULT_DRAIN_BATCH) == DEFAULT_DRAIN_BATCH
  {
    OneBatchOfRows(c, lines, DEFAULT_DRAIN_BATCH);
  }
}
