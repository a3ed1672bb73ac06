/** FileWAL: the write-ahead log of agent.observe, effect by effect. Its ghost trace is a legal
    run of WalMachine, so everything proved there holds at every instant of these methods. */
module FileWal {
  import opened Episodes
  import opened Framing
  import opened WalMachine
  import opened DrainSpec
  import opened Wrappers

  /** Which system calls fail is not up to the program; failures counts those that did, syncs the fsyncs that did
      not. */
  class Environment {
    ghost var failures: nat
    ghost var syncs: nat

    constructor ()
      ensures failures == 0 && syncs == 0
    {
      failures, syncs := 0, 0;
    }

    method Fails() returns (b: bool)
      modifies this
      ensures failures == old(failures) + if b then 1 else 0
      ensures syncs == old(syncs)
    {
      b := *;
      failures := failures + if b then 1 else 0;
    }

    method FsyncFails() returns (b: bool)
      modifies this
      ensures failures == old(failures) + if b then 1 else 0
      ensures syncs == old(syncs) + if b then 0 else 1
    {
      b := Fails();
      syncs := syncs + if b then 0 else 1;
    }

    /** How much of a write of n bytes reaches the file; less than all of it is a failure. */
    method Landed(n: nat) returns (m: nat)
      modifies this
      ensures m <= n && failures == old(failures) + if m < n then 1 else 0
      ensures syncs == old(syncs)
    {
      m := *;
      if m > n {
        m := n;
      }
      failures := failures + if m < n then 1 else 0;
    }
  }

  datatype WriteError = NoError | EpisodicLogUnavailable | OtherError

  /** The Episode writer: one transaction per row, so an error means nothing was stored. It decides on its own
      what it answers; answers lists that, and refusals counts the errors among it. */
  class EpisodeAppender {
    var rows: seq<Episode>
    ghost var answers: seq<WriteError>
    ghost var refusals: nat

    constructor ()
      ensures rows == [] && answers == [] && refusals == 0
    {
      rows, answers, refusals := [], [], 0;
    }

    method Append(ep: Episode) returns (err: WriteError)
      modifies this
      ensures rows == if err.NoError? then old(rows) + [ep] else old(rows)
      ensures answers == old(answers) + [err]
      ensures refusals == old(refusals) + if err.NoError? then 0 else 1
    {
      err := *;
      if err.NoError? {
        rows := rows + [ep];
      }
      answers, refusals := answers + [err], refusals + if err.NoError? then 0 else 1;
    }
  }

  class FileWAL {
    const codec: Codec
    // On disk.
    var data: seq<byte>
    var created: bool
    var offset: nat
    // In the process.
    var depth: int
    var handle: bool
    var signalled: bool
    // History.
    ghost var trace: seq<Event>
    ghost var log: Log

    ghost predicate Tracks()
      reads this
    {
      && Legal(codec, trace)
      && log == Exec(codec, trace)
      && log.data == data
      && log.offset == offset
      && log.depth == depth
    }

    ghost predicate Valid()
      reads this
    {
      && Tracks()
      && log.pc.Idle?
      && depth >= 0
      && (!created ==> data == [] && offset == 0 && !handle)
    }

    ghost method Emit(e: Event)
      requires Legal(codec, trace) && log == Exec(codec, trace)
      requires Enabled(codec, log, e)
      modifies this`trace, this`log
      ensures Legal(codec, trace) && log == Exec(codec, trace)
      ensures trace == old(trace) + [e]
      ensures log == Next(codec, old(log), e)
    {
      LegalSnoc(codec, trace, e);
      trace := trace + [e];
      log := Next(codec, log, e);
    }

    /** Opens the log that an earlier process left behind, wherever it died. */
    constructor Open(codec: Codec, ghost past: seq<Event>, data: seq<byte>, created: bool, offset: nat)
      requires Legal(codec, past)
      requires data == Exec(codec, past).data && offset == Exec(codec, past).offset
      requires !created ==> data == [] && offset == 0
      ensures Valid()
      ensures trace == past + [Die] && this.codec == codec
      ensures this.data == data && this.created == created && this.offset == offset
      ensures depth == |Pending(log)|
    {
      this.codec := codec;
      this.data := data;
      this.created := created;
      this.offset := offset;
      this.handle := false;
      this.signalled := false;
      this.depth := 0;
      trace := past;
      log := Exec(codec, past);
      new;
      var count := RecoverDepth();
      depth := count;
      Emit(Die);
    }

    /** Counts the LF-terminated lines past the offset. */
    method RecoverDepth() returns (count: nat)
      requires !created ==> data == []
      ensures count == |Lines(if offset <= |data| then data[offset..] else [])|
    {
      count := 0;
      if !created {
        return;
      }
      var rest := if offset <= |data| then data[offset..] else [];
      ghost var all := Lines(rest);
      while true
        invariant count + |Lines(rest)| == |all|
        decreases |rest|
      {
        var n := LineEnd(rest);
        if n == |rest| {
          break;
        }
        count := count + 1;
        rest := rest[n + 1..];
      }
    }

    /** A failed write or fsync: the next Enqueue gets a fresh handle. */
    method DiscardDataFile()
      requires Tracks() && log.pc.Written?
      modifies this`handle, this`trace, this`log
      ensures Tracks() && !handle
      ensures trace == old(trace) + [Leave]
      ensures log == Next(codec, old(log), Leave)
    {
      hide Exec, Legal;
      handle := false;
      Emit(Leave);
    }

    /** One write call on the append-only handle. */
    method WriteRecord(env: Environment, ep: Episode) returns (n: nat, fails: bool)
      requires Tracks() && log.pc.Idle?
      modifies this`data, this`trace, this`log, env
      ensures Tracks()
      ensures n <= |Record(codec, ep)|
      ensures data == old(data) + Record(codec, ep)[..n]
      ensures trace == old(trace) + [Write(ep, n)]
      ensures log == Next(codec, old(log), Write(ep, n))
      ensures n < |Record(codec, ep)| ==> fails
      ensures fails <==> env.failures != old(env.failures)
      ensures env.syncs == old(env.syncs)
    {
      hide Exec, Legal;
      var rec := Record(codec, ep);
      n := env.Landed(|rec|);
      fails := env.Fails();
      fails := fails || n < |rec|;
      data := data + rec[..n];
      Emit(Write(ep, n));
    }

    /** Opens the append-only handle if it is not open. */
    method OpenDataFile(env: Environment) returns (ok: bool)
      requires Valid()
      modifies this`handle, this`created, env
      ensures Valid() && (ok ==> handle) && (!ok ==> !handle)
      ensures old(created) ==> created
      ensures ok <==> env.failures == old(env.failures)
      ensures env.syncs == old(env.syncs)
    {
      hide Exec, Legal;
      if handle {
        return true;
      }
      var fails := env.Fails();
      if !fails {
        handle, created := true, true;
      }
      return !fails;
    }

    /** Appends one record; success exactly when no system call failed, and one fsync with it. landed is how much
        of the record reached the file; 0 if the file could not even be opened. */
    method Enqueue(env: Environment, ep: Episode) returns (ok: bool, ghost landed: nat)
      requires Valid()
      modifies this, env
      ensures Valid()
      ensures ok <==> env.failures == old(env.failures)
      ensures env.syncs == old(env.syncs) + if ok then 1 else 0
      ensures offset == old(offset) && log.delivered == old(log.delivered)
      ensures landed <= |Record(codec, ep)|
      ensures data == old(data) + Record(codec, ep)[..landed]
      ensures ok ==>
        && landed == |Record(codec, ep)|
        && trace == old(trace) + [Write(ep, landed)] + [Sync]
        && depth == old(depth) + 1
        && signalled
      ensures !ok ==>
        && depth == old(depth)
        && (trace == old(trace) || trace == old(trace) + [Write(ep, landed)] + [Leave])
        && (trace == old(trace) ==> landed == 0)
        && !handle
    {
      hide Exec, Legal, Lines, Tail, Pending, Unread;
      landed := 0;
      assert data + Record(codec, ep)[..0] == data;
      ok := OpenDataFile(env);
      if !ok {
        return;
      }
      var n, writeFails := WriteRecord(env, ep);
      landed := n;
      if writeFails {
        DiscardDataFile();
        return false, n;
      }
      var syncFails := env.FsyncFails();
      if syncFails {
        DiscardDataFile();
        return false, n;
      }
      depth := depth + 1;
      Emit(Sync);
      signalled := true;
      return true, n;
    }

    /** writeOffsetLocked: the rename either happens or the call gives up. */
    method WriteOffset(env: Environment, pos: nat, ghost e: Event) returns (ok: bool)
      requires Tracks() && (e.Commit? || e.Skip? || e.Reset?)
      requires Enabled(codec, log, e) && Next(codec, log, e).offset == pos
      modifies this`offset, this`trace, this`log, env
      ensures ok <==> env.failures == old(env.failures)
      ensures env.failures >= old(env.failures)
      ensures ok ==> log == Next(codec, old(log), e) && trace == old(trace) + [e]
      ensures !ok ==> log == Next(codec, old(log), Leave) && trace == old(trace) + [Leave]
      ensures Tracks()
    {
      hide Exec, Legal, Lines, Tail;
      var fails := env.Fails();
      if fails {
        Emit(Leave);
        return false;
      }
      offset := pos;
      Emit(e);
      return true;
    }

    method CountDown()
      requires Tracks() && log.pc.Moved?
      modifies this`depth, this`trace, this`log
      ensures Tracks()
      ensures trace == old(trace) + [Count]
      ensures log == Next(codec, old(log), Count)
    {
      hide Exec, Legal, Lines, Tail;
      depth := depth - 1;
      if depth < 0 {
        depth := 0;
      }
      Emit(Count);
    }

    /** compactLocked, called with everything drained. */
    method Compact(env: Environment)
      requires Tracks() && created && log.pc.Scanning? && offset >= |data|
      modifies this`data, this`offset, this`trace, this`log, env
      ensures Tracks() && log.pc.Idle?
      ensures Reads(old(trace), trace)
      ensures Pending(log) == Pending(old(log)) == []
      ensures log.written == old(log.written) && log.acknowledged == old(log.acknowledged)
      ensures log.delivered == old(log.delivered) && depth == old(depth)
      ensures env.failures >= old(env.failures)
      ensures env.failures == old(env.failures) ==> data == [] && offset == 0
    {
      hide Exec, Legal;
      NothingPastTheEnd(log);
      var truncateFails := env.Fails();
      if truncateFails {
        Emit(Leave);
        assert Pending(log) == [];
        return;
      }
      data := [];
      Emit(Truncate);
      var ok := WriteOffset(env, 0, Reset);
      NothingPastTheEnd(log);
    }

    /** The end of a clean Drain: compaction once the offset reached the file end. */
    method Finish(env: Environment, pos: nat)
      requires Tracks() && created && log.pc.Scanning? && pos == offset
      modifies this`data, this`offset, this`trace, this`log, env
      ensures Tracks() && log.pc.Idle?
      ensures Reads(old(trace), trace)
      ensures Pending(log) == Pending(old(log))
      ensures log.written == old(log.written) && log.acknowledged == old(log.acknowledged)
      ensures log.delivered == old(log.delivered) && depth == old(depth)
      ensures env.failures >= old(env.failures)
      ensures env.failures == old(env.failures) ==> offset < |data| || (data == [] && offset == 0)
    {
      hide Exec, Legal, Lines, Tail;
      var statFails := env.Fails();
      if !statFails && pos >= |data| {
        Compact(env);
      } else {
        Emit(Leave);
        assert Unread(log) == Unread(old(log));
      }
    }

    method Begin()
      requires Tracks() && log.pc.Idle?
      modifies this`trace, this`log
      ensures Tracks() && Reads(old(trace), trace)
      ensures log == old(log).(pc := Scanning)
      ensures Unread(log) == Unread(old(log))
    {
      hide Exec, Legal;
      Emit(StartDrain);
    }

    method GiveUp()
      requires Tracks() && log.pc.Scanning?
      modifies this`trace, this`log
      ensures Tracks() && Reads(old(trace), trace)
      ensures log == old(log).(pc := Idle)
      ensures Unread(log) == Unread(old(log))
    {
      hide Exec, Legal;
      Emit(Leave);
    }

    /** ctx.Err and read errors at the loop head. */
    method GoesOn(env: Environment, ghost was: Log, ghost m: nat) returns (ok: bool)
      requires Tracks() && Progress(codec, was, log, m)
      modifies this`trace, this`log, env
      ensures Tracks() && Reads(old(trace), trace)
      ensures ok <==> env.failures == old(env.failures)
      ensures env.failures >= old(env.failures)
      ensures ok ==> log == old(log)
      ensures !ok ==> log.pc.Idle? && Consumed(codec, was, log, m, [])
      ensures log.delivered == old(log).delivered
    {
      hide Exec, Legal, Lines, Tail, StampAll;
      var done := env.Fails();
      if done {
        GiveUp();
        ProgressIsConsumed(codec, was, old(log), m, log, []);
      }
      return !done;
    }

    /** A line that does not decode: the offset goes past it, or the call gives up. */
    method SkipLine(env: Environment, pos: nat, ghost was: Log, ghost m: nat) returns (ok: bool)
      requires Tracks() && was.depth >= 0 && Progress(codec, was, log, m)
      requires m < |Pending(was)| && codec.dec(Pending(was)[m]).None?
      requires pos == offset + |Pending(was)[m]| + 1
      modifies this`offset, this`depth, this`trace, this`log, env
      ensures Tracks() && Reads(old(trace), trace)
      ensures ok <==> env.failures == old(env.failures)
      ensures env.failures >= old(env.failures)
      ensures ok ==> offset == pos && Progress(codec, was, log, m + 1)
      ensures !ok ==> log.pc.Idle? && Consumed(codec, was, log, m, [])
      ensures log.delivered == old(log).delivered
    {
      hide Exec, Legal, Lines, Tail, StampAll, Consumed, Progress;
      ProgressHead(codec, was, log, m);
      ok := WriteOffset(env, pos, Skip);
      if ok {
        CountDown();
        StampAllNone();
        LineProgresses(codec, was, old(log), m, log, []);
      } else {
        ProgressIsConsumed(codec, was, old(log), m, log, []);
      }
    }

    /** A row: to the writer first, then the offset goes past it; either may fail. given is what
        the writer took. */
    method DeliverRow(env: Environment, writer: EpisodeAppender, row: Episode, pos: nat, ghost was: Log, ghost m: nat)
      returns (ok: bool, ghost given: seq<Episode>)
      requires Tracks() && was.depth >= 0 && Progress(codec, was, log, m)
      requires m < |Pending(was)| && codec.dec(Pending(was)[m]) == Some(row)
      requires pos == offset + |Pending(was)[m]| + 1
      modifies this`offset, this`depth, this`trace, this`log, writer, env
      ensures Tracks() && Reads(old(trace), trace)
      ensures ok <==> env.failures == old(env.failures) && writer.refusals == old(writer.refusals)
      ensures env.failures >= old(env.failures) && writer.refusals >= old(writer.refusals)
      ensures ok ==> offset == pos && Progress(codec, was, log, m + 1)
      ensures !ok ==> log.pc.Idle? && Consumed(codec, was, log, m, given)
      ensures writer.rows == old(writer.rows) + given && log.delivered == old(log).delivered + given
    {
      hide Exec, Legal, Lines, Tail, StampAll, Consumed, Progress;
      ProgressHead(codec, was, log, m);
      given := [];
      var err := writer.Append(Stamp(row));
      if !err.NoError? {
        Emit(Leave);
        ProgressIsConsumed(codec, was, old(log), m, log, given);
        return false, given;
      }
      given := [Stamp(row)];
      Emit(Hand);
      assert Unread(log) == Unread(old(log));
      ok := WriteOffset(env, pos, Commit);
      if ok {
        CountDown();
        StampOne(codec, Pending(was)[m], row);
        LineProgresses(codec, was, old(log), m, log, given);
      } else {
        ProgressIsConsumed(codec, was, old(log), m, log, given);
      }
    }

    /** One complete line. */
    method HandleLine(env: Environment, writer: EpisodeAppender, line: seq<byte>, ghost was: Log, ghost m: nat)
      returns (ok: bool, stored: bool, ghost given: seq<Episode>)
      requires Tracks() && was.depth >= 0 && Progress(codec, was, log, m)
      requires m < |Pending(was)| && Pending(was)[m] == line
      modifies this`offset, this`depth, this`trace, this`log, writer, env
      ensures Tracks() && Reads(old(trace), trace)
      ensures ok <==> env.failures == old(env.failures) && writer.refusals == old(writer.refusals)
      ensures env.failures >= old(env.failures) && writer.refusals >= old(writer.refusals)
      ensures ok ==> Progress(codec, was, log, m + 1) && stored == codec.dec(line).Some?
      ensures !ok ==> log.pc.Idle? && Consumed(codec, was, log, m, given)
      ensures writer.rows == old(writer.rows) + given && log.delivered == old(log).delivered + given
    {
      hide Exec, Legal, Lines, Tail, StampAll, Next, Enabled, Consumed;
      match codec.dec(line) {
        case None =>
          stored, given := false, [];
          ok := SkipLine(env, offset + |line| + 1, was, m);
        case Some(row) =>
          stored := true;
          ok, given := DeliverRow(env, writer, row, offset + |line| + 1, was, m);
      }
    }

    /** The loop of Drain. */
    method Scan(env: Environment, writer: EpisodeAppender, limit: nat, ghost was: Log)
      returns (drained: nat, ok: bool, ghost moved: nat, ghost extra: seq<Episode>)
      requires Tracks() && was.depth >= 0 && Progress(codec, was, log, 0)
      modifies this`offset, this`depth, this`trace, this`log, writer, env
      ensures Tracks() && Reads(old(trace), trace)
      ensures ok ==> Progress(codec, was, log, moved) && extra == []
      ensures !ok ==> log.pc.Idle? && Consumed(codec, was, log, moved, extra)
      ensures moved <= |Pending(was)| && drained == |Rows(codec, Pending(was)[..moved])|
      ensures old(log).delivered <= log.delivered
      ensures writer.rows == old(writer.rows) + log.delivered[|old(log).delivered|..]
      ensures ok ==> moved == OneBatch(codec, Pending(was), limit)
      ensures ok <==> env.failures == old(env.failures) && writer.refusals == old(writer.refusals)
      ensures env.failures >= old(env.failures) && writer.refusals >= old(writer.refusals)
      ensures drained <= limit
    {
      hide Exec, Legal, Lines, Tail, StampAll, Next, Enabled, OneBatch, Consumed, Progress, Rows, AtLine, Reads,
           Pending, LineEnd;
      drained, ok, moved, extra := 0, true, 0, [];
      AtFirstLine(codec, was, log, limit);
      ReadsNothing(trace);
      while drained < limit
        invariant Tracks() && Reads(old(trace), trace) && ok && extra == []
        invariant Progress(codec, was, log, moved) && AtLine(codec, was, log, moved, drained, limit)
        invariant old(log).delivered <= log.delivered && drained <= limit && moved <= |Pending(was)|
        invariant writer.rows == old(writer.rows) + log.delivered[|old(log).delivered|..]
        invariant env.failures == old(env.failures) && writer.refusals == old(writer.refusals)
        decreases |Pending(was)| - moved
      {
        AtLastLine(codec, was, log, moved, drained, limit);
        ghost var before := trace;
        ok := GoesOn(env, was, moved);
        ReadsOn(old(trace), before, trace);
        before := trace;
        if !ok {
          return;
        }
        var rest := if offset <= |data| then data[offset..] else [];
        NextLine(codec, was, log, moved, rest);
        var n := LineEnd(rest);
        if n == |rest| {
          break;
        }
        ghost var head := log;
        var stored;
        ghost var given;
        ok, stored, given := HandleLine(env, writer, rest[..n], was, moved);
        ReadsOn(old(trace), before, trace);
        SliceGrows(old(log).delivered, head.delivered, given);
        if !ok {
          extra := given;
          return;
        }
        AtNextLine(codec, was, head, log, moved, drained, limit);
        moved := moved + 1;
        if stored {
          drained := drained + 1;
        }
      }
      AtLastLine(codec, was, log, moved, drained, limit);
    }

    /** Reads lines from the offset on and hands each row to the writer, in order; stops at the
        first failure or after batch rows, and compacts once everything is drained. moved is the
        number of lines that the offset went past. */
    method Drain(env: Environment, writer: EpisodeAppender, batch: int)
      returns (drained: nat, ok: bool, ghost moved: nat, ghost extra: seq<Episode>)
      requires Valid()
      modifies this, writer, env
      ensures Valid() && Reads(old(trace), trace)
      ensures Consumed(codec, old(log), log, moved, extra)
      ensures drained == |Rows(codec, Pending(old(log))[..moved])|
      ensures writer.rows == old(writer.rows) + log.delivered[|old(log).delivered|..]
      ensures ok ==>
        && extra == []
        && moved == OneBatch(codec, Pending(old(log)), if batch <= 0 then DEFAULT_DRAIN_BATCH else batch)
        && drained <= (if batch <= 0 then DEFAULT_DRAIN_BATCH else batch)
        && writer.refusals == old(writer.refusals)
      ensures !ok ==> env.failures > old(env.failures) || writer.refusals > old(writer.refusals)
      ensures env.failures >= old(env.failures) && writer.refusals >= old(writer.refusals)
      ensures ok && env.failures == old(env.failures) ==> offset < |data| || (data == [] && offset == 0)
    {
      hide Exec, Legal, Lines, Tail, StampAll, Next, Enabled, OneBatch;
      var limit := if batch <= 0 then DEFAULT_DRAIN_BATCH else batch;
      ghost var was := log;
      assert Pending(was)[..0] == [] && Pending(was)[0..] == Pending(was);
      StampAllNone();
      var readFails := env.Fails();
      if readFails {
        return 0, false, 0, [];
      }
      if !created {
        NothingPastTheEnd(log);
        OneBatchNext(codec, Pending(was), 0, limit);
        return 0, true, 0, [];
      }
      Begin();
      var openFails := env.Fails();
      if openFails {
        GiveUp();
        return 0, false, 0, [];
      }
      drained, ok, moved, extra := Scan(env, writer, limit, was);
      if ok {
        Finish(env, offset);
      }
    }

    /** One wake-up of the flusher: Drain until it fails, stores nothing or the depth reads 0. */
    method FlushPass(env: Environment, writer: EpisodeAppender) returns (ok: bool, ghost moved: nat)
      requires Valid()
      modifies this, writer, env
      ensures Valid() && Reads(old(trace), trace)
      ensures moved <= |Pending(old(log))| && Pending(log) == Pending(old(log))[moved..]
      ensures log.written == old(log).written && log.acknowledged == old(log).acknowledged
      ensures ok ==> writer.refusals == old(writer.refusals)
      ensures !ok ==> env.failures > old(env.failures) || writer.refusals > old(writer.refusals)
      ensures env.failures >= old(env.failures) && writer.refusals >= old(writer.refusals)
      ensures env.failures == old(env.failures) && writer.refusals == old(writer.refusals) ==>
        && ok
        && moved == PassEnd(codec, Pending(old(log)), old(depth))
        && writer.rows == old(writer.rows) + StampAll(Rows(codec, Pending(old(log))[..moved]))
    {
      hide Exec, Legal, Lines, Tail, StampAll, Next, Enabled, OneBatch, PassEnd, Pending, Rows;
      ghost var lines := Pending(log);
      moved := 0;
      assert lines[0..] == lines && lines[..0] == [];
      NoRows(codec);
      var more := true;
      ok := true;
      while more
        invariant Valid() && Reads(old(trace), trace)
        invariant moved <= |lines| && Pending(log) == lines[moved..]
        invariant log.written == old(log).written && log.acknowledged == old(log).acknowledged
        invariant env.failures >= old(env.failures) && writer.refusals >= old(writer.refusals)
        invariant more ==> ok
        invariant if ok then writer.refusals == old(writer.refusals)
          else env.failures > old(env.failures) || writer.refusals > old(writer.refusals)
        invariant env.failures == old(env.failures) && writer.refusals == old(writer.refusals) ==>
          && ok
          && writer.rows == old(writer.rows) + StampAll(Rows(codec, lines[..moved]))
          && moved + (if more then PassEnd(codec, lines[moved..], depth) else 0) == PassEnd(codec, lines, old(depth))
        decreases |lines| - moved, more
      {
        var drained;
        ghost var was, m, extra := log, 0, [];
        ghost var stored := writer.rows;
        drained, ok, m, extra := Drain(env, writer, DEFAULT_DRAIN_BATCH);
        PassStep(codec, lines, moved, m, was.depth);
        if ok {
          Given(codec, was, log, m, stored, writer.rows);
        }
        moved := moved + m;
        more := ok && drained != 0 && depth != 0;
        assert more ==> m > 0 by {
          NoRows(codec);
          assert lines[moved - m..][..0] == [];
        }
      }
    }
  }
}
