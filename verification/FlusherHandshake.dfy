/** The Start/Stop handshake of the WAL flusher: any number of StartFlusher, Stop and Close
    callers, and the flusher goroutine, interleaved at every atomic operation. */
module FlusherHandshake {

  /** A caller of StartFlusher, or of stopAndWait (which Stop and Close share). */
  datatype Caller =
    | AtStart                // StartFlusher: about to enter flushOnce
    | PublishUp              // inside flushOnce: about to store flusherUp
    | CheckStopped           // about to load stopped
    | BailOut                // saw stopped: about to close doneCh
    | Launch                 // did not: about to start the goroutine
    | StartReturned
    | AtStop                 // stopAndWait: about to enter stopOnce
    | PublishStopped         // inside stopOnce: about to store stopped
    | CloseStop              // about to close stopCh
    | CheckUp                // about to load flusherUp
    | AwaitDone              // waiting on doneCh or the deadline
    | StopReturned(clean: bool)

  /** A sync.Once: the caller inside it, if any. */
  datatype Once = Fresh | Running(inside: nat) | Complete

  datatype Goroutine = NotStarted | Flushing | LastDrain | Closing | Exited

  datatype State = State(
    callers: seq<Caller>,
    flushOnce: Once,
    stopOnce: Once,
    flusherUp: bool,
    stopped: bool,
    stopClosed: bool,
    doneCloses: nat,
    goroutine: Goroutine)

  predicate Init(s: State) {
    && (forall c :: c in s.callers ==> c == AtStart || c == AtStop)
    && s == State(s.callers, Fresh, Fresh, false, false, false, 0, NotStarted)
  }

  /** Caller i takes its next atomic step. */
  predicate CallerStep(s: State, s': State, i: nat) {
    && i < |s.callers|
    && match s.callers[i]
       case AtStart =>
         || (s.flushOnce.Fresh? && s' == s.(flushOnce := Running(i), callers := s.callers[i := PublishUp]))
         || (s.flushOnce.Complete? && s' == s.(callers := s.callers[i := StartReturned]))
       case PublishUp => s' == s.(flusherUp := true, callers := s.callers[i := CheckStopped])
       case CheckStopped => s' == s.(callers := s.callers[i := if s.stopped then BailOut else Launch])
       case BailOut =>
         s' == s.(doneCloses := s.doneCloses + 1, flushOnce := Complete, callers := s.callers[i := StartReturned])
       case Launch =>
         s' == s.(goroutine := Flushing, flushOnce := Complete, callers := s.callers[i := StartReturned])
       case AtStop =>
         || (s.stopOnce.Fresh? && s' == s.(stopOnce := Running(i), callers := s.callers[i := PublishStopped]))
         || (s.stopOnce.Complete? && s' == s.(callers := s.callers[i := CheckUp]))
       case PublishStopped => s' == s.(stopped := true, callers := s.callers[i := CloseStop])
       case CloseStop => s' == s.(stopClosed := true, stopOnce := Complete, callers := s.callers[i := CheckUp])
       case CheckUp => s' == s.(callers := s.callers[i := if s.flusherUp then AwaitDone else StopReturned(true)])
       case AwaitDone =>
         || (s.doneCloses > 0 && s' == s.(callers := s.callers[i := StopReturned(true)]))
         || s' == s.(callers := s.callers[i := StopReturned(false)])  // the deadline
       case StartReturned => false
       case StopReturned(_) => false
  }

  predicate GoroutineStep(s: State, s': State) {
    match s.goroutine
    case Flushing => s' == s || (s.stopClosed && s' == s.(goroutine := LastDrain))
    case LastDrain => s' == s.(goroutine := Closing)
    case Closing => s' == s.(goroutine := Exited, doneCloses := s.doneCloses + 1)
    case NotStarted => false
    case Exited => false
  }

  ghost predicate Step(s: State, s': State) {
    GoroutineStep(s, s') || exists i: nat :: CallerStep(s, s', i)
  }

  ghost predicate Run(run: seq<State>) {
    && run != [] && Init(run[0])
    && forall k :: 0 < k < |run| ==> Step(run[k - 1], run[k])
  }

  predicate InFlushOnce(c: Caller) { c.PublishUp? || c.CheckStopped? || c.BailOut? || c.Launch? }
  predicate GoroutineLive(s: State) { s.goroutine.Flushing? || s.goroutine.LastDrain? || s.goroutine.Closing? }

  /** The caller that owns the future close of doneCh from inside flushOnce. */
  predicate Owes(c: Caller) { c.CheckStopped? || c.BailOut? || c.Launch? }

  ghost predicate Inv(s: State) {
    && (s.flushOnce.Running? ==> s.flushOnce.inside < |s.callers| && InFlushOnce(s.callers[s.flushOnce.inside]))
    && FlusherUpOk(s)
    && (s.stopOnce.Complete? ==> s.stopped && s.stopClosed)
    && forall i :: 0 <= i < |s.callers| ==> CallerOk(s, i)
  }

  /** What flusherUp and the closes of doneCh say about who is inside flushOnce. */
  predicate FlusherUpOk(s: State) {
    match s.flushOnce
    case Fresh => !s.flusherUp && s.doneCloses == 0 && s.goroutine.NotStarted?
    case Running(i) =>
      i < |s.callers| && s.doneCloses == 0 && s.goroutine.NotStarted? && (s.flusherUp <==> Owes(s.callers[i]))
    case Complete =>
      s.flusherUp && s.doneCloses == if GoroutineLive(s) then 0 else 1
  }

  predicate CallerOk(s: State, i: nat)
    requires i < |s.callers|
  {
    && (InFlushOnce(s.callers[i]) ==> s.flushOnce == Running(i))
    && (s.callers[i].BailOut? ==> s.stopped)
    && (s.callers[i].CloseStop? || s.callers[i].CheckUp? || s.callers[i].AwaitDone? ==> s.stopped)
    && (s.callers[i].CheckUp? || s.callers[i].AwaitDone? ==> s.stopOnce.Complete?)
    && (s.callers[i].CloseStop? ==> s.stopOnce == Running(i))
    && (s.callers[i].PublishStopped? ==> s.stopOnce == Running(i))
    && (s.callers[i].AwaitDone? ==> s.flusherUp)
    && (s.callers[i] == StopReturned(true) ==> Quiet(s))
  }

  /** No flusher runs and none can start: whoever is inside flushOnce will see stopped. */
  predicate Quiet(s: State) {
    && s.stopped
    && !GoroutineLive(s)
    && (s.flushOnce.Running? ==> s.flushOnce.inside < |s.callers| && !s.callers[s.flushOnce.inside].Launch?)
  }

  lemma InitInv(s: State)
    requires Init(s)
    ensures Inv(s)
  {
    assert forall i :: 0 <= i < |s.callers| ==> s.callers[i] in s.callers;
  }

  lemma GoroutineInv(s: State, s': State)
    requires Inv(s) && GoroutineStep(s, s')
    ensures Inv(s')
  {
    forall i | 0 <= i < |s'.callers|
      ensures CallerOk(s', i)
    {
      assert CallerOk(s, i);
    }
  }

  /** The caller that moves, and what its move does to the shared state. */
  lemma MoverOk(s: State, s': State, i: nat)
    requires Inv(s) && CallerStep(s, s', i)
    ensures i < |s'.callers| && CallerOk(s', i) && FlusherUpOk(s')
    ensures s'.flushOnce.Running? ==> s'.flushOnce.inside < |s'.callers| && InFlushOnce(s'.callers[s'.flushOnce.inside])
    ensures s'.stopOnce.Complete? ==> s'.stopped && s'.stopClosed
  {
    assert CallerOk(s, i);
  }

  lemma OtherOk(s: State, s': State, i: nat, j: nat)
    requires Inv(s) && CallerStep(s, s', i) && j < |s.callers| && j != i
    ensures j < |s'.callers| && s'.callers[j] == s.callers[j] && CallerOk(s', j)
  {
    assert CallerOk(s, i) && CallerOk(s, j);
  }

  lemma CallerInv(s: State, s': State, i: nat)
    requires Inv(s) && CallerStep(s, s', i)
    ensures Inv(s')
  {
    hide CallerOk, FlusherUpOk;
    MoverOk(s, s', i);
    forall j | 0 <= j < |s'.callers|
      ensures CallerOk(s', j)
    {
      if j != i {
        OtherOk(s, s', i, j);
      }
    }
  }

  lemma {:induction false} RunInv(run: seq<State>, k: nat)
    requires Run(run) && k < |run|
    ensures Inv(run[k])
  {
    if k == 0 {
      InitInv(run[0]);
    } else {
      RunInv(run, k - 1);
      assert Step(run[k - 1], run[k]);
      if GoroutineStep(run[k - 1], run[k]) {
        GoroutineInv(run[k - 1], run[k]);
      } else {
        var i: nat :| CallerStep(run[k - 1], run[k], i);
        CallerInv(run[k - 1], run[k], i);
      }
    }
  }

  /** In every interleaving doneCh is closed at most once. */
  lemma DoneClosedAtMostOnce(run: seq<State>, k: nat)
    requires Run(run) && k < |run|
    ensures run[k].doneCloses <= 1
  {
    RunInv(run, k);
  }

  lemma StepKeepsReturn(s: State, s': State, i: nat)
    requires Step(s, s') && i < |s.callers| && s.callers[i].StopReturned?
    ensures i < |s'.callers| && s'.callers[i] == s.callers[i]
  {
    if !GoroutineStep(s, s') {
      var n: nat :| CallerStep(s, s', n);
      assert n != i;
    }
  }

  lemma {:induction false} ReturnStays(run: seq<State>, j: nat, k: nat, i: nat)
    requires Run(run) && j <= k < |run| && i < |run[j].callers| && run[j].callers[i].StopReturned?
    ensures i < |run[k].callers| && run[k].callers[i] == run[j].callers[i]
  {
    hide Step, Init;
    if j < k {
      ReturnStays(run, j, k - 1, i);
      StepKeepsReturn(run[k - 1], run[k], i);
    }
  }

  /** Once some Stop or Close saw the flusher stopped, no flusher goroutine runs, then or ever after. */
  lemma NoFlusherAfterCleanStop(run: seq<State>, j: nat, k: nat, i: nat)
    requires Run(run) && j <= k < |run| && i < |run[j].callers| && run[j].callers[i] == StopReturned(true)
    ensures !GoroutineLive(run[k])
  {
    ReturnStays(run, j, k, i);
    RunInv(run, k);
    assert CallerOk(run[k], i);
  }

  /** A stopper that waits on doneCh never waits for nothing: the channel is closed, the
      goroutine that will close it is live and sees stopCh closed, or a starter still owes it. */
  lemma WaitersHaveAnOwner(run: seq<State>, k: nat, i: nat)
    requires Run(run) && k < |run| && i < |run[k].callers| && run[k].callers[i].AwaitDone?
    ensures var s := run[k];
      || s.doneCloses == 1
      || (GoroutineLive(s) && s.stopClosed)
      || (exists j :: 0 <= j < |s.callers| && Owes(s.callers[j]))
  {
    RunInv(run, k);
    assert CallerOk(run[k], i);
    assert run[k].flushOnce.Running? ==> Owes(run[k].callers[run[k].flushOnce.inside]);
  }

  /* ---- The wait ends ---- */

  /** A step of the goroutine, or of a starter that owes the close. */
  ghost predicate OwnerStep(s: State, s': State) {
    GoroutineStep(s, s') || exists i: nat :: i < |s.callers| && Owes(s.callers[i]) && CallerStep(s, s', i)
  }

  /** How many of these steps are left until doneCh is closed, when somebody waits. */
  function StepsLeft(s: State): nat {
    if s.doneCloses > 0 then 0
    else match s.goroutine
      case Flushing => 3
      case LastDrain => 2
      case Closing => 1
      case _ =>
        if s.flushOnce.Running? && s.flushOnce.inside < |s.callers| then
          match s.callers[s.flushOnce.inside]
          case CheckStopped => 2
          case BailOut => 1
          case _ => 4
        else 4
  }

  lemma OneCloser(s: State, i: nat) returns (s': State)
    requires Inv(s) && i < |s.callers| && s.callers[i].AwaitDone? && StepsLeft(s) > 0
    ensures OwnerStep(s, s') && Inv(s') && i < |s'.callers| && s'.callers[i].AwaitDone?
    ensures StepsLeft(s') == StepsLeft(s) - 1
  {
    assert CallerOk(s, i);
    if GoroutineLive(s) {
      match s.goroutine {
        case Flushing => s' := s.(goroutine := LastDrain);
        case LastDrain => s' := s.(goroutine := Closing);
        case Closing => s' := s.(goroutine := Exited, doneCloses := s.doneCloses + 1);
      }
      GoroutineInv(s, s');
    } else {
      var j := s.flushOnce.inside;
      match s.callers[j] {
        case CheckStopped => s' := s.(callers := s.callers[j := BailOut]);
        case BailOut =>
          s' := s.(doneCloses := s.doneCloses + 1, flushOnce := Complete, callers := s.callers[j := StartReturned]);
        case Launch => s' := s.(goroutine := Flushing, flushOnce := Complete, callers := s.callers[j := StartReturned]);
      }
      assert Owes(s.callers[j]) && CallerStep(s, s', j);
      CallerInv(s, s', j);
    }
  }

  ghost predicate OwnersMove(path: seq<State>) {
    forall k :: 0 < k < |path| ==> OwnerStep(path[k - 1], path[k])
  }

  lemma {:induction false} CloseFollows(s: State, i: nat) returns (path: seq<State>)
    requires Inv(s) && i < |s.callers| && s.callers[i].AwaitDone?
    ensures |path| == StepsLeft(s) + 1 && path[0] == s && OwnersMove(path)
    ensures var last := path[|path| - 1]; last.doneCloses > 0 && i < |last.callers| && last.callers[i].AwaitDone?
    decreases StepsLeft(s)
  {
    if StepsLeft(s) == 0 {
      path := [s];
    } else {
      var s' := OneCloser(s, i);
      var rest := CloseFollows(s', i);
      path := [s] + rest;
      assert forall k :: 0 < k < |path| ==> path[k] == rest[k - 1];
    }
  }

  /** From every reachable state in which somebody waits, at most four steps of the goroutine and of the starter
      that owes the close, and no step of anybody else, close doneCh; the one who waits can then return cleanly. */
  lemma WaitCanEnd(run: seq<State>, k: nat, i: nat) returns (path: seq<State>, last: State)
    requires Run(run) && k < |run| && i < |run[k].callers| && run[k].callers[i].AwaitDone?
    ensures 0 < |path| <= 5 && path[0] == run[k] && OwnersMove(path)
    ensures path[|path| - 1].doneCloses > 0
    ensures CallerStep(path[|path| - 1], last, i) && last.callers[i] == StopReturned(true)
  {
    RunInv(run, k);
    path := CloseFollows(run[k], i);
    var s := path[|path| - 1];
    last := s.(callers := s.callers[i := StopReturned(true)]);
  }

  /* ---- What StartFlusher is for ---- */

  /** Once a StartFlusher is through, the goroutine was started, or a stopper had been there first; and the
      goroutine flushes until stopCh is closed. */
  ghost predicate Serves(s: State) {
    && (forall i :: 0 <= i < |s.callers| && s.callers[i].StartReturned? ==> s.flushOnce.Complete?)
    && (s.flushOnce.Complete? ==> !s.goroutine.NotStarted? || s.stopped)
    && (s.goroutine.LastDrain? || s.goroutine.Closing? || s.goroutine.Exited? ==> s.stopClosed)
    && (s.stopClosed ==> s.stopped)
  }

  lemma ServesStep(s: State, s': State, i: nat)
    requires Inv(s) && Serves(s) && CallerStep(s, s', i)
    ensures Serves(s')
  {
    hide FlusherUpOk;
    assert CallerOk(s, i);
  }

  lemma {:induction false} RunServes(run: seq<State>, k: nat)
    requires Run(run) && k < |run|
    ensures Serves(run[k])
  {
    if k == 0 {
      assert forall i :: 0 <= i < |run[0].callers| ==> run[0].callers[i] in run[0].callers;
    } else {
      RunServes(run, k - 1);
      RunInv(run, k - 1);
      assert Step(run[k - 1], run[k]);
      if !GoroutineStep(run[k - 1], run[k]) {
        var i: nat :| CallerStep(run[k - 1], run[k], i);
        ServesStep(run[k - 1], run[k], i);
      }
    }
  }

  /** Some StartFlusher returned and nobody has begun to stop: the flusher flushes. While stopCh is open it is in its
      loop or was never started because of a stopper. */
  lemma FlusherServes(run: seq<State>, k: nat, i: nat)
    requires Run(run) && k < |run| && i < |run[k].callers| && run[k].callers[i].StartReturned?
    ensures !run[k].stopped ==> run[k].goroutine.Flushing?
    ensures !run[k].stopClosed ==> run[k].goroutine.Flushing? || run[k].goroutine.NotStarted?
  {
    RunServes(run, k);
  }

  predicate Through(c: Caller) { c.StartReturned? || c.StopReturned? }

  /** Nobody is ever stuck: as long as some caller has not returned, some caller can move. */
  lemma NoDeadlock(run: seq<State>, k: nat, i: nat) returns (j: nat, s': State)
    requires Run(run) && k < |run| && i < |run[k].callers| && !Through(run[k].callers[i])
    ensures CallerStep(run[k], s', j) && s'.callers[j] != run[k].callers[j]
  {
    RunInv(run, k);
    RunStops(run, k);
    var s := run[k];
    j := i;
    if s.callers[i].AtStart? && s.flushOnce.Running? {
      j := s.flushOnce.inside;
    } else if s.callers[i].AtStop? && s.stopOnce.Running? {
      j := s.stopOnce.inside;
    }
    s' := Moved(s, j);
  }

  predicate InStopOnce(c: Caller) { c.PublishStopped? || c.CloseStop? }

  /** Whoever runs stopOnce is inside it. */
  predicate StopsOk(s: State) {
    s.stopOnce.Running? ==> s.stopOnce.inside < |s.callers| && InStopOnce(s.callers[s.stopOnce.inside])
  }

  lemma StopsStep(s: State, s': State, i: nat)
    requires StopsOk(s) && i < |s.callers| && CallerOk(s, i) && CallerStep(s, s', i)
    ensures StopsOk(s')
  {
  }

  lemma {:induction false} RunStops(run: seq<State>, k: nat)
    requires Run(run) && k < |run|
    ensures StopsOk(run[k])
  {
    if k > 0 {
      RunStops(run, k - 1);
      RunInv(run, k - 1);
      assert Step(run[k - 1], run[k]);
      if !GoroutineStep(run[k - 1], run[k]) {
        var i: nat :| CallerStep(run[k - 1], run[k], i);
        assert i < |run[k - 1].callers|;
        hide CallerStep, StopsOk;
        StopsStep(run[k - 1], run[k], i);
      }
    }
  }

  /** One atomic step of caller j, which is not waiting for a Once. */
  function Moved(s: State, j: nat): State
    requires j < |s.callers| && !Through(s.callers[j])
    requires s.callers[j].AtStart? ==> !s.flushOnce.Running?
    requires s.callers[j].AtStop? ==> !s.stopOnce.Running?
    ensures CallerStep(s, Moved(s, j), j)
  {
    match s.callers[j]
    case AtStart =>
      if s.flushOnce.Fresh? then s.(flushOnce := Running(j), callers := s.callers[j := PublishUp])
      else s.(callers := s.callers[j := StartReturned])
    case PublishUp => s.(flusherUp := true, callers := s.callers[j := CheckStopped])
    case CheckStopped => s.(callers := s.callers[j := if s.stopped then BailOut else Launch])
    case BailOut => s.(doneCloses := s.doneCloses + 1, flushOnce := Complete, callers := s.callers[j := StartReturned])
    case Launch => s.(goroutine := Flushing, flushOnce := Complete, callers := s.callers[j := StartReturned])
    case AtStop =>
      if s.stopOnce.Fresh? then s.(stopOnce := Running(j), callers := s.callers[j := PublishStopped])
      else s.(callers := s.callers[j := CheckUp])
    case PublishStopped => s.(stopped := true, callers := s.callers[j := CloseStop])
    case CloseStop => s.(stopClosed := true, stopOnce := Complete, callers := s.callers[j := CheckUp])
    case CheckUp => s.(callers := s.callers[j := if s.flusherUp then AwaitDone else StopReturned(true)])
    case AwaitDone => s.(callers := s.callers[j := StopReturned(false)])
  }
}
