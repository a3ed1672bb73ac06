/** What becomes of one request to the checkpoint cache: what each answer means, and that an answer can always
    be reached. */
module CheckpointRequests {
  import opened CheckpointCache
  import opened Wrappers

  /** The checkpoint a thread is asked for. */
  function KeyOf(t: Pc): Option<Key> {
    match t
    case Ready => None
    case Fitted(_, _) => None
    case Looking(key) => Some(key)
    case Waiting(key, _) => Some(key)
    case Loading(key, _) => Some(key)
    case Loaded(key, _, _) => Some(key)
    case Inserted(key, _, _) => Some(key)
    case Failed(key, _) => Some(key)
    case Cleared(key, _, _) => Some(key)
    case Returned(key, _) => Some(key)
    case Raised(key) => Some(key)
    case NotFound(key) => Some(key)
  }

  /* ---- What an answer means ---- */

  /** Thread i was idle in state k and took a request for key, which it is still busy with in state n. */
  ghost predicate Asked(run: seq<State>, k: nat, n: nat, i: nat, key: Key) {
    && k < n < |run| && i < |run[k].threads| && run[k].threads[i] == Ready
    && run[k + 1] == Next(run[k], i, Rank(key))
    && forall j :: k < j <= n ==> i < |run[j].threads| && run[j].threads[i] != Ready
  }

  /** Thread i's own load of key raised in state j. */
  ghost predicate LoadRaised(run: seq<State>, j: nat, i: nat, key: Key) {
    && j + 1 < |run| && i < |run[j].threads|
    && run[j].threads[i].Loading? && run[j].threads[i].key == key
    && run[j + 1] == Next(run[j], i, LoadFails)
  }

  /** key's checkpoint was m at some time up to state n. */
  ghost predicate WasStored(run: seq<State>, n: nat, key: Key, m: Model) {
    exists j :: 0 <= j <= n < |run| && key in run[j].disk && run[j].disk[key] == m
  }

  predicate OnItsWayToRaise(t: Pc) { t.Failed? || (t.Cleared? && t.result.None?) || t.Raised? }

  /** What a thread in this state says about its past since state k. */
  ghost predicate Explained(run: seq<State>, k: nat, n: nat, i: nat) {
    && n < |run| && i < |run[n].threads| && KeyOf(run[n].threads[i]).Some?
    && var t, key := run[n].threads[i], KeyOf(run[n].threads[i]).value;
    && Asked(run, k, n, i, key)
    && (t.NotFound? <==> key !in run[k].disk)
    && (OnItsWayToRaise(t) ==> exists j :: k < j < n && LoadRaised(run, j, i, key))
  }

  lemma OneStep(run: seq<State>, n: nat) returns (i: nat, act: Act)
    requires Run(run) && 0 < n < |run|
    ensures Enabled(run[n - 1], i, act) && run[n] == Next(run[n - 1], i, act)
  {
    assert Step(run[n - 1], run[n]);
    i, act :| Enabled(run[n - 1], i, act) && run[n] == Next(run[n - 1], i, act);
  }

  lemma ExplainedIdle(run: seq<State>, k: nat, n: nat, i: nat)
    requires n + 1 < |run| && Explained(run, k, n, i)
    requires i < |run[n + 1].threads| && run[n + 1].threads[i] == run[n].threads[i]
    ensures Explained(run, k, n + 1, i)
  {
    hide Next, LoadRaised;
    var key := KeyOf(run[n].threads[i]).value;
    if OnItsWayToRaise(run[n].threads[i]) {
      var j :| k < j < n && LoadRaised(run, j, i, key);
      assert k < j < n + 1;
    }
  }

  /** A busy thread keeps its key until it is idle, and heads for an error only by a load that raises. */
  lemma BusyStep(s: State, i: nat, act: Act)
    requires Enabled(s, i, act) && KeyOf(s.threads[i]).Some?
    ensures |Next(s, i, act).threads| == |s.threads|
    ensures var t, t' := s.threads[i], Next(s, i, act).threads[i];
      && (KeyOf(t') == KeyOf(t) || t' == Ready) && !t'.NotFound?
      && (OnItsWayToRaise(t') && !OnItsWayToRaise(t) ==> t.Loading? && act == LoadFails)
  {
    hide Find, Touch, Newest;
  }

  /** A thread becomes busy with what it is asked for, and gives up at once exactly when there is none. */
  lemma IdleStep(s: State, i: nat, act: Act)
    requires Enabled(s, i, act) && KeyOf(s.threads[i]).None?
    ensures |Next(s, i, act).threads| == |s.threads|
    ensures var t, t' := s.threads[i], Next(s, i, act).threads[i];
      KeyOf(t').Some? ==>
        && t == Ready && act == Rank(KeyOf(t').value) && t' in [Looking(act.key), NotFound(act.key)]
        && (t'.NotFound? <==> act.key !in s.disk)
  {
  }

  lemma ExplainedStep(run: seq<State>, k: nat, n: nat, i: nat, act: Act)
    requires n + 1 < |run| && Explained(run, k, n, i)
    requires Enabled(run[n], i, act) && run[n + 1] == Next(run[n], i, act)
    requires i < |run[n + 1].threads| && KeyOf(run[n + 1].threads[i]).Some?
    ensures Explained(run, k, n + 1, i)
  {
    BusyStep(run[n], i, act);
    hide Next, Enabled;
    var t, t', key := run[n].threads[i], run[n + 1].threads[i], KeyOf(run[n].threads[i]).value;
    if OnItsWayToRaise(t') {
      if OnItsWayToRaise(t) {
        var j :| k < j < n && LoadRaised(run, j, i, key);
        assert k < j < n + 1;
      } else {
        assert LoadRaised(run, n, i, key);
      }
    }
  }

  lemma ExplainedStart(run: seq<State>, n: nat, i: nat, act: Act)
    requires n + 1 < |run| && Enabled(run[n], i, act) && run[n + 1] == Next(run[n], i, act)
    requires KeyOf(run[n].threads[i]).None?
    requires i < |run[n + 1].threads| && KeyOf(run[n + 1].threads[i]).Some?
    ensures Explained(run, n, n + 1, i)
  {
    IdleStep(run[n], i, act);
    hide Next, Enabled;
  }

  lemma StartsIdle(run: seq<State>, i: nat)
    requires Run(run) && i < |run[0].threads|
    ensures run[0].threads[i] == Ready
  {
    assert run[0].threads[i] in run[0].threads;
  }

  lemma {:induction false} RequestOf(run: seq<State>, n: nat, i: nat) returns (k: nat)
    requires Run(run) && n < |run| && i < |run[n].threads| && KeyOf(run[n].threads[i]).Some?
    ensures Explained(run, k, n, i)
  {
    hide Next, Enabled, Explained;
    if n == 0 {
      StartsIdle(run, i);
      assert false;
    } else {
      var j, act := OneStep(run, n);
      NextFrame(run[n - 1], j, act);
      if j != i {
        k := RequestOf(run, n - 1, i);
        ExplainedIdle(run, k, n - 1, i);
      } else if KeyOf(run[n - 1].threads[i]).Some? {
        k := RequestOf(run, n - 1, i);
        ExplainedStep(run, k, n - 1, i, act);
      } else {
        k := n - 1;
        ExplainedStart(run, n - 1, i, act);
      }
    }
  }

  /** Everything that a thread or the cache holds of a checkpoint was on disk. */
  ghost predicate AllStored(run: seq<State>, n: nat)
    requires n < |run|
  {
    && (forall e :: e in run[n].cache ==> WasStored(run, n, e.0, e.1))
    && (forall i :: 0 <= i < |run[n].threads| ==> HoldsStored(run, n, run[n].threads[i]))
  }

  ghost predicate HoldsStored(run: seq<State>, n: nat, t: Pc) {
    match t
    case Loaded(key, _, m) => WasStored(run, n, key, m)
    case Inserted(key, _, m) => WasStored(run, n, key, m)
    case Cleared(key, _, Some(m)) => WasStored(run, n, key, m)
    case Returned(key, m) => WasStored(run, n, key, m)
    case _ => true
  }

  lemma StillStored(run: seq<State>, n: nat, key: Key, m: Model)
    requires n + 1 < |run| && WasStored(run, n, key, m)
    ensures WasStored(run, n + 1, key, m)
  {
    var j :| 0 <= j <= n && key in run[j].disk && run[j].disk[key] == m;
    assert 0 <= j <= n + 1;
  }

  lemma CacheStored(run: seq<State>, n: nat, i: nat, act: Act, e: (Key, Model))
    requires n + 1 < |run| && AllStored(run, n)
    requires Enabled(run[n], i, act) && run[n + 1] == Next(run[n], i, act) && e in run[n + 1].cache
    ensures WasStored(run, n + 1, e.0, e.1)
  {
    hide WasStored, Without;
    assert HoldsStored(run, n, run[n].threads[i]);
    assert e in run[n].cache || run[n].threads[i].Loaded?;
    StillStored(run, n, e.0, e.1);
  }

  lemma ThreadStored(run: seq<State>, n: nat, i: nat, act: Act)
    requires n + 1 < |run| && AllStored(run, n)
    requires Enabled(run[n], i, act) && run[n + 1] == Next(run[n], i, act)
    ensures i < |run[n + 1].threads| && HoldsStored(run, n + 1, run[n + 1].threads[i])
  {
    hide Touch, Newest;
    var s, t := run[n], run[n].threads[i];
    assert HoldsStored(run, n, t);
    match t {
      case Looking(key) =>
        var found := Find(s.cache, key);
        if found.Some? {
          StillStored(run, n, key, found.value);
        }
      case Loading(key, _) =>
        if act == Go {
          assert WasStored(run, n + 1, key, s.disk[key]) by {
            assert 0 <= n <= n + 1 && key in run[n].disk;
          }
        }
      case Loaded(key, _, m) => StillStored(run, n, key, m);
      case Inserted(key, _, m) => StillStored(run, n, key, m);
      case Cleared(key, _, result) =>
        if result.Some? {
          StillStored(run, n, key, result.value);
        }
      case _ =>
    }
  }

  lemma OtherStored(run: seq<State>, n: nat, t: Pc)
    requires n + 1 < |run| && HoldsStored(run, n, t)
    ensures HoldsStored(run, n + 1, t)
  {
    hide WasStored;
    match t
    case Loaded(key, _, m) => StillStored(run, n, key, m);
    case Inserted(key, _, m) => StillStored(run, n, key, m);
    case Cleared(key, _, result) =>
      if result.Some? {
        StillStored(run, n, key, result.value);
      }
    case Returned(key, m) => StillStored(run, n, key, m);
    case _ =>
  }

  lemma ReadyHolds(run: seq<State>)
    ensures HoldsStored(run, 0, Ready)
  {
  }

  lemma {:induction false} StoredAlways(run: seq<State>, n: nat)
    requires Run(run) && n < |run|
    ensures AllStored(run, n)
  {
    hide Next, Enabled, HoldsStored, WasStored;
    if n == 0 {
      forall i | 0 <= i < |run[0].threads|
        ensures HoldsStored(run, 0, run[0].threads[i])
      {
        StartsIdle(run, i);
        ReadyHolds(run);
      }
    } else {
      StoredAlways(run, n - 1);
      var i, act := OneStep(run, n);
      NextFrame(run[n - 1], i, act);
      forall e | e in run[n].cache
        ensures WasStored(run, n, e.0, e.1)
      {
        CacheStored(run, n - 1, i, act, e);
      }
      ThreadStored(run, n - 1, i, act);
      forall j | 0 <= j < |run[n].threads|
        ensures HoldsStored(run, n, run[n].threads[j])
      {
        if j != i {
          OtherStored(run, n - 1, run[n - 1].threads[j]);
        }
      }
    }
  }

  /** Every answer of every run. A thread answers the request it took when it was last idle: not found exactly when
      there was no such checkpoint then; an error only if its own load raised since; and a model that was the
      checkpoint on disk at some time. */
  lemma AnswerMeans(run: seq<State>, n: nat, i: nat) returns (k: nat)
    requires Run(run) && n < |run| && i < |run[n].threads|
    requires run[n].threads[i].Returned? || run[n].threads[i].Raised? || run[n].threads[i].NotFound?
    ensures var t := run[n].threads[i];
      && Asked(run, k, n, i, t.key)
      && (t.NotFound? <==> t.key !in run[k].disk)
      && (t.Raised? ==> exists j :: k < j < n && LoadRaised(run, j, i, t.key))
      && (t.Returned? ==> WasStored(run, n, t.key, t.model))
  {
    hide Asked, LoadRaised, WasStored;
    k := RequestOf(run, n, i);
    StoredAlways(run, n);
    assert HoldsStored(run, n, run[n].threads[i]);
  }

  /* ---- Waking up ---- */

  /** A waiter whose event is set and whose checkpoint is cached returns the cached model with its next two steps. */
  lemma WokenIsServed(s: State, i: nat, key: Key, ev: nat, m: Model)
    requires i < |s.threads| && s.threads[i] == Waiting(key, ev) && ev in s.signalled && Find(s.cache, key) == Some(m)
    ensures Enabled(s, i, Go) && Enabled(Next(s, i, Go), i, Go)
    ensures var s' := Next(Next(s, i, Go), i, Go);
      && s'.threads == s.threads[i := Returned(key, m)] && s'.cache == Touch(s.cache, key, m)
      && s'.pending == s.pending && s'.signalled == s.signalled && s'.disk == s.disk
  {
    var s1 := Next(s, i, Go);
    assert s1.threads[i] == Looking(key) && s1.cache == s.cache;
    var s2 := Next(s1, i, Go);
    assert s2.threads == s.threads[i := Returned(key, m)];
  }

  /* ---- An answer can always be reached ---- */

  /** The threads that still look for a checkpoint find it on disk, and a waiter waits for a load of its own
      checkpoint. */
  predicate LooksOk(s: State, i: nat)
    requires i < |s.threads|
  {
    match s.threads[i]
    case Looking(key) => key in s.disk
    case Loading(key, _) => key in s.disk
    case Waiting(key, ev) =>
      && key in s.disk && ev < |s.owners|
      && (ev !in s.signalled ==> s.owners[ev] < |s.threads| && KeyOf(s.threads[s.owners[ev]]) == Some(key))
    case _ => true
  }

  ghost predicate AllLook(s: State) {
    forall i :: 0 <= i < |s.threads| ==> LooksOk(s, i)
  }

  lemma DiskGrows(s: State, i: nat, act: Act)
    requires Enabled(s, i, act)
    ensures forall key :: key in s.disk ==> key in Next(s, i, act).disk
  {
    hide Find, Touch, Newest;
  }

  lemma MoverLooks(s: State, i: nat, act: Act)
    requires Inv(s) && Enabled(s, i, act) && LooksOk(s, i)
    ensures i < |Next(s, i, act).threads| && LooksOk(Next(s, i, act), i)
  {
    hide Find, Touch, Newest, ThreadOk;
    if s.threads[i].Looking? && s.threads[i].key in s.pending {
      assert EntryOk(s, s.threads[i].key);
    }
  }

  /** The thread that will set an event keeps its key until it has set it. */
  lemma SignallerKeepsKey(s: State, i: nat, act: Act, ev: nat)
    requires Enabled(s, i, act) && WillSignal(s.threads[i], ev) && ev !in Next(s, i, act).signalled
    ensures |Next(s, i, act).threads| == |s.threads| && KeyOf(Next(s, i, act).threads[i]) == KeyOf(s.threads[i])
  {
    hide Find, Touch, Newest;
  }

  lemma OtherLooks(s: State, i: nat, act: Act, j: nat)
    requires Inv(s) && Enabled(s, i, act) && j < |s.threads| && j != i && LooksOk(s, j)
    ensures j < |Next(s, i, act).threads| && LooksOk(Next(s, i, act), j)
  {
    NextFrame(s, i, act);
    DiskGrows(s, i, act);
    assert ThreadOk(s, j);
    if s.threads[j].Waiting? {
      var ev := s.threads[j].ev;
      if ev !in Next(s, i, act).signalled && s.owners[ev] == i {
        SignallerKeepsKey(s, i, act, ev);
      }
    }
    hide Next, Enabled;
  }

  lemma LooksStep(s: State, i: nat, act: Act)
    requires Inv(s) && AllLook(s) && Enabled(s, i, act)
    ensures AllLook(Next(s, i, act))
  {
    NextFrame(s, i, act);
    MoverLooks(s, i, act);
    forall j | 0 <= j < |Next(s, i, act).threads|
      ensures LooksOk(Next(s, i, act), j)
    {
      if j != i {
        OtherLooks(s, i, act, j);
      }
    }
  }

  lemma {:induction false} LooksAlways(run: seq<State>, n: nat)
    requires Run(run) && n < |run|
    ensures AllLook(run[n])
  {
    hide Next, Enabled, LooksOk;
    if n == 0 {
      forall i | 0 <= i < |run[0].threads|
        ensures LooksOk(run[0], i)
      {
        StartsIdle(run, i);
        IdleLooks(run[0], i);
      }
    } else {
      LooksAlways(run, n - 1);
      RunInv(run, n - 1);
      var i, act := OneStep(run, n);
      LooksStep(run[n - 1], i, act);
    }
  }

  lemma IdleLooks(s: State, i: nat)
    requires i < |s.threads| && s.threads[i] == Ready
    ensures LooksOk(s, i)
  {
  }

  /** A busy thread that has not met an error. */
  predicate Hopeful(t: Pc) { KeyOf(t).Some? && !OnItsWayToRaise(t) && !t.NotFound? }

  /** How many steps a leader takes until it has set its event. */
  function ToSignal(t: Pc): nat {
    match t
    case Loading(_, _) => 4
    case Loaded(_, _, _) => 3
    case Inserted(_, _, _) => 2
    case Failed(_, _) => 2
    case Cleared(_, _, _) => 1
    case _ => 0
  }

  /** How many steps a thread that looks for key is from its answer: a hit, a wait for the load in flight and then
      a load of its own at worst, or a load of its own. */
  function ToAnswerLooking(s: State, key: Key): nat {
    if Find(s.cache, key).Some? then 1
    else if key in s.pending then
      if s.pending[key] < |s.owners| && s.owners[s.pending[key]] < |s.threads|
      then 7 + ToSignal(s.threads[s.owners[s.pending[key]]]) else 11
    else 5
  }

  function ToAnswer(s: State, i: nat): nat
    requires i < |s.threads|
  {
    match s.threads[i]
    case Looking(key) => ToAnswerLooking(s, key)
    case Waiting(key, ev) =>
      if ev in s.signalled || ev >= |s.owners| || s.owners[ev] >= |s.threads| then 1 + ToAnswerLooking(s, key)
      else if Leads(s.threads[s.owners[ev]], key, ev) then 6 + ToSignal(s.threads[s.owners[ev]])
      else 2 + ToAnswerLooking(s, key)
    case Loading(_, _) => 4
    case Loaded(_, _, _) => 3
    case Inserted(_, _, _) => 2
    case Cleared(_, _, _) => 1
    case _ => 0
  }

  /** A step of thread i, or of the one that will set the event i waits for; no load raises. */
  ghost predicate HelpStep(s: State, s': State, i: nat) {
    exists j: nat :: Enabled(s, j, Go) && s' == Next(s, j, Go) && Helps(s, i, j)
  }

  predicate Helps(s: State, i: nat, j: nat)
  {
    && i < |s.threads| && j < |s.threads|
    && (j == i || (s.threads[i].Waiting? && WillSignal(s.threads[j], s.threads[i].ev)))
  }

  /** The thread to move next. */
  function Helper(s: State, i: nat): nat
    requires i < |s.threads|
  {
    match s.threads[i]
    case Waiting(_, ev) => if ev in s.signalled || ev >= |s.owners| then i else s.owners[ev]
    case _ => i
  }

  lemma OwnHelp(s: State, i: nat)
    requires Inv(s) && i < |s.threads| && LooksOk(s, i)
    requires Hopeful(s.threads[i]) && !s.threads[i].Returned? && Helper(s, i) == i
    ensures Enabled(s, i, Go) && |Next(s, i, Go).threads| == |s.threads|
    ensures Hopeful(Next(s, i, Go).threads[i]) && ToAnswer(Next(s, i, Go), i) < ToAnswer(s, i)
  {
    hide Touch, Newest;
    assert ThreadOk(s, i);
    match s.threads[i]
    case Looking(key) =>
      if key in s.pending {
        assert EntryOk(s, key);
        assert ThreadOk(s, s.owners[s.pending[key]]);
      }
    case Waiting(key, _) =>
      if key in s.pending {
        assert EntryOk(s, key);
      }
    case _ =>
  }

  lemma LeaderHelp(s: State, i: nat)
    requires Inv(s) && AllLook(s) && i < |s.threads|
    requires Hopeful(s.threads[i]) && !s.threads[i].Returned? && Helper(s, i) != i
    ensures var j := Helper(s, i);
      && Helps(s, i, j) && Enabled(s, j, Go) && |Next(s, j, Go).threads| == |s.threads|
      && Next(s, j, Go).threads[i] == s.threads[i] && ToAnswer(Next(s, j, Go), i) < ToAnswer(s, i)
  {
    hide Touch, Newest;
    var j := Helper(s, i);
    var key := s.threads[i].key;
    assert ThreadOk(s, i) && LooksOk(s, i) && ThreadOk(s, j) && LooksOk(s, j);
    if key in s.pending {
      assert EntryOk(s, key);
    }
  }

  ghost predicate Helped(path: seq<State>, i: nat) {
    forall k :: 0 < k < |path| ==> HelpStep(path[k - 1], path[k], i)
  }

  lemma {:induction false} AnswerFollows(s: State, i: nat) returns (path: seq<State>)
    requires Inv(s) && AllLook(s) && i < |s.threads| && Hopeful(s.threads[i])
    ensures 0 < |path| <= ToAnswer(s, i) + 1 && path[0] == s && Helped(path, i)
    ensures var last := path[|path| - 1];
      i < |last.threads| && last.threads[i].Returned? && KeyOf(last.threads[i]) == KeyOf(s.threads[i])
    decreases ToAnswer(s, i)
  {
    hide Inv, AllLook, Next, Enabled, ToAnswer;
    if s.threads[i].Returned? {
      path := [s];
    } else {
      var j := Helper(s, i);
      if j == i {
        assert LooksOk(s, i) by {
          LooksOne(s, i);
        }
        OwnHelp(s, i);
        BusyStep(s, i, Go);
      } else {
        LeaderHelp(s, i);
      }
      var s' := Next(s, j, Go);
      InvStep(s, j, Go);
      LooksStep(s, j, Go);
      var rest := AnswerFollows(s', i);
      path := [s] + rest;
      assert Helps(s, i, j) && HelpStep(s, s', i);
      assert forall k :: 0 < k < |path| ==> path[k] == rest[k - 1];
    }
  }

  lemma LooksOne(s: State, i: nat)
    requires AllLook(s) && i < |s.threads|
    ensures LooksOk(s, i)
  {
  }

  lemma NeverFar(s: State, i: nat)
    requires i < |s.threads|
    ensures ToAnswer(s, i) <= 13
  {
  }

  /** From every reachable state, a request that has not met an error comes to its answer with at most thirteen
      steps of its own thread and of the leader it happens to wait for, and no step of anybody else. */
  lemma AnswerInReach(run: seq<State>, n: nat, i: nat) returns (path: seq<State>)
    requires Run(run) && n < |run| && i < |run[n].threads| && Hopeful(run[n].threads[i])
    ensures 0 < |path| <= 14 && path[0] == run[n] && Helped(path, i)
    ensures var last := path[|path| - 1];
      i < |last.threads| && last.threads[i].Returned? && KeyOf(last.threads[i]) == KeyOf(run[n].threads[i])
  {
    RunInv(run, n);
    LooksAlways(run, n);
    NeverFar(run[n], i);
    path := AnswerFollows(run[n], i);
  }

  /* ---- Training ---- */

  /** Thread i saves m under key in state j. */
  ghost predicate Saved(run: seq<State>, j: nat, i: nat, key: Key, m: Model) {
    && j + 1 < |run| && i < |run[j].threads| && run[j].threads[i] == Fitted(key, m)
    && run[j + 1] == Next(run[j], i, Go)
  }

  lemma DiskStep(s: State, i: nat, act: Act, key: Key)
    requires Enabled(s, i, act) && key in Next(s, i, act).disk
    ensures var m := Next(s, i, act).disk[key];
      || (key in s.disk && s.disk[key] == m)
      || (s.threads[i] == Fitted(key, m) && act == Go)
  {
    hide Find, Touch, Newest;
  }

  /** Every checkpoint on disk was there at the start or is what some thread saved last. */
  lemma {:induction false} StoredWasTrained(run: seq<State>, n: nat, key: Key)
    requires Run(run) && n < |run| && key in run[n].disk
    ensures
      || (key in run[0].disk && run[0].disk[key] == run[n].disk[key])
      || exists j, i :: 0 <= j < n && 0 <= i && Saved(run, j, i, key, run[n].disk[key])
  {
    hide Next, Enabled;
    if n > 0 {
      var i, act := OneStep(run, n);
      DiskStep(run[n - 1], i, act, key);
      if key in run[n - 1].disk && run[n - 1].disk[key] == run[n].disk[key] {
        StoredWasTrained(run, n - 1, key);
      } else {
        assert Saved(run, n - 1, i, key, run[n].disk[key]);
      }
    }
  }

  /** Thread i was asked in state k to train m under key, found no such checkpoint, and has been at it up to state n. */
  ghost predicate FoundAbsent(run: seq<State>, k: nat, n: nat, i: nat, key: Key, m: Model) {
    && k < n < |run| && i < |run[k].threads| && run[k].threads[i] == Ready && key !in run[k].disk
    && run[k + 1] == Next(run[k], i, Train(key, m))
    && forall j :: k < j <= n ==> i < |run[j].threads| && run[j].threads[i] == Fitted(key, m)
  }

  lemma FittedStep(s: State, i: nat, act: Act)
    requires Enabled(s, i, act) && i < |Next(s, i, act).threads| && Next(s, i, act).threads[i].Fitted?
    ensures var t := Next(s, i, act).threads[i];
      || (s.threads[i] == Ready && act == Train(t.key, t.model) && t.key !in s.disk)
  {
    hide Find, Touch, Newest;
  }

  /** Whoever is about to save a checkpoint was asked to train just that, and found none of that version. */
  lemma {:induction false} SaverFoundAbsent(run: seq<State>, n: nat, i: nat) returns (k: nat)
    requires Run(run) && n < |run| && i < |run[n].threads| && run[n].threads[i].Fitted?
    ensures FoundAbsent(run, k, n, i, run[n].threads[i].key, run[n].threads[i].model)
  {
    hide Next, Enabled;
    if n == 0 {
      StartsIdle(run, i);
      assert false;
    } else {
      var j, act := OneStep(run, n);
      NextFrame(run[n - 1], j, act);
      if j != i {
        k := SaverFoundAbsent(run, n - 1, i);
      } else {
        FittedStep(run[n - 1], i, act);
        k := n - 1;
      }
    }
  }

  /** Thread i alone, doing acts one after the other. */
  function Solo(s: State, i: nat, acts: seq<Act>): Option<State>
    decreases |acts|
  {
    if acts == [] then Some(s)
    else if Enabled(s, i, acts[0]) then Solo(Next(s, i, acts[0]), i, acts[1..])
    else None
  }

  lemma SoloStep(s: State, i: nat, act: Act, acts: seq<Act>)
    requires Enabled(s, i, act)
    ensures Solo(s, i, [act] + acts) == Solo(Next(s, i, act), i, acts)
  {
    assert ([act] + acts)[1..] == acts;
  }

  lemma SoloNone(s: State, i: nat)
    ensures Solo(s, i, []) == Some(s)
  {
  }

  /** A leader that nothing disturbs loads what is on disk, caches it as the newest entry and returns it. */
  lemma LoadsAlone(s: State, i: nat, key: Key)
    requires i < |s.threads| && s.threads[i] == Looking(key) && key in s.disk
    requires Find(s.cache, key).None? && key !in s.pending
    ensures var r := Solo(s, i, [Go] + ([Go] + ([Go] + ([Go] + ([Go] + [])))));
      && r.Some? && i < |r.value.threads| && r.value.threads[i] == Returned(key, s.disk[key])
      && r.value.cache == Newest(Touch(s.cache, key, s.disk[key]), LRU_CAPACITY)
      && r.value.disk == s.disk && r.value.pending == s.pending && r.value.signalled == s.signalled + {|s.owners|}
  {
    hide Find, Touch, Newest, Solo;
    var s1 := Next(s, i, Go);
    var s2 := Next(s1, i, Go);
    var s3 := Next(s2, i, Go);
    var s4 := Next(s3, i, Go);
    var s5 := Next(s4, i, Go);
    SoloStep(s, i, Go, [Go] + ([Go] + ([Go] + ([Go] + []))));
    SoloStep(s1, i, Go, [Go] + ([Go] + ([Go] + [])));
    SoloStep(s2, i, Go, [Go] + ([Go] + []));
    SoloStep(s3, i, Go, [Go] + []);
    SoloStep(s4, i, Go, []);
    SoloNone(s5, i);
    assert s4.pending == s.pending;
  }

  /** A leader whose load raised frees its key, wakes those who wait, and raises. */
  lemma FailureIsReported(s: State, i: nat, key: Key, ev: nat)
    requires i < |s.threads| && s.threads[i] == Loading(key, ev)
    ensures var r := Solo(s, i, [LoadFails] + ([Go] + ([Go] + [])));
      r == Some(s.(threads := s.threads[i := Raised(key)], pending := s.pending - {key},
                   signalled := s.signalled + {ev}))
  {
    hide Find, Touch, Newest, Solo;
    var s1 := Next(s, i, LoadFails);
    var s2 := Next(s1, i, Go);
    var s3 := Next(s2, i, Go);
    SoloStep(s, i, LoadFails, [Go] + ([Go] + []));
    SoloStep(s1, i, Go, [Go] + []);
    SoloStep(s2, i, Go, []);
    SoloNone(s3, i);
    assert s3.threads == s.threads[i := Raised(key)];
  }

  /** An answer is the end of a request: the thread goes idle and nothing else changes. */
  lemma AnswerEnds(s: State, i: nat)
    requires i < |s.threads| && (s.threads[i].Returned? || s.threads[i].Raised? || s.threads[i].NotFound?)
    ensures forall act :: Enabled(s, i, act) <==> act == Go
    ensures Next(s, i, Go) == s.(threads := s.threads[i := Ready])
  {
  }

  /** A thread that saves a checkpoint and is then asked to rank with it returns what it saved, when nobody holds
      another one of that version. */
  lemma TrainThenRank(s: State, i: nat, key: Key, m: Model)
    requires i < |s.threads| && s.threads[i] == Fitted(key, m)
    requires Find(s.cache, key).None? && key !in s.pending
    ensures var r := Solo(s, i, [Go] + ([Rank(key)] + ([Go] + ([Go] + ([Go] + ([Go] + ([Go] + [])))))));
      && r.Some? && i < |r.value.threads| && r.value.threads[i] == Returned(key, m)
      && r.value.disk == s.disk[key := m]
  {
    hide Find, Touch, Newest, Solo;
    var s1 := Next(s, i, Go);
    var s2 := Next(s1, i, Rank(key));
    SoloStep(s, i, Go, [Rank(key)] + ([Go] + ([Go] + ([Go] + ([Go] + ([Go] + []))))));
    SoloStep(s1, i, Rank(key), [Go] + ([Go] + ([Go] + ([Go] + ([Go] + [])))));
    LoadsAlone(s2, i, key);
  }
}
