/** The sidecar's checkpoint cache: an ordered dictionary of loaded models, and the map of
    loads in flight that collapses concurrent misses into one load. */
module CheckpointCache {
  import opened Wrappers

  type Key = string
  type Model = int

  const LRU_CAPACITY: nat := 4

  /** An OrderedDict, oldest entry first. */
  type Entries = seq<(Key, Model)>

  function Find(entries: Entries, key: Key): (m: Option<Model>)
    ensures m.Some? <==> exists i :: 0 <= i < |entries| && entries[i].0 == key
    ensures m.Some? ==> (key, m.value) in entries
  {
    if entries == [] then None
    else if entries[0].0 == key then Some(entries[0].1)
    else Find(entries[1..], key)
  }

  function KeysOf(entries: Entries): (ks: seq<Key>)
    ensures |ks| == |entries|
    ensures forall i :: 0 <= i < |entries| ==> ks[i] == entries[i].0
  {
    seq(|entries|, i requires 0 <= i < |entries| => entries[i].0)
  }

  function Without<T(==, !new)>(xs: seq<T>, drop: T -> bool): (r: seq<T>)
    ensures forall x :: x in r <==> x in xs && !drop(x)
    ensures |r| <= |xs|
  {
    if xs == [] then [] else (if drop(xs[0]) then [] else [xs[0]]) + Without(xs[1..], drop)
  }

  function Has(key: Key): ((Key, Model)) -> bool { (e: (Key, Model)) => e.0 == key }
  function Is(key: Key): Key -> bool { k => k == key }

  /** Stores or refreshes key and makes it the newest entry. */
  function Touch(entries: Entries, key: Key, model: Model): Entries {
    Without(entries, Has(key)) + [(key, model)]
  }

  function Newest<T>(xs: seq<T>, n: nat): (r: seq<T>)
    ensures |r| <= n
  {
    if |xs| > n then xs[|xs| - n..] else xs
  }

  /* ---- The critical sections, as the store runs them ---- */

  datatype Found = Hit(model: Model) | InFlight(ev: nat) | Lead(ev: nat)

  class ModelStore {
    var cache: Entries
    var pending: map<Key, nat>
    var nextEvent: nat

    constructor ()
      ensures cache == [] && pending == map[] && nextEvent == 0
    {
      cache, pending, nextEvent := [], map[], 0;
    }

    /** The store's fields are those of a machine state. */
    ghost predicate Shows(s: State)
      reads this
    {
      cache == s.cache && pending == s.pending && nextEvent == |s.owners|
    }

    /** One pass of the retry loop under the lock, for the machine's thread i. */
    method Lookup(key: Key, ghost s: State, ghost i: nat) returns (found: Found)
      requires Shows(s) && i < |s.threads| && s.threads[i] == Looking(key)
      modifies this
      ensures Shows(Next(s, i, Go)) && Next(s, i, Go).threads[i] == After(key, found)
      ensures match Find(old(cache), key)
        case Some(m) =>
          && found == Hit(m) && cache == Touch(old(cache), key, m)
          && pending == old(pending) && nextEvent == old(nextEvent)
        case None =>
          && cache == old(cache)
          && if key in old(pending)
             then found == InFlight(old(pending)[key]) && pending == old(pending) && nextEvent == old(nextEvent)
             else found == Lead(old(nextEvent)) && pending == old(pending)[key := old(nextEvent)]
                  && nextEvent == old(nextEvent) + 1
    {
      var cached := Find(cache, key);
      if cached.Some? {
        cache := Touch(cache, key, cached.value);
        return Hit(cached.value);
      }
      if key in pending {
        return InFlight(pending[key]);
      }
      var loadEvent := nextEvent;
      nextEvent := nextEvent + 1;
      pending := pending[key := loadEvent];
      return Lead(loadEvent);
    }

    /** Evicts from the old end. */
    method Evict()
      modifies this`cache
      ensures cache == Newest(old(cache), LRU_CAPACITY)
    {
      ghost var all := cache;
      while |cache| > LRU_CAPACITY
        invariant |cache| <= |all| && cache == all[|all| - |cache|..]
        invariant |all| <= LRU_CAPACITY ==> cache == all
        invariant |all| > LRU_CAPACITY ==> |cache| >= LRU_CAPACITY
      {
        cache := cache[1..];
      }
    }

    /** Stores a loaded model. */
    method Insert(key: Key, model: Model, ghost s: State, ghost i: nat)
      requires Shows(s) && i < |s.threads| && s.threads[i].Loaded?
      requires s.threads[i].key == key && s.threads[i].model == model
      modifies this`cache
      ensures Shows(Next(s, i, Go))
      ensures cache == Newest(Touch(old(cache), key, model), LRU_CAPACITY)
    {
      hide Touch, Newest;
      cache := Touch(cache, key, model);
      Evict();
    }

    /** The finally block under the lock. */
    method Clear(key: Key, ghost s: State, ghost i: nat)
      requires Shows(s) && i < |s.threads|
      requires (s.threads[i].Inserted? || s.threads[i].Failed?) && s.threads[i].key == key
      modifies this`pending
      ensures Shows(Next(s, i, Go))
      ensures pending == old(pending) - {key}
    {
      pending := pending - {key};
    }
  }

  /* ---- Threads ---- */

  /** Where a request thread is. The lock protects single steps; loading, waiting and setting
      the event happen outside it. */
  datatype Pc =
    | Ready
    | Fitted(key: Key, model: Model)                  // /train: version absent, about to save
    | Looking(key: Key)
    | Waiting(key: Key, ev: nat)
    | Loading(key: Key, ev: nat)
    | Loaded(key: Key, ev: nat, model: Model)
    | Inserted(key: Key, ev: nat, model: Model)
    | Failed(key: Key, ev: nat)
    | Cleared(key: Key, ev: nat, result: Option<Model>)
    | Returned(key: Key, model: Model)
    | Raised(key: Key)
    | NotFound(key: Key)

  /** Where one pass of the retry loop leaves its thread. */
  function After(key: Key, found: Found): Pc {
    match found
    case Hit(m) => Returned(key, m)
    case InFlight(ev) => Waiting(key, ev)
    case Lead(ev) => Loading(key, ev)
  }

  datatype Act = Rank(key: Key) | Train(key: Key, model: Model) | Go | LoadFails

  /** owners[ev] is the thread that created event ev; uses lists every hit and insertion. */
  datatype State = State(
    disk: map<Key, Model>,
    cache: Entries,
    pending: map<Key, nat>,
    signalled: set<nat>,
    owners: seq<nat>,
    threads: seq<Pc>,
    uses: seq<Key>)

  predicate Init(s: State) {
    && s == State(s.disk, [], map[], {}, [], s.threads, [])
    && forall t :: t in s.threads ==> t == Ready
  }

  predicate Enabled(s: State, i: nat, act: Act) {
    && i < |s.threads|
    && match s.threads[i]
       case Ready => act.Rank? || act.Train?
       case Waiting(_, ev) => act.Go? && ev in s.signalled
       case Loading(key, _) => act.LoadFails? || (act.Go? && key in s.disk)
       case _ => act.Go?
  }

  function Moved(s: State, i: nat, pc: Pc): State
    requires i < |s.threads|
  {
    s.(threads := s.threads[i := pc])
  }

  function Next(s: State, i: nat, act: Act): State
    requires Enabled(s, i, act)
  {
    match s.threads[i]
    case Ready =>
      (match act
       case Rank(key) => Moved(s, i, if key in s.disk then Looking(key) else NotFound(key))
       case Train(key, model) => if key in s.disk then s else Moved(s, i, Fitted(key, model))
       case _ => s)
    case Fitted(key, model) => Moved(s, i, Ready).(disk := s.disk[key := model])
    case Looking(key) =>
      (match Find(s.cache, key)
       case Some(m) => Moved(s, i, Returned(key, m)).(cache := Touch(s.cache, key, m), uses := s.uses + [key])
       case None =>
         if key in s.pending then Moved(s, i, Waiting(key, s.pending[key]))
         else Moved(s, i, Loading(key, |s.owners|)).(pending := s.pending[key := |s.owners|], owners := s.owners + [i]))
    case Waiting(key, _) => Moved(s, i, Looking(key))
    case Loading(key, ev) =>
      if act.LoadFails? then Moved(s, i, Failed(key, ev)) else Moved(s, i, Loaded(key, ev, s.disk[key]))
    case Loaded(key, ev, m) =>
      Moved(s, i, Inserted(key, ev, m)).(cache := Newest(Touch(s.cache, key, m), LRU_CAPACITY), uses := s.uses + [key])
    case Inserted(key, ev, m) => Moved(s, i, Cleared(key, ev, Some(m))).(pending := s.pending - {key})
    case Failed(key, ev) => Moved(s, i, Cleared(key, ev, None)).(pending := s.pending - {key})
    case Cleared(key, ev, result) =>
      Moved(s, i, match result case Some(m) => Returned(key, m) case None => Raised(key))
        .(signalled := s.signalled + {ev})
    case Returned(_, _) => Moved(s, i, Ready)
    case Raised(_) => Moved(s, i, Ready)
    case NotFound(_) => Moved(s, i, Ready)
  }

  ghost predicate Step(s: State, s': State) {
    exists i: nat, act :: Enabled(s, i, act) && s' == Next(s, i, act)
  }

  ghost predicate Run(run: seq<State>) {
    && run != [] && Init(run[0])
    && forall k :: 0 < k < |run| ==> Step(run[k - 1], run[k])
  }

  /* ---- One load per key, and no lost wake-up ---- */

  /** Between claiming leadership and clearing the pending entry. */
  predicate Leads(t: Pc, key: Key, ev: nat) {
    match t
    case Loading(k, e) => k == key && e == ev
    case Loaded(k, e, _) => k == key && e == ev
    case Inserted(k, e, _) => k == key && e == ev
    case Failed(k, e) => k == key && e == ev
    case _ => false
  }

  /** Between claiming leadership and setting the event. */
  predicate WillSignal(t: Pc, ev: nat) {
    match t
    case Loading(_, e) => e == ev
    case Loaded(_, e, _) => e == ev
    case Inserted(_, e, _) => e == ev
    case Failed(_, e) => e == ev
    case Cleared(_, e, _) => e == ev
    case _ => false
  }

  predicate EntryOk(s: State, key: Key)
    requires key in s.pending
  {
    var ev := s.pending[key];
    ev < |s.owners| && s.owners[ev] < |s.threads| && Leads(s.threads[s.owners[ev]], key, ev)
  }

  predicate ThreadOk(s: State, i: nat)
    requires i < |s.threads|
  {
    match s.threads[i]
    case Loading(key, ev) => key in s.pending && s.pending[key] == ev && Owned(s, i, ev)
    case Loaded(key, ev, _) => key in s.pending && s.pending[key] == ev && Owned(s, i, ev)
    case Inserted(key, ev, _) => key in s.pending && s.pending[key] == ev && Owned(s, i, ev)
    case Failed(key, ev) => key in s.pending && s.pending[key] == ev && Owned(s, i, ev)
    case Cleared(_, ev, _) => Owned(s, i, ev)
    case Waiting(_, ev) => ev < |s.owners| && WakesUp(s, ev)
    case _ => true
  }

  predicate Owned(s: State, i: nat, ev: nat) {
    ev < |s.owners| && s.owners[ev] == i && ev !in s.signalled
  }

  predicate WakesUp(s: State, ev: nat)
    requires ev < |s.owners|
  {
    ev in s.signalled || (s.owners[ev] < |s.threads| && WillSignal(s.threads[s.owners[ev]], ev))
  }

  ghost predicate Inv(s: State) {
    && (forall ev :: ev in s.signalled ==> ev < |s.owners|)
    && (forall key :: key in s.pending ==> EntryOk(s, key))
    && (forall i :: 0 <= i < |s.threads| ==> ThreadOk(s, i))
  }

  /** Events and ownership only grow, and only thread i moves. */
  lemma NextFrame(s: State, i: nat, act: Act)
    requires Enabled(s, i, act)
    ensures var s' := Next(s, i, act);
      && s.signalled <= s'.signalled
      && s.owners <= s'.owners
      && s'.threads == s.threads[i := s'.threads[i]]
      && |s'.threads| == |s.threads|
  {
    hide Find, Touch, Newest;
  }

  lemma LeaderMoves(s: State, i: nat, act: Act, ev: nat)
    requires Enabled(s, i, act) && WillSignal(s.threads[i], ev)
    ensures |Next(s, i, act).threads| == |s.threads|
    ensures WillSignal(Next(s, i, act).threads[i], ev) || ev in Next(s, i, act).signalled
    ensures forall key :: key in Next(s, i, act).pending && Leads(s.threads[i], key, ev) ==>
      Leads(Next(s, i, act).threads[i], key, ev)
  {
    hide Find, Touch, Newest;
  }

  lemma PendingMoves(s: State, i: nat, act: Act, key: Key)
    requires Enabled(s, i, act) && key in Next(s, i, act).pending
    ensures var s' := Next(s, i, act);
      || (key in s.pending && s'.pending[key] == s.pending[key])
      || (s'.pending[key] == |s.owners| && s'.owners == s.owners + [i] && |s'.threads| == |s.threads|
          && s'.threads[i] == Loading(key, |s.owners|))
  {
    hide Find, Touch, Newest;
  }

  lemma EntryStep(s: State, i: nat, act: Act, key: Key)
    requires Inv(s) && Enabled(s, i, act) && key in Next(s, i, act).pending
    ensures EntryOk(Next(s, i, act), key)
  {
    hide Next, ThreadOk;
    NextFrame(s, i, act);
    PendingMoves(s, i, act, key);
    if key in s.pending {
      assert EntryOk(s, key);
      var ev := s.pending[key];
      if s.owners[ev] == i {
        LeaderMoves(s, i, act, ev);
      }
    }
  }

  lemma MovedThreadOk(s: State, i: nat, act: Act)
    requires Inv(s) && Enabled(s, i, act)
    ensures ThreadOk(Next(s, i, act), i)
  {
    hide Find, Touch, Newest;
    assert ThreadOk(s, i);
    if s.threads[i].Looking? && s.threads[i].key in s.pending {
      assert EntryOk(s, s.threads[i].key);
    }
  }

  /** An event that was going to be set still is. */
  lemma WakesStep(s: State, i: nat, act: Act, ev: nat)
    requires Enabled(s, i, act) && ev < |s.owners| && WakesUp(s, ev)
    ensures ev < |Next(s, i, act).owners| && WakesUp(Next(s, i, act), ev)
  {
    hide Next;
    NextFrame(s, i, act);
    if ev !in s.signalled && s.owners[ev] == i {
      LeaderMoves(s, i, act, ev);
    }
  }

  /** A leader's ownership and pending entry survive the steps of other threads. */
  lemma OwnedStep(s: State, i: nat, act: Act, j: nat, ev: nat)
    requires Enabled(s, i, act) && ThreadOk(s, i) && j != i && Owned(s, j, ev)
    ensures Owned(Next(s, i, act), j, ev)
    ensures forall key :: key in s.pending && s.pending[key] == ev ==>
      key in Next(s, i, act).pending && Next(s, i, act).pending[key] == ev
  {
    hide Find, Touch, Newest;
  }

  lemma OtherThreadOk(s: State, i: nat, act: Act, j: nat)
    requires Inv(s) && Enabled(s, i, act) && j < |s.threads| && j != i
    ensures ThreadOk(Next(s, i, act), j)
  {
    hide Find, Touch, Newest, WakesUp;
    assert ThreadOk(s, i) && ThreadOk(s, j);
    assert Next(s, i, act).threads[j] == s.threads[j];
    match s.threads[j]
    case Waiting(_, ev) => WakesStep(s, i, act, ev);
    case Loading(_, ev) => OwnedStep(s, i, act, j, ev);
    case Loaded(_, ev, _) => OwnedStep(s, i, act, j, ev);
    case Inserted(_, ev, _) => OwnedStep(s, i, act, j, ev);
    case Failed(_, ev) => OwnedStep(s, i, act, j, ev);
    case Cleared(_, ev, _) => OwnedStep(s, i, act, j, ev);
    case _ =>
  }

  lemma InvStep(s: State, i: nat, act: Act)
    requires Inv(s) && Enabled(s, i, act)
    ensures Inv(Next(s, i, act))
  {
    var s' := Next(s, i, act);
    forall key | key in s'.pending
      ensures EntryOk(s', key)
    {
      EntryStep(s, i, act, key);
    }
    forall j | 0 <= j < |s'.threads|
      ensures ThreadOk(s', j)
    {
      if j == i {
        MovedThreadOk(s, i, act);
      } else {
        OtherThreadOk(s, i, act, j);
      }
    }
    assert ThreadOk(s, i);
  }

  lemma {:induction false} RunInv(run: seq<State>, k: nat)
    requires Run(run) && k < |run|
    ensures Inv(run[k])
  {
    hide Enabled, Next;
    if k == 0 {
      assert forall i :: 0 <= i < |run[0].threads| ==> run[0].threads[i] in run[0].threads;
    } else {
      RunInv(run, k - 1);
      assert Step(run[k - 1], run[k]);
      var i: nat, act :| Enabled(run[k - 1], i, act) && run[k] == Next(run[k - 1], i, act);
      InvStep(run[k - 1], i, act);
    }
  }

  /** At most one thread is loading a given key. */
  lemma OneLoadPerKey(run: seq<State>, n: nat, i: nat, j: nat, key: Key, ev: nat, ev': nat)
    requires Run(run) && n < |run| && i < |run[n].threads| && j < |run[n].threads|
    requires Leads(run[n].threads[i], key, ev) && Leads(run[n].threads[j], key, ev')
    ensures i == j
  {
    RunInv(run, n);
    assert ThreadOk(run[n], i) && ThreadOk(run[n], j);
  }

  /** A pending entry exists exactly while its leader is between claiming and clearing it. */
  lemma PendingWhileLoading(run: seq<State>, n: nat, key: Key)
    requires Run(run) && n < |run|
    ensures key in run[n].pending <==>
      exists i, ev :: 0 <= i < |run[n].threads| && Leads(run[n].threads[i], key, ev)
  {
    RunInv(run, n);
    var s := run[n];
    if key in s.pending {
      assert EntryOk(s, key);
      assert Leads(s.threads[s.owners[s.pending[key]]], key, s.pending[key]);
    }
    forall i, ev | 0 <= i < |s.threads| && Leads(s.threads[i], key, ev)
      ensures key in s.pending
    {
      assert ThreadOk(s, i);
    }
  }

  /** A waiting thread's event is set, or some thread is on its way to setting it, also when
      loads raise. */
  lemma NoLostWakeup(run: seq<State>, n: nat, i: nat)
    requires Run(run) && n < |run| && i < |run[n].threads| && run[n].threads[i].Waiting?
    ensures var ev := run[n].threads[i].ev;
      ev in run[n].signalled || exists j :: 0 <= j < |run[n].threads| && WillSignal(run[n].threads[j], ev)
  {
    RunInv(run, n);
    assert ThreadOk(run[n], i);
    var ev := run[n].threads[i].ev;
    if ev !in run[n].signalled {
      assert WillSignal(run[n].threads[run[n].owners[ev]], ev);
    }
  }
}
