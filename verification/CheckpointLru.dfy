/** The checkpoint cache as a cache: it holds the most recently used checkpoints, and what it
    returns is what is stored, as long as no checkpoint is ever overwritten. */
module CheckpointLru {
  import opened CheckpointCache
  import opened Sequences
  import opened Wrappers

  /* ---- Order and capacity ---- */

  /** The keys of a history of uses, each once, ordered by last use. */
  function ByLastUse(uses: seq<Key>): seq<Key> {
    if uses == [] then []
    else Without(ByLastUse(uses[..|uses| - 1]), Is(uses[|uses| - 1])) + [uses[|uses| - 1]]
  }

  function LastUse(uses: seq<Key>, key: Key): (i: nat)
    requires key in uses
    ensures i < |uses| && uses[i] == key
    ensures forall j :: i < j < |uses| ==> uses[j] != key
  {
    if uses[|uses| - 1] == key then |uses| - 1 else LastUse(uses[..|uses| - 1], key)
  }

  lemma {:induction false} WithoutConcat<T(!new)>(xs: seq<T>, ys: seq<T>, drop: T -> bool)
    ensures Without(xs + ys, drop) == Without(xs, drop) + Without(ys, drop)
  {
    if xs == [] {
      assert xs + ys == ys;
    } else {
      assert (xs + ys)[1..] == xs[1..] + ys;
      WithoutConcat(xs[1..], ys, drop);
    }
  }

  /** keys are used keys, strictly ordered by the position of their last use. */
  ghost predicate OrderedByUse(uses: seq<Key>, keys: seq<Key>) {
    && (forall key :: key in keys ==> key in uses)
    && forall i, j :: 0 <= i < j < |keys| ==> LastUse(uses, keys[i]) < LastUse(uses, keys[j])
  }

  lemma OrderedTail(uses: seq<Key>, keys: seq<Key>)
    requires keys != [] && OrderedByUse(uses, keys)
    ensures keys[0] in uses && OrderedByUse(uses, keys[1..])
    ensures forall key :: key in keys[1..] ==> LastUse(uses, keys[0]) < LastUse(uses, key)
  {
    assert forall i :: 0 <= i < |keys| - 1 ==> keys[1..][i] == keys[i + 1];
  }

  lemma OrderedCons(uses: seq<Key>, key: Key, keys: seq<Key>)
    requires key in uses && OrderedByUse(uses, keys)
    requires forall k :: k in keys ==> LastUse(uses, key) < LastUse(uses, k)
    ensures OrderedByUse(uses, [key] + keys)
  {
  }

  lemma {:induction false} WithoutOrdered(uses: seq<Key>, keys: seq<Key>, key: Key)
    requires OrderedByUse(uses, keys)
    ensures OrderedByUse(uses, Without(keys, Is(key)))
  {
    hide OrderedByUse, LastUse;
    if keys != [] {
      OrderedTail(uses, keys);
      WithoutOrdered(uses, keys[1..], key);
      var rest := Without(keys[1..], Is(key));
      if keys[0] == key {
        assert Without(keys, Is(key)) == rest;
      } else {
        OrderedCons(uses, keys[0], rest);
        assert Without(keys, Is(key)) == [keys[0]] + rest;
      }
    }
  }

  /** Using one more key moves only that key's last use. */
  lemma OrderedSnoc(uses: seq<Key>, keys: seq<Key>, last: Key)
    requires OrderedByUse(uses, keys) && last !in keys
    ensures OrderedByUse(uses + [last], keys + [last])
  {
    var longer := uses + [last];
    assert longer[..|uses|] == uses;
    forall i | 0 <= i < |keys|
      ensures keys[i] in longer && LastUse(longer, keys[i]) == LastUse(uses, keys[i])
    {
      assert keys[i] in keys;
    }
    assert LastUse(longer, last) == |uses|;
  }

  /** What ByLastUse means: the used keys, strictly ordered by the position of their last use. */
  lemma {:induction false} ByLastUseOrders(uses: seq<Key>)
    ensures OrderedByUse(uses, ByLastUse(uses))
    ensures forall key :: key in uses ==> key in ByLastUse(uses)
  {
    if uses != [] {
      var front, last := uses[..|uses| - 1], uses[|uses| - 1];
      ByLastUseOrders(front);
      assert uses == front + [last];
      WithoutOrdered(front, ByLastUse(front), last);
      OrderedSnoc(front, Without(ByLastUse(front), Is(last)), last);
    }
  }

  lemma ByLastUseDistinct(uses: seq<Key>)
    ensures Distinct(ByLastUse(uses))
  {
    ByLastUseOrders(uses);
    var r := ByLastUse(uses);
    assert forall i :: 0 <= i < |r| ==> r[i] in r;
  }

  lemma {:induction false} WithoutOne(xs: seq<Key>, key: Key)
    requires Distinct(xs)
    ensures |Without(xs, Is(key))| >= |xs| - 1
    ensures key !in xs ==> Without(xs, Is(key)) == xs
  {
    if xs != [] {
      assert xs[0] !in xs[1..];
      WithoutOne(xs[1..], key);
    }
  }

  lemma {:induction false} KeysWithout(entries: Entries, key: Key)
    ensures KeysOf(Without(entries, Has(key))) == Without(KeysOf(entries), Is(key))
  {
    if entries != [] {
      KeysWithout(entries[1..], key);
      assert KeysOf(entries)[1..] == KeysOf(entries[1..]);
    }
  }

  lemma KeysOfTouch(entries: Entries, key: Key, model: Model)
    ensures KeysOf(Touch(entries, key, model)) == Without(KeysOf(entries), Is(key)) + [key]
  {
    KeysWithout(entries, key);
  }

  lemma KeysOfNewest(entries: Entries, n: nat)
    ensures KeysOf(Newest(entries, n)) == Newest(KeysOf(entries), n)
  {
  }

  /** Using a key on the newest n of a list gives the newest n of using it on the list. */
  lemma UseOfNewest(all: seq<Key>, n: nat, key: Key)
    requires Distinct(all) && n > 0
    ensures Newest(Without(Newest(all, n), Is(key)) + [key], n) == Newest(Without(all, Is(key)) + [key], n)
  {
    if |all| > n {
      var older, kept := all[..|all| - n], all[|all| - n..];
      assert all == older + kept;
      WithoutConcat(older, kept, Is(key));
      WithoutOne(kept, key);
      hide Without, Distinct;
      var left, right := Without(older, Is(key)), Without(kept, Is(key)) + [key];
      assert Without(all, Is(key)) + [key] == left + right;
      NewestOfConcat(left, right, n);
    }
  }

  lemma NewestOfConcat(left: seq<Key>, right: seq<Key>, n: nat)
    requires |right| >= n
    ensures Newest(left + right, n) == Newest(right, n)
  {
  }

  /** The cache after a run: exactly the LRU_CAPACITY most recently used checkpoints, oldest
      use first. */
  ghost predicate IsLru(s: State) {
    KeysOf(s.cache) == Newest(ByLastUse(s.uses), LRU_CAPACITY)
  }

  lemma UseIsLru(cache: Entries, uses: seq<Key>, key: Key, model: Model)
    requires KeysOf(cache) == Newest(ByLastUse(uses), LRU_CAPACITY)
    ensures KeysOf(Newest(Touch(cache, key, model), LRU_CAPACITY)) == Newest(ByLastUse(uses + [key]), LRU_CAPACITY)
    ensures key in KeysOf(cache) ==> Newest(Touch(cache, key, model), LRU_CAPACITY) == Touch(cache, key, model)
  {
    ByLastUseDistinct(uses);
    assert (uses + [key])[..|uses|] == uses;
    KeysOfTouch(cache, key, model);
    KeysOfNewest(Touch(cache, key, model), LRU_CAPACITY);
    UseOfNewest(ByLastUse(uses), LRU_CAPACITY, key);
    if key in KeysOf(cache) {
      Shrinks(KeysOf(cache), key);
    }
  }

  lemma {:induction false} Shrinks(xs: seq<Key>, key: Key)
    requires key in xs
    ensures |Without(xs, Is(key))| < |xs|
  {
    if xs[0] != key {
      Shrinks(xs[1..], key);
    }
  }

  lemma LruStep(s: State, i: nat, act: Act)
    requires IsLru(s) && Enabled(s, i, act)
    ensures IsLru(Next(s, i, act))
  {
    hide Touch, Newest, ByLastUse;
    match s.threads[i]
    case Looking(key) =>
      if Find(s.cache, key).Some? {
        var j :| 0 <= j < |s.cache| && s.cache[j].0 == key;
        assert KeysOf(s.cache)[j] == key;
        UseIsLru(s.cache, s.uses, key, Find(s.cache, key).value);
      }
    case Loaded(key, _, m) => UseIsLru(s.cache, s.uses, key, m);
    case _ =>
  }

  lemma {:induction false} CacheIsLru(run: seq<State>, k: nat)
    requires Run(run) && k < |run|
    ensures IsLru(run[k]) && |run[k].cache| <= LRU_CAPACITY
  {
    hide Enabled, Next;
    if k > 0 {
      CacheIsLru(run, k - 1);
      assert Step(run[k - 1], run[k]);
      var i: nat, act :| Enabled(run[k - 1], i, act) && run[k] == Next(run[k - 1], i, act);
      LruStep(run[k - 1], i, act);
    }
    assert |KeysOf(run[k].cache)| == |run[k].cache|;
  }

  /* ---- Agreement with the plain load ---- */

  /** No step overwrites a stored checkpoint by a different one. */
  ghost predicate WriteOnce(run: seq<State>) {
    forall k :: 0 < k < |run| ==> DiskKept(run[k - 1], run[k])
  }

  ghost predicate DiskKept(s: State, s': State) {
    forall key :: key in s.disk ==> key in s'.disk && s'.disk[key] == s.disk[key]
  }

  predicate Stored(s: State, key: Key, model: Model) {
    key in s.disk && s.disk[key] == model
  }

  ghost predicate Agrees(s: State) {
    && (forall e :: e in s.cache ==> Stored(s, e.0, e.1))
    && (forall i :: 0 <= i < |s.threads| ==> ThreadAgrees(s, s.threads[i]))
  }

  predicate ThreadAgrees(s: State, t: Pc) {
    match t
    case Loaded(key, _, m) => Stored(s, key, m)
    case Inserted(key, _, m) => Stored(s, key, m)
    case Cleared(key, _, Some(m)) => Stored(s, key, m)
    case Returned(key, m) => Stored(s, key, m)
    case _ => true
  }

  lemma AgreesStep(s: State, i: nat, act: Act)
    requires Agrees(s) && Enabled(s, i, act)
    requires DiskKept(s, Next(s, i, act))
    ensures Agrees(Next(s, i, act))
  {
    var s' := Next(s, i, act);
    hide Find;
    assert ThreadAgrees(s, s.threads[i]);
    forall e | e in s'.cache
      ensures Stored(s', e.0, e.1)
    {
      assert e in s.cache || (s.threads[i].Looking? && Find(s.cache, e.0) == Some(e.1))
        || (s.threads[i].Loaded? && e == (s.threads[i].key, s.threads[i].model));
    }
    forall j | 0 <= j < |s'.threads|
      ensures ThreadAgrees(s', s'.threads[j])
    {
      assert ThreadAgrees(s, s.threads[j]);
    }
  }

  /** Interleaved with any saves that write a version at most once, load_checkpoint returns the
      model stored at the requested path, and so does every cache entry. */
  lemma {:induction false} LoadAgreesWithDisk(run: seq<State>, k: nat)
    requires Run(run) && WriteOnce(run) && k < |run|
    ensures Agrees(run[k])
    ensures forall i :: 0 <= i < |run[k].threads| && run[k].threads[i].Returned? ==>
      Stored(run[k], run[k].threads[i].key, run[k].threads[i].model)
  {
    hide Enabled, Next;
    if k == 0 {
      assert forall i :: 0 <= i < |run[0].threads| ==> run[0].threads[i] in run[0].threads;
    } else {
      LoadAgreesWithDisk(run, k - 1);
      assert Step(run[k - 1], run[k]);
      var i: nat, act :| Enabled(run[k - 1], i, act) && run[k] == Next(run[k - 1], i, act);
      AgreesStep(run[k - 1], i, act);
    }
    assert forall i :: 0 <= i < |run[k].threads| ==> ThreadAgrees(run[k], run[k].threads[i]);
  }

  /** The thread has loaded key and is on its way out with it. */
  predicate Carries(t: Pc, key: Key) {
    match t
    case Loaded(k, _, _) => k == key
    case Inserted(k, _, _) => k == key
    case Cleared(k, _, Some(_)) => k == key
    case Returned(k, _) => k == key
    case _ => false
  }

  /** Somebody can still answer with what was stored under key: it is among the most recently used
      checkpoints, or a thread is between loading and returning it. */
  predicate InUse(s: State, key: Key) {
    || key in Newest(ByLastUse(s.uses), LRU_CAPACITY)
    || exists i :: 0 <= i < |s.threads| && Carries(s.threads[i], key)
  }

  /** A save may not replace a different checkpoint that is in use. */
  predicate MaySave(s: State, key: Key, model: Model) {
    key in s.disk && s.disk[key] != model ==> !InUse(s, key)
  }

  lemma InUseHolds(s: State, key: Key)
    requires IsLru(s)
    ensures InUse(s, key) <==>
      || (exists e :: e in s.cache && e.0 == key)
      || (exists i :: 0 <= i < |s.threads| && Carries(s.threads[i], key))
  {
    if key in KeysOf(s.cache) {
      var j :| 0 <= j < |s.cache| && KeysOf(s.cache)[j] == key;
      assert s.cache[j] in s.cache;
    }
    if e :| e in s.cache && e.0 == key {
      var j :| 0 <= j < |s.cache| && s.cache[j] == e;
      assert KeysOf(s.cache)[j] == key;
    }
  }

  /** A save keeps the cache and all answers in agreement exactly when it does not replace a different
      checkpoint that is in use; the first save of a version always does. */
  lemma SaveKeepsAgreement(s: State, i: nat, key: Key, model: Model)
    requires Agrees(s) && IsLru(s) && i < |s.threads| && s.threads[i] == Fitted(key, model)
    ensures Agrees(Next(s, i, Go)) <==> MaySave(s, key, model)
  {
    hide KeysOf, ByLastUse, Newest, InUse, IsLru;
    var s' := Next(s, i, Go);
    InUseHolds(s, key);
    var overwrites := key in s.disk && s.disk[key] != model;
    forall j | 0 <= j < |s.threads|
      ensures ThreadAgrees(s', s'.threads[j]) <==> !(overwrites && Carries(s.threads[j], key))
    {
      assert ThreadAgrees(s, s.threads[j]);
    }
    forall e | e in s.cache
      ensures Stored(s', e.0, e.1) <==> !(overwrites && e.0 == key)
    {
      assert Stored(s, e.0, e.1);
    }
    assert Agrees(s') ==> forall j :: 0 <= j < |s.threads| ==> ThreadAgrees(s', s'.threads[j]);
  }

  /** Every save of the run was allowed to. */
  ghost predicate SavesInTurn(run: seq<State>) {
    forall k :: 0 < k < |run| ==> SavesAllowed(run[k - 1], run[k])
  }

  ghost predicate SavesAllowed(s: State, s': State) {
    forall i: nat :: Saves(s, i, s') ==> MaySave(s, s.threads[i].key, s.threads[i].model)
  }

  predicate Saves(s: State, i: nat, s': State) {
    i < |s.threads| && s.threads[i].Fitted? && s' == Next(s, i, Go)
  }

  lemma StepAgrees(s: State, s': State)
    requires Step(s, s') && Agrees(s) && IsLru(s)
    ensures Agrees(s') <==> SavesAllowed(s, s')
  {
    hide IsLru, MaySave, Agrees;
    forall i: nat | Saves(s, i, s')
      ensures Agrees(s') <==> MaySave(s, s.threads[i].key, s.threads[i].model)
    {
      SaveKeepsAgreement(s, i, s.threads[i].key, s.threads[i].model);
    }
    var i: nat, act :| Enabled(s, i, act) && s' == Next(s, i, act);
    if s.threads[i].Fitted? {
      assert Saves(s, i, s');
    } else {
      AgreesStep(s, i, act);
    }
  }

  /** Over every run: the cache and all answers agree with the disk throughout, if and only if no save
      replaced a different checkpoint that was in use. */
  lemma {:induction false} AgreesExactly(run: seq<State>)
    requires Run(run)
    ensures (forall k :: 0 <= k < |run| ==> Agrees(run[k])) <==> SavesInTurn(run)
  {
    hide Enabled, Next, Step, Agrees, SavesAllowed;
    FreshAgrees(run[0]);
    if |run| > 1 {
      var front, n := run[..|run| - 1], |run| - 1;
      assert Run(front) by {
        assert front[0] == run[0];
      }
      AgreesExactly(front);
      assert forall k :: 0 <= k < n ==> front[k] == run[k];
      CacheIsLru(run, n - 1);
      assert Step(run[n - 1], run[n]);
      if Agrees(run[n - 1]) {
        StepAgrees(run[n - 1], run[n]);
      }
    }
  }

  lemma FreshAgrees(s: State)
    requires Init(s)
    ensures Agrees(s)
  {
    assert forall i :: 0 <= i < |s.threads| ==> s.threads[i] in s.threads;
  }

  lemma Extend(run: seq<State>, s: State, i: nat, act: Act)
    requires Run(run) && s == run[|run| - 1] && Enabled(s, i, act)
    ensures Run(run + [Next(s, i, act)])
  {
    hide Enabled, Next, Init;
    assert Step(s, Next(s, i, act));
  }

  /** /train checks and saves in two steps, so two trains of one version can both pass the check
      and the second save overwrites the first. This is how far a run then gets. */
  lemma RacingTrains(key: Key, m1: Model, m2: Model) returns (run: seq<State>)
    ensures Run(run)
    ensures run[|run| - 1] ==
      State(map[key := m1], [], map[], {}, [], [Ready, Fitted(key, m2), Looking(key)], [])
  {
    var s0 := State(map[], [], map[], {}, [], [Ready, Ready, Ready], []);
    run := [s0];
    Extend(run, s0, 0, Train(key, m1));
    var s1 := s0.(threads := [Fitted(key, m1), Ready, Ready]);
    assert s1 == Next(s0, 0, Train(key, m1));
    run := run + [s1];
    Extend(run, s1, 1, Train(key, m2));
    var s2 := s1.(threads := [Fitted(key, m1), Fitted(key, m2), Ready]);
    assert s2 == Next(s1, 1, Train(key, m2));
    run := run + [s2];
    Extend(run, s2, 0, Go);
    var s3 := s2.(threads := [Ready, Fitted(key, m2), Ready], disk := map[key := m1]);
    assert s3 == Next(s2, 0, Go);
    run := run + [s3];
    Extend(run, s3, 2, Rank(key));
    assert Next(s3, 2, Rank(key)).threads == [Ready, Fitted(key, m2), Looking(key)];
    run := run + [Next(s3, 2, Rank(key))];
  }

  /** A request that loads m1 before the second save returns m1 although the path now holds m2. */
  lemma RacingTrainsGoStale(key: Key, m1: Model, m2: Model) returns (run: seq<State>)
    ensures Run(run)
    ensures var s := run[|run| - 1];
      |s.threads| == 3 && s.disk == map[key := m2] && s.threads[2] == Returned(key, m1) && (key, m1) in s.cache
  {
    run := RacingTrains(key, m1, m2);
    var s4 := run[|run| - 1];
    Extend(run, s4, 2, Go);
    var s5 := s4.(pending := map[key := 0], owners := [2], threads := [Ready, Fitted(key, m2), Loading(key, 0)]);
    assert s5 == Next(s4, 2, Go);
    run := run + [s5];
    Extend(run, s5, 2, Go);
    var s6 := s5.(threads := [Ready, Fitted(key, m2), Loaded(key, 0, m1)]);
    assert s6 == Next(s5, 2, Go);
    run := run + [s6];
    Extend(run, s6, 2, Go);
    var s7 := s6.(threads := [Ready, Fitted(key, m2), Inserted(key, 0, m1)], cache := [(key, m1)], uses := [key]);
    assert Touch([], key, m1) == [(key, m1)];
    assert s7 == Next(s6, 2, Go);
    run := run + [s7];
    Extend(run, s7, 1, Go);
    var s8 := s7.(threads := [Ready, Ready, Inserted(key, 0, m1)], disk := map[key := m2]);
    assert s8 == Next(s7, 1, Go);
    run := run + [s8];
    Extend(run, s8, 2, Go);
    var s9 := s8.(threads := [Ready, Ready, Cleared(key, 0, Some(m1))], pending := map[]);
    assert s9 == Next(s8, 2, Go);
    run := run + [s9];
    Extend(run, s9, 2, Go);
    run := run + [Next(s9, 2, Go)];
  }
}
