/** What Up and Down keep over every history, each call possibly failing anywhere. */
module MigratorProperties {
  import opened StableSort
  import opened StringOrder
  import opened Migrator
  import opened Wrappers

  /** The up-scripts run in order over base; None when one is missing or fails. */
  function Replay<S>(base: S, versions: seq<string>, scripts: map<string, Migration<S>>): Option<S> {
    if versions == [] then Some(base)
    else
      var v, before := versions[|versions| - 1], Replay(base, versions[..|versions| - 1], scripts);
      if v in scripts && before.Some? then scripts[v].up(before.value) else None
  }

  /** The schema is the up-scripts folded over the journal in SELECT's order. */
  ghost predicate Faithful<S>(db: Database<S>, base: S, scripts: map<string, Migration<S>>) {
    && UniqueVersions(db.journal)
    && Replay(base, Versions(db.journal), scripts) == Some(db.schema)
  }

  /** A version always names the same scripts, whichever release embeds it. */
  ghost predicate FromScripts<S>(all: seq<Migration<S>>, scripts: map<string, Migration<S>>) {
    forall mg :: mg in all ==> mg.version in scripts && scripts[mg.version] == mg
  }

  /** The down script undoes the up script. */
  ghost predicate Undoes<S(!new)>(mg: Migration<S>) {
    forall s, t :: mg.down.Some? && mg.up(s) == Some(t) ==> mg.down.value(t) == Some(s)
  }

  /** Each down script undoes its own up script. */
  ghost predicate DownsUndo<S(!new)>(scripts: map<string, Migration<S>>) {
    forall v :: v in scripts ==> Undoes(scripts[v])
  }

  /** All() sorts by version. */
  ghost predicate Ascending<S>(all: seq<Migration<S>>) {
    forall i, j :: 0 <= i < j < |all| ==> !Before(all[j].version, all[i].version)
  }

  /* ---- The journal's order ---- */

  lemma EarlierIsWeakOrder()
    ensures WeakOrder(ByAppliedAt())
    ensures forall rows :: TiesAreEqual(rows, ByAppliedAt())
  {
    BeforeIsWeakOrder();
    var before := BeforeFn();
    assert forall a, b :: before(a, b) == Before(a, b);
    var less := ByAppliedAt();
    forall a, b | less(a, b)
      ensures !less(b, a)
    {
      assert before(a.version, b.version) ==> !before(b.version, a.version);
    }
    forall a, b, c | !less(a, b) && !less(b, c)
      ensures !less(a, c)
    {
      assert !before(a.version, b.version) && !before(b.version, c.version) ==> !before(a.version, c.version);
    }
    forall a, b | !less(a, b) && !less(b, a)
      ensures a == b
    {
      TiesAreOne(a.version, b.version);
    }
  }

  /** SELECT's order goes on being the order of insertion exactly when no journaled row sorts after the new one. */
  lemma AppendKeepsOrder(journal: seq<Row>, row: Row)
    ensures Ordered(journal + [row]) == Ordered(journal) + [row]
      <==> forall r :: r in journal ==> !Earlier(row, r)
  {
    var less, rows := ByAppliedAt(), Ordered(journal);
    EarlierIsWeakOrder();
    SortPermutes(journal, less);
    SortSorts(journal, less);
    SameRows(journal, rows);
    assert (journal + [row])[..|journal|] == journal;
    assert Ordered(journal + [row]) == Insert(rows, row, less);
    if rows != [] {
      var last := rows[|rows| - 1];
      if less(row, last) {
        assert Insert(rows, row, less)[|Insert(rows, row, less)| - 1] == last;
        assert last in journal;
      } else {
        forall r | r in journal
          ensures !Earlier(row, r)
        {
          LastIsGreatest(rows, less, r);
          assert !less(row, r);
        }
      }
    }
  }

  lemma {:induction false} DeleteUnique(journal: seq<Row>, v: string)
    requires UniqueVersions(journal)
    ensures UniqueVersions(Delete(journal, v))
    ensures forall r :: r in Delete(journal, v) ==> r in journal
  {
    if journal != [] {
      var front, last := journal[..|journal| - 1], journal[|journal| - 1];
      DeleteUnique(front, v);
      assert journal == front + [last];
      forall i | 0 <= i < |Delete(front, v)|
        ensures Delete(front, v)[i].version != last.version
      {
        assert Delete(front, v)[i] in front;
      }
    }
  }

  lemma DeleteSnoc(front: seq<Row>, last: Row, v: string)
    ensures Delete(front + [last], v) == Delete(front, v) + if last.version == v then [] else [last]
  {
    assert (front + [last])[..|front|] == front;
  }

  lemma {:induction false} DeleteRemoves(journal: seq<Row>, row: Row)
    requires UniqueVersions(journal) && row in journal
    ensures multiset(Delete(journal, row.version)) == multiset(journal) - multiset{row}
  {
    var front, last := journal[..|journal| - 1], journal[|journal| - 1];
    assert journal == front + [last];
    DeleteSnoc(front, last, row.version);
    hide Delete;
    if last == row {
      DeleteNothing(front, row.version);
    } else {
      DeleteRemoves(front, row);
    }
  }

  lemma {:induction false} DeleteNothing(journal: seq<Row>, v: string)
    requires forall r :: r in journal ==> r.version != v
    ensures Delete(journal, v) == journal
  {
    if journal != [] {
      DeleteNothing(journal[..|journal| - 1], v);
      assert journal == journal[..|journal| - 1] + [journal[|journal| - 1]];
    }
  }

  lemma OrderedLast(journal: seq<Row>)
    requires UniqueVersions(journal) && journal != []
    ensures var rows := Ordered(journal);
      && |rows| == |journal| && rows[|rows| - 1] in journal
      && UniqueVersions(Delete(journal, rows[|rows| - 1].version))
      && multiset(Delete(journal, rows[|rows| - 1].version)) == multiset(rows[..|rows| - 1])
  {
    hide Ordered, Delete, UniqueVersions;
    var rows := Ordered(journal);
    OrderedMeans(journal);
    SameRows(journal, rows);
    var last := rows[|rows| - 1];
    assert last in journal;
    DeleteUnique(journal, last.version);
    DeleteRemoves(journal, last);
    LastOut(rows);
  }

  lemma OrderedMeans(journal: seq<Row>)
    ensures multiset(Ordered(journal)) == multiset(journal)
    ensures Sorted(Ordered(journal), ByAppliedAt())
  {
    EarlierIsWeakOrder();
    SortPermutes(journal, ByAppliedAt());
    SortSorts(journal, ByAppliedAt());
  }

  lemma OrderedIsTheOnly(journal: seq<Row>, rows: seq<Row>)
    requires multiset(rows) == multiset(journal) && Sorted(rows, ByAppliedAt())
    ensures Ordered(journal) == rows
  {
    hide Ordered, Sorted, Earlier;
    OrderedMeans(journal);
    EarlierIsWeakOrder();
    SortedIsUnique(Ordered(journal), rows, ByAppliedAt());
  }

  /** Deleting the newest row takes the last version off the list. */
  lemma DeleteLast(journal: seq<Row>)
    requires UniqueVersions(journal) && journal != []
    ensures |Ordered(journal)| == |journal|
    ensures var vs := Versions(journal);
      var rest := Delete(journal, vs[|vs| - 1]);
      UniqueVersions(rest) && Versions(rest) == vs[..|vs| - 1]
  {
    hide Ordered, Delete, UniqueVersions, Earlier, Sorted;
    var rows := Ordered(journal);
    OrderedMeans(journal);
    OrderedLast(journal);
    SortedFront(rows, ByAppliedAt());
    var front, rest := rows[..|rows| - 1], Delete(journal, rows[|rows| - 1].version);
    OrderedIsTheOnly(rest, front);
    assert VersionsOf(front) == VersionsOf(rows)[..|rows| - 1];
  }

  lemma VersionsAppend(journal: seq<Row>, row: Row)
    requires forall r :: r in journal ==> !Earlier(row, r)
    ensures Versions(journal + [row]) == Versions(journal) + [row.version]
  {
    AppendKeepsOrder(journal, row);
    assert VersionsOf(Ordered(journal) + [row]) == VersionsOf(Ordered(journal)) + [row.version];
  }

  /* ---- One transaction ---- */

  /** Applying keeps the fold, however the transaction ends, when the new row sorts last. */
  lemma ApplyKeeps<S>(db: Database<S>, mg: Migration<S>, tx: Tx, now: int, base: S, scripts: map<string, Migration<S>>)
    requires Faithful(db, base, scripts)
    requires mg.version in scripts && scripts[mg.version] == mg
    requires forall r :: r in db.journal ==> !Earlier(Row(mg.version, now), r)
    ensures var s := Applied(db, mg, tx, now);
      && Faithful(s.db, base, scripts)
      && (s.db != db ==> s.db.journal == db.journal + [Row(mg.version, now)]
                         && Versions(s.db.journal) == Versions(db.journal) + [mg.version])
      && (s.error.NoError? ==> s.db != db)
      && (!s.error.NoError? ==> s.error == ApplyFailed(mg.version))
      && (!s.error.NoError? && tx != CommitLost ==> s.db == db)
  {
    var row := Row(mg.version, now);
    var s := Applied(db, mg, tx, now);
    assert |db.journal + [row]| != |db.journal|;
    if s.db != db {
      VersionsAppend(db.journal, row);
      var vs := Versions(db.journal);
      assert (vs + [mg.version])[..|vs|] == vs;
    }
  }

  /** Reverting the newest version steps the fold back, however the transaction ends. */
  lemma RevertKeeps<S(!new)>(db: Database<S>, mg: Migration<S>, tx: Tx, base: S, scripts: map<string, Migration<S>>)
    requires Faithful(db, base, scripts) && DownsUndo(scripts)
    requires mg.version in scripts && scripts[mg.version] == mg
    requires |Versions(db.journal)| > 0 && Versions(db.journal)[|Versions(db.journal)| - 1] == mg.version
    ensures var s, vs := Reverted(db, mg, tx), Versions(db.journal);
      && Faithful(s.db, base, scripts)
      && (s.db == db || Versions(s.db.journal) == vs[..|vs| - 1])
      && (s.error.NoError? <==> mg.down.Some? && tx.Commits?)
      && (s.error.NoError? ==> Versions(s.db.journal) == vs[..|vs| - 1])
  {
    VersionsAreJournaled(db.journal);
    DeleteLast(db.journal);
    var vs := Versions(db.journal);
    var before := Replay(base, vs[..|vs| - 1], scripts);
    assert Undoes(mg) && before.Some? && mg.up(before.value) == Some(db.schema);
    if mg.down.Some? {
      assert mg.down.value(db.schema) == Some(before.value);
    }
  }

  /* ---- One Up ---- */

  /** No journaled row sorts after a row that the rest of this Up may add. */
  ghost predicate Late<S>(journal: seq<Row>, all: seq<Migration<S>>, env: Environment, i: nat) {
    forall r, j :: r in journal && i <= j < |all| ==> !Earlier(Row(all[j].version, env.now(j)), r)
  }

  /** The clock does not run backwards within a call; ties are allowed. */
  ghost predicate Steady(env: Environment) {
    forall i: nat, j: nat :: i <= j ==> env.now(i) <= env.now(j)
  }

  ghost predicate ByThen(journal: seq<Row>, now: int) {
    forall r :: r in journal ==> r.appliedAt <= now
  }

  lemma ExtendsOn(before: seq<string>, v: string, later: seq<string>, after: seq<string>,
                  error: MigrateError, lossless: bool)
    requires Extends(before + [v], later, after, error, lossless)
    ensures Extends(before, [v] + later, after, error, lossless)
  {
    assert before + [v] + later == before + ([v] + later);
  }

  lemma ExtendsFailed(before: seq<string>, v: string, later: seq<string>, after: seq<string>, lossless: bool)
    requires after == before || (!lossless && after == before + [v])
    ensures Extends(before, [v] + later, after, ApplyFailed(v), lossless)
  {
    assert before + [v] + later == before + ([v] + later);
  }

  /** An Up that has come to the i-th file keeps the fold, and adds the versions missing from there on. */
  lemma {:induction false} UpFromKeeps<S>(db: Database<S>, had: set<string>, all: seq<Migration<S>>,
                                      env: Environment, i: nat, base: S, scripts: map<string, Migration<S>>)
    requires i <= |all| && Faithful(db, base, scripts) && FromScripts(all, scripts) && Ascending(all)
    requires Steady(env) && Late(db.journal, all, env, i) && ByThen(db.journal, env.now(|all|))
    ensures var s := UpFrom(db, had, all, env, i);
      && Faithful(s.db, base, scripts) && ByThen(s.db.journal, env.now(|all|))
      && Extends(Versions(db.journal), Missing(all, had, i), Versions(s.db.journal), s.error, Lossless(env))
    decreases |all| - i
  {
    hide Versions, Applied, Faithful, Late, Ascending, Steady, FromScripts, ByThen, Extends;
    var vs := Versions(db.journal);
    if i == |all| {
      ExtendsNone(vs, Lossless(env));
    } else if all[i].version in had {
      ReadyToApply(db.journal, all, env, i, scripts);
      UpFromKeeps(db, had, all, env, i + 1, base, scripts);
      assert Missing(all, had, i) == Missing(all, had, i + 1);
    } else {
      ReadyToApply(db.journal, all, env, i, scripts);
      ApplyKeeps(db, all[i], env.tx(i), env.now(i), base, scripts);
      var one := Applied(db, all[i], env.tx(i), env.now(i));
      var v, later := all[i].version, Missing(all, had, i + 1);
      if one.error.NoError? {
        UpFromKeeps(one.db, had, all, env, i + 1, base, scripts);
        var s := UpFrom(one.db, had, all, env, i + 1);
        ExtendsOn(vs, v, later, Versions(s.db.journal), s.error, Lossless(env));
      } else {
        ExtendsFailed(vs, v, later, Versions(one.db.journal), Lossless(env));
      }
    }
  }

  lemma ReadyToApply<S>(journal: seq<Row>, all: seq<Migration<S>>, env: Environment, i: nat,
                        scripts: map<string, Migration<S>>)
    requires i < |all| && FromScripts(all, scripts) && Ascending(all)
    requires Steady(env) && Late(journal, all, env, i) && ByThen(journal, env.now(|all|))
    ensures var row := Row(all[i].version, env.now(i));
      && all[i].version in scripts && scripts[all[i].version] == all[i]
      && (forall r :: r in journal ==> !Earlier(row, r))
      && Late(journal, all, env, i + 1) && Late(journal + [row], all, env, i + 1)
      && ByThen(journal + [row], env.now(|all|))
  {
    assert all[i] in all;
  }

  lemma {:induction false} UpJournals<S>(db: Database<S>, had: set<string>, all: seq<Migration<S>>,
                                         env: Environment, i: nat)
    requires i <= |all|
    ensures var s := UpFrom(db, had, all, env, i);
      && (forall v :: Journaled(db.journal, v) ==> Journaled(s.db.journal, v))
      && (s.error.NoError? ==>
            forall j :: i <= j < |all| && all[j].version !in had ==> Journaled(s.db.journal, all[j].version))
    decreases |all| - i
  {
    if i < |all| {
      var one := if all[i].version in had then Step(db, NoError) else Applied(db, all[i], env.tx(i), env.now(i));
      assert one.db == db || one.db.journal == db.journal + [Row(all[i].version, env.now(i))];
      if one.error.NoError? {
        UpJournals(one.db, had, all, env, i + 1);
      }
      if all[i].version !in had && one.error.NoError? {
        assert one.db.journal[|db.journal|].version == all[i].version;
      }
      JournaledStays(db.journal, one.db.journal);
    }
  }

  lemma {:induction false} NothingMissing<S>(db: Database<S>, had: set<string>, all: seq<Migration<S>>,
                                             env: Environment, i: nat)
    requires i <= |all| && forall j :: i <= j < |all| ==> all[j].version in had
    ensures UpFrom(db, had, all, env, i) == Step(db, NoError)
    decreases |all| - i
  {
    if i < |all| {
      NothingMissing(db, had, all, env, i + 1);
    }
  }

  /** After a completed Up the next one changes nothing and succeeds whatever its transactions would have done. */
  lemma NextUpIsNoOp<S>(db: Database<S>, all: seq<Migration<S>>, env: Environment, again: Environment)
    requires UpCall(db, all, env).error.NoError? && again.available
    ensures UpCall(UpCall(db, all, env).db, all, again) == Step(UpCall(db, all, env).db, NoError)
  {
    var after := UpCall(db, all, env).db;
    RecordedIsJournaled(db.journal);
    RecordedIsJournaled(after.journal);
    UpJournals(db, Recorded(db.journal), all, env, 0);
    NothingMissing(after, Recorded(after.journal), all, again, 0);
  }

  /* ---- One Down ---- */

  /** A release can revert a version when it embeds it with a down block. */
  predicate CanRevert<S>(all: seq<Migration<S>>, v: string) {
    var mg := Lookup(all, v);
    mg.Some? && mg.value.down.Some?
  }

  ghost predicate AllRevert<S>(all: seq<Migration<S>>, applied: seq<string>, env: Environment) {
    forall i :: 0 <= i < |applied| ==> CanRevert(all, applied[i]) && env.tx(i).Commits?
  }

  lemma AllRevertSnoc<S>(all: seq<Migration<S>>, applied: seq<string>, env: Environment)
    requires applied != []
    ensures var n := |applied| - 1;
      AllRevert(all, applied, env)
      <==> AllRevert(all, applied[..n], env) && CanRevert(all, applied[n]) && env.tx(n).Commits?
  {
    var n := |applied| - 1;
    forall i | 0 <= i < n && AllRevert(all, applied, env)
      ensures CanRevert(all, applied[..n][i]) && env.tx(i).Commits?
    {
      assert applied[i] == applied[..n][i];
    }
    forall i | 0 <= i < n && AllRevert(all, applied[..n], env)
      ensures CanRevert(all, applied[i]) && env.tx(i).Commits?
    {
      assert applied[i] == applied[..n][i];
    }
  }

  /** A Down that has come to the n-th version. */
  lemma {:induction false} DownFromKeeps<S(!new)>(db: Database<S>, applied: seq<string>, all: seq<Migration<S>>,
                                              env: Environment, n: nat, base: S, scripts: map<string, Migration<S>>)
    requires n <= |applied| && Versions(db.journal) == applied[..n]
    requires Faithful(db, base, scripts) && DownsUndo(scripts) && FromScripts(all, scripts)
    ensures var s := DownFrom(db, applied, all, env, n);
      && Faithful(s.db, base, scripts)
      && Versions(s.db.journal) <= Versions(db.journal)
      && (s.error.NoError? <==> AllRevert(all, applied[..n], env))
      && (s.error.NoError? ==> s.db == Database(base, []))
    decreases n
  {
    hide Versions, FromScripts, DownsUndo, Faithful, AllRevert, Reverted;
    if n == 0 {
      NothingJournaled(db, base, scripts);
      assert AllRevert(all, applied[..0], env) by {
        NoneLeft(all, env);
        assert applied[..0] == [];
      }
    } else {
      var v := applied[n - 1];
      assert applied[..n][..n - 1] == applied[..n - 1];
      AllRevertSnoc(all, applied[..n], env);
      LookupMeans(all, v);
      if Lookup(all, v).Some? {
        var mg := Lookup(all, v).value;
        KnownScript(all, scripts, mg);
        RevertKeeps(db, mg, env.tx(n - 1), base, scripts);
        var one := Reverted(db, mg, env.tx(n - 1));
        if one.error.NoError? {
          DownFromKeeps(one.db, applied, all, env, n - 1, base, scripts);
        }
      }
    }
  }

  lemma NoneLeft<S>(all: seq<Migration<S>>, env: Environment)
    ensures AllRevert(all, [], env)
  {
  }

  lemma NothingJournaled<S>(db: Database<S>, base: S, scripts: map<string, Migration<S>>)
    requires Faithful(db, base, scripts) && Versions(db.journal) == []
    ensures db == Database(base, [])
  {
    VersionsAreJournaled(db.journal);
  }

  lemma KnownScript<S>(all: seq<Migration<S>>, scripts: map<string, Migration<S>>, mg: Migration<S>)
    requires FromScripts(all, scripts) && mg in all
    ensures mg.version in scripts && scripts[mg.version] == mg
  {
  }

  /* ---- Histories ---- */

  datatype Call<!S> = Up(all: seq<Migration<S>>, env: Environment) | Down(all: seq<Migration<S>>, env: Environment)

  function After<S>(db: Database<S>, call: Call<S>): Step<S> {
    match call
    case Up(all, env) => UpCall(db, all, env)
    case Down(all, env) => DownCall(db, all, env)
  }

  /** Calls in a row; one that fails is followed by the next all the same. */
  function Run<S>(db: Database<S>, calls: seq<Call<S>>): Database<S>
    decreases |calls|
  {
    if calls == [] then db
    else Run(After(db, calls[0]).db, calls[1..])
  }

  /** Every release embeds sorted files with the same scripts, and applied_at increases from call to call. */
  ghost predicate Timed<S>(calls: seq<Call<S>>, now: int, scripts: map<string, Migration<S>>)
    decreases |calls|
  {
    calls == [] || (
      && FromScripts(calls[0].all, scripts) && Ascending(calls[0].all)
      && Steady(calls[0].env) && now < calls[0].env.now(0)
      && Timed(calls[1..], calls[0].env.now(|calls[0].all|), scripts))
  }

  /** Up keeps the fold, and in SELECT's order too it adds the missing versions, in order: all of them exactly when it
      reports no error. */
  lemma UpKeeps<S(!new)>(db: Database<S>, all: seq<Migration<S>>, env: Environment, now: int, base: S,
                         scripts: map<string, Migration<S>>)
    requires Faithful(db, base, scripts) && ByThen(db.journal, now)
    requires FromScripts(all, scripts) && Ascending(all) && Steady(env) && now < env.now(0) && env.available
    ensures var s := UpCall(db, all, env);
      && Faithful(s.db, base, scripts) && ByThen(s.db.journal, env.now(|all|))
      && Extends(Versions(db.journal), Missing(all, Recorded(db.journal), 0), Versions(s.db.journal), s.error,
                 Lossless(env))
  {
    assert now < env.now(0) <= env.now(|all|);
    assert Late(db.journal, all, env, 0);
    UpFromKeeps(db, Recorded(db.journal), all, env, 0, base, scripts);
  }

  /** Down takes versions off the end; it completes exactly when every journaled one can be reverted and commits, and
      then the original schema is back. */
  lemma DownKeeps<S(!new)>(db: Database<S>, all: seq<Migration<S>>, env: Environment, base: S,
                           scripts: map<string, Migration<S>>)
    requires Faithful(db, base, scripts) && DownsUndo(scripts) && FromScripts(all, scripts)
    ensures var s := DownCall(db, all, env);
      && Faithful(s.db, base, scripts) && Versions(s.db.journal) <= Versions(db.journal)
      && (forall row :: row in s.db.journal ==> row in db.journal)
      && (s.error.NoError? <==> env.available && AllRevert(all, Versions(db.journal), env))
      && (s.error.NoError? ==> s.db == Database(base, []))
  {
    var vs := Versions(db.journal);
    assert vs[..|vs|] == vs;
    DownFromKeeps(db, vs, all, env, |vs|, base, scripts);
    DownOnlyDeletes(db, vs, all, env, |vs|);
  }

  lemma CallKeeps<S(!new)>(db: Database<S>, call: Call<S>, now: int, base: S, scripts: map<string, Migration<S>>)
    requires Faithful(db, base, scripts) && DownsUndo(scripts) && ByThen(db.journal, now)
    requires Timed([call], now, scripts)
    ensures Faithful(After(db, call).db, base, scripts)
    ensures ByThen(After(db, call).db.journal, call.env.now(|call.all|))
  {
    assert now < call.env.now(0) <= call.env.now(|call.all|);
    match call
    case Up(all, env) =>
      if env.available {
        UpKeeps(db, all, env, now, base, scripts);
      }
    case Down(all, env) =>
      DownKeeps(db, all, env, base, scripts);
  }

  lemma {:induction false} DownOnlyDeletes<S>(db: Database<S>, applied: seq<string>, all: seq<Migration<S>>,
                                              env: Environment, n: nat)
    requires n <= |applied| && UniqueVersions(db.journal)
    ensures forall r :: r in DownFrom(db, applied, all, env, n).db.journal ==> r in db.journal
    decreases n
  {
    if n > 0 && Lookup(all, applied[n - 1]).Some? {
      var mg := Lookup(all, applied[n - 1]).value;
      DeleteUnique(db.journal, mg.version);
      var one := Reverted(db, mg, env.tx(n - 1));
      if one.error.NoError? {
        DownOnlyDeletes(one.db, applied, all, env, n - 1);
      }
    }
  }

  /** Over every history the schema is the fold of the up-scripts over the journal. */
  lemma {:induction false} HistoryIsFaithful<S(!new)>(db: Database<S>, calls: seq<Call<S>>, now: int,
                                                      base: S, scripts: map<string, Migration<S>>)
    requires Faithful(db, base, scripts) && DownsUndo(scripts) && ByThen(db.journal, now)
    requires Timed(calls, now, scripts)
    ensures Faithful(Run(db, calls), base, scripts)
    decreases |calls|
  {
    if calls != [] {
      assert [calls[0]][1..] == [];
      CallKeeps(db, calls[0], now, base, scripts);
      HistoryIsFaithful(After(db, calls[0]).db, calls[1..], calls[0].env.now(|calls[0].all|), base, scripts);
    }
  }

  /** From an empty journal, over every history: a Down that completes brings the original schema back, and it
      completes exactly when every journaled version can be reverted and its transaction commits. */
  lemma CompletedDownRestores<S(!new)>(base: S, calls: seq<Call<S>>, now: int, all: seq<Migration<S>>, env: Environment,
                                       scripts: map<string, Migration<S>>)
    requires DownsUndo(scripts) && Timed(calls, now, scripts) && FromScripts(all, scripts)
    ensures var db := Run(Database(base, []), calls);
      var s := DownCall(db, all, env);
      && (s.error.NoError? ==> s.db == Database(base, []))
      && (s.error.NoError? <==> env.available && AllRevert(all, Versions(db.journal), env))
  {
    HistoryIsFaithful(Database(base, []), calls, now, base, scripts);
    DownKeeps(Run(Database(base, []), calls), all, env, base, scripts);
  }

  /** Two histories that leave the same versions in the same order leave the same schema. */
  lemma SameJournalSameSchema<S(!new)>(base: S, a: seq<Call<S>>, b: seq<Call<S>>, now: int,
                                         scripts: map<string, Migration<S>>)
    requires DownsUndo(scripts) && Timed(a, now, scripts) && Timed(b, now, scripts)
    requires Versions(Run(Database(base, []), a).journal) == Versions(Run(Database(base, []), b).journal)
    ensures Run(Database(base, []), a).schema == Run(Database(base, []), b).schema
  {
    HistoryIsFaithful(Database(base, []), a, now, base, scripts);
    HistoryIsFaithful(Database(base, []), b, now, base, scripts);
  }

  /* ---- Without an increasing applied_at ---- */

  /** A script that records that it ran; its down block undoes it and nothing else. */
  function Recording(v: string): Migration<seq<string>> {
    Migration(v, (s: seq<string>) => Some(s + [v]),
              Some((s: seq<string>) => if s != [] && s[|s| - 1] == v then Some(s[..|s| - 1]) else None))
  }

  lemma RecordingUndoes(v: string)
    ensures Undoes(Recording(v))
  {
    forall s, t | Recording(v).up(s) == Some(t)
      ensures Recording(v).down.value(t) == Some(s)
    {
      assert t[..|t| - 1] == s;
    }
  }

  lemma {:induction false} RecordedIsReplayed(versions: seq<string>, scripts: map<string, Migration<seq<string>>>)
    requires forall v :: v in scripts ==> scripts[v] == Recording(v)
    requires forall v :: v in versions ==> v in scripts
    ensures Replay([], versions, scripts) == Some(versions)
  {
    if versions != [] {
      RecordedIsReplayed(versions[..|versions| - 1], scripts);
      assert versions == versions[..|versions| - 1] + [versions[|versions| - 1]];
    }
  }

  /** A row put behind others in time but not in SELECT's order: for scripts that record their runs the fold
      survives an apply exactly when the new row sorts last. */
  lemma FoldSurvivesExactly(db: Database<seq<string>>, v: string, now: int,
                            scripts: map<string, Migration<seq<string>>>)
    requires v in scripts && forall w :: w in scripts ==> scripts[w] == Recording(w)
    requires forall w :: w in Versions(db.journal) ==> w in scripts
    requires Faithful(db, [], scripts) && !Journaled(db.journal, v)
    ensures Faithful(Applied(db, Recording(v), Commits, now).db, [], scripts)
      <==> forall r :: r in db.journal ==> !Earlier(Row(v, now), r)
  {
    var row := Row(v, now);
    var after := Applied(db, Recording(v), Commits, now).db;
    RecordedIsReplayed(Versions(db.journal), scripts);
    assert after == Database(Versions(db.journal) + [v], db.journal + [row]);
    VersionsAreJournaled(db.journal);
    VersionsAreJournaled(after.journal);
    forall w | w in Versions(after.journal)
      ensures w in scripts
    {
      var i :| 0 <= i < |after.journal| && after.journal[i].version == w;
      assert i < |db.journal| ==> Journaled(db.journal, w);
    }
    RecordedIsReplayed(Versions(after.journal), scripts);
    RowSortsLast(db.journal, row);
  }

  lemma RowSortsLast(journal: seq<Row>, row: Row)
    requires !Journaled(journal, row.version)
    ensures Versions(journal + [row]) == Versions(journal) + [row.version]
      <==> forall r :: r in journal ==> !Earlier(row, r)
  {
    if forall r :: r in journal ==> !Earlier(row, r) {
      VersionsAppend(journal, row);
    } else {
      hide Ordered;
      var rows, longer := Ordered(journal), Ordered(journal + [row]);
      OrderedMeans(journal);
      AppendKeepsOrder(journal, row);
      LastStays(journal, row);
    }
  }

  lemma BelowLast(rows: seq<Row>, row: Row, r: Row, less: (Row, Row) -> bool)
    requires WeakOrder(less) && Sorted(rows, less) && r in rows && less(row, r)
    ensures less(row, rows[|rows| - 1])
  {
    LastIsGreatest(rows, less, r);
  }

  lemma LastStays(journal: seq<Row>, row: Row)
    requires !Journaled(journal, row.version) && exists r :: r in journal && Earlier(row, r)
    ensures var vs := Versions(journal + [row]); vs != [] && vs[|vs| - 1] != row.version
  {
    var less, rows := ByAppliedAt(), Ordered(journal);
    assert (journal + [row])[..|journal|] == journal;
    assert Ordered(journal + [row]) == Insert(rows, row, less);
    var r :| r in journal && Earlier(row, r);
    assert less(row, r);
    hide Ordered, Earlier, Sorted, WeakOrder, Insert;
    OrderedMeans(journal);
    EarlierIsWeakOrder();
    SameRows(journal, rows);
    BelowLast(rows, row, r, less);
    InsertKeepsLast(rows, row, less);
    assert rows[|rows| - 1] in journal;
  }

  lemma InsertKeepsLast(rows: seq<Row>, row: Row, less: (Row, Row) -> bool)
    requires rows != [] && less(row, rows[|rows| - 1])
    ensures var longer := Insert(rows, row, less); longer != [] && longer[|longer| - 1] == rows[|rows| - 1]
  {
  }

  /** Down gets no further than a newest row whose script did not run last. */
  lemma DownStops(db: Database<seq<string>>, v: string, all: seq<Migration<seq<string>>>, env: Environment)
    requires env.available && Lookup(all, v) == Some(Recording(v))
    requires Versions(db.journal) != [] && Versions(db.journal)[|Versions(db.journal)| - 1] == v
    requires db.schema == [] || db.schema[|db.schema| - 1] != v
    ensures DownCall(db, all, env) == Step(db, RevertFailed(v))
  {
    hide Versions, Lookup;
  }

  /** Two releases that migrate at one applied_at: the second adds 6a to a journal that holds 7, SELECT puts it
      before 7, and Down, which starts with 7, can revert nothing, although every down undoes its own up. */
  lemma EqualStampsBreakDown(env: Environment)
    requires env.available
    ensures var journal := [Row("7", 5), Row("6a", 5)];
      var after := Applied(Database(["7"], [Row("7", 5)]), Recording("6a"), Commits, 5);
      && after == Step(Database(["7", "6a"], journal), NoError)
      && Undoes(Recording("6a")) && Undoes(Recording("7"))
      && DownCall(after.db, [Recording("6a"), Recording("7")], env) == Step(after.db, RevertFailed("7"))
  {
    hide Versions, Undoes, DownCall;
    RecordingUndoes("6a");
    RecordingUndoes("7");
    TieOrder();
    TieApplies();
    var all := [Recording("6a"), Recording("7")];
    assert all[|all| - 1].version == "7";
    assert Lookup(all, "7") == Some(Recording("7"));
    DownStops(Database(["7", "6a"], [Row("7", 5), Row("6a", 5)]), "7", all, env);
  }

  lemma TieApplies()
    ensures Applied(Database(["7"], [Row("7", 5)]), Recording("6a"), Commits, 5)
         == Step(Database(["7", "6a"], [Row("7", 5), Row("6a", 5)]), NoError)
  {
    assert [Row("7", 5)] + [Row("6a", 5)] == [Row("7", 5), Row("6a", 5)];
    assert ["7"] + ["6a"] == ["7", "6a"];
    assert !Journaled([Row("7", 5)], "6a");
  }

  lemma TieOrder()
    ensures Versions([Row("7", 5), Row("6a", 5)]) == ["6a", "7"]
  {
    var x, y := Row("7", 5), Row("6a", 5);
    assert Before("6a", "7");
    var less := ByAppliedAt();
    assert less(y, x);
    hide Sort, Earlier, Before;
    SortTwo(x, y, less);
    assert Ordered([x, y]) == [y, x];
    assert VersionsOf([y, x]) == ["6a", "7"];
  }
}
