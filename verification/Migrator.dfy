/** The schema migrator: journaled up and down scripts, one transaction each. */
module Migrator {
  import opened StableSort
  import opened StringOrder
  import opened Wrappers

  /** Running a script in a transaction: the new schema, or None when a statement fails. */
  type Script<!S> = S -> Option<S>

  /** One parsed .sql file; down is None when the file has no (or a blank) down block. */
  datatype Migration<!S> = Migration(version: string, up: Script<S>, down: Option<Script<S>>)

  datatype Row = Row(version: string, appliedAt: int)

  /** The journal lists its rows in no particular order; SELECT sorts them. */
  datatype Database<S> = Database(schema: S, journal: seq<Row>)

  /** What a transaction meets: a statement of its own that fails whatever the script does, or a commit that
      succeeds, fails, or succeeds without the caller learning of it. */
  datatype Tx = BeginFails | ScriptFails | RecordFails | CommitFails | CommitLost | Commits

  /** The deferred rollback undoes everything. */
  predicate RollsBack(tx: Tx) { !tx.Commits? && !tx.CommitLost? }

  datatype MigrateError =
    | NoError
    | Unavailable
    | ApplyFailed(version: string)
    | RevertFailed(version: string)
    | UnknownVersion(version: string)
    | NoDownBlock(version: string)

  /** What one call meets: whether the journal and the embedded files can be read, and for the i-th
      migration it looks at, how its transaction ends and what now() is. */
  datatype Environment = Environment(available: bool, tx: nat -> Tx, now: nat -> int)

  datatype Step<S> = Step(db: Database<S>, error: MigrateError)

  /* ---- The journal ---- */

  predicate Earlier(a: Row, b: Row) {
    a.appliedAt < b.appliedAt || (a.appliedAt == b.appliedAt && Before(a.version, b.version))
  }

  /** ORDER BY applied_at ASC, version ASC. */
  function ByAppliedAt(): (Row, Row) -> bool { (a: Row, b: Row) => Earlier(a, b) }

  function Ordered(journal: seq<Row>): seq<Row> { Sort(journal, ByAppliedAt()) }

  function VersionsOf(rows: seq<Row>): (vs: seq<string>)
    ensures |vs| == |rows|
  {
    seq(|rows|, i requires 0 <= i < |rows| => rows[i].version)
  }

  /** appliedVersionsOrdered. */
  function Versions(journal: seq<Row>): seq<string> { VersionsOf(Ordered(journal)) }

  predicate Journaled(journal: seq<Row>, version: string) {
    exists i :: 0 <= i < |journal| && journal[i].version == version
  }

  /** DELETE FROM journal WHERE version = v. */
  function Delete(journal: seq<Row>, v: string): seq<Row> {
    if journal == [] then []
    else Delete(journal[..|journal| - 1], v)
         + if journal[|journal| - 1].version == v then [] else [journal[|journal| - 1]]
  }

  lemma {:induction false} DeleteKeepsOthers(journal: seq<Row>, v: string)
    ensures forall row :: row in Delete(journal, v) <==> row in journal && row.version != v
  {
    if journal != [] {
      DeleteKeepsOthers(journal[..|journal| - 1], v);
      assert journal == journal[..|journal| - 1] + [journal[|journal| - 1]];
    }
  }

  /** The primary key. */
  ghost predicate UniqueVersions(journal: seq<Row>) {
    forall i, j :: 0 <= i < j < |journal| ==> journal[i].version != journal[j].version
  }

  lemma SameRows(xs: seq<Row>, ys: seq<Row>)
    requires multiset(xs) == multiset(ys)
    ensures |xs| == |ys|
    ensures forall r :: r in xs <==> r in ys
  {
    SameLength(xs, ys);
    assert forall r :: r in xs <==> r in multiset(xs);
    assert forall r :: r in ys <==> r in multiset(ys);
  }

  lemma VersionsAreJournaled(journal: seq<Row>)
    ensures |Versions(journal)| == |journal|
    ensures forall v :: v in Versions(journal) <==> Journaled(journal, v)
  {
    var rows := Ordered(journal);
    SortPermutes(journal, ByAppliedAt());
    SameRows(journal, rows);
    forall v
      ensures v in Versions(journal) <==> Journaled(journal, v)
    {
      if v in Versions(journal) {
        var i :| 0 <= i < |rows| && rows[i].version == v;
        assert rows[i] in journal;
      }
      if Journaled(journal, v) {
        var i :| 0 <= i < |journal| && journal[i].version == v;
        assert journal[i] in rows;
        var k :| 0 <= k < |rows| && rows[k] == journal[i];
        assert Versions(journal)[k] == v;
      }
    }
  }

  lemma JournaledStays(journal: seq<Row>, longer: seq<Row>)
    requires journal <= longer
    ensures forall v :: Journaled(journal, v) ==> Journaled(longer, v)
  {
    forall v | Journaled(journal, v)
      ensures Journaled(longer, v)
    {
      var i :| 0 <= i < |journal| && journal[i].version == v;
      assert longer[i].version == v;
    }
  }

  /** appliedVersions. */
  function Recorded(journal: seq<Row>): set<string> { set row | row in journal :: row.version }

  lemma RecordedIsJournaled(journal: seq<Row>)
    ensures forall v :: v in Recorded(journal) <==> Journaled(journal, v)
  {
    forall v | v in Recorded(journal)
      ensures Journaled(journal, v)
    {
      var row :| row in journal && row.version == v;
      var i :| 0 <= i < |journal| && journal[i] == row;
    }
  }

  /* ---- What the calls do ---- */

  function Applied<S>(db: Database<S>, mg: Migration<S>, tx: Tx, now: int): Step<S> {
    var failed := Step(db, ApplyFailed(mg.version));
    if RollsBack(tx) then failed
    else match mg.up(db.schema)
      case None => failed
      case Some(s) =>
        if Journaled(db.journal, mg.version) then failed
        else Step(Database(s, db.journal + [Row(mg.version, now)]), if tx.Commits? then NoError else failed.error)
  }

  function Reverted<S>(db: Database<S>, mg: Migration<S>, tx: Tx): Step<S> {
    if mg.down.None? then Step(db, NoDownBlock(mg.version))
    else
      var failed := Step(db, RevertFailed(mg.version));
      if RollsBack(tx) then failed
      else match mg.down.value(db.schema)
        case None => failed
        case Some(s) =>
          Step(Database(s, Delete(db.journal, mg.version)), if tx.Commits? then NoError else failed.error)
  }

  function UpFrom<S>(db: Database<S>, had: set<string>, all: seq<Migration<S>>, env: Environment, i: nat): Step<S>
    requires i <= |all|
    decreases |all| - i
  {
    if i == |all| then Step(db, NoError)
    else if all[i].version in had then UpFrom(db, had, all, env, i + 1)
    else
      var s := Applied(db, all[i], env.tx(i), env.now(i));
      if s.error.NoError? then UpFrom(s.db, had, all, env, i + 1) else s
  }

  /** One round of the loop. */
  lemma UpFromNext<S>(db: Database<S>, had: set<string>, all: seq<Migration<S>>, env: Environment, i: nat)
    requires i < |all|
    ensures all[i].version in had ==>
      && UpFrom(db, had, all, env, i) == UpFrom(db, had, all, env, i + 1)
      && Missing(all, had, i) == Missing(all, had, i + 1)
    ensures all[i].version !in had ==>
      && Missing(all, had, i) == [all[i].version] + Missing(all, had, i + 1)
      && var s := Applied(db, all[i], env.tx(i), env.now(i));
         UpFrom(db, had, all, env, i) == if s.error.NoError? then UpFrom(s.db, had, all, env, i + 1) else s
  {
  }

  lemma UpFromEnd<S>(db: Database<S>, had: set<string>, all: seq<Migration<S>>, env: Environment)
    ensures UpFrom(db, had, all, env, |all|) == Step(db, NoError) && Missing(all, had, |all|) == []
  {
  }

  function UpCall<S>(db: Database<S>, all: seq<Migration<S>>, env: Environment): Step<S> {
    if !env.available then Step(db, Unavailable)
    else UpFrom(db, Recorded(db.journal), all, env, 0)
  }

  /** The versions Up has to apply, from the i-th file on. */
  function Missing<S>(all: seq<Migration<S>>, had: set<string>, i: nat): seq<string>
    requires i <= |all|
    decreases |all| - i
  {
    if i == |all| then []
    else (if all[i].version in had then [] else [all[i].version]) + Missing(all, had, i + 1)
  }

  lemma MissingNext<S>(all: seq<Migration<S>>, had: set<string>, i: nat)
    requires i < |all|
    ensures Missing(all, had, i) == (if all[i].version in had then [] else [all[i].version]) + Missing(all, had, i + 1)
  {
  }

  lemma {:induction false} MissingMeans<S>(all: seq<Migration<S>>, had: set<string>, i: nat, v: string)
    requires i <= |all|
    ensures v in Missing(all, had, i) <==> v !in had && exists j :: i <= j < |all| && all[j].version == v
    decreases |all| - i
  {
    if i < |all| {
      MissingNext(all, had, i);
      MissingMeans(all, had, i + 1, v);
      hide Missing;
      assert all[i].version == v ==> exists j :: i <= j < |all| && all[j].version == v;
    }
  }

  /** What an Up that had to apply missing makes of the journaled versions: a prefix is added, all of it exactly
      when there is no error, and with no lost acknowledgement the error names the first one left out. */
  ghost predicate Extends(before: seq<string>, missing: seq<string>, after: seq<string>,
                          error: MigrateError, lossless: bool) {
    && before <= after <= before + missing
    && (error.NoError? ==> after == before + missing)
    && (!error.NoError? && lossless ==>
          |after| < |before + missing| && error == ApplyFailed((before + missing)[|after|]))
  }

  lemma ExtendsNone(before: seq<string>, lossless: bool)
    ensures Extends(before, [], before, NoError, lossless)
  {
  }

  /** After some rounds of Up: reached is what is journaled, left what is still missing. */
  ghost predicate UpTo(before: seq<string>, missing: seq<string>, left: seq<string>, reached: seq<string>) {
    before <= reached && reached + left == before + missing
  }

  lemma UpToStart(before: seq<string>, missing: seq<string>)
    ensures UpTo(before, missing, missing, before)
  {
  }

  lemma UpToNext(before: seq<string>, missing: seq<string>, v: string, later: seq<string>, reached: seq<string>)
    requires UpTo(before, missing, [v] + later, reached)
    ensures UpTo(before, missing, later, reached + [v])
  {
    assert reached + ([v] + later) == reached + [v] + later;
  }

  lemma AllExtended(before: seq<string>, missing: seq<string>, reached: seq<string>, lossless: bool)
    requires UpTo(before, missing, [], reached)
    ensures reached == before + missing && Extends(before, missing, reached, NoError, lossless)
  {
    assert reached + [] == reached;
  }

  lemma ListedIsJournaled(journal: seq<Row>, v: string)
    requires v in VersionsOf(journal)
    ensures Journaled(journal, v)
  {
  }

  lemma OneJournaled<S>(all: seq<Migration<S>>, before: seq<Row>, after: seq<Row>, j: nat)
    requires before <= after && VersionsOf(after) == VersionsOf(before) + Missing(all, Recorded(before), 0)
    requires j < |all|
    ensures Journaled(after, all[j].version)
  {
    hide Missing, Recorded, Journaled, VersionsOf;
    var v := all[j].version;
    if v in Recorded(before) {
      RecordedIsJournaled(before);
      JournaledStays(before, after);
    } else {
      MissingMeans(all, Recorded(before), 0, v);
      ListedIsJournaled(after, v);
    }
  }

  lemma AllJournaled<S>(all: seq<Migration<S>>, before: seq<Row>, after: seq<Row>)
    requires before <= after && VersionsOf(after) == VersionsOf(before) + Missing(all, Recorded(before), 0)
    ensures forall j :: 0 <= j < |all| ==> Journaled(after, all[j].version)
  {
    hide Missing, Recorded, Journaled, VersionsOf;
    forall j | 0 <= j < |all|
      ensures Journaled(after, all[j].version)
    {
      OneJournaled(all, before, after, j);
    }
  }

  lemma FailedToExtend(before: seq<string>, missing: seq<string>, reached: seq<string>, after: seq<string>,
                       v: string, later: seq<string>, lossless: bool)
    requires UpTo(before, missing, [v] + later, reached)
    requires after == reached || (!lossless && after == reached + [v])
    ensures Extends(before, missing, after, ApplyFailed(v), lossless)
  {
    assert (before + missing)[|reached|] == v;
    assert reached + ([v] + later) == (reached + [v]) + later;
  }

  lemma AddedRow(before: seq<Row>, after: seq<Row>, v: string, now: int)
    requires after == before || after == before + [Row(v, now)]
    ensures before <= after
    ensures after != before ==> VersionsOf(after) == VersionsOf(before) + [v] && Journaled(after, v)
    ensures forall w :: Journaled(before, w) ==> Journaled(after, w)
  {
    if after != before {
      assert after[|before|].version == v;
    }
    JournaledStays(before, after);
  }

  ghost predicate Lossless(env: Environment) {
    forall i :: env.tx(i) != CommitLost
  }

  /** byVersion[v]: the last file with that version. */
  function Lookup<S>(all: seq<Migration<S>>, v: string): Option<Migration<S>> {
    if all == [] then None
    else if all[|all| - 1].version == v then Some(all[|all| - 1])
    else Lookup(all[..|all| - 1], v)
  }

  lemma {:induction false} LookupMeans<S>(all: seq<Migration<S>>, v: string)
    ensures Lookup(all, v).None? <==> forall i :: 0 <= i < |all| ==> all[i].version != v
    ensures Lookup(all, v).Some? ==>
      exists i :: 0 <= i < |all| && all[i] == Lookup(all, v).value && all[i].version == v
                  && forall j :: i < j < |all| ==> all[j].version != v
  {
    if all != [] {
      var front, n := all[..|all| - 1], |all| - 1;
      LookupMeans(front, v);
      if all[n].version != v && Lookup(front, v).Some? {
        var i :| 0 <= i < n && front[i] == Lookup(front, v).value && front[i].version == v
          && forall j :: i < j < n ==> front[j].version != v;
        assert all[i] == Lookup(all, v).value;
      }
    }
  }

  function DownFrom<S>(db: Database<S>, applied: seq<string>, all: seq<Migration<S>>, env: Environment, n: nat): Step<S>
    requires n <= |applied|
    decreases n
  {
    if n == 0 then Step(db, NoError)
    else match Lookup(all, applied[n - 1])
      case None => Step(db, UnknownVersion(applied[n - 1]))
      case Some(mg) =>
        var s := Reverted(db, mg, env.tx(n - 1));
        if s.error.NoError? then DownFrom(s.db, applied, all, env, n - 1) else s
  }

  /** One round of the loop. */
  lemma DownFromNext<S>(db: Database<S>, applied: seq<string>, all: seq<Migration<S>>, env: Environment, n: nat)
    requires 0 < n <= |applied|
    ensures var found := Lookup(all, applied[n - 1]);
      if found.None? then DownFrom(db, applied, all, env, n) == Step(db, UnknownVersion(applied[n - 1]))
      else
        var s := Reverted(db, found.value, env.tx(n - 1));
        DownFrom(db, applied, all, env, n) == if s.error.NoError? then DownFrom(s.db, applied, all, env, n - 1) else s
  {
  }

  lemma DownFromEnd<S>(db: Database<S>, applied: seq<string>, all: seq<Migration<S>>, env: Environment)
    ensures DownFrom(db, applied, all, env, 0) == Step(db, NoError)
  {
  }

  function DownCall<S>(db: Database<S>, all: seq<Migration<S>>, env: Environment): Step<S> {
    if !env.available then Step(db, Unavailable)
    else DownFrom(db, Versions(db.journal), all, env, |Versions(db.journal)|)
  }

  /** after holds the rows of before whose versions are among the first n in SELECT's order. */
  ghost predicate KeptBelow(before: seq<Row>, after: seq<Row>, n: nat)
    requires n <= |Versions(before)|
  {
    forall row :: row in after <==> row in before && row.version !in Versions(before)[n..]
  }

  /** Where a Down that did not complete stopped, and why: at a version that no file has, that has no down block, or
      whose transaction did not commit; what lies below it is untouched, and it only is gone if the acknowledgement
      of the commit was lost. */
  ghost predicate StopsAt<S>(all: seq<Migration<S>>, before: seq<Row>, after: seq<Row>, n: nat, error: MigrateError,
                             lossless: bool) {
    var vs := Versions(before);
    && 0 < n <= |vs|
    && (KeptBelow(before, after, n) || (error.RevertFailed? && !lossless && KeptBelow(before, after, n - 1)))
    && match error
       case UnknownVersion(v) => v == vs[n - 1] && forall i :: 0 <= i < |all| ==> all[i].version != v
       case NoDownBlock(v) => v == vs[n - 1] && exists i :: 0 <= i < |all| && all[i].version == v && all[i].down.None?
       case RevertFailed(v) => v == vs[n - 1]
       case _ => false
  }

  lemma NothingReverted(journal: seq<Row>)
    ensures KeptBelow(journal, journal, |Versions(journal)|)
  {
  }

  lemma OneReverted(before: seq<Row>, reached: seq<Row>, after: seq<Row>, n: nat)
    requires 0 < n <= |Versions(before)| && KeptBelow(before, reached, n)
    requires forall row :: row in after <==> row in reached && row.version != Versions(before)[n - 1]
    ensures KeptBelow(before, after, n - 1)
  {
    var vs := Versions(before);
    assert vs[n - 1..] == [vs[n - 1]] + vs[n..];
  }

  lemma LookupNames<S>(all: seq<Migration<S>>, v: string)
    ensures Lookup(all, v).Some? ==> Lookup(all, v).value.version == v
  {
    LookupMeans(all, v);
  }

  lemma StoppedAt<S>(all: seq<Migration<S>>, before: seq<Row>, reached: seq<Row>, after: seq<Row>, n: nat,
                     error: MigrateError, env: Environment)
    requires 0 < n <= |Versions(before)| && KeptBelow(before, reached, n)
    requires var v := Versions(before)[n - 1]; var found := Lookup(all, v);
      || (found.None? && error == UnknownVersion(v) && after == reached)
      || (found.Some? && found.value.down.None? && error == NoDownBlock(v) && after == reached)
      || (found.Some? && error == RevertFailed(v)
          && (after == reached || (env.tx(n - 1) == CommitLost
                                   && forall row :: row in after <==> row in reached && row.version != v)))
    ensures StopsAt(all, before, after, n, error, Lossless(env))
  {
    hide KeptBelow, Versions, Lookup;
    LookupMeans(all, Versions(before)[n - 1]);
    if after != reached {
      OneReverted(before, reached, after, n);
    }
  }

  lemma SomeRow(journal: seq<Row>)
    ensures journal == [] || exists row :: row in journal
  {
    assert journal != [] ==> journal[0] in journal;
  }

  lemma AllReverted(before: seq<Row>, after: seq<Row>)
    requires KeptBelow(before, after, 0)
    ensures after == []
  {
    VersionsAreJournaled(before);
    forall row | row in before
      ensures row.version in Versions(before)[0..]
    {
      var i :| 0 <= i < |before| && before[i] == row;
      assert Journaled(before, row.version);
    }
    SomeRow(after);
  }

  /* ---- The migrator ---- */

  class Migrator<!S> {
    var schema: S
    var journal: seq<Row>

    constructor (schema: S)
      ensures Db() == Database(schema, [])
    {
      this.schema, journal := schema, [];
    }

    function Db(): Database<S>
      reads this
    {
      Database(schema, journal)
    }

    /** One transaction: the script and its journal row land together or not at all, whichever statement
        fails, and they land exactly when nothing did; a version that is journaled is not applied again. */
    method ApplyOne(mg: Migration<S>, tx: Tx, now: int) returns (error: MigrateError)
      modifies this
      ensures Db() == old(Db())
        || (mg.up(old(schema)) == Some(schema) && journal == old(journal) + [Row(mg.version, now)])
      ensures |journal| != |old(journal)|
        <==> !RollsBack(tx) && mg.up(old(schema)).Some? && !Journaled(old(journal), mg.version)
      ensures error == if |journal| != |old(journal)| && tx.Commits? then NoError else ApplyFailed(mg.version)
      ensures Step(Db(), error) == Applied(old(Db()), mg, tx, now)
    {
      error := ApplyFailed(mg.version);
      if tx == BeginFails {
        return;
      }
      var seen := Db();
      var after := mg.up(seen.schema);
      if tx == ScriptFails || after.None? {
        return;
      }
      seen := seen.(schema := after.value);
      if tx == RecordFails || Journaled(seen.journal, mg.version) {
        return;
      }
      seen := seen.(journal := seen.journal + [Row(mg.version, now)]);
      if tx == CommitFails {
        return;
      }
      schema, journal := seen.schema, seen.journal;
      error := if tx == CommitLost then error else NoError;
    }

    /** The same for a down script and the deletion of its row; nothing is tried without a down block. */
    method RevertOne(mg: Migration<S>, tx: Tx) returns (error: MigrateError)
      modifies this
      ensures mg.down.None? || RollsBack(tx) || mg.down.value(old(schema)).None? ==>
        Db() == old(Db()) && error == if mg.down.None? then NoDownBlock(mg.version) else RevertFailed(mg.version)
      ensures mg.down.Some? && !RollsBack(tx) && mg.down.value(old(schema)).Some? ==>
        && Some(schema) == mg.down.value(old(schema))
        && (forall row :: row in journal <==> row in old(journal) && row.version != mg.version)
        && journal == Delete(old(journal), mg.version)
        && error == if tx.Commits? then NoError else RevertFailed(mg.version)
      ensures Step(Db(), error) == Reverted(old(Db()), mg, tx)
    {
      if mg.down.None? {
        return NoDownBlock(mg.version);
      }
      error := RevertFailed(mg.version);
      if tx == BeginFails {
        return;
      }
      var seen := Db();
      var after := mg.down.value(seen.schema);
      if tx == ScriptFails || after.None? {
        return;
      }
      seen := seen.(schema := after.value);
      if tx == RecordFails {
        return;
      }
      DeleteKeepsOthers(seen.journal, mg.version);
      seen := seen.(journal := Delete(seen.journal, mg.version));
      if tx == CommitFails {
        return;
      }
      schema, journal := seen.schema, seen.journal;
      error := if tx == CommitLost then error else NoError;
    }

    /** One round of Up: the i-th file. */
    method ApplyNext(all: seq<Migration<S>>, had: set<string>, env: Environment, i: nat,
                     ghost was: seq<string>, ghost missing: seq<string>)
      returns (error: MigrateError)
      requires i < |all| && UpTo(was, missing, Missing(all, had, i), VersionsOf(journal))
      modifies this
      ensures old(journal) <= journal
      ensures error.NoError? ==> UpTo(was, missing, Missing(all, had, i + 1), VersionsOf(journal))
      ensures !error.NoError? ==>
        !error.Unavailable? && Extends(was, missing, VersionsOf(journal), error, Lossless(env))
      ensures UpFrom(old(Db()), had, all, env, i)
           == if error.NoError? then UpFrom(Db(), had, all, env, i + 1) else Step(Db(), error)
    {
      hide Applied, Journaled, Extends, VersionsOf, UpFrom, Missing, UpTo;
      UpFromNext(Db(), had, all, env, i);
      if all[i].version in had {
        return NoError;
      }
      ghost var before := journal;
      error := ApplyOne(all[i], env.tx(i), env.now(i));
      AddedRow(before, journal, all[i].version, env.now(i));
      if error == NoError {
        UpToNext(was, missing, all[i].version, Missing(all, had, i + 1), VersionsOf(before));
      } else {
        FailedToExtend(was, missing, VersionsOf(before), VersionsOf(journal), all[i].version,
                       Missing(all, had, i + 1), Lossless(env));
      }
    }

    /** Adds what is missing, in the order of all, up to the first failure. */
    method Up(all: seq<Migration<S>>, env: Environment) returns (error: MigrateError)
      modifies this
      ensures error.Unavailable? <==> !env.available
      ensures !env.available ==> Db() == old(Db())
      ensures env.available ==>
        && old(journal) <= journal
        && Extends(VersionsOf(old(journal)), Missing(all, Recorded(old(journal)), 0), VersionsOf(journal), error,
                   Lossless(env))
      ensures error.NoError? ==> forall j :: 0 <= j < |all| ==> Journaled(journal, all[j].version)
      ensures Step(Db(), error) == UpCall(old(Db()), all, env)
    {
      if !env.available {
        return Unavailable;
      }
      var applied := Recorded(journal);
      assert UpCall(Db(), all, env) == UpFrom(Db(), applied, all, env, 0);
      hide Journaled, Extends, VersionsOf, Recorded, UpFrom, UpCall, Missing, UpTo, Lossless;
      ghost var was, missing := VersionsOf(journal), Missing(all, applied, 0);
      UpToStart(was, missing);
      var i := 0;
      while i < |all|
        invariant i <= |all| && old(journal) <= journal
        invariant UpCall(old(Db()), all, env) == UpFrom(Db(), applied, all, env, i)
        invariant UpTo(was, missing, Missing(all, applied, i), VersionsOf(journal))
      {
        var err := ApplyNext(all, applied, env, i, was, missing);
        if err != NoError {
          return err;
        }
        i := i + 1;
      }
      UpFromEnd(Db(), applied, all, env);
      AllExtended(was, missing, VersionsOf(journal), Lossless(env));
      AllJournaled(all, old(journal), journal);
      return NoError;
    }

    /** One round of Down: the n-th version of the journal was. */
    method RevertNext(all: seq<Migration<S>>, applied: seq<string>, env: Environment, n: nat, ghost was: seq<Row>)
      returns (error: MigrateError)
      requires applied == Versions(was) && 0 < n <= |applied| && KeptBelow(was, journal, n)
      modifies this
      ensures error.NoError? ==> KeptBelow(was, journal, n - 1)
      ensures !error.NoError? ==> !error.Unavailable? && StopsAt(all, was, journal, n, error, Lossless(env))
      ensures DownFrom(old(Db()), applied, all, env, n)
           == if error.NoError? then DownFrom(Db(), applied, all, env, n - 1) else Step(Db(), error)
    {
      hide Versions, Lookup, Delete, Reverted, KeptBelow, Journaled, StopsAt, Lossless, DownFrom;
      DownFromNext(Db(), applied, all, env, n);
      LookupNames(all, applied[n - 1]);
      var found := Lookup(all, applied[n - 1]);
      if found.None? {
        StoppedAt(all, was, journal, journal, n, UnknownVersion(applied[n - 1]), env);
        return UnknownVersion(applied[n - 1]);
      }
      ghost var before := journal;
      error := RevertOne(found.value, env.tx(n - 1));
      if error == NoError {
        OneReverted(was, before, journal, n);
      } else {
        StoppedAt(all, was, before, journal, n, error, env);
      }
    }

    /** Takes versions off the end of SELECT's order, and stops at the first that cannot be reverted. */
    method Down(all: seq<Migration<S>>, env: Environment) returns (error: MigrateError)
      modifies this
      ensures error.Unavailable? <==> !env.available
      ensures !env.available ==> Db() == old(Db())
      ensures error.NoError? ==> journal == []
      ensures env.available && !error.NoError? ==>
        exists n :: StopsAt(all, old(journal), journal, n, error, Lossless(env))
      ensures Step(Db(), error) == DownCall(old(Db()), all, env)
    {
      if !env.available {
        return Unavailable;
      }
      hide Versions, Lookup, Reverted, KeptBelow, StopsAt, DownFrom;
      var applied := Versions(journal);
      var n: nat := |applied|;
      NothingReverted(journal);
      while n > 0
        invariant n <= |applied| && KeptBelow(old(journal), journal, n)
        invariant DownCall(old(Db()), all, env) == DownFrom(Db(), applied, all, env, n)
      {
        var err := RevertNext(all, applied, env, n, old(journal));
        if err != NoError {
          return err;
        }
        n := n - 1;
      }
      DownFromEnd(Db(), applied, all, env);
      AllReverted(old(journal), journal);
      return NoError;
    }
  }
}
