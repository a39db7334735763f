/** `gbp add-process [-l DATABASE] MACHINE NUMBER PACKAGE PHASE`: build a record
    from the command line and either write it to a local SQLite database or hand it
    to the GraphQL server. */
module CliAddProcess {
  import opened Wrappers
  import opened Types
  import Sqlite
  import Facade

  /** The parsed command line. `local` is the `--local` option, absent by default. */
  datatype Args = Args(local: Option<string>, machine: string, number: string, package: string, phase: string)

  /** `build_process_from_args`; `host` stands for `platform.node()` and `now` for the
      clock, in microseconds. */
  function BuildProcessFromArgs(args: Args, host: string, now: int): BuildProcess
  {
    BuildProcess(args.machine, args.number, host, args.package, args.phase, now)
  }

  /** The command line that names a record: what the tests type. */
  function CommandLine(p: BuildProcess): Args
  {
    Args(None, p.machine, p.buildId, p.package, p.phase)
  }

  /** The record built from a record's own command line, host and clock is that
      record; and a command line is recovered from its record up to `--local`. */
  lemma BuildProcessFromArgsRoundTrip(p: BuildProcess, args: Args, host: string, now: int)
    ensures BuildProcessFromArgs(CommandLine(p), p.buildHost, p.startTime) == p
    ensures CommandLine(BuildProcessFromArgs(args, host, now)) == args.(local := None)
    ensures var q := BuildProcessFromArgs(args, host, now); q.buildHost == host && q.startTime == now
  {
  }

  /** `-l` given with a non-empty path selects the local database. */
  predicate IsLocal(args: Args)
  {
    args.local.Some? && args.local.value != ""
  }

  /** `add_or_update_local_process` on the database's rows: update; add when nothing
      was found; an ownership refusal is swallowed, any other error propagates. */
  function LocalAddOrUpdateStep(rows: seq<Sqlite.Row>, p: BuildProcess): (seq<Sqlite.Row>, Outcome<Error>)
  {
    var (rows1, r1) := Sqlite.UpdateStep(rows, p);
    if r1 == Fail(RecordNotFoundError) then Sqlite.AddStep(rows1, p)
    else if r1 == Fail(UpdateNotAllowedError) then (rows1, Pass)
    else (rows1, r1)
  }

  /** `db` is the repository `Repo(Settings(STORAGE_BACKEND="sqlite", SQLITE_DATABASE=database))`
      opens. */
  method AddOrUpdateLocalProcess(p: BuildProcess, db: Sqlite.SqliteRepository) returns (r: Outcome<Error>)
    requires db.Valid()
    modifies db
    ensures db.Valid()
    ensures (db.rows, r) == LocalAddOrUpdateStep(old(db.rows), p)
  {
    r := db.UpdateProcess(p);
    if r == Fail(RecordNotFoundError) {
      r := db.AddProcess(p);
    } else if r == Fail(UpdateNotAllowedError) {
      r := Pass;
    }
  }

  /** `handler`: with a local database the record is added or updated there and
      `sent` is `None`; otherwise `sent` is the record handed to the GraphQL mutation,
      whose remote call is not modelled, and the database is untouched. The
      local path cannot fail (`LocalAddOrUpdateOutcome`), so the exit status is 0. */
  method Handler(args: Args, host: string, now: int, db: Sqlite.SqliteRepository)
    returns (status: int, sent: Option<BuildProcess>)
    requires db.Valid()
    modifies db
    ensures db.Valid()
    ensures sent.None? <==> IsLocal(args)
    ensures sent.Some? ==> sent.value == BuildProcessFromArgs(args, host, now) && db.rows == old(db.rows)
    ensures IsLocal(args) ==> (db.rows, Pass) == LocalAddOrUpdateStep(old(db.rows), BuildProcessFromArgs(args, host, now))
    ensures status == 0
  {
    var p := BuildProcessFromArgs(args, host, now);
    if IsLocal(args) {
      var r := AddOrUpdateLocalProcess(p, db);
      LocalAddOrUpdateOutcome(old(db.rows), p, db.rows, r);
      sent := None;
    } else {
      sent := Some(p);
    }
    status := 0;
  }

  // ---------------------------------------------------------------------------
  // Properties

  /** The fallback add cannot collide: nothing matched the record's machine, build
      and package, so no row shares its identity. Hence the local add-or-update always
      succeeds. A refused update leaves the rows alone; otherwise every row of the
      process, and there is one, is in the record's phase. */
  lemma LocalAddOrUpdateOutcome(rows: seq<Sqlite.Row>, p: BuildProcess, rows': seq<Sqlite.Row>, r: Outcome<Error>)
    requires Sqlite.Unique(rows)
    requires (rows', r) == LocalAddOrUpdateStep(rows, p)
    ensures Sqlite.Unique(rows')
    ensures r == Pass
    ensures Refused(rows, p) ==> rows' == rows
    ensures !Refused(rows, p) ==>
      (exists x :: x in rows' && Sqlite.Matches(x, p))
      && forall x :: x in rows' && Sqlite.Matches(x, p) ==> x.phase == p.phase
  {
    var (rows1, r1) := Sqlite.UpdateStep(rows, p);
    Sqlite.UpdateOutcome(rows, p, rows1, r1);
    if r1 == Fail(RecordNotFoundError) {
      Sqlite.AddOutcome(rows1, p, rows', r);
      assert !Sqlite.Collides(Sqlite.Deleted(rows, p), Sqlite.ProcessToRow(p)) by {
        forall x | x in Sqlite.Deleted(rows, p) ensures Sqlite.Identity(x) != Sqlite.Identity(Sqlite.ProcessToRow(p)) {
          assert x in rows && !Sqlite.Matches(x, p);
        }
      }
      assert Sqlite.ProcessToRow(p) in rows' && Sqlite.Matches(Sqlite.ProcessToRow(p), p);
      assert forall x :: x in Sqlite.Deleted(rows, p) ==> x in rows && !Sqlite.Matches(x, p);
    } else if r1 == Pass {
      var m := Sqlite.FirstMatch(rows, p).value;
      var j :| 0 <= j < |rows| && rows[j] == m;
      assert Sqlite.Identity(rows'[j]) == Sqlite.Identity(rows[j]);
      assert rows'[j] in rows' && Sqlite.Matches(rows'[j], p);
      forall x | x in rows' && Sqlite.Matches(x, p) ensures x.phase == p.phase {
        var i :| 0 <= i < |rows'| && rows'[i] == x;
        assert Sqlite.Identity(rows'[i]) == Sqlite.Identity(rows[i]);
      }
    }
  }

  /** The ownership rule refuses `p` against the row the update fetches. */
  predicate Refused(rows: seq<Sqlite.Row>, p: BuildProcess)
  {
    Sqlite.FirstMatch(rows, p).Some? && EnsureUpdateable(Sqlite.RowToProcess(Sqlite.FirstMatch(rows, p).value), p).Fail?
  }

  /** The local variant differs from the package-level `add_or_update_process` on a
      SQLite repository only in the result of a refused update: the rows are the same. */
  lemma LocalDiffersOnlyInRefusal(rows: seq<Sqlite.Row>, p: BuildProcess, env: Facade.Env)
    requires env.Ends()
    ensures Facade.AddOrUpdateStep(Facade.SqliteState(rows), p, env)
         == (Facade.SqliteState(LocalAddOrUpdateStep(rows, p).0),
             if Refused(rows, p) then Fail(UpdateNotAllowedError) else LocalAddOrUpdateStep(rows, p).1)
  {
    var (rows1, r1) := Sqlite.UpdateStep(rows, p);
    assert r1 == Fail(UpdateNotAllowedError) <==> Refused(rows, p);
  }

  /** On an empty database the local add-or-update of an unfinished record that
      started on a whole second lists exactly that record. */
  lemma EmptyDatabaseListsRecord(p: BuildProcess)
    requires !IsFinished(p) && p.startTime % Sqlite.MICROS_PER_SECOND == 0
    ensures LocalAddOrUpdateStep([], p) == ([Sqlite.ProcessToRow(p)], Pass)
    ensures Sqlite.Listing(LocalAddOrUpdateStep([], p).0, false) == [p]
  {
    assert Sqlite.FirstMatch([], p).None?;
    Sqlite.AddThenList(p);
  }
}
