/** The package-level operations: `get_processes`, `add_process`, `update_process`
    and `add_or_update_process` on whichever repository is configured. The
    configured repository is one of the two backends. */
module Facade {
  import opened Wrappers
  import opened Types
  import Dict
  import SiteCache
  import Sqlite

  /** What the environment supplies to one call: the clock in microseconds, and one
      lock attempt for each `lock()` the call may take on the site cache. The SQLite
      backend ignores all of it. */
  datatype Env = Env(
    now: int,
    listLock: SiteCache.LockAttempt,
    deleteLock: SiteCache.LockAttempt,
    insertLock: SiteCache.LockAttempt,
    updateLock: SiteCache.LockAttempt)
  {
    predicate Ends()
    {
      listLock.Ends(SiteCache.LOCK_TIMEOUT) && deleteLock.Ends(SiteCache.LOCK_TIMEOUT)
      && insertLock.Ends(SiteCache.LOCK_TIMEOUT) && updateLock.Ends(SiteCache.LOCK_TIMEOUT)
    }
  }

  /** The stored state of the configured repository. */
  datatype RepoState =
    | SiteCacheState(cache: SiteCache.CacheState, expiration: int)
    | SqliteState(rows: seq<Sqlite.Row>)

  /** Each backend's own invariant: one entry per key, or the unique index. */
  ghost predicate ValidState(st: RepoState)
  {
    match st
    case SiteCacheState(c, _) => SiteCache.WellKeyed(c.table)
    case SqliteState(rows) => Sqlite.Unique(rows)
  }

  /** The stored record that an update of `p` starts from: the entry under its key,
      or the row `fetchone` returns. */
  function StoredFor(st: RepoState, p: BuildProcess): Option<BuildProcess>
  {
    match st
    case SiteCacheState(c, _) => Dict.Get(c.table, SiteCache.GetKey(p))
    case SqliteState(rows) =>
      match Sqlite.FirstMatch(rows, p)
      case None => None
      case Some(row) => Some(Sqlite.RowToProcess(row))
  }

  /** Every record the repository holds, listed or not. */
  function Stored(st: RepoState): seq<BuildProcess>
  {
    match st
    case SiteCacheState(c, _) => Dict.Values(c.table)
    case SqliteState(rows) => seq(|rows|, i requires 0 <= i < |rows| => Sqlite.RowToProcess(rows[i]))
  }

  /** `get_processes(include_final)` */
  function ListStep(st: RepoState, includeFinal: bool, env: Env): (RepoState, Result<seq<BuildProcess>, Error>)
    requires env.Ends()
  {
    match st
    case SiteCacheState(c, expiration) =>
      var (c', r) := SiteCache.GetProcessesStep(c, includeFinal, None, env.now, expiration, env.listLock);
      (SiteCacheState(c', expiration), r)
    case SqliteState(rows) => (st, Success(Sqlite.Listing(rows, includeFinal)))
  }

  /** `add_process(process)` */
  function AddStep(st: RepoState, p: BuildProcess, env: Env): (RepoState, Outcome<Error>)
    requires env.Ends()
  {
    match st
    case SiteCacheState(c, expiration) =>
      var (c', r) := SiteCache.AddStep(c, p, env.deleteLock, env.insertLock);
      (SiteCacheState(c', expiration), r)
    case SqliteState(rows) =>
      var (rows', r) := Sqlite.AddStep(rows, p);
      (SqliteState(rows'), r)
  }

  /** `update_process(process)` */
  function UpdateStep(st: RepoState, p: BuildProcess, env: Env): (RepoState, Outcome<Error>)
    requires env.Ends()
  {
    match st
    case SiteCacheState(c, expiration) =>
      var (c', r) := SiteCache.UpdateStep(c, p, env.updateLock);
      (SiteCacheState(c', expiration), r)
    case SqliteState(rows) =>
      var (rows', r) := Sqlite.UpdateStep(rows, p);
      (SqliteState(rows'), r)
  }

  /** `add_or_update_process(process)`: update, and add only when the update found
      nothing; every other error reaches the caller. */
  function AddOrUpdateStep(st: RepoState, p: BuildProcess, env: Env): (RepoState, Outcome<Error>)
    requires env.Ends()
  {
    var (st1, r1) := UpdateStep(st, p, env);
    if r1 == Fail(RecordNotFoundError) then AddStep(st1, p, env) else (st1, r1)
  }

  /** The configured repository object. */
  datatype Repo = SiteCacheRepo(sc: SiteCache.SiteCacheRepository) | SqliteRepo(db: Sqlite.SqliteRepository)
  {
    function Objs(): set<object>
    {
      match this
      case SiteCacheRepo(sc) => {sc}
      case SqliteRepo(db) => {db}
    }

    ghost predicate Valid()
      reads Objs()
    {
      match this
      case SiteCacheRepo(sc) => sc.Valid()
      case SqliteRepo(db) => db.Valid()
    }

    function State(): RepoState
      reads Objs()
    {
      match this
      case SiteCacheRepo(sc) => SiteCacheState(sc.State(), sc.expiration)
      case SqliteRepo(db) => SqliteState(db.rows)
    }
  }

  method GetProcesses(repo: Repo, env: Env, includeFinal: bool := false)
    returns (r: Result<seq<BuildProcess>, Error>)
    requires repo.Valid() && env.Ends()
    modifies repo.Objs()
    ensures repo.Valid()
    ensures (repo.State(), r) == ListStep(old(repo.State()), includeFinal, env)
  {
    match repo
    case SiteCacheRepo(sc) =>
      r := sc.GetProcesses(env.now, env.listLock, includeFinal);
    case SqliteRepo(db) =>
      var ps := db.GetProcesses(includeFinal);
      r := Success(ps);
  }

  method AddProcess(repo: Repo, p: BuildProcess, env: Env) returns (r: Outcome<Error>)
    requires repo.Valid() && env.Ends()
    modifies repo.Objs()
    ensures repo.Valid()
    ensures (repo.State(), r) == AddStep(old(repo.State()), p, env)
  {
    match repo
    case SiteCacheRepo(sc) =>
      r := sc.AddProcess(p, env.deleteLock, env.insertLock);
    case SqliteRepo(db) =>
      r := db.AddProcess(p);
  }

  method UpdateProcess(repo: Repo, p: BuildProcess, env: Env) returns (r: Outcome<Error>)
    requires repo.Valid() && env.Ends()
    modifies repo.Objs()
    ensures repo.Valid()
    ensures (repo.State(), r) == UpdateStep(old(repo.State()), p, env)
  {
    match repo
    case SiteCacheRepo(sc) =>
      r := sc.UpdateProcess(p, env.updateLock);
    case SqliteRepo(db) =>
      r := db.UpdateProcess(p);
  }

  method AddOrUpdateProcess(repo: Repo, p: BuildProcess, env: Env) returns (r: Outcome<Error>)
    requires repo.Valid() && env.Ends()
    modifies repo.Objs()
    ensures repo.Valid()
    ensures (repo.State(), r) == AddOrUpdateStep(old(repo.State()), p, env)
  {
    r := UpdateProcess(repo, p, env);
    if r == Fail(RecordNotFoundError) {
      r := AddProcess(repo, p, env);
    }
  }

  // ---------------------------------------------------------------------------
  // Properties

  /** `add_or_update_process` never reports a missing record; it reports an
      ownership refusal exactly when the stored record refuses `p`, and then changes
      nothing; on success the stored record for `p` has `p`'s phase. */
  lemma AddOrUpdateOutcome(st: RepoState, p: BuildProcess, env: Env, st': RepoState, r: Outcome<Error>)
    requires ValidState(st) && env.Ends()
    requires (st', r) == AddOrUpdateStep(st, p, env)
    ensures ValidState(st')
    ensures r != Fail(RecordNotFoundError)
    ensures r == Fail(UpdateNotAllowedError)
        <==> StoredFor(st, p).Some? && EnsureUpdateable(StoredFor(st, p).value, p).Fail?
    ensures r == Fail(UpdateNotAllowedError) ==> st' == st
    ensures r == Pass ==> StoredFor(st', p).Some? && StoredFor(st', p).value.phase == p.phase
  {
    match st
    case SiteCacheState(c, expiration) =>
      var (c1, r1) := SiteCache.UpdateStep(c, p, env.updateLock);
      SiteCache.UpdateOutcome(c, p, env.updateLock, c1, r1);
      if r1 == Fail(RecordNotFoundError) {
        var (c2, r2) := SiteCache.AddStep(c1, p, env.deleteLock, env.insertLock);
        SiteCache.AddOutcome(c1, p, env.deleteLock, env.insertLock, c2, r2);
        if r2 == Pass {
          assert Dict.Get(c2.table, SiteCache.GetKey(p)) == Some(p);
        }
      }
    case SqliteState(rows) =>
      var (rows1, r1) := Sqlite.UpdateStep(rows, p);
      Sqlite.UpdateOutcome(rows, p, rows1, r1);
      if r1 == Fail(RecordNotFoundError) {
        var (rows2, r2) := Sqlite.AddStep(rows1, p);
        Sqlite.AddOutcome(rows1, p, rows2, r2);
        if r2 == Pass {
          var row := Sqlite.ProcessToRow(p);
          assert row in rows2 && Sqlite.Matches(row, p);
          assert forall x :: x in Sqlite.Deleted(rows1, p) ==> x in rows1 && !Sqlite.Matches(x, p);
          var m := Sqlite.FirstMatch(rows2, p).value;
          assert m in Sqlite.Deleted(rows1, p) + [row];
        }
      } else if r1 == Pass {
        var m0 := Sqlite.FirstMatch(rows, p).value;
        var j :| 0 <= j < |rows| && rows[j] == m0;
        assert Sqlite.Identity(rows1[j]) == Sqlite.Identity(rows[j]);
        assert Sqlite.Matches(rows1[j], p);
        var m := Sqlite.FirstMatch(rows1, p).value;
        var i :| 0 <= i < |rows1| && rows1[i] == m;
        assert Sqlite.Identity(rows1[i]) == Sqlite.Identity(rows[i]);
      }
  }

  /** `add_or_update_process(p)` writes no record other than one in `p`'s phase:
      everything it holds afterwards was held before or is in that phase. */
  lemma AddOrUpdateWritesOnlyPhase(st: RepoState, p: BuildProcess, env: Env, st': RepoState, r: Outcome<Error>)
    requires ValidState(st) && env.Ends()
    requires (st', r) == AddOrUpdateStep(st, p, env)
    ensures forall x :: x in Stored(st') ==> x in Stored(st) || x.phase == p.phase
  {
    match st
    case SiteCacheState(c, expiration) =>
      SiteCacheWritesOnlyPhase(c, expiration, p, env, st'.cache);
      forall x | x in Stored(st') ensures x in Stored(st) || x.phase == p.phase {
        Dict.ValuesMember(st'.cache.table, x);
        Dict.ValuesMember(c.table, x);
      }
    case SqliteState(rows) =>
      var (rows1, r1) := Sqlite.UpdateStep(rows, p);
      if r1 == Fail(RecordNotFoundError) {
        assert rows1 == rows && st'.rows == Sqlite.AddStep(rows, p).0;
      }
      SqliteWritesOnlyPhase(rows, p, st'.rows);
      StoredRowsWritten(rows, st'.rows, p.phase);
  }

  /** Rows that were held before or are in `phase` give records of the same kind. */
  lemma StoredRowsWritten(rows: seq<Sqlite.Row>, rows': seq<Sqlite.Row>, phase: string)
    requires forall x :: x in rows' ==> x in rows || x.phase == phase
    ensures forall x :: x in Stored(SqliteState(rows')) ==> x in Stored(SqliteState(rows)) || x.phase == phase
  {
    forall x | x in Stored(SqliteState(rows')) ensures x in Stored(SqliteState(rows)) || x.phase == phase {
      var i :| 0 <= i < |rows'| && Stored(SqliteState(rows'))[i] == x;
      if rows'[i] in rows {
        var j :| 0 <= j < |rows| && rows[j] == rows'[i];
        assert Stored(SqliteState(rows))[j] == x;
      }
    }
  }

  lemma SiteCacheWritesOnlyPhase(c: SiteCache.CacheState, expiration: int, p: BuildProcess, env: Env,
                                  c': SiteCache.CacheState)
    requires SiteCache.WellKeyed(c.table) && env.Ends()
    requires c' == AddOrUpdateStep(SiteCacheState(c, expiration), p, env).0.cache
    ensures forall e :: e in c'.table ==> e in c.table || e.1.phase == p.phase
  {
    var (c1, r1) := SiteCache.UpdateStep(c, p, env.updateLock);
    SiteCache.UpdateEntries(c, p, env.updateLock);
    if r1 == Fail(RecordNotFoundError) {
      SiteCache.UpdateOutcome(c, p, env.updateLock, c1, r1);
      SiteCache.AddEntries(c1, p, env.deleteLock, env.insertLock);
    }
  }

  lemma SqliteWritesOnlyPhase(rows: seq<Sqlite.Row>, p: BuildProcess, rows': seq<Sqlite.Row>)
    requires rows' == Sqlite.UpdateStep(rows, p).0 || rows' == Sqlite.AddStep(rows, p).0
    ensures forall x :: x in rows' ==> x in rows || x.phase == p.phase
  {
    Sqlite.UpdateRows(rows, p);
    Sqlite.AddRows(rows, p);
  }

  /** An uncontended lock attempt: free at the first reading, nobody else writing. */
  function Uncontended(): (a: SiteCache.LockAttempt)
    ensures a.Ends(SiteCache.LOCK_TIMEOUT)
    ensures forall held :: SiteCache.Poll(held, a, SiteCache.LOCK_TIMEOUT, 0)
                           == if held.None? then (true, Some("t")) else (false, held)
  {
    var a := SiteCache.LockAttempt("t", 0, [0, SiteCache.LOCK_TIMEOUT], [Some("t"), Some("t")]);
    assert forall held: Option<string> :: held.Some? ==> SiteCache.Poll(held, a, SiteCache.LOCK_TIMEOUT, 1) == (false, held);
    a
  }

  /** The backends part ways on a new build's add: a stale record of the package in
      the "clean" phase survives on the site cache and is deleted by SQLite. */
  lemma SupersessionDiffers()
    ensures var p := BuildProcess("babette", "1032", "jenkins", "sys-apps/systemd", "compile", 0);
      var stale := p.(buildId := "1031", phase := "clean");
      var c := SiteCache.CacheState([(SiteCache.GetKey(stale), stale)], None, false);
      && SiteCache.AddStep(c, p, Uncontended(), Uncontended()).0.table
         == [(SiteCache.GetKey(stale), stale), (SiteCache.GetKey(p), p)]
      && Sqlite.AddStep([Sqlite.ProcessToRow(stale)], p).0 == [Sqlite.ProcessToRow(p)]
  {
    var p := BuildProcess("babette", "1032", "jenkins", "sys-apps/systemd", "compile", 0);
    var stale := p.(buildId := "1031", phase := "clean");
    var t := [(SiteCache.GetKey(stale), stale)];
    assert !SiteCache.SameProcDifferentBuild(stale, p) by {
      assert "clean" !in BUILD_PHASES;
    }
    Dict.KeepIfAll(t, (k: string, e: BuildProcess) => !SiteCache.SameProcDifferentBuild(e, p));
    assert SiteCache.GetKey(p) != SiteCache.GetKey(stale) by {
      assert ':' !in p.machine && ':' !in p.buildId && ':' !in stale.buildId;
      SiteCache.GetKeyIdentity(p, stale);
    }
    assert SiteCache.GetKey(p) !in Dict.Keys(t);
    Dict.PutInPlace(t, SiteCache.GetKey(p), p);
    var rows := [Sqlite.ProcessToRow(stale)];
    assert Sqlite.Stale(rows[0], p);
    assert rows[1..] == [];
    assert Sqlite.Deleted(rows, p) == [];
    assert !Sqlite.Collides([], Sqlite.ProcessToRow(p));
  }

  /** ... and on an update from another host: the site cache takes the new build
      host, SQLite keeps the old one. */
  lemma UpdateHostDiffers()
    ensures var p := BuildProcess("babette", "1031", "jenkins", "pipeline", "clean", 0);
      var q := p.(buildHost := "gbp", phase := "pull");
      var c := SiteCache.CacheState([(SiteCache.GetKey(p), p)], None, false);
      && SiteCache.UpdateStep(c, q, Uncontended()).0.table == [(SiteCache.GetKey(p), q)]
      && Sqlite.UpdateStep([Sqlite.ProcessToRow(p)], q).0 == [Sqlite.ProcessToRow(p.(phase := "pull"))]
  {
    var u := BuildProcess("babette", "1031", "jenkins", "pipeline", "clean", 0);
    var q := u.(buildHost := "gbp", phase := "pull");
    var t := [(SiteCache.GetKey(u), u)];
    assert SiteCache.GetKey(q) == SiteCache.GetKey(u);
    assert Dict.Get(t, SiteCache.GetKey(q)) == Some(u);
    assert !IsFinalPhase("pull");
    assert Dict.Put(t, SiteCache.GetKey(u), q) == [(SiteCache.GetKey(u), q)];
    var rows := [Sqlite.ProcessToRow(u)];
    assert Sqlite.FirstMatch(rows, q) == Some(rows[0]);
    assert Sqlite.SetPhase(rows, q) == [Sqlite.ProcessToRow(u.(phase := "pull"))];
  }
}
