/** The site-cache backend. The store offers only get/set/delete/contains on
    opaque values, so the whole process table is one value under the key "table",
    mutual exclusion is a polling lock on the key "lock", and expiry is a scan
    that runs only while the "purged" marker is absent.

    The clock (`monotonic`, `datetime.now`), `uuid4` and anything another writer
    does to the "lock" key reach the model as parameters. */
module SiteCache {
  import opened Wrappers
  import opened Types
  import Dict
  import Seqs

  /** The "table" value: process key to record, in insertion order. */
  type Table = Dict.Dict<string, BuildProcess>

  /** `lock(timeout=10.0)`; the lock's clock is read in milliseconds. */
  const LOCK_TIMEOUT: int := 10000

  const MICROS_PER_SECOND: int := 1000000

  /** `get_key`: "machine:build_id:package". */
  function GetKey(p: BuildProcess): string
  {
    p.machine + ":" + p.buildId + ":" + p.package
  }

  /** `same_proc_different_build(e, p)`: `e` is a stale record of the package `p`
      is a new build of, and `e` is still in a build phase. */
  predicate SameProcDifferentBuild(e: BuildProcess, p: BuildProcess)
  {
    e.package == p.package && e.machine == p.machine && e.buildId != p.buildId
    && e.phase in BUILD_PHASES
  }

  /** Every entry is stored once, under the key of its own record. */
  ghost predicate WellKeyed(t: Table)
  {
    Dict.DistinctKeys(t) && forall i :: 0 <= i < |t| ==> t[i].0 == GetKey(t[i].1)
  }

  /** What one call of `lock()` observes: its own token (`uuid4`), the clock reading
      taken before the loop, one clock reading per iteration, and per iteration the
      value of "lock" read back right after writing the token (`Some(token)` unless
      another writer got in between). */
  datatype LockAttempt = LockAttempt(
    token: string,
    start: int,
    clock: seq<int>,
    readBack: seq<Option<string>>)
  {
    /** A monotonic clock eventually reaches the timeout. */
    predicate Ends(timeout: int)
    {
      |clock| == |readBack| && |clock| > 0 && clock[|clock| - 1] - start >= timeout
    }
  }

  /** The polling loop of `lock` from iteration `i` on, when "lock" holds `held`.
      Gives whether the lock was acquired and what "lock" holds afterwards. */
  function Poll(held: Option<string>, a: LockAttempt, timeout: int, i: nat): (r: (bool, Option<string>))
    requires a.Ends(timeout) && i < |a.clock|
    decreases |a.clock| - i
  {
    if a.clock[i] - a.start >= timeout then (false, held)
    else if held.Some? then Poll(held, a, timeout, i + 1)
    else if a.readBack[i] == Some(a.token) then (true, a.readBack[i])
    else Poll(a.readBack[i], a, timeout, i + 1)
  }

  /** The store's three keys. */
  datatype CacheState = CacheState(table: Table, lock: Option<string>, purged: bool)

  /** `with self.lock(): self.set_table(newTable)`: on acquisition the table is
      written and "lock" deleted; on timeout nothing but "lock" is as it was seen. */
  function WithLock(s: CacheState, a: LockAttempt, newTable: Table): (CacheState, Outcome<Error>)
    requires a.Ends(LOCK_TIMEOUT)
  {
    var (acquired, held) := Poll(s.lock, a, LOCK_TIMEOUT, 0);
    if acquired then (CacheState(newTable, None, s.purged), Pass)
    else (s.(lock := held), Fail(TimeoutError))
  }

  /** The table without the records that a new build `p` supersedes. */
  function Superseded(t: Table, p: BuildProcess): Table
  {
    Dict.KeepIf(t, (k: string, e: BuildProcess) => !SameProcDifferentBuild(e, p))
  }

  /** `delete_existing_processes` */
  function DeleteExistingStep(s: CacheState, p: BuildProcess, a: LockAttempt): (CacheState, Outcome<Error>)
    requires a.Ends(LOCK_TIMEOUT)
  {
    WithLock(s, a, Superseded(s.table, p))
  }

  /** `add_process`: supersede, refuse a key already present, insert under lock. */
  function AddStep(s: CacheState, p: BuildProcess, a1: LockAttempt, a2: LockAttempt): (CacheState, Outcome<Error>)
    requires a1.Ends(LOCK_TIMEOUT) && a2.Ends(LOCK_TIMEOUT)
  {
    var (s1, r1) := DeleteExistingStep(s, p, a1);
    if r1.Fail? then (s1, r1)
    else if GetKey(p) in Dict.Keys(s1.table) then (s1, Fail(RecordAlreadyExists))
    else WithLock(s1, a2, Dict.Put(s1.table, GetKey(p), p))
  }

  /** `update_process`: look up by key, check ownership, then write under lock the
      stored record with the new phase and build host. */
  function UpdateStep(s: CacheState, p: BuildProcess, a: LockAttempt): (CacheState, Outcome<Error>)
    requires a.Ends(LOCK_TIMEOUT)
  {
    var key := GetKey(p);
    match Dict.Get(s.table, key)
    case None => (s, Fail(RecordNotFoundError))
    case Some(existing) =>
      if EnsureUpdateable(existing, p).Fail? then (s, EnsureUpdateable(existing, p))
      else WithLock(s, a, Dict.Put(s.table, key, existing.(phase := p.phase, buildHost := p.buildHost)))
  }

  /** A record that started less than `expiration` microseconds before `now`. */
  predicate Fresh(e: BuildProcess, now: int, expiration: int)
  {
    now - e.startTime < expiration
  }

  function Live(t: Table, now: int, expiration: int): Table
  {
    Dict.KeepIf(t, (k: string, e: BuildProcess) => Fresh(e, now, expiration))
  }

  /** The cache's key timeout (`set_timeout(SITECACHE_PROCESS_EXPIRATION)`) runs out
      for the "purged" marker: the next `ps` scans again. */
  function MarkerLapses(s: CacheState): CacheState
  {
    s.(purged := false)
  }

  /** `ps`: with the "purged" marker present, the table as it is; otherwise, under
      lock, the fresh records, with the expired ones deleted and the marker set. */
  function PsStep(s: CacheState, now: int, expiration: int, a: LockAttempt)
    : (CacheState, Result<seq<BuildProcess>, Error>)
    requires a.Ends(LOCK_TIMEOUT)
  {
    if s.purged then (s, Success(Dict.Values(s.table)))
    else
      var (acquired, held) := Poll(s.lock, a, LOCK_TIMEOUT, 0);
      if !acquired then (s.(lock := held), Failure(TimeoutError))
      else
        var live := Live(s.table, now, expiration);
        (CacheState(live, None, true), Success(Dict.Values(live)))
  }

  /** The `get_processes` comprehension's test: a missing or empty machine does not
      filter; final records only with `includeFinal`. */
  predicate Listed(p: BuildProcess, includeFinal: bool, machine: Option<string>)
  {
    (machine.None? || machine.value == "" || p.machine == machine.value)
    && (includeFinal || !IsFinished(p))
  }

  function Select(ps: seq<BuildProcess>, includeFinal: bool, machine: Option<string>): seq<BuildProcess>
  {
    Seqs.Filter(ps, (p: BuildProcess) => Listed(p, includeFinal, machine))
  }

  /** `get_processes` */
  function GetProcessesStep(s: CacheState, includeFinal: bool, machine: Option<string>, now: int,
                            expiration: int, a: LockAttempt)
    : (CacheState, Result<seq<BuildProcess>, Error>)
    requires a.Ends(LOCK_TIMEOUT)
  {
    var (s1, r) := PsStep(s, now, expiration, a);
    (s1, if r.Success? then Success(Select(r.value, includeFinal, machine)) else r)
  }

  /** The loop of `ps` over a snapshot of the table: the fresh records in table
      order, and the keys of the others. */
  method Scan(t: Table, now: int, expiration: int) returns (live: seq<BuildProcess>, expired: set<string>)
    ensures live == Dict.Values(Live(t, now, expiration))
    ensures expired == set j | 0 <= j < |t| && !Fresh(t[j].1, now, expiration) :: t[j].0
  {
    live, expired := [], {};
    var i := 0;
    while i < |t|
      invariant 0 <= i <= |t|
      invariant live == Dict.Values(Live(t[..i], now, expiration))
      invariant expired == set j | 0 <= j < i && !Fresh(t[j].1, now, expiration) :: t[j].0
    {
      var (key, process) := t[i];
      assert t[..i + 1] == t[..i] + [t[i]];
      LiveSnoc(t[..i], t[i], now, expiration);
      if now - process.startTime < expiration {
        Dict.ValuesSnoc(Live(t[..i], now, expiration), t[i]);
        live := live + [process];
      } else {
        expired := expired + {key};
      }
      i := i + 1;
    }
    assert t[..i] == t;
  }

  lemma LiveSnoc(t: Table, x: (string, BuildProcess), now: int, expiration: int)
    ensures Live(t + [x], now, expiration)
         == Live(t, now, expiration) + (if Fresh(x.1, now, expiration) then [x] else [])
  {
    Dict.KeepIfSnoc(t, x, (k: string, e: BuildProcess) => Fresh(e, now, expiration));
  }

  /** The repository over the cache's "table", "lock" and "purged" keys. */
  class SiteCacheRepository {
    var table: Table
    var lock: Option<string>
    var purged: bool
    /** `SITECACHE_PROCESS_EXPIRATION`, in microseconds. */
    const expiration: int

    ghost predicate Valid()
      reads this
    {
      WellKeyed(table)
    }

    function State(): CacheState
      reads this
    {
      CacheState(table, lock, purged)
    }

    /** `__init__`: `stored` is what the cache holds under "table" already. */
    constructor (expirationSeconds: int, stored: Option<Table>, heldLock: Option<string>, purgedMarker: bool)
      requires stored.Some? ==> WellKeyed(stored.value)
      ensures Valid()
      ensures table == (if stored.Some? then stored.value else [])
      ensures lock == heldLock && purged == purgedMarker
      ensures expiration == expirationSeconds * MICROS_PER_SECOND
    {
      expiration := expirationSeconds * MICROS_PER_SECOND;
      table := if stored.Some? then stored.value else [];
      lock := heldLock;
      purged := purgedMarker;
    }

    /** The acquisition loop of `lock`. */
    method Lock(a: LockAttempt, timeout: int) returns (acquired: bool)
      requires a.Ends(timeout)
      modifies this`lock
      ensures (acquired, lock) == Poll(old(lock), a, timeout, 0)
    {
      var i := 0;
      while true
        invariant 0 <= i < |a.clock|
        invariant Poll(lock, a, timeout, i) == Poll(old(lock), a, timeout, 0)
        decreases |a.clock| - i
      {
        if a.clock[i] - a.start >= timeout {
          return false;
        }
        if lock.Some? {
          // sleep(0.1) and poll again
          i := i + 1;
          continue;
        }
        // _set_lock(token); the value read back is the token unless another writer intervened
        lock := a.readBack[i];
        if lock == Some(a.token) {
          return true;
        }
        i := i + 1;
      }
    }

    method DeleteExistingProcesses(p: BuildProcess, a: LockAttempt) returns (r: Outcome<Error>)
      requires Valid() && a.Ends(LOCK_TIMEOUT)
      modifies this
      ensures Valid()
      ensures (State(), r) == DeleteExistingStep(old(State()), p, a)
    {
      var acquired := Lock(a, LOCK_TIMEOUT);
      if !acquired {
        return Fail(TimeoutError);
      }
      WellKeyedKeepIf(table, (k: string, e: BuildProcess) => !SameProcDifferentBuild(e, p));
      table := Superseded(table, p);
      lock := None;
      r := Pass;
    }

    method AddProcess(p: BuildProcess, a1: LockAttempt, a2: LockAttempt) returns (r: Outcome<Error>)
      requires Valid() && a1.Ends(LOCK_TIMEOUT) && a2.Ends(LOCK_TIMEOUT)
      modifies this
      ensures Valid()
      ensures (State(), r) == AddStep(old(State()), p, a1, a2)
    {
      r := DeleteExistingProcesses(p, a1);
      if r.Fail? {
        return;
      }
      var key := GetKey(p);
      if key in Dict.Keys(table) {
        return Fail(RecordAlreadyExists);
      }
      var acquired := Lock(a2, LOCK_TIMEOUT);
      if !acquired {
        return Fail(TimeoutError);
      }
      WellKeyedPut(table, key, p);
      table := Dict.Put(table, key, p);
      lock := None;
    }

    method UpdateProcess(p: BuildProcess, a: LockAttempt) returns (r: Outcome<Error>)
      requires Valid() && a.Ends(LOCK_TIMEOUT)
      modifies this
      ensures Valid()
      ensures (State(), r) == UpdateStep(old(State()), p, a)
    {
      var key := GetKey(p);
      var found := Dict.Get(table, key);
      if found.None? {
        return Fail(RecordNotFoundError);
      }
      var existing := found.value;
      r := EnsureUpdateable(existing, p);
      if r.Fail? {
        return;
      }
      var updated := existing.(phase := p.phase, buildHost := p.buildHost);
      var acquired := Lock(a, LOCK_TIMEOUT);
      if !acquired {
        return Fail(TimeoutError);
      }
      WellKeyedLookup(table, key, existing);
      WellKeyedPut(table, key, updated);
      table := Dict.Put(table, key, updated);
      lock := None;
    }

    method Ps(now: int, a: LockAttempt) returns (r: Result<seq<BuildProcess>, Error>)
      requires Valid() && a.Ends(LOCK_TIMEOUT)
      modifies this
      ensures Valid()
      ensures (State(), r) == PsStep(old(State()), now, expiration, a)
    {
      if purged {
        return Success(Dict.Values(table));
      }
      var acquired := Lock(a, LOCK_TIMEOUT);
      if !acquired {
        return Failure(TimeoutError);
      }
      var live, expired := Scan(table, now, expiration);
      purged := true;
      ExpiredKeysAreStale(table, expired, now, expiration);
      if expired != {} {
        WellKeyedKeepIf(table, (k: string, e: BuildProcess) => k !in expired);
        table := Dict.KeepIf(table, (k: string, e: BuildProcess) => k !in expired);
      }
      lock := None;
      r := Success(live);
    }

    /** The cache drops the "purged" marker once its timeout has run out. */
    method LapseMarker()
      requires Valid()
      modifies this`purged
      ensures Valid()
      ensures State() == MarkerLapses(old(State()))
    {
      purged := false;
    }

    method GetProcesses(now: int, a: LockAttempt, includeFinal: bool := false, machine: Option<string> := None)
      returns (r: Result<seq<BuildProcess>, Error>)
      requires Valid() && a.Ends(LOCK_TIMEOUT)
      modifies this
      ensures Valid()
      ensures (State(), r) == GetProcessesStep(old(State()), includeFinal, machine, now, expiration, a)
    {
      var ps := Ps(now, a);
      if ps.Failure? {
        return Failure(ps.error);
      }
      r := Success(Select(ps.value, includeFinal, machine));
    }
  }

  // ---------------------------------------------------------------------------
  // Helpers for the table invariant

  lemma WellKeyedKeepIf(t: Table, keep: (string, BuildProcess) -> bool)
    requires WellKeyed(t)
    ensures WellKeyed(Dict.KeepIf(t, keep))
  {
    Dict.KeepIfDistinct(t, keep);
    var r := Dict.KeepIf(t, keep);
    forall i | 0 <= i < |r| ensures r[i].0 == GetKey(r[i].1) {
      assert r[i] in t;
    }
  }

  lemma WellKeyedPut(t: Table, k: string, v: BuildProcess)
    requires WellKeyed(t) && k == GetKey(v)
    ensures WellKeyed(Dict.Put(t, k, v))
  {
    var r := Dict.Put(t, k, v);
    forall i | 0 <= i < |r| ensures r[i].0 == GetKey(r[i].1) {
      assert r[i] in r;
    }
  }

  lemma WellKeyedLookup(t: Table, k: string, v: BuildProcess)
    requires WellKeyed(t) && Dict.Get(t, k) == Some(v)
    ensures k == GetKey(v)
  {
    assert (k, v) in t;
  }

  /** After the scan, a key was collected as expired exactly when its record is stale. */
  lemma ExpiredKeysAreStale(t: Table, expired: set<string>, now: int, expiration: int)
    requires WellKeyed(t)
    requires expired == set j | 0 <= j < |t| && !Fresh(t[j].1, now, expiration) :: t[j].0
    ensures Dict.KeepIf(t, (k: string, e: BuildProcess) => k !in expired) == Live(t, now, expiration)
    ensures expired == {} ==> Live(t, now, expiration) == t
  {
    var byKey := (k: string, e: BuildProcess) => k !in expired;
    var byAge := (k: string, e: BuildProcess) => Fresh(e, now, expiration);
    forall m | 0 <= m < |t| ensures byKey(t[m].0, t[m].1) == byAge(t[m].0, t[m].1) {
      if t[m].0 in expired {
        var j :| 0 <= j < |t| && !Fresh(t[j].1, now, expiration) && t[j].0 == t[m].0;
        assert j == m;
      }
    }
    Dict.KeepIfSame(t, byKey, byAge);
    if expired == {} {
      forall m | 0 <= m < |t| ensures byAge(t[m].0, t[m].1) {
        assert t[m].0 !in expired;
      }
      Dict.KeepIfAll(t, byAge);
    }
  }

  // ---------------------------------------------------------------------------
  // Keys

  /** The text before the first ':' and the text after it. */
  function UpToColon(s: string): (string, string)
  {
    if s == [] then ([], [])
    else if s[0] == ':' then ([], s[1..])
    else var (h, t) := UpToColon(s[1..]); ([s[0]] + h, t)
  }

  lemma {:induction false} UpToColonOf(x: string, y: string)
    requires ':' !in x
    ensures UpToColon(x + ":" + y) == (x, y)
  {
    if x == [] {
      assert x + ":" + y == [':'] + y;
    } else {
      var s := x + ":" + y;
      assert x[0] in x && ':' !in x[1..];
      assert s[0] == x[0] && s[1..] == x[1..] + ":" + y;
      UpToColonOf(x[1..], y);
      assert [x[0]] + x[1..] == x;
    }
  }

  /** The same logical process always has the same key; the converse holds when
      neither machine nor build id contains ':'. */
  lemma GetKeyIdentity(a: BuildProcess, b: BuildProcess)
    ensures IsSameAs(a, b) ==> GetKey(a) == GetKey(b)
    ensures ':' !in a.machine && ':' !in a.buildId && ':' !in b.machine && ':' !in b.buildId
            ==> (GetKey(a) == GetKey(b) <==> IsSameAs(a, b))
  {
    if ':' !in a.machine && ':' !in a.buildId && ':' !in b.machine && ':' !in b.buildId
       && GetKey(a) == GetKey(b) {
      assert GetKey(a) == a.machine + ":" + (a.buildId + ":" + a.package);
      assert GetKey(b) == b.machine + ":" + (b.buildId + ":" + b.package);
      UpToColonOf(a.machine, a.buildId + ":" + a.package);
      UpToColonOf(b.machine, b.buildId + ":" + b.package);
      UpToColonOf(a.buildId, a.package);
      UpToColonOf(b.buildId, b.package);
    }
  }

  /** Without that proviso two different processes can share a key. */
  lemma KeyCollision()
    ensures var a := BuildProcess("a:b", "c", "h", "pkg", "compile", 0);
            var b := a.(machine := "a", buildId := "b:c");
            GetKey(a) == GetKey(b) && !IsSameAs(a, b)
  {
    var a := BuildProcess("a:b", "c", "h", "pkg", "compile", 0);
    var b := a.(machine := "a", buildId := "b:c");
    assert GetKey(a) == "a:b:c:pkg" == GetKey(b);
  }

  // ---------------------------------------------------------------------------
  // The lock

  /** The lock is acquired only after reading back its own token; a lock held when
      the loop starts is never taken, and a reading at or past the timeout ends the
      loop even when "lock" is free. */
  lemma {:induction false} PollOutcome(held: Option<string>, a: LockAttempt, timeout: int, i: nat)
    requires a.Ends(timeout) && i < |a.clock|
    ensures Poll(held, a, timeout, i).0 ==> Poll(held, a, timeout, i).1 == Some(a.token)
    ensures held.Some? ==> Poll(held, a, timeout, i) == (false, held)
    ensures a.clock[i] - a.start >= timeout ==> Poll(held, a, timeout, i) == (false, held)
    decreases |a.clock| - i
  {
    if a.clock[i] - a.start < timeout {
      if held.Some? {
        PollOutcome(held, a, timeout, i + 1);
      } else if a.readBack[i] != Some(a.token) {
        PollOutcome(a.readBack[i], a, timeout, i + 1);
      }
    }
  }

  /** Free at the first reading, before the timeout, with no other writer: acquired. */
  lemma PollUncontended(a: LockAttempt, timeout: int)
    requires a.Ends(timeout)
    requires a.clock[0] - a.start < timeout && a.readBack[0] == Some(a.token)
    ensures Poll(None, a, timeout, 0) == (true, Some(a.token))
  {
  }

  /** While another holder keeps "lock", every writing operation times out and
      leaves the store as it was. */
  lemma LockHeldBlocksWrites(s: CacheState, p: BuildProcess, now: int, expiration: int,
                             a1: LockAttempt, a2: LockAttempt)
    requires a1.Ends(LOCK_TIMEOUT) && a2.Ends(LOCK_TIMEOUT)
    requires s.lock.Some?
    ensures DeleteExistingStep(s, p, a1) == (s, Fail(TimeoutError))
    ensures AddStep(s, p, a1, a2) == (s, Fail(TimeoutError))
    ensures UpdateStep(s, p, a1).0 == s
    ensures !s.purged ==> PsStep(s, now, expiration, a1) == (s, Failure(TimeoutError))
  {
    PollOutcome(s.lock, a1, LOCK_TIMEOUT, 0);
  }

  // ---------------------------------------------------------------------------
  // Supersession and add

  /** `delete_existing_processes` drops exactly the entries that a new build `p`
      supersedes; every other entry stays under its key. */
  lemma SupersededLookup(t: Table, p: BuildProcess, k: string)
    requires WellKeyed(t)
    ensures Dict.Get(Superseded(t, p), k)
         == if Dict.Get(t, k).Some? && !SameProcDifferentBuild(Dict.Get(t, k).value, p)
            then Dict.Get(t, k) else None
    ensures forall e :: e in Superseded(t, p) <==> e in t && !SameProcDifferentBuild(e.1, p)
  {
    Dict.GetKeepIf(t, (k: string, e: BuildProcess) => !SameProcDifferentBuild(e, p), k);
  }

  /** A stale record of the same package survives outside the build phases. */
  lemma StaleKeptOutsideBuildPhases(t: Table, p: BuildProcess, e: (string, BuildProcess))
    requires e in t && !IsBuildPhase(e.1.phase)
    ensures e in Superseded(t, p)
  {
  }

  /** `add_process` in full: on a timeout of the first lock nothing changes; with the
      key still present after supersession it fails with `RecordAlreadyExists` and
      the removal stands; with the key absent, a timeout of the second lock fails the
      add and the removal stands too; on success the key maps to `p`, placed last,
      and every other key keeps what supersession left it. */
  lemma AddOutcome(s: CacheState, p: BuildProcess, a1: LockAttempt, a2: LockAttempt,
                   s': CacheState, r: Outcome<Error>)
    requires WellKeyed(s.table) && a1.Ends(LOCK_TIMEOUT) && a2.Ends(LOCK_TIMEOUT)
    requires (s', r) == AddStep(s, p, a1, a2)
    ensures WellKeyed(s'.table) && s'.purged == s.purged
    ensures !Poll(s.lock, a1, LOCK_TIMEOUT, 0).0 ==> s'.table == s.table && r == Fail(TimeoutError)
    ensures r == Fail(RecordAlreadyExists)
        <==> Poll(s.lock, a1, LOCK_TIMEOUT, 0).0 && GetKey(p) in Dict.Keys(Superseded(s.table, p))
    ensures r == Fail(RecordAlreadyExists) ==> s' == CacheState(Superseded(s.table, p), None, s.purged)
    ensures Poll(s.lock, a1, LOCK_TIMEOUT, 0).0 && GetKey(p) !in Dict.Keys(Superseded(s.table, p)) ==>
      (r == Fail(TimeoutError) <==> !Poll(None, a2, LOCK_TIMEOUT, 0).0)
    ensures (Poll(s.lock, a1, LOCK_TIMEOUT, 0).0 && GetKey(p) !in Dict.Keys(Superseded(s.table, p))
             && r == Fail(TimeoutError)) ==> s'.table == Superseded(s.table, p)
    ensures r == Pass ==> s'.lock == None && s'.table == Superseded(s.table, p) + [(GetKey(p), p)]
    ensures r == Pass ==> forall k :: (Dict.Get(s'.table, k)
         == if k == GetKey(p) then Some(p)
            else if Dict.Get(s.table, k).Some? && !SameProcDifferentBuild(Dict.Get(s.table, k).value, p)
            then Dict.Get(s.table, k) else None)
  {
    var kept := Superseded(s.table, p);
    WellKeyedKeepIf(s.table, (k: string, e: BuildProcess) => !SameProcDifferentBuild(e, p));
    if Poll(s.lock, a1, LOCK_TIMEOUT, 0).0 {
      PollOutcome(s.lock, a1, LOCK_TIMEOUT, 0);
      if GetKey(p) !in Dict.Keys(kept) {
        WellKeyedPut(kept, GetKey(p), p);
        var (acquired, _) := Poll(None, a2, LOCK_TIMEOUT, 0);
        if acquired {
          Dict.PutInPlace(kept, GetKey(p), p);
          forall k ensures Dict.Get(s'.table, k)
              == if k == GetKey(p) then Some(p)
                 else if Dict.Get(s.table, k).Some? && !SameProcDifferentBuild(Dict.Get(s.table, k).value, p)
                 then Dict.Get(s.table, k) else None
          {
            Dict.GetPut(kept, GetKey(p), p, k);
            SupersededLookup(s.table, p, k);
          }
        }
      }
    }
  }

  /** Adding the same record again right after a successful add is refused (or
      times out) and leaves the table as the first add left it. */
  lemma AddTwice(s: CacheState, p: BuildProcess, a1: LockAttempt, a2: LockAttempt,
                 b1: LockAttempt, b2: LockAttempt)
    requires WellKeyed(s.table)
    requires a1.Ends(LOCK_TIMEOUT) && a2.Ends(LOCK_TIMEOUT) && b1.Ends(LOCK_TIMEOUT) && b2.Ends(LOCK_TIMEOUT)
    requires AddStep(s, p, a1, a2).1 == Pass
    ensures var s1 := AddStep(s, p, a1, a2).0;
            var (s2, r2) := AddStep(s1, p, b1, b2);
            (r2 == Fail(RecordAlreadyExists) || r2 == Fail(TimeoutError)) && s2.table == s1.table
  {
    var (s1, r1) := AddStep(s, p, a1, a2);
    AddOutcome(s, p, a1, a2, s1, r1);
    var kept := Superseded(s.table, p);
    assert s1.table == kept + [(GetKey(p), p)];
    SupersededLookup(s.table, p, GetKey(p));
    assert forall e :: e in s1.table ==> !SameProcDifferentBuild(e.1, p);
    NothingToSupersede(s1.table, p);
    assert Dict.Get(s1.table, GetKey(p)) == Some(p);
    var (s2, r2) := AddStep(s1, p, b1, b2);
    AddOutcome(s1, p, b1, b2, s2, r2);
  }

  /** A table without stale records of `p`'s package is left as it is by supersession. */
  lemma NothingToSupersede(t: Table, p: BuildProcess)
    requires forall e :: e in t ==> !SameProcDifferentBuild(e.1, p)
    ensures Superseded(t, p) == t
  {
    assert forall i :: 0 <= i < |t| ==> t[i] in t;
    Dict.KeepIfAll(t, (k: string, e: BuildProcess) => !SameProcDifferentBuild(e, p));
  }

  /** What `add_process` leaves: entries that were there, and the new one. */
  lemma AddEntries(s: CacheState, p: BuildProcess, a1: LockAttempt, a2: LockAttempt)
    requires a1.Ends(LOCK_TIMEOUT) && a2.Ends(LOCK_TIMEOUT)
    ensures forall e :: e in AddStep(s, p, a1, a2).0.table ==> e in s.table || e == (GetKey(p), p)
  {
    var kept := Superseded(s.table, p);
    assert forall e :: e in kept ==> e in s.table;
  }

  /** What `update_process` leaves: entries that were there, and one in the new phase. */
  lemma UpdateEntries(s: CacheState, p: BuildProcess, a: LockAttempt)
    requires a.Ends(LOCK_TIMEOUT)
    ensures forall e :: e in UpdateStep(s, p, a).0.table ==> e in s.table || e.1.phase == p.phase
  {
  }

  // ---------------------------------------------------------------------------
  // Update

  /** `update_process` in full: an absent key fails with `RecordNotFoundError`, a
      final phase from a foreign host with `UpdateNotAllowedError`, both before any
      write; on success the stored record takes the new phase and build host in
      place, keeping its identity and start time, and no other entry changes. */
  lemma UpdateOutcome(s: CacheState, p: BuildProcess, a: LockAttempt, s': CacheState, r: Outcome<Error>)
    requires WellKeyed(s.table) && a.Ends(LOCK_TIMEOUT)
    requires (s', r) == UpdateStep(s, p, a)
    ensures WellKeyed(s'.table) && s'.purged == s.purged
    ensures r == Fail(RecordNotFoundError) <==> Dict.Get(s.table, GetKey(p)).None?
    ensures r == Fail(UpdateNotAllowedError)
        <==> Dict.Get(s.table, GetKey(p)).Some? && IsFinalPhase(p.phase)
             && p.buildHost != Dict.Get(s.table, GetKey(p)).value.buildHost
    ensures r == Fail(RecordNotFoundError) || r == Fail(UpdateNotAllowedError) ==> s' == s
    ensures r.Fail? ==> s'.table == s.table
    ensures r == Pass ==>
      var before := Dict.Get(s.table, GetKey(p)).value;
      var after := Dict.Get(s'.table, GetKey(p)).value;
      s'.lock == None
      && after.machine == before.machine && after.buildId == before.buildId
      && after.package == before.package && after.startTime == before.startTime
      && after.phase == p.phase && after.buildHost == p.buildHost
    ensures r == Pass ==> (|s'.table| == |s.table|
      && (forall i :: 0 <= i < |s.table| ==> s'.table[i].0 == s.table[i].0)
      && forall i :: 0 <= i < |s.table| && s.table[i].0 != GetKey(p) ==> s'.table[i] == s.table[i])
  {
    var key := GetKey(p);
    match Dict.Get(s.table, key)
    case None =>
    case Some(existing) =>
      var updated := existing.(phase := p.phase, buildHost := p.buildHost);
      if EnsureUpdateable(existing, p).Pass? {
        RewriteInPlace(s.table, key, existing, updated);
        if Poll(s.lock, a, LOCK_TIMEOUT, 0).0 {
          assert s' == CacheState(Dict.Put(s.table, key, updated), None, s.purged) && r == Pass;
        } else {
          assert s'.table == s.table && r == Fail(TimeoutError);
        }
      } else {
        assert s' == s && r == Fail(UpdateNotAllowedError);
      }
  }

  /** Writing a record back under its own key keeps the table well keyed, the key's
      place and every other entry. */
  lemma RewriteInPlace(t: Table, key: string, existing: BuildProcess, updated: BuildProcess)
    requires WellKeyed(t) && Dict.Get(t, key) == Some(existing) && GetKey(updated) == GetKey(existing)
    ensures WellKeyed(Dict.Put(t, key, updated))
    ensures Dict.Get(Dict.Put(t, key, updated), key) == Some(updated)
    ensures |Dict.Put(t, key, updated)| == |t|
    ensures forall i :: 0 <= i < |t| ==> Dict.Put(t, key, updated)[i].0 == t[i].0
    ensures forall i :: 0 <= i < |t| && t[i].0 != key ==> Dict.Put(t, key, updated)[i] == t[i]
  {
    WellKeyedLookup(t, key, existing);
    WellKeyedPut(t, key, updated);
    Dict.GetPut(t, key, updated, key);
    Dict.PutInPlace(t, key, updated);
  }

  // ---------------------------------------------------------------------------
  // Listing and purge

  /** `ps`: with the marker present, every stored record; otherwise, once the lock is
      taken, exactly the records younger than the expiration, with the others'
      keys deleted and the marker set. */
  lemma PsOutcome(s: CacheState, now: int, expiration: int, a: LockAttempt,
                  s': CacheState, r: Result<seq<BuildProcess>, Error>)
    requires WellKeyed(s.table) && a.Ends(LOCK_TIMEOUT)
    requires (s', r) == PsStep(s, now, expiration, a)
    ensures WellKeyed(s'.table)
    ensures s.purged ==> (s' == s && r.Success?
        && forall x :: x in r.value <==> exists k :: (k, x) in s.table)
    ensures !s.purged && !Poll(s.lock, a, LOCK_TIMEOUT, 0).0 ==> s'.table == s.table && r == Failure(TimeoutError)
    ensures !s.purged && Poll(s.lock, a, LOCK_TIMEOUT, 0).0 ==>
      s'.purged && s'.lock == None && r.Success?
      && (forall e :: e in s'.table <==> e in s.table && Fresh(e.1, now, expiration))
      && (forall e :: e in s.table && !Fresh(e.1, now, expiration) ==> e.0 !in Dict.Keys(s'.table))
      && (forall x :: x in r.value <==> (exists k :: (k, x) in s.table) && Fresh(x, now, expiration))
  {
    if s.purged {
      forall x ensures x in r.value <==> exists k :: (k, x) in s.table {
        Dict.ValuesMember(s.table, x);
      }
    } else if Poll(s.lock, a, LOCK_TIMEOUT, 0).0 {
      var live := Live(s.table, now, expiration);
      WellKeyedKeepIf(s.table, (k: string, e: BuildProcess) => Fresh(e, now, expiration));
      forall e | e in s.table && !Fresh(e.1, now, expiration) ensures e.0 !in Dict.Keys(live) {
        Dict.GetMember(s.table, e.0, e.1);
        Dict.GetKeepIf(s.table, (k: string, e: BuildProcess) => Fresh(e, now, expiration), e.0);
      }
      forall x ensures x in r.value <==> (exists k :: (k, x) in s.table) && Fresh(x, now, expiration) {
        Dict.ValuesMember(live, x);
      }
    }
  }

  /** Once a `ps` has succeeded the marker is set, and while it is still present later
      listings take no lock, change nothing and return the same records, whatever the
      clock says. */
  lemma PsStable(s: CacheState, now: int, now': int, expiration: int, a: LockAttempt, b: LockAttempt)
    requires a.Ends(LOCK_TIMEOUT) && b.Ends(LOCK_TIMEOUT)
    requires PsStep(s, now, expiration, a).1.Success?
    ensures var (s1, r1) := PsStep(s, now, expiration, a);
            s1.purged && PsStep(s1, now', expiration, b) == (s1, r1)
  {
  }

  /** Filtering by freshness at a later clock subsumes filtering at an earlier one. */
  lemma {:induction false} LiveTwice(t: Table, now: int, now': int, expiration: int)
    requires now <= now'
    ensures Live(Live(t, now, expiration), now', expiration) == Live(t, now', expiration)
  {
    if t != [] {
      var init, x := t[..|t| - 1], t[|t| - 1];
      assert t == init + [x];
      LiveTwice(init, now, now', expiration);
      LiveSnoc(init, x, now, expiration);
      LiveSnoc(init, x, now', expiration);
      if Fresh(x.1, now, expiration) {
        LiveSnoc(Live(init, now, expiration), x, now', expiration);
      } else {
        assert Live(t, now, expiration) == Live(init, now, expiration);
      }
    }
  }

  /** After the marker lapses the next `ps` that takes the lock purges again: the
      table becomes exactly the records still fresh at the later clock, so records
      that expired since the earlier purge are dropped, and the marker is set again. */
  lemma PurgeAgainAfterLapse(s: CacheState, now: int, now': int, expiration: int, a: LockAttempt, b: LockAttempt)
    requires a.Ends(LOCK_TIMEOUT) && b.Ends(LOCK_TIMEOUT) && now <= now'
    requires !s.purged && PsStep(s, now, expiration, a).1.Success?
    requires Poll(PsStep(s, now, expiration, a).0.lock, b, LOCK_TIMEOUT, 0).0
    ensures var s1 := PsStep(s, now, expiration, a).0;
            var (s2, r2) := PsStep(MarkerLapses(s1), now', expiration, b);
            s2 == CacheState(Live(s.table, now', expiration), None, true)
            && r2 == Success(Dict.Values(Live(s.table, now', expiration)))
  {
    LiveTwice(s.table, now, now', expiration);
  }

  /** `get_processes`: what `ps` returns, restricted to the machine asked for (none
      when it is missing or empty) and, unless `includeFinal`, to unfinished records. */
  lemma GetProcessesOutcome(s: CacheState, includeFinal: bool, machine: Option<string>, now: int,
                            expiration: int, a: LockAttempt, s': CacheState, r: Result<seq<BuildProcess>, Error>)
    requires WellKeyed(s.table) && a.Ends(LOCK_TIMEOUT)
    requires (s', r) == GetProcessesStep(s, includeFinal, machine, now, expiration, a)
    ensures r.Failure? ==> r == Failure(TimeoutError) && s'.table == s.table
    ensures r.Success? ==> forall x :: x in r.value <==> (exists k :: (k, x) in s'.table) && Listed(x, includeFinal, machine)
    ensures r.Success? && !includeFinal ==> forall x :: x in r.value ==> !IsFinished(x)
    ensures r.Success? && machine.Some? && machine.value != "" ==> forall x :: x in r.value ==> x.machine == machine.value
  {
    var (s1, r1) := PsStep(s, now, expiration, a);
    PsOutcome(s, now, expiration, a, s1, r1);
    if r1.Success? {
      forall x ensures x in r.value <==> (exists k :: (k, x) in s'.table) && Listed(x, includeFinal, machine) {
        Dict.ValuesMember(s1.table, x);
      }
    }
  }
}
