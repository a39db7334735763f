# gbp-ps storage layer, modelled in Dafny

gbp-ps keeps the table of build processes for Gentoo Build Publisher. A build
process record says which machine is building which package in which build, on which
build host, in which ebuild phase and since when. Build hosts report records as the
phases go by: through the `addBuildProcess` GraphQL mutation, or with
`gbp add-process`, which can also write to a local SQLite database. The
`buildProcesses` query lists the table, and the web dashboard (`ps.js`) draws it.

This project models the following parts of that system:

- the record type and its identity (`types.dfy`);
- the two storage backends.
  - The site-cache backend (`sitecache.dfy`) keeps one insertion-ordered dict
    under the cache key "table". A polling lock on the cache key "lock" guards
    it, and expired records are purged until the "purged" marker is set.
  - The SQLite backend (`sqlite.dfy`) stores rows with a unique index on
    (machine, build_id, build_host, package).
- the package-level functions over whichever backend is configured (`facade.dfy`);
- the GraphQL resolvers (`graphql.dfy`);
- the `add-process` command (`cli.dfy`);
- the dashboard's elapsed-time formatting and progress bar (`dashboard.dfy`).

Helpers:

- `wrappers.dfy`: `Option`, `Result` and `Outcome`. `Outcome` is a raised
  exception (`Fail`) or a normal return (`Pass`).
- `seqs.dfy`: filtering, which models list comprehensions.
- `dict.dfy`: a Python dict as a sequence of key/value pairs. `{**t, **{k: v}}`
  replaces the value in place when the key exists and appends the pair otherwise.

Each backend operation has three parts:

1. a function over the stored state (`AddStep`, `UpdateStep`, `PsStep`, …);
2. a class method proved to change the object's fields exactly as that function
   says;
3. lemmas stating, for all inputs, what the function guarantees.

Design choices:

- **Tests as specification.** `src/gbp_ps/types.py` defines none of
  `ensure_updateable`, `build_phases`, `final_phases` or `is_finished`, although
  sitecache.py:92,110,225 and sqlite.py:16,69 use them. They are modelled on what
  the tests and callers require (tests/test_repository.py:133-178):
  - a final phase from a different build host raises `UpdateNotAllowedError`
    (tests/test_repository.py:133-145);
  - the build phases are the twelve that `ps.js` lists;
  - a record is finished when its phase is final.
- **Time.** Start times are integer microseconds since the epoch, so that
  SQLite's truncation to whole seconds is visible.
- **Environment inputs.** The clock, `uuid4` and whatever another writer does to
  the "lock" key are inputs to each call: a `LockAttempt` holds the token, the
  clock readings and the values read back.

Where the code and its documentation disagree, the model follows the code.

- The site cache's `update_process` says it only updates the phase, but it also
  sets `build_host` (sitecache.py:83 against :93). SQLite really does update only
  the phase. `Facade.UpdateHostDiffers` shows the two backends disagreeing on the
  same input.
- The site cache supersedes an older build of the same package only while that
  build is in a build phase. SQLite deletes it in any phase. The docstring of
  `delete_existing_processes` (sitecache.py:114-118) names only machine, package
  and build id; the test at :225 adds the phase.
  `Facade.SupersessionDiffers` shows this.

Behaviour worth noting:

- The site cache lists records in table order, not by start time. Only SQLite
  sorts (`ORDER BY start_time`).
- The site-cache key `machine:build_id:package` is ambiguous when a field
  contains `:`. `SiteCache.KeyCollision` exhibits two different processes with
  the same key.
- `gbp add-process --local` falls back to adding only when no row matches, so the
  add cannot collide. `CliAddProcess.LocalAddOrUpdateOutcome` proves that the
  local command always succeeds: propagating `RecordAlreadyExists` never happens.
- A failed add is not all-or-nothing. Both backends commit the removal of
  superseded records before the insert: sitecache.py:71 under its own lock, then :77, and
  sqlite.py:30-37 in its own transaction before :39-47. The removal stands when the
  add then raises `RecordAlreadyExists` (`Sqlite.AddOutcome`,
  `SiteCache.AddOutcome`). On the site cache it also stands when the insert's lock
  times out (`SiteCache.AddOutcome`).
- In `ps.js`, `elapsed` shows `-1:-1:-1` for a start time 1 ms in the future.
  This follows from JavaScript's truncating `%` (`Dashboard.ElapsedBeforeStart`).

## Model

| member | source | states |
|---|---|---|
| Types.EnsureUpdateable | tests/test_repository.py:133-145 | The ownership check either passes or raises UpdateNotAllowedError. It raises exactly when the incoming phase is final and its build host differs from the stored one. |
| Types.FinalPhasesAreExactly | src/gbp_ps/types.py:7-8 | A phase is final iff it is "", "clean", "cleanrm" or "postrm". |
| Types.BuildPhasesAreNotFinal | src/gbp_ps/django/gbp_ps/static/gbp_ps/ps.js:14-27 | There are exactly twelve build phases, they are pairwise distinct, and none of them is final. |
| Types.SameAsIsEquivalence | src/gbp_ps/types.py:22-32 | `is_same_as` is reflexive, symmetric and transitive. It holds iff machine, package and build id agree. |
| Types.SameAsIgnoresMutableFields | src/gbp_ps/types.py:22-32 | Changing build host, phase or start time keeps a record the same process. Changing only the phase yields the same record iff the phase was already that one. |
| Types.OwnershipRule | tests/test_repository.py:147-167 | An update to a non-final phase, or one from the same build host, is always allowed. |
| Seqs.Filter | src/gbp_ps/repository/sitecache.py:106-111 | A comprehension keeps exactly the elements that pass the test and never adds any. |
| Dict.Get | src/gbp_ps/repository/sitecache.py:89 | `table.get(key, None)` is Some exactly when the key is present, and the value is one stored under that key. |
| Dict.Put | src/gbp_ps/repository/sitecache.py:78 | Merging `{key: value}` adds exactly that key, keeps keys distinct, and every entry is old or the new pair. |
| Dict.GetPut | src/gbp_ps/repository/sitecache.py:96 | After the merge, the key maps to the new value and every other key maps to what it mapped to before. |
| Dict.PutInPlace | src/gbp_ps/repository/sitecache.py:96 | The merge appends a new key at the end. It overwrites an existing key at its position and leaves every other entry and their order as they were. |
| Dict.GetKeepIf | src/gbp_ps/repository/sitecache.py:120-126 | Looking a key up in a filtered dict finds its entry iff the entry was present and passes the test. |
| Dict.KeepIfDistinct | src/gbp_ps/repository/sitecache.py:120-126 | A dict comprehension that filters entries keeps keys distinct. |
| Dict.ValuesMember | src/gbp_ps/repository/sitecache.py:131 | A value is listed iff some key maps to it. |
| SiteCache.SiteCacheRepository.constructor | src/gbp_ps/repository/sitecache.py:60-64 | The table is the stored one, or empty when none is stored. The expiration is converted from seconds to microseconds. |
| SiteCache.SiteCacheRepository.Lock | src/gbp_ps/repository/sitecache.py:165-190 | The polling loop acquires the lock, and leaves the token in "lock", exactly as `Poll` describes. |
| SiteCache.PollOutcome | src/gbp_ps/repository/sitecache.py:175-186 | Acquiring leaves the caller's own token in "lock". A lock held by another writer for the whole call, or a clock past the timeout, means no acquisition and "lock" unchanged. |
| SiteCache.PollUncontended | src/gbp_ps/repository/sitecache.py:179-188 | With "lock" free, time left and the token read back, the first iteration acquires the lock. |
| SiteCache.LockHeldBlocksWrites | src/gbp_ps/repository/sitecache.py:175-181 | While another holder keeps "lock", the following change nothing: supersession and add fail with TimeoutError, update leaves the state alone, and an unpurged listing fails with TimeoutError. |
| SiteCache.SiteCacheRepository.DeleteExistingProcesses | src/gbp_ps/repository/sitecache.py:113-126 | Under the lock, the table becomes the entries that are not superseded by the record. The new state is `DeleteExistingStep` of the old. |
| SiteCache.SupersededLookup | src/gbp_ps/repository/sitecache.py:219-226 | After supersession an entry remains iff it is not an older build of the same machine and package that is still in a build phase. Lookups change accordingly. |
| SiteCache.StaleKeptOutsideBuildPhases | src/gbp_ps/repository/sitecache.py:225 | An entry whose phase is not a build phase is never superseded. |
| SiteCache.GetKeyIdentity | src/gbp_ps/repository/sitecache.py:213-216 | The same process always gets the same key. When machine and build id contain no ':', equal keys mean the same process. |
| SiteCache.KeyCollision | src/gbp_ps/repository/sitecache.py:216 | Two different processes ("a:b"/"c" and "a"/"b:c") share one key. |
| SiteCache.SiteCacheRepository.AddProcess | src/gbp_ps/repository/sitecache.py:66-78 | Supersede, then raise if the key is present, else merge the record under the lock. The new state is `AddStep` of the old. |
| SiteCache.AddOutcome | src/gbp_ps/repository/sitecache.py:66-78 | The effects of add: a timed-out first lock leaves the table alone. RecordAlreadyExists is raised iff the key survives supersession, and then the table is the superseded one. With the key absent after supersession, the add fails with TimeoutError iff the insert's lock times out, and then the table is the superseded one too. On success the record is appended after the surviving entries, so lookups find it under its key and every other key as supersession left it. The one-entry-per-key invariant is kept. |
| SiteCache.AddTwice | src/gbp_ps/repository/sitecache.py:72-75 | Adding the same record again right after a successful add raises RecordAlreadyExists (or times out) and leaves the table as it was. |
| SiteCache.AddEntries | src/gbp_ps/repository/sitecache.py:66-78 | Add writes no entry except the record under its own key. |
| SiteCache.SiteCacheRepository.UpdateProcess | src/gbp_ps/repository/sitecache.py:80-96 | Look up the key, check ownership, then write the record with the new phase and build host under the lock. The new state is `UpdateStep` of the old. |
| SiteCache.UpdateOutcome | src/gbp_ps/repository/sitecache.py:80-96 | The effects of update: RecordNotFoundError iff the key is absent. UpdateNotAllowedError iff the ownership rule refuses against the stored record. Both leave the state unchanged. On success the stored record keeps its machine, build id, package and start time, and takes the new phase and build host. Every other entry, and the order of all entries, is unchanged. |
| SiteCache.UpdateEntries | src/gbp_ps/repository/sitecache.py:80-96 | Update writes no entry except one in the requested phase. |
| SiteCache.Scan | src/gbp_ps/repository/sitecache.py:134-141 | The scan yields the fresh records in table order and collects the keys of exactly the expired ones. |
| SiteCache.ExpiredKeysAreStale | src/gbp_ps/repository/sitecache.py:145-155 | Removing the collected keys leaves exactly the fresh entries. With nothing expired the table is left as it is. |
| SiteCache.SiteCacheRepository.Ps | src/gbp_ps/repository/sitecache.py:128-155 | `ps` returns and stores exactly what `PsStep` gives for the old state. |
| SiteCache.PsOutcome | src/gbp_ps/repository/sitecache.py:128-155 | The effects of `ps`: with "purged" set, it yields every stored record and changes nothing. Without it, a timed-out lock fails with TimeoutError. Otherwise it yields exactly the fresh records, drops every expired key, releases the lock and sets "purged". |
| SiteCache.PsStable | src/gbp_ps/repository/sitecache.py:130-143 | After a successful purge, and while the "purged" marker is still present, a later `ps` at any clock returns the same records and changes nothing. |
| SiteCache.SiteCacheRepository.LapseMarker | src/gbp_ps/repository/sitecache.py:208 | The cache's key timeout removes the "purged" marker and nothing else. |
| SiteCache.PurgeAgainAfterLapse | src/gbp_ps/repository/sitecache.py:128-155 | Once the marker has lapsed, the next `ps` that takes the lock purges again. The table becomes exactly the records still fresh at the later clock, so records that expired since the earlier purge are dropped; the listing is those records, and the marker is set again. |
| SiteCache.SiteCacheRepository.GetProcesses | src/gbp_ps/repository/sitecache.py:98-111 | `get_processes` returns and stores exactly what `GetProcessesStep` gives. |
| SiteCache.GetProcessesOutcome | src/gbp_ps/repository/sitecache.py:98-111 | The only failure is TimeoutError, with the table unchanged. Otherwise the records listed are exactly the stored ones that pass the machine and include_final tests. Without include_final none is finished, and with a non-empty machine all are of that machine. |
| Sqlite.TruncSeconds | src/gbp_ps/repository/sqlite.py:124 | `int(timestamp())` truncates toward zero to whole seconds, for negative times too. |
| Sqlite.RowRoundTrip | src/gbp_ps/repository/sqlite.py:101-125 | Converting a row to a record and back gives the row. |
| Sqlite.ProcessRoundTrip | src/gbp_ps/repository/sqlite.py:101-125 | Storing and reading a record gives it back iff it started on a whole second. Otherwise only the start time changes, by less than one second. |
| Sqlite.SqliteRepository.constructor | src/gbp_ps/repository/sqlite.py:147-150 | A database opened on rows that satisfy the unique index holds exactly those rows. |
| Sqlite.SqliteRepository.AddProcess | src/gbp_ps/repository/sqlite.py:25-47 | Delete the other builds of the package, then insert, or raise on an index conflict. The new rows are `AddStep` of the old. |
| Sqlite.UniqueFilter | src/gbp_ps/repository/sqlite.py:32-37 | Deleting rows keeps the unique index satisfied. |
| Sqlite.UniqueSnoc | src/gbp_ps/repository/sqlite.py:39-47 | Inserting a row that does not conflict keeps the unique index satisfied. |
| Sqlite.AddOutcome | src/gbp_ps/repository/sqlite.py:25-47 | The effects of add: the index holds afterwards. Exactly the other builds of the machine and package are deleted. RecordAlreadyExists is raised iff a row with the same indexed columns existed; then only the deletion happens. Otherwise the row is appended after the survivors. |
| Sqlite.AddRows | src/gbp_ps/repository/sqlite.py:25-47 | Add writes no row except the record's own. |
| Sqlite.AddTwice | src/gbp_ps/repository/sqlite.py:43-47 | Adding the same record again after a successful add raises RecordAlreadyExists and changes nothing. |
| Sqlite.FirstMatch | src/gbp_ps/repository/sqlite.py:56-67 | `fetchone` returns a row matching machine, build id and package, and finds none iff no row matches. |
| Sqlite.SqliteRepository.UpdateProcess | src/gbp_ps/repository/sqlite.py:49-79 | Fetch, check ownership, then set the phase of the matching rows. The new rows are `UpdateStep` of the old. |
| Sqlite.UniqueSetPhase | src/gbp_ps/repository/sqlite.py:70-79 | Setting the phase keeps the unique index satisfied. |
| Sqlite.UpdateOutcome | src/gbp_ps/repository/sqlite.py:49-79 | The effects of update: RecordNotFoundError iff no row matches. UpdateNotAllowedError iff the ownership rule refuses against the fetched row. Failures change nothing. On success every row stays in place with its identity and start time, and exactly the matching rows take the new phase. |
| Sqlite.UpdateRows | src/gbp_ps/repository/sqlite.py:70-79 | Update writes no row except in the requested phase. |
| Sqlite.UpdateKeepsBuildHost | src/gbp_ps/repository/sqlite.py:70-74 | A successful update leaves every row's build host as it was. |
| Sqlite.RefusalIndependentOfFetch | src/gbp_ps/repository/sqlite.py:56-69 | When all rows of the process share one build host, the refusal does not depend on which of them `fetchone` returns. |
| Sqlite.FetchOrderDecidesRefusal | src/gbp_ps/repository/sqlite.py:56-69 | With two rows of one process from hosts A and B, the same final update from A passes or is refused depending on which row comes first. |
| Sqlite.SortByStart | src/gbp_ps/repository/sqlite.py:92 | `ORDER BY start_time` gives a permutation of the selected rows, sorted by start time. |
| Sqlite.SelectedMember | src/gbp_ps/repository/sqlite.py:87-94 | The `WHERE phase NOT IN` clause selects exactly the non-final rows, and every row when include_final is set. |
| Sqlite.SqliteRepository.GetProcesses | src/gbp_ps/repository/sqlite.py:81-99 | The listing is `Listing` of the current rows, and nothing changes. |
| Sqlite.ListingOutcome | src/gbp_ps/repository/sqlite.py:81-99 | The listing is ordered by start time. It contains exactly the records of the shown rows, and without include_final no listed record is finished. |
| Sqlite.AddThenList | src/gbp_ps/repository/sqlite.py:81-99 | In an empty database, after adding an unfinished record that started on a whole second, the listing is that exact record. |
| Facade.GetProcesses | src/gbp_ps/__init__.py:8-14 | Listing on the configured repository returns and stores what `ListStep` gives. |
| Facade.AddProcess | src/gbp_ps/__init__.py:17-19 | Adding delegates to the configured backend's add. |
| Facade.UpdateProcess | src/gbp_ps/__init__.py:22-24 | Updating delegates to the configured backend's update. |
| Facade.AddOrUpdateProcess | src/gbp_ps/__init__.py:27-36 | The result and new state are those of `AddOrUpdateStep`: update, and add only on RecordNotFoundError. |
| Facade.AddOrUpdateOutcome | src/gbp_ps/__init__.py:27-36 | The effects on either backend: the backend invariant holds afterwards, and RecordNotFoundError never escapes. UpdateNotAllowedError is raised iff a stored record exists and the ownership rule refuses. Then nothing changes. On success the record is stored in its phase. |
| Facade.AddOrUpdateWritesOnlyPhase | src/gbp_ps/__init__.py:27-36 | After add-or-update, every stored record was stored before or is in the requested phase. |
| Facade.SiteCacheWritesOnlyPhase | src/gbp_ps/__init__.py:27-36 | Site cache: every entry after add-or-update was there before or is in the requested phase. |
| Facade.SqliteWritesOnlyPhase | src/gbp_ps/__init__.py:27-36 | SQLite: every row after the update or the add was there before or is in the requested phase. |
| Facade.SupersessionDiffers | src/gbp_ps/repository/sitecache.py:219-226 | A new build of a package whose older build is in "clean": the site cache keeps the older entry, SQLite deletes it. |
| Facade.UpdateHostDiffers | src/gbp_ps/repository/sitecache.py:93 | An update from another host to a non-final phase: the site cache records the new build host, SQLite keeps the old one. |
| GraphQL.MakeBuildProcessRoundTrip | src/gbp_ps/graphql.py:56-65 | `make_build_process` reads each field from its input name (`id` for the build id, `buildHost`, `startTime`). It is inverse to the client's encoding, in both directions. |
| GraphQL.QueryResult | src/gbp_ps/graphql.py:26-34 | One dict per record, in the repository's order. Each describes exactly its record, with the build id under `id`. |
| GraphQL.ResolveQueryBuildProcesses | src/gbp_ps/graphql.py:18-38 | The query's result and the repository's new state are `QueryStep`: the listing, mapped to dicts. |
| GraphQL.QueryOutcome | src/gbp_ps/graphql.py:18-38 | The query changes the repository as the listing does, fails iff it fails, and describes each listed record in order. |
| GraphQL.RepositoryAddOrUpdateProcess | src/gbp_ps/graphql.py:53 | Add-or-update on a repository object, with an ownership refusal swallowed. |
| GraphQL.ResolveMutationAddBuildProcess | src/gbp_ps/graphql.py:41-53 | The mutation's effect is `MutationStep`: nothing when a required field is empty, else add-or-update of the converted record. |
| GraphQL.MutationOutcome | src/gbp_ps/graphql.py:41-53 | The effects of the mutation: an input with an empty machine, id, package or phase changes nothing. The backend invariant is kept, and the mutation never reports RecordNotFoundError or UpdateNotAllowedError. It never stores a new record in the final phase "". A refused update changes nothing. |
| GraphQL.MutationStores | src/gbp_ps/graphql.py:41-53 | A complete input that is not refused ends up stored under its identity with the given phase. |
| CliAddProcess.BuildProcessFromArgsRoundTrip | src/gbp_ps/cli/add_process.py:50-63 | The record is the command line's machine, number, package and phase, with the host name and the clock. A record is rebuilt from its own command line. |
| CliAddProcess.AddOrUpdateLocalProcess | src/gbp_ps/cli/add_process.py:77-92 | The new rows and result are `LocalAddOrUpdateStep`: update, add on RecordNotFoundError, swallow UpdateNotAllowedError. |
| CliAddProcess.LocalAddOrUpdateOutcome | src/gbp_ps/cli/add_process.py:77-92 | The local add-or-update always succeeds and keeps the unique index. A refused update changes nothing. Otherwise the process has a row, and every row of it is in the new phase. |
| CliAddProcess.LocalDiffersOnlyInRefusal | src/gbp_ps/cli/add_process.py:87-92 | The local variant writes the same rows as the package-level add-or-update on SQLite, and answers differently only for a refused update. |
| CliAddProcess.EmptyDatabaseListsRecord | tests/test_cli_add_process.py:44-51 | On an empty database the local command stores one row for an unfinished record, and the listing is that record. |
| CliAddProcess.Handler | src/gbp_ps/cli/add_process.py:22-28 | With a non-empty `--local` the record goes to the database, and nothing is sent. Otherwise the record built from the arguments is sent and the database is untouched. The exit status is 0. |
| Dashboard.JsRem | src/gbp_ps/django/gbp_ps/static/gbp_ps/ps.js:44-45 | JavaScript `%` equals the Euclidean remainder on non-negative operands. On negative ones it lies in (-b, 0]. |
| Dashboard.JsRemTruncates | src/gbp_ps/django/gbp_ps/static/gbp_ps/ps.js:44-45 | `%` is the remainder of truncating division and is odd in its first operand. |
| Dashboard.FloorDiv | src/gbp_ps/django/gbp_ps/static/gbp_ps/ps.js:42-44 | `Math.floor(a / b)` is the q with q·b ≤ a < (q+1)·b. |
| Dashboard.NatToString | src/gbp_ps/django/gbp_ps/static/gbp_ps/ps.js:48-50 | `String(n)` is a decimal digit string denoting n, with no leading zero. |
| Dashboard.IntToString | src/gbp_ps/django/gbp_ps/static/gbp_ps/ps.js:48-50 | A non-negative number is its decimal digits, with no leading zero; a negative one is '-' followed by the digits of its magnitude. |
| Dashboard.PadStart2 | src/gbp_ps/django/gbp_ps/static/gbp_ps/ps.js:48-50 | `padStart(2, '0')` keeps the string as its suffix and pads with '0' to length 2. |
| Dashboard.ClockDecomposes | src/gbp_ps/django/gbp_ps/static/gbp_ps/ps.js:41-45 | For a non-negative elapsed time: hours·3600 + minutes·60 + seconds is the whole seconds elapsed, minutes and seconds are in 0..59, and hours ≥ 0. |
| Dashboard.ClockIsUnique | src/gbp_ps/django/gbp_ps/static/gbp_ps/ps.js:41-45 | That decomposition is the only one with minutes and seconds in 0..59. |
| Dashboard.FieldValue | src/gbp_ps/django/gbp_ps/static/gbp_ps/ps.js:48-50 | A padded field of a non-negative number is at least two digits, denotes the number and contains no ':'. |
| Dashboard.FieldsReadBack | src/gbp_ps/django/gbp_ps/static/gbp_ps/ps.js:47-51 | Joining three padded fields with ':' and splitting again gives the fields, which parse back to the numbers. |
| Dashboard.ElapsedReadsBack | src/gbp_ps/django/gbp_ps/static/gbp_ps/ps.js:39-52 | For a start not in the future, `elapsed` is three digit fields of at least two characters. They parse back to the hours, minutes and seconds elapsed. |
| Dashboard.ElapsedBeforeStart | src/gbp_ps/django/gbp_ps/static/gbp_ps/ps.js:39-52 | A start 1 ms in the future shows as "-1:-1:-1". |
| Dashboard.IndexOf | src/gbp_ps/django/gbp_ps/static/gbp_ps/ps.js:58 | `indexOf` is -1 iff the phase is absent. Otherwise it is the position of the phase's first occurrence. |
| Dashboard.ColorMap | src/gbp_ps/django/gbp_ps/static/gbp_ps/ps.js:28-31 | The colour map has exactly the listed phases as keys. Each maps to the index of its last occurrence, since later assignments win. |
| Dashboard.PositionOfDistinct | src/gbp_ps/django/gbp_ps/static/gbp_ps/ps.js:28-31 | In a list without repeats, `indexOf` and the colour map both give an element's own position. |
| Dashboard.ProgressAmongDistinct | src/gbp_ps/django/gbp_ps/static/gbp_ps/ps.js:58-67 | For a listed phase, the bar is plain, with width ⌊(i+1)·100/n⌋ and the colour of its index. |
| Dashboard.ProgressAmongMissing | src/gbp_ps/django/gbp_ps/static/gbp_ps/ps.js:59-63 | For an unlisted phase, the bar is full width, striped and animated, with the first colour. |
| Dashboard.BuildPhasesDistinct | src/gbp_ps/django/gbp_ps/static/gbp_ps/ps.js:14-27 | The twelve build phases have no repeats. |
| Dashboard.ProgressOfBuildPhase | src/gbp_ps/django/gbp_ps/static/gbp_ps/ps.js:63-67 | The i-th build phase gets a plain bar of width ⌊(i+1)·100/12⌋ in colour i. |
| Dashboard.ProgressGrows | src/gbp_ps/django/gbp_ps/static/gbp_ps/ps.js:63-67 | Bar width strictly grows along the build phases, always between 1 and 100. "postinst" is a full plain bar in the last colour. |
| Dashboard.ProgressOfOtherPhase | src/gbp_ps/django/gbp_ps/static/gbp_ps/ps.js:59-67 | A phase gets the pending bar iff it is not a build phase. In particular every final phase does. |

## Left out

- Concurrency:
  - other writers appear only through the values the lock reads back;
  - no interleaving of two calls is modelled;
  - the threaded hijack and timeout tests are therefore not represented.
- `sleep(0.1)` between lock polls. The clock readings are inputs, so the waiting itself is not modelled.
- The cache's key timeout (`set_timeout`, sitecache.py:208). The model lets the "purged" marker lapse only through `SiteCache.SiteCacheRepository.LapseMarker` (`SiteCache.MarkerLapses`). It does not model when that happens. It also does not model "table" or "lock" lapsing: a lapsed "table" would make `get_table` return `None`, and a lapsed "lock" would be a release by the cache.
- The `func_cache`/`lru_cache` memoisation. It changes timing, not results.
- Lock release when the body raises. Every body that runs under the lock here completes, so the lock is always released after it.
- Generators:
  - `ps` is a generator; the model evaluates it completely at once;
  - `now()` is read once per call, not once per record.
- Wall-clock time zones, `datetime` objects and floating point. Times are integers: microseconds for records, milliseconds for the lock clock and the dashboard.
- The SQL engine, connections and cursors (`init_db`, `cursor`):
  - each statement is a function on the rows;
  - the order of rows with equal start times is modelled as insertion order, which SQLite does not promise;
  - Sqlite.FirstMatch and Sqlite.UpdateStep: the row `fetchone` returns (sqlite.py:56-65, no ORDER BY) is modelled as the first match in insertion order, which SQLite does not promise either. The choice decides the ownership check when rows of one process come from two build hosts (`Sqlite.FetchOrderDecidesRefusal`). It does not matter when they share one (`Sqlite.RefusalIndependentOfFetch`).
- The remote GraphQL call of `gbp add-process` without `--local` (`add_gbp_process`). The model returns the record it would send.
- `gbp_ps.repository.add_or_update_process`, which the GraphQL mutation calls: its code is not modelled. It is modelled as the package-level one with UpdateNotAllowedError swallowed, as tests/test_repository.py:169-178 requires.
- `parse_args`: argparse wiring only.
- Dashboard:
  - not modelled: the DOM, `fetch`, `setInterval`, the gradient colour values (a colour is its index) and the table markup;
  - the float expression `Math.floor(((index + 1) / length) * 100)` is modelled as integer `(index + 1) * 100 / length`. The two agree for twelve phases, but rounding in the float product is not modelled.
- Types.EnsureUpdateable: the ownership rule is taken from tests/test_repository.py:133-178. `src/gbp_ps/types.py` does not define `ensure_updateable`, although sitecache.py:92 and sqlite.py:69 call it.
- The Django and Redis backends, `repository.py`, `ps.py`, `cli/ps.py`, `signals.py`, the Django views and app, and `graphql/build_process.py`. They are not part of the modelled core.
