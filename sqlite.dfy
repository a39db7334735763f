/** The SQLite backend. The table `ebuild_process` is a sequence of rows in the
    order they were inserted; the SQL engine's statements (DELETE, INSERT, SELECT,
    UPDATE) become functions on that sequence, and the unique index on
    (machine, build_id, build_host, package) becomes the invariant `Unique`. */
module Sqlite {
  import opened Wrappers
  import opened Types
  import Seqs

  const MICROS_PER_SECOND: int := 1000000

  /** A row: the record with its start time stored as whole seconds since the epoch. */
  datatype Row = Row(
    machine: string,
    buildId: string,
    buildHost: string,
    package: string,
    phase: string,
    startTime: int)

  /** `int(x)` of a number of seconds given in microseconds: truncation toward zero. */
  function TruncSeconds(micros: int): (s: int)
    ensures 0 <= micros ==> 0 <= s * MICROS_PER_SECOND <= micros < (s + 1) * MICROS_PER_SECOND
    ensures micros < 0 ==> (s - 1) * MICROS_PER_SECOND < micros <= s * MICROS_PER_SECOND <= 0
  {
    if micros >= 0 then micros / MICROS_PER_SECOND else -((-micros) / MICROS_PER_SECOND)
  }

  /** `process_to_row` */
  function ProcessToRow(p: BuildProcess): Row
  {
    Row(p.machine, p.buildId, p.buildHost, p.package, p.phase, TruncSeconds(p.startTime))
  }

  /** `row_to_process`: `fromtimestamp(start_time, tz=UTC)`. */
  function RowToProcess(r: Row): BuildProcess
  {
    BuildProcess(r.machine, r.buildId, r.buildHost, r.package, r.phase, r.startTime * MICROS_PER_SECOND)
  }

  /** Reading a row back as a record and storing it again gives the same row. */
  lemma RowRoundTrip(r: Row)
    ensures ProcessToRow(RowToProcess(r)) == r
  {
    assert TruncSeconds(r.startTime * MICROS_PER_SECOND) == r.startTime;
  }

  /** Storing a record and reading it back gives the same record exactly when it
      started on a whole second; otherwise only the start time moves, by less than
      a second, toward the epoch. */
  lemma ProcessRoundTrip(p: BuildProcess)
    ensures RowToProcess(ProcessToRow(p)) == p <==> p.startTime % MICROS_PER_SECOND == 0
    ensures RowToProcess(ProcessToRow(p)) == p.(startTime := RowToProcess(ProcessToRow(p)).startTime)
    ensures -MICROS_PER_SECOND < RowToProcess(ProcessToRow(p)).startTime - p.startTime < MICROS_PER_SECOND
  {
    var t := TruncSeconds(p.startTime);
    if p.startTime % MICROS_PER_SECOND == 0 {
      if p.startTime >= 0 {
        assert t * MICROS_PER_SECOND == p.startTime;
      } else {
        assert (-p.startTime) % MICROS_PER_SECOND == 0;
        assert t * MICROS_PER_SECOND == p.startTime;
      }
    }
  }

  /** The columns of the unique index. */
  function Identity(r: Row): (string, string, string, string)
  {
    (r.machine, r.buildId, r.buildHost, r.package)
  }

  /** `idx_unique_process`: no two rows share machine, build id, build host and package. */
  ghost predicate Unique(rows: seq<Row>)
  {
    forall i, j :: 0 <= i < j < |rows| ==> Identity(rows[i]) != Identity(rows[j])
  }

  /** The INSERT would violate the unique index. */
  predicate Collides(rows: seq<Row>, row: Row)
  {
    exists r :: r in rows && Identity(r) == Identity(row)
  }

  /** `WHERE build_id != ? AND machine = ? AND package = ?`: a row of another build of
      the same package on the same machine, in whatever phase. */
  predicate Stale(r: Row, p: BuildProcess)
  {
    r.buildId != p.buildId && r.machine == p.machine && r.package == p.package
  }

  /** The table after the DELETE of `add_process`. */
  function Deleted(rows: seq<Row>, p: BuildProcess): seq<Row>
  {
    Seqs.Filter(rows, (r: Row) => !Stale(r, p))
  }

  /** `add_process`: the DELETE commits on its own; the INSERT then either appends
      the new row or fails on the unique index. */
  function AddStep(rows: seq<Row>, p: BuildProcess): (seq<Row>, Outcome<Error>)
  {
    var kept := Deleted(rows, p);
    if Collides(kept, ProcessToRow(p)) then (kept, Fail(RecordAlreadyExists))
    else (kept + [ProcessToRow(p)], Pass)
  }

  /** `WHERE machine = ? AND build_id = ? AND package = ?` */
  predicate Matches(r: Row, p: BuildProcess)
  {
    r.machine == p.machine && r.buildId == p.buildId && r.package == p.package
  }

  /** `fetchone()` of the update's SELECT: taken to be the first matching row in
      insertion order, if any. The SELECT has no ORDER BY, so SQLite may return
      another matching row (`FetchOrderDecidesRefusal`). */
  function FirstMatch(rows: seq<Row>, p: BuildProcess): (r: Option<Row>)
    ensures r.Some? ==> r.value in rows && Matches(r.value, p)
    ensures r.None? <==> forall x :: x in rows ==> !Matches(x, p)
  {
    if rows == [] then None
    else if Matches(rows[0], p) then Some(rows[0])
    else
      assert rows == [rows[0]] + rows[1..];
      FirstMatch(rows[1..], p)
  }

  /** `UPDATE ebuild_process SET phase = ? WHERE machine = ? AND build_id = ? AND package = ?` */
  function SetPhase(rows: seq<Row>, p: BuildProcess): seq<Row>
  {
    seq(|rows|, i requires 0 <= i < |rows| => if Matches(rows[i], p) then rows[i].(phase := p.phase) else rows[i])
  }

  /** `update_process`: not found, refused by the ownership rule against the fetched
      row, or the phase set on every matching row. */
  function UpdateStep(rows: seq<Row>, p: BuildProcess): (seq<Row>, Outcome<Error>)
  {
    match FirstMatch(rows, p)
    case None => (rows, Fail(RecordNotFoundError))
    case Some(row) =>
      var check := EnsureUpdateable(RowToProcess(row), p);
      if check.Fail? then (rows, check) else (SetPhase(rows, p), Pass)
  }

  /** The `WHERE phase NOT IN (...)` of the listing, applied unless `includeFinal`. */
  predicate Shown(r: Row, includeFinal: bool)
  {
    includeFinal || !IsFinalPhase(r.phase)
  }

  ghost predicate SortedByStart(rows: seq<Row>)
  {
    forall i, j :: 0 <= i < j < |rows| ==> rows[i].startTime <= rows[j].startTime
  }

  /** Insert `r` before the first row that does not start earlier. */
  function Insert(r: Row, rows: seq<Row>): (s: seq<Row>)
    ensures multiset(s) == multiset(rows) + multiset{r}
  {
    if rows == [] || r.startTime <= rows[0].startTime then [r] + rows
    else
      assert rows == [rows[0]] + rows[1..];
      [rows[0]] + Insert(r, rows[1..])
  }

  lemma ConsSorted(x: Row, rows: seq<Row>)
    requires SortedByStart(rows)
    requires forall y :: y in rows ==> x.startTime <= y.startTime
    ensures SortedByStart([x] + rows)
  {
    var s := [x] + rows;
    forall i, j | 0 <= i < j < |s| ensures s[i].startTime <= s[j].startTime {
      assert s[j] == rows[j - 1] && s[j] in rows;
      if i > 0 {
        assert s[i] == rows[i - 1];
      }
    }
  }

  lemma TailSorted(rows: seq<Row>)
    requires SortedByStart(rows) && rows != []
    ensures SortedByStart(rows[1..])
    ensures forall y :: y in rows ==> rows[0].startTime <= y.startTime
  {
    var tail := rows[1..];
    forall a, b | 0 <= a < b < |tail| ensures tail[a].startTime <= tail[b].startTime {
      assert tail[a] == rows[a + 1] && tail[b] == rows[b + 1];
    }
  }

  lemma {:induction false} InsertSorted(r: Row, rows: seq<Row>)
    requires SortedByStart(rows)
    ensures SortedByStart(Insert(r, rows))
  {
    if rows == [] {
      ConsSorted(r, rows);
    } else if r.startTime <= rows[0].startTime {
      TailSorted(rows);
      ConsSorted(r, rows);
    } else {
      TailSorted(rows);
      var tail := rows[1..];
      var rest := Insert(r, tail);
      InsertSorted(r, tail);
      forall x | x in rest ensures rows[0].startTime <= x.startTime {
        assert x in multiset(rest);
        if x != r {
          assert x in multiset(tail);
          assert x in rows;
        }
      }
      ConsSorted(rows[0], rest);
    }
  }

  /** `ORDER BY start_time`, stable for rows that start in the same second. */
  function SortByStart(rows: seq<Row>): (s: seq<Row>)
    ensures multiset(s) == multiset(rows)
    ensures SortedByStart(s)
  {
    if rows == [] then []
    else
      assert rows == [rows[0]] + rows[1..];
      InsertSorted(rows[0], SortByStart(rows[1..]));
      Insert(rows[0], SortByStart(rows[1..]))
  }

  /** The rows the listing's SELECT returns, in order. */
  function Selected(rows: seq<Row>, includeFinal: bool): seq<Row>
  {
    SortByStart(Seqs.Filter(rows, (r: Row) => Shown(r, includeFinal)))
  }

  /** What `get_processes` yields: the selected rows as records. */
  function Listing(rows: seq<Row>, includeFinal: bool): (ps: seq<BuildProcess>)
    ensures |ps| == |Selected(rows, includeFinal)|
  {
    var sel := Selected(rows, includeFinal);
    seq(|sel|, i requires 0 <= i < |sel| => RowToProcess(sel[i]))
  }

  /** The listing is ordered by start time and holds exactly the shown rows. */
  lemma ListingOutcome(rows: seq<Row>, includeFinal: bool)
    ensures var ps := Listing(rows, includeFinal);
      && (forall i, j :: 0 <= i < j < |ps| ==> ps[i].startTime <= ps[j].startTime)
      && (forall x :: x in ps <==> exists r :: r in rows && Shown(r, includeFinal) && x == RowToProcess(r))
      && (!includeFinal ==> forall x :: x in ps ==> !IsFinished(x))
  {
    var ps := Listing(rows, includeFinal);
    var sel := Selected(rows, includeFinal);
    SelectedMember(rows, includeFinal);
    forall i, j | 0 <= i < j < |ps| ensures ps[i].startTime <= ps[j].startTime {
      assert sel[i].startTime <= sel[j].startTime;
    }
    forall x ensures x in ps <==> exists r :: r in rows && Shown(r, includeFinal) && x == RowToProcess(r) {
      if x in ps {
        var k :| 0 <= k < |ps| && ps[k] == x;
        assert sel[k] in sel;
      }
      if exists r :: r in rows && Shown(r, includeFinal) && x == RowToProcess(r) {
        var r :| r in rows && Shown(r, includeFinal) && x == RowToProcess(r);
        var k :| 0 <= k < |sel| && sel[k] == r;
        assert ps[k] == x;
      }
    }
  }

  /** The `ebuild_process` table. */
  class SqliteRepository {
    var rows: seq<Row>

    ghost predicate Valid()
      reads this
    {
      Unique(rows)
    }

    /** `__init__` over a database that already holds `existing`. */
    constructor (existing: seq<Row>)
      requires Unique(existing)
      ensures Valid() && rows == existing
    {
      rows := existing;
    }

    method AddProcess(p: BuildProcess) returns (r: Outcome<Error>)
      requires Valid()
      modifies this
      ensures Valid()
      ensures (rows, r) == AddStep(old(rows), p)
    {
      UniqueFilter(rows, (x: Row) => !Stale(x, p));
      rows := Deleted(rows, p);
      var row := ProcessToRow(p);
      if Collides(rows, row) {
        return Fail(RecordAlreadyExists);
      }
      UniqueSnoc(rows, row);
      rows := rows + [row];
      r := Pass;
    }

    method UpdateProcess(p: BuildProcess) returns (r: Outcome<Error>)
      requires Valid()
      modifies this
      ensures Valid()
      ensures (rows, r) == UpdateStep(old(rows), p)
    {
      var row := FirstMatch(rows, p);
      if row.None? {
        return Fail(RecordNotFoundError);
      }
      var previous := RowToProcess(row.value);
      r := EnsureUpdateable(previous, p);
      if r.Fail? {
        return;
      }
      UniqueSetPhase(rows, p);
      rows := SetPhase(rows, p);
    }

    /** `get_processes`: the SELECT's rows, each turned back into a record. */
    method GetProcesses(includeFinal: bool := false) returns (ps: seq<BuildProcess>)
      ensures ps == Listing(rows, includeFinal)
    {
      var result := Selected(rows, includeFinal);
      ps := [];
      var i := 0;
      while i < |result|
        invariant 0 <= i <= |result|
        invariant ps == Listing(rows, includeFinal)[..i]
      {
        ps := ps + [RowToProcess(result[i])];
        i := i + 1;
      }
    }
  }

  // ---------------------------------------------------------------------------
  // The unique index

  lemma UniqueFilter(rows: seq<Row>, keep: Row -> bool)
    requires Unique(rows)
    ensures Unique(Seqs.Filter(rows, keep))
  {
    var s := Seqs.Filter(rows, keep);
    forall i, j | 0 <= i < j < |s| ensures Identity(s[i]) != Identity(s[j]) {
      FilterUnique(rows, keep, i, j);
    }
  }

  lemma {:induction false} FilterUnique(rows: seq<Row>, keep: Row -> bool, i: int, j: int)
    requires Unique(rows)
    requires 0 <= i < j < |Seqs.Filter(rows, keep)|
    ensures Identity(Seqs.Filter(rows, keep)[i]) != Identity(Seqs.Filter(rows, keep)[j])
  {
    var rest := Seqs.Filter(rows[1..], keep);
    UniqueTail(rows);
    if keep(rows[0]) {
      assert Seqs.Filter(rows, keep) == [rows[0]] + rest;
      if i == 0 {
        UniqueHead(rows, rest[j - 1]);
      } else {
        FilterUnique(rows[1..], keep, i - 1, j - 1);
      }
    } else {
      assert Seqs.Filter(rows, keep) == rest;
      FilterUnique(rows[1..], keep, i, j);
    }
  }

  lemma UniqueTail(rows: seq<Row>)
    requires Unique(rows) && rows != []
    ensures Unique(rows[1..])
  {
    forall a, b | 0 <= a < b < |rows[1..]| ensures Identity(rows[1..][a]) != Identity(rows[1..][b]) {
      assert rows[1..][a] == rows[a + 1] && rows[1..][b] == rows[b + 1];
    }
  }

  lemma UniqueHead(rows: seq<Row>, x: Row)
    requires Unique(rows) && rows != [] && x in rows[1..]
    ensures Identity(rows[0]) != Identity(x)
  {
    var m :| 0 <= m < |rows[1..]| && rows[1..][m] == x;
    assert rows[m + 1] == x;
  }

  lemma UniqueSnoc(rows: seq<Row>, row: Row)
    requires Unique(rows) && !Collides(rows, row)
    ensures Unique(rows + [row])
  {
    var s := rows + [row];
    forall i, j | 0 <= i < j < |s| ensures Identity(s[i]) != Identity(s[j]) {
      if j == |rows| {
        assert s[i] in rows;
      }
    }
  }

  lemma UniqueSetPhase(rows: seq<Row>, p: BuildProcess)
    requires Unique(rows)
    ensures Unique(SetPhase(rows, p))
  {
    var s := SetPhase(rows, p);
    assert forall i :: 0 <= i < |rows| ==> Identity(s[i]) == Identity(rows[i]);
  }

  /** The SELECT returns exactly the shown rows, each as often as it is stored. */
  lemma SelectedMember(rows: seq<Row>, includeFinal: bool)
    ensures forall r :: r in Selected(rows, includeFinal) <==> r in rows && Shown(r, includeFinal)
  {
    var f := Seqs.Filter(rows, (r: Row) => Shown(r, includeFinal));
    forall r ensures r in Selected(rows, includeFinal) <==> r in f {
      assert r in Selected(rows, includeFinal) <==> r in multiset(Selected(rows, includeFinal));
      assert r in f <==> r in multiset(f);
    }
  }

  // ---------------------------------------------------------------------------
  // Properties of the operations

  /** `add_process` in full: it deletes every row of another build of the same
      package on the same machine, whatever its phase, and that deletion stands; it
      fails with `RecordAlreadyExists` exactly when a row with the new row's identity
      is stored; otherwise the new row is appended. */
  lemma AddOutcome(rows: seq<Row>, p: BuildProcess, rows': seq<Row>, r: Outcome<Error>)
    requires Unique(rows)
    requires (rows', r) == AddStep(rows, p)
    ensures Unique(rows')
    ensures r == Pass || r == Fail(RecordAlreadyExists)
    ensures forall x :: x in rows && Stale(x, p) ==> x !in rows'
    ensures forall x :: x in rows && !Stale(x, p) ==> x in rows'
    ensures r == Fail(RecordAlreadyExists)
        <==> exists x :: x in rows && Identity(x) == Identity(ProcessToRow(p))
    ensures r == Fail(RecordAlreadyExists) ==> forall x :: x in rows' <==> x in rows && !Stale(x, p)
    ensures r == Pass ==> rows' == Deleted(rows, p) + [ProcessToRow(p)]
  {
    var row := ProcessToRow(p);
    UniqueFilter(rows, (x: Row) => !Stale(x, p));
    if !Collides(Deleted(rows, p), row) {
      UniqueSnoc(Deleted(rows, p), row);
    }
    if exists x :: x in rows && Identity(x) == Identity(row) {
      var x :| x in rows && Identity(x) == Identity(row);
      assert !Stale(x, p);
      assert x in Deleted(rows, p);
    }
  }

  /** What `add_process` leaves: rows that were there, and the new one. */
  lemma AddRows(rows: seq<Row>, p: BuildProcess)
    ensures forall x :: x in AddStep(rows, p).0 ==> x in rows || x == ProcessToRow(p)
  {
  }

  /** What `update_process` leaves: rows that were there, and rows in the new phase. */
  lemma UpdateRows(rows: seq<Row>, p: BuildProcess)
    ensures forall x :: x in UpdateStep(rows, p).0 ==> x in rows || x.phase == p.phase
  {
    var rows' := UpdateStep(rows, p).0;
    forall x | x in rows' ensures x in rows || x.phase == p.phase {
      var i :| 0 <= i < |rows'| && rows'[i] == x;
      if UpdateStep(rows, p).1 == Pass {
        assert rows' == SetPhase(rows, p);
      }
    }
  }

  /** Adding the same record twice: the second add fails and changes nothing. */
  lemma AddTwice(rows: seq<Row>, p: BuildProcess)
    requires Unique(rows)
    requires AddStep(rows, p).1 == Pass
    ensures AddStep(AddStep(rows, p).0, p) == (AddStep(rows, p).0, Fail(RecordAlreadyExists))
  {
    var rows1 := AddStep(rows, p).0;
    assert forall x :: x in rows1 ==> !Stale(x, p);
    Seqs.FilterAll(rows1, (r: Row) => !Stale(r, p));
    assert ProcessToRow(p) in rows1;
  }

  /** `update_process` in full: not found leaves the table alone; the ownership rule
      is judged against the fetched row and a refusal leaves the table alone; on
      success every row of the process takes the new phase and keeps its build host,
      start time and identity, and no other row changes. */
  lemma UpdateOutcome(rows: seq<Row>, p: BuildProcess, rows': seq<Row>, r: Outcome<Error>)
    requires Unique(rows)
    requires (rows', r) == UpdateStep(rows, p)
    ensures Unique(rows')
    ensures r == Fail(RecordNotFoundError) <==> forall x :: x in rows ==> !Matches(x, p)
    ensures r == Fail(UpdateNotAllowedError)
        <==> FirstMatch(rows, p).Some? && IsFinalPhase(p.phase) && p.buildHost != FirstMatch(rows, p).value.buildHost
    ensures r.Fail? ==> rows' == rows
    ensures r == Pass ==> |rows'| == |rows| && forall i :: 0 <= i < |rows| ==>
      && rows'[i].phase == (if Matches(rows[i], p) then p.phase else rows[i].phase)
      && Identity(rows'[i]) == Identity(rows[i])
      && rows'[i].startTime == rows[i].startTime
  {
    if r == Pass {
      UniqueSetPhase(rows, p);
    }
  }

  /** A successful update changes no build host, even when the incoming record
      carries another one. */
  lemma UpdateKeepsBuildHost(rows: seq<Row>, p: BuildProcess, i: int)
    requires UpdateStep(rows, p).1 == Pass
    requires 0 <= i < |rows|
    ensures UpdateStep(rows, p).0[i].buildHost == rows[i].buildHost
  {
  }

  /** When every row of the process has the same build host, it does not matter
      which of them `fetchone` returns: the update is refused exactly when the
      ownership rule refuses any one of them. */
  lemma RefusalIndependentOfFetch(rows: seq<Row>, p: BuildProcess, x: Row)
    requires x in rows && Matches(x, p)
    requires forall y :: y in rows && Matches(y, p) ==> y.buildHost == x.buildHost
    ensures UpdateStep(rows, p).1 == Fail(UpdateNotAllowedError) <==> EnsureUpdateable(RowToProcess(x), p).Fail?
  {
  }

  /** With rows of one process from two build hosts (an add from the second host
      does not collide with the first host's row), the row `fetchone` returns
      decides the ownership check: the same final update from host "A" passes when
      host A's row comes first and is refused when host B's row does. */
  lemma FetchOrderDecidesRefusal()
    ensures var a := Row("m", "1", "A", "pkg", "compile", 0);
      var b := a.(buildHost := "B");
      var p := BuildProcess("m", "1", "A", "pkg", "postrm", 0);
      && Unique([a, b]) && Unique([b, a])
      && UpdateStep([a, b], p).1 == Pass
      && UpdateStep([b, a], p).1 == Fail(UpdateNotAllowedError)
  {
    var a := Row("m", "1", "A", "pkg", "compile", 0);
    var b := a.(buildHost := "B");
    var p := BuildProcess("m", "1", "A", "pkg", "postrm", 0);
    assert FirstMatch([a, b], p) == Some(a);
    assert FirstMatch([b, a], p) == Some(b);
    assert IsFinalPhase("postrm");
  }

  /** An add into an empty table, then the listing, gives back the record when it is
      not final and started on a whole second. */
  lemma AddThenList(p: BuildProcess)
    requires !IsFinished(p) && p.startTime % MICROS_PER_SECOND == 0
    ensures AddStep([], p) == ([ProcessToRow(p)], Pass)
    ensures Selected(AddStep([], p).0, false) == [ProcessToRow(p)]
    ensures RowToProcess(ProcessToRow(p)) == p
  {
    var row := ProcessToRow(p);
    ProcessRoundTrip(p);
    assert Deleted([], p) == [];
    assert !Collides(Deleted([], p), row);
    assert Deleted([], p) + [row] == [row];
    assert [row][1..] == [];
    assert Seqs.Filter([row], (r: Row) => Shown(r, false)) == [row];
    assert SortByStart([row]) == Insert(row, []) == [row];
  }
}
