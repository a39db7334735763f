/** The build-process record exchanged with every storage backend, the phase
    vocabulary, the error taxonomy and the ownership rule for updates. */
module Types {
  import opened Wrappers

  /** A frozen dataclass: equality is field-wise, and "changing" a field builds a
      new value. `startTime` is the instant the record began, in microseconds since
      the Unix epoch (Python datetimes resolve microseconds). */
  datatype BuildProcess = BuildProcess(
    machine: string,
    buildId: string,
    buildHost: string,
    package: string,
    phase: string,
    startTime: int)

  /** The errors the repositories raise. `TimeoutError` is raised by the site
      cache's lock when it cannot be acquired in time. */
  datatype Error =
    | RecordAlreadyExists
    | RecordNotFoundError
    | UpdateNotAllowedError
    | TimeoutError

  /** Records in any of these phases are "final". */
  const FINAL_PROCESS_PHASES: set<string> := {"", "clean", "cleanrm", "postrm"}

  /** The ebuild phases of an actual build, in the order they run. */
  const BUILD_PHASES: seq<string> := [
    "pretend", "setup", "unpack", "prepare", "configure", "compile",
    "test", "install", "package", "instprep", "preinst", "postinst"
  ]

  predicate IsFinalPhase(phase: string)
  {
    phase in FINAL_PROCESS_PHASES
  }

  predicate IsBuildPhase(phase: string)
  {
    phase in BUILD_PHASES
  }

  /** `BuildProcess.is_finished` */
  predicate IsFinished(p: BuildProcess)
  {
    IsFinalPhase(p.phase)
  }

  /** `BuildProcess.is_same_as`: the same machine, package and build. */
  predicate IsSameAs(a: BuildProcess, b: BuildProcess)
  {
    a.package == b.package && a.machine == b.machine && a.buildId == b.buildId
  }

  /** `existing.ensure_updateable(incoming)`: only the host that owns a process
      may move it into a final phase. The backends call it, but types.py does not
      define it; the rule is the one the repository tests exercise. */
  function EnsureUpdateable(existing: BuildProcess, incoming: BuildProcess): (r: Outcome<Error>)
    ensures r == Pass || r == Fail(UpdateNotAllowedError)
    ensures r.Fail? <==> IsFinalPhase(incoming.phase) && incoming.buildHost != existing.buildHost
  {
    if IsFinalPhase(incoming.phase) && incoming.buildHost != existing.buildHost
    then Fail(UpdateNotAllowedError)
    else Pass
  }

  /** The final phases are exactly the four listed; in particular the empty phase is final. */
  lemma FinalPhasesAreExactly(phase: string)
    ensures IsFinalPhase(phase) <==> phase == "" || phase == "clean" || phase == "cleanrm" || phase == "postrm"
    ensures IsFinalPhase("")
  {
  }

  /** No phase of a running build is final, and the twelve build phases are distinct. */
  lemma BuildPhasesAreNotFinal(phase: string)
    ensures IsBuildPhase(phase) ==> !IsFinalPhase(phase)
    ensures |BUILD_PHASES| == 12
    ensures forall i, j :: 0 <= i < j < |BUILD_PHASES| ==> BUILD_PHASES[i] != BUILD_PHASES[j]
  {
  }

  /** `is_same_as` looks only at machine, package and build id: it is an equivalence,
      and it ignores build host, phase and start time. */
  lemma SameAsIsEquivalence(a: BuildProcess, b: BuildProcess, c: BuildProcess)
    ensures IsSameAs(a, a)
    ensures IsSameAs(a, b) ==> IsSameAs(b, a)
    ensures IsSameAs(a, b) && IsSameAs(b, c) ==> IsSameAs(a, c)
    ensures IsSameAs(a, b) <==> a.machine == b.machine && a.package == b.package && a.buildId == b.buildId
  {
  }

  lemma SameAsIgnoresMutableFields(a: BuildProcess, host: string, phase: string, start: int)
    ensures IsSameAs(a, a.(buildHost := host, phase := phase, startTime := start))
    ensures a.(phase := phase) == a <==> a.phase == phase
  {
  }

  /** A move into a non-final phase is allowed from any host; a move into a final
      phase only from the stored record's own host. */
  lemma OwnershipRule(existing: BuildProcess, incoming: BuildProcess)
    ensures !IsFinalPhase(incoming.phase) ==> EnsureUpdateable(existing, incoming) == Pass
    ensures incoming.buildHost == existing.buildHost ==> EnsureUpdateable(existing, incoming) == Pass
  {
  }
}
