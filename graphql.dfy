/** The GraphQL resolvers: the `buildProcesses` query and the `addBuildProcess`
    mutation, over the configured repository. */
module GraphQL {
  import opened Wrappers
  import opened Types
  import Facade

  /** The mutation's `process` argument, by its GraphQL field names. */
  datatype ProcessInput = ProcessInput(
    machine: string,
    id: string,
    buildHost: string,
    package: string,
    phase: string,
    startTime: int)

  /** `all(process[field] for field in ["machine", "id", "package", "phase"])` */
  predicate HasRequiredFields(d: ProcessInput)
  {
    d.machine != "" && d.id != "" && d.package != "" && d.phase != ""
  }

  /** `make_build_process` */
  function MakeBuildProcess(d: ProcessInput): BuildProcess
  {
    BuildProcess(d.machine, d.id, d.buildHost, d.package, d.phase, d.startTime)
  }

  /** The input a client sends for a record (`id` for the build id). */
  function InputOf(p: BuildProcess): ProcessInput
  {
    ProcessInput(p.machine, p.buildId, p.buildHost, p.package, p.phase, p.startTime)
  }

  /** `make_build_process` and the client's encoding are inverse to each other. */
  lemma MakeBuildProcessRoundTrip(p: BuildProcess, d: ProcessInput)
    ensures MakeBuildProcess(InputOf(p)) == p
    ensures InputOf(MakeBuildProcess(d)) == d
  {
  }

  /** One dict of the query's result. */
  datatype ProcessView = ProcessView(
    buildHost: string,
    id: string,
    machine: string,
    package: string,
    phase: string,
    startTime: int)

  /** The dict built for one record. */
  function ToView(p: BuildProcess): ProcessView
  {
    ProcessView(p.buildHost, p.buildId, p.machine, p.package, p.phase, p.startTime)
  }

  /** The record a dict describes. */
  function FromView(v: ProcessView): BuildProcess
  {
    BuildProcess(v.machine, v.id, v.buildHost, v.package, v.phase, v.startTime)
  }

  /** The query's list comprehension: one dict per record, in the repository's order,
      each describing exactly its record. */
  function QueryResult(ps: seq<BuildProcess>): (vs: seq<ProcessView>)
    ensures |vs| == |ps|
    ensures forall i :: 0 <= i < |ps| ==> FromView(vs[i]) == ps[i] && vs[i].id == ps[i].buildId
  {
    if ps == [] then [] else [ToView(ps[0])] + QueryResult(ps[1..])
  }

  /** `resolve_query_build_processes(include_final=...)` */
  function QueryStep(st: Facade.RepoState, includeFinal: bool, env: Facade.Env)
    : (Facade.RepoState, Result<seq<ProcessView>, Error>)
    requires env.Ends()
  {
    var (st', r) := Facade.ListStep(st, includeFinal, env);
    (st', if r.Success? then Success(QueryResult(r.value)) else Failure(r.error))
  }

  /** `gbp_ps.repository.add_or_update_process`, whose code is not modelled; the
      repository tests show it swallows an ownership refusal. */
  function RepositoryAddOrUpdateStep(st: Facade.RepoState, p: BuildProcess, env: Facade.Env)
    : (Facade.RepoState, Outcome<Error>)
    requires env.Ends()
  {
    var (st', r) := Facade.AddOrUpdateStep(st, p, env);
    (st', if r == Fail(UpdateNotAllowedError) then Pass else r)
  }

  /** `resolve_mutation_add_build_process` */
  function MutationStep(st: Facade.RepoState, d: ProcessInput, env: Facade.Env): (Facade.RepoState, Outcome<Error>)
    requires env.Ends()
  {
    if !HasRequiredFields(d) then (st, Pass)
    else RepositoryAddOrUpdateStep(st, MakeBuildProcess(d), env)
  }

  method ResolveQueryBuildProcesses(repo: Facade.Repo, env: Facade.Env, includeFinal: bool := false)
    returns (r: Result<seq<ProcessView>, Error>)
    requires repo.Valid() && env.Ends()
    modifies repo.Objs()
    ensures repo.Valid()
    ensures (repo.State(), r) == QueryStep(old(repo.State()), includeFinal, env)
  {
    var ps := Facade.GetProcesses(repo, env, includeFinal);
    if ps.Failure? {
      return Failure(ps.error);
    }
    r := Success(QueryResult(ps.value));
  }

  method RepositoryAddOrUpdateProcess(repo: Facade.Repo, p: BuildProcess, env: Facade.Env)
    returns (r: Outcome<Error>)
    requires repo.Valid() && env.Ends()
    modifies repo.Objs()
    ensures repo.Valid()
    ensures (repo.State(), r) == RepositoryAddOrUpdateStep(old(repo.State()), p, env)
  {
    r := Facade.AddOrUpdateProcess(repo, p, env);
    if r == Fail(UpdateNotAllowedError) {
      r := Pass;
    }
  }

  method ResolveMutationAddBuildProcess(repo: Facade.Repo, d: ProcessInput, env: Facade.Env)
    returns (r: Outcome<Error>)
    requires repo.Valid() && env.Ends()
    modifies repo.Objs()
    ensures repo.Valid()
    ensures (repo.State(), r) == MutationStep(old(repo.State()), d, env)
  {
    if !HasRequiredFields(d) {
      return Pass;
    }
    r := RepositoryAddOrUpdateProcess(repo, MakeBuildProcess(d), env);
  }

  // ---------------------------------------------------------------------------
  // Properties

  /** The mutation ignores an input that lacks a required field. Otherwise it never
      reports a missing record or a refusal, and a refusal changes nothing. Either
      way it never stores a record in the empty (final) phase that was not stored
      before. */
  lemma MutationOutcome(st: Facade.RepoState, d: ProcessInput, env: Facade.Env,
                        st': Facade.RepoState, r: Outcome<Error>)
    requires Facade.ValidState(st) && env.Ends()
    requires (st', r) == MutationStep(st, d, env)
    ensures Facade.ValidState(st')
    ensures !HasRequiredFields(d) ==> st' == st && r == Pass
    ensures r != Fail(RecordNotFoundError) && r != Fail(UpdateNotAllowedError)
    ensures forall x :: x in Facade.Stored(st') && x.phase == "" ==> x in Facade.Stored(st)
    ensures HasRequiredFields(d) && Facade.StoredFor(st, MakeBuildProcess(d)).Some?
            && EnsureUpdateable(Facade.StoredFor(st, MakeBuildProcess(d)).value, MakeBuildProcess(d)).Fail?
            ==> st' == st && r == Pass
  {
    if HasRequiredFields(d) {
      var p := MakeBuildProcess(d);
      var (st1, r1) := Facade.AddOrUpdateStep(st, p, env);
      Facade.AddOrUpdateOutcome(st, p, env, st1, r1);
      Facade.AddOrUpdateWritesOnlyPhase(st, p, env, st1, r1);
    }
  }

  /** A complete input that nobody refuses is stored with its phase. */
  lemma MutationStores(st: Facade.RepoState, d: ProcessInput, env: Facade.Env,
                       st': Facade.RepoState, r: Outcome<Error>)
    requires Facade.ValidState(st) && env.Ends()
    requires (st', r) == MutationStep(st, d, env)
    requires HasRequiredFields(d) && r == Pass
    requires Facade.StoredFor(st, MakeBuildProcess(d)).None?
          || EnsureUpdateable(Facade.StoredFor(st, MakeBuildProcess(d)).value, MakeBuildProcess(d)).Pass?
    ensures Facade.StoredFor(st', MakeBuildProcess(d)).Some?
    ensures Facade.StoredFor(st', MakeBuildProcess(d)).value.phase == d.phase
  {
    var p := MakeBuildProcess(d);
    var (st1, r1) := Facade.AddOrUpdateStep(st, p, env);
    Facade.AddOrUpdateOutcome(st, p, env, st1, r1);
  }

  /** The query describes every listed record, build id as `id`, in order. */
  lemma QueryOutcome(st: Facade.RepoState, includeFinal: bool, env: Facade.Env)
    requires env.Ends()
    ensures var (st', r) := QueryStep(st, includeFinal, env);
      var (st'', l) := Facade.ListStep(st, includeFinal, env);
      st' == st'' && r.Success? == l.Success?
      && (r.Success? ==> |r.value| == |l.value| && forall i :: 0 <= i < |l.value| ==> FromView(r.value[i]) == l.value[i])
  {
  }
}
