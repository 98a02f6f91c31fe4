/**
 The tables whose evidence the database triggers freeze: jobs, deployment generations and
 execution attempts. A refused statement aborts its transaction and changes nothing.
 */
module FrozenEvidence {
  import opened Options

  // ---- rows ----

  datatype JobStatus = Queued | Running | Succeeded | Failed {
    predicate Terminal() { Succeeded? || Failed? }

    function Text(): string {
      match this
      case Queued => "queued"
      case Running => "running"
      case Succeeded => "succeeded"
      case Failed => "failed"
    }
  }

  /** A nullable JSON column: SQL NULL and the JSON value null are different contents. */
  datatype Column = SqlNull | JsonNull | Json(text: string)

  /** `NULLIF(column::jsonb, 'null'::jsonb)`. */
  function NullIf(c: Column): Column {
    if c.JsonNull? then SqlNull else c
  }

  datatype Job = Job(status: JobStatus, result: Column, error: Column)

  datatype GenerationStatus = Pending | Executing | Settled | FailedGeneration | OutcomeUnknown | Abandoned {
    predicate Terminal() { !Pending? && !Executing? }
  }

  datatype Carrier = Carrier(jobId: Option<nat>, status: Option<string>, result: Column, error: Column)

  const NO_CARRIER := Carrier(None, None, SqlNull, SqlNull)

  datatype Generation = Generation(status: GenerationStatus, jobId: Option<nat>, carrier: Carrier)

  /** The sixteen columns frozen when an attempt is prepared. */
  datatype Preparation = Preparation(
    deviceId: nat, generationId: nat, jobCorrelationId: nat, runAttempt: nat, operationKind: string,
    documentDigest: string, claimToken: string, streamRevisions: string, generationAuthorities: string,
    manualAttemptId: Option<string>, removalTombstoneIds: string, logicalMembership: string,
    attemptedCarriers: string, safeOrigins: string, priorBookkeeping: string, createdAt: int)

  datatype Phase = Prepared | ResponseRecorded | Terminal {
    function Rank(): nat {
      match this case Prepared => 0 case ResponseRecorded => 1 case Terminal => 2
    }
  }

  datatype ResponsePhase = PreCommitDryRun | Commit | PostCommitVerification

  /** `response_classification`, a JSONB column: no constraint makes it an object. */
  datatype Classification = Object(checkpoints: map<string, string>) | NonObject(text: string) {
    /** The `->` operator. */
    function Lookup(key: string): Option<string> {
      if Object? && key in checkpoints then Some(checkpoints[key]) else None
    }
  }

  datatype Attempt = Attempt(
    preparation: Preparation, jobId: Option<nat>, phase: Phase, responsePhase: Option<ResponsePhase>,
    classification: Classification, commitAcknowledged: bool)

  datatype Store = Store(
    jobs: map<nat, Job>, nextJob: nat, generations: map<nat, Generation>, attempts: map<nat, Attempt>)

  const EMPTY := Store(map[], 0, map[], map[])

  // ---- the triggers ----

  /** `job_reject_terminal_evidence_rewrite` lets the update through. */
  predicate JobAdmits(old': Job, new': Job) {
    old'.status.Terminal() ==> new' == old'
  }

  /** The EXISTS subquery of the carrier trigger. */
  predicate MatchesCarrier(jobs: map<nat, Job>, g: Generation) {
    exists id :: id in jobs
      && g.jobId == Some(id) && g.carrier.jobId == Some(id)
      && jobs[id].status.Terminal()
      && g.carrier.status == Some(jobs[id].status.Text())
      && g.carrier.result == NullIf(jobs[id].result)
      && g.carrier.error == NullIf(jobs[id].error)
  }

  /** `deployment_generation_reject_carrier_rewrite` lets the update through. */
  predicate GenerationAdmits(jobs: map<nat, Job>, old': Generation, new': Generation) {
    if !new'.status.Terminal() then true
    else if old'.status.Terminal() then
      new'.carrier == old'.carrier || (old'.carrier == NO_CARRIER && MatchesCarrier(jobs, new'))
    else
      MatchesCarrier(jobs, new') || new'.carrier == NO_CARRIER
  }

  /**
   `execution_attempt_reject_rewrite` lets the update through. `jsonb_each` raises on anything
   but an object, so a row whose old classification is not an object refuses every update.
   */
  predicate AttemptAdmits(old': Attempt, new': Attempt) {
    && new'.preparation == old'.preparation
    && (new'.jobId == old'.jobId || new'.jobId.None?)
    && (old'.phase.Terminal? ==>
          && new'.phase == old'.phase && new'.responsePhase == old'.responsePhase
          && new'.classification == old'.classification && new'.commitAcknowledged == old'.commitAcknowledged)
    && !(old'.phase.ResponseRecorded? && new'.phase.Prepared?)
    && !(old'.commitAcknowledged && !new'.commitAcknowledged)
    && old'.classification.Object?
    && forall key :: key in old'.classification.checkpoints ==>
         new'.classification.Lookup(key) == Some(old'.classification.checkpoints[key])
  }

  // ---- statements ----

  datatype Statement =
    | InsertJob(job: Job)
    | UpdateJob(id: nat, job: Job)
    | DeleteJob(id: nat)
    | InsertGeneration(id: nat, jobId: Option<nat>)
    | UpdateGeneration(id: nat, generation: Generation)
    | InsertAttempt(id: nat, attempt: Attempt)
    | UpdateAttempt(id: nat, attempt: Attempt)

  predicate ForeignKey(s: Store, jobId: Option<nat>) {
    jobId.Some? ==> jobId.value in s.jobs
  }

  function Detached(jobId: Option<nat>, deleted: nat): Option<nat> {
    if jobId == Some(deleted) then None else jobId
  }

  /** The updates ON DELETE SET NULL issues, each of them subject to its table's trigger. */
  predicate SetNullAdmitted(s: Store, deleted: nat) {
    var jobs := s.jobs - {deleted};
    && (forall g :: g in s.generations && s.generations[g].jobId == Some(deleted) ==>
          GenerationAdmits(jobs, s.generations[g], s.generations[g].(jobId := None)))
    && (forall a :: a in s.attempts && s.attempts[a].jobId == Some(deleted) ==>
          AttemptAdmits(s.attempts[a], s.attempts[a].(jobId := None)))
  }

  /** The generation's foreign key, and the CHECK and UNIQUE constraints of the attempt table. */
  predicate Insertable(s: Store, a: Attempt) {
    && a.preparation.generationId in s.generations
    && a.preparation.runAttempt > 0 && a.preparation.operationKind in {"apply", "removal"}
    && forall b :: b in s.attempts && s.attempts[b].preparation.runAttempt == a.preparation.runAttempt ==>
         && (a.jobId.Some? ==> s.attempts[b].jobId != a.jobId)
         && s.attempts[b].preparation.jobCorrelationId != a.preparation.jobCorrelationId
  }

  predicate Admitted(s: Store, statement: Statement) {
    match statement
    case InsertJob(_) => true
    case UpdateJob(id, job) => id in s.jobs && JobAdmits(s.jobs[id], job)
    case DeleteJob(id) => id in s.jobs && SetNullAdmitted(s, id)
    case InsertGeneration(id, jobId) => id !in s.generations && ForeignKey(s, jobId)
    case UpdateGeneration(id, g) =>
      id in s.generations && ForeignKey(s, g.jobId) && GenerationAdmits(s.jobs, s.generations[id], g)
    case InsertAttempt(id, a) => id !in s.attempts && ForeignKey(s, a.jobId) && Insertable(s, a)
    case UpdateAttempt(id, a) =>
      id in s.attempts && ForeignKey(s, a.jobId) && AttemptAdmits(s.attempts[id], a)
  }

  function Execute(s: Store, statement: Statement): Store {
    if !Admitted(s, statement) then s
    else match statement
      case InsertJob(job) => s.(jobs := s.jobs[s.nextJob := job], nextJob := s.nextJob + 1)
      case UpdateJob(id, job) => s.(jobs := s.jobs[id := job])
      case DeleteJob(id) =>
        s.(jobs := s.jobs - {id},
           generations := map g | g in s.generations ::
             s.generations[g].(jobId := Detached(s.generations[g].jobId, id)),
           attempts := map a | a in s.attempts :: s.attempts[a].(jobId := Detached(s.attempts[a].jobId, id)))
      case InsertGeneration(id, jobId) =>
        s.(generations := s.generations[id := Generation(Pending, jobId, NO_CARRIER)])
      case UpdateGeneration(id, g) => s.(generations := s.generations[id := g])
      case InsertAttempt(id, a) => s.(attempts := s.attempts[id := a])
      case UpdateAttempt(id, a) => s.(attempts := s.attempts[id := a])
  }

  function Run(s: Store, statements: seq<Statement>): Store {
    if statements == [] then s
    else Execute(Run(s, statements[..|statements| - 1]), statements[|statements| - 1])
  }

  // ---- a terminal generation agrees with its carrier ----

  /** The evidence is what the job row holds, for as long as there is a job row. */
  ghost predicate CarrierAgrees(s: Store, g: Generation) {
    g.status.Terminal() ==>
      || g.carrier == NO_CARRIER
      || (&& g.carrier.jobId.Some? && g.carrier.jobId.value < s.nextJob
          && (g.carrier.jobId.value in s.jobs ==>
                var job := s.jobs[g.carrier.jobId.value];
                && job.status.Terminal() && g.carrier.status == Some(job.status.Text())
                && g.carrier.result == NullIf(job.result) && g.carrier.error == NullIf(job.error)))
  }

  ghost predicate Consistent(s: Store) {
    && (forall id :: id in s.jobs ==> id < s.nextJob)
    && (forall g :: g in s.generations ==> CarrierAgrees(s, s.generations[g]))
  }

  lemma StatementKeepsConsistent(s: Store, statement: Statement)
    requires Consistent(s)
    ensures Consistent(Execute(s, statement))
  {
    var s' := Execute(s, statement);
    forall g | g in s'.generations ensures CarrierAgrees(s', s'.generations[g]) {
      if g in s.generations {
        assert CarrierAgrees(s, s.generations[g]);
      }
    }
  }

  /** In every store reachable from an empty one, terminal evidence is empty or agrees with its job. */
  lemma {:induction false} RunKeepsConsistent(statements: seq<Statement>)
    ensures Consistent(Run(EMPTY, statements))
  {
    if statements != [] {
      RunKeepsConsistent(statements[..|statements| - 1]);
      StatementKeepsConsistent(Run(EMPTY, statements[..|statements| - 1]), statements[|statements| - 1]);
    }
  }

  // ---- evidence is frozen until its generation is reopened ----

  predicate Evident(s: Store, g: nat) {
    g in s.generations && s.generations[g].status.Terminal() && s.generations[g].carrier != NO_CARRIER
  }

  /** The evidence of g is still there and is what it was. */
  predicate Frozen(before: Store, after: Store, g: nat)
    requires g in before.generations
  {
    Evident(after, g) && after.generations[g].carrier == before.generations[g].carrier
  }

  /** The statement asks to take the generation out of its terminal status. */
  predicate AsksToReopen(statement: Statement, g: nat) {
    statement.UpdateGeneration? && statement.id == g && !statement.generation.status.Terminal()
  }

  /** The guard lets such a statement through whenever its job exists. */
  predicate Reopens(s: Store, statement: Statement, g: nat) {
    AsksToReopen(statement, g) && ForeignKey(s, statement.generation.jobId)
  }

  /** One statement keeps recorded evidence exactly when it does not reopen the generation. */
  lemma StatementFreezesIff(s: Store, statement: Statement, g: nat)
    requires Evident(s, g)
    ensures Frozen(s, Execute(s, statement), g) <==> !Reopens(s, statement, g)
  {
  }

  predicate FrozenAfter(s: Store, statements: seq<Statement>, g: nat, n: nat)
    requires g in s.generations && n <= |statements|
  {
    Frozen(s, Run(s, statements[..n]), g)
  }

  predicate ReopensAt(s: Store, statements: seq<Statement>, g: nat, n: nat)
    requires n < |statements|
  {
    Reopens(Run(s, statements[..n]), statements[n], g)
  }

  lemma FrozenStep(s: Store, statements: seq<Statement>, g: nat, n: nat)
    requires Evident(s, g) && n < |statements| && FrozenAfter(s, statements, g, n)
    ensures FrozenAfter(s, statements, g, n + 1) <==> !ReopensAt(s, statements, g, n)
  {
    assert statements[..n + 1][..n] == statements[..n];
    StatementFreezesIff(Run(s, statements[..n]), statements[n], g);
  }

  lemma {:induction false} FrozenUpTo(s: Store, statements: seq<Statement>, g: nat, n: nat)
    requires Evident(s, g) && n <= |statements| && forall m :: 0 <= m < n ==> !ReopensAt(s, statements, g, m)
    ensures forall m :: 0 <= m <= n ==> FrozenAfter(s, statements, g, m)
  {
    if n == 0 {
      assert statements[..0] == [];
    } else {
      FrozenUpTo(s, statements, g, n - 1);
      FrozenStep(s, statements, g, n - 1);
    }
  }

  /** The same for every run: evidence is the same after each statement exactly when none of them reopens. */
  lemma EvidenceFrozenIff(s: Store, statements: seq<Statement>, g: nat)
    requires Evident(s, g)
    ensures (forall n :: 0 <= n <= |statements| ==> FrozenAfter(s, statements, g, n)) <==>
      forall n :: 0 <= n < |statements| ==> !ReopensAt(s, statements, g, n)
  {
    hide FrozenAfter, ReopensAt;
    if forall n :: 0 <= n <= |statements| ==> FrozenAfter(s, statements, g, n) {
      forall n | 0 <= n < |statements| ensures !ReopensAt(s, statements, g, n) {
        FrozenStep(s, statements, g, n);
      }
    }
    if forall n :: 0 <= n < |statements| ==> !ReopensAt(s, statements, g, n) {
      FrozenUpTo(s, statements, g, |statements|);
    }
  }

  /** A list of statements that never asks to reopen g leaves its evidence alone, whatever else it does. */
  lemma EvidenceFrozenUnlessReopened(s: Store, statements: seq<Statement>, g: nat)
    requires Evident(s, g) && forall n :: 0 <= n < |statements| ==> !AsksToReopen(statements[n], g)
    ensures Frozen(s, Run(s, statements), g)
  {
    FrozenUpTo(s, statements, g, |statements|);
    assert FrozenAfter(s, statements, g, |statements|);
    assert statements[..|statements|] == statements;
  }

  lemma RunSnoc(s: Store, statements: seq<Statement>, last: Statement)
    ensures Run(s, statements + [last]) == Execute(Run(s, statements), last)
  {
    assert (statements + [last])[..|statements|] == statements;
  }

  const LOST := Job(Failed, SqlNull, Json("e"))
  const WON := Job(Succeeded, Json("r"), SqlNull)
  const FIRST := Generation(FailedGeneration, Some(0), Carrier(Some(0), Some("failed"), SqlNull, Json("e")))
  const REOPENED := FIRST.(status := Pending, jobId := Some(1))
  const SECOND := Generation(Settled, Some(1), Carrier(Some(1), Some("succeeded"), Json("r"), SqlNull))

  /** A store with both jobs and one generation. */
  function With(g: Generation): Store {
    Store(map[0 := LOST, 1 := WON], 2, map[0 := g], map[])
  }

  lemma TwoJobs()
    ensures Execute(Execute(EMPTY, InsertJob(LOST)), InsertJob(WON)) == Store(map[0 := LOST, 1 := WON], 2, map[], map[])
  {
  }

  lemma CarriersMatch()
    ensures Execute(With(Generation(Pending, Some(0), NO_CARRIER)), UpdateGeneration(0, FIRST)) == With(FIRST)
    ensures Execute(With(FIRST), UpdateGeneration(0, REOPENED)) == With(REOPENED)
    ensures Execute(With(REOPENED), UpdateGeneration(0, SECOND)) == With(SECOND)
  {
    var jobs := With(FIRST).jobs;
    assert jobs[0] == LOST && MatchesCarrier(jobs, FIRST);
    assert jobs[1] == WON && MatchesCarrier(jobs, SECOND);
    hide MatchesCarrier;
  }

  /**
   Staying terminal is needed: reopening a generation lifts the freeze. The second run starts and ends
   with a terminal generation whose job rows never changed, and its evidence differs.
   */
  lemma ReopeningLiftsTheFreeze() returns (setup: seq<Statement>, statements: seq<Statement>)
    ensures var s := Run(EMPTY, setup);
      && Evident(s, 0) && Evident(Run(s, statements), 0)
      && Run(s, statements).jobs == s.jobs
      && Run(s, statements).generations[0].carrier != s.generations[0].carrier
  {
    var jobs := [] + [InsertJob(LOST)] + [InsertJob(WON)];
    setup := jobs + [InsertGeneration(0, Some(0))] + [UpdateGeneration(0, FIRST)];
    statements := [] + [UpdateGeneration(0, REOPENED)] + [UpdateGeneration(0, SECOND)];
    RunSnoc(EMPTY, [], InsertJob(LOST));
    RunSnoc(EMPTY, [] + [InsertJob(LOST)], InsertJob(WON));
    RunSnoc(EMPTY, jobs, InsertGeneration(0, Some(0)));
    RunSnoc(EMPTY, jobs + [InsertGeneration(0, Some(0))], UpdateGeneration(0, FIRST));
    TwoJobs();
    assert Run(EMPTY, jobs + [InsertGeneration(0, Some(0))]) == With(Generation(Pending, Some(0), NO_CARRIER));
    CarriersMatch();
    assert Run(EMPTY, setup) == With(FIRST);
    RunSnoc(With(FIRST), [], UpdateGeneration(0, REOPENED));
    RunSnoc(With(FIRST), [] + [UpdateGeneration(0, REOPENED)], UpdateGeneration(0, SECOND));
    hide Run, Execute;
  }

  // ---- deleting a job ----

  /**
   Deleting a job is refused by exactly one thing: an execution attempt of that job whose
   classification is not an object. No generation ever refuses it.
   */
  lemma DeleteJobAdmittedIff(s: Store, id: nat)
    requires id in s.jobs
    ensures Admitted(s, DeleteJob(id)) <==>
      forall a :: a in s.attempts && s.attempts[a].jobId == Some(id) ==> s.attempts[a].classification.Object?
  {
    if forall a :: a in s.attempts && s.attempts[a].jobId == Some(id) ==> s.attempts[a].classification.Object? {
      forall a | a in s.attempts && s.attempts[a].jobId == Some(id)
        ensures AttemptAdmits(s.attempts[a], s.attempts[a].(jobId := None))
      {
      }
    }
  }

  const PREPARATION := Preparation(0, 0, 0, 1, "apply", "", "", "", "", None, "", "", "", "", "", 0)

  /** The database admits a run after which a job cannot be deleted. */
  lemma RefusedDeletionReachable() returns (statements: seq<Statement>)
    ensures 0 in Run(EMPTY, statements).jobs && !Admitted(Run(EMPTY, statements), DeleteJob(0))
  {
    var job, generation := InsertJob(LOST), InsertGeneration(0, Some(0));
    var attempt := Attempt(PREPARATION, Some(0), Prepared, None, NonObject("[]"), false);
    statements := [] + [job] + [generation] + [InsertAttempt(0, attempt)];
    RunSnoc(EMPTY, [], job);
    RunSnoc(EMPTY, [] + [job], generation);
    RunSnoc(EMPTY, [] + [job] + [generation], InsertAttempt(0, attempt));
    var s := Run(EMPTY, statements);
    assert s.attempts[0] == attempt && 0 in s.jobs;
    DeleteJobAdmittedIff(s, 0);
  }

  /** The statement writes no classification but an object, as the adapter does. */
  predicate WritesObject(statement: Statement) {
    statement.InsertAttempt? || statement.UpdateAttempt? ==> statement.attempt.classification.Object?
  }

  ghost predicate AllObjects(s: Store) {
    forall a :: a in s.attempts ==> s.attempts[a].classification.Object?
  }

  lemma {:induction false} RunKeepsObjects(statements: seq<Statement>)
    requires forall n :: 0 <= n < |statements| ==> WritesObject(statements[n])
    ensures AllObjects(Run(EMPTY, statements))
  {
    if statements != [] {
      RunKeepsObjects(statements[..|statements| - 1]);
    }
  }

  /** As long as every attempt is written with an object, no deletion of a job is ever refused. */
  lemma DeletionNeverRefused(statements: seq<Statement>, id: nat)
    requires forall n :: 0 <= n < |statements| ==> WritesObject(statements[n])
    requires id in Run(EMPTY, statements).jobs
    ensures Admitted(Run(EMPTY, statements), DeleteJob(id))
  {
    RunKeepsObjects(statements);
    DeleteJobAdmittedIff(Run(EMPTY, statements), id);
  }

  /** A deletion removes the row and the references to it, and no evidence. */
  lemma DeleteJobKeepsEvidence(s: Store, id: nat)
    requires id in s.jobs && Admitted(s, DeleteJob(id))
    ensures var s' := Execute(s, DeleteJob(id));
      && s'.jobs.Keys == s.jobs.Keys - {id} && (forall j :: j in s'.jobs ==> s'.jobs[j] == s.jobs[j])
      && s'.generations.Keys == s.generations.Keys && s'.attempts.Keys == s.attempts.Keys
      && (forall g :: g in s.generations ==>
            && s'.generations[g].carrier == s.generations[g].carrier
            && s'.generations[g].status == s.generations[g].status
            && s'.generations[g].jobId != Some(id))
      && (forall a :: a in s.attempts ==>
            s'.attempts[a].jobId != Some(id) && s'.attempts[a] == s.attempts[a].(jobId := s'.attempts[a].jobId))
  {
  }

  // ---- execution attempts over every run ----

  /** What a later reading of an attempt still shows of an earlier one. */
  ghost predicate Preserved(before: Attempt, after: Attempt) {
    && after.preparation == before.preparation
    && before.phase.Rank() <= after.phase.Rank()
    && (forall key :: before.classification.Lookup(key).Some? ==>
          after.classification.Lookup(key) == before.classification.Lookup(key))
    && (before.commitAcknowledged ==> after.commitAcknowledged)
    && (after.jobId == before.jobId || after.jobId.None?)
    && (before.phase.Terminal? ==>
          && after.phase == before.phase && after.responsePhase == before.responsePhase
          && after.classification == before.classification && after.commitAcknowledged == before.commitAcknowledged)
  }

  lemma StatementPreservesAttempt(s: Store, statement: Statement, a: nat)
    requires a in s.attempts
    ensures a in Execute(s, statement).attempts
    ensures Preserved(s.attempts[a], Execute(s, statement).attempts[a])
    ensures s.attempts[a].classification.NonObject? ==>
      Execute(s, statement).attempts[a] == s.attempts[a]
  {
  }

  lemma PreservedTransitive(a: Attempt, b: Attempt, c: Attempt)
    requires Preserved(a, b) && Preserved(b, c)
    ensures Preserved(a, c)
  {
    forall key | a.classification.Lookup(key).Some?
      ensures c.classification.Lookup(key) == a.classification.Lookup(key)
    {
      assert b.classification.Lookup(key) == a.classification.Lookup(key);
    }
  }

  /** Over every run an attempt's preparation, checkpoints, acknowledgement and terminal response survive. */
  lemma {:induction false} RunPreservesAttempt(s: Store, statements: seq<Statement>, a: nat)
    requires a in s.attempts
    ensures a in Run(s, statements).attempts
    ensures Preserved(s.attempts[a], Run(s, statements).attempts[a])
  {
    if statements != [] {
      var init := statements[..|statements| - 1];
      RunPreservesAttempt(s, init, a);
      StatementPreservesAttempt(Run(s, init), statements[|statements| - 1], a);
      PreservedTransitive(s.attempts[a], Run(s, init).attempts[a], Run(s, statements).attempts[a]);
    }
  }

  /** An attempt whose classification is not an object can never change again, and pins its job row. */
  lemma {:induction false} NonObjectClassificationPinsRow(s: Store, statements: seq<Statement>, a: nat)
    requires a in s.attempts && s.attempts[a].classification.NonObject?
    requires s.attempts[a].jobId.Some? && s.attempts[a].jobId.value in s.jobs
    ensures a in Run(s, statements).attempts && Run(s, statements).attempts[a] == s.attempts[a]
    ensures s.attempts[a].jobId.value in Run(s, statements).jobs
  {
    if statements != [] {
      var init := statements[..|statements| - 1];
      NonObjectClassificationPinsRow(s, init, a);
      StatementPreservesAttempt(Run(s, init), statements[|statements| - 1], a);
      if statements[|statements| - 1] == DeleteJob(s.attempts[a].jobId.value) {
        DeleteJobAdmittedIff(Run(s, init), s.attempts[a].jobId.value);
      }
    }
  }
}
