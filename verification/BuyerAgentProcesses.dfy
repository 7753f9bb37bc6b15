/** Several scheduler processes without the lock: any of them may still wait for or finish a job it claimed long
    ago, and any of them may be anywhere in a stage of any anchor. Which writes are safe, and what every run has
    when only those are made. */
module BuyerAgentProcesses {
  import opened Wrappers
  import opened EventChain
  import opened BuyerAgentJournal
  import Pipeline = AnchorPipeline
  import Anchors = AnchorProcesses
  import Runs = BuyerAgentRuns

  /** An attempt reads its job, and puts it off or finishes it in a later transaction, whatever became of it. */
  datatype JobStep =
    | Schedule(id: string, maxAttempts: nat, now: nat)
    | Resume(id: string, additional: nat, now: nat)
    | Claim(id: string, now: nat, lease: nat)
    | PutOff(id: string, now: nat, delay: nat, action: Option<NextAction>, error: Option<ErrorCode>)
    | Finish(id: string, now: nat, completed: bool, action: Option<NextAction>, error: Option<ErrorCode>)

  datatype Step = OnJob(job: JobStep) | OnAnchor(id: string, stage: Anchors.Step)

  /** `work` is, beside each anchor's row, who is where in its stages. */
  datatype System = System(t: Tables, work: map<string, Anchors.System>)

  const EMPTY := System(Tables(map[], [], map[]), map[])

  function JobTx(h: Hasher<Body>, t: Tables, step: JobStep): Tables {
    match step
    case Schedule(id, maxAttempts, now) => ScheduleTx(h, t, id, maxAttempts, now)
    case Resume(id, additional, now) => ResumeTx(h, t, id, additional, now)
    case Claim(id, now, lease) => if id in t.jobs && Due(t.jobs[id], now) then ClaimTx(h, t, id, now, lease) else t
    case PutOff(id, now, delay, action, error) =>
      if id in t.jobs then PutOffTx(h, t, id, now, delay, action, error) else t
    case Finish(id, now, completed, action, error) =>
      if id in t.jobs then FinishTx(h, t, id, now, completed, action, error) else t
  }

  /** A completion that inserts an anchor starts its pipeline. */
  function NextOnJob(h: Hasher<Body>, y: System, step: JobStep): System {
    var t := JobTx(h, y.t, step);
    System(t, if step.id in t.anchors && step.id !in y.t.anchors
              then y.work[step.id := Anchors.Start(t.anchors[step.id].evidence, step.now)] else y.work)
  }

  /** An attestation is decided by what the journal verification finds. */
  function Seen(h: Hasher<Body>, t: Tables, id: string, stage: Anchors.Step): Anchors.Step
    requires id in t.anchors && id in t.jobs
  {
    if stage.Answer? then stage.(chainVerified := Runs.EvidenceVerifies(h, t, id)) else stage
  }

  function NextOnAnchor(h: Hasher<Body>, y: System, id: string, stage: Anchors.Step): System {
    if id in y.work && id in y.t.anchors && id in y.t.jobs then
      var w := Anchors.Next(y.work[id], Seen(h, y.t, id, stage));
      System(y.t.(anchors := y.t.anchors[id := w.anchor]), y.work[id := w])
    else y
  }

  function Next(h: Hasher<Body>, y: System, step: Step): System {
    match step
    case OnJob(job) => NextOnJob(h, y, job)
    case OnAnchor(id, stage) => NextOnAnchor(h, y, id, stage)
  }

  function Execute(h: Hasher<Body>, y: System, steps: seq<Step>): System {
    if steps == [] then y else Next(h, Execute(h, y, steps[..|steps| - 1]), steps[|steps| - 1])
  }

  // ---------- single writes ----------

  /** Putting a job off is safe exactly if it is not completed, however many attempts it made by then. */
  lemma PutOffIsSafeExactly(h: Hasher<Body>, t: Tables, id: string, now: nat, delay: nat, action: Option<NextAction>,
                            error: Option<ErrorCode>)
    requires Valid(h, t) && id in t.jobs
    ensures Valid(h, PutOffTx(h, t, id, now, delay, action, error)) <==> t.jobs[id].state != Completed
  {
    if t.jobs[id].state != Completed {
      PutOffKeepsValid(h, t, id, now, delay, action, error);
    } else {
      assert JobValid(h, t, id);
      assert !JobValid(h, PutOffTx(h, t, id, now, delay, action, error), id);
    }
  }

  /** Any event moves the head of its journal. */
  lemma WriteMovesHead(h: Hasher<Body>, t: Tables, j: Job, body: Body)
    requires CollisionFree(h) && AvoidsGenesis(h) && Linked(h, Journal(t.events, body.decisionId))
    ensures Write(h, t, j, body).jobs[body.decisionId].eventHead != Head(Journal(t.events, body.decisionId))
  {
    var journal := Journal(t.events, body.decisionId);
    AppendKeepsLinks(h, journal, |t.events| + 1, body);
    var longer := journal + [Chained(h, journal, |t.events| + 1, body)];
    assert longer[..|journal|] == journal && longer[..|longer|] == longer;
    HeadsAreDistinct(h, longer, |journal|, |longer|);
  }

  /** Finishing a job, either way, is safe exactly if it is not completed: the anchor keeps the old head. */
  lemma FinishIsSafeExactly(h: Hasher<Body>, t: Tables, id: string, now: nat, completed: bool,
                            action: Option<NextAction>, error: Option<ErrorCode>)
    requires CollisionFree(h) && AvoidsGenesis(h)
    requires Valid(h, t) && id in t.jobs
    ensures Valid(h, FinishTx(h, t, id, now, completed, action, error)) <==> t.jobs[id].state != Completed
  {
    if t.jobs[id].state != Completed {
      FinishKeepsValid(h, t, id, now, completed, action, error);
    } else {
      assert JobValid(h, t, id);
      var state := if completed then Completed else Stopped;
      WriteMovesHead(h, t, t.jobs[id].(state := state, leaseUntil := None, updatedAt := now, lastAction := action,
                                       lastError := error),
                     Body(id, if completed then CompletedEvent else StoppedEvent, state, action, error, now));
      assert !JobValid(h, FinishTx(h, t, id, now, completed, action, error), id);
    }
  }

  // ---------- the guards ----------

  /** A process writes the outcome of an attempt only to a job that is not completed. */
  predicate JobGuarded(t: Tables, step: JobStep) {
    (step.PutOff? || step.Finish?) && step.id in t.jobs ==> t.jobs[step.id].state != Completed
  }

  predicate StepJobGuarded(y: System, step: Step) { step.OnJob? ==> JobGuarded(y.t, step.job) }

  /** And that of a stage only to an anchor whose stage is still open. */
  predicate Guarded(y: System, step: Step) {
    && StepJobGuarded(y, step)
    && (step.OnAnchor? && step.id in y.work ==> Anchors.Guarded(y.work[step.id], step.stage))
  }

  predicate JobsGuarded(h: Hasher<Body>, y: System, steps: seq<Step>) {
    steps == [] ||
      var front := steps[..|steps| - 1];
      JobsGuarded(h, y, front) && StepJobGuarded(Execute(h, y, front), steps[|steps| - 1])
  }

  predicate AllGuarded(h: Hasher<Body>, y: System, steps: seq<Step>) {
    steps == [] ||
      var front := steps[..|steps| - 1];
      AllGuarded(h, y, front) && Guarded(Execute(h, y, front), steps[|steps| - 1])
  }

  // ---------- jobs, journals and evidence ----------

  ghost predicate Paired(y: System, id: string) {
    (id in y.work <==> id in y.t.anchors) && (id in y.work ==> y.work[id].anchor == y.t.anchors[id])
  }

  /** Rows, journals and the evidence of the anchors agree. */
  ghost predicate Agreeing(h: Hasher<Body>, y: System) {
    Valid(h, y.t) && forall id {:trigger Paired(y, id)} :: Paired(y, id)
  }

  lemma JobTxKeepsValid(h: Hasher<Body>, t: Tables, step: JobStep)
    requires Valid(h, t) && JobGuarded(t, step)
    ensures Valid(h, JobTx(h, t, step))
  {
    match step
    case Schedule(id, maxAttempts, now) => ScheduleKeepsValid(h, t, id, maxAttempts, now);
    case Resume(id, additional, now) => ResumeKeepsValid(h, t, id, additional, now);
    case Claim(id, now, lease) => if id in t.jobs && Due(t.jobs[id], now) { ClaimKeepsValid(h, t, id, now, lease); }
    case PutOff(id, now, delay, action, error) =>
      if id in t.jobs { PutOffKeepsValid(h, t, id, now, delay, action, error); }
    case Finish(id, now, completed, action, error) =>
      if id in t.jobs { FinishKeepsValid(h, t, id, now, completed, action, error); }
  }

  /** No job transaction changes an anchor; a completion may add one, of its own job. */
  lemma JobTxAnchors(h: Hasher<Body>, t: Tables, step: JobStep)
    ensures var u := JobTx(h, t, step);
      && (forall id :: id in t.anchors ==> id in u.anchors && u.anchors[id] == t.anchors[id])
      && (forall id :: id in u.anchors && id !in t.anchors ==>
            id == step.id && u.anchors[id] == Pipeline.NewAnchor(u.anchors[id].evidence, step.now))
  {
  }

  lemma JobStepKeepsPairs(h: Hasher<Body>, y: System, step: JobStep)
    requires forall id {:trigger Paired(y, id)} :: Paired(y, id)
    ensures forall id {:trigger Paired(NextOnJob(h, y, step), id)} :: Paired(NextOnJob(h, y, step), id)
  {
    var after := NextOnJob(h, y, step);
    JobTxAnchors(h, y.t, step);
    forall id ensures Paired(after, id) {
      assert Paired(y, id) && Paired(y, step.id);
    }
  }

  /** Whatever a stage does, guarded or not, the evidence stays. */
  lemma StageKeepsEvidence(y: Anchors.System, stage: Anchors.Step)
    ensures Anchors.Next(y, stage).anchor.evidence == y.anchor.evidence
  {
  }

  lemma StageStepKeepsAgreeing(h: Hasher<Body>, y: System, id: string, stage: Anchors.Step)
    requires Agreeing(h, y)
    ensures Agreeing(h, NextOnAnchor(h, y, id, stage))
  {
    if id in y.work && id in y.t.anchors && id in y.t.jobs {
      var after := NextOnAnchor(h, y, id, stage);
      assert Paired(y, id);
      StageKeepsEvidence(y.work[id], Seen(h, y.t, id, stage));
      Runs.AnchorSwapKeepsTables(h, y.t, id, after.t.anchors[id]);
      forall other ensures Paired(after, other) {
        assert Paired(y, other);
      }
    }
  }

  lemma StepKeepsAgreeing(h: Hasher<Body>, y: System, step: Step)
    requires Agreeing(h, y) && StepJobGuarded(y, step)
    ensures Agreeing(h, Next(h, y, step))
  {
    match step
    case OnJob(job) => JobTxKeepsValid(h, y.t, job); JobStepKeepsPairs(h, y, job);
    case OnAnchor(id, stage) => StageStepKeepsAgreeing(h, y, id, stage);
  }

  /** Every step of every process, in any stage of any anchor, keeps rows, journals and evidence in agreement
      exactly if it does not write the outcome of an attempt at a completed job. */
  lemma StepIsSafeExactly(h: Hasher<Body>, y: System, step: Step)
    requires CollisionFree(h) && AvoidsGenesis(h) && Agreeing(h, y)
    ensures Agreeing(h, Next(h, y, step)) <==> StepJobGuarded(y, step)
  {
    if StepJobGuarded(y, step) {
      StepKeepsAgreeing(h, y, step);
    } else {
      match step.job
      case PutOff(id, now, delay, action, error) => PutOffIsSafeExactly(h, y.t, id, now, delay, action, error);
      case Finish(id, now, completed, action, error) => FinishIsSafeExactly(h, y.t, id, now, completed, action, error);
    }
  }

  /** And every run from the empty tables keeps them in agreement. */
  lemma {:induction false} UnlockedRunsStayValid(h: Hasher<Body>, steps: seq<Step>)
    requires JobsGuarded(h, EMPTY, steps)
    ensures Agreeing(h, Execute(h, EMPTY, steps))
  {
    if steps != [] {
      UnlockedRunsStayValid(h, steps[..|steps| - 1]);
      StepKeepsAgreeing(h, Execute(h, EMPTY, steps[..|steps| - 1]), steps[|steps| - 1]);
    }
  }

  lemma JobTxLeavesCompleted(h: Hasher<Body>, t: Tables, step: JobStep, id: string)
    requires id in t.jobs && t.jobs[id].state == Completed && JobGuarded(t, step)
    ensures Untouched(t, JobTx(h, t, step), id)
  {
    match step
    case Schedule(other, maxAttempts, now) => ScheduleLeavesOthers(h, t, other, maxAttempts, now, id);
    case Resume(other, additional, now) => ResumeLeavesOthers(h, t, other, additional, now, id);
    case Claim(other, now, lease) =>
      if other in t.jobs && Due(t.jobs[other], now) { ClaimLeavesOthers(h, t, other, now, lease, id); }
    case PutOff(other, now, delay, action, error) =>
      if other in t.jobs { PutOffLeavesOthers(h, t, other, now, delay, action, error, id); }
    case Finish(other, now, completed, action, error) =>
      if other in t.jobs { FinishLeavesOthers(h, t, other, now, completed, action, error, id); }
  }

  lemma StepKeepsSealed(h: Hasher<Body>, y: System, step: Step, id: string)
    requires Agreeing(h, y) && StepJobGuarded(y, step) && id in y.t.jobs && y.t.jobs[id].state == Completed
    ensures Runs.Sealed(y.t, Next(h, y, step).t, id)
  {
    assert JobValid(h, y.t, id);
    match step
    case OnJob(job) =>
      JobTxLeavesCompleted(h, y.t, job, id);
      Runs.UntouchedSealed(y.t, JobTx(h, y.t, job), id);
    case OnAnchor(other, stage) =>
      if other in y.work && other in y.t.anchors && other in y.t.jobs {
        assert Paired(y, other);
        StageKeepsEvidence(y.work[other], Seen(h, y.t, other, stage));
      }
  }

  /** Under the guard on jobs completion is permanent with any number of processes: row, journal and evidence of
      a completed job are the same after any further steps, whatever the stages of its anchor do meanwhile. */
  lemma {:induction false} CompletedStaysUnlocked(h: Hasher<Body>, y: System, steps: seq<Step>, id: string)
    requires Agreeing(h, y) && id in y.t.jobs && y.t.jobs[id].state == Completed && JobsGuarded(h, y, steps)
    ensures Agreeing(h, Execute(h, y, steps)) && Runs.Sealed(y.t, Execute(h, y, steps).t, id)
  {
    assert JobValid(h, y.t, id);
    if steps != [] {
      var front := steps[..|steps| - 1];
      CompletedStaysUnlocked(h, y, front, id);
      StepKeepsAgreeing(h, Execute(h, y, front), steps[|steps| - 1]);
      StepKeepsSealed(h, Execute(h, y, front), steps[|steps| - 1], id);
      Runs.SealedTransitive(y.t, Execute(h, y, front).t, Execute(h, y, steps).t, id);
    }
  }

  // ---------- the anchors ----------

  /** No stage failed over its journal, and nobody is about to write that it did. */
  ghost predicate Unblamed(w: Anchors.System) {
    && w.anchor.columns[Pipeline.ATTEST].error != Some(Pipeline.ChainVerificationFailed)
    && forall o :: o in w.tasks && w.tasks[o].HasOutcome? && w.tasks[o].outcome.Close? ==>
         w.tasks[o].outcome.error != Some(Pipeline.ChainVerificationFailed)
  }

  ghost predicate WorkValid(w: Anchors.System) {
    Anchors.Valid(w) && w.claims + Pipeline.Potential(w.anchor) <= 91 && Unblamed(w)
  }

  ghost predicate WorkAt(y: System, id: string)
    requires id in y.work
  {
    WorkValid(y.work[id])
  }

  ghost predicate SystemValid(h: Hasher<Body>, y: System) {
    Agreeing(h, y) && forall id {:trigger WorkAt(y, id)} :: id in y.work ==> WorkAt(y, id)
  }

  lemma StageKeepsUnblamed(w: Anchors.System, stage: Anchors.Step)
    requires Unblamed(w) && (stage.Answer? ==> stage.chainVerified)
    ensures Unblamed(Anchors.Next(w, stage))
  {
  }

  lemma StageKeepsWork(w: Anchors.System, stage: Anchors.Step)
    requires WorkValid(w) && Anchors.Guarded(w, stage) && (stage.Answer? ==> stage.chainVerified)
    ensures WorkValid(Anchors.Next(w, stage))
  {
    Anchors.NextKeepsValid(w, stage);
    Anchors.NextSpends(w, stage);
    StageKeepsUnblamed(w, stage);
  }

  lemma StartIsWork(evidence: Digest, now: nat)
    ensures WorkValid(Anchors.Start(evidence, now))
  {
    Anchors.StartIsValid(evidence, now);
    Pipeline.NewAnchorPotential(evidence, now);
  }

  lemma NextKeepsSystem(h: Hasher<Body>, y: System, step: Step)
    requires SystemValid(h, y) && Guarded(y, step)
    ensures SystemValid(h, Next(h, y, step))
  {
    StepKeepsAgreeing(h, y, step);
    var after := Next(h, y, step);
    forall id | id in after.work ensures WorkAt(after, id) {
      if id in y.work && after.work[id] == y.work[id] {
        assert WorkAt(y, id);
      } else if step.OnJob? {
        StartIsWork(after.work[id].anchor.evidence, step.job.now);
        assert Paired(y, id);
      } else {
        assert WorkAt(y, id);
        Runs.EvidenceAlwaysVerifies(h, y.t, id);
        StageKeepsWork(y.work[id], Seen(h, y.t, id, step.stage));
      }
    }
  }

  lemma {:induction false} GuardedRunsStayValid(h: Hasher<Body>, steps: seq<Step>)
    requires AllGuarded(h, EMPTY, steps)
    ensures SystemValid(h, Execute(h, EMPTY, steps))
  {
    if steps != [] {
      GuardedRunsStayValid(h, steps[..|steps| - 1]);
      NextKeepsSystem(h, Execute(h, EMPTY, steps[..|steps| - 1]), steps[|steps| - 1]);
    }
  }

  /** Under both guards, on every run of any number of processes: exactly the completed jobs have an anchor, over
      the head of their journal; it was claimed at most 91 times and never failed over its journal; a permit stands
      on nine answers taken in order; and an anchor that is not final can be claimed from some moment on. */
  lemma AnchorsAgreeUnlocked(h: Hasher<Body>, steps: seq<Step>, id: string)
    requires AllGuarded(h, EMPTY, steps)
    ensures var y := Execute(h, EMPTY, steps);
      && (id in y.t.anchors <==> id in y.t.jobs && y.t.jobs[id].state == Completed)
      && (id in y.t.anchors ==>
            var a := y.t.anchors[id];
            && id in y.work && y.work[id].claims <= 91
            && a.evidence == y.t.jobs[id].eventHead == Head(Journal(y.t.events, id))
            && a.columns[Pipeline.ATTEST].error != Some(Pipeline.ChainVerificationFailed)
            && (a.state == Pipeline.Permitted ==> Pipeline.FullyBound(a.ids, y.work[id].accepted, a.evidence))
            && (Pipeline.Final(a.state) ||
                  exists s: Pipeline.Stage, from: nat :: Pipeline.ClaimableFrom(a, s, from)))
  {
    GuardedRunsStayValid(h, steps);
    var y := Execute(h, EMPTY, steps);
    if id in y.t.jobs {
      assert JobValid(h, y.t, id);
    }
    if id in y.t.anchors {
      assert Paired(y, id) && WorkAt(y, id);
      Pipeline.LiveIsClaimable(y.t.anchors[id]);
      if y.t.anchors[id].state == Pipeline.Permitted {
        Pipeline.PermittedRowBound(y.t.anchors[id], y.work[id].accepted);
      }
    }
  }

  /** What later steps of any process leave of an anchor: evidence and stored ids, and all of a final one. */
  ghost predicate Kept(t: Tables, u: Tables, id: string) {
    && id in t.anchors && id in u.anchors
    && Pipeline.KeepsStored(t.anchors[id], u.anchors[id])
    && (Pipeline.Final(t.anchors[id].state) ==> u.anchors[id] == t.anchors[id])
  }

  lemma NextKeepsAnchor(h: Hasher<Body>, y: System, step: Step, id: string)
    requires SystemValid(h, y) && Guarded(y, step) && id in y.t.anchors
    ensures Kept(y.t, Next(h, y, step).t, id)
  {
    assert Paired(y, id) && WorkAt(y, id);
    match step
    case OnJob(job) => JobTxAnchors(h, y.t, job);
    case OnAnchor(other, stage) =>
      if other == id && id in y.t.jobs {
        Anchors.NextKeepsValid(y.work[id], Seen(h, y.t, id, stage));
        if Pipeline.Final(y.t.anchors[id].state) {
          Anchors.NextKeepsFinal(y.work[id], Seen(h, y.t, id, stage));
        }
      }
  }

  lemma {:induction false} AnchorsStayUnlocked(h: Hasher<Body>, y: System, steps: seq<Step>, id: string)
    requires SystemValid(h, y) && AllGuarded(h, y, steps) && id in y.t.anchors
    ensures SystemValid(h, Execute(h, y, steps)) && Kept(y.t, Execute(h, y, steps).t, id)
  {
    if steps != [] {
      var front := steps[..|steps| - 1];
      AnchorsStayUnlocked(h, y, front, id);
      NextKeepsSystem(h, Execute(h, y, front), steps[|steps| - 1]);
      NextKeepsAnchor(h, Execute(h, y, front), steps[|steps| - 1], id);
      Pipeline.KeepsStoredTransitive(y.t.anchors[id], Execute(h, y, front).t.anchors[id],
                                     Execute(h, y, steps).t.anchors[id]);
    }
  }

  // ---------- what unguarded writes do ----------

  /** Any event after the completion moves the head of the journal away from the anchor's evidence. */
  lemma LaterEventBreaksEvidence(h: Hasher<Body>, t: Tables, j: Job, body: Body)
    requires CollisionFree(h) && AvoidsGenesis(h)
    requires Valid(h, t) && body.decisionId in t.jobs && t.jobs[body.decisionId].state == Completed
    ensures body.decisionId in t.anchors && !Runs.EvidenceVerifies(h, Write(h, t, j, body), body.decisionId)
  {
    assert JobValid(h, t, body.decisionId);
    WriteMovesHead(h, t, j, body);
  }

  /** A second process that still holds an old claim of a job can put it off after the first completed it:
      then the job is open again and its anchor no longer verifies against its journal. */
  lemma SecondSchedulerReopens(h: Hasher<Body>, t: Tables, id: string, now: nat, delay: nat, action: Option<NextAction>,
                               error: Option<ErrorCode>)
    requires CollisionFree(h) && AvoidsGenesis(h)
    requires Valid(h, t) && id in t.jobs && t.jobs[id].state == Completed
    ensures var after := PutOffTx(h, t, id, now, delay, action, error);
      && after.jobs[id].state == Waiting
      && id in after.anchors && !Runs.EvidenceVerifies(h, after, id)
  {
    LaterEventBreaksEvidence(h, t, t.jobs[id].(state := Waiting, nextRunAt := now + delay, leaseUntil := None,
                                               updatedAt := now, lastAction := action, lastError := error),
                             Body(id, if error.Some? then RetryScheduled else WaitingEvent, Waiting, action, error,
                                  now));
  }

  /** One process is enough: when the row cannot be read back after the completion was committed, the same attempt
      takes the exception for the runner's and stops the job that it just completed. */
  lemma FailedReadStopsCompleted(h: Hasher<Body>, t: Tables, id: string, now: nat, action: Option<NextAction>)
    requires CollisionFree(h) && AvoidsGenesis(h)
    requires Valid(h, t) && id in t.jobs && t.jobs[id].state == Running
    ensures var completed := FinishTx(h, t, id, now, true, action, None);
      var after := FinishTx(h, completed, id, now, false, None, Some(SchedulerFailure));
      && Valid(h, completed) && Runs.EvidenceVerifies(h, completed, id)
      && after.jobs[id].state == Stopped && id in after.anchors && !Runs.EvidenceVerifies(h, after, id)
  {
    FinishKeepsValid(h, t, id, now, true, action, None);
    var completed := FinishTx(h, t, id, now, true, action, None);
    assert completed.jobs[id].state == Completed;
    assert JobValid(h, completed, id);
    Runs.EvidenceAlwaysVerifies(h, completed, id);
    LaterEventBreaksEvidence(h, completed,
                             completed.jobs[id].(state := Stopped, leaseUntil := None, updatedAt := now,
                                                 lastAction := None, lastError := Some(SchedulerFailure)),
                             Body(id, StoppedEvent, Stopped, None, Some(SchedulerFailure), now));
  }
}
