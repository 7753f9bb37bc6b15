/** Whole runs of one scheduler process: scheduling and resuming interleave with the claims, answers
    and crashes of the process that holds the lock. */
module BuyerAgentRuns {
  import opened Wrappers
  import opened EventChain
  import opened BuyerAgentJournal
  import Pipeline = AnchorPipeline

  /** What the lock holder has claimed and not yet finished. */
  datatype Held = Nothing | TheJob(id: string) | TheAnchor(id: string, stage: Pipeline.Stage)

  /** `runs` records the history of every anchor beside its row. */
  datatype System = System(tables: Tables, held: Held, runs: map<string, Pipeline.Run>)

  datatype Step =
    | Schedule(id: string, maxAttempts: nat, now: nat)
    | Resume(id: string, additional: nat, now: nat)
    | Claim(id: string, now: nat)
    | Wait(now: nat, delay: nat, action: Option<NextAction>, error: Option<ErrorCode>)
    | Finish(now: nat, completed: bool, action: Option<NextAction>, error: Option<ErrorCode>)
    | ClaimAnchor(id: string, stage: Pipeline.Stage, now: nat)
    | RunAnchor(answer: Pipeline.Answer, now: nat)
    | Crash

  datatype Config = Config(lease: nat, poll: nat)

  const EMPTY := System(Tables(map[], [], map[]), Nothing, map[])

  function Verify(h: Hasher<Body>, j: Job, journal: seq<Row>): Verification {
    var misfit := FirstMisfit(h, journal);
    if misfit.Some? then Verification(false, |journal|, None, Some(journal[misfit.value].eventId))
    else if j.eventCount != |journal| || j.eventHead != Head(journal) then Verification(false, |journal|, None, None)
    else Verification(true, |journal|, Some(Head(journal)), None)
  }

  /** The check the Attest stage makes before it asks the wallet. */
  predicate EvidenceVerifies(h: Hasher<Body>, t: Tables, id: string)
    requires id in t.anchors && id in t.jobs
  {
    var v := Verify(h, t.jobs[id], Journal(t.events, id));
    v.valid && v.headHash == Some(t.anchors[id].evidence)
  }

  function AnchorStep(s: System, id: string, act: Pipeline.Act, held: Held, c: Config): System
    requires id in s.runs
  {
    var run := Pipeline.Next(s.runs[id], act, c.lease, c.poll);
    System(s.tables.(anchors := s.tables.anchors[id := run.anchor]), held, s.runs[id := run])
  }

  function ClaimStep(h: Hasher<Body>, c: Config, s: System, id: string, now: nat): System {
    if s.held.Nothing? && id in s.tables.jobs && BuyerAgentJournal.Due(s.tables.jobs[id], now)
    then s.(tables := ClaimTx(h, s.tables, id, now, c.lease), held := TheJob(id)) else s
  }

  /** The lock holder has a job that it did not find stopped. */
  predicate HoldsOpenJob(s: System) {
    s.held.TheJob? && s.held.id in s.tables.jobs && s.tables.jobs[s.held.id].state != Stopped
  }

  function WaitStep(h: Hasher<Body>, s: System, now: nat, delay: nat, action: Option<NextAction>,
                    error: Option<ErrorCode>): System
  {
    if HoldsOpenJob(s)
    then s.(tables := WaitTx(h, s.tables, s.held.id, now, delay, action, error), held := Nothing) else s
  }

  function FinishStep(h: Hasher<Body>, s: System, now: nat, completed: bool, action: Option<NextAction>,
                      error: Option<ErrorCode>): System
  {
    if HoldsOpenJob(s) then
      var id := s.held.id;
      var after := FinishTx(h, s.tables, id, now, completed, action, error);
      var runs := if id in after.anchors && id !in s.runs
                  then s.runs[id := Pipeline.Start(after.anchors[id].evidence, now)] else s.runs;
      System(after, Nothing, runs)
    else s
  }

  function ClaimAnchorStep(c: Config, s: System, id: string, stage: Pipeline.Stage, now: nat): System {
    if s.held.Nothing? && id in s.runs && id in s.tables.anchors && Pipeline.Due(s.tables.anchors[id], stage, now)
    then AnchorStep(s, id, Pipeline.ClaimAct(stage, now), TheAnchor(id, stage), c) else s
  }

  function RunAnchorStep(h: Hasher<Body>, c: Config, s: System, answer: Pipeline.Answer, now: nat): System {
    if s.held.TheAnchor? && s.held.id in s.runs && s.held.id in s.tables.anchors && s.held.id in s.tables.jobs
    then AnchorStep(s, s.held.id, Pipeline.RunAct(answer, EvidenceVerifies(h, s.tables, s.held.id), now), Nothing,
                    c) else s
  }

  function CrashStep(c: Config, s: System): System {
    if s.held.TheAnchor? && s.held.id in s.runs
    then AnchorStep(s, s.held.id, Pipeline.CrashAct, Nothing, c) else s.(held := Nothing)
  }

  function Next(h: Hasher<Body>, c: Config, s: System, step: Step): System {
    match step
    case Schedule(id, maxAttempts, now) => s.(tables := ScheduleTx(h, s.tables, id, maxAttempts, now))
    case Resume(id, additional, now) => s.(tables := ResumeTx(h, s.tables, id, additional, now))
    case Claim(id, now) => ClaimStep(h, c, s, id, now)
    case Wait(now, delay, action, error) => WaitStep(h, s, now, delay, action, error)
    case Finish(now, completed, action, error) => FinishStep(h, s, now, completed, action, error)
    case ClaimAnchor(id, stage, now) => ClaimAnchorStep(c, s, id, stage, now)
    case RunAnchor(answer, now) => RunAnchorStep(h, c, s, answer, now)
    case Crash => CrashStep(c, s)
  }

  function Execute(h: Hasher<Body>, c: Config, s: System, steps: seq<Step>): System {
    if steps == [] then s else Next(h, c, Execute(h, c, s, steps[..|steps| - 1]), steps[|steps| - 1])
  }

  // ---------- the invariant ----------

  /** An anchor's row is what its own pipeline made of it, and its journal check never failed. */
  ghost predicate AnchorValid(a: Pipeline.Anchor, run: Pipeline.Run, held: Option<Pipeline.Stage>) {
    && run.anchor == a && run.held == held
    && Pipeline.Valid(run)
    && run.claims + Pipeline.Potential(a) <= 91
    && a.columns[Pipeline.ATTEST].error != Some(Pipeline.ChainVerificationFailed)
  }

  function HeldStage(held: Held, id: string): Option<Pipeline.Stage> {
    if held.TheAnchor? && held.id == id then Some(held.stage) else None
  }

  ghost predicate RunsValid(anchors: map<string, Pipeline.Anchor>, runs: map<string, Pipeline.Run>, held: Held) {
    && runs.Keys == anchors.Keys
    && (forall id {:trigger AnchorValid(anchors[id], runs[id], HeldStage(held, id))} :: id in runs ==>
          AnchorValid(anchors[id], runs[id], HeldStage(held, id)))
    && (held.TheAnchor? ==> held.id in runs)
  }

  ghost predicate SystemValid(h: Hasher<Body>, s: System) {
    && Valid(h, s.tables)
    && RunsValid(s.tables.anchors, s.runs, s.held)
    && (s.held.TheJob? ==> s.held.id in s.tables.jobs && s.tables.jobs[s.held.id].state != Completed)
  }

  lemma ValidJournalVerifies(h: Hasher<Body>, t: Tables, id: string)
    requires Valid(h, t) && id in t.jobs
    ensures var v := Verify(h, t.jobs[id], Journal(t.events, id));
            v.valid && v.eventCount == t.jobs[id].eventCount && v.headHash == Some(t.jobs[id].eventHead)
  {
    assert JobValid(h, t, id);
    LinkedNeverMisfits(h, Journal(t.events, id));
  }

  // ---------- anchors ----------

  /** Replacing one anchor by another over the same evidence keeps the tables valid. */
  lemma AnchorSwapKeepsTables(h: Hasher<Body>, t: Tables, id: string, a: Pipeline.Anchor)
    requires Valid(h, t) && id in t.anchors && a.evidence == t.anchors[id].evidence
    ensures Valid(h, t.(anchors := t.anchors[id := a]))
  {
    var u := t.(anchors := t.anchors[id := a]);
    forall other | other in u.jobs ensures JobValid(h, u, other) {
      assert JobValid(h, t, other);
    }
  }

  lemma EvidenceAlwaysVerifies(h: Hasher<Body>, t: Tables, id: string)
    requires Valid(h, t) && id in t.anchors && id in t.jobs
    ensures EvidenceVerifies(h, t, id)
  {
    assert JobValid(h, t, id);
    ValidJournalVerifies(h, t, id);
  }

  lemma RunStaysValid(run: Pipeline.Run, act: Pipeline.Act, c: Config)
    requires AnchorValid(run.anchor, run, run.held)
    requires act.RunAct? ==> act.chainVerified
    ensures var n := Pipeline.Next(run, act, c.lease, c.poll);
            AnchorValid(n.anchor, n, n.held) && n.anchor.evidence == run.anchor.evidence
  {
    Pipeline.NextKeepsValid(run, act, c.lease, c.poll);
    Pipeline.NextSpends(run, act, c.lease, c.poll);
    Pipeline.VerifiedJournalNotBlamed(run, act, c.lease, c.poll);
    if run.held.Some? {
      Pipeline.HeldNotStored(run);
    }
    Pipeline.NextKeepsStored(run, act, c.lease, c.poll);
  }

  lemma SetRunKeepsRuns(anchors: map<string, Pipeline.Anchor>, runs: map<string, Pipeline.Run>, held: Held,
                        id: string, run: Pipeline.Run, after: Held)
    requires RunsValid(anchors, runs, held)
    requires AnchorValid(run.anchor, run, HeldStage(after, id))
    requires held.TheAnchor? ==> held.id == id
    requires after.TheAnchor? ==> after.id == id
    ensures RunsValid(anchors[id := run.anchor], runs[id := run], after)
  {
    forall other | other in runs && other != id
      ensures AnchorValid(anchors[other], runs[other], HeldStage(after, other))
    {
      assert AnchorValid(anchors[other], runs[other], HeldStage(held, other));
      assert HeldStage(held, other) == HeldStage(after, other);
    }
  }

  lemma AnchorStepKeepsValid(h: Hasher<Body>, c: Config, s: System, id: string, act: Pipeline.Act, held: Held)
    requires SystemValid(h, s) && id in s.runs && id in s.tables.anchors
    requires act.RunAct? ==> act.chainVerified
    requires !s.held.TheJob? && !held.TheJob?
    requires s.held.TheAnchor? ==> s.held.id == id
    requires held.TheAnchor? ==> held.id == id
    requires Pipeline.Next(s.runs[id], act, c.lease, c.poll).held == HeldStage(held, id)
    ensures SystemValid(h, AnchorStep(s, id, act, held, c))
  {
    var run := s.runs[id];
    var after := Pipeline.Next(run, act, c.lease, c.poll);
    assert AnchorValid(s.tables.anchors[id], run, HeldStage(s.held, id));
    RunStaysValid(run, act, c);
    AnchorSwapKeepsTables(h, s.tables, id, after.anchor);
    SetRunKeepsRuns(s.tables.anchors, s.runs, s.held, id, after, held);
  }

  // ---------- jobs ----------

  lemma ReleaseKeepsRuns(anchors: map<string, Pipeline.Anchor>, runs: map<string, Pipeline.Run>, held: Held,
                         after: Held)
    requires RunsValid(anchors, runs, held)
    requires held == after || (!held.TheAnchor? && !after.TheAnchor?)
    ensures RunsValid(anchors, runs, after)
  {
    forall id | id in runs ensures AnchorValid(anchors[id], runs[id], HeldStage(after, id)) {
      assert AnchorValid(anchors[id], runs[id], HeldStage(held, id));
      assert HeldStage(held, id) == HeldStage(after, id);
    }
  }

  lemma StartValid(evidence: Digest, now: nat)
    ensures var run := Pipeline.Start(evidence, now); AnchorValid(run.anchor, run, None)
  {
    Pipeline.NewAnchorPotential(evidence, now);
    assert Pipeline.Valid(Pipeline.Start(evidence, now));
  }

  /** Job transactions that leave the anchors alone. */
  lemma JobTablesKeepSystem(h: Hasher<Body>, s: System, w: Tables, held: Held)
    requires SystemValid(h, s) && Valid(h, w) && w.anchors == s.tables.anchors
    requires held == s.held || (!s.held.TheAnchor? && !held.TheAnchor?)
    requires held.TheJob? ==> held.id in w.jobs && w.jobs[held.id].state != Completed
    ensures SystemValid(h, s.(tables := w, held := held))
  {
    ReleaseKeepsRuns(s.tables.anchors, s.runs, s.held, held);
  }

  lemma ScheduleStepKeepsValid(h: Hasher<Body>, s: System, id: string, maxAttempts: nat, now: nat)
    requires SystemValid(h, s)
    ensures SystemValid(h, s.(tables := ScheduleTx(h, s.tables, id, maxAttempts, now)))
  {
    ScheduleKeepsValid(h, s.tables, id, maxAttempts, now);
    JobTablesKeepSystem(h, s, ScheduleTx(h, s.tables, id, maxAttempts, now), s.held);
  }

  lemma ResumeStepKeepsValid(h: Hasher<Body>, s: System, id: string, additional: nat, now: nat)
    requires SystemValid(h, s)
    ensures SystemValid(h, s.(tables := ResumeTx(h, s.tables, id, additional, now)))
  {
    ResumeKeepsValid(h, s.tables, id, additional, now);
    JobTablesKeepSystem(h, s, ResumeTx(h, s.tables, id, additional, now), s.held);
  }

  lemma ClaimStepKeepsValid(h: Hasher<Body>, c: Config, s: System, id: string, now: nat)
    requires SystemValid(h, s)
    ensures SystemValid(h, ClaimStep(h, c, s, id, now))
  {
    if s.held.Nothing? && id in s.tables.jobs && BuyerAgentJournal.Due(s.tables.jobs[id], now) {
      ClaimKeepsValid(h, s.tables, id, now, c.lease);
      JobTablesKeepSystem(h, s, ClaimTx(h, s.tables, id, now, c.lease), TheJob(id));
    }
  }

  lemma WaitStepKeepsValid(h: Hasher<Body>, s: System, now: nat, delay: nat, action: Option<NextAction>,
                           error: Option<ErrorCode>)
    requires SystemValid(h, s)
    ensures SystemValid(h, WaitStep(h, s, now, delay, action, error))
  {
    if HoldsOpenJob(s) {
      WaitKeepsValid(h, s.tables, s.held.id, now, delay, action, error);
      JobTablesKeepSystem(h, s, WaitTx(h, s.tables, s.held.id, now, delay, action, error), Nothing);
    }
  }

  lemma FinishStepKeepsValid(h: Hasher<Body>, s: System, now: nat, completed: bool, action: Option<NextAction>,
                             error: Option<ErrorCode>)
    requires SystemValid(h, s)
    ensures SystemValid(h, FinishStep(h, s, now, completed, action, error))
  {
    if HoldsOpenJob(s) {
      var id := s.held.id;
      var t := s.tables;
      FinishKeepsValid(h, t, id, now, completed, action, error);
      assert JobValid(h, t, id);
      assert id !in t.anchors && id !in s.runs;
      ReleaseKeepsRuns(t.anchors, s.runs, s.held, Nothing);
      if completed {
        var after := FinishTx(h, t, id, now, completed, action, error);
        var run := Pipeline.Start(after.anchors[id].evidence, now);
        StartValid(after.anchors[id].evidence, now);
        SetRunKeepsRuns(t.anchors, s.runs, Nothing, id, run, Nothing);
        assert after.anchors == t.anchors[id := run.anchor];
      }
    }
  }

  lemma ClaimAnchorKeepsValid(h: Hasher<Body>, c: Config, s: System, id: string, stage: Pipeline.Stage, now: nat)
    requires SystemValid(h, s)
    ensures SystemValid(h, ClaimAnchorStep(c, s, id, stage, now))
  {
    if s.held.Nothing? && id in s.runs && id in s.tables.anchors && Pipeline.Due(s.tables.anchors[id], stage, now) {
      assert AnchorValid(s.tables.anchors[id], s.runs[id], HeldStage(s.held, id));
      AnchorStepKeepsValid(h, c, s, id, Pipeline.ClaimAct(stage, now), TheAnchor(id, stage));
    }
  }

  lemma RunAnchorKeepsValid(h: Hasher<Body>, c: Config, s: System, answer: Pipeline.Answer, now: nat)
    requires SystemValid(h, s)
    ensures SystemValid(h, RunAnchorStep(h, c, s, answer, now))
  {
    if s.held.TheAnchor? && s.held.id in s.tables.jobs {
      EvidenceAlwaysVerifies(h, s.tables, s.held.id);
      AnchorStepKeepsValid(h, c, s, s.held.id, Pipeline.RunAct(answer, true, now), Nothing);
    }
  }

  lemma CrashKeepsValid(h: Hasher<Body>, c: Config, s: System)
    requires SystemValid(h, s)
    ensures SystemValid(h, CrashStep(c, s))
  {
    if s.held.TheAnchor? {
      AnchorStepKeepsValid(h, c, s, s.held.id, Pipeline.CrashAct, Nothing);
    } else {
      JobTablesKeepSystem(h, s, s.tables, Nothing);
    }
  }

  /** Every step, whatever its arguments, keeps the whole system valid. */
  lemma NextKeepsSystem(h: Hasher<Body>, c: Config, s: System, step: Step)
    requires SystemValid(h, s)
    ensures SystemValid(h, Next(h, c, s, step))
  {
    match step
    case Schedule(id, maxAttempts, now) => ScheduleStepKeepsValid(h, s, id, maxAttempts, now);
    case Resume(id, additional, now) => ResumeStepKeepsValid(h, s, id, additional, now);
    case Claim(id, now) => ClaimStepKeepsValid(h, c, s, id, now);
    case Wait(now, delay, action, error) => WaitStepKeepsValid(h, s, now, delay, action, error);
    case Finish(now, completed, action, error) => FinishStepKeepsValid(h, s, now, completed, action, error);
    case ClaimAnchor(id, stage, now) => ClaimAnchorKeepsValid(h, c, s, id, stage, now);
    case RunAnchor(answer, now) => RunAnchorKeepsValid(h, c, s, answer, now);
    case Crash => CrashKeepsValid(h, c, s);
  }

  lemma {:induction false} ExecuteKeepsValid(h: Hasher<Body>, c: Config, s: System, steps: seq<Step>)
    requires SystemValid(h, s)
    ensures SystemValid(h, Execute(h, c, s, steps))
  {
    if steps != [] {
      ExecuteKeepsValid(h, c, s, steps[..|steps| - 1]);
      NextKeepsSystem(h, c, Execute(h, c, s, steps[..|steps| - 1]), steps[|steps| - 1]);
    }
  }

  // ---------- what every run has ----------

  /** The journal of every job always verifies, and replaying it gives the row's state, attempt
      count and last error; attempts never exceed their maximum. */
  lemma JournalAgreesWithRow(h: Hasher<Body>, c: Config, steps: seq<Step>, id: string)
    requires id in Execute(h, c, EMPTY, steps).tables.jobs
    ensures var t := Execute(h, c, EMPTY, steps).tables; var j := t.jobs[id]; var journal := Journal(t.events, id);
            && Verify(h, j, journal) == Verification(true, j.eventCount, Some(j.eventHead), None)
            && j.eventCount == |journal| && j.eventHead == Head(journal)
            && Replay(journal) == View(j.state, j.attemptCount, j.lastError)
            && j.attemptCount <= j.maxAttempts
            && (j.state == Running <==> j.leaseUntil.Some?)
  {
    ExecuteKeepsValid(h, c, EMPTY, steps);
    var t := Execute(h, c, EMPTY, steps).tables;
    assert JobValid(h, t, id);
    ValidJournalVerifies(h, t, id);
  }

  /** Exactly the completed jobs have an anchor, over their chain head, and no anchor is stranded,
      claimed more than 91 times, or failed over its journal. */
  lemma AnchorsAgreeWithJobs(h: Hasher<Body>, c: Config, steps: seq<Step>, id: string)
    ensures var s := Execute(h, c, EMPTY, steps); var t := s.tables;
            && (id in t.anchors <==> id in t.jobs && t.jobs[id].state == Completed)
            && (id in t.anchors ==>
                  && t.anchors[id].evidence == t.jobs[id].eventHead == Head(Journal(t.events, id))
                  && Pipeline.Live(t.anchors[id])
                  && id in s.runs && s.runs[id].claims <= 91
                  && t.anchors[id].columns[Pipeline.ATTEST].error != Some(Pipeline.ChainVerificationFailed))
  {
    ExecuteKeepsValid(h, c, EMPTY, steps);
    var s := Execute(h, c, EMPTY, steps);
    if id in s.tables.jobs {
      assert JobValid(h, s.tables, id);
    }
    if id in s.tables.anchors {
      assert AnchorValid(s.tables.anchors[id], s.runs[id], HeldStage(s.held, id));
    }
  }

  /** Row, journal and evidence of a completed job. */
  ghost predicate Sealed(t: Tables, w: Tables, id: string) {
    && id in t.jobs && id in w.jobs && w.jobs[id] == t.jobs[id]
    && Journal(w.events, id) == Journal(t.events, id)
    && id in t.anchors && id in w.anchors && w.anchors[id].evidence == t.anchors[id].evidence
  }

  lemma AnchorStepKeepsEvidence(s: System, id: string, act: Pipeline.Act, held: Held, c: Config)
    requires id in s.runs && id in s.tables.anchors && AnchorValid(s.tables.anchors[id], s.runs[id], s.runs[id].held)
    ensures AnchorStep(s, id, act, held, c).tables.anchors[id].evidence == s.tables.anchors[id].evidence
  {
    if s.runs[id].held.Some? {
      Pipeline.HeldNotStored(s.runs[id]);
    }
    Pipeline.NextKeepsStored(s.runs[id], act, c.lease, c.poll);
  }

  lemma UntouchedSealed(t: Tables, w: Tables, id: string)
    requires Untouched(t, w, id) && id in t.jobs && id in t.anchors
    ensures Sealed(t, w, id)
  {
  }

  lemma JobStepKeepsSealed(h: Hasher<Body>, c: Config, s: System, step: Step, id: string)
    requires SystemValid(h, s) && id in s.tables.jobs && s.tables.jobs[id].state == Completed
    requires !step.ClaimAnchor? && !step.RunAnchor? && !step.Crash?
    ensures Untouched(s.tables, Next(h, c, s, step).tables, id)
  {
    var t := s.tables;
    match step
    case Schedule(other, maxAttempts, now) => ScheduleLeavesOthers(h, t, other, maxAttempts, now, id);
    case Resume(other, additional, now) => ResumeLeavesOthers(h, t, other, additional, now, id);
    case Claim(other, now) =>
      if other in t.jobs && other != id { ClaimLeavesOthers(h, t, other, now, c.lease, id); }
    case Wait(now, delay, action, error) =>
      if HoldsOpenJob(s) { WaitLeavesOthers(h, t, s.held.id, now, delay, action, error, id); }
    case Finish(now, completed, action, error) =>
      if HoldsOpenJob(s) { FinishLeavesOthers(h, t, s.held.id, now, completed, action, error, id); }
  }

  lemma AnchorWorkKeepsSealed(h: Hasher<Body>, c: Config, s: System, step: Step, id: string)
    requires SystemValid(h, s) && id in s.tables.jobs && id in s.tables.anchors
    requires step.ClaimAnchor? || step.RunAnchor? || step.Crash?
    ensures Sealed(s.tables, Next(h, c, s, step).tables, id)
  {
    var n := Next(h, c, s, step);
    var other := if step.ClaimAnchor? then step.id else if s.held.TheAnchor? then s.held.id else id;
    if other in s.runs {
      assert AnchorValid(s.tables.anchors[other], s.runs[other], HeldStage(s.held, other));
      match step {
        case ClaimAnchor(_, stage, now) =>
          AnchorStepKeepsEvidence(s, other, Pipeline.ClaimAct(stage, now), TheAnchor(other, stage), c);
        case RunAnchor(answer, now) =>
          if other in s.tables.jobs {
            AnchorStepKeepsEvidence(s, other, Pipeline.RunAct(answer, EvidenceVerifies(h, s.tables, other), now),
                                    Nothing, c);
          }
        case Crash =>
          AnchorStepKeepsEvidence(s, other, Pipeline.CrashAct, Nothing, c);
      }
    }
  }

  lemma NextKeepsSealed(h: Hasher<Body>, c: Config, s: System, step: Step, id: string)
    requires SystemValid(h, s) && id in s.tables.jobs && s.tables.jobs[id].state == Completed
    ensures Sealed(s.tables, Next(h, c, s, step).tables, id)
  {
    assert JobValid(h, s.tables, id);
    if step.ClaimAnchor? || step.RunAnchor? || step.Crash? {
      AnchorWorkKeepsSealed(h, c, s, step, id);
    } else {
      JobStepKeepsSealed(h, c, s, step, id);
      UntouchedSealed(s.tables, Next(h, c, s, step).tables, id);
    }
  }

  lemma SealedTransitive(t: Tables, u: Tables, w: Tables, id: string)
    requires Sealed(t, u, id) && Sealed(u, w, id)
    ensures Sealed(t, w, id)
  {
  }

  lemma SealedOneStepMore(h: Hasher<Body>, c: Config, t: Tables, s: System, step: Step, id: string)
    requires SystemValid(h, s) && Sealed(t, s.tables, id) && t.jobs[id].state == Completed
    ensures Sealed(t, Next(h, c, s, step).tables, id)
  {
    NextKeepsSealed(h, c, s, step, id);
    SealedTransitive(t, s.tables, Next(h, c, s, step).tables, id);
  }

  /** Completion is permanent: row, journal and evidence are the same after any further steps. */
  lemma {:induction false} CompletedForever(h: Hasher<Body>, c: Config, s: System, later: seq<Step>, id: string)
    requires SystemValid(h, s) && id in s.tables.jobs && s.tables.jobs[id].state == Completed
    ensures Sealed(s.tables, Execute(h, c, s, later).tables, id)
  {
    if later == [] {
      assert JobValid(h, s.tables, id);
    } else {
      var front := later[..|later| - 1];
      CompletedForever(h, c, s, front, id);
      ExecuteKeepsValid(h, c, s, front);
      SealedOneStepMore(h, c, s.tables, Execute(h, c, s, front), later[|later| - 1], id);
    }
  }

  // ---------- what verification and runs come to ----------

  /** A journal verifies exactly when it is unbroken and the row counts it and has its head; otherwise the report names
      its first event that does not fit, if there is one. */
  lemma VerifiesExactly(h: Hasher<Body>, j: Job, journal: seq<Row>)
    ensures var v := Verify(h, j, journal);
      && (v.valid <==> Linked(h, journal) && j.eventCount == |journal| && j.eventHead == Head(journal))
      && v.eventCount == |journal|
      && (v.headHash == if v.valid then Some(Head(journal)) else None)
      && (v.firstInvalid.Some? <==> !Linked(h, journal))
      && (v.firstInvalid.Some? ==>
            exists k :: 0 <= k < |journal| && journal[k].eventId == v.firstInvalid.value
                        && Linked(h, journal[..k]) && !Linked(h, journal[..k + 1]))
  {
    FirstMisfitSplits(h, journal);
    if Linked(h, journal) {
      LinkedNeverMisfits(h, journal);
    }
  }

  /** A job that its claim stopped is left alone by the worker that claimed it. */
  lemma StoppedIsLeftAlone(h: Hasher<Body>, s: System, now: nat, delay: nat, completed: bool,
                           action: Option<NextAction>, error: Option<ErrorCode>)
    requires s.held.TheJob? && s.held.id in s.tables.jobs && s.tables.jobs[s.held.id].state == Stopped
    ensures WaitStep(h, s, now, delay, action, error) == s && FinishStep(h, s, now, completed, action, error) == s
  {
  }

  lemma ExecuteOneMore(h: Hasher<Body>, c: Config, s: System, steps: seq<Step>, step: Step)
    ensures Execute(h, c, s, steps + [step]) == Next(h, c, Execute(h, c, s, steps), step)
  {
    assert (steps + [step])[..|steps|] == steps;
  }

  /** A claim of a due job and the wait that follows, by the columns they leave. */
  lemma AttemptThatWaits(h: Hasher<Body>, c: Config, s: System, id: string, now: nat, delay: nat)
    requires s.held.Nothing? && id in s.tables.jobs && BuyerAgentJournal.Due(s.tables.jobs[id], now)
    requires s.tables.jobs[id].attemptCount + 1 < s.tables.jobs[id].maxAttempts
    ensures var after := WaitStep(h, ClaimStep(h, c, s, id, now), now, delay, None, None);
      && after.held.Nothing? && after.runs == s.runs && after.tables.anchors == s.tables.anchors
      && id in after.tables.jobs && |after.tables.events| == |s.tables.events| + 2
      && var before, j := s.tables.jobs[id], after.tables.jobs[id];
        j.state == Waiting && j.nextRunAt == now + delay && j.attemptCount == before.attemptCount + 1
        && j.maxAttempts == before.maxAttempts
  {
  }

  lemma AttemptThatCompletes(h: Hasher<Body>, c: Config, s: System, id: string, now: nat)
    requires s.held.Nothing? && id in s.tables.jobs && BuyerAgentJournal.Due(s.tables.jobs[id], now)
    requires s.tables.jobs[id].attemptCount < s.tables.jobs[id].maxAttempts && id !in s.tables.anchors
    ensures var after := FinishStep(h, ClaimStep(h, c, s, id, now), now, true, None, None);
      && after.held.Nothing? && id in after.tables.jobs && id in after.tables.anchors && id in after.runs
      && |after.tables.events| == |s.tables.events| + 2
      && after.tables.jobs[id].state == Completed
      && after.tables.jobs[id].attemptCount == s.tables.jobs[id].attemptCount + 1
  {
  }

  /** The run so far waits with one attempt left. */
  predicate WaitsWithOneLeft(s: System, id: string, at: nat) {
    && s.held.Nothing? && id in s.tables.jobs && id !in s.tables.anchors && |s.tables.events| == 3
    && s.tables.jobs[id].state == Waiting && s.tables.jobs[id].nextRunAt == at
    && s.tables.jobs[id].attemptCount == 1 && s.tables.jobs[id].maxAttempts == 2
  }

  lemma WaitIsReached(h: Hasher<Body>, c: Config, id: string, delay: nat)
    ensures WaitsWithOneLeft(Execute(h, c, EMPTY, [] + [Schedule(id, 2, 0)] + [Claim(id, 0)]
                                                    + [Wait(0, delay, None, None)]), id, delay)
  {
    var one := [] + [Schedule(id, 2, 0)];
    ExecuteOneMore(h, c, EMPTY, [], Schedule(id, 2, 0));
    ExecuteOneMore(h, c, EMPTY, one, Claim(id, 0));
    ExecuteOneMore(h, c, EMPTY, one + [Claim(id, 0)], Wait(0, delay, None, None));
    AttemptThatWaits(h, c, Execute(h, c, EMPTY, one), id, 0, delay);
  }

  lemma CompletesFrom(h: Hasher<Body>, c: Config, steps: seq<Step>, id: string, at: nat)
    requires WaitsWithOneLeft(Execute(h, c, EMPTY, steps), id, at)
    ensures var s := Execute(h, c, EMPTY, steps + [Claim(id, at)] + [Finish(at, true, None, None)]);
      && id in s.tables.jobs && s.tables.jobs[id].state == Completed && s.tables.jobs[id].attemptCount == 2
      && id in s.tables.anchors && |s.tables.events| == 5
  {
    ExecuteOneMore(h, c, EMPTY, steps, Claim(id, at));
    ExecuteOneMore(h, c, EMPTY, steps + [Claim(id, at)], Finish(at, true, None, None));
    AttemptThatCompletes(h, c, Execute(h, c, EMPTY, steps), id, at);
  }

  lemma FiveSteps(a: Step, b: Step, c: Step, d: Step, e: Step)
    ensures [] + [a] + [b] + [c] + [d] + [e] == [a, b, c, d, e]
  {
  }

  /** A scheduled job is waited for once and then completed, on a run of five steps and as many events. */
  lemma CompletionIsReached(h: Hasher<Body>, c: Config, id: string, delay: nat)
    ensures var steps := [Schedule(id, 2, 0), Claim(id, 0), Wait(0, delay, None, None), Claim(id, delay),
                          Finish(delay, true, None, None)];
      var s := Execute(h, c, EMPTY, steps);
      && id in s.tables.jobs && s.tables.jobs[id].state == Completed && s.tables.jobs[id].attemptCount == 2
      && id in s.tables.anchors && |s.tables.events| == 5
  {
    WaitIsReached(h, c, id, delay);
    CompletesFrom(h, c, [] + [Schedule(id, 2, 0)] + [Claim(id, 0)] + [Wait(0, delay, None, None)], id, delay);
    FiveSteps(Schedule(id, 2, 0), Claim(id, 0), Wait(0, delay, None, None), Claim(id, delay),
              Finish(delay, true, None, None));
  }
}
