/** One anchor worked on by any number of scheduler processes, whose locks do not exclude each other. A stage
    is claimed in one transaction, its row read in another, and its outcome written later by a statement that
    names the row and nothing else. When such a write is safe, and what every run of safe writes has. */
module AnchorProcesses {
  import opened Wrappers
  import opened EventChain
  import opened AnchorPipeline

  // ---------- reading and writing ----------

  /** What an attempt decided to write, from the row it had read. */
  datatype Outcome =
    | NoWrite
    | Close(state: State, nextRunAt: nat, error: Option<Code>, quality: Option<Decision>)
    | Succeed(reply: Reply)

  /** A failed attempt, retried or given up by the attempt count that was read. */
  function Retry(read: Anchor, s: Stage, code: Code, now: nat, poll: nat): Outcome {
    var c := read.columns[s];
    if c.attempts >= c.maxAttempts then Close(Failed(s), now, Some(code), None)
    else Close(RetryState(read, s), now + Delay(poll, c.attempts), Some(code), None)
  }

  function OutcomeOf(read: Anchor, s: Stage, answer: Answer, chainVerified: bool, now: nat, poll: nat): Outcome {
    if read.state == Failed(s) then NoWrite
    else if s == ATTEST && !chainVerified then Close(Failed(s), now, Some(ChainVerificationFailed), None)
    else
      match answer
      case Unexpected =>
        if s >= PLAN then Retry(read, s, UnexpectedFailure(s), now, poll)
        else Close(Failed(s), now, Some(UnexpectedFailure(s)), None)
      case Refused(code, criteriaUndeclared) =>
        if s == QUALITY && criteriaUndeclared then Close(QualityNotConfigured, now, None, Some(CriteriaNotDeclared))
        else Retry(read, s, Remote(code), now, poll)
      case Answered(r) => if Accepts(read, s, r) then Succeed(r) else Retry(read, s, Mismatch(s), now, poll)
  }

  /** UPDATE ... WHERE anchor_id = ?, on the row as it is by then. */
  function WriteRow(a: Anchor, s: Stage, o: Outcome, now: nat): Anchor {
    match o
    case NoWrite => a
    case Close(state, nextRunAt, error, quality) =>
      var closed := FinishRow(a, s, state, nextRunAt, error, now);
      if quality.Some? then closed.(qualityDecision := quality) else closed
    case Succeed(r) => SuccessRow(a, s, r, now)
  }

  /** With nothing in between, reading and writing are the run of a stage that one process makes. */
  lemma UndisturbedRun(a: Anchor, s: Stage, answer: Answer, chainVerified: bool, now: nat, poll: nat)
    ensures WriteRow(a, s, OutcomeOf(a, s, answer, chainVerified, now, poll), now)
      == RunRow(a, s, answer, chainVerified, now, poll)
  {
  }

  // ---------- runs ----------

  /** Where a worker is between two of its statements. */
  datatype Task = Claimed(stage: Stage) | HasRead(stage: Stage, read: Anchor) | HasOutcome(stage: Stage,
      outcome: Outcome)

  datatype System = System(anchor: Anchor, tasks: map<nat, Task>, accepted: map<Stage, Reply>, claims: nat)

  datatype Step =
    | Claim(worker: nat, stage: Stage, now: nat, lease: nat)
    | Read(worker: nat)
    | Answer(worker: nat, answer: AnchorPipeline.Answer, chainVerified: bool, now: nat, poll: nat)
    | Write(worker: nat, now: nat)
    | Crash(worker: nat)

  function Start(evidence: Digest, now: nat): System { System(NewAnchor(evidence, now), map[], map[], 0) }

  function ClaimStep(y: System, w: nat, s: Stage, now: nat, lease: nat): System {
    if w !in y.tasks && Due(y.anchor, s, now)
    then y.(anchor := ClaimRow(y.anchor, s, now, lease), tasks := y.tasks[w := Claimed(s)], claims := y.claims + 1)
    else y
  }

  function ReadStep(y: System, w: nat): System {
    if w in y.tasks && y.tasks[w].Claimed?
    then y.(tasks := y.tasks[w := HasRead(y.tasks[w].stage, y.anchor)]) else y
  }

  function AnswerStep(y: System, w: nat, answer: AnchorPipeline.Answer, chainVerified: bool, now: nat,
                      poll: nat): System
  {
    if w in y.tasks && y.tasks[w].HasRead? then
      var s := y.tasks[w].stage;
      y.(tasks := y.tasks[w := HasOutcome(s, OutcomeOf(y.tasks[w].read, s, answer, chainVerified, now, poll))])
    else y
  }

  function WriteStep(y: System, w: nat, now: nat): System {
    if w in y.tasks && y.tasks[w].HasOutcome? then
      var s, o := y.tasks[w].stage, y.tasks[w].outcome;
      y.(anchor := WriteRow(y.anchor, s, o, now), tasks := y.tasks - {w},
         accepted := if o.Succeed? then y.accepted[s := o.reply] else y.accepted)
    else y
  }

  function Next(y: System, step: Step): System {
    match step
    case Claim(w, s, now, lease) => ClaimStep(y, w, s, now, lease)
    case Read(w) => ReadStep(y, w)
    case Answer(w, answer, chainVerified, now, poll) => AnswerStep(y, w, answer, chainVerified, now, poll)
    case Write(w, now) => WriteStep(y, w, now)
    case Crash(w) => y.(tasks := y.tasks - {w})
  }

  function Execute(y: System, steps: seq<Step>): System {
    if steps == [] then y else Next(Execute(y, steps[..|steps| - 1]), steps[|steps| - 1])
  }

  /** A write finds its stage still open, which its UPDATE could ask for. */
  predicate Guarded(y: System, step: Step) {
    step.Write? && step.worker in y.tasks && y.tasks[step.worker].HasOutcome?
      && y.tasks[step.worker].outcome != NoWrite ==>
      OpenFor(y.anchor.state, y.tasks[step.worker].stage)
  }

  predicate AllGuarded(y: System, steps: seq<Step>) {
    steps == [] ||
      var front := steps[..|steps| - 1];
      AllGuarded(y, front) && Guarded(Execute(y, front), steps[|steps| - 1])
  }

  // ---------- the invariant ----------

  /** The row has grown from the one that was read, as far as the stage depends on it. */
  ghost predicate GrewFrom(read: Anchor, a: Anchor, s: Stage) {
    KeepsStored(read, a) && (s == ELIGIBILITY ==> read.qualityDecision == a.qualityDecision)
  }

  /** The outcome fits the row, whenever its stage is open. */
  predicate OutcomeFits(a: Anchor, s: Stage, o: Outcome) {
    match o
    case NoWrite => true
    case Close(state, _, _, quality) =>
      || (state == Failed(s) && quality.None?)
      || (state == RetryState(a, s) && quality.None?)
      || (s == QUALITY && state == QualityNotConfigured && quality == Some(CriteriaNotDeclared))
    case Succeed(r) => Accepts(a, s, r)
  }

  ghost predicate TaskValid(a: Anchor, task: Task) {
    task.stage <= Reached(a.state) &&
    match task
    case Claimed(_) => true
    case HasRead(s, read) => GrewFrom(read, a, s)
    case HasOutcome(s, o) => OutcomeFits(a, s, o)
  }

  ghost predicate TaskAt(y: System, w: nat)
    requires w in y.tasks
  {
    TaskValid(y.anchor, y.tasks[w])
  }

  ghost predicate Valid(y: System) {
    && RowValid(y.anchor, y.accepted)
    && forall w {:trigger TaskAt(y, w)} :: w in y.tasks ==> TaskAt(y, w)
  }

  /** What one step may do to the row that others depend on. */
  ghost predicate Grows(a: Anchor, b: Anchor) {
    && KeepsStored(a, b) && Reached(a.state) <= Reached(b.state)
    && (Reached(a.state) >= ELIGIBILITY ==> a.qualityDecision == b.qualityDecision)
  }

  lemma TaskStaysValid(a: Anchor, b: Anchor, task: Task)
    requires TaskValid(a, task) && Grows(a, b)
    ensures TaskValid(b, task)
  {
  }

  lemma TasksStayValid(y: System, after: System, w: nat)
    requires Valid(y) && RowValid(after.anchor, after.accepted) && Grows(y.anchor, after.anchor)
    requires forall o :: o in after.tasks && o != w ==> o in y.tasks && after.tasks[o] == y.tasks[o]
    requires w in after.tasks ==> TaskValid(after.anchor, after.tasks[w])
    ensures Valid(after)
  {
    forall o | o in after.tasks ensures TaskAt(after, o) {
      if o != w {
        assert TaskAt(y, o);
        TaskStaysValid(y.anchor, after.anchor, y.tasks[o]);
      }
    }
  }

  lemma OutcomeFitsAnswer(read: Anchor, a: Anchor, s: Stage, answer: AnchorPipeline.Answer, chainVerified: bool,
                          now: nat, poll: nat)
    requires GrewFrom(read, a, s)
    ensures OutcomeFits(a, s, OutcomeOf(read, s, answer, chainVerified, now, poll))
  {
  }

  lemma CloseKeepsRowOpen(a: Anchor, accepted: map<Stage, Reply>, s: Stage, o: Outcome, now: nat)
    requires RowValid(a, accepted) && OpenFor(a.state, s) && o.Close? && OutcomeFits(a, s, o)
    ensures RowValid(WriteRow(a, s, o, now), accepted) && Grows(a, WriteRow(a, s, o, now))
  {
    if s == ELIGIBILITY {
      assert QUALITY in a.ids && QUALITY in accepted;
    }
  }

  lemma SuccessGrows(a: Anchor, s: Stage, r: Reply, now: nat)
    requires OpenFor(a.state, s) && s !in a.ids
    ensures Grows(a, SuccessRow(a, s, r, now))
  {
  }

  lemma WriteKeepsValid(y: System, w: nat, now: nat)
    requires Valid(y) && Guarded(y, Write(w, now))
    ensures Valid(WriteStep(y, w, now)) && Grows(y.anchor, WriteStep(y, w, now).anchor)
  {
    if w in y.tasks && y.tasks[w].HasOutcome? {
      var s, o := y.tasks[w].stage, y.tasks[w].outcome;
      assert TaskAt(y, w);
      if o.Close? {
        CloseKeepsRowOpen(y.anchor, y.accepted, s, o, now);
      } else if o.Succeed? {
        SuccessKeepsRow(y.anchor, y.accepted, s, o.reply, now);
        assert s !in y.anchor.ids;
        SuccessGrows(y.anchor, s, o.reply, now);
      }
      TasksStayValid(y, WriteStep(y, w, now), w);
    }
  }

  lemma ClaimGrows(a: Anchor, accepted: map<Stage, Reply>, s: Stage, now: nat, lease: nat)
    requires RowValid(a, accepted) && Due(a, s, now)
    ensures RowValid(ClaimRow(a, s, now, lease), accepted) && Grows(a, ClaimRow(a, s, now, lease))
    ensures Reached(ClaimRow(a, s, now, lease).state) == s
  {
    ClaimKeepsRow(a, accepted, s, now, lease);
  }

  lemma NextKeepsValid(y: System, step: Step)
    requires Valid(y) && Guarded(y, step)
    ensures Valid(Next(y, step)) && Grows(y.anchor, Next(y, step).anchor)
  {
    match step
    case Claim(w, s, now, lease) =>
      if w !in y.tasks && Due(y.anchor, s, now) {
        ClaimGrows(y.anchor, y.accepted, s, now, lease);
        TasksStayValid(y, Next(y, step), w);
      }
    case Read(w) =>
      if w in y.tasks {
        assert TaskAt(y, w);
      }
      TasksStayValid(y, Next(y, step), w);
    case Answer(w, answer, chainVerified, now, poll) =>
      if w in y.tasks && y.tasks[w].HasRead? {
        assert TaskAt(y, w);
        OutcomeFitsAnswer(y.tasks[w].read, y.anchor, y.tasks[w].stage, answer, chainVerified, now, poll);
        TasksStayValid(y, Next(y, step), w);
      }
    case Write(w, now) => WriteKeepsValid(y, w, now);
    case Crash(w) => TasksStayValid(y, Next(y, step), w);
  }

  lemma {:induction false} RunsStayValid(y: System, steps: seq<Step>)
    requires Valid(y) && AllGuarded(y, steps)
    ensures Valid(Execute(y, steps))
  {
    if steps != [] {
      RunsStayValid(y, steps[..|steps| - 1]);
      NextKeepsValid(Execute(y, steps[..|steps| - 1]), steps[|steps| - 1]);
    }
  }

  // ---------- what guarded runs have ----------

  /** A final row is not written again. */
  lemma NextKeepsFinal(y: System, step: Step)
    requires Final(y.anchor.state) && Guarded(y, step)
    ensures Next(y, step).anchor == y.anchor
  {
  }

  lemma {:induction false} FinalForever(y: System, steps: seq<Step>)
    requires Final(y.anchor.state) && AllGuarded(y, steps)
    ensures Execute(y, steps).anchor == y.anchor
  {
    if steps != [] {
      FinalForever(y, steps[..|steps| - 1]);
      NextKeepsFinal(Execute(y, steps[..|steps| - 1]), steps[|steps| - 1]);
    }
  }

  /** Evidence and stored ids are written once, by whichever process. */
  lemma {:induction false} StoredOnce(y: System, steps: seq<Step>)
    requires Valid(y) && AllGuarded(y, steps)
    ensures KeepsStored(y.anchor, Execute(y, steps).anchor)
  {
    if steps != [] {
      var front := steps[..|steps| - 1];
      StoredOnce(y, front);
      RunsStayValid(y, front);
      NextKeepsValid(Execute(y, front), steps[|steps| - 1]);
      KeepsStoredTransitive(y.anchor, Execute(y, front).anchor, Execute(y, steps).anchor);
    }
  }

  lemma StartIsValid(evidence: Digest, born: nat)
    ensures Valid(Start(evidence, born))
  {
    ReachableValid(evidence, born, [], 0, 0);
  }

  /** With any number of processes, a permit stands on nine answers taken in order, and an anchor that is not
      final can be claimed from some moment on. */
  lemma PermitTracesBack(evidence: Digest, born: nat, steps: seq<Step>)
    requires AllGuarded(Start(evidence, born), steps)
    ensures var y := Execute(Start(evidence, born), steps);
      && y.anchor.evidence == evidence
      && (y.anchor.state == Permitted ==> FullyBound(y.anchor.ids, y.accepted, evidence))
      && (Final(y.anchor.state) || exists s: Stage, from: nat :: ClaimableFrom(y.anchor, s, from))
  {
    StartIsValid(evidence, born);
    StoredOnce(Start(evidence, born), steps);
    RunsStayValid(Start(evidence, born), steps);
    var y := Execute(Start(evidence, born), steps);
    LiveIsClaimable(y.anchor);
    if y.anchor.state == Permitted {
      PermittedRowBound(y.anchor, y.accepted);
    }
  }

  lemma WriteSpendsNothing(a: Anchor, s: Stage, o: Outcome, now: nat)
    requires OpenFor(a.state, s) && OutcomeFits(a, s, o)
    ensures Potential(WriteRow(a, s, o, now)) <= Potential(a)
  {
    if o.Succeed? {
      SuccessSpendsNothing(a, s, o.reply, now);
    } else {
      LeftDependsOnBudgets(a.columns, WriteRow(a, s, o, now).columns, s);
    }
  }

  lemma NextSpends(y: System, step: Step)
    requires Valid(y) && Guarded(y, step)
    ensures Next(y, step).claims + Potential(Next(y, step).anchor) <= y.claims + Potential(y.anchor)
  {
    match step
    case Claim(w, s, now, lease) =>
      if w !in y.tasks && Due(y.anchor, s, now) { ClaimSpends(y.anchor, s, now, lease); }
    case Write(w, now) =>
      if w in y.tasks && y.tasks[w].HasOutcome? && y.tasks[w].outcome != NoWrite {
        assert TaskAt(y, w);
        WriteSpendsNothing(y.anchor, y.tasks[w].stage, y.tasks[w].outcome, now);
      }
    case _ =>
  }

  lemma {:induction false} ClaimsSpendPotential(y: System, steps: seq<Step>)
    requires Valid(y) && AllGuarded(y, steps)
    ensures Execute(y, steps).claims + Potential(Execute(y, steps).anchor) <= y.claims + Potential(y.anchor)
  {
    if steps != [] {
      ClaimsSpendPotential(y, steps[..|steps| - 1]);
      RunsStayValid(y, steps[..|steps| - 1]);
      NextSpends(Execute(y, steps[..|steps| - 1]), steps[|steps| - 1]);
    }
  }

  /** All processes together claim an anchor at most 91 times. */
  lemma ClaimsAreBounded(evidence: Digest, born: nat, steps: seq<Step>)
    requires AllGuarded(Start(evidence, born), steps)
    ensures Execute(Start(evidence, born), steps).claims <= 91
  {
    StartIsValid(evidence, born);
    ClaimsSpendPotential(Start(evidence, born), steps);
    NewAnchorPotential(evidence, born);
  }

  // ---------- when a write is safe ----------

  function Written(y: System, w: nat, answer: AnchorPipeline.Answer, chainVerified: bool, now: nat, poll: nat): System {
    WriteStep(AnswerStep(y, w, answer, chainVerified, now, poll), w, now)
  }

  /** The row stays valid, stored ids stay, and a final row is left alone. */
  ghost predicate SafeFor(y: System, w: nat, answer: AnchorPipeline.Answer, chainVerified: bool, now: nat, poll: nat) {
    var after := Written(y, w, answer, chainVerified, now, poll);
    Valid(after) && KeepsStored(y.anchor, after.anchor) && (Final(y.anchor.state) ==> after.anchor == y.anchor)
  }

  /** A worker's write is safe for every answer exactly when its stage is still open in the row it writes to,
      a condition its UPDATE can state; a worker that read its stage as failed writes nothing. */
  lemma StageWriteIsSafeExactly(y: System, w: nat)
    requires Valid(y) && w in y.tasks && y.tasks[w].HasRead? && y.tasks[w].read.state != Failed(y.tasks[w].stage)
    ensures OpenFor(y.anchor.state, y.tasks[w].stage) <==>
      forall answer, chainVerified, now, poll {:trigger SafeFor(y, w, answer, chainVerified, now, poll)} ::
        SafeFor(y, w, answer, chainVerified, now, poll)
  {
    var s := y.tasks[w].stage;
    if OpenFor(y.anchor.state, s) {
      forall answer, chainVerified, now, poll ensures SafeFor(y, w, answer, chainVerified, now, poll) {
        OpenWriteIsSafe(y, w, answer, chainVerified, now, poll);
      }
    } else {
      ClosedWriteIsUnsafe(y, w);
    }
  }

  lemma OpenWriteIsSafe(y: System, w: nat, answer: AnchorPipeline.Answer, chainVerified: bool, now: nat, poll: nat)
    requires Valid(y) && w in y.tasks && y.tasks[w].HasRead? && OpenFor(y.anchor.state, y.tasks[w].stage)
    ensures SafeFor(y, w, answer, chainVerified, now, poll)
  {
    NextKeepsValid(y, Answer(w, answer, chainVerified, now, poll));
    WriteKeepsValid(AnswerStep(y, w, answer, chainVerified, now, poll), w, now);
  }

  /** Any exception of the remote side is enough. */
  lemma ClosedWriteIsUnsafe(y: System, w: nat)
    requires Valid(y) && w in y.tasks && y.tasks[w].HasRead? && y.tasks[w].read.state != Failed(y.tasks[w].stage)
    requires !OpenFor(y.anchor.state, y.tasks[w].stage)
    ensures !SafeFor(y, w, Unexpected, true, y.anchor.updatedAt + 1, 1)
  {
    assert TaskAt(y, w);
    var s := y.tasks[w].stage;
    var after := Written(y, w, Unexpected, true, y.anchor.updatedAt + 1, 1);
    if !Final(y.anchor.state) {
      assert s < Reached(y.anchor.state) && s in y.anchor.ids;
      assert Reached(after.anchor.state) == s && after.anchor.ids == y.anchor.ids;
    }
  }

  // ---------- what an unguarded write does ----------

  /** A stale success leaves any state, replaces the stored id and sets the anchor back behind its stage. */
  lemma StaleSuccessSetsBack(y: System, w: nat, now: nat)
    requires Valid(y) && w in y.tasks && y.tasks[w].HasOutcome? && y.tasks[w].outcome.Succeed?
    requires Reached(y.anchor.state) > y.tasks[w].stage
    ensures var s := y.tasks[w].stage;
      var after := WriteStep(y, w, now);
      && after.anchor.state == NextState(s, y.tasks[w].outcome.reply.decision)
      && s in y.anchor.ids && after.anchor.ids == y.anchor.ids[s := y.tasks[w].outcome.reply.newId]
  {
    assert TaskAt(y, w);
  }

  /** What a good answer of a stage asserts, true or false. */
  function GoodClaims(): map<AnchorPipeline.Claim, bool> {
    map[FundsMoved := false, TransactionBuilt := false, TransactionSigned := false, TransactionBroadcast := false,
        ExecutionEnabled := false, ReleaseAuthorized := true, UnsignedTransactionBuilt := true,
        SerializedTransactionDisclosed := false, OneTime := true, ClaimRequired := true, CurrentlyValid := true,
        PublicClaimAvailable := false, QualityVerified := false, ContentDisclosed := false]
  }

  /** The answer a stage accepts and passes on. */
  function GoodReply(a: Anchor, s: Stage, newId: string): Reply {
    var decision := if s == VALIDATE then VerifiedBinding else if s == QUALITY then AcceptedByCriteria
      else GovernedRelease;
    Reply(if s > 0 && s - 1 in a.ids then a.ids[s - 1] else "", a.evidence, decision, newId, 64, EffectOf(s),
          GoodClaims(), "foundation", "issued", "solana-devnet", 64, true)
  }

  lemma GoodClaimsHold(r: Reply, s: Stage)
    requires r.claims == GoodClaims() && r.authority == "foundation" && r.status == "issued"
    requires r.cluster == "solana-devnet" && r.transactionDigestLength == 64
    ensures Harmless(r) && StageClaims(s, r)
    ensures Asserts(r, QualityVerified, false) && Asserts(r, ContentDisclosed, false)
  {
  }

  lemma GoodReplyIsClean(a: Anchor, s: Stage, newId: string)
    requires StartsWith(newId, IdPrefix(s))
    ensures Clean(s, GoodReply(a, s, newId)) && DecisionAllowed(s, GoodReply(a, s, newId).decision)
  {
    GoodClaimsHold(GoodReply(a, s, newId), s);
    CleanPassesAll(s, GoodReply(a, s, newId));
  }

  /** Claim, read and answer: worker `w` is about to write a success of stage `s`. */
  function Attempted(y: System, w: nat, s: Stage, newId: string, now: nat): System {
    AnswerStep(ReadStep(ClaimStep(y, w, s, now, 30), w), w, Answered(GoodReply(y.anchor, s, newId)), true, now, 1)
  }

  /** Ready for stage `s` at `now`, with attempts left everywhere from there on. */
  predicate Advancing(y: System, s: nat, now: nat)
    requires s <= 9
  {
    && y.anchor.state == (if s == 9 then Permitted else Ready(s))
    && (0 < s ==> s - 1 in y.anchor.ids)
    && (s < 9 ==> y.anchor.columns[s].nextRunAt == Some(now))
    && forall k :: s <= k < 9 ==> y.anchor.columns[k].attempts < y.anchor.columns[k].maxAttempts
  }

  lemma AttemptReachesSuccess(y: System, w: nat, s: Stage, newId: string, now: nat)
    requires w !in y.tasks && Due(y.anchor, s, now) && y.anchor.columns[s].attempts < y.anchor.columns[s].maxAttempts
    requires (0 < s ==> s - 1 in y.anchor.ids) && StartsWith(newId, IdPrefix(s))
    ensures Attempted(y, w, s, newId, now) ==
      System(ClaimRow(y.anchor, s, now, 30), y.tasks[w := HasOutcome(s, Succeed(GoodReply(y.anchor, s, newId)))],
             y.accepted, y.claims + 1)
  {
    var claimed := ClaimStep(y, w, s, now, 30);
    GoodReplyIsClean(y.anchor, s, newId);
    assert Accepts(claimed.anchor, s, GoodReply(y.anchor, s, newId));
    assert ReadStep(claimed, w).tasks[w] == HasRead(s, claimed.anchor);
  }

  lemma StageAdvances(y: System, w: nat, s: Stage, now: nat)
    requires w !in y.tasks && Advancing(y, s, now)
    ensures var after := WriteStep(Attempted(y, w, s, IdPrefix(s), now), w, now);
      Advancing(after, s + 1, now) && after.tasks == y.tasks
  {
    AttemptReachesSuccess(y, w, s, IdPrefix(s), now);
  }

  /** One process takes the anchor from stage `s` to its permit. */
  function ToPermit(y: System, w: nat, s: nat, now: nat): System
    requires s <= 9
    decreases 9 - s
  {
    if s == 9 then y else ToPermit(WriteStep(Attempted(y, w, s, IdPrefix(s), now), w, now), w, s + 1, now)
  }

  lemma {:induction false} ReachesPermit(y: System, w: nat, s: nat, now: nat)
    requires s <= 9 && w !in y.tasks && Advancing(y, s, now)
    ensures ToPermit(y, w, s, now).anchor.state == Permitted && ToPermit(y, w, s, now).tasks == y.tasks
    decreases 9 - s
  {
    if s < 9 {
      StageAdvances(y, w, s, now);
      ReachesPermit(WriteStep(Attempted(y, w, s, IdPrefix(s), now), w, now), w, s + 1, now);
    }
  }

  /** While worker 0 stands before its write, worker 1 claims again, attests and can go on. */
  lemma OvertakenAttestation(evidence: Digest, late: string, now: nat)
    ensures var stalled := Attempted(Start(evidence, now), 0, ATTEST, late, now);
      var attested := WriteStep(Attempted(stalled, 1, ATTEST, "id", now + 30), 1, now + 30);
      && 1 !in attested.tasks && Advancing(attested, PUBLISH, now + 30) && 0 in attested.tasks
      && attested.tasks[0] == HasOutcome(ATTEST, Succeed(GoodReply(Start(evidence, now).anchor, ATTEST, late)))
  {
    var stalled := Attempted(Start(evidence, now), 0, ATTEST, late, now);
    AttemptReachesSuccess(Start(evidence, now), 0, ATTEST, late, now);
    AttemptReachesSuccess(stalled, 1, ATTEST, "id", now + 30);
  }

  /** A run that loses a permit: one process stalls before it writes its attestation, its lease passes, another
      takes the anchor all the way to the permit, and then the first one writes: the anchor waits for
      publication again, under another attestation. */
  lemma StalledWriteLosesPermit(evidence: Digest, late: string, now: nat)
    ensures var stalled := Attempted(Start(evidence, now), 0, ATTEST, late, now);
      var attested := WriteStep(Attempted(stalled, 1, ATTEST, "id", now + 30), 1, now + 30);
      var permitted := ToPermit(attested, 1, PUBLISH, now + 30);
      var after := WriteStep(permitted, 0, now + 31);
      && permitted.anchor.state == Permitted
      && after.anchor.state == Ready(PUBLISH) && ATTEST in after.anchor.ids && after.anchor.ids[ATTEST] == late
  {
    OvertakenAttestation(evidence, late, now);
    var stalled := Attempted(Start(evidence, now), 0, ATTEST, late, now);
    var attested := WriteStep(Attempted(stalled, 1, ATTEST, "id", now + 30), 1, now + 30);
    ReachesPermit(attested, 1, PUBLISH, now + 30);
  }
}
