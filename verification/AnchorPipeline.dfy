/** The nine-stage evidence pipeline of one completed job (the `buyer_agent_job_anchors` row of
    iat/buyer_agent_scheduler.py): what a claim and a run do to the row, and what every run of
    claims, answers and crashes keeps. */
module AnchorPipeline {
  import opened Wrappers
  import opened EventChain

  /** The stages in pipeline order. */
  type Stage = s: nat | s < 9

  const ATTEST: Stage := 0
  const PUBLISH: Stage := 1
  const VALIDATE: Stage := 2
  const QUALITY: Stage := 3
  const ELIGIBILITY: Stage := 4
  const PLAN: Stage := 5
  const AUTHORIZE: Stage := 6
  const SIMULATE: Stage := 7
  const PERMIT: Stage := 8

  /** `Ready(s)` waits to be claimed for stage s ("pending", "attested", "published",
      "delivery_verified", "quality_accepted", "release_eligible", "settlement_planned", ...);
      QualityRejected ("quality_rejected") is the other state ready for Eligibility. */
  datatype State =
    | Ready(stage: Stage)
    | QualityRejected
    | Working(stage: Stage)
    | Failed(stage: Stage)
    | DeliveryRejected
    | QualityNotConfigured
    | CompensationReview
    | Permitted

  datatype Decision =
    | VerifiedBinding | RejectedBinding
    | AcceptedByCriteria | RejectedByCriteria | CriteriaNotDeclared
    | GovernedRelease | ReviewCompensation
    | OtherDecision(text: string)

  datatype Code =
    | MaxAttempts(stage: Stage)
    | UnexpectedFailure(stage: Stage)
    | Mismatch(stage: Stage)
    | ChainVerificationFailed
    | Remote(code: string)

  /** The five columns every stage has. */
  datatype Columns = Columns(attempts: nat, maxAttempts: nat, nextRunAt: Option<nat>, leaseUntil: Option<nat>,
                             error: Option<Code>)

  const UNTOUCHED: Columns := Columns(0, 10, None, None, None)

  type StageTable = t: seq<Columns> | |t| == 9
    witness [UNTOUCHED, UNTOUCHED, UNTOUCHED, UNTOUCHED, UNTOUCHED, UNTOUCHED, UNTOUCHED, UNTOUCHED, UNTOUCHED]

  datatype Anchor = Anchor(
    evidence: Digest,
    state: State,
    columns: StageTable,
    ids: map<Stage, string>,  // the identifier each successful stage stored
    validationDecision: Option<Decision>,
    qualityDecision: Option<Decision>,
    eligibilityDecision: Option<Decision>,
    createdAt: nat,
    updatedAt: nat)

  function NewAnchor(evidence: Digest, now: nat): Anchor {
    var u := UNTOUCHED;
    Anchor(evidence, Ready(ATTEST), [u.(nextRunAt := Some(now)), u, u, u, u, u, u, u, u], map[], None, None, None, now,
           now)
  }

  // ---------- what the remote side answers ----------

  /** What an answer may assert to be so or not so. */
  datatype Claim =
    | FundsMoved | TransactionBuilt | TransactionSigned | TransactionBroadcast | ExecutionEnabled
    | ReleaseAuthorized | UnsignedTransactionBuilt | SerializedTransactionDisclosed
    | OneTime | ClaimRequired | CurrentlyValid | PublicClaimAvailable
    | QualityVerified | ContentDisclosed

  /** `boundTo` is the identifier the answer says it was computed from, `effect` the one effect it says it has, and
      `authority` who authorised it. `sameSubject` says that decision, wallet and time, where it names them, are
      those of the anchor, and that the signature of an attestation verifies. */
  datatype Reply = Reply(
    boundTo: string, evidence: Digest, decision: Decision, newId: string, digestLength: nat, effect: string,
    claims: map<Claim, bool>, authority: string, status: string, cluster: string, transactionDigestLength: nat,
    sameSubject: bool)

  predicate Asserts(r: Reply, claim: Claim, value: bool) { claim in r.claims && r.claims[claim] == value }

  predicate StartsWith(text: string, prefix: string) { |prefix| <= |text| && text[..|prefix|] == prefix }

  function IdPrefix(s: Stage): string {
    match s
    case 0 => ""
    case 1 => "per_"
    case 2 => "pdv_"
    case 3 => "pqv_"
    case 4 => "pse_"
    case 5 => "psp_"
    case 6 => "psa_"
    case 7 => "pss_"
    case _ => "pep_"
  }

  function EffectOf(s: Stage): string {
    if s <= QUALITY then "evidence_only"
    else
      match s
      case 4 => "eligibility_only"
      case 5 => "planning_only"
      case 6 => "authorization_only"
      case 7 => "simulation_only"
      case _ => "execution_authorization_only"
  }

  /** From eligibility on, no answer may have touched any money. */
  predicate Harmless(r: Reply) {
    Asserts(r, FundsMoved, false) && Asserts(r, TransactionSigned, false) && Asserts(r, TransactionBroadcast, false)
  }

  /** What the stages from planning on ask beyond that. */
  predicate StageClaims(s: Stage, r: Reply) {
    if s == PLAN then Asserts(r, ExecutionEnabled, false) && Asserts(r, TransactionBuilt, false)
    else if s == AUTHORIZE then
      && Asserts(r, ReleaseAuthorized, true) && r.authority == "foundation"
      && Asserts(r, ExecutionEnabled, false) && Asserts(r, TransactionBuilt, false)
    else if s == SIMULATE then
      && Asserts(r, ExecutionEnabled, false) && Asserts(r, UnsignedTransactionBuilt, true)
      && Asserts(r, SerializedTransactionDisclosed, false)
      && (r.cluster == "solana-devnet" || r.cluster == "solana-localnet") && r.transactionDigestLength == 64
    else if s == PERMIT then
      && r.status == "issued" && Asserts(r, OneTime, true) && Asserts(r, ClaimRequired, true)
      && Asserts(r, CurrentlyValid, true) && Asserts(r, PublicClaimAvailable, false)
      && Asserts(r, TransactionBuilt, false)
    else true
  }

  /** What a stage looks at in its answer, besides what it is bound to. */
  datatype Check = Subject | Shape | Assertions

  predicate Passes(s: Stage, r: Reply, check: Check) {
    match check
    case Subject => s <= PUBLISH ==> r.sameSubject
    case Shape => s >= PUBLISH ==> StartsWith(r.newId, IdPrefix(s)) && r.digestLength == 64 && r.effect == EffectOf(s)
    case Assertions =>
      && (s == VALIDATE ==> Asserts(r, QualityVerified, false))
      && (s == QUALITY ==> Asserts(r, ContentDisclosed, false))
      && (s >= ELIGIBILITY ==> Harmless(r))
      && StageClaims(s, r)
  }

  predicate Clean(s: Stage, r: Reply) { forall check {:trigger Passes(s, r, check)} :: Passes(s, r, check) }

  lemma CleanPassesAll(s: Stage, r: Reply)
    ensures Clean(s, r) <==> Passes(s, r, Subject) && Passes(s, r, Shape) && Passes(s, r, Assertions)
  {
    if Passes(s, r, Subject) && Passes(s, r, Shape) && Passes(s, r, Assertions) {
      forall check ensures Passes(s, r, check) {
        assert check == Subject || check == Shape || check == Assertions;
      }
    }
  }

  datatype Answer =
    | Answered(reply: Reply)
    | Refused(code: string, criteriaUndeclared: bool)  // the client's or the wallet's own error
    | Unexpected                                       // any other exception

  /** The decisions a stage's answer may carry. */
  predicate DecisionAllowed(s: Stage, d: Decision) {
    if s == VALIDATE then d.VerifiedBinding? || d.RejectedBinding?
    else if s == QUALITY then d.AcceptedByCriteria? || d.RejectedByCriteria?
    else if s == ELIGIBILITY then d.GovernedRelease? || d.ReviewCompensation?
    else true
  }

  predicate Accepts(a: Anchor, s: Stage, r: Reply) {
    && Clean(s, r)
    && (s == ATTEST || (s - 1 in a.ids && r.boundTo == a.ids[s - 1]))
    && (s == ATTEST || s == PUBLISH ==> r.evidence == a.evidence)
    && DecisionAllowed(s, r.decision)
  }

  // ---------- row transitions ----------

  function Delay(poll: nat, attempts: nat): nat {
    Min(300, poll * Pow2(if attempts == 0 then 0 else Min(attempts - 1, 5)))
  }

  predicate ReadyFor(state: State, s: Stage) {
    state == Ready(s) || (s == ELIGIBILITY && state == QualityRejected)
  }

  /** The stage is under way or waits to be. */
  predicate OpenFor(state: State, s: Stage) { state == Working(s) || ReadyFor(state, s) }

  predicate Due(a: Anchor, s: Stage, now: nat) {
    var c := a.columns[s];
    || (ReadyFor(a.state, s) && c.nextRunAt.Some? && c.nextRunAt.value <= now)
    || (a.state == Working(s) && c.leaseUntil.Some? && c.leaseUntil.value <= now)
  }

  function ClaimRow(a: Anchor, s: Stage, now: nat, lease: nat): Anchor {
    var c := a.columns[s];
    if c.attempts >= c.maxAttempts then
      a.(state := Failed(s), updatedAt := now,
         columns := a.columns[s := c.(leaseUntil := None, error := Some(MaxAttempts(s)))])
    else
      a.(state := Working(s), updatedAt := now,
         columns := a.columns[s := c.(leaseUntil := Some(now + lease), attempts := c.attempts + 1)])
  }

  function FinishRow(a: Anchor, s: Stage, state: State, nextRunAt: nat, error: Option<Code>, now: nat): Anchor {
    a.(state := state, updatedAt := now,
       columns := a.columns[s := a.columns[s].(nextRunAt := Some(nextRunAt), leaseUntil := None, error := error)])
  }

  /** Where a failed attempt waits for its retry. */
  function RetryState(a: Anchor, s: Stage): State {
    if s == ELIGIBILITY && a.qualityDecision != Some(AcceptedByCriteria) then QualityRejected else Ready(s)
  }

  function RetryRow(a: Anchor, s: Stage, code: Code, now: nat, poll: nat): Anchor {
    var c := a.columns[s];
    if c.attempts >= c.maxAttempts then FinishRow(a, s, Failed(s), now, Some(code), now)
    else FinishRow(a, s, RetryState(a, s), now + Delay(poll, c.attempts), Some(code), now)
  }

  function NextState(s: Stage, d: Decision): State {
    if s == VALIDATE && d != VerifiedBinding then DeliveryRejected
    else if s == QUALITY && d != AcceptedByCriteria then QualityRejected
    else if s == ELIGIBILITY && d != GovernedRelease then CompensationReview
    else if s == PERMIT then Permitted
    else Ready(s + 1)
  }

  function SuccessRow(a: Anchor, s: Stage, r: Reply, now: nat): Anchor {
    var state := NextState(s, r.decision);
    var closed := a.columns[s := a.columns[s].(leaseUntil := None, error := None)];
    var scheduled :=
      if s == PERMIT || state == DeliveryRejected || state == CompensationReview then closed
      else closed[s + 1 := closed[s + 1].(nextRunAt := Some(now))];
    a.(state := state, columns := scheduled, ids := a.ids[s := r.newId], updatedAt := now,
       validationDecision := if s == VALIDATE then Some(r.decision) else a.validationDecision,
       qualityDecision := if s == QUALITY then Some(r.decision) else a.qualityDecision,
       eligibilityDecision := if s == ELIGIBILITY then Some(r.decision) else a.eligibilityDecision)
  }

  /** One run of a claimed stage; `chainVerified` is the journal check the Attest stage makes. */
  function RunRow(a: Anchor, s: Stage, answer: Answer, chainVerified: bool, now: nat, poll: nat): Anchor {
    if a.state == Failed(s) then a
    else if s == ATTEST && !chainVerified then FinishRow(a, s, Failed(s), now, Some(ChainVerificationFailed), now)
    else
      match answer
      case Unexpected =>
        if s >= PLAN then RetryRow(a, s, UnexpectedFailure(s), now, poll)
        else FinishRow(a, s, Failed(s), now, Some(UnexpectedFailure(s)), now)
      case Refused(code, criteriaUndeclared) =>
        if s == QUALITY && criteriaUndeclared then
          FinishRow(a, s, QualityNotConfigured, now, None, now).(qualityDecision := Some(CriteriaNotDeclared))
        else RetryRow(a, s, Remote(code), now, poll)
      case Answered(r) =>
        if Accepts(a, s, r) then SuccessRow(a, s, r, now) else RetryRow(a, s, Mismatch(s), now, poll)
  }

  // ---------- runs of one anchor ----------

  predicate Final(state: State) {
    match state
    case Ready(_) => false
    case QualityRejected => false
    case Working(_) => false
    case _ => true
  }

  /** How many stages have succeeded. */
  function Reached(state: State): (n: nat)
    ensures n <= 9
  {
    match state
    case Ready(s) => s
    case QualityRejected => ELIGIBILITY
    case Working(s) => s
    case Failed(s) => s
    case DeliveryRejected => QUALITY
    case QualityNotConfigured => QUALITY
    case CompensationReview => PLAN
    case Permitted => 9
  }

  /** The row, the stage its worker holds, the answers taken so far and the number of claims. */
  datatype Run = Run(anchor: Anchor, held: Option<Stage>, accepted: map<Stage, Reply>, claims: nat)

  datatype Act =
    | ClaimAct(stage: Stage, at: nat)
    | RunAct(answer: Answer, chainVerified: bool, at: nat)
    | CrashAct

  function Start(evidence: Digest, now: nat): Run { Run(NewAnchor(evidence, now), None, map[], 0) }

  function Next(r: Run, act: Act, lease: nat, poll: nat): Run {
    match act
    case ClaimAct(s, now) =>
      if r.held.None? && Due(r.anchor, s, now)
      then Run(ClaimRow(r.anchor, s, now, lease), Some(s), r.accepted, r.claims + 1) else r
    case RunAct(answer, chainVerified, now) =>
      if r.held.None? then r
      else
        var s := r.held.value;
        var succeeds := r.anchor.state != Failed(s) && (s != ATTEST || chainVerified)
                        && answer.Answered? && Accepts(r.anchor, s, answer.reply);
        r.(anchor := RunRow(r.anchor, s, answer, chainVerified, now, poll), held := None,
           accepted := if succeeds then r.accepted[s := answer.reply] else r.accepted)
    case CrashAct => r.(held := None)
  }

  function Execute(r: Run, acts: seq<Act>, lease: nat, poll: nat): Run {
    if acts == [] then r else Next(Execute(r, acts[..|acts| - 1], lease, poll), acts[|acts| - 1], lease, poll)
  }

  // ---------- invariants ----------

  predicate SameBudget(c: Columns, d: Columns) { c.attempts == d.attempts && c.maxAttempts == d.maxAttempts }

  /** A non-final row has what the next claim needs: a due time, or a lease that can expire. */
  predicate Live(a: Anchor) {
    match a.state
    case Ready(s) =>
      a.columns[s].nextRunAt.Some? && (s == ELIGIBILITY ==> a.qualityDecision == Some(AcceptedByCriteria))
    case QualityRejected => a.columns[ELIGIBILITY].nextRunAt.Some? && a.qualityDecision == Some(RejectedByCriteria)
    case Working(s) => a.columns[s].leaseUntil.Some? && a.columns[s].attempts >= 1
    case _ => true
  }

  /** The stored decisions are those of the answers taken, and open the way they should. */
  ghost predicate DecisionsRecorded(a: Anchor, accepted: map<Stage, Reply>) {
    && (VALIDATE in accepted ==> a.validationDecision == Some(accepted[VALIDATE].decision))
    && (QUALITY in accepted ==> a.qualityDecision == Some(accepted[QUALITY].decision)
                                && DecisionAllowed(QUALITY, accepted[QUALITY].decision))
    && (ELIGIBILITY in accepted ==> a.eligibilityDecision == Some(accepted[ELIGIBILITY].decision))
    && (Reached(a.state) >= QUALITY && a.state != DeliveryRejected ==> a.validationDecision == Some(VerifiedBinding))
    && (Reached(a.state) >= PLAN && a.state != CompensationReview ==> a.eligibilityDecision == Some(GovernedRelease))
  }

  /** The first n stages stored an id, each from an accepted answer that was bound to the id the
      stage before stored; the two evidence stages were bound to the evidence itself. */
  ghost predicate Traced(ids: map<Stage, string>, accepted: map<Stage, Reply>, evidence: Digest, n: nat) {
    && (forall s: Stage {:trigger s in ids} {:trigger s in accepted} ::
          (s in ids <==> s < n) && (s in accepted <==> s < n))
    && (forall s: Stage {:trigger accepted[s]} :: s < n && s in accepted && s in ids ==>
          && ids[s] == accepted[s].newId
          && (s > 0 && s - 1 in ids ==> accepted[s].boundTo == ids[s - 1])
          && (s <= PUBLISH ==> accepted[s].evidence == evidence))
  }

  ghost predicate CleanAt(accepted: map<Stage, Reply>, s: Stage) { s in accepted ==> Clean(s, accepted[s]) }

  /** Every answer taken passed the checks of its stage. */
  ghost predicate AllClean(accepted: map<Stage, Reply>) {
    forall s: Stage {:trigger CleanAt(accepted, s)} :: CleanAt(accepted, s)
  }

  ghost predicate RowValid(a: Anchor, accepted: map<Stage, Reply>) {
    && Live(a)
    && (forall s :: 0 <= s < 9 ==> a.columns[s].attempts <= a.columns[s].maxAttempts)
    && Traced(a.ids, accepted, a.evidence, Reached(a.state))
    && DecisionsRecorded(a, accepted)
    && AllClean(accepted)
  }

  ghost predicate Valid(r: Run) {
    && RowValid(r.anchor, r.accepted)
    && (r.held.Some? ==> r.anchor.state == Working(r.held.value) || r.anchor.state == Failed(r.held.value))
  }

  lemma ClaimKeepsRow(a: Anchor, accepted: map<Stage, Reply>, s: Stage, now: nat, lease: nat)
    requires RowValid(a, accepted) && Due(a, s, now)
    ensures RowValid(ClaimRow(a, s, now, lease), accepted)
  {
  }

  lemma RetryKeepsRow(a: Anchor, accepted: map<Stage, Reply>, s: Stage, code: Code, now: nat, poll: nat)
    requires RowValid(a, accepted) && a.state == Working(s)
    ensures RowValid(RetryRow(a, s, code, now, poll), accepted)
  {
    if s == ELIGIBILITY {
      assert QUALITY in a.ids;
    }
  }

  lemma CloseKeepsRow(a: Anchor, accepted: map<Stage, Reply>, s: Stage, error: Option<Code>, now: nat)
    requires RowValid(a, accepted) && OpenFor(a.state, s)
    ensures RowValid(FinishRow(a, s, Failed(s), now, error, now), accepted)
    ensures s == QUALITY ==>
      RowValid(FinishRow(a, s, QualityNotConfigured, now, None, now).(qualityDecision := Some(CriteriaNotDeclared)),
               accepted)
  {
  }

  lemma ExtendTrace(ids: map<Stage, string>, accepted: map<Stage, Reply>, evidence: Digest, s: Stage, r: Reply)
    requires Traced(ids, accepted, evidence, s)
    requires s > 0 && s - 1 in ids ==> r.boundTo == ids[s - 1]
    requires s <= PUBLISH ==> r.evidence == evidence
    ensures Traced(ids[s := r.newId], accepted[s := r], evidence, s + 1)
  {
  }

  lemma SuccessKeepsLive(a: Anchor, s: Stage, r: Reply, now: nat)
    requires OpenFor(a.state, s) && Accepts(a, s, r)
    ensures var b := SuccessRow(a, s, r, now);
            Live(b) && forall k :: 0 <= k < 9 ==> SameBudget(b.columns[k], a.columns[k])
  {
  }

  lemma SuccessKeepsDecisions(a: Anchor, accepted: map<Stage, Reply>, s: Stage, r: Reply, now: nat)
    requires DecisionsRecorded(a, accepted) && OpenFor(a.state, s) && Accepts(a, s, r)
    ensures DecisionsRecorded(SuccessRow(a, s, r, now), accepted[s := r])
  {
  }

  lemma SuccessReaches(a: Anchor, s: Stage, r: Reply, now: nat)
    requires OpenFor(a.state, s)
    ensures var b := SuccessRow(a, s, r, now);
            Reached(a.state) == s && Reached(b.state) == s + 1 && b.ids == a.ids[s := r.newId]
              && b.evidence == a.evidence
  {
  }

  lemma SuccessKeepsBudgets(a: Anchor, s: Stage, r: Reply, now: nat)
    requires OpenFor(a.state, s) && Accepts(a, s, r)
    requires forall k :: 0 <= k < 9 ==> a.columns[k].attempts <= a.columns[k].maxAttempts
    ensures var b := SuccessRow(a, s, r, now);
            Live(b) && forall k :: 0 <= k < 9 ==> b.columns[k].attempts <= b.columns[k].maxAttempts
  {
    SuccessKeepsLive(a, s, r, now);
    assert forall k :: 0 <= k < 9 ==> SameBudget(SuccessRow(a, s, r, now).columns[k], a.columns[k]);
  }

  lemma SuccessKeepsClean(accepted: map<Stage, Reply>, s: Stage, r: Reply)
    requires AllClean(accepted) && Clean(s, r)
    ensures AllClean(accepted[s := r])
  {
    var after := accepted[s := r];
    forall k: Stage ensures CleanAt(after, k) {
      assert CleanAt(accepted, k);
    }
  }

  lemma SuccessKeepsRow(a: Anchor, accepted: map<Stage, Reply>, s: Stage, r: Reply, now: nat)
    requires RowValid(a, accepted) && OpenFor(a.state, s) && Accepts(a, s, r)
    ensures RowValid(SuccessRow(a, s, r, now), accepted[s := r])
  {
    SuccessReaches(a, s, r, now);
    ExtendTrace(a.ids, accepted, a.evidence, s, r);
    SuccessKeepsBudgets(a, s, r, now);
    SuccessKeepsDecisions(a, accepted, s, r, now);
    SuccessKeepsClean(accepted, s, r);
  }

  /** The stage takes the answer: it stores its id and goes on. */
  predicate Takes(a: Anchor, s: Stage, answer: Answer, chainVerified: bool) {
    (s != ATTEST || chainVerified) && answer.Answered? && Accepts(a, s, answer.reply)
  }

  lemma FailedRunKeepsRow(a: Anchor, accepted: map<Stage, Reply>, s: Stage, answer: Answer, chainVerified: bool,
                          now: nat, poll: nat)
    requires RowValid(a, accepted) && a.state == Working(s) && !Takes(a, s, answer, chainVerified)
    ensures RowValid(RunRow(a, s, answer, chainVerified, now, poll), accepted)
  {
    CloseKeepsRow(a, accepted, s, Some(ChainVerificationFailed), now);
    CloseKeepsRow(a, accepted, s, Some(UnexpectedFailure(s)), now);
    match answer
    case Unexpected => RetryKeepsRow(a, accepted, s, UnexpectedFailure(s), now, poll);
    case Refused(code, _) => RetryKeepsRow(a, accepted, s, Remote(code), now, poll);
    case Answered(_) => RetryKeepsRow(a, accepted, s, Mismatch(s), now, poll);
  }

  lemma NextKeepsValid(r: Run, act: Act, lease: nat, poll: nat)
    requires Valid(r)
    ensures Valid(Next(r, act, lease, poll))
  {
    match act
    case ClaimAct(s, now) =>
      if Due(r.anchor, s, now) {
        ClaimKeepsRow(r.anchor, r.accepted, s, now, lease);
      }
    case RunAct(answer, chainVerified, now) =>
      if r.held.Some? && r.anchor.state == Working(r.held.value) {
        var s := r.held.value;
        if Takes(r.anchor, s, answer, chainVerified) {
          SuccessKeepsRow(r.anchor, r.accepted, s, answer.reply, now);
        } else {
          FailedRunKeepsRow(r.anchor, r.accepted, s, answer, chainVerified, now, poll);
        }
      }
    case CrashAct =>
  }

  // ---------- whole runs ----------

  lemma {:induction false} ReachableValid(evidence: Digest, born: nat, acts: seq<Act>, lease: nat, poll: nat)
    ensures Valid(Execute(Start(evidence, born), acts, lease, poll))
  {
    if acts != [] {
      ReachableValid(evidence, born, acts[..|acts| - 1], lease, poll);
      NextKeepsValid(Execute(Start(evidence, born), acts[..|acts| - 1], lease, poll), acts[|acts| - 1], lease, poll);
    }
  }

  ghost predicate ClaimableFrom(a: Anchor, s: Stage, from: nat) {
    forall now: nat :: now >= from ==> Due(a, s, now)
  }

  lemma LiveIsClaimable(a: Anchor)
    requires Live(a)
    ensures Final(a.state) || exists s: Stage, from: nat :: ClaimableFrom(a, s, from)
  {
    if !Final(a.state) {
      var s: Stage := Reached(a.state);
      var from := if a.state == Working(s) then a.columns[s].leaseUntil.value else a.columns[s].nextRunAt.value;
      assert ClaimableFrom(a, s, from);
    }
  }

  /** No anchor is ever stranded: until it is final, some moment makes one stage claimable for good. */
  lemma NeverStranded(evidence: Digest, born: nat, acts: seq<Act>, lease: nat, poll: nat)
    ensures var a := Execute(Start(evidence, born), acts, lease, poll).anchor;
            Final(a.state) || exists s: Stage, from: nat :: ClaimableFrom(a, s, from)
  {
    ReachableValid(evidence, born, acts, lease, poll);
    LiveIsClaimable(Execute(Start(evidence, born), acts, lease, poll).anchor);
  }

  /** Attempts left in the stages from `from` on. */
  function Left(t: StageTable, from: nat): nat
    requires from <= 9
    decreases 9 - from
  {
    if from == 9 then 0
    else Max(0, t[from].maxAttempts - t[from].attempts) + Left(t, from + 1)
  }

  function Potential(a: Anchor): nat {
    if Final(a.state) then 0 else 1 + Left(a.columns, Reached(a.state))
  }

  lemma {:induction false} LeftDependsOnBudgets(t: StageTable, u: StageTable, from: nat)
    requires from <= 9 && forall k :: from <= k < 9 ==> SameBudget(t[k], u[k])
    ensures Left(t, from) == Left(u, from)
    decreases 9 - from
  {
    if from < 9 {
      assert SameBudget(t[from], u[from]);
      LeftDependsOnBudgets(t, u, from + 1);
    }
  }

  lemma ClaimSpends(a: Anchor, s: Stage, now: nat, lease: nat)
    requires Due(a, s, now)
    ensures Potential(ClaimRow(a, s, now, lease)) < Potential(a)
  {
    var b := ClaimRow(a, s, now, lease);
    if b.state == Working(s) {
      LeftDependsOnBudgets(a.columns, b.columns, s + 1);
      assert Left(b.columns, s) + 1 == Left(a.columns, s);
    }
  }

  lemma SuccessSpendsNothing(a: Anchor, s: Stage, r: Reply, now: nat)
    requires OpenFor(a.state, s)
    ensures Potential(SuccessRow(a, s, r, now)) <= Potential(a)
  {
    var b := SuccessRow(a, s, r, now);
    if !Final(b.state) {
      assert Reached(b.state) == s + 1;
      LeftDependsOnBudgets(a.columns, b.columns, s + 1);
    }
  }

  lemma RunSpendsNothing(a: Anchor, s: Stage, answer: Answer, chainVerified: bool, now: nat, poll: nat)
    requires a.state == Working(s) || a.state == Failed(s)
    ensures Potential(RunRow(a, s, answer, chainVerified, now, poll)) <= Potential(a)
  {
    if a.state == Working(s) {
      var b := RunRow(a, s, answer, chainVerified, now, poll);
      if answer.Answered? && (s != ATTEST || chainVerified) && Accepts(a, s, answer.reply) {
        SuccessSpendsNothing(a, s, answer.reply, now);
      } else if !Final(b.state) {
        assert Reached(b.state) == s;
        LeftDependsOnBudgets(a.columns, b.columns, s);
      }
    }
  }

  /** Every claim is paid for, whatever the worker does afterwards. */
  lemma NextSpends(r: Run, act: Act, lease: nat, poll: nat)
    requires r.held.Some? ==> r.anchor.state == Working(r.held.value) || r.anchor.state == Failed(r.held.value)
    ensures var n := Next(r, act, lease, poll); n.claims + Potential(n.anchor) <= r.claims + Potential(r.anchor)
  {
    match act
    case ClaimAct(s, now) => if Due(r.anchor, s, now) { ClaimSpends(r.anchor, s, now, lease); }
    case RunAct(answer, chainVerified, now) =>
      if r.held.Some? { RunSpendsNothing(r.anchor, r.held.value, answer, chainVerified, now, poll); }
    case CrashAct =>
  }

  /** While the journal verifies, no run blames it. */
  lemma VerifiedJournalNotBlamed(r: Run, act: Act, lease: nat, poll: nat)
    requires act.RunAct? ==> act.chainVerified
    requires r.anchor.columns[ATTEST].error != Some(ChainVerificationFailed)
    ensures Next(r, act, lease, poll).anchor.columns[ATTEST].error != Some(ChainVerificationFailed)
  {
  }

  lemma {:induction false} ClaimsSpendPotential(evidence: Digest, born: nat, acts: seq<Act>, lease: nat, poll: nat)
    ensures var r := Execute(Start(evidence, born), acts, lease, poll);
            r.claims + Potential(r.anchor) <= Potential(NewAnchor(evidence, born))
  {
    if acts != [] {
      var before := acts[..|acts| - 1];
      ClaimsSpendPotential(evidence, born, before, lease, poll);
      ReachableValid(evidence, born, before, lease, poll);
      NextSpends(Execute(Start(evidence, born), before, lease, poll), acts[|acts| - 1], lease, poll);
    }
  }

  lemma NewAnchorPotential(evidence: Digest, born: nat)
    ensures Potential(NewAnchor(evidence, born)) == 91
  {
    var t := NewAnchor(evidence, born).columns;
    assert Left(t, 8) == 10;
    assert Left(t, 6) == 30;
    assert Left(t, 4) == 50;
    assert Left(t, 2) == 70;
  }

  /** Every anchor ends: ten attempts in each of nine stages and one claim that gives up. */
  lemma ClaimsAreBounded(evidence: Digest, born: nat, acts: seq<Act>, lease: nat, poll: nat)
    ensures Execute(Start(evidence, born), acts, lease, poll).claims <= 91
  {
    ClaimsSpendPotential(evidence, born, acts, lease, poll);
    NewAnchorPotential(evidence, born);
  }

  lemma FinalStays(r: Run, act: Act, lease: nat, poll: nat)
    requires Valid(r) && Final(r.anchor.state)
    ensures Next(r, act, lease, poll).anchor == r.anchor
  {
  }

  lemma ExecuteMore(r: Run, acts: seq<Act>, later: seq<Act>, lease: nat, poll: nat)
    requires later != []
    ensures var front := later[..|later| - 1];
      Execute(r, acts + later, lease, poll)
        == Next(Execute(r, acts + front, lease, poll), later[|later| - 1], lease, poll)
  {
    assert (acts + later)[..|acts + later| - 1] == acts + later[..|later| - 1];
  }

  /** A final anchor never changes again, whatever is still claimed, answered or lost. */
  lemma {:induction false} FinalForever(evidence: Digest, born: nat, acts: seq<Act>, later: seq<Act>, lease: nat,
                                        poll: nat)
    requires Final(Execute(Start(evidence, born), acts, lease, poll).anchor.state)
    ensures Execute(Start(evidence, born), acts + later, lease, poll).anchor
      == Execute(Start(evidence, born), acts, lease, poll).anchor
    decreases |later|
  {
    if later == [] {
      assert acts + later == acts;
    } else {
      var front := later[..|later| - 1];
      FinalForever(evidence, born, acts, front, lease, poll);
      ExecuteMore(Start(evidence, born), acts, later, lease, poll);
      ReachableValid(evidence, born, acts + front, lease, poll);
      FinalStays(Execute(Start(evidence, born), acts + front, lease, poll), later[|later| - 1], lease, poll);
    }
  }

  /** Stage s stored the id of its answer, which was bound to the id the answer before it brought. */
  ghost predicate Bound(ids: map<Stage, string>, accepted: map<Stage, Reply>, s: Stage) {
    && s in ids && s in accepted && ids[s] == accepted[s].newId
    && (s > 0 ==> s - 1 in accepted && accepted[s].boundTo == accepted[s - 1].newId)
  }

  /** All nine stages are bound in order to the evidence; the delivery was verified, the quality
      decided and the release found eligible. */
  ghost predicate FullyBound(ids: map<Stage, string>, accepted: map<Stage, Reply>, evidence: Digest) {
    && (forall s: Stage :: Bound(ids, accepted, s)) && AllClean(accepted)
    && ATTEST in accepted && accepted[ATTEST].evidence == evidence
    && PUBLISH in accepted && accepted[PUBLISH].evidence == evidence
    && VALIDATE in accepted && accepted[VALIDATE].decision == VerifiedBinding
    && QUALITY in accepted && DecisionAllowed(QUALITY, accepted[QUALITY].decision)
    && ELIGIBILITY in accepted && accepted[ELIGIBILITY].decision == GovernedRelease
  }

  lemma FullTraceBinds(ids: map<Stage, string>, accepted: map<Stage, Reply>, evidence: Digest, s: Stage)
    requires Traced(ids, accepted, evidence, 9)
    ensures Bound(ids, accepted, s)
    ensures s <= PUBLISH ==> accepted[s].evidence == evidence
  {
    assert s in ids && s in accepted;
    if s > 0 {
      assert s - 1 in ids && s - 1 in accepted;
      assert accepted[s - 1].newId == ids[s - 1];
    }
  }

  lemma AllStagesBound(ids: map<Stage, string>, accepted: map<Stage, Reply>, evidence: Digest)
    requires Traced(ids, accepted, evidence, 9)
    ensures forall s: Stage :: Bound(ids, accepted, s)
  {
    forall s: Stage ensures Bound(ids, accepted, s) {
      FullTraceBinds(ids, accepted, evidence, s);
    }
  }

  lemma PermittedRowBound(a: Anchor, accepted: map<Stage, Reply>)
    requires RowValid(a, accepted) && a.state == Permitted
    ensures FullyBound(a.ids, accepted, a.evidence)
  {
    assert Traced(a.ids, accepted, a.evidence, 9);
    AllStagesBound(a.ids, accepted, a.evidence);
    FullTraceBinds(a.ids, accepted, a.evidence, ATTEST);
    FullTraceBinds(a.ids, accepted, a.evidence, PUBLISH);
  }

  /** A permit stands on nine answers taken in order. */
  lemma PermitTracesBack(evidence: Digest, born: nat, acts: seq<Act>, lease: nat, poll: nat)
    requires Execute(Start(evidence, born), acts, lease, poll).anchor.state == Permitted
    ensures var r := Execute(Start(evidence, born), acts, lease, poll);
      FullyBound(r.anchor.ids, r.accepted, r.anchor.evidence)
  {
    ReachableValid(evidence, born, acts, lease, poll);
    var r := Execute(Start(evidence, born), acts, lease, poll);
    PermittedRowBound(r.anchor, r.accepted);
  }

  /** Everything stored in a is still there in b. */
  ghost predicate KeepsStored(a: Anchor, b: Anchor) {
    a.evidence == b.evidence && forall s: Stage {:trigger s in a.ids} :: s in a.ids ==>
      s in b.ids && b.ids[s] == a.ids[s]
  }

  lemma HeldNotStored(r: Run)
    requires Valid(r) && r.held.Some?
    ensures r.held.value !in r.anchor.ids
  {
    assert Reached(r.anchor.state) == r.held.value;
  }

  lemma RunRowKeepsStored(a: Anchor, s: Stage, answer: Answer, chainVerified: bool, now: nat, poll: nat)
    requires s !in a.ids
    ensures KeepsStored(a, RunRow(a, s, answer, chainVerified, now, poll))
  {
  }

  lemma RowsKeepEvidence(a: Anchor, s: Stage, answer: Answer, chainVerified: bool, now: nat, lease: nat, poll: nat)
    ensures ClaimRow(a, s, now, lease).evidence == a.evidence
    ensures RunRow(a, s, answer, chainVerified, now, poll).evidence == a.evidence
  {
  }

  lemma NextKeepsStored(r: Run, act: Act, lease: nat, poll: nat)
    requires r.held.Some? ==> r.held.value !in r.anchor.ids
    ensures KeepsStored(r.anchor, Next(r, act, lease, poll).anchor)
  {
    if act.RunAct? && r.held.Some? {
      RunRowKeepsStored(r.anchor, r.held.value, act.answer, act.chainVerified, act.at, poll);
    }
  }

  lemma KeepsStoredTransitive(a: Anchor, b: Anchor, c: Anchor)
    requires KeepsStored(a, b) && KeepsStored(b, c)
    ensures KeepsStored(a, c)
  {
  }

  /** Stored ids, and the evidence, are written once. */
  lemma {:induction false} StoredOnce(evidence: Digest, born: nat, acts: seq<Act>, later: seq<Act>, lease: nat,
                                      poll: nat)
    ensures KeepsStored(Execute(Start(evidence, born), acts, lease, poll).anchor,
                        Execute(Start(evidence, born), acts + later, lease, poll).anchor)
    decreases |later|
  {
    if later == [] {
      assert acts + later == acts;
    } else {
      var front := later[..|later| - 1];
      StoredOnce(evidence, born, acts, front, lease, poll);
      assert (acts + later)[..|acts + later| - 1] == acts + front;
      var r := Execute(Start(evidence, born), acts + front, lease, poll);
      assert r.held.Some? ==> r.held.value !in r.anchor.ids by {
        ReachableValid(evidence, born, acts + front, lease, poll);
        if r.held.Some? {
          HeldNotStored(r);
        }
      }
      NextKeepsStored(r, later[|later| - 1], lease, poll);
      KeepsStoredTransitive(Execute(Start(evidence, born), acts, lease, poll).anchor, r.anchor,
                            Next(r, later[|later| - 1], lease, poll).anchor);
    }
  }

  ghost predicate KeepsAccepted(r: Run, n: Run) {
    forall s: Stage {:trigger s in r.accepted} :: s in r.accepted ==> s in n.accepted && n.accepted[s] == r.accepted[s]
  }

  lemma NextKeepsAccepted(r: Run, act: Act, lease: nat, poll: nat)
    requires Valid(r)
    ensures KeepsAccepted(r, Next(r, act, lease, poll))
  {
    if r.held.Some? && r.anchor.state == Working(r.held.value) {
      assert r.held.value !in r.accepted;
    }
  }

  /** The answers taken are never replaced. */
  lemma {:induction false} AcceptedOnce(evidence: Digest, born: nat, acts: seq<Act>, later: seq<Act>, lease: nat,
                                        poll: nat)
    ensures KeepsAccepted(Execute(Start(evidence, born), acts, lease, poll),
                          Execute(Start(evidence, born), acts + later, lease, poll))
    decreases |later|
  {
    if later == [] {
      assert acts + later == acts;
    } else {
      var front := later[..|later| - 1];
      AcceptedOnce(evidence, born, acts, front, lease, poll);
      ExecuteMore(Start(evidence, born), acts, later, lease, poll);
      ReachableValid(evidence, born, acts + front, lease, poll);
      NextKeepsAccepted(Execute(Start(evidence, born), acts + front, lease, poll), later[|later| - 1], lease, poll);
    }
  }

  /** Whenever an anchor is ready for eligibility, its state is the one the recorded quality answer led to. */
  lemma EligibilityFollowsQuality(evidence: Digest, born: nat, acts: seq<Act>, lease: nat, poll: nat)
    ensures var r := Execute(Start(evidence, born), acts, lease, poll);
      ReadyFor(r.anchor.state, ELIGIBILITY) ==>
        QUALITY in r.accepted && r.anchor.state == NextState(QUALITY, r.accepted[QUALITY].decision)
  {
    ReachableValid(evidence, born, acts, lease, poll);
    var r := Execute(Start(evidence, born), acts, lease, poll);
    if ReadyFor(r.anchor.state, ELIGIBILITY) {
      assert Reached(r.anchor.state) == ELIGIBILITY;
      assert QUALITY in r.accepted;
    }
  }

  /** So a failed, crashed or repeated eligibility attempt always goes back to the very quality state it was
      claimed from. */
  lemma EligibilityRetryRestores(evidence: Digest, born: nat, acts: seq<Act>, later: seq<Act>, lease: nat, poll: nat)
    requires ReadyFor(Execute(Start(evidence, born), acts, lease, poll).anchor.state, ELIGIBILITY)
    requires ReadyFor(Execute(Start(evidence, born), acts + later, lease, poll).anchor.state, ELIGIBILITY)
    ensures Execute(Start(evidence, born), acts + later, lease, poll).anchor.state
      == Execute(Start(evidence, born), acts, lease, poll).anchor.state
  {
    EligibilityFollowsQuality(evidence, born, acts, lease, poll);
    EligibilityFollowsQuality(evidence, born, acts + later, lease, poll);
    AcceptedOnce(evidence, born, acts, later, lease, poll);
  }
}
