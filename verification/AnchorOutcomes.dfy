/** What one claim and one run of a stage leave of an anchor, said of the row's and the answer's own fields. */
module AnchorOutcomes {
  import opened Wrappers
  import opened EventChain
  import opened AnchorPipeline

  // ---------- when an answer is taken ----------

  predicate BoundToPrevious(a: Anchor, s: Stage, r: Reply) {
    s == ATTEST || (s - 1 in a.ids && r.boundTo == a.ids[s - 1])
  }

  predicate Carries(r: Reply, prefix: string, effect: string) {
    prefix <= r.newId && r.digestLength == 64 && r.effect == effect
  }

  predicate AssertsAll(r: Reply, yes: set<Claim>, no: set<Claim>) {
    && (forall c :: c in yes ==> c in r.claims && r.claims[c])
    && (forall c :: c in no ==> c in r.claims && !r.claims[c])
  }

  /** Whether the run of a claimed stage stores the id of its answer. */
  predicate Stores(a: Anchor, s: Stage, r: Reply, now: nat, poll: nat) {
    s in RunRow(a, s, Answered(r), true, now, poll).ids
  }

  lemma StoresWhatIsAccepted(a: Anchor, s: Stage, r: Reply, now: nat, poll: nat)
    requires a.state == Working(s) && s !in a.ids
    ensures Stores(a, s, r, now, poll) <==>
      && BoundToPrevious(a, s, r) && (s <= PUBLISH ==> r.evidence == a.evidence) && DecisionAllowed(s, r.decision)
      && Passes(s, r, Subject) && Passes(s, r, Shape) && Passes(s, r, Assertions)
  {
    CleanPassesAll(s, r);
    assert Stores(a, s, r, now, poll) <==> Accepts(a, s, r);
  }

  /** The stages over the evidence store their id exactly for an answer about this very evidence and anchor. */
  lemma EvidenceStagesStoreExactly(a: Anchor, r: Reply, now: nat, poll: nat)
    ensures a.state == Working(ATTEST) && ATTEST !in a.ids ==>
      (Stores(a, ATTEST, r, now, poll) <==> r.sameSubject && r.evidence == a.evidence)
    ensures a.state == Working(PUBLISH) && PUBLISH !in a.ids ==>
      (Stores(a, PUBLISH, r, now, poll) <==>
        && BoundToPrevious(a, PUBLISH, r) && r.sameSubject && r.evidence == a.evidence
        && Carries(r, "per_", "evidence_only"))
  {
    if a.state == Working(ATTEST) && ATTEST !in a.ids {
      StoresWhatIsAccepted(a, ATTEST, r, now, poll);
    }
    if a.state == Working(PUBLISH) && PUBLISH !in a.ids {
      StoresWhatIsAccepted(a, PUBLISH, r, now, poll);
    }
  }

  /** The validations exactly for a decision they know, and when nothing is claimed or disclosed beyond it. */
  lemma ValidationStagesStoreExactly(a: Anchor, r: Reply, now: nat, poll: nat)
    ensures a.state == Working(VALIDATE) && VALIDATE !in a.ids ==>
      (Stores(a, VALIDATE, r, now, poll) <==>
        && BoundToPrevious(a, VALIDATE, r) && Carries(r, "pdv_", "evidence_only")
        && r.decision in {VerifiedBinding, RejectedBinding} && AssertsAll(r, {}, {QualityVerified}))
    ensures a.state == Working(QUALITY) && QUALITY !in a.ids ==>
      (Stores(a, QUALITY, r, now, poll) <==>
        && BoundToPrevious(a, QUALITY, r) && Carries(r, "pqv_", "evidence_only")
        && r.decision in {AcceptedByCriteria, RejectedByCriteria} && AssertsAll(r, {}, {ContentDisclosed}))
  {
    if a.state == Working(VALIDATE) && VALIDATE !in a.ids {
      StoresWhatIsAccepted(a, VALIDATE, r, now, poll);
    }
    if a.state == Working(QUALITY) && QUALITY !in a.ids {
      StoresWhatIsAccepted(a, QUALITY, r, now, poll);
    }
  }

  /** Eligibility and plan exactly when no money was touched. */
  lemma PlanningStagesStoreExactly(a: Anchor, r: Reply, now: nat, poll: nat)
    ensures a.state == Working(ELIGIBILITY) && ELIGIBILITY !in a.ids ==>
      (Stores(a, ELIGIBILITY, r, now, poll) <==>
        && BoundToPrevious(a, ELIGIBILITY, r) && Carries(r, "pse_", "eligibility_only")
        && r.decision in {GovernedRelease, ReviewCompensation}
        && AssertsAll(r, {}, {FundsMoved, TransactionSigned, TransactionBroadcast}))
    ensures a.state == Working(PLAN) && PLAN !in a.ids ==>
      (Stores(a, PLAN, r, now, poll) <==>
        && BoundToPrevious(a, PLAN, r) && Carries(r, "psp_", "planning_only")
        && AssertsAll(r, {}, {ExecutionEnabled, TransactionBuilt, TransactionSigned, TransactionBroadcast, FundsMoved}))
  {
    if a.state == Working(ELIGIBILITY) && ELIGIBILITY !in a.ids {
      StoresWhatIsAccepted(a, ELIGIBILITY, r, now, poll);
    }
    if a.state == Working(PLAN) && PLAN !in a.ids {
      StoresWhatIsAccepted(a, PLAN, r, now, poll);
    }
  }

  /** An authorisation exactly when the foundation released it and still nothing was executed. */
  lemma AuthorizationStoresExactly(a: Anchor, r: Reply, now: nat, poll: nat)
    ensures a.state == Working(AUTHORIZE) && AUTHORIZE !in a.ids ==>
      (Stores(a, AUTHORIZE, r, now, poll) <==>
        && BoundToPrevious(a, AUTHORIZE, r) && Carries(r, "psa_", "authorization_only") && r.authority == "foundation"
        && AssertsAll(r, {ReleaseAuthorized},
                      {ExecutionEnabled, TransactionBuilt, TransactionSigned, TransactionBroadcast, FundsMoved}))
  {
    if a.state == Working(AUTHORIZE) && AUTHORIZE !in a.ids {
      StoresWhatIsAccepted(a, AUTHORIZE, r, now, poll);
    }
  }

  /** A simulation exactly on a test cluster, and a permit exactly when it is issued for one claim in private. */
  lemma ExecutionStagesStoreExactly(a: Anchor, r: Reply, now: nat, poll: nat)
    ensures a.state == Working(SIMULATE) && SIMULATE !in a.ids ==>
      (Stores(a, SIMULATE, r, now, poll) <==>
        && BoundToPrevious(a, SIMULATE, r) && Carries(r, "pss_", "simulation_only")
        && r.cluster in {"solana-devnet", "solana-localnet"} && r.transactionDigestLength == 64
        && AssertsAll(r, {UnsignedTransactionBuilt},
                      {ExecutionEnabled, SerializedTransactionDisclosed, TransactionSigned, TransactionBroadcast,
                       FundsMoved}))
    ensures a.state == Working(PERMIT) && PERMIT !in a.ids ==>
      (Stores(a, PERMIT, r, now, poll) <==>
        && BoundToPrevious(a, PERMIT, r) && Carries(r, "pep_", "execution_authorization_only") && r.status == "issued"
        && AssertsAll(r, {OneTime, ClaimRequired, CurrentlyValid},
                      {PublicClaimAvailable, TransactionBuilt, TransactionSigned, TransactionBroadcast, FundsMoved}))
  {
    if a.state == Working(SIMULATE) && SIMULATE !in a.ids {
      StoresWhatIsAccepted(a, SIMULATE, r, now, poll);
    }
    if a.state == Working(PERMIT) && PERMIT !in a.ids {
      StoresWhatIsAccepted(a, PERMIT, r, now, poll);
    }
  }

  /** However an anchor came to where it is, no answer it was advanced on had moved, signed or broadcast anything;
      whatever was authorised was authorised by the foundation, and simulated on a test cluster. */
  lemma NothingMoved(evidence: Digest, born: nat, acts: seq<Act>, lease: nat, poll: nat, s: Stage)
    ensures var accepted := Execute(Start(evidence, born), acts, lease, poll).accepted;
      s in accepted ==>
        && (s >= ELIGIBILITY ==> AssertsAll(accepted[s], {}, {FundsMoved, TransactionSigned, TransactionBroadcast}))
        && (s == AUTHORIZE ==> accepted[s].authority == "foundation")
        && (s == AUTHORIZE ==> AssertsAll(accepted[s], {ReleaseAuthorized}, {}))
        && (s == SIMULATE ==> accepted[s].cluster in {"solana-devnet", "solana-localnet"})
        && (s == PERMIT ==> AssertsAll(accepted[s], {OneTime, ClaimRequired}, {PublicClaimAvailable}))
  {
    ReachableValid(evidence, born, acts, lease, poll);
    var r := Execute(Start(evidence, born), acts, lease, poll);
    if s in r.accepted {
      assert CleanAt(r.accepted, s);
      CleanPassesAll(s, r.accepted[s]);
    }
  }

  // ---------- how a run leaves its row ----------

  /** A stored answer: the row goes on by stage and decision, its own columns are closed, the next stage is due. */
  lemma SuccessLeads(a: Anchor, s: Stage, r: Reply, now: nat, poll: nat)
    requires a.state == Working(s) && s !in a.ids && Stores(a, s, r, now, poll)
    ensures var b := RunRow(a, s, Answered(r), true, now, poll);
      && (b.state == DeliveryRejected <==> s == VALIDATE && r.decision == RejectedBinding)
      && (b.state == QualityRejected <==> s == QUALITY && r.decision == RejectedByCriteria)
      && (b.state == CompensationReview <==> s == ELIGIBILITY && r.decision == ReviewCompensation)
      && (b.state == Permitted <==> s == PERMIT)
      && (b.state in {DeliveryRejected, QualityRejected, CompensationReview, Permitted}
          || (s < PERMIT && b.state == Ready(s + 1)))
      && (s < PERMIT && b.state !in {DeliveryRejected, CompensationReview} ==> b.columns[s + 1].nextRunAt == Some(now))
      && b.ids == a.ids[s := r.newId] && b.updatedAt == now
      && b.columns[s].leaseUntil.None? && b.columns[s].error.None?
      && (s == VALIDATE ==> b.validationDecision == Some(r.decision))
      && (s == QUALITY ==> b.qualityDecision == Some(r.decision))
      && (s == ELIGIBILITY ==> b.eligibilityDecision == Some(r.decision))
  {
  }

  /** Nothing of another stage changes, but for the due time of the one that follows. */
  lemma SuccessSchedulesNextOnly(a: Anchor, s: Stage, r: Reply, now: nat, poll: nat)
    requires a.state == Working(s) && s !in a.ids && Stores(a, s, r, now, poll)
    ensures var b := RunRow(a, s, Answered(r), true, now, poll);
      var goesOn := s < PERMIT && b.state !in {DeliveryRejected, CompensationReview};
      && b.columns[s].attempts == a.columns[s].attempts && b.columns[s].maxAttempts == a.columns[s].maxAttempts
      && (forall k :: 0 <= k < 9 && k != s && !(goesOn && k == s + 1) ==> b.columns[k] == a.columns[k])
      && (goesOn ==> b.columns[s + 1] == a.columns[s + 1].(nextRunAt := Some(now)))
  {
  }

  /** Under the lock an attempt is a claim and then the run of what was claimed, and only a stored answer is taken. */
  lemma AttemptIsClaimThenRun(r: Run, s: Stage, answer: Answer, verified: bool, at: nat, later: nat, lease: nat,
                              poll: nat)
    requires r.held.None? && Due(r.anchor, s, at) && s !in r.anchor.ids
    ensures var after := Next(Next(r, ClaimAct(s, at), lease, poll), RunAct(answer, verified, later), lease, poll);
      && after.anchor == RunRow(ClaimRow(r.anchor, s, at, lease), s, answer, verified, later, poll)
      && after.held.None? && after.claims == r.claims + 1
      && after.accepted == (if s in after.anchor.ids then r.accepted[s := answer.reply] else r.accepted)
  {
  }

  /** An attempt that cannot be repeated, whatever its count. */
  predicate GivesUp(s: Stage, answer: Answer) { answer.Unexpected? && s < PLAN }

  predicate NotConfigured(s: Stage, answer: Answer) { s == QUALITY && answer.Refused? && answer.criteriaUndeclared }

  /** An answer that is not stored: given up, not configured, spent, or back to where the stage was claimed from. */
  lemma FailureLeads(a: Anchor, s: Stage, answer: Answer, now: nat, poll: nat)
    requires a.state == Working(s) && (answer.Answered? ==> s !in a.ids && !Stores(a, s, answer.reply, now, poll))
    ensures var b := RunRow(a, s, answer, true, now, poll);
      var spent := a.columns[s].attempts >= a.columns[s].maxAttempts;
      && (NotConfigured(s, answer) <==> b.state == QualityNotConfigured)
      && (b.state == Failed(s) <==> GivesUp(s, answer) || (spent && !NotConfigured(s, answer)))
      && (b.state !in {Failed(s), QualityNotConfigured} ==>
            && b.state == (if s == ELIGIBILITY && a.qualityDecision != Some(AcceptedByCriteria) then QualityRejected
                           else Ready(s))
            && b.columns[s].nextRunAt == Some(now + Delay(poll, a.columns[s].attempts)))
  {
    if answer.Answered? {
      NotStoredIsRefused(a, s, answer.reply, now, poll);
    }
  }

  lemma NotStoredIsRefused(a: Anchor, s: Stage, r: Reply, now: nat, poll: nat)
    requires a.state == Working(s) && !Stores(a, s, r, now, poll)
    ensures !Accepts(a, s, r)
    ensures RunRow(a, s, Answered(r), true, now, poll) == RetryRow(a, s, Mismatch(s), now, poll)
  {
  }

  /** And the reason is on record, the lease gone, nothing else touched. */
  lemma FailureIsRecorded(a: Anchor, s: Stage, answer: Answer, now: nat, poll: nat)
    requires a.state == Working(s) && (answer.Answered? ==> s !in a.ids && !Stores(a, s, answer.reply, now, poll))
    ensures var b := RunRow(a, s, answer, true, now, poll);
      && b.columns[s].error == (
           if NotConfigured(s, answer) then None
           else if answer.Answered? then Some(Mismatch(s))
           else if answer.Unexpected? then Some(UnexpectedFailure(s))
           else Some(Remote(answer.code)))
      && b.columns[s].leaseUntil.None? && b.columns[s].attempts == a.columns[s].attempts
      && (b.state in {Failed(s), QualityNotConfigured} ==> b.columns[s].nextRunAt == Some(now))
      && b.qualityDecision == (if NotConfigured(s, answer) then Some(CriteriaNotDeclared) else a.qualityDecision)
      && b.ids == a.ids && b.updatedAt == now && (forall k :: 0 <= k < 9 && k != s ==> b.columns[k] == a.columns[k])
  {
    if answer.Answered? {
      NotStoredIsRefused(a, s, answer.reply, now, poll);
    }
  }

  /** An attestation over a journal that does not verify fails for good, before anybody is asked. */
  lemma UnverifiedJournalFails(a: Anchor, answer: Answer, now: nat, poll: nat)
    requires a.state == Working(ATTEST)
    ensures var b := RunRow(a, ATTEST, answer, false, now, poll);
      && b.state == Failed(ATTEST) && b.columns[ATTEST].error == Some(ChainVerificationFailed)
      && b.columns[ATTEST].leaseUntil.None? && b.ids == a.ids
  {
  }

  /** A retry waits for the poll interval, doubled from attempt to attempt up to the sixth, five minutes at most. */
  lemma DelayDoubles(poll: nat, attempts: nat)
    ensures attempts <= 1 ==> Delay(poll, attempts) == if poll < 300 then poll else 300
    ensures 1 <= attempts <= 5 ==>
      Delay(poll, attempts + 1) == (if 2 * Delay(poll, attempts) < 300 then 2 * Delay(poll, attempts) else 300)
    ensures attempts >= 6 ==> Delay(poll, attempts) == Delay(poll, 6)
  {
    assert 1 <= attempts <= 5 ==> poll * Pow2(attempts) == 2 * (poll * Pow2(attempts - 1));
  }

  // ---------- claims ----------

  /** A stage can be claimed when it waits and is due, or when its lease has run out, and in no other state. */
  lemma DueExactly(a: Anchor, s: Stage, now: nat)
    ensures Due(a, s, now) <==>
      match a.state
      case Ready(k) => k == s && a.columns[s].nextRunAt.Some? && a.columns[s].nextRunAt.value <= now
      case QualityRejected => s == ELIGIBILITY && a.columns[s].nextRunAt.Some? && a.columns[s].nextRunAt.value <= now
      case Working(k) => k == s && a.columns[s].leaseUntil.Some? && a.columns[s].leaseUntil.value <= now
      case _ => false
  {
  }

  /** A claim counts an attempt and takes a lease, or ends an anchor whose attempts are spent. */
  lemma ClaimLeads(a: Anchor, s: Stage, now: nat, lease: nat)
    ensures var b := ClaimRow(a, s, now, lease);
      var c, d := a.columns[s], b.columns[s];
      && (b.state == Failed(s) <==> c.attempts >= c.maxAttempts)
      && (b.state == Failed(s) || b.state == Working(s))
      && d.attempts == c.attempts + (if b.state == Working(s) then 1 else 0)
      && d.leaseUntil == (if b.state == Working(s) then Some(now + lease) else None)
      && d.error == (if b.state == Working(s) then c.error else Some(MaxAttempts(s)))
      && d.maxAttempts == c.maxAttempts && d.nextRunAt == c.nextRunAt
      && b.ids == a.ids && b.qualityDecision == a.qualityDecision && b.updatedAt == now
      && forall k :: 0 <= k < 9 && k != s ==> b.columns[k] == a.columns[k]
  {
  }

  /** A new anchor can be claimed for its attestation at once, and for nothing else. */
  lemma NewAnchorIsDue(evidence: Digest, now: nat, s: Stage, at: nat)
    ensures Due(NewAnchor(evidence, now), s, at) <==> s == ATTEST && now <= at
    ensures var a := NewAnchor(evidence, now);
      && a.columns[s].attempts == 0 && a.columns[s].maxAttempts == 10 && a.ids == map[] && a.evidence == evidence
      && a.createdAt == now
  {
  }
}
