/** How one attempt at a delivery leaves its row and its order, said of their own columns. */
module DeliveryOutcomes {
  import opened Wrappers
  import opened DeliveryQueue

  /** The row after an uninterrupted attempt that found its order open. */
  function RowAfter(d: Delivery, token: Token, v: Verdict, result: string, max: nat, base: nat, now: nat,
                    lease: nat): Delivery
  {
    CloseRow(ClaimRow(d, token, now, lease), PlanFor(v, result, d.attemptCount + 1, max, base, now).closing, now)
  }

  function OrderAfter(d: Delivery, o: Order, v: Verdict, result: string, max: nat, base: nat, now: nat): Order {
    var plan := PlanFor(v, result, d.attemptCount + 1, max, base, now);
    if plan.mark.None? then o else MarkRow(o, plan.mark.value, d.txSignature, result)
  }

  predicate IsOpen(o: Order) { !o.used && o.status != Delivered }

  /** The service was not delivered this time, and may be the next. */
  predicate Unfinished(v: Verdict) { v.ReviewNeeded? || v.FailedAttempt? }

  /** An open order is used exactly when the attempt was authorised, and every other verdict leaves it unused: blocked,
      put under review with the last attempt, or as it was. */
  lemma OrderEndsExactly(d: Delivery, o: Order, v: Verdict, result: string, max: nat, base: nat, now: nat)
    requires IsOpen(o)
    ensures var after := OrderAfter(d, o, v, result, max, base, now);
      var last := d.attemptCount + 1 >= max;
      && (after.used <==> v.Authorized?)
      && (after.status == Delivered <==> v.Authorized?)
      && (v.DeliveryBlocked? ==> after.status == FoundationBlocked)
      && (v.ReviewNeeded? && last ==> after.status == FoundationReviewRequired)
      && (after != o ==> after.txSignature == Some(d.txSignature) && after.result == Some(result))
      && (v.FailedAttempt? || (v.ReviewNeeded? && !last) ==> after == o)
  {
  }

  /** The delivery is completed exactly when the attempt was authorised, blocked exactly when the executor blocked it,
      and otherwise exhausted with the last attempt or left to be tried again. */
  lemma DeliveryEndsExactly(d: Delivery, token: Token, v: Verdict, result: string, max: nat, base: nat, now: nat,
                            lease: nat)
    ensures var after := RowAfter(d, token, v, result, max, base, now, lease);
      var last := d.attemptCount + 1 >= max;
      && (after.state == Completed <==> v.Authorized?)
      && (after.state == Blocked <==> v.DeliveryBlocked?)
      && (after.state == Exhausted <==> Unfinished(v) && last)
      && (after.state == RetryableFailure <==> Unfinished(v) && !last)
      && after.nextAttemptAt == (
           if after.state == RetryableFailure then now + RetryDelay(base, d.attemptCount + 1) else now)
      && (after.completedAt == if after.state == RetryableFailure then None else Some(now))
  {
  }

  /** Its error says why it is not over, its settlement whether the ledger has it, and the lease is gone. */
  lemma DeliveryIsRecorded(d: Delivery, token: Token, v: Verdict, result: string, max: nat, base: nat, now: nat,
                           lease: nat)
    ensures var after := RowAfter(d, token, v, result, max, base, now, lease);
      && (v.ReviewNeeded? ==> after.lastError == Some(DecisionNotReady))
      && (v.FailedAttempt? ==> after.lastError == Some(v.error))
      && (!Unfinished(v) ==> after.lastError.None?)
      && (v == Authorized(true) ==> after.settlementState == SettlementCompleted && after.settlementNextAt.None?)
      && (v == Authorized(false) ==>
            after.settlementState == SettlementRetryable && after.settlementNextAt == Some(now + 30))
      && (!v.Authorized? ==> after.settlementState == d.settlementState && after.settlementNextAt.None?)
      && after.settlementAttempts == d.settlementAttempts
      && after.leaseToken.None? && after.leaseUntil.None? && after.attemptCount == d.attemptCount + 1
      && after.result == Some(result) && after.updatedAt == now
      && after.orderId == d.orderId && after.txSignature == d.txSignature
  {
  }

  /** The wait before the next attempt is the base interval, doubled from attempt to attempt, an hour at most. */
  lemma RetryDelayDoubles(base: nat, attempts: nat)
    ensures attempts <= 1 ==> RetryDelay(base, attempts) == if base < 3600 then base else 3600
    ensures attempts >= 1 ==> RetryDelay(base, attempts + 1) == Min(2 * RetryDelay(base, attempts), 3600)
  {
    if attempts >= 1 {
      assert base * Pow2(attempts) == 2 * (base * Pow2(attempts - 1));
    }
  }

  /** Without its order a delivery is given up at once; one whose order was delivered before is completed with what
      the order says, and neither touches the settlement. */
  lemma NoWorkEndsExactly(d: Delivery, token: Token, o: Order, now: nat, lease: nat)
    ensures var missing := CloseRow(ClaimRow(d, token, now, lease), MissingOrder(now), now);
      && missing.state == Exhausted && missing.lastError == Some(OrderMissing) && missing.completedAt == Some(now)
      && missing.result == Some("order_missing") && missing.attemptCount == d.attemptCount + 1
      && missing.settlementState == d.settlementState && missing.leaseToken.None?
    ensures var done := CloseRow(ClaimRow(d, token, now, lease), AlreadyDelivered(o, now), now);
      && done.state == Completed && done.lastError.None? && done.completedAt == Some(now)
      && done.result == Some(if o.result.Some? then o.result.value else "already_delivered")
      && done.settlementState == d.settlementState && done.leaseToken.None?
  {
  }

  // ---------- the other statements ----------

  /** A new delivery is pending and due at once, with nothing attempted, settled or decided. */
  lemma NewDeliveryExactly(orderId: string, txSignature: string, now: nat)
    ensures var d := NewDelivery(orderId, txSignature, now);
      && d.orderId == orderId && d.txSignature == txSignature && d.state == Pending && d.attemptCount == 0
      && d.nextAttemptAt == now && d.leaseToken.None? && d.leaseUntil.None? && d.lastError.None? && d.result.None?
      && d.settlementState == SettlementPending && d.settlementAttempts == 0 && d.settlementNextAt.None?
      && d.updatedAt == now && d.completedAt.None?
  {
  }

  /** A new row conflicts exactly when its quote is known, or when quotes would then share an order or a payment. */
  lemma ConflictsExactly(deliveries: map<string, Delivery>, quoteId: string, orderId: string, txSignature: string,
                         now: nat)
    requires OneRowPerPayment(deliveries)
    ensures !Conflicts(deliveries, quoteId, orderId, txSignature) <==>
      quoteId !in deliveries && OneRowPerPayment(deliveries[quoteId := NewDelivery(orderId, txSignature, now)])
  {
    var after := deliveries[quoteId := NewDelivery(orderId, txSignature, now)];
    if quoteId !in deliveries && OneRowPerPayment(after) {
      forall q | q in deliveries ensures deliveries[q].orderId != orderId && deliveries[q].txSignature != txSignature {
        assert q in after && quoteId in after && q != quoteId && after[q] == deliveries[q];
        assert after[quoteId] == NewDelivery(orderId, txSignature, now);
      }
    }
  }

  /** A delivery can be claimed when it waits and is due, or when its lease has run out, and in no other state. */
  lemma ClaimableExactly(d: Delivery, now: nat)
    ensures Claimable(d, now) <==>
      match d.state
      case Pending => d.nextAttemptAt <= now
      case RetryableFailure => d.nextAttemptAt <= now
      case Running => d.leaseUntil.Some? && d.leaseUntil.value < now
      case _ => false
  {
  }

  /** A claim counts an attempt and takes the lease under its token. */
  lemma ClaimsExactly(d: Delivery, token: Token, now: nat, lease: nat)
    ensures var c := ClaimRow(d, token, now, lease);
      && c.state == Running && c.leaseToken == Some(token) && c.leaseUntil == Some(now + lease)
      && c.attemptCount == d.attemptCount + 1 && c.updatedAt == now && c.nextAttemptAt == d.nextAttemptAt
      && c.lastError == d.lastError && c.result == d.result && c.settlementState == d.settlementState
      && c.settlementAttempts == d.settlementAttempts && c.settlementNextAt == d.settlementNextAt
      && c.completedAt == d.completedAt && c.orderId == d.orderId && c.txSignature == d.txSignature
  {
  }

  /** A finish takes effect exactly under the token of the running lease. */
  lemma FinishesExactly(d: Delivery, token: Token, c: Closing, now: nat)
    ensures FinishRow(d, token, c, now) ==
      if d.state == Running && d.leaseToken == Some(token) then CloseRow(d, c, now) else d
    ensures var b := CloseRow(d, c, now);
      && b.state == c.state && b.nextAttemptAt == c.nextAttemptAt && b.lastError == c.error && b.result == c.result
      && b.leaseToken.None? && b.leaseUntil.None? && b.updatedAt == now
      && (b.completedAt == if c.state in {Completed, ReviewRequired, Blocked, Exhausted} then Some(now) else None)
      && (b.settlementState == if c.settlement.Some? then c.settlement.value else d.settlementState)
      && b.settlementNextAt == c.settlementNextAt && b.settlementAttempts == d.settlementAttempts
      && b.attemptCount == d.attemptCount && b.orderId == d.orderId && b.txSignature == d.txSignature
  {
  }

  /** A redrive takes exactly an exhausted delivery back to the start; its result and settlement stay. */
  lemma RedrivesExactly(d: Delivery, now: nat)
    ensures var b := RedriveRow(d, now);
      && (d.state != Exhausted ==> b == d)
      && (d.state == Exhausted ==>
            && b.state == Pending && b.attemptCount == 0 && b.nextAttemptAt == now && b.leaseToken.None?
            && b.leaseUntil.None? && b.lastError.None? && b.completedAt.None? && b.updatedAt == now
            && b.result == d.result && b.settlementState == d.settlementState && b.orderId == d.orderId)
  {
  }

  /** A review takes exactly a delivery that requires it back to be tried again, with the attempts it made. */
  lemma ResumesExactly(d: Delivery, now: nat)
    ensures var b := ResumeReviewRow(d, now);
      && (d.state != ReviewRequired ==> b == d)
      && (d.state == ReviewRequired ==>
            && b.state == RetryableFailure && b.attemptCount == d.attemptCount && b.nextAttemptAt == now
            && b.leaseToken.None? && b.leaseUntil.None? && b.completedAt.None? && b.lastError == d.lastError
            && b.result == d.result && b.settlementState == d.settlementState && b.updatedAt == now)
  {
  }

  /** Exactly a retry that waits for a decision, has time left, and was not touched for the cooldown is made due. */
  lemma AcceleratesExactly(d: Delivery, now: nat, cooldown: nat)
    ensures var b := AccelerateRow(d, now, cooldown);
      if d.state == RetryableFailure && d.lastError == Some(DecisionNotReady) && now < d.nextAttemptAt
         && d.updatedAt + cooldown <= now
      then b.nextAttemptAt == now && b.updatedAt == now && b.state == d.state && b.attemptCount == d.attemptCount
           && b.lastError == d.lastError && b.result == d.result && b.settlementState == d.settlementState
      else b == d
  {
  }

  /** A mark leaves a used order alone, and alone the completed one makes an order used. */
  lemma MarksExactly(o: Order, mark: Mark, txSignature: string, result: string)
    ensures var b := MarkRow(o, mark, txSignature, result);
      && (o.used ==> b == o)
      && (!o.used ==>
            && (b.used <==> mark == MarkCompleted) && (b.status == Delivered <==> mark == MarkCompleted)
            && (b.status == FoundationReviewRequired <==> mark == MarkReview)
            && (b.status == FoundationBlocked <==> mark == MarkBlocked)
            && b.txSignature == Some(txSignature) && b.result == Some(result))
  {
  }

  /** The sweep retries exactly completed deliveries whose allocation failed and is due, the longest due first. */
  lemma SettlementsDueExactly(d: Delivery, e: Delivery, now: nat)
    ensures SettlementDue(d, now) <==>
      && d.state == Completed && d.settlementState == SettlementRetryable
      && d.settlementNextAt.Some? && d.settlementNextAt.value <= now
    ensures SettlementDue(d, now) && SettlementDue(e, now) ==>
      (SettlesSooner(d, e) <==> d.settlementNextAt.value < e.settlementNextAt.value)
  {
  }

  /** The update of a sweep finds only a completed delivery whose allocation failed. */
  lemma SettlesOnlyFailedAllocations(d: Delivery, booked: bool, attempts: nat, now: nat)
    ensures d.state != Completed || d.settlementState != SettlementRetryable ==>
      SettleRow(d, booked, attempts, now) == d
  {
  }

  /** An allocation the ledger refuses again waits half a minute, doubled from attempt to attempt, an hour at most; the
      outcome is written into the result either way. */
  lemma SettlesExactly(d: Delivery, booked: bool, annotated: (string, bool) -> string, now: nat)
    requires SettlementDue(d, now)
    ensures var b := ResettledRow(d, booked, annotated, now);
      && b.settlementState == (if booked then SettlementCompleted else SettlementRetryable)
      && b.settlementAttempts == d.settlementAttempts + 1
      && b.settlementNextAt == (if booked then None else Some(now + RetryDelay(30, b.settlementAttempts)))
      && b.result == Some(annotated(if d.result.Some? then d.result.value else "{}", booked)) && b.updatedAt == now
      && b.state == d.state && b.attemptCount == d.attemptCount && b.orderId == d.orderId
      && b.lastError == d.lastError && b.completedAt == d.completedAt
  {
  }
}
