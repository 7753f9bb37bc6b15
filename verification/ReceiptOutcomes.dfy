/** What each operation on receipts and compensations leaves of its row, said of the row's own columns. */
module ReceiptOutcomes {
  import opened Wrappers
  import opened ReceiptCompensation
  import DeliveryQueue

  // ---------- configuring and publishing ----------

  /** A destination may be set while nothing was published to it; an order that another quote's receipt carries moves
      over only from an untouched one, and everything else of that receipt stays. */
  lemma ConfiguresExactly(t: Tables, q: string, orderId: string, channel: Channel, destination: string,
                          other: Option<string>, now: nat)
    requires other.Some? ==> other.value in t.receipts
    ensures var after := ConfigureTx(t, q, orderId, channel, destination, other, now);
      var known := q in t.receipts;
      && (after == Err(DestinationLocked) <==> known && t.receipts[q].state !in {Configured, PayloadReady})
      && (after == Err(OrderAlreadyBound) <==>
            !known && other.Some?
            && (t.receipts[other.value].state != Configured || t.receipts[other.value].digest.Some?))
      && (after.Err? ==> after.error in {DestinationLocked, OrderAlreadyBound})
      && (after.Ok? ==>
            && q in after.value.receipts
            && after.value.(receipts := map[]) == t.(receipts := map[])
            && var r := after.value.receipts[q];
              && r.channel == channel && r.destination == destination && r.updatedAt == now
              && (known ==> r == t.receipts[q].(channel := channel, destination := destination, updatedAt := now)
                            && after.value.receipts.Keys == t.receipts.Keys)
              && (!known && other.Some? ==>
                    r == t.receipts[other.value].(channel := channel, destination := destination, updatedAt := now)
                    && after.value.receipts.Keys == t.receipts.Keys - {other.value} + {q})
              && (!known && other.None? ==>
                    && r.orderId == orderId && r.state == Configured && r.digest.None? && r.sealed.None?
                    && r.signature.None? && r.attempts == 0 && r.acceptedAt.None? && r.disputedAt.None?
                    && r.dispatchedAt.None? && r.dispatchError.None? && r.nextAttemptAt.None?
                    && after.value.receipts.Keys == t.receipts.Keys + {q})
              && forall o :: o in t.receipts && o in after.value.receipts && o != q ==>
                   after.value.receipts[o] == t.receipts[o])
  {
  }

  /** A digest is sealed once: another payload is refused, the same one fills in what is missing, and only a row that
      changes is delivered anew. */
  lemma PublishesExactly(h: Hasher, r: Receipt, payload: string, signature: Option<string>, now: nat)
    ensures var after := PublishRow(h, r, payload, signature, now);
      && (after == Err(DigestConflict) <==> r.digest.Some? && r.digest.value != h(payload))
      && (after.Err? ==> after.error == DigestConflict)
      && (after.Ok? ==>
            var b := after.value;
            && b.digest == Some(h(payload))
            && (r.digest.Some? && r.sealed.Some? && (signature.None? || r.signature.Some?) ==> b == r)
            && (r.digest.None? || r.sealed.None? || (signature.Some? && r.signature.None?) ==>
                  && b.state == Delivered && b.updatedAt == now && b.sealed.Some?
                  && (r.digest.None? || r.sealed.None? ==> b.sealed == Some(payload))
                  && (r.digest.Some? && r.sealed.Some? ==> b.sealed == r.sealed)
                  && b.signature == (if r.digest.Some? && r.signature.Some? then r.signature else signature)
                  && b.dispatchedAt == (if r.digest.Some? then r.dispatchedAt else None))
            && b.orderId == r.orderId && b.channel == r.channel && b.destination == r.destination
            && b.acceptedAt == r.acceptedAt && b.disputedAt == r.disputedAt && b.attempts == r.attempts)
  {
  }

  /** A first publication is signed exactly when a readable key is configured, with that key's signature. */
  lemma SignsExactly(h: Hasher, r: Receipt, payload: string, key: SigningKey, now: nat)
    requires r.digest.None?
    ensures var after := PublishRow(h, r, payload, SignatureOf(key), now);
      && after.Ok? && (after.value.signature.Some? <==> key.Signs?)
      && (key.Signs? ==> after.value.signature == Some(key.signature))
  {
  }

  // ---------- deciding ----------

  /** A delivered receipt takes the buyer's decision, a decided one only the same decision again, and any other none. */
  lemma AcknowledgesExactly(r: Receipt, d: Decision, now: nat)
    ensures var after := AcknowledgeRow(r, d, now);
      var ready := r.state == Dispatched || r.state == Delivered;
      && (after == Err(AlreadyFinal) <==> (r.state == Accepted && d.Dispute?) || (r.state == Disputed && d.Accept?))
      && (after == Err(NotYetDispatched) <==> !ready && r.state != Accepted && r.state != Disputed)
      && (after == Err(DisputeIncomplete) <==> ready && d == Dispute(false))
      && (after.Err? ==> after.error in {AlreadyFinal, NotYetDispatched, DisputeIncomplete})
      && (after.Ok? && !ready ==> after.value == r)
      && (after.Ok? && ready ==>
            var b := after.value;
            && (b.state == Accepted <==> d.Accept?) && (b.state == Disputed <==> d.Dispute?)
            && b.acceptedAt == (if d.Accept? then Some(now) else None)
            && b.disputedAt == (if d.Accept? then None else Some(now))
            && b.digest == r.digest && b.sealed == r.sealed && b.orderId == r.orderId && b.updatedAt == now)
  {
  }

  // ---------- notifying ----------

  /** A notification is sent exactly when it is its channel's, the receipt is sealed and waits, nothing was sent, its
      time has come, and destination and key are usable. */
  lemma SendsExactly(h: Hasher, r: Receipt, channel: Channel, safe: bool, keypair: bool, now: nat)
    ensures DispatchCheck(h, r, channel, safe, keypair, now) == Ok(Sent) <==>
      && r.channel == channel && r.dispatchedAt.None? && r.state in {Delivered, PendingDispatch}
      && (r.nextAttemptAt.Some? ==> r.nextAttemptAt.value <= now)
      && r.sealed.Some? && r.digest == Some(h(r.sealed.value)) && safe && keypair
  {
  }

  /** And otherwise it is answered by the first of these that holds. */
  lemma DispatchAnswersExactly(h: Hasher, r: Receipt, channel: Channel, safe: bool, keypair: bool, now: nat)
    ensures var c := DispatchCheck(h, r, channel, safe, keypair, now);
      var sent := r.dispatchedAt.Some? && r.dispatchError.None?;
      var waits := r.state in {Delivered, PendingDispatch};
      var later := r.nextAttemptAt.Some? && r.nextAttemptAt.value > now;
      var intact := r.sealed.Some? && r.digest == Some(h(r.sealed.value));
      && (c == Err(WrongChannel) <==> r.channel != channel)
      && (r.channel == channel ==>
            && (c == Ok(Idempotent) <==> sent)
            && (c == Err(NotReady) <==> !sent && !waits)
            && (c == Ok(RetryWait) <==> !sent && waits && later)
            && (c == Err(PayloadUnavailable) <==> !sent && waits && !later && !intact)
            && (c == Err(InvalidDestination) <==> !sent && waits && !later && intact && !safe)
            && (c == Err(KeypairUnavailable) <==> !sent && waits && !later && intact && safe && !keypair)
            && (c == Err(DispatchConflict) <==>
                  !sent && waits && !later && intact && safe && keypair && r.dispatchedAt.Some?))
  {
  }

  /** A sent notification counts an attempt and is on record with its time, or with its error and the next attempt. */
  lemma SentIsRecorded(r: Receipt, error: Option<string>, max: nat, now: nat)
    ensures var b := DispatchedRow(r, error, max, now);
      && b.attempts == r.attempts + 1 && b.dispatchError == error && b.state == Delivered && b.updatedAt == now
      && (b.dispatchedAt == if error.None? then Some(now) else None)
      && (b.nextAttemptAt.Some? <==> error.Some? && r.attempts + 1 < max)
      && (b.nextAttemptAt.Some? ==> b.nextAttemptAt.value == now + DispatchBackoff(r.attempts + 1))
      && b.digest == r.digest && b.sealed == r.sealed && b.acceptedAt == r.acceptedAt
  {
  }

  lemma DispatchBackoffDoubles(attempt: nat)
    ensures attempt <= 1 ==> DispatchBackoff(attempt) == 30
    ensures attempt >= 1 ==> DispatchBackoff(attempt + 1) == Min(2 * DispatchBackoff(attempt), 3600)
  {
  }

  /** A callback is taken exactly for the receipt's own mail address, for an event that is known and has a time. */
  lemma CallbacksExactly(r: Receipt, c: Callback)
    ensures var known := c.event in {MailSent, MailDelivered, MailOpened, MailClicked, MailBounced, MailBlocked,
                                     MailSpam};
      var own := c.recipient == r.destination && c.recipient != "";
      && (CallbackCheck(r, c) == Err(ReceiptNotFound) <==> r.channel != Email)
      && (CallbackCheck(r, c) == Err(RecipientMismatch) <==> r.channel == Email && !own)
      && (CallbackCheck(r, c) == Err(UnsupportedMailEvent) <==> r.channel == Email && own && !known)
      && (CallbackCheck(r, c) == Err(EventTimeRequired) <==> r.channel == Email && own && known && c.at < 1)
      && (CallbackCheck(r, c).Ok? <==> r.channel == Email && own && known && c.at >= 1)
      && (CallbackCheck(r, c).Ok? ==> (CallbackCheck(r, c).value <==>
            r.providerStatus == Some(c.event) && r.providerEventAt == Some(c.at)
            && r.providerMessageId == c.messageId))
  {
  }

  /** It puts event, time and message on record, an error exactly for a failed delivery of the mail, and turns a
      dispatched receipt delivered; it decides nothing. */
  lemma CallbackIsRecorded(r: Receipt, c: Callback)
    ensures var b := ProviderRow(r, c);
      if CallbackCheck(r, c) == Ok(false) then
        && (b.state == if r.state == Dispatched then Delivered else r.state)
        && b.providerStatus == Some(c.event) && b.providerEventAt == Some(c.at) && b.providerMessageId == c.messageId
        && (b.dispatchError == if c.event in {MailBounced, MailBlocked, MailSpam} then Some(c.failure) else None)
        && b.acceptedAt == r.acceptedAt && b.disputedAt == r.disputedAt && b.digest == r.digest
        && b.dispatchedAt == r.dispatchedAt && b.attempts == r.attempts && b.updatedAt == c.at
      else b == r
  {
  }

  // ---------- compensating ----------

  /** Whether another compensation carries the order of the quote. */
  ghost predicate OrderCompensated(t: Tables, orderId: string) {
    exists c :: c in t.compensations && t.compensations[c].orderId == orderId
  }

  /** A request is refused without a delivery first, then without payment, then without a reason, then for an order
      that has one. */
  lemma RefusesRequestsExactly(t: Tables, q: string)
    ensures var refused := RequestCheck(t, q);
      var known := q in t.quotes && q in t.deliveries;
      && (refused == Some(DeliveryNotFound) <==> !known)
      && (known ==>
            var paid := t.quotes[q].confirmed;
            var failed := t.deliveries[q] in {DeliveryQueue.Exhausted, DeliveryQueue.Blocked};
            var disputed := q in t.receipts && t.receipts[q].state == Disputed;
            && (refused == Some(PaymentNotConfirmed) <==> !paid)
            && (refused == Some(NotEligible) <==> paid && !failed && !disputed)
            && (refused == Some(OrderAlreadyCompensated) <==>
                  paid && (failed || disputed) && OrderCompensated(t, t.quotes[q].orderId))
            && (refused.None? <==> paid && (failed || disputed) && !OrderCompensated(t, t.quotes[q].orderId)))
  {
  }

  /** What is refunded is what was paid in when the treasury took it, and the priced amount in IAT otherwise; the
      reason is the buyer's dispute before the delivery's own failure. */
  lemma CompensatesExactly(t: Tables, q: string)
    requires q !in t.compensations && RequestCheck(t, q).None?
    ensures var after := RequestTx(t, q);
      && after.(compensations := t.compensations) == t
      && after.compensations.Keys == t.compensations.Keys + {q}
      && (forall o :: o in t.compensations ==> after.compensations[o] == t.compensations[o])
      && var c, quote := after.compensations[q], t.quotes[q];
        && c.orderId == quote.orderId && c.state == PendingReview && c.decidedAt.None?
        && (quote.viaTreasury ==> c.refund == quote.input)
        && (!quote.viaTreasury ==>
              c.refund.asset == "IAT" && c.refund.mint == IatToken && c.refund.amountMinor == quote.output.amountMinor)
        && (c.reason == BuyerDisputed <==> q in t.receipts && t.receipts[q].state == Disputed)
        && (c.reason == AttemptsExhausted <==>
              !(q in t.receipts && t.receipts[q].state == Disputed) && t.deliveries[q] == DeliveryQueue.Exhausted)
  {
  }

  lemma RefusedRequestsChangeNothing(t: Tables, q: string)
    ensures q in t.compensations || RequestCheck(t, q).Some? ==> RequestTx(t, q) == t
  {
  }

  /** A pending compensation takes the decision made of it and its time; one that was decided takes none. */
  lemma DecidesExactly(t: Tables, q: string, approve: bool, now: nat)
    ensures var after := DecideTx(t, q, approve, now);
      var pending := q in t.compensations && t.compensations[q].state == PendingReview;
      && (!pending ==> after == t)
      && (pending ==>
            && after.(compensations := t.compensations) == t && after.compensations.Keys == t.compensations.Keys
            && (forall o :: o in t.compensations && o != q ==> after.compensations[o] == t.compensations[o])
            && var b, c := t.compensations[q], after.compensations[q];
              && (c.state == Approved <==> approve) && (c.state == Denied <==> !approve)
              && c.decidedAt == Some(now) && c.refund == b.refund && c.reason == b.reason && c.orderId == b.orderId)
  {
  }

  /** The gate names the reason: nothing to wait for, a decision, or what the receipt still waits for. */
  lemma GateNamesReason(r: Receipt)
    ensures ReleaseGate(None) == Gate(true, LegacyOrder)
    ensures var g := ReleaseGate(Some(r));
      && (g.reason == BuyerAccepted <==> r.state == Accepted)
      && (g.reason == DisputeOpen <==> r.state == Disputed)
      && (g.reason == ProviderPending <==> r.state == Dispatched)
      && (g.reason == BuyerPending <==> r.state == Delivered)
      && (g.reason == DispatchFailure <==> r.state == DispatchFailed)
      && (g.reason == DispatchPending <==> r.state == PendingDispatch)
      && (g.reason == ServiceNotReady <==> r.state == Configured)
      && (g.reason == NotAccepted <==> r.state == PayloadReady)
  {
  }
}
