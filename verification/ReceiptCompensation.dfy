/** Final receipts and compensations of a paid quote: iat/checkout_receipt.py and
    iat/checkout_compensation.py, with the state of the quote's delivery beside them. */
module ReceiptCompensation {
  import opened Wrappers
  import DeliveryQueue

  type Digest = string

  /** SHA-256 of the canonical JSON text of a payload. */
  type Hasher = string -> Digest

  datatype Channel = ApiPull | Webhook | Email

  datatype ReceiptState = Configured | PayloadReady | PendingDispatch | Dispatched | Delivered | DispatchFailed
    | Accepted | Disputed

  /** What the mail provider may report; any other word is unsupported. */
  datatype MailEvent = MailSent | MailDelivered | MailOpened | MailClicked | MailBounced | MailBlocked | MailSpam
    | MailOther(word: string)

  predicate MailFailure(e: MailEvent) { e == MailBounced || e == MailBlocked || e == MailSpam }

  predicate Decided(s: ReceiptState) { s == Accepted || s == Disputed }

  datatype Receipt = Receipt(
    orderId: string, channel: Channel, destination: string, state: ReceiptState,
    digest: Option<Digest>, sealed: Option<string>, signature: Option<string>,
    acceptedAt: Option<nat>, disputedAt: Option<nat>,
    attempts: nat, nextAttemptAt: Option<nat>, dispatchError: Option<string>, dispatchedAt: Option<nat>,
    providerStatus: Option<MailEvent>, providerEventAt: Option<int>, providerMessageId: Option<string>,
    updatedAt: nat)

  function NewReceipt(orderId: string, channel: Channel, destination: string, now: nat): Receipt {
    Receipt(orderId, channel, destination, Configured, None, None, None, None, None, 0, None, None, None, None, None,
            None, now)
  }

  /** The configured IAT token, or the mint a quote names. */
  datatype Mint = IatToken | OtherMint(address: string)

  datatype Money = Money(asset: string, mint: Mint, amountMinor: string)

  /** What the buyer paid in and what the order is priced at. */
  datatype Quote = Quote(orderId: string, confirmed: bool, viaTreasury: bool, input: Money, output: Money)

  datatype CompensationState = PendingReview | Approved | Denied

  datatype Reason = BuyerDisputed | AttemptsExhausted | DeliveryBlocked

  datatype Compensation = Compensation(orderId: string, refund: Money, state: CompensationState, reason: Reason,
                                       decidedAt: Option<nat>)

  datatype Tables = Tables(
    quotes: map<string, Quote>, deliveries: map<string, DeliveryQueue.DeliveryState>,
    receipts: map<string, Receipt>, compensations: map<string, Compensation>)

  datatype Error = ReceiptNotFound | OrderAlreadyBound | DestinationLocked | InvalidDestination
    | PayloadTooLarge | DigestConflict | PublishConflict
    | AlreadyFinal | NotYetDispatched | DisputeIncomplete
    | WrongChannel | RecipientMismatch | UnsupportedMailEvent | EventTimeRequired
    | NotReady | PayloadUnavailable | KeypairUnavailable | DispatchConflict
    | DeliveryNotFound | PaymentNotConfirmed | NotEligible | OrderAlreadyCompensated
    | DecisionReasonInvalid | CompensationNotFound | DecisionNotAllowed

  // ---------- configuring ----------

  predicate OrderBound(t: Tables, orderId: string) { exists q :: q in t.receipts && t.receipts[q].orderId == orderId }

  /** The quote whose receipt carries the order; the order column is unique. */
  ghost predicate UniqueOrders(receipts: map<string, Receipt>) {
    forall a, b :: a in receipts && b in receipts && a != b ==> receipts[a].orderId != receipts[b].orderId
  }

  function ConfigureRow(r: Receipt, channel: Channel, destination: string, now: nat): Receipt {
    r.(channel := channel, destination := destination, updatedAt := now)
  }

  /** `other` is the quote that already carries the order, if any. */
  function ConfigureTx(t: Tables, q: string, orderId: string, channel: Channel, destination: string,
                       other: Option<string>, now: nat): Result<Tables, Error>
    requires other.Some? ==> other.value in t.receipts
  {
    if q in t.receipts then
      if t.receipts[q].state == Configured || t.receipts[q].state == PayloadReady
      then Ok(t.(receipts := t.receipts[q := ConfigureRow(t.receipts[q], channel, destination, now)]))
      else Err(DestinationLocked)
    else if other.Some? then
      var r := t.receipts[other.value];
      if r.state != Configured || r.digest.Some? then Err(OrderAlreadyBound)
      else Ok(t.(receipts := (t.receipts - {other.value})[q := ConfigureRow(r, channel, destination, now)]))
    else Ok(t.(receipts := t.receipts[q := NewReceipt(orderId, channel, destination, now)]))
  }

  // ---------- publishing ----------

  /** The configured signing key: none, one that cannot be read, or one with its signature of the payload. */
  datatype SigningKey = NoKey | UnreadableKey | Signs(signature: string)

  function SignatureOf(key: SigningKey): Option<string> { if key.Signs? then Some(key.signature) else None }

  /** First publication, or a repair of a row that lacks its payload or the signature now configured. */
  function PublishRow(h: Hasher, r: Receipt, payload: string, signature: Option<string>,
                      now: nat): Result<Receipt, Error>
  {
    if r.digest.Some? then
      if r.digest.value != h(payload) then Err(DigestConflict)
      else if r.sealed.None? || (signature.Some? && r.signature.None?) then
        Ok(r.(sealed := if r.sealed.Some? then r.sealed else Some(payload), state := Delivered,
              signature := if r.signature.Some? then r.signature else signature, updatedAt := now))
      else Ok(r)
    else
      Ok(r.(state := Delivered, digest := Some(h(payload)), sealed := Some(payload), signature := signature,
            dispatchedAt := None, updatedAt := now))
  }

  function PublishTx(h: Hasher, t: Tables, q: string, payload: string, signature: Option<string>, now: nat): Tables
    requires q in t.receipts
  {
    var row := PublishRow(h, t.receipts[q], payload, signature, now);
    if row.Ok? then t.(receipts := t.receipts[q := row.value]) else t
  }

  // ---------- deciding ----------

  datatype Decision = Accept | Dispute(complete: bool)

  function AcknowledgeRow(r: Receipt, d: Decision, now: nat): Result<Receipt, Error> {
    if Decided(r.state) then
      if (r.state == Accepted) == d.Accept? then Ok(r) else Err(AlreadyFinal)
    else if r.state != Dispatched && r.state != Delivered then Err(NotYetDispatched)
    else if d.Dispute? && !d.complete then Err(DisputeIncomplete)
    else if d.Accept? then Ok(r.(state := Accepted, acceptedAt := Some(now), disputedAt := None, updatedAt := now))
    else Ok(r.(state := Disputed, acceptedAt := None, disputedAt := Some(now), updatedAt := now))
  }

  // ---------- notifying ----------

  function DispatchBackoff(attempt: nat): nat { Min(30 * Pow2(if attempt == 0 then 0 else attempt - 1), 3600) }

  function DispatchedRow(r: Receipt, error: Option<string>, max: nat, now: nat): Receipt {
    var attempt := r.attempts + 1;
    r.(state := Delivered, attempts := attempt,
       nextAttemptAt := if error.None? || attempt >= max then None else Some(now + DispatchBackoff(attempt)),
       dispatchError := error, dispatchedAt := if error.None? then Some(now) else None, updatedAt := now)
  }

  datatype Dispatch = Sent | Idempotent | RetryWait

  /** What a dispatch comes to, before and after the network; `error` is the network's. */
  function DispatchCheck(h: Hasher, r: Receipt, channel: Channel, safe: bool, keypair: bool,
                         now: nat): Result<Dispatch, Error>
  {
    if r.channel != channel then Err(WrongChannel)
    else if r.dispatchedAt.Some? && r.dispatchError.None? then Ok(Idempotent)
    else if r.state != Delivered && r.state != PendingDispatch then Err(NotReady)
    else if r.nextAttemptAt.Some? && r.nextAttemptAt.value > now then Ok(RetryWait)
    else if r.sealed.None? || r.digest != Some(h(r.sealed.value)) then Err(PayloadUnavailable)
    else if !safe then Err(InvalidDestination)
    else if !keypair then Err(KeypairUnavailable)
    else if r.dispatchedAt.Some? then Err(DispatchConflict)
    else Ok(Sent)
  }

  function DispatchTx(h: Hasher, t: Tables, q: string, channel: Channel, safe: bool, keypair: bool,
                      error: Option<string>, max: nat, now: nat): Tables
    requires q in t.receipts
  {
    if DispatchCheck(h, t.receipts[q], channel, safe, keypair, now) == Ok(Sent)
    then t.(receipts := t.receipts[q := DispatchedRow(t.receipts[q], error, max, now)]) else t
  }

  /** One callback of the mail provider, its recipient trimmed and lower-case. */
  datatype Callback = Callback(recipient: string, event: MailEvent, at: int, messageId: Option<string>, failure: string)

  predicate Repeats(r: Receipt, c: Callback) {
    r.providerStatus == Some(c.event) && r.providerEventAt == Some(c.at) && r.providerMessageId == c.messageId
  }

  /** Ok(true) is a repeated event. */
  function CallbackCheck(r: Receipt, c: Callback): Result<bool, Error> {
    if r.channel != Email then Err(ReceiptNotFound)
    else if c.recipient == "" || c.recipient != r.destination then Err(RecipientMismatch)
    else if c.event.MailOther? then Err(UnsupportedMailEvent)
    else if c.at <= 0 then Err(EventTimeRequired)
    else Ok(Repeats(r, c))
  }

  /** A callback never decides a delivery. */
  function ProviderRow(r: Receipt, c: Callback): Receipt {
    if CallbackCheck(r, c) == Ok(false) then
      r.(state := if r.state == Dispatched then Delivered else r.state, providerStatus := Some(c.event),
         providerEventAt := Some(c.at),
         providerMessageId := c.messageId, dispatchError := if MailFailure(c.event) then Some(c.failure)
           else None, updatedAt := c.at)
    else r
  }

  // ---------- compensating ----------

  predicate EligibleDelivery(s: DeliveryQueue.DeliveryState) {
    s == DeliveryQueue.Exhausted || s == DeliveryQueue.Blocked
  }

  predicate BuyerDisputes(t: Tables, q: string) { q in t.receipts && t.receipts[q].state == Disputed }

  function RefundTerms(quote: Quote): Money {
    if quote.viaTreasury then quote.input else Money("IAT", IatToken, quote.output.amountMinor)
  }

  function RequestCheck(t: Tables, q: string): Option<Error> {
    if q !in t.quotes || q !in t.deliveries then Some(DeliveryNotFound)
    else if !t.quotes[q].confirmed then Some(PaymentNotConfirmed)
    else if !EligibleDelivery(t.deliveries[q]) && !BuyerDisputes(t, q) then Some(NotEligible)
    else if exists c :: c in t.compensations && t.compensations[c].orderId == t.quotes[q].orderId
      then Some(OrderAlreadyCompensated)
    else None
  }

  function NewCompensation(t: Tables, q: string): Compensation
    requires q in t.quotes && q in t.deliveries
  {
    var reason := if BuyerDisputes(t, q) then BuyerDisputed else if t.deliveries[q] == DeliveryQueue.Exhausted
      then AttemptsExhausted else DeliveryBlocked;
    Compensation(t.quotes[q].orderId, RefundTerms(t.quotes[q]), PendingReview, reason, None)
  }

  function RequestTx(t: Tables, q: string): Tables {
    if q in t.compensations || RequestCheck(t, q).Some? then t
    else t.(compensations := t.compensations[q := NewCompensation(t, q)])
  }

  function Verdict(approve: bool): CompensationState { if approve then Approved else Denied }

  function DecideTx(t: Tables, q: string, approve: bool, now: nat): Tables {
    if q in t.compensations && t.compensations[q].state == PendingReview
    then t.(compensations := t.compensations[q :=
      t.compensations[q].(state := Verdict(approve), decidedAt := Some(now))])
    else t
  }

  // ---------- the release gate ----------

  datatype GateReason = LegacyOrder | BuyerAccepted | DisputeOpen | ProviderPending | BuyerPending
    | DispatchFailure | DispatchPending
    | ServiceNotReady | NotAccepted

  datatype Gate = Gate(allowed: bool, reason: GateReason)

  /** Release of an order's settlement, decided by the state of its receipt. */
  function ReleaseGate(receipt: Option<Receipt>): (g: Gate)
    ensures g.allowed <==> receipt.Some? ==> receipt.value.state == Accepted
  {
    match receipt
    case None => Gate(true, LegacyOrder)
    case Some(r) =>
      match r.state
      case Accepted => Gate(true, BuyerAccepted)
      case Disputed => Gate(false, DisputeOpen)
      case Dispatched => Gate(false, ProviderPending)
      case Delivered => Gate(false, BuyerPending)
      case DispatchFailed => Gate(false, DispatchFailure)
      case PendingDispatch => Gate(false, DispatchPending)
      case Configured => Gate(false, ServiceNotReady)
      case PayloadReady => Gate(false, NotAccepted)
  }

  /** What the gate says of an order. */
  ghost predicate Released(t: Tables, orderId: string) {
    forall q :: q in t.receipts && t.receipts[q].orderId == orderId ==> t.receipts[q].state == Accepted
  }

  // ---------- the store ----------

  class CheckoutStore {
    var quotes: map<string, Quote>
    var deliveries: map<string, DeliveryQueue.DeliveryState>
    var receipts: map<string, Receipt>
    var compensations: map<string, Compensation>
    const h: Hasher

    constructor (h: Hasher, quotes: map<string, Quote>)
      ensures this.h == h && T() == Tables(quotes, map[], map[], map[])
    {
      this.h, this.quotes := h, quotes;
      deliveries, receipts, compensations := map[], map[], map[];
    }

    function T(): Tables
      reads this
    {
      Tables(quotes, deliveries, receipts, compensations)
    }

    method ConfigureDeliveryReceipt(q: string, orderId: string, channel: Channel, destination: string, clean: bool,
                                    now: nat)
      returns (r: Result<(), Error>, ghost other: Option<string>)
      requires UniqueOrders(receipts)
      modifies this`receipts
      ensures UniqueOrders(receipts)
      ensures other.Some? ==> other.value in old(receipts) && old(receipts)[other.value].orderId == orderId
      ensures other.None? ==> q in old(receipts) || !OrderBound(old(T()), orderId)
      ensures !clean ==> r == Err(InvalidDestination) && T() == old(T())
      ensures clean ==>
        var after := ConfigureTx(old(T()), q, orderId, channel, destination, other, now);
        if after.Ok? then r == Ok(()) && T() == after.value else r == Err(after.error) && T() == old(T())
    {
      other := None;
      if q !in receipts && OrderBound(T(), orderId) {
        ghost var bound :| bound in receipts && receipts[bound].orderId == orderId;
        other := Some(bound);
      }
      if !clean {
        return Err(InvalidDestination), other;
      }
      if q in receipts {
        var current := receipts[q];
        if current.state != Configured && current.state != PayloadReady {
          return Err(DestinationLocked), other;
        }
        receipts := receipts[q := current.(channel := channel, destination := destination, updatedAt := now)];
        return Ok(()), other;
      }
      if exists o :: o in receipts && receipts[o].orderId == orderId {
        var bound :| bound in receipts && receipts[bound].orderId == orderId;
        assert bound == other.value;
        var current := receipts[bound];
        if current.state != Configured || current.digest.Some? {
          return Err(OrderAlreadyBound), other;
        }
        receipts := (receipts - {bound})[q :=
          current.(channel := channel, destination := destination, updatedAt := now)];
        return Ok(()), other;
      }
      receipts := receipts[q := NewReceipt(orderId, channel, destination, now)];
      r := Ok(());
    }

    /** A quote without a receipt is given one for pulling through the API first. */
    method PublishDeliveryPayload(q: string, orderId: string, payload: string, size: nat, key: SigningKey, now: nat)
      returns (r: Result<(), Error>, ghost other: Option<string>)
      requires UniqueOrders(receipts)
      modifies this`receipts
      ensures other.Some? ==> other.value in old(receipts) && old(receipts)[other.value].orderId == orderId
      ensures other.None? ==> q in old(receipts) || !OrderBound(old(T()), orderId)
      ensures
        var bound := if q in old(receipts) then Ok(old(T()))
          else ConfigureTx(old(T()), q, orderId, ApiPull, "", other, now);
        if bound.Err? then r == Err(bound.error) && T() == old(T())
        else if size > 250000 then r == Err(PayloadTooLarge) && T() == bound.value
        else if key == UnreadableKey then r == Err(KeypairUnavailable) && T() == bound.value
        else
          && T() == PublishTx(h, bound.value, q, payload, SignatureOf(key), now)
          && r == var d := bound.value.receipts[q].digest; if d.Some? && d.value != h(payload)
            then Err(DigestConflict) else Ok(())
    {
      other := None;
      if q !in receipts {
        r, other := ConfigureDeliveryReceipt(q, orderId, ApiPull, "", true, now);
        if r.Err? {
          return;
        }
      }
      if size > 250000 {
        return Err(PayloadTooLarge), other;
      }
      if key == UnreadableKey {
        return Err(KeypairUnavailable), other;
      }
      var signature := SignatureOf(key);
      var receipt := receipts[q];
      var digest := h(payload);
      if receipt.digest.Some? {
        if receipt.digest.value != digest {
          return Err(DigestConflict), other;
        }
        if receipt.sealed.None? || (signature.Some? && receipt.signature.None?) {
          var sealed := if receipt.sealed.Some? then receipt.sealed else Some(payload);
          var signed := if receipt.signature.Some? then receipt.signature else signature;
          receipts := receipts[q := receipt.(sealed := sealed, state := Delivered, signature := signed,
                                             updatedAt := now)];
        }
        return Ok(()), other;
      }
      receipts := receipts[q := receipt.(state := Delivered, digest := Some(digest), sealed := Some(payload),
                                         signature := signature, dispatchedAt := None, updatedAt := now)];
      r := Ok(());
    }

    /** A dispute also asks for compensation, whose refusal it swallows. */
    method AcknowledgeDelivery(q: string, d: Decision, now: nat) returns (r: Result<bool, Error>)
      modifies this`receipts, this`compensations
      ensures q !in old(receipts) ==> r == Err(ReceiptNotFound) && T() == old(T())
      ensures q in old(receipts) ==>
        var row := AcknowledgeRow(old(receipts)[q], d, now);
        if row.Err? then r == Err(row.error) && T() == old(T())
        else if Decided(old(receipts)[q].state) then r == Ok(true) && T() == old(T())
        else
          && r == Ok(false)
          && T() == (var decided := old(T()).(receipts := old(receipts)[q := row.value]); if d.Dispute?
            then RequestTx(decided, q) else decided)
    {
      if q !in receipts {
        return Err(ReceiptNotFound);
      }
      var receipt := receipts[q];
      if receipt.state == Accepted || receipt.state == Disputed {
        if (receipt.state == Accepted && d.Accept?) || (receipt.state == Disputed && d.Dispute?) {
          return Ok(true);
        }
        return Err(AlreadyFinal);
      }
      if receipt.state != Dispatched && receipt.state != Delivered {
        return Err(NotYetDispatched);
      }
      if d.Dispute? && !d.complete {
        return Err(DisputeIncomplete);
      }
      receipts := receipts[q := receipt.(state := if d.Accept? then Accepted else Disputed,
                                         acceptedAt := if d.Accept? then Some(now) else None,
                                         disputedAt := if d.Accept? then None else Some(now), updatedAt := now)];
      if d.Dispute? {
        var _ := RequestCompensation(q);
      }
      r := Ok(false);
    }

    /** One notification by webhook or e-mail, with the network's answer as `error`. */
    method DispatchNotification(q: string, channel: Channel, safe: bool, keypair: bool, error: Option<string>, max: nat,
                                now: nat)
      returns (r: Result<Dispatch, Error>)
      modifies this`receipts
      ensures q !in old(receipts) ==> r == Err(ReceiptNotFound) && T() == old(T())
      ensures q in old(receipts) ==>
        && r == DispatchCheck(h, old(receipts)[q], channel, safe, keypair, now)
        && T() == DispatchTx(h, old(T()), q, channel, safe, keypair, error, max, now)
    {
      if q !in receipts {
        return Err(ReceiptNotFound);
      }
      var receipt := receipts[q];
      r := DispatchCheck(h, receipt, channel, safe, keypair, now);
      if r == Ok(Sent) {
        var attempt := receipt.attempts + 1;
        var failed := error.Some? && attempt >= max;
        var next := if error.None? || failed then None else Some(now + DispatchBackoff(attempt));
        receipts := receipts[q := receipt.(state := Delivered, attempts := attempt, nextAttemptAt := next,
                                           dispatchError := error,
                                           dispatchedAt := if error.None? then Some(now) else None, updatedAt := now)];
      }
    }

    /** Recipient, event and time are checked in this order; a repeated event changes nothing. */
    method RecordEmailProviderEvent(q: string, c: Callback) returns (r: Result<bool, Error>)
      modifies this`receipts
      ensures r == if q in old(receipts) then CallbackCheck(old(receipts)[q], c) else Err(ReceiptNotFound)
      ensures r == Ok(false) ==> T() == old(T()).(receipts := old(receipts)[q := ProviderRow(old(receipts)[q], c)])
      ensures r != Ok(false) ==> T() == old(T())
    {
      if q !in receipts || receipts[q].channel != Email {
        return Err(ReceiptNotFound);
      }
      var receipt := receipts[q];
      if c.recipient == "" || c.recipient != receipt.destination {
        return Err(RecipientMismatch);
      }
      if c.event.MailOther? {
        return Err(UnsupportedMailEvent);
      }
      if c.at <= 0 {
        return Err(EventTimeRequired);
      }
      if receipt.providerStatus == Some(c.event) && receipt.providerEventAt == Some(c.at)
        && receipt.providerMessageId == c.messageId {
        return Ok(true);
      }
      var state := receipt.state;
      if state == Dispatched {
        state := Delivered;
      }
      var error := if MailFailure(c.event) then Some(c.failure) else None;
      receipts := receipts[q := receipt.(state := state, providerStatus := Some(c.event), providerEventAt := Some(c.at),
                                         providerMessageId := c.messageId, dispatchError := error, updatedAt := c.at)];
      r := Ok(false);
    }

    method RequestCompensation(q: string) returns (r: Result<bool, Error>)
      modifies this`compensations
      ensures T() == RequestTx(old(T()), q)
      ensures r == if q in old(compensations) then Ok(true)
                   else if RequestCheck(old(T()), q).Some? then Err(RequestCheck(old(T()), q).value) else Ok(false)
    {
      if q in compensations {
        return Ok(true);
      }
      var refused := RequestCheck(T(), q);
      if refused.Some? {
        return Err(refused.value);
      }
      compensations := compensations[q := NewCompensation(T(), q)];
      r := Ok(false);
    }

    method DecideCompensation(q: string, approve: bool, reasonLength: nat, now: nat) returns (r: Result<bool, Error>)
      modifies this`compensations
      ensures !(8 <= reasonLength <= 500) ==> r == Err(DecisionReasonInvalid) && T() == old(T())
      ensures 8 <= reasonLength <= 500 ==> T() == DecideTx(old(T()), q, approve, now)
      ensures 8 <= reasonLength <= 500 ==>
        r == if q !in old(compensations) then Err(CompensationNotFound)
             else if old(compensations)[q].state == Verdict(approve) then Ok(true)
             else if old(compensations)[q].state != PendingReview then Err(DecisionNotAllowed) else Ok(false)
    {
      if !(8 <= reasonLength <= 500) {
        return Err(DecisionReasonInvalid);
      }
      if q !in compensations {
        return Err(CompensationNotFound);
      }
      var target := if approve then Approved else Denied;
      if compensations[q].state == target {
        return Ok(true);
      }
      if compensations[q].state != PendingReview {
        return Err(DecisionNotAllowed);
      }
      compensations := compensations[q := compensations[q].(state := target, decidedAt := Some(now))];
      r := Ok(false);
    }

    method SettlementReleaseGate(orderId: string) returns (g: Gate)
      requires UniqueOrders(receipts)
      ensures g.allowed <==> Released(T(), orderId)
    {
      if exists q :: q in receipts && receipts[q].orderId == orderId {
        var q :| q in receipts && receipts[q].orderId == orderId;
        g := ReleaseGate(Some(receipts[q]));
      } else {
        g := ReleaseGate(None);
      }
    }
  }
}
