/** Whole runs of deliveries, receipts and compensations: a quote goes to release or to refund, not both. */
module ReceiptRuns {
  import opened Wrappers
  import D = DeliveryQueue
  import opened ReceiptCompensation

  /** `signing` says whether a signing key is configured. */
  datatype System = System(t: Tables, signing: bool)

  datatype Step =
    | Enqueue(q: string)
    | Deliver(q: string, state: D.DeliveryState)
    | Redrive(q: string)
    | Configure(q: string, channel: Channel, destination: string, other: Option<string>, now: nat)
    | Publish(q: string, payload: string, key: string, now: nat)
    | Acknowledge(q: string, decision: Decision, now: nat)
    | Request(q: string)
    | Decide(q: string, approve: bool, now: nat)
    | Notify(q: string, channel: Channel, safe: bool, error: Option<string>, max: nat, now: nat)
    | ProviderEvent(q: string, callback: Callback)
    | SetSigning(on: bool)

  /** A worker can still move the delivery. */
  predicate InProgress(s: D.DeliveryState) {
    s == D.Pending || s == D.RetryableFailure || s == D.Running || s == D.ReviewRequired
  }

  /** What the lookup by order finds. */
  predicate FoundByOrder(t: Tables, orderId: string, other: Option<string>) {
    if other.Some? then other.value in t.receipts && t.receipts[other.value].orderId == orderId
      else !OrderBound(t, orderId)
  }

  /** Callers name the order of the quote. */
  function ConfigureStep(t: Tables, q: string, channel: Channel, destination: string, other: Option<string>,
                         now: nat): Tables
  {
    if q !in t.quotes || !(q in t.receipts || FoundByOrder(t, t.quotes[q].orderId, other)) then t
    else
      var bound := if q in t.receipts then None else other;
      var r := ConfigureTx(t, q, t.quotes[q].orderId, channel, destination, bound, now);
      if r.Ok? then r.value else t
  }

  /** One delivery per order: a second row for the order is ignored. */
  function EnqueueStep(t: Tables, q: string): Tables {
    if q in t.deliveries || q !in t.quotes then t
    else if exists d :: d in t.deliveries && d in t.quotes && t.quotes[d].orderId == t.quotes[q].orderId then t
    else t.(deliveries := t.deliveries[q := D.Pending])
  }

  /** A delivery is enqueued, pending, exactly for a known quote that has none and whose order has none. */
  lemma EnqueuesExactly(t: Tables, q: string)
    ensures var after := EnqueueStep(t, q);
      if q in t.quotes && q !in t.deliveries
         && forall d :: d in t.deliveries && d in t.quotes ==> t.quotes[d].orderId != t.quotes[q].orderId
      then after == t.(deliveries := t.deliveries[q := D.Pending]) else after == t
  {
  }

  /** A caller reaches its own receipt, and otherwise the one that the lookup by order finds, or none. */
  lemma ConfigureReaches(t: Tables, q: string, channel: Channel, destination: string, other: Option<string>, now: nat)
    requires q in t.quotes
    ensures var after := ConfigureStep(t, q, channel, destination, other, now);
      && (q in t.receipts && t.receipts[q].state == Configured ==>
            q in after.receipts && after.receipts[q].destination == destination && after.receipts[q].channel == channel)
      && (q !in t.receipts && !OrderBound(t, t.quotes[q].orderId) && other.None? ==>
            q in after.receipts && after.receipts[q].destination == destination)
      && (q !in t.receipts && (other.None? <==> OrderBound(t, t.quotes[q].orderId))
          && (other.Some? ==> other.value !in t.receipts || t.receipts[other.value].orderId != t.quotes[q].orderId) ==>
            after == t)
  {
  }

  function AcknowledgeStep(t: Tables, q: string, decision: Decision, now: nat): Tables {
    if q !in t.receipts then t
    else
      var row := AcknowledgeRow(t.receipts[q], decision, now);
      if row.Err? || Decided(t.receipts[q].state) then t
      else
        var decided := t.(receipts := t.receipts[q := row.value]);
        if decision.Dispute? then RequestTx(decided, q) else decided
  }

  /** A decision stands in the receipt, and a dispute asks for the compensation that is due: it is there afterwards
      exactly if it was, or if the quote is paid and delivered to an order that has none. */
  lemma DecisionsTakeEffect(t: Tables, q: string, now: nat)
    requires q in t.receipts && (t.receipts[q].state == Dispatched || t.receipts[q].state == Delivered)
    ensures var after := AcknowledgeStep(t, q, Dispute(true), now);
      && q in after.receipts && after.receipts[q].state == Disputed
      && (q !in t.compensations ==>
            (q in after.compensations <==>
               && q in t.quotes && q in t.deliveries && t.quotes[q].confirmed
               && forall c :: c in t.compensations ==> t.compensations[c].orderId != t.quotes[q].orderId))
      && (q in t.compensations ==> after.compensations == t.compensations)
      && (forall o :: o in after.compensations && o != q ==> o in t.compensations)
    ensures var after := AcknowledgeStep(t, q, Accept, now);
      q in after.receipts && after.receipts[q].state == Accepted && after.compensations == t.compensations
  {
  }

  function Signature(s: System, key: string): Option<string> { if s.signing then Some(key) else None }

  function Next(h: Hasher, s: System, step: Step): System {
    match step
    case Enqueue(q) => s.(t := EnqueueStep(s.t, q))
    case Deliver(q, state) =>
      if q in s.t.deliveries && InProgress(s.t.deliveries[q])
        then s.(t := s.t.(deliveries := s.t.deliveries[q := state])) else s
    case Redrive(q) =>
      if q in s.t.deliveries && s.t.deliveries[q] == D.Exhausted
        then s.(t := s.t.(deliveries := s.t.deliveries[q := D.Pending])) else s
    case Configure(q, channel, destination, other, now) =>
      s.(t := ConfigureStep(s.t, q, channel, destination, other, now))
    case Publish(q, payload, key, now) =>
      if q in s.t.receipts then s.(t := PublishTx(h, s.t, q, payload, Signature(s, key), now)) else s
    case Acknowledge(q, decision, now) => s.(t := AcknowledgeStep(s.t, q, decision, now))
    case Request(q) => s.(t := RequestTx(s.t, q))
    case Decide(q, approve, now) => s.(t := DecideTx(s.t, q, approve, now))
    case Notify(q, channel, safe, error, max, now) =>
      if q in s.t.receipts then s.(t := DispatchTx(h, s.t, q, channel, safe, s.signing, error, max, now)) else s
    case ProviderEvent(q, c) =>
      if q in s.t.receipts then s.(t := s.t.(receipts := s.t.receipts[q := ProviderRow(s.t.receipts[q], c)])) else s
    case SetSigning(on) => s.(signing := on)
  }

  function Run(h: Hasher, s: System, steps: seq<Step>): System {
    if steps == [] then s else Next(h, Run(h, s, steps[..|steps| - 1]), steps[|steps| - 1])
  }

  // ---------- discipline ----------

  /** No exhausted delivery with a compensation is redriven, the signing configuration is constant, and a
      payload is published only for a completed delivery. */
  predicate Guarded(s: System, step: Step) {
    match step
    case Redrive(q) => q !in s.t.compensations
    case SetSigning(on) => on == s.signing
    case Publish(q, _, _, _) => q in s.t.deliveries && s.t.deliveries[q] == D.Completed
    case _ => true
  }

  predicate Disciplined(h: Hasher, s: System, steps: seq<Step>) {
    steps == [] ||
      (Disciplined(h, s, steps[..|steps| - 1]) && Guarded(Run(h, s, steps[..|steps| - 1]), steps[|steps| - 1]))
  }

  // ---------- the invariant ----------

  /** A receipt that left `configured` carries a sealed payload, its digest, and a signature when one is configured. */
  predicate SealValid(h: Hasher, r: Receipt, signing: bool) {
    && (r.digest.Some? <==> r.sealed.Some?)
    && (r.digest.Some? ==> r.digest.value == h(r.sealed.value) && (signing ==> r.signature.Some?))
    && (r.state in {Dispatched, Delivered, PendingDispatch, Accepted, Disputed} ==> r.digest.Some?)
  }

  predicate ReceiptAt(h: Hasher, s: System, q: string)
    requires q in s.t.receipts
  {
    && SealValid(h, s.t.receipts[q], s.signing)
    && (s.t.receipts[q].digest.Some? ==> q in s.t.deliveries && s.t.deliveries[q] == D.Completed)
  }

  /** A compensation rests on a delivery that failed for good, or on a dispute. */
  predicate CompensationAt(t: Tables, q: string) {
    (q in t.deliveries && EligibleDelivery(t.deliveries[q])) || BuyerDisputes(t, q)
  }

  ghost predicate Valid(h: Hasher, s: System) {
    && (forall q {:trigger ReceiptAt(h, s, q)} :: q in s.t.receipts ==> ReceiptAt(h, s, q))
    && (forall q {:trigger CompensationAt(s.t, q)} :: q in s.t.compensations ==> CompensationAt(s.t, q))
  }

  /** Only the entries of one quote changed. */
  ghost predicate OnlyAt(t: Tables, after: Tables, q: string) {
    forall o :: o != q ==>
      && (o in after.receipts ==> o in t.receipts && after.receipts[o] == t.receipts[o])
      && (o in after.compensations <==> o in t.compensations)
      && (o in after.deliveries <==> o in t.deliveries)
      && (o in t.deliveries ==> after.deliveries[o] == t.deliveries[o])
      && (o in t.receipts && t.receipts[o].state == Disputed ==> o in after.receipts)
  }

  /** So only its entries have to be looked at again. */
  lemma CheckOneQuote(h: Hasher, s: System, after: System, q: string)
    requires Valid(h, s) && after.signing == s.signing && OnlyAt(s.t, after.t, q)
    requires q in after.t.receipts ==> ReceiptAt(h, after, q)
    requires q in after.t.compensations ==> CompensationAt(after.t, q)
    ensures Valid(h, after)
  {
    forall o | o in after.t.receipts ensures ReceiptAt(h, after, o) {
      if o != q {
        assert ReceiptAt(h, s, o);
      }
    }
    forall o | o in after.t.compensations ensures CompensationAt(after.t, o) {
      if o != q {
        assert CompensationAt(s.t, o);
      }
    }
  }

  lemma PublishKeepsValid(h: Hasher, s: System, q: string, payload: string, key: string, now: nat)
    requires Valid(h, s) && q in s.t.receipts && q in s.t.deliveries && s.t.deliveries[q] == D.Completed
    ensures Valid(h, s.(t := PublishTx(h, s.t, q, payload, Signature(s, key), now)))
  {
    assert ReceiptAt(h, s, q);
    assert q in s.t.compensations ==> CompensationAt(s.t, q);
    CheckOneQuote(h, s, s.(t := PublishTx(h, s.t, q, payload, Signature(s, key), now)), q);
  }

  lemma RequestKeepsValid(h: Hasher, s: System, q: string)
    requires Valid(h, s)
    ensures Valid(h, s.(t := RequestTx(s.t, q)))
  {
    assert q in s.t.receipts ==> ReceiptAt(h, s, q);
    assert q in s.t.compensations ==> CompensationAt(s.t, q);
    CheckOneQuote(h, s, s.(t := RequestTx(s.t, q)), q);
  }

  lemma AcknowledgeKeepsValid(h: Hasher, s: System, q: string, decision: Decision, now: nat)
    requires Valid(h, s)
    ensures Valid(h, s.(t := AcknowledgeStep(s.t, q, decision, now)))
  {
    if q in s.t.receipts {
      var row := AcknowledgeRow(s.t.receipts[q], decision, now);
      if row.Ok? && !Decided(s.t.receipts[q].state) {
        var decided := s.(t := s.t.(receipts := s.t.receipts[q := row.value]));
        assert ReceiptAt(h, s, q);
        assert q in s.t.compensations ==> CompensationAt(s.t, q);
        CheckOneQuote(h, s, decided, q);
        RequestKeepsValid(h, decided, q);
      }
    }
  }

  /** A change of one receipt that keeps its seal and never undoes a dispute. */
  lemma RowKeepsValid(h: Hasher, s: System, q: string, r: Receipt)
    requires Valid(h, s) && q in s.t.receipts
    requires r.digest == s.t.receipts[q].digest && r.sealed == s.t.receipts[q].sealed
    requires r.signature == s.t.receipts[q].signature
    requires r.state == s.t.receipts[q].state
      || (r.state == Delivered && s.t.receipts[q].state in {Dispatched, Delivered, PendingDispatch})
    ensures Valid(h, s.(t := s.t.(receipts := s.t.receipts[q := r])))
  {
    assert ReceiptAt(h, s, q);
    assert q in s.t.compensations ==> CompensationAt(s.t, q);
    CheckOneQuote(h, s, s.(t := s.t.(receipts := s.t.receipts[q := r])), q);
  }

  /** A receipt that is new to the quote, while another quote may lose one that nobody decided. */
  lemma BindKeepsValid(h: Hasher, s: System, q: string, r: Receipt, receipts: map<string, Receipt>)
    requires Valid(h, s) && q !in s.t.receipts
    requires forall o :: o in receipts ==> o in s.t.receipts && receipts[o] == s.t.receipts[o]
    requires forall o :: o in s.t.receipts && s.t.receipts[o].state == Disputed ==> o in receipts
    requires r.state == Configured && r.digest.None? && r.sealed.None?
    ensures Valid(h, s.(t := s.t.(receipts := receipts[q := r])))
  {
    var after := s.(t := s.t.(receipts := receipts[q := r]));
    forall o | o in after.t.receipts ensures ReceiptAt(h, after, o) {
      if o != q {
        assert ReceiptAt(h, s, o);
      }
    }
    forall o | o in after.t.compensations ensures CompensationAt(after.t, o) {
      assert CompensationAt(s.t, o);
    }
  }

  lemma ConfigureKeepsValid(h: Hasher, s: System, q: string, channel: Channel, destination: string,
                            other: Option<string>, now: nat)
    requires Valid(h, s)
    ensures Valid(h, s.(t := ConfigureStep(s.t, q, channel, destination, other, now)))
  {
    var receipts := s.t.receipts;
    if q !in s.t.quotes || !(q in receipts || FoundByOrder(s.t, s.t.quotes[q].orderId, other)) {
    } else if q in receipts {
      if receipts[q].state == Configured || receipts[q].state == PayloadReady {
        RowKeepsValid(h, s, q, ConfigureRow(receipts[q], channel, destination, now));
      }
    } else if other.Some? {
      var r := receipts[other.value];
      if r.state == Configured && r.digest.None? {
        assert ReceiptAt(h, s, other.value);
        BindKeepsValid(h, s, q, ConfigureRow(r, channel, destination, now), receipts - {other.value});
      }
    } else {
      BindKeepsValid(h, s, q, NewReceipt(s.t.quotes[q].orderId, channel, destination, now), receipts);
    }
  }

  lemma DeliveryKeepsValid(h: Hasher, s: System, q: string, state: D.DeliveryState)
    requires Valid(h, s)
    requires q in s.t.receipts ==> s.t.receipts[q].digest.None?
    requires q !in s.t.compensations
    ensures Valid(h, s.(t := s.t.(deliveries := s.t.deliveries[q := state])))
  {
    assert q in s.t.receipts ==> ReceiptAt(h, s, q);
    CheckOneQuote(h, s, s.(t := s.t.(deliveries := s.t.deliveries[q := state])), q);
  }

  lemma DecideKeepsValid(h: Hasher, s: System, q: string, approve: bool, now: nat)
    requires Valid(h, s)
    ensures Valid(h, Next(h, s, Decide(q, approve, now)))
  {
    assert q in s.t.receipts ==> ReceiptAt(h, s, q);
    assert q in s.t.compensations ==> CompensationAt(s.t, q);
    CheckOneQuote(h, s, Next(h, s, Decide(q, approve, now)), q);
  }

  lemma NotifyKeepsValid(h: Hasher, s: System, q: string, channel: Channel, safe: bool, error: Option<string>, max: nat,
                         now: nat)
    requires Valid(h, s)
    ensures Valid(h, Next(h, s, Notify(q, channel, safe, error, max, now)))
  {
    if q in s.t.receipts && DispatchCheck(h, s.t.receipts[q], channel, safe, s.signing, now) == Ok(Sent) {
      assert ReceiptAt(h, s, q);
      RowKeepsValid(h, s, q, DispatchedRow(s.t.receipts[q], error, max, now));
    }
  }

  lemma CallbackKeepsValid(h: Hasher, s: System, q: string, c: Callback)
    requires Valid(h, s)
    ensures Valid(h, Next(h, s, ProviderEvent(q, c)))
  {
    if q in s.t.receipts {
      assert ReceiptAt(h, s, q);
      RowKeepsValid(h, s, q, ProviderRow(s.t.receipts[q], c));
    }
  }

  lemma DeliveryStepKeepsValid(h: Hasher, s: System, step: Step)
    requires Valid(h, s) && Guarded(s, step) && (step.Enqueue? || step.Deliver? || step.Redrive?)
    ensures Valid(h, Next(h, s, step))
  {
    var q := step.q;
    assert q in s.t.receipts ==> ReceiptAt(h, s, q);
    assert q in s.t.compensations ==> CompensationAt(s.t, q);
    match step
    case Enqueue(q) => if EnqueueStep(s.t, q) != s.t { DeliveryKeepsValid(h, s, q, D.Pending); }
    case Deliver(q, state) =>
      if q in s.t.deliveries && InProgress(s.t.deliveries[q]) { DeliveryKeepsValid(h, s, q, state); }
    case Redrive(q) =>
      if q in s.t.deliveries && s.t.deliveries[q] == D.Exhausted { DeliveryKeepsValid(h, s, q, D.Pending); }
  }

  lemma NextKeepsValid(h: Hasher, s: System, step: Step)
    requires Valid(h, s) && Guarded(s, step)
    ensures Valid(h, Next(h, s, step))
  {
    match step
    case Enqueue(_) => DeliveryStepKeepsValid(h, s, step);
    case Deliver(_, _) => DeliveryStepKeepsValid(h, s, step);
    case Redrive(_) => DeliveryStepKeepsValid(h, s, step);
    case Configure(q, channel, destination, other, now) =>
      ConfigureKeepsValid(h, s, q, channel, destination, other, now);
    case Publish(q, payload, key, now) => if q in s.t.receipts { PublishKeepsValid(h, s, q, payload, key, now); }
    case Acknowledge(q, decision, now) => AcknowledgeKeepsValid(h, s, q, decision, now);
    case Request(q) => RequestKeepsValid(h, s, q);
    case Decide(q, approve, now) => DecideKeepsValid(h, s, q, approve, now);
    case Notify(q, channel, safe, error, max, now) => NotifyKeepsValid(h, s, q, channel, safe, error, max, now);
    case ProviderEvent(q, c) => CallbackKeepsValid(h, s, q, c);
    case SetSigning(on) =>
  }

  function Start(quotes: map<string, Quote>, signing: bool): System {
    System(Tables(quotes, map[], map[], map[]), signing)
  }

  lemma {:induction false} DisciplinedKeepsValid(h: Hasher, s: System, steps: seq<Step>)
    requires Valid(h, s) && Disciplined(h, s, steps)
    ensures Valid(h, Run(h, s, steps))
  {
    if steps != [] {
      DisciplinedKeepsValid(h, s, steps[..|steps| - 1]);
      NextKeepsValid(h, Run(h, s, steps[..|steps| - 1]), steps[|steps| - 1]);
    }
  }

  /** On every disciplined run an accepted receipt and a compensation never meet, an accepted receipt carries
      the digest of its sealed payload, and its delivery completed. */
  lemma ReleaseOrRefund(h: Hasher, quotes: map<string, Quote>, signing: bool, steps: seq<Step>, q: string)
    requires Disciplined(h, Start(quotes, signing), steps)
    ensures var t := Run(h, Start(quotes, signing), steps).t;
      q in t.receipts && t.receipts[q].state == Accepted ==>
        && q !in t.compensations
        && t.receipts[q].sealed.Some? && t.receipts[q].digest == Some(h(t.receipts[q].sealed.value))
        && q in t.deliveries && t.deliveries[q] == D.Completed
  {
    DisciplinedKeepsValid(h, Start(quotes, signing), steps);
    var s := Run(h, Start(quotes, signing), steps);
    assert q in s.t.receipts ==> ReceiptAt(h, s, q);
    assert q in s.t.compensations ==> CompensationAt(s.t, q);
  }

  predicate Follows(c: Compensation, after: Compensation) {
    && after.orderId == c.orderId && after.refund == c.refund && after.reason == c.reason
    && (c.state != PendingReview ==> after == c)
  }

  lemma NextFollows(h: Hasher, s: System, step: Step, q: string)
    requires q in s.t.compensations
    ensures q in Next(h, s, step).t.compensations
    ensures Follows(s.t.compensations[q], Next(h, s, step).t.compensations[q])
  {
    match step
    case Request(_) =>
    case Decide(_, _, _) =>
    case Acknowledge(_, _, _) =>
    case _ => assert Next(h, s, step).t.compensations == s.t.compensations;
  }

  /** Whatever the discipline, a compensation keeps its terms and its reason, and a decision on it is final. */
  lemma {:induction false} CompensationIsFinal(h: Hasher, s: System, steps: seq<Step>, q: string)
    requires q in s.t.compensations
    ensures q in Run(h, s, steps).t.compensations
    ensures Follows(s.t.compensations[q], Run(h, s, steps).t.compensations[q])
  {
    if steps != [] {
      CompensationIsFinal(h, s, steps[..|steps| - 1], q);
      NextFollows(h, Run(h, s, steps[..|steps| - 1]), steps[|steps| - 1], q);
    }
  }

  // ---------- each guard is needed ----------

  /** Redriving an exhausted delivery is safe exactly while it has no compensation. */
  lemma RedriveIsSafeExactly(h: Hasher, s: System, q: string)
    requires Valid(h, s) && q in s.t.deliveries && s.t.deliveries[q] == D.Exhausted
    ensures Valid(h, Next(h, s, Redrive(q))) <==> q !in s.t.compensations
  {
    assert q in s.t.receipts ==> ReceiptAt(h, s, q);
    if q in s.t.compensations {
      assert !CompensationAt(Next(h, s, Redrive(q)).t, q);
    } else {
      NextKeepsValid(h, s, Redrive(q));
    }
  }

  predicate Both(t: Tables, q: string) { q in t.receipts && t.receipts[q].state == Accepted && q in t.compensations }

  /** Otherwise the delivery completes, is published and accepted beside its compensation. */
  lemma RedriveLeadsToBoth(h: Hasher, s: System, q: string, payload: string, key: string, now: nat)
    requires Valid(h, s) && q in s.t.deliveries && s.t.deliveries[q] == D.Exhausted
    requires q in s.t.receipts && q in s.t.compensations
    ensures var completed := Next(h, Next(h, s, Redrive(q)), Deliver(q, D.Completed));
      var published := Next(h, completed, Publish(q, payload, key, now));
      Guarded(completed, Publish(q, payload, key, now)) && Both(Next(h, published, Acknowledge(q, Accept, now)).t, q)
  {
    assert ReceiptAt(h, s, q);
  }

  /** Publishing keeps the promise exactly for a completed delivery; the worker publishes without asking. */
  lemma PublishIsSafeExactly(h: Hasher, s: System, q: string, payload: string, key: string, now: nat)
    requires Valid(h, s) && q in s.t.receipts
    ensures Valid(h, Next(h, s, Publish(q, payload, key, now)))
      <==> q in s.t.deliveries && s.t.deliveries[q] == D.Completed
  {
    var after := Next(h, s, Publish(q, payload, key, now));
    assert ReceiptAt(h, s, q);
    if q in s.t.deliveries && s.t.deliveries[q] == D.Completed {
      PublishKeepsValid(h, s, q, payload, key, now);
    } else {
      assert !ReceiptAt(h, after, q);
    }
  }

  /** A worker whose finish was refused still publishes: with no delivery to complete, the buyer can accept
      what was already compensated. */
  lemma UnfinishedPublishLeadsToBoth(h: Hasher, s: System, q: string, payload: string, key: string, now: nat)
    requires Valid(h, s) && q in s.t.deliveries && EligibleDelivery(s.t.deliveries[q])
    requires q in s.t.receipts && q in s.t.compensations
    ensures Both(Next(h, Next(h, s, Publish(q, payload, key, now)), Acknowledge(q, Accept, now)).t, q)
  {
    assert ReceiptAt(h, s, q);
  }

  /** Publishing again reopens a decided receipt exactly when a signing key was configured since. */
  lemma RepublishReopensExactly(h: Hasher, s: System, on: bool, q: string, key: string, now: nat)
    requires Valid(h, s) && q in s.t.receipts && Decided(s.t.receipts[q].state)
    ensures var r := s.t.receipts[q];
      r.sealed.Some?
      && (Next(h, s.(signing := on), Publish(q, r.sealed.value, key, now)).t.receipts[q].state != r.state
        <==> on && r.signature.None?)
  {
    assert ReceiptAt(h, s, q);
  }

  /** So a disputed and compensated delivery can then be accepted. */
  lemma SigningChangeLeadsToBoth(h: Hasher, s: System, q: string, key: string, now: nat)
    requires Valid(h, s) && q in s.t.receipts && s.t.receipts[q].state == Disputed && s.t.receipts[q].signature.None?
    requires q in s.t.compensations && s.t.receipts[q].sealed.Some?
    ensures var reopened := Next(h, Next(h, s, SetSigning(true)), Publish(q, s.t.receipts[q].sealed.value, key, now));
      Both(Next(h, reopened, Acknowledge(q, Accept, now)).t, q)
  {
    assert ReceiptAt(h, s, q);
  }

  // ---------- the gate ----------

  /** Deliveries, receipts and compensations all name the order of their quote, and an order has one delivery. */
  ghost predicate OrdersValid(t: Tables) {
    && (forall q {:trigger q in t.deliveries} :: q in t.deliveries ==> q in t.quotes)
    && (forall a, b {:trigger t.quotes[a], t.quotes[b]} ::
          a in t.deliveries && b in t.deliveries && a != b ==> t.quotes[a].orderId != t.quotes[b].orderId)
    && (forall q {:trigger q in t.receipts} :: q in t.receipts ==>
      q in t.quotes && t.receipts[q].orderId == t.quotes[q].orderId)
    && (forall q {:trigger q in t.compensations} ::
          q in t.compensations ==> q in t.deliveries && t.compensations[q].orderId == t.quotes[q].orderId)
  }

  lemma EnqueueKeepsOrders(t: Tables, q: string)
    requires OrdersValid(t)
    ensures OrdersValid(EnqueueStep(t, q))
  {
    var after := EnqueueStep(t, q);
    if after != t {
      forall d | d in t.deliveries ensures t.quotes[d].orderId != t.quotes[q].orderId {
        assert d in t.quotes;
      }
    }
  }

  lemma RowKeepsOrders(t: Tables, receipts: map<string, Receipt>, q: string, r: Receipt)
    requires OrdersValid(t) && q in t.quotes && r.orderId == t.quotes[q].orderId
    requires forall o :: o in receipts ==> o in t.receipts && receipts[o] == t.receipts[o]
    ensures OrdersValid(t.(receipts := receipts[q := r]))
  {
  }

  /** Configuring writes the receipt of the quote, for its order, in place of the one that carried it. */
  lemma ConfigureWritesOne(t: Tables, q: string, channel: Channel, destination: string, other: Option<string>, now: nat)
    requires OrdersValid(t) && ConfigureStep(t, q, channel, destination, other, now) != t
    ensures var after := ConfigureStep(t, q, channel, destination, other, now);
      var kept := if q in t.receipts || other.None? then t.receipts else t.receipts - {other.value};
      && q in t.quotes && q in after.receipts && after.receipts[q].orderId == t.quotes[q].orderId
      && after == t.(receipts := kept[q := after.receipts[q]])
  {
  }

  lemma ConfigureKeepsOrders(t: Tables, q: string, channel: Channel, destination: string, other: Option<string>,
                             now: nat)
    requires OrdersValid(t)
    ensures OrdersValid(ConfigureStep(t, q, channel, destination, other, now))
  {
    var after := ConfigureStep(t, q, channel, destination, other, now);
    if after != t {
      ConfigureWritesOne(t, q, channel, destination, other, now);
      var kept := if q in t.receipts || other.None? then t.receipts else t.receipts - {other.value};
      RowKeepsOrders(t, kept, q, after.receipts[q]);
    }
  }

  lemma RequestKeepsOrders(t: Tables, q: string)
    requires OrdersValid(t)
    ensures OrdersValid(RequestTx(t, q))
  {
  }

  lemma AcknowledgeKeepsOrders(t: Tables, q: string, decision: Decision, now: nat)
    requires OrdersValid(t)
    ensures OrdersValid(AcknowledgeStep(t, q, decision, now))
  {
    if q in t.receipts {
      var row := AcknowledgeRow(t.receipts[q], decision, now);
      if row.Ok? {
        RowKeepsOrders(t, t.receipts, q, row.value);
        RequestKeepsOrders(t.(receipts := t.receipts[q := row.value]), q);
      }
    }
  }

  lemma ReceiptStepKeepsOrders(h: Hasher, s: System, step: Step)
    requires OrdersValid(s.t) && (step.Publish? || step.Notify? || step.ProviderEvent?)
    ensures OrdersValid(Next(h, s, step).t)
  {
    var after := Next(h, s, step).t;
    if after != s.t {
      assert after.receipts == s.t.receipts[step.q := after.receipts[step.q]];
      RowKeepsOrders(s.t, s.t.receipts, step.q, after.receipts[step.q]);
    }
  }

  lemma NextKeepsOrders(h: Hasher, s: System, step: Step)
    requires OrdersValid(s.t)
    ensures OrdersValid(Next(h, s, step).t)
  {
    match step
    case Enqueue(q) => EnqueueKeepsOrders(s.t, q);
    case Deliver(q, _) => assert q in s.t.deliveries ==> q in s.t.quotes;
    case Redrive(q) => assert q in s.t.deliveries ==> q in s.t.quotes;
    case Configure(q, channel, destination, other, now) =>
      ConfigureKeepsOrders(s.t, q, channel, destination, other, now);
    case Acknowledge(q, decision, now) => AcknowledgeKeepsOrders(s.t, q, decision, now);
    case Request(q) => RequestKeepsOrders(s.t, q);
    case Decide(_, _, _) =>
    case SetSigning(_) =>
    case _ => ReceiptStepKeepsOrders(h, s, step);
  }

  lemma {:induction false} RunKeepsOrders(h: Hasher, s: System, steps: seq<Step>)
    requires OrdersValid(s.t)
    ensures OrdersValid(Run(h, s, steps).t)
  {
    if steps != [] {
      RunKeepsOrders(h, s, steps[..|steps| - 1]);
      NextKeepsOrders(h, Run(h, s, steps[..|steps| - 1]), steps[|steps| - 1]);
    }
  }

  /** On a disciplined run the gate never releases an order with a receipt that any quote of it was compensated
      for. */
  lemma GateExcludesRefund(h: Hasher, quotes: map<string, Quote>, signing: bool, steps: seq<Step>, orderId: string,
                           q: string, c: string)
    requires Disciplined(h, Start(quotes, signing), steps)
    ensures var t := Run(h, Start(quotes, signing), steps).t;
      Released(t, orderId) && q in t.receipts && t.receipts[q].orderId == orderId ==>
        !(c in t.compensations && t.compensations[c].orderId == orderId)
  {
    RunKeepsOrders(h, Start(quotes, signing), steps);
    ReleaseOrRefund(h, quotes, signing, steps, q);
  }

  /** So a compensated order is released exactly when it has no receipt. */
  lemma CompensatedOrderIsReleasedExactly(h: Hasher, quotes: map<string, Quote>, signing: bool, steps: seq<Step>,
                                          orderId: string, c: string)
    requires Disciplined(h, Start(quotes, signing), steps)
    requires var t := Run(h, Start(quotes, signing), steps).t;
      c in t.compensations && t.compensations[c].orderId == orderId
    ensures var t := Run(h, Start(quotes, signing), steps).t;
      Released(t, orderId) <==> !OrderBound(t, orderId)
  {
    var t := Run(h, Start(quotes, signing), steps).t;
    if q :| q in t.receipts && t.receipts[q].orderId == orderId {
      GateExcludesRefund(h, quotes, signing, steps, orderId, q, c);
    }
  }

  /** An order without a receipt it releases although it was compensated. */
  lemma LegacyOrderIsReleasedDespiteRefund(h: Hasher, quotes: map<string, Quote>, signing: bool, q: string)
    requires q in quotes && quotes[q].confirmed
    ensures var s := Next(h, Next(h, Next(h, Start(quotes, signing), Enqueue(q)), Deliver(q, D.Exhausted)), Request(q));
      && Released(s.t, quotes[q].orderId)
      && q in s.t.compensations && s.t.compensations[q].orderId == quotes[q].orderId
  {
    var enqueued := Next(h, Start(quotes, signing), Enqueue(q));
    assert enqueued.t.deliveries == map[q := D.Pending];
  }
}
