/** The post-payment delivery queue of iat/checkout_delivery.py: what each statement does to a
    delivery row and to its order, and the store whose methods issue those statements. */
module DeliveryQueue {
  import opened Wrappers

  type Token = nat

  datatype DeliveryState = Pending | RetryableFailure | Running | Completed | ReviewRequired | Blocked | Exhausted

  predicate Terminal(s: DeliveryState) { s == Completed || s == ReviewRequired || s == Blocked || s == Exhausted }

  datatype SettlementState = SettlementPending | SettlementCompleted | SettlementRetryable

  datatype ErrorCode = OrderMissing | DecisionNotReady | ProviderError(code: string)

  datatype Delivery = Delivery(
    orderId: string, txSignature: string,
    state: DeliveryState, attemptCount: nat, nextAttemptAt: nat,
    leaseToken: Option<Token>, leaseUntil: Option<nat>,
    lastError: Option<ErrorCode>, result: Option<string>,
    settlementState: SettlementState, settlementAttempts: nat, settlementNextAt: Option<nat>,
    updatedAt: nat, completedAt: Option<nat>)

  datatype OrderStatus = Open | Delivered | FoundationReviewRequired | FoundationBlocked

  datatype Order = Order(status: OrderStatus, used: bool, txSignature: Option<string>, result: Option<string>)

  function NewDelivery(orderId: string, txSignature: string, now: nat): Delivery {
    Delivery(orderId, txSignature, Pending, 0, now, None, None, None, None, SettlementPending, 0, None, now, None)
  }

  /** A new row would repeat a quote, an order or a transaction. */
  predicate Conflicts(deliveries: map<string, Delivery>, quoteId: string, orderId: string, txSignature: string) {
    quoteId in deliveries
    || exists q :: q in deliveries && (deliveries[q].orderId == orderId || deliveries[q].txSignature == txSignature)
  }

  ghost predicate OneRowPerPayment(deliveries: map<string, Delivery>) {
    forall a, b :: a in deliveries && b in deliveries && a != b ==>
      deliveries[a].orderId != deliveries[b].orderId && deliveries[a].txSignature != deliveries[b].txSignature
  }

  // ---------- statements on a row ----------

  predicate Claimable(d: Delivery, now: nat) {
    || ((d.state == Pending || d.state == RetryableFailure) && d.nextAttemptAt <= now)
    || (d.state == Running && d.leaseUntil.Some? && d.leaseUntil.value < now)
  }

  function ClaimRow(d: Delivery, token: Token, now: nat, lease: nat): Delivery {
    d.(state := Running, leaseToken := Some(token), leaseUntil := Some(now + lease),
       attemptCount := d.attemptCount + 1, updatedAt := now)
  }

  /** How an attempt wants to leave its row. */
  datatype Closing = Closing(state: DeliveryState, nextAttemptAt: nat, error: Option<ErrorCode>, result: Option<string>,
                             settlement: Option<SettlementState>, settlementNextAt: Option<nat>)

  /** Only the current lease token of a running row may close it. */
  predicate Holds(d: Delivery, token: Token) { d.state == Running && d.leaseToken == Some(token) }

  function CloseRow(d: Delivery, c: Closing, now: nat): Delivery {
    d.(state := c.state, nextAttemptAt := c.nextAttemptAt, leaseToken := None, leaseUntil := None, lastError := c.error,
       result := c.result, updatedAt := now, completedAt := if Terminal(c.state) then Some(now) else None,
       settlementState := c.settlement.GetOr(d.settlementState), settlementNextAt := c.settlementNextAt)
  }

  function FinishRow(d: Delivery, token: Token, c: Closing, now: nat): Delivery {
    if Holds(d, token) then CloseRow(d, c, now) else d
  }

  function RedriveRow(d: Delivery, now: nat): Delivery {
    if d.state == Exhausted then
      d.(state := Pending, attemptCount := 0, nextAttemptAt := now, leaseToken := None, leaseUntil := None,
         lastError := None, completedAt := None, updatedAt := now)
    else d
  }

  function ResumeReviewRow(d: Delivery, now: nat): Delivery {
    if d.state == ReviewRequired then
      d.(state := RetryableFailure, nextAttemptAt := now, leaseToken := None, leaseUntil := None, completedAt := None,
         updatedAt := now)
    else d
  }

  predicate Acceleratable(d: Delivery, now: nat, cooldown: nat) {
    d.state == RetryableFailure && d.lastError == Some(DecisionNotReady) && d.nextAttemptAt > now
      && now >= d.updatedAt + cooldown
  }

  function AccelerateRow(d: Delivery, now: nat, cooldown: nat): Delivery {
    if Acceleratable(d, now, cooldown) then d.(nextAttemptAt := now, updatedAt := now) else d
  }

  /** The guarded update of a settlement sweep, for attempt number `attempts` of the allocation. */
  function SettleRow(d: Delivery, booked: bool, attempts: nat, now: nat): Delivery {
    if d.state == Completed && d.settlementState == SettlementRetryable then
      d.(settlementState := if booked then SettlementCompleted else SettlementRetryable,
         settlementAttempts := attempts,
         settlementNextAt := if booked then None
           else Some(now + Min(30 * Pow2(if attempts == 0 then 0 else attempts - 1), 3600)),
         updatedAt := now)
    else d
  }

  predicate SettlementDue(d: Delivery, now: nat) {
    d.state == Completed && d.settlementState == SettlementRetryable && d.settlementNextAt.Some?
      && d.settlementNextAt.value <= now
  }

  function ResettledRow(d: Delivery, booked: bool, annotated: (string, bool) -> string, now: nat): Delivery {
    SettleRow(d, booked, d.settlementAttempts + 1, now).(result := Some(annotated(d.result.GetOr("{}"), booked)))
  }

  predicate SettlesSooner(a: Delivery, b: Delivery) {
    a.settlementNextAt.Some? && b.settlementNextAt.Some? && a.settlementNextAt.value < b.settlementNextAt.value
  }

  ghost predicate Distinct(s: seq<string>) { forall i, j :: 0 <= i < j < |s| ==> s[i] != s[j] }

  ghost function Elements(s: seq<string>): set<string> { set x | x in s }

  ghost function Swept(deliveries: map<string, Delivery>, due: set<string>, booked: string -> bool,
                       annotated: (string, bool) -> string, now: nat): map<string, Delivery>
  {
    map q | q in deliveries :: if q in due then ResettledRow(deliveries[q], booked(q), annotated, now)
      else deliveries[q]
  }

  lemma SweepOne(deliveries: map<string, Delivery>, due: seq<string>, i: nat, booked: string -> bool,
                 annotated: (string, bool) -> string, now: nat)
    requires Distinct(due) && i < |due| && due[i] in deliveries
    ensures var q := due[i];
      var before := Swept(deliveries, Elements(due[..i]), booked, annotated, now);
      && before[q] == deliveries[q]
      && before[q := ResettledRow(deliveries[q], booked(q), annotated, now)]
           == Swept(deliveries, Elements(due[..i + 1]), booked, annotated, now)
  {
    assert due[i] !in due[..i];
    assert Elements(due[..i + 1]) == Elements(due[..i]) + {due[i]};
  }

  /** A delivered service whose allocation failed is allocated later without leaving its state: it is settled
      exactly when the ledger accepts it, and due again later otherwise. */
  lemma SettlingKeepsDelivery(d: Delivery, booked: bool, annotated: (string, bool) -> string, now: nat)
    requires SettlementDue(d, now)
    ensures var after := ResettledRow(d, booked, annotated, now);
      && after.state == Completed && after.attemptCount == d.attemptCount && after.completedAt == d.completedAt
      && after.settlementAttempts == d.settlementAttempts + 1
      && (booked <==> after.settlementState == SettlementCompleted)
      && !SettlementDue(after, now)
      && (!booked ==> SettlementDue(after, now + 3600))
  {
    var growth := Pow2(d.settlementAttempts);
    assert 30 * growth >= 30;
  }

  datatype Mark = MarkCompleted | MarkReview | MarkBlocked

  /** UPDATE orders ... WHERE used = 0. */
  function MarkRow(o: Order, mark: Mark, txSignature: string, result: string): Order {
    if o.used then o
    else
      match mark
      case MarkCompleted => Order(Delivered, true, Some(txSignature), Some(result))
      case MarkReview =>
        o.(status := FoundationReviewRequired, txSignature := Some(txSignature), result := Some(result))
      case MarkBlocked => o.(status := FoundationBlocked, txSignature := Some(txSignature), result := Some(result))
  }

  // ---------- what an attempt decides ----------

  /** The executor's answer, by the branch its status selects. */
  datatype Verdict = ReviewNeeded | DeliveryBlocked | Authorized(settled: bool) | FailedAttempt(error: ErrorCode)

  /** What is left to do: mark the order if asked, then close the row. */
  datatype Plan = Plan(mark: Option<Mark>, closing: Closing, result: string)

  function RetryDelay(base: nat, attempts: nat): nat {
    Min(base * Pow2(if attempts == 0 then 0 else attempts - 1), 3600)
  }

  /** Waits between attempts never shrink and never exceed an hour. */
  lemma RetryDelaysGrow(base: nat, attempts: nat, later: nat)
    requires attempts <= later
    ensures RetryDelay(base, attempts) <= RetryDelay(base, later) <= 3600
  {
    var low := if attempts == 0 then 0 else attempts - 1;
    var high := if later == 0 then 0 else later - 1;
    Pow2Monotone(low, high);
    assert base * Pow2(low) <= base * Pow2(high);
  }

  function RetryOrExhaust(attempts: nat, max: nat, base: nat, now: nat, error: ErrorCode, result: string): Closing {
    if attempts >= max then Closing(Exhausted, now, Some(error), Some(result), None, None)
    else Closing(RetryableFailure, now + RetryDelay(base, attempts), Some(error), Some(result), None, None)
  }

  function MissingOrder(now: nat): Closing {
    Closing(Exhausted, now, Some(OrderMissing), Some("order_missing"), None, None)
  }

  function AlreadyDelivered(o: Order, now: nat): Closing {
    Closing(Completed, now, None, Some(o.result.GetOr("already_delivered")), None, None)
  }

  function PlanFor(v: Verdict, result: string, attempts: nat, max: nat, base: nat, now: nat): Plan {
    match v
    case ReviewNeeded =>
      Plan(if attempts >= max then Some(MarkReview) else None,
           RetryOrExhaust(attempts, max, base, now, DecisionNotReady, result), result)
    case DeliveryBlocked =>
      Plan(Some(MarkBlocked), Closing(Blocked, now, None, Some(result), None, None), result)
    case Authorized(settled) =>
      Plan(Some(MarkCompleted),
           Closing(Completed, now, None, Some(result),
                   Some(if settled then SettlementCompleted else SettlementRetryable),
                   if settled then None else Some(now + 30)), result)
    case FailedAttempt(error) =>
      Plan(None, RetryOrExhaust(attempts, max, base, now, error, result), result)
  }

  // ---------- the store ----------

  datatype EventType = Enqueued | AttemptClaimed | AttemptFinished | AdminRedrive | ReviewResumed | RetryAccelerated

  datatype DeliveryEvent = DeliveryEvent(quoteId: string, eventType: EventType, toState: DeliveryState, at: nat)

  datatype Refusal = DeliveryNotFound | DeliveryNotExhausted | ReasonLengthInvalid

  class DeliveryStore {
    var deliveries: map<string, Delivery>
    var orders: map<string, Order>
    var events: seq<DeliveryEvent>
    var issued: Token  // tokens below this one have been handed out

    constructor (orders: map<string, Order>)
      ensures deliveries == map[] && this.orders == orders && events == [] && issued == 0
    {
      deliveries, this.orders, events, issued := map[], orders, [], 0;
    }

    method InsertEvent(quoteId: string, eventType: EventType, toState: DeliveryState, now: nat)
      modifies this`events
      ensures events == old(events) + [DeliveryEvent(quoteId, eventType, toState, now)]
    {
      events := events + [DeliveryEvent(quoteId, eventType, toState, now)];
    }

    /** INSERT OR IGNORE: quote, order and transaction signature are each unique in the table. */
    method EnqueueDelivery(quoteId: string, orderId: string, txSignature: string, now: nat) returns (inserted: bool)
      modifies this`deliveries, this`events
      ensures inserted <==> !Conflicts(old(deliveries), quoteId, orderId, txSignature)
      ensures !inserted ==> deliveries == old(deliveries) && events == old(events)
      ensures inserted ==>
        && deliveries == old(deliveries)[quoteId := NewDelivery(orderId, txSignature, now)]
        && events == old(events) + [DeliveryEvent(quoteId, Enqueued, Pending, now)]
      ensures OneRowPerPayment(old(deliveries)) ==> OneRowPerPayment(deliveries)
    {
      inserted := !Conflicts(deliveries, quoteId, orderId, txSignature);
      if inserted {
        deliveries := deliveries[quoteId := NewDelivery(orderId, txSignature, now)];
        InsertEvent(quoteId, Enqueued, Pending, now);
      }
    }

    /** One guarded UPDATE: a token is handed out exactly when the row was claimable. */
    method Claim(quoteId: string, now: nat, lease: nat) returns (token: Option<Token>)
      modifies this`deliveries, this`events, this`issued
      ensures token.Some? <==> quoteId in old(deliveries) && Claimable(old(deliveries)[quoteId], now)
      ensures token.None? ==> deliveries == old(deliveries) && events == old(events)
      ensures token.Some? ==>
        && token.value == old(issued) < issued
        && deliveries == old(deliveries)[quoteId := ClaimRow(old(deliveries)[quoteId], token.value, now, lease)]
        && events == old(events) + [DeliveryEvent(quoteId, AttemptClaimed, Running, now)]
    {
      if quoteId !in deliveries {
        return None;
      }
      var row := deliveries[quoteId];
      var runnable := (row.state == Pending || row.state == RetryableFailure) && row.nextAttemptAt <= now;
      var expired := row.state == Running && row.leaseUntil.Some? && row.leaseUntil.value < now;
      if !runnable && !expired {
        return None;
      }
      token := Some(issued);
      issued := issued + 1;
      row := row.(state := Running, leaseToken := token, leaseUntil := Some(now + lease));
      row := row.(attemptCount := row.attemptCount + 1, updatedAt := now);
      deliveries := deliveries[quoteId := row];
      InsertEvent(quoteId, AttemptClaimed, Running, now);
    }

    /** A finish with a superseded token changes nothing and says so. */
    method Finish(quoteId: string, token: Token, c: Closing, now: nat) returns (changed: bool)
      modifies this`deliveries, this`events
      ensures changed <==> quoteId in old(deliveries) && Holds(old(deliveries)[quoteId], token)
      ensures !changed ==> deliveries == old(deliveries) && events == old(events)
      ensures changed ==>
        && deliveries == old(deliveries)[quoteId := FinishRow(old(deliveries)[quoteId], token, c, now)]
        && events == old(events) + [DeliveryEvent(quoteId, AttemptFinished, c.state, now)]
    {
      if quoteId !in deliveries {
        return false;
      }
      var row := deliveries[quoteId];
      if row.state != Running || row.leaseToken != Some(token) {
        return false;
      }
      row := row.(state := c.state, nextAttemptAt := c.nextAttemptAt, leaseToken := None, leaseUntil := None,
                  lastError := c.error, result := c.result, updatedAt := now);
      if Terminal(c.state) {
        row := row.(completedAt := Some(now));
      } else {
        row := row.(completedAt := None);
      }
      if c.settlement.Some? {
        row := row.(settlementState := c.settlement.value);
      }
      row := row.(settlementNextAt := c.settlementNextAt);
      deliveries := deliveries[quoteId := row];
      InsertEvent(quoteId, AttemptFinished, c.state, now);
      changed := true;
    }

    method MarkOrder(orderId: string, mark: Mark, txSignature: string, result: string)
      modifies this`orders
      ensures orders == if orderId in old(orders)
                        then old(orders)[orderId := MarkRow(old(orders)[orderId], mark, txSignature, result)]
                          else old(orders)
    {
      if orderId in orders && !orders[orderId].used {
        var row := orders[orderId].(txSignature := Some(txSignature), result := Some(result));
        match mark
        case MarkCompleted => orders := orders[orderId := row.(status := Delivered, used := true)];
        case MarkReview => orders := orders[orderId := row.(status := FoundationReviewRequired)];
        case MarkBlocked => orders := orders[orderId := row.(status := FoundationBlocked)];
      }
    }

    method RedriveExhausted(quoteId: string, reasonLength: nat, now: nat) returns (r: Result<(), Refusal>)
      modifies this`deliveries, this`events
      ensures if !(8 <= reasonLength <= 500) then r == Err(ReasonLengthInvalid)
              else if quoteId !in old(deliveries) then r == Err(DeliveryNotFound)
              else if old(deliveries)[quoteId].state != Exhausted then r == Err(DeliveryNotExhausted)
              else r == Ok(())
      ensures r.Err? ==> deliveries == old(deliveries) && events == old(events)
      ensures r.Ok? ==>
        && deliveries == old(deliveries)[quoteId := RedriveRow(old(deliveries)[quoteId], now)]
        && events == old(events) + [DeliveryEvent(quoteId, AdminRedrive, Pending, now)]
    {
      if !(8 <= reasonLength <= 500) {
        return Err(ReasonLengthInvalid);
      }
      if quoteId !in deliveries {
        return Err(DeliveryNotFound);
      }
      var row := deliveries[quoteId];
      if row.state != Exhausted {
        return Err(DeliveryNotExhausted);
      }
      row := row.(state := Pending, attemptCount := 0, nextAttemptAt := now);
      row := row.(leaseToken := None, leaseUntil := None, lastError := None, completedAt := None, updatedAt := now);
      deliveries := deliveries[quoteId := row];
      InsertEvent(quoteId, AdminRedrive, Pending, now);
      r := Ok(());
    }

    method ResumeReviewRequired(quoteId: string, now: nat) returns (r: Result<bool, Refusal>)
      modifies this`deliveries, this`events
      ensures quoteId !in old(deliveries) ==>
        r == Err(DeliveryNotFound) && deliveries == old(deliveries) && events == old(events)
      ensures quoteId in old(deliveries) ==>
        && r == Ok(old(deliveries)[quoteId].state == ReviewRequired)
        && deliveries == old(deliveries)[quoteId := ResumeReviewRow(old(deliveries)[quoteId], now)]
        && events == old(events) + if r.value then [DeliveryEvent(quoteId, ReviewResumed, RetryableFailure, now)]
          else []
    {
      if quoteId !in deliveries {
        return Err(DeliveryNotFound);
      }
      var row := deliveries[quoteId];
      if row.state != ReviewRequired {
        return Ok(false);
      }
      row := row.(state := RetryableFailure, nextAttemptAt := now, leaseToken := None, leaseUntil := None);
      deliveries := deliveries[quoteId := row.(completedAt := None, updatedAt := now)];
      InsertEvent(quoteId, ReviewResumed, RetryableFailure, now);
      r := Ok(true);
    }

    method AccelerateRetry(quoteId: string, now: nat, cooldown: nat) returns (r: Result<bool, Refusal>)
      modifies this`deliveries, this`events
      ensures quoteId !in old(deliveries) ==>
        r == Err(DeliveryNotFound) && deliveries == old(deliveries) && events == old(events)
      ensures quoteId in old(deliveries) ==>
        && r == Ok(Acceleratable(old(deliveries)[quoteId], now, cooldown))
        && deliveries == old(deliveries)[quoteId := AccelerateRow(old(deliveries)[quoteId], now, cooldown)]
        && events == old(events) + if r.value
          then [DeliveryEvent(quoteId, RetryAccelerated, RetryableFailure, now)] else []
    {
      if quoteId !in deliveries {
        return Err(DeliveryNotFound);
      }
      var row := deliveries[quoteId];
      if !Acceleratable(row, now, cooldown) {
        return Ok(false);
      }
      deliveries := deliveries[quoteId := row.(nextAttemptAt := now, updatedAt := now)];
      InsertEvent(quoteId, RetryAccelerated, RetryableFailure, now);
      r := Ok(true);
    }

    /** One uninterrupted call of the worker: claim, look at the order, execute, mark, finish.
        Whatever the executor answers, the row leaves `running` as the plan of that answer says. */
    method RunCheckoutDelivery(quoteId: string, now: nat, lease: nat, max: nat, base: nat, verdict: Verdict,
                               result: string)
      returns (ran: bool)
      requires max >= 1
      modifies this
      ensures ran <==> quoteId in old(deliveries) && Claimable(old(deliveries)[quoteId], now)
      ensures !ran ==> deliveries == old(deliveries) && orders == old(orders)
      ensures ran ==>
        var before := old(deliveries)[quoteId];
        var claimed := ClaimRow(before, old(issued), now, lease);
        var attempts := before.attemptCount + 1;
        if before.orderId !in old(orders) then
          orders == old(orders) && deliveries == old(deliveries)[quoteId :=
            CloseRow(claimed, MissingOrder(now), now)]
        else if old(orders)[before.orderId].used || old(orders)[before.orderId].status == Delivered then
          orders == old(orders) && deliveries == old(deliveries)[quoteId :=
            CloseRow(claimed, AlreadyDelivered(old(orders)[before.orderId], now), now)]
        else
          var plan := PlanFor(verdict, result, attempts, max, base, now);
          && deliveries == old(deliveries)[quoteId := CloseRow(claimed, plan.closing, now)]
          && orders == if plan.mark.None? then old(orders)
                       else old(orders)[before.orderId :=
                         MarkRow(old(orders)[before.orderId], plan.mark.value, before.txSignature, result)]
    {
      var token := Claim(quoteId, now, lease);
      if token.None? {
        return false;
      }
      ran := true;
      var claimed := deliveries[quoteId];
      if claimed.orderId !in orders {
        var _ := Finish(quoteId, token.value, MissingOrder(now), now);
        return;
      }
      var order := orders[claimed.orderId];
      if order.used || order.status == Delivered {
        var _ := Finish(quoteId, token.value, AlreadyDelivered(order, now), now);
        return;
      }
      var plan := PlanFor(verdict, result, claimed.attemptCount, max, base, now);
      if plan.mark.Some? {
        MarkOrder(claimed.orderId, plan.mark.value, claimed.txSignature, result);
      }
      var _ := Finish(quoteId, token.value, plan.closing, now);
    }

    /** One allocation retried: the settlement columns, then the result with the allocation written into it. */
    method ResettleDelivery(quoteId: string, booked: bool, annotated: (string, bool) -> string, now: nat)
      requires quoteId in deliveries && SettlementDue(deliveries[quoteId], now)
      modifies this`deliveries
      ensures deliveries == old(deliveries)[quoteId := ResettledRow(old(deliveries)[quoteId], booked, annotated, now)]
    {
      var row := deliveries[quoteId];
      var attempts := row.settlementAttempts + 1;
      var delay := Min(30 * Pow2(attempts - 1), 3600);
      row := row.(settlementState := if booked then SettlementCompleted else SettlementRetryable,
                  settlementAttempts := attempts,
                  settlementNextAt := if booked then None else Some(now + delay), updatedAt := now);
      deliveries := deliveries[quoteId := row.(result := Some(annotated(row.result.GetOr("{}"), booked)))];
    }

    /** The first rows by due time whose allocation is due, at most a hundred of them. */
    method ListDueSettlements(now: nat, limit: int) returns (due: seq<string>)
      ensures |due| <= Max(1, Min(limit, 100))
      ensures Distinct(due) && forall q :: q in due ==> q in deliveries && SettlementDue(deliveries[q], now)
      ensures forall q :: q in deliveries && SettlementDue(deliveries[q], now) && q !in due ==>
        |due| == Max(1, Min(limit, 100)) && forall k :: 0 <= k < |due| ==>
          !SettlesSooner(deliveries[q], deliveries[due[k]])
      ensures forall i, j :: 0 <= i < j < |due| ==> !SettlesSooner(deliveries[due[j]], deliveries[due[i]])
    {
      var size := Max(1, Min(limit, 100));
      var left := set q | q in deliveries && SettlementDue(deliveries[q], now);
      due := [];
      while left != {} && |due| < size
        invariant |due| <= size && Distinct(due)
        invariant forall q :: q in due ==> q !in left && q in deliveries && SettlementDue(deliveries[q], now)
        invariant forall q :: q in left ==> q in deliveries && SettlementDue(deliveries[q], now)
        invariant forall q :: q in deliveries && SettlementDue(deliveries[q], now) ==> q in left || q in due
        invariant forall q, k :: q in left && 0 <= k < |due| ==> !SettlesSooner(deliveries[q], deliveries[due[k]])
        invariant forall i, j :: 0 <= i < j < |due| ==> !SettlesSooner(deliveries[due[j]], deliveries[due[i]])
        decreases |left|
      {
        var first := Soonest(left);
        left := left - {first};
        due := due + [first];
      }
    }

    method Soonest(candidates: set<string>) returns (first: string)
      requires candidates != {} && candidates <= deliveries.Keys
      ensures first in candidates && forall q :: q in candidates ==> !SettlesSooner(deliveries[q], deliveries[first])
    {
      first :| first in candidates;
      var left := candidates - {first};
      while left != {}
        invariant left <= candidates && first in candidates
        invariant forall q :: q in candidates && q !in left ==> !SettlesSooner(deliveries[q], deliveries[first])
        decreases |left|
      {
        var q :| q in left;
        if SettlesSooner(deliveries[q], deliveries[first]) {
          first := q;
        }
        left := left - {q};
      }
    }

    /** Retries the due allocations of completed deliveries; `booked` says which the ledger accepts. Orders and
        other deliveries stay as they are. */
    method RunSettlementSweep(limit: int, booked: string -> bool, annotated: (string, bool) -> string, now: nat)
      returns (due: seq<string>, completed: nat, failed: nat)
      modifies this`deliveries
      ensures |due| == completed + failed <= Max(1, Min(limit, 100))
      ensures Distinct(due) && forall q :: q in due ==> q in old(deliveries) && SettlementDue(old(deliveries)[q], now)
      ensures |due| < Max(1, Min(limit, 100)) ==>
        forall q :: q in old(deliveries) && SettlementDue(old(deliveries)[q], now) ==> q in due
      ensures deliveries == Swept(old(deliveries), Elements(due), booked, annotated, now)
    {
      due := ListDueSettlements(now, limit);
      completed, failed := 0, 0;
      ghost var before := deliveries;
      assert deliveries == Swept(before, Elements(due[..0]), booked, annotated, now);
      for i := 0 to |due|
        invariant completed + failed == i
        invariant deliveries == Swept(before, Elements(due[..i]), booked, annotated, now)
      {
        SweepOne(before, due, i, booked, annotated, now);
        ResettleDelivery(due[i], booked(due[i]), annotated, now);
        if booked(due[i]) {
          completed := completed + 1;
        } else {
          failed := failed + 1;
        }
      }
      assert due[..|due|] == due;
    }
  }
}
