/** The sandbox object of iat/sandbox.py; its containers are fields that the methods update in place. */
module SandboxStore {
  import opened Wrappers
  import opened Sandbox

  class BuyerSandbox {
    const maxRecords: nat
    var orders: seq<Order>
    var idempotency: map<string, Entry>
    var feedback: set<Feedback>
    var counts: map<nat, nat>
    var learning: map<string, Learning>
    ghost var log: seq<Creation>  // everything ever created

    constructor (records: int)
      ensures Valid() && log == [] && maxRecords == Max(10, records)
    {
      maxRecords := Max(10, records);
      orders, idempotency, feedback, counts, learning, log := [], map[], {}, map[], map[], [];
      new;
      forall id ensures CountAt(S(), id) {
        assert FeedbackOn({}, id) == {};
      }
    }

    ghost function S(): Store
      reads this
    {
      Store(orders, idempotency, feedback, counts)
    }

    /** The store holds exactly the last `maxRecords` creations. */
    ghost predicate Valid()
      reads this
    {
      maxRecords >= 10 && DistinctIds(log) && Holds(S(), Last(log, maxRecords))
    }

    /** A known key replays its order or is refused; a new key creates one, which its own trim cannot evict. */
    method Purchase(q: Request) returns (r: Result<Order, Error>)
      requires Valid() && !HasOrder(log, q.id)
      modifies this`orders, this`idempotency, this`feedback, this`counts, this`log
      ensures Valid()
      ensures r == Reply(Remembered(old(log), maxRecords, q.key), q)
      ensures log == Created(old(log), maxRecords, q)
      ensures log == old(log) ==> S() == old(S())
      ensures q.key in old(idempotency) <==> Remembered(old(log), maxRecords, q.key).Some?
      ensures r.Ok? ==>
        r.value in orders && q.key in idempotency && idempotency[q.key] == Entry(q.fingerprint, r.value.id)
    {
      ghost var kept := Last(log, maxRecords);
      LastOf(log, maxRecords, q.id);
      KnownKeysAreRemembered(S(), log, maxRecords, q.key);
      if q.key in idempotency {
        var previous := idempotency[q.key];
        if previous.fingerprint != q.fingerprint {
          return Err(KeyReused);
        }
        r := GetOrder(previous.orderId);
        return;
      }
      if q.selected.None? {
        return Err(NoEligibleOffer);
      }
      var order := Order(q.id, q.fingerprint, q.selected.value);
      AddKeepsHolding(S(), kept, q.key, order);
      GrowDistinct(log, Creation(q.key, order));
      orders := orders + [order];
      idempotency := idempotency[q.key := Entry(q.fingerprint, q.id)];
      log := log + [Creation(q.key, order)];
      assert kept + [Creation(q.key, order)] == log[|log| - |orders|..];
      Trim();
      NewestIsKept(S(), log, maxRecords);
      r := Ok(order);
    }

    /** Oldest first, with everything that hangs on an order. */
    method Trim()
      requires maxRecords >= 10 && DistinctIds(log)
      requires Min(|log|, maxRecords) <= |orders| <= |log| && Holds(S(), log[|log| - |orders|..])
      modifies this`orders, this`idempotency, this`feedback, this`counts
      ensures Valid()
    {
      while |orders| > maxRecords
        invariant Min(|log|, maxRecords) <= |orders| <= |log|
        invariant Holds(S(), log[|log| - |orders|..])
      {
        PopHolds(S(), log);
        ghost var popped := Popped(S());
        var id := orders[0].id;
        orders := orders[1..];
        var stale := set k | k in idempotency && idempotency[k].orderId == id;
        idempotency := idempotency - stale;
        counts := counts - {id};
        feedback := set f | f in feedback && f.orderId != id;
        assert S() == popped;
      }
      assert log[|log| - |orders|..] == Last(log, maxRecords);
    }

    /** The one stored order with this id, or not found. */
    method GetOrder(id: nat) returns (r: Result<Order, Error>)
      requires Valid()
      ensures r.Ok? ==> r.value in orders && r.value.id == id
      ensures r.Err? <==> forall o :: o in orders ==> o.id != id
      ensures forall o :: o in orders && o.id == id ==> r == Ok(o)
      ensures r.Err? ==> r.error == OrderNotFound
    {
      var order := FindOrder(orders, id);
      LastOf(log, maxRecords, id);
      forall o | o in orders && o.id == id ensures order == Some(o) {
        OrderIsUnique(S(), Last(log, maxRecords), o);
      }
      r := if order.Some? then Ok(order.value) else Err(OrderNotFound);
    }

    method CountFeedback(order: Order, count: nat, positive: bool, key: string)
      requires Valid() && order in orders
      requires Feedback(order.id, key) !in feedback && count == Count(counts, order.id) < MAX_FEEDBACK
      modifies this`feedback, this`counts, this`learning
      ensures Valid()
      ensures feedback == old(feedback) + {Feedback(order.id, key)} && counts == old(counts)[order.id := count + 1]
      ensures learning == Learned(old(learning), order.offerId, positive)
    {
      ghost var before := S();
      StoredOrderIsKept(before, Last(log, maxRecords), order);
      FeedbackKeepsHolding(before, Last(log, maxRecords), Feedback(order.id, key));
      learning := Learned(learning, order.offerId, positive);
      feedback, counts := feedback + {Feedback(order.id, key)}, counts[order.id := count + 1];
      assert S() == before.(feedback := feedback, counts := counts);
    }

    /** One feedback key counts once; an order takes at most sixty-four of them. */
    method RecordFeedback(id: nat, positive: bool, key: string) returns (r: Result<bool, Error>)
      requires Valid()
      modifies this`feedback, this`counts, this`learning
      ensures Valid()
      ensures r == Err(OrderNotFound) <==> forall o :: o in orders ==> o.id != id
      ensures r != Err(OrderNotFound) ==>
        r == if Feedback(id, key) in old(feedback) then Ok(false)
             else if |FeedbackOn(old(feedback), id)| == MAX_FEEDBACK then Err(FeedbackLimit) else Ok(true)
      ensures r != Ok(true) ==> feedback == old(feedback) && counts == old(counts) && learning == old(learning)
      ensures r == Ok(true) ==>
        && feedback == old(feedback) + {Feedback(id, key)}
        && counts == old(counts)[id := |FeedbackOn(old(feedback), id)| + 1]
        && exists o :: o in orders && o.id == id && learning == Learned(old(learning), o.offerId, positive)
    {
      var order := GetOrder(id);
      if order.Err? {
        return Err(OrderNotFound);
      }
      if Feedback(id, key) in feedback {
        return Ok(false);
      }
      var count := if id in counts then counts[id] else 0;
      CountIsExact(S(), Last(log, maxRecords), id);
      if count >= MAX_FEEDBACK {
        return Err(FeedbackLimit);
      }
      CountFeedback(order.value, count, positive, key);
      r := Ok(true);
    }
  }
}
