/** The buyer sandbox of iat/sandbox.py: a store of orders and idempotency keys that forgets the oldest,
    against the log of everything it ever created. */
module Sandbox {
  import opened Wrappers

  const MAX_FEEDBACK: nat := 64

  datatype Order = Order(id: nat, fingerprint: string, offerId: string)

  datatype Entry = Entry(fingerprint: string, orderId: nat)

  /** An order and the key it was created under. */
  datatype Creation = Creation(key: string, order: Order)

  /** An order id and the key of one feedback on it. */
  datatype Feedback = Feedback(orderId: nat, key: string)

  datatype Learning = Learning(positive: nat, negative: nat)

  datatype Store = Store(orders: seq<Order>, idempotency: map<string, Entry>, feedback: set<Feedback>, counts: map<nat,
                         nat>)

  datatype Error = KeyReused | NoEligibleOffer | OrderNotFound | FeedbackLimit

  // ---------- what the store holds ----------

  predicate SameId(log: seq<Creation>, i: nat, j: nat)
    requires i < |log| && j < |log|
  {
    log[i].order.id == log[j].order.id
  }

  ghost predicate DistinctIds(log: seq<Creation>) {
    forall i: nat, j: nat {:trigger SameId(log, i, j)} :: i < j < |log| ==> !SameId(log, i, j)
  }

  ghost predicate Uses(log: seq<Creation>, key: string) {
    exists i {:trigger log[i]} :: 0 <= i < |log| && log[i].key == key
  }

  ghost predicate HasOrder(log: seq<Creation>, id: nat) {
    exists i {:trigger log[i]} :: 0 <= i < |log| && log[i].order.id == id
  }

  /** Orders and keys correspond one to one, to the creations kept. */
  ghost predicate Keeps(s: Store, kept: seq<Creation>) {
    && |s.orders| == |kept|
    && (forall i {:trigger s.orders[i]} {:trigger kept[i]} :: 0 <= i < |kept| ==> s.orders[i] == kept[i].order)
    && (forall i {:trigger kept[i]} :: 0 <= i < |kept| ==>
          kept[i].key in s.idempotency
            && s.idempotency[kept[i].key] == Entry(kept[i].order.fingerprint, kept[i].order.id))
    && (forall k {:trigger Uses(kept, k)} :: k in s.idempotency ==> Uses(kept, k))
  }

  function FeedbackOn(feedback: set<Feedback>, id: nat): set<Feedback> { set f | f in feedback && f.orderId == id }

  function Count(counts: map<nat, nat>, id: nat): nat { if id in counts then counts[id] else 0 }

  ghost predicate CountAt(s: Store, id: nat) { Count(s.counts, id) == |FeedbackOn(s.feedback, id)| <= MAX_FEEDBACK }

  /** Counters are the numbers of stored feedback keys, and only kept orders have any. */
  ghost predicate Counts(s: Store, kept: seq<Creation>) {
    && (forall id {:trigger CountAt(s, id)} :: CountAt(s, id))
    && (forall f {:trigger HasOrder(kept, f.orderId)} :: f in s.feedback ==> HasOrder(kept, f.orderId))
    && (forall id {:trigger HasOrder(kept, id)} :: id in s.counts ==> HasOrder(kept, id))
  }

  ghost predicate Holds(s: Store, kept: seq<Creation>) { Keeps(s, kept) && Counts(s, kept) }

  function Last(log: seq<Creation>, n: nat): seq<Creation> { if |log| <= n then log else log[|log| - n..] }

  // ---------- what a purchase answers ----------

  /** The latest creation under a key. */
  function LatestUse(log: seq<Creation>, key: string): (k: Option<nat>)
    ensures k.Some? ==> k.value < |log| && log[k.value].key == key
    ensures forall i :: 0 <= i < |log| && log[i].key == key ==> k.Some? && i <= k.value
  {
    if log == [] then None
    else if log[|log| - 1].key == key then Some(|log| - 1)
    else LatestUse(log[..|log| - 1], key)
  }

  /** The order a store that keeps the last `n` creations replays for a key. */
  function Remembered(log: seq<Creation>, n: nat, key: string): Option<Order> {
    var latest := LatestUse(log, key);
    if latest.Some? && latest.value >= |log| - n then Some(log[latest.value].order) else None
  }

  /** A purchase: `selected` is the offer ranked first, `id` the order id drawn for it. */
  datatype Request = Request(key: string, fingerprint: string, selected: Option<string>, id: nat)

  function NewOrder(q: Request): Order
    requires q.selected.Some?
  {
    Order(q.id, q.fingerprint, q.selected.value)
  }

  /** The rule of `purchase`, given the order known under the key. */
  function Reply(known: Option<Order>, q: Request): Result<Order, Error> {
    if known.Some? then if known.value.fingerprint == q.fingerprint then Ok(known.value) else Err(KeyReused)
    else if q.selected.None? then Err(NoEligibleOffer)
    else Ok(NewOrder(q))
  }

  /** The creations after a purchase. */
  function Created(log: seq<Creation>, n: nat, q: Request): seq<Creation> {
    if Remembered(log, n, q.key).None? && q.selected.Some? then log + [Creation(q.key, NewOrder(q))] else log
  }

  /** A key is known exactly while its latest creation is among the last `n`, with that creation's entry and order. */
  lemma KnownKeysAreRemembered(s: Store, log: seq<Creation>, n: nat, key: string)
    requires Holds(s, Last(log, n)) && DistinctIds(log)
    ensures key in s.idempotency <==> Remembered(log, n, key).Some?
    ensures key in s.idempotency ==>
      var known := Remembered(log, n, key).value;
      s.idempotency[key] == Entry(known.fingerprint, known.id) && known in s.orders
  {
    var kept := Last(log, n);
    var offset := |log| - |kept|;
    var latest := LatestUse(log, key);
    assert forall i :: 0 <= i < |kept| ==> kept[i] == log[offset + i];
    if key in s.idempotency {
      assert Uses(kept, key);
      var i :| 0 <= i < |kept| && kept[i].key == key;
      assert log[offset + i].key == key;
    }
    if latest.Some? && latest.value >= |log| - n {
      assert kept[latest.value - offset] == log[latest.value];
      assert s.orders[latest.value - offset] == log[latest.value].order;
    }
  }

  /** At most one kept creation per key, and at most one kept key per order. */
  lemma OrdersAndKeysCorrespond(s: Store, kept: seq<Creation>, i: nat, j: nat)
    requires Holds(s, kept) && DistinctIds(kept) && i < j < |kept|
    ensures kept[i].key != kept[j].key
  {
    assert !SameId(kept, i, j);
  }

  // ---------- learning ----------

  function Raw(l: Learning): real {
    var observations := (l.positive + l.negative) as real;
    if observations == 0.0 then 0.0
    else
      var confidence := if observations / 20.0 < 1.0 then observations / 20.0 else 1.0;
      (l.positive - l.negative) as real / observations * confidence * 5.0
  }

  function Clamp(x: real): real { if x < -5.0 then -5.0 else if x > 5.0 then 5.0 else x }

  /** To four decimals. */
  function Round4(x: real): real { (x * 10000.0 + 0.5).Floor as real / 10000.0 }

  function Adjustment(l: Learning): real { Round4(Clamp(Raw(l))) }

  lemma Shrunk(q: real, c: real)
    requires -1.0 <= q <= 1.0 && 0.0 <= c <= 1.0
    ensures -1.0 <= q * c <= 1.0
  {
    NonNegative(1.0 - q, c);
    NonNegative(1.0 + q, c);
    assert (1.0 - q) * c == c - q * c && (1.0 + q) * c == c + q * c;
  }

  lemma NonNegative(a: real, b: real)
    requires a >= 0.0 && b >= 0.0
    ensures a * b >= 0.0
  {
  }

  lemma Scaled(d: real, o: real, c: real)
    requires o > 0.0 && -o <= d <= o && 0.0 <= c <= 1.0
    ensures -5.0 <= d / o * c * 5.0 <= 5.0
  {
    var q := d / o;
    assert q * o == d;
    assert -1.0 <= q <= 1.0;
    Shrunk(q, c);
  }

  /** However much feedback comes in, learning moves a score by at most five, and the clamp never bites. */
  lemma AdjustmentIsBounded(l: Learning)
    ensures -5.0 <= Adjustment(l) <= 5.0
    ensures Clamp(Raw(l)) == Raw(l)
  {
    var o := (l.positive + l.negative) as real;
    if o != 0.0 {
      Scaled((l.positive - l.negative) as real, o, if o / 20.0 < 1.0 then o / 20.0 else 1.0);
    }
    var x := Clamp(Raw(l)) * 10000.0 + 0.5;
    assert -50000 <= x.Floor <= 50000;
  }

  /** Up to twenty observations each one counts a quarter of a point. */
  lemma EarlyFeedbackCountsAQuarter(l: Learning)
    requires 0 < l.positive + l.negative <= 20
    ensures Raw(l) == (l.positive - l.negative) as real / 4.0
  {
    var o := (l.positive + l.negative) as real;
    var d := (l.positive - l.negative) as real;
    var q := d / o;
    assert q * o == d;
    assert q * (o / 20.0) == d / 20.0;
  }

  /** From twenty observations on, a score is moved by five times the balance of opinion. */
  lemma LateFeedbackIsBalance(l: Learning)
    requires l.positive + l.negative >= 20
    ensures Raw(l) == 5.0 * ((l.positive - l.negative) as real / (l.positive + l.negative) as real)
  {
  }

  /** The share of good in what was observed grows with every good observation. */
  lemma ShareGrows(good: int, bad: int)
    requires good >= 0 && bad >= 0 && good + bad > 0
    ensures (good - bad) as real / (good + bad) as real <= (good + 1 - bad) as real / (good + 1 + bad) as real
  {
    var d, o := (good - bad) as real, (good + bad) as real;
    var q, r := d / o, (d + 1.0) / (o + 1.0);
    assert q * o == d && r * (o + 1.0) == d + 1.0;
    assert (r - q) * (o + 1.0) == 1.0 - q;
    assert q <= 1.0 by {
      assert d <= o;
    }
    if r < q {
      NonNegative(q - r, o + 1.0);
    }
  }

  /** One more good observation never lowers a score, and one more bad one never raises it. */
  lemma FeedbackMovesTheRightWay(l: Learning)
    ensures Raw(l) <= Raw(l.(positive := l.positive + 1))
    ensures Raw(l.(negative := l.negative + 1)) <= Raw(l)
  {
    GoodNeverLowers(l);
    GoodNeverLowers(Learning(l.negative, l.positive));
    OppositeScores(l);
    OppositeScores(l.(negative := l.negative + 1));
  }

  lemma GoodNeverLowers(l: Learning)
    ensures Raw(l) <= Raw(l.(positive := l.positive + 1))
  {
    var more := l.(positive := l.positive + 1);
    if l.positive + l.negative >= 20 {
      LateFeedbackIsBalance(l);
      LateFeedbackIsBalance(more);
      ShareGrows(l.positive, l.negative);
    } else {
      EarlyFeedbackCountsAQuarter(more);
      if l.positive + l.negative > 0 {
        EarlyFeedbackCountsAQuarter(l);
      }
    }
  }

  /** Good and bad exchanged give the opposite score. */
  lemma OppositeScores(l: Learning)
    ensures Raw(Learning(l.negative, l.positive)) == -Raw(l)
  {
    if l.positive + l.negative >= 20 {
      LateFeedbackIsBalance(l);
      LateFeedbackIsBalance(Learning(l.negative, l.positive));
      var d, o := (l.positive - l.negative) as real, (l.positive + l.negative) as real;
      assert (-d) / o == -(d / o) by {
        assert d / o * o == d;
      }
    } else if l.positive + l.negative > 0 {
      EarlyFeedbackCountsAQuarter(l);
      EarlyFeedbackCountsAQuarter(Learning(l.negative, l.positive));
    }
  }

  /** Nothing observed moves nothing, and rounding moves a score by half of a ten-thousandth at most. */
  lemma AdjustmentIsTheScore(l: Learning)
    ensures l.positive == l.negative == 0 ==> Adjustment(l) == 0.0
    ensures -0.00005 <= Adjustment(l) - Raw(l) <= 0.00005
  {
    AdjustmentIsBounded(l);
    var x := Raw(l);
    assert -0.5 <= (x * 10000.0 + 0.5).Floor as real - x * 10000.0 <= 0.5;
  }

  // ---------- steps of the store ----------

  lemma AddKeepsHolding(s: Store, kept: seq<Creation>, key: string, order: Order)
    requires Holds(s, kept) && !HasOrder(kept, order.id) && key !in s.idempotency
    ensures Holds(s.(orders := s.orders + [order],
                     idempotency := s.idempotency[key := Entry(order.fingerprint, order.id)]),
                  kept + [Creation(key, order)])
  {
    var after := s.(orders := s.orders + [order],
                    idempotency := s.idempotency[key := Entry(order.fingerprint, order.id)]);
    var all := kept + [Creation(key, order)];
    forall i | 0 <= i < |all|
      ensures all[i].key in after.idempotency
      ensures after.idempotency[all[i].key] == Entry(all[i].order.fingerprint, all[i].order.id)
    {
      if i < |kept| {
        assert kept[i].key in s.idempotency;
      }
    }
    forall k | k in after.idempotency ensures Uses(all, k) {
      if k == key {
        assert all[|kept|].key == key;
      } else {
        assert Uses(kept, k);
        var i :| 0 <= i < |kept| && kept[i].key == k;
        assert all[i].key == k;
      }
    }
    GrowKeepsCounts(s, after, kept, all);
  }

  lemma GrowKeepsCounts(s: Store, after: Store, kept: seq<Creation>, all: seq<Creation>)
    requires Counts(s, kept) && after.feedback == s.feedback && after.counts == s.counts
    requires |kept| <= |all| && all[..|kept|] == kept
    ensures Counts(after, all)
  {
    forall id ensures CountAt(after, id) {
      assert CountAt(s, id);
    }
    forall id | HasOrder(kept, id) ensures HasOrder(all, id) {
      var i :| 0 <= i < |kept| && kept[i].order.id == id;
      assert all[i].order.id == id;
    }
  }

  /** What is left when the oldest order goes. */
  function Popped(s: Store): Store
    requires s.orders != []
  {
    var id := s.orders[0].id;
    Store(s.orders[1..], s.idempotency - (set k | k in s.idempotency && s.idempotency[k].orderId == id),
          (set f | f in s.feedback && f.orderId != id), s.counts - {id})
  }

  lemma PopKeepsKeys(s: Store, kept: seq<Creation>)
    requires Keeps(s, kept) && DistinctIds(kept) && kept != []
    ensures Keeps(Popped(s), kept[1..])
  {
    var after := Popped(s);
    var rest := kept[1..];
    forall i | 0 <= i < |rest|
      ensures rest[i].key in after.idempotency
      ensures after.idempotency[rest[i].key] == Entry(rest[i].order.fingerprint, rest[i].order.id)
    {
      assert !SameId(kept, 0, i + 1);
    }
    forall k | k in after.idempotency ensures Uses(rest, k) {
      assert Uses(kept, k);
      var i :| 0 <= i < |kept| && kept[i].key == k;
      assert i > 0;
      assert rest[i - 1].key == k;
    }
  }

  lemma PopKeepsCounts(s: Store, kept: seq<Creation>)
    requires Holds(s, kept) && DistinctIds(kept) && kept != []
    ensures Counts(Popped(s), kept[1..])
  {
    var after := Popped(s);
    var popped := s.orders[0].id;
    assert kept[0].order.id == popped;
    forall id ensures CountAt(after, id) {
      assert CountAt(s, id);
      assert FeedbackOn(after.feedback, id) == if id == popped then {} else FeedbackOn(s.feedback, id);
    }
    forall id | HasOrder(kept, id) && id != popped ensures HasOrder(kept[1..], id) {
      var i :| 0 <= i < |kept| && kept[i].order.id == id;
      assert kept[1..][i - 1].order.id == id;
    }
  }

  lemma FeedbackKeepsHolding(s: Store, kept: seq<Creation>, f: Feedback)
    requires Holds(s, kept) && HasOrder(kept, f.orderId) && f !in s.feedback
    requires Count(s.counts, f.orderId) < MAX_FEEDBACK
    ensures Holds(s.(feedback := s.feedback + {f}, counts := s.counts[f.orderId := Count(s.counts, f.orderId) + 1]),
                  kept)
  {
    var after := s.(feedback := s.feedback + {f}, counts := s.counts[f.orderId := Count(s.counts, f.orderId) + 1]);
    forall id ensures CountAt(after, id) {
      assert CountAt(s, id);
      FeedbackGrows(s.feedback, f, id);
    }
  }

  lemma CountIsExact(s: Store, kept: seq<Creation>, id: nat)
    requires Counts(s, kept)
    ensures Count(s.counts, id) == |FeedbackOn(s.feedback, id)| <= MAX_FEEDBACK
  {
    assert CountAt(s, id);
  }

  lemma FeedbackGrows(feedback: set<Feedback>, f: Feedback, id: nat)
    requires f !in feedback
    ensures |FeedbackOn(feedback + {f}, id)| == |FeedbackOn(feedback, id)| + if id == f.orderId then 1 else 0
  {
    if id == f.orderId {
      assert FeedbackOn(feedback + {f}, id) == FeedbackOn(feedback, id) + {f};
    } else {
      assert FeedbackOn(feedback + {f}, id) == FeedbackOn(feedback, id);
    }
  }

  // ---------- suffixes of the log ----------

  lemma LastOf(log: seq<Creation>, n: nat, id: nat)
    requires DistinctIds(log)
    ensures DistinctIds(Last(log, n))
    ensures !HasOrder(log, id) ==> !HasOrder(Last(log, n), id)
  {
    var kept := Last(log, n);
    var d := |log| - |kept|;
    forall i: nat, j: nat | i < j < |kept| ensures !SameId(kept, i, j) {
      assert !SameId(log, d + i, d + j);
    }
    if HasOrder(kept, id) {
      var i :| 0 <= i < |kept| && kept[i].order.id == id;
      assert log[d + i].order.id == id;
    }
  }

  lemma GrowDistinct(log: seq<Creation>, c: Creation)
    requires DistinctIds(log) && !HasOrder(log, c.order.id)
    ensures DistinctIds(log + [c])
  {
    forall i: nat, j: nat | i < j < |log| + 1 ensures !SameId(log + [c], i, j) {
      assert log[i].order.id != c.order.id;
      assert j < |log| ==> !SameId(log, i, j);
    }
  }

  /** The newest creation is always kept. */
  lemma NewestIsKept(s: Store, log: seq<Creation>, n: nat)
    requires Keeps(s, Last(log, n)) && n >= 1 && log != []
    ensures var newest := log[|log| - 1];
      newest.order in s.orders && newest.key in s.idempotency
      && s.idempotency[newest.key] == Entry(newest.order.fingerprint, newest.order.id)
  {
    var kept := Last(log, n);
    assert kept[|kept| - 1] == log[|log| - 1];
    assert s.orders[|kept| - 1] == kept[|kept| - 1].order;
  }

  lemma PopHolds(s: Store, log: seq<Creation>)
    requires DistinctIds(log) && 0 < |s.orders| <= |log| && Holds(s, log[|log| - |s.orders|..])
    ensures Holds(Popped(s), log[|log| - |s.orders| + 1..])
  {
    var kept := log[|log| - |s.orders|..];
    LastOf(log, |s.orders|, 0);
    assert kept == Last(log, |s.orders|);
    PopKeepsKeys(s, kept);
    PopKeepsCounts(s, kept);
    assert kept[1..] == log[|log| - |s.orders| + 1..];
  }

  // ---------- looking orders up ----------

  function FindOrder(orders: seq<Order>, id: nat): (o: Option<Order>)
    ensures o.Some? ==> o.value in orders && o.value.id == id
    ensures o.None? ==> forall i :: 0 <= i < |orders| ==> orders[i].id != id
  {
    if orders == [] then None
    else if orders[0].id == id then Some(orders[0])
    else
      var o := FindOrder(orders[1..], id);
      assert o.None? ==> forall i :: 1 <= i < |orders| ==> orders[i] == orders[1..][i - 1];
      o
  }

  lemma OrderIsUnique(s: Store, kept: seq<Creation>, o: Order)
    requires Keeps(s, kept) && DistinctIds(kept) && o in s.orders
    ensures FindOrder(s.orders, o.id) == Some(o)
  {
    var found := FindOrder(s.orders, o.id);
    assert found.Some?;
    var i :| 0 <= i < |s.orders| && s.orders[i] == o;
    var j :| 0 <= j < |s.orders| && s.orders[j] == found.value;
    assert kept[i].order == o && kept[j].order == found.value;
    assert SameId(kept, i, j) && SameId(kept, j, i);
  }

  lemma StoredOrderIsKept(s: Store, kept: seq<Creation>, o: Order)
    requires Keeps(s, kept) && o in s.orders
    ensures HasOrder(kept, o.id)
  {
    var i :| 0 <= i < |s.orders| && s.orders[i] == o;
    assert kept[i].order.id == o.id;
  }

  /** One more observation of an offer. */
  function Learned(learning: map<string, Learning>, offerId: string, positive: bool): map<string, Learning> {
    var l := if offerId in learning then learning[offerId] else Learning(0, 0);
    learning[offerId := if positive then l.(positive := l.positive + 1) else l.(negative := l.negative + 1)]
  }

  /** A feedback is counted for its offer and its kind, and for nothing else. */
  lemma LearnsExactly(learning: map<string, Learning>, offerId: string, positive: bool)
    ensures var after := Learned(learning, offerId, positive);
      var before := if offerId in learning then learning[offerId] else Learning(0, 0);
      && after.Keys == learning.Keys + {offerId}
      && (forall other :: other in learning && other != offerId ==> after[other] == learning[other])
      && after[offerId].positive == before.positive + (if positive then 1 else 0)
      && after[offerId].negative == before.negative + (if positive then 0 else 1)
  {
  }

  /** A purchase is refused exactly for another request under a known key, or when a new key finds no offer; otherwise
      the known order is its answer, or a new one of this request for the offer selected. */
  lemma RepliesExactly(known: Option<Order>, q: Request)
    ensures var r := Reply(known, q);
      && (r == Err(KeyReused) <==> known.Some? && known.value.fingerprint != q.fingerprint)
      && (r == Err(NoEligibleOffer) <==> known.None? && q.selected.None?)
      && (r.Ok? <==> if known.Some? then known.value.fingerprint == q.fingerprint else q.selected.Some?)
      && (r.Ok? && known.Some? ==> r.value == known.value)
      && (r.Ok? && known.None? ==>
            r.value.id == q.id && r.value.fingerprint == q.fingerprint && Some(r.value.offerId) == q.selected)
  {
  }

  /** Exactly a purchase that is answered with a new order is created, after all others. */
  lemma CreatesExactly(log: seq<Creation>, n: nat, q: Request)
    ensures var after := Created(log, n, q);
      if Remembered(log, n, q.key).None? && q.selected.Some?
      then |after| == |log| + 1 && after[..|log|] == log && after[|log|].key == q.key
           && Ok(after[|log|].order) == Reply(None, q)
      else after == log
  {
  }
}
