/** The bounded sandbox beside one that never forgets, on the same requests: when they answer alike. */
module SandboxRuns {
  import opened Wrappers
  import opened Sandbox

  /** A store without eviction: every key ever used, with its order. */
  type Everything = map<string, Order>

  function Lookup(m: Everything, key: string): Option<Order> { if key in m then Some(m[key]) else None }

  function Kept(m: Everything, q: Request): Everything {
    if q.key !in m && q.selected.Some? then m[q.key := NewOrder(q)] else m
  }

  /** Both stores after the same requests, the bounded one as the log of its creations. */
  function Bounded(n: nat, requests: seq<Request>): seq<Creation> {
    if requests == [] then [] else Created(Bounded(n, requests[..|requests| - 1]), n, requests[|requests| - 1])
  }

  function Unbounded(requests: seq<Request>): Everything {
    if requests == [] then map[] else Kept(Unbounded(requests[..|requests| - 1]), requests[|requests| - 1])
  }

  function BoundedReply(n: nat, requests: seq<Request>, q: Request): Result<Order, Error> {
    Reply(Remembered(Bounded(n, requests), n, q.key), q)
  }

  function UnboundedReply(requests: seq<Request>, q: Request): Result<Order, Error> {
    Reply(Lookup(Unbounded(requests), q.key), q)
  }

  /** The id drawn for a request was never drawn before. */
  predicate FreshId(requests: seq<Request>, id: nat) { forall i :: 0 <= i < |requests| ==> requests[i].id != id }

  predicate FreshIds(requests: seq<Request>) {
    forall i, j :: 0 <= i < j < |requests| ==> requests[i].id != requests[j].id
  }

  // ---------- first uses ----------

  /** The first creation under a key. */
  function FirstUse(log: seq<Creation>, key: string): (k: Option<nat>)
    ensures k.Some? ==> k.value < |log| && log[k.value].key == key
    ensures forall i :: 0 <= i < |log| && log[i].key == key ==> k.Some? && k.value <= i
  {
    if log == [] then None
    else
      var k := FirstUse(log[..|log| - 1], key);
      assert forall i :: 0 <= i < |log| - 1 ==> log[i] == log[..|log| - 1][i];
      if k.Some? then k else if log[|log| - 1].key == key then Some(|log| - 1) else None
  }

  lemma FirstUseStays(log: seq<Creation>, c: Creation, key: string)
    ensures FirstUse(log + [c], key) ==
      if FirstUse(log, key).Some? then FirstUse(log, key) else if c.key == key then Some(|log|) else None
  {
    assert (log + [c])[..|log|] == log;
  }

  /** The store that never forgets holds, for every key, the first order the bounded one created under it. */
  lemma {:induction false} UnboundedHoldsFirstUses(n: nat, requests: seq<Request>, key: string)
    ensures var first := FirstUse(Bounded(n, requests), key);
      Lookup(Unbounded(requests), key) == if first.Some? then Some(Bounded(n, requests)[first.value].order) else None
  {
    if requests != [] {
      var front := requests[..|requests| - 1];
      var q := requests[|requests| - 1];
      var log := Bounded(n, front);
      UnboundedHoldsFirstUses(n, front, key);
      UnboundedHoldsFirstUses(n, front, q.key);
      if Bounded(n, requests) != log {
        FirstUseStays(log, Creation(q.key, NewOrder(q)), key);
      }
    }
  }

  /** A key is used again only after its earlier creation was evicted. */
  ghost predicate UsesAreSpaced(log: seq<Creation>, n: nat) {
    forall i, j {:trigger log[i], log[j]} :: 0 <= i < j < |log| && log[i].key == log[j].key ==> i < j - n
  }

  ghost predicate IdsComeFrom(log: seq<Creation>, requests: seq<Request>) {
    forall i {:trigger log[i]} :: 0 <= i < |log| ==> !FreshId(requests, log[i].order.id)
  }

  lemma {:induction false} BoundedUsesAreSpaced(n: nat, requests: seq<Request>)
    ensures UsesAreSpaced(Bounded(n, requests), n)
  {
    if requests != [] {
      var front := requests[..|requests| - 1];
      BoundedUsesAreSpaced(n, front);
      var log := Bounded(n, front);
      var q := requests[|requests| - 1];
      if Bounded(n, requests) != log {
        forall i | 0 <= i < |log| && log[i].key == q.key ensures i < |log| - n {
          assert LatestUse(log, q.key).value >= i;
        }
      }
    }
  }

  lemma {:induction false} BoundedIdsAreDistinct(n: nat, requests: seq<Request>)
    requires FreshIds(requests)
    ensures DistinctIds(Bounded(n, requests)) && IdsComeFrom(Bounded(n, requests), requests)
  {
    if requests != [] {
      var front := requests[..|requests| - 1];
      var q := requests[|requests| - 1];
      BoundedIdsAreDistinct(n, front);
      var log := Bounded(n, front);
      forall i | 0 <= i < |log| ensures !FreshId(requests, log[i].order.id) && log[i].order.id != q.id {
        assert !FreshId(front, log[i].order.id);
        var k :| 0 <= k < |front| && front[k].id == log[i].order.id;
        assert requests[k] == front[k];
      }
      if Bounded(n, requests) != log {
        GrowDistinct(log, Creation(q.key, NewOrder(q)));
        assert requests[|front|].id == q.id;
      }
    }
  }

  // ---------- when the stores answer alike ----------

  predicate Alike(n: nat, requests: seq<Request>, q: Request) {
    BoundedReply(n, requests, q) == UnboundedReply(requests, q)
  }

  /** No creation under the key was evicted: it was never used, or its first creation is still kept. */
  predicate NothingEvicted(n: nat, requests: seq<Request>, key: string) {
    var log := Bounded(n, requests);
    FirstUse(log, key).Some? ==> FirstUse(log, key).value >= |log| - n
  }

  /** Both stores know the key, and neither the request of the creation kept nor that of the first one is repeated. */
  predicate BothRefuse(n: nat, requests: seq<Request>, q: Request) {
    var bounded := Remembered(Bounded(n, requests), n, q.key);
    var unbounded := Lookup(Unbounded(requests), q.key);
    bounded.Some? && bounded.value.fingerprint != q.fingerprint && unbounded.Some?
      && unbounded.value.fingerprint != q.fingerprint
  }

  lemma FirstKeptIsLatest(log: seq<Creation>, n: nat, key: string)
    requires UsesAreSpaced(log, n) && FirstUse(log, key).Some? && FirstUse(log, key).value >= |log| - n
    ensures LatestUse(log, key) == FirstUse(log, key)
  {
    var first, latest := FirstUse(log, key).value, LatestUse(log, key).value;
    assert first <= latest && log[first].key == log[latest].key;
  }

  /** A request is answered alike exactly when nothing under its key was evicted, or both stores refuse it. */
  lemma RequestsAnsweredAlikeExactly(n: nat, requests: seq<Request>, q: Request)
    requires FreshIds(requests) && FreshId(requests, q.id)
    ensures Alike(n, requests, q) <==> NothingEvicted(n, requests, q.key) || BothRefuse(n, requests, q)
  {
    var log := Bounded(n, requests);
    var first, latest := FirstUse(log, q.key), LatestUse(log, q.key);
    UnboundedHoldsFirstUses(n, requests, q.key);
    BoundedUsesAreSpaced(n, requests);
    if first.None? {
      assert latest.None?;
    } else if first.value >= |log| - n {
      FirstKeptIsLatest(log, n, q.key);
    } else {
      BoundedIdsAreDistinct(n, requests);
      assert log[first.value].order.id != q.id;
      if Remembered(log, n, q.key).Some? {
        assert !SameId(log, first.value, latest.value);
      }
    }
  }

  function NextId(requests: seq<Request>): (id: nat)
    ensures forall i :: 0 <= i < |requests| ==> requests[i].id < id
  {
    if requests == [] then 0
    else
      var front := NextId(requests[..|requests| - 1]);
      assert forall i :: 0 <= i < |requests| - 1 ==> requests[i] == requests[..|requests| - 1][i];
      Max(front, requests[|requests| - 1].id + 1)
  }

  /** A key answers every request as in a store without eviction exactly when its first creation is still kept,
      or it was never used. */
  lemma KeptKeysAnswerAsUnbounded(n: nat, requests: seq<Request>, key: string)
    requires FreshIds(requests)
    ensures NothingEvicted(n, requests, key) <==>
      forall q: Request {:trigger Alike(n, requests, q)} :: q.key == key && FreshId(requests, q.id) ==>
        Alike(n, requests, q)
  {
    forall q: Request | q.key == key && FreshId(requests, q.id)
      ensures Alike(n, requests, q) <==> NothingEvicted(n, requests, key) || BothRefuse(n, requests, q)
    {
      RequestsAnsweredAlikeExactly(n, requests, q);
    }
    if !NothingEvicted(n, requests, key) {
      UnboundedHoldsFirstUses(n, requests, key);
      var repeated := Request(key, Unbounded(requests)[key].fingerprint, None, NextId(requests));
      assert !BothRefuse(n, requests, repeated);
      assert !Alike(n, requests, repeated);
    }
  }

  /** A whole run is answered alike exactly when every request of it comes while nothing under its key was
      evicted, or is refused by both. */
  lemma RunsAnsweredAlikeExactly(n: nat, requests: seq<Request>)
    requires FreshIds(requests)
    ensures (forall k {:trigger requests[k]} :: 0 <= k < |requests| ==> Alike(n, requests[..k], requests[k]))
      <==> (forall k {:trigger requests[k]} :: 0 <= k < |requests| ==>
              NothingEvicted(n, requests[..k], requests[k].key) || BothRefuse(n, requests[..k], requests[k]))
  {
    forall k | 0 <= k < |requests|
      ensures Alike(n, requests[..k], requests[k])
        <==> NothingEvicted(n, requests[..k], requests[k].key) || BothRefuse(n, requests[..k], requests[k])
    {
      assert FreshIds(requests[..k]) && FreshId(requests[..k], requests[k].id);
      RequestsAnsweredAlikeExactly(n, requests[..k], requests[k]);
    }
  }

  // ---------- a run that is not answered alike ----------

  function Tick(i: nat): string { seq(i + 1, _ => 'k') }

  lemma TicksDiffer(i: nat, j: nat)
    requires i != j
    ensures Tick(i) != Tick(j)
  {
    assert |Tick(i)| != |Tick(j)|;
  }

  /** Purchases under different keys, one after the other. */
  function Ticks(m: nat, fingerprint: string, offer: string): seq<Request> {
    seq(m, i requires 0 <= i < m => Request(Tick(i), fingerprint, Some(offer), i))
  }

  lemma {:induction false} TicksAllCreate(n: nat, m: nat, fingerprint: string, offer: string)
    ensures var log := Bounded(n, Ticks(m, fingerprint, offer));
      |log| == m && forall i :: 0 <= i < m ==> log[i] == Creation(Tick(i), Order(i, fingerprint, offer))
  {
    if m > 0 {
      TicksAllCreate(n, m - 1, fingerprint, offer);
      assert Ticks(m, fingerprint, offer)[..m - 1] == Ticks(m - 1, fingerprint, offer);
      var log := Bounded(n, Ticks(m - 1, fingerprint, offer));
      var latest := LatestUse(log, Tick(m - 1));
      if latest.Some? {
        TicksDiffer(latest.value, m - 1);
      }
    }
  }

  /** With `n` orders kept: buy under one key, under `n` others, then under the first again with another request.
      A new order is created where the store without eviction refuses, and the first request, repeated, is then
      refused where that store replays its order. */
  lemma EvictedKeyIsAnsweredDifferently(n: nat, fingerprint: string, offer: string, other: string)
    requires n >= 1 && fingerprint != other
    ensures var bought := Ticks(n + 1, fingerprint, offer);
      var again := Request(Tick(0), other, Some(offer), n + 1);
      var repeated := Request(Tick(0), fingerprint, Some(offer), n + 2);
      && BoundedReply(n, bought, again) == Ok(NewOrder(again)) && UnboundedReply(bought, again) == Err(KeyReused)
      && BoundedReply(n, bought + [again], repeated) == Err(KeyReused)
      && UnboundedReply(bought + [again], repeated) == Ok(Order(0, fingerprint, offer))
  {
    var bought := Ticks(n + 1, fingerprint, offer);
    var again := Request(Tick(0), other, Some(offer), n + 1);
    TicksAllCreate(n, n + 1, fingerprint, offer);
    var log := Bounded(n, bought);
    assert log[0].key == Tick(0);
    var latest := LatestUse(log, Tick(0)).value;
    if latest > 0 {
      TicksDiffer(latest, 0);
    }
    UnboundedHoldsFirstUses(n, bought, Tick(0));
    assert (bought + [again])[..|bought|] == bought;
    assert Bounded(n, bought + [again]) == log + [Creation(Tick(0), NewOrder(again))];
    assert LatestUse(Bounded(n, bought + [again]), Tick(0)) == Some(n + 1);
    FirstUseStays(log, Creation(Tick(0), NewOrder(again)), Tick(0));
    UnboundedHoldsFirstUses(n, bought + [again], Tick(0));
  }
}
