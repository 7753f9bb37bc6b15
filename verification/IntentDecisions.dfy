/** Single-use purchase decisions of iat/buyer_identity.py: saved under an idempotency key, claimed for
    thirty seconds, and bound to at most one order. */
module IntentDecisions {
  import opened Wrappers

  const CLAIM_SECONDS: nat := 30

  datatype Decision = Decision(wallet: string, key: string, requestHash: string, createdAt: nat, expiresAt: nat,
                               consumedAt: Option<nat>, orderId: Option<string>)

  datatype Error = InvalidKey | IdempotencyConflict | NotFound | Expired | CommitInProgress

  datatype Claimed = FirstCommit | Replay(orderId: string)

  // ---------- statements on a row ----------

  predicate ClaimHeld(d: Decision, now: nat) { d.consumedAt.Some? && d.consumedAt.value + CLAIM_SECONDS > now }

  function ClaimCheck(d: Decision, now: nat): Result<Claimed, Error> {
    if d.orderId.Some? then Ok(Replay(d.orderId.value))
    else if now >= d.expiresAt then Err(Expired)
    else if ClaimHeld(d, now) then Err(CommitInProgress)
    else Ok(FirstCommit)
  }

  function ClaimRow(d: Decision, now: nat): Decision {
    if ClaimCheck(d, now) == Ok(FirstCommit) then d.(consumedAt := Some(now)) else d
  }

  predicate Finalizable(d: Decision) { d.consumedAt.Some? && d.orderId.None? }

  function FinalizeRow(d: Decision, orderId: string): Decision {
    if Finalizable(d) then d.(orderId := Some(orderId)) else d
  }

  function ReleaseRow(d: Decision): Decision { if d.orderId.None? then d.(consumedAt := None) else d }

  /** A bound decision is replayed at any time; one that is not is claimed exactly before its end, and when thirty
      seconds have passed since the last claim; otherwise it is expired first, and in progress only while it lives. */
  lemma ClaimsExactly(d: Decision, now: nat)
    ensures var c := ClaimCheck(d, now);
      var bound, alive := d.orderId.Some?, now < d.expiresAt;
      var held := d.consumedAt.Some? && now < d.consumedAt.value + 30;
      && (c.Ok? && c.value.Replay? <==> bound)
      && (bound ==> c == Ok(Replay(d.orderId.value)))
      && (c == Ok(FirstCommit) <==> !bound && alive && !held)
      && (c == Err(Expired) <==> !bound && !alive)
      && (c == Err(CommitInProgress) <==> !bound && alive && held)
      && ClaimRow(d, now) == if c == Ok(FirstCommit) then d.(consumedAt := Some(now)) else d
  {
  }

  /** An order is bound exactly to a claimed decision that has none, and a claim is given back exactly when none is. */
  lemma BindsExactly(d: Decision, orderId: string)
    ensures var after := FinalizeRow(d, orderId);
      && after.orderId == (if d.orderId.Some? then d.orderId else if d.consumedAt.Some? then Some(orderId) else None)
      && after.(orderId := d.orderId) == d
    ensures var after := ReleaseRow(d);
      && (after.consumedAt == if d.orderId.Some? then d.consumedAt else None) && after.(consumedAt := d.consumedAt) == d
  {
  }

  // ---------- the store ----------

  class DecisionStore {
    var decisions: map<string, Decision>

    constructor ()
      ensures decisions == map[]
    {
      decisions := map[];
    }

    /** One decision per wallet and key; its life is kept between thirty seconds and five minutes. */
    method Save(id: string, wallet: string, key: string, requestHash: string, ttl: int, now: nat)
      returns (r: Result<string, Error>)
      requires id !in decisions
      modifies this
      ensures !(8 <= |key| <= 128) ==> r == Err(InvalidKey)
      ensures r.Err? ==> decisions == old(decisions)
      ensures r.Ok? && r.value == id ==>
        && (forall other :: other in old(decisions) ==>
          old(decisions)[other].wallet != wallet || old(decisions)[other].key != key)
        && decisions == old(decisions)[id :=
          Decision(wallet, key, requestHash, now, now + Max(30, Min(ttl, 300)), None, None)]
      ensures r.Ok? && r.value != id ==>
        && decisions == old(decisions) && r.value in decisions
        && decisions[r.value].wallet == wallet && decisions[r.value].key == key
          && decisions[r.value].requestHash == requestHash
      ensures r == Err(IdempotencyConflict) ==>
        exists other :: other in decisions && decisions[other].wallet == wallet && decisions[other].key == key
          && decisions[other].requestHash != requestHash
    {
      if !(8 <= |key| <= 128) {
        return Err(InvalidKey);
      }
      if exists other :: other in decisions && decisions[other].wallet == wallet && decisions[other].key == key {
        var existing :| existing in decisions && decisions[existing].wallet == wallet && decisions[existing].key == key;
        if decisions[existing].requestHash != requestHash {
          return Err(IdempotencyConflict);
        }
        return Ok(existing);
      }
      var lifetime := Max(30, Min(ttl, 300));
      decisions := decisions[id := Decision(wallet, key, requestHash, now, now + lifetime, None, None)];
      r := Ok(id);
    }

    method Claim(wallet: string, id: string, now: nat) returns (r: Result<Claimed, Error>)
      modifies this
      ensures !(id in old(decisions) && old(decisions)[id].wallet == wallet) ==>
        r == Err(NotFound) && decisions == old(decisions)
      ensures id in old(decisions) && old(decisions)[id].wallet == wallet ==>
        && r == ClaimCheck(old(decisions)[id], now)
        && decisions == old(decisions)[id := ClaimRow(old(decisions)[id], now)]
    {
      if id !in decisions || decisions[id].wallet != wallet {
        return Err(NotFound);
      }
      var decision := decisions[id];
      if decision.orderId.Some? {
        return Ok(Replay(decision.orderId.value));
      }
      if now >= decision.expiresAt {
        return Err(Expired);
      }
      if decision.consumedAt.Some? && decision.consumedAt.value + CLAIM_SECONDS > now {
        return Err(CommitInProgress);
      }
      decisions := decisions[id := decision.(consumedAt := Some(now))];
      r := Ok(FirstCommit);
    }

    method Finalize(wallet: string, id: string, orderId: string) returns (changed: bool)
      modifies this
      ensures changed
        <==> id in old(decisions) && old(decisions)[id].wallet == wallet && Finalizable(old(decisions)[id])
      ensures decisions == if changed then old(decisions)[id := FinalizeRow(old(decisions)[id], orderId)]
        else old(decisions)
    {
      if id !in decisions || decisions[id].wallet != wallet || decisions[id].consumedAt.None?
        || decisions[id].orderId.Some? {
        return false;
      }
      decisions := decisions[id := decisions[id].(orderId := Some(orderId))];
      changed := true;
    }

    method Release(wallet: string, id: string) returns (changed: bool)
      modifies this
      ensures changed
        <==> id in old(decisions) && old(decisions)[id].wallet == wallet && old(decisions)[id].orderId.None?
      ensures decisions == if changed then old(decisions)[id := ReleaseRow(old(decisions)[id])] else old(decisions)
    {
      if id !in decisions || decisions[id].wallet != wallet || decisions[id].orderId.Some? {
        return false;
      }
      decisions := decisions[id := decisions[id].(consumedAt := None)];
      changed := true;
    }
  }

  // ---------- runs over one decision ----------

  datatype Step = ClaimStep(now: nat) | FinalizeStep(orderId: string) | ReleaseStep

  /** The claims that succeeded since the last release, and the orders whose finalization reported success. */
  datatype System = System(d: Decision, claims: seq<nat>, bound: seq<string>)

  function Next(s: System, step: Step): System {
    match step
    case ClaimStep(now) =>
      System(ClaimRow(s.d, now), if ClaimCheck(s.d, now) == Ok(FirstCommit) then s.claims + [now] else s.claims,
             s.bound)
    case FinalizeStep(orderId) =>
      System(FinalizeRow(s.d, orderId), s.claims, if Finalizable(s.d) then s.bound + [orderId] else s.bound)
    case ReleaseStep => System(ReleaseRow(s.d), if s.d.orderId.None? then [] else s.claims, s.bound)
  }

  function Run(s: System, steps: seq<Step>): System {
    if steps == [] then s else Next(Run(s, steps[..|steps| - 1]), steps[|steps| - 1])
  }

  predicate Saved(s: System) { s.d.consumedAt.None? && s.d.orderId.None? && s.claims == [] && s.bound == [] }

  /** Claims that were not released are thirty seconds apart, all before the decision expired. */
  predicate Valid(s: System) {
    && s.d.consumedAt == (if s.claims == [] then None else Some(s.claims[|s.claims| - 1]))
    && s.bound == (if s.d.orderId.None? then [] else [s.d.orderId.value])
    && (forall i :: 0 <= i < |s.claims| ==> s.claims[i] < s.d.expiresAt)
    && (forall i :: 0 < i < |s.claims| ==> s.claims[i - 1] + CLAIM_SECONDS <= s.claims[i])
  }

  lemma {:induction false} RunsAreValid(s: System, steps: seq<Step>)
    requires Valid(s)
    ensures Valid(Run(s, steps)) && Run(s, steps).d.expiresAt == s.d.expiresAt
  {
    if steps != [] {
      RunsAreValid(s, steps[..|steps| - 1]);
    }
  }

  /** However many workers claim, finalize and release, at most one finalization succeeds, and the decision
      stays bound to that order; claims meanwhile are thirty seconds apart. */
  lemma BoundToOneOrder(s: System, steps: seq<Step>)
    requires Saved(s)
    ensures var after := Run(s, steps);
      && |after.bound| <= 1
      && (after.bound != [] <==> after.d.orderId.Some?)
      && (after.bound != [] ==> after.d.orderId == Some(after.bound[0]))
      && forall i :: 0 < i < |after.claims| ==> after.claims[i - 1] + CLAIM_SECONDS <= after.claims[i]
  {
    RunsAreValid(s, steps);
  }

  /** A bound decision never changes again: every later claim replays its order. */
  lemma {:induction false} BoundForever(s: System, steps: seq<Step>, now: nat)
    requires s.d.orderId.Some?
    ensures Run(s, steps) == s
    ensures ClaimCheck(Run(s, steps).d, now) == Ok(Replay(s.d.orderId.value))
  {
    if steps != [] {
      BoundForever(s, steps[..|steps| - 1], now);
    }
  }

  /** Claims carry no token: when a second worker took over, the first may still finalize, and then the
      second cannot. A takeover needs thirty seconds within the life of the decision. */
  lemma TakenOverClaimStillFinalizes(s: System, first: nat, second: nat, slow: string, late: string)
    requires Saved(s)
    ensures var claimed := Next(Next(s, ClaimStep(first)), ClaimStep(second));
      && (|claimed.claims| == 2 <==> first + CLAIM_SECONDS <= second < s.d.expiresAt)
      && (|claimed.claims| == 2 ==> Next(Next(claimed, FinalizeStep(slow)), FinalizeStep(late)).bound == [slow])
  {
  }
}
