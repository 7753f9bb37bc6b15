/** The 24-hour outreach rule of iat/growth.py: at most one delivery attempt per prospect in any rolling
    window, through proposals, approvals, retries, executions and recovery of stale executions. */
module OutreachWindow {
  import opened Wrappers

  const COOLDOWN: nat := 86400

  datatype Status = Proposed | Approved | Executing | Executed | Failed | Blocked

  /** An action is named by its position; `tag` is its random id, which only breaks ties. */
  datatype Action = Action(prospect: string, campaign: string, status: Status, attempts: nat, createdAt: nat,
                           updatedAt: nat, tag: nat)

  datatype Window = Window(action: nat, reservedAt: nat)

  datatype Tables = Tables(actions: seq<Action>, windows: map<string, Window>, lastContacted: map<string, Option<nat>>)

  // ---------- eligibility ----------

  predicate Recent(t: nat, now: nat) { t + COOLDOWN > now }

  predicate Counts(a: Action, prospect: string, now: nat) {
    a.prospect == prospect && a.status != Blocked && Recent(a.createdAt, now)
  }

  /** The newest recent action that is not blocked. */
  function Newest(actions: seq<Action>, prospect: string, now: nat): (k: Option<nat>)
    ensures k.Some? ==> k.value < |actions| && Counts(actions[k.value], prospect, now)
    ensures k.Some? ==>
      forall i :: 0 <= i < |actions| && Counts(actions[i], prospect, now) ==>
        actions[i].createdAt <= actions[k.value].createdAt
    ensures k.None? ==> forall i :: 0 <= i < |actions| ==> !Counts(actions[i], prospect, now)
  {
    if actions == [] then None
    else
      var n := |actions| - 1;
      var k := Newest(actions[..n], prospect, now);
      if !Counts(actions[n], prospect, now) then k
      else if k.None? then Some(n)
      else
        var best := actions[k.value];
        if best.createdAt < actions[n].createdAt
          || (best.createdAt == actions[n].createdAt && best.tag < actions[n].tag) then Some(n) else k
  }

  datatype Eligibility = Eligibility(eligible: bool, lastOutreachAt: Option<nat>, latestAction: Option<nat>)

  function Later(a: Option<nat>, b: Option<nat>): Option<nat> {
    if a.None? then b else if b.None? then a else Some(Max(a.value, b.value))
  }

  function EligibilityOf(t: Tables, prospect: string, now: nat): Eligibility
    requires prospect in t.lastContacted
  {
    var newest := Newest(t.actions, prospect, now);
    var reserved := if prospect in t.windows && Recent(t.windows[prospect].reservedAt, now)
      then Some(t.windows[prospect]) else None;
    var byAction := if newest.Some? then Some(t.actions[newest.value].createdAt) else None;
    var byWindow := if reserved.Some? then Some(reserved.value.reservedAt) else None;
    var latest := Later(Later(t.lastContacted[prospect], byAction), byWindow);
    Eligibility(latest.None? || !Recent(latest.value, now), latest,
                if reserved.Some? then Some(reserved.value.action) else newest)
  }

  /** Eligible means exactly that nothing recent is on record: no contact, no action, no window. */
  lemma EligibleExactly(t: Tables, prospect: string, now: nat)
    requires prospect in t.lastContacted
    ensures EligibilityOf(t, prospect, now).eligible <==>
      && (t.lastContacted[prospect].Some? ==> !Recent(t.lastContacted[prospect].value, now))
      && (prospect in t.windows ==> !Recent(t.windows[prospect].reservedAt, now))
      && (forall i :: 0 <= i < |t.actions| ==> !Counts(t.actions[i], prospect, now))
  {
  }

  // ---------- transactions ----------

  /** The campaign, policy, suppression and delivery-health checks made before a proposal. */
  datatype Screening = Skip | MayPropose | MustBlock

  predicate AlreadyProposed(t: Tables, prospect: string, campaign: string) {
    exists a :: a in t.actions && a.prospect == prospect && a.campaign == campaign
  }

  predicate WindowOpen(t: Tables, prospect: string, now: nat) {
    prospect in t.windows ==> t.windows[prospect].reservedAt + COOLDOWN <= now
  }

  /** The insertion of a proposal, a transaction of its own: it looks at the campaign and at the window only. */
  function InsertTx(t: Tables, prospect: string, campaign: string, screening: Screening, tag: nat, now: nat): Tables {
    if prospect !in t.lastContacted || screening == Skip || AlreadyProposed(t, prospect, campaign) then t
    else if screening == MustBlock then
      t.(actions := t.actions + [Action(prospect, campaign, Blocked, 0, now, now, tag)])
    else if WindowOpen(t, prospect, now) then
      t.(actions := t.actions + [Action(prospect, campaign, Proposed, 0, now, now, tag)],
         windows := t.windows[prospect := Window(|t.actions|, now)])
    else t
  }

  /** A proposal with nothing between its check and its insertion. */
  function ProposeTx(t: Tables, prospect: string, campaign: string, screening: Screening, tag: nat, now: nat): Tables {
    if prospect in t.lastContacted && EligibilityOf(t, prospect, now).eligible
      then InsertTx(t, prospect, campaign, screening, tag, now) else t
  }

  function SetStatus(t: Tables, id: nat, status: Status, now: nat): Tables
    requires id < |t.actions|
  {
    t.(actions := t.actions[id := t.actions[id].(status := status, updatedAt := now)])
  }

  function ApproveTx(t: Tables, id: nat, now: nat): Tables {
    if id < |t.actions| && t.actions[id].status != Blocked && t.actions[id].status != Executed
      then SetStatus(t, id, Approved, now) else t
  }

  function RetryTx(t: Tables, id: nat, now: nat): Tables {
    if id < |t.actions| && t.actions[id].status == Failed && t.actions[id].attempts < 3
       && t.actions[id].prospect in t.lastContacted && EligibilityOf(t, t.actions[id].prospect, now).eligible
    then SetStatus(t, id, Approved, now) else t
  }

  /** The action being executed is excused from the window its own proposal opened. */
  predicate MayAttempt(t: Tables, id: nat, now: nat) {
    && id < |t.actions| && t.actions[id].status == Approved && t.actions[id].prospect in t.lastContacted
    && var e := EligibilityOf(t, t.actions[id].prospect, now);
      e.eligible || e.latestAction == Some(id)
  }

  function ClaimTx(t: Tables, id: nat, now: nat): Tables
    requires id < |t.actions|
  {
    SetStatus(t, id, Executing, now).(lastContacted := t.lastContacted[t.actions[id].prospect := Some(now)])
  }

  function FinishTx(t: Tables, id: nat, delivered: bool, now: nat): Tables {
    if id < |t.actions| then
      var a := t.actions[id];
      t.(actions := t.actions[id :=
        a.(status := if delivered then Executed else Failed, attempts := a.attempts + 1, updatedAt := now)])
    else t
  }

  function RecoverRow(a: Action, now: nat, staleAfter: nat): Action {
    if a.status == Executing && a.updatedAt + Max(60, staleAfter) < now
      then a.(status := Failed, updatedAt := now) else a
  }

  function RecoverTx(t: Tables, now: nat, staleAfter: nat): Tables {
    t.(actions := seq(|t.actions|, i requires 0 <= i < |t.actions| => RecoverRow(t.actions[i], now, staleAfter)))
  }

  // ---------- the store ----------

  datatype Refusal = ProspectNotFound | Skipped | InCooldown | AlreadyExists | ActionNotFound | ApprovalIncomplete
    | BlockedAction
    | AlreadyExecuted | OnlyFailed | RetryLimit | MustBeApproved | NotPermitted | ClaimFailed

  class GrowthStore {
    var actions: seq<Action>
    var windows: map<string, Window>
    var lastContacted: map<string, Option<nat>>

    function T(): Tables
      reads this
    {
      Tables(actions, windows, lastContacted)
    }

    /** The check before a proposal. */
    method CheckProposal(prospect: string, screening: Screening, now: nat) returns (r: Result<(), Refusal>)
      ensures r == if prospect !in lastContacted then Err(ProspectNotFound)
                   else if screening == Skip then Err(Skipped)
                   else if !EligibilityOf(T(), prospect, now).eligible then Err(InCooldown) else Ok(())
    {
      if prospect !in lastContacted {
        return Err(ProspectNotFound);
      }
      if screening == Skip {
        return Err(Skipped);
      }
      var eligibility := EligibilityOf(T(), prospect, now);
      r := if eligibility.eligible then Ok(()) else Err(InCooldown);
    }

    /** The insertion: the upsert of the window refuses while the old one is less than a day old. */
    method InsertProposal(prospect: string, campaign: string, screening: Screening, tag: nat, now: nat)
      returns (r: Result<nat, Refusal>)
      requires prospect in lastContacted && screening != Skip
      modifies this`actions, this`windows
      ensures T() == InsertTx(old(T()), prospect, campaign, screening, tag, now)
      ensures r.Ok? ==> r.value == old(|actions|) == |actions| - 1
      ensures r.Err? <==> T() == old(T())
      ensures r == Err(AlreadyExists) <==> AlreadyProposed(old(T()), prospect, campaign)
    {
      if exists a :: a in actions && a.prospect == prospect && a.campaign == campaign {
        return Err(AlreadyExists);
      }
      var id := |actions|;
      if screening == MayPropose {
        if prospect in windows && windows[prospect].reservedAt + COOLDOWN > now {
          return Err(InCooldown);
        }
        windows := windows[prospect := Window(id, now)];
      }
      actions := actions + [Action(prospect, campaign, if screening == MayPropose then Proposed else Blocked, 0, now,
                                   now, tag)];
      r := Ok(id);
    }

    method ProposeAction(prospect: string, campaign: string, screening: Screening, tag: nat, now: nat)
      returns (r: Result<nat, Refusal>)
      modifies this`actions, this`windows
      ensures T() == ProposeTx(old(T()), prospect, campaign, screening, tag, now)
      ensures r.Ok? ==> r.value == old(|actions|) == |actions| - 1
      ensures r.Err? <==> T() == old(T())
    {
      var checked := CheckProposal(prospect, screening, now);
      if checked.Err? {
        return Err(checked.error);
      }
      r := InsertProposal(prospect, campaign, screening, tag, now);
    }

    method ApproveAction(id: nat, complete: bool, now: nat) returns (r: Result<(), Refusal>)
      modifies this`actions
      ensures T() == if complete then ApproveTx(old(T()), id, now) else old(T())
      ensures r.Ok? <==> complete && id < |old(actions)| && old(actions)[id].status !in {Blocked, Executed}
    {
      if !complete {
        return Err(ApprovalIncomplete);
      }
      if id >= |actions| {
        return Err(ActionNotFound);
      }
      if actions[id].status == Blocked {
        return Err(BlockedAction);
      }
      if actions[id].status == Executed {
        return Err(AlreadyExecuted);
      }
      actions := actions[id := actions[id].(status := Approved, updatedAt := now)];
      r := Ok(());
    }

    method RetryAction(id: nat, now: nat) returns (r: Result<(), Refusal>)
      requires forall i :: 0 <= i < |actions| ==> actions[i].prospect in lastContacted
      modifies this`actions
      ensures T() == RetryTx(old(T()), id, now)
      ensures r.Ok? ==>
        id < |actions| == |old(actions)| && old(actions)[id].status == Failed && actions[id].status == Approved
          && old(actions)[id].attempts < 3
    {
      if id >= |actions| {
        return Err(ActionNotFound);
      }
      if actions[id].status != Failed {
        return Err(OnlyFailed);
      }
      if actions[id].attempts >= 3 {
        return Err(RetryLimit);
      }
      var eligibility := EligibilityOf(T(), actions[id].prospect, now);
      if !eligibility.eligible {
        return Err(InCooldown);
      }
      actions := actions[id := actions[id].(status := Approved, updatedAt := now)];
      r := Ok(());
    }

    /** The checks before an execution, in a transaction of their own; `permitted` are the outbound,
        authorization and endpoint checks. */
    method CheckExecution(id: nat, permitted: bool, now: nat) returns (r: Result<(), Refusal>)
      requires forall i :: 0 <= i < |actions| ==> actions[i].prospect in lastContacted
      ensures r.Ok? <==> permitted && MayAttempt(T(), id, now)
      ensures r == Err(ActionNotFound) <==> id >= |actions|
      ensures r == Err(AlreadyExecuted) <==> id < |actions| && actions[id].status == Executed
    {
      if id >= |actions| {
        return Err(ActionNotFound);
      }
      var action := actions[id];
      if action.status == Executed {
        return Err(AlreadyExecuted);
      }
      if action.status != Approved {
        return Err(MustBeApproved);
      }
      if !permitted {
        return Err(NotPermitted);
      }
      var eligibility := EligibilityOf(T(), action.prospect, now);
      if !eligibility.eligible && eligibility.latestAction != Some(id) {
        return Err(InCooldown);
      }
      r := Ok(());
    }

    /** The claim that follows, in another transaction: it asks for the status alone. */
    method ClaimExecution(id: nat, now: nat) returns (r: Result<(), Refusal>)
      modifies this`actions, this`lastContacted
      ensures r.Ok? <==> id < |old(actions)| && old(actions)[id].status == Approved
      ensures r.Ok? ==> T() == ClaimTx(old(T()), id, now)
      ensures r.Err? ==> T() == old(T())
    {
      if id >= |actions| || actions[id].status != Approved {
        return Err(ClaimFailed);
      }
      actions := actions[id := actions[id].(status := Executing, updatedAt := now)];
      lastContacted := lastContacted[actions[id].prospect := Some(now)];
      r := Ok(());
    }

    method FinishExecution(id: nat, delivered: bool, now: nat)
      modifies this`actions
      ensures T() == FinishTx(old(T()), id, delivered, now)
    {
      if id < |actions| {
        var action := actions[id].(attempts := actions[id].attempts + 1, updatedAt := now);
        actions := actions[id := action.(status := if delivered then Executed else Failed)];
      }
    }

    method RecoverStaleActions(now: nat, staleAfter: nat) returns (recovered: nat)
      modifies this`actions
      ensures T() == RecoverTx(old(T()), now, staleAfter)
      ensures recovered == 0 <==> T() == old(T())
    {
      recovered := 0;
      for i := 0 to |actions|
        invariant |actions| == |old(actions)| && (recovered == 0 <==> actions == old(actions))
        invariant windows == old(windows) && lastContacted == old(lastContacted)
        invariant forall k :: 0 <= k < i ==> actions[k] == RecoverRow(old(actions)[k], now, staleAfter)
        invariant forall k :: i <= k < |actions| ==> actions[k] == old(actions)[k]
      {
        if actions[i].status == Executing && actions[i].updatedAt + Max(60, staleAfter) < now {
          actions := actions[i := actions[i].(status := Failed, updatedAt := now)];
          assert actions[i] != old(actions)[i];
          recovered := recovered + 1;
        }
      }
    }
  }
}
