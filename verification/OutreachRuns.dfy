/** Whole runs of the outreach rule: attempts to one prospect stay a day apart, and what breaks it. */
module OutreachRuns {
  import opened Wrappers
  import opened OutreachWindow

  datatype Attempt = Attempt(action: nat, prospect: string, at: nat)

  datatype System = System(t: Tables, clock: nat, log: seq<Attempt>)

  const START := System(Tables([], map[], map[]), 0, [])

  /** The checks before an insertion and before a claim only read, so either may rest on a check of any age, or on
      one that another executor used before. */
  datatype Step =
    | Discover(prospect: string, now: nat)
    | Insert(prospect: string, campaign: string, screening: Screening, tag: nat, now: nat)
    | Approve(id: nat, now: nat)
    | Retry(id: nat, now: nat)
    | Claim(id: nat, now: nat)
    | Finish(id: nat, delivered: bool, now: nat)
    | Recover(staleAfter: nat, now: nat)

  /** The claim only asks whether the action is still approved. */
  function ClaimStep(s: System, id: nat, now: nat): System {
    if id < |s.t.actions| && s.t.actions[id].status == Approved
    then System(ClaimTx(s.t, id, now), now, s.log + [Attempt(id, s.t.actions[id].prospect, now)])
    else s.(clock := now)
  }

  function Next(s: System, step: Step): System {
    match step
    case Discover(p, now) =>
      s.(t := if p in s.t.lastContacted then s.t else s.t.(lastContacted := s.t.lastContacted[p := None]), clock := now)
    case Insert(p, c, screening, tag, now) => s.(t := InsertTx(s.t, p, c, screening, tag, now), clock := now)
    case Approve(id, now) => s.(t := ApproveTx(s.t, id, now), clock := now)
    case Retry(id, now) => s.(t := RetryTx(s.t, id, now), clock := now)
    case Claim(id, now) => ClaimStep(s, id, now)
    case Finish(id, delivered, now) => s.(t := FinishTx(s.t, id, delivered, now), clock := now)
    case Recover(staleAfter, now) => s.(t := RecoverTx(s.t, now, staleAfter), clock := now)
  }

  function Run(steps: seq<Step>): System {
    if steps == [] then START else Next(Run(steps[..|steps| - 1]), steps[|steps| - 1])
  }

  // ---------- the guard on approvals ----------

  /** The action opened its prospect's window less than a day ago. */
  predicate OwnsOpenWindow(t: Tables, id: nat, now: nat)
    requires id < |t.actions|
  {
    var p := t.actions[id].prospect;
    p in t.windows && t.windows[p].action == id && Recent(t.windows[p].reservedAt, now)
  }

  /** An approval does not re-arm an action that was already tried inside its own window. */
  predicate ApprovalGuard(t: Tables, id: nat, now: nat) {
    id < |t.actions| ==> !(t.actions[id].status in {Executing, Failed} && OwnsOpenWindow(t, id, now))
  }

  /** An execution reports its end after its claim, however late. */
  predicate WasClaimed(log: seq<Attempt>, id: nat) { exists i :: 0 <= i < |log| && log[i].action == id }

  /** A claim finds that its action may still be attempted. */
  predicate ClaimGuard(t: Tables, id: nat, now: nat) {
    id < |t.actions| && t.actions[id].status == Approved ==> MayAttempt(t, id, now)
  }

  /** An insertion that opens a window finds its prospect still eligible. */
  predicate InsertGuard(t: Tables, prospect: string, now: nat) {
    prospect in t.lastContacted && WindowOpen(t, prospect, now) ==> EligibilityOf(t, prospect, now).eligible
  }

  predicate Guarded(s: System, step: Step) {
    && s.clock <= step.now
    && (step.Insert? && step.screening == MayPropose ==> InsertGuard(s.t, step.prospect, step.now))
    && (step.Claim? ==> ClaimGuard(s.t, step.id, step.now))
    && (step.Approve? ==> ApprovalGuard(s.t, step.id, step.now))
    && (step.Finish? ==> WasClaimed(s.log, step.id))
  }

  predicate Disciplined(steps: seq<Step>) {
    steps == [] || (Disciplined(steps[..|steps| - 1]) && Guarded(Run(steps[..|steps| - 1]), steps[|steps| - 1]))
  }

  // ---------- the invariant ----------

  predicate Silent(last: Option<nat>, since: nat) { last.Some? ==> last.value + COOLDOWN <= since }

  predicate Tried(s: Status) { s == Executing || s == Failed || s == Executed }

  /** The window belongs to the newest proposal; until that is tried, its window is free of attempts. */
  predicate WindowValid(t: Tables, p: string, clock: nat)
    requires p in t.lastContacted && p in t.windows
  {
    var w := t.windows[p];
    && w.action < |t.actions| && w.reservedAt <= clock
    && var a := t.actions[w.action];
      && a.prospect == p && a.createdAt == w.reservedAt && a.status != Blocked
      && (Recent(w.reservedAt, clock) && !Tried(a.status) ==> Silent(t.lastContacted[p], w.reservedAt))
      && (Tried(a.status) ==> t.lastContacted[p].Some? && t.lastContacted[p].value >= w.reservedAt)
  }

  /** Every action that is not blocked opened a window, and the newest such window is on record. */
  predicate ActionValid(t: Tables, i: nat)
    requires i < |t.actions|
  {
    var a := t.actions[i];
    && a.prospect in t.lastContacted
    && (a.status != Blocked ==> a.prospect in t.windows && a.createdAt <= t.windows[a.prospect].reservedAt)
  }

  ghost predicate TablesValid(t: Tables, clock: nat) {
    && (forall p {:trigger t.windows[p]} :: p in t.windows ==> p in t.lastContacted && WindowValid(t, p, clock))
    && (forall i: nat {:trigger ActionValid(t, i)} :: i < |t.actions| ==> ActionValid(t, i))
  }

  /** Attempts to one prospect are at least a day apart. */
  predicate Spaced(log: seq<Attempt>) {
    forall i, j :: 0 <= i < j < |log| && log[i].prospect == log[j].prospect ==> log[i].at + COOLDOWN <= log[j].at
  }

  /** A logged attempt was of an action that opened a window, and is no later than the last contact. */
  predicate EntryValid(e: Attempt, t: Tables) {
    && e.action < |t.actions| && t.actions[e.action].prospect == e.prospect
    && t.actions[e.action].status != Blocked && t.actions[e.action].createdAt <= e.at
    && e.prospect in t.lastContacted && t.lastContacted[e.prospect].Some? && e.at <= t.lastContacted[e.prospect].value
  }

  ghost predicate LogValid(log: seq<Attempt>, t: Tables) {
    forall i {:trigger log[i]} :: 0 <= i < |log| ==> EntryValid(log[i], t)
  }

  ghost predicate Valid(s: System) { TablesValid(s.t, s.clock) && LogValid(s.log, s.t) && Spaced(s.log) }

  // ---------- what the rule guarantees ----------

  /** An attempt that the rule allows comes at least a day after the last one. */
  lemma AllowedAttemptIsSpaced(t: Tables, clock: nat, id: nat, now: nat)
    requires TablesValid(t, clock) && clock <= now && MayAttempt(t, id, now)
    ensures Silent(t.lastContacted[t.actions[id].prospect], now)
  {
    var p := t.actions[id].prospect;
    var e := EligibilityOf(t, p, now);
    EligibleExactly(t, p, now);
    assert ActionValid(t, id);
    if !e.eligible {
      assert WindowValid(t, p, clock);
      var newest := Newest(t.actions, p, now);
      if newest.Some? {
        assert ActionValid(t, newest.value);
      }
    }
  }

  lemma TimePasses(t: Tables, clock: nat, now: nat)
    requires TablesValid(t, clock) && clock <= now
    ensures TablesValid(t, now)
  {
    forall p | p in t.windows ensures p in t.lastContacted && WindowValid(t, p, now) {
      assert WindowValid(t, p, clock);
    }
  }

  lemma InsertKeepsValid(t: Tables, p: string, c: string, screening: Screening, tag: nat, now: nat)
    requires TablesValid(t, now) && (screening == MayPropose ==> InsertGuard(t, p, now))
    ensures TablesValid(InsertTx(t, p, c, screening, tag, now), now)
  {
    var after := InsertTx(t, p, c, screening, tag, now);
    if after != t {
      EligibleExactly(t, p, now);
      forall q | q in after.windows ensures q in after.lastContacted && WindowValid(after, q, now) {
        assert q in t.windows ==> WindowValid(t, q, now);
      }
      forall i: nat | i < |after.actions| ensures ActionValid(after, i) {
        if i < |t.actions| {
          assert ActionValid(t, i);
          if t.actions[i].prospect in t.windows {
            assert WindowValid(t, t.actions[i].prospect, now);
          }
        }
      }
    }
  }

  /** A change of one action's status, when it keeps that action's window valid. */
  lemma StatusChangeKeepsValid(t: Tables, id: nat, a: Action, clock: nat)
    requires TablesValid(t, clock) && id < |t.actions|
    requires a.prospect == t.actions[id].prospect && a.createdAt == t.actions[id].createdAt
    requires a.status != Blocked && t.actions[id].status != Blocked
    requires a.prospect in t.windows && t.windows[a.prospect].action == id ==>
      WindowValid(t.(actions := t.actions[id := a]), a.prospect, clock)
    ensures TablesValid(t.(actions := t.actions[id := a]), clock)
  {
    var after := t.(actions := t.actions[id := a]);
    forall p | p in after.windows ensures p in after.lastContacted && WindowValid(after, p, clock) {
      assert WindowValid(t, p, clock);
    }
    forall i: nat | i < |after.actions| ensures ActionValid(after, i) {
      assert ActionValid(t, i);
    }
  }

  lemma ApproveKeepsValid(t: Tables, id: nat, now: nat)
    requires TablesValid(t, now) && ApprovalGuard(t, id, now)
    ensures TablesValid(ApproveTx(t, id, now), now)
  {
    if id < |t.actions| && t.actions[id].status != Blocked && t.actions[id].status != Executed {
      assert ActionValid(t, id);
      assert WindowValid(t, t.actions[id].prospect, now);
      StatusChangeKeepsValid(t, id, t.actions[id].(status := Approved, updatedAt := now), now);
    }
  }

  lemma RetryKeepsValid(t: Tables, id: nat, now: nat)
    requires TablesValid(t, now)
    ensures TablesValid(RetryTx(t, id, now), now)
  {
    if RetryTx(t, id, now) != t {
      assert ActionValid(t, id);
      EligibleExactly(t, t.actions[id].prospect, now);
      assert WindowValid(t, t.actions[id].prospect, now);
      StatusChangeKeepsValid(t, id, t.actions[id].(status := Approved, updatedAt := now), now);
    }
  }

  lemma ClaimKeepsValid(t: Tables, id: nat, now: nat)
    requires TablesValid(t, now) && MayAttempt(t, id, now)
    ensures TablesValid(ClaimTx(t, id, now), now)
  {
    var after := ClaimTx(t, id, now);
    var p := t.actions[id].prospect;
    EligibleExactly(t, p, now);
    forall q | q in after.windows ensures q in after.lastContacted && WindowValid(after, q, now) {
      assert WindowValid(t, q, now);
      if q == p {
        var newest := Newest(t.actions, p, now);
        if newest.Some? {
          assert ActionValid(t, newest.value);
        }
      }
    }
    forall i: nat | i < |after.actions| ensures ActionValid(after, i) {
      assert ActionValid(t, i) && ActionValid(t, id);
    }
  }

  lemma FinishKeepsValid(t: Tables, log: seq<Attempt>, id: nat, delivered: bool, now: nat)
    requires TablesValid(t, now) && LogValid(log, t) && WasClaimed(log, id)
    ensures TablesValid(FinishTx(t, id, delivered, now), now)
  {
    var i :| 0 <= i < |log| && log[i].action == id;
    assert EntryValid(log[i], t) && ActionValid(t, id);
    assert WindowValid(t, t.actions[id].prospect, now);
    var a := t.actions[id];
    StatusChangeKeepsValid(t, id,
                           a.(status := if delivered then Executed else Failed, attempts := a.attempts + 1,
                              updatedAt := now), now);
  }

  lemma RecoverKeepsValid(t: Tables, now: nat, staleAfter: nat)
    requires TablesValid(t, now)
    ensures TablesValid(RecoverTx(t, now, staleAfter), now)
  {
    var after := RecoverTx(t, now, staleAfter);
    forall p | p in after.windows ensures p in after.lastContacted && WindowValid(after, p, now) {
      assert WindowValid(t, p, now);
    }
    forall i: nat | i < |after.actions| ensures ActionValid(after, i) {
      assert ActionValid(t, i);
    }
  }

  predicate NotEarlier(last: Option<nat>, after: Option<nat>) {
    last.Some? ==> after.Some? && last.value <= after.value
  }

  /** Steps that append actions, change statuses or contact prospects later keep what the log says. */
  lemma LogStays(log: seq<Attempt>, t: Tables, after: Tables)
    requires LogValid(log, t)
    requires |t.actions| <= |after.actions|
    requires forall i :: 0 <= i < |t.actions| ==>
      && after.actions[i].prospect == t.actions[i].prospect && after.actions[i].createdAt == t.actions[i].createdAt
      && (t.actions[i].status != Blocked ==> after.actions[i].status != Blocked)
    requires forall p :: p in t.lastContacted ==>
      p in after.lastContacted && NotEarlier(t.lastContacted[p], after.lastContacted[p])
    ensures LogValid(log, after)
  {
    forall i | 0 <= i < |log| ensures EntryValid(log[i], after) {
      assert EntryValid(log[i], t);
    }
  }

  lemma ClaimStepKeepsValid(s: System, id: nat, now: nat)
    requires Valid(s) && s.clock == now && ClaimGuard(s.t, id, now)
    ensures Valid(ClaimStep(s, id, now))
  {
    if id < |s.t.actions| && s.t.actions[id].status == Approved {
      var p := s.t.actions[id].prospect;
      var after := ClaimTx(s.t, id, now);
      ClaimKeepsValid(s.t, id, now);
      AllowedAttemptIsSpaced(s.t, now, id, now);
      LogStays(s.log, s.t, after);
      assert ActionValid(s.t, id);
      if p in s.t.windows {
        assert WindowValid(s.t, p, now);
      }
      var log := s.log + [Attempt(id, p, now)];
      forall i | 0 <= i < |log| ensures EntryValid(log[i], after) {
        if i < |s.log| {
          assert EntryValid(s.log[i], after);
        }
      }
      forall i, j | 0 <= i < j < |log| && log[i].prospect == log[j].prospect ensures log[i].at + COOLDOWN <= log[j].at {
        assert EntryValid(s.log[i], s.t);
      }
    }
  }

  lemma NextKeepsValid(s: System, step: Step)
    requires Valid(s) && Guarded(s, step)
    ensures Valid(Next(s, step))
  {
    TimePasses(s.t, s.clock, step.now);
    var after := Next(s, step);
    match step
    case Discover(p, now) => DiscoverKeepsValid(s.t, p, now); LogStays(s.log, s.t, after.t);
    case Insert(p, c, screening, tag, now) =>
      InsertKeepsValid(s.t, p, c, screening, tag, now);
      LogStays(s.log, s.t, after.t);
    case Approve(id, now) => ApproveKeepsValid(s.t, id, now); LogStays(s.log, s.t, after.t);
    case Retry(id, now) => RetryKeepsValid(s.t, id, now); LogStays(s.log, s.t, after.t);
    case Claim(id, now) => ClaimStepKeepsValid(s.(clock := now), id, now);
    case Finish(id, delivered, now) => FinishKeepsValid(s.t, s.log, id, delivered, now); LogStays(s.log, s.t, after.t);
    case Recover(staleAfter, now) => RecoverKeepsValid(s.t, now, staleAfter); LogStays(s.log, s.t, after.t);
  }

  lemma DiscoverKeepsValid(t: Tables, p: string, now: nat)
    requires TablesValid(t, now)
    ensures TablesValid(if p in t.lastContacted then t else t.(lastContacted := t.lastContacted[p := None]), now)
  {
    if p !in t.lastContacted {
      var after := t.(lastContacted := t.lastContacted[p := None]);
      forall q | q in after.windows ensures q in after.lastContacted && WindowValid(after, q, now) {
        assert q in t.lastContacted && WindowValid(t, q, now);
      }
      forall i: nat | i < |after.actions| ensures ActionValid(after, i) {
        assert ActionValid(t, i);
      }
    }
  }

  lemma {:induction false} DisciplinedKeepsValid(steps: seq<Step>)
    requires Disciplined(steps)
    ensures Valid(Run(steps))
  {
    if steps != [] {
      DisciplinedKeepsValid(steps[..|steps| - 1]);
      NextKeepsValid(Run(steps[..|steps| - 1]), steps[|steps| - 1]);
    }
  }

  /** On every run whose clock does not run back, whose approvals keep their guard, whose claims find their
      action still attemptable and whose insertions find their prospect still eligible, any two attempts to one
      prospect are at least a day apart, whatever happens between a check and what follows it. */
  lemma AttemptsAreADayApart(steps: seq<Step>, i: nat, j: nat)
    requires Disciplined(steps) && i < j < |Run(steps).log|
    requires Run(steps).log[i].prospect == Run(steps).log[j].prospect
    ensures Run(steps).log[i].at + COOLDOWN <= Run(steps).log[j].at
  {
    DisciplinedKeepsValid(steps);
  }

  /** Successive windows of a prospect open at least a day apart, on every run whatever was approved. */
  lemma {:induction false} WindowsAreADayApart(steps: seq<Step>, k: nat, p: string)
    requires k <= |steps| && p in Run(steps[..k]).t.windows
    ensures p in Run(steps).t.windows
    ensures Run(steps).t.windows[p] == Run(steps[..k]).t.windows[p]
      || Run(steps[..k]).t.windows[p].reservedAt + COOLDOWN <= Run(steps).t.windows[p].reservedAt
    decreases |steps|
  {
    if k == |steps| {
      assert steps[..k] == steps;
    } else {
      var front := steps[..|steps| - 1];
      assert front[..k] == steps[..k];
      WindowsAreADayApart(front, k, p);
      var s := Run(front);
      var step := steps[|steps| - 1];
      if step.Insert? && InsertTx(s.t, step.prospect, step.campaign, step.screening, step.tag,
                                  step.now).windows != s.t.windows {
        assert WindowOpen(s.t, step.prospect, step.now);
      }
    }
  }

  // ---------- where the rule ends ----------

  /** An approval lets its action be attempted too early, at once, exactly when it breaks the guard. */
  lemma ApprovalIsSafeExactly(t: Tables, id: nat, now: nat)
    requires TablesValid(t, now) && id < |t.actions| && t.actions[id].status !in {Blocked, Executed}
    ensures var after := ApproveTx(t, id, now);
      (MayAttempt(after, id, now) ==> Silent(after.lastContacted[t.actions[id].prospect], now))
        <==> ApprovalGuard(t, id, now)
  {
    var after := ApproveTx(t, id, now);
    var p := t.actions[id].prospect;
    assert ActionValid(t, id);
    assert WindowValid(t, p, now);
    if ApprovalGuard(t, id, now) {
      ApproveKeepsValid(t, id, now);
      if MayAttempt(after, id, now) {
        AllowedAttemptIsSpaced(after, now, id, now);
      }
    }
  }

  /** With nothing in between, a check does not age: a claim or an insertion that rests on it keeps the guard at
      any later time. */
  lemma ChecksDoNotAge(s: System, id: nat, p: string, c: string, tag: nat, checkedAt: nat, now: nat)
    requires TablesValid(s.t, s.clock) && s.clock <= checkedAt <= now
    ensures MayAttempt(s.t, id, checkedAt) ==> Guarded(s, Claim(id, now)) && MayAttempt(s.t, id, now)
    ensures p in s.t.lastContacted && EligibilityOf(s.t, p, checkedAt).eligible ==>
      Guarded(s, Insert(p, c, MayPropose, tag, now)) && EligibilityOf(s.t, p, now).eligible
  {
    if p in s.t.lastContacted {
      EligibleExactly(s.t, p, checkedAt);
      EligibleExactly(s.t, p, now);
    }
    if MayAttempt(s.t, id, checkedAt) {
      var q := s.t.actions[id].prospect;
      AllowedAttemptIsSpaced(s.t, s.clock, id, checkedAt);
      EligibleExactly(s.t, q, checkedAt);
      EligibleExactly(s.t, q, now);
      TimePasses(s.t, s.clock, now);
      RecentActionsHaveWindows(s.t, q, now);
      TimePasses(s.t, s.clock, checkedAt);
      RecentActionsHaveWindows(s.t, q, checkedAt);
    }
  }

  function LastContact(t: Tables, prospect: string): Option<nat> {
    if prospect in t.lastContacted then t.lastContacted[prospect] else None
  }

  /** A claim comes a day after the last contact, and leaves the windows in order, exactly when its action may
      be attempted at that very moment: so the check has to be made again inside the claim. */
  lemma ClaimIsSafeExactly(t: Tables, id: nat, now: nat)
    requires TablesValid(t, now) && id < |t.actions| && t.actions[id].status == Approved
    ensures Silent(LastContact(t, t.actions[id].prospect), now) && TablesValid(ClaimTx(t, id, now), now)
      <==> MayAttempt(t, id, now)
  {
    var p := t.actions[id].prospect;
    assert ActionValid(t, id);
    if MayAttempt(t, id, now) {
      AllowedAttemptIsSpaced(t, now, id, now);
      ClaimKeepsValid(t, id, now);
    } else {
      EligibleExactly(t, p, now);
      assert WindowValid(t, p, now);
      var newest := Newest(t.actions, p, now);
      if newest.Some? {
        assert ActionValid(t, newest.value);
      }
      if Silent(t.lastContacted[p], now) {
        assert !WindowValid(ClaimTx(t, id, now), p, now);
      }
    }
  }

  /** Otherwise a proposal that slips in between, when the older action was found eligible, opens a window whose
      action may be attempted right after the older one. */
  lemma ProposalBetweenCheckAndClaim(t: Tables, checked: nat, campaign: string, tag: nat, now: nat)
    requires TablesValid(t, now) && MayAttempt(t, checked, now)
    requires EligibilityOf(t, t.actions[checked].prospect, now).eligible
    requires !AlreadyProposed(t, t.actions[checked].prospect, campaign)
    ensures var p := t.actions[checked].prospect;
      var proposed := ProposeTx(t, p, campaign, MayPropose, tag, now);
      var newest := |t.actions|;
      var after := ApproveTx(ClaimTx(proposed, checked, now), newest, now);
      && !MayAttempt(proposed, checked, now)
      && MayAttempt(after, newest, now) && after.lastContacted[p] == Some(now)
  {
    EligibleExactly(t, t.actions[checked].prospect, now);
    var proposed := ProposeTx(t, t.actions[checked].prospect, campaign, MayPropose, tag, now);
    EligibleExactly(proposed, t.actions[checked].prospect, now);
  }

  lemma RecentActionsHaveWindows(t: Tables, p: string, now: nat)
    requires TablesValid(t, now)
    ensures forall i :: 0 <= i < |t.actions| && Counts(t.actions[i], p, now) ==>
      p in t.windows && Recent(t.windows[p].reservedAt, now)
  {
    forall i | 0 <= i < |t.actions| && Counts(t.actions[i], p, now)
      ensures p in t.windows && Recent(t.windows[p].reservedAt, now)
    {
      assert ActionValid(t, i);
    }
  }

  /** The same of proposals: where the window is open, an insertion leaves the windows in order exactly when its
      prospect is eligible at that very moment. */
  lemma InsertIsSafeExactly(t: Tables, p: string, c: string, tag: nat, now: nat)
    requires TablesValid(t, now) && p in t.lastContacted && WindowOpen(t, p, now) && !AlreadyProposed(t, p, c)
    ensures TablesValid(InsertTx(t, p, c, MayPropose, tag, now), now) <==> EligibilityOf(t, p, now).eligible
  {
    EligibleExactly(t, p, now);
    RecentActionsHaveWindows(t, p, now);
    if EligibilityOf(t, p, now).eligible {
      InsertKeepsValid(t, p, c, MayPropose, tag, now);
    } else {
      assert p in t.windows ==> WindowValid(t, p, now);
      assert !WindowValid(InsertTx(t, p, c, MayPropose, tag, now), p, now);
    }
  }

  // ---------- the rule is sharp ----------

  lemma RunOneMore(steps: seq<Step>, step: Step)
    ensures Run(steps + [step]) == Next(Run(steps), step)
    ensures Disciplined(steps + [step]) <==> Disciplined(steps) && Guarded(Run(steps), step)
  {
    assert (steps + [step])[..|steps|] == steps;
  }

  /** A prospect is discovered, proposed to, and the approved action is attempted and never reported back. */
  function FirstDay(p: string, c: string, tag: nat): seq<Step> {
    [Discover(p, 0), Insert(p, c, MayPropose, tag, 0), Approve(0, 0), Claim(0, 0)]
  }

  /** A day later the execution is recovered, retried, attempted again and reported. */
  function NextDay(): seq<Step> {
    [Recover(60, COOLDOWN), Retry(0, COOLDOWN), Claim(0, COOLDOWN), Finish(0, true, COOLDOWN)]
  }

  lemma FirstDayAttempts(p: string, c: string, tag: nat)
    ensures Disciplined(FirstDay(p, c, tag))
    ensures Run(FirstDay(p, c, tag)) ==
      System(Tables([Action(p, c, Executing, 0, 0, 0, tag)], map[p := Window(0, 0)], map[p := Some(0)]), 0,
             [Attempt(0, p, 0)])
  {
    var one, two := [Discover(p, 0)], [Discover(p, 0), Insert(p, c, MayPropose, tag, 0)];
    RunOneMore([], Discover(p, 0));
    assert [] + [Discover(p, 0)] == one;
    RunOneMore(one, Insert(p, c, MayPropose, tag, 0));
    assert one + [Insert(p, c, MayPropose, tag, 0)] == two;
    RunOneMore(two, Approve(0, 0));
    RunOneMore(two + [Approve(0, 0)], Claim(0, 0));
    assert two + [Approve(0, 0)] + [Claim(0, 0)] == FirstDay(p, c, tag);
    var proposed := System(Tables([Action(p, c, Proposed, 0, 0, 0, tag)], map[p := Window(0, 0)], map[p := None]), 0,
                           []);
    assert Run(two) == proposed;
    assert Run(two + [Approve(0, 0)]).t.actions == [Action(p, c, Approved, 0, 0, 0, tag)];
  }

  /** The stale execution is recovered and, its prospect left alone for a day, approved again. */
  lemma RecoveredAndRetried(steps: seq<Step>, p: string, c: string, tag: nat)
    requires Disciplined(steps)
    requires Run(steps) ==
      System(Tables([Action(p, c, Executing, 0, 0, 0, tag)], map[p := Window(0, 0)], map[p := Some(0)]), 0,
             [Attempt(0, p, 0)])
    ensures var after := steps + [Recover(60, COOLDOWN)] + [Retry(0, COOLDOWN)];
      && Disciplined(after)
      && Run(after) ==
        System(Tables([Action(p, c, Approved, 0, 0, COOLDOWN, tag)], map[p := Window(0, 0)], map[p := Some(0)]),
               COOLDOWN, [Attempt(0, p, 0)])
  {
    var recovered := steps + [Recover(60, COOLDOWN)];
    RunOneMore(steps, Recover(60, COOLDOWN));
    RunOneMore(recovered, Retry(0, COOLDOWN));
    assert Run(recovered).t.actions == [Action(p, c, Failed, 0, 0, COOLDOWN, tag)];
    EligibleExactly(Run(recovered).t, p, COOLDOWN);
    assert Run(recovered + [Retry(0, COOLDOWN)]).t.actions == [Action(p, c, Approved, 0, 0, COOLDOWN, tag)];
  }

  /** Then it is attempted again and reported. */
  lemma AttemptedAgain(steps: seq<Step>, p: string, c: string, tag: nat)
    requires Disciplined(steps)
    requires Run(steps) ==
      System(Tables([Action(p, c, Approved, 0, 0, COOLDOWN, tag)], map[p := Window(0, 0)], map[p := Some(0)]),
             COOLDOWN, [Attempt(0, p, 0)])
    ensures var after := steps + [Claim(0, COOLDOWN)] + [Finish(0, true, COOLDOWN)];
      && Disciplined(after) && Run(after).log == [Attempt(0, p, 0), Attempt(0, p, COOLDOWN)]
      && Run(after).t.actions == [Action(p, c, Executed, 1, 0, COOLDOWN, tag)] && Run(after).clock == COOLDOWN
  {
    var claimed := steps + [Claim(0, COOLDOWN)];
    RunOneMore(steps, Claim(0, COOLDOWN));
    RunOneMore(claimed, Finish(0, true, COOLDOWN));
    EligibleExactly(Run(steps).t, p, COOLDOWN);
    assert Run(claimed).log == [Attempt(0, p, 0), Attempt(0, p, COOLDOWN)];
    assert Run(claimed).log[0].action == 0;
  }

  lemma FourMore(steps: seq<Step>, a: Step, b: Step, c: Step, d: Step)
    ensures steps + [a] + [b] + [c] + [d] == steps + [a, b, c, d]
  {
  }

  /** A run within all guards attempts the same prospect again exactly a day later: the bound is attained. */
  lemma AttemptsADayApartHappen(p: string, c: string, tag: nat)
    ensures var steps := FirstDay(p, c, tag) + NextDay();
      && Disciplined(steps) && Run(steps).log == [Attempt(0, p, 0), Attempt(0, p, COOLDOWN)]
      && Run(steps).t.actions == [Action(p, c, Executed, 1, 0, COOLDOWN, tag)] && Run(steps).clock == COOLDOWN
  {
    FirstDayAttempts(p, c, tag);
    var first := FirstDay(p, c, tag);
    RecoveredAndRetried(first, p, c, tag);
    AttemptedAgain(first + [Recover(60, COOLDOWN)] + [Retry(0, COOLDOWN)], p, c, tag);
    FourMore(first, Recover(60, COOLDOWN), Retry(0, COOLDOWN), Claim(0, COOLDOWN), Finish(0, true, COOLDOWN));
  }
}
