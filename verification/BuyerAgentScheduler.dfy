/** The scheduler object of iat/buyer_agent_scheduler.py. Its tables are fields that the methods
    update in place; each method is proved against the transaction of BuyerAgentJournal or the row
    function of AnchorPipeline that specifies it. */
module BuyerAgentScheduler {
  import opened Wrappers
  import opened EventChain
  import opened BuyerAgentJournal
  import Pipeline = AnchorPipeline
  import Runs = BuyerAgentRuns
  import opened Text

  datatype Refusal = DecisionIdInvalid | MaxAttemptsInvalid | AdditionalAttemptsInvalid | JobNotFound
    | NotRecoverable | LimitInvalid | CycleAborted

  // ---------- what the runner answers ----------

  /** A remote call: a value, an error of the client or the wallet with its code, or any other exception. */
  datatype Call<T> = Answered(value: T) | Refused(code: RunnerCode) | Unexpected

  datatype Lifecycle = Lifecycle(nextAction: NextAction, pollAfter: Option<int>)

  /** `negative` is the one status each call is checked for: "buyer_result_not_ready" when the
      inbox is opened, "buyer_signature_not_approved" when a step is made. */
  datatype StepReply = StepReply(negative: bool, pollAfter: Option<int>)

  predicate Actionable(action: NextAction) {
    action.Advance? || action.PrepareCheckout? || action.PrepareNewCheckout? || action.SignAndBroadcast?
    || action.ConfirmPayment?
  }

  /** `poll_after_seconds`, or the default when absent or zero, clamped to 1..300. */
  function PollSeconds(pollAfter: Option<int>, poll: nat): (r: nat)
    ensures 1 <= r <= 300
  {
    var value := if pollAfter.Some? && pollAfter.value != 0 then pollAfter.value else poll;
    Max(1, Min(value, 300))
  }

  function ErrorDelay(poll: nat, attempts: nat): (r: nat)
    ensures r <= 60 && (poll >= 1 ==> r >= 1)
  {
    var factor := Pow2(if attempts == 0 then 0 else Min(attempts - 1, 4));
    assert poll >= 1 ==> poll * factor >= factor;
    Min(60, poll * factor)
  }

  datatype Decision =
    | WaitFor(delay: nat, action: Option<NextAction>, error: Option<ErrorCode>)
    | FinishAs(completed: bool, action: Option<NextAction>, error: Option<ErrorCode>)

  function OnRefusal(code: RunnerCode, attempts: nat, poll: nat): Decision {
    if !code.OtherCode? then FinishAs(false, None, Some(Reported(code)))
    else WaitFor(ErrorDelay(poll, attempts), None, Some(Reported(code)))
  }

  const SCHEDULER_FAILURE := FinishAs(false, None, Some(SchedulerFailure))

  function OnInbox(reply: Call<StepReply>, action: NextAction, attempts: nat, poll: nat): Decision {
    match reply
    case Unexpected => SCHEDULER_FAILURE
    case Refused(code) => OnRefusal(code, attempts, poll)
    case Answered(r) =>
      if r.negative then WaitFor(PollSeconds(r.pollAfter, poll), Some(action), None)
        else FinishAs(true, Some(action), None)
  }

  function OnStep(reply: Call<StepReply>, action: NextAction, attempts: nat, poll: nat): Decision {
    match reply
    case Unexpected => SCHEDULER_FAILURE
    case Refused(code) => OnRefusal(code, attempts, poll)
    case Answered(r) =>
      if r.negative then FinishAs(false, Some(action), Some(SignatureNotApproved))
      else WaitFor(PollSeconds(r.pollAfter, poll), Some(action), None)
  }

  /** What one attempt does, as a function of everything the runner may answer. */
  function Decide(lifecycle: Call<Lifecycle>, inbox: Call<StepReply>, stepped: Call<StepReply>, attempts: nat,
                  poll: nat): Decision
  {
    match lifecycle
    case Unexpected => SCHEDULER_FAILURE
    case Refused(code) => OnRefusal(code, attempts, poll)
    case Answered(l) =>
      if l.nextAction == OpenDeliveryInbox then OnInbox(inbox, l.nextAction, attempts, poll)
      else if Actionable(l.nextAction) then OnStep(stepped, l.nextAction, attempts, poll)
      else if l.nextAction == WaitForDelivery then WaitFor(PollSeconds(l.pollAfter, poll), Some(l.nextAction), None)
      else FinishAs(false, if l.nextAction == OtherAction("") then None else Some(l.nextAction),
                    Some(UnsupportedAction))
  }

  function Conclude(h: Hasher<Body>, t: Tables, id: string, now: nat, d: Decision): Tables
    requires id in t.jobs
  {
    match d
    case WaitFor(delay, action, error) => WaitTx(h, t, id, now, delay, action, error)
    case FinishAs(completed, action, error) => FinishTx(h, t, id, now, completed, action, error)
  }

  /** However the runner answers, the attempt leaves its job where this cycle cannot claim it again. */
  predicate Settled(j: Job, now: nat) {
    j.state == Completed || j.state == Stopped || (j.state == Waiting && j.nextRunAt > now)
  }

  predicate DelaySane(d: Decision) { d.WaitFor? ==> 1 <= d.delay <= 300 }

  lemma DelaysArePositive(lifecycle: Call<Lifecycle>, inbox: Call<StepReply>, stepped: Call<StepReply>, attempts: nat,
                          poll: nat)
    requires poll >= 1
    ensures DelaySane(Decide(lifecycle, inbox, stepped, attempts, poll))
  {
    assert forall code :: DelaySane(OnRefusal(code, attempts, poll));
  }

  lemma ConcludeSettles(h: Hasher<Body>, t: Tables, id: string, now: nat, d: Decision)
    requires id in t.jobs && DelaySane(d)
    ensures var w := Conclude(h, t, id, now, d); id in w.jobs && Settled(w.jobs[id], now)
  {
  }

  lemma ConcludeLeavesOthers(h: Hasher<Body>, t: Tables, id: string, now: nat, d: Decision, other: string)
    requires id in t.jobs && other != id
    ensures Untouched(t, Conclude(h, t, id, now, d), other)
  {
    match d
    case WaitFor(delay, action, error) => WaitLeavesOthers(h, t, id, now, delay, action, error, other);
    case FinishAs(completed, action, error) => FinishLeavesOthers(h, t, id, now, completed, action, error, other);
  }

  // ---------- how an attempt ends ----------

  /** What an attempt hears: the lifecycle always, and the call that the lifecycle's action leads to. */
  datatype Answers = Answers(lifecycle: Call<Lifecycle>, inbox: Call<StepReply>, stepped: Call<StepReply>) {
    predicate Told(action: NextAction) { lifecycle.Answered? && lifecycle.value.nextAction == action }

    predicate Opens() { Told(OpenDeliveryInbox) }

    predicate Steps() {
      Told(Advance) || Told(PrepareCheckout) || Told(PrepareNewCheckout) || Told(SignAndBroadcast)
      || Told(ConfirmPayment)
    }

    /** A result was there and was opened. */
    predicate Delivered() { Opens() && inbox.Answered? && !inbox.value.negative }

    predicate NotReady() { Opens() && inbox.Answered? && inbox.value.negative }

    predicate NotSigned() { Steps() && stepped.Answered? && stepped.value.negative }

    predicate StepMade() { Steps() && stepped.Answered? && !stepped.value.negative }

    predicate Unsafe() { lifecycle.Answered? && !Opens() && !Steps() && !Told(WaitForDelivery) }

    predicate Raised() { lifecycle.Unexpected? || (Opens() && inbox.Unexpected?) || (Steps() && stepped.Unexpected?) }

    /** The code of the client or the wallet that ended the attempt. */
    predicate RefusedWith(code: RunnerCode) {
      lifecycle == Refused(code) || (Opens() && inbox == Refused(code)) || (Steps() && stepped == Refused(code))
    }

    predicate TurnedDown() { lifecycle.Refused? || (Opens() && inbox.Refused?) || (Steps() && stepped.Refused?) }

    /** An error of no known kind, which may pass. */
    predicate MayPass() {
      || (lifecycle.Refused? && lifecycle.code.OtherCode?)
      || (Opens() && inbox.Refused? && inbox.code.OtherCode?)
      || (Steps() && stepped.Refused? && stepped.code.OtherCode?)
    }

    /** The poll interval that the last answer named. */
    predicate Names(pollAfter: Option<int>) {
      || (Told(WaitForDelivery) && lifecycle.value.pollAfter == pollAfter)
      || (NotReady() && inbox.value.pollAfter == pollAfter)
      || (StepMade() && stepped.value.pollAfter == pollAfter)
    }
  }

  /** What goes on: nothing was ready or wanted yet, a step was made, or an error that may pass. */
  predicate GoesOn(a: Answers) { a.NotReady() || a.StepMade() || a.Told(WaitForDelivery) || a.MayPass() }

  /** How the answers leave a job, by its columns. */
  ghost predicate AttemptEnded(before: Job, after: Job, a: Answers, now: nat) {
    var spent := before.attemptCount >= before.maxAttempts;
    && (after.state == Completed <==> a.Delivered())
    && (after.state == Waiting <==> GoesOn(a) && !spent)
    && (after.state == Stopped <==> !a.Delivered() && (GoesOn(a) ==> spent))
    && after.leaseUntil.None? && after.attemptCount == before.attemptCount && after.maxAttempts == before.maxAttempts
    && after.updatedAt == now && after.createdAt == before.createdAt && after.eventCount == before.eventCount + 1
  }

  /** The error and the action that are left on record. */
  ghost predicate AttemptRecorded(before: Job, after: Job, a: Answers) {
    && (a.Delivered() ==> after.lastError.None?)
    && (a.Raised() ==> after.lastError == Some(SchedulerFailure))
    && (a.NotSigned() ==> after.lastError == Some(SignatureNotApproved))
    && (a.Unsafe() ==> after.lastError == Some(UnsupportedAction))
    && (forall code :: a.RefusedWith(code) && (GoesOn(a) ==> after.state == Waiting) ==>
          after.lastError == Some(Reported(code)))
    && (GoesOn(a) && after.state == Stopped ==> after.lastError == Some(MaximumAttempts))
    && (after.state == Waiting && (a.NotReady() || a.StepMade() || a.Told(WaitForDelivery)) ==> after.lastError.None?)
    && (a.Raised() || a.TurnedDown() || a.Told(OtherAction("")) ==> after.lastAction.None?)
    && (!a.Raised() && !a.TurnedDown() && !a.Told(OtherAction("")) ==>
          after.lastAction == Some(a.lifecycle.value.nextAction))
  }

  /** The wait after an error is the poll interval, doubled from attempt to attempt up to the fifth, a minute at
      most. */
  lemma ErrorDelayDoubles(poll: nat, attempts: nat)
    ensures attempts <= 1 ==> ErrorDelay(poll, attempts) == if poll < 60 then poll else 60
    ensures 1 <= attempts <= 4 ==>
      ErrorDelay(poll, attempts + 1)
      == (if 2 * ErrorDelay(poll, attempts) < 60 then 2 * ErrorDelay(poll, attempts) else 60)
    ensures attempts >= 5 ==> ErrorDelay(poll, attempts) == ErrorDelay(poll, 5)
  {
    assert 1 <= attempts <= 4 ==> poll * Pow2(attempts) == 2 * (poll * Pow2(attempts - 1));
  }

  /** What the answers decide: whether the attempt ends, how, and what is put on record. */
  lemma DecidesExactly(a: Answers, attempts: nat, poll: nat)
    ensures var d := Decide(a.lifecycle, a.inbox, a.stepped, attempts, poll);
      && (d.FinishAs? && d.completed <==> a.Delivered())
      && (d.WaitFor? <==> GoesOn(a))
      && (a.Delivered() || a.NotReady() || a.StepMade() || a.Told(WaitForDelivery) ==> d.error.None?)
      && (a.Raised() ==> d.error == Some(SchedulerFailure))
      && (a.NotSigned() ==> d.error == Some(SignatureNotApproved))
      && (a.Unsafe() ==> d.error == Some(UnsupportedAction))
      && (forall code :: a.RefusedWith(code) ==> d.error == Some(Reported(code)))
      && (a.Raised() || a.TurnedDown() || a.Told(OtherAction("")) ==> d.action.None?)
      && (!a.Raised() && !a.TurnedDown() && !a.Told(OtherAction("")) ==>
            d.action == Some(a.lifecycle.value.nextAction))
  {
  }

  /** A decision as it is left in the row. */
  lemma ConcludesExactly(h: Hasher<Body>, t: Tables, id: string, now: nat, d: Decision)
    requires id in t.jobs
    ensures var w := Conclude(h, t, id, now, d);
      id in w.jobs
      && var before, after := t.jobs[id], w.jobs[id];
        var spent := d.WaitFor? && before.attemptCount >= before.maxAttempts;
        && (after.state == Completed <==> d.FinishAs? && d.completed)
        && (after.state == Waiting <==> d.WaitFor? && !spent)
        && (after.state == Stopped <==> spent || (d.FinishAs? && !d.completed))
        && after.lastError == (if spent then Some(MaximumAttempts) else d.error) && after.lastAction == d.action
        && after.nextRunAt == (if d.WaitFor? && !spent then now + d.delay else before.nextRunAt)
        && after.leaseUntil.None? && after.attemptCount == before.attemptCount
        && after.maxAttempts == before.maxAttempts && after.updatedAt == now
        && after.createdAt == before.createdAt && after.eventCount == before.eventCount + 1
  {
  }

  function Concluded(h: Hasher<Body>, t: Tables, id: string, now: nat, a: Answers, poll: nat): Tables
    requires id in t.jobs
  {
    Conclude(h, t, id, now, Decide(a.lifecycle, a.inbox, a.stepped, t.jobs[id].attemptCount, poll))
  }

  /** A claimed job is completed exactly when its result was opened, waits exactly when the attempt may go on and
      attempts are left, and stops in every other case. */
  lemma AttemptEndsExactly(h: Hasher<Body>, t: Tables, id: string, now: nat, a: Answers, poll: nat)
    requires id in t.jobs
    ensures var w := Concluded(h, t, id, now, a, poll);
      id in w.jobs && AttemptEnded(t.jobs[id], w.jobs[id], a, now) && AttemptRecorded(t.jobs[id], w.jobs[id], a)
  {
    DecidesExactly(a, t.jobs[id].attemptCount, poll);
    ConcludesExactly(h, t, id, now, Decide(a.lifecycle, a.inbox, a.stepped, t.jobs[id].attemptCount, poll));
  }

  /** The wait that the answers ask for. */
  lemma DelaysExactly(a: Answers, attempts: nat, poll: nat)
    ensures var d := Decide(a.lifecycle, a.inbox, a.stepped, attempts, poll);
      d.WaitFor? ==>
        && (forall pollAfter :: a.Names(pollAfter) ==>
              var seconds := if pollAfter.Some? && pollAfter.value != 0 then pollAfter.value else poll;
              d.delay == if seconds < 1 then 1 else if seconds > 300 then 300 else seconds)
        && (forall code :: a.RefusedWith(code) ==> d.delay == ErrorDelay(poll, attempts))
  {
  }

  // ---------- queries ----------

  /** ORDER BY next_run_at, created_at. */
  predicate Before(a: (nat, nat), b: (nat, nat)) { a.0 < b.0 || (a.0 == b.0 && a.1 <= b.1) }

  lemma {:induction false} EarliestExists(ids: set<string>, key: map<string, (nat, nat)>)
    requires ids != {} && ids <= key.Keys
    ensures exists id :: id in ids && forall other :: other in ids ==> Before(key[id], key[other])
  {
    var some :| some in ids;
    var rest := ids - {some};
    if rest != {} {
      EarliestExists(rest, key);
      var best :| best in rest && forall other :: other in rest ==> Before(key[best], key[other]);
      var id := if Before(key[some], key[best]) then some else best;
      assert forall other :: other in ids ==> other == some || other in rest;
      assert id in ids && forall other :: other in ids ==> Before(key[id], key[other]);
    } else {
      assert ids == {some};
    }
  }

  /** SELECT ... ORDER BY next_run_at, created_at LIMIT 1. */
  method First(ids: set<string>, key: map<string, (nat, nat)>) returns (id: Option<string>)
    requires ids <= key.Keys
    ensures id.None? <==> ids == {}
    ensures id.Some? ==> id.value in ids && forall other :: other in ids ==> Before(key[id.value], key[other])
  {
    if ids == {} {
      return None;
    }
    EarliestExists(ids, key);
    var first :| first in ids && forall other :: other in ids ==> Before(key[first], key[other]);
    id := Some(first);
  }

  datatype Work = AnchorWork(id: string) | JobWork(id: string)

  /** What due jobs are ordered by. */
  function Turn(j: Job): (nat, nat) { (j.nextRunAt, j.createdAt) }

  ghost predicate IsEarliestDue(jobs: map<string, Job>, id: string, now: nat) {
    && id in jobs && BuyerAgentJournal.Due(jobs[id], now)
    && forall other :: other in jobs && BuyerAgentJournal.Due(jobs[other], now) ==>
      Before(Turn(jobs[id]), Turn(jobs[other]))
  }

  /** Only the first piece of work may be an anchor, and no job appears twice. */
  ghost predicate NoRepeats(works: seq<Work>) {
    && (forall j :: 0 < j < |works| ==> works[j].JobWork?)
    && (forall i, j :: 0 <= i < j < |works| ==> works[i] != works[j])
  }

  /** The jobs run are due ones, in their order, and none that is left out comes before one that was run. */
  ghost predicate TakesEarliest(works: seq<Work>, jobs: map<string, Job>, now: nat) {
    && (forall w :: w in works && w.JobWork? ==> w.id in jobs && BuyerAgentJournal.Due(jobs[w.id], now))
    && (forall i, j :: 0 <= i < j < |works| && works[i].JobWork? && works[j].JobWork? ==>
          works[i].id in jobs && works[j].id in jobs && Before(Turn(jobs[works[i].id]), Turn(jobs[works[j].id])))
    && (forall w, id ::
          w in works && w.JobWork? && id in jobs && BuyerAgentJournal.Due(jobs[id], now) && JobWork(id) !in works ==>
          w.id in jobs && Before(Turn(jobs[w.id]), Turn(jobs[id])))
  }

  ghost predicate TakesAll(works: seq<Work>, jobs: map<string, Job>, now: nat) {
    forall id :: id in jobs && BuyerAgentJournal.Due(jobs[id], now) ==> JobWork(id) in works
  }

  /** What holds of the works of a cycle while it runs, with the jobs as it found them and as they are. */
  ghost predicate CycleSoFar(works: seq<Work>, found: map<string, Job>, jobs: map<string, Job>, now: nat) {
    && jobs.Keys == found.Keys && NoRepeats(works) && TakesEarliest(works, found, now)
    && (forall w :: w in works && w.JobWork? ==> w.id in jobs && Settled(jobs[w.id], now))
    && (forall id :: id in jobs && JobWork(id) !in works ==> jobs[id] == found[id])
  }

  /** What an exception leaves behind: every job as it was found or settled, except at most one whose attempt was
      cut short, and that one can be claimed again when its lease has run out. */
  ghost predicate CutShort(found: map<string, Job>, jobs: map<string, Job>, now: nat, lease: nat) {
    && jobs.Keys == found.Keys
    && (forall id :: id in jobs ==>
          jobs[id] == found[id] || Settled(jobs[id], now) || BuyerAgentJournal.Due(jobs[id], now + lease))
    && (forall id, other ::
          id in jobs && other in jobs && id != other && jobs[id] != found[id] && jobs[other] != found[other] ==>
          Settled(jobs[id], now) || Settled(jobs[other], now))
  }

  /** No anchor is lost or rewritten, and at most one, that was due in some stage, went on. */
  ghost predicate OneAnchorMoved(found: map<string, Pipeline.Anchor>, anchors: map<string, Pipeline.Anchor>, now: nat) {
    && (forall id :: id in found ==> id in anchors && anchors[id].evidence == found[id].evidence)
    && (forall id :: id in found && (forall stage: Pipeline.Stage :: !Pipeline.Due(found[id], stage, now)) ==>
          id in anchors && anchors[id] == found[id])
    && (forall id, other :: id in found && other in found && id != other ==>
          id in anchors && other in anchors && (anchors[id] == found[id] || anchors[other] == found[other]))
  }

  predicate Extends(anchors: map<string, Pipeline.Anchor>, more: map<string, Pipeline.Anchor>) {
    forall id :: id in anchors ==> id in more && more[id] == anchors[id]
  }

  lemma OneMoreIsEarliest(works: seq<Work>, found: map<string, Job>, now: nat, id: string)
    requires TakesEarliest(works, found, now)
    requires id in found && BuyerAgentJournal.Due(found[id], now) && JobWork(id) !in works
    requires forall other :: other in found && BuyerAgentJournal.Due(found[other], now) && JobWork(other) !in works ==>
      Before(Turn(found[id]), Turn(found[other]))
    ensures TakesEarliest(works + [JobWork(id)], found, now)
  {
    forall i | 0 <= i < |works| && works[i].JobWork?
      ensures works[i].id in found && Before(Turn(found[works[i].id]), Turn(found[id]))
    {
      assert works[i] in works;
    }
  }

  lemma OneMoreIsNew(works: seq<Work>, id: string)
    requires NoRepeats(works) && JobWork(id) !in works
    ensures NoRepeats(works + [JobWork(id)])
  {
  }

  lemma CycleStep(works: seq<Work>, found: map<string, Job>, jobs: map<string, Job>, after: map<string, Job>, now: nat,
                  id: string)
    requires CycleSoFar(works, found, jobs, now) && IsEarliestDue(jobs, id, now)
    requires after.Keys == jobs.Keys && Settled(after[id], now)
    requires forall other :: other in jobs && other != id ==> after[other] == jobs[other]
    ensures CycleSoFar(works + [JobWork(id)], found, after, now)
  {
    assert JobWork(id) !in works;
    OneMoreIsNew(works, id);
    forall other | other in found && BuyerAgentJournal.Due(found[other], now) && JobWork(other) !in works
      ensures Before(Turn(found[id]), Turn(found[other]))
    {
      assert jobs[other] == found[other];
    }
    OneMoreIsEarliest(works, found, now, id);
  }

  /** What the due anchors of a stage are ordered by; a missing due time sorts first. */
  function StageTurn(a: Pipeline.Anchor, stage: Pipeline.Stage): (nat, nat) {
    (a.columns[stage].nextRunAt.GetOr(0), a.createdAt)
  }

  /** The job or anchor that has been due for longest goes first, of equals the oldest, and an anchor without a due time
      before all that have one. */
  lemma TurnsExactly(a: Job, b: Job, x: Pipeline.Anchor, y: Pipeline.Anchor, stage: Pipeline.Stage)
    ensures Before(Turn(a), Turn(b)) <==>
      a.nextRunAt < b.nextRunAt || (a.nextRunAt == b.nextRunAt && a.createdAt <= b.createdAt)
    ensures var due, other := x.columns[stage].nextRunAt, y.columns[stage].nextRunAt;
      && (due.None? && other.Some? && other.value > 0 ==> !Before(StageTurn(y, stage), StageTurn(x, stage)))
      && (due.Some? && other.Some? ==>
            (Before(StageTurn(x, stage), StageTurn(y, stage)) <==>
               due.value < other.value || (due == other && x.createdAt <= y.createdAt)))
  {
  }

  class Scheduler {
    const hasher: Hasher<Body>
    const lease: nat
    const poll: nat
    var jobs: map<string, Job>
    var events: seq<Row>
    var anchors: map<string, Pipeline.Anchor>

    constructor (hasher: Hasher<Body>, lease: nat, poll: nat)
      requires lease >= 5 && poll >= 1
      ensures Valid() && T() == Tables(map[], [], map[])
      ensures this.hasher == hasher && this.lease == lease && this.poll == poll
    {
      this.hasher, this.lease, this.poll := hasher, lease, poll;
      jobs, events, anchors := map[], [], map[];
    }

    ghost function T(): Tables
      reads this
    {
      Tables(jobs, events, anchors)
    }

    ghost predicate Valid()
      reads this
    {
      BuyerAgentJournal.Valid(hasher, T()) && poll >= 1
    }

    method RecordEvent(body: Body)
      requires body.decisionId in jobs
      modifies this`jobs, this`events
      ensures T() == Record(hasher, old(T()), body)
    {
      var id := body.decisionId;
      var previousHash := Head(Journal(events, id));
      var eventHash := hasher(body, previousHash);
      events := events + [Event(|events| + 1, body, previousHash, eventHash)];
      jobs := jobs[id := jobs[id].(eventCount := jobs[id].eventCount + 1, eventHead := eventHash)];
    }

    method Schedule(intentDecisionId: string, maxAttempts: int, now: nat) returns (r: Result<Job, Refusal>)
      requires Valid()
      modifies this`jobs, this`events
      ensures Valid()
      ensures var id := Strip(intentDecisionId);
              if id == "" || |id| > 160 then r == Err(DecisionIdInvalid) && T() == old(T())
              else if !(1 <= maxAttempts <= 10_000) then r == Err(MaxAttemptsInvalid) && T() == old(T())
              else T() == ScheduleTx(hasher, old(T()), id, maxAttempts, now) && id in jobs && r == Ok(jobs[id])
    {
      var id := Strip(intentDecisionId);
      if id == "" || |id| > 160 {
        return Err(DecisionIdInvalid);
      }
      if !(1 <= maxAttempts <= 10_000) {
        return Err(MaxAttemptsInvalid);
      }
      ScheduleKeepsValid(hasher, T(), id, maxAttempts, now);
      if id !in jobs {
        jobs := jobs[id := Job(Scheduled, now, None, 0, maxAttempts, now, now, None, None, 0, GENESIS)];
        RecordEvent(Body(id, ScheduledEvent, Scheduled, None, None, now));
      }
      r := Ok(jobs[id]);
    }

    method Resume(id: string, additionalAttempts: int, now: nat) returns (r: Result<Job, Refusal>)
      requires Valid()
      modifies this`jobs, this`events
      ensures Valid()
      ensures if !(1 <= additionalAttempts <= 1_000) then r == Err(AdditionalAttemptsInvalid) && T() == old(T())
              else if id !in old(jobs) then r == Err(JobNotFound) && T() == old(T())
              else if !Recoverable(old(jobs)[id]) then r == Err(NotRecoverable) && T() == old(T())
              else T() == ResumeTx(hasher, old(T()), id, additionalAttempts, now) && id in jobs && r == Ok(jobs[id])
    {
      if !(1 <= additionalAttempts <= 1_000) {
        return Err(AdditionalAttemptsInvalid);
      }
      if id !in jobs {
        return Err(JobNotFound);
      }
      var row := jobs[id];
      if row.state != Stopped || row.lastError != Some(MaximumAttempts) {
        return Err(NotRecoverable);
      }
      ResumeKeepsValid(hasher, T(), id, additionalAttempts, now);
      jobs := jobs[id := row.(state := Scheduled, nextRunAt := now, leaseUntil := None,
                              maxAttempts := row.attemptCount + additionalAttempts, updatedAt := now,
                                lastError := None)];
      RecordEvent(Body(id, Resumed, Scheduled, None, None, now));
      r := Ok(jobs[id]);
    }

    /** Rehash one job's journal from genesis and compare with the stored hashes, count and head. */
    method VerifyEventChain(id: string) returns (r: Result<Verification, Refusal>)
      ensures id !in jobs ==> r == Err(JobNotFound)
      ensures id in jobs ==> r == Ok(Runs.Verify(hasher, jobs[id], Journal(events, id)))
      ensures Valid() && id in jobs ==> r.value.valid
    {
      if id !in jobs {
        return Err(JobNotFound);
      }
      if Valid() {
        Runs.ValidJournalVerifies(hasher, T(), id);
      }
      var journal := Journal(events, id);
      var previousHash := GENESIS;
      for k := 0 to |journal|
        invariant previousHash == Head(journal[..k])
        invariant FirstMisfit(hasher, journal[..k]).None?
      {
        var event := journal[k];
        var expected := hasher(event.body, previousHash);
        assert journal[..k + 1][..k] == journal[..k];
        if event.previousHash != previousHash || event.eventHash != expected {
          MisfitStays(hasher, journal, k + 1);
          return Ok(Verification(false, |journal|, None, Some(event.eventId)));
        }
        previousHash := expected;
      }
      assert journal[..|journal|] == journal;
      if jobs[id].eventCount != |journal| {
        return Ok(Verification(false, |journal|, None, None));
      }
      if jobs[id].eventHead != previousHash {
        return Ok(Verification(false, |journal|, None, None));
      }
      r := Ok(Verification(true, |journal|, Some(previousHash), None));
    }

    method EarliestDue(now: nat) returns (first: Option<string>)
      ensures first.None? ==> forall id :: id in jobs ==> !BuyerAgentJournal.Due(jobs[id], now)
      ensures first.Some? ==> IsEarliestDue(jobs, first.value, now)
    {
      var due := set id | id in jobs && BuyerAgentJournal.Due(jobs[id], now);
      first := First(due, map id | id in jobs :: Turn(jobs[id]));
      assert forall other :: other in jobs && BuyerAgentJournal.Due(jobs[other], now) ==> other in due;
    }

    method ClaimOne(now: nat) returns (claimed: Option<string>)
      requires Valid()
      modifies this`jobs, this`events
      ensures Valid()
      ensures claimed.None? ==> T() == old(T()) && forall id :: id in jobs ==> !BuyerAgentJournal.Due(jobs[id], now)
      ensures claimed.Some? ==>
        && IsEarliestDue(old(jobs), claimed.value, now)
        && T() == ClaimTx(hasher, old(T()), claimed.value, now, lease)
    {
      claimed := EarliestDue(now);
      if claimed.None? {
        return;
      }
      var id := claimed.value;
      ClaimKeepsValid(hasher, T(), id, now, lease);
      var row := jobs[id];
      if row.attemptCount >= row.maxAttempts {
        jobs := jobs[id := row.(state := Stopped, leaseUntil := None, updatedAt := now,
                                lastError := Some(MaximumAttempts))];
        RecordEvent(Body(id, StoppedEvent, Stopped, None, Some(MaximumAttempts), now));
        return;
      }
      jobs := jobs[id := row.(state := Running, leaseUntil := Some(now + lease), updatedAt := now,
                              attemptCount := row.attemptCount + 1)];
      RecordEvent(Body(id, AttemptStarted, Running, None, None, now));
    }

    method Finish(id: string, now: nat, completed: bool, action: Option<NextAction>, error: Option<ErrorCode>)
      requires id in jobs
      modifies this
      ensures old(Valid() && jobs[id].state != Completed) ==> Valid()
      ensures T() == FinishTx(hasher, old(T()), id, now, completed, action, error)
    {
      if Valid() && jobs[id].state != Completed {
        FinishKeepsValid(hasher, T(), id, now, completed, action, error);
      }
      var state := if completed then Completed else Stopped;
      jobs := jobs[id := jobs[id].(state := state, leaseUntil := None, updatedAt := now, lastAction := action,
                                   lastError := error)];
      RecordEvent(Body(id, if completed then CompletedEvent else StoppedEvent, state, action, error, now));
      if completed {
        var head := jobs[id].eventHead;
        if id !in anchors {
          anchors := anchors[id := Pipeline.NewAnchor(head, now)];
        }
      }
    }

    method Wait(id: string, now: nat, delay: nat, action: Option<NextAction>, error: Option<ErrorCode>)
      requires id in jobs
      modifies this
      ensures old(Valid() && jobs[id].state != Completed) ==> Valid()
      ensures T() == WaitTx(hasher, old(T()), id, now, delay, action, error)
    {
      if Valid() && jobs[id].state != Completed {
        WaitKeepsValid(hasher, T(), id, now, delay, action, error);
      }
      var job := jobs[id];
      if job.attemptCount >= job.maxAttempts {
        Finish(id, now, false, action, Some(MaximumAttempts));
        return;
      }
      jobs := jobs[id := job.(state := Waiting, nextRunAt := now + delay, leaseUntil := None, updatedAt := now,
                              lastAction := action, lastError := error)];
      RecordEvent(Body(id, if error.Some? then RetryScheduled else WaitingEvent, Waiting, action, error, now));
    }

    method HandleRefusal(id: string, now: nat, code: RunnerCode)
      requires id in jobs
      modifies this
      ensures old(Valid() && jobs[id].state != Completed) ==> Valid()
      ensures T() == Conclude(hasher, old(T()), id, now, OnRefusal(code, old(jobs)[id].attemptCount, poll))
    {
      if !code.OtherCode? {
        Finish(id, now, false, None, Some(Reported(code)));
      } else {
        Wait(id, now, ErrorDelay(poll, jobs[id].attemptCount), None, Some(Reported(code)));
      }
    }

    method HandleInbox(id: string, now: nat, action: NextAction, reply: Call<StepReply>)
      requires id in jobs
      modifies this
      ensures old(Valid() && jobs[id].state != Completed) ==> Valid()
      ensures T() == Conclude(hasher, old(T()), id, now, OnInbox(reply, action, old(jobs)[id].attemptCount, poll))
    {
      match reply
      case Unexpected => Finish(id, now, false, None, Some(SchedulerFailure));
      case Refused(code) => HandleRefusal(id, now, code);
      case Answered(result) =>
        if result.negative {
          Wait(id, now, PollSeconds(result.pollAfter, poll), Some(action), None);
        } else {
          Finish(id, now, true, Some(action), None);
        }
    }

    method HandleStep(id: string, now: nat, action: NextAction, reply: Call<StepReply>)
      requires id in jobs
      modifies this
      ensures old(Valid() && jobs[id].state != Completed) ==> Valid()
      ensures T() == Conclude(hasher, old(T()), id, now, OnStep(reply, action, old(jobs)[id].attemptCount, poll))
    {
      match reply
      case Unexpected => Finish(id, now, false, None, Some(SchedulerFailure));
      case Refused(code) => HandleRefusal(id, now, code);
      case Answered(result) =>
        if result.negative {
          Finish(id, now, false, Some(action), Some(SignatureNotApproved));
        } else {
          Wait(id, now, PollSeconds(result.pollAfter, poll), Some(action), None);
        }
    }

    /** One attempt of a claimed job, for every way the runner may answer its calls. */
    method RunClaimed(id: string, now: nat, lifecycle: Call<Lifecycle>, inbox: Call<StepReply>,
                      stepped: Call<StepReply>)
      requires id in jobs
      modifies this
      ensures old(Valid() && jobs[id].state != Completed) ==> Valid()
      ensures T() == if old(jobs)[id].state == Stopped then old(T())
                     else Conclude(hasher, old(T()), id, now,
                                   Decide(lifecycle, inbox, stepped, old(jobs)[id].attemptCount, poll))
      ensures old(jobs)[id].state != Stopped ==>
        && id in jobs && AttemptEnded(old(jobs)[id], jobs[id], Answers(lifecycle, inbox, stepped), now)
        && AttemptRecorded(old(jobs)[id], jobs[id], Answers(lifecycle, inbox, stepped))
    {
      AttemptEndsExactly(hasher, T(), id, now, Answers(lifecycle, inbox, stepped), poll);
      var job := jobs[id];
      if job.state == Stopped {
        return;
      }
      match lifecycle
      case Unexpected => Finish(id, now, false, None, Some(SchedulerFailure));
      case Refused(code) => HandleRefusal(id, now, code);
      case Answered(l) =>
        var action := l.nextAction;
        if action == OpenDeliveryInbox {
          HandleInbox(id, now, action, inbox);
        } else if Actionable(action) {
          HandleStep(id, now, action, stepped);
        } else if action == WaitForDelivery {
          Wait(id, now, PollSeconds(l.pollAfter, poll), Some(action), None);
        } else {
          Finish(id, now, false, if action == OtherAction("") then None else Some(action), Some(UnsupportedAction));
        }
    }

    // ---------- anchors ----------

    /** Claim the earliest due anchor of one stage; a claim that finds its attempts spent fails the row. */
    method ClaimStage(stage: Pipeline.Stage, now: nat) returns (claimed: Option<string>)
      requires Valid()
      modifies this`anchors
      ensures Valid()
      ensures claimed.None? ==>
        anchors == old(anchors) && forall id :: id in anchors ==> !Pipeline.Due(anchors[id], stage, now)
      ensures claimed.Some? ==>
        && claimed.value in old(anchors) && Pipeline.Due(old(anchors)[claimed.value], stage, now)
        && (forall other :: other in old(anchors) && Pipeline.Due(old(anchors)[other], stage, now) ==>
              Before(StageTurn(old(anchors)[claimed.value], stage), StageTurn(old(anchors)[other], stage)))
        && anchors == old(anchors)[claimed.value := Pipeline.ClaimRow(old(anchors)[claimed.value], stage, now, lease)]
    {
      var due := set id | id in anchors && Pipeline.Due(anchors[id], stage, now);
      claimed := First(due, map id | id in anchors :: StageTurn(anchors[id], stage));
      assert forall id :: id in anchors && Pipeline.Due(anchors[id], stage, now) ==> id in due;
      if claimed.None? {
        return;
      }
      var id := claimed.value;
      var row := anchors[id];
      Runs.AnchorSwapKeepsTables(hasher, T(), id, Pipeline.ClaimRow(row, stage, now, lease));
      var columns := row.columns[stage];
      if columns.attempts >= columns.maxAttempts {
        row := row.(state := Pipeline.Failed(stage), updatedAt := now,
                    columns := row.columns[stage :=
                      columns.(leaseUntil := None, error := Some(Pipeline.MaxAttempts(stage)))]);
      } else {
        row := row.(state := Pipeline.Working(stage), updatedAt := now,
                    columns := row.columns[stage :=
                      columns.(leaseUntil := Some(now + lease), attempts := columns.attempts + 1)]);
      }
      anchors := anchors[id := row];
    }

    /** Run a claimed stage for whatever the remote side answers. */
    method RunStage(id: string, stage: Pipeline.Stage, now: nat, answer: Pipeline.Answer)
      requires Valid() && id in anchors
      modifies this`anchors
      ensures Valid()
      ensures anchors == old(anchors)[id := Pipeline.RunRow(old(anchors)[id], stage, answer, true, now, poll)]
    {
      var anchor := anchors[id];
      Pipeline.RowsKeepEvidence(anchor, stage, answer, true, now, lease, poll);
      Runs.AnchorSwapKeepsTables(hasher, T(), id, Pipeline.RunRow(anchor, stage, answer, true, now, poll));
      if anchor.state == Pipeline.Failed(stage) {
        return;
      }
      if stage == Pipeline.ATTEST {
        assert id in jobs && JobValid(hasher, T(), id);
        var verification := VerifyEventChain(id);
        if !verification.value.valid || verification.value.headHash != Some(anchor.evidence) {
          assert false;  // journal_chain_verification_failed
        }
      }
      match answer
      case Unexpected =>
        if stage >= Pipeline.PLAN {
          anchors := anchors[id := Pipeline.RetryRow(anchor, stage, Pipeline.UnexpectedFailure(stage), now, poll)];
        } else {
          anchors := anchors[id := Pipeline.FinishRow(anchor, stage, Pipeline.Failed(stage), now,
                                                      Some(Pipeline.UnexpectedFailure(stage)), now)];
        }
      case Refused(code, criteriaUndeclared) =>
        if stage == Pipeline.QUALITY && criteriaUndeclared {
          var row := Pipeline.FinishRow(anchor, stage, Pipeline.QualityNotConfigured, now, None, now);
          anchors := anchors[id := row.(qualityDecision := Some(Pipeline.CriteriaNotDeclared))];
        } else {
          anchors := anchors[id := Pipeline.RetryRow(anchor, stage, Pipeline.Remote(code), now, poll)];
        }
      case Answered(reply) =>
        if Pipeline.Accepts(anchor, stage, reply) {
          anchors := anchors[id := Pipeline.SuccessRow(anchor, stage, reply, now)];
        } else {
          anchors := anchors[id := Pipeline.RetryRow(anchor, stage, Pipeline.Mismatch(stage), now, poll)];
        }
    }

    // ---------- one cycle ----------

    /** Run a claimed job, whatever its runner answers. */
    method RunAnswered(id: string, now: nat)
      requires Valid() && id in jobs && (jobs[id].state == Running || jobs[id].state == Stopped)
      modifies this
      ensures Valid() && jobs.Keys == old(jobs).Keys && Extends(old(anchors), anchors)
      ensures Settled(jobs[id], now)
      ensures forall other :: other in old(jobs) && other != id ==> other in jobs && jobs[other] == old(jobs)[other]
    {
      ghost var claimed := T();
      var lifecycle: Call<Lifecycle> := *;
      var inbox: Call<StepReply> := *;
      var stepped: Call<StepReply> := *;
      RunClaimed(id, now, lifecycle, inbox, stepped);
      if claimed.jobs[id].state != Stopped {
        ghost var decision := Decide(lifecycle, inbox, stepped, claimed.jobs[id].attemptCount, poll);
        DelaysArePositive(lifecycle, inbox, stepped, claimed.jobs[id].attemptCount, poll);
        ConcludeSettles(hasher, claimed, id, now, decision);
        forall other | other in claimed.jobs && other != id ensures Untouched(claimed, T(), other) {
          ConcludeLeavesOthers(hasher, claimed, id, now, decision, other);
        }
      }
    }

    /** Claim a job and run it. An exception may come before the claim, or leave the job claimed. */
    method ClaimAndRun(now: nat) returns (ran: Option<string>, aborted: bool)
      requires Valid()
      modifies this
      ensures Valid()
      ensures jobs.Keys == old(jobs).Keys && Extends(old(anchors), anchors)
      ensures ran.None? ==> jobs == old(jobs)
      ensures ran.None? && !aborted ==> forall id :: id in jobs ==> !BuyerAgentJournal.Due(jobs[id], now)
      ensures ran.Some? ==>
        && IsEarliestDue(old(jobs), ran.value, now) && ran.value in jobs
        && (Settled(jobs[ran.value], now) || (aborted && BuyerAgentJournal.Due(jobs[ran.value], now + lease)))
        && forall other :: other in old(jobs) && other != ran.value ==> other in jobs && jobs[other] == old(jobs)[other]
    {
      aborted := *;
      if aborted {
        return None, true;
      }
      ran := ClaimOne(now);
      if ran.None? {
        return;
      }
      var id := ran.value;
      ghost var before := old(T());
      forall other | other in before.jobs && other != id ensures Untouched(before, T(), other) {
        ClaimLeavesOthers(hasher, before, id, now, lease, other);
      }
      aborted := *;
      if !aborted {
        RunAnswered(id, now);
      }
    }

    /** The first stage, last in pipeline order first, that has a due anchor. */
    method ClaimAnyStage(now: nat) returns (claimed: Option<(string, Pipeline.Stage)>)
      requires Valid()
      modifies this`anchors
      ensures Valid() && anchors.Keys == old(anchors).Keys
      ensures claimed.None? ==>
        && anchors == old(anchors)
        && forall id, stage: Pipeline.Stage :: id in anchors ==> !Pipeline.Due(anchors[id], stage, now)
      ensures claimed.Some? ==>
        var (id, stage) := claimed.value;
        && id in old(anchors) && Pipeline.Due(old(anchors)[id], stage, now)
        && (forall other, later: Pipeline.Stage :: other in old(anchors) && stage < later ==>
          !Pipeline.Due(old(anchors)[other], later, now))
        && anchors == old(anchors)[id := Pipeline.ClaimRow(old(anchors)[id], stage, now, lease)]
    {
      var stage: nat := 9;
      while stage > 0
        invariant stage <= 9 && Valid() && anchors == old(anchors)
        invariant forall id, later: Pipeline.Stage :: id in anchors && stage <= later ==>
          !Pipeline.Due(anchors[id], later, now)
      {
        stage := stage - 1;
        var id := ClaimStage(stage, now);
        if id.Some? {
          return Some((id.value, stage));
        }
      }
      return None;
    }

    /** The loop over due jobs that follows the anchor work of a cycle. */
    method RunDueJobs(now: nat, limit: nat, anchorWork: seq<Work>) returns (works: seq<Work>, aborted: bool)
      requires Valid() && limit >= 1 && |anchorWork| <= 1 && forall w :: w in anchorWork ==> w.AnchorWork?
      modifies this
      ensures Valid() && Extends(old(anchors), anchors)
      ensures aborted ==> CutShort(old(jobs), jobs, now, lease)
      ensures !aborted ==> |works| <= limit && CycleSoFar(works, old(jobs), jobs, now)
      ensures !aborted && |works| < limit ==> TakesAll(works, old(jobs), now)
    {
      works, aborted := anchorWork, false;
      while |works| < limit
        invariant Valid() && Extends(old(anchors), anchors)
        invariant !aborted && |works| <= limit
        invariant CycleSoFar(works, old(jobs), jobs, now)
      {
        ghost var before := jobs;
        var ran;
        ran, aborted := ClaimAndRun(now);
        if aborted {
          return;
        }
        if ran.None? {
          break;
        }
        CycleStep(works, old(jobs), before, jobs, now, ran.value);
        works := works + [JobWork(ran.value)];
      }
    }

    /** The anchor work of a cycle. An exception may come before the claim, between claim and write, or after. */
    method RunDueAnchor(now: nat) returns (work: seq<Work>, aborted: bool)
      requires Valid()
      modifies this`anchors
      ensures Valid() && OneAnchorMoved(old(anchors), anchors, now)
      ensures |work| <= 1 && forall w :: w in work ==> w.AnchorWork?
    {
      work, aborted := [], *;
      if aborted {
        return;
      }
      var claimed := ClaimAnyStage(now);
      if claimed.None? {
        return;
      }
      var (id, stage) := claimed.value;
      Pipeline.RowsKeepEvidence(old(anchors)[id], stage, Pipeline.Unexpected, true, now, lease, poll);
      aborted := *;
      if aborted {
        return;
      }
      var answer: Pipeline.Answer := *;
      Pipeline.RowsKeepEvidence(anchors[id], stage, answer, true, now, lease, poll);
      RunStage(id, stage, now, answer);
      work, aborted := [AnchorWork(id)], *;
    }

    /** One cycle: at most one piece of anchor work, then due jobs up to the limit. No job runs
        twice, whatever the runner answers: each leaves completed, stopped, or waiting for later. A failing
        statement outside an attempt's own handlers leaves the cycle. */
    method RunDueOnce(now: nat, limit: int) returns (r: Result<seq<Work>, Refusal>)
      requires Valid()
      modifies this
      ensures Valid()
      ensures r == Err(LimitInvalid) <==> !(1 <= limit <= 100)
      ensures r.Err? ==> r.error == LimitInvalid || r.error == CycleAborted
      ensures r == Err(LimitInvalid) ==> T() == old(T())
      ensures OneAnchorMoved(old(anchors), anchors, now)
      ensures r == Err(CycleAborted) ==> CutShort(old(jobs), jobs, now, lease)
      ensures r.Ok? ==>
        && |r.value| <= limit
        && NoRepeats(r.value)
        && (forall w :: w in r.value && w.JobWork? ==> w.id in jobs && Settled(jobs[w.id], now))
        && TakesEarliest(r.value, old(jobs), now)
        && (|r.value| < limit ==> TakesAll(r.value, old(jobs), now))
    {
      if !(1 <= limit <= 100) {
        return Err(LimitInvalid);
      }
      var results, aborted := RunDueAnchor(now);
      if aborted {
        return Err(CycleAborted);
      }
      ghost var moved := anchors;
      results, aborted := RunDueJobs(now, limit, results);
      assert Extends(moved, anchors);
      if aborted {
        return Err(CycleAborted);
      }
      r := Ok(results);
    }
  }
}
