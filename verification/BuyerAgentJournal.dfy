/** The job table of iat/buyer_agent_scheduler.py and its hash-chained journal: what each database
    transaction does, as functions on the tables, and what every run of transactions keeps. */
module BuyerAgentJournal {
  import opened Wrappers
  import opened EventChain
  import AnchorPipeline

  datatype JobState = Scheduled | Running | Waiting | Completed | Stopped

  datatype EventType = ScheduledEvent | Resumed | AttemptStarted | RetryScheduled | WaitingEvent | CompletedEvent
    | StoppedEvent

  /** The codes that stop a job at once (HARD_STOP_ERRORS); any other code is retried. */
  datatype RunnerCode =
    | AutonomousPolicyNotApplied | SignatureNotRequired | TransactionEncodingInvalid | SafetyFlagsInvalid
    | ClusterNotAllowed | FeePayerMismatch | ReviewMissing | SimulationNotSucceeded | WalletAddressMismatch
    | WalletSignatureInvalid
    | OtherCode(code: string)

  /** The error codes the scheduler itself writes, and those the runner reports. */
  datatype ErrorCode = MaximumAttempts | SignatureNotApproved | UnsupportedAction | SchedulerFailure
    | Reported(code: RunnerCode)

  /** The lifecycle's `next_action`: the ones the scheduler acts on (ACTIONABLE), and the others. */
  datatype NextAction =
    | OpenDeliveryInbox
    | Advance | PrepareCheckout | PrepareNewCheckout | SignAndBroadcast | ConfirmPayment
    | WaitForDelivery
    | OtherAction(name: string)

  /** The hashed fields of a journal event. */
  datatype Body = Body(decisionId: string, eventType: EventType, state: JobState, action: Option<NextAction>,
                       error: Option<ErrorCode>, createdAt: nat)

  type Row = Event<Body>

  datatype Job = Job(state: JobState, nextRunAt: nat, leaseUntil: Option<nat>, attemptCount: nat, maxAttempts: nat,
                     createdAt: nat, updatedAt: nat, lastAction: Option<NextAction>, lastError: Option<ErrorCode>,
                     eventCount: nat, eventHead: Digest)

  datatype Tables = Tables(jobs: map<string, Job>, events: seq<Row>, anchors: map<string, AnchorPipeline.Anchor>)

  /** One job's journal, oldest first. */
  function Journal(events: seq<Row>, id: string): seq<Row> {
    if events == [] then []
    else
      var front := Journal(events[..|events| - 1], id);
      var last := events[|events| - 1];
      if last.body.decisionId == id then front + [last] else front
  }

  // ---------- the transactions ----------

  /** Append an event, count it and move the job's head. */
  function Record(h: Hasher<Body>, t: Tables, body: Body): Tables
    requires body.decisionId in t.jobs
  {
    var id := body.decisionId;
    var event := Chained(h, Journal(t.events, id), |t.events| + 1, body);
    t.(events := t.events + [event],
       jobs := t.jobs[id := t.jobs[id].(eventCount := t.jobs[id].eventCount + 1, eventHead := event.eventHash)])
  }

  function NewJob(maxAttempts: nat, now: nat): Job {
    Job(Scheduled, now, None, 0, maxAttempts, now, now, None, None, 0, GENESIS)
  }

  /** INSERT ... ON CONFLICT DO NOTHING, and the first event if a row was inserted. */
  function ScheduleTx(h: Hasher<Body>, t: Tables, id: string, maxAttempts: nat, now: nat): Tables {
    if id in t.jobs then t
    else Record(h, t.(jobs := t.jobs[id := NewJob(maxAttempts, now)]),
                Body(id, ScheduledEvent, Scheduled, None, None, now))
  }

  predicate Recoverable(j: Job) { j.state == Stopped && j.lastError == Some(MaximumAttempts) }

  function ResumedJob(j: Job, additional: nat, now: nat): Job {
    j.(state := Scheduled, nextRunAt := now, leaseUntil := None, maxAttempts := j.attemptCount + additional,
       updatedAt := now, lastError := None)
  }

  function ResumeTx(h: Hasher<Body>, t: Tables, id: string, additional: nat, now: nat): Tables {
    if id in t.jobs && Recoverable(t.jobs[id]) then
      var j := ResumedJob(t.jobs[id], additional, now);
      Record(h, t.(jobs := t.jobs[id := j]), Body(id, Resumed, Scheduled, None, None, now))
    else t
  }

  predicate Due(j: Job, now: nat) {
    || ((j.state == Scheduled || j.state == Waiting) && j.nextRunAt <= now)
    || (j.state == Running && j.leaseUntil.Some? && j.leaseUntil.value <= now)
  }

  function ClaimTx(h: Hasher<Body>, t: Tables, id: string, now: nat, lease: nat): Tables
    requires id in t.jobs
  {
    var j := t.jobs[id];
    if j.attemptCount >= j.maxAttempts then
      var stopped := j.(state := Stopped, leaseUntil := None, updatedAt := now, lastError := Some(MaximumAttempts));
      Record(h, t.(jobs := t.jobs[id := stopped]), Body(id, StoppedEvent, Stopped, None, Some(MaximumAttempts), now))
    else
      var running := j.(state := Running, leaseUntil := Some(now + lease), updatedAt := now,
                        attemptCount := j.attemptCount + 1);
      Record(h, t.(jobs := t.jobs[id := running]), Body(id, AttemptStarted, Running, None, None, now))
  }

  /** Completion also creates the job's anchor, over the head that its last event produced. */
  function FinishTx(h: Hasher<Body>, t: Tables, id: string, now: nat, completed: bool, action: Option<NextAction>,
                    error: Option<ErrorCode>): Tables
    requires id in t.jobs
  {
    var state := if completed then Completed else Stopped;
    var j := t.jobs[id].(state := state, leaseUntil := None, updatedAt := now, lastAction := action,
                         lastError := error);
    var recorded := Record(h, t.(jobs := t.jobs[id := j]),
                           Body(id, if completed then CompletedEvent else StoppedEvent, state, action, error, now));
    if completed && id !in t.anchors
    then recorded.(anchors := t.anchors[id := AnchorPipeline.NewAnchor(recorded.jobs[id].eventHead, now)])
    else recorded
  }

  /** Put a job off, once its attempts were found not to be spent. */
  function PutOffTx(h: Hasher<Body>, t: Tables, id: string, now: nat, delay: nat, action: Option<NextAction>,
                    error: Option<ErrorCode>): Tables
    requires id in t.jobs
  {
    var waiting := t.jobs[id].(state := Waiting, nextRunAt := now + delay, leaseUntil := None, updatedAt := now,
                               lastAction := action, lastError := error);
    Record(h, t.(jobs := t.jobs[id := waiting]),
           Body(id, if error.Some? then RetryScheduled else WaitingEvent, Waiting, action, error, now))
  }

  function WaitTx(h: Hasher<Body>, t: Tables, id: string, now: nat, delay: nat, action: Option<NextAction>,
                  error: Option<ErrorCode>): Tables
    requires id in t.jobs
  {
    if t.jobs[id].attemptCount >= t.jobs[id].maxAttempts
    then FinishTx(h, t, id, now, false, action, Some(MaximumAttempts))
    else PutOffTx(h, t, id, now, delay, action, error)
  }

  // ---------- what the journal says ----------

  datatype View = View(state: JobState, attemptCount: nat, lastError: Option<ErrorCode>)

  /** An attempt counts and keeps the last error, any other event sets it. */
  function After(before: View, body: Body): View {
    if body.eventType == AttemptStarted then View(body.state, before.attemptCount + 1, before.lastError)
    else View(body.state, before.attemptCount, body.error)
  }

  function Replay(journal: seq<Row>): View {
    if journal == [] then View(Scheduled, 0, None)
    else After(Replay(journal[..|journal| - 1]), journal[|journal| - 1].body)
  }

  // ---------- the invariant ----------

  function ViewOf(j: Job): View { View(j.state, j.attemptCount, j.lastError) }

  /** Row and journal of one job agree. */
  ghost predicate Agrees(h: Hasher<Body>, j: Job, journal: seq<Row>) {
    && journal != []
    && Linked(h, journal)
    && j.eventCount == |journal| && j.eventHead == Head(journal)
    && Replay(journal) == ViewOf(j)
  }

  predicate RowSane(j: Job) {
    && j.attemptCount <= j.maxAttempts
    && (j.state == Running <==> j.leaseUntil.Some?)
  }

  ghost predicate JobValid(h: Hasher<Body>, t: Tables, id: string)
    requires id in t.jobs
  {
    && RowSane(t.jobs[id])
    && Agrees(h, t.jobs[id], Journal(t.events, id))
    && (t.jobs[id].state == Completed <==> id in t.anchors)
    && (id in t.anchors ==> t.anchors[id].evidence == t.jobs[id].eventHead)
  }

  ghost predicate Valid(h: Hasher<Body>, t: Tables) {
    && (forall id {:trigger JobValid(h, t, id)} :: id in t.jobs ==> JobValid(h, t, id))
    && t.anchors.Keys <= t.jobs.Keys
    && (forall k :: 0 <= k < |t.events| ==> t.events[k].body.decisionId in t.jobs)
  }

  // ---------- one write keeps it ----------

  lemma RecordExtendsJournal(h: Hasher<Body>, t: Tables, body: Body, id: string)
    requires body.decisionId in t.jobs
    ensures var journal := Journal(t.events, id);
            Journal(Record(h, t, body).events, id)
            == if id == body.decisionId then journal + [Chained(h, journal, |t.events| + 1, body)] else journal
  {
    var events := Record(h, t, body).events;
    assert events[..|events| - 1] == t.events;
  }

  lemma {:induction false} NoEventsNoJournal(events: seq<Row>, id: string)
    requires forall k :: 0 <= k < |events| ==> events[k].body.decisionId != id
    ensures Journal(events, id) == []
  {
    if events != [] {
      NoEventsNoJournal(events[..|events| - 1], id);
    }
  }

  lemma AppendAgrees(h: Hasher<Body>, j: Job, journal: seq<Row>, eventId: nat, body: Body)
    requires Linked(h, journal) && j.eventCount == |journal|
    requires ViewOf(j) == After(Replay(journal), body)
    ensures var event := Chained(h, journal, eventId, body);
            Agrees(h, j.(eventCount := j.eventCount + 1, eventHead := event.eventHash), journal + [event])
  {
    AppendKeepsLinks(h, journal, eventId, body);
    var longer := journal + [Chained(h, journal, eventId, body)];
    assert longer[..|longer| - 1] == journal;
  }

  /** `Write` is what every transaction does: set one row and record one event of it. */
  function Write(h: Hasher<Body>, t: Tables, j: Job, body: Body): Tables {
    Record(h, t.(jobs := t.jobs[body.decisionId := j]), body)
  }

  lemma WriteFrames(h: Hasher<Body>, t: Tables, j: Job, body: Body)
    ensures var w := Write(h, t, j, body);
            && w.jobs.Keys == t.jobs.Keys + {body.decisionId}
            && w.anchors == t.anchors
            && |w.events| == |t.events| + 1 && w.events[..|t.events|] == t.events && w.events[|t.events|].body == body
            && forall other {:trigger Journal(t.events, other)} {:trigger other in t.jobs} ::
                 other in t.jobs && other != body.decisionId ==>
                 w.jobs[other] == t.jobs[other] && Journal(w.events, other) == Journal(t.events, other)
  {
    var u := t.(jobs := t.jobs[body.decisionId := j]);
    forall other | other in t.jobs && other != body.decisionId
      ensures Journal(Write(h, t, j, body).events, other) == Journal(t.events, other)
    {
      RecordExtendsJournal(h, u, body, other);
    }
  }

  lemma WriteAgrees(h: Hasher<Body>, t: Tables, j: Job, body: Body)
    requires Linked(h, Journal(t.events, body.decisionId))
    requires j.eventCount == |Journal(t.events, body.decisionId)|
    requires ViewOf(j) == After(Replay(Journal(t.events, body.decisionId)), body)
    ensures var w := Write(h, t, j, body);
            && Agrees(h, w.jobs[body.decisionId], Journal(w.events, body.decisionId))
            && w.jobs[body.decisionId]
              == j.(eventCount := j.eventCount + 1, eventHead := w.jobs[body.decisionId].eventHead)
  {
    RecordExtendsJournal(h, t.(jobs := t.jobs[body.decisionId := j]), body, body.decisionId);
    AppendAgrees(h, j, Journal(t.events, body.decisionId), |t.events| + 1, body);
  }

  /** A write on an open job that leaves it open, or stops it, keeps every table valid. */
  lemma OpenWriteKeepsValid(h: Hasher<Body>, t: Tables, j: Job, body: Body)
    requires Valid(h, t) && body.decisionId in t.jobs
    requires var before := t.jobs[body.decisionId];
             && before.state != Completed && j.state != Completed && RowSane(j)
             && j.eventCount == before.eventCount
             && ViewOf(j) == After(ViewOf(before), body)
    ensures Valid(h, Write(h, t, j, body))
  {
    assert JobValid(h, t, body.decisionId);
    WriteFrames(h, t, j, body);
    WriteAgrees(h, t, j, body);
    FrameValid(h, t, Write(h, t, j, body), body.decisionId);
  }

  /** Tables that differ from valid ones only in one valid job are valid. */
  lemma FrameValid(h: Hasher<Body>, t: Tables, w: Tables, id: string)
    requires forall other {:trigger JobValid(h, t, other)} :: other in t.jobs && other != id ==> JobValid(h, t, other)
    requires id in w.jobs && w.jobs.Keys == t.jobs.Keys + {id} && JobValid(h, w, id)
    requires w.anchors.Keys <= w.jobs.Keys
    requires forall other {:trigger other in t.jobs} :: other in t.jobs && other != id ==>
      && w.jobs[other] == t.jobs[other] && Journal(w.events, other) == Journal(t.events, other)
      && (other in w.anchors <==> other in t.anchors) && (other in w.anchors ==> w.anchors[other] == t.anchors[other])
    requires forall k :: 0 <= k < |t.events| ==> t.events[k].body.decisionId in w.jobs
    requires |w.events| == |t.events| + 1 && w.events[..|t.events|] == t.events
    requires w.events[|t.events|].body.decisionId == id
    ensures Valid(h, w)
  {
    forall other | other in w.jobs ensures JobValid(h, w, other) {
      if other != id {
        assert other in t.jobs && JobValid(h, t, other);
      }
    }
    forall k | 0 <= k < |w.events| ensures w.events[k].body.decisionId in w.jobs {
      if k < |t.events| {
        assert w.events[k] == w.events[..|t.events|][k] == t.events[k];
      }
    }
  }

  // ---------- every transaction keeps it ----------

  lemma ScheduleKeepsValid(h: Hasher<Body>, t: Tables, id: string, maxAttempts: nat, now: nat)
    requires Valid(h, t)
    ensures Valid(h, ScheduleTx(h, t, id, maxAttempts, now))
  {
    if id !in t.jobs {
      var j := NewJob(maxAttempts, now);
      var body := Body(id, ScheduledEvent, Scheduled, None, None, now);
      NoEventsNoJournal(t.events, id);
      WriteFrames(h, t, j, body);
      WriteAgrees(h, t, j, body);
      FrameValid(h, t, Write(h, t, j, body), id);
    }
  }

  lemma ResumeKeepsValid(h: Hasher<Body>, t: Tables, id: string, additional: nat, now: nat)
    requires Valid(h, t)
    ensures Valid(h, ResumeTx(h, t, id, additional, now))
  {
    if id in t.jobs && Recoverable(t.jobs[id]) {
      var j := ResumedJob(t.jobs[id], additional, now);
      OpenWriteKeepsValid(h, t, j, Body(id, Resumed, Scheduled, None, None, now));
    }
  }

  lemma ClaimKeepsValid(h: Hasher<Body>, t: Tables, id: string, now: nat, lease: nat)
    requires Valid(h, t) && id in t.jobs && t.jobs[id].state != Completed
    ensures Valid(h, ClaimTx(h, t, id, now, lease))
  {
    var j := t.jobs[id];
    assert JobValid(h, t, id);
    if j.attemptCount >= j.maxAttempts {
      OpenWriteKeepsValid(h, t, j.(state := Stopped, leaseUntil := None, updatedAt := now,
                                   lastError := Some(MaximumAttempts)),
                          Body(id, StoppedEvent, Stopped, None, Some(MaximumAttempts), now));
    } else {
      OpenWriteKeepsValid(h, t, j.(state := Running, leaseUntil := Some(now + lease), updatedAt := now,
                                   attemptCount := j.attemptCount + 1),
                          Body(id, AttemptStarted, Running, None, None, now));
    }
  }

  lemma FinishKeepsValid(h: Hasher<Body>, t: Tables, id: string, now: nat, completed: bool, action: Option<NextAction>,
                         error: Option<ErrorCode>)
    requires Valid(h, t) && id in t.jobs && t.jobs[id].state != Completed
    ensures Valid(h, FinishTx(h, t, id, now, completed, action, error))
  {
    assert JobValid(h, t, id);
    var state := if completed then Completed else Stopped;
    var j := t.jobs[id].(state := state, leaseUntil := None, updatedAt := now, lastAction := action,
                         lastError := error);
    var body := Body(id, if completed then CompletedEvent else StoppedEvent, state, action, error, now);
    WriteFrames(h, t, j, body);
    WriteAgrees(h, t, j, body);
    FrameValid(h, t, FinishTx(h, t, id, now, completed, action, error), id);
  }

  lemma PutOffKeepsValid(h: Hasher<Body>, t: Tables, id: string, now: nat, delay: nat, action: Option<NextAction>,
                         error: Option<ErrorCode>)
    requires Valid(h, t) && id in t.jobs && t.jobs[id].state != Completed
    ensures Valid(h, PutOffTx(h, t, id, now, delay, action, error))
  {
    assert JobValid(h, t, id);
    OpenWriteKeepsValid(h, t, t.jobs[id].(state := Waiting, nextRunAt := now + delay, leaseUntil := None,
                                          updatedAt := now, lastAction := action, lastError := error),
                        Body(id, if error.Some? then RetryScheduled else WaitingEvent, Waiting, action, error, now));
  }

  lemma WaitKeepsValid(h: Hasher<Body>, t: Tables, id: string, now: nat, delay: nat, action: Option<NextAction>,
                       error: Option<ErrorCode>)
    requires Valid(h, t) && id in t.jobs && t.jobs[id].state != Completed
    ensures Valid(h, WaitTx(h, t, id, now, delay, action, error))
  {
    if t.jobs[id].attemptCount >= t.jobs[id].maxAttempts {
      FinishKeepsValid(h, t, id, now, false, action, Some(MaximumAttempts));
    } else {
      PutOffKeepsValid(h, t, id, now, delay, action, error);
    }
  }

  // ---------- what a transaction on one job leaves alone ----------

  ghost predicate Untouched(t: Tables, w: Tables, other: string) {
    other in t.jobs ==>
      && other in w.jobs && w.jobs[other] == t.jobs[other]
      && Journal(w.events, other) == Journal(t.events, other)
      && (other in w.anchors <==> other in t.anchors) && (other in w.anchors ==> w.anchors[other] == t.anchors[other])
  }

  lemma WriteLeavesOthers(h: Hasher<Body>, t: Tables, j: Job, body: Body, other: string)
    requires other != body.decisionId
    ensures Untouched(t, Write(h, t, j, body), other)
  {
    RecordExtendsJournal(h, t.(jobs := t.jobs[body.decisionId := j]), body, other);
  }

  lemma ScheduleLeavesOthers(h: Hasher<Body>, t: Tables, id: string, maxAttempts: nat, now: nat, other: string)
    requires other != id || id in t.jobs
    ensures Untouched(t, ScheduleTx(h, t, id, maxAttempts, now), other)
  {
    if id !in t.jobs {
      WriteLeavesOthers(h, t, NewJob(maxAttempts, now), Body(id, ScheduledEvent, Scheduled, None, None, now), other);
    }
  }

  lemma ResumeLeavesOthers(h: Hasher<Body>, t: Tables, id: string, additional: nat, now: nat, other: string)
    requires other != id || (id in t.jobs && t.jobs[id].state == Completed)
    ensures Untouched(t, ResumeTx(h, t, id, additional, now), other)
  {
    if id in t.jobs && Recoverable(t.jobs[id]) {
      WriteLeavesOthers(h, t, ResumedJob(t.jobs[id], additional, now), Body(id, Resumed, Scheduled, None, None, now),
                        other);
    }
  }

  lemma ClaimLeavesOthers(h: Hasher<Body>, t: Tables, id: string, now: nat, lease: nat, other: string)
    requires other != id && id in t.jobs
    ensures Untouched(t, ClaimTx(h, t, id, now, lease), other)
  {
    var j := t.jobs[id];
    if j.attemptCount >= j.maxAttempts {
      WriteLeavesOthers(h, t, j.(state := Stopped, leaseUntil := None, updatedAt := now,
                                 lastError := Some(MaximumAttempts)),
                        Body(id, StoppedEvent, Stopped, None, Some(MaximumAttempts), now), other);
    } else {
      WriteLeavesOthers(h, t, j.(state := Running, leaseUntil := Some(now + lease), updatedAt := now,
                                 attemptCount := j.attemptCount + 1),
                        Body(id, AttemptStarted, Running, None, None, now), other);
    }
  }

  lemma FinishLeavesOthers(h: Hasher<Body>, t: Tables, id: string, now: nat, completed: bool,
                           action: Option<NextAction>,
                           error: Option<ErrorCode>, other: string)
    requires other != id && id in t.jobs
    ensures Untouched(t, FinishTx(h, t, id, now, completed, action, error), other)
  {
    var state := if completed then Completed else Stopped;
    var j := t.jobs[id].(state := state, leaseUntil := None, updatedAt := now, lastAction := action,
                         lastError := error);
    var body := Body(id, if completed then CompletedEvent else StoppedEvent, state, action, error, now);
    WriteLeavesOthers(h, t, j, body, other);
  }

  lemma PutOffLeavesOthers(h: Hasher<Body>, t: Tables, id: string, now: nat, delay: nat, action: Option<NextAction>,
                           error: Option<ErrorCode>, other: string)
    requires other != id && id in t.jobs
    ensures Untouched(t, PutOffTx(h, t, id, now, delay, action, error), other)
  {
    WriteLeavesOthers(h, t, t.jobs[id].(state := Waiting, nextRunAt := now + delay, leaseUntil := None,
                                        updatedAt := now, lastAction := action, lastError := error),
                      Body(id, if error.Some? then RetryScheduled else WaitingEvent, Waiting, action, error, now),
                      other);
  }

  lemma WaitLeavesOthers(h: Hasher<Body>, t: Tables, id: string, now: nat, delay: nat, action: Option<NextAction>,
                         error: Option<ErrorCode>, other: string)
    requires other != id && id in t.jobs
    ensures Untouched(t, WaitTx(h, t, id, now, delay, action, error), other)
  {
    if t.jobs[id].attemptCount >= t.jobs[id].maxAttempts {
      FinishLeavesOthers(h, t, id, now, false, action, Some(MaximumAttempts), other);
    } else {
      PutOffLeavesOthers(h, t, id, now, delay, action, error, other);
    }
  }
}
