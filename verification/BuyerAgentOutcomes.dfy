/** What each transaction on a job leaves of its row, its journal and its anchor, said of their own columns. */
module BuyerAgentOutcomes {
  import opened Wrappers
  import opened EventChain
  import opened BuyerAgentJournal
  import AnchorPipeline

  /** One event more, of this job, and the row counts it and has its hash; other jobs and journals are as they were. */
  ghost predicate Journaled(h: Hasher<Body>, t: Tables, after: Tables, id: string, event: EventType,
                            action: Option<NextAction>, error: Option<ErrorCode>, now: nat)
  {
    && |after.events| == |t.events| + 1 && after.events[..|t.events|] == t.events
    && id in after.jobs && after.jobs.Keys == t.jobs.Keys + {id}
    && (forall other :: other in t.jobs && other != id ==> after.jobs[other] == t.jobs[other])
    && var e := after.events[|t.events|];
      && e.eventId == |t.events| + 1
      && e.body.decisionId == id && e.body.eventType == event && e.body.state == after.jobs[id].state
      && e.body.action == action && e.body.error == error && e.body.createdAt == now
      && e.previousHash == Head(Journal(t.events, id)) && e.eventHash == h(e.body, e.previousHash)
      && after.jobs[id].eventHead == e.eventHash
      && after.jobs[id].eventCount == (if id in t.jobs then t.jobs[id].eventCount else 0) + 1
  }

  /** A new job is scheduled for now with all its attempts, and a known one is left alone. */
  lemma SchedulesExactly(h: Hasher<Body>, t: Tables, id: string, maxAttempts: nat, now: nat)
    ensures var after := ScheduleTx(h, t, id, maxAttempts, now);
      && (id in t.jobs ==> after == t)
      && (id !in t.jobs ==>
            && Journaled(h, t, after, id, ScheduledEvent, None, None, now) && after.anchors == t.anchors
            && var j := after.jobs[id];
              && j.state == Scheduled && j.nextRunAt == now && j.leaseUntil.None?
              && j.attemptCount == 0 && j.maxAttempts == maxAttempts && j.createdAt == now && j.updatedAt == now
              && j.lastAction.None? && j.lastError.None?)
  {
  }

  /** A resumed job gets the additional attempts on top of those it made, and exactly a job stopped by its maximum is
      resumed. */
  lemma ResumesExactly(h: Hasher<Body>, t: Tables, id: string, additional: nat, now: nat)
    ensures var after := ResumeTx(h, t, id, additional, now);
      var spent := id in t.jobs && t.jobs[id].state == Stopped && t.jobs[id].lastError == Some(MaximumAttempts);
      && (!spent ==> after == t)
      && (spent ==>
            && Journaled(h, t, after, id, Resumed, None, None, now) && after.anchors == t.anchors
            && var before, j := t.jobs[id], after.jobs[id];
              && j.state == Scheduled && j.nextRunAt == now && j.leaseUntil.None? && j.lastError.None?
              && j.attemptCount == before.attemptCount && j.maxAttempts == before.attemptCount + additional
              && j.createdAt == before.createdAt && j.updatedAt == now && j.lastAction == before.lastAction)
  {
  }

  /** A job is due when it waits and its time has come, or when its lease has run out, and in no other state. */
  lemma DueExactly(j: Job, now: nat)
    ensures Due(j, now) <==>
      match j.state
      case Scheduled => j.nextRunAt <= now
      case Waiting => j.nextRunAt <= now
      case Running => j.leaseUntil.Some? && j.leaseUntil.value <= now
      case Completed => false
      case Stopped => false
  {
  }

  /** A claim counts an attempt and takes a lease, or stops a job whose attempts are spent. */
  lemma ClaimsExactly(h: Hasher<Body>, t: Tables, id: string, now: nat, lease: nat)
    requires id in t.jobs
    ensures var after := ClaimTx(h, t, id, now, lease);
      var spent := t.jobs[id].attemptCount >= t.jobs[id].maxAttempts;
      && (spent ==> Journaled(h, t, after, id, StoppedEvent, None, Some(MaximumAttempts), now))
      && (!spent ==> Journaled(h, t, after, id, AttemptStarted, None, None, now))
      && after.anchors == t.anchors
      && var before, j := t.jobs[id], after.jobs[id];
        && (j.state == Stopped <==> spent) && (j.state == Running <==> !spent)
        && j.attemptCount == before.attemptCount + (if spent then 0 else 1)
        && j.leaseUntil == (if spent then None else Some(now + lease))
        && j.lastError == (if spent then Some(MaximumAttempts) else before.lastError)
        && j.maxAttempts == before.maxAttempts && j.nextRunAt == before.nextRunAt && j.updatedAt == now
        && j.createdAt == before.createdAt && j.lastAction == before.lastAction
  {
  }

  /** A finish completes or stops the job, and completion starts an anchor over the head of its own event, unless the
      job has one. */
  lemma FinishesExactly(h: Hasher<Body>, t: Tables, id: string, now: nat, completed: bool, action: Option<NextAction>,
                        error: Option<ErrorCode>)
    requires id in t.jobs
    ensures var after := FinishTx(h, t, id, now, completed, action, error);
      && (completed ==> Journaled(h, t, after, id, CompletedEvent, action, error, now))
      && (!completed ==> Journaled(h, t, after, id, StoppedEvent, action, error, now))
      && (completed <==> after.jobs[id].state == Completed) && (!completed <==> after.jobs[id].state == Stopped)
      && (completed && id !in t.anchors ==>
            && after.anchors.Keys == t.anchors.Keys + {id}
            && (forall other :: other in t.anchors ==> after.anchors[other] == t.anchors[other])
            && after.anchors[id].evidence == after.jobs[id].eventHead
            && after.anchors[id].state == AnchorPipeline.Ready(AnchorPipeline.ATTEST)
            && after.anchors[id].createdAt == now)
      && (!completed || id in t.anchors ==> after.anchors == t.anchors)
  {
  }

  /** A job put off waits out its delay, and the event says whether an error was the reason. */
  lemma PutsOffExactly(h: Hasher<Body>, t: Tables, id: string, now: nat, delay: nat, action: Option<NextAction>,
                       error: Option<ErrorCode>)
    requires id in t.jobs
    ensures var after := PutOffTx(h, t, id, now, delay, action, error);
      && (error.Some? ==> Journaled(h, t, after, id, RetryScheduled, action, error, now))
      && (error.None? ==> Journaled(h, t, after, id, WaitingEvent, action, error, now))
      && after.anchors == t.anchors
      && var before, j := t.jobs[id], after.jobs[id];
        && j.state == Waiting && j.nextRunAt == now + delay && j.leaseUntil.None?
        && j.lastAction == action && j.lastError == error && j.updatedAt == now
        && j.attemptCount == before.attemptCount && j.maxAttempts == before.maxAttempts
        && j.createdAt == before.createdAt
  {
  }

  /** A journal holds exactly the events of its job, in their order: the last one is the last of the table. */
  lemma {:induction false} JournalExactly(events: seq<Row>, id: string, e: Row)
    ensures e in Journal(events, id) <==> e in events && e.body.decisionId == id
    ensures Journal(events + [e], id) == Journal(events, id) + if e.body.decisionId == id then [e] else []
  {
    assert (events + [e])[..|events|] == events;
    if events != [] {
      JournalExactly(events[..|events| - 1], id, e);
      assert events == events[..|events| - 1] + [events[|events| - 1]];
    }
  }
}
