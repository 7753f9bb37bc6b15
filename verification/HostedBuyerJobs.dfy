/** The hosted buyer queue of iat/hosted_buyer_jobs.py: leases fenced by a token, and a journal per job
    whose next link is taken from the latest row by creation time and id. */
module HostedBuyerJobs {
  import opened Wrappers
  import opened EventChain
  import opened HostedEventVerifier

  type Token = nat

  datatype JobState = Queued | Leased | Waiting | Completed | Stopped

  datatype Body = Body(jobId: string, agentId: string, intentId: string, eventType: JobState, state: JobState,
                       action: Option<string>, error: Option<string>, createdAt: nat)

  type Row = Event<Body>

  datatype Job = Job(agentId: string, intentId: string, state: JobState, nextRunAt: nat, leaseToken: Option<Token>,
                     leaseUntil: Option<nat>,
                     attemptCount: nat, maxAttempts: nat, lastAction: Option<string>, lastError: Option<string>,
                     createdAt: nat, updatedAt: nat, completedAt: Option<nat>)

  /** The two tables; a journal holds the rows of its job in the order they were inserted. */
  datatype Tables = Tables(jobs: map<string, Job>, journals: map<string, seq<Row>>, issued: Token)

  const EMPTY := Tables(map[], map[], 0)

  function Journal(t: Tables, id: string): seq<Row> { if id in t.journals then t.journals[id] else [] }

  // ---------- appending ----------

  /** Ordered by creation time, then by id. */
  predicate Before(a: Row, b: Row) {
    a.body.createdAt < b.body.createdAt || (a.body.createdAt == b.body.createdAt && a.eventId < b.eventId)
  }

  /** The position of the latest row. */
  function Latest(rows: seq<Row>): (k: nat)
    requires rows != []
    ensures k < |rows|
    ensures forall i :: 0 <= i < |rows| ==> !Before(rows[k], rows[i])
  {
    if |rows| == 1 then 0
    else
      var k := Latest(rows[..|rows| - 1]);
      assert forall i :: 0 <= i < |rows| - 1 ==> rows[..|rows| - 1][i] == rows[i];
      if Before(rows[k], rows[|rows| - 1]) then |rows| - 1 else k
  }

  function Record(h: Hasher<Body>, rows: seq<Row>, eventId: nat, body: Body): seq<Row> {
    var previous := if rows == [] then GENESIS else rows[Latest(rows)].eventHash;
    rows + [Event(eventId, body, previous, h(body, previous))]
  }

  lemma OffTailAppendForks(h: Hasher<Body>, rows: seq<Row>, eventId: nat, body: Body)
    requires CollisionFree(h) && AvoidsGenesis(h) && Linked(h, rows)
    requires rows != [] && Latest(rows) < |rows| - 1
    ensures !PermutesChain(h, Record(h, rows, eventId, body))
  {
    var after := Record(h, rows, eventId, body);
    var k := Latest(rows) + 1;
    assert FitsAt(h, rows, k);
    assert after[k].previousHash == after[|rows|].previousHash;
    if PermutesChain(h, after) {
      VerifierIsExact(h, after);
      ValidReportMayDropRows(h, after);
      assert false;
    }
  }

  /** Appending to a chain keeps one that the verifier accepts in full exactly when the row appended last is
      still the latest by time and id. */
  lemma AppendKeepsChainExactly(h: Hasher<Body>, rows: seq<Row>, eventId: nat, body: Body)
    requires CollisionFree(h) && AvoidsGenesis(h) && Linked(h, rows)
    ensures Linked(h, Record(h, rows, eventId, body)) <==> rows == [] || Latest(rows) == |rows| - 1
    ensures PermutesChain(h, Record(h, rows, eventId, body)) <==> rows == [] || Latest(rows) == |rows| - 1
  {
    var after := Record(h, rows, eventId, body);
    if rows == [] || Latest(rows) == |rows| - 1 {
      ExtendLinked(h, rows, after[|rows|]);
    } else {
      OffTailAppendForks(h, rows, eventId, body);
    }
    if Linked(h, after) {
      assert IsChainOf(h, after, after);
    }
  }

  /** Two rows of one second whose ids came out in the wrong order fork the next row off the first. */
  lemma EqualTimesFork(h: Hasher<Body>, first: nat, second: nat, third: nat, a: Body, b: Body, c: Body)
    requires CollisionFree(h) && AvoidsGenesis(h)
    requires a.createdAt == b.createdAt <= c.createdAt && second < first
    ensures var two := Record(h, Record(h, [], first, a), second, b);
      PermutesChain(h, two) && !PermutesChain(h, Record(h, two, third, c))
  {
    var one := Record(h, [], first, a);
    assert Linked(h, []);
    AppendKeepsChainExactly(h, [], first, a);
    AppendKeepsChainExactly(h, one, second, b);
    var two := Record(h, one, second, b);
    assert two[..1] == one;
    AppendKeepsChainExactly(h, two, third, c);
  }

  // ---------- transactions ----------

  datatype EnqueueError = IdentityRequired | AgentNotFound | AgentNotActive | MaxAttemptsInvalid

  /** `agentActive` is what the agent's row says, when there is one. */
  function EnqueueCheck(agentId: string, intentId: string, agentActive: Option<bool>,
                        maxAttempts: int): Option<EnqueueError>
  {
    if agentId == [] || intentId == [] then Some(IdentityRequired)
    else if agentActive.None? then Some(AgentNotFound)
    else if !agentActive.value then Some(AgentNotActive)
    else if !(1 <= maxAttempts <= 10000) then Some(MaxAttemptsInvalid)
    else None
  }

  predicate HasIdentity(j: Job, agentId: string, intentId: string) { j.agentId == agentId && j.intentId == intentId }

  function NewJob(agentId: string, intentId: string, maxAttempts: nat, now: nat): Job {
    Job(agentId, intentId, Queued, now, None, None, 0, maxAttempts, None, None, now, now, None)
  }

  function EnqueueTx(h: Hasher<Body>, t: Tables, id: string, agentId: string, intentId: string, maxAttempts: nat,
                     eventId: nat, now: nat): Tables
  {
    if id in t.jobs || exists other :: other in t.jobs && HasIdentity(t.jobs[other], agentId, intentId) then t
    else t.(jobs := t.jobs[id := NewJob(agentId, intentId, maxAttempts, now)],
            journals := t.journals[id := Record(h, Journal(t, id), eventId,
                                                Body(id, agentId, intentId, Queued, Queued, None, None, now))])
  }

  function ReleaseRow(j: Job, now: nat): Job {
    if j.state == Leased && j.leaseUntil.Some? && j.leaseUntil.value < now
    then j.(state := Queued, leaseToken := None, leaseUntil := None, updatedAt := now) else j
  }

  /** Expired leases go back to the queue, for every job, without an event. */
  function Released(jobs: map<string, Job>, now: nat): map<string, Job> {
    map id | id in jobs :: ReleaseRow(jobs[id], now)
  }

  predicate Due(j: Job, now: nat) { j.state == Queued && j.nextRunAt <= now }

  predicate Sooner(a: Job, b: Job) {
    a.nextRunAt < b.nextRunAt || (a.nextRunAt == b.nextRunAt && a.createdAt < b.createdAt)
  }

  function LeaseRow(j: Job, token: Token, now: nat, lease: nat): Job {
    j.(state := Leased, leaseToken := Some(token), leaseUntil := Some(now + lease), attemptCount := j.attemptCount + 1,
       updatedAt := now)
  }

  function ClaimTx(h: Hasher<Body>, t: Tables, id: string, eventId: nat, now: nat, lease: nat): Tables {
    var jobs := Released(t.jobs, now);
    if id in jobs && Due(jobs[id], now) then
      var j := jobs[id];
      Tables(jobs[id := LeaseRow(j, t.issued, now, lease)],
             t.journals[id := Record(h, Journal(t, id), eventId,
                                     Body(id, j.agentId, j.intentId, Leased, Leased, None, None, now))],
             t.issued + 1)
    else t.(jobs := jobs)
  }

  predicate Holds(t: Tables, id: string, token: Token) {
    id in t.jobs && t.jobs[id].state == Leased && t.jobs[id].leaseToken == Some(token)
  }

  function FinishRow(j: Job, state: JobState, action: Option<string>, error: Option<string>, nextRunAt: Option<nat>,
                     now: nat): Job
  {
    j.(state := state, leaseToken := None, leaseUntil := None, lastAction := action, lastError := error,
       nextRunAt := nextRunAt.GetOr(now), updatedAt := now, completedAt := if state == Completed then Some(now)
         else None)
  }

  function FinishTx(h: Hasher<Body>, t: Tables, id: string, token: Token, state: JobState, action: Option<string>,
                    error: Option<string>,
                    nextRunAt: Option<nat>, eventId: nat, now: nat): Tables {
    if state != Leased && Holds(t, id, token) then
      var j := t.jobs[id];
      t.(jobs := t.jobs[id := FinishRow(j, state, action, error, nextRunAt, now)],
         journals := t.journals[id := Record(h, Journal(t, id), eventId,
                                             Body(id, j.agentId, j.intentId, state, state, action, error, now))])
    else t
  }

  // ---------- the queue ----------

  datatype Claimed = NothingDue | Claimed(id: string, job: Job)

  datatype Finished = StateInvalid | LeaseConflict | JobUpdated

  class Queue {
    var jobs: map<string, Job>
    var journals: map<string, seq<Row>>
    var issued: Token
    const h: Hasher<Body>

    constructor (h: Hasher<Body>)
      ensures T() == EMPTY && this.h == h
    {
      this.h := h;
      jobs, journals, issued := map[], map[], 0;
    }

    function T(): Tables
      reads this
    {
      Tables(jobs, journals, issued)
    }

    method RecordEvent(id: string, body: Body, eventId: nat)
      modifies this`journals
      ensures journals == old(journals)[id := Record(h, Journal(old(T()), id), eventId, body)]
    {
      var rows := if id in journals then journals[id] else [];
      var previousHash := GENESIS;
      if rows != [] {
        previousHash := rows[Latest(rows)].eventHash;
      }
      journals := journals[id := rows + [Event(eventId, body, previousHash, h(body, previousHash))]];
    }

    /** One job per agent and intent: a repeated enqueue answers with the row it finds. */
    method Enqueue(id: string, agentId: string, intentId: string, agentActive: Option<bool>, maxAttempts: int,
                   eventId: nat, now: nat)
      returns (r: Result<string, EnqueueError>)
      requires id !in jobs
      modifies this
      ensures r.Err? <==> EnqueueCheck(agentId, intentId, agentActive, maxAttempts).Some?
      ensures r.Err? ==> r.error == EnqueueCheck(agentId, intentId, agentActive, maxAttempts).value && T() == old(T())
      ensures r.Ok? ==>
        && 1 <= maxAttempts
        && T() == EnqueueTx(h, old(T()), id, agentId, intentId, maxAttempts, eventId, now)
        && r.value in jobs && HasIdentity(jobs[r.value], agentId, intentId)
    {
      var refused := EnqueueCheck(agentId, intentId, agentActive, maxAttempts);
      if refused.Some? {
        return Err(refused.value);
      }
      if exists other :: other in jobs && HasIdentity(jobs[other], agentId, intentId) {
        var existing :| existing in jobs && HasIdentity(jobs[existing], agentId, intentId);
        return Ok(existing);
      }
      jobs := jobs[id := NewJob(agentId, intentId, maxAttempts, now)];
      RecordEvent(id, Body(id, agentId, intentId, Queued, Queued, None, None, now), eventId);
      r := Ok(id);
    }

    method ReleaseExpired(now: nat)
      modifies this`jobs
      ensures jobs == Released(old(jobs), now)
    {
      var table := jobs;
      var left := table.Keys;
      while left != {}
        invariant left <= table.Keys && jobs.Keys == table.Keys
        invariant forall id :: id in table ==> jobs[id] == if id in left then table[id] else ReleaseRow(table[id], now)
        decreases |left|
      {
        var id :| id in left;
        var row := jobs[id];
        if row.state == Leased && row.leaseUntil.Some? && row.leaseUntil.value < now {
          jobs := jobs[id := row.(state := Queued, leaseToken := None, leaseUntil := None, updatedAt := now)];
        }
        left := left - {id};
      }
    }

    /** ORDER BY next_run_at, created_at LIMIT 1 over the due rows. */
    method FirstDue(now: nat) returns (first: Option<string>)
      ensures first.None? <==> forall id :: id in jobs ==> !Due(jobs[id], now)
      ensures first.Some? ==>
        && first.value in jobs && Due(jobs[first.value], now)
        && forall id :: id in jobs && Due(jobs[id], now) ==> !Sooner(jobs[id], jobs[first.value])
    {
      var left := jobs.Keys;
      first := None;
      while left != {}
        invariant left <= jobs.Keys
        invariant first.None? ==> forall id :: id in jobs && id !in left ==> !Due(jobs[id], now)
        invariant first.Some? ==>
          && first.value in jobs && Due(jobs[first.value], now)
          && forall id :: id in jobs && id !in left && Due(jobs[id], now) ==> !Sooner(jobs[id], jobs[first.value])
        decreases |left|
      {
        var id :| id in left;
        if Due(jobs[id], now) && (first.None? || Sooner(jobs[id], jobs[first.value])) {
          first := Some(id);
        }
        left := left - {id};
      }
    }

    /** The job asked for, or the first one due; its lease is kept between 15 and 300 seconds. */
    method Claim(wanted: Option<string>, leaseSeconds: int, eventId: nat, now: nat) returns (r: Claimed)
      modifies this
      ensures r.NothingDue? ==> T() == old(T()).(jobs := Released(old(jobs), now))
      ensures r.NothingDue? ==> forall id :: id in jobs && (wanted.Some? ==> id == wanted.value) ==> !Due(jobs[id], now)
      ensures r.Claimed? ==>
        && (wanted.Some? ==> r.id == wanted.value)
        && r.id in Released(old(jobs), now) && Due(Released(old(jobs), now)[r.id], now)
        && (wanted.None? ==> forall id :: id in old(jobs) && Due(Released(old(jobs), now)[id], now) ==>
              !Sooner(Released(old(jobs), now)[id], Released(old(jobs), now)[r.id]))
        && T() == ClaimTx(h, old(T()), r.id, eventId, now, Max(15, Min(leaseSeconds, 300)))
        && r.id in jobs && r.job == jobs[r.id]
    {
      ReleaseExpired(now);
      var choice: Option<string>;
      if wanted.Some? {
        choice := if wanted.value in jobs && Due(jobs[wanted.value], now) then wanted else None;
      } else {
        choice := FirstDue(now);
      }
      if choice.None? {
        return NothingDue;
      }
      var id := choice.value;
      var row := jobs[id];
      var lease := Max(15, Min(leaseSeconds, 300));
      var leased := row.(state := Leased, leaseToken := Some(issued), leaseUntil := Some(now + lease),
                         attemptCount := row.attemptCount + 1, updatedAt := now);
      issued := issued + 1;
      jobs := jobs[id := leased];
      RecordEvent(id, Body(id, row.agentId, row.intentId, Leased, Leased, None, None, now), eventId);
      r := Claimed(id, leased);
    }

    method Finish(id: string, token: Token, state: JobState, action: Option<string>, error: Option<string>,
                  nextRunAt: Option<nat>,
                  eventId: nat, now: nat) returns (r: Finished)
      modifies this
      ensures T() == FinishTx(h, old(T()), id, token, state, action, error, nextRunAt, eventId, now)
      ensures r == if state == Leased then StateInvalid else if Holds(old(T()), id, token) then JobUpdated
        else LeaseConflict
      ensures r != JobUpdated ==> T() == old(T())
    {
      if state == Leased {
        return StateInvalid;
      }
      if id !in jobs || jobs[id].state != Leased || jobs[id].leaseToken != Some(token) {
        return LeaseConflict;
      }
      var row := jobs[id].(state := state, leaseToken := None, leaseUntil := None, lastAction := action,
                           lastError := error);
      row := row.(nextRunAt := nextRunAt.GetOr(now), updatedAt := now,
                  completedAt := if state == Completed then Some(now) else None);
      jobs := jobs[id := row];
      RecordEvent(id, Body(id, row.agentId, row.intentId, state, state, action, error, now), eventId);
      r := JobUpdated;
    }

    /** `rows` are the rows of the job in the order the table returns them. */
    method VerifyJobEvents(id: string, rows: seq<Row>) returns (r: Report)
      requires multiset(rows) == multiset(Journal(T(), id))
      ensures r == Verify(h, rows)
      ensures CollisionFree(h) && AvoidsGenesis(h) ==>
        (r.valid && r.eventCount == |rows| <==> PermutesChain(h, Journal(T(), id)))
    {
      r := VerifyEvents(h, rows);
      ghost var journal := Journal(T(), id);
      assert forall chain :: IsChainOf(h, chain, rows) <==> IsChainOf(h, chain, journal);
      if CollisionFree(h) && AvoidsGenesis(h) {
        VerifierIsExact(h, rows);
      }
    }
  }
}
