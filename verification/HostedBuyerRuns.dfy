/** Whole runs of the hosted buyer queue: enqueues, claims and finishes of any workers, in any order. */
module HostedBuyerRuns {
  import opened Wrappers
  import opened EventChain
  import opened HostedEventVerifier
  import opened HostedBuyerJobs

  datatype Step =
    | Enqueue(id: string, agentId: string, intentId: string, maxAttempts: nat, eventId: nat, now: nat)
    | Claim(id: string, eventId: nat, now: nat, lease: nat)
    | Finish(id: string, token: Token, state: JobState, action: Option<string>, error: Option<string>,
             nextRunAt: Option<nat>, eventId: nat, now: nat)

  function Next(h: Hasher<Body>, t: Tables, step: Step): Tables {
    match step
    case Enqueue(id, agentId, intentId, maxAttempts, eventId, now) =>
      EnqueueTx(h, t, id, agentId, intentId, maxAttempts, eventId, now)
    case Claim(id, eventId, now, lease) => ClaimTx(h, t, id, eventId, now, lease)
    case Finish(id, token, state, action, error, nextRunAt, eventId, now) =>
      FinishTx(h, t, id, token, state, action, error, nextRunAt, eventId, now)
  }

  function Execute(h: Hasher<Body>, t: Tables, steps: seq<Step>): Tables {
    if steps == [] then t else Next(h, Execute(h, t, steps[..|steps| - 1]), steps[|steps| - 1])
  }

  // ---------- leases ----------

  /** Number of lease events. */
  function Leases(rows: seq<Row>): nat {
    if rows == [] then 0 else Leases(rows[..|rows| - 1]) + if rows[|rows| - 1].body.eventType == Leased then 1 else 0
  }

  /** A job is leased exactly while it holds a token and an expiry, it has a finish time exactly when completed,
      its attempts are its lease events, and its state is the last one journaled, except that an expired lease
      went back to the queue silently. */
  predicate JobValid(j: Job, rows: seq<Row>, issued: Token) {
    && (j.state == Leased <==> j.leaseToken.Some?)
    && (j.leaseToken.Some? <==> j.leaseUntil.Some?)
    && (j.leaseToken.Some? ==> j.leaseToken.value < issued)
    && (j.state == Completed <==> j.completedAt.Some?)
    && j.attemptCount == Leases(rows)
    && rows != []
    && (j.state == rows[|rows| - 1].body.state || (j.state == Queued && rows[|rows| - 1].body.state == Leased))
  }

  ghost predicate JobsValid(t: Tables) {
    && t.journals.Keys == t.jobs.Keys
    && forall id {:trigger Journal(t, id)} :: id in t.jobs ==> JobValid(t.jobs[id], Journal(t, id), t.issued)
  }

  ghost predicate TokensDiffer(t: Tables) {
    forall a, b :: a in t.jobs && b in t.jobs && a != b && t.jobs[a].leaseToken.Some? ==>
      t.jobs[a].leaseToken != t.jobs[b].leaseToken
  }

  ghost predicate Valid(t: Tables) { JobsValid(t) && TokensDiffer(t) }

  lemma RecordCounts(h: Hasher<Body>, rows: seq<Row>, eventId: nat, body: Body)
    ensures Leases(Record(h, rows, eventId, body)) == Leases(rows) + if body.eventType == Leased then 1 else 0
  {
    var after := Record(h, rows, eventId, body);
    assert after[..|rows|] == rows;
  }

  lemma EnqueueKeepsValid(h: Hasher<Body>, t: Tables, id: string, agentId: string, intentId: string, maxAttempts: nat,
                          eventId: nat, now: nat)
    requires Valid(t)
    ensures Valid(EnqueueTx(h, t, id, agentId, intentId, maxAttempts, eventId, now))
  {
    var after := EnqueueTx(h, t, id, agentId, intentId, maxAttempts, eventId, now);
    RecordCounts(h, Journal(t, id), eventId, Body(id, agentId, intentId, Queued, Queued, None, None, now));
    forall other | other in after.jobs ensures JobValid(after.jobs[other], Journal(after, other), after.issued) {
      if other != id {
        assert Journal(after, other) == Journal(t, other);
      }
    }
  }

  lemma ReleaseKeepsValid(t: Tables, now: nat)
    requires Valid(t)
    ensures Valid(t.(jobs := Released(t.jobs, now)))
  {
    var after := t.(jobs := Released(t.jobs, now));
    forall id | id in after.jobs ensures JobValid(after.jobs[id], Journal(after, id), after.issued) {
      assert Journal(after, id) == Journal(t, id);
    }
  }

  lemma LeaseKeepsValid(h: Hasher<Body>, t: Tables, id: string, rows: seq<Row>, now: nat, lease: nat)
    requires Valid(t) && id in t.jobs && Due(t.jobs[id], now)
    requires |rows| > 0 && Leases(rows) == Leases(Journal(t, id)) + 1 && rows[|rows| - 1].body.state == Leased
    ensures Valid(Tables(t.jobs[id := LeaseRow(t.jobs[id], t.issued, now, lease)], t.journals[id := rows],
                         t.issued + 1))
  {
    var after := Tables(t.jobs[id := LeaseRow(t.jobs[id], t.issued, now, lease)], t.journals[id := rows], t.issued + 1);
    forall other | other in after.jobs ensures JobValid(after.jobs[other], Journal(after, other), after.issued) {
      assert JobValid(t.jobs[other], Journal(t, other), t.issued);
    }
    forall a, b | a in after.jobs && b in after.jobs && a != b && after.jobs[a].leaseToken.Some?
      ensures after.jobs[a].leaseToken != after.jobs[b].leaseToken {
      assert JobValid(t.jobs[a], Journal(t, a), t.issued) && JobValid(t.jobs[b], Journal(t, b), t.issued);
    }
  }

  lemma ClaimKeepsValid(h: Hasher<Body>, t: Tables, id: string, eventId: nat, now: nat, lease: nat)
    requires Valid(t)
    ensures Valid(ClaimTx(h, t, id, eventId, now, lease))
  {
    ReleaseKeepsValid(t, now);
    var between := t.(jobs := Released(t.jobs, now));
    if id in between.jobs && Due(between.jobs[id], now) {
      var j := between.jobs[id];
      var body := Body(id, j.agentId, j.intentId, Leased, Leased, None, None, now);
      RecordCounts(h, Journal(t, id), eventId, body);
      LeaseKeepsValid(h, between, id, Record(h, Journal(t, id), eventId, body), now, lease);
    }
  }

  lemma FinishKeepsValid(h: Hasher<Body>, t: Tables, id: string, token: Token, state: JobState, action: Option<string>,
                         error: Option<string>,
                         nextRunAt: Option<nat>, eventId: nat, now: nat)
    requires Valid(t)
    ensures Valid(FinishTx(h, t, id, token, state, action, error, nextRunAt, eventId, now))
  {
    var after := FinishTx(h, t, id, token, state, action, error, nextRunAt, eventId, now);
    if state != Leased && Holds(t, id, token) {
      var j := t.jobs[id];
      RecordCounts(h, Journal(t, id), eventId, Body(id, j.agentId, j.intentId, state, state, action, error, now));
      forall other | other in after.jobs ensures JobValid(after.jobs[other], Journal(after, other), after.issued) {
        assert JobValid(t.jobs[other], Journal(t, other), t.issued);
        if other != id {
          assert Journal(after, other) == Journal(t, other);
        }
      }
    }
  }

  lemma {:induction false} ExecuteKeepsValid(h: Hasher<Body>, t: Tables, steps: seq<Step>)
    requires Valid(t)
    ensures Valid(Execute(h, t, steps))
  {
    if steps != [] {
      ExecuteKeepsValid(h, t, steps[..|steps| - 1]);
      var before := Execute(h, t, steps[..|steps| - 1]);
      match steps[|steps| - 1]
      case Enqueue(id, agentId, intentId, maxAttempts, eventId, now) =>
        EnqueueKeepsValid(h, before, id, agentId, intentId, maxAttempts, eventId, now);
      case Claim(id, eventId, now, lease) => ClaimKeepsValid(h, before, id, eventId, now, lease);
      case Finish(id, token, state, action, error, nextRunAt, eventId, now) =>
        FinishKeepsValid(h, before, id, token, state, action, error, nextRunAt, eventId, now);
    }
  }

  /** In every run from the empty queue the lease, the attempt count and the state of a job agree with its journal. */
  lemma RunsAreSafe(h: Hasher<Body>, steps: seq<Step>, id: string)
    requires id in Execute(h, EMPTY, steps).jobs
    ensures var t := Execute(h, EMPTY, steps); JobValid(t.jobs[id], Journal(t, id), t.issued)
    ensures TokensDiffer(Execute(h, EMPTY, steps))
  {
    ExecuteKeepsValid(h, EMPTY, steps);
  }

  predicate Holder(t: Tables, token: Token, id: string) { id in t.jobs && t.jobs[id].leaseToken == Some(token) }

  lemma NextNeverRestores(h: Hasher<Body>, t: Tables, token: Token, id: string, step: Step)
    requires token < t.issued && !Holder(t, token, id)
    ensures token < Next(h, t, step).issued && !Holder(Next(h, t, step), token, id)
  {
  }

  /** A worker whose token was taken away can finish nothing, however late it tries. */
  lemma {:induction false} SupersededFinishConflicts(h: Hasher<Body>, t: Tables, token: Token, id: string,
                                                     steps: seq<Step>, state: JobState,
                                    action: Option<string>, error: Option<string>, nextRunAt: Option<nat>,
                                      eventId: nat, now: nat)
    requires token < t.issued && !Holder(t, token, id)
    ensures var later := Execute(h, t, steps);
      token < later.issued && !Holder(later, token, id)
        && FinishTx(h, later, id, token, state, action, error, nextRunAt, eventId, now) == later
  {
    if steps != [] {
      SupersededFinishConflicts(h, t, token, id, steps[..|steps| - 1], state, action, error, nextRunAt, eventId, now);
      NextNeverRestores(h, Execute(h, t, steps[..|steps| - 1]), token, id, steps[|steps| - 1]);
    }
  }

  // ---------- the limit that is not enforced ----------

  /** Claim and hand back, over and over. */
  function Handbacks(id: string, agentId: string, intentId: string, n: nat): seq<Step> {
    if n == 0 then [Enqueue(id, agentId, intentId, 1, 0, 0)]
    else
      Handbacks(id, agentId, intentId, n - 1)
      + [Claim(id, 0, 0, 15), Finish(id, n - 1, Queued, None, None, None, 0, 0)]
  }

  predicate Waits(t: Tables, id: string, attempts: nat) {
    && id in t.jobs && t.issued == attempts
    && t.jobs[id].state == Queued && t.jobs[id].nextRunAt == 0 && t.jobs[id].maxAttempts == 1
      && t.jobs[id].attemptCount == attempts
  }

  lemma HandbackAddsAnAttempt(h: Hasher<Body>, t: Tables, id: string, n: nat)
    requires Waits(t, id, n)
    ensures Waits(FinishTx(h, ClaimTx(h, t, id, 0, 0, 15), id, n, Queued, None, None, None, 0, 0), id, n + 1)
  {
    assert Due(Released(t.jobs, 0)[id], 0);
    assert Holds(ClaimTx(h, t, id, 0, 0, 15), id, n);
  }

  lemma ExecuteTwo(h: Hasher<Body>, t: Tables, steps: seq<Step>, a: Step, b: Step)
    ensures Execute(h, t, steps + [a, b]) == Next(h, Next(h, Execute(h, t, steps), a), b)
  {
    var both := steps + [a, b];
    var one := both[..|both| - 1];
    assert one == steps + [a] && one[..|one| - 1] == steps;
  }

  /** Claims never look at `max_attempts`: a job allowed one attempt can be attempted any number of times. */
  lemma {:induction false} AttemptsAreNotLimited(h: Hasher<Body>, id: string, agentId: string, intentId: string, n: nat)
    ensures Waits(Execute(h, EMPTY, Handbacks(id, agentId, intentId, n)), id, n)
  {
    if n == 0 {
      var steps := Handbacks(id, agentId, intentId, 0);
      assert Execute(h, EMPTY, steps[..0]) == EMPTY;
      assert Execute(h, EMPTY, steps) == EnqueueTx(h, EMPTY, id, agentId, intentId, 1, 0, 0);
    } else {
      AttemptsAreNotLimited(h, id, agentId, intentId, n - 1);
      var before := Handbacks(id, agentId, intentId, n - 1);
      HandbackAddsAnAttempt(h, Execute(h, EMPTY, before), id, n - 1);
      ExecuteTwo(h, EMPTY, before, Claim(id, 0, 0, 15), Finish(id, n - 1, Queued, None, None, None, 0, 0));
    }
  }

  predicate WithinMaximum(t: Tables, id: string) {
    id in t.jobs ==> t.jobs[id].attemptCount <= t.jobs[id].maxAttempts
  }

  /** A job that a claim would lease has attempts left. */
  predicate AttemptsLeft(t: Tables, id: string, now: nat) {
    id in t.jobs && Due(Released(t.jobs, now)[id], now) ==> t.jobs[id].attemptCount < t.jobs[id].maxAttempts
  }

  /** A claim keeps its job within the maximum exactly when the job has attempts left or is not due. */
  lemma ClaimStaysWithinExactly(h: Hasher<Body>, t: Tables, id: string, eventId: nat, now: nat, lease: nat)
    requires WithinMaximum(t, id)
    ensures WithinMaximum(ClaimTx(h, t, id, eventId, now, lease), id) <==> AttemptsLeft(t, id, now)
  {
  }

  lemma NextStaysWithin(h: Hasher<Body>, t: Tables, step: Step, id: string)
    requires WithinMaximum(t, id) && (step.Claim? ==> AttemptsLeft(t, step.id, step.now))
    ensures WithinMaximum(Next(h, t, step), id)
  {
    match step
    case Claim(claimed, eventId, now, lease) =>
      if claimed == id {
        ClaimStaysWithinExactly(h, t, id, eventId, now, lease);
      }
    case _ =>
  }

  ghost predicate ClaimsGuarded(h: Hasher<Body>, t: Tables, steps: seq<Step>) {
    forall k: nat {:trigger steps[k]} :: k < |steps| && steps[k].Claim? ==>
      AttemptsLeft(Execute(h, t, steps[..k]), steps[k].id, steps[k].now)
  }

  /** On every run whose claims ask for attempts left, no job is attempted more often than its maximum. */
  lemma {:induction false} GuardedClaimsStayWithin(h: Hasher<Body>, t: Tables, steps: seq<Step>, id: string)
    requires WithinMaximum(t, id) && ClaimsGuarded(h, t, steps)
    ensures WithinMaximum(Execute(h, t, steps), id)
  {
    if steps != [] {
      var n := |steps| - 1;
      var front := steps[..n];
      forall k: nat | k < n && front[k].Claim?
        ensures AttemptsLeft(Execute(h, t, front[..k]), front[k].id, front[k].now)
      {
        assert front[..k] == steps[..k] && front[k] == steps[k];
      }
      GuardedClaimsStayWithin(h, t, front, id);
      assert steps[n].Claim? ==> AttemptsLeft(Execute(h, t, steps[..n]), steps[n].id, steps[n].now);
      NextStaysWithin(h, Execute(h, t, front), steps[n], id);
    }
  }

  // ---------- chains ----------

  /** Every row of the journal was created before `now`. */
  predicate Earlier(rows: seq<Row>, now: nat) { forall k :: 0 <= k < |rows| ==> rows[k].body.createdAt < now }

  predicate Rising(rows: seq<Row>) {
    forall i, j :: 0 <= i < j < |rows| ==> rows[i].body.createdAt < rows[j].body.createdAt
  }

  lemma RisingLatestIsLast(rows: seq<Row>)
    requires rows != [] && Rising(rows)
    ensures Latest(rows) == |rows| - 1
  {
    if Latest(rows) < |rows| - 1 {
      assert Before(rows[Latest(rows)], rows[|rows| - 1]);
    }
  }

  lemma RecordKeepsRising(h: Hasher<Body>, rows: seq<Row>, eventId: nat, body: Body)
    requires Linked(h, rows) && Rising(rows) && Earlier(rows, body.createdAt)
    ensures Linked(h, Record(h, rows, eventId, body)) && Rising(Record(h, rows, eventId, body))
  {
    if rows != [] {
      RisingLatestIsLast(rows);
    }
    ExtendLinked(h, rows, Record(h, rows, eventId, body)[|rows|]);
  }

  ghost predicate Chains(h: Hasher<Body>, t: Tables) {
    forall id {:trigger Journal(t, id)} :: Linked(h, Journal(t, id)) && Rising(Journal(t, id))
  }

  /** If the step journals an event, its clock reading is later than everything in the journal of its job. */
  predicate StrictlyLater(h: Hasher<Body>, t: Tables, step: Step) {
    Journal(Next(h, t, step), step.id) != Journal(t, step.id) ==> Earlier(Journal(t, step.id), step.now)
  }

  lemma NextKeepsChains(h: Hasher<Body>, t: Tables, step: Step)
    requires Chains(h, t) && StrictlyLater(h, t, step)
    ensures Chains(h, Next(h, t, step))
  {
    var after := Next(h, t, step);
    var rows := Journal(t, step.id);
    forall id ensures Linked(h, Journal(after, id)) && Rising(Journal(after, id)) {
      if Journal(after, id) != Journal(t, id) {
        var e := Journal(after, id)[|rows|];
        assert Journal(after, id) == Record(h, rows, e.eventId, e.body);
        RecordKeepsRising(h, rows, e.eventId, e.body);
      }
    }
  }

  ghost predicate ClockRises(h: Hasher<Body>, steps: seq<Step>) {
    forall k: nat {:trigger steps[k]} :: k < |steps| ==> StrictlyLater(h, Execute(h, EMPTY, steps[..k]), steps[k])
  }

  /** Along a run whose clock rises strictly for each job, every journal stays one unbroken chain, and the
      verifier accepts all of it in whatever order its rows are read. */
  lemma {:induction false} RisingClockKeepsChains(h: Hasher<Body>, steps: seq<Step>)
    requires ClockRises(h, steps)
    ensures Chains(h, Execute(h, EMPTY, steps))
  {
    if steps == [] {
      forall id ensures Linked(h, Journal(EMPTY, id)) && Rising(Journal(EMPTY, id)) {
      }
    } else {
      var n := |steps| - 1;
      var front := steps[..n];
      forall k: nat | k < n ensures StrictlyLater(h, Execute(h, EMPTY, front[..k]), front[k]) {
        assert front[..k] == steps[..k] && front[k] == steps[k];
      }
      RisingClockKeepsChains(h, front);
      assert StrictlyLater(h, Execute(h, EMPTY, steps[..n]), steps[n]);
      NextKeepsChains(h, Execute(h, EMPTY, front), steps[n]);
    }
  }

  lemma RisingClockVerifies(h: Hasher<Body>, steps: seq<Step>, id: string, rows: seq<Row>)
    requires CollisionFree(h) && AvoidsGenesis(h) && ClockRises(h, steps)
    requires multiset(rows) == multiset(Journal(Execute(h, EMPTY, steps), id))
    ensures Verify(h, rows).valid && Verify(h, rows).eventCount == |rows|
  {
    RisingClockKeepsChains(h, steps);
    var journal := Journal(Execute(h, EMPTY, steps), id);
    assert Linked(h, journal);
    assert IsChainOf(h, journal, rows);
    VerifierIsExact(h, rows);
  }
}
