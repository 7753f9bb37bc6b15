/** What enqueueing, claiming and finishing leave of a hosted job and its journal, said of their own columns. */
module HostedBuyerOutcomes {
  import opened Wrappers
  import opened EventChain
  import opened HostedBuyerJobs

  /** Refused for a missing identity first, then for the agent, then for the maximum. */
  lemma EnqueueRefusesExactly(agentId: string, intentId: string, agentActive: Option<bool>, maxAttempts: int)
    ensures var refused := EnqueueCheck(agentId, intentId, agentActive, maxAttempts);
      var named := agentId != "" && intentId != "";
      && (refused == Some(IdentityRequired) <==> !named)
      && (refused == Some(AgentNotFound) <==> named && agentActive.None?)
      && (refused == Some(AgentNotActive) <==> named && agentActive == Some(false))
      && (refused == Some(MaxAttemptsInvalid) <==>
            named && agentActive == Some(true) && (maxAttempts < 1 || maxAttempts > 10000))
      && (refused.None? <==> named && agentActive == Some(true) && 1 <= maxAttempts <= 10000)
  {
  }

  /** The rows of `after` are those of `before` and one more, of this job, at this time. */
  predicate Journaled(before: seq<Row>, after: seq<Row>, id: string, j: Job, state: JobState, action: Option<string>,
                      error: Option<string>, eventId: nat, now: nat)
  {
    && |after| == |before| + 1 && after[..|before|] == before
    && var e := after[|before|];
      && e.eventId == eventId
      && e.body.jobId == id && e.body.agentId == j.agentId && e.body.intentId == j.intentId
      && e.body.eventType == state && e.body.state == state && e.body.action == action && e.body.error == error
      && e.body.createdAt == now
  }

  /** A new job is queued and due at once, exactly when neither its id nor its agent and intent are known. */
  lemma EnqueuesExactly(h: Hasher<Body>, t: Tables, id: string, agentId: string, intentId: string, maxAttempts: nat,
                        eventId: nat, now: nat)
    ensures var after := EnqueueTx(h, t, id, agentId, intentId, maxAttempts, eventId, now);
      var known := exists other :: other in t.jobs
                                   && t.jobs[other].agentId == agentId && t.jobs[other].intentId == intentId;
      && (id in t.jobs || known ==> after == t)
      && (id !in t.jobs && !known ==>
            && after.jobs.Keys == t.jobs.Keys + {id}
              && (forall other :: other in t.jobs ==> after.jobs[other] == t.jobs[other])
            && Journaled(Journal(t, id), Journal(after, id), id, after.jobs[id], Queued, None, None, eventId, now)
            && (forall other :: other != id ==> Journal(after, other) == Journal(t, other))
            && after.issued == t.issued
            && var j := after.jobs[id];
              && j.agentId == agentId && j.intentId == intentId && j.state == Queued && j.nextRunAt == now
              && j.attemptCount == 0 && j.maxAttempts == maxAttempts && j.leaseToken.None? && j.leaseUntil.None?
              && j.lastAction.None? && j.lastError.None? && j.completedAt.None? && j.createdAt == j.updatedAt == now)
  {
    assert (exists other :: other in t.jobs && HasIdentity(t.jobs[other], agentId, intentId)) <==>
      exists other :: other in t.jobs && t.jobs[other].agentId == agentId && t.jobs[other].intentId == intentId;
  }

  predicate Expired(j: Job, now: nat) { j.state == Leased && j.leaseUntil.Some? && j.leaseUntil.value < now }

  /** A job can be claimed when it is due and queued, or was leased to a worker whose lease has run out. */
  predicate Claimable(t: Tables, id: string, now: nat) {
    id in t.jobs && (t.jobs[id].state == Queued || Expired(t.jobs[id], now)) && t.jobs[id].nextRunAt <= now
  }

  /** Every other job whose lease has run out is queued again without a token, and nothing else happens to it. */
  predicate Requeued(before: Job, after: Job, now: nat) {
    if Expired(before, now) then
      after == before.(state := Queued, leaseToken := None, leaseUntil := None, updatedAt := now)
    else after == before
  }

  lemma ClaimsExactly(h: Hasher<Body>, t: Tables, id: string, eventId: nat, now: nat, lease: nat)
    ensures var after := ClaimTx(h, t, id, eventId, now, lease);
      && after.jobs.Keys == t.jobs.Keys
      && (forall other :: other in t.jobs && (other != id || !Claimable(t, id, now)) ==>
            Requeued(t.jobs[other], after.jobs[other], now))
      && (!Claimable(t, id, now) ==> after.journals == t.journals && after.issued == t.issued)
      && (Claimable(t, id, now) ==>
            && Journaled(Journal(t, id), Journal(after, id), id, t.jobs[id], Leased, None, None, eventId, now)
            && (forall other :: other != id ==> Journal(after, other) == Journal(t, other))
            && after.issued == t.issued + 1
            && var before, j := t.jobs[id], after.jobs[id];
              && j.state == Leased && j.leaseToken == Some(t.issued) && j.leaseUntil == Some(now + lease)
              && j.attemptCount == before.attemptCount + 1 && j.maxAttempts == before.maxAttempts
              && j.nextRunAt == before.nextRunAt && j.lastError == before.lastError && j.lastAction == before.lastAction
              && j.updatedAt == now && j.agentId == before.agentId && j.intentId == before.intentId)
  {
  }

  /** A finish takes effect exactly under the token of the running lease, and never to lease the job again. */
  lemma FinishesExactly(h: Hasher<Body>, t: Tables, id: string, token: Token, state: JobState, action: Option<string>,
                        error: Option<string>, nextRunAt: Option<nat>, eventId: nat, now: nat)
    ensures var after := FinishTx(h, t, id, token, state, action, error, nextRunAt, eventId, now);
      var held := id in t.jobs && t.jobs[id].state == Leased && t.jobs[id].leaseToken == Some(token);
      && (state == Leased || !held ==> after == t)
      && (state != Leased && held ==>
            && after.jobs.Keys == t.jobs.Keys && after.issued == t.issued
            && (forall other :: other in t.jobs && other != id ==> after.jobs[other] == t.jobs[other])
            && Journaled(Journal(t, id), Journal(after, id), id, t.jobs[id], state, action, error, eventId, now)
            && (forall other :: other != id ==> Journal(after, other) == Journal(t, other))
            && var before, j := t.jobs[id], after.jobs[id];
              && j.state == state && j.leaseToken.None? && j.leaseUntil.None?
              && j.nextRunAt == (if nextRunAt.Some? then nextRunAt.value else now)
              && j.lastAction == action && j.lastError == error
              && (j.completedAt == if state == Completed then Some(now) else None)
              && j.attemptCount == before.attemptCount && j.maxAttempts == before.maxAttempts && j.updatedAt == now
              && j.createdAt == before.createdAt)
  {
  }

  /** The job that has been due for longest goes first, of equals the oldest. */
  lemma SoonerExactly(a: Job, b: Job)
    ensures a.nextRunAt < b.nextRunAt ==> Sooner(a, b) && !Sooner(b, a)
    ensures a.nextRunAt == b.nextRunAt && a.createdAt < b.createdAt ==> Sooner(a, b) && !Sooner(b, a)
    ensures a.nextRunAt == b.nextRunAt && a.createdAt == b.createdAt ==> !Sooner(a, b)
  {
  }

  /** The latest row is one that no other was created after, and of those created with it the one with the highest
      id. */
  lemma LatestExactly(rows: seq<Row>, i: nat)
    requires i < |rows|
    ensures var last := rows[Latest(rows)];
      && rows[i].body.createdAt <= last.body.createdAt
      && (rows[i].body.createdAt == last.body.createdAt ==> rows[i].eventId <= last.eventId)
  {
  }
}
