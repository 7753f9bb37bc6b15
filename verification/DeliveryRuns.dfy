/** One paid quote under any number of workers: claims, reads, executions, order marks and finishes
    interleave with crashes, lease expiry, operator actions and the settlement sweep. */
module DeliveryRuns {
  import opened Wrappers
  import opened DeliveryQueue

  /** Where a worker is between two of its statements. */
  datatype Phase = HasToken | HasRow | Executing | Marking(plan: Plan) | Finishing(plan: Plan)

  /** A worker keeps the time of its claim to the end; `attempts` is what it read back, 0 before that. */
  datatype Worker = Worker(claimedAt: nat, attempts: nat, phase: Phase)

  /** `claims` and `retries` count, since the row was enqueued or last redriven, the claims that
      succeeded and the attempts that ended in `retryable_failure`. */
  datatype System = System(d: Delivery, order: Option<Order>, workers: map<Token, Worker>, issued: Token, claims: nat,
                           retries: nat)

  datatype Step =
    | Claim(now: nat, lease: nat)
    | ReadRow(token: Token)
    | ReadOrder(token: Token)
    | Answer(token: Token, verdict: Verdict, result: string, base: nat)
    | MarkOrder(token: Token)
    | Finish(token: Token)
    | Crash(token: Token)
    | Redrive(now: nat)
    | ResumeReview(now: nat)
    | Accelerate(now: nat, cooldown: nat)
    | Settle(booked: bool, attempts: nat, now: nat)
    | RewriteResult(result: string)
    | DeliveredElsewhere(txSignature: string, result: string)

  function ClaimStep(s: System, now: nat, lease: nat): System {
    if Claimable(s.d, now) then
      s.(d := ClaimRow(s.d, s.issued, now, lease), workers := s.workers[s.issued := Worker(now, 0, HasToken)],
         issued := s.issued + 1, claims := s.claims + 1)
    else s
  }

  /** The row is read in a separate statement, whoever holds it by then; a zero count reads as one. */
  function ReadRowStep(s: System, t: Token): System {
    if t in s.workers && s.workers[t].phase.HasToken? then
      var attempts := if s.d.attemptCount == 0 then 1 else s.d.attemptCount;
      s.(workers := s.workers[t := s.workers[t].(attempts := attempts, phase := HasRow)])
    else s
  }

  function ReadOrderStep(s: System, t: Token): System {
    if t in s.workers && s.workers[t].phase.HasRow? then
      var w := s.workers[t];
      var phase :=
        if s.order.None? then Finishing(Plan(None, MissingOrder(w.claimedAt), ""))
        else if s.order.value.used || s.order.value.status == Delivered
        then Finishing(Plan(None, AlreadyDelivered(s.order.value, w.claimedAt), ""))
        else Executing;
      s.(workers := s.workers[t := w.(phase := phase)])
    else s
  }

  function AnswerStep(s: System, t: Token, verdict: Verdict, result: string, base: nat, max: nat): System {
    if t in s.workers && s.workers[t].phase.Executing? then
      var w := s.workers[t];
      var plan := PlanFor(verdict, result, w.attempts, max, base, w.claimedAt);
      s.(workers := s.workers[t := w.(phase := if plan.mark.Some? then Marking(plan) else Finishing(plan))])
    else s
  }

  function MarkStep(s: System, t: Token): System {
    if t in s.workers && s.workers[t].phase.Marking? then
      var plan := s.workers[t].phase.plan;
      var order := if s.order.Some? && plan.mark.Some?
                   then Some(MarkRow(s.order.value, plan.mark.value, s.d.txSignature, plan.result)) else s.order;
      s.(order := order, workers := s.workers[t := s.workers[t].(phase := Finishing(plan))])
    else s
  }

  function FinishStep(s: System, t: Token): System {
    if t in s.workers && s.workers[t].phase.Finishing? then
      var closing := s.workers[t].phase.plan.closing;
      s.(d := FinishRow(s.d, t, closing, s.workers[t].claimedAt), workers := s.workers - {t},
         retries := if Holds(s.d, t) && closing.state == RetryableFailure then s.retries + 1 else s.retries)
    else s
  }

  function RedriveStep(s: System, now: nat): System {
    if s.d.state == Exhausted then s.(d := RedriveRow(s.d, now), claims := 0, retries := 0) else s
  }

  function Next(s: System, step: Step, max: nat): System {
    match step
    case Claim(now, lease) => ClaimStep(s, now, lease)
    case ReadRow(t) => ReadRowStep(s, t)
    case ReadOrder(t) => ReadOrderStep(s, t)
    case Answer(t, verdict, result, base) => AnswerStep(s, t, verdict, result, base, max)
    case MarkOrder(t) => MarkStep(s, t)
    case Finish(t) => FinishStep(s, t)
    case Crash(t) => s.(workers := s.workers - {t})
    case Redrive(now) => RedriveStep(s, now)
    case ResumeReview(now) => s.(d := ResumeReviewRow(s.d, now))
    case Accelerate(now, cooldown) => s.(d := AccelerateRow(s.d, now, cooldown))
    case Settle(booked, attempts, now) => s.(d := SettleRow(s.d, booked, attempts, now))
    case RewriteResult(result) => s.(d := s.d.(result := Some(result)))
    case DeliveredElsewhere(txSignature, result) =>
      if s.order.Some? then s.(order := Some(Order(Delivered, true, Some(txSignature), Some(result)))) else s
  }

  function Execute(s: System, steps: seq<Step>, max: nat): System {
    if steps == [] then s else Next(Execute(s, steps[..|steps| - 1], max), steps[|steps| - 1], max)
  }

  // ---------- one attempt alone ----------

  function Steps(t: Token, now: nat, lease: nat, verdict: Verdict, result: string, base: nat): seq<Step> {
    [Claim(now, lease), ReadRow(t), ReadOrder(t), Answer(t, verdict, result, base), MarkOrder(t), Finish(t)]
  }

  lemma ExecuteSix(s: System, a: Step, b: Step, c: Step, d: Step, e: Step, f: Step, max: nat)
    ensures Execute(s, [a, b, c, d, e, f], max) ==
      Next(Next(Next(Next(Next(Next(s, a, max), b, max), c, max), d, max), e, max), f, max)
  {
    assert [a, b, c, d, e, f][..5] == [a, b, c, d, e] && [a, b, c, d, e][..4] == [a, b, c, d];
    assert [a, b, c, d][..3] == [a, b, c] && [a, b, c][..2] == [a, b] && [a, b][..1] == [a] && [a][..0] == [];
    assert Execute(s, [a], max) == Next(s, a, max);
    assert Execute(s, [a, b], max) == Next(Next(s, a, max), b, max);
    assert Execute(s, [a, b, c], max) == Next(Execute(s, [a, b], max), c, max);
    assert Execute(s, [a, b, c, d], max) == Next(Execute(s, [a, b, c], max), d, max);
    assert Execute(s, [a, b, c, d, e], max) == Next(Execute(s, [a, b, c, d], max), e, max);
  }

  predicate OrderIsOpen(s: System) { s.order.Some? && !s.order.value.used && s.order.value.status != Delivered }

  function PlanAlone(s: System, now: nat, verdict: Verdict, result: string, base: nat, max: nat): Plan {
    PlanFor(verdict, result, s.d.attemptCount + 1, max, base, now)
  }

  /** Claim and reads: the worker knows its attempt and has asked the executor. */
  lemma AloneAsks(s: System, now: nat, lease: nat, max: nat)
    requires Claimable(s.d, now) && OrderIsOpen(s)
    ensures ReadOrderStep(ReadRowStep(ClaimStep(s, now, lease), s.issued), s.issued) == s.(
      d := ClaimRow(s.d, s.issued, now, lease), issued := s.issued + 1, claims := s.claims + 1,
      workers := s.workers[s.issued := Worker(now, s.d.attemptCount + 1, Executing)])
  {
    var row := ReadRowStep(ClaimStep(s, now, lease), s.issued);
    assert row.workers == s.workers[s.issued := Worker(now, s.d.attemptCount + 1, HasRow)];
    assert ReadOrderStep(row, s.issued).workers == s.workers[s.issued := Worker(now, s.d.attemptCount + 1, Executing)];
  }

  /** Answer, mark and finish of a worker that holds the lease. */
  lemma AloneEnds(s: System, t: Token, verdict: Verdict, result: string, base: nat, max: nat)
    requires t in s.workers && s.workers[t].phase == Executing && Holds(s.d, t) && s.order.Some?
    ensures var w := s.workers[t];
      var plan := PlanFor(verdict, result, w.attempts, max, base, w.claimedAt);
      FinishStep(MarkStep(AnswerStep(s, t, verdict, result, base, max), t), t) == s.(
        d := CloseRow(s.d, plan.closing, w.claimedAt), workers := s.workers - {t},
        order := if plan.mark.None? then s.order
                 else Some(MarkRow(s.order.value, plan.mark.value, s.d.txSignature, result)),
        retries := s.retries + if plan.closing.state == RetryableFailure then 1 else 0)
  {
    var w := s.workers[t];
    var plan := PlanFor(verdict, result, w.attempts, max, base, w.claimedAt);
    var marked := MarkStep(AnswerStep(s, t, verdict, result, base, max), t);
    assert marked.workers == s.workers[t := w.(phase := Finishing(plan))];
    assert FinishStep(marked, t).workers == s.workers - {t};
  }

  /** The statements of a worker with nothing in between are the attempt that the store makes in one call: at an open
      order the row is closed and the order marked as the answer's plan says, and the worker is gone. */
  lemma AloneIsOneCall(s: System, now: nat, lease: nat, verdict: Verdict, result: string, base: nat, max: nat)
    requires Claimable(s.d, now) && s.issued !in s.workers && OrderIsOpen(s)
    ensures var plan := PlanAlone(s, now, verdict, result, base, max);
      Execute(s, Steps(s.issued, now, lease, verdict, result, base), max) == s.(
        d := CloseRow(ClaimRow(s.d, s.issued, now, lease), plan.closing, now),
        order := if plan.mark.None? then s.order
                 else Some(MarkRow(s.order.value, plan.mark.value, s.d.txSignature, result)),
        issued := s.issued + 1, claims := s.claims + 1,
        retries := s.retries + if plan.closing.state == RetryableFailure then 1 else 0)
  {
    var t := s.issued;
    ExecuteSix(s, Claim(now, lease), ReadRow(t), ReadOrder(t), Answer(t, verdict, result, base), MarkOrder(t),
               Finish(t), max);
    AloneAsks(s, now, lease, max);
    var asking := ReadOrderStep(ReadRowStep(ClaimStep(s, now, lease), t), t);
    AloneEnds(asking, t, verdict, result, base, max);
    assert asking.workers - {t} == s.workers;
  }

  // ---------- the invariant ----------

  /** A row is `running` exactly while it holds a lease, and finished exactly while it has a finish time. */
  predicate RowValid(d: Delivery, issued: Token) {
    && (d.state == Running <==> d.leaseToken.Some?)
    && (d.leaseToken.Some? <==> d.leaseUntil.Some?)
    && (d.leaseToken.Some? ==> d.leaseToken.value < issued && d.attemptCount >= 1)
    && (Terminal(d.state) <==> d.completedAt.Some?)
  }

  predicate Used(order: Option<Order>) { order.Some? && order.value.used }

  /** What a worker is about to do is allowed by the attempt number it read. */
  predicate PlanValid(plan: Plan, w: Worker, max: nat) {
    && plan.closing.state in {RetryableFailure, Exhausted, Blocked, Completed}
    && (plan.closing.state == RetryableFailure ==>
          w.attempts < max && w.claimedAt <= plan.closing.nextAttemptAt <= w.claimedAt + 3600)
    && (plan.closing.state == Exhausted ==> w.attempts >= max || plan.closing.error == Some(OrderMissing))
  }

  predicate WorkerValid(w: Worker, order: Option<Order>, max: nat) {
    match w.phase
    case HasToken => true
    case HasRow => true
    case Executing => order.Some?
    case Marking(plan) =>
      PlanValid(plan, w, max) && order.Some? && (plan.closing.state == Completed <==> plan.mark == Some(MarkCompleted))
    case Finishing(plan) => PlanValid(plan, w, max) && (plan.closing.state == Completed ==> Used(order))
  }

  /** The worker that holds the lease read the attempt number its own claim produced. */
  predicate ReadsItsOwn(t: Token, w: Worker, d: Delivery) {
    d.leaseToken == Some(t) && !w.phase.HasToken? ==> w.attempts == d.attemptCount
  }

  ghost predicate WorkersValid(s: System, max: nat) {
    forall t {:trigger WorkerAt(s, t, max)} :: t in s.workers ==> WorkerAt(s, t, max)
  }

  predicate WorkerAt(s: System, t: Token, max: nat)
    requires t in s.workers
  {
    t < s.issued && WorkerValid(s.workers[t], s.order, max) && ReadsItsOwn(t, s.workers[t], s.d)
  }

  predicate CountsValid(s: System, max: nat) {
    && s.claims == s.d.attemptCount
    && s.retries < max
    && s.retries + (if s.d.state == Running then 1 else 0) <= s.d.attemptCount
  }

  ghost predicate Valid(s: System, max: nat) {
    && RowValid(s.d, s.issued)
    && CountsValid(s, max)
    && (s.order.Some? && s.order.value.status == Delivered ==> s.order.value.used)
    && (s.d.state == Completed ==> Used(s.order))
    && WorkersValid(s, max)
  }

  /** Workers stay valid when no lease is handed to an old token and the order only moves forward. */
  lemma WorkersStay(s: System, after: System, max: nat)
    requires WorkersValid(s, max)
    requires after.workers.Keys <= s.workers.Keys && after.issued >= s.issued
    requires forall t :: t in after.workers ==> after.workers[t] == s.workers[t]
    requires after.d.leaseToken == None
      || (after.d.leaseToken == s.d.leaseToken && after.d.attemptCount == s.d.attemptCount)
    requires (s.order.Some? ==> after.order.Some?) && (Used(s.order) ==> Used(after.order))
    ensures WorkersValid(after, max)
  {
    forall t | t in after.workers ensures WorkerAt(after, t, max) {
      assert WorkerAt(s, t, max);
    }
  }

  /** One worker moves on; the row is untouched. */
  lemma WorkerMoves(s: System, after: System, t: Token, max: nat)
    requires WorkersValid(s, max) && t in s.workers && t in after.workers
    requires after.workers == s.workers[t := after.workers[t]]
    requires after.d == s.d && after.issued == s.issued
    requires (s.order.Some? ==> after.order.Some?) && (Used(s.order) ==> Used(after.order))
    requires WorkerAt(s, t, max) ==> WorkerAt(after, t, max)
    ensures WorkersValid(after, max)
  {
    forall u | u in after.workers ensures WorkerAt(after, u, max) {
      assert WorkerAt(s, t, max);
      assert u in s.workers && WorkerAt(s, u, max);
    }
  }

  lemma ClaimKeepsValid(s: System, now: nat, lease: nat, max: nat)
    requires Valid(s, max)
    ensures Valid(ClaimStep(s, now, lease), max)
  {
    if Claimable(s.d, now) {
      var after := ClaimStep(s, now, lease);
      forall t | t in after.workers ensures WorkerAt(after, t, max) {
        if t != s.issued {
          assert WorkerAt(s, t, max);
        }
      }
    }
  }

  lemma ReadRowKeepsValid(s: System, t: Token, max: nat)
    requires Valid(s, max)
    ensures Valid(ReadRowStep(s, t), max)
  {
    if t in s.workers && s.workers[t].phase.HasToken? {
      WorkerMoves(s, ReadRowStep(s, t), t, max);
    }
  }

  lemma ReadOrderKeepsValid(s: System, t: Token, max: nat)
    requires Valid(s, max)
    ensures Valid(ReadOrderStep(s, t), max)
  {
    if t in s.workers && s.workers[t].phase.HasRow? {
      WorkerMoves(s, ReadOrderStep(s, t), t, max);
    }
  }

  lemma PlanForIsValid(w: Worker, verdict: Verdict, result: string, max: nat, base: nat)
    ensures var plan := PlanFor(verdict, result, w.attempts, max, base, w.claimedAt);
      PlanValid(plan, w, max) && (plan.closing.state == Completed <==> plan.mark == Some(MarkCompleted))
  {
    RetryDelaysGrow(base, w.attempts, w.attempts);
  }

  lemma AnswerKeepsValid(s: System, t: Token, verdict: Verdict, result: string, base: nat, max: nat)
    requires Valid(s, max)
    ensures Valid(AnswerStep(s, t, verdict, result, base, max), max)
  {
    if t in s.workers && s.workers[t].phase.Executing? {
      PlanForIsValid(s.workers[t], verdict, result, max, base);
      WorkerMoves(s, AnswerStep(s, t, verdict, result, base, max), t, max);
    }
  }

  lemma MarkKeepsValid(s: System, t: Token, max: nat)
    requires Valid(s, max)
    ensures Valid(MarkStep(s, t), max)
  {
    if t in s.workers && s.workers[t].phase.Marking? {
      WorkerMoves(s, MarkStep(s, t), t, max);
    }
  }

  lemma FinishKeepsValid(s: System, t: Token, max: nat)
    requires Valid(s, max)
    ensures Valid(FinishStep(s, t), max)
  {
    if t in s.workers && s.workers[t].phase.Finishing? {
      assert WorkerAt(s, t, max);
      WorkersStay(s, FinishStep(s, t), max);
    }
  }

  /** Every step of every worker, operator and sweep keeps the invariant. */
  lemma NextKeepsValid(s: System, step: Step, max: nat)
    requires Valid(s, max)
    ensures Valid(Next(s, step, max), max)
  {
    match step
    case Claim(now, lease) => ClaimKeepsValid(s, now, lease, max);
    case ReadRow(t) => ReadRowKeepsValid(s, t, max);
    case ReadOrder(t) => ReadOrderKeepsValid(s, t, max);
    case Answer(t, verdict, result, base) => AnswerKeepsValid(s, t, verdict, result, base, max);
    case MarkOrder(t) => MarkKeepsValid(s, t, max);
    case Finish(t) => FinishKeepsValid(s, t, max);
    case Crash(_) => WorkersStay(s, Next(s, step, max), max);
    case Redrive(_) => WorkersStay(s, Next(s, step, max), max);
    case ResumeReview(_) => WorkersStay(s, Next(s, step, max), max);
    case Accelerate(_, _) => WorkersStay(s, Next(s, step, max), max);
    case Settle(_, _, _) => WorkersStay(s, Next(s, step, max), max);
    case RewriteResult(_) => WorkersStay(s, Next(s, step, max), max);
    case DeliveredElsewhere(_, _) => WorkersStay(s, Next(s, step, max), max);
  }

  lemma {:induction false} ExecuteKeepsValid(s: System, steps: seq<Step>, max: nat)
    requires Valid(s, max)
    ensures Valid(Execute(s, steps, max), max)
  {
    if steps != [] {
      ExecuteKeepsValid(s, steps[..|steps| - 1], max);
      NextKeepsValid(Execute(s, steps[..|steps| - 1], max), steps[|steps| - 1], max);
    }
  }

  function Enqueued(orderId: string, txSignature: string, now: nat, order: Option<Order>): System {
    System(NewDelivery(orderId, txSignature, now), order, map[], 0, 0, 0)
  }

  /** From enqueueing on, whatever interleaves: `running` is having a lease, a finish time is being finished,
      the attempt count is the number of claims since the last redrive, fewer than `max` attempts ended
      retryable, and a completed delivery has a used order. */
  lemma RunsAreSafe(orderId: string, txSignature: string, now: nat, order: Option<Order>, steps: seq<Step>, max: nat)
    requires max >= 1
    requires order.Some? && order.value.status == Delivered ==> order.value.used
    ensures var s := Execute(Enqueued(orderId, txSignature, now, order), steps, max);
      && (s.d.state == Running <==> s.d.leaseToken.Some?)
      && (s.d.leaseToken.Some? <==> s.d.leaseUntil.Some?)
      && (Terminal(s.d.state) <==> s.d.completedAt.Some?)
      && s.d.attemptCount == s.claims
      && s.retries <= max - 1
      && (s.d.state == Completed ==> Used(s.order))
  {
    ExecuteKeepsValid(Enqueued(orderId, txSignature, now, order), steps, max);
  }

  // ---------- what never changes ----------

  predicate Closed(s: DeliveryState) { s == Completed || s == Blocked }

  /** The columns of a closed row that nothing rewrites; the settlement columns still move. */
  predicate SameClosing(d: Delivery, after: Delivery) {
    && after.state == d.state && after.attemptCount == d.attemptCount && after.completedAt == d.completedAt
    && after.lastError == d.lastError && after.leaseToken == d.leaseToken && after.leaseUntil == d.leaseUntil
    && after.nextAttemptAt == d.nextAttemptAt && after.orderId == d.orderId && after.txSignature == d.txSignature
  }

  lemma NextKeepsClosed(s: System, step: Step, max: nat)
    requires Closed(s.d.state)
    ensures SameClosing(s.d, Next(s, step, max).d)
    ensures Next(s, step, max).claims == s.claims
  {
    match step
    case Finish(t) => assert !Holds(s.d, t);
    case _ =>
  }

  /** `completed` and `blocked` are never claimed again and never left. */
  lemma {:induction false} ClosedForever(s: System, steps: seq<Step>, max: nat)
    requires Closed(s.d.state)
    ensures SameClosing(s.d, Execute(s, steps, max).d)
    ensures Execute(s, steps, max).claims == s.claims
  {
    if steps != [] {
      var before := Execute(s, steps[..|steps| - 1], max);
      ClosedForever(s, steps[..|steps| - 1], max);
      NextKeepsClosed(before, steps[|steps| - 1], max);
    }
  }

  /** A token that lost its lease never gets it back. */
  lemma {:induction false} SupersededForever(s: System, t: Token, steps: seq<Step>, max: nat)
    requires t < s.issued && s.d.leaseToken != Some(t)
    ensures t < Execute(s, steps, max).issued && Execute(s, steps, max).d.leaseToken != Some(t)
  {
    if steps != [] {
      SupersededForever(s, t, steps[..|steps| - 1], max);
      var before := Execute(s, steps[..|steps| - 1], max);
      match steps[|steps| - 1]
      case _ =>
    }
  }

  predicate StepOf(step: Step, t: Token) {
    step == ReadRow(t) || step == ReadOrder(t) || (step.Answer? && step.token == t) || step == MarkOrder(t)
      || step == Finish(t) || step == Crash(t)
  }

  /** Once superseded, whatever a worker still does, however late, leaves the delivery row and its counts alone. */
  lemma SupersededWorkerIsHarmless(s: System, t: Token, steps: seq<Step>, step: Step, max: nat)
    requires t < s.issued && s.d.leaseToken != Some(t) && StepOf(step, t)
    ensures var later := Execute(s, steps, max);
      Next(later, step, max).d == later.d && Next(later, step, max).claims == later.claims
        && Next(later, step, max).retries == later.retries
  {
    SupersededForever(s, t, steps, max);
  }

  /** A used order keeps its status, signature and result, whichever attempts come later. */
  lemma {:induction false} UsedOrderStays(s: System, steps: seq<Step>, max: nat)
    requires Used(s.order)
    requires forall i :: 0 <= i < |steps| ==> !steps[i].DeliveredElsewhere?
    ensures Execute(s, steps, max).order == s.order
  {
    if steps != [] {
      UsedOrderStays(s, steps[..|steps| - 1], max);
      var before := Execute(s, steps[..|steps| - 1], max);
      match steps[|steps| - 1]
      case _ =>
    }
  }

  /** A failed attempt is retried exactly while its number is below the maximum. */
  lemma FailedAttemptEnds(s: System, t: Token, verdict: Verdict, result: string, base: nat, max: nat)
    requires Valid(s, max) && t in s.workers && s.workers[t].phase.Executing? && s.d.leaseToken == Some(t)
    requires verdict.ReviewNeeded? || verdict.FailedAttempt?
    ensures var answered := AnswerStep(s, t, verdict, result, base, max);
      var ended := FinishStep(MarkStep(answered, t), t);
      && ended.d.state == (if s.d.attemptCount >= max then Exhausted else RetryableFailure)
      && ended.d.attemptCount == s.d.attemptCount
      && (ended.d.state == RetryableFailure ==>
            ended.d.nextAttemptAt == s.workers[t].claimedAt + RetryDelay(base, s.d.attemptCount))
  {
    assert WorkerAt(s, t, max);
    AnswerKeepsValid(s, t, verdict, result, base, max);
    var answered := AnswerStep(s, t, verdict, result, base, max);
    if answered.workers[t].phase.Marking? {
      assert MarkStep(answered, t).workers[t].phase == Finishing(answered.workers[t].phase.plan);
    }
  }

  // ---------- where the code does not keep the promise ----------

  /** What a worker does up to its answer. */
  function UpToAnswer(s: System, now: nat, verdict: Verdict, result: string, max: nat): System {
    var t := s.issued;
    Next(Next(Next(Next(s, Claim(now, 30), max), ReadRow(t), max), ReadOrder(t), max), Answer(t, verdict, result, 30),
         max)
  }

  /** Alone on a claimable row with an open order, a worker gets as far as its plan. */
  lemma ReachesItsPlan(s: System, now: nat, verdict: Verdict, result: string, max: nat)
    requires Claimable(s.d, now) && s.order.Some? && !s.order.value.used && s.order.value.status != Delivered
    ensures var plan := PlanFor(verdict, result, s.d.attemptCount + 1, max, 30, now);
      var w := Worker(now, s.d.attemptCount + 1, if plan.mark.Some? then Marking(plan) else Finishing(plan));
      UpToAnswer(s, now, verdict, result, max) ==
        System(ClaimRow(s.d, s.issued, now, 30), s.order, s.workers[s.issued := w], s.issued + 1, s.claims + 1,
               s.retries)
  {
    var t := s.issued;
    var claimed := Next(s, Claim(now, 30), max);
    assert claimed.workers[t] == Worker(now, 0, HasToken);
    var read := Next(claimed, ReadRow(t), max);
    assert read.workers[t] == Worker(now, s.d.attemptCount + 1, HasRow);
    var ready := Next(read, ReadOrder(t), max);
    assert ready.workers[t] == Worker(now, s.d.attemptCount + 1, Executing);
    assert Next(ready, Answer(t, verdict, result, 30), max).workers.Keys == s.workers.Keys + {t};
  }

  /** Finishes are fenced by the token, order marks are not: a superseded worker that still has to mark
      its order delivered does so, whatever became of the delivery. */
  lemma MarksAreNotFenced(s: System, t: Token, max: nat)
    requires t in s.workers && s.workers[t].phase.Marking? && s.workers[t].phase.plan.mark == Some(MarkCompleted)
    requires s.order.Some? && s.d.leaseToken != Some(t)
    ensures var end := FinishStep(MarkStep(s, t), t);
      end.d == s.d && Used(end.order)
  {
    assert MarkStep(s, t).workers[t].phase.Finishing?;
  }

  /** The state after one worker answered and stalled before marking its order. */
  function Stalled(orderId: string, txSignature: string, verdict: Verdict, result: string, max: nat): System {
    UpToAnswer(Enqueued(orderId, txSignature, 0, Some(Order(Open, false, None, None))), 0, verdict, result, max)
  }

  /** So a run with a single allowed attempt can end exhausted with its order delivered. */
  lemma ExhaustedYetDelivered(orderId: string, txSignature: string, result: string, error: ErrorCode)
    ensures var both := UpToAnswer(Stalled(orderId, txSignature, Authorized(true), result, 1), 31,
                                   FailedAttempt(error), result, 1);
      var end := FinishStep(MarkStep(FinishStep(both, 1), 0), 0);
      end.d.state == Exhausted && Used(end.order)
  {
    var slow := Stalled(orderId, txSignature, Authorized(true), result, 1);
    ReachesItsPlan(Enqueued(orderId, txSignature, 0, Some(Order(Open, false, None, None))), 0, Authorized(true),
                   result, 1);
    ReachesItsPlan(slow, 31, FailedAttempt(error), result, 1);
    var both := UpToAnswer(slow, 31, FailedAttempt(error), result, 1);
    var exhausted := FinishStep(both, 1);
    assert exhausted.d.state == Exhausted && exhausted.d.leaseToken == None;
    assert exhausted.workers[0] == slow.workers[0];
    MarksAreNotFenced(exhausted, 0, 1);
  }

  // ---------- when marks are safe ----------

  /** The attempt under way was decided to end exhausted, or will be when it fails. */
  predicate BoundToExhaust(w: Worker, max: nat) {
    match w.phase
    case HasToken => false
    case HasRow => false
    case Executing => w.attempts >= max
    case Marking(plan) => plan.closing.state == Exhausted
    case Finishing(plan) => plan.closing.state == Exhausted
  }

  /** The delivery is exhausted, or its lease holder may still exhaust it. */
  predicate Doomed(s: System, max: nat) {
    s.d.state == Exhausted
    || (s.d.leaseToken.Some? && s.d.leaseToken.value in s.workers
      && BoundToExhaust(s.workers[s.d.leaseToken.value], max))
  }

  predicate NeverBoth(s: System, max: nat) { Doomed(s, max) ==> !Used(s.order) }

  /** Orders are marked under the current lease only, and by this queue only. */
  predicate MarkGuard(s: System, step: Step) {
    && !step.DeliveredElsewhere?
    && (step.MarkOrder? ==> s.d.leaseToken == Some(step.token))
  }

  predicate MarksGuarded(s: System, steps: seq<Step>, max: nat) {
    steps == [] ||
      var front := steps[..|steps| - 1];
      MarksGuarded(s, front, max) && MarkGuard(Execute(s, front, max), steps[|steps| - 1])
  }

  lemma AnswerKeepsNeverBoth(s: System, t: Token, verdict: Verdict, result: string, base: nat, max: nat)
    requires Valid(s, max) && NeverBoth(s, max)
    ensures NeverBoth(AnswerStep(s, t, verdict, result, base, max), max)
  {
    if t in s.workers && s.workers[t].phase.Executing? {
      PlanForIsValid(s.workers[t], verdict, result, max, base);
    }
  }

  lemma MarkKeepsNeverBoth(s: System, t: Token, max: nat)
    requires Valid(s, max) && NeverBoth(s, max) && s.d.leaseToken == Some(t)
    ensures NeverBoth(MarkStep(s, t), max)
  {
    if t in s.workers {
      assert WorkerAt(s, t, max);
    }
  }

  lemma NextKeepsNeverBoth(s: System, step: Step, max: nat)
    requires Valid(s, max) && NeverBoth(s, max) && MarkGuard(s, step)
    ensures NeverBoth(Next(s, step, max), max)
  {
    match step
    case Answer(t, verdict, result, base) => AnswerKeepsNeverBoth(s, t, verdict, result, base, max);
    case MarkOrder(t) => MarkKeepsNeverBoth(s, t, max);
    case _ =>
  }

  lemma {:induction false} ExecuteKeepsNeverBoth(s: System, steps: seq<Step>, max: nat)
    requires Valid(s, max) && NeverBoth(s, max) && MarksGuarded(s, steps, max)
    ensures NeverBoth(Execute(s, steps, max), max)
  {
    if steps != [] {
      var front := steps[..|steps| - 1];
      ExecuteKeepsNeverBoth(s, front, max);
      ExecuteKeepsValid(s, front, max);
      NextKeepsNeverBoth(Execute(s, front, max), steps[|steps| - 1], max);
    }
  }

  /** While orders are marked under the current lease only, the order of an exhausted delivery is never marked
      delivered, on any interleaving. */
  lemma GuardedMarksNeverDeliverExhausted(orderId: string, txSignature: string, now: nat, order: Option<Order>,
                                          steps: seq<Step>, max: nat)
    requires max >= 1
    requires order.Some? && order.value.status == Delivered ==> order.value.used
    requires MarksGuarded(Enqueued(orderId, txSignature, now, order), steps, max)
    ensures var s := Execute(Enqueued(orderId, txSignature, now, order), steps, max);
      s.d.state == Exhausted ==> !Used(s.order)
  {
    ExecuteKeepsNeverBoth(Enqueued(orderId, txSignature, now, order), steps, max);
  }

  /** A mark that delivers an open order keeps that promise exactly when the delivery is not doomed, as it never
      is for the holder of the lease. */
  lemma MarkIsSafeExactly(s: System, t: Token, max: nat)
    requires Valid(s, max) && t in s.workers && s.workers[t].phase.Marking?
    requires s.workers[t].phase.plan.mark == Some(MarkCompleted)
    requires s.order.Some? && !s.order.value.used
    ensures NeverBoth(MarkStep(s, t), max) <==> !Doomed(s, max)
    ensures s.d.leaseToken == Some(t) ==> !Doomed(s, max)
  {
    assert WorkerAt(s, t, max);
    var after := MarkStep(s, t);
    assert s.d.leaseToken.Some? && s.d.leaseToken.value != t && s.d.leaseToken.value in s.workers ==>
      after.workers[s.d.leaseToken.value] == s.workers[s.d.leaseToken.value];
  }

  /** How the holder of the lease ends a doomed attempt. */
  function Ending(s: System): seq<Step> {
    if s.d.state == Exhausted || s.d.leaseToken.None? || s.d.leaseToken.value !in s.workers then []
    else
      var t := s.d.leaseToken.value;
      match s.workers[t].phase
      case Executing => [Answer(t, FailedAttempt(OrderMissing), "", 0), Finish(t)]
      case Marking(_) => [MarkOrder(t), Finish(t)]
      case _ => [Finish(t)]
  }

  lemma ExecuteTwo(s: System, a: Step, b: Step, max: nat)
    ensures Execute(s, [a, b], max) == Next(Next(s, a, max), b, max)
    ensures Execute(s, [a], max) == Next(s, a, max)
  {
    assert [a, b][..1] == [a] && [a][..0] == [];
    assert Execute(s, [], max) == s;
  }

  /** And where the promise is broken, the delivery does end exhausted with its order delivered. */
  lemma BrokenMarkEndsBoth(s: System, max: nat)
    requires Valid(s, max) && !NeverBoth(s, max)
    ensures var end := Execute(s, Ending(s), max);
      end.d.state == Exhausted && Used(end.order)
  {
    if s.d.state != Exhausted {
      var t := s.d.leaseToken.value;
      assert WorkerAt(s, t, max);
      match s.workers[t].phase
      case Executing => ExecuteTwo(s, Answer(t, FailedAttempt(OrderMissing), "", 0), Finish(t), max);
      case Marking(_) => ExecuteTwo(s, MarkOrder(t), Finish(t), max);
      case Finishing(_) => ExecuteTwo(s, Finish(t), Finish(t), max);
    }
  }

  // ---------- delivered orders ----------

  /** A lone attempt on a claimable row: claim, read the row, read the order, finish. */
  function LoneAttempt(s: System, now: nat): System {
    FinishStep(ReadOrderStep(ReadRowStep(ClaimStep(s, now, 30), s.issued), s.issued), s.issued)
  }

  /** A delivered order is taken for done, and then its delivery has a used order exactly if it was used: every
      statement of the repository that writes `delivered` also writes `used`. */
  lemma DeliveredMustMeanUsed(s: System, now: nat)
    requires Claimable(s.d, now) && s.order.Some? && s.order.value.status == Delivered
    ensures var end := LoneAttempt(s, now);
      end.d.state == Completed && end.order == s.order && (Used(end.order) <==> s.order.value.used)
  {
    var t := s.issued;
    var claimed := ClaimStep(s, now, 30);
    assert claimed.workers[t] == Worker(now, 0, HasToken);
    var read := ReadRowStep(claimed, t);
    assert read.workers[t].phase == HasRow;
    assert ReadOrderStep(read, t).workers[t].phase.Finishing?;
  }

  predicate MarksKeepUsed(o: Order) { o.status == Delivered ==> o.used }

  /** The marks of this queue keep the hypothesis of RunsAreSafe. */
  lemma MarksWriteUsed(o: Order, mark: Mark, txSignature: string, result: string)
    requires MarksKeepUsed(o)
    ensures MarksKeepUsed(MarkRow(o, mark, txSignature, result))
  {
  }
}
