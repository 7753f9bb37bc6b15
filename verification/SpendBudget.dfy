/** The autonomous daily spend limit of iat/buyer_identity.py: reservations under a wallet's purchase
    policy, and what keeps a UTC day's spend within it. */
module SpendBudget {
  import opened Wrappers

  const DAY: nat := 86400

  function DayOf(t: nat): nat { t / DAY }

  function DayStart(t: nat): nat { t - t % DAY }

  function DayEnd(t: nat): nat { t - t % DAY + DAY }

  datatype ReservationState = Reserved | Submitted | Confirmed | Released

  datatype Reservation = Reservation(quoteId: string, wallet: string, asset: string, amount: nat, service: string,
                                     state: ReservationState, createdAt: nat, expiresAt: nat)

  /** Services are held lower-case and trimmed; no service named means all are allowed. */
  datatype Policy = Policy(enabled: bool, asset: string, maxPerOrder: nat, dailyLimit: nat, services: set<string>)

  datatype Error = UnsupportedAsset | InvalidLimits | InvalidServices
    | InvalidSpend | PolicyRequired | AssetBlocked | OrderLimitExceeded | ServiceBlocked | IdempotencyConflict
    | DailyLimitExceeded
    | InvalidReservationState

  datatype Outcome = NewlyReserved(dailyReserved: nat, dailyLimit: nat) | AlreadyReserved(row: Reservation)

  datatype Tables = Tables(policies: map<string, Policy>, rows: seq<Reservation>)

  // ---------- sums ----------

  /** What the daily query adds up at `now`. */
  predicate Queried(r: Reservation, wallet: string, asset: string, now: nat) {
    && r.wallet == wallet && r.asset == asset
    && r.createdAt >= DayStart(now) && r.expiresAt > now
    && (r.state == Reserved || r.state == Submitted || r.state == Confirmed)
  }

  function QuerySum(rows: seq<Reservation>, wallet: string, asset: string, now: nat): nat {
    if rows == [] then 0
    else
      var last := rows[|rows| - 1];
      QuerySum(rows[..|rows| - 1], wallet, asset, now) + if Queried(last, wallet, asset, now) then last.amount else 0
  }

  predicate Committed(r: Reservation) { r.state == Submitted || r.state == Confirmed }

  /** Spent, or still able to be spent. */
  predicate Live(r: Reservation, now: nat) { Committed(r) || (r.state == Reserved && r.expiresAt > now) }

  datatype Account = Account(wallet: string, asset: string, day: nat)

  function Weight(r: Reservation, a: Account, now: nat): nat {
    if r.wallet == a.wallet && r.asset == a.asset && DayOf(r.createdAt) == a.day && Live(r, now) then r.amount else 0
  }

  /** Live reservations created on one UTC day. */
  function Budget(rows: seq<Reservation>, a: Account, now: nat): nat {
    if rows == [] then 0 else Budget(rows[..|rows| - 1], a, now) + Weight(rows[|rows| - 1], a, now)
  }

  /** Submitted and confirmed reservations created on one UTC day. */
  function Spent(rows: seq<Reservation>, a: Account): nat {
    if rows == [] then 0
    else
      var last := rows[|rows| - 1];
      Spent(rows[..|rows| - 1], a)
      + if last.wallet == a.wallet && last.asset == a.asset && DayOf(last.createdAt) == a.day && Committed(last)
        then last.amount else 0
  }

  lemma {:induction false} SpentWithinBudget(rows: seq<Reservation>, a: Account, now: nat)
    ensures Spent(rows, a) <= Budget(rows, a, now)
  {
    if rows != [] {
      SpentWithinBudget(rows[..|rows| - 1], a, now);
    }
  }

  lemma {:induction false} BudgetShrinksWithTime(rows: seq<Reservation>, a: Account, now: nat, later: nat)
    requires now <= later
    ensures Budget(rows, a, later) <= Budget(rows, a, now)
  {
    if rows != [] {
      BudgetShrinksWithTime(rows[..|rows| - 1], a, now, later);
    }
  }

  lemma {:induction false} BudgetOfUpdate(rows: seq<Reservation>, i: nat, r: Reservation, a: Account, now: nat)
    requires i < |rows|
    ensures Budget(rows[i := r], a, now) == Budget(rows, a, now) - Weight(rows[i], a, now) + Weight(r, a, now)
  {
    var n := |rows| - 1;
    if i < n {
      BudgetOfUpdate(rows[..n], i, r, a, now);
      assert rows[i := r][..n] == rows[..n][i := r];
    } else {
      assert rows[i := r][..n] == rows[..n];
    }
  }

  lemma BudgetOfAppend(rows: seq<Reservation>, r: Reservation, a: Account, now: nat)
    ensures Budget(rows + [r], a, now) == Budget(rows, a, now) + Weight(r, a, now)
  {
    assert (rows + [r])[..|rows|] == rows;
  }

  // ---------- transactions ----------

  function Find(rows: seq<Reservation>, quoteId: string): (i: Option<nat>)
    ensures i.Some? ==> i.value < |rows| && rows[i.value].quoteId == quoteId
    ensures i.None? ==> forall k :: 0 <= k < |rows| ==> rows[k].quoteId != quoteId
  {
    if rows == [] then None
    else if rows[|rows| - 1].quoteId == quoteId then Some(|rows| - 1)
    else Find(rows[..|rows| - 1], quoteId)
  }

  function PolicyCheck(p: Policy): Option<Error> {
    if p.asset != "USDC" then Some(UnsupportedAsset)
    else if p.maxPerOrder == 0 || p.dailyLimit == 0 || p.maxPerOrder > p.dailyLimit then Some(InvalidLimits)
    else if |p.services| > 50 || exists s :: s in p.services && |s| > 100 then Some(InvalidServices)
    else None
  }

  function SaveTx(t: Tables, wallet: string, p: Policy): Tables {
    if PolicyCheck(p).Some? then t else t.(policies := t.policies[wallet := p])
  }

  datatype Spend = Spend(quoteId: string, wallet: string, asset: string, amount: nat, service: string, expiresAt: nat)

  function PolicyRefusal(t: Tables, s: Spend, now: nat): Option<Error> {
    if s.amount == 0 || s.expiresAt <= now then Some(InvalidSpend)
    else if s.wallet !in t.policies || !t.policies[s.wallet].enabled then Some(PolicyRequired)
    else
      var p := t.policies[s.wallet];
      if s.asset != p.asset then Some(AssetBlocked)
      else if s.amount > p.maxPerOrder then Some(OrderLimitExceeded)
      else if p.services != {} && s.service !in p.services then Some(ServiceBlocked)
      else None
  }

  function Refusal(t: Tables, s: Spend, now: nat): Option<Error> {
    var refused := PolicyRefusal(t, s, now);
    if refused.Some? then refused
    else
      var existing := Find(t.rows, s.quoteId);
      if existing.Some? then
        var row := t.rows[existing.value];
        if row.wallet != s.wallet || row.amount != s.amount then Some(IdempotencyConflict) else None
      else if QuerySum(t.rows, s.wallet, s.asset, now) + s.amount > t.policies[s.wallet].dailyLimit
        then Some(DailyLimitExceeded)
      else None
  }

  function NewReservation(s: Spend, now: nat): Reservation {
    Reservation(s.quoteId, s.wallet, s.asset, s.amount, s.service, Reserved, now, s.expiresAt)
  }

  function AuthorizeTx(t: Tables, s: Spend, now: nat): Tables {
    if Refusal(t, s, now).Some? || Find(t.rows, s.quoteId).Some? then t
      else t.(rows := t.rows + [NewReservation(s, now)])
  }

  function UpdateRow(r: Reservation, state: ReservationState, now: nat): Reservation {
    r.(state := state, expiresAt := if state == Released then now else DayEnd(now))
  }

  /** Any named reservation, whatever its state and age. */
  function UpdateTx(t: Tables, quoteId: string, state: ReservationState, now: nat): Tables {
    var i := Find(t.rows, quoteId);
    if state == Reserved || i.None? then t else t.(rows := t.rows[i.value := UpdateRow(t.rows[i.value], state, now)])
  }

  // ---------- the store ----------

  class SpendStore {
    var policies: map<string, Policy>
    var rows: seq<Reservation>

    constructor ()
      ensures T() == Tables(map[], [])
    {
      policies, rows := map[], [];
    }

    function T(): Tables
      reads this
    {
      Tables(policies, rows)
    }

    method SavePolicy(wallet: string, p: Policy) returns (r: Result<(), Error>)
      modifies this`policies
      ensures T() == SaveTx(old(T()), wallet, p)
      ensures r == if PolicyCheck(p).Some? then Err(PolicyCheck(p).value) else Ok(())
    {
      var refused := PolicyCheck(p);
      if refused.Some? {
        return Err(refused.value);
      }
      policies := policies[wallet := p];
      r := Ok(());
    }

    /** Reserves once per quote; a repeated quote answers with the reservation it finds. */
    method Authorize(s: Spend, now: nat) returns (r: Result<Outcome, Error>)
      modifies this`rows
      ensures T() == AuthorizeTx(old(T()), s, now)
      ensures r.Err? <==> Refusal(old(T()), s, now).Some?
      ensures r.Err? ==> r.error == Refusal(old(T()), s, now).value
      ensures r.Ok? && r.value.AlreadyReserved? ==>
        T() == old(T()) && r.value.row in rows && r.value.row.quoteId == s.quoteId && r.value.row.amount == s.amount
      ensures r.Ok? && r.value.NewlyReserved? ==>
        && rows == old(rows) + [NewReservation(s, now)]
        && r.value.dailyReserved == QuerySum(old(rows), s.wallet, s.asset, now) + s.amount <= r.value.dailyLimit
    {
      var refused := PolicyRefusal(T(), s, now);
      if refused.Some? {
        return Err(refused.value);
      }
      var policy := policies[s.wallet];
      var existing := Find(rows, s.quoteId);
      if existing.Some? {
        var row := rows[existing.value];
        if row.wallet != s.wallet || row.amount != s.amount {
          return Err(IdempotencyConflict);
        }
        return Ok(AlreadyReserved(row));
      }
      var reserved := QuerySum(rows, s.wallet, s.asset, now);
      if reserved + s.amount > policy.dailyLimit {
        return Err(DailyLimitExceeded);
      }
      rows := rows + [NewReservation(s, now)];
      r := Ok(NewlyReserved(reserved + s.amount, policy.dailyLimit));
    }

    method UpdateReservation(quoteId: string, state: ReservationState, now: nat) returns (r: Result<bool, Error>)
      modifies this`rows
      ensures T() == UpdateTx(old(T()), quoteId, state, now)
      ensures r == if state == Reserved then Err(InvalidReservationState) else Ok(Find(old(rows), quoteId).Some?)
    {
      if state == Reserved {
        return Err(InvalidReservationState);
      }
      var effectiveExpiry := now;
      if state == Submitted || state == Confirmed {
        effectiveExpiry := now - now % DAY + DAY;
      }
      var i := Find(rows, quoteId);
      if i.None? {
        return Ok(false);
      }
      rows := rows[i.value := rows[i.value].(state := state, expiresAt := effectiveExpiry)];
      r := Ok(true);
    }
  }

  // ---------- runs ----------

  datatype Step =
    | SavePolicy(wallet: string, policy: Policy, now: nat)
    | Authorize(spend: Spend, now: nat)
    | Update(quoteId: string, state: ReservationState, now: nat)

  /** `peak` is the highest daily limit each wallet has had. */
  datatype System = System(t: Tables, clock: nat, peak: map<string, nat>)

  const START := System(Tables(map[], []), 0, map[])

  function Peak(s: System, wallet: string): nat { if wallet in s.peak then s.peak[wallet] else 0 }

  function Next(s: System, step: Step): System {
    match step
    case SavePolicy(wallet, p, now) =>
      System(SaveTx(s.t, wallet, p), now,
             if PolicyCheck(p).Some? then s.peak else s.peak[wallet := Max(Peak(s, wallet), p.dailyLimit)])
    case Authorize(spend, now) => s.(t := AuthorizeTx(s.t, spend, now), clock := now)
    case Update(quoteId, state, now) => s.(t := UpdateTx(s.t, quoteId, state, now), clock := now)
  }

  function Execute(steps: seq<Step>): System {
    if steps == [] then START else Next(Execute(steps[..|steps| - 1]), steps[|steps| - 1])
  }

  /** A reservation is submitted or confirmed while it can still be spent. */
  predicate InTime(t: Tables, step: Step) {
    step.Update? && step.state != Released ==>
      var i := Find(t.rows, step.quoteId);
      i.Some? ==> Live(t.rows[i.value], step.now)
  }

  /** The clock never runs back, and every commitment is in time. */
  predicate Disciplined(steps: seq<Step>) {
    steps == [] ||
      var front := steps[..|steps| - 1];
      var s := Execute(front);
      Disciplined(front) && s.clock <= steps[|steps| - 1].now && InTime(s.t, steps[|steps| - 1])
  }

  /** Made in the past; once committed, counted to the end of the day it was made on. */
  predicate RowValid(r: Reservation, clock: nat) {
    r.createdAt <= clock && (Committed(r) ==> r.expiresAt >= DayEnd(r.createdAt))
  }

  ghost predicate RowsValid(rows: seq<Reservation>, clock: nat) {
    forall k {:trigger rows[k]} :: 0 <= k < |rows| ==> RowValid(rows[k], clock)
  }

  ghost predicate WithinPeak(s: System) {
    forall a: Account {:trigger Budget(s.t.rows, a, s.clock)} :: Budget(s.t.rows, a, s.clock) <= Peak(s, a.wallet)
  }

  ghost predicate Valid(s: System) {
    && RowsValid(s.t.rows, s.clock)
    && WithinPeak(s)
    && (forall w :: w in s.t.policies ==> s.t.policies[w].dailyLimit <= Peak(s, w))
  }

  lemma QueriedIsLiveToday(r: Reservation, wallet: string, asset: string, now: nat)
    requires RowValid(r, now)
    ensures Queried(r, wallet, asset, now) <==>
      r.wallet == wallet && r.asset == asset && DayOf(r.createdAt) == DayOf(now) && Live(r, now)
  {
    assert DayStart(now) == DAY * DayOf(now) && DayEnd(r.createdAt) == DAY * DayOf(r.createdAt) + DAY;
  }

  /** Today's query adds up exactly the live reservations of today. */
  lemma {:induction false} QueryIsBudget(rows: seq<Reservation>, wallet: string, asset: string, now: nat)
    requires RowsValid(rows, now)
    ensures QuerySum(rows, wallet, asset, now) == Budget(rows, Account(wallet, asset, DayOf(now)), now)
  {
    if rows != [] {
      QueryIsBudget(rows[..|rows| - 1], wallet, asset, now);
      QueriedIsLiveToday(rows[|rows| - 1], wallet, asset, now);
    }
  }

  lemma TimePasses(s: System, now: nat)
    requires Valid(s) && s.clock <= now
    ensures Valid(s.(clock := now))
  {
    forall a: Account ensures Budget(s.t.rows, a, now) <= Peak(s, a.wallet) {
      BudgetShrinksWithTime(s.t.rows, a, s.clock, now);
    }
  }

  /** Inserting a reservation, whatever it was decided on, keeps every day within its wallet's peak exactly when
      its amount fits what the daily query adds up at that very moment. */
  lemma InsertionIsSafeExactly(s: System, spend: Spend)
    requires Valid(s) && spend.expiresAt > s.clock
    ensures Valid(s.(t := s.t.(rows := s.t.rows + [NewReservation(spend, s.clock)]))) <==>
      QuerySum(s.t.rows, spend.wallet, spend.asset, s.clock) + spend.amount <= Peak(s, spend.wallet)
  {
    var now := s.clock;
    var r := NewReservation(spend, now);
    var own := Account(spend.wallet, spend.asset, DayOf(now));
    var after := s.(t := s.t.(rows := s.t.rows + [r]));
    QueryIsBudget(s.t.rows, spend.wallet, spend.asset, now);
    BudgetOfAppend(s.t.rows, r, own, now);
    if Budget(s.t.rows, own, now) + spend.amount <= Peak(s, spend.wallet) {
      forall a: Account ensures Budget(after.t.rows, a, now) <= Peak(after, a.wallet) {
        BudgetOfAppend(s.t.rows, r, a, now);
      }
    } else {
      assert Budget(after.t.rows, own, now) > Peak(after, own.wallet);
    }
  }

  lemma AuthorizeKeepsValid(s: System, spend: Spend)
    requires Valid(s)
    ensures Valid(Next(s, Authorize(spend, s.clock)))
  {
    if AuthorizeTx(s.t, spend, s.clock) != s.t {
      InsertionIsSafeExactly(s, spend);
    }
  }

  /** What an update does to every account: a late commitment adds its amount to the day of the
      reservation, a release takes what was live, anything else leaves the budget as it was. */
  lemma UpdateBudget(s: System, i: nat, state: ReservationState, a: Account)
    requires i < |s.t.rows| && state != Reserved
    ensures var r := s.t.rows[i];
      var rows := s.t.rows[i := UpdateRow(r, state, s.clock)];
      var own := r.wallet == a.wallet && r.asset == a.asset && DayOf(r.createdAt) == a.day;
      Budget(rows, a, s.clock) == Budget(s.t.rows, a, s.clock)
        + (if own && state != Released && !Live(r, s.clock) then r.amount else 0)
        - (if own && state == Released && Live(r, s.clock) then r.amount else 0)
  {
    BudgetOfUpdate(s.t.rows, i, UpdateRow(s.t.rows[i], state, s.clock), a, s.clock);
  }

  lemma UpdateKeepsValid(s: System, quoteId: string, state: ReservationState)
    requires Valid(s) && InTime(s.t, Update(quoteId, state, s.clock))
    ensures Valid(Next(s, Update(quoteId, state, s.clock)))
  {
    var after := Next(s, Update(quoteId, state, s.clock));
    var i := Find(s.t.rows, quoteId);
    if state != Reserved && i.Some? {
      assert RowValid(s.t.rows[i.value], s.clock);
      forall a: Account ensures Budget(after.t.rows, a, s.clock) <= Peak(after, a.wallet) {
        UpdateBudget(s, i.value, state, a);
      }
    }
  }

  /** An update keeps every day within its wallet's peak exactly when it is a release, or in time, or the
      late amount still fits the day of the reservation. */
  lemma UpdateIsSafeExactly(s: System, i: nat, state: ReservationState)
    requires Valid(s) && i < |s.t.rows| && state != Reserved
    ensures var r := s.t.rows[i];
      var after := s.(t := s.t.(rows := s.t.rows[i := UpdateRow(r, state, s.clock)]));
      WithinPeak(after) <==>
        || state == Released || Live(r, s.clock)
        || Budget(s.t.rows, Account(r.wallet, r.asset, DayOf(r.createdAt)), s.clock) + r.amount <= Peak(s, r.wallet)
  {
    var r := s.t.rows[i];
    var own := Account(r.wallet, r.asset, DayOf(r.createdAt));
    var after := s.(t := s.t.(rows := s.t.rows[i := UpdateRow(r, state, s.clock)]));
    UpdateBudget(s, i, state, own);
    if WithinPeak(after) {
      assert Budget(after.t.rows, own, s.clock) <= Peak(after, own.wallet);
    }
    if state == Released || Live(r, s.clock) || Budget(s.t.rows, own, s.clock) + r.amount <= Peak(s, r.wallet) {
      forall a: Account ensures Budget(after.t.rows, a, s.clock) <= Peak(after, a.wallet) {
        UpdateBudget(s, i, state, a);
      }
    }
  }

  lemma {:induction false} DisciplinedKeepsValid(steps: seq<Step>)
    requires Disciplined(steps)
    ensures Valid(Execute(steps))
  {
    if steps != [] {
      var front := steps[..|steps| - 1];
      var step := steps[|steps| - 1];
      DisciplinedKeepsValid(front);
      TimePasses(Execute(front), step.now);
      var s := Execute(front).(clock := step.now);
      match step
      case SavePolicy(wallet, p, now) => SaveKeepsValid(s, wallet, p);
      case Authorize(spend, now) => AuthorizeKeepsValid(s, spend);
      case Update(quoteId, state, now) => UpdateKeepsValid(s, quoteId, state);
    }
  }

  lemma SaveKeepsValid(s: System, wallet: string, p: Policy)
    requires Valid(s)
    ensures Valid(Next(s, SavePolicy(wallet, p, s.clock)))
  {
    var after := Next(s, SavePolicy(wallet, p, s.clock));
    forall a: Account ensures Budget(after.t.rows, a, s.clock) <= Peak(after, a.wallet) {
      assert Budget(s.t.rows, a, s.clock) <= Peak(s, a.wallet);
    }
  }

  /** On every disciplined run, what was ever submitted or confirmed of the reservations of one UTC day, and
      all of them that can still be spent, stay within the highest daily limit the wallet has had. */
  lemma DailyLimitHolds(steps: seq<Step>, a: Account)
    requires Disciplined(steps)
    ensures var s := Execute(steps);
      Spent(s.t.rows, a) <= Budget(s.t.rows, a, s.clock) <= Peak(s, a.wallet)
  {
    DisciplinedKeepsValid(steps);
    SpentWithinBudget(Execute(steps).t.rows, a, Execute(steps).clock);
  }

  ghost predicate NeverLowered(steps: seq<Step>) {
    forall k: nat {:trigger steps[k]} :: k < |steps| && steps[k].SavePolicy? ==>
      var before := Execute(steps[..k]);
      steps[k].wallet in before.t.policies ==>
        before.t.policies[steps[k].wallet].dailyLimit <= steps[k].policy.dailyLimit
  }

  /** While no policy lowers its limit, the peak is the limit in force. */
  lemma {:induction false} PeakIsTheLimit(steps: seq<Step>, wallet: string)
    requires NeverLowered(steps)
    ensures var s := Execute(steps);
      (wallet in s.peak <==> wallet in s.t.policies)
        && Peak(s, wallet) == if wallet in s.t.policies then s.t.policies[wallet].dailyLimit else 0
  {
    if steps != [] {
      var n := |steps| - 1;
      var front := steps[..n];
      forall k: nat | k < n && front[k].SavePolicy?
        ensures var before := Execute(front[..k]);
          front[k].wallet in before.t.policies ==>
            before.t.policies[front[k].wallet].dailyLimit <= front[k].policy.dailyLimit
      {
        assert front[..k] == steps[..k] && front[k] == steps[k];
      }
      PeakIsTheLimit(front, wallet);
      assert steps[n].SavePolicy? ==> true;
    }
  }

  // ---------- what is granted ----------

  /** What a policy allows one order, whatever the day has cost so far. */
  predicate Allowed(t: Tables, s: Spend, now: nat) {
    && 0 < s.amount && now < s.expiresAt
    && s.wallet in t.policies
    && var p := t.policies[s.wallet];
      p.enabled && s.asset == p.asset && s.amount <= p.maxPerOrder && (p.services == {} || s.service in p.services)
  }

  /** A reservation is made exactly for an allowed spend under a new quote that fits the day. */
  lemma ReservesExactly(t: Tables, s: Spend, now: nat)
    requires RowsValid(t.rows, now)
    ensures var after := AuthorizeTx(t, s, now);
      && after.policies == t.policies
      && (after.rows != t.rows <==>
            && Allowed(t, s, now)
            && (forall r :: r in t.rows ==> r.quoteId != s.quoteId)
            && Budget(t.rows, Account(s.wallet, s.asset, now / 86400), now) + s.amount
              <= t.policies[s.wallet].dailyLimit)
      && (after.rows != t.rows ==> after.rows == t.rows + [
            Reservation(s.quoteId, s.wallet, s.asset, s.amount, s.service, Reserved, now, s.expiresAt)])
  {
    QueryIsBudget(t.rows, s.wallet, s.asset, now);
    if exists r :: r in t.rows && r.quoteId == s.quoteId {
      var k :| 0 <= k < |t.rows| && t.rows[k].quoteId == s.quoteId;
    }
  }

  /** Which refusal is given: the spend itself first, then the policy in the order of its checks, then the quote,
      and the day last. */
  lemma RefusesExactly(t: Tables, s: Spend, now: nat)
    ensures var refusal := Refusal(t, s, now);
      && (refusal == Some(InvalidSpend) <==> s.amount == 0 || s.expiresAt <= now)
      && (refusal == Some(PolicyRequired) <==>
            s.amount > 0 && s.expiresAt > now && (s.wallet in t.policies ==> !t.policies[s.wallet].enabled))
      && (s.amount > 0 && s.expiresAt > now && s.wallet in t.policies && t.policies[s.wallet].enabled ==>
            var p := t.policies[s.wallet];
            && (refusal == Some(AssetBlocked) <==> s.asset != p.asset)
            && (refusal == Some(OrderLimitExceeded) <==> s.asset == p.asset && s.amount > p.maxPerOrder)
            && (refusal == Some(ServiceBlocked) <==>
                  s.asset == p.asset && s.amount <= p.maxPerOrder && p.services != {} && s.service !in p.services))
      && (refusal in {Some(IdempotencyConflict), Some(DailyLimitExceeded), None} <==> Allowed(t, s, now))
  {
  }

  /** An allowed spend under a known quote is a repetition of its wallet and amount, or a conflict. */
  lemma KnownQuoteExactly(t: Tables, s: Spend, now: nat)
    requires Allowed(t, s, now)
    ensures var known := exists k :: 0 <= k < |t.rows| && t.rows[k].quoteId == s.quoteId;
      var i := Find(t.rows, s.quoteId);
      && (i.Some? <==> known)
      && (known ==> t.rows[i.value].wallet == s.wallet && t.rows[i.value].amount == s.amount ==>
            Refusal(t, s, now).None?)
      && (known ==> (t.rows[i.value].wallet != s.wallet || t.rows[i.value].amount != s.amount) ==>
            Refusal(t, s, now) == Some(IdempotencyConflict))
      && (!known ==> (Refusal(t, s, now).None? <==>
            QuerySum(t.rows, s.wallet, s.asset, now) + s.amount <= t.policies[s.wallet].dailyLimit))
  {
  }

  /** The highest limit per order that an accepted policy has given a wallet. */
  function HighestPerOrder(steps: seq<Step>, wallet: string): nat {
    if steps == [] then 0
    else
      var highest := HighestPerOrder(steps[..|steps| - 1], wallet);
      var step := steps[|steps| - 1];
      if step.SavePolicy? && step.wallet == wallet && PolicyCheck(step.policy).None?
      then Max(highest, step.policy.maxPerOrder) else highest
  }

  /** Some accepted policy of the wallet allowed that much, if anything was allowed at all. */
  lemma {:induction false} HighestWasAllowed(steps: seq<Step>, wallet: string)
    ensures HighestPerOrder(steps, wallet) == 0 ||
      exists k :: 0 <= k < |steps| && steps[k].SavePolicy? && steps[k].wallet == wallet
                  && PolicyCheck(steps[k].policy).None? && steps[k].policy.maxPerOrder == HighestPerOrder(steps, wallet)
  {
    if steps != [] {
      var n := |steps| - 1;
      var front := steps[..n];
      HighestWasAllowed(front, wallet);
      if HighestPerOrder(steps, wallet) != 0 && HighestPerOrder(steps, wallet) == HighestPerOrder(front, wallet) {
        var k :| 0 <= k < n && front[k].SavePolicy? && front[k].wallet == wallet
                 && PolicyCheck(front[k].policy).None?
                 && front[k].policy.maxPerOrder == HighestPerOrder(front, wallet);
        assert steps[k] == front[k];
      } else if HighestPerOrder(steps, wallet) != 0 {
        assert steps[n].SavePolicy? && steps[n].wallet == wallet;
      }
    }
  }

  ghost predicate WithinOrderLimits(t: Tables, highest: string -> nat) {
    && (forall w :: w in t.policies ==> t.policies[w].maxPerOrder <= highest(w))
    && (forall k {:trigger t.rows[k]} :: 0 <= k < |t.rows| ==> 0 < t.rows[k].amount <= highest(t.rows[k].wallet))
  }

  lemma StepKeepsOrderLimits(s: System, step: Step, highest: string -> nat)
    requires WithinOrderLimits(s.t, highest) && !step.SavePolicy?
    ensures WithinOrderLimits(Next(s, step).t, highest)
  {
    var before, after := s.t, Next(s, step).t;
    forall k | 0 <= k < |after.rows| ensures 0 < after.rows[k].amount <= highest(after.rows[k].wallet) {
      if k < |before.rows| {
        assert 0 < before.rows[k].amount <= highest(before.rows[k].wallet);
      } else {
        assert PolicyRefusal(before, step.spend, step.now).None?;
      }
    }
  }

  /** On every run whatsoever, no reservation is empty or over the highest limit per order its wallet has had. */
  lemma {:induction false} OrdersStayWithinLimit(steps: seq<Step>)
    ensures WithinOrderLimits(Execute(steps).t, w => HighestPerOrder(steps, w))
  {
    if steps != [] {
      var front, step := steps[..|steps| - 1], steps[|steps| - 1];
      OrdersStayWithinLimit(front);
      assert WithinOrderLimits(Execute(front).t, w => HighestPerOrder(steps, w)) by {
        assert forall w :: HighestPerOrder(front, w) <= HighestPerOrder(steps, w);
      }
      if !step.SavePolicy? {
        StepKeepsOrderLimits(Execute(front), step, w => HighestPerOrder(steps, w));
      }
    }
  }

  /** A policy is refused for its asset first, then for its limits, then for its services; a stored one has limits. */
  lemma PolicyCheckExactly(p: Policy)
    ensures PolicyCheck(p) == Some(UnsupportedAsset) <==> p.asset != "USDC"
    ensures PolicyCheck(p) == Some(InvalidLimits) <==>
      p.asset == "USDC" && !(0 < p.maxPerOrder <= p.dailyLimit)
    ensures PolicyCheck(p) == Some(InvalidServices) <==>
      && p.asset == "USDC" && 0 < p.maxPerOrder <= p.dailyLimit
      && !(|p.services| <= 50 && forall s :: s in p.services ==> |s| <= 100)
    ensures PolicyCheck(p).None? ==> p.asset == "USDC" && 0 < p.maxPerOrder <= p.dailyLimit
  {
  }

  /** An update writes the state it is given to the one reservation of the quote; a release ends it at once, and a
      commitment keeps it to the end of the day on which it was made, whatever it was before. */
  lemma UpdatesExactly(t: Tables, quoteId: string, state: ReservationState, now: nat)
    ensures var after := UpdateTx(t, quoteId, state, now);
      var i := Find(t.rows, quoteId);
      && after.policies == t.policies && |after.rows| == |t.rows|
      && (state == Reserved || (forall r :: r in t.rows ==> r.quoteId != quoteId) ==> after == t)
      && (state != Reserved && i.Some? ==>
            && (forall k :: 0 <= k < |t.rows| && k != i.value ==> after.rows[k] == t.rows[k])
            && var r, b := t.rows[i.value], after.rows[i.value];
              && b.state == state && b.quoteId == r.quoteId == quoteId && b.wallet == r.wallet && b.asset == r.asset
              && b.amount == r.amount && b.service == r.service && b.createdAt == r.createdAt
              && b.expiresAt == if state == Released then now else (now / 86400 + 1) * 86400)
  {
  }

  lemma ExpiredFreesTheDay(a: Reservation, wallet: string, asset: string, now: nat)
    requires a.state == Reserved && a.expiresAt <= now
    ensures QuerySum([a], wallet, asset, now) == 0
  {
    assert [a][..0] == [];
  }

  lemma FindsFirstOfTwo(a: Reservation, b: Reservation)
    requires a.quoteId != b.quoteId
    ensures Find([a], b.quoteId).None? && Find([a, b], a.quoteId) == Some(0)
  {
    assert [a, b][..1] == [a];
  }

  lemma BudgetOfTwo(a: Reservation, b: Reservation, account: Account, now: nat)
    ensures Budget([a, b], account, now) == Weight(a, account, now) + Weight(b, account, now)
  {
    assert [a, b][..1] == [a] && [a][..0] == [];
    assert Budget([a], account, now) == Weight(a, account, now);
  }

  /** Two spends that fit the limit only one at a time are both spent when the first is submitted after it
      expired: on a fresh day the second is reserved in the room the first left, and then the first counts again. */
  lemma LateSubmitBreaksTheLimit(t: Tables, first: Spend, second: Spend, now: nat)
    requires t.rows == [] && first.quoteId != second.quoteId
    requires first.wallet == second.wallet && first.asset == second.asset
    requires PolicyRefusal(t, first, now).None? && PolicyRefusal(t, second, first.expiresAt).None?
    requires first.amount <= t.policies[first.wallet].dailyLimit && second.amount <= t.policies[first.wallet].dailyLimit
    requires DayOf(now) == DayOf(first.expiresAt)
    ensures var two := AuthorizeTx(AuthorizeTx(t, first, now), second, first.expiresAt);
      var late := UpdateTx(two, first.quoteId, Submitted, first.expiresAt);
      Budget(late.rows, Account(first.wallet, first.asset, DayOf(now)), first.expiresAt) == first.amount + second.amount
  {
    var a := NewReservation(first, now);
    var b := NewReservation(second, first.expiresAt);
    assert AuthorizeTx(t, first, now).rows == [a];
    ExpiredFreesTheDay(a, second.wallet, second.asset, first.expiresAt);
    FindsFirstOfTwo(a, b);
    var two := AuthorizeTx(AuthorizeTx(t, first, now), second, first.expiresAt);
    assert two.rows == [a, b];
    BudgetOfTwo(UpdateRow(a, Submitted, first.expiresAt), b, Account(first.wallet, first.asset, DayOf(now)),
                first.expiresAt);
  }

  /** Where the reads of two authorisations precede both insertions, both are granted on the room of one. */
  lemma TwoReadsBreakTheLimit(t: Tables, first: Spend, second: Spend, now: nat)
    requires t.rows == [] && first.wallet == second.wallet && first.asset == second.asset
    requires first.quoteId != second.quoteId
    requires Refusal(t, first, now).None? && Refusal(t, second, now).None?
    ensures var rows := [NewReservation(first, now), NewReservation(second, now)];
      && AuthorizeTx(t, first, now).rows == rows[..1]
      && Budget(rows, Account(first.wallet, first.asset, DayOf(now)), now) == first.amount + second.amount
      && (first.amount + second.amount > t.policies[first.wallet].dailyLimit ==>
            Refusal(AuthorizeTx(t, first, now), second, now).Some?)
  {
    var a, b := NewReservation(first, now), NewReservation(second, now);
    var account := Account(first.wallet, first.asset, DayOf(now));
    BudgetOfTwo(a, b, account, now);
    assert AuthorizeTx(t, first, now).rows == [a];
    QueryIsBudget([a], first.wallet, first.asset, now);
    BudgetOfAppend([], a, account, now);
    assert [] + [a] == [a];
    FindsFirstOfTwo(a, b);
  }

  /** That late submission as a run from the start: a policy, two authorisations and the update. */
  lemma LateSubmitIsARun(p: Policy, first: Spend, second: Spend, now: nat)
    requires PolicyCheck(p).None? && first.quoteId != second.quoteId
    requires first.wallet == second.wallet && first.asset == second.asset
    requires PolicyRefusal(Tables(map[first.wallet := p], []), first, now).None?
    requires PolicyRefusal(Tables(map[first.wallet := p], []), second, first.expiresAt).None?
    requires DayOf(now) == DayOf(first.expiresAt)
    ensures var steps := [SavePolicy(first.wallet, p, now), Authorize(first, now), Authorize(second, first.expiresAt),
                          Update(first.quoteId, Submitted, first.expiresAt)];
      var s := Execute(steps);
      Budget(s.t.rows, Account(first.wallet, first.asset, DayOf(now)), s.clock) == first.amount + second.amount
  {
    var one, two := SavePolicy(first.wallet, p, now), Authorize(first, now);
    var three := Authorize(second, first.expiresAt);
    var four := Update(first.quoteId, Submitted, first.expiresAt);
    assert [one][..0] == [] && [one, two][..1] == [one];
    assert [one, two, three][..2] == [one, two] && [one, two, three, four][..3] == [one, two, three];
    var t := Tables(map[first.wallet := p], []);
    assert Execute([one]).t == t;
    assert Execute([one, two]).t == AuthorizeTx(t, first, now);
    assert Execute([one, two, three]).t == AuthorizeTx(AuthorizeTx(t, first, now), second, first.expiresAt);
    LateSubmitBreaksTheLimit(t, first, second, now);
  }
}
