/** The daily limit seen from the day a spend is committed on: reservations are counted on the day they were
    made, so one made before midnight and committed after it is outside both days' queries of its commitment. */
module SpendDays {
  import opened Wrappers
  import opened SpendBudget

  /** Submitted or confirmed, the last time on day `a.day`: the update moves the expiry to the end of its day. */
  predicate CommittedOn(r: Reservation, a: Account) {
    r.wallet == a.wallet && r.asset == a.asset && Committed(r) && r.expiresAt == DAY * a.day + DAY
  }

  /** What was committed on one UTC day. */
  function Outlay(rows: seq<Reservation>, a: Account): nat {
    if rows == [] then 0
    else
      var last := rows[|rows| - 1];
      Outlay(rows[..|rows| - 1], a) + if CommittedOn(last, a) then last.amount else 0
  }

  /** The part of it that was reserved on an earlier day. */
  function CarriedIn(rows: seq<Reservation>, a: Account): nat {
    if rows == [] then 0
    else
      var last := rows[|rows| - 1];
      CarriedIn(rows[..|rows| - 1], a) + if CommittedOn(last, a) && DayOf(last.createdAt) < a.day then last.amount
        else 0
  }

  lemma {:induction false} OutlaySplits(rows: seq<Reservation>, a: Account, clock: nat)
    requires RowsValid(rows, clock)
    ensures Outlay(rows, a) <= Spent(rows, a) + CarriedIn(rows, a)
  {
    if rows != [] {
      OutlaySplits(rows[..|rows| - 1], a, clock);
      var last := rows[|rows| - 1];
      assert RowValid(last, clock);
      assert DayEnd(last.createdAt) == DAY * DayOf(last.createdAt) + DAY;
    }
  }

  /** On every disciplined run a day's outlay is within the highest limit plus what was carried in. */
  lemma OutlayIsLimited(steps: seq<Step>, a: Account)
    requires Disciplined(steps)
    ensures var s := Execute(steps);
      Outlay(s.t.rows, a) <= Peak(s, a.wallet) + CarriedIn(s.t.rows, a)
  {
    DisciplinedKeepsValid(steps);
    DailyLimitHolds(steps, a);
    OutlaySplits(Execute(steps).t.rows, a, Execute(steps).clock);
  }

  /** A reservation is committed on the day it was made. */
  predicate OwnDay(t: Tables, step: Step) {
    step.Update? && step.state != Released ==>
      var i := Find(t.rows, step.quoteId);
      i.Some? ==> DayOf(t.rows[i.value].createdAt) == DayOf(step.now)
  }

  predicate OwnDays(steps: seq<Step>) {
    steps == [] ||
      var front := steps[..|steps| - 1];
      OwnDays(front) && OwnDay(Execute(front).t, steps[|steps| - 1])
  }

  ghost predicate NothingCarried(rows: seq<Reservation>) {
    forall k {:trigger rows[k]} :: 0 <= k < |rows| && Committed(rows[k]) ==>
      rows[k].expiresAt == DayEnd(rows[k].createdAt)
  }

  lemma {:induction false} OwnDaysCarryNothing(steps: seq<Step>)
    requires OwnDays(steps)
    ensures NothingCarried(Execute(steps).t.rows)
  {
    if steps != [] {
      OwnDaysCarryNothing(steps[..|steps| - 1]);
      var s := Execute(steps[..|steps| - 1]);
      match steps[|steps| - 1]
      case Update(quoteId, state, now) =>
        var i := Find(s.t.rows, quoteId);
        if i.Some? && state != Reserved && state != Released {
          var made := s.t.rows[i.value].createdAt;
          assert DayEnd(made) == DAY * DayOf(made) + DAY == DayEnd(now);
        }
      case _ =>
    }
  }

  lemma {:induction false} NoneCarriedIn(rows: seq<Reservation>, a: Account)
    requires NothingCarried(rows)
    ensures CarriedIn(rows, a) == 0
  {
    if rows != [] {
      NoneCarriedIn(rows[..|rows| - 1], a);
      var last := rows[|rows| - 1];
      assert DayEnd(last.createdAt) == DAY * DayOf(last.createdAt) + DAY;
    }
  }

  /** While reservations are committed on the day they were made, a day's outlay is within the limit. */
  lemma OwnDayOutlayIsLimited(steps: seq<Step>, a: Account)
    requires Disciplined(steps) && OwnDays(steps)
    ensures Outlay(Execute(steps).t.rows, a) <= Peak(Execute(steps), a.wallet)
  {
    OutlayIsLimited(steps, a);
    OwnDaysCarryNothing(steps);
    NoneCarriedIn(Execute(steps).t.rows, a);
  }

  lemma {:induction false} OutlayOfUpdate(rows: seq<Reservation>, i: nat, r: Reservation, a: Account)
    requires i < |rows|
    ensures Outlay(rows[i := r], a) ==
      Outlay(rows, a) - (if CommittedOn(rows[i], a) then rows[i].amount else 0)
        + (if CommittedOn(r, a) then r.amount else 0)
  {
    var n := |rows| - 1;
    if i < n {
      OutlayOfUpdate(rows[..n], i, r, a);
      assert rows[i := r][..n] == rows[..n][i := r];
    } else {
      assert rows[i := r][..n] == rows[..n];
    }
  }

  /** A commitment keeps its day's outlay within a limit exactly when its amount, unless it is counted already,
      still fits; nothing in the update asks for that. */
  lemma CommitmentFitsExactly(t: Tables, quoteId: string, state: ReservationState, now: nat, limit: nat)
    requires state == Submitted || state == Confirmed
    requires Find(t.rows, quoteId).Some?
    ensures var r := t.rows[Find(t.rows, quoteId).value];
      var a := Account(r.wallet, r.asset, DayOf(now));
      var added := if CommittedOn(r, a) then 0 else r.amount;
      Outlay(UpdateTx(t, quoteId, state, now).rows, a) <= limit <==> Outlay(t.rows, a) + added <= limit
  {
    var i := Find(t.rows, quoteId).value;
    var a := Account(t.rows[i].wallet, t.rows[i].asset, DayOf(now));
    OutlayOfUpdate(t.rows, i, UpdateRow(t.rows[i], state, now), a);
    assert DayEnd(now) == DAY * DayOf(now) + DAY;
  }

  /** Two reservations of one wallet, the second made on a later day, are both granted within the limit of one. */
  lemma BothAuthorized(t: Tables, first: Spend, second: Spend, before: nat, after: nat)
    requires t.rows == [] && first.quoteId != second.quoteId
    requires first.wallet == second.wallet && first.asset == second.asset
    requires DayOf(before) < DayOf(after)
    requires PolicyRefusal(t, first, before).None? && PolicyRefusal(t, second, after).None?
    requires first.amount <= t.policies[first.wallet].dailyLimit && second.amount <= t.policies[first.wallet].dailyLimit
    ensures AuthorizeTx(AuthorizeTx(t, first, before), second, after) ==
      t.(rows := [NewReservation(first, before), NewReservation(second, after)])
  {
    var a, b := NewReservation(first, before), NewReservation(second, after);
    assert AuthorizeTx(t, first, before).rows == [a];
    YesterdayIsNotQueried(a, second.wallet, second.asset, after);
    FindsFirstOfTwo(a, b);
  }

  lemma BothSubmitted(t: Tables, a: Reservation, b: Reservation, now: nat)
    requires t.rows == [a, b] && a.quoteId != b.quoteId
    ensures var one := UpdateTx(t, a.quoteId, Submitted, now);
      && one.rows == [UpdateRow(a, Submitted, now), b]
      && Find(t.rows, a.quoteId) == Some(0) && Find(one.rows, b.quoteId) == Some(1)
      && UpdateTx(one, b.quoteId, Submitted, now).rows == [UpdateRow(a, Submitted, now), UpdateRow(b, Submitted, now)]
  {
    FindsFirstOfTwo(a, b);
    FindsSecondOfTwo(UpdateRow(a, Submitted, now), b);
  }

  /** So around midnight a day can cost twice the limit: one reservation made before it and one made after it,
      both within their day's budget, both committed in time on the second day. */
  lemma MidnightDoublesTheDay(t: Tables, first: Spend, second: Spend, before: nat, after: nat)
    requires t.rows == [] && first.quoteId != second.quoteId
    requires first.wallet == second.wallet && first.asset == second.asset
    requires DayOf(before) < DayOf(after) && after < first.expiresAt
    requires PolicyRefusal(t, first, before).None? && PolicyRefusal(t, second, after).None?
    requires first.amount <= t.policies[first.wallet].dailyLimit && second.amount <= t.policies[first.wallet].dailyLimit
    ensures var two := AuthorizeTx(AuthorizeTx(t, first, before), second, after);
      var one := UpdateTx(two, first.quoteId, Submitted, after);
      var both := UpdateTx(one, second.quoteId, Submitted, after);
      && InTime(two, Update(first.quoteId, Submitted, after)) && InTime(one, Update(second.quoteId, Submitted, after))
      && Outlay(both.rows, Account(first.wallet, first.asset, DayOf(after))) == first.amount + second.amount
  {
    var a, b := NewReservation(first, before), NewReservation(second, after);
    BothAuthorized(t, first, second, before, after);
    BothSubmitted(t.(rows := [a, b]), a, b, after);
    OutlayOfTwo(UpdateRow(a, Submitted, after), UpdateRow(b, Submitted, after),
                Account(first.wallet, first.asset, DayOf(after)));
    assert DayEnd(after) == DAY * DayOf(after) + DAY;
    assert second.expiresAt > after;
  }

  lemma YesterdayIsNotQueried(a: Reservation, wallet: string, asset: string, now: nat)
    requires DayOf(a.createdAt) < DayOf(now)
    ensures QuerySum([a], wallet, asset, now) == 0
  {
    assert [a][..0] == [];
    assert DayStart(now) == DAY * DayOf(now);
  }

  lemma FindsSecondOfTwo(a: Reservation, b: Reservation)
    ensures Find([a, b], b.quoteId) == Some(1)
  {
  }

  lemma OutlayOfTwo(c: Reservation, d: Reservation, a: Account)
    ensures Outlay([c, d], a) == (if CommittedOn(c, a) then c.amount else 0)
      + (if CommittedOn(d, a) then d.amount else 0)
  {
    assert [c, d][..1] == [c] && [c][..0] == [];
    assert Outlay([c], a) == if CommittedOn(c, a) then c.amount else 0;
  }
}
