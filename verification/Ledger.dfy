/** Exact IAT amounts and the double-entry journal of iat/ledger.py. */
module Ledger {
  import opened Wrappers
  import opened Text

  const SCALE: real := 100000000.0

  const MAX_MINOR: int := 0x7fff_ffff_ffff_ffff

  datatype Error = AmountOutOfRange | JournalTooShort | DirectionInvalid | CurrencyInvalid | AmountNotInteger
    | EntryAmountOutOfRange
    | AccountRequired | NotBalanced | GrossNotPositive | SplitNotGross

  /** Halves round up; for a non-negative amount that is away from zero. */
  function Minor(amount: real): int { (amount * SCALE + 0.5).Floor }

  function IatToMinor(amount: real): Result<int, Error> {
    if amount < 0.0 || Minor(amount) > MAX_MINOR then Err(AmountOutOfRange) else Ok(Minor(amount))
  }

  function MinorToIat(value: int): Result<real, Error> {
    if value > MAX_MINOR || value < -MAX_MINOR then Err(AmountOutOfRange) else Ok(value as real / SCALE)
  }

  /** Conversion loses nothing from minor units, and at most half a unit into them. */
  lemma ConversionsRoundTrip(value: int, amount: real)
    requires 0 <= value <= MAX_MINOR && amount >= 0.0
    ensures MinorToIat(value).Ok? && IatToMinor(MinorToIat(value).value) == Ok(value)
    ensures IatToMinor(amount).Ok? ==> -0.5 <= amount * SCALE - IatToMinor(amount).value as real < 0.5
  {
    assert value as real / SCALE * SCALE == value as real;
    assert (value as real + 0.5).Floor == value;
  }

  /** Exactly the amounts below nothing, or that round above the largest integer, are refused; and exactly the minor
      units beyond it either way. */
  lemma ConversionsRefuseExactly(amount: real, value: int)
    ensures IatToMinor(amount).Ok? <==> 0.0 <= amount < (MAX_MINOR as real + 0.5) / SCALE
    ensures MinorToIat(value).Ok? <==> -MAX_MINOR <= value <= MAX_MINOR
    ensures IatToMinor(amount).Err? ==> IatToMinor(amount).error == AmountOutOfRange
    ensures MinorToIat(value).Err? ==> MinorToIat(value).error == AmountOutOfRange
    ensures MinorToIat(value).Ok? ==> MinorToIat(value).value * 100000000.0 == value as real
  {
    assert amount < (MAX_MINOR as real + 0.5) / SCALE <==> amount * SCALE < MAX_MINOR as real + 0.5;
    assert Minor(amount) > MAX_MINOR <==> amount * SCALE + 0.5 >= (MAX_MINOR + 1) as real;
  }

  // ---------- journals ----------

  datatype Direction = Debit | Credit | OtherDirection

  datatype Currency = Iat | OtherCurrency

  /** The accounts a settlement books to, and any other text. */
  datatype Account = Clearing | SellerPayable(sellerId: string) | CommissionRevenue | Named(text: string)

  predicate Blank(a: Account) { a.Named? && Strip(a.text) == [] }

  /** `amount` is None when it is not an integer. */
  datatype Entry = Entry(account: Account, direction: Direction, currency: Currency, amount: Option<int>)

  function EntryError(e: Entry): Option<Error> {
    if e.direction == OtherDirection then Some(DirectionInvalid)
    else if e.currency != Iat then Some(CurrencyInvalid)
    else if e.amount.None? then Some(AmountNotInteger)
    else if e.amount.value <= 0 || e.amount.value > MAX_MINOR then Some(EntryAmountOutOfRange)
    else if Blank(e.account) then Some(AccountRequired)
    else None
  }

  /** Which entries are refused, and for which reason when there are several. */
  lemma EntryErrorExactly(e: Entry)
    ensures var direction := e.direction == Debit || e.direction == Credit;
      var amount := e.amount.Some? && 1 <= e.amount.value <= 0x7fff_ffff_ffff_ffff;
      var account := e.account.Named? ==> exists k :: 0 <= k < |e.account.text| && !IsSpace(e.account.text[k]);
      && (EntryError(e).None? <==> direction && e.currency == Iat && amount && account)
      && (EntryError(e) == Some(DirectionInvalid) <==> !direction)
      && (EntryError(e) == Some(CurrencyInvalid) <==> direction && e.currency != Iat)
      && (EntryError(e) == Some(AmountNotInteger) <==> direction && e.currency == Iat && e.amount.None?)
      && (EntryError(e) == Some(EntryAmountOutOfRange) <==>
            direction && e.currency == Iat && e.amount.Some? && !amount)
      && (EntryError(e) == Some(AccountRequired) <==> direction && e.currency == Iat && amount && !account)
  {
    if e.account.Named? {
      EmptyExactly(e.account.text);
    }
  }

  /** What the entries of one direction add up to. */
  function Total(entries: seq<Entry>, d: Direction): int {
    if entries == [] then 0
    else
      var last := entries[|entries| - 1];
      Total(entries[..|entries| - 1], d) + if last.direction == d then last.amount.GetOr(0) else 0
  }

  predicate Balanced(entries: seq<Entry>) {
    && |entries| >= 2
    && (forall k :: 0 <= k < |entries| ==> EntryError(entries[k]).None?)
    && Total(entries, Debit) == Total(entries, Credit)
  }

  predicate FirstBad(entries: seq<Entry>, k: nat) {
    k < |entries| && EntryError(entries[k]).Some? && forall i :: 0 <= i < k ==> EntryError(entries[i]).None?
  }

  /** A balanced journal debits something and credits something. */
  lemma {:induction false} PositiveTotal(entries: seq<Entry>, d: Direction)
    requires forall k :: 0 <= k < |entries| ==> EntryError(entries[k]).None?
    ensures Total(entries, d) >= 0
    ensures Total(entries, d) > 0 <==> exists k :: 0 <= k < |entries| && entries[k].direction == d
  {
    if entries != [] {
      var n := |entries| - 1;
      PositiveTotal(entries[..n], d);
      if k :| 0 <= k < n && entries[k].direction == d {
        assert entries[..n][k].direction == d;
      }
      if k :| 0 <= k < n && entries[..n][k].direction == d {
        assert entries[k].direction == d;
      }
    }
  }

  lemma BalancedHasBothSides(entries: seq<Entry>)
    requires Balanced(entries)
    ensures exists i, j :: 0 <= i < |entries| && 0 <= j < |entries|
                           && entries[i].direction == Debit && entries[j].direction == Credit
  {
    PositiveTotal(entries, Debit);
    PositiveTotal(entries, Credit);
    EntryErrorExactly(entries[0]);
    assert entries[0].direction == Debit || entries[0].direction == Credit;
  }

  datatype Summary = Summary(entryCount: nat, debit: int, credit: int)

  /** A journal is accepted exactly when it is balanced; the first bad entry decides the error. */
  method ValidateJournal(entries: seq<Entry>) returns (r: Result<Summary, Error>)
    ensures r.Ok? <==> Balanced(entries)
    ensures r.Ok? ==> r.value == Summary(|entries|, Total(entries, Debit), Total(entries, Credit))
    ensures r.Err? ==>
      || (|entries| < 2 && r.error == JournalTooShort)
      || (|entries| >= 2 && exists k: nat :: FirstBad(entries, k) && EntryError(entries[k]) == Some(r.error))
      || (|entries| >= 2 && (forall k :: 0 <= k < |entries| ==> EntryError(entries[k]).None?) && r.error == NotBalanced)
  {
    if |entries| < 2 {
      return Err(JournalTooShort);
    }
    var debit, credit := 0, 0;
    for i := 0 to |entries|
      invariant forall k :: 0 <= k < i ==> EntryError(entries[k]).None?
      invariant debit == Total(entries[..i], Debit) && credit == Total(entries[..i], Credit)
    {
      var entry := entries[i];
      var error := EntryError(entry);
      if error.Some? {
        assert FirstBad(entries, i);
        return Err(error.value);
      }
      assert entries[..i + 1][..i] == entries[..i];
      if entry.direction == Debit {
        debit := debit + entry.amount.value;
      } else {
        credit := credit + entry.amount.value;
      }
    }
    assert entries[..|entries|] == entries;
    if debit != credit {
      return Err(NotBalanced);
    }
    r := Ok(Summary(|entries|, debit, credit));
  }

  function Payable(sellerId: string): Account { SellerPayable(if sellerId == [] then "unknown" else sellerId) }

  /** The entries of a settlement; a zero amount books no entry. */
  function AllocationEntries(gross: int, commission: int, payout: int, sellerId: string): seq<Entry> {
    [Entry(Clearing, Debit, Iat, Some(gross))]
    + (if payout != 0 then [Entry(Payable(sellerId), Credit, Iat, Some(payout))] else [])
    + (if commission != 0 then [Entry(CommissionRevenue, Credit, Iat, Some(commission))] else [])
  }

  lemma AllocationTotals(gross: int, commission: int, payout: int, sellerId: string)
    ensures Total(AllocationEntries(gross, commission, payout, sellerId), Debit) == gross
    ensures Total(AllocationEntries(gross, commission, payout, sellerId), Credit) == commission + payout
  {
    var debit := [Entry(Clearing, Debit, Iat, Some(gross))];
    var paid := debit + if payout != 0 then [Entry(Payable(sellerId), Credit, Iat, Some(payout))] else [];
    var all := AllocationEntries(gross, commission, payout, sellerId);
    assert debit[..0] == [];
    assert Total(debit, Debit) == gross && Total(debit, Credit) == 0;
    if payout != 0 {
      assert paid[..1] == debit;
    }
    assert Total(paid, Debit) == gross && Total(paid, Credit) == payout;
    if commission != 0 {
      assert all[..|paid|] == paid;
    } else {
      assert all == paid;
    }
  }

  /** What an account is credited by a journal, less what it is debited. */
  function Booked(entries: seq<Entry>, account: Account): int {
    if entries == [] then 0
    else
      var last := entries[|entries| - 1];
      Booked(entries[..|entries| - 1], account) +
        if last.account != account then 0
        else if last.direction == Credit then last.amount.GetOr(0) else -last.amount.GetOr(0)
  }

  lemma BookedOfOneMore(entries: seq<Entry>, e: Entry, account: Account)
    ensures Booked(entries + [e], account) == Booked(entries, account) +
      if e.account != account then 0 else if e.direction == Credit then e.amount.GetOr(0) else -e.amount.GetOr(0)
  {
    assert (entries + [e])[..|entries|] == entries;
  }

  /** The seller, or the unknown one, is owed the payout, the protocol earns the commission, clearing gives the gross,
      and no other account is touched. */
  lemma AllocationBooksExactly(gross: int, commission: int, payout: int, sellerId: string, account: Account)
    ensures Booked(AllocationEntries(gross, commission, payout, sellerId), account) == (
      match account
      case Clearing => -gross
      case CommissionRevenue => commission
      case SellerPayable(id) => if id == sellerId != "" || (sellerId == "" && id == "unknown") then payout else 0
      case Named(_) => 0)
    ensures |AllocationEntries(gross, commission, payout, sellerId)| ==
      1 + (if payout != 0 then 1 else 0) + (if commission != 0 then 1 else 0)
  {
    var debit := Entry(Clearing, Debit, Iat, Some(gross));
    var pay := Entry(Payable(sellerId), Credit, Iat, Some(payout));
    var earn := Entry(CommissionRevenue, Credit, Iat, Some(commission));
    var paid := [] + [debit] + if payout != 0 then [pay] else [];
    BookedOfOneMore([], debit, account);
    BookedOfOneMore([] + [debit], pay, account);
    BookedOfOneMore(paid, earn, account);
    assert AllocationEntries(gross, commission, payout, sellerId) == if commission != 0 then paid + [earn] else paid;
    assert Booked(paid, account) ==
      (if account == debit.account then -gross else 0) + if account == pay.account then payout else 0;
  }

  lemma EntriesAreValid(gross: int, commission: int, payout: int, sellerId: string)
    requires 0 < gross <= MAX_MINOR && 0 <= commission && 0 <= payout && commission + payout == gross
    ensures Balanced(AllocationEntries(gross, commission, payout, sellerId))
  {
    AllocationTotals(gross, commission, payout, sellerId);
  }

  lemma MinorIsNatural(amount: real)
    requires amount >= 0.0
    ensures Minor(amount) >= 0
  {
  }

  datatype Allocation = Allocation(gross: int, commission: int, payout: int, entries: seq<Entry>, invariants: Summary)

  /** The journal of one settlement allocation; it is only returned balanced. */
  method BuildSettlementAllocationJournal(gross: real, commission: real, payout: real, sellerId: string)
    returns (r: Result<Allocation, Error>)
    ensures r.Ok? ==>
      && Balanced(r.value.entries)
      && r.value.entries == AllocationEntries(r.value.gross, r.value.commission, r.value.payout, sellerId)
      && r.value.gross == Minor(gross) && r.value.commission == Minor(commission) && r.value.payout == Minor(payout)
      && r.value.invariants == Summary(|r.value.entries|, r.value.gross, r.value.gross)
    ensures r.Ok? <==>
      && IatToMinor(gross).Ok? && IatToMinor(commission).Ok? && IatToMinor(payout).Ok?
      && Minor(gross) > 0 && Minor(commission) + Minor(payout) == Minor(gross)
    ensures r == Err(AmountOutOfRange) <==>
      IatToMinor(gross).Err? || IatToMinor(commission).Err? || IatToMinor(payout).Err?
    ensures r == Err(GrossNotPositive) <==>
      IatToMinor(gross).Ok? && IatToMinor(commission).Ok? && IatToMinor(payout).Ok? && Minor(gross) <= 0
    ensures r.Err? ==> r.error in {AmountOutOfRange, GrossNotPositive, SplitNotGross}
  {
    var g, c, p := IatToMinor(gross), IatToMinor(commission), IatToMinor(payout);
    if g.Err? || c.Err? || p.Err? {
      return Err(AmountOutOfRange);
    }
    if g.value <= 0 {
      return Err(GrossNotPositive);
    }
    if c.value + p.value != g.value {
      return Err(SplitNotGross);
    }
    var entries := [Entry(Clearing, Debit, Iat, Some(g.value))];
    if p.value != 0 {
      entries := entries + [Entry(Payable(sellerId), Credit, Iat, Some(p.value))];
    }
    if c.value != 0 {
      entries := entries + [Entry(CommissionRevenue, Credit, Iat, Some(c.value))];
    }
    MinorIsNatural(commission);
    MinorIsNatural(payout);
    AllocationTotals(g.value, c.value, p.value, sellerId);
    EntriesAreValid(g.value, c.value, p.value, sellerId);
    assert entries == AllocationEntries(g.value, c.value, p.value, sellerId);
    var summary := ValidateJournal(entries);
    r := Ok(Allocation(g.value, c.value, p.value, entries, summary.value));
  }
}
