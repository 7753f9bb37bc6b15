/** The settlement allocation of a delivered order, from iat/checkout_settlement.py. */
module CheckoutSettlement {
  import opened Wrappers
  import opened Text
  import opened Ledger

  /** A price that does not parse counts as nothing, and so does a negative one. */
  function Amount(price: Option<real>): real {
    var parsed := price.GetOr(0.0);
    if parsed < 0.0 then 0.0 else parsed
  }

  /** The configured rate, one tenth when it does not parse, kept between nothing and one half. */
  function Rate(configured: Option<real>): real {
    var rate := configured.GetOr(0.1);
    if rate < 0.0 then 0.0 else if rate > 0.5 then 0.5 else rate
  }

  const STEP: real := 1000000.0

  /** Rounded down to six decimals. */
  function RoundDown(x: real): real { (x * STEP).Floor as real / STEP }

  function Commission(gross: real, rate: real): real { RoundDown(gross * rate) }

  datatype Split = Split(gross: real, rate: real, commission: real, payout: real)

  function SplitOf(price: Option<real>, configured: Option<real>): Split {
    var gross := Amount(price);
    var rate := Rate(configured);
    Split(gross, rate, Commission(gross, rate), gross - Commission(gross, rate))
  }

  lemma RateBounds(gross: real, rate: real)
    requires gross >= 0.0 && 0.0 <= rate <= 0.5
    ensures 0.0 <= gross * rate <= gross / 2.0
  {
    assert gross * rate <= gross * 0.5;
  }

  /** What rounding the share `x` of `gross` down does to the split. */
  lemma RoundedShare(gross: real, x: real)
    requires 0.0 <= x <= gross / 2.0
    ensures var c := RoundDown(x);
      && 0.0 <= c <= x < c + 0.000001 && gross - c >= gross / 2.0
      && Minor(c) + Minor(gross - c) == Minor(gross)
      && (Minor(gross) > 0 ==> Minor(gross - c) > 0)
  {
    var units := (x * STEP).Floor;
    var c := RoundDown(x);
    assert c * STEP == units as real;
    assert c * SCALE + 0.5 == (100 * units) as real + 0.5;
    assert (gross - c) * SCALE + 0.5 == (gross * SCALE + 0.5) - (100 * units) as real;
    FloorOfDifference(gross * SCALE + 0.5, 100 * units);
    if units >= 1 {
      assert (gross - c) * SCALE >= c * SCALE;
    }
  }

  lemma FloorOfDifference(x: real, n: int)
    ensures (x - n as real).Floor == x.Floor - n
  {
  }

  /** The commission takes no more than its rate and the seller keeps at least half; the commission is a whole
      number of minor units, so rounding commutes with the split; and what is worth booking pays the seller. */
  lemma SplitIsExact(gross: real, rate: real)
    requires gross >= 0.0 && 0.0 <= rate <= 0.5
    ensures var c := Commission(gross, rate);
      && 0.0 <= c <= gross * rate < c + 0.000001
      && gross - c >= gross / 2.0
      && Minor(c) + Minor(gross - c) == Minor(gross)
      && (Minor(gross) > 0 ==> Minor(gross - c) > 0)
  {
    RateBounds(gross, rate);
    RoundedShare(gross, gross * rate);
  }

  /** A price counts for what it is when it parses and is not negative, and a rate when it parses and is between
      nothing and one half; the rest counts as the nearest of these, or as nothing and one tenth. */
  lemma SplitExactly(price: Option<real>, configured: Option<real>)
    ensures var s := SplitOf(price, configured);
      && (price.None? || price.value <= 0.0 ==> s.gross == 0.0)
      && (price.Some? && price.value >= 0.0 ==> s.gross == price.value)
      && (configured.None? ==> s.rate == 0.1)
      && (configured.Some? && configured.value <= 0.0 ==> s.rate == 0.0)
      && (configured.Some? && configured.value >= 0.5 ==> s.rate == 0.5)
      && (configured.Some? && 0.0 <= configured.value <= 0.5 ==> s.rate == configured.value)
      && s.commission == Commission(s.gross, s.rate) && s.commission + s.payout == s.gross
  {
  }

  /** The split of every price and every configured rate books exactly when its gross is at least one minor
      unit and in range: then debits and credits are both the gross. */
  method BookSplit(price: Option<real>, configured: Option<real>, sellerId: string)
    returns (r: Result<Allocation, Error>)
    ensures r.Ok? <==> 1 <= Minor(SplitOf(price, configured).gross) <= MAX_MINOR
    ensures r.Ok? ==>
      && Balanced(r.value.entries)
      && Total(r.value.entries, Debit) == Total(r.value.entries, Credit) == Minor(SplitOf(price, configured).gross)
      && 0 <= r.value.commission && 0 < r.value.payout && r.value.commission + r.value.payout == r.value.gross
  {
    var s := SplitOf(price, configured);
    SplitIsExact(s.gross, s.rate);
    r := BuildSettlementAllocationJournal(s.gross, s.commission, s.payout, sellerId);
    AllocationTotals(Minor(s.gross), Minor(s.commission), Minor(s.payout), sellerId);
  }

  // ---------- recording ----------

  datatype PaymentStatus = BlockedNoWinner | BlockedInvalidWinnerWallet | NoPaymentDue | PendingEscrowRelease

  datatype Settlement = Settlement(winnerId: string, winnerWallet: string, split: Split, status: PaymentStatus)

  /** Where the winner and its wallet may be named; an empty text is a missing one. */
  datatype Order = Order(orderId: string, price: Option<real>, sellerId: string, selectedAgentId: string,
                         lockedAgentId: string,
                         actualAgentWallet: string, sellerWallet: string)

  datatype BestResult = BestResult(agentId: string, wallet: string)

  /** Python's `or` over texts. */
  function FirstNamed(names: seq<string>): string {
    if names == [] then "" else if names[0] != "" then names[0] else FirstNamed(names[1..])
  }

  function Winner(o: Order, best: BestResult): string {
    FirstNamed([best.agentId, o.sellerId, o.selectedAgentId, o.lockedAgentId])
  }

  function WinnerWallet(o: Order, best: BestResult, agents: map<string, string>): string {
    var winner := Winner(o, best);
    var registered := if winner in agents then agents[winner] else "";
    FirstNamed([best.wallet, o.actualAgentWallet, registered, o.sellerWallet])
  }

  lemma FirstOfFour(a: string, b: string, c: string, d: string)
    ensures var first := FirstNamed([a, b, c, d]);
      && (a != "" ==> first == a)
      && (a == "" && b != "" ==> first == b)
      && (a == b == "" && c != "" ==> first == c)
      && (a == b == c == "" ==> first == d)
  {
    assert [a, b, c, d][1..] == [b, c, d] && [b, c, d][1..] == [c, d] && [c, d][1..] == [d];
    assert FirstNamed([d]) == d;
    assert FirstNamed([c, d]) == if c != "" then c else d;
    assert b == "" ==> FirstNamed([b, c, d]) == FirstNamed([c, d]);
  }

  /** The winner is the agent of the result, else the order's seller, else its selected and then its locked agent; its
      wallet the result's, else the order's, else the registered one, else the seller's. */
  lemma WinnerExactly(o: Order, best: BestResult, agents: map<string, string>)
    ensures var winner := Winner(o, best);
      && (best.agentId != "" ==> winner == best.agentId)
      && (best.agentId == "" && o.sellerId != "" ==> winner == o.sellerId)
      && (best.agentId == o.sellerId == "" && o.selectedAgentId != "" ==> winner == o.selectedAgentId)
      && (best.agentId == o.sellerId == o.selectedAgentId == "" ==> winner == o.lockedAgentId)
    ensures var wallet := WinnerWallet(o, best, agents);
      var known := Winner(o, best) in agents && agents[Winner(o, best)] != "";
      && (best.wallet != "" ==> wallet == best.wallet)
      && (best.wallet == "" && o.actualAgentWallet != "" ==> wallet == o.actualAgentWallet)
      && (best.wallet == o.actualAgentWallet == "" && known ==> wallet == agents[Winner(o, best)])
      && (best.wallet == o.actualAgentWallet == "" && !known ==> wallet == o.sellerWallet)
  {
    FirstOfFour(best.agentId, o.sellerId, o.selectedAgentId, o.lockedAgentId);
    var registered := if Winner(o, best) in agents then agents[Winner(o, best)] else "";
    FirstOfFour(best.wallet, o.actualAgentWallet, registered, o.sellerWallet);
  }

  datatype Outcome = OrderIdMissing | AlreadyRecorded | Recorded

  /** The settlements recorded so far, one per order. */
  class SettlementBook {
    var settlements: map<string, Settlement>
    const agents: map<string, string>
    const isWallet: string -> bool

    constructor (agents: map<string, string>, isWallet: string -> bool)
      ensures settlements == map[] && this.agents == agents && this.isWallet == isWallet
    {
      settlements, this.agents, this.isWallet := map[], agents, isWallet;
    }

    /** One settlement per delivered order; payment waits for release exactly when there is a winner with a
        wallet and something to pay. */
    method Allocate(o: Order, best: BestResult, configured: Option<real>) returns (r: Outcome)
      modifies this
      ensures r == if Strip(o.orderId) == "" then OrderIdMissing else if Strip(o.orderId) in old(settlements)
        then AlreadyRecorded else Recorded
      ensures r != Recorded ==> settlements == old(settlements)
      ensures r == Recorded ==>
        && settlements.Keys == old(settlements).Keys + {Strip(o.orderId)}
        && (forall other :: other in old(settlements) ==> settlements[other] == old(settlements)[other])
        && var s := settlements[Strip(o.orderId)];
          && s.winnerId == Winner(o, best) && s.winnerWallet == WinnerWallet(o, best, agents)
          && s.split == SplitOf(o.price, configured)
          && s.split.commission + s.split.payout == s.split.gross && s.split.payout >= s.split.gross / 2.0
          && (s.status == PendingEscrowRelease <==> s.winnerId != "" && isWallet(s.winnerWallet) && s.split.gross > 0.0)
          && (s.status == BlockedNoWinner <==> s.winnerId == "")
          && (s.status == BlockedInvalidWinnerWallet <==> s.winnerId != "" && !isWallet(s.winnerWallet))
    {
      var orderId := Strip(o.orderId);
      if orderId == "" {
        return OrderIdMissing;
      }
      if orderId in settlements {
        return AlreadyRecorded;
      }
      var winner, wallet := Winner(o, best), WinnerWallet(o, best, agents);
      var gross, rate := Amount(o.price), Rate(configured);
      var commission := Commission(gross, rate);
      SplitIsExact(gross, rate);
      var status := PendingEscrowRelease;
      if winner == "" {
        status := BlockedNoWinner;
      } else if !isWallet(wallet) {
        status := BlockedInvalidWinnerWallet;
      } else if gross <= 0.0 {
        status := NoPaymentDue;
      }
      settlements := settlements[orderId :=
        Settlement(winner, wallet, Split(gross, rate, commission, gross - commission), status)];
      r := Recorded;
    }
  }
}
