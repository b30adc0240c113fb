/** Terminal accounting of an order and exact decimal printing. */
module Money {
  import opened Arith
  import opened Wrappers

  const DUST: int := 10_000

  datatype ReportType = FILLED | FAILED | PARTIAL | SOLD

  datatype Verdict = Verdict(kind: ReportType, amountA: int, amountB: int)

  predicate IsOutcome(k: ReportType) { k != SOLD }

  /** `marketSpentWithFee`: the part of the stake a market buy has used up. */
  function MarketSpentWithFee(betAmount: nat, filled: nat, submitted: nat): int
    requires submitted > 0
  {
    if filled >= submitted - DUST then betAmount
    else
      var spent := (betAmount * filled) / submitted;
      if spent > betAmount then betAmount else spent
  }

  /** The verdict of `attestTerminal` on a buy. */
  function Classify(expectedShares: nat, betAmount: nat, filled: int, spent: int): Verdict {
    if filled <= 0 then Verdict(FAILED, 0, 0)
    else if filled + DUST >= expectedShares then Verdict(FILLED, 0, 0)
    else Verdict(PARTIAL, filled, if spent <= betAmount then spent else betAmount)
  }

  /** The verdict on a sale; `None` when nothing was sold. */
  function ClassifySale(expectedShares: nat, filled: int, proceeds: int): Option<Verdict> {
    if filled <= 0 then None
    else Some(Verdict(SOLD, if filled + DUST >= expectedShares then expectedShares else filled, proceeds))
  }

  /** A market order's outcome, from its fill to what is attested. */
  function MarketVerdict(expectedShares: nat, betAmount: nat, filled: nat, submitted: nat): Verdict
    requires submitted > 0
  {
    Classify(expectedShares, betAmount, filled, if filled > 0 then MarketSpentWithFee(betAmount, filled, submitted) else 0)
  }

  lemma FloorScale(bet: nat, filled: nat, submitted: nat)
    requires filled <= submitted && submitted > 0
    ensures 0 <= (bet * filled) / submitted <= bet
  {
    assert 0 <= bet * filled <= bet * submitted;
    DivBound(bet * filled, submitted, bet);
  }

  lemma DivMonotone(a: int, b: int, d: int)
    requires d > 0 && a <= b
    ensures a / d <= b / d
  {
    var q, r := a / d, b / d;
    assert q * d <= a && b < (r + 1) * d;
    assert q > r ==> q * d >= (r + 1) * d;
  }

  /** `refund` is the least integer that covers `stake * (whole - part) / whole`. */
  predicate IsCeilingOf(refund: int, stake: int, part: int, whole: int) {
    refund * whole >= stake * (whole - part) > (refund - 1) * whole
  }

  /** The stake is never overspent; below the dust threshold the refund is exactly the
      unfilled part of the stake rounded up, and at or above it nothing is refunded. */
  lemma SpentBounds(bet: nat, filled: nat, submitted: nat)
    requires submitted > 0
    ensures 0 <= MarketSpentWithFee(bet, filled, submitted) <= bet
    ensures filled >= submitted - DUST ==> MarketSpentWithFee(bet, filled, submitted) == bet
    ensures filled < submitted - DUST ==> IsCeilingOf(bet - MarketSpentWithFee(bet, filled, submitted), bet, filled, submitted)
  {
    if filled < submitted - DUST {
      FloorScale(bet, filled, submitted);
      var q := (bet * filled) / submitted;
      assert q * submitted <= bet * filled < (q + 1) * submitted;
      assert bet * (submitted - filled) == bet * submitted - bet * filled;
      assert (bet - q) * submitted == bet * submitted - q * submitted;
      assert (bet - q - 1) * submitted == bet * submitted - (q + 1) * submitted;
    }
  }

  /** More filled, no less spent: the refund never grows with the fill. */
  lemma SpentMonotone(bet: nat, filled: nat, more: nat, submitted: nat)
    requires submitted > 0 && filled <= more
    ensures MarketSpentWithFee(bet, filled, submitted) <= MarketSpentWithFee(bet, more, submitted)
  {
    SpentBounds(bet, filled, submitted);
    if more < submitted - DUST {
      FloorScale(bet, filled, submitted);
      FloorScale(bet, more, submitted);
      assert bet * filled <= bet * more;
      DivMonotone(bet * filled, bet * more, submitted);
    }
  }

  function Rank(k: ReportType): nat { match k case FAILED => 0 case PARTIAL => 1 case FILLED => 2 case SOLD => 3 }

  /** The verdict never steps back as the fill grows. FAILED is given exactly for an empty fill,
      FILLED exactly if at most the dust is missing, and PARTIAL states the fill itself and
      what it spent of the stake. */
  lemma VerdictBounds(expected: nat, bet: nat, filled: nat, more: nat, submitted: nat)
    requires submitted > 0 && filled <= more
    ensures var v := MarketVerdict(expected, bet, filled, submitted); var w := MarketVerdict(expected, bet, more, submitted);
      && Rank(v.kind) <= Rank(w.kind) <= 2
      && (v.kind == FAILED <==> filled == 0)
      && (v.kind == FILLED <==> filled > 0 && expected - filled <= DUST)
      && (v.kind == PARTIAL ==> v.amountA == filled < expected && 0 <= v.amountB == MarketSpentWithFee(bet, filled, submitted) <= bet)
      && (v.kind == PARTIAL && w.kind == PARTIAL ==> bet - w.amountB <= bet - v.amountB)
  {
    SpentBounds(bet, filled, submitted);
    SpentBounds(bet, more, submitted);
    SpentMonotone(bet, filled, more, submitted);
  }

  /** A sale is attested exactly if something was sold, with its proceeds as they are. The shares
      are those sold, except that a remainder within the dust counts as sold too; so the sale
      closes the position exactly if at most the dust is left. */
  lemma SaleBounds(expected: nat, filled: int, proceeds: int)
    ensures ClassifySale(expected, filled, proceeds) == None <==> filled <= 0
    ensures filled > 0 ==>
      var v := ClassifySale(expected, filled, proceeds).value;
      && v.kind == SOLD && v.amountB == proceeds
      && (v.amountA == expected <==> expected - filled <= DUST || filled == expected)
      && (expected - filled > DUST ==> v.amountA == filled)
      && (0 <= filled <= expected ==> 0 <= v.amountA - filled <= DUST)
  {
  }

  /** A partial verdict meets the vault's own bounds on the attested amounts except that the
      spent amount may round to zero, which the vault refuses: exactly when a share of the
      stake below one micro-dollar was filled. */
  lemma PartialMeetsVaultBounds(expected: nat, bet: nat, filled: nat, submitted: nat)
    requires submitted > 0 && MarketVerdict(expected, bet, filled, submitted).kind == PARTIAL
    ensures var v := MarketVerdict(expected, bet, filled, submitted);
      && 0 < v.amountA < expected && v.amountB <= bet
      && (v.amountB > 0 <==> if filled >= submitted - DUST then bet > 0 else bet * filled >= submitted)
  {
    SpentBounds(bet, filled, submitted);
    if filled < submitted - DUST {
      FloorScale(bet, filled, submitted);
      if bet * filled >= submitted { DivMonotone(submitted, bet * filled, submitted); }
    }
  }

  /** A tenth of a cent bet on a hundred shares of which one is filled. */
  lemma PartialCanRoundToZero()
    ensures MarketVerdict(100_000_000, 10, 1_000_000, 100_000_000) == Verdict(PARTIAL, 1_000_000, 0)
  {
  }
}
