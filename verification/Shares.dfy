/** The share arithmetic of a bet, proved in the circuit's own modular form. */
module Shares {
  import opened Arith
  import opened Specs

  /** The clauses as the circuit enforces them: the share identity holds modulo the field
      prime, and nothing is said about the quotient. */
  ghost predicate FieldBetAuth(p: int, h: Hash, w: BetWires)
    requires p > 0
  {
    && SpecSpend(h, w.s)
    && IsU64(w.s.balance) && IsU64(w.s.nonce) && IsU64(w.betAmount) && IsU64(w.fee) && IsU64(w.price)
    && IsU64(w.expectedShares) && IsU64(w.shareRemainder) && 0 <= w.outcomeSide < 256
    && w.s.balance >= w.betAmount + w.fee
    && w.price > 0 && w.shareRemainder < w.price
    && Congruent(w.expectedShares * w.price + w.shareRemainder, w.betAmount * PRICE_PRECISION, p)
    && w.newCommitment == h.h4(w.s.secret, w.s.balance - w.betAmount - w.fee, w.s.nonce + 1, w.s.owner)
  }

  /** With 64-bit inputs neither side reaches a field of at least 2^128 elements, so the
      congruence is an equality and the shares are the quotient. */
  lemma WrapFree(p: int, shares: int, price: int, rem: int, bet: int)
    requires p >= U64 * U64 && IsU64(shares) && IsU64(price) && IsU64(rem) && IsU64(bet) && 0 < price && rem < price
    ensures Congruent(shares * price + rem, bet * PRICE_PRECISION, p)
            <==> shares == (bet * PRICE_PRECISION) / price && rem == (bet * PRICE_PRECISION) % price
  {
    ProductBound(shares, price, U64 - 1);
    ProductBound(bet, PRICE_PRECISION, U64 - 1);
    var left, right := shares * price + rem, bet * PRICE_PRECISION;
    assert 0 <= left < p && 0 <= right < p;
    if Congruent(left, right, p) { ResidueUnique(left, right, p); }
    if left == right {
      DivModUnique(right, shares, rem, price);
    }
    if shares == right / price && rem == right % price {
      QuotientIdentity(right, price);
      assert left == right;
    }
  }

  lemma QuotientIdentity(x: int, d: int)
    requires d > 0
    ensures (x / d) * d + x % d == x
  {
  }

  /** The circuit's clauses are exactly the integer specification. */
  lemma FieldFormIsIntegerForm(p: int, h: Hash, w: BetWires)
    requires p >= U64 * U64
    ensures FieldBetAuth(p, h, w) <==> SpecBetAuth(h, w)
  {
    if IsU64(w.expectedShares) && IsU64(w.price) && IsU64(w.shareRemainder) && IsU64(w.betAmount) && 0 < w.price && w.shareRemainder < w.price {
      WrapFree(p, w.expectedShares, w.price, w.shareRemainder, w.betAmount);
      QuotientIdentity(w.betAmount * PRICE_PRECISION, w.price);
      if SpecBetAuth(h, w) {
        DivModUnique(w.betAmount * PRICE_PRECISION, w.expectedShares, w.shareRemainder, w.price);
      }
    }
  }

  /** In a small field the identity wraps: one share for nothing. */
  lemma SmallFieldWraps()
    ensures Congruent(1 * 7 + 0, 0 * PRICE_PRECISION, 7) && 1 != (0 * PRICE_PRECISION) / 7
  {
  }

  /** The deployed credit circuits bind the bet to the note just before the spent one; each
      of their witnesses satisfies the present clauses. */
  ghost predicate SpecCreditLive(h: Hash, w: CreditWires) {
    && SpecSpend(h, w.s)
    && IsU64(w.s.balance) && IsU64(w.s.nonce) && IsU64(w.credit)
    && w.s.balance + w.credit < U64
    && w.newCommitment == h.h4(w.s.secret, w.s.balance + w.credit, w.s.nonce + 1, w.s.owner)
    && w.s.nonce >= 1
    && w.nullifierOfBet == h.h2(w.s.secret, w.s.nonce - 1)
  }

  lemma LiveCreditIsCredit(h: Hash, w: CreditWires)
    requires Ideal(h)
    ensures SpecCreditLive(h, w) && w.betNonce == w.s.nonce - 1 <==> SpecCredit(h, w) && w.betNonce == w.s.nonce - 1
    ensures SpecCreditLive(h, w) ==> SpecCredit(h, w.(betNonce := w.s.nonce - 1))
  {
  }
}
