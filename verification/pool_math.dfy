/** Conversions between lamports and pool tokens (program/src/state.rs, program/src/processor.rs):
    u128 products, floor division, and a conversion back to u64 that may fail. */
module PoolMath {
  import opened Basics

  /** A fraction of an amount, rounded down: nothing when the product passes 128 bits, the denominator
      is zero or the quotient passes 64 bits. */
  function MulDiv(amount: u64, numerator: u128, denominator: u128): Option<u64> {
    if amount * numerator >= U128_RANGE || denominator == 0 then None
    else
      var q := amount * numerator / denominator;
      if q < U64_RANGE then Some(q) else None
  }

  function CalcPoolWithdrawAmount(stakeTotal: u64, poolTotal: u64, stakeLamports: u64): Option<u64> {
    MulDiv(stakeLamports, poolTotal, stakeTotal)
  }

  function CalcPoolDepositAmount(stakeTotal: u64, poolTotal: u64, stakeLamports: u64): Option<u64> {
    if stakeTotal == 0 then Some(stakeLamports)
    else CalcPoolWithdrawAmount(stakeTotal, poolTotal, stakeLamports)
  }

  function CalcLamportsAmount(stakeTotal: u64, poolTotal: u64, poolTokens: u64): Option<u64> {
    MulDiv(poolTokens, stakeTotal, poolTotal)
  }

  /** A zero denominator returns the amount itself. */
  function Proportional(amount: u64, numerator: u128, denominator: u128): Option<u64> {
    if denominator == 0 then Some(amount) else MulDiv(amount, numerator, denominator)
  }

  function SharesFromValue(value: u64, totalValue: u128, totalShares: u128): Option<u64> {
    Proportional(value, totalShares, totalValue)
  }

  function ValueFromShares(shares: u64, totalValue: u128, totalShares: u128): Option<u64> {
    Proportional(shares, totalValue, totalShares)
  }

  // ---------- exact rounding ----------

  lemma MulMono(a: nat, b: nat, c: nat)
    requires a <= b
    ensures a * c <= b * c && c * a <= c * b
  {
    assert b * c == a * c + (b - a) * c;
    assert 0 <= (b - a) * c;
  }

  /** `a * d < (b + 1) * d` only if `a <= b`. */
  lemma Cancel(a: nat, b: nat, d: nat)
    requires a * d < b * d + d
    ensures a <= b
  {
    if a > b {
      MulMono(b + 1, a, d);
      assert false;
    }
  }

  lemma ProductFits(a: u64, b: u64)
    ensures 0 <= a * b < U128_RANGE
  {
    MulMono(a, U64_RANGE, b);
    MulMono(b, U64_RANGE - 1, U64_RANGE);
  }

  /** The quotient and what it leaves. */
  lemma Floor(amount: u64, numerator: u64, denominator: u64)
    requires denominator > 0
    ensures 0 <= amount * numerator
    ensures (amount * numerator / denominator) * denominator + amount * numerator % denominator == amount * numerator
    ensures amount * numerator % denominator < denominator
    ensures MulDiv(amount, numerator, denominator).Some? <==> amount * numerator / denominator < U64_RANGE
  {
    ProductFits(amount, numerator);
  }

  /** `r` is `numerator` parts in `denominator` of `amount`, rounded down. */
  predicate RoundedDown(r: nat, amount: nat, numerator: nat, denominator: nat) {
    r * denominator <= amount * numerator < (r + 1) * denominator
  }

  lemma FloorIsRoundedDown(product: nat, denominator: nat, r: nat)
    requires denominator > 0
    ensures product / denominator == r <==> r * denominator <= product < (r + 1) * denominator
  {
    var q := product / denominator;
    assert q * denominator + product % denominator == product;
    if r * denominator <= product < (r + 1) * denominator {
      Cancel(r, q, denominator);
      Cancel(q, r, denominator);
    }
  }

  /** A fraction is the amount rounded down, wherever the denominator is positive and that fits. */
  lemma MulDivExact(amount: u64, numerator: u64, denominator: u64)
    ensures MulDiv(amount, numerator, denominator).Some? ==>
              denominator > 0 && RoundedDown(MulDiv(amount, numerator, denominator).value, amount, numerator, denominator)
    ensures forall r: u64 :: denominator > 0 && RoundedDown(r, amount, numerator, denominator) ==>
              MulDiv(amount, numerator, denominator) == Some(r)
  {
    ProductFits(amount, numerator);
    if denominator > 0 {
      forall r: u64 | RoundedDown(r, amount, numerator, denominator)
        ensures MulDiv(amount, numerator, denominator) == Some(r)
      {
        FloorIsRoundedDown(amount * numerator, denominator, r);
      }
      FloorIsRoundedDown(amount * numerator, denominator, amount * numerator / denominator);
    }
  }

  /** A deposit into a pool without stake gets as many tokens as it brings lamports; every other
      conversion of the pool is the exact share rounded down. */
  lemma ConversionsAreExact(stakeTotal: u64, poolTotal: u64, amount: u64, r: u64)
    ensures CalcPoolDepositAmount(stakeTotal, poolTotal, amount) == Some(r) <==>
              if stakeTotal == 0 then r == amount else RoundedDown(r, amount, poolTotal, stakeTotal)
    ensures CalcPoolWithdrawAmount(stakeTotal, poolTotal, amount) == Some(r) <==>
              stakeTotal > 0 && RoundedDown(r, amount, poolTotal, stakeTotal)
    ensures CalcLamportsAmount(stakeTotal, poolTotal, amount) == Some(r) <==>
              poolTotal > 0 && RoundedDown(r, amount, stakeTotal, poolTotal)
  {
    MulDivExact(amount, poolTotal, stakeTotal);
    MulDivExact(amount, stakeTotal, poolTotal);
  }

  /** The liquidity pool's conversions, among them the first provider's, who gets as many shares as the
      value brought, and a share of nothing, which is the whole amount. */
  lemma ProportionalExact(amount: u64, numerator: u64, denominator: u64, r: u64)
    ensures Proportional(amount, numerator, denominator) == Some(r) <==>
              if denominator == 0 then r == amount else RoundedDown(r, amount, numerator, denominator)
  {
    MulDivExact(amount, numerator, denominator);
  }

  /** A deposit of `lamports` into a pool with stake never lowers the price of a token; the pool
      keeps exactly the remainder of the division. */
  lemma DepositPrice(stakeTotal: u64, poolTotal: u64, lamports: u64)
    requires CalcPoolDepositAmount(stakeTotal, poolTotal, lamports).Some?
    ensures var tokens := CalcPoolDepositAmount(stakeTotal, poolTotal, lamports).value;
            (stakeTotal + lamports) * poolTotal
            == stakeTotal * (poolTotal + tokens)
               + if stakeTotal == 0 then lamports * poolTotal else lamports * poolTotal % stakeTotal
  {
    if stakeTotal > 0 {
      Floor(lamports, poolTotal, stakeTotal);
    }
  }

  /** Withdrawing never lowers the price; the pool keeps exactly the remainder. No more lamports
      leave than the pool has. */
  lemma WithdrawPrice(stakeTotal: u64, poolTotal: u64, tokens: u64)
    requires CalcLamportsAmount(stakeTotal, poolTotal, tokens).Some? && tokens <= poolTotal
    ensures var lamports := CalcLamportsAmount(stakeTotal, poolTotal, tokens).value;
            && lamports <= stakeTotal
            && (stakeTotal - lamports) * poolTotal
               == stakeTotal * (poolTotal - tokens) + tokens * stakeTotal % poolTotal
  {
    Floor(tokens, stakeTotal, poolTotal);
    var lamports := tokens * stakeTotal / poolTotal;
    MulMono(tokens, poolTotal, stakeTotal);
    Cancel(lamports, stakeTotal, poolTotal);
    assert (stakeTotal - lamports) * poolTotal == stakeTotal * poolTotal - lamports * poolTotal;
    assert stakeTotal * (poolTotal - tokens) == stakeTotal * poolTotal - tokens * stakeTotal;
  }

  /** Removing a validator rounds against the pool by exactly the remainder, which is less than
      the worth of one token. */
  lemma RemovePrice(stakeTotal: u64, poolTotal: u64, lamports: u64)
    requires CalcPoolWithdrawAmount(stakeTotal, poolTotal, lamports).Some? && lamports <= stakeTotal
    ensures var tokens := CalcPoolWithdrawAmount(stakeTotal, poolTotal, lamports).value;
            && tokens <= poolTotal
            && (stakeTotal - lamports) * poolTotal + lamports * poolTotal % stakeTotal
               == stakeTotal * (poolTotal - tokens)
            && lamports * poolTotal % stakeTotal < stakeTotal
  {
    Floor(lamports, poolTotal, stakeTotal);
    var tokens := lamports * poolTotal / stakeTotal;
    MulMono(lamports, stakeTotal, poolTotal);
    Cancel(tokens, poolTotal, stakeTotal);
    assert (stakeTotal - lamports) * poolTotal == stakeTotal * poolTotal - lamports * poolTotal;
    assert stakeTotal * (poolTotal - tokens) == stakeTotal * poolTotal - tokens * stakeTotal;
  }

  /** Deposit then withdraw the minted tokens at once: the withdrawal succeeds and returns no more
      than went in. It returns all but less than one token's worth, (d - s - 1) * (P + t) < S, unless
      the pool has tokens but no stake: then a positive deposit is shared with the old tokens. */
  lemma DepositThenWithdraw(stakeTotal: u64, poolTotal: u64, d: u64, t: u64)
    requires CalcPoolDepositAmount(stakeTotal, poolTotal, d) == Some(t)
    requires stakeTotal + d < U64_RANGE && 0 < poolTotal + t < U64_RANGE
    ensures CalcLamportsAmount(stakeTotal + d, poolTotal + t, t).Some?
    ensures var s := CalcLamportsAmount(stakeTotal + d, poolTotal + t, t).value;
            && s <= d
            && ((d - s - 1) * (poolTotal + t) < stakeTotal <==> stakeTotal > 0 || poolTotal == 0 || d == 0)
  {
    var (S, P) := (stakeTotal, poolTotal);
    if S > 0 {
      Floor(d, P, S);
    }
    Floor(t, S + d, P + t);
    var s := t * (S + d) / (P + t);
    ReturnedAtMostDeposited(S, P, d, t, s);
    if S > 0 {
      RoundTripLoss(S, P, d, t, s);
    } else {
      RoundTripOfEmptyStake(P, d, s);
    }
  }

  lemma ReturnedAtMostDeposited(S: nat, P: nat, d: nat, t: nat, s: nat)
    requires 0 < P + t && s * (P + t) <= t * (S + d)
    requires if S > 0 then t * S <= d * P else t == d
    ensures s <= d
  {
    assert t * (S + d) == t * S + t * d;
    assert d * (P + t) == d * P + d * t;
    assert S == 0 ==> t * S == 0;
    Cancel(s, d, P + t);
  }

  lemma RoundTripLoss(S: nat, P: nat, d: nat, t: nat, s: nat)
    requires 0 < P + t && S > 0
    requires d * P < t * S + S && t * (S + d) < s * (P + t) + (P + t)
    ensures (d - s - 1) * (P + t) < S
  {
    assert (d - s - 1) * (P + t) == d * P + d * t - s * (P + t) - (P + t);
    assert t * (S + d) == t * S + t * d;
  }

  lemma MulLess(a: nat, b: nat, d: nat)
    requires a * d < b * d
    ensures a < b
  {
    if a >= b {
      MulMono(b, a, d);
      assert false;
    }
  }

  /** With no stake, `d` tokens are minted for `d` lamports, and `s = d * d / (P + d)` come back. */
  lemma RoundTripOfEmptyStake(P: nat, d: nat, s: nat)
    requires 0 < P + d && s * (P + d) <= d * d < s * (P + d) + (P + d)
    ensures (d - s - 1) * (P + d) < 0 <==> P == 0 || d == 0
  {
    NegativeProduct(d - s - 1, P + d);
    if P == 0 {
      Cancel(d, s, d);
    } else if d > 0 {
      MulMono(d, P + d - 1, d);
      assert d * (P + d) == d * (P + d - 1) + d;
      MulLess(s, d, P + d);
    }
  }

  lemma NegativeProduct(x: int, n: nat)
    requires n > 0
    ensures x * n < 0 <==> x < 0
  {
    if x < 0 {
      MulMono(1, -x, n);
      assert x * n == -((-x) * n);
    } else {
      MulMono(0, x, n);
    }
  }

  // ---------- the liquidity pool ----------

  /** Selling `stsol` for its value minus a fee never lowers the liquidity pool's worth at the pool
      price, and at least the fee stays in; a fee of at most one cannot exceed the value. */
  lemma SellKeepsWorth(stakeTotal: u64, poolTotal: u64, stsol: u64, feeNumerator: u64, feeDenominator: u64,
                       wsolHeld: nat, stsolHeld: nat)
    requires feeNumerator <= feeDenominator
    requires Proportional(stsol, stakeTotal, poolTotal).Some?
    ensures Proportional(Proportional(stsol, stakeTotal, poolTotal).value, feeNumerator, feeDenominator).Some?
    ensures var value := Proportional(stsol, stakeTotal, poolTotal).value;
            var fee := Proportional(value, feeNumerator, feeDenominator).value;
            && fee <= value
            && (wsolHeld - (value - fee)) * poolTotal + (stsolHeld + stsol) * stakeTotal
               >= wsolHeld * poolTotal + stsolHeld * stakeTotal + fee * poolTotal
  {
    var value := Proportional(stsol, stakeTotal, poolTotal).value;
    if feeDenominator > 0 {
      Floor(value, feeNumerator, feeDenominator);
      WithinWhole(value, feeNumerator, feeDenominator);
    }
    var fee := Proportional(value, feeNumerator, feeDenominator).value;
    if poolTotal > 0 {
      Floor(stsol, stakeTotal, poolTotal);
    }
    assert value * poolTotal <= stsol * stakeTotal;
    assert (wsolHeld - (value - fee)) * poolTotal == wsolHeld * poolTotal - value * poolTotal + fee * poolTotal;
    assert (stsolHeld + stsol) * stakeTotal == stsolHeld * stakeTotal + stsol * stakeTotal;
  }

  lemma WithinWhole(amount: u64, numerator: u64, denominator: u64)
    requires numerator <= denominator && denominator > 0
    ensures amount * numerator / denominator <= amount
  {
    Floor(amount, numerator, denominator);
    MulMono(numerator, denominator, amount);
    Cancel(amount * numerator / denominator, amount, denominator);
  }

  /** Adding `value` to a pool worth `totalValue` for the shares it buys lowers no share's worth, and
      the new shares are worth no more than was paid for them. */
  lemma AddLiquidityKeepsWorth(value: u64, totalValue: u64, totalShares: u64)
    requires SharesFromValue(value, totalValue, totalShares).Some?
    ensures var shares := SharesFromValue(value, totalValue, totalShares).value;
            && (totalValue + value) * totalShares >= totalValue * (totalShares + shares)
            && (totalValue + value < U64_RANGE && totalShares + shares < U64_RANGE ==>
                  var worth := ValueFromShares(shares, totalValue + value, totalShares + shares);
                  worth.Some? && worth.value <= value)
  {
    var shares := SharesFromValue(value, totalValue, totalShares).value;
    if totalValue > 0 {
      Floor(value, totalShares, totalValue);
    }
    assert totalValue * shares <= value * totalShares;
    assert (totalValue + value) * totalShares == totalValue * totalShares + value * totalShares;
    if totalValue + value < U64_RANGE && totalShares + shares < U64_RANGE {
      BoughtWorthAtMost(value, totalValue, totalShares, shares);
    }
  }

  lemma BoughtWorthAtMost(value: u64, totalValue: u64, totalShares: u64, shares: u64)
    requires totalValue * shares <= value * totalShares
    requires totalValue + value < U64_RANGE && totalShares + shares < U64_RANGE
    ensures var worth := ValueFromShares(shares, totalValue + value, totalShares + shares);
            worth.Some? && worth.value <= value
  {
    if totalShares + shares > 0 {
      var (W, L) := (totalValue + value, totalShares + shares);
      Floor(shares, W, L);
      assert shares * W == shares * totalValue + shares * value;
      assert value * L == value * totalShares + value * shares;
      Cancel(shares * W / L, value, L);
    }
  }
}
