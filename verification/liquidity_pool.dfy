/** The wSOL/stSOL liquidity pool (program/src/processor.rs). The handlers do not check which accounts
    they are given, and price an addition on the wSOL alone although shares own both sides; so the
    results are about a fixed pool and an arbitrary instruction, and say exactly when an addition or a
    sale takes value from those who already hold shares. */
module LiquidityPool {
  import opened Basics
  import opened TokenState
  import opened TokenSpec
  import opened TokenRuns
  import opened TokenEffects
  import opened PoolMath
  import opened PoolSpec
  import opened PoolSafety

  /** A liquidity pool: its wSOL and stSOL accounts, and the mint of its shares. */
  datatype Liquidity = Liquidity(wsol: Pubkey, stsol: Pubkey, shares: Pubkey)

  // ---------- the worth of a pool ----------

  /** An amount at a price. */
  function Value(amount: nat, price: nat): nat {
    amount * price
  }

  /** The worth of a token in an account of the pool at the stake pool's price, times the pool token
      total; other accounts are worth nothing to the pool. */
  function Price(p: StakePool, pool: Liquidity, account: Pubkey): nat {
    if account == pool.wsol then p.poolTotal
    else if account == pool.stsol then p.stakeTotal
    else 0
  }

  function WorthOf(p: StakePool, wsol: nat, stsol: nat): nat {
    Value(wsol, p.poolTotal) + Value(stsol, p.stakeTotal)
  }

  /** The worth of a pool: what its two accounts hold, each at its price. */
  function Worth(s: State, pool: Liquidity): nat {
    WorthOf(s.pool, Amount(s.ledger, pool.wsol), Amount(s.ledger, pool.stsol))
  }

  /** What moving `amount` into or out of `account` changes in the pool's worth, account by account. */
  lemma Priced(p: StakePool, pool: Liquidity, account: Pubkey, amount: nat)
    requires pool.wsol != pool.stsol
    ensures IfSame(pool.wsol, account, amount) * p.poolTotal + IfSame(pool.stsol, account, amount) * p.stakeTotal
            == Value(amount, Price(p, pool, account))
  {
  }

  lemma Spread(a: int, b: int, c: int, d: int, e: int, price: int)
    ensures (a + b - c + d - e) * price == a * price + b * price - c * price + d * price - e * price
  {
  }

  /** Two movements, of `x` from `out` to `into` and of `y` from `out'` to `into'`, change a pool's worth
      by their value at the prices of the accounts they name. */
  lemma WorthMoved(p: StakePool, pool: Liquidity, wsol: nat, stsol: nat, wsol': nat, stsol': nat,
                   into: Pubkey, out: Pubkey, x: nat, into': Pubkey, out': Pubkey, y: nat, y': nat)
    requires pool.wsol != pool.stsol
    requires wsol' == wsol + IfSame(pool.wsol, into, x) - IfSame(pool.wsol, out, x)
                      + IfSame(pool.wsol, into', y) - IfSame(pool.wsol, out', y')
    requires stsol' == stsol + IfSame(pool.stsol, into, x) - IfSame(pool.stsol, out, x)
                       + IfSame(pool.stsol, into', y) - IfSame(pool.stsol, out', y')
    ensures WorthOf(p, wsol', stsol')
            == WorthOf(p, wsol, stsol) + Value(x, Price(p, pool, into)) - Value(x, Price(p, pool, out))
               + Value(y, Price(p, pool, into')) - Value(y', Price(p, pool, out'))
  {
    Spread(wsol, IfSame(pool.wsol, into, x), IfSame(pool.wsol, out, x), IfSame(pool.wsol, into', y),
           IfSame(pool.wsol, out', y'), p.poolTotal);
    Spread(stsol, IfSame(pool.stsol, into, x), IfSame(pool.stsol, out, x), IfSame(pool.stsol, into', y),
           IfSame(pool.stsol, out', y'), p.stakeTotal);
    Priced(p, pool, into, x);
    Priced(p, pool, out, x);
    Priced(p, pool, into', y);
    Priced(p, pool, out', y');
  }

  // ---------- selling stSOL ----------

  /** What the sold tokens are worth, and the fee on it. */
  function SaleValue(s: State, i: PoolInstruction): u64
    requires i.SellStSol? && ExecuteSpec(s, i).Ok?
  {
    Proportional(i.stsolAmount, s.pool.stakeTotal, s.pool.poolTotal).value
  }

  function SaleFee(s: State, i: PoolInstruction): u64
    requires i.SellStSol? && ExecuteSpec(s, i).Ok?
  {
    Proportional(SaleValue(s, i), s.pool.fee.numerator, s.pool.fee.denominator).value
  }

  lemma SaleComputes(s: State, i: PoolInstruction)
    requires i.SellStSol? && ExecuteSpec(s, i).Ok?
    ensures Proportional(i.stsolAmount, s.pool.stakeTotal, s.pool.poolTotal) == Some(SaleValue(s, i))
    ensures Proportional(SaleValue(s, i), s.pool.fee.numerator, s.pool.fee.denominator) == Some(SaleFee(s, i))
    ensures s.pool.version > 0
  {
  }

  /** What the sold tokens are worth at the pool price, and the fee on it, each rounded down: with no
      pool tokens a lamport each, and a fee without denominator is the whole value. */
  lemma SaleIsPriced(s: State, i: PoolInstruction)
    requires i.SellStSol? && ExecuteSpec(s, i).Ok?
    ensures if s.pool.poolTotal == 0 then SaleValue(s, i) == i.stsolAmount
            else RoundedDown(SaleValue(s, i), i.stsolAmount, s.pool.stakeTotal, s.pool.poolTotal)
    ensures if s.pool.fee.denominator == 0 then SaleFee(s, i) == SaleValue(s, i)
            else RoundedDown(SaleFee(s, i), SaleValue(s, i), s.pool.fee.numerator, s.pool.fee.denominator)
  {
    SaleComputes(s, i);
    ProportionalExact(i.stsolAmount, s.pool.stakeTotal, s.pool.poolTotal, SaleValue(s, i));
    ProportionalExact(SaleValue(s, i), s.pool.fee.numerator, s.pool.fee.denominator, SaleFee(s, i));
  }

  lemma SaleArithmetic(p: StakePool, stsol: u64, value: u64, fee: u64, wsol: nat, held: nat, wsol': int, held': nat)
    requires Proportional(stsol, p.stakeTotal, p.poolTotal) == Some(value)
    requires Proportional(value, p.fee.numerator, p.fee.denominator) == Some(fee) && p.fee.numerator <= p.fee.denominator
    requires wsol' == wsol - value + fee && held' == held + stsol
    ensures fee <= value
    ensures wsol' * p.poolTotal + held' * p.stakeTotal
            >= wsol * p.poolTotal + held * p.stakeTotal + fee * p.poolTotal
            >= wsol * p.poolTotal + held * p.stakeTotal
  {
    SellKeepsWorth(p.stakeTotal, p.poolTotal, stsol, p.fee.numerator, p.fee.denominator, wsol, held);
    MulMono(0, fee, p.poolTotal);
  }

  /** The fee is at most the value, because Initialize checked it; so their difference does not wrap. */
  lemma FeeWithinValue(s: State, i: PoolInstruction)
    requires ListOk(s) && i.SellStSol? && ExecuteSpec(s, i).Ok?
    ensures SaleFee(s, i) <= SaleValue(s, i)
  {
    SaleComputes(s, i);
    SaleArithmetic(s.pool, i.stsolAmount, SaleValue(s, i), SaleFee(s, i), 0, 0,
                   SaleFee(s, i) - SaleValue(s, i), i.stsolAmount);
  }

  /** What the seller is paid. */
  function SalePaid(s: State, i: PoolInstruction): u64
    requires ListOk(s) && i.SellStSol? && ExecuteSpec(s, i).Ok?
  {
    FeeWithinValue(s, i);
    SaleValue(s, i) - SaleFee(s, i)
  }

  /** The two transfers of a sale, between whatever accounts it names. */
  lemma SaleTransfers(s: State, i: PoolInstruction) returns (received: Ledger)
    requires ListOk(s) && i.SellStSol? && ExecuteSpec(s, i).Ok?
    ensures TransferSpec(s.ledger, [AccountMeta(i.userStsol, false), AccountMeta(i.poolStsol, false), i.userAuthority],
                         i.stsolAmount, None) == Ok(received)
    ensures TransferSpec(received, [AccountMeta(i.poolWsol, false), AccountMeta(i.userWsol, false),
                                    AccountMeta(s.authorities.liquidity, true)], SalePaid(s, i), None)
            == Ok(ExecuteSpec(s, i).value.ledger)
    ensures ExecuteSpec(s, i).value.pool == s.pool
  {
    var value, fee;
    received, value, fee := SellCalls(s, i);
    FeeWithinValue(s, i);
  }

  predicate IsTokenAccount(l: Ledger, key: Pubkey, mint: Pubkey) {
    IsAccount(Load(l, key)) && l[key].record.account.mint == mint
  }

  /** Two stSOL accounts of the pool's mint and two accounts of one other mint, the pool's with as much
      wSOL as the stSOL sold. */
  predicate SaleAccounts(s: State, i: PoolInstruction)
    requires i.SellStSol?
  {
    && IsTokenAccount(s.ledger, i.poolStsol, s.pool.poolMint) && IsTokenAccount(s.ledger, i.userStsol, s.pool.poolMint)
    && IsAccount(Load(s.ledger, i.poolWsol)) && IsTokenAccount(s.ledger, i.userWsol, s.ledger[i.poolWsol].record.account.mint)
    && i.stsolAmount <= Amount(s.ledger, i.poolWsol)
  }

  function Received(s: State, i: PoolInstruction): Result<Ledger>
    requires i.SellStSol?
  {
    TransferSpec(s.ledger, [AccountMeta(i.userStsol, false), AccountMeta(i.poolStsol, false), i.userAuthority], i.stsolAmount, None)
  }

  predicate PaymentAllowed(s: State, i: PoolInstruction, received: Ledger, value: u64, fee: u64)
    requires i.SellStSol?
  {
    && Proportional(i.stsolAmount, s.pool.stakeTotal, s.pool.poolTotal) == Some(value)
    && Proportional(value, s.pool.fee.numerator, s.pool.fee.denominator) == Some(fee)
    && TransferAllowed(received, i.poolWsol, i.userWsol, AccountMeta(s.authorities.liquidity, true), [], WrapSub(value, fee))
  }

  lemma SaleReceives(s: State, i: PoolInstruction)
    requires i.SellStSol?
    ensures Received(s, i).Ok? <==> TransferAllowed(s.ledger, i.userStsol, i.poolStsol, i.userAuthority, [], i.stsolAmount)
  {
    var accounts := [AccountMeta(i.userStsol, false), AccountMeta(i.poolStsol, false), i.userAuthority];
    assert accounts[3..] == [];
    TransferSucceedsIff(s.ledger, accounts, i.stsolAmount, None);
  }

  function Payment(s: State, i: PoolInstruction, received: Ledger, paid: u64): Result<Ledger>
    requires i.SellStSol?
  {
    TransferSpec(received, [AccountMeta(i.poolWsol, false), AccountMeta(i.userWsol, false),
                            AccountMeta(s.authorities.liquidity, true)], paid, None)
  }

  lemma SaleEndsInPayment(s: State, i: PoolInstruction, received: Ledger, value: u64, fee: u64)
    requires i.SellStSol? && s.pool.version > 0 && i.stsolAmount > 0 && SaleAccounts(s, i) && Received(s, i) == Ok(received)
    requires Proportional(i.stsolAmount, s.pool.stakeTotal, s.pool.poolTotal) == Some(value)
    requires Proportional(value, s.pool.fee.numerator, s.pool.fee.denominator) == Some(fee)
    ensures ExecuteSpec(s, i).Ok? <==> Payment(s, i, received, WrapSub(value, fee)).Ok?
  {
  }

  lemma PaymentSucceedsIff(s: State, i: PoolInstruction, received: Ledger, paid: u64)
    requires i.SellStSol?
    ensures Payment(s, i, received, paid).Ok? <==>
              TransferAllowed(received, i.poolWsol, i.userWsol, AccountMeta(s.authorities.liquidity, true), [], paid)
  {
    var accounts := [AccountMeta(i.poolWsol, false), AccountMeta(i.userWsol, false), AccountMeta(s.authorities.liquidity, true)];
    assert accounts[3..] == [];
    TransferSucceedsIff(received, accounts, paid, None);
  }

  lemma SalePays(s: State, i: PoolInstruction, received: Ledger, value: u64, fee: u64)
    requires i.SellStSol? && s.pool.version > 0 && i.stsolAmount > 0 && SaleAccounts(s, i) && Received(s, i) == Ok(received)
    requires Proportional(i.stsolAmount, s.pool.stakeTotal, s.pool.poolTotal) == Some(value)
    requires Proportional(value, s.pool.fee.numerator, s.pool.fee.denominator) == Some(fee)
    ensures ExecuteSpec(s, i).Ok? <==> PaymentAllowed(s, i, received, value, fee)
  {
    SaleEndsInPayment(s, i, received, value, fee);
    PaymentSucceedsIff(s, i, received, WrapSub(value, fee));
  }

  /** A sale succeeds exactly between such accounts when both transfers are allowed, the second on the
      ledger that the first leaves. */
  lemma SellSucceedsIff(s: State, i: PoolInstruction)
    requires i.SellStSol?
    ensures ExecuteSpec(s, i).Ok? <==>
              && i.stsolAmount > 0 && s.pool.version > 0 && SaleAccounts(s, i)
              && TransferAllowed(s.ledger, i.userStsol, i.poolStsol, i.userAuthority, [], i.stsolAmount)
              && exists received, value, fee :: Received(s, i) == Ok(received) && PaymentAllowed(s, i, received, value, fee)
    ensures ExecuteSpec(s, i).Ok? ==> ExecuteSpec(s, i).value == s.(ledger := ExecuteSpec(s, i).value.ledger)
  {
    SaleReceives(s, i);
    if ExecuteSpec(s, i).Ok? {
      var received, value, fee := SellCalls(s, i);
      SalePays(s, i, received, value, fee);
    } else if i.stsolAmount > 0 && s.pool.version > 0 && SaleAccounts(s, i) {
      forall received, value, fee | Received(s, i) == Ok(received)
        ensures !PaymentAllowed(s, i, received, value, fee)
      {
        if PaymentAllowed(s, i, received, value, fee) {
          SalePays(s, i, received, value, fee);
        }
      }
    }
  }

  /** What a sale moves, whatever accounts it names: the stSOL sold into the account passed as the
      pool's, and the payment out of the one passed as its wSOL account. */
  lemma SaleMoves(s: State, i: PoolInstruction)
    requires ListOk(s) && i.SellStSol? && ExecuteSpec(s, i).Ok?
    ensures ExecuteSpec(s, i).value.pool == s.pool
    ensures var l' := ExecuteSpec(s, i).value.ledger;
            forall k :: Amount(l', k) == Amount(s.ledger, k) + IfSame(k, i.poolStsol, i.stsolAmount) - IfSame(k, i.userStsol, i.stsolAmount)
                                         + IfSame(k, i.userWsol, SalePaid(s, i)) - IfSame(k, i.poolWsol, SalePaid(s, i))
    ensures forall k :: Supply(ExecuteSpec(s, i).value.ledger, k) == Supply(s.ledger, k)
  {
    var received := SaleTransfers(s, i);
    var l' := ExecuteSpec(s, i).value.ledger;
    TransferAmounts(s.ledger, i.userStsol, i.poolStsol, i.userAuthority, i.stsolAmount, received);
    TransferAmounts(received, i.poolWsol, i.userWsol, AccountMeta(s.authorities.liquidity, true), SalePaid(s, i), l');
    forall k
      ensures Amount(l', k) == Amount(s.ledger, k) + IfSame(k, i.poolStsol, i.stsolAmount) - IfSame(k, i.userStsol, i.stsolAmount)
                               + IfSame(k, i.userWsol, SalePaid(s, i)) - IfSame(k, i.poolWsol, SalePaid(s, i))
    {
      assert Amount(received, k) == Amount(s.ledger, k) + IfSame(k, i.poolStsol, i.stsolAmount) - IfSame(k, i.userStsol, i.stsolAmount);
    }
  }

  /** The seller gets exactly value minus fee for exactly the stSOL sold. */
  lemma SellMoves(s: State, i: PoolInstruction)
    requires ListOk(s) && i.SellStSol? && ExecuteSpec(s, i).Ok?
    requires i.userStsol != i.poolStsol && i.userWsol != i.poolWsol
    requires i.userStsol != i.userWsol && i.poolStsol != i.userWsol && i.userStsol != i.poolWsol
    ensures var l' := ExecuteSpec(s, i).value.ledger;
            && Amount(l', i.userWsol) == Amount(s.ledger, i.userWsol) + SalePaid(s, i)
            && Amount(l', i.userStsol) == Amount(s.ledger, i.userStsol) - i.stsolAmount
  {
    SaleMoves(s, i);
  }

  /** What a sale gives a pool and takes from it, at the pool's prices. */
  function SaleGiven(s: State, i: PoolInstruction, pool: Liquidity): nat
    requires ListOk(s) && i.SellStSol? && ExecuteSpec(s, i).Ok?
  {
    Value(i.stsolAmount, Price(s.pool, pool, i.poolStsol)) + Value(SalePaid(s, i), Price(s.pool, pool, i.userWsol))
  }

  function SaleTaken(s: State, i: PoolInstruction, pool: Liquidity): nat
    requires ListOk(s) && i.SellStSol? && ExecuteSpec(s, i).Ok?
  {
    Value(i.stsolAmount, Price(s.pool, pool, i.userStsol)) + Value(SalePaid(s, i), Price(s.pool, pool, i.poolWsol))
  }

  /** A sale changes a pool's worth by exactly what it gives less what it takes. */
  lemma SaleWorth(s: State, i: PoolInstruction, pool: Liquidity)
    requires ListOk(s) && i.SellStSol? && ExecuteSpec(s, i).Ok? && pool.wsol != pool.stsol
    ensures Worth(ExecuteSpec(s, i).value, pool) == Worth(s, pool) + SaleGiven(s, i, pool) - SaleTaken(s, i, pool)
  {
    SaleMoves(s, i);
    var l' := ExecuteSpec(s, i).value.ledger;
    WorthMoved(s.pool, pool, Amount(s.ledger, pool.wsol), Amount(s.ledger, pool.stsol), Amount(l', pool.wsol),
               Amount(l', pool.stsol), i.poolStsol, i.userStsol, i.stsolAmount, i.userWsol, i.poolWsol, SalePaid(s, i), SalePaid(s, i));
  }

  /** What a sale takes from the pool is covered by what it gives. */
  predicate SaleCovers(s: State, i: PoolInstruction, pool: Liquidity)
    requires ListOk(s) && i.SellStSol? && ExecuteSpec(s, i).Ok?
  {
    SaleTaken(s, i, pool) <= SaleGiven(s, i, pool)
  }

  /** The same for a user whose accounts are not the pool's, by the two accounts passed as the pool's,
      for `paid` against `sold`: a sale between its own accounts always covers, as does one that takes
      nothing from it; one that takes and gives the same side covers a payment within the amount sold;
      one that gives nothing covers a payment worth nothing; and one that takes stSOL for wSOL must pay
      for it. */
  predicate SaleGuard(p: StakePool, pool: Liquidity, passedWsol: Pubkey, passedStsol: Pubkey, sold: nat, paid: nat) {
    if passedWsol == pool.wsol then
      if passedStsol == pool.stsol then true
      else if passedStsol == pool.wsol then paid <= sold || p.poolTotal == 0
      else paid == 0 || p.poolTotal == 0
    else if passedWsol == pool.stsol then
      if passedStsol == pool.stsol then paid <= sold || p.stakeTotal == 0
      else if passedStsol == pool.wsol then paid * p.stakeTotal <= sold * p.poolTotal
      else paid == 0 || p.stakeTotal == 0
    else true
  }

  predicate UserApart(i: PoolInstruction, pool: Liquidity)
    requires i.SellStSol? || i.AddLiquidity?
  {
    {i.userWsol, if i.SellStSol? then i.userStsol else i.userLp} !! {pool.wsol, pool.stsol}
  }

  lemma Compare(a: nat, b: nat, price: nat)
    ensures Value(a, price) <= Value(b, price) <==> a <= b || price == 0
  {
    if a <= b {
      MulMono(a, b, price);
    } else {
      MulMono(b + 1, a, price);
    }
  }

  lemma SaleGuards(p: StakePool, pool: Liquidity, passedWsol: Pubkey, passedStsol: Pubkey, sold: nat, paid: nat)
    requires pool.wsol != pool.stsol && Value(paid, p.poolTotal) <= Value(sold, p.stakeTotal)
    ensures Value(paid, Price(p, pool, passedWsol)) <= Value(sold, Price(p, pool, passedStsol))
            <==> SaleGuard(p, pool, passedWsol, passedStsol, sold, paid)
  {
    Compare(paid, sold, p.poolTotal);
    Compare(paid, sold, p.stakeTotal);
    Compare(paid, 0, p.poolTotal);
    Compare(paid, 0, p.stakeTotal);
  }

  /** A user whose accounts are not the pool's neither gives to it nor takes from it by them. */
  lemma ApartSale(s: State, i: PoolInstruction, pool: Liquidity)
    requires ListOk(s) && i.SellStSol? && ExecuteSpec(s, i).Ok? && UserApart(i, pool)
    ensures SaleGiven(s, i, pool) == Value(i.stsolAmount, Price(s.pool, pool, i.poolStsol))
    ensures SaleTaken(s, i, pool) == Value(SalePaid(s, i), Price(s.pool, pool, i.poolWsol))
  {
    assert Price(s.pool, pool, i.userWsol) == 0 && Price(s.pool, pool, i.userStsol) == 0;
  }

  lemma SaleCoversByGuard(s: State, i: PoolInstruction, pool: Liquidity)
    requires ListOk(s) && i.SellStSol? && ExecuteSpec(s, i).Ok? && pool.wsol != pool.stsol && UserApart(i, pool)
    ensures SaleCovers(s, i, pool) <==> SaleGuard(s.pool, pool, i.poolWsol, i.poolStsol, i.stsolAmount, SalePaid(s, i))
  {
    OwnSaleCovers(s, i);
    ApartSale(s, i, pool);
    SaleGuards(s.pool, pool, i.poolWsol, i.poolStsol, i.stsolAmount, SalePaid(s, i));
  }

  /** What is paid for sold stSOL is worth at most the stSOL, by at least the fee. */
  lemma OwnSaleCovers(s: State, i: PoolInstruction)
    requires ListOk(s) && i.SellStSol? && ExecuteSpec(s, i).Ok?
    ensures Value(SalePaid(s, i), s.pool.poolTotal) + Value(SaleFee(s, i), s.pool.poolTotal)
            <= Value(i.stsolAmount, s.pool.stakeTotal)
  {
    SaleComputes(s, i);
    SaleArithmetic(s.pool, i.stsolAmount, SaleValue(s, i), SaleFee(s, i), SalePaid(s, i), 0, 0, i.stsolAmount);
  }

  /** A sale keeps a fixed pool's worth if and only if it covers what it takes, whatever accounts it
      names. */
  lemma SaleKeepsWorthIff(s: State, i: PoolInstruction, pool: Liquidity)
    requires ListOk(s) && i.SellStSol? && ExecuteSpec(s, i).Ok? && pool.wsol != pool.stsol
    ensures Worth(ExecuteSpec(s, i).value, pool) >= Worth(s, pool) <==> SaleCovers(s, i, pool)
    ensures UserApart(i, pool) ==>
              (SaleCovers(s, i, pool) <==> SaleGuard(s.pool, pool, i.poolWsol, i.poolStsol, i.stsolAmount, SalePaid(s, i)))
  {
    SaleWorth(s, i, pool);
    if UserApart(i, pool) {
      SaleCoversByGuard(s, i, pool);
    }
  }

  /** A sale between the pool's own accounts raises its worth by at least the fee. */
  lemma OwnSaleGains(s: State, i: PoolInstruction, pool: Liquidity)
    requires ListOk(s) && i.SellStSol? && ExecuteSpec(s, i).Ok?
    requires UserApart(i, pool) && pool.wsol == i.poolWsol != pool.stsol == i.poolStsol
    ensures Worth(ExecuteSpec(s, i).value, pool) >= Worth(s, pool) + Value(SaleFee(s, i), s.pool.poolTotal)
  {
    SaleWorth(s, i, pool);
    ApartSale(s, i, pool);
    OwnSaleCovers(s, i);
  }

  /** On every run from the start a sale between a pool's own accounts raises its worth by at least the
      fee, since Initialize fixed a fee of at most one for good. */
  lemma OwnSaleKeepsWorthOnEveryRun(w: World, steps: seq<Step>, i: PoolInstruction, pool: Liquidity)
    requires Genesis(w) && i.SellStSol? && ExecuteSpec(RunAll(w, steps).state, i).Ok?
    requires UserApart(i, pool) && pool.wsol == i.poolWsol != pool.stsol == i.poolStsol
    ensures var s := RunAll(w, steps).state;
            && SaleFee(s, i) <= SaleValue(s, i)
            && Worth(ExecuteSpec(s, i).value, pool) >= Worth(s, pool) + Value(SaleFee(s, i), s.pool.poolTotal)
  {
    ListOnEveryRun(w, steps);
    FeeWithinValue(RunAll(w, steps).state, i);
    OwnSaleGains(RunAll(w, steps).state, i, pool);
  }

  // ---------- adding liquidity ----------

  /** The shares an addition mints. */
  function SharesMinted(s: State, i: PoolInstruction): u64
    requires i.AddLiquidity? && ExecuteSpec(s, i).Ok?
  {
    SharesFromValue(i.wsolAmount, Amount(s.ledger, i.poolWsol), Supply(s.ledger, i.lpMint)).value
  }

  /** What an addition moves, whatever accounts it names: the wSOL into the account passed as the
      pool's, and the shares into the user's. */
  lemma AdditionMoves(s: State, i: PoolInstruction)
    requires i.AddLiquidity? && ExecuteSpec(s, i).Ok?
    ensures ExecuteSpec(s, i).value.pool == s.pool
    ensures SharesFromValue(i.wsolAmount, Amount(s.ledger, i.poolWsol), Supply(s.ledger, i.lpMint)) == Some(SharesMinted(s, i))
    ensures var l' := ExecuteSpec(s, i).value.ledger;
            forall k :: Amount(l', k) == Amount(s.ledger, k) + IfSame(k, i.poolWsol, i.wsolAmount) - IfSame(k, i.userWsol, i.wsolAmount)
                                         + IfSame(k, i.userLp, SharesMinted(s, i))
    ensures forall k :: Supply(ExecuteSpec(s, i).value.ledger, k) == Supply(s.ledger, k) + IfSame(k, i.lpMint, SharesMinted(s, i))
  {
    var paid, shares := AddLiquidityCalls(s, i);
    var l' := ExecuteSpec(s, i).value.ledger;
    TransferAmounts(s.ledger, i.userWsol, i.poolWsol, i.userAuthority, i.wsolAmount, paid);
    MintAmounts(paid, i.lpMint, i.userLp, AccountMeta(s.authorities.liquidity, true), shares, l');
    forall k
      ensures Amount(l', k) == Amount(s.ledger, k) + IfSame(k, i.poolWsol, i.wsolAmount) - IfSame(k, i.userWsol, i.wsolAmount)
                               + IfSame(k, i.userLp, shares)
    {
      assert Amount(paid, k) == Amount(s.ledger, k) + IfSame(k, i.poolWsol, i.wsolAmount) - IfSame(k, i.userWsol, i.wsolAmount);
    }
  }

  /** An addition succeeds exactly when the transfer is allowed and, on the ledger that leaves, the mint
      of the shares that the wSOL and the supply before it buy. */
  lemma AddLiquiditySucceedsIff(s: State, i: PoolInstruction)
    requires i.AddLiquidity?
    ensures var accounts := [AccountMeta(i.userWsol, false), AccountMeta(i.poolWsol, false), i.userAuthority];
            var paid := TransferSpec(s.ledger, accounts, i.wsolAmount, None);
            var shares := SharesFromValue(i.wsolAmount, Amount(s.ledger, i.poolWsol), Supply(s.ledger, i.lpMint));
            ExecuteSpec(s, i).Ok? <==>
              && i.wsolAmount > 0 && IsMint(Load(s.ledger, i.lpMint))
              && TransferAllowed(s.ledger, i.userWsol, i.poolWsol, i.userAuthority, [], i.wsolAmount)
              && shares.Some? && paid.Ok?
              && MintToAllowed(paid.value, i.lpMint, i.userLp, AccountMeta(s.authorities.liquidity, true), [], shares.value)
    ensures ExecuteSpec(s, i).Ok? ==> ExecuteSpec(s, i).value == s.(ledger := ExecuteSpec(s, i).value.ledger)
  {
    var accounts := [AccountMeta(i.userWsol, false), AccountMeta(i.poolWsol, false), i.userAuthority];
    assert accounts[3..] == [];
    TransferSucceedsIff(s.ledger, accounts, i.wsolAmount, None);
    var paid := TransferSpec(s.ledger, accounts, i.wsolAmount, None);
    var shares := SharesFromValue(i.wsolAmount, Amount(s.ledger, i.poolWsol), Supply(s.ledger, i.lpMint));
    if paid.Ok? && shares.Some? {
      var mintAccounts := [AccountMeta(i.lpMint, false), AccountMeta(i.userLp, false), AccountMeta(s.authorities.liquidity, true)];
      assert mintAccounts[3..] == [];
      MintToSucceedsIff(paid.value, mintAccounts, shares.value, None);
    }
  }

  /** The first wSOL into an account buys as many shares; after that, the account's share of the supply,
      rounded down. */
  lemma SharesArePriced(s: State, i: PoolInstruction)
    requires i.AddLiquidity? && ExecuteSpec(s, i).Ok?
    ensures var wsol := Amount(s.ledger, i.poolWsol);
            if wsol == 0 then SharesMinted(s, i) == i.wsolAmount
            else RoundedDown(SharesMinted(s, i), i.wsolAmount, Supply(s.ledger, i.lpMint), wsol)
  {
    AdditionMoves(s, i);
    ProportionalExact(i.wsolAmount, Supply(s.ledger, i.lpMint), Amount(s.ledger, i.poolWsol), SharesMinted(s, i));
  }

  /** From a pool of `worth` for `shares` to one of `worth'` for `shares'`, no share lost any. */
  predicate NoShareLoses(worth: nat, shares: nat, worth': nat, shares': nat) {
    worth' * shares >= worth * shares'
  }

  lemma Chain(w0: nat, l0: nat, w1: nat, l1: nat, w2: nat, l2: nat)
    requires l1 > 0 || (w0 <= w1 && l0 <= l1)
    requires NoShareLoses(w0, l0, w1, l1) && NoShareLoses(w1, l1, w2, l2)
    ensures NoShareLoses(w0, l0, w2, l2)
  {
    if l1 > 0 {
      MulMono(w0 * l1, w1 * l0, l2);
      MulMono(w1 * l2, w2 * l1, l0);
      assert (w0 * l2) * l1 == (w0 * l1) * l2;
      assert (w1 * l0) * l2 == (w1 * l2) * l0;
      assert (w2 * l0) * l1 == (w2 * l1) * l0;
      Cancel(w0 * l2, w2 * l0, l1);
    } else {
      MulMono(w0, w1, l2);
    }
  }

  // ---------- worth per share ----------

  /** What an addition adds to a pool's worth. */
  function AdditionGain(s: State, i: PoolInstruction, pool: Liquidity): int
    requires i.AddLiquidity? && ExecuteSpec(s, i).Ok?
  {
    Value(i.wsolAmount, Price(s.pool, pool, i.poolWsol)) - Value(i.wsolAmount, Price(s.pool, pool, i.userWsol))
    + Value(SharesMinted(s, i), Price(s.pool, pool, i.userLp))
  }

  lemma AdditionWorth(s: State, i: PoolInstruction, pool: Liquidity)
    requires i.AddLiquidity? && ExecuteSpec(s, i).Ok? && pool.wsol != pool.stsol
    ensures Worth(ExecuteSpec(s, i).value, pool) == Worth(s, pool) + AdditionGain(s, i, pool)
    ensures Supply(ExecuteSpec(s, i).value.ledger, pool.shares)
            == Supply(s.ledger, pool.shares) + IfSame(pool.shares, i.lpMint, SharesMinted(s, i))
  {
    AdditionMoves(s, i);
    var l' := ExecuteSpec(s, i).value.ledger;
    WorthMoved(s.pool, pool, Amount(s.ledger, pool.wsol), Amount(s.ledger, pool.stsol), Amount(l', pool.wsol),
               Amount(l', pool.stsol), i.poolWsol, i.userWsol, i.wsolAmount, i.userLp, i.userLp, SharesMinted(s, i), 0);
  }

  predicate WorthPerShareKept(s: State, s': State, pool: Liquidity) {
    NoShareLoses(Worth(s, pool), Supply(s.ledger, pool.shares), Worth(s', pool), Supply(s'.ledger, pool.shares))
  }

  /** `minted` new shares on top of `shares` worth `worth` are paid for by `gain`. */
  predicate PaidFor(worth: nat, shares: nat, gain: int, minted: nat) {
    worth * minted <= gain * shares
  }

  lemma Dilution(worth: nat, shares: nat, worth': nat, shares': nat, gain: int, minted: nat)
    requires worth' == worth + gain && shares' == shares + minted
    ensures NoShareLoses(worth, shares, worth', shares') <==> PaidFor(worth, shares, gain, minted)
  {
    assert worth' * shares == worth * shares + gain * shares;
    assert worth * shares' == worth * shares + worth * minted;
  }

  /** The shares an addition mints of this pool are paid for, at the worth of those there are. */
  predicate AdditionCovers(s: State, i: PoolInstruction, pool: Liquidity)
    requires i.AddLiquidity? && ExecuteSpec(s, i).Ok?
  {
    PaidFor(Worth(s, pool), Supply(s.ledger, pool.shares), AdditionGain(s, i, pool),
            IfSame(pool.shares, i.lpMint, SharesMinted(s, i)))
  }

  /** The same for a user whose accounts are not the pool's, by the account paid, for `minted` on top of
      `shares`. The shares minted for wSOL are paid for only as far as the rounding of their number
      covers their part of the stSOL; and likewise the other way round. */
  predicate AdditionGuard(p: StakePool, pool: Liquidity, passedWsol: Pubkey, wsol: nat, stsol: nat, paid: nat, shares: nat,
                          minted: nat)
  {
    if passedWsol == pool.wsol then
      minted * Value(stsol, p.stakeTotal) <= p.poolTotal * (paid * shares - wsol * minted)
    else if passedWsol == pool.stsol then
      minted * Value(wsol, p.poolTotal) <= p.stakeTotal * (paid * shares - stsol * minted)
    else
      minted == 0 || WorthOf(p, wsol, stsol) == 0
  }

  lemma OwnSide(minted: int, price: int, other: int, paid: int, shares: int, held: int)
    ensures (paid * price) * shares - (held * price + other) * minted
            == price * (paid * shares - held * minted) - minted * other
  {
    assert (paid * price) * shares == price * (paid * shares);
    assert (held * price + other) * minted == price * (held * minted) + minted * other;
    assert price * (paid * shares - held * minted) == price * (paid * shares) - price * (held * minted);
  }

  lemma AdditionGuards(p: StakePool, pool: Liquidity, passedWsol: Pubkey, wsol: nat, stsol: nat, paid: nat, shares: nat,
                       minted: nat)
    requires pool.wsol != pool.stsol
    ensures PaidFor(WorthOf(p, wsol, stsol), shares, Value(paid, Price(p, pool, passedWsol)), minted)
            <==> AdditionGuard(p, pool, passedWsol, wsol, stsol, paid, shares, minted)
  {
    if passedWsol == pool.wsol {
      OwnSide(minted, p.poolTotal, Value(stsol, p.stakeTotal), paid, shares, wsol);
    } else if passedWsol == pool.stsol {
      OwnSide(minted, p.stakeTotal, Value(wsol, p.poolTotal), paid, shares, stsol);
    } else {
      assert WorthOf(p, wsol, stsol) * minted == Value(WorthOf(p, wsol, stsol), minted);
      Compare(WorthOf(p, wsol, stsol), 0, minted);
    }
  }

  lemma AdditionCoversByGuard(s: State, i: PoolInstruction, pool: Liquidity)
    requires i.AddLiquidity? && ExecuteSpec(s, i).Ok? && pool.wsol != pool.stsol && UserApart(i, pool)
    ensures AdditionCovers(s, i, pool) <==> GuardedAddition(s, i, pool)
  {
    assert AdditionGain(s, i, pool) == Value(i.wsolAmount, Price(s.pool, pool, i.poolWsol)) by {
      assert Price(s.pool, pool, i.userWsol) == 0 && Price(s.pool, pool, i.userLp) == 0;
    }
    var gain: nat := Value(i.wsolAmount, Price(s.pool, pool, i.poolWsol));
    if i.lpMint == pool.shares {
      AdditionGuards(s.pool, pool, i.poolWsol, Amount(s.ledger, pool.wsol), Amount(s.ledger, pool.stsol), i.wsolAmount,
                     Supply(s.ledger, pool.shares), SharesMinted(s, i));
    } else {
      NothingMinted(Worth(s, pool), Supply(s.ledger, pool.shares), gain);
    }
  }

  lemma NothingMinted(worth: nat, shares: nat, gain: nat)
    ensures PaidFor(worth, shares, gain, 0)
  {
    MulMono(0, gain, shares);
  }

  /** An addition for other shares, or one that meets its guard. */
  predicate GuardedAddition(s: State, i: PoolInstruction, pool: Liquidity)
    requires i.AddLiquidity? && ExecuteSpec(s, i).Ok?
  {
    i.lpMint == pool.shares ==>
      AdditionGuard(s.pool, pool, i.poolWsol, Amount(s.ledger, pool.wsol), Amount(s.ledger, pool.stsol), i.wsolAmount,
                    Supply(s.ledger, pool.shares), SharesMinted(s, i))
  }

  /** An addition keeps the worth of each of a fixed pool's shares if and only if it covers those it
      mints, whatever accounts it names. */
  lemma AdditionKeepsWorthPerShareIff(s: State, i: PoolInstruction, pool: Liquidity)
    requires i.AddLiquidity? && ExecuteSpec(s, i).Ok? && pool.wsol != pool.stsol
    ensures WorthPerShareKept(s, ExecuteSpec(s, i).value, pool) <==> AdditionCovers(s, i, pool)
    ensures UserApart(i, pool) ==> (AdditionCovers(s, i, pool) <==> GuardedAddition(s, i, pool))
  {
    AdditionWorth(s, i, pool);
    var s' := ExecuteSpec(s, i).value;
    Dilution(Worth(s, pool), Supply(s.ledger, pool.shares), Worth(s', pool), Supply(s'.ledger, pool.shares),
             AdditionGain(s, i, pool), IfSame(pool.shares, i.lpMint, SharesMinted(s, i)));
    if UserApart(i, pool) {
      AdditionCoversByGuard(s, i, pool);
    }
  }

  /** What the new shares gain the old ones lose: they are worth at most what was paid for them, both
      sides of the pool counted, exactly when the old ones keep their worth. */
  lemma SharesCostTheirWorthIff(s: State, i: PoolInstruction, pool: Liquidity)
    requires i.AddLiquidity? && ExecuteSpec(s, i).Ok? && pool.wsol != pool.stsol
    ensures var s' := ExecuteSpec(s, i).value;
            Value(Worth(s', pool), IfSame(pool.shares, i.lpMint, SharesMinted(s, i)))
            <= AdditionGain(s, i, pool) * Supply(s'.ledger, pool.shares)
            <==> AdditionCovers(s, i, pool)
  {
    AdditionWorth(s, i, pool);
    var s' := ExecuteSpec(s, i).value;
    NewAndOld(Worth(s, pool), Supply(s.ledger, pool.shares), Worth(s', pool), Supply(s'.ledger, pool.shares),
              AdditionGain(s, i, pool), IfSame(pool.shares, i.lpMint, SharesMinted(s, i)));
  }

  lemma NewAndOld(worth: nat, shares: nat, worth': nat, shares': nat, gain: int, minted: nat)
    requires worth' == worth + gain && shares' == shares + minted
    ensures Value(worth', minted) <= gain * shares' <==> PaidFor(worth, shares, gain, minted)
  {
    assert worth' * minted == worth * minted + gain * minted;
    assert gain * shares' == gain * shares + gain * minted;
  }

  /** While a pool holds no stSOL of worth, an addition paid into its wSOL account dilutes nobody. */
  lemma AdditionToOneSidedPool(s: State, i: PoolInstruction, pool: Liquidity)
    requires i.AddLiquidity? && ExecuteSpec(s, i).Ok? && pool.wsol != pool.stsol && UserApart(i, pool)
    requires i.poolWsol == pool.wsol && (Amount(s.ledger, pool.stsol) == 0 || s.pool.stakeTotal == 0)
    ensures WorthPerShareKept(s, ExecuteSpec(s, i).value, pool)
  {
    AdditionKeepsWorthPerShareIff(s, i, pool);
    if i.lpMint == pool.shares {
      AdditionMoves(s, i);
      OneSided(s.pool, pool, i.wsolAmount, Amount(s.ledger, pool.wsol), Amount(s.ledger, pool.stsol),
               Supply(s.ledger, pool.shares), SharesMinted(s, i));
    }
  }

  lemma OneSided(p: StakePool, pool: Liquidity, paid: u64, wsol: u64, stsol: nat, shares: u64, minted: u64)
    requires SharesFromValue(paid, wsol, shares) == Some(minted) && (stsol == 0 || p.stakeTotal == 0)
    ensures AdditionGuard(p, pool, pool.wsol, wsol, stsol, paid, shares, minted)
  {
    AddLiquidityKeepsWorth(paid, wsol, shares);
    assert (wsol + paid) * shares == wsol * shares + paid * shares;
    assert wsol * (shares + minted) == wsol * shares + wsol * minted;
    MulMono(0, paid * shares - wsol * minted, p.poolTotal);
    assert Value(stsol, p.stakeTotal) == 0;
  }

  /** Every sale and addition of the run, between whatever accounts, covers what it takes of the pool;
      the clock may tick. */
  predicate FairRun(w: World, steps: seq<Step>, pool: Liquidity)
    requires ListOk(w.state)
  {
    steps == [] ||
    (var front := steps[..|steps| - 1];
     var last := steps[|steps| - 1];
     var s := RunAll(w, front).state;
     ListOnEveryRun(w, front);
     && FairRun(w, front, pool)
     && (last.Tick? || (last.Execute? && (last.instruction.SellStSol? || last.instruction.AddLiquidity?)))
     && (last.Execute? && Permitted(s, last) && ExecuteSpec(s, last.instruction).Ok? ==>
           if last.instruction.SellStSol? then SaleCovers(s, last.instruction, pool)
           else AdditionCovers(s, last.instruction, pool)))
  }

  /** A fair step of either kind keeps the worth per share. */
  lemma FairStep(w: World, step: Step, pool: Liquidity)
    requires ListOk(w.state) && pool.wsol != pool.stsol
    requires step.Tick? || (step.Execute? && (step.instruction.SellStSol? || step.instruction.AddLiquidity?))
    requires step.Execute? && Permitted(w.state, step) && ExecuteSpec(w.state, step.instruction).Ok? ==>
               if step.instruction.SellStSol? then SaleCovers(w.state, step.instruction, pool)
               else AdditionCovers(w.state, step.instruction, pool)
    ensures WorthPerShareKept(w.state, Advance(w, step).state, pool)
    ensures Supply(w.state.ledger, pool.shares) <= Supply(Advance(w, step).state.ledger, pool.shares)
    ensures step.Execute? && step.instruction.SellStSol? ==> Worth(w.state, pool) <= Worth(Advance(w, step).state, pool)
  {
    var s := w.state;
    if step.Execute? && Permitted(s, step) && ExecuteSpec(s, step.instruction).Ok? {
      if step.instruction.SellStSol? {
        SaleMoves(s, step.instruction);
        SaleKeepsWorthIff(s, step.instruction, pool);
        MulMono(Worth(s, pool), Worth(Advance(w, step).state, pool), Supply(s.ledger, pool.shares));
      } else {
        AdditionWorth(s, step.instruction, pool);
        AdditionKeepsWorthPerShareIff(s, step.instruction, pool);
      }
    }
  }

  /** On any such mixed run the worth of a share that exists at its start never falls. */
  lemma {:induction false} WorthPerShareNeverFalls(w: World, steps: seq<Step>, pool: Liquidity)
    requires ListOk(w.state) && FairRun(w, steps, pool) && pool.wsol != pool.stsol
    requires Supply(w.state.ledger, pool.shares) > 0
    ensures WorthPerShareKept(w.state, RunAll(w, steps).state, pool)
    ensures Supply(w.state.ledger, pool.shares) <= Supply(RunAll(w, steps).state.ledger, pool.shares)
  {
    if steps != [] {
      var front := steps[..|steps| - 1];
      WorthPerShareNeverFalls(w, front, pool);
      ListOnEveryRun(w, front);
      var w' := RunAll(w, front);
      FairStep(w', steps[|steps| - 1], pool);
      var s'' := RunAll(w, steps).state;
      Chain(Worth(w.state, pool), Supply(w.state.ledger, pool.shares), Worth(w'.state, pool), Supply(w'.state.ledger, pool.shares),
            Worth(s'', pool), Supply(s''.ledger, pool.shares));
    }
  }

  /** And on a run of sales alone the pool's worth never falls, shares or none. */
  lemma {:induction false} FairSalesKeepWorth(w: World, steps: seq<Step>, pool: Liquidity)
    requires ListOk(w.state) && FairRun(w, steps, pool) && pool.wsol != pool.stsol
    requires forall k | 0 <= k < |steps| :: steps[k].Execute? ==> steps[k].instruction.SellStSol?
    ensures Worth(RunAll(w, steps).state, pool) >= Worth(w.state, pool)
  {
    if steps != [] {
      var front := steps[..|steps| - 1];
      FairSalesKeepWorth(w, front, pool);
      ListOnEveryRun(w, front);
      FairStep(RunAll(w, front), steps[|steps| - 1], pool);
    }
  }

  // ---------- wSOL per share ----------

  predicate WsolPerShareKept(l: Ledger, l': Ledger, pool: Liquidity) {
    NoShareLoses(Amount(l, pool.wsol), Supply(l, pool.shares), Amount(l', pool.wsol), Supply(l', pool.shares))
  }

  lemma SharesBought(wsol: u64, shares: u64, wsol': u64, shares': u64)
    requires wsol <= wsol' && shares <= shares'
    requires SharesFromValue(wsol' - wsol, wsol, shares) == Some(shares' - shares)
    ensures NoShareLoses(wsol, shares, wsol', shares')
    ensures var worth := ValueFromShares(shares' - shares, wsol', shares');
            worth.Some? && worth.value <= wsol' - wsol
  {
    AddLiquidityKeepsWorth(wsol' - wsol, wsol, shares);
  }

  lemma SharesGiven(wsol: nat, shares: nat, minted: nat)
    ensures NoShareLoses(wsol, shares, wsol, shares + minted) <==> wsol == 0 || minted == 0
  {
    Dilution(wsol, shares, wsol, shares + minted, 0, minted);
    Compare(minted, 0, wsol);
  }

  predicate UserApartFrom(i: PoolInstruction, account: Pubkey)
    requires i.AddLiquidity?
  {
    i.userWsol != account && i.userLp != account
  }

  /** The addition mints no shares of this pool, or pays into its wSOL account, or that was empty. */
  predicate AdditionPays(s: State, i: PoolInstruction, pool: Liquidity)
    requires i.AddLiquidity? && ExecuteSpec(s, i).Ok?
  {
    i.lpMint != pool.shares || i.poolWsol == pool.wsol || Amount(s.ledger, pool.wsol) == 0 || SharesMinted(s, i) == 0
  }

  /** `wsol` and `shares` before an addition that pays `paid` into the pool, if it is `own`, and mints
      `minted` of its shares. */
  lemma WsolPaid(wsol: u64, shares: u64, wsol': u64, shares': u64, own: bool, minted: nat)
    requires wsol <= wsol' && shares' == shares + minted
    requires own ==> minted == 0 || SharesFromValue(wsol' - wsol, wsol, shares) == Some(minted)
    requires !own ==> wsol' == wsol
    ensures NoShareLoses(wsol, shares, wsol', shares') <==> own || wsol == 0 || minted == 0
  {
    if minted == 0 {
      MulMono(wsol, wsol', shares);
    } else if own {
      SharesBought(wsol, shares, wsol', shares');
    } else {
      SharesGiven(wsol, shares, minted);
    }
  }

  /** An addition keeps the wSOL, though not always the stSOL, behind each of a pool's shares exactly
      under that condition. */
  lemma AdditionKeepsWsolPerShareIff(s: State, i: PoolInstruction, pool: Liquidity)
    requires i.AddLiquidity? && ExecuteSpec(s, i).Ok? && UserApartFrom(i, pool.wsol)
    ensures WsolPerShareKept(s.ledger, ExecuteSpec(s, i).value.ledger, pool) <==> AdditionPays(s, i, pool)
  {
    AdditionMoves(s, i);
    var l := s.ledger;
    var l' := ExecuteSpec(s, i).value.ledger;
    WsolPaid(Amount(l, pool.wsol), Supply(l, pool.shares), Amount(l', pool.wsol), Supply(l', pool.shares),
             i.poolWsol == pool.wsol, IfSame(pool.shares, i.lpMint, SharesMinted(s, i)));
  }

  /** The wSOL part of shares bought by paying into the pool's account is no more than was paid. */
  lemma SharesHoldAtMostTheWsolPaid(s: State, i: PoolInstruction, pool: Liquidity)
    requires i.AddLiquidity? && ExecuteSpec(s, i).Ok? && UserApartFrom(i, pool.wsol)
    requires i.lpMint == pool.shares && i.poolWsol == pool.wsol
    ensures var l' := ExecuteSpec(s, i).value.ledger;
            var wsol := ValueFromShares(SharesMinted(s, i), Amount(l', pool.wsol), Supply(l', pool.shares));
            wsol.Some? && wsol.value <= i.wsolAmount
  {
    AdditionMoves(s, i);
    var (l, l') := (s.ledger, ExecuteSpec(s, i).value.ledger);
    SharesBought(Amount(l, pool.wsol), Supply(l, pool.shares), Amount(l', pool.wsol), Supply(l', pool.shares));
  }

  /** The additions of the run, to this or other pools, pay for what they mint in wSOL; the clock may
      tick. */
  predicate PaidAdditions(w: World, steps: seq<Step>, pool: Liquidity) {
    steps == [] ||
    (var front := steps[..|steps| - 1];
     var last := steps[|steps| - 1];
     var s := RunAll(w, front).state;
     && PaidAdditions(w, front, pool)
     && (last.Tick? || (last.Execute? && last.instruction.AddLiquidity? && UserApartFrom(last.instruction, pool.wsol)))
     && (last.Execute? && Permitted(s, last) && ExecuteSpec(s, last.instruction).Ok? ==> AdditionPays(s, last.instruction, pool)))
  }

  /** The wSOL per share never falls on any run of such additions, an empty pool included. */
  lemma {:induction false} WsolPerShareNeverFalls(w: World, steps: seq<Step>, pool: Liquidity)
    requires PaidAdditions(w, steps, pool)
    ensures var l := w.state.ledger;
            var l' := RunAll(w, steps).state.ledger;
            && Amount(l, pool.wsol) <= Amount(l', pool.wsol)
            && Supply(l, pool.shares) <= Supply(l', pool.shares)
            && WsolPerShareKept(l, l', pool)
  {
    if steps != [] {
      var front := steps[..|steps| - 1];
      var last := steps[|steps| - 1];
      WsolPerShareNeverFalls(w, front, pool);
      var s := RunAll(w, front).state;
      if last.Execute? && Permitted(s, last) && ExecuteSpec(s, last.instruction).Ok? {
        AdditionMoves(s, last.instruction);
        AdditionKeepsWsolPerShareIff(s, last.instruction, pool);
        var l := w.state.ledger;
        var l'' := RunAll(w, steps).state.ledger;
        Chain(Amount(l, pool.wsol), Supply(l, pool.shares), Amount(s.ledger, pool.wsol), Supply(s.ledger, pool.shares),
              Amount(l'', pool.wsol), Supply(l'', pool.shares));
      }
    }
  }
}
