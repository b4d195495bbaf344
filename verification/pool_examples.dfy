/** Concrete states in which a property of the pools fails where its condition does. */
module PoolExamples {
  import opened Basics
  import opened TokenState
  import opened OwnerValidation
  import opened TokenSpec
  import opened TokenRuns
  import opened TokenEffects
  import opened ValidatorList
  import opened PoolMath
  import opened PoolSpec
  import opened PoolSafety
  import opened PoolAccounting
  import opened LiquidityPool

  datatype Keys = Keys(owner: Pubkey, mint: Pubkey, holder: Pubkey, stake: Pubkey, other: Pubkey, validator: Pubkey,
                       withdraw: Pubkey, liquidity: Pubkey)

  predicate AllDistinct(k: Keys) {
    && k.owner !in {k.mint, k.holder, k.stake, k.other, k.validator, k.withdraw, k.liquidity}
    && k.mint !in {k.holder, k.stake, k.other, k.validator, k.withdraw, k.liquidity, NATIVE_MINT}
    && k.holder !in {k.stake, k.other, k.validator, k.withdraw, k.liquidity}
    && k.stake !in {k.other, k.validator, k.withdraw, k.liquidity}
    && k.other !in {k.validator, k.withdraw, k.liquidity}
    && k.validator !in {k.withdraw, k.liquidity}
    && k.withdraw != k.liquidity
  }

  function MintCell(authority: Pubkey, supply: u64): Cell {
    Cell(1, MintRecord(Mint(Some(authority), supply, 9, true, None)))
  }

  /** An account whose owner lets `delegate` move all of it. */
  function HolderCell(mint: Pubkey, owner: Pubkey, amount: u64, delegate: Pubkey): Cell {
    Cell(1, AccountRecord(Account(mint, owner, amount, Some(delegate), Initialized, None, amount, None)))
  }

  /** A pool with one validator, whose stake account holds `lamports` and is recorded with `balance`,
      and one holder of all its tokens, who let the pool burn them. */
  function SmallPool(k: Keys, stakeTotal: u64, poolTotal: u64, supply: u64, balance: u64, lamports: u64): State {
    State(
      Authorities(k.withdraw, k.liquidity), 7,
      StakePool(1, k.owner, k.mint, k.holder, stakeTotal, poolTotal, 7, Fee(1, 0)),
      ValidatorStakeList(1, [ValidatorStakeInfo(k.validator, balance, 7)]),
      map[k.mint := MintCell(k.withdraw, supply), k.holder := HolderCell(k.mint, k.owner, supply, k.withdraw),
          k.stake := Cell(lamports, StakeRecord(Some(k.validator), true)), k.other := Cell(1, StakeRecord(None, false))])
  }

  /** The state alone, with no history of closed or purged accounts. */
  function Fresh(s: State): World {
    World(s, {}, map[])
  }

  lemma EmptyLedgerHolds(mint: Pubkey)
    ensures SupplyGap(map[], mint) == 0
  {
  }

  /** The small pool satisfies the joined invariant. */
  lemma SmallPoolInv(k: Keys, stakeTotal: u64, poolTotal: u64, supply: u64, balance: u64, lamports: u64)
    requires AllDistinct(k) && supply <= poolTotal
    ensures Inv(Fresh(SmallPool(k, stakeTotal, poolTotal, supply, balance, lamports)))
    ensures ListOk(SmallPool(k, stakeTotal, poolTotal, supply, balance, lamports))
  {
    var s := SmallPool(k, stakeTotal, poolTotal, supply, balance, lamports);
    var l0: Ledger := map[];
    var l1 := l0[k.mint := s.ledger[k.mint]];
    var l2 := l1[k.holder := s.ledger[k.holder]];
    var l3 := l2[k.stake := s.ledger[k.stake]];
    assert s.ledger == l3[k.other := s.ledger[k.other]];
    forall mint | mint != NATIVE_MINT
      ensures SupplyGap(s.ledger, mint) == Lost(BankOf(Fresh(s)), mint)
    {
      EmptyLedgerHolds(mint);
      GapPut(l0, k.mint, s.ledger[k.mint], mint);
      GapPut(l1, k.holder, s.ledger[k.holder], mint);
      GapPut(l2, k.stake, s.ledger[k.stake], mint);
      GapPut(l3, k.other, s.ledger[k.other], mint);
    }
  }

  lemma Signs(l: Ledger, key: Pubkey)
    requires key !in l
    ensures ValidateOwner(l, key, AccountMeta(key, true), []) == Pass
  {
  }

  // ---------- the stake pool ----------

  /** A stake account with more lamports than the whole recorded stake can be removed when a token is
      dear, and the stake total wraps. */
  lemma RemovalWraps(k: Keys)
    requires AllDistinct(k)
    ensures var s := SmallPool(k, 10, 1, 1, 10, 15);
            var r := ExecuteSpec(s, RemoveValidator(AccountMeta(k.owner, true), k.stake, k.holder, k.mint, true));
            && Inv(Fresh(s)) && ListOk(s)
            && r.Ok? && r.value.pool.stakeTotal == U64_RANGE - 5 && r.value.pool.poolTotal == 0
  {
    var s := SmallPool(k, 10, 1, 1, 10, 15);
    SmallPoolInv(k, 10, 1, 1, 10, 15);
    Signs(s.ledger, k.withdraw);
    assert s.list.validators[0].validatorAccount == k.validator;
    assert CalcPoolWithdrawAmount(10, 1, 15) == Some(1);
  }

  /** A deposit that carries the token total past 2^64 leaves it below the supply. */
  lemma DepositWraps(k: Keys)
    requires AllDistinct(k)
    ensures var s := SmallPool(k, 0, U64_RANGE - 1, 5, 0, 0);
            var r := ExecuteSpec(s, Deposit(k.other, k.stake, k.holder, k.mint, true));
            && Inv(Fresh(s)) && ListOk(s)
            && r.Ok? && r.value.pool.poolTotal == 0 && Supply(r.value.ledger, k.mint) == 6
            && !Inv(Fresh(r.value))
  {
    var s := SmallPool(k, 0, U64_RANGE - 1, 5, 0, 0);
    SmallPoolInv(k, 0, U64_RANGE - 1, 5, 0, 0);
    assert s.list.validators[0].validatorAccount == k.validator;
    Signs(MergeSpec(s.ledger, k.other, k.stake, true).value, k.withdraw);
  }

  /** A stake account that holds more than its recorded balance breaks the sum in a deposit. */
  lemma DepositLosesTrack(k: Keys)
    requires AllDistinct(k)
    ensures var s := SmallPool(k, 10, 10, 5, 10, 15);
            var r := ExecuteSpec(s, Deposit(k.other, k.stake, k.holder, k.mint, true));
            && Inv(Fresh(s)) && ListOk(s) && StakeTracked(s)
            && r.Ok? && !StakeTracked(r.value)
            && r.value.pool.stakeTotal == 11 && SumBalances(r.value.list.validators) == 16
  {
    var s := SmallPool(k, 10, 10, 5, 10, 15);
    SmallPoolInv(k, 10, 10, 5, 10, 15);
    assert s.list.validators[0].validatorAccount == k.validator;
    assert CalcPoolDepositAmount(10, 10, 1) == Some(1);
    Signs(MergeSpec(s.ledger, k.other, k.stake, true).value, k.withdraw);
    OneBalance(s.list.validators);
    OneBalance(ExecuteSpec(s, Deposit(k.other, k.stake, k.holder, k.mint, true)).value.list.validators);
  }

  lemma OneBalance(validators: seq<ValidatorStakeInfo>)
    requires |validators| == 1
    ensures SumBalances(validators) == validators[0].balance
  {
    assert validators[..0] == [];
  }

  /** With tokens but no stake, a depositor of 1000 lamports gets 500 back. */
  lemma EmptyStakeRoundTrip()
    ensures CalcPoolDepositAmount(0, 1000, 1000) == Some(1000)
    ensures CalcLamportsAmount(1000, 2000, 1000) == Some(500)
  {
  }

  /** The small pool with another mint that the pool may burn, and an account of it. */
  function WithWorthlessMint(s: State, k: Keys, mint: Pubkey, account: Pubkey): State {
    s.(ledger := s.ledger[mint := MintCell(k.owner, 9)][account := HolderCell(mint, k.owner, 9, k.withdraw)])
  }

  lemma WorthlessMintInv(s: State, k: Keys, mint: Pubkey, account: Pubkey)
    requires Inv(Fresh(s)) && MintHeld(s)
    requires mint != account && mint != NATIVE_MINT && mint !in s.ledger && account !in s.ledger
    requires {mint, account} !! {s.authorities.withdraw, s.authorities.liquidity}
    ensures Inv(Fresh(WithWorthlessMint(s, k, mint, account)))
  {
    PairPut(BankOf(Fresh(s)), mint, MintCell(k.owner, 9), account, HolderCell(mint, k.owner, 9, k.withdraw));
  }

  function WorthlessState(k: Keys, mint: Pubkey, account: Pubkey): State {
    WithWorthlessMint(SmallPool(k, 10, 10, 10, 10, 10), k, mint, account)
  }

  lemma WorthlessWithdrawalSucceeds(k: Keys, mint: Pubkey, account: Pubkey)
    requires AllDistinct(k) && mint != account
    requires {mint, account} !! {k.owner, k.mint, k.holder, k.stake, k.other, k.withdraw, k.liquidity}
    ensures ExecuteSpec(WorthlessState(k, mint, account), Withdraw(k.stake, k.other, account, mint, 9, true)).Ok?
  {
    var s := WorthlessState(k, mint, account);
    assert s.list.validators[0].validatorAccount == k.validator;
    assert CalcLamportsAmount(10, 10, 9) == Some(9);
    Signs(SplitSpec(s.ledger, k.stake, k.other, 9, true).value, k.withdraw);
  }

  lemma WorthlessInv(k: Keys, mint: Pubkey, account: Pubkey)
    requires AllDistinct(k) && mint != account && mint != NATIVE_MINT
    requires {mint, account} !! {k.owner, k.mint, k.holder, k.stake, k.other, k.withdraw, k.liquidity}
    ensures Inv(Fresh(WorthlessState(k, mint, account))) && ListOk(WorthlessState(k, mint, account))
  {
    SmallPoolInv(k, 10, 10, 10, 10, 10);
    WorthlessMintInv(SmallPool(k, 10, 10, 10, 10, 10), k, mint, account);
  }

  /** A withdrawal that burns nine tokens of a worthless mint takes nine tenths of the stake, burns none
      of the pool's tokens, and leaves a token total below their supply. */
  lemma WorthlessTokensWithdraw(k: Keys, mint: Pubkey, account: Pubkey)
    requires AllDistinct(k) && mint != account && mint != NATIVE_MINT
    requires {mint, account} !! {k.owner, k.mint, k.holder, k.stake, k.other, k.withdraw, k.liquidity}
    ensures var s := WorthlessState(k, mint, account);
            var r := ExecuteSpec(s, Withdraw(k.stake, k.other, account, mint, 9, true));
            && Inv(Fresh(s)) && ListOk(s)
            && r.Ok? && r.value.pool.stakeTotal == 1 && r.value.pool.poolTotal == 1
            && Supply(r.value.ledger, k.mint) == 10 && !Inv(Fresh(r.value))
  {
    WorthlessInv(k, mint, account);
    WorthlessWithdrawalSucceeds(k, mint, account);
    assert CalcLamportsAmount(10, 10, 9) == Some(9);
    WithdrawEffect(Fresh(WorthlessState(k, mint, account)), Withdraw(k.stake, k.other, account, mint, 9, true));
  }

  // ---------- the liquidity pool ----------

  /** Keys of a user and of a liquidity pool. */
  datatype Market = Market(pool: Liquidity, user: Pubkey, userWsol: Pubkey, userStsol: Pubkey, userShares: Pubkey,
                           decoyWsol: Pubkey, decoyStsol: Pubkey, otherStsol: Pubkey)

  function UserAccounts(m: Market): set<Pubkey> {
    {m.userWsol, m.userStsol, m.userShares, m.decoyWsol, m.decoyStsol, m.otherStsol}
  }

  predicate MarketDistinct(m: Market, k: Keys) {
    && AllDistinct(k)
    && m.pool.wsol !in {m.pool.stsol, m.pool.shares, m.user} + UserAccounts(m)
    && m.pool.stsol !in {m.pool.shares, m.user} + UserAccounts(m)
    && m.pool.shares !in {m.user, NATIVE_MINT} + UserAccounts(m)
    && m.user !in UserAccounts(m)
    && m.userWsol !in {m.userStsol, m.userShares, m.decoyWsol, m.decoyStsol, m.otherStsol}
    && m.userStsol !in {m.userShares, m.decoyWsol, m.decoyStsol, m.otherStsol}
    && m.userShares !in {m.decoyWsol, m.decoyStsol, m.otherStsol}
    && m.decoyWsol !in {m.decoyStsol, m.otherStsol} && m.decoyStsol != m.otherStsol
    && {m.pool.wsol, m.pool.stsol, m.pool.shares, m.user} + UserAccounts(m)
       !! {k.mint, k.withdraw, k.liquidity}
  }

  function AccountCell(mint: Pubkey, owner: Pubkey, amount: u64): Cell {
    Cell(1, AccountRecord(Account(mint, owner, amount, None, Initialized, None, 0, None)))
  }

  /** An account of wrapped SOL, with a reserve of one lamport. */
  function WsolCell(owner: Pubkey, amount: nat): Cell
    requires amount < 1000
  {
    Cell(amount + 1, AccountRecord(Account(NATIVE_MINT, owner, amount, None, Initialized, Some(1), 0, None)))
  }

  /** `held` stSOL of the pool and 50 of the user, and 100 shares, which are all there are. */
  function Issued(m: Market, k: Keys, held: u64): Ledger
    requires held <= 100
  {
    var none: Ledger := map[];
    none[k.mint := MintCell(k.withdraw, held)][m.pool.stsol := AccountCell(k.mint, k.liquidity, held)]
        [k.mint := MintCell(k.withdraw, held + 50)][m.userStsol := AccountCell(k.mint, m.user, 50)]
        [m.pool.shares := MintCell(k.liquidity, 100)][m.userShares := AccountCell(m.pool.shares, m.user, 100)]
  }

  function WithWsol(m: Market, k: Keys, held: u64): Ledger
    requires held <= 100
  {
    Issued(m, k, held)[m.pool.wsol := WsolCell(k.liquidity, 100)][m.userWsol := WsolCell(m.user, 50)]
                      [m.decoyWsol := WsolCell(m.user, 1)]
  }

  function MarketLedger(m: Market, k: Keys, held: u64): Ledger
    requires held <= 100
  {
    WithWsol(m, k, held)[m.decoyStsol := AccountCell(k.mint, m.user, 0)][m.otherStsol := AccountCell(k.mint, m.user, 0)]
  }

  /** A liquidity pool that holds 100 wSOL and `held` stSOL for 100 shares, beside a stake pool with the
      given totals; a user with some of each; and empty accounts of the user's like the pool's. */
  function MarketState(m: Market, k: Keys, stakeTotal: u64, poolTotal: u64, held: u64): State
    requires held <= 100
  {
    SmallPool(k, stakeTotal, poolTotal, 0, stakeTotal, stakeTotal).(ledger := MarketLedger(m, k, held))
  }

  function NoHistory(l: Ledger): Bank {
    Bank(l, {}, map[])
  }

  lemma HeldValid(m: Market, k: Keys, held: u64)
    requires MarketDistinct(m, k) && held <= 100
    ensures var none: Ledger := map[];
            Valid(NoHistory(none[k.mint := MintCell(k.withdraw, held)][m.pool.stsol := AccountCell(k.mint, k.liquidity, held)]))
  {
    var none: Ledger := map[];
    EmptyBankValid();
    PairPut(NoHistory(none), k.mint, MintCell(k.withdraw, held), m.pool.stsol, AccountCell(k.mint, k.liquidity, held));
  }

  lemma IssuedValid(m: Market, k: Keys, held: u64)
    requires MarketDistinct(m, k) && held <= 100
    ensures Valid(NoHistory(Issued(m, k, held)))
  {
    var none: Ledger := map[];
    var one := none[k.mint := MintCell(k.withdraw, held)][m.pool.stsol := AccountCell(k.mint, k.liquidity, held)];
    HeldValid(m, k, held);
    PairPut(NoHistory(one), k.mint, MintCell(k.withdraw, held + 50), m.userStsol, AccountCell(k.mint, m.user, 50));
    var two := one[k.mint := MintCell(k.withdraw, held + 50)][m.userStsol := AccountCell(k.mint, m.user, 50)];
    PairPut(NoHistory(two), m.pool.shares, MintCell(k.liquidity, 100), m.userShares, AccountCell(m.pool.shares, m.user, 100));
  }

  lemma WithWsolValid(m: Market, k: Keys, held: u64)
    requires MarketDistinct(m, k) && held <= 100
    ensures Valid(NoHistory(WithWsol(m, k, held)))
  {
    var l := Issued(m, k, held);
    IssuedValid(m, k, held);
    QuietPut(NoHistory(l), m.pool.wsol, WsolCell(k.liquidity, 100));
    var l' := l[m.pool.wsol := WsolCell(k.liquidity, 100)];
    QuietPut(NoHistory(l'), m.userWsol, WsolCell(m.user, 50));
    QuietPut(NoHistory(l'[m.userWsol := WsolCell(m.user, 50)]), m.decoyWsol, WsolCell(m.user, 1));
  }

  lemma MarketValid(m: Market, k: Keys, held: u64)
    requires MarketDistinct(m, k) && held <= 100
    ensures Valid(NoHistory(MarketLedger(m, k, held)))
  {
    var l := WithWsol(m, k, held);
    WithWsolValid(m, k, held);
    QuietPut(NoHistory(l), m.decoyStsol, AccountCell(k.mint, m.user, 0));
    QuietPut(NoHistory(l[m.decoyStsol := AccountCell(k.mint, m.user, 0)]), m.otherStsol, AccountCell(k.mint, m.user, 0));
  }

  /** The market satisfies the joined invariant. */
  lemma MarketInv(m: Market, k: Keys, stakeTotal: u64, poolTotal: u64, held: u64)
    requires MarketDistinct(m, k) && held <= 100 && held + 50 <= poolTotal
    ensures Inv(Fresh(MarketState(m, k, stakeTotal, poolTotal, held))) && ListOk(MarketState(m, k, stakeTotal, poolTotal, held))
  {
    MarketValid(m, k, held);
  }

  lemma MarketAmounts(m: Market, k: Keys, held: u64)
    requires MarketDistinct(m, k) && held <= 100
    ensures var l := MarketLedger(m, k, held);
            && Amount(l, m.pool.wsol) == 100 && Amount(l, m.pool.stsol) == held && Supply(l, m.pool.shares) == 100
            && Amount(l, m.decoyWsol) == 1
  {
  }

  /** An addition of one wSOL into the user's own look-alike account. */
  function DecoyAddition(m: Market): PoolInstruction {
    AddLiquidity(1, m.pool.shares, m.userWsol, AccountMeta(m.user, true), m.decoyWsol, m.userShares)
  }

  /** An addition of 50 wSOL into the pool's account. */
  function HonestAddition(m: Market): PoolInstruction {
    AddLiquidity(50, m.pool.shares, m.userWsol, AccountMeta(m.user, true), m.pool.wsol, m.userShares)
  }

  lemma AdditionTransfers(m: Market, k: Keys, held: u64, i: PoolInstruction) returns (paid: Ledger)
    requires MarketDistinct(m, k) && held <= 100 && (i == DecoyAddition(m) || i == HonestAddition(m))
    ensures var l := MarketLedger(m, k, held);
            var accounts := [AccountMeta(i.userWsol, false), AccountMeta(i.poolWsol, false), AccountMeta(m.user, true)];
            && IsMint(Load(l, m.pool.shares)) && TransferSpec(l, accounts, i.wsolAmount, None) == Ok(paid)
            && TransferAllowed(l, i.userWsol, i.poolWsol, AccountMeta(m.user, true), [], i.wsolAmount)
            && MintToAllowed(paid, m.pool.shares, m.userShares, AccountMeta(k.liquidity, true), [],
                             if i == DecoyAddition(m) then 100 else 50)
  {
    var l := MarketLedger(m, k, held);
    Signs(l, m.user);
    var accounts := [AccountMeta(i.userWsol, false), AccountMeta(i.poolWsol, false), AccountMeta(m.user, true)];
    paid := TransferSpec(l, accounts, i.wsolAmount, None).value;
    Signs(paid, k.liquidity);
  }

  lemma AdditionSucceeds(m: Market, k: Keys, total: u64, held: u64, i: PoolInstruction)
    requires MarketDistinct(m, k) && held <= 100 && (i == DecoyAddition(m) || i == HonestAddition(m))
    ensures ExecuteSpec(MarketState(m, k, total, total, held), i).Ok?
    ensures SharesMinted(MarketState(m, k, total, total, held), i) == if i == DecoyAddition(m) then 100 else 50
  {
    MarketAmounts(m, k, held);
    assert SharesFromValue(1, 1, 100) == Some(100) && SharesFromValue(50, 100, 100) == Some(50);
    var paid := AdditionTransfers(m, k, held, i);
    AddLiquiditySucceedsIff(MarketState(m, k, total, total, held), i);
  }

  lemma DecoyAdditionMoves(s: State, m: Market, k: Keys)
    requires MarketDistinct(m, k) && ExecuteSpec(s, DecoyAddition(m)).Ok? && SharesMinted(s, DecoyAddition(m)) == 100
    requires Amount(s.ledger, m.pool.wsol) == 100 && Supply(s.ledger, m.pool.shares) == 100
    ensures var l' := ExecuteSpec(s, DecoyAddition(m)).value.ledger;
            && Amount(l', m.pool.wsol) == 100 && Supply(l', m.pool.shares) == 200
            && !WsolPerShareKept(s.ledger, l', m.pool)
  {
    AdditionMoves(s, DecoyAddition(m));
  }

  lemma DecoyAdditionIsOrdinary(m: Market, k: Keys)
    requires MarketDistinct(m, k)
    ensures var s := MarketState(m, k, 100, 100, 0);
            var i := DecoyAddition(m);
            Inv(Fresh(s)) && ListOk(s) && Permitted(s, Execute(i)) && UserApart(i, m.pool)
  {
    MarketInv(m, k, 100, 100, 0);
  }

  /** An addition that pays the user's own look-alike account mints a share for each of the pool's, and
      dilutes them: the pool ends with 100 wSOL for 200 shares. */
  lemma AdditionDilutes(m: Market, k: Keys)
    requires MarketDistinct(m, k)
    ensures var s := MarketState(m, k, 100, 100, 0);
            var r := ExecuteSpec(s, DecoyAddition(m));
            && Inv(Fresh(s)) && ListOk(s) && Permitted(s, Execute(DecoyAddition(m))) && UserApart(DecoyAddition(m), m.pool)
            && r.Ok? && Amount(r.value.ledger, m.pool.wsol) == 100 && Supply(r.value.ledger, m.pool.shares) == 200
            && !WsolPerShareKept(s.ledger, r.value.ledger, m.pool)
  {
    DecoyAdditionIsOrdinary(m, k);
    MarketAmounts(m, k, 0);
    AdditionSucceeds(m, k, 100, 0, DecoyAddition(m));
    DecoyAdditionMoves(MarketState(m, k, 100, 100, 0), m, k);
  }

  lemma HonestAdditionMoves(s: State, m: Market, k: Keys)
    requires MarketDistinct(m, k) && ExecuteSpec(s, HonestAddition(m)).Ok? && SharesMinted(s, HonestAddition(m)) == 50
    requires Amount(s.ledger, m.pool.wsol) == 100 == Amount(s.ledger, m.pool.stsol) && Supply(s.ledger, m.pool.shares) == 100
    requires s.pool.stakeTotal == 150 == s.pool.poolTotal
    ensures var s' := ExecuteSpec(s, HonestAddition(m)).value;
            && WsolPerShareKept(s.ledger, s'.ledger, m.pool)
            && Worth(s, m.pool) == 30000 && Worth(s', m.pool) == 37500 && Supply(s'.ledger, m.pool.shares) == 150
            && !WorthPerShareKept(s, s', m.pool)
  {
    AdditionMoves(s, HonestAddition(m));
  }

  lemma HonestAdditionIsOrdinary(m: Market, k: Keys)
    requires MarketDistinct(m, k)
    ensures var s := MarketState(m, k, 150, 150, 100);
            var i := HonestAddition(m);
            Inv(Fresh(s)) && ListOk(s) && Permitted(s, Execute(i)) && UserApart(i, m.pool)
  {
    MarketInv(m, k, 150, 150, 100);
  }

  /** An honest addition dilutes too once the pool holds stSOL: 50 wSOL buy 50 shares on top of the 100
      that own 100 wSOL and 100 stSOL, and each old share is left with five sixths of its worth,
      although none of its wSOL. */
  lemma HonestAdditionDilutes(m: Market, k: Keys)
    requires MarketDistinct(m, k)
    ensures var s := MarketState(m, k, 150, 150, 100);
            var r := ExecuteSpec(s, HonestAddition(m));
            && Inv(Fresh(s)) && ListOk(s) && Permitted(s, Execute(HonestAddition(m))) && UserApart(HonestAddition(m), m.pool)
            && r.Ok? && WsolPerShareKept(s.ledger, r.value.ledger, m.pool)
            && Worth(s, m.pool) == 30000 && Supply(s.ledger, m.pool.shares) == 100
            && Worth(r.value, m.pool) == 37500 && Supply(r.value.ledger, m.pool.shares) == 150
            && !WorthPerShareKept(s, r.value, m.pool)
  {
    HonestAdditionIsOrdinary(m, k);
    MarketAmounts(m, k, 100);
    AdditionSucceeds(m, k, 150, 100, HonestAddition(m));
    HonestAdditionMoves(MarketState(m, k, 150, 150, 100), m, k);
  }

  /** A sale of 50 stSOL, given to the user's own look-alike account, out of the pool's wSOL account. */
  function DecoySale(m: Market): PoolInstruction {
    SellStSol(50, m.pool.wsol, m.decoyStsol, m.userWsol, m.userStsol, AccountMeta(m.user, true))
  }

  lemma DecoySaleTransfers(m: Market, k: Keys) returns (received: Ledger)
    requires MarketDistinct(m, k)
    ensures var s := MarketState(m, k, 100, 100, 0);
            SaleAccounts(s, DecoySale(m)) && Received(s, DecoySale(m)) == Ok(received)
            && PaymentAllowed(s, DecoySale(m), received, 50, 0)
  {
    var l := MarketLedger(m, k, 0);
    Signs(l, m.user);
    received := TransferSpec(l, [AccountMeta(m.userStsol, false), AccountMeta(m.decoyStsol, false),
                                 AccountMeta(m.user, true)], 50, None).value;
    Signs(received, k.liquidity);
    assert Proportional(50, 100, 100) == Some(50) && Proportional(50, 0, 1) == Some(0);
  }

  lemma DecoySaleSucceeds(m: Market, k: Keys)
    requires MarketDistinct(m, k)
    ensures ExecuteSpec(MarketState(m, k, 100, 100, 0), DecoySale(m)).Ok?
  {
    var received := DecoySaleTransfers(m, k);
    SalePays(MarketState(m, k, 100, 100, 0), DecoySale(m), received, 50, 0);
  }

  lemma DecoySalePays(s: State, m: Market)
    requires ListOk(s) && ExecuteSpec(s, DecoySale(m)).Ok?
    requires s.pool.stakeTotal == 100 == s.pool.poolTotal && s.pool.fee == Fee(1, 0)
    ensures SalePaid(s, DecoySale(m)) == 50
  {
    SaleIsPriced(s, DecoySale(m));
  }

  lemma DecoySaleMoves(s: State, m: Market, k: Keys)
    requires MarketDistinct(m, k) && ListOk(s) && ExecuteSpec(s, DecoySale(m)).Ok?
    requires s.pool.stakeTotal == 100 == s.pool.poolTotal && s.pool.fee == Fee(1, 0)
    requires Amount(s.ledger, m.pool.wsol) == 100 && Amount(s.ledger, m.pool.stsol) == 0
    ensures var s' := ExecuteSpec(s, DecoySale(m)).value;
            && Amount(s'.ledger, m.pool.wsol) == 50 && Amount(s'.ledger, m.pool.stsol) == 0
            && Worth(s, m.pool) == 10000 && Worth(s', m.pool) == 5000
  {
    DecoySalePays(s, m);
    SaleMoves(s, DecoySale(m));
  }

  lemma DecoySaleIsOrdinary(m: Market, k: Keys)
    requires MarketDistinct(m, k)
    ensures var s := MarketState(m, k, 100, 100, 0);
            var i := DecoySale(m);
            Inv(Fresh(s)) && ListOk(s) && Permitted(s, Execute(i)) && UserApart(i, m.pool)
  {
    MarketInv(m, k, 100, 100, 0);
  }

  /** A sale that gives the stSOL to the user's own look-alike account still takes the pool's wSOL: the
      pool loses 50 wSOL for nothing. */
  lemma SaleDrains(m: Market, k: Keys)
    requires MarketDistinct(m, k)
    ensures var s := MarketState(m, k, 100, 100, 0);
            var r := ExecuteSpec(s, DecoySale(m));
            && Inv(Fresh(s)) && ListOk(s) && Permitted(s, Execute(DecoySale(m))) && UserApart(DecoySale(m), m.pool)
            && r.Ok? && Amount(r.value.ledger, m.pool.wsol) == 50 && Amount(r.value.ledger, m.pool.stsol) == 0
            && Worth(s, m.pool) == 10000 && Worth(r.value, m.pool) == 5000
  {
    DecoySaleIsOrdinary(m, k);
    MarketAmounts(m, k, 0);
    DecoySaleSucceeds(m, k);
    DecoySaleMoves(MarketState(m, k, 100, 100, 0), m, k);
  }

  /** A sale of 30 stSOL that passes the pool's stSOL account as its wSOL account, and as its stSOL
      account `received`. */
  function SwappedSale(m: Market, received: Pubkey): PoolInstruction {
    SellStSol(30, m.pool.stsol, received, m.otherStsol, m.userStsol, AccountMeta(m.user, true))
  }

  lemma SwappedSaleTransfers(m: Market, k: Keys, passed: Pubkey) returns (received: Ledger)
    requires MarketDistinct(m, k) && passed in {m.decoyStsol, m.pool.stsol}
    ensures var s := MarketState(m, k, 200, 150, 100);
            SaleAccounts(s, SwappedSale(m, passed)) && Received(s, SwappedSale(m, passed)) == Ok(received)
            && PaymentAllowed(s, SwappedSale(m, passed), received, 40, 0)
  {
    var l := MarketLedger(m, k, 100);
    Signs(l, m.user);
    received := TransferSpec(l, [AccountMeta(m.userStsol, false), AccountMeta(passed, false), AccountMeta(m.user, true)], 30, None).value;
    Signs(received, k.liquidity);
    assert Proportional(30, 200, 150) == Some(40) && Proportional(40, 0, 1) == Some(0);
  }

  lemma SwappedSaleSucceeds(m: Market, k: Keys, received: Pubkey)
    requires MarketDistinct(m, k) && received in {m.decoyStsol, m.pool.stsol}
    ensures ExecuteSpec(MarketState(m, k, 200, 150, 100), SwappedSale(m, received)).Ok?
  {
    var l := SwappedSaleTransfers(m, k, received);
    SalePays(MarketState(m, k, 200, 150, 100), SwappedSale(m, received), l, 40, 0);
  }

  lemma SwappedSalePays(s: State, m: Market, received: Pubkey)
    requires ListOk(s) && ExecuteSpec(s, SwappedSale(m, received)).Ok?
    requires s.pool.stakeTotal == 200 && s.pool.poolTotal == 150 && s.pool.fee == Fee(1, 0)
    ensures SalePaid(s, SwappedSale(m, received)) == 40
  {
    SaleIsPriced(s, SwappedSale(m, received));
  }

  lemma SwappedSaleMoves(s: State, m: Market, k: Keys, received: Pubkey)
    requires MarketDistinct(m, k) && received in {m.decoyStsol, m.pool.stsol}
    requires ListOk(s) && ExecuteSpec(s, SwappedSale(m, received)).Ok? && SalePaid(s, SwappedSale(m, received)) == 40
    ensures var l' := ExecuteSpec(s, SwappedSale(m, received)).value.ledger;
            && Amount(l', m.pool.wsol) == Amount(s.ledger, m.pool.wsol)
            && Amount(l', m.pool.stsol) == Amount(s.ledger, m.pool.stsol) - if received == m.pool.stsol then 10 else 40
  {
    SaleMoves(s, SwappedSale(m, received));
  }

  lemma SwappedSaleTakes(s: State, m: Market, k: Keys, received: Pubkey)
    requires MarketDistinct(m, k) && received in {m.decoyStsol, m.pool.stsol}
    requires ListOk(s) && ExecuteSpec(s, SwappedSale(m, received)).Ok?
    requires s.pool.stakeTotal == 200 && s.pool.poolTotal == 150 && s.pool.fee == Fee(1, 0)
    ensures var l' := ExecuteSpec(s, SwappedSale(m, received)).value.ledger;
            && Amount(l', m.pool.wsol) == Amount(s.ledger, m.pool.wsol)
            && Amount(l', m.pool.stsol) == Amount(s.ledger, m.pool.stsol) - if received == m.pool.stsol then 10 else 40
  {
    SwappedSalePays(s, m, received);
    SwappedSaleMoves(s, m, k, received);
  }

  lemma SwappedSaleIsOrdinary(m: Market, k: Keys, received: Pubkey)
    requires MarketDistinct(m, k) && received in {m.decoyStsol, m.pool.stsol}
    ensures var s := MarketState(m, k, 200, 150, 100);
            var i := SwappedSale(m, received);
            Inv(Fresh(s)) && ListOk(s) && Permitted(s, Execute(i)) && UserApart(i, m.pool)
  {
    MarketInv(m, k, 200, 150, 100);
  }

  /** Paid in stSOL for stSOL at the price in wSOL, the user takes 40 for 30 out of the pool's stSOL, and
      keeps the 30 as well by passing an account of its own. */
  lemma SwappedSaleDrains(m: Market, k: Keys, received: Pubkey)
    requires MarketDistinct(m, k) && received in {m.decoyStsol, m.pool.stsol}
    ensures var s := MarketState(m, k, 200, 150, 100);
            var i := SwappedSale(m, received);
            var r := ExecuteSpec(s, i);
            && Inv(Fresh(s)) && ListOk(s) && Permitted(s, Execute(i)) && UserApart(i, m.pool)
            && r.Ok? && Amount(r.value.ledger, m.pool.wsol) == 100
            && Amount(s.ledger, m.pool.stsol) == 100
            && Amount(r.value.ledger, m.pool.stsol) == if received == m.pool.stsol then 90 else 60
  {
    SwappedSaleIsOrdinary(m, k, received);
    MarketAmounts(m, k, 100);
    SwappedSaleSucceeds(m, k, received);
    SwappedSaleTakes(MarketState(m, k, 200, 150, 100), m, k, received);
  }
}
