/** What each stake-pool instruction does (program/src/processor.rs): the new state, or the error
    that leaves the state as it was. */
module PoolSpec {
  import opened Basics
  import opened TokenState
  import opened TokenSpec
  import opened ValidatorList
  import opened PoolMath

  const PROGRAM_VERSION: u8 := 1

  datatype Fee = Fee(denominator: u64, numerator: u64)

  datatype StakePool = StakePool(
    version: u8,
    owner: Pubkey,
    poolMint: Pubkey,
    ownerFeeAccount: Pubkey,
    stakeTotal: u64,
    poolTotal: u64,
    lastUpdateEpoch: u64,
    fee: Fee)

  /** The program addresses that only the pool program can sign for. */
  datatype Authorities = Authorities(withdraw: Pubkey, liquidity: Pubkey)

  /** The pool account, its validator list account, every other account, and the clock. */
  datatype State = State(
    authorities: Authorities,
    clock: u64,
    pool: StakePool,
    list: ValidatorStakeList,
    ledger: Ledger)

  /** Instructions with the accounts that matter to them. `accepts` says that the stake program
      carries out the calls it receives, as far as its own rules go. Deposit and Withdraw do not compare
      the mint they are given with the pool's. */
  datatype PoolInstruction =
    | Initialize(owner: AccountMeta, mint: Pubkey, feeAccount: Pubkey, rentExempt: bool, fee: Fee)
    | AddValidator(owner: AccountMeta, stakeAccount: Pubkey, destination: Pubkey, mint: Pubkey, accepts: bool)
    | RemoveValidator(owner: AccountMeta, stakeAccount: Pubkey, burnFrom: Pubkey, mint: Pubkey, accepts: bool)
    | UpdateListBalance(accounts: seq<Pubkey>)
    | UpdatePoolBalance
    | Deposit(stake: Pubkey, validatorStake: Pubkey, destination: Pubkey, mint: Pubkey, accepts: bool)
    | Withdraw(splitFrom: Pubkey, splitTo: Pubkey, burnFrom: Pubkey, mint: Pubkey, poolAmount: u64, accepts: bool)
    | AddLiquidity(wsolAmount: u64, lpMint: Pubkey, userWsol: Pubkey, userAuthority: AccountMeta,
                   poolWsol: Pubkey, userLp: Pubkey)
    | SellStSol(stsolAmount: u64, poolWsol: Pubkey, poolStsol: Pubkey, userWsol: Pubkey, userStsol: Pubkey,
                userAuthority: AccountMeta)

  function OkOr<T>(o: Option<T>, error: ProgramError): Result<T> {
    if o.Some? then Ok(o.value) else Err(error)
  }

  // ---------- calls to the stake program ----------

  /** The validator a stake account is delegated to, if the account's address is the one derived from it. */
  function GetValidatorChecked(c: Cell): Result<Pubkey> {
    var stake := c.record;
    :- Need(stake.StakeRecord?, InvalidAccountData);
    :- Need(stake.voter.Some?, Pool(WrongStakeState));
    :- Need(stake.derived, Pool(InvalidStakeAccountAddress));
    Ok(stake.voter.value)
  }

  /** Merge moves every lamport of one stake account into another. */
  function MergeSpec(l: Ledger, from: Pubkey, into: Pubkey, accepts: bool): Result<Ledger> {
    var (source, dest) := (Load(l, from), Load(l, into));
    :- Need(accepts && from != into && source.record.StakeRecord? && dest.record.StakeRecord?
            && dest.lamports + source.lamports < U64_RANGE, StakeProgramRejected);
    Ok(l[from := Cell(0, source.record.(voter := None))]
        [into := dest.(lamports := dest.lamports + source.lamports)])
  }

  /** Split moves `amount` lamports into another account, which gets the same delegation. */
  function SplitSpec(l: Ledger, from: Pubkey, to: Pubkey, amount: u64, accepts: bool): Result<Ledger> {
    var (source, dest) := (Load(l, from), Load(l, to));
    :- Need(accepts && from != to && source.record.StakeRecord? && !TokenOwned(dest.record)
            && amount <= source.lamports && dest.lamports + amount < U64_RANGE, StakeProgramRejected);
    Ok(l[from := source.(lamports := source.lamports - amount)]
        [to := Cell(dest.lamports + amount, StakeRecord(source.record.voter, false))])
  }

  // ---------- calls to the token program ----------

  function MintPoolTokens(s: State, l: Ledger, mint: Pubkey, destination: Pubkey, amount: u64): Result<Ledger> {
    MintToSpec(l, [AccountMeta(mint, false), AccountMeta(destination, false),
                   AccountMeta(s.authorities.withdraw, true)], amount, None)
  }

  function BurnPoolTokens(s: State, l: Ledger, mint: Pubkey, from: Pubkey, amount: u64): Result<Ledger> {
    BurnSpec(l, [AccountMeta(from, false), AccountMeta(mint, false),
                 AccountMeta(s.authorities.withdraw, true)], amount, None)
  }

  function UnpackTokenAccount(c: Cell): Result<Account> {
    var a := UnpackAccount(c);
    :- Need(TokenOwned(c.record), Pool(IncorrectTokenProgramId));
    if a.Ok? then a else Err(Pool(ExpectedAccount))
  }

  function UnpackTokenMint(c: Cell): Result<Mint> {
    var m := UnpackMint(c);
    :- Need(TokenOwned(c.record), Pool(IncorrectTokenProgramId));
    if m.Ok? then m else Err(Pool(ExpectedMint))
  }

  // ---------- instructions ----------

  function InitializeSpec(s: State, owner: AccountMeta, mint: Pubkey, feeAccount: Pubkey, rentExempt: bool, fee: Fee): Result<State> {
    var feeCell := Load(s.ledger, feeAccount);
    var mintCell := Load(s.ledger, mint);
    :- Need(owner.isSigner, Pool(SignatureMissing));
    :- Need(s.pool.version == 0, Pool(PoolAlreadyInUse));
    :- Need(s.list.version == 0, Pool(PoolAlreadyInUse));
    :- Need(rentExempt, Pool(AccountNotRentExempt));
    :- Need(fee.numerator <= fee.denominator, Pool(FeeTooHigh));
    :- Need(TokenOwned(feeCell.record), Pool(InvalidFeeAccount));
    :- Need(TokenOwned(mintCell.record), IncorrectProgramId);
    :- Need(feeCell.record.AccountRecord?, InvalidAccountData);
    :- Need(feeCell.record.account.mint == mint, Pool(WrongAccountMint));
    :- Need(mintCell.record.MintRecord?, InvalidAccountData);
    :- Need(mintCell.record.mint.mintAuthority == Some(s.authorities.withdraw), Pool(WrongMintingAuthority));
    Ok(s.(list := ValidatorStakeList(VALIDATOR_STAKE_LIST_VERSION, []),
          pool := s.pool.(version := PROGRAM_VERSION, owner := owner.key, poolMint := mint,
                          ownerFeeAccount := feeAccount, lastUpdateEpoch := s.clock, fee := fee)))
  }

  function CheckOwnerOf(pool: StakePool, owner: AccountMeta): Outcome {
    if owner.key != pool.owner then Fail(Pool(WrongOwner)) else Need(owner.isSigner, Pool(SignatureMissing))
  }

  /** The checks that Add and Remove share, up to the stake account's validator. */
  function OwnerGate(s: State, owner: AccountMeta, stakeAccount: Pubkey, mint: Pubkey): Result<Pubkey> {
    var pool := s.pool;
    :- Need(pool.version > 0, Pool(InvalidState));
    :- CheckOwnerOf(pool, owner);
    :- Need(s.clock <= pool.lastUpdateEpoch, Pool(StakeListAndPoolOutOfDate));
    :- Need(pool.poolMint == mint, Pool(WrongPoolMint));
    :- Need(s.list.version > 0, Pool(InvalidState));
    GetValidatorChecked(Load(s.ledger, stakeAccount))
  }

  function AddValidatorSpec(s: State, owner: AccountMeta, stakeAccount: Pubkey, destination: Pubkey, mint: Pubkey, accepts: bool): Result<State> {
    var validator :- OwnerGate(s, owner, stakeAccount, mint);
    :- Need(!Contains(s.list.validators, validator), Pool(ValidatorAlreadyAdded));
    :- Need(accepts, StakeProgramRejected);
    var lamports := Load(s.ledger, stakeAccount).lamports;
    var tokens :- OkOr(CalcPoolDepositAmount(s.pool.stakeTotal, s.pool.poolTotal, lamports), Pool(CalculationFailure));
    var ledger :- MintPoolTokens(s, s.ledger, mint, destination, tokens);
    :- Need(|s.list.validators| < MAX_VALIDATOR_STAKE_ACCOUNTS, InvalidAccountData);
    Ok(s.(ledger := ledger,
          list := s.list.(validators := s.list.validators + [ValidatorStakeInfo(validator, lamports, s.clock)]),
          pool := s.pool.(poolTotal := WrapAdd(s.pool.poolTotal, tokens),
                          stakeTotal := WrapAdd(s.pool.stakeTotal, lamports))))
  }

  function RemoveValidatorSpec(s: State, owner: AccountMeta, stakeAccount: Pubkey, burnFrom: Pubkey, mint: Pubkey, accepts: bool): Result<State> {
    var validator :- OwnerGate(s, owner, stakeAccount, mint);
    :- Need(Contains(s.list.validators, validator), Pool(ValidatorNotFound));
    :- Need(accepts, StakeProgramRejected);
    var lamports := Load(s.ledger, stakeAccount).lamports;
    var tokens :- OkOr(CalcPoolWithdrawAmount(s.pool.stakeTotal, s.pool.poolTotal, lamports), Pool(CalculationFailure));
    var ledger :- BurnPoolTokens(s, s.ledger, mint, burnFrom, tokens);
    Ok(s.(ledger := ledger,
          list := s.list.(validators := Without(s.list.validators, validator)),
          pool := s.pool.(poolTotal := WrapSub(s.pool.poolTotal, tokens),
                          stakeTotal := WrapSub(s.pool.stakeTotal, lamports))))
  }

  /** A record older than the clock takes the lamports of the account whose key is the validator's
      own key, if that account was passed. */
  function UpdatedInfo(v: ValidatorStakeInfo, accounts: seq<Pubkey>, l: Ledger, clock: u64): ValidatorStakeInfo {
    if v.lastUpdateEpoch < clock && v.validatorAccount in accounts then
      v.(lastUpdateEpoch := clock, balance := Load(l, v.validatorAccount).lamports)
    else v
  }

  function UpdateListBalanceSpec(s: State, accounts: seq<Pubkey>): Result<State> {
    var validators := s.list.validators;
    :- Need(s.list.version > 0, Pool(InvalidState));
    Ok(s.(list := s.list.(validators :=
      seq(|validators|, i requires 0 <= i < |validators| => UpdatedInfo(validators[i], accounts, s.ledger, s.clock)))))
  }

  predicate AllCurrent(validators: seq<ValidatorStakeInfo>, clock: u64) {
    forall i | 0 <= i < |validators| :: clock <= validators[i].lastUpdateEpoch
  }

  function UpdatePoolBalanceSpec(s: State): Result<State> {
    var validators := s.list.validators;
    :- Need(s.pool.version > 0, Pool(InvalidState));
    :- Need(s.list.version > 0, Pool(InvalidState));
    :- Need(AllCurrent(validators, s.clock), Pool(StakeListOutOfDate));
    Ok(s.(pool := s.pool.(stakeTotal := SumBalances(validators) % U64_RANGE, lastUpdateEpoch := s.clock)))
  }

  /** The checks that Deposit and Withdraw share: the position of the stake account's validator. */
  function UserGate(s: State, stakeAccount: Pubkey): Result<nat> {
    var pool := s.pool;
    :- Need(pool.version > 0, Pool(InvalidState));
    :- Need(s.clock <= pool.lastUpdateEpoch, Pool(StakeListAndPoolOutOfDate));
    :- Need(s.list.version > 0, Pool(InvalidState));
    var validator :- GetValidatorChecked(Load(s.ledger, stakeAccount));
    OkOr(Find(s.list.validators, validator), Pool(ValidatorNotFound))
  }

  /** The list with the balance of record `i` replaced. */
  function WithBalance(list: ValidatorStakeList, i: nat, balance: u64): ValidatorStakeList
    requires i < |list.validators|
  {
    list.(validators := list.validators[i := list.validators[i].(balance := balance)])
  }

  function DepositSpec(s: State, stake: Pubkey, validatorStake: Pubkey, destination: Pubkey, mint: Pubkey, accepts: bool): Result<State> {
    var i :- UserGate(s, validatorStake);
    var lamports := Load(s.ledger, stake).lamports;
    var tokens :- OkOr(CalcPoolDepositAmount(s.pool.stakeTotal, s.pool.poolTotal, lamports), Pool(CalculationFailure));
    var merged :- MergeSpec(s.ledger, stake, validatorStake, accepts);
    var ledger :- MintPoolTokens(s, merged, mint, destination, tokens);
    Ok(s.(ledger := ledger,
          list := WithBalance(s.list, i, Load(ledger, validatorStake).lamports),
          pool := s.pool.(poolTotal := WrapAdd(s.pool.poolTotal, tokens),
                          stakeTotal := WrapAdd(s.pool.stakeTotal, lamports))))
  }

  function WithdrawSpec(s: State, splitFrom: Pubkey, splitTo: Pubkey, burnFrom: Pubkey, mint: Pubkey, poolAmount: u64, accepts: bool): Result<State> {
    var i :- UserGate(s, splitFrom);
    var lamports :- OkOr(CalcLamportsAmount(s.pool.stakeTotal, s.pool.poolTotal, poolAmount), Pool(CalculationFailure));
    var split :- SplitSpec(s.ledger, splitFrom, splitTo, lamports, accepts);
    var ledger :- BurnPoolTokens(s, split, mint, burnFrom, poolAmount);
    Ok(s.(ledger := ledger,
          list := WithBalance(s.list, i, Load(ledger, splitFrom).lamports),
          pool := s.pool.(poolTotal := WrapSub(s.pool.poolTotal, poolAmount),
                          stakeTotal := WrapSub(s.pool.stakeTotal, lamports))))
  }

  /** The shares are computed from the balance and supply read before the transfer. */
  function AddLiquiditySpec(s: State, wsolAmount: u64, lpMint: Pubkey, userWsol: Pubkey, userAuthority: AccountMeta,
                            poolWsol: Pubkey, userLp: Pubkey): Result<State>
  {
    var l := s.ledger;
    :- Need(wsolAmount != 0, Pool(ZeroAmount));
    var mint :- UnpackTokenMint(Load(l, lpMint));
    var held :- UnpackTokenAccount(Load(l, poolWsol));
    var user :- UnpackTokenAccount(Load(l, userWsol));
    :- Need(user.mint == held.mint, Panicked);
    var paid :- TransferSpec(l, [AccountMeta(userWsol, false), AccountMeta(poolWsol, false), userAuthority], wsolAmount, None);
    var shares :- OkOr(SharesFromValue(wsolAmount, held.amount, mint.supply), Pool(CalculationFailure));
    var ledger :- MintToSpec(paid, [AccountMeta(lpMint, false), AccountMeta(userLp, false),
                                    AccountMeta(s.authorities.liquidity, true)], shares, None);
    Ok(s.(ledger := ledger))
  }

  function SellStSolSpec(s: State, stsolAmount: u64, poolWsol: Pubkey, poolStsol: Pubkey, userWsol: Pubkey,
                         userStsol: Pubkey, userAuthority: AccountMeta): Result<State>
  {
    var l := s.ledger;
    :- Need(stsolAmount != 0, Pool(ZeroAmount));
    :- Need(s.pool.version > 0, Pool(InvalidState));
    var ourWsol :- UnpackTokenAccount(Load(l, poolWsol));
    :- Need(stsolAmount <= ourWsol.amount, Pool(NotEnoughTokensInThePool));
    var ourStsol :- UnpackTokenAccount(Load(l, poolStsol));
    var theirStsol :- UnpackTokenAccount(Load(l, userStsol));
    :- Need(s.pool.poolMint == theirStsol.mint, Panicked);
    :- Need(theirStsol.mint == ourStsol.mint, Panicked);
    var theirWsol :- UnpackTokenAccount(Load(l, userWsol));
    :- Need(theirWsol.mint == ourWsol.mint, Panicked);
    var received :- TransferSpec(l, [AccountMeta(userStsol, false), AccountMeta(poolStsol, false), userAuthority], stsolAmount, None);
    var value :- OkOr(Proportional(stsolAmount, s.pool.stakeTotal, s.pool.poolTotal), Pool(CalculationFailure));
    var fee :- OkOr(Proportional(value, s.pool.fee.numerator, s.pool.fee.denominator), Pool(CalculationFailure));
    var ledger :- TransferSpec(received, [AccountMeta(poolWsol, false), AccountMeta(userWsol, false),
                                          AccountMeta(s.authorities.liquidity, true)], WrapSub(value, fee), None);
    Ok(s.(ledger := ledger))
  }

  function ExecuteSpec(s: State, i: PoolInstruction): Result<State> {
    match i
    case Initialize(owner, mint, feeAccount, rentExempt, fee) => InitializeSpec(s, owner, mint, feeAccount, rentExempt, fee)
    case AddValidator(owner, stakeAccount, destination, mint, accepts) =>
      AddValidatorSpec(s, owner, stakeAccount, destination, mint, accepts)
    case RemoveValidator(owner, stakeAccount, burnFrom, mint, accepts) =>
      RemoveValidatorSpec(s, owner, stakeAccount, burnFrom, mint, accepts)
    case UpdateListBalance(accounts) => UpdateListBalanceSpec(s, accounts)
    case UpdatePoolBalance => UpdatePoolBalanceSpec(s)
    case Deposit(stake, validatorStake, destination, mint, accepts) =>
      DepositSpec(s, stake, validatorStake, destination, mint, accepts)
    case Withdraw(splitFrom, splitTo, burnFrom, mint, poolAmount, accepts) =>
      WithdrawSpec(s, splitFrom, splitTo, burnFrom, mint, poolAmount, accepts)
    case AddLiquidity(wsolAmount, lpMint, userWsol, userAuthority, poolWsol, userLp) =>
      AddLiquiditySpec(s, wsolAmount, lpMint, userWsol, userAuthority, poolWsol, userLp)
    case SellStSol(stsolAmount, poolWsol, poolStsol, userWsol, userStsol, userAuthority) =>
      SellStSolSpec(s, stsolAmount, poolWsol, poolStsol, userWsol, userStsol, userAuthority)
  }
}
