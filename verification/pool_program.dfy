/** The stake-pool handlers (program/src/processor.rs), in the source's form: the pool and list are
    read into copies, checked and updated in place, and stored back, with calls to the token and
    stake programs in between. When an instruction fails the runtime discards what it wrote, calls
    included. */
module PoolProgramModel {
  import opened Basics
  import opened TokenState
  import opened TokenProgramModel
  import opened ValidatorList
  import opened PoolMath
  import opened PoolSpec

  ghost predicate AgreesWith(spec: Result<State>, before: State, r: ProgramResult, after: State) {
    match spec
    case Ok(s) => r == Ok(()) && after == s
    case Err(e) => r == Err(e) && after == before
  }

  class StakePoolProgram {
    const authorities: Authorities
    const token: TokenProgram
    var clock: u64
    var pool: StakePool
    var list: ValidatorStakeList

    ghost function View(): State
      reads this, token
    {
      State(authorities, clock, pool, list, token.ledger)
    }

    constructor (authorities: Authorities, token: TokenProgram, clock: u64, pool: StakePool, list: ValidatorStakeList)
      ensures this.token == token
      ensures View() == State(authorities, clock, pool, list, token.ledger)
    {
      this.authorities := authorities;
      this.token := token;
      this.clock := clock;
      this.pool := pool;
      this.list := list;
    }

    method ProcessInitialize(owner: AccountMeta, mint: Pubkey, feeAccount: Pubkey, rentExempt: bool, fee: Fee)
      returns (r: ProgramResult)
      modifies this, token
      ensures AgreesWith(InitializeSpec(old(View()), owner, mint, feeAccount, rentExempt, fee), old(View()), r, View())
    {
      if !owner.isSigner {
        return Err(Pool(SignatureMissing));
      }
      var stakePool := pool;
      if stakePool.version > 0 {
        return Err(Pool(PoolAlreadyInUse));
      }
      var validatorStakeList := list;
      if validatorStakeList.version > 0 {
        return Err(Pool(PoolAlreadyInUse));
      }
      validatorStakeList := validatorStakeList.(version := VALIDATOR_STAKE_LIST_VERSION);
      validatorStakeList := validatorStakeList.(validators := []);
      if !rentExempt {
        return Err(Pool(AccountNotRentExempt));
      }
      if fee.numerator > fee.denominator {
        return Err(Pool(FeeTooHigh));
      }
      var feeCell, mintCell := Load(token.ledger, feeAccount), Load(token.ledger, mint);
      if !TokenOwned(feeCell.record) {
        return Err(Pool(InvalidFeeAccount));
      }
      if !TokenOwned(mintCell.record) {
        return Err(IncorrectProgramId);
      }
      if !feeCell.record.AccountRecord? {
        return Err(InvalidAccountData);
      }
      if feeCell.record.account.mint != mint {
        return Err(Pool(WrongAccountMint));
      }
      if !mintCell.record.MintRecord? {
        return Err(InvalidAccountData);
      }
      if mintCell.record.mint.mintAuthority != Some(authorities.withdraw) {
        return Err(Pool(WrongMintingAuthority));
      }
      list := validatorStakeList;
      stakePool := stakePool.(version := PROGRAM_VERSION);
      stakePool := stakePool.(owner := owner.key);
      stakePool := stakePool.(poolMint := mint);
      stakePool := stakePool.(ownerFeeAccount := feeAccount);
      stakePool := stakePool.(lastUpdateEpoch := clock);
      stakePool := stakePool.(fee := fee);
      pool := stakePool;
      return Ok(());
    }

    method CheckOwnerGate(owner: AccountMeta, stakeAccount: Pubkey, mint: Pubkey) returns (r: Result<Pubkey>)
      ensures r == OwnerGate(View(), owner, stakeAccount, mint)
    {
      if pool.version == 0 {
        return Err(Pool(InvalidState));
      }
      if owner.key != pool.owner {
        return Err(Pool(WrongOwner));
      }
      if !owner.isSigner {
        return Err(Pool(SignatureMissing));
      }
      if pool.lastUpdateEpoch < clock {
        return Err(Pool(StakeListAndPoolOutOfDate));
      }
      if pool.poolMint != mint {
        return Err(Pool(WrongPoolMint));
      }
      if list.version == 0 {
        return Err(Pool(InvalidState));
      }
      r := GetValidatorChecked(Load(token.ledger, stakeAccount));
    }

    method TokenMintTo(mint: Pubkey, destination: Pubkey, amount: u64) returns (r: ProgramResult)
      modifies token
      ensures Agrees(MintPoolTokens(View(), old(token.ledger), mint, destination, amount), old(token.ledger), r, token.ledger)
    {
      r := token.ProcessMintTo([AccountMeta(mint, false), AccountMeta(destination, false),
                                AccountMeta(authorities.withdraw, true)], amount, None);
    }

    method TokenBurn(mint: Pubkey, from: Pubkey, amount: u64) returns (r: ProgramResult)
      modifies token
      ensures Agrees(BurnPoolTokens(View(), old(token.ledger), mint, from, amount), old(token.ledger), r, token.ledger)
    {
      r := token.ProcessBurn([AccountMeta(from, false), AccountMeta(mint, false),
                              AccountMeta(authorities.withdraw, true)], amount, None);
    }

    /** The effect of the stake program's Merge on lamports. */
    method StakeMerge(from: Pubkey, into: Pubkey, accepts: bool) returns (r: ProgramResult)
      modifies token
      ensures Agrees(MergeSpec(old(token.ledger), from, into, accepts), old(token.ledger), r, token.ledger)
    {
      var source, dest := Load(token.ledger, from), Load(token.ledger, into);
      if !accepts || from == into || !source.record.StakeRecord? || !dest.record.StakeRecord?
         || dest.lamports + source.lamports >= U64_RANGE {
        return Err(StakeProgramRejected);
      }
      token.Store(from, 0, source.record.(voter := None));
      token.Store(into, dest.lamports + source.lamports, dest.record);
      return Ok(());
    }

    /** The effect of the stake program's Split on lamports. */
    method StakeSplit(from: Pubkey, to: Pubkey, amount: u64, accepts: bool) returns (r: ProgramResult)
      modifies token
      ensures Agrees(SplitSpec(old(token.ledger), from, to, amount, accepts), old(token.ledger), r, token.ledger)
    {
      var source, dest := Load(token.ledger, from), Load(token.ledger, to);
      if !accepts || from == to || !source.record.StakeRecord? || TokenOwned(dest.record)
         || source.lamports < amount || dest.lamports + amount >= U64_RANGE {
        return Err(StakeProgramRejected);
      }
      token.Store(from, source.lamports - amount, source.record);
      token.Store(to, dest.lamports + amount, StakeRecord(source.record.voter, false));
      return Ok(());
    }

    method ProcessAddValidatorStakeAccount(owner: AccountMeta, stakeAccount: Pubkey, destination: Pubkey, mint: Pubkey,
                                           accepts: bool) returns (r: ProgramResult)
      modifies this, token
      ensures AgreesWith(AddValidatorSpec(old(View()), owner, stakeAccount, destination, mint, accepts), old(View()), r, View())
    {
      var before := token.ledger;
      var stakePool, validatorStakeList := pool, list;
      var validator :- CheckOwnerGate(owner, stakeAccount, mint);
      if Contains(validatorStakeList.validators, validator) {
        return Err(Pool(ValidatorAlreadyAdded));
      }
      if !accepts {
        return Err(StakeProgramRejected);
      }
      var stakeLamports := Load(token.ledger, stakeAccount).lamports;
      var tokenAmount :- OkOr(CalcPoolDepositAmount(stakePool.stakeTotal, stakePool.poolTotal, stakeLamports),
                              Pool(CalculationFailure));
      var _ :- TokenMintTo(mint, destination, tokenAmount);
      validatorStakeList := validatorStakeList.(validators :=
        validatorStakeList.validators + [ValidatorStakeInfo(validator, stakeLamports, clock)]);
      if |validatorStakeList.validators| > MAX_VALIDATOR_STAKE_ACCOUNTS {
        token.ledger := before;
        return Err(InvalidAccountData);
      }
      list := validatorStakeList;
      stakePool := stakePool.(poolTotal := WrapAdd(stakePool.poolTotal, tokenAmount));
      stakePool := stakePool.(stakeTotal := WrapAdd(stakePool.stakeTotal, stakeLamports));
      pool := stakePool;
      return Ok(());
    }

    method ProcessRemoveValidatorStakeAccount(owner: AccountMeta, stakeAccount: Pubkey, burnFrom: Pubkey, mint: Pubkey,
                                              accepts: bool) returns (r: ProgramResult)
      modifies this, token
      ensures AgreesWith(RemoveValidatorSpec(old(View()), owner, stakeAccount, burnFrom, mint, accepts), old(View()), r, View())
    {
      var stakePool, validatorStakeList := pool, list;
      var validator :- CheckOwnerGate(owner, stakeAccount, mint);
      if !Contains(validatorStakeList.validators, validator) {
        return Err(Pool(ValidatorNotFound));
      }
      if !accepts {
        return Err(StakeProgramRejected);
      }
      var stakeLamports := Load(token.ledger, stakeAccount).lamports;
      var tokenAmount :- OkOr(CalcPoolWithdrawAmount(stakePool.stakeTotal, stakePool.poolTotal, stakeLamports),
                              Pool(CalculationFailure));
      var _ :- TokenBurn(mint, burnFrom, tokenAmount);
      validatorStakeList := validatorStakeList.(validators := Without(validatorStakeList.validators, validator));
      list := validatorStakeList;
      stakePool := stakePool.(poolTotal := WrapSub(stakePool.poolTotal, tokenAmount));
      stakePool := stakePool.(stakeTotal := WrapSub(stakePool.stakeTotal, stakeLamports));
      pool := stakePool;
      return Ok(());
    }

    method ProcessUpdateListBalance(accounts: seq<Pubkey>) returns (r: ProgramResult)
      modifies this, token
      ensures AgreesWith(UpdateListBalanceSpec(old(View()), accounts), old(View()), r, View())
    {
      if list.version == 0 {
        return Err(Pool(InvalidState));
      }
      var validators := list.validators;
      var changes := false;
      for i := 0 to |validators|
        invariant |validators| == |list.validators|
        invariant forall j | 0 <= j < i ::
                    validators[j] == UpdatedInfo(list.validators[j], accounts, token.ledger, clock)
        invariant forall j | i <= j < |validators| :: validators[j] == list.validators[j]
        invariant !changes ==> validators == list.validators
      {
        if validators[i].lastUpdateEpoch < clock {
          var record := validators[i];
          for k := 0 to |accounts|
            invariant record == if list.validators[i].validatorAccount in accounts[..k]
                                then UpdatedInfo(list.validators[i], accounts, token.ledger, clock)
                                else list.validators[i]
            invariant list.validators[i].validatorAccount in accounts[..k] ==> changes
            invariant !changes ==> validators == list.validators
          {
            if accounts[k] == record.validatorAccount {
              record := record.(lastUpdateEpoch := clock);
              record := record.(balance := Load(token.ledger, accounts[k]).lamports);
              changes := true;
            }
          }
          assert accounts[..|accounts|] == accounts;
          validators := validators[i := record];
        }
      }
      if changes {
        list := list.(validators := validators);
      }
      return Ok(());
    }

    method ProcessUpdatePoolBalance() returns (r: ProgramResult)
      modifies this, token
      ensures AgreesWith(UpdatePoolBalanceSpec(old(View())), old(View()), r, View())
    {
      if pool.version == 0 {
        return Err(Pool(InvalidState));
      }
      if list.version == 0 {
        return Err(Pool(InvalidState));
      }
      var totalBalance: u64 := 0;
      for i := 0 to |list.validators|
        invariant forall j | 0 <= j < i :: clock <= list.validators[j].lastUpdateEpoch
        invariant totalBalance == SumBalances(list.validators[..i]) % U64_RANGE
      {
        if list.validators[i].lastUpdateEpoch < clock {
          return Err(Pool(StakeListOutOfDate));
        }
        assert list.validators[..i + 1][..i] == list.validators[..i];
        totalBalance := WrapAdd(totalBalance, list.validators[i].balance);
      }
      assert list.validators[..|list.validators|] == list.validators;
      pool := pool.(stakeTotal := totalBalance);
      pool := pool.(lastUpdateEpoch := clock);
      return Ok(());
    }

    method CheckUserGate(stakeAccount: Pubkey) returns (r: Result<nat>)
      ensures r == UserGate(View(), stakeAccount)
    {
      if pool.version == 0 {
        return Err(Pool(InvalidState));
      }
      if pool.lastUpdateEpoch < clock {
        return Err(Pool(StakeListAndPoolOutOfDate));
      }
      if list.version == 0 {
        return Err(Pool(InvalidState));
      }
      var validator :- GetValidatorChecked(Load(token.ledger, stakeAccount));
      r := OkOr(Find(list.validators, validator), Pool(ValidatorNotFound));
    }

    method ProcessDeposit(stake: Pubkey, validatorStake: Pubkey, destination: Pubkey, mint: Pubkey, accepts: bool)
      returns (r: ProgramResult)
      modifies this, token
      ensures AgreesWith(DepositSpec(old(View()), stake, validatorStake, destination, mint, accepts), old(View()), r, View())
    {
      var before := token.ledger;
      var stakePool, validatorStakeList := pool, list;
      var item :- CheckUserGate(validatorStake);
      var stakeLamports := Load(token.ledger, stake).lamports;
      var poolAmount :- OkOr(CalcPoolDepositAmount(stakePool.stakeTotal, stakePool.poolTotal, stakeLamports),
                             Pool(CalculationFailure));
      var _ :- StakeMerge(stake, validatorStake, accepts);
      var minted := TokenMintTo(mint, destination, poolAmount);
      if minted.Err? {
        token.ledger := before;
        return minted;
      }
      stakePool := stakePool.(poolTotal := WrapAdd(stakePool.poolTotal, poolAmount));
      stakePool := stakePool.(stakeTotal := WrapAdd(stakePool.stakeTotal, stakeLamports));
      pool := stakePool;
      list := WithBalance(validatorStakeList, item, Load(token.ledger, validatorStake).lamports);
      return Ok(());
    }

    method ProcessWithdraw(splitFrom: Pubkey, splitTo: Pubkey, burnFrom: Pubkey, mint: Pubkey, poolAmount: u64,
                           accepts: bool) returns (r: ProgramResult)
      modifies this, token
      ensures AgreesWith(WithdrawSpec(old(View()), splitFrom, splitTo, burnFrom, mint, poolAmount, accepts), old(View()), r, View())
    {
      var before := token.ledger;
      var stakePool, validatorStakeList := pool, list;
      var item :- CheckUserGate(splitFrom);
      var stakeAmount :- OkOr(CalcLamportsAmount(stakePool.stakeTotal, stakePool.poolTotal, poolAmount),
                              Pool(CalculationFailure));
      var _ :- StakeSplit(splitFrom, splitTo, stakeAmount, accepts);
      var burned := TokenBurn(mint, burnFrom, poolAmount);
      if burned.Err? {
        token.ledger := before;
        return burned;
      }
      stakePool := stakePool.(poolTotal := WrapSub(stakePool.poolTotal, poolAmount));
      stakePool := stakePool.(stakeTotal := WrapSub(stakePool.stakeTotal, stakeAmount));
      pool := stakePool;
      list := WithBalance(validatorStakeList, item, Load(token.ledger, splitFrom).lamports);
      return Ok(());
    }

    method ProcessAddLiquidity(wsolAmount: u64, lpMint: Pubkey, userWsol: Pubkey, userAuthority: AccountMeta,
                               poolWsol: Pubkey, userLp: Pubkey) returns (r: ProgramResult)
      modifies this, token
      ensures AgreesWith(AddLiquiditySpec(old(View()), wsolAmount, lpMint, userWsol, userAuthority, poolWsol, userLp),
                         old(View()), r, View())
    {
      var before := token.ledger;
      if wsolAmount == 0 {
        return Err(Pool(ZeroAmount));
      }
      var mint :- UnpackTokenMint(Load(token.ledger, lpMint));
      var held :- UnpackTokenAccount(Load(token.ledger, poolWsol));
      var ourWsolTotal := held.amount;
      var user :- UnpackTokenAccount(Load(token.ledger, userWsol));
      if user.mint != held.mint {
        return Err(Panicked);
      }
      var _ :- token.ProcessTransfer([AccountMeta(userWsol, false), AccountMeta(poolWsol, false), userAuthority],
                                        wsolAmount, None);
      var metalpAmount := SharesFromValue(wsolAmount, ourWsolTotal, mint.supply);
      if metalpAmount.None? {
        token.ledger := before;
        return Err(Pool(CalculationFailure));
      }
      var minted := token.ProcessMintTo([AccountMeta(lpMint, false), AccountMeta(userLp, false),
                                         AccountMeta(authorities.liquidity, true)], metalpAmount.value, None);
      if minted.Err? {
        token.ledger := before;
        return minted;
      }
      return Ok(());
    }

    method ProcessSellStSol(stsolAmount: u64, poolWsol: Pubkey, poolStsol: Pubkey, userWsol: Pubkey, userStsol: Pubkey,
                            userAuthority: AccountMeta) returns (r: ProgramResult)
      modifies this, token
      ensures AgreesWith(SellStSolSpec(old(View()), stsolAmount, poolWsol, poolStsol, userWsol, userStsol, userAuthority),
                         old(View()), r, View())
    {
      var before := token.ledger;
      if stsolAmount == 0 {
        return Err(Pool(ZeroAmount));
      }
      if pool.version == 0 {
        return Err(Pool(InvalidState));
      }
      var ourWsol :- UnpackTokenAccount(Load(token.ledger, poolWsol));
      if stsolAmount > ourWsol.amount {
        return Err(Pool(NotEnoughTokensInThePool));
      }
      var ourStsol :- UnpackTokenAccount(Load(token.ledger, poolStsol));
      var theirStsol :- UnpackTokenAccount(Load(token.ledger, userStsol));
      if pool.poolMint != theirStsol.mint || theirStsol.mint != ourStsol.mint {
        return Err(Panicked);
      }
      var theirWsol :- UnpackTokenAccount(Load(token.ledger, userWsol));
      if theirWsol.mint != ourWsol.mint {
        return Err(Panicked);
      }
      var _ :- token.ProcessTransfer([AccountMeta(userStsol, false), AccountMeta(poolStsol, false), userAuthority],
                                            stsolAmount, None);
      var solValue := Proportional(stsolAmount, pool.stakeTotal, pool.poolTotal);
      if solValue.None? {
        token.ledger := before;
        return Err(Pool(CalculationFailure));
      }
      var feeAmount := Proportional(solValue.value, pool.fee.numerator, pool.fee.denominator);
      if feeAmount.None? {
        token.ledger := before;
        return Err(Pool(CalculationFailure));
      }
      var wsolAmountToUser := WrapSub(solValue.value, feeAmount.value);
      var sent := token.ProcessTransfer([AccountMeta(poolWsol, false), AccountMeta(userWsol, false),
                                         AccountMeta(authorities.liquidity, true)], wsolAmountToUser, None);
      if sent.Err? {
        token.ledger := before;
        return sent;
      }
      return Ok(());
    }
  }
}
