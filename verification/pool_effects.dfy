/** What a caller of the stake-pool program can rely on (program/src/processor.rs): for each
    instruction, exactly when it succeeds, and what every account, record and total holds afterwards.
    Stated by what the state shows before and after. */
module PoolEffects {
  import opened Basics
  import opened TokenState
  import opened TokenRuns
  import opened TokenEffects
  import opened ValidatorList
  import opened PoolMath
  import opened PoolSpec
  import opened PoolSafety

  // ---------- gates ----------

  /** Pool and list are initialized, and the pool was updated in the clock's epoch. */
  predicate UpToDate(s: State) {
    s.pool.version > 0 && s.list.version > 0 && s.clock <= s.pool.lastUpdateEpoch
  }

  /** The account is the pool's stake account for `validator`. */
  predicate StakesFor(s: State, stakeAccount: Pubkey, validator: Pubkey) {
    Load(s.ledger, stakeAccount).record == StakeRecord(Some(validator), true)
  }

  predicate OwnerSigned(s: State, owner: AccountMeta) {
    owner == AccountMeta(s.pool.owner, true)
  }

  /** Adding and removing need the owner's signature, an up-to-date pool, its mint, and a stake account
      of the pool's. */
  lemma OwnerGateIff(s: State, owner: AccountMeta, stakeAccount: Pubkey, mint: Pubkey)
    ensures forall v :: OwnerGate(s, owner, stakeAccount, mint) == Ok(v) <==>
              UpToDate(s) && OwnerSigned(s, owner) && mint == s.pool.poolMint && StakesFor(s, stakeAccount, v)
    ensures OwnerGate(s, owner, stakeAccount, mint) == Err(Pool(WrongOwner)) ==> owner.key != s.pool.owner
    ensures OwnerGate(s, owner, stakeAccount, mint) == Err(Pool(SignatureMissing)) ==> !owner.isSigner
    ensures OwnerGate(s, owner, stakeAccount, mint) == Err(Pool(WrongPoolMint)) ==> mint != s.pool.poolMint
    ensures OwnerGate(s, owner, stakeAccount, mint) == Err(Pool(StakeListAndPoolOutOfDate)) ==> s.pool.lastUpdateEpoch < s.clock
    ensures OwnerGate(s, owner, stakeAccount, mint) == Err(Pool(InvalidState)) ==> s.pool.version == 0 || s.list.version == 0
  {
  }

  /** Depositing and withdrawing need an up-to-date pool and the pool's stake account for a listed
      validator; the position is its first. */
  lemma UserGateIff(s: State, stakeAccount: Pubkey)
    ensures UserGate(s, stakeAccount).Ok? <==>
              UpToDate(s) && exists v | v in s.list.validators :: StakesFor(s, stakeAccount, v.validatorAccount)
    ensures UserGate(s, stakeAccount).Ok? ==>
              var at := UserGate(s, stakeAccount).value;
              && at < |s.list.validators| && StakesFor(s, stakeAccount, s.list.validators[at].validatorAccount)
    ensures UserGate(s, stakeAccount) == Err(Pool(StakeListAndPoolOutOfDate)) ==> s.pool.lastUpdateEpoch < s.clock
    ensures UserGate(s, stakeAccount) == Err(Pool(ValidatorNotFound)) ==>
              forall v | v in s.list.validators :: !StakesFor(s, stakeAccount, v.validatorAccount)
    ensures UserGate(s, stakeAccount) == Err(Pool(InvalidState)) ==> s.pool.version == 0 || s.list.version == 0
  {
    var record := Load(s.ledger, stakeAccount).record;
    if record.StakeRecord? && record.voter.Some? && Contains(s.list.validators, record.voter.value) {
      var at := Find(s.list.validators, record.voter.value).value;
      assert s.list.validators[at] in s.list.validators;
    }
  }

  // ---------- stake moves ----------

  predicate MergeAllowed(l: Ledger, from: Pubkey, into: Pubkey) {
    && from != into && Load(l, from).record.StakeRecord? && Load(l, into).record.StakeRecord?
    && Load(l, into).lamports + Load(l, from).lamports < U64_RANGE
  }

  lemma MergeDoes(l: Ledger, from: Pubkey, into: Pubkey, accepts: bool)
    ensures MergeSpec(l, from, into, accepts).Ok? <==> accepts && MergeAllowed(l, from, into)
    ensures MergeSpec(l, from, into, accepts).Ok? ==>
              var l' := MergeSpec(l, from, into, accepts).value;
              && OnlyAt(l, l', {from, into})
              && Load(l', from).lamports == 0 && !TokenOwned(Load(l', from).record)
              && Load(l', into) == Load(l, into).(lamports := Load(l, into).lamports + Load(l, from).lamports)
  {
  }

  predicate SplitAllowed(l: Ledger, from: Pubkey, to: Pubkey, amount: nat) {
    && from != to && Load(l, from).record.StakeRecord? && !TokenOwned(Load(l, to).record)
    && amount <= Load(l, from).lamports && Load(l, to).lamports + amount < U64_RANGE
  }

  lemma SplitDoes(l: Ledger, from: Pubkey, to: Pubkey, amount: u64, accepts: bool)
    ensures SplitSpec(l, from, to, amount, accepts).Ok? <==> accepts && SplitAllowed(l, from, to, amount)
    ensures SplitSpec(l, from, to, amount, accepts).Ok? ==>
              var l' := SplitSpec(l, from, to, amount, accepts).value;
              && OnlyAt(l, l', {from, to})
              && Load(l', from) == Load(l, from).(lamports := Load(l, from).lamports - amount)
              && Load(l', to).lamports == Load(l, to).lamports + amount
              && Load(l', to).record.StakeRecord? && Load(l', to).record.voter == Load(l, from).record.voter
  {
  }

  /** What stake moves leave alone: tokens, supplies, and who authorizes what. */
  ghost predicate TokensKept(l: Ledger, l': Ledger) {
    forall k | TokenOwned(Load(l, k).record) || TokenOwned(Load(l', k).record) :: Load(l', k) == Load(l, k)
  }

  lemma TokensKeptKeepsMinting(l: Ledger, l': Ledger, mint: Pubkey, to: Pubkey, authority: AccountMeta, amount: u64)
    requires TokensKept(l, l')
    ensures MintToAllowed(l, mint, to, authority, [], amount) <==> MintToAllowed(l', mint, to, authority, [], amount)
    ensures forall k :: Amount(l', k) == Amount(l, k) && Supply(l', k) == Supply(l, k)
  {
  }

  lemma TokensKeptKeepsBurning(l: Ledger, l': Ledger, from: Pubkey, mint: Pubkey, authority: AccountMeta, amount: u64)
    requires TokensKept(l, l')
    ensures BurnAllowed(l, from, mint, authority, [], amount) <==> BurnAllowed(l', from, mint, authority, [], amount)
    ensures forall k :: Amount(l', k) == Amount(l, k) && Supply(l', k) == Supply(l, k)
  {
  }

  // ---------- what the pool may mint and burn ----------

  predicate PoolMayMint(s: State, mint: Pubkey, destination: Pubkey, amount: u64) {
    MintToAllowed(s.ledger, mint, destination, AccountMeta(s.authorities.withdraw, true), [], amount)
  }

  predicate PoolMayBurn(s: State, mint: Pubkey, from: Pubkey, amount: u64) {
    BurnAllowed(s.ledger, from, mint, AccountMeta(s.authorities.withdraw, true), [], amount)
  }

  lemma PoolMints(s: State, l: Ledger, mint: Pubkey, destination: Pubkey, amount: u64)
    ensures MintPoolTokens(s, l, mint, destination, amount).Ok? <==>
              MintToAllowed(l, mint, destination, AccountMeta(s.authorities.withdraw, true), [], amount)
    ensures MintPoolTokens(s, l, mint, destination, amount).Ok? ==>
              var l' := MintPoolTokens(s, l, mint, destination, amount).value;
              && (forall k :: Amount(l', k) == Amount(l, k) + IfSame(k, destination, amount))
              && (forall k :: Supply(l', k) == Supply(l, k) + IfSame(k, mint, amount))
              && (forall k :: Load(l', k).lamports == Load(l, k).lamports)
              && (forall k | k != mint && k != destination :: Load(l', k) == Load(l, k))
  {
    var accounts := [AccountMeta(mint, false), AccountMeta(destination, false), AccountMeta(s.authorities.withdraw, true)];
    assert accounts[3..] == [];
    MintToSucceedsIff(l, accounts, amount, None);
    if MintPoolTokens(s, l, mint, destination, amount).Ok? {
      MintAmounts(l, mint, destination, accounts[2], amount, MintPoolTokens(s, l, mint, destination, amount).value);
      MintToDoes(l, accounts, amount, None);
    }
  }

  lemma PoolBurns(s: State, l: Ledger, mint: Pubkey, from: Pubkey, amount: u64)
    ensures BurnPoolTokens(s, l, mint, from, amount).Ok? <==>
              BurnAllowed(l, from, mint, AccountMeta(s.authorities.withdraw, true), [], amount)
    ensures BurnPoolTokens(s, l, mint, from, amount).Ok? ==>
              var l' := BurnPoolTokens(s, l, mint, from, amount).value;
              && (forall k :: Amount(l', k) == Amount(l, k) - IfSame(k, from, amount))
              && (forall k :: Supply(l', k) == Supply(l, k) - IfSame(k, mint, amount))
              && (forall k :: Load(l', k).lamports == Load(l, k).lamports)
              && (forall k | k != mint && k != from :: Load(l', k) == Load(l, k))
  {
    var accounts := [AccountMeta(from, false), AccountMeta(mint, false), AccountMeta(s.authorities.withdraw, true)];
    assert accounts[3..] == [];
    BurnSucceedsIff(l, accounts, amount, None);
    if BurnPoolTokens(s, l, mint, from, amount).Ok? {
      BurnAmounts(l, from, mint, accounts[2], amount, BurnPoolTokens(s, l, mint, from, amount).value);
      BurnDoes(l, accounts, amount, None);
    }
  }

  // ---------- deposits and withdrawals ----------

  /** The list with the first record of the account's validator holding `balance`, all else the same. */
  predicate BalanceRecorded(s: State, s': State, stakeAccount: Pubkey, balance: u64) {
    && s'.list.version == s.list.version && |s'.list.validators| == |s.list.validators|
    && forall k | 0 <= k < |s.list.validators| ::
         s'.list.validators[k] ==
           if StakesFor(s, stakeAccount, s.list.validators[k].validatorAccount) then s.list.validators[k].(balance := balance)
           else s.list.validators[k]
  }

  lemma DepositSucceedsIff(s: State, i: PoolInstruction)
    requires i.Deposit?
    ensures ExecuteSpec(s, i).Ok? <==>
              && UpToDate(s) && (exists v | v in s.list.validators :: StakesFor(s, i.validatorStake, v.validatorAccount))
              && var tokens := CalcPoolDepositAmount(s.pool.stakeTotal, s.pool.poolTotal, Load(s.ledger, i.stake).lamports);
                 tokens.Some? && i.accepts && MergeAllowed(s.ledger, i.stake, i.validatorStake)
                 && PoolMayMint(s, i.mint, i.destination, tokens.value)
  {
    UserGateIff(s, i.validatorStake);
    MergeDoes(s.ledger, i.stake, i.validatorStake, i.accepts);
    var tokens := CalcPoolDepositAmount(s.pool.stakeTotal, s.pool.poolTotal, Load(s.ledger, i.stake).lamports);
    if tokens.Some? && i.accepts && MergeAllowed(s.ledger, i.stake, i.validatorStake) {
      var merged := MergeSpec(s.ledger, i.stake, i.validatorStake, i.accepts).value;
      TokensKeptKeepsMinting(s.ledger, merged, i.mint, i.destination, AccountMeta(s.authorities.withdraw, true), tokens.value);
      PoolMints(s, merged, i.mint, i.destination, tokens.value);
    }
  }

  /** The stake account that a deposit goes into or a withdrawal comes from. */
  function TouchedStake(i: PoolInstruction): Pubkey
    requires i.Deposit? || i.Withdraw?
  {
    if i.Deposit? then i.validatorStake else i.splitFrom
  }

  /** Its validator's record ends up with the lamports it then has; the other records, the authorities
      and the clock stay. */
  lemma RecordFollowsStake(s: State, i: PoolInstruction)
    requires (i.Deposit? || i.Withdraw?) && ExecuteSpec(s, i).Ok? && DistinctValidators(s.list.validators)
    ensures var s' := ExecuteSpec(s, i).value;
            && BalanceRecorded(s, s', TouchedStake(i), Load(s'.ledger, TouchedStake(i)).lamports)
            && s'.authorities == s.authorities && s'.clock == s.clock
  {
    UserGateIff(s, TouchedStake(i));
  }

  /** The minted tokens go to the depositor's account and nowhere else; the deposited stake account ends
      empty, the validator's with all its lamports. */
  lemma DepositDoes(s: State, i: PoolInstruction)
    requires i.Deposit? && ExecuteSpec(s, i).Ok?
    ensures var s' := ExecuteSpec(s, i).value;
            && (forall k :: Amount(s'.ledger, k) == Amount(s.ledger, k) + IfSame(k, i.destination, Minted(s, i)))
            && (forall k :: Supply(s'.ledger, k) == Supply(s.ledger, k) + IfSame(k, i.mint, Minted(s, i)))
            && Load(s'.ledger, i.stake).lamports == 0
            && Load(s'.ledger, i.validatorStake).lamports
               == Load(s.ledger, i.validatorStake).lamports + Load(s.ledger, i.stake).lamports
            && OnlyAt(s.ledger, s'.ledger, {i.stake, i.validatorStake, i.mint, i.destination})
  {
    UserGateIff(s, i.validatorStake);
    MergeDoes(s.ledger, i.stake, i.validatorStake, i.accepts);
    var merged := MergeSpec(s.ledger, i.stake, i.validatorStake, i.accepts).value;
    TokensKeptKeepsMinting(s.ledger, merged, i.mint, i.destination, AccountMeta(s.authorities.withdraw, true), Minted(s, i));
    PoolMints(s, merged, i.mint, i.destination, Minted(s, i));
  }

  lemma WithdrawSucceedsIff(s: State, i: PoolInstruction)
    requires i.Withdraw?
    ensures ExecuteSpec(s, i).Ok? <==>
              && UpToDate(s) && (exists v | v in s.list.validators :: StakesFor(s, i.splitFrom, v.validatorAccount))
              && var lamports := CalcLamportsAmount(s.pool.stakeTotal, s.pool.poolTotal, i.poolAmount);
                 lamports.Some? && i.accepts && SplitAllowed(s.ledger, i.splitFrom, i.splitTo, lamports.value)
                 && PoolMayBurn(s, i.mint, i.burnFrom, i.poolAmount)
  {
    UserGateIff(s, i.splitFrom);
    var lamports := CalcLamportsAmount(s.pool.stakeTotal, s.pool.poolTotal, i.poolAmount);
    if lamports.Some? {
      SplitDoes(s.ledger, i.splitFrom, i.splitTo, lamports.value, i.accepts);
      if i.accepts && SplitAllowed(s.ledger, i.splitFrom, i.splitTo, lamports.value) {
        var split := SplitSpec(s.ledger, i.splitFrom, i.splitTo, lamports.value, i.accepts).value;
        TokensKeptKeepsBurning(s.ledger, split, i.burnFrom, i.mint, AccountMeta(s.authorities.withdraw, true), i.poolAmount);
        PoolBurns(s, split, i.mint, i.burnFrom, i.poolAmount);
      }
    }
  }

  /** The burned tokens come from the holder's account and nowhere else; their worth in lamports moves
      from the validator's stake account to the withdrawer's, which keeps the delegation. */
  lemma WithdrawDoes(s: State, i: PoolInstruction)
    requires i.Withdraw? && ExecuteSpec(s, i).Ok?
    ensures var s' := ExecuteSpec(s, i).value;
            var lamports := CalcLamportsAmount(s.pool.stakeTotal, s.pool.poolTotal, i.poolAmount);
            && (forall k :: Amount(s'.ledger, k) == Amount(s.ledger, k) - IfSame(k, i.burnFrom, i.poolAmount))
            && (forall k :: Supply(s'.ledger, k) == Supply(s.ledger, k) - IfSame(k, i.mint, i.poolAmount))
            && lamports.Some?
            && Load(s'.ledger, i.splitFrom).lamports == Load(s.ledger, i.splitFrom).lamports - lamports.value
            && Load(s'.ledger, i.splitTo).lamports == Load(s.ledger, i.splitTo).lamports + lamports.value
            && Load(s'.ledger, i.splitTo).record.StakeRecord?
            && OnlyAt(s.ledger, s'.ledger, {i.splitFrom, i.splitTo, i.mint, i.burnFrom})
  {
    UserGateIff(s, i.splitFrom);
    var lamports := CalcLamportsAmount(s.pool.stakeTotal, s.pool.poolTotal, i.poolAmount).value;
    SplitDoes(s.ledger, i.splitFrom, i.splitTo, lamports, i.accepts);
    var split := SplitSpec(s.ledger, i.splitFrom, i.splitTo, lamports, i.accepts).value;
    TokensKeptKeepsBurning(s.ledger, split, i.burnFrom, i.mint, AccountMeta(s.authorities.withdraw, true), i.poolAmount);
    PoolBurns(s, split, i.mint, i.burnFrom, i.poolAmount);
  }

  // ---------- validators ----------

  lemma AddSucceedsIff(s: State, i: PoolInstruction)
    requires i.AddValidator?
    ensures ExecuteSpec(s, i).Ok? <==>
              && UpToDate(s) && OwnerSigned(s, i.owner) && i.mint == s.pool.poolMint
              && (exists v :: StakesFor(s, i.stakeAccount, v) && !Contains(s.list.validators, v))
              && i.accepts && |s.list.validators| < 1000
              && var tokens := CalcPoolDepositAmount(s.pool.stakeTotal, s.pool.poolTotal, Load(s.ledger, i.stakeAccount).lamports);
                 tokens.Some? && PoolMayMint(s, i.mint, i.destination, tokens.value)
  {
    OwnerGateIff(s, i.owner, i.stakeAccount, i.mint);
    var tokens := CalcPoolDepositAmount(s.pool.stakeTotal, s.pool.poolTotal, Load(s.ledger, i.stakeAccount).lamports);
    if tokens.Some? {
      PoolMints(s, s.ledger, i.mint, i.destination, tokens.value);
    }
    if OwnerGate(s, i.owner, i.stakeAccount, i.mint).Ok? {
      assert StakesFor(s, i.stakeAccount, OwnerGate(s, i.owner, i.stakeAccount, i.mint).value);
    }
  }

  /** The owner's account gets the tokens; the validator joins the end of the list with its lamports and
      the clock's epoch, and no record before it changes. */
  lemma AddDoes(s: State, i: PoolInstruction)
    requires i.AddValidator? && ExecuteSpec(s, i).Ok?
    ensures var s' := ExecuteSpec(s, i).value;
            var n := |s.list.validators|;
            && (forall k :: Amount(s'.ledger, k) == Amount(s.ledger, k) + IfSame(k, i.destination, Minted(s, i)))
            && (forall k :: Supply(s'.ledger, k) == Supply(s.ledger, k) + IfSame(k, i.mint, Minted(s, i)))
            && OnlyAt(s.ledger, s'.ledger, {i.mint, i.destination})
            && s'.list.version == s.list.version && |s'.list.validators| == n + 1
            && s'.list.validators[..n] == s.list.validators
            && StakesFor(s, i.stakeAccount, s'.list.validators[n].validatorAccount)
            && s'.list.validators[n].balance == Load(s.ledger, i.stakeAccount).lamports
            && s'.list.validators[n].lastUpdateEpoch == s.clock
            && s'.authorities == s.authorities && s'.clock == s.clock
  {
    OwnerGateIff(s, i.owner, i.stakeAccount, i.mint);
    PoolMints(s, s.ledger, i.mint, i.destination, Minted(s, i));
  }

  lemma RemoveSucceedsIff(s: State, i: PoolInstruction)
    requires i.RemoveValidator?
    ensures ExecuteSpec(s, i).Ok? <==>
              && UpToDate(s) && OwnerSigned(s, i.owner) && i.mint == s.pool.poolMint
              && (exists v :: StakesFor(s, i.stakeAccount, v) && Contains(s.list.validators, v))
              && i.accepts
              && var tokens := CalcPoolWithdrawAmount(s.pool.stakeTotal, s.pool.poolTotal, Load(s.ledger, i.stakeAccount).lamports);
                 tokens.Some? && PoolMayBurn(s, i.mint, i.burnFrom, tokens.value)
  {
    OwnerGateIff(s, i.owner, i.stakeAccount, i.mint);
    var tokens := CalcPoolWithdrawAmount(s.pool.stakeTotal, s.pool.poolTotal, Load(s.ledger, i.stakeAccount).lamports);
    if tokens.Some? {
      PoolBurns(s, s.ledger, i.mint, i.burnFrom, tokens.value);
    }
    if OwnerGate(s, i.owner, i.stakeAccount, i.mint).Ok? {
      assert StakesFor(s, i.stakeAccount, OwnerGate(s, i.owner, i.stakeAccount, i.mint).value);
    }
  }

  /** The tokens come from the account the owner names; the validator leaves the list, which otherwise
      keeps its records and their order. */
  lemma RemoveDoes(s: State, i: PoolInstruction)
    requires i.RemoveValidator? && ExecuteSpec(s, i).Ok? && DistinctValidators(s.list.validators)
    ensures var s' := ExecuteSpec(s, i).value;
            var tokens := CalcPoolWithdrawAmount(s.pool.stakeTotal, s.pool.poolTotal, Load(s.ledger, i.stakeAccount).lamports);
            && tokens.Some?
            && (forall k :: Amount(s'.ledger, k) == Amount(s.ledger, k) - IfSame(k, i.burnFrom, tokens.value))
            && (forall k :: Supply(s'.ledger, k) == Supply(s.ledger, k) - IfSame(k, i.mint, tokens.value))
            && OnlyAt(s.ledger, s'.ledger, {i.mint, i.burnFrom})
            && s'.list.version == s.list.version
            && s'.authorities == s.authorities && s'.clock == s.clock
    ensures exists at | 0 <= at < |s.list.validators| ::
              && StakesFor(s, i.stakeAccount, s.list.validators[at].validatorAccount)
              && ExecuteSpec(s, i).value.list.validators == s.list.validators[..at] + s.list.validators[at + 1..]
  {
    OwnerGateIff(s, i.owner, i.stakeAccount, i.mint);
    var tokens := CalcPoolWithdrawAmount(s.pool.stakeTotal, s.pool.poolTotal, Load(s.ledger, i.stakeAccount).lamports).value;
    PoolBurns(s, s.ledger, i.mint, i.burnFrom, tokens);
    var v := OwnerGate(s, i.owner, i.stakeAccount, i.mint).value;
    var at := Find(s.list.validators, v).value;
    WithoutDistinct(s.list.validators, v, at);
  }

  lemma {:induction false} WithoutDistinct(validators: seq<ValidatorStakeInfo>, validator: Pubkey, at: nat)
    requires DistinctValidators(validators) && at < |validators| && validators[at].validatorAccount == validator
    ensures Without(validators, validator) == validators[..at] + validators[at + 1..]
  {
    var rest := validators[1..];
    assert forall k | 0 <= k < |rest| :: rest[k] == validators[k + 1];
    if at == 0 {
      NoneWithout(rest, validator);
    } else {
      WithoutDistinct(rest, validator, at - 1);
      assert rest[..at - 1] + rest[at..] == validators[1..at] + validators[at + 1..];
    }
  }

  lemma {:induction false} NoneWithout(validators: seq<ValidatorStakeInfo>, validator: Pubkey)
    requires forall k | 0 <= k < |validators| :: validators[k].validatorAccount != validator
    ensures Without(validators, validator) == validators
  {
    if validators != [] {
      NoneWithout(validators[1..], validator);
    }
  }

  // ---------- reasons for failing ----------

  /** Adding fails over the validator only for a listed one, and over the calculation only where the
      worth is no number of 64 bits. */
  lemma AddFailsTruly(s: State, i: PoolInstruction)
    requires i.AddValidator?
    ensures ExecuteSpec(s, i) == Err(Pool(ValidatorAlreadyAdded)) ==>
              exists v :: StakesFor(s, i.stakeAccount, v) && Contains(s.list.validators, v)
    ensures ExecuteSpec(s, i) == Err(Pool(CalculationFailure)) ==>
              CalcPoolDepositAmount(s.pool.stakeTotal, s.pool.poolTotal, Load(s.ledger, i.stakeAccount).lamports) == None
  {
    var gate := OwnerGate(s, i.owner, i.stakeAccount, i.mint);
    assert gate.Ok? ==> StakesFor(s, i.stakeAccount, gate.value);
  }

  lemma RemoveFailsTruly(s: State, i: PoolInstruction)
    requires i.RemoveValidator?
    ensures ExecuteSpec(s, i) == Err(Pool(ValidatorNotFound)) ==>
              exists v :: StakesFor(s, i.stakeAccount, v) && !Contains(s.list.validators, v)
    ensures ExecuteSpec(s, i) == Err(Pool(CalculationFailure)) ==>
              CalcPoolWithdrawAmount(s.pool.stakeTotal, s.pool.poolTotal, Load(s.ledger, i.stakeAccount).lamports) == None
  {
    var gate := OwnerGate(s, i.owner, i.stakeAccount, i.mint);
    assert gate.Ok? ==> StakesFor(s, i.stakeAccount, gate.value);
  }

  lemma DepositFailsTruly(s: State, i: PoolInstruction)
    requires i.Deposit?
    ensures ExecuteSpec(s, i) == Err(Pool(CalculationFailure)) ==>
              CalcPoolDepositAmount(s.pool.stakeTotal, s.pool.poolTotal, Load(s.ledger, i.stake).lamports) == None
    ensures ExecuteSpec(s, i) == Err(StakeProgramRejected) ==> !i.accepts || !MergeAllowed(s.ledger, i.stake, i.validatorStake)
  {
  }

  lemma WithdrawFailsTruly(s: State, i: PoolInstruction)
    requires i.Withdraw?
    ensures ExecuteSpec(s, i) == Err(Pool(CalculationFailure)) ==>
              CalcLamportsAmount(s.pool.stakeTotal, s.pool.poolTotal, i.poolAmount) == None
    ensures ExecuteSpec(s, i) == Err(StakeProgramRejected) ==>
              var lamports := CalcLamportsAmount(s.pool.stakeTotal, s.pool.poolTotal, i.poolAmount);
              !i.accepts || lamports.None? || !SplitAllowed(s.ledger, i.splitFrom, i.splitTo, lamports.value)
  {
  }

  // ---------- totals ----------

  /** The lamports an instruction brings into the recorded stake, and the tokens into the total. */
  function StakeIn(s: State, i: PoolInstruction): int {
    match i
    case AddValidator(_, stakeAccount, _, _, _) => Load(s.ledger, stakeAccount).lamports
    case RemoveValidator(_, stakeAccount, _, _, _) => 0 - Load(s.ledger, stakeAccount).lamports
    case Deposit(stake, _, _, _, _) => Load(s.ledger, stake).lamports
    case Withdraw(_, _, _, _, poolAmount, _) => 0 - ValueOr0(CalcLamportsAmount(s.pool.stakeTotal, s.pool.poolTotal, poolAmount))
    case _ => 0
  }

  function TokensIn(s: State, i: PoolInstruction): int {
    match i
    case RemoveValidator(_, stakeAccount, _, _, _) =>
      0 - ValueOr0(CalcPoolWithdrawAmount(s.pool.stakeTotal, s.pool.poolTotal, Load(s.ledger, stakeAccount).lamports))
    case Withdraw(_, _, _, _, poolAmount, _) => 0 - poolAmount
    case _ => Minted(s, i)
  }

  function ValueOr0(o: Option<u64>): u64 {
    if o.Some? then o.value else 0
  }

  /** Adding and depositing raise both totals by what comes in, */
  lemma TotalsRise(s: State, i: PoolInstruction)
    requires ExecuteSpec(s, i).Ok? && (i.AddValidator? || i.Deposit?)
    ensures ExecuteSpec(s, i).value.pool
            == s.pool.(stakeTotal := WrapAdd(s.pool.stakeTotal, StakeIn(s, i)),
                       poolTotal := WrapAdd(s.pool.poolTotal, TokensIn(s, i)))
  {
  }

  /** removing and withdrawing lower both by what goes out, */
  lemma TotalsFall(s: State, i: PoolInstruction)
    requires ExecuteSpec(s, i).Ok? && (i.RemoveValidator? || i.Withdraw?)
    ensures ExecuteSpec(s, i).value.pool
            == s.pool.(stakeTotal := WrapSub(s.pool.stakeTotal, -StakeIn(s, i)),
                       poolTotal := WrapSub(s.pool.poolTotal, -TokensIn(s, i)))
  {
  }

  /** and list updates and the liquidity pool leave the pool as it is. */
  lemma OthersKeepPool(s: State, i: PoolInstruction)
    requires ExecuteSpec(s, i).Ok? && (i.UpdateListBalance? || i.AddLiquidity? || i.SellStSol?)
    ensures ExecuteSpec(s, i).value.pool == s.pool
  {
  }

  // ---------- updates ----------

  /** Succeeds on any initialized list. A record older than the clock whose key is among the accounts
      passed gets that account's lamports and the clock's epoch; every other record stays, and so do
      keys, order, totals and all accounts. */
  lemma UpdateListDoes(s: State, accounts: seq<Pubkey>)
    ensures ExecuteSpec(s, UpdateListBalance(accounts)).Ok? <==> s.list.version > 0
    ensures s.list.version > 0 ==>
              var s' := ExecuteSpec(s, UpdateListBalance(accounts)).value;
              && s' == s.(list := s'.list) && s'.list.version == s.list.version
              && |s'.list.validators| == |s.list.validators|
              && forall k | 0 <= k < |s.list.validators| ::
                   var v := s.list.validators[k];
                   var v' := s'.list.validators[k];
                   && v'.validatorAccount == v.validatorAccount
                   && if v.lastUpdateEpoch < s.clock && v.validatorAccount in accounts then
                        v'.balance == Load(s.ledger, v.validatorAccount).lamports && v'.lastUpdateEpoch == s.clock
                      else v' == v
  {
  }

  /** Succeeds exactly when pool and list are initialized and no record is older than the clock; then the
      recorded stake is the sum of the balances modulo 2^64, of the clock's epoch. */
  lemma UpdatePoolDoes(s: State)
    ensures ExecuteSpec(s, UpdatePoolBalance).Ok? <==>
              s.pool.version > 0 && s.list.version > 0 && forall v | v in s.list.validators :: s.clock <= v.lastUpdateEpoch
    ensures ExecuteSpec(s, UpdatePoolBalance) == Err(Pool(StakeListOutOfDate)) ==>
              exists v | v in s.list.validators :: v.lastUpdateEpoch < s.clock
    ensures ExecuteSpec(s, UpdatePoolBalance).Ok? ==>
              var s' := ExecuteSpec(s, UpdatePoolBalance).value;
              && s'.pool.stakeTotal == SumBalances(s.list.validators) % 0x1_0000_0000_0000_0000
              && s'.pool.lastUpdateEpoch == s.clock
              && s' == s.(pool := s.pool.(stakeTotal := s'.pool.stakeTotal, lastUpdateEpoch := s.clock))
  {
  }

  /** What the record shows once it is current: the lamports of the account of its key if it was not, and
      its balance if it was. */
  function Holds(s: State, v: ValidatorStakeInfo): u64 {
    if v.lastUpdateEpoch < s.clock then Load(s.ledger, v.validatorAccount).lamports else v.balance
  }

  function SumHeld(s: State, validators: seq<ValidatorStakeInfo>): nat {
    if validators == [] then 0
    else SumHeld(s, validators[..|validators| - 1]) + Holds(s, validators[|validators| - 1])
  }

  /** `s'` is `s` after some of its outdated records were updated, and nothing else. */
  predicate PartlyUpdated(s: State, s': State) {
    && s' == s.(list := s'.list) && s'.list.version == s.list.version
    && |s'.list.validators| == |s.list.validators|
    && forall k | 0 <= k < |s.list.validators| ::
         || s'.list.validators[k] == s.list.validators[k]
         || (s.list.validators[k].lastUpdateEpoch < s.clock
             && s'.list.validators[k]
                == s.list.validators[k].(lastUpdateEpoch := s.clock, balance := Holds(s, s.list.validators[k])))
  }

  lemma {:induction false} UpdatesAccumulate(w: World, steps: seq<Step>)
    requires forall k | 0 <= k < |steps| :: steps[k].Execute? && steps[k].instruction.UpdateListBalance?
    ensures PartlyUpdated(w.state, RunAll(w, steps).state)
  {
    if steps != [] {
      var front := steps[..|steps| - 1];
      UpdatesAccumulate(w, front);
      var s := RunAll(w, front).state;
      UpdateListDoes(s, steps[|steps| - 1].instruction.accounts);
    }
  }

  lemma {:induction false} SumOfUpdated(s: State, before: seq<ValidatorStakeInfo>, after: seq<ValidatorStakeInfo>)
    requires |before| == |after|
    requires forall k | 0 <= k < |before| :: after[k].balance == Holds(s, before[k])
    ensures SumBalances(after) == SumHeld(s, before)
  {
    if before != [] {
      SumOfUpdated(s, before[..|before| - 1], after[..|after| - 1]);
    }
  }

  /** After any number of list updates in an epoch, a pool update that succeeds brings in what the
      accounts of all outdated records hold: rewards reach the pool. */
  lemma RewardsReachThePool(w: World, steps: seq<Step>)
    requires forall k | 0 <= k < |steps| :: steps[k].Execute? && steps[k].instruction.UpdateListBalance?
    requires ExecuteSpec(RunAll(w, steps).state, UpdatePoolBalance).Ok?
    ensures ExecuteSpec(RunAll(w, steps).state, UpdatePoolBalance).value.pool.stakeTotal
            == SumHeld(w.state, w.state.list.validators) % 0x1_0000_0000_0000_0000
  {
    UpdatesAccumulate(w, steps);
    var s' := RunAll(w, steps).state;
    UpdatePoolDoes(s');
    forall k | 0 <= k < |w.state.list.validators|
      ensures s'.list.validators[k].balance == Holds(w.state, w.state.list.validators[k])
    {
      assert s'.list.validators[k] in s'.list.validators;
    }
    SumOfUpdated(w.state, w.state.list.validators, s'.list.validators);
  }

  /** And one that passes the accounts of all outdated records makes the pool update succeed. */
  lemma UpdatingAllSuffices(w: World, accounts: seq<Pubkey>)
    requires w.state.pool.version > 0 && w.state.list.version > 0
    requires forall v | v in w.state.list.validators && v.lastUpdateEpoch < w.state.clock :: v.validatorAccount in accounts
    ensures ExecuteSpec(Advance(w, Execute(UpdateListBalance(accounts))).state, UpdatePoolBalance).Ok?
  {
    UpdateListDoes(w.state, accounts);
    UpdatePoolDoes(Advance(w, Execute(UpdateListBalance(accounts))).state);
  }

  /** Once the clock has passed the pool's epoch, nobody enters or leaves at the old price: every
      addition, removal, deposit and withdrawal fails until the pool is updated. */
  lemma StalePoolRefuses(w: World, epoch: u64, i: PoolInstruction)
    requires w.state.clock <= epoch && w.state.pool.lastUpdateEpoch < epoch
    requires i.AddValidator? || i.RemoveValidator? || i.Deposit? || i.Withdraw?
    ensures var w' := Advance(w, Tick(epoch));
            ExecuteSpec(w'.state, i).Err? && Advance(w', Execute(i)) == w'
  {
    var s := Advance(w, Tick(epoch)).state;
    if i.AddValidator? || i.RemoveValidator? {
      OwnerGateIff(s, i.owner, i.stakeAccount, i.mint);
    } else {
      UserGateIff(s, if i.Deposit? then i.validatorStake else i.splitFrom);
    }
  }

  // ---------- initializing ----------

  lemma InitializeSucceedsIff(s: State, i: PoolInstruction)
    requires i.Initialize?
    ensures ExecuteSpec(s, i).Ok? <==>
              && i.owner.isSigner && s.pool.version == 0 && s.list.version == 0 && i.rentExempt
              && i.fee.numerator <= i.fee.denominator
              && Load(s.ledger, i.feeAccount).record.AccountRecord?
              && s.ledger[i.feeAccount].record.account.mint == i.mint
              && Load(s.ledger, i.mint).record.MintRecord?
              && s.ledger[i.mint].record.mint.mintAuthority == Some(s.authorities.withdraw)
    ensures ExecuteSpec(s, i) == Err(Pool(FeeTooHigh)) ==> i.fee.numerator > i.fee.denominator
    ensures ExecuteSpec(s, i) == Err(Pool(PoolAlreadyInUse)) ==> s.pool.version > 0 || s.list.version > 0
    ensures ExecuteSpec(s, i) == Err(Pool(SignatureMissing)) <==> !i.owner.isSigner
    ensures ExecuteSpec(s, i) == Err(Pool(WrongMintingAuthority)) ==>
              s.ledger[i.mint].record.mint.mintAuthority != Some(s.authorities.withdraw)
  {
  }

  /** The pool belongs to the signer, with its mint, fee account and fee, of the clock's epoch; the list
      is empty; totals and accounts stay. */
  lemma InitializeDoes(s: State, i: PoolInstruction)
    requires i.Initialize? && ExecuteSpec(s, i).Ok?
    ensures var s' := ExecuteSpec(s, i).value;
            && s'.pool.version == 1 && s'.pool.owner == i.owner.key && s'.pool.poolMint == i.mint
            && s'.pool.ownerFeeAccount == i.feeAccount && s'.pool.fee == i.fee && s'.pool.lastUpdateEpoch == s.clock
            && s'.pool.stakeTotal == s.pool.stakeTotal && s'.pool.poolTotal == s.pool.poolTotal
            && s'.list == ValidatorStakeList(1, [])
            && s'.ledger == s.ledger && s'.authorities == s.authorities && s'.clock == s.clock
  {
  }
}
