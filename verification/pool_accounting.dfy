/** The pool's recorded stake as a cache of its list: when it equals the sum of the recorded
    balances, and which instructions keep it so. */
module PoolAccounting {
  import opened Basics
  import opened TokenState
  import opened ValidatorList
  import opened PoolMath
  import opened PoolSpec
  import opened PoolSafety

  /** Every record was updated in the pool's epoch. */
  predicate AllOfPoolEpoch(s: State) {
    forall i | 0 <= i < |s.list.validators| :: s.list.validators[i].lastUpdateEpoch == s.pool.lastUpdateEpoch
  }

  /** Whenever every record is of the pool's epoch, the recorded stake is their sum. */
  predicate StakeTracked(s: State) {
    AllOfPoolEpoch(s) ==> s.pool.stakeTotal == SumBalances(s.list.validators)
  }

  // ---------- sums of balances ----------

  lemma {:induction false} SumReplace(validators: seq<ValidatorStakeInfo>, i: nat, v: ValidatorStakeInfo)
    requires i < |validators|
    ensures SumBalances(validators[i := v]) == SumBalances(validators) - validators[i].balance + v.balance
    ensures validators[i].balance <= SumBalances(validators)
  {
    var last := |validators| - 1;
    if i == last {
      assert validators[i := v][..last] == validators[..last];
    } else {
      SumReplace(validators[..last], i, v);
      assert validators[i := v][..last] == validators[..last][i := v];
    }
  }

  lemma {:induction false} SumCons(v: ValidatorStakeInfo, rest: seq<ValidatorStakeInfo>)
    ensures SumBalances([v] + rest) == v.balance + SumBalances(rest)
  {
    if rest != [] {
      var last := |rest| - 1;
      SumCons(v, rest[..last]);
      assert ([v] + rest)[..|rest|] == [v] + rest[..last];
    }
  }

  lemma {:induction false} WithoutAbsent(validators: seq<ValidatorStakeInfo>, validator: Pubkey)
    requires !Contains(validators, validator)
    ensures Without(validators, validator) == validators
  {
    if validators != [] {
      assert validators[0].validatorAccount != validator;
      assert forall i | 0 <= i < |validators[1..]| :: validators[1..][i] == validators[i + 1];
      WithoutAbsent(validators[1..], validator);
    }
  }

  /** The recorded balance of a listed validator. */
  function BalanceOf(validators: seq<ValidatorStakeInfo>, validator: Pubkey): u64
    requires Contains(validators, validator)
  {
    validators[Find(validators, validator).value].balance
  }

  lemma DistinctTail(validators: seq<ValidatorStakeInfo>)
    requires validators != [] && DistinctValidators(validators)
    ensures DistinctValidators(validators[1..]) && !Contains(validators[1..], validators[0].validatorAccount)
  {
    assert forall i | 0 <= i < |validators[1..]| :: validators[1..][i] == validators[i + 1];
  }

  lemma {:induction false} SumWithout(validators: seq<ValidatorStakeInfo>, validator: Pubkey)
    requires DistinctValidators(validators) && Find(validators, validator).Some?
    ensures SumBalances(Without(validators, validator)) == SumBalances(validators) - BalanceOf(validators, validator)
  {
    var (head, rest) := (validators[0], validators[1..]);
    DistinctTail(validators);
    assert validators == [head] + rest;
    SumCons(head, rest);
    if head.validatorAccount == validator {
      WithoutAbsent(rest, validator);
    } else {
      SumWithout(rest, validator);
      SumCons(head, Without(rest, validator));
    }
  }

  // ---------- exactly when each instruction keeps the cache ----------

  /** The stake account an instruction touches holds the balance recorded for its validator. */
  predicate HoldsRecorded(s: State, stakeAccount: Pubkey) {
    var validator := GetValidatorChecked(Load(s.ledger, stakeAccount));
    validator.Ok? && Contains(s.list.validators, validator.value)
    && Load(s.ledger, stakeAccount).lamports == BalanceOf(s.list.validators, validator.value)
  }

  /** The condition under which an instruction keeps the recorded stake equal to the sum: the
      touched stake account holds its recorded balance, and the stake added fits. */
  predicate StakeFits(s: State, i: PoolInstruction) {
    match i
    case Deposit(stake, validatorStake, _, _, _) =>
      HoldsRecorded(s, validatorStake) && s.pool.stakeTotal + Load(s.ledger, stake).lamports < U64_RANGE
    case Withdraw(splitFrom, _, _, _, _, _) => HoldsRecorded(s, splitFrom)
    case RemoveValidator(_, stakeAccount, _, _, _) => HoldsRecorded(s, stakeAccount)
    case AddValidator(_, stakeAccount, _, _, _) =>
      s.pool.stakeTotal + Load(s.ledger, stakeAccount).lamports < U64_RANGE
    case UpdatePoolBalance => SumBalances(s.list.validators) < U64_RANGE
    case _ => true
  }

  /** `s'` has one balance of `s` rewritten with the lamports that its stake account ends with. */
  predicate RewritesBalance(s: State, s': State, stakeAccount: Pubkey) {
    var at := UserGate(s, stakeAccount);
    && at.Ok? && s'.pool.lastUpdateEpoch == s.pool.lastUpdateEpoch
    && s'.list == WithBalance(s.list, at.value, Load(s'.ledger, stakeAccount).lamports)
  }

  lemma DepositRewrites(s: State, i: PoolInstruction)
    requires i.Deposit? && ExecuteSpec(s, i).Ok?
    ensures RewritesBalance(s, ExecuteSpec(s, i).value, i.validatorStake)
  {
  }

  lemma WithdrawRewrites(s: State, i: PoolInstruction)
    requires i.Withdraw? && ExecuteSpec(s, i).Ok?
    ensures RewritesBalance(s, ExecuteSpec(s, i).value, i.splitFrom)
  {
  }

  /** After such a step the cache is right exactly when the stake total moved by as much as the
      recorded balance. */
  lemma BalanceSum(s: State, s': State, stakeAccount: Pubkey)
    requires ListOk(s) && StakeTracked(s) && RewritesBalance(s, s', stakeAccount)
    ensures var validator := GetValidatorChecked(Load(s.ledger, stakeAccount));
            && validator.Ok? && Contains(s.list.validators, validator.value)
            && BalanceOf(s.list.validators, validator.value) <= s.pool.stakeTotal
            && (StakeTracked(s') <==>
                  s'.pool.stakeTotal - s.pool.stakeTotal
                  == Load(s'.ledger, stakeAccount).lamports - BalanceOf(s.list.validators, validator.value))
  {
    var at := UserGate(s, stakeAccount).value;
    SumReplace(s.list.validators, at, s'.list.validators[at]);
    assert AllOfPoolEpoch(s) && AllOfPoolEpoch(s');
  }

  lemma DepositTracks(w: World, i: PoolInstruction)
    requires Inv(w) && ListOk(w.state) && StakeTracked(w.state) && i.Deposit? && ExecuteSpec(w.state, i).Ok?
    ensures StakeTracked(ExecuteSpec(w.state, i).value) <==> StakeFits(w.state, i)
  {
    DepositEffect(w, i);
    DepositRewrites(w.state, i);
    BalanceSum(w.state, ExecuteSpec(w.state, i).value, i.validatorStake);
  }

  /** A withdrawal takes the same lamports from the stake account and, wrapping, from the stake total. */
  lemma WithdrawMovesBoth(w: World, i: PoolInstruction) returns (lamports: u64)
    requires Inv(w) && i.Withdraw? && ExecuteSpec(w.state, i).Ok?
    ensures var s := w.state;
            var s' := ExecuteSpec(w.state, i).value;
            && s'.pool.stakeTotal == WrapSub(s.pool.stakeTotal, lamports)
            && Load(s'.ledger, i.splitFrom).lamports == Load(s.ledger, i.splitFrom).lamports - lamports
  {
    WithdrawEffect(w, i);
    lamports := CalcLamportsAmount(w.state.pool.stakeTotal, w.state.pool.poolTotal, i.poolAmount).value;
  }

  /** A recorded balance is part of the sum, so what the stake account holds of it is no more than the
      stake total: only if it held something else can the total wrap or miss the sum. */
  lemma WithdrawTracks(w: World, i: PoolInstruction)
    requires Inv(w) && ListOk(w.state) && StakeTracked(w.state) && i.Withdraw? && ExecuteSpec(w.state, i).Ok?
    ensures StakeTracked(ExecuteSpec(w.state, i).value) <==> StakeFits(w.state, i)
  {
    var lamports := WithdrawMovesBoth(w, i);
    WithdrawRewrites(w.state, i);
    BalanceSum(w.state, ExecuteSpec(w.state, i).value, i.splitFrom);
  }

  lemma RemoveSum(s: State, i: PoolInstruction)
    requires ListOk(s) && i.RemoveValidator? && ExecuteSpec(s, i).Ok?
    ensures var s' := ExecuteSpec(s, i).value;
            var validator := OwnerGate(s, i.owner, i.stakeAccount, i.mint).value;
            && AllOfPoolEpoch(s) && AllOfPoolEpoch(s')
            && Contains(s.list.validators, validator)
            && SumBalances(s'.list.validators) == SumBalances(s.list.validators) - BalanceOf(s.list.validators, validator)
  {
    var s' := ExecuteSpec(s, i).value;
    var validator := OwnerGate(s, i.owner, i.stakeAccount, i.mint).value;
    SumWithout(s.list.validators, validator);
    WithoutKeepsOthers(s.list.validators, validator);
    forall k | 0 <= k < |s'.list.validators|
      ensures s'.list.validators[k].lastUpdateEpoch == s'.pool.lastUpdateEpoch
    {
      assert s'.list.validators[k] in s.list.validators;
    }
  }

  lemma RemoveTracks(w: World, i: PoolInstruction)
    requires Inv(w) && ListOk(w.state) && StakeTracked(w.state) && i.RemoveValidator? && ExecuteSpec(w.state, i).Ok?
    ensures StakeTracked(ExecuteSpec(w.state, i).value) <==> StakeFits(w.state, i)
  {
    RemoveIsExact(w, i);
    RemoveSum(w.state, i);
  }

  lemma AddTracks(w: World, i: PoolInstruction)
    requires Inv(w) && ListOk(w.state) && StakeTracked(w.state) && i.AddValidator? && ExecuteSpec(w.state, i).Ok?
    ensures StakeTracked(ExecuteSpec(w.state, i).value) <==> StakeFits(w.state, i)
  {
    var (s, s') := (w.state, ExecuteSpec(w.state, i).value);
    assert s'.list.validators[..|s.list.validators|] == s.list.validators;
    assert AllOfPoolEpoch(s) && AllOfPoolEpoch(s');
  }

  lemma UpdatePoolTracks(w: World)
    requires ListOk(w.state) && ExecuteSpec(w.state, UpdatePoolBalance).Ok?
    ensures StakeTracked(ExecuteSpec(w.state, UpdatePoolBalance).value) <==> StakeFits(w.state, UpdatePoolBalance)
  {
    assert AllOfPoolEpoch(ExecuteSpec(w.state, UpdatePoolBalance).value);
  }

  /** Updating records moves them to the clock's epoch, which is the pool's only if nothing moves. */
  lemma UpdateListTracks(w: World, accounts: seq<Pubkey>)
    requires ListOk(w.state) && StakeTracked(w.state) && ExecuteSpec(w.state, UpdateListBalance(accounts)).Ok?
    ensures StakeTracked(ExecuteSpec(w.state, UpdateListBalance(accounts)).value)
  {
    var (s, s') := (w.state, ExecuteSpec(w.state, UpdateListBalance(accounts)).value);
    if AllOfPoolEpoch(s') {
      forall k | 0 <= k < |s.list.validators|
        ensures s.list.validators[k] == s'.list.validators[k]
      {
        assert s'.list.validators[k].lastUpdateEpoch == s'.pool.lastUpdateEpoch;
      }
      assert s.list.validators == s'.list.validators;
    }
  }

  /** One step keeps the cache when its condition holds; and for a pool instruction that succeeds,
      only then. */
  lemma AdvanceTracks(w: World, step: Step)
    requires Inv(w) && ListOk(w.state) && StakeTracked(w.state)
    ensures (step.Execute? ==> StakeFits(w.state, step.instruction)) ==> StakeTracked(Advance(w, step).state)
    ensures step.Execute? && Permitted(w.state, step) && ExecuteSpec(w.state, step.instruction).Ok? ==>
              (StakeTracked(Advance(w, step).state) <==> StakeFits(w.state, step.instruction))
  {
    if Permitted(w.state, step) && step.Execute? && ExecuteSpec(w.state, step.instruction).Ok? {
      var i := step.instruction;
      match i
      case Deposit(_, _, _, _, _) => DepositTracks(w, i);
      case Withdraw(_, _, _, _, _, _) => WithdrawTracks(w, i);
      case RemoveValidator(_, _, _, _, _) => RemoveTracks(w, i);
      case AddValidator(_, _, _, _, _) => AddTracks(w, i);
      case UpdatePoolBalance => UpdatePoolTracks(w);
      case UpdateListBalance(accounts) => UpdateListTracks(w, accounts);
      case Initialize(_, _, _, _, _) =>
      case AddLiquidity(_, _, _, _, _, _) =>
        var paid, shares := AddLiquidityCalls(w.state, i);
      case SellStSol(_, _, _, _, _, _) =>
        var received, value, fee := SellCalls(w.state, i);
    }
  }

  predicate StakeFitsOnRun(w: World, steps: seq<Step>) {
    steps == [] || (StakeFitsOnRun(w, steps[..|steps| - 1])
                    && (steps[|steps| - 1].Execute? ==>
                          StakeFits(RunAll(w, steps[..|steps| - 1]).state, steps[|steps| - 1].instruction)))
  }

  /** On every run from the start along which the touched stake accounts hold what is recorded for
      them and additions fit: whenever all records are of the pool's epoch, its stake is their sum. */
  lemma {:induction false} StakeTrackedOnEveryRun(w: World, steps: seq<Step>)
    requires Genesis(w) && TotalFitsOnRun(w, steps) && StakeFitsOnRun(w, steps)
    ensures StakeTracked(RunAll(w, steps).state)
  {
    if steps != [] {
      var front := steps[..|steps| - 1];
      StakeTrackedOnEveryRun(w, front);
      GenesisInv(w);
      RunKeepsInv(w, front);
      ListOnEveryRun(w, front);
      AdvanceTracks(RunAll(w, front), steps[|steps| - 1]);
    }
  }

  /** So on such a run a removal whose stake account holds its recorded balance subtracts exactly
      from the stake total too. */
  lemma RemovalOfRecordedBalanceNeverWraps(w: World, steps: seq<Step>, i: PoolInstruction)
    requires Genesis(w) && TotalFitsOnRun(w, steps) && StakeFitsOnRun(w, steps)
    requires i.RemoveValidator? && ExecuteSpec(RunAll(w, steps).state, i).Ok?
    requires HoldsRecorded(RunAll(w, steps).state, i.stakeAccount)
    ensures var s := RunAll(w, steps).state;
            var s' := ExecuteSpec(RunAll(w, steps).state, i).value;
            s'.pool.stakeTotal == s.pool.stakeTotal - Load(s.ledger, i.stakeAccount).lamports
  {
    var w' := RunAll(w, steps);
    GenesisInv(w);
    RunKeepsInv(w, steps);
    ListOnEveryRun(w, steps);
    StakeTrackedOnEveryRun(w, steps);
    RemovalOfRecordedBalance(w', i);
  }

  lemma RemovalOfRecordedBalance(w: World, i: PoolInstruction)
    requires Inv(w) && ListOk(w.state) && StakeTracked(w.state)
    requires i.RemoveValidator? && ExecuteSpec(w.state, i).Ok? && HoldsRecorded(w.state, i.stakeAccount)
    ensures ExecuteSpec(w.state, i).value.pool.stakeTotal
            == w.state.pool.stakeTotal - Load(w.state.ledger, i.stakeAccount).lamports
  {
    RemoveIsExact(w, i);
    RemoveSum(w.state, i);
  }
}
