/** The price of a pool token along runs: what goes in, what comes out, and who gains from rounding. */
module PoolPrice {
  import opened Basics
  import opened TokenState
  import opened TokenRuns
  import opened PoolMath
  import opened PoolSpec
  import opened PoolSafety

  /** Whether a step is an instruction that takes effect. */
  predicate Succeeds(s: State, step: Step) {
    step.Execute? && Permitted(s, step) && ExecuteSpec(s, step.instruction).Ok?
  }

  /** Steps that leave the price to deposits and withdrawals: all but removing a validator, which
      the owner decides, and updating the pool balance, which brings in rewards. */
  predicate AtPoolPrice(step: Step) {
    step.Execute? ==> !step.instruction.RemoveValidator? && !step.instruction.UpdatePoolBalance?
  }

  /** The lamports a step adds to the recorded stake. */
  function LamportsIn(s: State, step: Step): nat {
    if !Succeeds(s, step) then 0
    else
      match step.instruction
      case Deposit(stake, _, _, _, _) => Load(s.ledger, stake).lamports
      case AddValidator(_, stakeAccount, _, _, _) => Load(s.ledger, stakeAccount).lamports
      case _ => 0
  }

  /** The lamports a withdrawal pays out. */
  function LamportsOut(s: State, step: Step): nat {
    if !Succeeds(s, step) || !step.instruction.Withdraw? then 0
    else CalcLamportsAmount(s.pool.stakeTotal, s.pool.poolTotal, step.instruction.poolAmount).value
  }

  /** A withdrawal burns the pool's tokens, or at least no more than the token total. */
  predicate BurnsWithinTotal(s: State, i: PoolInstruction) {
    i.Withdraw? ==> i.mint == s.pool.poolMint || i.poolAmount <= s.pool.poolTotal
  }

  /** Neither total is carried past 2^64 or below zero, and the total keeps covering the supply. */
  predicate TotalsFit(s: State, step: Step) {
    && TotalFits(s, step)
    && s.pool.stakeTotal + LamportsIn(s, step) < U64_RANGE
    && (step.Execute? ==>
          s.pool.poolTotal + Minted(s, step.instruction) < U64_RANGE && BurnsWithinTotal(s, step.instruction))
  }

  // ---------- one step ----------

  /** The price does not fall from `p` to `p'`. */
  predicate NoCheaper(p: StakePool, p': StakePool) {
    p'.stakeTotal * p.poolTotal >= p.stakeTotal * p'.poolTotal
  }

  lemma MintedIsCalculated(s: State, i: PoolInstruction)
    requires (i.Deposit? || i.AddValidator?) && Succeeds(s, Execute(i))
    ensures CalcPoolDepositAmount(s.pool.stakeTotal, s.pool.poolTotal, LamportsIn(s, Execute(i))) == Some(Minted(s, i))
  {
  }

  lemma PaidIn(p: StakePool, p': StakePool, lamports: u64, tokens: u64)
    requires CalcPoolDepositAmount(p.stakeTotal, p.poolTotal, lamports) == Some(tokens)
    requires p'.stakeTotal == p.stakeTotal + lamports && p'.poolTotal == p.poolTotal + tokens
    ensures NoCheaper(p, p')
  {
    DepositPrice(p.stakeTotal, p.poolTotal, lamports);
  }

  lemma PaidOut(p: StakePool, p': StakePool, lamports: u64, tokens: u64)
    requires CalcLamportsAmount(p.stakeTotal, p.poolTotal, tokens) == Some(lamports) && tokens <= p.poolTotal
    requires p'.stakeTotal == p.stakeTotal - lamports && p'.poolTotal == p.poolTotal - tokens
    ensures NoCheaper(p, p')
  {
    WithdrawPrice(p.stakeTotal, p.poolTotal, tokens);
  }

  lemma DepositStep(w: World, i: PoolInstruction)
    requires Inv(w) && TotalsFit(w.state, Execute(i)) && Succeeds(w.state, Execute(i))
    requires i.Deposit? || i.AddValidator?
    ensures NoCheaper(w.state.pool, ExecuteSpec(w.state, i).value.pool)
    ensures ExecuteSpec(w.state, i).value.pool.stakeTotal == w.state.pool.stakeTotal + LamportsIn(w.state, Execute(i))
    ensures ExecuteSpec(w.state, i).value.pool.poolTotal == w.state.pool.poolTotal + Minted(w.state, i)
  {
    if i.Deposit? {
      DepositEffect(w, i);
    } else {
      AddKeeps(w, i);
    }
    MintedIsCalculated(w.state, i);
    PaidIn(w.state.pool, ExecuteSpec(w.state, i).value.pool, LamportsIn(w.state, Execute(i)), Minted(w.state, i));
  }

  lemma WithdrawTotals(w: World, i: PoolInstruction)
    requires Inv(w) && i.Withdraw? && Succeeds(w.state, Execute(i)) && BurnsWithinTotal(w.state, i)
    ensures var p := w.state.pool;
            var p' := ExecuteSpec(w.state, i).value.pool;
            var s := LamportsOut(w.state, Execute(i));
            && 0 < p.poolTotal && CalcLamportsAmount(p.stakeTotal, p.poolTotal, i.poolAmount) == Some(s)
            && p'.stakeTotal == p.stakeTotal - s && p'.poolTotal == p.poolTotal - i.poolAmount
  {
    WithdrawEffect(w, i);
    WithdrawIsExact(w, i);
  }

  lemma WithdrawStep(w: World, i: PoolInstruction)
    requires Inv(w) && i.Withdraw? && Succeeds(w.state, Execute(i)) && BurnsWithinTotal(w.state, i)
    ensures NoCheaper(w.state.pool, ExecuteSpec(w.state, i).value.pool)
    ensures ExecuteSpec(w.state, i).value.pool.stakeTotal == w.state.pool.stakeTotal - LamportsOut(w.state, Execute(i))
  {
    WithdrawTotals(w, i);
    PaidOut(w.state.pool, ExecuteSpec(w.state, i).value.pool, LamportsOut(w.state, Execute(i)), i.poolAmount);
  }

  /** All other steps leave both totals alone. */
  lemma OtherStep(w: World, step: Step)
    requires AtPoolPrice(step)
    requires step.Execute? ==> !step.instruction.Deposit? && !step.instruction.AddValidator? && !step.instruction.Withdraw?
    ensures Advance(w, step).state.pool.stakeTotal == w.state.pool.stakeTotal
    ensures Advance(w, step).state.pool.poolTotal == w.state.pool.poolTotal
  {
    if step.Execute? && Succeeds(w.state, step) {
      if step.instruction.AddLiquidity? {
        var paid, shares := AddLiquidityCalls(w.state, step.instruction);
      } else if step.instruction.SellStSol? {
        var received, value, fee := SellCalls(w.state, step.instruction);
      }
    }
  }

  /** No step lowers the price of a pool token, and the recorded stake changes by exactly what goes
      in and out. */
  lemma StepPrice(w: World, step: Step)
    requires Inv(w) && AtPoolPrice(step) && TotalsFit(w.state, step)
    ensures var p := w.state.pool;
            var p' := Advance(w, step).state.pool;
            && NoCheaper(p, p')
            && p'.stakeTotal == p.stakeTotal + LamportsIn(w.state, step) - LamportsOut(w.state, step)
  {
    if Succeeds(w.state, step) && (step.instruction.Deposit? || step.instruction.AddValidator?) {
      DepositStep(w, step.instruction);
    } else if Succeeds(w.state, step) && step.instruction.Withdraw? {
      WithdrawStep(w, step.instruction);
    } else if !step.Execute? || Succeeds(w.state, step) {
      OtherStep(w, step);
    }
  }

  // ---------- runs ----------

  /** Along the run every step is at the pool price, the totals fit, and there are pool tokens
      before and after it. */
  predicate PricedRun(w: World, steps: seq<Step>) {
    && RunAll(w, steps).state.pool.poolTotal > 0
    && (steps == [] ||
          (PricedRun(w, steps[..|steps| - 1]) && AtPoolPrice(steps[|steps| - 1])
           && TotalsFit(RunAll(w, steps[..|steps| - 1]).state, steps[|steps| - 1])))
  }

  function TotalIn(w: World, steps: seq<Step>): nat {
    if steps == [] then 0
    else TotalIn(w, steps[..|steps| - 1]) + LamportsIn(RunAll(w, steps[..|steps| - 1]).state, steps[|steps| - 1])
  }

  function TotalOut(w: World, steps: seq<Step>): nat {
    if steps == [] then 0
    else TotalOut(w, steps[..|steps| - 1]) + LamportsOut(RunAll(w, steps[..|steps| - 1]).state, steps[|steps| - 1])
  }

  lemma {:induction false} PricedRunFits(w: World, steps: seq<Step>)
    requires PricedRun(w, steps)
    ensures TotalFitsOnRun(w, steps)
  {
    if steps != [] {
      PricedRunFits(w, steps[..|steps| - 1]);
    }
  }

  /** Prices compare transitively as fractions with positive denominators. */
  lemma Chain(s0: nat, p0: nat, s1: nat, p1: nat, s2: nat, p2: nat)
    requires p1 > 0 && s1 * p0 >= s0 * p1 && s2 * p1 >= s1 * p2
    ensures s2 * p0 >= s0 * p2
  {
    MulMono(s0 * p1, s1 * p0, p2);
    MulMono(s1 * p2, s2 * p1, p0);
    assert (s0 * p2) * p1 == (s0 * p1) * p2;
    assert (s1 * p0) * p2 == (s1 * p2) * p0;
    assert (s2 * p0) * p1 == (s2 * p1) * p0;
    Cancel(s0 * p2, s2 * p0, p1);
  }

  /** From any reachable state, the share price never falls along such a run, and the recorded stake
      changes by exactly what went in and out. */
  lemma {:induction false} SharePriceNeverFalls(w: World, steps: seq<Step>)
    requires Inv(w) && PricedRun(w, steps)
    ensures var p := w.state.pool;
            var p' := RunAll(w, steps).state.pool;
            && NoCheaper(p, p')
            && p'.stakeTotal == p.stakeTotal + TotalIn(w, steps) - TotalOut(w, steps)
  {
    if steps != [] {
      var front := steps[..|steps| - 1];
      SharePriceNeverFalls(w, front);
      PricedRunFits(w, front);
      RunKeepsInv(w, front);
      var w' := RunAll(w, front);
      StepPrice(w', steps[|steps| - 1]);
      var p := w.state.pool;
      var p' := w'.state.pool;
      var p'' := RunAll(w, steps).state.pool;
      Chain(p.stakeTotal, p.poolTotal, p'.stakeTotal, p'.poolTotal, p''.stakeTotal, p''.poolTotal);
    }
  }

  /** So a run that ends with at least as many pool tokens as it began with leaves at least as much
      stake: no interleaving of deposits and withdrawals takes out more lamports than it put in. */
  lemma NobodyTakesOutMoreThanWentIn(w: World, steps: seq<Step>)
    requires Inv(w) && PricedRun(w, steps)
    requires RunAll(w, steps).state.pool.poolTotal >= w.state.pool.poolTotal
    ensures RunAll(w, steps).state.pool.stakeTotal >= w.state.pool.stakeTotal
    ensures TotalOut(w, steps) <= TotalIn(w, steps)
  {
    SharePriceNeverFalls(w, steps);
    assert PricedRun(w, []) by {
      PricedPrefix(w, steps);
    }
    var p := w.state.pool;
    var p' := RunAll(w, steps).state.pool;
    MulMono(p.poolTotal, p'.poolTotal, p.stakeTotal);
    Cancel(p.stakeTotal, p'.stakeTotal, p.poolTotal);
  }

  lemma {:induction false} PricedPrefix(w: World, steps: seq<Step>)
    requires PricedRun(w, steps)
    ensures PricedRun(w, [])
  {
    if steps != [] {
      PricedPrefix(w, steps[..|steps| - 1]);
    }
  }

  // ---------- in the hands of the holders ----------

  /** Deposits and withdrawals of the run name the pool's mint. */
  predicate OwnMintRun(w: World, steps: seq<Step>) {
    steps == [] ||
    (var front := steps[..|steps| - 1];
     var last := steps[|steps| - 1];
     OwnMintRun(w, front) && (last.Execute? ==> NamesOwnMint(RunAll(w, front).state, last.instruction)))
  }

  predicate NamesOwnMint(s: State, i: PoolInstruction) {
    i.Deposit? || i.Withdraw? ==> i.mint == s.pool.poolMint
  }

  /** The token total without the supply: tokens that holders burned without a withdrawal. */
  function Unissued(s: State): int {
    s.pool.poolTotal - Supply(s.ledger, s.pool.poolMint)
  }

  /** The pool's own steps change the token total and the supply alike, and others only burn. */
  lemma StepUnissued(w: World, step: Step)
    requires Inv(w) && AtPoolPrice(step) && TotalsFit(w.state, step) && w.state.pool.version > 0
    requires step.Execute? ==> NamesOwnMint(w.state, step.instruction)
    ensures Unissued(Advance(w, step).state) >= Unissued(w.state)
    ensures Advance(w, step).state.pool.version > 0 && Advance(w, step).state.pool.poolMint == w.state.pool.poolMint
  {
    match step
    case Tick(_) =>
    case OnLedger(event) =>
      if Permitted(w.state, step) {
        LedgerEventKeeps(w, event);
      }
    case Execute(i) =>
      if Succeeds(w.state, step) {
        match i
        case Deposit(_, _, _, _, _) => DepositEffect(w, i);
        case Withdraw(_, _, _, _, _, _) =>
          WithdrawEffect(w, i);
          WithdrawIsExact(w, i);
        case AddValidator(_, _, _, _, _) => AddKeeps(w, i);
        case AddLiquidity(_, _, _, _, _, _) =>
          AddLiquidityKeeps(w, i);
          var paid, shares := AddLiquidityCalls(w.state, i);
        case SellStSol(_, _, _, _, _, _) =>
          SellKeeps(w, i);
          var received, value, fee := SellCalls(w.state, i);
        case _ =>
      }
  }

  lemma {:induction false} RunUnissued(w: World, steps: seq<Step>)
    requires Inv(w) && PricedRun(w, steps) && OwnMintRun(w, steps)
    ensures Unissued(RunAll(w, steps).state) >= Unissued(w.state)
    ensures RunAll(w, steps).state.pool.version > 0 && RunAll(w, steps).state.pool.poolMint == w.state.pool.poolMint
  {
    if steps != [] {
      var front := steps[..|steps| - 1];
      RunUnissued(w, front);
      PricedRunFits(w, front);
      RunKeepsInv(w, front);
      StepUnissued(RunAll(w, front), steps[|steps| - 1]);
    }
  }

  /** So if every deposit and withdrawal names the pool's mint and holders end with at least as many
      tokens as they began with, they took out no more lamports than they put in. */
  lemma HoldersTakeOutNoMoreThanWentIn(w: World, steps: seq<Step>)
    requires Inv(w) && PricedRun(w, steps) && OwnMintRun(w, steps)
    requires Supply(RunAll(w, steps).state.ledger, w.state.pool.poolMint) >= Supply(w.state.ledger, w.state.pool.poolMint)
    ensures RunAll(w, steps).state.pool.stakeTotal >= w.state.pool.stakeTotal
    ensures TotalOut(w, steps) <= TotalIn(w, steps)
  {
    RunUnissued(w, steps);
    NobodyTakesOutMoreThanWentIn(w, steps);
  }

  // ---------- rounding, at the instructions ----------

  /** Removing a validator is the one exchange that rounds against the pool: it loses less than the
      worth of one token. */
  lemma RemovalLosesLessThanAToken(w: World, i: PoolInstruction)
    requires Inv(w) && i.RemoveValidator? && Succeeds(w.state, Execute(i))
    requires Load(w.state.ledger, i.stakeAccount).lamports <= w.state.pool.stakeTotal
    ensures var p := w.state.pool;
            var p' := ExecuteSpec(w.state, i).value.pool;
            NoCheaper(p', p) && p.stakeTotal * p'.poolTotal < p'.stakeTotal * p.poolTotal + p.stakeTotal
  {
    RemoveIsExact(w, i);
    var p := w.state.pool;
    var lamports := Load(w.state.ledger, i.stakeAccount).lamports;
    RemovedAt(p, ExecuteSpec(w.state, i).value.pool, lamports,
              CalcPoolWithdrawAmount(p.stakeTotal, p.poolTotal, lamports).value);
  }

  lemma RemovedAt(p: StakePool, p': StakePool, lamports: u64, tokens: u64)
    requires CalcPoolWithdrawAmount(p.stakeTotal, p.poolTotal, lamports) == Some(tokens) && lamports <= p.stakeTotal
    requires p'.stakeTotal == p.stakeTotal - lamports && p'.poolTotal == p.poolTotal - tokens
    ensures NoCheaper(p', p) && p.stakeTotal * p'.poolTotal < p'.stakeTotal * p.poolTotal + p.stakeTotal
  {
    RemovePrice(p.stakeTotal, p.poolTotal, lamports);
  }

  /** What a pool keeps, when it goes from `p` to `p'` by taking `d` lamports for `t` tokens and
      paying for them: not a negative amount, and not more than was deposited; less than one token's
      worth and one lamport, unless the pool had tokens without stake. */
  predicate KeepsLittle(p: StakePool, p': StakePool, d: nat, t: nat) {
    var kept := p'.stakeTotal - p.stakeTotal;
    && p'.poolTotal == p.poolTotal
    && 0 <= kept <= d
    && ((kept - 1) * (p.poolTotal + t) < p.stakeTotal <==> p.stakeTotal > 0 || p.poolTotal == 0 || d == 0)
  }

  lemma PaidInAndOut(p: StakePool, p': StakePool, p'': StakePool, d: u64, t: u64, s: u64)
    requires CalcPoolDepositAmount(p.stakeTotal, p.poolTotal, d) == Some(t)
    requires p'.stakeTotal == p.stakeTotal + d && p'.poolTotal == p.poolTotal + t > 0
    requires CalcLamportsAmount(p'.stakeTotal, p'.poolTotal, t) == Some(s)
    requires p''.stakeTotal == p'.stakeTotal - s && p''.poolTotal == p'.poolTotal - t
    ensures KeepsLittle(p, p'', d, t)
  {
    DepositThenWithdraw(p.stakeTotal, p.poolTotal, d, t);
    assert p''.stakeTotal - p.stakeTotal - 1 == d - s - 1;
  }

  lemma DepositAdvances(w: World, i: PoolInstruction)
    requires Inv(w) && i.Deposit? && Succeeds(w.state, Execute(i)) && TotalsFit(w.state, Execute(i))
    ensures var p := w.state.pool;
            var w' := Advance(w, Execute(i));
            var d := LamportsIn(w.state, Execute(i));
            && Inv(w')
            && CalcPoolDepositAmount(p.stakeTotal, p.poolTotal, d) == Some(Minted(w.state, i))
            && w'.state.pool.stakeTotal == p.stakeTotal + d
            && w'.state.pool.poolTotal == p.poolTotal + Minted(w.state, i)
  {
    DepositStep(w, i);
    MintedIsCalculated(w.state, i);
    AdvanceKeepsInv(w, Execute(i));
  }

  /** Depositing and at once withdrawing the minted tokens. */
  lemma DepositAndWithdraw(w: World, deposit: PoolInstruction, withdraw: PoolInstruction)
    requires Inv(w) && deposit.Deposit? && Succeeds(w.state, Execute(deposit)) && TotalsFit(w.state, Execute(deposit))
    requires withdraw.Withdraw? && withdraw.poolAmount == Minted(w.state, deposit)
    requires Succeeds(Advance(w, Execute(deposit)).state, Execute(withdraw))
    ensures KeepsLittle(w.state.pool, Advance(Advance(w, Execute(deposit)), Execute(withdraw)).state.pool,
                        LamportsIn(w.state, Execute(deposit)), Minted(w.state, deposit))
  {
    var w' := Advance(w, Execute(deposit));
    DepositAdvances(w, deposit);
    WithdrawTotals(w', withdraw);
    PaidInAndOut(w.state.pool, w'.state.pool, Advance(w', Execute(withdraw)).state.pool,
                 LamportsIn(w.state, Execute(deposit)), withdraw.poolAmount, LamportsOut(w'.state, Execute(withdraw)));
  }
}
