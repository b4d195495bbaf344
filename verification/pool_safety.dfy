/** Runs of the joined machine: the stake pool, the token program and everything around them. The
    pool's unchecked arithmetic is safe on every run. */
module PoolSafety {
  import opened Basics
  import opened TokenState
  import opened TokenInstructions
  import opened TokenSpec
  import opened TokenRuns
  import opened TokenAccounts
  import opened ValidatorList
  import opened PoolMath
  import opened PoolSpec

  // ---------- the joined machine ----------

  /** The state with the token ledger's history. */
  datatype World = World(state: State, closed: set<Pubkey>, lost: map<Pubkey, nat>)

  function BankOf(w: World): Bank {
    Bank(w.state.ledger, w.closed, w.lost)
  }

  datatype Step = Tick(epoch: u64) | OnLedger(event: Event) | Execute(instruction: PoolInstruction)

  predicate IsProgramAddress(s: State, key: Pubkey) {
    key == s.authorities.withdraw || key == s.authorities.liquidity
  }

  /** The runtime's rules: the clock does not go back, and nobody outside the pool program signs for
      its addresses or creates accounts at them. */
  predicate Permitted(s: State, step: Step) {
    match step
    case Tick(epoch) => s.clock <= epoch
    case OnLedger(Invoke(accounts, _, _)) =>
      AccountMeta(s.authorities.withdraw, true) !in accounts && AccountMeta(s.authorities.liquidity, true) !in accounts
    case OnLedger(Create(key, _)) => !IsProgramAddress(s, key)
    case OnLedger(_) => true
    case Execute(AddLiquidity(_, _, _, authority, _, _)) => !IsProgramAddress(s, authority.key) || !authority.isSigner
    case Execute(SellStSol(_, _, _, _, _, authority)) => !IsProgramAddress(s, authority.key) || !authority.isSigner
    case Execute(_) => true
  }

  function Advance(w: World, step: Step): World {
    if !Permitted(w.state, step) then w
    else
      match step
      case Tick(epoch) => w.(state := w.state.(clock := epoch))
      case OnLedger(event) =>
        var b := Next(BankOf(w), event);
        World(w.state.(ledger := b.ledger), b.closed, b.lost)
      case Execute(i) =>
        var r := ExecuteSpec(w.state, i);
        if r.Ok? then w.(state := r.value) else w
  }

  function RunAll(w: World, steps: seq<Step>): World {
    if steps == [] then w else Advance(RunAll(w, steps[..|steps| - 1]), steps[|steps| - 1])
  }

  // ---------- the invariant ----------

  predicate DistinctValidators(validators: seq<ValidatorStakeInfo>) {
    forall i, j | 0 <= i < j < |validators| :: validators[i].validatorAccount != validators[j].validatorAccount
  }

  /** The pool was updated no later than any record, and no record later than now. */
  predicate EpochsOrdered(s: State) {
    && s.pool.lastUpdateEpoch <= s.clock
    && forall i | 0 <= i < |s.list.validators| ::
         s.pool.lastUpdateEpoch <= s.list.validators[i].lastUpdateEpoch <= s.clock
  }

  predicate MintHeld(s: State) {
    IsMint(Load(s.ledger, s.pool.poolMint))
    && s.ledger[s.pool.poolMint].record.mint.mintAuthority == Some(s.authorities.withdraw)
  }

  /** What the list and epoch checks maintain. */
  predicate ListOk(s: State) {
    if s.pool.version == 0 then s.list == ValidatorStakeList(0, [])
    else
      && s.list.version > 0
      && EpochsOrdered(s)
      && DistinctValidators(s.list.validators)
      && s.pool.fee.numerator <= s.pool.fee.denominator
  }

  /** The pool's mint belongs to the pool, and its supply is within the token total. */
  predicate MintOk(s: State) {
    if s.pool.version == 0 then s.pool.stakeTotal == 0 && s.pool.poolTotal == 0
    else MintHeld(s) && Supply(s.ledger, s.pool.poolMint) <= s.pool.poolTotal
  }

  predicate AddressesOk(s: State) {
    && s.authorities.withdraw != s.authorities.liquidity
    && !TokenOwned(Load(s.ledger, s.authorities.withdraw).record)
    && !TokenOwned(Load(s.ledger, s.authorities.liquidity).record)
  }

  ghost predicate Inv(w: World) {
    Valid(BankOf(w)) && AddressesOk(w.state) && MintOk(w.state)
  }

  /** Before anything happened: no token accounts, a blank pool and list. */
  predicate Genesis(w: World) {
    && BankOf(w) == EMPTY_BANK
    && w.state.authorities.withdraw != w.state.authorities.liquidity
    && w.state.pool.version == 0 && w.state.pool.stakeTotal == 0 && w.state.pool.poolTotal == 0
    && w.state.list == ValidatorStakeList(0, [])
  }

  /** The pool tokens that an instruction would mint. */
  function Minted(s: State, i: PoolInstruction): u64 {
    var tokens :=
      if i.AddValidator? then CalcPoolDepositAmount(s.pool.stakeTotal, s.pool.poolTotal, Load(s.ledger, i.stakeAccount).lamports)
      else if i.Deposit? then CalcPoolDepositAmount(s.pool.stakeTotal, s.pool.poolTotal, Load(s.ledger, i.stake).lamports)
      else None;
    if tokens.Some? then tokens.value else 0
  }

  /** What the code does not check, and the supply's place within the token total depends on: the mint
      handed to Initialize has no supply; minting does not carry the token total past 2^64; and a
      Deposit or Withdraw that names another mint still leaves a token total of at least the supply. */
  predicate SupplyStaysCovered(s: State, i: PoolInstruction) {
    var supply := Supply(s.ledger, s.pool.poolMint);
    match i
    case Initialize(_, mint, _, _, _) => Supply(s.ledger, mint) == 0
    case AddValidator(_, _, _, _, _) => s.pool.poolTotal + Minted(s, i) < U64_RANGE
    case Deposit(_, _, _, mint, _) =>
      if mint == s.pool.poolMint then s.pool.poolTotal + Minted(s, i) < U64_RANGE
      else supply <= WrapAdd(s.pool.poolTotal, Minted(s, i))
    case Withdraw(_, _, _, mint, poolAmount, _) =>
      mint == s.pool.poolMint || supply <= WrapSub(s.pool.poolTotal, poolAmount)
    case _ => true
  }

  predicate TotalFits(s: State, step: Step) {
    step.Execute? ==> SupplyStaysCovered(s, step.instruction)
  }

  predicate TotalFitsOnRun(w: World, steps: seq<Step>) {
    steps == [] || (TotalFitsOnRun(w, steps[..|steps| - 1])
                    && TotalFits(RunAll(w, steps[..|steps| - 1]).state, steps[|steps| - 1]))
  }

  // ---------- calls from the pool ----------

  /** Minting raises the supply by the amount and touches no other mint and no account that the token
      program does not own. */
  lemma MintShape(s: State, b: Bank, mint: Pubkey, destination: Pubkey, amount: u64)
    requires Valid(b) && MintPoolTokens(s, b.ledger, mint, destination, amount).Ok?
    ensures var l' := MintPoolTokens(s, b.ledger, mint, destination, amount).value;
            && Valid(b.(ledger := l'))
            && IsMint(Load(b.ledger, mint)) && IsMint(Load(l', mint))
            && Supply(l', mint) == Supply(b.ledger, mint) + amount
            && l'[mint].record.mint.mintAuthority == b.ledger[mint].record.mint.mintAuthority
            && (forall k | k != mint && IsMint(Load(b.ledger, k)) :: Load(l', k) == Load(b.ledger, k))
            && (forall k | !TokenOwned(Load(b.ledger, k).record) :: Load(l', k) == Load(b.ledger, k))
  {
    MintToKeeps(b, [AccountMeta(mint, false), AccountMeta(destination, false),
                    AccountMeta(s.authorities.withdraw, true)], amount, None);
  }

  /** Burning takes no more than the holder has, nor more than the supply, and touches no other mint
      and no account that the token program does not own. */
  lemma BurnShape(s: State, b: Bank, mint: Pubkey, from: Pubkey, amount: u64)
    requires Valid(b) && BurnPoolTokens(s, b.ledger, mint, from, amount).Ok?
    ensures var l' := BurnPoolTokens(s, b.ledger, mint, from, amount).value;
            && Valid(b.(ledger := l'))
            && IsMint(Load(b.ledger, mint)) && IsMint(Load(l', mint))
            && from in b.ledger && amount <= Holding(b.ledger[from], mint) <= Supply(b.ledger, mint)
            && Supply(l', mint) == Supply(b.ledger, mint) - amount
            && l'[mint].record.mint.mintAuthority == b.ledger[mint].record.mint.mintAuthority
            && (forall k | k != mint && IsMint(Load(b.ledger, k)) :: Load(l', k) == Load(b.ledger, k))
            && (forall k | !TokenOwned(Load(b.ledger, k).record) :: Load(l', k) == Load(b.ledger, k))
  {
    BurnKeeps(b, [AccountMeta(from, false), AccountMeta(mint, false),
                  AccountMeta(s.authorities.withdraw, true)], amount, None);
    assert CellOk(b.ledger, b.ledger[from]);
    HoldingsWithinSupply(b, from, from);
  }

  /** Changing accounts that the token program does not own keeps the ledger's invariant. */
  lemma ForeignPut(b: Bank, k: Pubkey, c: Cell)
    requires Valid(b) && !TokenOwned(Load(b.ledger, k).record) && !TokenOwned(c.record)
    ensures Valid(b.(ledger := b.ledger[k := c]))
  {
    QuietPut(b, k, c);
  }

  lemma MergeShape(b: Bank, from: Pubkey, into: Pubkey, accepts: bool)
    requires Valid(b) && MergeSpec(b.ledger, from, into, accepts).Ok?
    ensures var l' := MergeSpec(b.ledger, from, into, accepts).value;
            && Valid(b.(ledger := l'))
            && (forall k | TokenOwned(Load(b.ledger, k).record) :: Load(l', k) == Load(b.ledger, k))
            && (forall k | !TokenOwned(Load(b.ledger, k).record) :: !TokenOwned(Load(l', k).record))
            && Load(l', into).lamports == Load(b.ledger, into).lamports + Load(b.ledger, from).lamports
            && !TokenOwned(Load(l', into).record)
  {
    var l' := MergeSpec(b.ledger, from, into, accepts).value;
    var mid := b.(ledger := b.ledger[from := l'[from]]);
    ForeignPut(b, from, l'[from]);
    ForeignPut(mid, into, l'[into]);
  }

  lemma SplitShape(b: Bank, from: Pubkey, to: Pubkey, amount: u64, accepts: bool)
    requires Valid(b) && SplitSpec(b.ledger, from, to, amount, accepts).Ok?
    ensures var l' := SplitSpec(b.ledger, from, to, amount, accepts).value;
            && Valid(b.(ledger := l'))
            && (forall k | TokenOwned(Load(b.ledger, k).record) :: Load(l', k) == Load(b.ledger, k))
            && (forall k | !TokenOwned(Load(b.ledger, k).record) :: !TokenOwned(Load(l', k).record))
            && amount <= Load(b.ledger, from).lamports
            && Load(l', from).lamports == Load(b.ledger, from).lamports - amount
            && !TokenOwned(Load(l', from).record)
  {
    var l' := SplitSpec(b.ledger, from, to, amount, accepts).value;
    var mid := b.(ledger := b.ledger[from := l'[from]]);
    ForeignPut(b, from, l'[from]);
    ForeignPut(mid, to, l'[to]);
  }

  // ---------- what each pool instruction does to the totals ----------

  /** What a successful withdrawal does, whatever mint it names: both totals go down by unchecked
      subtractions, and the supply of the pool's mint only if that is the mint burned. */
  lemma WithdrawEffect(w: World, i: PoolInstruction)
    requires Inv(w) && i.Withdraw? && ExecuteSpec(w.state, i).Ok?
    ensures var s := w.state;
            var s' := ExecuteSpec(w.state, i).value;
            var lamports := CalcLamportsAmount(s.pool.stakeTotal, s.pool.poolTotal, i.poolAmount);
            && s.pool.version > 0 && s.pool.poolTotal > 0 && lamports.Some?
            && s'.pool == s.pool.(poolTotal := WrapSub(s.pool.poolTotal, i.poolAmount),
                                  stakeTotal := WrapSub(s.pool.stakeTotal, lamports.value))
            && Load(s'.ledger, i.splitFrom).lamports == Load(s.ledger, i.splitFrom).lamports - lamports.value
            && Load(s'.ledger, i.splitFrom).lamports >= 0
    ensures var s := w.state;
            var s' := ExecuteSpec(w.state, i).value;
            && i.poolAmount <= Holding(Load(s.ledger, i.burnFrom), i.mint) <= Supply(s.ledger, i.mint)
            && Supply(s'.ledger, s.pool.poolMint)
               == Supply(s.ledger, s.pool.poolMint) - (if i.mint == s.pool.poolMint then i.poolAmount else 0)
            && MintHeld(s') && AddressesOk(s') && Valid(BankOf(w.(state := s')))
  {
    var s := w.state;
    var lamports := CalcLamportsAmount(s.pool.stakeTotal, s.pool.poolTotal, i.poolAmount).value;
    var b := BankOf(w);
    SplitShape(b, i.splitFrom, i.splitTo, lamports, i.accepts);
    var split := b.(ledger := SplitSpec(s.ledger, i.splitFrom, i.splitTo, lamports, i.accepts).value);
    BurnShape(s, split, i.mint, i.burnFrom, i.poolAmount);
    assert TokenOwned(Load(s.ledger, i.burnFrom).record) && TokenOwned(Load(s.ledger, s.pool.poolMint).record);
    assert TokenOwned(Load(s.ledger, i.mint).record);
  }

  /** A withdrawal subtracts exactly if and only if it burns no more than the token total. One that
      burns the pool's own tokens always does: it burns at most what the holder has, which is at most
      the supply, which is at most the token total. */
  lemma WithdrawIsExact(w: World, i: PoolInstruction)
    requires Inv(w) && i.Withdraw? && ExecuteSpec(w.state, i).Ok?
    ensures var p := w.state.pool;
            var p' := ExecuteSpec(w.state, i).value.pool;
            var lamports := CalcLamportsAmount(p.stakeTotal, p.poolTotal, i.poolAmount).value;
            p'.poolTotal == p.poolTotal - i.poolAmount && p'.stakeTotal == p.stakeTotal - lamports
            <==> i.poolAmount <= p.poolTotal
    ensures i.mint == w.state.pool.poolMint ==>
              i.poolAmount <= Supply(w.state.ledger, w.state.pool.poolMint) <= w.state.pool.poolTotal
  {
    WithdrawEffect(w, i);
    var p := w.state.pool;
    if i.poolAmount <= p.poolTotal {
      WithdrawPrice(p.stakeTotal, p.poolTotal, i.poolAmount);
    }
  }

  /** A withdrawal keeps the supply within the token total exactly when it burns the pool's tokens, or
      leaves enough of the total. */
  lemma WithdrawKeeps(w: World, i: PoolInstruction)
    requires Inv(w) && i.Withdraw? && ExecuteSpec(w.state, i).Ok?
    ensures Inv(w.(state := ExecuteSpec(w.state, i).value)) <==> SupplyStaysCovered(w.state, i)
  {
    WithdrawEffect(w, i);
  }

  /** Removing a validator never wraps the token total. */
  lemma RemoveIsExact(w: World, i: PoolInstruction)
    requires Inv(w) && i.RemoveValidator? && ExecuteSpec(w.state, i).Ok?
    ensures var s := w.state;
            var s' := ExecuteSpec(w.state, i).value;
            var lamports := Load(s.ledger, i.stakeAccount).lamports;
            var tokens := CalcPoolWithdrawAmount(s.pool.stakeTotal, s.pool.poolTotal, lamports);
            && tokens.Some? && i.mint == s.pool.poolMint
            && tokens.value <= Holding(Load(s.ledger, i.burnFrom), i.mint) <= Supply(s.ledger, i.mint) <= s.pool.poolTotal
            && s'.pool == s.pool.(poolTotal := s.pool.poolTotal - tokens.value,
                                  stakeTotal := WrapSub(s.pool.stakeTotal, lamports))
            && Supply(s'.ledger, i.mint) == Supply(s.ledger, i.mint) - tokens.value
    ensures Inv(w.(state := ExecuteSpec(w.state, i).value))
  {
    var s := w.state;
    var tokens := CalcPoolWithdrawAmount(s.pool.stakeTotal, s.pool.poolTotal, Load(s.ledger, i.stakeAccount).lamports).value;
    BurnShape(s, BankOf(w), i.mint, i.burnFrom, tokens);
  }

  /** What a removed stake account holds beyond the whole recorded stake is worth less than one token;
      so the stake total does not wrap while a token is worth at most a lamport. */
  lemma RemovalExcess(w: World, i: PoolInstruction)
    requires Inv(w) && i.RemoveValidator? && ExecuteSpec(w.state, i).Ok?
    ensures var p := w.state.pool;
            var lamports := Load(w.state.ledger, i.stakeAccount).lamports;
            && (lamports - p.stakeTotal) * p.poolTotal < p.stakeTotal
            && (p.stakeTotal <= p.poolTotal ==> lamports <= p.stakeTotal)
  {
    RemoveIsExact(w, i);
    ExcessBound(w.state.pool.stakeTotal, w.state.pool.poolTotal, Load(w.state.ledger, i.stakeAccount).lamports);
  }

  lemma ExcessBound(stakeTotal: u64, poolTotal: u64, lamports: u64)
    requires var tokens := CalcPoolWithdrawAmount(stakeTotal, poolTotal, lamports);
             tokens.Some? && tokens.value <= poolTotal
    ensures (lamports - stakeTotal) * poolTotal < stakeTotal
    ensures stakeTotal <= poolTotal ==> lamports <= stakeTotal
  {
    Floor(lamports, poolTotal, stakeTotal);
    var tokens := lamports * poolTotal / stakeTotal;
    MulMono(tokens, poolTotal, stakeTotal);
    assert (lamports - stakeTotal) * poolTotal == lamports * poolTotal - stakeTotal * poolTotal;
    if stakeTotal <= poolTotal && lamports > stakeTotal {
      MulMono(1, lamports - stakeTotal, poolTotal);
    }
  }

  /** A deposit adds to both totals by unchecked additions, and to the supply of the pool's mint only if
      that is the mint it names. */
  lemma DepositEffect(w: World, i: PoolInstruction)
    requires Inv(w) && i.Deposit? && ExecuteSpec(w.state, i).Ok?
    ensures var s := w.state;
            var s' := ExecuteSpec(w.state, i).value;
            && s.pool.version > 0
            && s'.pool == s.pool.(poolTotal := WrapAdd(s.pool.poolTotal, Minted(s, i)),
                                  stakeTotal := WrapAdd(s.pool.stakeTotal, Load(s.ledger, i.stake).lamports))
            && Load(s'.ledger, i.validatorStake).lamports
               == Load(s.ledger, i.validatorStake).lamports + Load(s.ledger, i.stake).lamports
    ensures var s := w.state;
            var s' := ExecuteSpec(w.state, i).value;
            && Supply(s'.ledger, s.pool.poolMint)
               == Supply(s.ledger, s.pool.poolMint) + (if i.mint == s.pool.poolMint then Minted(s, i) else 0)
            && MintHeld(s') && AddressesOk(s') && Valid(BankOf(w.(state := s')))
  {
    var s := w.state;
    var b := BankOf(w);
    MergeShape(b, i.stake, i.validatorStake, i.accepts);
    var merged := b.(ledger := MergeSpec(s.ledger, i.stake, i.validatorStake, i.accepts).value);
    assert TokenOwned(Load(s.ledger, s.pool.poolMint).record);
    MintShape(s, merged, i.mint, i.destination, Minted(s, i));
    assert TokenOwned(Load(s.ledger, i.mint).record);
  }

  /** A deposit keeps the supply within the token total exactly when, for the pool's mint, the total
      does not wrap, and for another mint the new total still covers the supply. */
  lemma DepositKeeps(w: World, i: PoolInstruction)
    requires Inv(w) && i.Deposit? && ExecuteSpec(w.state, i).Ok?
    ensures Inv(w.(state := ExecuteSpec(w.state, i).value)) <==> SupplyStaysCovered(w.state, i)
  {
    DepositEffect(w, i);
  }

  /** Adding a validator keeps it exactly when the token total does not wrap. */
  lemma AddKeeps(w: World, i: PoolInstruction)
    requires Inv(w) && i.AddValidator? && ExecuteSpec(w.state, i).Ok?
    ensures var s := w.state;
            var s' := ExecuteSpec(w.state, i).value;
            && s.pool.version > 0
            && s'.pool == s.pool.(poolTotal := WrapAdd(s.pool.poolTotal, Minted(s, i)),
                                  stakeTotal := WrapAdd(s.pool.stakeTotal, Load(s.ledger, i.stakeAccount).lamports))
            && Supply(s'.ledger, s.pool.poolMint) == Supply(s.ledger, s.pool.poolMint) + Minted(s, i)
    ensures Inv(w.(state := ExecuteSpec(w.state, i).value)) <==> SupplyStaysCovered(w.state, i)
  {
    MintShape(w.state, BankOf(w), i.mint, i.destination, Minted(w.state, i));
  }

  /** A fresh pool's totals are zero, so Initialize establishes the invariant exactly when its mint
      has no supply. */
  lemma InitializeKeeps(w: World, i: PoolInstruction)
    requires Inv(w) && i.Initialize? && ExecuteSpec(w.state, i).Ok?
    ensures Inv(w.(state := ExecuteSpec(w.state, i).value)) <==> SupplyStaysCovered(w.state, i)
  {
    assert CellOk(w.state.ledger, Load(w.state.ledger, i.mint));
  }

  lemma UpdatesKeep(w: World, i: PoolInstruction)
    requires Inv(w) && (i.UpdateListBalance? || i.UpdatePoolBalance?) && ExecuteSpec(w.state, i).Ok?
    ensures Inv(w.(state := ExecuteSpec(w.state, i).value))
  {
  }

  // ---------- token instructions beside the pool ----------

  /** From `s` to `s'` no tokens of the pool's mint were issued. */
  predicate SupplyNotRaised(s: State, s': State) {
    Supply(s'.ledger, s.pool.poolMint) <= Supply(s.ledger, s.pool.poolMint)
  }

  /** A token instruction that the pool does not sign leaves the pool's mint to the pool, does not
      raise its supply, and creates nothing at the pool's addresses. */
  lemma UnsignedCallKeeps(s: State, l': Ledger, accounts: seq<AccountMeta>, rent: Rent, i: TokenInstruction)
    requires LedgerOk(s.ledger) && AddressesOk(s) && MintOk(s)
    requires AccountMeta(s.authorities.withdraw, true) !in accounts
    requires ProcessSpec(s.ledger, accounts, rent, i) == Ok(l')
    ensures AddressesOk(s.(ledger := l')) && MintOk(s.(ledger := l'))
    ensures s.pool.version > 0 ==> Supply(l', s.pool.poolMint) <= Supply(s.ledger, s.pool.poolMint)
  {
    InstructionKeyStep(s.ledger, accounts, rent, i, s.authorities.withdraw);
    InstructionKeyStep(s.ledger, accounts, rent, i, s.authorities.liquidity);
    InstructionKeyStep(s.ledger, accounts, rent, i, s.pool.poolMint);
  }

  /** The same for a transfer the pool program makes as one step of an instruction. */
  lemma TransferCallKeeps(w: World, l': Ledger, accounts: seq<AccountMeta>, amount: u64)
    requires Inv(w) && AccountMeta(w.state.authorities.withdraw, true) !in accounts
    requires TransferSpec(w.state.ledger, accounts, amount, None) == Ok(l')
    ensures Inv(w.(state := w.state.(ledger := l')))
    ensures w.state.pool.version > 0 ==> Supply(l', w.state.pool.poolMint) <= Supply(w.state.ledger, w.state.pool.poolMint)
  {
    UnsignedCallKeeps(w.state, l', accounts, RentRates(1, 1, 1), Transfer(amount));
    TransferKeeps(BankOf(w), accounts, amount, None);
  }

  /** And for minting another mint's tokens. */
  lemma MintCallKeeps(w: World, l': Ledger, accounts: seq<AccountMeta>, amount: u64)
    requires Inv(w) && AccountMeta(w.state.authorities.withdraw, true) !in accounts
    requires MintToSpec(w.state.ledger, accounts, amount, None) == Ok(l')
    ensures Inv(w.(state := w.state.(ledger := l')))
    ensures w.state.pool.version > 0 ==> Supply(l', w.state.pool.poolMint) <= Supply(w.state.ledger, w.state.pool.poolMint)
  {
    UnsignedCallKeeps(w.state, l', accounts, RentRates(1, 1, 1), MintTo(amount));
    MintToKeeps(BankOf(w), accounts, amount, None);
  }

  /** The two calls of a successful AddLiquidity. */
  lemma AddLiquidityCalls(s: State, i: PoolInstruction) returns (paid: Ledger, shares: u64)
    requires i.AddLiquidity? && ExecuteSpec(s, i).Ok?
    ensures IsAccount(Load(s.ledger, i.poolWsol)) && IsMint(Load(s.ledger, i.lpMint))
    ensures SharesFromValue(i.wsolAmount, s.ledger[i.poolWsol].record.account.amount, s.ledger[i.lpMint].record.mint.supply)
            == Some(shares)
    ensures TransferSpec(s.ledger, [AccountMeta(i.userWsol, false), AccountMeta(i.poolWsol, false), i.userAuthority],
                         i.wsolAmount, None) == Ok(paid)
    ensures MintToSpec(paid, [AccountMeta(i.lpMint, false), AccountMeta(i.userLp, false),
                              AccountMeta(s.authorities.liquidity, true)], shares, None)
            == Ok(ExecuteSpec(s, i).value.ledger)
    ensures ExecuteSpec(s, i).value == s.(ledger := ExecuteSpec(s, i).value.ledger)
  {
    paid := TransferSpec(s.ledger, [AccountMeta(i.userWsol, false), AccountMeta(i.poolWsol, false), i.userAuthority],
                         i.wsolAmount, None).value;
    shares := SharesFromValue(i.wsolAmount, s.ledger[i.poolWsol].record.account.amount, s.ledger[i.lpMint].record.mint.supply).value;
  }

  lemma AddLiquidityKeeps(w: World, i: PoolInstruction)
    requires Inv(w) && i.AddLiquidity? && Permitted(w.state, Execute(i)) && ExecuteSpec(w.state, i).Ok?
    ensures Inv(w.(state := ExecuteSpec(w.state, i).value))
    ensures w.state.pool.version > 0 ==> SupplyNotRaised(w.state, ExecuteSpec(w.state, i).value)
  {
    var s := w.state;
    var paid, shares := AddLiquidityCalls(s, i);
    TransferCallKeeps(w, paid, [AccountMeta(i.userWsol, false), AccountMeta(i.poolWsol, false), i.userAuthority], i.wsolAmount);
    MintCallKeeps(w.(state := s.(ledger := paid)), ExecuteSpec(s, i).value.ledger,
                  [AccountMeta(i.lpMint, false), AccountMeta(i.userLp, false), AccountMeta(s.authorities.liquidity, true)], shares);
  }

  /** The two transfers of a successful SellStSol. */
  lemma SellCalls(s: State, i: PoolInstruction) returns (received: Ledger, value: u64, fee: u64)
    requires i.SellStSol? && ExecuteSpec(s, i).Ok?
    ensures Proportional(i.stsolAmount, s.pool.stakeTotal, s.pool.poolTotal) == Some(value)
    ensures Proportional(value, s.pool.fee.numerator, s.pool.fee.denominator) == Some(fee)
    ensures TransferSpec(s.ledger, [AccountMeta(i.userStsol, false), AccountMeta(i.poolStsol, false), i.userAuthority],
                         i.stsolAmount, None) == Ok(received)
    ensures TransferSpec(received, [AccountMeta(i.poolWsol, false), AccountMeta(i.userWsol, false),
                                    AccountMeta(s.authorities.liquidity, true)], WrapSub(value, fee), None)
            == Ok(ExecuteSpec(s, i).value.ledger)
    ensures ExecuteSpec(s, i).value == s.(ledger := ExecuteSpec(s, i).value.ledger)
  {
    received := TransferSpec(s.ledger, [AccountMeta(i.userStsol, false), AccountMeta(i.poolStsol, false), i.userAuthority],
                             i.stsolAmount, None).value;
    value := Proportional(i.stsolAmount, s.pool.stakeTotal, s.pool.poolTotal).value;
    fee := Proportional(value, s.pool.fee.numerator, s.pool.fee.denominator).value;
  }

  lemma SellKeeps(w: World, i: PoolInstruction)
    requires Inv(w) && i.SellStSol? && Permitted(w.state, Execute(i)) && ExecuteSpec(w.state, i).Ok?
    ensures Inv(w.(state := ExecuteSpec(w.state, i).value))
    ensures w.state.pool.version > 0 ==> SupplyNotRaised(w.state, ExecuteSpec(w.state, i).value)
  {
    var s := w.state;
    var received, value, fee := SellCalls(s, i);
    TransferCallKeeps(w, received, [AccountMeta(i.userStsol, false), AccountMeta(i.poolStsol, false), i.userAuthority], i.stsolAmount);
    TransferCallKeeps(w.(state := s.(ledger := received)), ExecuteSpec(s, i).value.ledger,
                      [AccountMeta(i.poolWsol, false), AccountMeta(i.userWsol, false), AccountMeta(s.authorities.liquidity, true)],
                      WrapSub(value, fee));
  }

  lemma LedgerEventKeeps(w: World, event: Event)
    requires Inv(w) && Permitted(w.state, OnLedger(event))
    ensures Inv(Advance(w, OnLedger(event)))
    ensures w.state.pool.version > 0 ==> SupplyNotRaised(w.state, Advance(w, OnLedger(event)).state)
  {
    var (b, s) := (BankOf(w), w.state);
    NextKeepsValid(b, event);
    if event.Invoke? {
      var r := ProcessSpec(b.ledger, event.accounts, event.rent, event.instruction);
      if r.Ok? {
        UnsignedCallKeeps(s, r.value, event.accounts, event.rent, event.instruction);
      }
    } else if s.pool.version > 0 {
      assert CellOk(s.ledger, s.ledger[s.pool.poolMint]);
    }
  }

  lemma ExecuteKeepsInv(w: World, i: PoolInstruction)
    requires Inv(w) && Permitted(w.state, Execute(i)) && ExecuteSpec(w.state, i).Ok?
    ensures Inv(w.(state := ExecuteSpec(w.state, i).value)) <==> SupplyStaysCovered(w.state, i)
  {
    match i
    case Initialize(_, _, _, _, _) => InitializeKeeps(w, i);
    case AddValidator(_, _, _, _, _) => AddKeeps(w, i);
    case RemoveValidator(_, _, _, _, _) => RemoveIsExact(w, i);
    case UpdateListBalance(_) => UpdatesKeep(w, i);
    case UpdatePoolBalance => UpdatesKeep(w, i);
    case Deposit(_, _, _, _, _) => DepositKeeps(w, i);
    case Withdraw(_, _, _, _, _, _) => WithdrawKeeps(w, i);
    case AddLiquidity(_, _, _, _, _, _) => AddLiquidityKeeps(w, i);
    case SellStSol(_, _, _, _, _, _) => SellKeeps(w, i);
  }

  /** A step keeps the invariant when its condition holds; and for a pool instruction that succeeds,
      only then. */
  lemma AdvanceKeepsInv(w: World, step: Step)
    requires Inv(w)
    ensures TotalFits(w.state, step) ==> Inv(Advance(w, step))
    ensures step.Execute? && Permitted(w.state, step) && ExecuteSpec(w.state, step.instruction).Ok? ==>
              (Inv(Advance(w, step)) <==> TotalFits(w.state, step))
  {
    if Permitted(w.state, step) {
      match step
      case Tick(_) =>
      case OnLedger(event) => LedgerEventKeeps(w, event);
      case Execute(i) =>
        if ExecuteSpec(w.state, i).Ok? {
          ExecuteKeepsInv(w, i);
        }
    }
  }

  lemma GenesisInv(w: World)
    requires Genesis(w)
    ensures Inv(w)
  {
    EmptyBankValid();
  }

  /** The invariant holds after every run whose additions fit. */
  lemma {:induction false} RunKeepsInv(w: World, steps: seq<Step>)
    requires Inv(w) && TotalFitsOnRun(w, steps)
    ensures Inv(RunAll(w, steps))
  {
    if steps != [] {
      RunKeepsInv(w, steps[..|steps| - 1]);
      AdvanceKeepsInv(RunAll(w, steps[..|steps| - 1]), steps[|steps| - 1]);
    }
  }

  /** Burning the pool's tokens, the token total goes down by exactly what leaves the supply and stays
      above it, and the stake total of a withdrawal by exactly the tokens' worth. A withdrawal that
      burns another mint's tokens subtracts exactly if and only if it burns no more than the total. */
  ghost predicate SubtractsExactly(s: State, i: PoolInstruction, s': State)
    requires i.Withdraw? || i.RemoveValidator?
  {
    var stakeExact := i.Withdraw? ==> CalcLamportsAmount(s.pool.stakeTotal, s.pool.poolTotal, i.poolAmount)
                                      == Some(s.pool.stakeTotal - s'.pool.stakeTotal);
    if i.mint == s.pool.poolMint then
      && Supply(s'.ledger, s.pool.poolMint) <= s'.pool.poolTotal <= s.pool.poolTotal
      && s.pool.poolTotal - s'.pool.poolTotal == Supply(s.ledger, s.pool.poolMint) - Supply(s'.ledger, s.pool.poolMint)
      && stakeExact
    else
      i.Withdraw? && (s'.pool.poolTotal == s.pool.poolTotal - i.poolAmount && stakeExact <==> i.poolAmount <= s.pool.poolTotal)
  }

  lemma SubtractionIsExact(w: World, i: PoolInstruction)
    requires Inv(w) && (i.Withdraw? || i.RemoveValidator?) && ExecuteSpec(w.state, i).Ok?
    ensures SubtractsExactly(w.state, i, ExecuteSpec(w.state, i).value)
  {
    if i.Withdraw? {
      WithdrawSubtractsExactly(w, i);
    } else {
      RemoveSubtractsExactly(w, i);
    }
  }

  lemma WithdrawSubtractsExactly(w: World, i: PoolInstruction)
    requires Inv(w) && i.Withdraw? && ExecuteSpec(w.state, i).Ok?
    ensures SubtractsExactly(w.state, i, ExecuteSpec(w.state, i).value)
  {
    WithdrawEffect(w, i);
    ExactFromEffect(w.state, i, ExecuteSpec(w.state, i).value);
  }

  lemma ExactFromEffect(s: State, i: PoolInstruction, s': State)
    requires i.Withdraw? && s.pool.poolTotal > 0 && Supply(s.ledger, s.pool.poolMint) <= s.pool.poolTotal
    requires var lamports := CalcLamportsAmount(s.pool.stakeTotal, s.pool.poolTotal, i.poolAmount);
             && lamports.Some?
             && s'.pool == s.pool.(poolTotal := WrapSub(s.pool.poolTotal, i.poolAmount),
                                   stakeTotal := WrapSub(s.pool.stakeTotal, lamports.value))
    requires i.poolAmount <= Supply(s.ledger, i.mint)
    requires Supply(s'.ledger, s.pool.poolMint)
             == Supply(s.ledger, s.pool.poolMint) - (if i.mint == s.pool.poolMint then i.poolAmount else 0)
    ensures SubtractsExactly(s, i, s')
  {
    if i.poolAmount <= s.pool.poolTotal {
      WithdrawPrice(s.pool.stakeTotal, s.pool.poolTotal, i.poolAmount);
    }
  }

  lemma RemoveSubtractsExactly(w: World, i: PoolInstruction)
    requires Inv(w) && i.RemoveValidator? && ExecuteSpec(w.state, i).Ok?
    ensures SubtractsExactly(w.state, i, ExecuteSpec(w.state, i).value)
  {
    RemoveIsExact(w, i);
  }

  /** Safety of the unchecked subtractions, on every run from the start. */
  lemma SubtractionsNeverWrap(w: World, steps: seq<Step>, i: PoolInstruction)
    requires Genesis(w) && TotalFitsOnRun(w, steps)
    requires i.Withdraw? || i.RemoveValidator?
    requires ExecuteSpec(RunAll(w, steps).state, i).Ok?
    ensures SubtractsExactly(RunAll(w, steps).state, i, ExecuteSpec(RunAll(w, steps).state, i).value)
  {
    GenesisInv(w);
    RunKeepsInv(w, steps);
    SubtractionIsExact(RunAll(w, steps), i);
  }

  // ---------- the list and the epoch gate ----------

  lemma {:induction false} WithoutKeepsOthers(validators: seq<ValidatorStakeInfo>, validator: Pubkey)
    ensures forall v :: v in Without(validators, validator) <==> v in validators && v.validatorAccount != validator
    ensures DistinctValidators(validators) ==> DistinctValidators(Without(validators, validator))
  {
    if validators != [] {
      var rest := validators[1..];
      WithoutKeepsOthers(rest, validator);
      assert validators == [validators[0]] + rest;
      if DistinctValidators(validators) {
        assert forall v | v in rest :: v.validatorAccount != validators[0].validatorAccount;
      }
    }
  }

  lemma RemoveKeepsList(s: State, i: PoolInstruction)
    requires ListOk(s) && i.RemoveValidator? && ExecuteSpec(s, i).Ok?
    ensures ListOk(ExecuteSpec(s, i).value)
  {
    var s' := ExecuteSpec(s, i).value;
    WithoutKeepsOthers(s.list.validators, OwnerGate(s, i.owner, i.stakeAccount, i.mint).value);
    forall k | 0 <= k < |s'.list.validators|
      ensures s.pool.lastUpdateEpoch <= s'.list.validators[k].lastUpdateEpoch <= s.clock
    {
      assert s'.list.validators[k] in s.list.validators;
    }
  }

  lemma UpdateListKeepsList(s: State, i: PoolInstruction)
    requires ListOk(s) && i.UpdateListBalance? && ExecuteSpec(s, i).Ok?
    ensures ListOk(ExecuteSpec(s, i).value)
  {
  }

  lemma BalanceKeepsList(s: State, i: PoolInstruction)
    requires ListOk(s) && (i.Deposit? || i.Withdraw?) && ExecuteSpec(s, i).Ok?
    ensures ListOk(ExecuteSpec(s, i).value)
  {
  }

  lemma AddKeepsList(s: State, i: PoolInstruction)
    requires ListOk(s) && i.AddValidator? && ExecuteSpec(s, i).Ok?
    ensures ListOk(ExecuteSpec(s, i).value)
  {
  }

  lemma OthersKeepList(s: State, i: PoolInstruction)
    requires ListOk(s) && (i.Initialize? || i.UpdatePoolBalance? || i.AddLiquidity? || i.SellStSol?) && ExecuteSpec(s, i).Ok?
    ensures ListOk(ExecuteSpec(s, i).value)
  {
    if i.AddLiquidity? {
      var paid, shares := AddLiquidityCalls(s, i);
    } else if i.SellStSol? {
      var received, value, fee := SellCalls(s, i);
    }
  }

  lemma AdvanceKeepsList(w: World, step: Step)
    requires ListOk(w.state)
    ensures ListOk(Advance(w, step).state)
  {
    if Permitted(w.state, step) && step.Execute? && ExecuteSpec(w.state, step.instruction).Ok? {
      var i := step.instruction;
      match i
      case RemoveValidator(_, _, _, _, _) => RemoveKeepsList(w.state, i);
      case UpdateListBalance(_) => UpdateListKeepsList(w.state, i);
      case Deposit(_, _, _, _, _) => BalanceKeepsList(w.state, i);
      case Withdraw(_, _, _, _, _, _) => BalanceKeepsList(w.state, i);
      case AddValidator(_, _, _, _, _) => AddKeepsList(w.state, i);
      case _ => OthersKeepList(w.state, i);
    }
  }

  /** On every run the pool's epoch is at most every record's, which is at most the clock; validators
      are listed once; and the fee is at most one. */
  lemma {:induction false} ListOnEveryRun(w: World, steps: seq<Step>)
    requires ListOk(w.state)
    ensures ListOk(RunAll(w, steps).state)
  {
    if steps != [] {
      ListOnEveryRun(w, steps[..|steps| - 1]);
      AdvanceKeepsList(RunAll(w, steps[..|steps| - 1]), steps[|steps| - 1]);
    }
  }

  /** On every run, an instruction that passes the epoch gate finds every record of the clock's
      epoch, which is then the pool's. */
  lemma GateMeansCurrent(w: World, steps: seq<Step>, i: PoolInstruction)
    requires Genesis(w) && (i.AddValidator? || i.RemoveValidator? || i.Deposit? || i.Withdraw?)
    requires ExecuteSpec(RunAll(w, steps).state, i).Ok?
    ensures var s := RunAll(w, steps).state;
            && s.pool.lastUpdateEpoch == s.clock
            && forall k | 0 <= k < |s.list.validators| :: s.list.validators[k].lastUpdateEpoch == s.clock
  {
    ListOnEveryRun(w, steps);
  }
}
