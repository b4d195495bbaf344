/** What single accounts and mints keep along a run: frozen accounts, fixed supplies, delegate
    allowances, native backing. */
module TokenAccounts {
  import opened Basics
  import opened TokenState
  import opened TokenInstructions
  import opened TokenSpec
  import opened TokenRuns

  // ---------- one instruction, one key ----------

  predicate IsFrozen(c: Cell) {
    c.record.AccountRecord? && c.record.account.state.Frozen?
  }

  predicate IsFixedSupply(c: Cell) {
    IsMint(c) && c.record.mint.mintAuthority.None?
  }

  /** The instruction names `k` first: the source, or the account to change. */
  predicate Targets(accounts: seq<AccountMeta>, k: Pubkey) {
    accounts != [] && accounts[0].key == k
  }

  predicate SetsAllowance(i: TokenInstruction) {
    i.Approve? || i.ApproveChecked? || i.Revoke?
  }

  /** A transfer or burn out of `k` whose authority is the delegate of `k`. */
  predicate DelegateActs(l: Ledger, accounts: seq<AccountMeta>, i: TokenInstruction, k: Pubkey) {
    var skip := if i.TransferChecked? then 1 else 0;
    && (i.Transfer? || i.TransferChecked? || i.Burn? || i.BurnChecked?)
    && Targets(accounts, k) && |accounts| >= 3 + skip && IsAccount(Load(l, k))
    && Load(l, k).record.account.delegate == Some(accounts[2 + skip].key)
  }

  /** The tokens that left the account: what it held less what it holds. */
  function TokensGone(c: Cell, c': Cell): int
    requires IsAccount(c) && IsAccount(c')
  {
    c.record.account.amount - c'.record.account.amount
  }

  /** No account of the list carries the signature of `key`, nor can it sign as a multisig. */
  predicate CannotSign(l: Ledger, accounts: seq<AccountMeta>, key: Pubkey) {
    !Load(l, key).record.MultisigRecord? && AccountMeta(key, true) !in accounts
  }

  /** What a successful instruction leaves true of the cell at `k`. */
  predicate KeyStep(l: Ledger, accounts: seq<AccountMeta>, i: TokenInstruction, l': Ledger, k: Pubkey) {
    var (c, c') := (Load(l, k), Load(l', k));
    && (k in l ==> k in l')
    && (IsFrozen(c) && !(i.ThawAccount? && Targets(accounts, k)) ==> c'.record == c.record)
    && (IsFrozen(c) && c.record.account.amount > 0 ==> c.lamports <= c'.lamports)
    && (IsMint(c) ==> IsMint(c'))
    && (!TokenOwned(c.record) ==> c'.record == c.record)
    && (IsMint(c) && c.record.mint.mintAuthority.Some? && CannotSign(l, accounts, c.record.mint.mintAuthority.value) ==>
          c'.record.mint.mintAuthority == c.record.mint.mintAuthority && c'.record.mint.supply <= c.record.mint.supply)
    && (IsFixedSupply(c) ==> IsFixedSupply(c') && c'.record.mint.supply <= c.record.mint.supply)
    && (IsAccount(c) ==> IsAccount(c') && c'.record.account.mint == c.record.account.mint)
    && (IsAccount(c) && !(SetsAllowance(i) && Targets(accounts, k)) ==>
          c.record.account.delegatedAmount - c'.record.account.delegatedAmount
          == (if DelegateActs(l, accounts, i, k) then TokensGone(c, c') else 0))
    && (IsAccount(c) && DelegateActs(l, accounts, i, k) ==> TokensGone(c, c') >= 0)
    && (IsAccount(c) && c.record.account.delegate.None? && !(SetsAllowance(i) && Targets(accounts, k)) ==>
          c'.record.account.delegate.None?)
  }

  lemma TransferKeyStep(l: Ledger, accounts: seq<AccountMeta>, i: TokenInstruction, amount: u64, decimals: Option<u8>, k: Pubkey)
    requires i == if decimals.Some? then TransferChecked(amount, decimals.value) else Transfer(amount)
    requires TransferSpec(l, accounts, amount, decimals).Ok?
    ensures KeyStep(l, accounts, i, TransferSpec(l, accounts, amount, decimals).value, k)
  {
  }

  lemma BurnKeyStep(l: Ledger, accounts: seq<AccountMeta>, i: TokenInstruction, amount: u64, decimals: Option<u8>, k: Pubkey)
    requires i == if decimals.Some? then BurnChecked(amount, decimals.value) else Burn(amount)
    requires BurnSpec(l, accounts, amount, decimals).Ok?
    ensures KeyStep(l, accounts, i, BurnSpec(l, accounts, amount, decimals).value, k)
  {
  }

  lemma MintToKeyStep(l: Ledger, accounts: seq<AccountMeta>, i: TokenInstruction, amount: u64, decimals: Option<u8>, k: Pubkey)
    requires i.MintTo? || i.MintToChecked?
    requires MintToSpec(l, accounts, amount, decimals).Ok?
    ensures KeyStep(l, accounts, i, MintToSpec(l, accounts, amount, decimals).value, k)
  {
  }

  lemma CloseKeyStep(l: Ledger, accounts: seq<AccountMeta>, k: Pubkey)
    requires LedgerOk(l) && CloseAccountSpec(l, accounts).Ok?
    ensures KeyStep(l, accounts, CloseAccount, CloseAccountSpec(l, accounts).value, k)
  {
    assert CellOk(l, Load(l, accounts[0].key));
  }

  lemma ApproveKeyStep(l: Ledger, accounts: seq<AccountMeta>, i: TokenInstruction, amount: u64, decimals: Option<u8>, k: Pubkey)
    requires i.Approve? || i.ApproveChecked?
    requires ApproveSpec(l, accounts, amount, decimals).Ok?
    ensures KeyStep(l, accounts, i, ApproveSpec(l, accounts, amount, decimals).value, k)
  {
  }

  lemma SetAuthorityKeyStep(l: Ledger, accounts: seq<AccountMeta>, i: TokenInstruction, k: Pubkey)
    requires i.SetAuthority?
    requires SetAuthoritySpec(l, accounts, i.authorityType, i.newAuthority).Ok?
    ensures KeyStep(l, accounts, i, SetAuthoritySpec(l, accounts, i.authorityType, i.newAuthority).value, k)
  {
  }

  lemma InitializeAccountKeyStep(l: Ledger, accounts: seq<AccountMeta>, rent: Rent, i: TokenInstruction, owner: Option<Pubkey>, k: Pubkey)
    requires i.InitializeAccount? || i.InitializeAccount2?
    requires InitializeAccountSpec(l, accounts, rent, owner).Ok?
    ensures KeyStep(l, accounts, i, InitializeAccountSpec(l, accounts, rent, owner).value, k)
  {
  }

  lemma InitializeKeyStep(l: Ledger, accounts: seq<AccountMeta>, rent: Rent, i: TokenInstruction, k: Pubkey)
    requires i.InitializeMint? || i.InitializeMultisig?
    requires ProcessSpec(l, accounts, rent, i).Ok?
    ensures KeyStep(l, accounts, i, ProcessSpec(l, accounts, rent, i).value, k)
  {
  }

  lemma RevokeKeyStep(l: Ledger, accounts: seq<AccountMeta>, k: Pubkey)
    requires RevokeSpec(l, accounts).Ok?
    ensures KeyStep(l, accounts, Revoke, RevokeSpec(l, accounts).value, k)
  {
  }

  lemma ToggleFreezeKeyStep(l: Ledger, accounts: seq<AccountMeta>, i: TokenInstruction, freeze: bool, k: Pubkey)
    requires i == if freeze then FreezeAccount else ThawAccount
    requires ToggleFreezeSpec(l, accounts, freeze).Ok?
    ensures KeyStep(l, accounts, i, ToggleFreezeSpec(l, accounts, freeze).value, k)
  {
  }

  lemma InstructionKeyStep(l: Ledger, accounts: seq<AccountMeta>, rent: Rent, i: TokenInstruction, k: Pubkey)
    requires LedgerOk(l) && ProcessSpec(l, accounts, rent, i).Ok?
    ensures KeyStep(l, accounts, i, ProcessSpec(l, accounts, rent, i).value, k)
  {
    match i
    case Transfer(amount) => TransferKeyStep(l, accounts, i, amount, None, k);
    case TransferChecked(amount, decimals) => TransferKeyStep(l, accounts, i, amount, Some(decimals), k);
    case Burn(amount) => BurnKeyStep(l, accounts, i, amount, None, k);
    case BurnChecked(amount, decimals) => BurnKeyStep(l, accounts, i, amount, Some(decimals), k);
    case MintTo(amount) => MintToKeyStep(l, accounts, i, amount, None, k);
    case MintToChecked(amount, decimals) => MintToKeyStep(l, accounts, i, amount, Some(decimals), k);
    case CloseAccount => CloseKeyStep(l, accounts, k);
    case Approve(amount) => ApproveKeyStep(l, accounts, i, amount, None, k);
    case ApproveChecked(amount, decimals) => ApproveKeyStep(l, accounts, i, amount, Some(decimals), k);
    case SetAuthority(_, _) => SetAuthorityKeyStep(l, accounts, i, k);
    case InitializeAccount => InitializeAccountKeyStep(l, accounts, rent, i, None, k);
    case InitializeAccount2(owner) => InitializeAccountKeyStep(l, accounts, rent, i, Some(owner), k);
    case InitializeMint(_, _, _) => InitializeKeyStep(l, accounts, rent, i, k);
    case InitializeMultisig(_) => InitializeKeyStep(l, accounts, rent, i, k);
    case Revoke => RevokeKeyStep(l, accounts, k);
    case FreezeAccount => ToggleFreezeKeyStep(l, accounts, i, true, k);
    case ThawAccount => ToggleFreezeKeyStep(l, accounts, i, false, k);
  }

  /** What any event leaves true of the cell at `k`, unless the event purges it. */
  lemma EventKeyStep(b: Bank, e: Event, k: Pubkey)
    requires Valid(b) && (e == Purge(k) ==> Load(b.ledger, k).lamports > 0)
    ensures var l := b.ledger;
            var l' := Next(b, e).ledger;
            if e.Invoke? && ProcessSpec(l, e.accounts, e.rent, e.instruction).Ok? then
              KeyStep(l, e.accounts, e.instruction, l', k)
            else
              && (k in l ==> k in l')
              && (TokenOwned(Load(l, k).record) ==>
                    Load(l', k).record == Load(l, k).record && Load(l, k).lamports <= Load(l', k).lamports)
  {
    if e.Invoke? && ProcessSpec(b.ledger, e.accounts, e.rent, e.instruction).Ok? {
      InstructionKeyStep(b.ledger, e.accounts, e.rent, e.instruction, k);
    }
  }

  // ---------- frozen accounts ----------

  predicate Thaws(e: Event, k: Pubkey) {
    e.Invoke? && e.instruction.ThawAccount? && Targets(e.accounts, k)
  }

  /** A funded frozen account that holds tokens: it cannot be closed, so it keeps its lamports and
      cannot be purged either. */
  predicate HoldsTokens(c: Cell) {
    IsFrozen(c) && c.lamports > 0 && c.record.account.amount > 0
  }

  /** From freeze to thaw no event changes anything in a frozen account's record; one that holds tokens
      cannot even vanish, while an empty one must not be purged. */
  lemma {:induction false} FrozenRecordIsKept(b: Bank, events: seq<Event>, k: Pubkey)
    requires Valid(b) && k in b.ledger && IsFrozen(b.ledger[k])
    requires forall i | 0 <= i < |events| :: !Thaws(events[i], k)
    requires HoldsTokens(b.ledger[k]) || forall i | 0 <= i < |events| :: events[i] != Purge(k)
    ensures k in Run(b, events).ledger && Run(b, events).ledger[k].record == b.ledger[k].record
    ensures b.ledger[k].record.account.isNative.None?
    ensures HoldsTokens(b.ledger[k]) ==> b.ledger[k].lamports <= Run(b, events).ledger[k].lamports
  {
    assert CellOk(b.ledger, b.ledger[k]);
    if events != [] {
      var front := events[..|events| - 1];
      var last := events[|events| - 1];
      FrozenRecordIsKept(b, front, k);
      RunKeepsValid(b, front);
      EventKeyStep(Run(b, front), last, k);
    }
  }

  /** Only an empty frozen account can be closed. */
  lemma FrozenCloseNeedsZero(b: Bank, accounts: seq<AccountMeta>)
    requires Valid(b) && accounts != [] && IsFrozen(Load(b.ledger, accounts[0].key))
    requires CloseAccountSpec(b.ledger, accounts).Ok?
    ensures b.ledger[accounts[0].key].record.account.amount == 0
  {
    assert CellOk(b.ledger, b.ledger[accounts[0].key]);
  }

  // ---------- fixed supplies ----------

  /** Once a mint has no mint authority it never has one again, and its supply never rises. */
  lemma {:induction false} FixedSupplyNeverRises(b: Bank, events: seq<Event>, mint: Pubkey)
    requires Valid(b) && mint in b.ledger && IsFixedSupply(b.ledger[mint])
    ensures mint in Run(b, events).ledger && IsFixedSupply(Run(b, events).ledger[mint])
    ensures Supply(Run(b, events).ledger, mint) <= Supply(b.ledger, mint)
  {
    if events != [] {
      var (front, last) := (events[..|events| - 1], events[|events| - 1]);
      FixedSupplyNeverRises(b, front, mint);
      RunKeepsValid(b, front);
      var mid := Run(b, front);
      assert CellOk(mid.ledger, mid.ledger[mint]);
      if last != Purge(mint) {
        EventKeyStep(mid, last, mint);
      }
    }
  }

  // ---------- delegate allowances ----------

  predicate SetsAllowanceOf(e: Event, k: Pubkey) {
    e.Invoke? && SetsAllowance(e.instruction) && Targets(e.accounts, k)
  }

  /** The tokens that left `k` in an event, if its delegate acted. */
  function Spent(b: Bank, e: Event, k: Pubkey): int {
    var l := b.ledger;
    var l' := Next(b, e).ledger;
    if e.Invoke? && ProcessSpec(l, e.accounts, e.rent, e.instruction).Ok? && DelegateActs(l, e.accounts, e.instruction, k)
       && IsAccount(Load(l, k)) && IsAccount(Load(l', k))
    then TokensGone(Load(l, k), Load(l', k))
    else 0
  }

  /** The tokens that left `k` under its delegate along a run. */
  function SpentOnRun(b: Bank, events: seq<Event>, k: Pubkey): int {
    if events == [] then 0
    else SpentOnRun(b, events[..|events| - 1], k) + Spent(Run(b, events[..|events| - 1]), events[|events| - 1], k)
  }

  /** While no new approval or revocation intervenes, the tokens that left the account under its
      delegate plus the allowance left are the allowance there was; so no more than that ever leaves. */
  lemma {:induction false} AllowanceIsConserved(b: Bank, events: seq<Event>, k: Pubkey)
    requires Valid(b) && k in b.ledger && IsAccount(b.ledger[k])
    requires forall i | 0 <= i < |events| :: !SetsAllowanceOf(events[i], k) && events[i] != Purge(k)
    ensures k in Run(b, events).ledger && IsAccount(Run(b, events).ledger[k])
    ensures Run(b, events).ledger[k].record.account.delegatedAmount + SpentOnRun(b, events, k)
            == b.ledger[k].record.account.delegatedAmount
    ensures 0 <= SpentOnRun(b, events, k) <= b.ledger[k].record.account.delegatedAmount
  {
    if events != [] {
      var front := events[..|events| - 1];
      var last := events[|events| - 1];
      AllowanceIsConserved(b, front, k);
      RunKeepsValid(b, front);
      EventKeyStep(Run(b, front), last, k);
    }
  }

  /** A successful approval of `amount`, followed by anything but another approval, revocation or
      purge: what leaves under the delegate plus what is left of the allowance is `amount`. */
  lemma ApprovedAmountIsConserved(b: Bank, e: Event, b': Bank, k: Pubkey, events: seq<Event>)
    requires Valid(b) && e.Invoke? && (e.instruction.Approve? || e.instruction.ApproveChecked?) && Targets(e.accounts, k)
    requires ProcessSpec(b.ledger, e.accounts, e.rent, e.instruction).Ok? && b' == Next(b, e)
    requires forall i | 0 <= i < |events| :: !SetsAllowanceOf(events[i], k) && events[i] != Purge(k)
    ensures IsAccount(Load(Run(b', events).ledger, k))
    ensures Load(Run(b', events).ledger, k).record.account.delegatedAmount + SpentOnRun(b', events, k)
            == e.instruction.amount
  {
    NextKeepsValid(b, e);
    AllowanceIsConserved(b', events, k);
  }

  predicate SetsNoAllowance(events: seq<Event>, k: Pubkey) {
    forall i | 0 <= i < |events| :: !SetsAllowanceOf(events[i], k) && events[i] != Purge(k)
  }

  /** An account without a delegate gets none but by an approval, and loses nothing to one. */
  lemma {:induction false} NoDelegateIsKept(b: Bank, events: seq<Event>, k: Pubkey)
    requires Valid(b) && k in b.ledger && IsAccount(b.ledger[k]) && b.ledger[k].record.account.delegate.None?
    requires SetsNoAllowance(events, k)
    ensures IsAccount(Load(Run(b, events).ledger, k)) && Load(Run(b, events).ledger, k).record.account.delegate.None?
    ensures SpentOnRun(b, events, k) == 0
  {
    if events != [] {
      var front := events[..|events| - 1];
      var last := events[|events| - 1];
      NoDelegateIsKept(b, front, k);
      RunKeepsValid(b, front);
      EventKeyStep(Run(b, front), last, k);
    }
  }

  /** After a successful revocation, until another approval or a purge, the account has no delegate and
      loses nothing to one. */
  lemma RevokedStaysRevoked(b: Bank, e: Event, k: Pubkey, events: seq<Event>)
    requires Valid(b) && e.Invoke? && e.instruction.Revoke? && Targets(e.accounts, k)
    requires ProcessSpec(b.ledger, e.accounts, e.rent, e.instruction).Ok? && SetsNoAllowance(events, k)
    ensures IsAccount(Load(Next(b, e).ledger, k)) && Next(b, e).ledger[k].record.account.delegatedAmount == 0
    ensures IsAccount(Load(Run(Next(b, e), events).ledger, k))
    ensures Load(Run(Next(b, e), events).ledger, k).record.account.delegate.None?
    ensures SpentOnRun(Next(b, e), events, k) == 0
  {
    NextKeepsValid(b, e);
    NoDelegateIsKept(Next(b, e), events, k);
  }

  // ---------- native accounts ----------

  /** On every run: an account is native exactly when its mint is the native mint; until it is
      closed its lamports cover its tokens and its rent reserve; it has no allowance without a
      delegate. */
  lemma AccountsOnEveryRun(events: seq<Event>, k: Pubkey)
    requires k in Run(EMPTY_BANK, events).ledger && IsAccount(Run(EMPTY_BANK, events).ledger[k])
    ensures var b := Run(EMPTY_BANK, events);
            var a := b.ledger[k].record.account;
            && (a.isNative.Some? <==> a.mint == NATIVE_MINT)
            && (a.isNative.Some? && k !in b.closed ==> a.amount + a.isNative.value <= b.ledger[k].lamports)
            && (a.delegate.None? ==> a.delegatedAmount == 0)
  {
    var b := Run(EMPTY_BANK, events);
    EmptyBankValid();
    RunKeepsValid(EMPTY_BANK, events);
    assert CellOk(b.ledger, b.ledger[k]);
  }

  // ---------- lamports ----------

  ghost function TotalLamports(l: Ledger): nat
    decreases |l|
  {
    if l == map[] then 0
    else
      var k :| k in l;
      l[k].lamports + TotalLamports(l - {k})
  }

  lemma {:induction false} TotalLamportsRemove(l: Ledger, k: Pubkey)
    requires k in l
    ensures TotalLamports(l) == l[k].lamports + TotalLamports(l - {k})
    decreases |l|
  {
    var k' :| k' in l && TotalLamports(l) == l[k'].lamports + TotalLamports(l - {k'});
    if k != k' {
      TotalLamportsRemove(l - {k'}, k);
      TotalLamportsRemove(l - {k}, k');
      assert l - {k} - {k'} == l - {k'} - {k};
    }
  }

  lemma TotalLamportsPut(l: Ledger, k: Pubkey, c: Cell)
    ensures TotalLamports(l[k := c]) == TotalLamports(l) - Load(l, k).lamports + c.lamports
  {
    TotalLamportsRemove(l[k := c], k);
    assert l[k := c] - {k} == l - {k};
    if k in l {
      TotalLamportsRemove(l, k);
    } else {
      assert l - {k} == l;
    }
  }

  /** Transfer conserves lamports. */
  lemma TransferConservesLamports(l: Ledger, accounts: seq<AccountMeta>, amount: u64, decimals: Option<u8>)
    requires TransferSpec(l, accounts, amount, decimals).Ok?
    ensures TotalLamports(TransferSpec(l, accounts, amount, decimals).value) == TotalLamports(l)
  {
    var l' := TransferSpec(l, accounts, amount, decimals).value;
    var (from, to) := (accounts[0].key, accounts[if decimals.Some? then 2 else 1].key);
    if from != to {
      TotalLamportsPut(l, from, l'[from]);
      TotalLamportsPut(l[from := l'[from]], to, l'[to]);
      assert l' == l[from := l'[from]][to := l'[to]];
    }
  }

  /** Close conserves lamports exactly when it does not close an account that has lamports into
      itself; the runtime rejects the other case as unbalanced. */
  lemma CloseConservesLamports(l: Ledger, accounts: seq<AccountMeta>)
    requires CloseAccountSpec(l, accounts).Ok?
    ensures TotalLamports(CloseAccountSpec(l, accounts).value) == TotalLamports(l)
       <==> accounts[0].key != accounts[1].key || l[accounts[0].key].lamports == 0
  {
    var l' := CloseAccountSpec(l, accounts).value;
    var (from, to) := (accounts[0].key, accounts[1].key);
    TotalLamportsPut(l, to, if from == to then l[from].(lamports := 2 * l[from].lamports) else l'[to]);
    TotalLamportsPut(l[to := if from == to then l[from].(lamports := 2 * l[from].lamports) else l'[to]], from, l'[from]);
  }
}
