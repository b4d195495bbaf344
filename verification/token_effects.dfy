/** What a caller of the token program can rely on (token/program/src/processor.rs): for each
    instruction, exactly when it succeeds, what every record holds afterwards, and that the error it
    fails with is true. Stated by what the ledger shows before and after. */
module TokenEffects {
  import opened Basics
  import opened TokenState
  import opened OwnerValidation
  import opened TokenInstructions
  import opened TokenSpec
  import opened TokenRuns
  import opened TokenAuthority

  /** The tokens in an account. */
  function Amount(l: Ledger, key: Pubkey): u64 {
    if IsAccount(Load(l, key)) then l[key].record.account.amount else 0
  }

  function AccountOf(l: Ledger, key: Pubkey): Account {
    if IsAccount(Load(l, key)) then l[key].record.account else ZERO_ACCOUNT
  }

  /** `amount` if the two keys are the same account. */
  function IfSame(key: Pubkey, account: Pubkey, amount: nat): nat {
    if key == account then amount else 0
  }

  /** Nothing changed but the accounts at the given keys. */
  ghost predicate OnlyAt(l: Ledger, l': Ledger, keys: set<Pubkey>) {
    forall k | k !in keys :: (k in l' <==> k in l) && Load(l', k) == Load(l, k)
  }

  // ---------- authorities ----------

  /** A key that is not a multisig account's authorizes by signing; one that is, by its members'
      signatures and no other way. */
  lemma AuthorizesIff(l: Ledger, key: Pubkey, owner: AccountMeta, signers: seq<AccountMeta>)
    ensures ValidateOwner(l, key, owner, signers) == Pass <==>
              && owner.key == key
              && (if Load(l, key).record.MultisigRecord? then
                    var ms := Load(l, key).record.multisig;
                    ms.isInitialized && ms.n <= 11 && MultisigSatisfied(ms, signers)
                  else owner.isSigner)
    ensures ValidateOwner(l, key, owner, signers) == Fail(Token(OwnerMismatch)) <==> owner.key != key
    ensures ValidateOwner(l, key, owner, signers) == Fail(MissingRequiredSignature) ==>
              if Load(l, key).record.MultisigRecord? then
                Load(l, key).record.multisig.n <= 11 && !MultisigSatisfied(Load(l, key).record.multisig, signers)
              else !owner.isSigner
  {
  }

  predicate Authorizes(l: Ledger, key: Pubkey, owner: AccountMeta, signers: seq<AccountMeta>) {
    ValidateOwner(l, key, owner, signers) == Pass
  }

  /** An authority that signed, for a key that is not a multisig account's, is among the signers of the
      instruction. */
  lemma SignedForMeans(l: Ledger, accounts: seq<AccountMeta>, key: Pubkey)
    requires SignedFor(l, accounts, key)
    ensures Load(l, key).record.MultisigRecord? || AccountMeta(key, true) in accounts
  {
    var i :| 0 <= i < |accounts| && ValidateOwner(l, key, accounts[i], accounts[i + 1..]) == Pass;
    AuthorizesIff(l, key, accounts[i], accounts[i + 1..]);
  }

  /** Who may take `amount`: the delegate within the allowance if it is the authority, else the owner. */
  predicate MayDebit(l: Ledger, a: Account, authority: AccountMeta, signers: seq<AccountMeta>, amount: u64) {
    if a.delegate == Some(authority.key) then
      Authorizes(l, authority.key, authority, signers) && amount <= a.delegatedAmount
    else Authorizes(l, a.owner, authority, signers)
  }

  /** The account after a debit: what the delegate takes is off its allowance, and a spent delegate is
      dismissed. */
  predicate DebitedBy(a: Account, a': Account, authority: Pubkey, amount: nat) {
    && a'.amount == a.amount - amount
    && (if a.delegate == Some(authority) then
          a'.delegatedAmount == a.delegatedAmount - amount
          && a'.delegate == (if a.delegatedAmount == amount then None else a.delegate)
        else a'.delegatedAmount == a.delegatedAmount && a'.delegate == a.delegate)
    && a'.mint == a.mint && a'.owner == a.owner && a'.state == a.state && a'.isNative == a.isNative
    && a'.closeAuthority == a.closeAuthority
  }

  // ---------- transfers ----------

  predicate Usable(l: Ledger, key: Pubkey) {
    IsAccount(Load(l, key)) && !l[key].record.account.state.Frozen?
  }

  /** The mint passed to a checked instruction is the account's, with the decimals expected. */
  predicate MintExpected(l: Ledger, a: Account, mint: Pubkey, decimals: u8) {
    a.mint == mint && IsMint(Load(l, mint)) && l[mint].record.mint.decimals == decimals
  }

  predicate TransferAllowed(l: Ledger, from: Pubkey, to: Pubkey, authority: AccountMeta, signers: seq<AccountMeta>, amount: u64)
  {
    && Usable(l, from) && Usable(l, to)
    && var a := l[from].record.account;
       var b := l[to].record.account;
       && amount <= a.amount && a.mint == b.mint && MayDebit(l, a, authority, signers, amount)
       && (from != to ==> b.amount + amount < U64_RANGE)
       && (from != to && a.isNative.Some? ==> amount <= l[from].lamports && l[to].lamports + amount < U64_RANGE)
  }

  lemma TransferSucceedsIff(l: Ledger, accounts: seq<AccountMeta>, amount: u64, decimals: Option<u8>)
    ensures var skip := if decimals.Some? then 1 else 0;
            TransferSpec(l, accounts, amount, decimals).Ok? <==>
              && |accounts| >= 3 + skip
              && TransferAllowed(l, accounts[0].key, accounts[1 + skip].key, accounts[2 + skip], accounts[3 + skip..], amount)
              && (decimals.Some? ==>
                    MintExpected(l, l[accounts[0].key].record.account, accounts[1].key, decimals.value))
  {
  }

  /** The amount moves, for native accounts with as many lamports; a transfer to the same account
      changes nothing. */
  lemma TransferDoes(l: Ledger, accounts: seq<AccountMeta>, amount: u64, decimals: Option<u8>)
    requires TransferSpec(l, accounts, amount, decimals).Ok?
    ensures var skip := if decimals.Some? then 1 else 0;
            var l' := TransferSpec(l, accounts, amount, decimals).value;
            var from := accounts[0].key;
            var to := accounts[1 + skip].key;
            if from == to then l' == l
            else
              && OnlyAt(l, l', {from, to})
              && IsAccount(Load(l, from)) && IsAccount(Load(l', from)) && IsAccount(Load(l, to))
              && DebitedBy(l[from].record.account, l'[from].record.account, accounts[2 + skip].key, amount)
              && Load(l', to).record == AccountRecord(l[to].record.account.(amount := Amount(l, to) + amount))
              && var moved := if l[from].record.account.isNative.Some? then amount else 0;
                 l'[from].lamports == l[from].lamports - moved && l'[to].lamports == l[to].lamports + moved
  {
  }

  lemma TransferFailsTruly(l: Ledger, accounts: seq<AccountMeta>, amount: u64, decimals: Option<u8>)
    requires TransferSpec(l, accounts, amount, decimals).Err?
    ensures var skip := if decimals.Some? then 1 else 0;
            var e := TransferSpec(l, accounts, amount, decimals).error;
            if |accounts| < 3 + skip then e == NotEnoughAccountKeys
            else e != NotEnoughAccountKeys && TransferErrorTrue(l, accounts, skip, amount, decimals, e)
  {
    var e := TransferSpec(l, accounts, amount, decimals).error;
    if e == Token(Overflow) || e == Token(InsufficientFunds) {
      TransferFallsShortTruly(l, accounts, amount, decimals, e);
    } else if e == Token(OwnerMismatch) || e == MissingRequiredSignature {
      TransferRefusedTruly(l, accounts, amount, decimals, e);
    } else if e == Token(MintMismatch) || e == Token(MintDecimalsMismatch) {
      TransferMintsDiffer(l, accounts, amount, decimals, e);
    }
  }

  lemma TransferMintsDiffer(l: Ledger, accounts: seq<AccountMeta>, amount: u64, decimals: Option<u8>, e: ProgramError)
    requires (e == Token(MintMismatch) || e == Token(MintDecimalsMismatch)) && TransferSpec(l, accounts, amount, decimals) == Err(e)
    ensures |accounts| >= if decimals.Some? then 4 else 3
    ensures TransferErrorTrue(l, accounts, if decimals.Some? then 1 else 0, amount, decimals, e)
  {
  }

  lemma TransferRefusedTruly(l: Ledger, accounts: seq<AccountMeta>, amount: u64, decimals: Option<u8>, e: ProgramError)
    requires (e == Token(OwnerMismatch) || e == MissingRequiredSignature) && TransferSpec(l, accounts, amount, decimals) == Err(e)
    ensures |accounts| >= if decimals.Some? then 4 else 3
    ensures TransferErrorTrue(l, accounts, if decimals.Some? then 1 else 0, amount, decimals, e)
  {
  }

  lemma TransferFallsShortTruly(l: Ledger, accounts: seq<AccountMeta>, amount: u64, decimals: Option<u8>, e: ProgramError)
    requires (e == Token(Overflow) || e == Token(InsufficientFunds)) && TransferSpec(l, accounts, amount, decimals) == Err(e)
    ensures |accounts| >= if decimals.Some? then 4 else 3
    ensures TransferErrorTrue(l, accounts, if decimals.Some? then 1 else 0, amount, decimals, e)
  {
  }

  /** The reason a transfer gives for failing. */
  predicate TransferErrorTrue(l: Ledger, accounts: seq<AccountMeta>, skip: nat, amount: u64, decimals: Option<u8>, e: ProgramError)
    requires |accounts| >= 3 + skip && (decimals.Some? ==> skip == 1)
  {
    var from := accounts[0].key;
    var to := accounts[1 + skip].key;
    var a := AccountOf(l, from);
    match e
    case Token(AccountFrozen) => a.state.Frozen? || AccountOf(l, to).state.Frozen?
    case Token(InsufficientFunds) => a.amount < amount || a.delegatedAmount < amount
    case Token(MintMismatch) => a.mint != AccountOf(l, to).mint || (decimals.Some? && a.mint != accounts[1].key)
    case Token(MintDecimalsMismatch) => decimals.Some? && !MintExpected(l, a, accounts[1].key, decimals.value)
    case Token(Overflow) =>
      from != to && (AccountOf(l, to).amount + amount >= U64_RANGE
                     || (a.isNative.Some? && (Load(l, from).lamports < amount || Load(l, to).lamports + amount >= U64_RANGE)))
    case Token(OwnerMismatch) => accounts[2 + skip].key != a.owner
    case MissingRequiredSignature => !MayDebit(l, a, accounts[2 + skip], accounts[3 + skip..], 0)
    case Token(_) => false
    case _ => true
  }

  /** Every account's tokens after a transfer; one to the same account in effect moves none. */
  lemma TransferAmounts(l: Ledger, from: Pubkey, to: Pubkey, authority: AccountMeta, amount: u64, l': Ledger)
    requires TransferSpec(l, [AccountMeta(from, false), AccountMeta(to, false), authority], amount, None) == Ok(l')
    ensures forall k :: Amount(l', k) == Amount(l, k) + IfSame(k, to, amount) - IfSame(k, from, amount)
    ensures forall k :: Supply(l', k) == Supply(l, k)
  {
  }

  // ---------- minting and burning ----------

  lemma MintToSucceedsIff(l: Ledger, accounts: seq<AccountMeta>, amount: u64, decimals: Option<u8>)
    ensures MintToSpec(l, accounts, amount, decimals).Ok? <==>
              && |accounts| >= 3
              && MintToAllowed(l, accounts[0].key, accounts[1].key, accounts[2], accounts[3..], amount)
              && (decimals.Some? ==> decimals.value == l[accounts[0].key].record.mint.decimals)
  {
  }

  predicate MintToAllowed(l: Ledger, mint: Pubkey, to: Pubkey, authority: AccountMeta, signers: seq<AccountMeta>, amount: u64)
  {
    && Usable(l, to) && l[to].record.account.isNative.None? && l[to].record.account.mint == mint && IsMint(Load(l, mint))
    && var m := l[mint].record.mint;
       && m.mintAuthority.Some? && Authorizes(l, m.mintAuthority.value, authority, signers)
       && Amount(l, to) + amount < U64_RANGE && m.supply + amount < U64_RANGE
  }

  lemma MintToDoes(l: Ledger, accounts: seq<AccountMeta>, amount: u64, decimals: Option<u8>)
    requires MintToSpec(l, accounts, amount, decimals).Ok?
    ensures var l' := MintToSpec(l, accounts, amount, decimals).value;
            var mint := accounts[0].key;
            var to := accounts[1].key;
            && OnlyAt(l, l', {mint, to})
            && IsMint(Load(l, mint)) && IsAccount(Load(l, to))
            && Load(l', to) == l[to].(record := AccountRecord(l[to].record.account.(amount := Amount(l, to) + amount)))
            && Load(l', mint) == l[mint].(record := MintRecord(l[mint].record.mint.(supply := Supply(l, mint) + amount)))
  {
  }

  lemma MintToFailsTruly(l: Ledger, accounts: seq<AccountMeta>, amount: u64, decimals: Option<u8>)
    requires MintToSpec(l, accounts, amount, decimals).Err?
    ensures var e := MintToSpec(l, accounts, amount, decimals).error;
            if |accounts| < 3 then e == NotEnoughAccountKeys
            else
              var mint := accounts[0].key;
              var to := accounts[1].key;
              && e != NotEnoughAccountKeys
              && (e == Token(AccountFrozen) ==> !Usable(l, to))
              && (e == Token(NativeNotSupported) ==> l[to].record.account.isNative.Some?)
              && (e == Token(MintMismatch) ==> l[to].record.account.mint != mint)
              && (e == Token(FixedSupply) ==> l[mint].record.mint.mintAuthority.None?)
              && (e == Token(MintDecimalsMismatch) ==> decimals.Some? && l[mint].record.mint.decimals != decimals.value)
              && (e == Token(Overflow) ==> Amount(l, to) + amount >= U64_RANGE || Supply(l, mint) + amount >= U64_RANGE)
              && (e == Token(OwnerMismatch) ==> l[mint].record.mint.mintAuthority != Some(accounts[2].key))
              && (e == MissingRequiredSignature ==> !Authorizes(l, accounts[2].key, accounts[2], accounts[3..]))
  {
  }

  /** Every account's tokens and every supply after minting. */
  lemma MintAmounts(l: Ledger, mint: Pubkey, to: Pubkey, authority: AccountMeta, amount: u64, l': Ledger)
    requires MintToSpec(l, [AccountMeta(mint, false), AccountMeta(to, false), authority], amount, None) == Ok(l')
    ensures forall k :: Amount(l', k) == Amount(l, k) + IfSame(k, to, amount)
    ensures forall k :: Supply(l', k) == Supply(l, k) + IfSame(k, mint, amount)
  {
  }

  predicate BurnAllowed(l: Ledger, from: Pubkey, mint: Pubkey, authority: AccountMeta, signers: seq<AccountMeta>, amount: u64)
  {
    && Usable(l, from) && l[from].record.account.isNative.None? && l[from].record.account.mint == mint && IsMint(Load(l, mint))
    && amount <= Amount(l, from) && MayDebit(l, l[from].record.account, authority, signers, amount)
    && amount <= Supply(l, mint)
  }

  lemma BurnSucceedsIff(l: Ledger, accounts: seq<AccountMeta>, amount: u64, decimals: Option<u8>)
    ensures BurnSpec(l, accounts, amount, decimals).Ok? <==>
              && |accounts| >= 3
              && BurnAllowed(l, accounts[0].key, accounts[1].key, accounts[2], accounts[3..], amount)
              && (decimals.Some? ==> decimals.value == l[accounts[1].key].record.mint.decimals)
  {
  }

  lemma BurnDoes(l: Ledger, accounts: seq<AccountMeta>, amount: u64, decimals: Option<u8>)
    requires BurnSpec(l, accounts, amount, decimals).Ok?
    ensures var l' := BurnSpec(l, accounts, amount, decimals).value;
            var from := accounts[0].key;
            var mint := accounts[1].key;
            && OnlyAt(l, l', {from, mint})
            && IsMint(Load(l, mint)) && IsAccount(Load(l, from)) && IsAccount(Load(l', from))
            && DebitedBy(l[from].record.account, l'[from].record.account, accounts[2].key, amount)
            && l'[from].lamports == l[from].lamports
            && Load(l', mint) == l[mint].(record := MintRecord(l[mint].record.mint.(supply := Supply(l, mint) - amount)))
  {
  }

  lemma BurnFailsTruly(l: Ledger, accounts: seq<AccountMeta>, amount: u64, decimals: Option<u8>)
    requires BurnSpec(l, accounts, amount, decimals).Err?
    ensures var e := BurnSpec(l, accounts, amount, decimals).error;
            if |accounts| < 3 then e == NotEnoughAccountKeys
            else
              var from := accounts[0].key;
              var mint := accounts[1].key;
              && e != NotEnoughAccountKeys
              && (e == Token(AccountFrozen) ==> !Usable(l, from))
              && (e == Token(NativeNotSupported) ==> l[from].record.account.isNative.Some?)
              && (e == Token(InsufficientFunds) ==> Amount(l, from) < amount || l[from].record.account.delegatedAmount < amount)
              && (e == Token(MintMismatch) ==> l[from].record.account.mint != mint)
              && (e == Token(MintDecimalsMismatch) ==> decimals.Some? && l[mint].record.mint.decimals != decimals.value)
              && (e == Token(Overflow) ==> Supply(l, mint) < amount)
              && (e == Token(OwnerMismatch) ==> l[from].record.account.owner != accounts[2].key)
              && (e == MissingRequiredSignature ==> !Authorizes(l, accounts[2].key, accounts[2], accounts[3..]))
  {
  }

  /** Every account's tokens and every supply after burning. */
  lemma BurnAmounts(l: Ledger, from: Pubkey, mint: Pubkey, authority: AccountMeta, amount: u64, l': Ledger)
    requires BurnSpec(l, [AccountMeta(from, false), AccountMeta(mint, false), authority], amount, None) == Ok(l')
    ensures forall k :: Amount(l', k) == Amount(l, k) - IfSame(k, from, amount)
    ensures forall k :: Supply(l', k) == Supply(l, k) - IfSame(k, mint, amount)
  {
  }

  // ---------- delegates ----------

  lemma ApproveSucceedsIff(l: Ledger, accounts: seq<AccountMeta>, amount: u64, decimals: Option<u8>)
    ensures var skip := if decimals.Some? then 1 else 0;
            ApproveSpec(l, accounts, amount, decimals).Ok? <==>
              && |accounts| >= 3 + skip
              && Usable(l, accounts[0].key)
              && var a := l[accounts[0].key].record.account;
                 && Authorizes(l, a.owner, accounts[2 + skip], accounts[3 + skip..])
                 && (decimals.Some? ==> MintExpected(l, a, accounts[1].key, decimals.value))
  {
  }

  /** The account names the delegate, for the amount, and is otherwise as it was. */
  lemma ApproveDoes(l: Ledger, accounts: seq<AccountMeta>, amount: u64, decimals: Option<u8>)
    requires ApproveSpec(l, accounts, amount, decimals).Ok?
    ensures var l' := ApproveSpec(l, accounts, amount, decimals).value;
            var k := accounts[0].key;
            && OnlyAt(l, l', {k}) && IsAccount(Load(l, k))
            && var delegate := accounts[if decimals.Some? then 2 else 1].key;
               Load(l', k) == l[k].(record :=
                 AccountRecord(l[k].record.account.(delegate := Some(delegate), delegatedAmount := amount)))
  {
  }

  lemma RevokeSucceedsIff(l: Ledger, accounts: seq<AccountMeta>)
    ensures RevokeSpec(l, accounts).Ok? <==>
              && |accounts| >= 2
              && Usable(l, accounts[0].key)
              && Authorizes(l, l[accounts[0].key].record.account.owner, accounts[1], accounts[2..])
  {
  }

  /** The account has no delegate and no allowance, and is otherwise as it was. */
  lemma RevokeDoes(l: Ledger, accounts: seq<AccountMeta>)
    requires RevokeSpec(l, accounts).Ok?
    ensures var l' := RevokeSpec(l, accounts).value;
            var k := accounts[0].key;
            && OnlyAt(l, l', {k}) && IsAccount(Load(l, k)) && IsAccount(Load(l', k))
            && l'[k].lamports == l[k].lamports
            && var a := l[k].record.account;
               var a' := l'[k].record.account;
               && a'.delegate == None && a'.delegatedAmount == 0
               && a'.amount == a.amount && a'.owner == a.owner && a'.closeAuthority == a.closeAuthority
               && a'.mint == a.mint && a'.state == a.state && a'.isNative == a.isNative
  {
  }

  lemma DelegationFailsTruly(l: Ledger, accounts: seq<AccountMeta>, amount: u64, decimals: Option<u8>)
    ensures ApproveSpec(l, accounts, amount, decimals) == Err(Token(AccountFrozen))
            || RevokeSpec(l, accounts) == Err(Token(AccountFrozen)) ==>
              accounts != [] && IsAccount(Load(l, accounts[0].key)) && l[accounts[0].key].record.account.state.Frozen?
    ensures ApproveSpec(l, accounts, amount, decimals) == Err(NotEnoughAccountKeys) <==>
              |accounts| < if decimals.Some? then 4 else 3
    ensures RevokeSpec(l, accounts) == Err(NotEnoughAccountKeys) <==> |accounts| < 2
    ensures ApproveSpec(l, accounts, amount, decimals) == Err(Token(MintMismatch)) ==>
              decimals.Some? && l[accounts[0].key].record.account.mint != accounts[1].key
    ensures ApproveSpec(l, accounts, amount, decimals) == Err(Token(OwnerMismatch)) ==>
              l[accounts[0].key].record.account.owner != accounts[if decimals.Some? then 3 else 2].key
    ensures RevokeSpec(l, accounts) == Err(Token(OwnerMismatch)) ==> l[accounts[0].key].record.account.owner != accounts[1].key
  {
  }

  // ---------- authorities of records ----------

  /** Which authority a record has that an instruction may change, and whether it may be removed. */
  predicate Changeable(r: Record, t: AuthorityType, newAuthority: Option<Pubkey>) {
    match t
    case AccountOwner => r.AccountRecord? && newAuthority.Some?
    case CloseAccounts => r.AccountRecord?
    case MintTokens => r.MintRecord? && r.mint.mintAuthority.Some?
    case FreezeAccounts => r.MintRecord? && r.mint.freezeAuthority.Some?
  }

  /** Who holds that authority. */
  function Holder(r: Record, t: AuthorityType, newAuthority: Option<Pubkey>): Pubkey
    requires Changeable(r, t, newAuthority)
  {
    match t
    case AccountOwner => r.account.owner
    case CloseAccounts => Closer(r.account)
    case MintTokens => r.mint.mintAuthority.value
    case FreezeAccounts => r.mint.freezeAuthority.value
  }

  lemma SetAuthoritySucceedsIff(l: Ledger, accounts: seq<AccountMeta>, t: AuthorityType, newAuthority: Option<Pubkey>)
    ensures SetAuthoritySpec(l, accounts, t, newAuthority).Ok? <==>
              && |accounts| >= 2
              && var k := accounts[0].key;
                 && (Usable(l, k) || IsMint(Load(l, k)))
                 && Changeable(l[k].record, t, newAuthority)
                 && Authorizes(l, Holder(l[k].record, t, newAuthority), accounts[1], accounts[2..])
  {
  }

  /** The named authority is the new one, and nothing else changed. */
  lemma SetAuthorityDoes(l: Ledger, accounts: seq<AccountMeta>, t: AuthorityType, newAuthority: Option<Pubkey>)
    requires SetAuthoritySpec(l, accounts, t, newAuthority).Ok?
    ensures var l' := SetAuthoritySpec(l, accounts, t, newAuthority).value;
            var k := accounts[0].key;
            && OnlyAt(l, l', {k}) && k in l && k in l' && l'[k].lamports == l[k].lamports
            && Changeable(l[k].record, t, newAuthority)
            && l'[k].record ==
               match t
               case AccountOwner => AccountRecord(l[k].record.account.(owner := newAuthority.value))
               case CloseAccounts => AccountRecord(l[k].record.account.(closeAuthority := newAuthority))
               case MintTokens => MintRecord(l[k].record.mint.(mintAuthority := newAuthority))
               case FreezeAccounts => MintRecord(l[k].record.mint.(freezeAuthority := newAuthority))
  {
  }

  lemma SetAuthorityFailsTruly(l: Ledger, accounts: seq<AccountMeta>, t: AuthorityType, newAuthority: Option<Pubkey>)
    requires SetAuthoritySpec(l, accounts, t, newAuthority).Err?
    ensures var e := SetAuthoritySpec(l, accounts, t, newAuthority).error;
            if |accounts| < 2 then e == NotEnoughAccountKeys
            else
              var r := Load(l, accounts[0].key).record;
              && e != NotEnoughAccountKeys
              && (e == InvalidArgument <==> !r.AccountRecord? && !r.MintRecord?)
              && (e == Token(AccountFrozen) ==> r.AccountRecord? && r.account.state.Frozen?)
              && (e == Token(FixedSupply) ==> t == MintTokens && r.MintRecord? && r.mint.mintAuthority.None?)
              && (e == Token(MintCannotFreeze) ==> t == FreezeAccounts && r.MintRecord? && r.mint.freezeAuthority.None?)
              && (e == Token(AuthorityTypeNotSupported) ==>
                    || (r.AccountRecord? && (t.MintTokens? || t.FreezeAccounts?))
                    || (r.MintRecord? && (t.AccountOwner? || t.CloseAccounts?)))
              && (e == Token(InvalidInstruction) ==> t == AccountOwner && newAuthority.None?)
              && (e == Token(OwnerMismatch) ==> r.AccountRecord? || r.MintRecord?)
              && (e == Token(OwnerMismatch) && Changeable(r, t, newAuthority) ==> Holder(r, t, newAuthority) != accounts[1].key)
              && (e == MissingRequiredSignature ==> !Authorizes(l, accounts[1].key, accounts[1], accounts[2..]))
  {
  }

  // ---------- closing and freezing ----------

  lemma CloseSucceedsIff(l: Ledger, accounts: seq<AccountMeta>)
    ensures CloseAccountSpec(l, accounts).Ok? <==>
              && |accounts| >= 3
              && IsAccount(Load(l, accounts[0].key))
              && var a := l[accounts[0].key].record.account;
                 && (a.isNative.Some? || a.amount == 0)
                 && Authorizes(l, Closer(a), accounts[2], accounts[3..])
                 && Load(l, accounts[1].key).lamports + l[accounts[0].key].lamports < U64_RANGE
  {
  }

  /** All lamports go to the destination, and the account is left empty of tokens and lamports. */
  lemma CloseDoes(l: Ledger, accounts: seq<AccountMeta>)
    requires CloseAccountSpec(l, accounts).Ok?
    ensures var l' := CloseAccountSpec(l, accounts).value;
            var from := accounts[0].key;
            var to := accounts[1].key;
            && IsAccount(Load(l, from))
            && Load(l', from) == Cell(0, AccountRecord(l[from].record.account.(amount := 0)))
            && (from != to ==> Load(l', to) == Load(l, to).(lamports := Load(l, to).lamports + l[from].lamports))
            && OnlyAt(l, l', {from, to})
  {
  }

  lemma CloseFailsTruly(l: Ledger, accounts: seq<AccountMeta>)
    requires CloseAccountSpec(l, accounts).Err?
    ensures var e := CloseAccountSpec(l, accounts).error;
            if |accounts| < 3 then e == NotEnoughAccountKeys
            else
              var from := accounts[0].key;
              && e != NotEnoughAccountKeys
              && (e == Token(NonNativeHasBalance) ==> l[from].record.account.isNative.None? && Amount(l, from) > 0)
              && (e == Token(Overflow) ==> Load(l, accounts[1].key).lamports + l[from].lamports >= U64_RANGE)
              && (e == Token(OwnerMismatch) ==> Closer(l[from].record.account) != accounts[2].key)
              && (e == MissingRequiredSignature ==> !Authorizes(l, accounts[2].key, accounts[2], accounts[3..]))
  {
  }

  lemma ToggleFreezeSucceedsIff(l: Ledger, accounts: seq<AccountMeta>, freeze: bool)
    ensures ToggleFreezeSpec(l, accounts, freeze).Ok? <==>
              && |accounts| >= 3
              && IsAccount(Load(l, accounts[0].key))
              && var a := l[accounts[0].key].record.account;
                 && (if freeze then a.state.Initialized? else a.state.Frozen?)
                 && a.isNative.None? && a.mint == accounts[1].key
                 && var authority := FreezeAuthority(l, a.mint);
                    authority.Some? && Authorizes(l, authority.value, accounts[2], accounts[3..])
  {
  }

  /** The account is frozen, or no longer is, and is otherwise as it was. */
  lemma ToggleFreezeDoes(l: Ledger, accounts: seq<AccountMeta>, freeze: bool)
    requires ToggleFreezeSpec(l, accounts, freeze).Ok?
    ensures var l' := ToggleFreezeSpec(l, accounts, freeze).value;
            var k := accounts[0].key;
            && OnlyAt(l, l', {k}) && IsAccount(Load(l, k))
            && Load(l', k) == l[k].(record := AccountRecord(l[k].record.account.(state := if freeze then Frozen else Initialized)))
  {
  }

  lemma ToggleFreezeFailsTruly(l: Ledger, accounts: seq<AccountMeta>, freeze: bool)
    requires ToggleFreezeSpec(l, accounts, freeze).Err?
    ensures var e := ToggleFreezeSpec(l, accounts, freeze).error;
            if |accounts| < 3 then e == NotEnoughAccountKeys
            else
              var k := accounts[0].key;
              && e != NotEnoughAccountKeys
              && (e == Token(InvalidTokenState) ==> (freeze <==> AccountOf(l, k).state.Frozen?))
              && (e == Token(NativeNotSupported) ==> l[k].record.account.isNative.Some?)
              && (e == Token(MintMismatch) ==> l[k].record.account.mint != accounts[1].key)
              && (e == Token(MintCannotFreeze) ==> FreezeAuthority(l, accounts[1].key).None?)
              && (e == Token(OwnerMismatch) ==> FreezeAuthority(l, accounts[1].key) != Some(accounts[2].key))
              && (e == MissingRequiredSignature ==> !Authorizes(l, accounts[2].key, accounts[2], accounts[3..]))
  {
  }

  // ---------- initializing ----------

  lemma InitializeMintSucceedsIff(l: Ledger, accounts: seq<AccountMeta>, rent: Rent, decimals: u8, mintAuthority: Pubkey,
                                  freezeAuthority: Option<Pubkey>)
    ensures InitializeMintSpec(l, accounts, rent, decimals, mintAuthority, freezeAuthority).Ok? <==>
              && |accounts| >= 2
              && var c := Load(l, accounts[0].key);
                 c.record.MintRecord? && !c.record.mint.isInitialized && rent.mint <= c.lamports
    ensures InitializeMintSpec(l, accounts, rent, decimals, mintAuthority, freezeAuthority) == Err(Token(NotRentExempt)) ==>
              Load(l, accounts[0].key).lamports < rent.mint
    ensures InitializeMintSpec(l, accounts, rent, decimals, mintAuthority, freezeAuthority) == Err(Token(TokenAlreadyInUse)) ==>
              IsMint(Load(l, accounts[0].key))
  {
  }

  /** The mint has the given authorities and decimals, and the supply of the blank record. */
  lemma InitializeMintDoes(l: Ledger, accounts: seq<AccountMeta>, rent: Rent, decimals: u8, mintAuthority: Pubkey,
                           freezeAuthority: Option<Pubkey>)
    requires InitializeMintSpec(l, accounts, rent, decimals, mintAuthority, freezeAuthority).Ok?
    ensures var l' := InitializeMintSpec(l, accounts, rent, decimals, mintAuthority, freezeAuthority).value;
            var k := accounts[0].key;
            && OnlyAt(l, l', {k}) && k in l && l[k].record.MintRecord? && IsMint(Load(l', k))
            && l'[k].lamports == l[k].lamports
            && var m := l'[k].record.mint;
               && m.mintAuthority == Some(mintAuthority) && m.freezeAuthority == freezeAuthority
               && m.decimals == decimals && m.supply == l[k].record.mint.supply
  {
  }

  /** The owner that InitializeAccount takes from its accounts, or InitializeAccount2 from its data. */
  function GivenOwner(accounts: seq<AccountMeta>, owner: Option<Pubkey>): Pubkey
    requires owner.None? ==> |accounts| > 2
  {
    if owner.Some? then owner.value else accounts[2].key
  }

  lemma InitializeAccountSucceedsIff(l: Ledger, accounts: seq<AccountMeta>, rent: Rent, owner: Option<Pubkey>)
    ensures InitializeAccountSpec(l, accounts, rent, owner).Ok? <==>
              && |accounts| >= (if owner.Some? then 3 else 4)
              && var c := Load(l, accounts[0].key);
                 && c.record.AccountRecord? && c.record.account.state.Uninitialized? && rent.account <= c.lamports
                 && (accounts[1].key == NATIVE_MINT || IsMint(Load(l, accounts[1].key)))
    ensures InitializeAccountSpec(l, accounts, rent, owner) == Err(Token(NotRentExempt)) ==>
              Load(l, accounts[0].key).lamports < rent.account
    ensures InitializeAccountSpec(l, accounts, rent, owner) == Err(Token(InvalidMint)) ==>
              accounts[1].key != NATIVE_MINT && !IsMint(Load(l, accounts[1].key))
    ensures InitializeAccountSpec(l, accounts, rent, owner) == Err(Token(TokenAlreadyInUse)) ==>
              IsAccount(Load(l, accounts[0].key))
  {
  }

  /** The account belongs to the owner, without delegate, empty; a native one keeps the rent minimum as
      its reserve and counts the rest of its lamports as tokens. */
  lemma InitializeAccountDoes(l: Ledger, accounts: seq<AccountMeta>, rent: Rent, owner: Option<Pubkey>)
    requires InitializeAccountSpec(l, accounts, rent, owner).Ok?
    ensures var l' := InitializeAccountSpec(l, accounts, rent, owner).value;
            var k := accounts[0].key;
            && OnlyAt(l, l', {k}) && k in l && l[k].record.AccountRecord? && IsAccount(Load(l', k))
            && l'[k].lamports == l[k].lamports
            && var a := l'[k].record.account;
               && a.mint == accounts[1].key && a.owner == GivenOwner(accounts, owner)
               && a.delegate == None && a.delegatedAmount == 0 && a.state == Initialized
               && a.closeAuthority == l[k].record.account.closeAuthority
               && (if a.mint == NATIVE_MINT then a.isNative == Some(rent.account) && a.amount == l[k].lamports - rent.account
                   else a.isNative == None && a.amount == 0)
  {
  }

  lemma InitializeMultisigSucceedsIff(l: Ledger, accounts: seq<AccountMeta>, rent: Rent, m: u8)
    ensures InitializeMultisigSpec(l, accounts, rent, m).Ok? <==>
              && 3 <= |accounts| <= 13
              && 1 <= m <= 11
              && var c := Load(l, accounts[0].key);
                 c.record.MultisigRecord? && !c.record.multisig.isInitialized && rent.multisig <= c.lamports
    ensures InitializeMultisigSpec(l, accounts, rent, m) == Err(Token(NotRentExempt)) ==>
              Load(l, accounts[0].key).lamports < rent.multisig
    ensures InitializeMultisigSpec(l, accounts, rent, m) == Err(Token(InvalidNumberOfRequiredSigners)) ==> !(1 <= m <= 11)
    ensures InitializeMultisigSpec(l, accounts, rent, m) == Err(Token(InvalidNumberOfProvidedSigners)) ==>
              !(3 <= |accounts| <= 13)
  {
  }

  /** The multisig needs `m` of the keys that follow the first two accounts, in their order. */
  lemma InitializeMultisigDoes(l: Ledger, accounts: seq<AccountMeta>, rent: Rent, m: u8)
    requires InitializeMultisigSpec(l, accounts, rent, m).Ok?
    ensures var l' := InitializeMultisigSpec(l, accounts, rent, m).value;
            var k := accounts[0].key;
            && OnlyAt(l, l', {k}) && k in l && l[k].record.MultisigRecord? && l'[k].record.MultisigRecord?
            && l'[k].lamports == l[k].lamports
            && var ms := l'[k].record.multisig;
               && ms.isInitialized && ms.m == m && ms.n == |accounts| - 2
               && (forall p | 0 <= p < ms.n :: ms.signers[p] == accounts[p + 2].key)
               && (forall p | ms.n <= p < 11 :: ms.signers[p] == l[k].record.multisig.signers[p])
  {
  }

  // ---------- every instruction ----------

  /** The tokens that one instruction moves from `from` to `to`. */
  predicate Moved(l: Ledger, l': Ledger, from: Pubkey, to: Pubkey, amount: u64) {
    from != to ==> Amount(l', from) == Amount(l, from) - amount && Amount(l', to) == Amount(l, to) + amount
  }

  predicate Delegates(l': Ledger, key: Pubkey, delegate: Pubkey, amount: u64) {
    AccountOf(l', key).delegate == Some(delegate) && AccountOf(l', key).delegatedAmount == amount
  }

  function AuthorityOf(r: Record, t: AuthorityType): Option<Pubkey> {
    match t
    case AccountOwner => if r.AccountRecord? then Some(r.account.owner) else None
    case CloseAccounts => if r.AccountRecord? then r.account.closeAuthority else None
    case MintTokens => if r.MintRecord? then r.mint.mintAuthority else None
    case FreezeAccounts => if r.MintRecord? then r.mint.freezeAuthority else None
  }

  function DecimalsOf(l: Ledger, mint: Pubkey): Option<u8> {
    if IsMint(Load(l, mint)) then Some(l[mint].record.mint.decimals) else None
  }

  /** What each instruction does to the accounts it lists, in their order: transfers, */
  lemma TransfersMove(l: Ledger, accounts: seq<AccountMeta>, rent: Rent, i: TokenInstruction)
    requires (i.Transfer? || i.TransferChecked?) && ProcessSpec(l, accounts, rent, i).Ok?
    ensures var l' := ProcessSpec(l, accounts, rent, i).value;
            && |accounts| >= 3
            && (i.Transfer? ==> Moved(l, l', accounts[0].key, accounts[1].key, i.amount))
            && (i.TransferChecked? ==>
                  Moved(l, l', accounts[0].key, accounts[2].key, i.amount) && DecimalsOf(l, accounts[1].key) == Some(i.decimals))
  {
  }

  /** mints, burns and closings, */
  lemma SuppliesMove(l: Ledger, accounts: seq<AccountMeta>, rent: Rent, i: TokenInstruction)
    requires ProcessSpec(l, accounts, rent, i).Ok?
    ensures var l' := ProcessSpec(l, accounts, rent, i).value;
            |accounts| >= 2
            && var k := accounts[0].key;
            match i
            case MintTo(amount) => Supply(l', k) == Supply(l, k) + amount
            case MintToChecked(amount, decimals) => Supply(l', k) == Supply(l, k) + amount && DecimalsOf(l, k) == Some(decimals)
            case Burn(amount) => Supply(l', accounts[1].key) == Supply(l, accounts[1].key) - amount
            case BurnChecked(amount, decimals) =>
              Supply(l', accounts[1].key) == Supply(l, accounts[1].key) - amount && DecimalsOf(l, accounts[1].key) == Some(decimals)
            case CloseAccount => Load(l', k).lamports == 0
            case _ => true
  {
  }

  /** and what the others set. */
  lemma FieldsSet(l: Ledger, accounts: seq<AccountMeta>, rent: Rent, i: TokenInstruction)
    requires ProcessSpec(l, accounts, rent, i).Ok?
    ensures var l' := ProcessSpec(l, accounts, rent, i).value;
            |accounts| >= 2
            && var k := accounts[0].key;
            match i
            case InitializeMint(decimals, mintAuthority, freezeAuthority) =>
              && DecimalsOf(l', k) == Some(decimals) && AuthorityOf(l'[k].record, MintTokens) == Some(mintAuthority)
              && AuthorityOf(l'[k].record, FreezeAccounts) == freezeAuthority
            case InitializeAccount => |accounts| >= 4 && IsAccount(Load(l', k)) && AccountOf(l', k).owner == accounts[2].key
            case InitializeAccount2(owner) => IsAccount(Load(l', k)) && AccountOf(l', k).owner == owner
            case InitializeMultisig(m) => Load(l', k).record.MultisigRecord? && l'[k].record.multisig.m == m
            case Approve(amount) => Delegates(l', k, accounts[1].key, amount)
            case ApproveChecked(amount, decimals) =>
              |accounts| >= 4 && Delegates(l', k, accounts[2].key, amount) && DecimalsOf(l, accounts[1].key) == Some(decimals)
            case Revoke => AccountOf(l', k).delegate == None && AccountOf(l', k).delegatedAmount == 0
            case SetAuthority(t, newAuthority) => AuthorityOf(Load(l', k).record, t) == newAuthority
            case FreezeAccount => AccountOf(l', k).state == Frozen
            case ThawAccount => AccountOf(l', k).state == Initialized
            case _ => true
  {
  }

  // ---------- lives of accounts ----------

  /** The events that bring a mint and an account of it into being and put the first tokens in it. */
  function FirstTokens(mint: Pubkey, account: Pubkey, lamports: u64, rent: Rent, authority: Pubkey, owner: Pubkey, amount: u64)
    : (events: seq<Event>)
    ensures |events| == 5
  {
    [Create(mint, Cell(lamports, MintRecord(ZERO_MINT))),
     Create(account, Cell(lamports, AccountRecord(ZERO_ACCOUNT))),
     Invoke([AccountMeta(mint, false), AccountMeta(mint, false)], rent, InitializeMint(9, authority, None)),
     Invoke([AccountMeta(account, false), AccountMeta(mint, false), AccountMeta(mint, false)], rent, InitializeAccount2(owner)),
     Invoke([AccountMeta(mint, false), AccountMeta(account, false), AccountMeta(authority, true)], rent, MintTo(amount))]
  }

  lemma {:induction false} RunOneMore(b: Bank, events: seq<Event>, e: Event)
    ensures Run(b, events + [e]) == Next(Run(b, events), e)
  {
    assert (events + [e])[..|events|] == events;
  }

  lemma RunOfFive(b: Bank, e0: Event, e1: Event, e2: Event, e3: Event, e4: Event)
    ensures Run(b, [e0, e1, e2, e3, e4]) == Next(Next(Next(Next(Next(b, e0), e1), e2), e3), e4)
  {
    RunOneMore(b, [], e0);
    RunOneMore(b, [e0], e1);
    RunOneMore(b, [e0, e1], e2);
    RunOneMore(b, [e0, e1, e2], e3);
    RunOneMore(b, [e0, e1, e2, e3], e4);
    assert [] + [e0] == [e0] && [e0] + [e1] == [e0, e1] && [e0, e1] + [e2] == [e0, e1, e2];
    assert [e0, e1, e2] + [e3] == [e0, e1, e2, e3] && [e0, e1, e2, e3] + [e4] == [e0, e1, e2, e3, e4];
  }

  lemma CreationSucceeds(b: Bank, key: Pubkey, cell: Cell)
    requires !TokenOwned(Load(b.ledger, key).record) && Blank(cell.record)
    ensures Next(b, Create(key, cell)).ledger == b.ledger[key := cell]
  {
  }

  lemma CallSucceeds(b: Bank, accounts: seq<AccountMeta>, rent: Rent, i: TokenInstruction)
    requires ProcessSpec(b.ledger, accounts, rent, i).Ok?
    ensures Next(b, Invoke(accounts, rent, i)).ledger == ProcessSpec(b.ledger, accounts, rent, i).value
  {
  }

  lemma BlankMintInitializes(l: Ledger, accounts: seq<AccountMeta>, rent: Rent, authority: Pubkey)
    requires |accounts| == 2 && rent.mint <= Load(l, accounts[0].key).lamports
    requires Load(l, accounts[0].key).record == MintRecord(ZERO_MINT)
    ensures InitializeMintSpec(l, accounts, rent, 9, authority, None)
            == Ok(l[accounts[0].key := l[accounts[0].key].(record := MintRecord(Mint(Some(authority), 0, 9, true, None)))])
  {
  }

  lemma BlankAccountInitializes(l: Ledger, accounts: seq<AccountMeta>, rent: Rent, owner: Pubkey)
    requires |accounts| == 3 && rent.account <= Load(l, accounts[0].key).lamports
    requires Load(l, accounts[0].key).record == AccountRecord(ZERO_ACCOUNT)
    requires accounts[1].key != NATIVE_MINT && IsMint(Load(l, accounts[1].key))
    ensures InitializeAccountSpec(l, accounts, rent, Some(owner))
            == Ok(l[accounts[0].key := l[accounts[0].key].(record :=
                    AccountRecord(Account(accounts[1].key, owner, 0, None, Initialized, None, 0, None)))])
  {
  }

  lemma CreatesBoth(b: Bank, mint: Pubkey, account: Pubkey, lamports: u64) returns (b': Bank)
    requires mint != account && !TokenOwned(Load(b.ledger, mint).record) && !TokenOwned(Load(b.ledger, account).record)
    ensures var (blank, empty) := (Cell(lamports, MintRecord(ZERO_MINT)), Cell(lamports, AccountRecord(ZERO_ACCOUNT)));
            && b' == Next(Next(b, Create(mint, blank)), Create(account, empty))
            && b'.ledger == b.ledger[mint := blank][account := empty]
  {
    var (blank, empty) := (Cell(lamports, MintRecord(ZERO_MINT)), Cell(lamports, AccountRecord(ZERO_ACCOUNT)));
    CreationSucceeds(b, mint, blank);
    b' := Next(b, Create(mint, blank));
    CreationSucceeds(b', account, empty);
    b' := Next(b', Create(account, empty));
  }

  lemma InitializesBoth(b: Bank, mint: Pubkey, account: Pubkey, rent: Rent, authority: Pubkey, owner: Pubkey) returns (b': Bank)
    requires mint != account && mint != NATIVE_MINT
    requires rent.mint <= Load(b.ledger, mint).lamports && rent.account <= Load(b.ledger, account).lamports
    requires Load(b.ledger, mint).record == MintRecord(ZERO_MINT)
    requires Load(b.ledger, account).record == AccountRecord(ZERO_ACCOUNT)
    ensures var metas := [AccountMeta(mint, false), AccountMeta(mint, false)];
            var metas' := [AccountMeta(account, false), AccountMeta(mint, false), AccountMeta(mint, false)];
            b' == Next(Next(b, Invoke(metas, rent, InitializeMint(9, authority, None))),
                       Invoke(metas', rent, InitializeAccount2(owner)))
    ensures b'.ledger
            == b.ledger[mint := b.ledger[mint].(record := MintRecord(Mint(Some(authority), 0, 9, true, None)))]
                       [account := b.ledger[account].(record :=
                          AccountRecord(Account(mint, owner, 0, None, Initialized, None, 0, None)))]
  {
    var metas := [AccountMeta(mint, false), AccountMeta(mint, false)];
    BlankMintInitializes(b.ledger, metas, rent, authority);
    CallSucceeds(b, metas, rent, InitializeMint(9, authority, None));
    b' := Next(b, Invoke(metas, rent, InitializeMint(9, authority, None)));
    var metas' := [AccountMeta(account, false), AccountMeta(mint, false), AccountMeta(mint, false)];
    BlankAccountInitializes(b'.ledger, metas', rent, owner);
    CallSucceeds(b', metas', rent, InitializeAccount2(owner));
    b' := Next(b', Invoke(metas', rent, InitializeAccount2(owner)));
  }

  /** The runs are not idle: from every state, in any two accounts that are not yet the token program's,
      five events bring a mint, an account of it, and any number of tokens into being. */
  lemma FirstTokensArrive(b: Bank, mint: Pubkey, account: Pubkey, lamports: u64, rent: Rent, authority: Pubkey, owner: Pubkey,
                          amount: u64)
    requires mint != account && mint != NATIVE_MINT && authority != mint && authority != account
    requires !TokenOwned(Load(b.ledger, mint).record) && !TokenOwned(Load(b.ledger, account).record)
    requires !TokenOwned(Load(b.ledger, authority).record)
    requires rent.mint <= lamports && rent.account <= lamports
    ensures var l' := Run(b, FirstTokens(mint, account, lamports, rent, authority, owner, amount)).ledger;
            && IsAccount(Load(l', account)) && AccountOf(l', account).owner == owner && AccountOf(l', account).mint == mint
            && Amount(l', account) == amount == Supply(l', mint)
            && forall k | k != mint && k != account :: Load(l', k) == Load(b.ledger, k)
  {
    var e := FirstTokens(mint, account, lamports, rent, authority, owner, amount);
    RunOfFive(b, e[0], e[1], e[2], e[3], e[4]);
    var b2 := CreatesBoth(b, mint, account, lamports);
    var b4 := InitializesBoth(b2, mint, account, rent, authority, owner);
    MintingReaches(b4.ledger, mint, account, authority, amount);
    CallSucceeds(b4, [AccountMeta(mint, false), AccountMeta(account, false), AccountMeta(authority, true)], rent, MintTo(amount));
  }

  lemma MintingReaches(l: Ledger, mint: Pubkey, to: Pubkey, authority: Pubkey, amount: u64)
    requires mint != to && !Load(l, authority).record.MultisigRecord?
    requires IsMint(Load(l, mint)) && l[mint].record.mint.mintAuthority == Some(authority) && Supply(l, mint) == 0
    requires Usable(l, to) && l[to].record.account.mint == mint && l[to].record.account.isNative.None? && Amount(l, to) == 0
    ensures var accounts := [AccountMeta(mint, false), AccountMeta(to, false), AccountMeta(authority, true)];
            var r := MintToSpec(l, accounts, amount, None);
            && r.Ok?
            && IsAccount(Load(r.value, to)) && AccountOf(r.value, to).owner == AccountOf(l, to).owner
            && AccountOf(r.value, to).mint == mint
            && Amount(r.value, to) == amount == Supply(r.value, mint)
            && forall k | k != mint && k != to :: Load(r.value, k) == Load(l, k)
  {
    var accounts := [AccountMeta(mint, false), AccountMeta(to, false), AccountMeta(authority, true)];
    MintToSucceedsIff(l, accounts, amount, None);
    MintToDoes(l, accounts, amount, None);
  }

  /** A closed account vanishes, with no tokens left in it to be lost. */
  lemma ClosedAccountVanishes(b: Bank, accounts: seq<AccountMeta>, rent: Rent)
    requires CloseAccountSpec(b.ledger, accounts).Ok?
    ensures var from := accounts[0].key;
            var b' := Next(Next(b, Invoke(accounts, rent, CloseAccount)), Purge(from));
            && from !in b'.ledger && from !in b'.closed
            && (forall m :: Lost(b', m) == Lost(b, m))
            && forall k | k != from && k != accounts[1].key :: Load(b'.ledger, k) == Load(b.ledger, k)
  {
    CloseDoes(b.ledger, accounts);
  }

  /** A gift of lamports to one of the program's accounts changes its lamports and nothing else. */
  lemma GiftArrives(b: Bank, key: Pubkey, lamports: u64)
    requires key in b.ledger && b.ledger[key].lamports <= lamports
    ensures Next(b, Outside(key, b.ledger[key].(lamports := lamports)))
            == b.(ledger := b.ledger[key := b.ledger[key].(lamports := lamports)])
  {
  }
}
