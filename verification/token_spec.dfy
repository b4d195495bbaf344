/** What each token instruction does to the ledger (token/program/src/processor.rs): the new
    ledger, or the error that leaves the ledger as it was. */
module TokenSpec {
  import opened Basics
  import opened TokenState
  import opened OwnerValidation
  import opened TokenInstructions

  predicate IsValidSignerIndex(index: nat) {
    MIN_SIGNERS <= index <= MAX_SIGNERS
  }

  function InitializeMintSpec(l: Ledger, accounts: seq<AccountMeta>, rent: Rent, decimals: u8,
                              mintAuthority: Pubkey, freezeAuthority: Option<Pubkey>): Result<Ledger>
  {
    var provided := |accounts|;
    :- Need(provided >= 2, NotEnoughAccountKeys);
    var cell := Load(l, accounts[0].key);
    :- Need(cell.record.MintRecord?, InvalidAccountData);
    var mint := cell.record.mint;
    :- Need(!mint.isInitialized, Token(TokenAlreadyInUse));
    :- Need(rent.mint <= cell.lamports, Token(NotRentExempt));
    var mint' := mint.(mintAuthority := Some(mintAuthority), decimals := decimals, isInitialized := true,
                       freezeAuthority := freezeAuthority);
    Ok(l[accounts[0].key := cell.(record := MintRecord(mint'))])
  }

  /** `InitializeAccount` takes the owner from the account list, `InitializeAccount2` from its data. */
  function InitializeAccountSpec(l: Ledger, accounts: seq<AccountMeta>, rent: Rent, owner: Option<Pubkey>): Result<Ledger> {
    var provided := |accounts|;
    :- Need(provided >= if owner.Some? then 3 else 4, NotEnoughAccountKeys);
    var mintKey := accounts[1].key;
    var owner := if owner.Some? then owner.value else accounts[2].key;
    var cell := Load(l, accounts[0].key);
    :- Need(cell.record.AccountRecord?, InvalidAccountData);
    var account := cell.record.account;
    :- Need(account.state.Uninitialized?, Token(TokenAlreadyInUse));
    :- Need(rent.account <= cell.lamports, Token(NotRentExempt));
    :- Need(mintKey == NATIVE_MINT || UnpackMint(Load(l, mintKey)).Ok?, Token(InvalidMint));
    var native := mintKey == NATIVE_MINT;
    var account' := account.(mint := mintKey, owner := owner, delegate := None, delegatedAmount := 0,
                             state := Initialized, isNative := if native then Some(rent.account) else None,
                             amount := if native then cell.lamports - rent.account else 0);
    Ok(l[accounts[0].key := cell.(record := AccountRecord(account'))])
  }

  function Keys(accounts: seq<AccountMeta>): (keys: seq<Pubkey>)
    ensures |keys| == |accounts|
  {
    seq(|accounts|, i requires 0 <= i < |accounts| => accounts[i].key)
  }

  /** The signer count is cast to a byte before it is checked; a list that is too long and still
      passes the check overruns the signer array. */
  function InitializeMultisigSpec(l: Ledger, accounts: seq<AccountMeta>, rent: Rent, m: u8): Result<Ledger> {
    var provided := |accounts|;
    :- Need(provided >= 2, NotEnoughAccountKeys);
    var cell := Load(l, accounts[0].key);
    :- Need(cell.record.MultisigRecord?, InvalidAccountData);
    var multisig := cell.record.multisig;
    :- Need(!multisig.isInitialized, Token(TokenAlreadyInUse));
    :- Need(rent.multisig <= cell.lamports, Token(NotRentExempt));
    var signers := accounts[2..];
    :- Need(IsValidSignerIndex(|signers| % 256), Token(InvalidNumberOfProvidedSigners));
    :- Need(IsValidSignerIndex(m), Token(InvalidNumberOfRequiredSigners));
    :- Need(|signers| <= 11, Panicked);
    var multisig' := Multisig(m, |signers|, true, Keys(signers) + multisig.signers[|signers|..]);
    Ok(l[accounts[0].key := cell.(record := MultisigRecord(multisig'))])
  }

  /** The mint check of the `Checked` instructions. */
  function ExpectMint(l: Ledger, account: Account, mintKey: Pubkey, decimals: u8): Outcome {
    if account.mint != mintKey then Fail(Token(MintMismatch))
    else
      var mint := UnpackMint(Load(l, mintKey));
      if mint.Err? then Fail(mint.error)
      else Need(decimals == mint.value.decimals, Token(MintDecimalsMismatch))
  }

  /** Who may take `amount` out of `account`: its delegate, who uses up allowance, or its owner. */
  function AuthorizeDebit(l: Ledger, account: Account, authority: AccountMeta, signers: seq<AccountMeta>,
                          amount: u64, selfTransfer: bool): Result<Account>
  {
    if account.delegate == Some(authority.key) then
      :- ValidateOwner(l, authority.key, authority, signers);
      :- Need(amount <= account.delegatedAmount, Token(InsufficientFunds));
      if selfTransfer then Ok(account)
      else
        var left := account.delegatedAmount - amount;
        Ok(account.(delegatedAmount := left, delegate := if left == 0 then None else account.delegate))
    else
      :- ValidateOwner(l, account.owner, authority, signers);
      Ok(account)
  }

  function TransferSpec(l: Ledger, accounts: seq<AccountMeta>, amount: u64, decimals: Option<u8>): Result<Ledger> {
    var skip := if decimals.Some? then 1 else 0;
    :- Need(|accounts| >= 3 + skip, NotEnoughAccountKeys);
    var (from, to) := (accounts[0].key, accounts[1 + skip].key);
    var source :- UnpackAccount(Load(l, from));
    var dest :- UnpackAccount(Load(l, to));
    :- Need(!source.state.Frozen? && !dest.state.Frozen?, Token(AccountFrozen));
    :- Need(amount <= source.amount, Token(InsufficientFunds));
    :- Need(source.mint == dest.mint, Token(MintMismatch));
    :- if decimals.Some? then ExpectMint(l, source, accounts[1].key, decimals.value) else Pass;
    var source' :- AuthorizeDebit(l, source, accounts[2 + skip], accounts[3 + skip..], amount, from == to);
    if from == to then Ok(l)
    else
      var destAmount :- CheckedAdd(dest.amount, amount);
      var moved := if source.isNative.Some? then amount else 0;
      var fromLamports :- CheckedSub(l[from].lamports, moved);
      var toLamports :- CheckedAdd(l[to].lamports, moved);
      Ok(l[from := Cell(fromLamports, AccountRecord(source'.(amount := source.amount - amount)))]
          [to := Cell(toLamports, AccountRecord(dest.(amount := destAmount)))])
  }

  function ApproveSpec(l: Ledger, accounts: seq<AccountMeta>, amount: u64, decimals: Option<u8>): Result<Ledger> {
    var skip := if decimals.Some? then 1 else 0;
    :- Need(|accounts| >= 3 + skip, NotEnoughAccountKeys);
    var cell := Load(l, accounts[0].key);
    var source :- UnpackAccount(cell);
    :- Need(!source.state.Frozen?, Token(AccountFrozen));
    :- if decimals.Some? then ExpectMint(l, source, accounts[1].key, decimals.value) else Pass;
    :- ValidateOwner(l, source.owner, accounts[2 + skip], accounts[3 + skip..]);
    var source' := source.(delegate := Some(accounts[1 + skip].key), delegatedAmount := amount);
    Ok(l[accounts[0].key := cell.(record := AccountRecord(source'))])
  }

  function RevokeSpec(l: Ledger, accounts: seq<AccountMeta>): Result<Ledger> {
    var provided := |accounts|;
    :- Need(provided >= 2, NotEnoughAccountKeys);
    var cell := Load(l, accounts[0].key);
    var source :- UnpackAccount(cell);
    :- Need(!source.state.Frozen?, Token(AccountFrozen));
    :- ValidateOwner(l, source.owner, accounts[1], accounts[2..]);
    Ok(l[accounts[0].key := cell.(record := AccountRecord(source.(delegate := None, delegatedAmount := 0)))])
  }

  function SetAccountAuthority(l: Ledger, account: Account, authority: AccountMeta, signers: seq<AccountMeta>,
                               authorityType: AuthorityType, newAuthority: Option<Pubkey>): Result<Account>
  {
    match authorityType
    case AccountOwner =>
      :- ValidateOwner(l, account.owner, authority, signers);
      :- Need(newAuthority.Some?, Token(InvalidInstruction));
      Ok(account.(owner := newAuthority.value))
    case CloseAccounts =>
      :- ValidateOwner(l, UnwrapOr(account.closeAuthority, account.owner), authority, signers);
      Ok(account.(closeAuthority := newAuthority))
    case _ => Err(Token(AuthorityTypeNotSupported))
  }

  function SetMintAuthority(l: Ledger, mint: Mint, authority: AccountMeta, signers: seq<AccountMeta>,
                            authorityType: AuthorityType, newAuthority: Option<Pubkey>): Result<Mint>
  {
    match authorityType
    case MintTokens =>
      :- Need(mint.mintAuthority.Some?, Token(FixedSupply));
      :- ValidateOwner(l, mint.mintAuthority.value, authority, signers);
      Ok(mint.(mintAuthority := newAuthority))
    case FreezeAccounts =>
      :- Need(mint.freezeAuthority.Some?, Token(MintCannotFreeze));
      :- ValidateOwner(l, mint.freezeAuthority.value, authority, signers);
      Ok(mint.(freezeAuthority := newAuthority))
    case _ => Err(Token(AuthorityTypeNotSupported))
  }

  function SetAuthoritySpec(l: Ledger, accounts: seq<AccountMeta>, authorityType: AuthorityType,
                            newAuthority: Option<Pubkey>): Result<Ledger>
  {
    var provided := |accounts|;
    :- Need(provided >= 2, NotEnoughAccountKeys);
    var key := accounts[0].key;
    var cell := Load(l, key);
    if cell.record.AccountRecord? then
      var account :- UnpackAccount(cell);
      :- Need(!account.state.Frozen?, Token(AccountFrozen));
      var account' :- SetAccountAuthority(l, account, accounts[1], accounts[2..], authorityType, newAuthority);
      Ok(l[key := cell.(record := AccountRecord(account'))])
    else if cell.record.MintRecord? then
      var mint :- UnpackMint(cell);
      var mint' :- SetMintAuthority(l, mint, accounts[1], accounts[2..], authorityType, newAuthority);
      Ok(l[key := cell.(record := MintRecord(mint'))])
    else Err(InvalidArgument)
  }

  function MintToSpec(l: Ledger, accounts: seq<AccountMeta>, amount: u64, decimals: Option<u8>): Result<Ledger> {
    var provided := |accounts|;
    :- Need(provided >= 3, NotEnoughAccountKeys);
    var (mintKey, to) := (accounts[0].key, accounts[1].key);
    var dest :- UnpackAccount(Load(l, to));
    :- Need(!dest.state.Frozen?, Token(AccountFrozen));
    :- Need(dest.isNative.None?, Token(NativeNotSupported));
    :- Need(mintKey == dest.mint, Token(MintMismatch));
    var mint :- UnpackMint(Load(l, mintKey));
    :- Need(decimals.None? || decimals.value == mint.decimals, Token(MintDecimalsMismatch));
    :- Need(mint.mintAuthority.Some?, Token(FixedSupply));
    :- ValidateOwner(l, mint.mintAuthority.value, accounts[2], accounts[3..]);
    var destAmount :- CheckedAdd(dest.amount, amount);
    var supply :- CheckedAdd(mint.supply, amount);
    Ok(l[to := l[to].(record := AccountRecord(dest.(amount := destAmount)))]
        [mintKey := l[mintKey].(record := MintRecord(mint.(supply := supply)))])
  }

  function BurnSpec(l: Ledger, accounts: seq<AccountMeta>, amount: u64, decimals: Option<u8>): Result<Ledger> {
    var provided := |accounts|;
    :- Need(provided >= 3, NotEnoughAccountKeys);
    var (from, mintKey) := (accounts[0].key, accounts[1].key);
    var source :- UnpackAccount(Load(l, from));
    var mint :- UnpackMint(Load(l, mintKey));
    :- Need(!source.state.Frozen?, Token(AccountFrozen));
    :- Need(source.isNative.None?, Token(NativeNotSupported));
    :- Need(amount <= source.amount, Token(InsufficientFunds));
    :- Need(mintKey == source.mint, Token(MintMismatch));
    :- Need(decimals.None? || decimals.value == mint.decimals, Token(MintDecimalsMismatch));
    var source' :- AuthorizeDebit(l, source, accounts[2], accounts[3..], amount, false);
    var supply :- CheckedSub(mint.supply, amount);
    Ok(l[from := l[from].(record := AccountRecord(source'.(amount := source.amount - amount)))]
        [mintKey := l[mintKey].(record := MintRecord(mint.(supply := supply)))])
  }

  /** The destination is credited before the source is emptied, so closing an account into itself
      leaves it empty. */
  function CloseAccountSpec(l: Ledger, accounts: seq<AccountMeta>): Result<Ledger> {
    var provided := |accounts|;
    :- Need(provided >= 3, NotEnoughAccountKeys);
    var (from, to) := (accounts[0].key, accounts[1].key);
    var source :- UnpackAccount(Load(l, from));
    :- Need(source.isNative.Some? || source.amount == 0, Token(NonNativeHasBalance));
    :- ValidateOwner(l, UnwrapOr(source.closeAuthority, source.owner), accounts[2], accounts[3..]);
    var toLamports :- CheckedAdd(Load(l, to).lamports, Load(l, from).lamports);
    Ok(l[to := Load(l, to).(lamports := toLamports)]
        [from := Cell(0, AccountRecord(source.(amount := 0)))])
  }

  function ToggleFreezeSpec(l: Ledger, accounts: seq<AccountMeta>, freeze: bool): Result<Ledger> {
    var provided := |accounts|;
    :- Need(provided >= 3, NotEnoughAccountKeys);
    var (key, mintKey) := (accounts[0].key, accounts[1].key);
    var source :- UnpackAccount(Load(l, key));
    :- Need(freeze != source.state.Frozen?, Token(InvalidTokenState));
    :- Need(source.isNative.None?, Token(NativeNotSupported));
    :- Need(mintKey == source.mint, Token(MintMismatch));
    var mint :- UnpackMint(Load(l, mintKey));
    :- Need(mint.freezeAuthority.Some?, Token(MintCannotFreeze));
    :- ValidateOwner(l, mint.freezeAuthority.value, accounts[2], accounts[3..]);
    Ok(l[key := l[key].(record := AccountRecord(source.(state := if freeze then Frozen else Initialized)))])
  }

  /** The instruction a byte string stands for, applied to the ledger. */
  function ProcessSpec(l: Ledger, accounts: seq<AccountMeta>, rent: Rent, i: TokenInstruction): Result<Ledger> {
    match i
    case InitializeMint(decimals, mintAuthority, freezeAuthority) =>
      InitializeMintSpec(l, accounts, rent, decimals, mintAuthority, freezeAuthority)
    case InitializeAccount => InitializeAccountSpec(l, accounts, rent, None)
    case InitializeMultisig(m) => InitializeMultisigSpec(l, accounts, rent, m)
    case Transfer(amount) => TransferSpec(l, accounts, amount, None)
    case Approve(amount) => ApproveSpec(l, accounts, amount, None)
    case Revoke => RevokeSpec(l, accounts)
    case SetAuthority(authorityType, newAuthority) => SetAuthoritySpec(l, accounts, authorityType, newAuthority)
    case MintTo(amount) => MintToSpec(l, accounts, amount, None)
    case Burn(amount) => BurnSpec(l, accounts, amount, None)
    case CloseAccount => CloseAccountSpec(l, accounts)
    case FreezeAccount => ToggleFreezeSpec(l, accounts, true)
    case ThawAccount => ToggleFreezeSpec(l, accounts, false)
    case TransferChecked(amount, decimals) => TransferSpec(l, accounts, amount, Some(decimals))
    case ApproveChecked(amount, decimals) => ApproveSpec(l, accounts, amount, Some(decimals))
    case MintToChecked(amount, decimals) => MintToSpec(l, accounts, amount, Some(decimals))
    case BurnChecked(amount, decimals) => BurnSpec(l, accounts, amount, Some(decimals))
    case InitializeAccount2(owner) => InitializeAccountSpec(l, accounts, rent, Some(owner))
  }
}
