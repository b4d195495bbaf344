/** The token program's handlers (token/program/src/processor.rs), in the source's form: unpack
    copies of the records, check, update the copies, and store them back. A failed instruction
    leaves the ledger as it was, because the runtime discards its writes. */
module TokenProgramModel {
  import opened Basics
  import opened TokenState
  import opened OwnerValidation
  import opened TokenInstructions
  import opened TokenSpec

  /** The handler's outcome and the ledger it left agree with the specification. */
  ghost predicate Agrees(spec: Result<Ledger>, before: Ledger, r: ProgramResult, after: Ledger) {
    match spec
    case Ok(l) => r == Ok(()) && after == l
    case Err(e) => r == Err(e) && after == before
  }

  class TokenProgram {
    var ledger: Ledger

    constructor (ledger: Ledger)
      ensures this.ledger == ledger
    {
      this.ledger := ledger;
    }

    method Store(key: Pubkey, lamports: u64, record: Record)
      modifies this
      ensures ledger == old(ledger)[key := Cell(lamports, record)]
    {
      ledger := ledger[key := Cell(lamports, record)];
    }

    method ProcessInitializeMint(accounts: seq<AccountMeta>, rent: Rent, decimals: u8, mintAuthority: Pubkey,
                                 freezeAuthority: Option<Pubkey>) returns (r: ProgramResult)
      modifies this
      ensures Agrees(InitializeMintSpec(old(ledger), accounts, rent, decimals, mintAuthority, freezeAuthority),
                     old(ledger), r, ledger)
    {
      if |accounts| < 2 {
        return Err(NotEnoughAccountKeys);
      }
      var cell := Load(ledger, accounts[0].key);
      if !cell.record.MintRecord? {
        return Err(InvalidAccountData);
      }
      var mint := cell.record.mint;
      if mint.isInitialized {
        return Err(Token(TokenAlreadyInUse));
      }
      if cell.lamports < rent.mint {
        return Err(Token(NotRentExempt));
      }
      mint := mint.(mintAuthority := Some(mintAuthority));
      mint := mint.(decimals := decimals);
      mint := mint.(isInitialized := true);
      mint := mint.(freezeAuthority := freezeAuthority);
      Store(accounts[0].key, cell.lamports, MintRecord(mint));
      return Ok(());
    }

    method ProcessInitializeAccount(accounts: seq<AccountMeta>, rent: Rent, owner: Option<Pubkey>)
      returns (r: ProgramResult)
      modifies this
      ensures Agrees(InitializeAccountSpec(old(ledger), accounts, rent, owner), old(ledger), r, ledger)
    {
      if |accounts| < (if owner.Some? then 3 else 4) {
        return Err(NotEnoughAccountKeys);
      }
      var mintKey := accounts[1].key;
      var ownerKey := if owner.Some? then owner.value else accounts[2].key;
      var cell := Load(ledger, accounts[0].key);
      if !cell.record.AccountRecord? {
        return Err(InvalidAccountData);
      }
      var account := cell.record.account;
      if !account.state.Uninitialized? {
        return Err(Token(TokenAlreadyInUse));
      }
      if cell.lamports < rent.account {
        return Err(Token(NotRentExempt));
      }
      if mintKey != NATIVE_MINT {
        var mint := UnpackMint(Load(ledger, mintKey));
        if mint.Err? {
          return Err(Token(InvalidMint));
        }
      }
      account := account.(mint := mintKey);
      account := account.(owner := ownerKey);
      account := account.(delegate := None);
      account := account.(delegatedAmount := 0);
      account := account.(state := Initialized);
      if mintKey == NATIVE_MINT {
        account := account.(isNative := Some(rent.account));
        account := account.(amount := cell.lamports - rent.account);
      } else {
        account := account.(isNative := None);
        account := account.(amount := 0);
      }
      Store(accounts[0].key, cell.lamports, AccountRecord(account));
      return Ok(());
    }

    /** The loop that copies the signers' keys into the array, which panics past its end. */
    method CopySigners(blank: SignerKeys, signerInfos: seq<AccountMeta>) returns (r: Result<SignerKeys>)
      ensures r == if |signerInfos| <= 11 then Ok(Keys(signerInfos) + blank[|signerInfos|..]) else Err(Panicked)
    {
      var signers := blank;
      for i := 0 to |signerInfos|
        invariant i <= 11 && signers == Keys(signerInfos[..i]) + blank[i..]
      {
        if i == 11 {
          return Err(Panicked);
        }
        signers := signers[i := signerInfos[i].key];
        assert Keys(signerInfos[..i + 1]) == Keys(signerInfos[..i]) + [signerInfos[i].key];
      }
      assert signerInfos[..|signerInfos|] == signerInfos;
      return Ok(signers);
    }

    method ProcessInitializeMultisig(accounts: seq<AccountMeta>, rent: Rent, m: u8) returns (r: ProgramResult)
      modifies this
      ensures Agrees(InitializeMultisigSpec(old(ledger), accounts, rent, m), old(ledger), r, ledger)
    {
      if |accounts| < 2 {
        return Err(NotEnoughAccountKeys);
      }
      var cell := Load(ledger, accounts[0].key);
      if !cell.record.MultisigRecord? {
        return Err(InvalidAccountData);
      }
      var multisig := cell.record.multisig;
      if multisig.isInitialized {
        return Err(Token(TokenAlreadyInUse));
      }
      if cell.lamports < rent.multisig {
        return Err(Token(NotRentExempt));
      }
      var signerInfos := accounts[2..];
      multisig := multisig.(m := m);
      multisig := multisig.(n := |signerInfos| % 256);
      if !IsValidSignerIndex(multisig.n) {
        return Err(Token(InvalidNumberOfProvidedSigners));
      }
      if !IsValidSignerIndex(multisig.m) {
        return Err(Token(InvalidNumberOfRequiredSigners));
      }
      var signers :- CopySigners(multisig.signers, signerInfos);
      multisig := multisig.(signers := signers);
      multisig := multisig.(isInitialized := true);
      Store(accounts[0].key, cell.lamports, MultisigRecord(multisig));
      return Ok(());
    }

    method CheckMint(account: Account, mintKey: Pubkey, decimals: u8) returns (r: Outcome)
      ensures r == ExpectMint(ledger, account, mintKey, decimals)
    {
      if account.mint != mintKey {
        return Fail(Token(MintMismatch));
      }
      var mint := UnpackMint(Load(ledger, mintKey));
      if mint.Err? {
        return Fail(mint.error);
      }
      if decimals != mint.value.decimals {
        return Fail(Token(MintDecimalsMismatch));
      }
      return Pass;
    }

    /** The delegate or owner branch that Transfer and Burn share. */
    method DebitAuthority(account: Account, authority: AccountMeta, signers: seq<AccountMeta>, amount: u64,
                          selfTransfer: bool) returns (r: Result<Account>)
      ensures r == AuthorizeDebit(ledger, account, authority, signers, amount, selfTransfer)
    {
      var source := account;
      if source.delegate.Some? && authority.key == source.delegate.value {
        var delegate := source.delegate.value;
        :- CheckOwner(ledger, delegate, authority, signers);
        if source.delegatedAmount < amount {
          return Err(Token(InsufficientFunds));
        }
        if !selfTransfer {
          source := source.(delegatedAmount := source.delegatedAmount - amount);
          if source.delegatedAmount == 0 {
            source := source.(delegate := None);
          }
        }
      } else {
        var owner := source.owner;
        :- CheckOwner(ledger, owner, authority, signers);
      }
      return Ok(source);
    }

    method ProcessTransfer(accounts: seq<AccountMeta>, amount: u64, decimals: Option<u8>) returns (r: ProgramResult)
      modifies this
      ensures Agrees(TransferSpec(old(ledger), accounts, amount, decimals), old(ledger), r, ledger)
    {
      var skip := if decimals.Some? then 1 else 0;
      if |accounts| < 3 + skip {
        return Err(NotEnoughAccountKeys);
      }
      var from, to, authority := accounts[0].key, accounts[1 + skip].key, accounts[2 + skip];
      var sourceAccount :- UnpackAccount(Load(ledger, from));
      var destAccount :- UnpackAccount(Load(ledger, to));
      if sourceAccount.state.Frozen? || destAccount.state.Frozen? {
        return Err(Token(AccountFrozen));
      }
      if sourceAccount.amount < amount {
        return Err(Token(InsufficientFunds));
      }
      if sourceAccount.mint != destAccount.mint {
        return Err(Token(MintMismatch));
      }
      if decimals.Some? {
        var expectedMint := accounts[1].key;
        :- CheckMint(sourceAccount, expectedMint, decimals.value);
      }
      var selfTransfer := from == to;
      var debited :- DebitAuthority(sourceAccount, authority, accounts[3 + skip..], amount, selfTransfer);
      sourceAccount := debited;
      if selfTransfer {
        return Ok(());
      }
      sourceAccount := sourceAccount.(amount := sourceAccount.amount - amount);
      var destAmount :- CheckedAdd(destAccount.amount, amount);
      destAccount := destAccount.(amount := destAmount);
      var fromLamports, toLamports := ledger[from].lamports, ledger[to].lamports;
      if sourceAccount.isNative.Some? {
        var debit :- CheckedSub(fromLamports, amount);
        fromLamports := debit;
        var credit :- CheckedAdd(toLamports, amount);
        toLamports := credit;
      }
      Store(from, fromLamports, AccountRecord(sourceAccount));
      Store(to, toLamports, AccountRecord(destAccount));
      return Ok(());
    }

    method ProcessApprove(accounts: seq<AccountMeta>, amount: u64, decimals: Option<u8>) returns (r: ProgramResult)
      modifies this
      ensures Agrees(ApproveSpec(old(ledger), accounts, amount, decimals), old(ledger), r, ledger)
    {
      var skip := if decimals.Some? then 1 else 0;
      if |accounts| < 3 + skip {
        return Err(NotEnoughAccountKeys);
      }
      var cell := Load(ledger, accounts[0].key);
      var sourceAccount :- UnpackAccount(cell);
      if sourceAccount.state.Frozen? {
        return Err(Token(AccountFrozen));
      }
      if decimals.Some? {
        var expectedMint := accounts[1].key;
        :- CheckMint(sourceAccount, expectedMint, decimals.value);
      }
      :- CheckOwner(ledger, sourceAccount.owner, accounts[2 + skip], accounts[3 + skip..]);
      sourceAccount := sourceAccount.(delegate := Some(accounts[1 + skip].key));
      sourceAccount := sourceAccount.(delegatedAmount := amount);
      Store(accounts[0].key, cell.lamports, AccountRecord(sourceAccount));
      return Ok(());
    }

    method ProcessRevoke(accounts: seq<AccountMeta>) returns (r: ProgramResult)
      modifies this
      ensures Agrees(RevokeSpec(old(ledger), accounts), old(ledger), r, ledger)
    {
      if |accounts| < 2 {
        return Err(NotEnoughAccountKeys);
      }
      var cell := Load(ledger, accounts[0].key);
      var sourceAccount :- UnpackAccount(cell);
      if sourceAccount.state.Frozen? {
        return Err(Token(AccountFrozen));
      }
      :- CheckOwner(ledger, sourceAccount.owner, accounts[1], accounts[2..]);
      sourceAccount := sourceAccount.(delegate := None);
      sourceAccount := sourceAccount.(delegatedAmount := 0);
      Store(accounts[0].key, cell.lamports, AccountRecord(sourceAccount));
      return Ok(());
    }

    method ProcessSetAuthority(accounts: seq<AccountMeta>, authorityType: AuthorityType,
                               newAuthority: Option<Pubkey>) returns (r: ProgramResult)
      modifies this
      ensures Agrees(SetAuthoritySpec(old(ledger), accounts, authorityType, newAuthority), old(ledger), r, ledger)
    {
      if |accounts| < 2 {
        return Err(NotEnoughAccountKeys);
      }
      var cell := Load(ledger, accounts[0].key);
      if cell.record.AccountRecord? {
        var account :- UnpackAccount(cell);
        if account.state.Frozen? {
          return Err(Token(AccountFrozen));
        }
        match authorityType {
          case AccountOwner =>
            :- CheckOwner(ledger, account.owner, accounts[1], accounts[2..]);
            if newAuthority.None? {
              return Err(Token(InvalidInstruction));
            }
            account := account.(owner := newAuthority.value);
          case CloseAccounts =>
            var closer := UnwrapOr(account.closeAuthority, account.owner);
            :- CheckOwner(ledger, closer, accounts[1], accounts[2..]);
            account := account.(closeAuthority := newAuthority);
          case _ =>
            return Err(Token(AuthorityTypeNotSupported));
        }
        Store(accounts[0].key, cell.lamports, AccountRecord(account));
      } else if cell.record.MintRecord? {
        var mint :- UnpackMint(cell);
        match authorityType {
          case MintTokens =>
            if mint.mintAuthority.None? {
              return Err(Token(FixedSupply));
            }
            :- CheckOwner(ledger, mint.mintAuthority.value, accounts[1], accounts[2..]);
            mint := mint.(mintAuthority := newAuthority);
          case FreezeAccounts =>
            if mint.freezeAuthority.None? {
              return Err(Token(MintCannotFreeze));
            }
            :- CheckOwner(ledger, mint.freezeAuthority.value, accounts[1], accounts[2..]);
            mint := mint.(freezeAuthority := newAuthority);
          case _ =>
            return Err(Token(AuthorityTypeNotSupported));
        }
        Store(accounts[0].key, cell.lamports, MintRecord(mint));
      } else {
        return Err(InvalidArgument);
      }
      return Ok(());
    }

    method ProcessMintTo(accounts: seq<AccountMeta>, amount: u64, decimals: Option<u8>) returns (r: ProgramResult)
      modifies this
      ensures Agrees(MintToSpec(old(ledger), accounts, amount, decimals), old(ledger), r, ledger)
    {
      if |accounts| < 3 {
        return Err(NotEnoughAccountKeys);
      }
      var mintKey, to := accounts[0].key, accounts[1].key;
      var destAccount :- UnpackAccount(Load(ledger, to));
      if destAccount.state.Frozen? {
        return Err(Token(AccountFrozen));
      }
      if destAccount.isNative.Some? {
        return Err(Token(NativeNotSupported));
      }
      if mintKey != destAccount.mint {
        return Err(Token(MintMismatch));
      }
      var mint :- UnpackMint(Load(ledger, mintKey));
      if decimals.Some? && decimals.value != mint.decimals {
        return Err(Token(MintDecimalsMismatch));
      }
      if mint.mintAuthority.None? {
        return Err(Token(FixedSupply));
      }
      :- CheckOwner(ledger, mint.mintAuthority.value, accounts[2], accounts[3..]);
      var destAmount :- CheckedAdd(destAccount.amount, amount);
      destAccount := destAccount.(amount := destAmount);
      var supply :- CheckedAdd(mint.supply, amount);
      mint := mint.(supply := supply);
      Store(to, ledger[to].lamports, AccountRecord(destAccount));
      Store(mintKey, ledger[mintKey].lamports, MintRecord(mint));
      return Ok(());
    }

    method ProcessBurn(accounts: seq<AccountMeta>, amount: u64, decimals: Option<u8>) returns (r: ProgramResult)
      modifies this
      ensures Agrees(BurnSpec(old(ledger), accounts, amount, decimals), old(ledger), r, ledger)
    {
      if |accounts| < 3 {
        return Err(NotEnoughAccountKeys);
      }
      var from, mintKey := accounts[0].key, accounts[1].key;
      var sourceAccount :- UnpackAccount(Load(ledger, from));
      var mint :- UnpackMint(Load(ledger, mintKey));
      if sourceAccount.state.Frozen? {
        return Err(Token(AccountFrozen));
      }
      if sourceAccount.isNative.Some? {
        return Err(Token(NativeNotSupported));
      }
      if sourceAccount.amount < amount {
        return Err(Token(InsufficientFunds));
      }
      if mintKey != sourceAccount.mint {
        return Err(Token(MintMismatch));
      }
      if decimals.Some? && decimals.value != mint.decimals {
        return Err(Token(MintDecimalsMismatch));
      }
      var debited :- DebitAuthority(sourceAccount, accounts[2], accounts[3..], amount, false);
      sourceAccount := debited;
      sourceAccount := sourceAccount.(amount := sourceAccount.amount - amount);
      var supply :- CheckedSub(mint.supply, amount);
      mint := mint.(supply := supply);
      Store(from, ledger[from].lamports, AccountRecord(sourceAccount));
      Store(mintKey, ledger[mintKey].lamports, MintRecord(mint));
      return Ok(());
    }

    method ProcessCloseAccount(accounts: seq<AccountMeta>) returns (r: ProgramResult)
      modifies this
      ensures Agrees(CloseAccountSpec(old(ledger), accounts), old(ledger), r, ledger)
    {
      if |accounts| < 3 {
        return Err(NotEnoughAccountKeys);
      }
      var from, to := accounts[0].key, accounts[1].key;
      var sourceAccount :- UnpackAccount(Load(ledger, from));
      if sourceAccount.isNative.None? && sourceAccount.amount != 0 {
        return Err(Token(NonNativeHasBalance));
      }
      var closer := UnwrapOr(sourceAccount.closeAuthority, sourceAccount.owner);
      :- CheckOwner(ledger, closer, accounts[2], accounts[3..]);
      var toLamports :- CheckedAdd(Load(ledger, to).lamports, Load(ledger, from).lamports);
      Store(to, toLamports, Load(ledger, to).record);
      sourceAccount := sourceAccount.(amount := 0);
      Store(from, 0, AccountRecord(sourceAccount));
      return Ok(());
    }

    method ProcessToggleFreezeAccount(accounts: seq<AccountMeta>, freeze: bool) returns (r: ProgramResult)
      modifies this
      ensures Agrees(ToggleFreezeSpec(old(ledger), accounts, freeze), old(ledger), r, ledger)
    {
      if |accounts| < 3 {
        return Err(NotEnoughAccountKeys);
      }
      var key, mintKey := accounts[0].key, accounts[1].key;
      var sourceAccount :- UnpackAccount(Load(ledger, key));
      if (freeze && sourceAccount.state.Frozen?) || (!freeze && !sourceAccount.state.Frozen?) {
        return Err(Token(InvalidTokenState));
      }
      if sourceAccount.isNative.Some? {
        return Err(Token(NativeNotSupported));
      }
      if mintKey != sourceAccount.mint {
        return Err(Token(MintMismatch));
      }
      var mint :- UnpackMint(Load(ledger, mintKey));
      if mint.freezeAuthority.None? {
        return Err(Token(MintCannotFreeze));
      }
      :- CheckOwner(ledger, mint.freezeAuthority.value, accounts[2], accounts[3..]);
      sourceAccount := sourceAccount.(state := if freeze then Frozen else Initialized);
      Store(key, ledger[key].lamports, AccountRecord(sourceAccount));
      return Ok(());
    }

    /** Unpacks an instruction and runs its handler. */
    method Process(accounts: seq<AccountMeta>, rent: Rent, input: seq<u8>) returns (r: ProgramResult)
      modifies this
      ensures match Unpack(input)
              case Err(e) => r == Err(e) && ledger == old(ledger)
              case Ok(i) => Agrees(ProcessSpec(old(ledger), accounts, rent, i), old(ledger), r, ledger)
    {
      var instruction :- Unpack(input);
      match instruction
      case InitializeMint(decimals, mintAuthority, freezeAuthority) =>
        r := ProcessInitializeMint(accounts, rent, decimals, mintAuthority, freezeAuthority);
      case InitializeAccount => r := ProcessInitializeAccount(accounts, rent, None);
      case InitializeAccount2(owner) => r := ProcessInitializeAccount(accounts, rent, Some(owner));
      case InitializeMultisig(m) => r := ProcessInitializeMultisig(accounts, rent, m);
      case Transfer(amount) => r := ProcessTransfer(accounts, amount, None);
      case Approve(amount) => r := ProcessApprove(accounts, amount, None);
      case Revoke => r := ProcessRevoke(accounts);
      case SetAuthority(authorityType, newAuthority) => r := ProcessSetAuthority(accounts, authorityType, newAuthority);
      case MintTo(amount) => r := ProcessMintTo(accounts, amount, None);
      case Burn(amount) => r := ProcessBurn(accounts, amount, None);
      case CloseAccount => r := ProcessCloseAccount(accounts);
      case FreezeAccount => r := ProcessToggleFreezeAccount(accounts, true);
      case ThawAccount => r := ProcessToggleFreezeAccount(accounts, false);
      case TransferChecked(amount, decimals) => r := ProcessTransfer(accounts, amount, Some(decimals));
      case ApproveChecked(amount, decimals) => r := ProcessApprove(accounts, amount, Some(decimals));
      case MintToChecked(amount, decimals) => r := ProcessMintTo(accounts, amount, Some(decimals));
      case BurnChecked(amount, decimals) => r := ProcessBurn(accounts, amount, Some(decimals));
    }
  }
}
