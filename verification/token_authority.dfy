/** Who can change what: nothing in an account or a mint changes against its holder without the
    signatures of the authority that the record names. */
module TokenAuthority {
  import opened Basics
  import opened TokenState
  import opened OwnerValidation
  import opened TokenInstructions
  import opened TokenSpec
  import opened TokenRuns

  /** The account list carries the authority of `key`: it signed, or it is a multisig account
      followed by enough of its members' signatures. */
  predicate SignedFor(l: Ledger, accounts: seq<AccountMeta>, key: Pubkey) {
    exists i | 0 <= i < |accounts| :: ValidateOwner(l, key, accounts[i], accounts[i + 1..]) == Pass
  }

  predicate SignedForOption(l: Ledger, accounts: seq<AccountMeta>, key: Option<Pubkey>) {
    key.Some? && SignedFor(l, accounts, key.value)
  }

  /** The authority of someone with a hold on the account. */
  predicate SignedByHolder(l: Ledger, accounts: seq<AccountMeta>, a: Account) {
    SignedFor(l, accounts, a.owner) || SignedForOption(l, accounts, a.delegate) || SignedForOption(l, accounts, a.closeAuthority)
  }

  function FreezeAuthority(l: Ledger, mint: Pubkey): Option<Pubkey> {
    var m := UnpackMint(Load(l, mint));
    if m.Ok? then m.value.freezeAuthority else None
  }

  /** Who may close an account. */
  function Closer(a: Account): Pubkey {
    UnwrapOr(a.closeAuthority, a.owner)
  }

  /** The owner's authority, or the delegate's for tokens that come out of the allowance. */
  predicate DebitAuthorized(l: Ledger, accounts: seq<AccountMeta>, a: Account, a': Account) {
    || SignedFor(l, accounts, a.owner)
    || (SignedForOption(l, accounts, a.delegate) && a.amount - a'.amount == a.delegatedAmount - a'.delegatedAmount)
  }

  /** Tokens leave an account as a debit; lamports leave it when it is closed, and from a native
      account also with its tokens, one for one. Only the closer can empty an account. */
  predicate LossAuthorized(l: Ledger, accounts: seq<AccountMeta>, c: Cell, c': Cell)
    requires IsAccount(c) && IsAccount(c')
  {
    var a := c.record.account;
    var a' := c'.record.account;
    if a.isNative.None? then
      && (a'.amount < a.amount ==> DebitAuthorized(l, accounts, a, a') && c'.lamports == c.lamports)
      && (c'.lamports < c.lamports ==> SignedFor(l, accounts, Closer(a)) && a.amount == 0 && c'.lamports == 0)
    else
      a'.amount < a.amount || c'.lamports < c.lamports ==>
        || (DebitAuthorized(l, accounts, a, a') && a.amount - a'.amount == c.lamports - c'.lamports)
        || (SignedFor(l, accounts, Closer(a)) && a'.amount == 0 && c'.lamports == 0)
  }

  predicate AccountChangeAuthorized(l: Ledger, accounts: seq<AccountMeta>, c: Cell, c': Cell)
    requires IsAccount(c)
  {
    && IsAccount(c')
    && LossAuthorized(l, accounts, c, c')
    && var a := c.record.account;
       var a' := c'.record.account;
       && (a'.owner != a.owner ==> SignedFor(l, accounts, a.owner))
       && (a'.delegate != a.delegate || a'.delegatedAmount != a.delegatedAmount ==>
             SignedFor(l, accounts, a.owner) || SignedForOption(l, accounts, a.delegate))
       && (a'.delegatedAmount > a.delegatedAmount ==> SignedFor(l, accounts, a.owner))
       && (a'.closeAuthority != a.closeAuthority ==> SignedFor(l, accounts, Closer(a)))
       && (a'.state != a.state ==> SignedForOption(l, accounts, FreezeAuthority(l, a.mint)))
       && a'.mint == a.mint && a'.isNative == a.isNative
  }

  predicate MintChangeAuthorized(l: Ledger, accounts: seq<AccountMeta>, c: Cell, c': Cell)
    requires IsMint(c)
  {
    && IsMint(c')
    && var m := c.record.mint;
       var m' := c'.record.mint;
       && (m'.supply > m.supply || m'.mintAuthority != m.mintAuthority ==> SignedForOption(l, accounts, m.mintAuthority))
       && (m'.freezeAuthority != m.freezeAuthority ==> SignedForOption(l, accounts, m.freezeAuthority))
       && m'.decimals == m.decimals
  }

  /** The tokens that left the supply of `k` left account `h`, as a debit of it. */
  predicate BurnedFrom(l: Ledger, accounts: seq<AccountMeta>, l': Ledger, k: Pubkey, h: Pubkey)
    requires IsMint(Load(l, k)) && IsMint(Load(l', k))
  {
    && IsAccount(Load(l, h)) && IsAccount(Load(l', h)) && l[h].record.account.mint == k
    && l[h].record.account.amount - Load(l', h).record.account.amount == l[k].record.mint.supply - Load(l', k).record.mint.supply
    && DebitAuthorized(l, accounts, l[h].record.account, Load(l', h).record.account)
  }

  predicate ChangeAuthorized(l: Ledger, accounts: seq<AccountMeta>, l': Ledger, k: Pubkey) {
    && (IsAccount(Load(l, k)) ==> AccountChangeAuthorized(l, accounts, Load(l, k), Load(l', k)))
    && (IsMint(Load(l, k)) ==>
          && MintChangeAuthorized(l, accounts, Load(l, k), Load(l', k))
          && (Load(l', k).record.mint.supply < l[k].record.mint.supply ==>
                exists h | h in l :: BurnedFrom(l, accounts, l', k, h)))
  }

  /** The account kept its owner, delegate, allowance and close authority, and all its tokens and
      lamports. */
  predicate Untouched(c: Cell, c': Cell)
    requires IsAccount(c)
  {
    && IsAccount(c')
    && c.lamports <= c'.lamports && c.record.account.amount <= c'.record.account.amount
    && c'.record.account == c.record.account.(amount := c'.record.account.amount, state := c'.record.account.state)
  }

  lemma DebitSigned(l: Ledger, accounts: seq<AccountMeta>, at: nat, account: Account, amount: u64, selfTransfer: bool)
    requires at < |accounts|
    requires AuthorizeDebit(l, account, accounts[at], accounts[at + 1..], amount, selfTransfer).Ok?
    ensures var a' := AuthorizeDebit(l, account, accounts[at], accounts[at + 1..], amount, selfTransfer).value;
            && a' == account.(delegate := a'.delegate, delegatedAmount := a'.delegatedAmount)
            && (if a' == account then true else SignedForOption(l, accounts, account.delegate))
            && a'.delegatedAmount <= account.delegatedAmount
            && (!selfTransfer && amount <= account.amount ==> DebitAuthorized(l, accounts, account, a'.(amount := account.amount - amount)))
  {
  }

  /** A transfer leaves every account but its source at least what it had, and mints as they were. */
  lemma TransferElsewhere(l: Ledger, accounts: seq<AccountMeta>, amount: u64, decimals: Option<u8>, k: Pubkey)
    requires TransferSpec(l, accounts, amount, decimals).Ok? && k != accounts[0].key
    ensures var c' := Load(TransferSpec(l, accounts, amount, decimals).value, k);
            if IsAccount(Load(l, k)) then Untouched(Load(l, k), c') else c' == Load(l, k)
  {
  }

  /** The source of a transfer, whose tokens leave as an authorized debit. */
  lemma TransferSource(l: Ledger, accounts: seq<AccountMeta>, amount: u64, decimals: Option<u8>)
    requires TransferSpec(l, accounts, amount, decimals).Ok?
    ensures IsAccount(Load(l, accounts[0].key))
    ensures AccountChangeAuthorized(l, accounts, Load(l, accounts[0].key),
                                    Load(TransferSpec(l, accounts, amount, decimals).value, accounts[0].key))
  {
    var k := accounts[0].key;
    var skip := if decimals.Some? then 1 else 0;
    DebitSigned(l, accounts, 2 + skip, l[k].record.account, amount, k == accounts[1 + skip].key);
  }

  lemma TransferAuthorized(l: Ledger, accounts: seq<AccountMeta>, amount: u64, decimals: Option<u8>, k: Pubkey)
    requires TransferSpec(l, accounts, amount, decimals).Ok?
    ensures ChangeAuthorized(l, accounts, TransferSpec(l, accounts, amount, decimals).value, k)
  {
    if k == accounts[0].key {
      TransferSource(l, accounts, amount, decimals);
    } else {
      TransferElsewhere(l, accounts, amount, decimals, k);
    }
  }

  /** `l'` is `l` with tokens burned from the first account, as an authorized debit, out of the supply of
      the second. */
  ghost predicate Burned(l: Ledger, accounts: seq<AccountMeta>, l': Ledger)
    requires |accounts| >= 2
  {
    var from := accounts[0].key;
    var mint := accounts[1].key;
    && IsAccount(Load(l, from)) && IsMint(Load(l, mint)) && IsAccount(Load(l', from)) && IsMint(Load(l', mint))
    && from != mint && l[from].record.account.mint == mint
    && AccountChangeAuthorized(l, accounts, l[from], l'[from])
    && DebitAuthorized(l, accounts, l[from].record.account, l'[from].record.account)
    && l[from].record.account.amount - l'[from].record.account.amount
       == l[mint].record.mint.supply - l'[mint].record.mint.supply >= 0
    && l'[mint].record.mint == l[mint].record.mint.(supply := l'[mint].record.mint.supply)
    && forall k | k != from && k != mint :: Load(l', k) == Load(l, k)
  }

  lemma BurnShaped(l: Ledger, accounts: seq<AccountMeta>, amount: u64, decimals: Option<u8>)
    requires BurnSpec(l, accounts, amount, decimals).Ok?
    ensures Burned(l, accounts, BurnSpec(l, accounts, amount, decimals).value)
  {
    DebitSigned(l, accounts, 2, l[accounts[0].key].record.account, amount, false);
  }

  lemma BurnedAuthorized(l: Ledger, accounts: seq<AccountMeta>, l': Ledger, k: Pubkey)
    requires |accounts| >= 2 && Burned(l, accounts, l')
    ensures ChangeAuthorized(l, accounts, l', k)
  {
    if k == accounts[1].key {
      assert BurnedFrom(l, accounts, l', k, accounts[0].key);
    }
  }

  lemma BurnAuthorized(l: Ledger, accounts: seq<AccountMeta>, amount: u64, decimals: Option<u8>, k: Pubkey)
    requires BurnSpec(l, accounts, amount, decimals).Ok?
    ensures ChangeAuthorized(l, accounts, BurnSpec(l, accounts, amount, decimals).value, k)
  {
    BurnShaped(l, accounts, amount, decimals);
    BurnedAuthorized(l, accounts, BurnSpec(l, accounts, amount, decimals).value, k);
  }

  lemma MintToAuthorized(l: Ledger, accounts: seq<AccountMeta>, amount: u64, decimals: Option<u8>, k: Pubkey)
    requires MintToSpec(l, accounts, amount, decimals).Ok?
    ensures ChangeAuthorized(l, accounts, MintToSpec(l, accounts, amount, decimals).value, k)
  {
    assert SignedForOption(l, accounts, l[accounts[0].key].record.mint.mintAuthority);
  }

  lemma CloseAuthorized(l: Ledger, accounts: seq<AccountMeta>, k: Pubkey)
    requires CloseAccountSpec(l, accounts).Ok?
    ensures ChangeAuthorized(l, accounts, CloseAccountSpec(l, accounts).value, k)
  {
    var a := l[accounts[0].key].record.account;
    assert SignedFor(l, accounts, Closer(a));
  }

  lemma ApproveAuthorized(l: Ledger, accounts: seq<AccountMeta>, amount: u64, decimals: Option<u8>, k: Pubkey)
    requires ApproveSpec(l, accounts, amount, decimals).Ok?
    ensures ChangeAuthorized(l, accounts, ApproveSpec(l, accounts, amount, decimals).value, k)
  {
    var at := if decimals.Some? then 3 else 2;
    assert ValidateOwner(l, l[accounts[0].key].record.account.owner, accounts[at], accounts[at + 1..]) == Pass;
  }

  lemma RevokeAuthorized(l: Ledger, accounts: seq<AccountMeta>, k: Pubkey)
    requires RevokeSpec(l, accounts).Ok?
    ensures ChangeAuthorized(l, accounts, RevokeSpec(l, accounts).value, k)
  {
    assert SignedFor(l, accounts, l[accounts[0].key].record.account.owner);
  }

  lemma SetAuthorityAuthorized(l: Ledger, accounts: seq<AccountMeta>, t: AuthorityType, newAuthority: Option<Pubkey>, k: Pubkey)
    requires SetAuthoritySpec(l, accounts, t, newAuthority).Ok?
    ensures ChangeAuthorized(l, accounts, SetAuthoritySpec(l, accounts, t, newAuthority).value, k)
  {
    assert forall key | ValidateOwner(l, key, accounts[1], accounts[2..]) == Pass :: SignedFor(l, accounts, key);
  }

  lemma ToggleFreezeAuthorized(l: Ledger, accounts: seq<AccountMeta>, freeze: bool, k: Pubkey)
    requires ToggleFreezeSpec(l, accounts, freeze).Ok?
    ensures ChangeAuthorized(l, accounts, ToggleFreezeSpec(l, accounts, freeze).value, k)
  {
    assert SignedForOption(l, accounts, FreezeAuthority(l, accounts[1].key));
  }

  lemma InitializeAccountAuthorized(l: Ledger, accounts: seq<AccountMeta>, rent: Rent, owner: Option<Pubkey>, k: Pubkey)
    requires InitializeAccountSpec(l, accounts, rent, owner).Ok?
    ensures ChangeAuthorized(l, accounts, InitializeAccountSpec(l, accounts, rent, owner).value, k)
  {
  }

  lemma InitializeAuthorized(l: Ledger, accounts: seq<AccountMeta>, rent: Rent, i: TokenInstruction, k: Pubkey)
    requires (i.InitializeMint? || i.InitializeMultisig?) && ProcessSpec(l, accounts, rent, i).Ok?
    ensures ChangeAuthorized(l, accounts, ProcessSpec(l, accounts, rent, i).value, k)
  {
  }

  /** No instruction changes an initialized account or mint without the authority the record names:
      its owner, or its delegate within the allowance, for its tokens; its closer for its lamports; its
      owner for a new owner or allowance; its mint's freeze authority for its state; a mint's authority
      for a larger supply, and for a smaller one the holder whose tokens were burned. */
  lemma ChangesAreAuthorized(l: Ledger, accounts: seq<AccountMeta>, rent: Rent, i: TokenInstruction, k: Pubkey)
    requires ProcessSpec(l, accounts, rent, i).Ok?
    ensures ChangeAuthorized(l, accounts, ProcessSpec(l, accounts, rent, i).value, k)
  {
    match i
    case Transfer(amount) => TransferAuthorized(l, accounts, amount, None, k);
    case TransferChecked(amount, decimals) => TransferAuthorized(l, accounts, amount, Some(decimals), k);
    case Burn(amount) => BurnAuthorized(l, accounts, amount, None, k);
    case BurnChecked(amount, decimals) => BurnAuthorized(l, accounts, amount, Some(decimals), k);
    case MintTo(amount) => MintToAuthorized(l, accounts, amount, None, k);
    case MintToChecked(amount, decimals) => MintToAuthorized(l, accounts, amount, Some(decimals), k);
    case CloseAccount => CloseAuthorized(l, accounts, k);
    case Approve(amount) => ApproveAuthorized(l, accounts, amount, None, k);
    case ApproveChecked(amount, decimals) => ApproveAuthorized(l, accounts, amount, Some(decimals), k);
    case SetAuthority(t, newAuthority) => SetAuthorityAuthorized(l, accounts, t, newAuthority, k);
    case InitializeAccount => InitializeAccountAuthorized(l, accounts, rent, None, k);
    case InitializeAccount2(owner) => InitializeAccountAuthorized(l, accounts, rent, Some(owner), k);
    case InitializeMint(_, _, _) => InitializeAuthorized(l, accounts, rent, i, k);
    case InitializeMultisig(_) => InitializeAuthorized(l, accounts, rent, i, k);
    case Revoke => RevokeAuthorized(l, accounts, k);
    case FreezeAccount => ToggleFreezeAuthorized(l, accounts, true, k);
    case ThawAccount => ToggleFreezeAuthorized(l, accounts, false, k);
  }

  /** On every run, an initialized multisig account needs between one and eleven signatures and lists
      at most eleven members; so a validation against it never panics, and succeeds exactly when it
      names the expected key, every member key's first listing is signed, and enough positions are
      listed. */
  lemma MultisigOnEveryRun(events: seq<Event>, expected: Pubkey, owner: AccountMeta, signers: seq<AccountMeta>)
    requires var record := Load(Run(EMPTY_BANK, events).ledger, owner.key).record;
             record.MultisigRecord? && record.multisig.isInitialized
    ensures var l := Run(EMPTY_BANK, events).ledger;
            var ms := Load(l, owner.key).record.multisig;
            && 1 <= ms.m <= 11 && 1 <= ms.n <= 11
            && ValidateOwner(l, expected, owner, signers) != Fail(Panicked)
            && (ValidateOwner(l, expected, owner, signers) == Pass <==>
                  expected == owner.key && MultisigSatisfied(ms, signers))
  {
    EmptyBankValid();
    RunKeepsValid(EMPTY_BANK, events);
    var l := Run(EMPTY_BANK, events).ledger;
    assert CellOk(l, l[owner.key]);
  }

  // ---------- along a run ----------

  /** No event of the run carries, at its turn, the authority of anyone with a hold on `k`. */
  predicate NeverSignedFor(b: Bank, events: seq<Event>, k: Pubkey) {
    events == [] ||
    (var front := events[..|events| - 1];
     var last := events[|events| - 1];
     var l := Run(b, front).ledger;
     && NeverSignedFor(b, front, k)
     && (last.Invoke? && IsAccount(Load(l, k)) ==> !SignedByHolder(l, last.accounts, l[k].record.account)))
  }

  lemma NextUntouched(b: Bank, e: Event, k: Pubkey)
    requires IsAccount(Load(b.ledger, k)) && (e == Purge(k) ==> Load(b.ledger, k).lamports > 0)
    requires e.Invoke? ==> !SignedByHolder(b.ledger, e.accounts, b.ledger[k].record.account)
    ensures Untouched(Load(b.ledger, k), Load(Next(b, e).ledger, k))
  {
    if e.Invoke? && ProcessSpec(b.ledger, e.accounts, e.rent, e.instruction).Ok? {
      ChangesAreAuthorized(b.ledger, e.accounts, e.rent, e.instruction, k);
    }
  }

  /** On every run, an account for which nobody with a hold on it signs loses nothing; and one with
      lamports cannot be made to vanish, while one without must not be purged. */
  lemma {:induction false} UnsignedAccountLosesNothing(b: Bank, events: seq<Event>, k: Pubkey)
    requires IsAccount(Load(b.ledger, k)) && NeverSignedFor(b, events, k)
    requires Load(b.ledger, k).lamports > 0 || forall i | 0 <= i < |events| :: events[i] != Purge(k)
    ensures Untouched(Load(b.ledger, k), Load(Run(b, events).ledger, k))
  {
    if events != [] {
      UnsignedAccountLosesNothing(b, events[..|events| - 1], k);
      NextUntouched(Run(b, events[..|events| - 1]), events[|events| - 1], k);
    }
  }
}
