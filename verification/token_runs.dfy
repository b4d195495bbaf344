/** Runs of the token program: any sequence of instructions, account creations, outside lamport
    moves and purges of emptied accounts, and what stays true along every one of them. */
module TokenRuns {
  import opened Basics
  import opened TokenState
  import opened TokenInstructions
  import opened TokenSpec

  // ---------- the machine ----------

  /** `Create` is the system program handing a blank account to the token program. `Outside` is
      anything other programs do: they rule accounts the token program does not own, and may only
      add lamports to those it owns. `Purge` is the runtime dropping an account with no lamports. */
  datatype Event =
    | Invoke(accounts: seq<AccountMeta>, rent: Rent, instruction: TokenInstruction)
    | Create(key: Pubkey, cell: Cell)
    | Outside(key: Pubkey, cell: Cell)
    | Purge(key: Pubkey)

  /** The ledger with its history: which accounts are closed and not yet purged, and how many
      tokens of each mint were in accounts when these were purged. */
  datatype Bank = Bank(ledger: Ledger, closed: set<Pubkey>, lost: map<Pubkey, nat>)

  const EMPTY_BANK := Bank(map[], {}, map[])

  predicate Blank(r: Record) {
    r == MintRecord(ZERO_MINT) || r == AccountRecord(ZERO_ACCOUNT) || r == MultisigRecord(ZERO_MULTISIG)
  }

  predicate OutsidePermitted(before: Cell, after: Cell) {
    if TokenOwned(before.record) then before.record == after.record && before.lamports <= after.lamports
    else !TokenOwned(after.record)
  }

  predicate IsAccount(c: Cell) {
    c.record.AccountRecord? && !c.record.account.state.Uninitialized?
  }

  predicate IsMint(c: Cell) {
    c.record.MintRecord? && c.record.mint.isInitialized
  }

  function Lost(b: Bank, mint: Pubkey): nat {
    if mint in b.lost then b.lost[mint] else 0
  }

  function Closed(b: Bank, accounts: seq<AccountMeta>, i: TokenInstruction): set<Pubkey> {
    if i.CloseAccount? && accounts != [] then b.closed + {accounts[0].key} else b.closed
  }

  function Next(b: Bank, e: Event): Bank {
    match e
    case Invoke(accounts, rent, i) =>
      var r := ProcessSpec(b.ledger, accounts, rent, i);
      if r.Ok? then b.(ledger := r.value, closed := Closed(b, accounts, i)) else b
    case Create(key, cell) =>
      if !TokenOwned(Load(b.ledger, key).record) && Blank(cell.record) then b.(ledger := b.ledger[key := cell]) else b
    case Outside(key, cell) =>
      if OutsidePermitted(Load(b.ledger, key), cell) then b.(ledger := b.ledger[key := cell]) else b
    case Purge(key) =>
      if key !in b.ledger || b.ledger[key].lamports != 0 then b
      else
        var cell := b.ledger[key];
        Bank(b.ledger - {key}, b.closed - {key},
             if IsAccount(cell) then
               b.lost[cell.record.account.mint := Lost(b, cell.record.account.mint) + cell.record.account.amount]
             else b.lost)
  }

  function Run(b: Bank, events: seq<Event>): Bank {
    if events == [] then b else Next(Run(b, events[..|events| - 1]), events[|events| - 1])
  }

  // ---------- the invariant ----------

  /** An initialized account: native exactly when its mint is the native mint, its tokens covered
      by lamports if so and by an existing mint otherwise; no allowance without a delegate; frozen
      only if not native. */
  predicate AccountOk(l: Ledger, lamports: u64, a: Account) {
    && (a.isNative.Some? <==> a.mint == NATIVE_MINT)
    && (a.isNative.Some? ==> a.amount <= lamports)
    && (a.isNative.None? ==> IsMint(Load(l, a.mint)))
    && (a.delegate.None? ==> a.delegatedAmount == 0)
    && (a.state.Frozen? ==> a.isNative.None?)
  }

  predicate CellOk(l: Ledger, c: Cell) {
    match c.record
    case MintRecord(m) => if m.isInitialized then 0 < c.lamports else m == ZERO_MINT
    case AccountRecord(a) => if a.state.Uninitialized? then a == ZERO_ACCOUNT else AccountOk(l, c.lamports, a)
    case MultisigRecord(ms) => if ms.isInitialized then 1 <= ms.m <= 11 && 1 <= ms.n <= 11 else ms == ZERO_MULTISIG
    case _ => true
  }

  ghost predicate LedgerOk(l: Ledger) {
    forall k | k in l :: CellOk(l, l[k])
  }

  /** A native account's lamports cover its tokens and its rent reserve. */
  predicate CellBacked(c: Cell) {
    IsAccount(c) && c.record.account.isNative.Some? ==>
      c.record.account.amount + c.record.account.isNative.value <= c.lamports
  }

  ghost predicate Backed(b: Bank) {
    forall k | k in b.ledger && k !in b.closed :: CellBacked(b.ledger[k])
  }

  function Holding(c: Cell, mint: Pubkey): nat {
    if IsAccount(c) && c.record.account.mint == mint then c.record.account.amount else 0
  }

  /** The sum of a mint's tokens over all accounts. */
  ghost function Total(l: Ledger, mint: Pubkey): nat
    decreases |l|
  {
    if l == map[] then 0
    else
      var k :| k in l;
      Holding(l[k], mint) + Total(l - {k}, mint)
  }

  function Supply(l: Ledger, mint: Pubkey): nat {
    if IsMint(Load(l, mint)) then l[mint].record.mint.supply else 0
  }

  ghost function SupplyGap(l: Ledger, mint: Pubkey): int {
    Supply(l, mint) - Total(l, mint)
  }

  /** Every non-native mint's supply is the sum of its accounts plus what was purged. */
  ghost predicate Conserved(b: Bank) {
    forall mint | mint != NATIVE_MINT :: SupplyGap(b.ledger, mint) == Lost(b, mint)
  }

  ghost predicate Valid(b: Bank) {
    LedgerOk(b.ledger) && Backed(b) && Conserved(b)
  }

  // ---------- sums over a ledger ----------

  lemma {:induction false} TotalRemove(l: Ledger, mint: Pubkey, k: Pubkey)
    requires k in l
    ensures Total(l, mint) == Holding(l[k], mint) + Total(l - {k}, mint)
    decreases |l|
  {
    var k' :| k' in l && Total(l, mint) == Holding(l[k'], mint) + Total(l - {k'}, mint);
    if k != k' {
      TotalRemove(l - {k'}, mint, k);
      TotalRemove(l - {k}, mint, k');
      assert l - {k} - {k'} == l - {k'} - {k};
    }
  }

  /** What one cell adds to a mint's supply gap. */
  function CellGap(k: Pubkey, c: Cell, mint: Pubkey): int {
    (if k == mint && IsMint(c) then c.record.mint.supply else 0) - Holding(c, mint)
  }

  lemma GapPut(l: Ledger, k: Pubkey, c: Cell, mint: Pubkey)
    ensures SupplyGap(l[k := c], mint) == SupplyGap(l, mint) - CellGap(k, Load(l, k), mint) + CellGap(k, c, mint)
  {
    TotalRemove(l[k := c], mint, k);
    assert l[k := c] - {k} == l - {k};
    if k in l {
      TotalRemove(l, mint, k);
    } else {
      assert l - {k} == l;
    }
  }

  /** Two different accounts of a mint hold no more than all of them. */
  lemma HoldingsBound(l: Ledger, mint: Pubkey, k: Pubkey, k': Pubkey)
    requires k in l && k' in l
    ensures Holding(l[k], mint) <= Total(l, mint)
    ensures k != k' ==> Holding(l[k], mint) + Holding(l[k'], mint) <= Total(l, mint)
  {
    TotalRemove(l, mint, k);
    if k != k' {
      TotalRemove(l - {k}, mint, k');
    }
  }

  // ---------- every event keeps the invariant ----------

  /** Storing a sound cell keeps every cell sound and every open native account backed. */
  lemma SoundPut(b: Bank, k: Pubkey, c: Cell)
    requires LedgerOk(b.ledger) && Backed(b)
    requires CellOk(b.ledger[k := c], c) && (k in b.closed || CellBacked(c))
    requires IsMint(Load(b.ledger, k)) ==> IsMint(c)
    ensures LedgerOk(b.ledger[k := c]) && Backed(b.(ledger := b.ledger[k := c]))
  {
    var l' := b.ledger[k := c];
    forall k' | k' in l'
      ensures CellOk(l', l'[k'])
    {
      if k' != k {
        assert CellOk(b.ledger, b.ledger[k']);
      }
    }
  }

  /** Storing a sound cell that holds the same tokens keeps the whole invariant. */
  lemma QuietPut(b: Bank, k: Pubkey, c: Cell)
    requires Valid(b)
    requires CellOk(b.ledger[k := c], c) && (k in b.closed || CellBacked(c))
    requires IsMint(Load(b.ledger, k)) ==> IsMint(c)
    requires forall mint | mint != NATIVE_MINT :: CellGap(k, c, mint) == CellGap(k, Load(b.ledger, k), mint)
    ensures Valid(b.(ledger := b.ledger[k := c]))
  {
    SoundPut(b, k, c);
    var b' := b.(ledger := b.ledger[k := c]);
    forall mint | mint != NATIVE_MINT
      ensures SupplyGap(b'.ledger, mint) == Lost(b', mint)
    {
      assert SupplyGap(b.ledger, mint) == Lost(b, mint);
      GapPut(b.ledger, k, c, mint);
    }
  }

  /** Storing two sound cells that between them hold the same tokens keeps the whole invariant. */
  lemma PairPut(b: Bank, k: Pubkey, c: Cell, k': Pubkey, c': Cell)
    requires Valid(b) && k != k'
    requires CellOk(b.ledger[k := c], c) && (k in b.closed || CellBacked(c))
    requires CellOk(b.ledger[k := c][k' := c'], c') && (k' in b.closed || CellBacked(c'))
    requires IsMint(Load(b.ledger, k)) ==> IsMint(c)
    requires IsMint(Load(b.ledger, k')) ==> IsMint(c')
    requires forall mint | mint != NATIVE_MINT ::
               CellGap(k, c, mint) + CellGap(k', c', mint)
               == CellGap(k, Load(b.ledger, k), mint) + CellGap(k', Load(b.ledger, k'), mint)
    ensures Valid(b.(ledger := b.ledger[k := c][k' := c']))
  {
    var mid := b.(ledger := b.ledger[k := c]);
    SoundPut(b, k, c);
    SoundPut(mid, k', c');
    var b' := b.(ledger := mid.ledger[k' := c']);
    forall mint | mint != NATIVE_MINT
      ensures SupplyGap(b'.ledger, mint) == Lost(b', mint)
    {
      assert SupplyGap(b.ledger, mint) == Lost(b, mint);
      GapPut(b.ledger, k, c, mint);
      GapPut(mid.ledger, k', c', mint);
    }
  }

  lemma InitializeMintKeeps(b: Bank, accounts: seq<AccountMeta>, rent: Rent, decimals: u8, mintAuthority: Pubkey,
                            freezeAuthority: Option<Pubkey>)
    requires Valid(b) && InitializeMintSpec(b.ledger, accounts, rent, decimals, mintAuthority, freezeAuthority).Ok?
    ensures Valid(b.(ledger := InitializeMintSpec(b.ledger, accounts, rent, decimals, mintAuthority, freezeAuthority).value))
  {
    var k := accounts[0].key;
    assert CellOk(b.ledger, b.ledger[k]);
    QuietPut(b, k, InitializeMintSpec(b.ledger, accounts, rent, decimals, mintAuthority, freezeAuthority).value[k]);
  }

  lemma InitializeAccountKeeps(b: Bank, accounts: seq<AccountMeta>, rent: Rent, owner: Option<Pubkey>)
    requires Valid(b) && InitializeAccountSpec(b.ledger, accounts, rent, owner).Ok?
    ensures Valid(b.(ledger := InitializeAccountSpec(b.ledger, accounts, rent, owner).value))
  {
    var k := accounts[0].key;
    assert CellOk(b.ledger, b.ledger[k]);
    QuietPut(b, k, InitializeAccountSpec(b.ledger, accounts, rent, owner).value[k]);
  }

  lemma InitializeMultisigKeeps(b: Bank, accounts: seq<AccountMeta>, rent: Rent, m: u8)
    requires Valid(b) && InitializeMultisigSpec(b.ledger, accounts, rent, m).Ok?
    ensures Valid(b.(ledger := InitializeMultisigSpec(b.ledger, accounts, rent, m).value))
  {
    var k := accounts[0].key;
    assert CellOk(b.ledger, b.ledger[k]);
    QuietPut(b, k, InitializeMultisigSpec(b.ledger, accounts, rent, m).value[k]);
  }

  lemma ApproveKeeps(b: Bank, accounts: seq<AccountMeta>, amount: u64, decimals: Option<u8>)
    requires Valid(b) && ApproveSpec(b.ledger, accounts, amount, decimals).Ok?
    ensures Valid(b.(ledger := ApproveSpec(b.ledger, accounts, amount, decimals).value))
  {
    var k := accounts[0].key;
    assert CellOk(b.ledger, b.ledger[k]);
    QuietPut(b, k, ApproveSpec(b.ledger, accounts, amount, decimals).value[k]);
  }

  lemma RevokeKeeps(b: Bank, accounts: seq<AccountMeta>)
    requires Valid(b) && RevokeSpec(b.ledger, accounts).Ok?
    ensures Valid(b.(ledger := RevokeSpec(b.ledger, accounts).value))
  {
    var k := accounts[0].key;
    assert CellOk(b.ledger, b.ledger[k]);
    QuietPut(b, k, RevokeSpec(b.ledger, accounts).value[k]);
  }

  lemma SetAuthorityKeeps(b: Bank, accounts: seq<AccountMeta>, t: AuthorityType, newAuthority: Option<Pubkey>)
    requires Valid(b) && SetAuthoritySpec(b.ledger, accounts, t, newAuthority).Ok?
    ensures Valid(b.(ledger := SetAuthoritySpec(b.ledger, accounts, t, newAuthority).value))
  {
    var k := accounts[0].key;
    assert CellOk(b.ledger, b.ledger[k]);
    QuietPut(b, k, SetAuthoritySpec(b.ledger, accounts, t, newAuthority).value[k]);
  }

  lemma ToggleFreezeKeeps(b: Bank, accounts: seq<AccountMeta>, freeze: bool)
    requires Valid(b) && ToggleFreezeSpec(b.ledger, accounts, freeze).Ok?
    ensures Valid(b.(ledger := ToggleFreezeSpec(b.ledger, accounts, freeze).value))
  {
    var k := accounts[0].key;
    assert CellOk(b.ledger, b.ledger[k]);
    QuietPut(b, k, ToggleFreezeSpec(b.ledger, accounts, freeze).value[k]);
  }

  /** `a'` is `a` up to its amount and allowance, and has no allowance without a delegate. */
  predicate Debited(a: Account, a': Account) {
    && a' == a.(amount := a'.amount, delegate := a'.delegate, delegatedAmount := a'.delegatedAmount)
    && (a'.delegate.None? ==> a.delegate.None? || a'.delegatedAmount == 0)
    && (a.delegate.None? ==> a'.delegatedAmount == a.delegatedAmount)
  }

  /** Moving tokens, and for native accounts as many lamports, between two accounts of a mint. */
  lemma MoveKeeps(b: Bank, from: Pubkey, to: Pubkey, amount: u64, source: Account, dest: Account, source': Account)
    requires Valid(b) && from != to && from in b.ledger && to in b.ledger
    requires b.ledger[from].record == AccountRecord(source) && b.ledger[to].record == AccountRecord(dest)
    requires source.state.Initialized? && dest.state.Initialized? && source.mint == dest.mint
    requires Debited(source, source') && source'.amount + amount == source.amount && dest.amount + amount < U64_RANGE
    ensures var moved := if source.isNative.Some? then amount else 0;
            moved <= b.ledger[from].lamports && (b.ledger[to].lamports + moved < U64_RANGE ==>
              Valid(b.(ledger := b.ledger[from := Cell(b.ledger[from].lamports - moved, AccountRecord(source'))]
                                         [to := Cell(b.ledger[to].lamports + moved, AccountRecord(dest.(amount := dest.amount + amount)))])))
  {
    var moved := if source.isNative.Some? then amount else 0;
    assert CellOk(b.ledger, b.ledger[from]) && CellOk(b.ledger, b.ledger[to]);
    if b.ledger[to].lamports + moved < U64_RANGE {
      PairPut(b, from, Cell(b.ledger[from].lamports - moved, AccountRecord(source')),
              to, Cell(b.ledger[to].lamports + moved, AccountRecord(dest.(amount := dest.amount + amount))));
    }
  }

  /** A successful transfer either changes nothing or moves tokens as `MoveKeeps` describes. */
  lemma TransferShape(l: Ledger, accounts: seq<AccountMeta>, amount: u64, decimals: Option<u8>)
    returns (from: Pubkey, to: Pubkey, source: Account, dest: Account, source': Account)
    requires TransferSpec(l, accounts, amount, decimals).Ok?
    ensures from == to ==> TransferSpec(l, accounts, amount, decimals).value == l
    ensures from != to ==>
              var moved := if source.isNative.Some? then amount else 0;
              && from in l && to in l && l[from].record == AccountRecord(source) && l[to].record == AccountRecord(dest)
              && source.state.Initialized? && dest.state.Initialized? && source.mint == dest.mint
              && Debited(source, source') && source'.amount + amount == source.amount
              && dest.amount + amount < U64_RANGE && moved <= l[from].lamports && l[to].lamports + moved < U64_RANGE
              && TransferSpec(l, accounts, amount, decimals).value
                 == l[from := Cell(l[from].lamports - moved, AccountRecord(source'))]
                     [to := Cell(l[to].lamports + moved, AccountRecord(dest.(amount := dest.amount + amount)))]
  {
    from, to := accounts[0].key, accounts[if decimals.Some? then 2 else 1].key;
    source, dest := l[from].record.account, l[to].record.account;
    source' := TransferSpec(l, accounts, amount, decimals).value[from].record.account;
  }

  lemma TransferKeeps(b: Bank, accounts: seq<AccountMeta>, amount: u64, decimals: Option<u8>)
    requires Valid(b) && TransferSpec(b.ledger, accounts, amount, decimals).Ok?
    ensures Valid(b.(ledger := TransferSpec(b.ledger, accounts, amount, decimals).value))
  {
    var from, to, source, dest, source' := TransferShape(b.ledger, accounts, amount, decimals);
    if from != to {
      MoveKeeps(b, from, to, amount, source, dest, source');
    }
  }

  lemma MintToKeeps(b: Bank, accounts: seq<AccountMeta>, amount: u64, decimals: Option<u8>)
    requires Valid(b) && MintToSpec(b.ledger, accounts, amount, decimals).Ok?
    ensures Valid(b.(ledger := MintToSpec(b.ledger, accounts, amount, decimals).value))
  {
    var l := b.ledger;
    var l' := MintToSpec(l, accounts, amount, decimals).value;
    var (mintKey, to) := (accounts[0].key, accounts[1].key);
    assert CellOk(l, l[mintKey]) && CellOk(l, l[to]);
    PairPut(b, to, l'[to], mintKey, l'[mintKey]);
  }

  lemma BurnKeeps(b: Bank, accounts: seq<AccountMeta>, amount: u64, decimals: Option<u8>)
    requires Valid(b) && BurnSpec(b.ledger, accounts, amount, decimals).Ok?
    ensures Valid(b.(ledger := BurnSpec(b.ledger, accounts, amount, decimals).value))
  {
    var l := b.ledger;
    var l' := BurnSpec(l, accounts, amount, decimals).value;
    var (from, mintKey) := (accounts[0].key, accounts[1].key);
    assert CellOk(l, l[mintKey]) && CellOk(l, l[from]);
    PairPut(b, from, l'[from], mintKey, l'[mintKey]);
  }

  lemma MarkingClosedKeeps(b: Bank, k: Pubkey)
    requires Valid(b)
    ensures Valid(b.(closed := b.closed + {k}))
  {
    assert forall mint :: Lost(b.(closed := b.closed + {k}), mint) == Lost(b, mint);
  }

  lemma CloseShape(l: Ledger, accounts: seq<AccountMeta>) returns (from: Pubkey, to: Pubkey, source: Account)
    requires CloseAccountSpec(l, accounts).Ok?
    ensures accounts != [] && from == accounts[0].key && from in l && l[from].record == AccountRecord(source)
    ensures !source.state.Uninitialized? && (source.isNative.None? ==> source.amount == 0)
    ensures Load(l, to).lamports + l[from].lamports < U64_RANGE
    ensures var l' := if from == to then l
                      else l[to := Load(l, to).(lamports := Load(l, to).lamports + l[from].lamports)];
            CloseAccountSpec(l, accounts).value == l'[from := Cell(0, AccountRecord(source.(amount := 0)))]
  {
    from, to := accounts[0].key, accounts[1].key;
    source := l[from].record.account;
  }

  lemma CloseKeeps(b: Bank, accounts: seq<AccountMeta>)
    requires Valid(b) && CloseAccountSpec(b.ledger, accounts).Ok?
    ensures Valid(b.(ledger := CloseAccountSpec(b.ledger, accounts).value, closed := b.closed + {accounts[0].key}))
  {
    var from, to, source := CloseShape(b.ledger, accounts);
    ClosedAndEmptied(b, from, to, source, CloseAccountSpec(b.ledger, accounts).value);
  }

  lemma ClosedAndEmptied(b: Bank, from: Pubkey, to: Pubkey, source: Account, l': Ledger)
    requires Valid(b) && from in b.ledger && b.ledger[from].record == AccountRecord(source)
    requires !source.state.Uninitialized? && (source.isNative.None? ==> source.amount == 0)
    requires Load(b.ledger, to).lamports + b.ledger[from].lamports < U64_RANGE
    requires var credited := if from == to then b.ledger
                             else b.ledger[to := Load(b.ledger, to).(lamports := Load(b.ledger, to).lamports + b.ledger[from].lamports)];
             l' == credited[from := Cell(0, AccountRecord(source.(amount := 0)))]
    ensures Valid(b.(ledger := l', closed := b.closed + {from}))
  {
    MarkingClosedKeeps(b, from);
    EmptyAndCredit(b.(closed := b.closed + {from}), from, to, source);
  }

  lemma EmptyAndCredit(b: Bank, from: Pubkey, to: Pubkey, source: Account)
    requires Valid(b) && from in b.closed && from in b.ledger && b.ledger[from].record == AccountRecord(source)
    requires !source.state.Uninitialized? && (source.isNative.None? ==> source.amount == 0)
    requires Load(b.ledger, to).lamports + b.ledger[from].lamports < U64_RANGE
    ensures var l' := if from == to then b.ledger
                      else b.ledger[to := Load(b.ledger, to).(lamports := Load(b.ledger, to).lamports + b.ledger[from].lamports)];
            Valid(b.(ledger := l'[from := Cell(0, AccountRecord(source.(amount := 0)))]))
  {
    assert CellOk(b.ledger, b.ledger[from]);
    var empty := Cell(0, AccountRecord(source.(amount := 0)));
    if from == to {
      QuietPut(b, from, empty);
    } else {
      assert to in b.ledger ==> CellOk(b.ledger, b.ledger[to]);
      PairPut(b, to, Load(b.ledger, to).(lamports := Load(b.ledger, to).lamports + b.ledger[from].lamports), from, empty);
    }
  }

  lemma PurgeKeeps(b: Bank, k: Pubkey)
    requires Valid(b)
    ensures Valid(Next(b, Purge(k)))
  {
    var b' := Next(b, Purge(k));
    if k in b.ledger && b.ledger[k].lamports == 0 {
      assert CellOk(b.ledger, b.ledger[k]);
      forall k' | k' in b'.ledger
        ensures CellOk(b'.ledger, b'.ledger[k'])
      {
        assert CellOk(b.ledger, b.ledger[k']);
      }
      forall mint | mint != NATIVE_MINT
        ensures SupplyGap(b'.ledger, mint) == Lost(b', mint)
      {
        assert SupplyGap(b.ledger, mint) == Lost(b, mint);
        TotalRemove(b.ledger, mint, k);
      }
    }
  }

  lemma InvokeKeeps(b: Bank, accounts: seq<AccountMeta>, rent: Rent, i: TokenInstruction)
    requires Valid(b)
    ensures Valid(Next(b, Invoke(accounts, rent, i)))
  {
    var r := ProcessSpec(b.ledger, accounts, rent, i);
    if r.Ok? {
      match i
      case Transfer(amount) => TransferKeeps(b, accounts, amount, None);
      case TransferChecked(amount, decimals) => TransferKeeps(b, accounts, amount, Some(decimals));
      case MintTo(amount) => MintToKeeps(b, accounts, amount, None);
      case MintToChecked(amount, decimals) => MintToKeeps(b, accounts, amount, Some(decimals));
      case Burn(amount) => BurnKeeps(b, accounts, amount, None);
      case BurnChecked(amount, decimals) => BurnKeeps(b, accounts, amount, Some(decimals));
      case CloseAccount => CloseKeeps(b, accounts);
      case InitializeMint(decimals, mintAuthority, freezeAuthority) =>
        InitializeMintKeeps(b, accounts, rent, decimals, mintAuthority, freezeAuthority);
      case InitializeAccount => InitializeAccountKeeps(b, accounts, rent, None);
      case InitializeAccount2(owner) => InitializeAccountKeeps(b, accounts, rent, Some(owner));
      case InitializeMultisig(m) => InitializeMultisigKeeps(b, accounts, rent, m);
      case Approve(amount) => ApproveKeeps(b, accounts, amount, None);
      case ApproveChecked(amount, decimals) => ApproveKeeps(b, accounts, amount, Some(decimals));
      case Revoke => RevokeKeeps(b, accounts);
      case SetAuthority(t, newAuthority) => SetAuthorityKeeps(b, accounts, t, newAuthority);
      case FreezeAccount => ToggleFreezeKeeps(b, accounts, true);
      case ThawAccount => ToggleFreezeKeeps(b, accounts, false);
    }
  }

  lemma NextKeepsValid(b: Bank, e: Event)
    requires Valid(b)
    ensures Valid(Next(b, e))
  {
    match e
    case Invoke(accounts, rent, i) => InvokeKeeps(b, accounts, rent, i);
    case Create(k, c) =>
      if Next(b, e) != b {
        QuietPut(b, k, c);
      }
    case Outside(k, c) =>
      if OutsidePermitted(Load(b.ledger, k), c) {
        assert k in b.ledger ==> CellOk(b.ledger, b.ledger[k]);
        QuietPut(b, k, c);
      }
    case Purge(k) => PurgeKeeps(b, k);
  }

  lemma {:induction false} RunKeepsValid(b: Bank, events: seq<Event>)
    requires Valid(b)
    ensures Valid(Run(b, events))
  {
    if events != [] {
      RunKeepsValid(b, events[..|events| - 1]);
      NextKeepsValid(Run(b, events[..|events| - 1]), events[|events| - 1]);
    }
  }

  // ---------- what holds on every run ----------

  lemma EmptyBankValid()
    ensures Valid(EMPTY_BANK)
  {
  }

  lemma {:induction false} NothingLostWithoutPurge(b: Bank, events: seq<Event>, mint: Pubkey)
    requires forall i | 0 <= i < |events| :: !events[i].Purge?
    ensures Lost(Run(b, events), mint) == Lost(b, mint)
  {
    if events != [] {
      NothingLostWithoutPurge(b, events[..|events| - 1], mint);
    }
  }

  /** Conservation: on every run, a non-native mint's supply is the sum of its accounts' tokens plus
      what was purged; on a run without purges it is exactly that sum. */
  lemma SupplyIsConserved(events: seq<Event>, mint: Pubkey)
    requires mint != NATIVE_MINT
    ensures var b := Run(EMPTY_BANK, events);
            && Supply(b.ledger, mint) == Total(b.ledger, mint) + Lost(b, mint)
            && ((forall i | 0 <= i < |events| :: !events[i].Purge?) ==> Supply(b.ledger, mint) == Total(b.ledger, mint))
  {
    var b := Run(EMPTY_BANK, events);
    EmptyBankValid();
    RunKeepsValid(EMPTY_BANK, events);
    assert SupplyGap(b.ledger, mint) == Lost(b, mint);
    if forall i | 0 <= i < |events| :: !events[i].Purge? {
      NothingLostWithoutPurge(EMPTY_BANK, events, mint);
    }
  }

  /** No account of a non-native mint holds more than the supply, nor do two accounts together. */
  lemma HoldingsWithinSupply(b: Bank, k: Pubkey, k': Pubkey)
    requires Valid(b) && k in b.ledger && k' in b.ledger && IsAccount(b.ledger[k]) && IsAccount(b.ledger[k'])
    requires b.ledger[k].record.account.mint == b.ledger[k'].record.account.mint != NATIVE_MINT
    ensures var mint := b.ledger[k].record.account.mint;
            var sum := if k == k' then b.ledger[k].record.account.amount
                       else b.ledger[k].record.account.amount + b.ledger[k'].record.account.amount;
            IsMint(Load(b.ledger, mint)) && sum <= Supply(b.ledger, mint)
  {
    var mint := b.ledger[k].record.account.mint;
    assert CellOk(b.ledger, b.ledger[k]);
    assert SupplyGap(b.ledger, mint) == Lost(b, mint);
    HoldingsBound(b.ledger, mint, k, k');
  }

  /** The overflow exit of a burn's supply debit is unreachable. */
  lemma BurnNeverOverflows(b: Bank, accounts: seq<AccountMeta>, amount: u64, decimals: Option<u8>)
    requires Valid(b)
    ensures BurnSpec(b.ledger, accounts, amount, decimals) != Err(Token(Overflow))
  {
    if accounts != [] && IsAccount(Load(b.ledger, accounts[0].key)) {
      var from := accounts[0].key;
      assert CellOk(b.ledger, b.ledger[from]);
      if b.ledger[from].record.account.isNative.None? {
        HoldingsWithinSupply(b, from, from);
      }
    }
  }

  /** The overflow exit of a non-native transfer's credit is unreachable. */
  lemma TransferNeverOverflows(b: Bank, accounts: seq<AccountMeta>, amount: u64, decimals: Option<u8>)
    requires Valid(b) && accounts != [] && IsAccount(Load(b.ledger, accounts[0].key))
    requires Load(b.ledger, accounts[0].key).record.account.isNative.None?
    ensures TransferSpec(b.ledger, accounts, amount, decimals) != Err(Token(Overflow))
  {
    var (from, skip) := (accounts[0].key, if decimals.Some? then 1 else 0);
    if |accounts| > 1 + skip && amount <= b.ledger[from].record.account.amount {
      CreditFits(b, from, accounts[1 + skip].key, amount);
    }
  }

  lemma CreditFits(b: Bank, from: Pubkey, to: Pubkey, amount: u64)
    requires Valid(b) && from in b.ledger && IsAccount(b.ledger[from])
    requires b.ledger[from].record.account.isNative.None? && amount <= b.ledger[from].record.account.amount
    ensures to in b.ledger && IsAccount(b.ledger[to]) && to != from
            && b.ledger[to].record.account.mint == b.ledger[from].record.account.mint
            ==> b.ledger[to].record.account.amount + amount < U64_RANGE
  {
    assert CellOk(b.ledger, b.ledger[from]);
    if to in b.ledger && IsAccount(b.ledger[to])
       && b.ledger[to].record.account.mint == b.ledger[from].record.account.mint {
      HoldingsWithinSupply(b, from, to);
    }
  }
}
