/** Token program records and the accounts they live in (token/program/src/state.rs). */
module TokenState {
  import opened Basics

  const MIN_SIGNERS: nat := 1
  const MAX_SIGNERS: nat := 11

  /** The key of the wrapped-SOL mint (token/program/src/native_mint.rs). */
  const NATIVE_MINT := Pubkey([6, 155, 136, 87, 254, 171, 129, 132, 251, 104, 127, 99, 70, 24, 192, 53,
                               218, 196, 57, 220, 26, 235, 59, 85, 152, 160, 240, 0, 0, 0, 0, 1])

  datatype Mint = Mint(
    mintAuthority: Option<Pubkey>,
    supply: u64,
    decimals: u8,
    isInitialized: bool,
    freezeAuthority: Option<Pubkey>)

  datatype AccountState = Uninitialized | Initialized | Frozen

  datatype Account = Account(
    mint: Pubkey,
    owner: Pubkey,
    amount: u64,
    delegate: Option<Pubkey>,
    state: AccountState,
    isNative: Option<u64>,
    delegatedAmount: u64,
    closeAuthority: Option<Pubkey>)

  type SignerKeys = s: seq<Pubkey> | |s| == 11 witness seq(11, _ => ZERO_KEY)

  datatype Multisig = Multisig(m: u8, n: u8, isInitialized: bool, signers: SignerKeys)

  const ZERO_MINT := Mint(None, 0, 0, false, None)
  const ZERO_ACCOUNT := Account(ZERO_KEY, ZERO_KEY, 0, None, Uninitialized, None, 0, None)
  const ZERO_MULTISIG := Multisig(0, 0, false,
    [ZERO_KEY, ZERO_KEY, ZERO_KEY, ZERO_KEY, ZERO_KEY, ZERO_KEY, ZERO_KEY, ZERO_KEY, ZERO_KEY, ZERO_KEY, ZERO_KEY])

  /** What an on-chain account holds. The token program's own accounts are told apart by their
      length (82, 165 or 355 bytes). A stake account records the validator it is delegated to, if
      any, and whether its address is the program address derived from that validator and the pool. */
  datatype Record =
    | MintRecord(mint: Mint)
    | AccountRecord(account: Account)
    | MultisigRecord(multisig: Multisig)
    | StakeRecord(voter: Option<Pubkey>, derived: bool)
    | Foreign

  predicate TokenOwned(r: Record) {
    r.MintRecord? || r.AccountRecord? || r.MultisigRecord?
  }

  datatype Cell = Cell(lamports: u64, record: Record)

  type Ledger = map<Pubkey, Cell>

  /** An account that was never created reads as an empty foreign account. */
  function Load(l: Ledger, key: Pubkey): Cell {
    if key in l then l[key] else Cell(0, Foreign)
  }

  /** An account as an instruction lists it. */
  datatype AccountMeta = AccountMeta(key: Pubkey, isSigner: bool)

  /** The rent sysvar: the minimum balance of each record length. */
  datatype RentRates = RentRates(mint: u64, account: u64, multisig: u64)
  type Rent = r: RentRates | 0 < r.mint && 0 < r.account && 0 < r.multisig
    witness RentRates(1, 1, 1)

  /** The record of an initialized token account. */
  function UnpackAccount(c: Cell): Result<Account> {
    if !c.record.AccountRecord? then Err(InvalidAccountData)
    else if c.record.account.state.Uninitialized? then Err(UninitializedAccount)
    else Ok(c.record.account)
  }

  /** The record of an initialized mint. */
  function UnpackMint(c: Cell): Result<Mint> {
    if !c.record.MintRecord? then Err(InvalidAccountData)
    else if !c.record.mint.isInitialized then Err(UninitializedAccount)
    else Ok(c.record.mint)
  }

  /** The key, or another one in its absence. */
  function UnwrapOr(o: Option<Pubkey>, default: Pubkey): Pubkey {
    if o.Some? then o.value else default
  }
}
