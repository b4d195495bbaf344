/** Machine integers, keys and the error type shared by the two programs. */
module Basics {

  const U64_RANGE: int := 0x1_0000_0000_0000_0000
  const U128_RANGE: int := 0x1_0000_0000_0000_0000_0000_0000_0000_0000

  type u8 = x: int | 0 <= x < 0x100
  type u64 = x: int | 0 <= x < 0x1_0000_0000_0000_0000
  type u128 = x: int | 0 <= x < 0x1_0000_0000_0000_0000_0000_0000_0000_0000

  type KeyBytes = b: seq<u8> | |b| == 32 witness seq(32, _ => 0)

  datatype Pubkey = Pubkey(bytes: KeyBytes)

  const ZERO_KEY := Pubkey([0, 0, 0, 0, 0, 0, 0, 0, 0, 0, 0, 0, 0, 0, 0, 0, 0, 0, 0, 0, 0, 0, 0, 0, 0, 0, 0, 0, 0, 0, 0, 0])

  /** Unchecked `+=` on a u64: the release build wraps. */
  function WrapAdd(a: u64, b: u64): (r: u64) {
    if a + b < U64_RANGE then a + b else a + b - U64_RANGE
  }

  /** Unchecked `-=` on a u64: the release build wraps. */
  function WrapSub(a: u64, b: u64): (r: u64) {
    if b <= a then a - b else a - b + U64_RANGE
  }

  /** What wrapping means. */
  lemma WrapsModulo(a: u64, b: u64)
    ensures WrapAdd(a, b) == (a + b) % 0x1_0000_0000_0000_0000
    ensures WrapSub(a, b) == (a - b) % 0x1_0000_0000_0000_0000
  {
  }

  function Min(a: nat, b: nat): nat {
    if a <= b then a else b
  }

  datatype Option<+T> = None | Some(value: T)

  /** Errors of the SPL token program (token/program/src/error.rs). */
  datatype TokenError =
    | NotRentExempt
    | InsufficientFunds
    | InvalidMint
    | MintMismatch
    | OwnerMismatch
    | FixedSupply
    | TokenAlreadyInUse
    | InvalidNumberOfProvidedSigners
    | InvalidNumberOfRequiredSigners
    | NativeNotSupported
    | NonNativeHasBalance
    | InvalidInstruction
    | InvalidTokenState
    | Overflow
    | AuthorityTypeNotSupported
    | MintCannotFreeze
    | AccountFrozen
    | MintDecimalsMismatch

  /** Errors of the stake-pool program (program/src/error.rs). */
  datatype StakePoolError =
    | PoolAlreadyInUse
    | InvalidState
    | CalculationFailure
    | FeeTooHigh
    | WrongAccountMint
    | WrongOwner
    | SignatureMissing
    | InvalidFeeAccount
    | WrongPoolMint
    | WrongStakeState
    | ValidatorAlreadyAdded
    | ValidatorNotFound
    | InvalidStakeAccountAddress
    | StakeListOutOfDate
    | StakeListAndPoolOutOfDate
    | WrongMintingAuthority
    | AccountNotRentExempt
    | IncorrectTokenProgramId
    | ExpectedMint
    | ExpectedAccount
    | ZeroAmount
    | NotEnoughTokensInThePool

  /** How an instruction can fail. `Panicked` is a Rust panic; `StakeProgramRejected` is an
      error returned by the stake program, whose own checks are not modelled. */
  datatype ProgramError =
    | InvalidAccountData
    | UninitializedAccount
    | MissingRequiredSignature
    | InvalidArgument
    | NotEnoughAccountKeys
    | IncorrectProgramId
    | Token(token: TokenError)
    | Pool(pool: StakePoolError)
    | StakeProgramRejected
    | Panicked

  datatype Result<+T> = Ok(value: T) | Err(error: ProgramError) {
    predicate IsFailure() {
      Err?
    }

    function PropagateFailure<U>(): Result<U>
      requires Err?
    {
      Err(error)
    }

    function Extract(): T
      requires Ok?
    {
      value
    }
  }

  /** What a handler returns. */
  type ProgramResult = Result<()>

  /** The outcome of a check: an error fails the function or handler that makes it. */
  datatype Outcome = Pass | Fail(error: ProgramError) {
    predicate IsFailure() {
      Fail?
    }

    function PropagateFailure<U>(): Result<U>
      requires Fail?
    {
      Err(error)
    }
  }

  function Need(condition: bool, error: ProgramError): Outcome {
    if condition then Pass else Fail(error)
  }

  /** A sum or difference that is an error where it leaves 64 bits. */
  function CheckedAdd(a: u64, b: u64): Result<u64> {
    if a + b < U64_RANGE then Ok(a + b) else Err(Token(Overflow))
  }

  function CheckedSub(a: u64, b: u64): Result<u64> {
    if b <= a then Ok(a - b) else Err(Token(Overflow))
  }
}
