/** Token instructions and their wire format (token/program/src/instruction.rs). */
module TokenInstructions {
  import opened Basics
  import opened Bytes

  datatype AuthorityType = MintTokens | FreezeAccounts | AccountOwner | CloseAccounts

  datatype TokenInstruction =
    | InitializeMint(decimals: u8, mintAuthority: Pubkey, freezeAuthority: Option<Pubkey>)
    | InitializeAccount
    | InitializeMultisig(m: u8)
    | Transfer(amount: u64)
    | Approve(amount: u64)
    | Revoke
    | SetAuthority(authorityType: AuthorityType, newAuthority: Option<Pubkey>)
    | MintTo(amount: u64)
    | Burn(amount: u64)
    | CloseAccount
    | FreezeAccount
    | ThawAccount
    | TransferChecked(amount: u64, decimals: u8)
    | ApproveChecked(amount: u64, decimals: u8)
    | MintToChecked(amount: u64, decimals: u8)
    | BurnChecked(amount: u64, decimals: u8)
    | InitializeAccount2(owner: Pubkey)

  // ---------- unpack ----------

  /** A value and the bytes after it. */
  type Parsed<T> = Result<(T, seq<u8>)>

  function SplitFirst(input: seq<u8>): Parsed<u8> {
    if input == [] then Err(Token(InvalidInstruction)) else Ok((input[0], input[1..]))
  }

  function UnpackPubkey(input: seq<u8>): Parsed<Pubkey> {
    if |input| >= 32 then Ok((Pubkey(input[..32]), input[32..])) else Err(Token(InvalidInstruction))
  }

  function UnpackPubkeyOption(input: seq<u8>): Parsed<Option<Pubkey>> {
    if input != [] && input[0] == 0 then Ok((None, input[1..]))
    else if input != [] && input[0] == 1 && |input[1..]| >= 32 then
      Ok((Some(Pubkey(input[1..33])), input[33..]))
    else Err(Token(InvalidInstruction))
  }

  /** The amount in the first eight bytes, if there are as many. */
  function UnpackAmount(rest: seq<u8>): Result<u64> {
    if |rest| >= 8 then Ok(U64At(rest[..8])) else Err(Token(InvalidInstruction))
  }

  /** An amount and one more byte. Splitting off the amount panics when it is not there. */
  function UnpackAmountAndDecimals(rest: seq<u8>): Result<(u64, u8)> {
    if |rest| < 8 then Err(Panicked)
    else if |rest| == 8 then Err(Token(InvalidInstruction))
    else Ok((U64At(rest[..8]), rest[8]))
  }

  function AuthorityTypeFrom(index: u8): Result<AuthorityType> {
    match index
    case 0 => Ok(MintTokens)
    case 1 => Ok(FreezeAccounts)
    case 2 => Ok(AccountOwner)
    case 3 => Ok(CloseAccounts)
    case _ => Err(Token(InvalidInstruction))
  }

  function Unpack(input: seq<u8>): Result<TokenInstruction> {
    var (tag, rest) :- SplitFirst(input);
    match tag
    case 0 =>
      var (decimals, rest) :- SplitFirst(rest);
      var (mintAuthority, rest) :- UnpackPubkey(rest);
      var (freezeAuthority, _) :- UnpackPubkeyOption(rest);
      Ok(InitializeMint(decimals, mintAuthority, freezeAuthority))
    case 1 => Ok(InitializeAccount)
    case 2 => var (m, _) :- SplitFirst(rest); Ok(InitializeMultisig(m))
    case 3 => var amount :- UnpackAmount(rest); Ok(Transfer(amount))
    case 4 => var amount :- UnpackAmount(rest); Ok(Approve(amount))
    case 5 => Ok(Revoke)
    case 6 =>
      var (t, rest) :- SplitFirst(rest);
      var authorityType :- AuthorityTypeFrom(t);
      var (newAuthority, _) :- UnpackPubkeyOption(rest);
      Ok(SetAuthority(authorityType, newAuthority))
    case 7 => var amount :- UnpackAmount(rest); Ok(MintTo(amount))
    case 8 => var amount :- UnpackAmount(rest); Ok(Burn(amount))
    case 9 => Ok(CloseAccount)
    case 10 => Ok(FreezeAccount)
    case 11 => Ok(ThawAccount)
    case 12 => var (amount, decimals) :- UnpackAmountAndDecimals(rest); Ok(TransferChecked(amount, decimals))
    case 13 => var (amount, decimals) :- UnpackAmountAndDecimals(rest); Ok(ApproveChecked(amount, decimals))
    case 14 => var (amount, decimals) :- UnpackAmountAndDecimals(rest); Ok(MintToChecked(amount, decimals))
    case 15 => var (amount, decimals) :- UnpackAmountAndDecimals(rest); Ok(BurnChecked(amount, decimals))
    case 16 => var (owner, _) :- UnpackPubkey(rest); Ok(InitializeAccount2(owner))
    case _ => Err(Token(InvalidInstruction))
  }

  // ---------- pack ----------

  function AuthorityTypeInto(t: AuthorityType): u8 {
    match t
    case MintTokens => 0
    case FreezeAccounts => 1
    case AccountOwner => 2
    case CloseAccounts => 3
  }

  function PubkeyOptionBytes(value: Option<Pubkey>): seq<u8> {
    if value.Some? then [1] + value.value.bytes else [0]
  }

  /** The bytes of an instruction: its tag, then its fields in order. */
  function PackedBytes(i: TokenInstruction): seq<u8> {
    match i
    case InitializeMint(decimals, mintAuthority, freezeAuthority) =>
      [0] + [decimals] + mintAuthority.bytes + PubkeyOptionBytes(freezeAuthority)
    case InitializeAccount => [1]
    case InitializeMultisig(m) => [2] + [m]
    case Transfer(amount) => [3] + U64Bytes(amount)
    case Approve(amount) => [4] + U64Bytes(amount)
    case Revoke => [5]
    case SetAuthority(authorityType, newAuthority) =>
      [6] + [AuthorityTypeInto(authorityType)] + PubkeyOptionBytes(newAuthority)
    case MintTo(amount) => [7] + U64Bytes(amount)
    case Burn(amount) => [8] + U64Bytes(amount)
    case CloseAccount => [9]
    case FreezeAccount => [10]
    case ThawAccount => [11]
    case TransferChecked(amount, decimals) => [12] + U64Bytes(amount) + [decimals]
    case ApproveChecked(amount, decimals) => [13] + U64Bytes(amount) + [decimals]
    case MintToChecked(amount, decimals) => [14] + U64Bytes(amount) + [decimals]
    case BurnChecked(amount, decimals) => [15] + U64Bytes(amount) + [decimals]
    case InitializeAccount2(owner) => [16] + owner.bytes
  }

  method PackPubkeyOption(value: Option<Pubkey>, buf: seq<u8>) returns (out: seq<u8>)
    ensures out == buf + PubkeyOptionBytes(value)
  {
    out := buf;
    match value
    case Some(key) =>
      out := out + [1];
      out := out + key.bytes;
    case None =>
      out := out + [0];
  }

  method Pack(i: TokenInstruction) returns (buf: seq<u8>)
    ensures buf == PackedBytes(i)
  {
    match i
    case InitializeMint(decimals, mintAuthority, freezeAuthority) =>
      buf := [0];
      buf := buf + [decimals];
      buf := buf + mintAuthority.bytes;
      buf := PackPubkeyOption(freezeAuthority, buf);
    case InitializeAccount => buf := [1];
    case InitializeMultisig(m) =>
      buf := [2];
      buf := buf + [m];
    case Transfer(amount) =>
      buf := [3];
      buf := buf + U64Bytes(amount);
    case Approve(amount) =>
      buf := [4];
      buf := buf + U64Bytes(amount);
    case MintTo(amount) =>
      buf := [7];
      buf := buf + U64Bytes(amount);
    case Burn(amount) =>
      buf := [8];
      buf := buf + U64Bytes(amount);
    case Revoke => buf := [5];
    case SetAuthority(authorityType, newAuthority) =>
      buf := [6];
      buf := buf + [AuthorityTypeInto(authorityType)];
      buf := PackPubkeyOption(newAuthority, buf);
    case CloseAccount => buf := [9];
    case FreezeAccount => buf := [10];
    case ThawAccount => buf := [11];
    case TransferChecked(amount, decimals) =>
      buf := [12];
      buf := buf + U64Bytes(amount);
      buf := buf + [decimals];
    case ApproveChecked(amount, decimals) =>
      buf := [13];
      buf := buf + U64Bytes(amount);
      buf := buf + [decimals];
    case MintToChecked(amount, decimals) =>
      buf := [14];
      buf := buf + U64Bytes(amount);
      buf := buf + [decimals];
    case BurnChecked(amount, decimals) =>
      buf := [15];
      buf := buf + U64Bytes(amount);
      buf := buf + [decimals];
    case InitializeAccount2(owner) =>
      buf := [16];
      buf := buf + owner.bytes;
  }

  // ---------- where each field sits ----------

  predicate KeyOptionAt(b: seq<u8>, at: nat, value: Option<Pubkey>)
    requires at < |b|
  {
    if value.Some? then b[at] == 1 && |b| == at + 33 && b[at + 1..] == value.value.bytes else b[at] == 0 && |b| == at + 1
  }

  predicate AmountAt(b: seq<u8>, tag: u8, amount: u64) {
    |b| == 9 && b[0] == tag && U64At(b[1..]) == amount
  }

  predicate CheckedAmountAt(b: seq<u8>, tag: u8, amount: u64, decimals: u8) {
    |b| == 10 && b[0] == tag && U64At(b[1..9]) == amount && b[9] == decimals
  }

  /** The wire format of amounts: the tag, the amount, and for checked instructions the decimals. */
  lemma AmountFormat(i: TokenInstruction)
    ensures var b := PackedBytes(i);
            match i
            case Transfer(amount) => AmountAt(b, 3, amount)
            case Approve(amount) => AmountAt(b, 4, amount)
            case MintTo(amount) => AmountAt(b, 7, amount)
            case Burn(amount) => AmountAt(b, 8, amount)
            case TransferChecked(amount, decimals) => CheckedAmountAt(b, 12, amount, decimals)
            case ApproveChecked(amount, decimals) => CheckedAmountAt(b, 13, amount, decimals)
            case MintToChecked(amount, decimals) => CheckedAmountAt(b, 14, amount, decimals)
            case BurnChecked(amount, decimals) => CheckedAmountAt(b, 15, amount, decimals)
            case _ => true
  {
    match i
    case Transfer(amount) => UncheckedForm(3, amount);
    case Approve(amount) => UncheckedForm(4, amount);
    case MintTo(amount) => UncheckedForm(7, amount);
    case Burn(amount) => UncheckedForm(8, amount);
    case TransferChecked(amount, decimals) => CheckedForm(12, amount, decimals);
    case ApproveChecked(amount, decimals) => CheckedForm(13, amount, decimals);
    case MintToChecked(amount, decimals) => CheckedForm(14, amount, decimals);
    case BurnChecked(amount, decimals) => CheckedForm(15, amount, decimals);
    case _ =>
  }

  /** The wire format of the other instructions: the tag, single bytes, then keys. */
  lemma KeyFormat(i: TokenInstruction)
    ensures var b := PackedBytes(i);
            match i
            case InitializeMint(decimals, mintAuthority, freezeAuthority) =>
              |b| > 34 && b[0] == 0 && b[1] == decimals && b[2..34] == mintAuthority.bytes && KeyOptionAt(b, 34, freezeAuthority)
            case InitializeAccount => b == [1]
            case InitializeMultisig(m) => b == [2, m]
            case Revoke => b == [5]
            case SetAuthority(t, newAuthority) =>
              && |b| > 2 && b[0] == 6 && KeyOptionAt(b, 2, newAuthority)
              && b[1] == (if t == MintTokens then 0 else if t == FreezeAccounts then 1 else if t == AccountOwner then 2 else 3)
            case CloseAccount => b == [9]
            case FreezeAccount => b == [10]
            case ThawAccount => b == [11]
            case InitializeAccount2(owner) => |b| == 33 && b[0] == 16 && b[1..] == owner.bytes
            case _ => true
  {
    match i
    case InitializeMint(decimals, mintAuthority, freezeAuthority) =>
      KeyOptionForm([0] + [decimals] + mintAuthority.bytes, freezeAuthority);
    case SetAuthority(t, newAuthority) => KeyOptionForm([6] + [AuthorityTypeInto(t)], newAuthority);
    case _ =>
  }

  lemma KeyOptionForm(head: seq<u8>, value: Option<Pubkey>)
    ensures var b := head + PubkeyOptionBytes(value);
            KeyOptionAt(b, |head|, value) && b[..|head|] == head
  {
    if value.Some? {
      assert (head + PubkeyOptionBytes(value))[|head| + 1..] == value.value.bytes;
    }
  }

  lemma UncheckedForm(tag: u8, amount: u64)
    ensures AmountAt([tag] + U64Bytes(amount), tag, amount)
  {
    assert ([tag] + U64Bytes(amount))[1..] == U64Bytes(amount);
  }

  lemma CheckedForm(tag: u8, amount: u64, decimals: u8)
    ensures CheckedAmountAt([tag] + U64Bytes(amount) + [decimals], tag, amount, decimals)
  {
    assert ([tag] + U64Bytes(amount) + [decimals])[1..9] == U64Bytes(amount);
  }

  // ---------- the codec is exact ----------

  lemma AmountCodec(rest: seq<u8>, amount: u64)
    ensures UnpackAmount(rest) == Ok(amount) <==> U64Bytes(amount) <= rest
  {
    if |rest| >= 8 {
      U64BytesOfU64At(rest[..8]);
      assert U64Bytes(amount) <= rest <==> U64Bytes(amount) == rest[..8];
    }
  }

  lemma AmountAndDecimalsCodec(rest: seq<u8>, amount: u64, decimals: u8)
    ensures UnpackAmountAndDecimals(rest) == Ok((amount, decimals)) <==> U64Bytes(amount) + [decimals] <= rest
  {
    var packed := U64Bytes(amount) + [decimals];
    if |rest| > 8 {
      U64BytesOfU64At(rest[..8]);
      assert rest[..9] == rest[..8] + [rest[8]];
      if packed <= rest {
        assert packed[..8] == rest[..8] && packed[8] == rest[8];
      }
    }
  }

  lemma PubkeyOptionCodec(rest: seq<u8>, value: Option<Pubkey>)
    ensures (UnpackPubkeyOption(rest).Ok? && UnpackPubkeyOption(rest).value.0 == value) <==> PubkeyOptionBytes(value) <= rest
  {
    if |rest| >= 33 {
      assert rest[..33] == [rest[0]] + rest[1..33];
    }
    if value.Some? && PubkeyOptionBytes(value) <= rest {
      assert PubkeyOptionBytes(value)[1..] == value.value.bytes == rest[1..33];
    }
  }

  lemma PubkeyCodec(rest: seq<u8>, key: Pubkey)
    ensures (UnpackPubkey(rest).Ok? && UnpackPubkey(rest).value.0 == key) <==> key.bytes <= rest
  {
  }

  /** A prefix test splits after any known head. */
  lemma PrefixAfter(head: seq<u8>, tail: seq<u8>, input: seq<u8>)
    ensures head + tail <= input <==> head <= input && tail <= input[|head|..]
  {
    if head <= input {
      assert input == head + input[|head|..];
    }
    if head + tail <= input {
      assert (head + tail)[..|head|] == head == input[..|head|];
      assert (head + tail)[|head|..] == tail;
    }
  }

  /** Every byte string that unpacks to an instruction begins with that instruction's packed form,
      and only those do: unpacking inverts packing, ignores what follows, and accepts nothing else. */
  lemma UnpackIsInverseOfPack(input: seq<u8>, i: TokenInstruction)
    ensures Unpack(input) == Ok(i) <==> PackedBytes(i) <= input
  {
    if input != [] {
      match i
      case InitializeMint(_, _, _) => InitializeMintCodec(input, i);
      case SetAuthority(_, _) => SetAuthorityCodec(input, i);
      case TransferChecked(amount, decimals) => CheckedCodec(input, 12, amount, decimals);
      case ApproveChecked(amount, decimals) => CheckedCodec(input, 13, amount, decimals);
      case MintToChecked(amount, decimals) => CheckedCodec(input, 14, amount, decimals);
      case BurnChecked(amount, decimals) => CheckedCodec(input, 15, amount, decimals);
      case Transfer(amount) => UncheckedCodec(input, 3, amount);
      case Approve(amount) => UncheckedCodec(input, 4, amount);
      case MintTo(amount) => UncheckedCodec(input, 7, amount);
      case Burn(amount) => UncheckedCodec(input, 8, amount);
      case _ => ShortCodec(input, i);
    }
  }

  lemma ShortCodec(input: seq<u8>, i: TokenInstruction)
    requires input != []
    requires i.InitializeAccount? || i.InitializeMultisig? || i.Revoke? || i.CloseAccount? || i.FreezeAccount?
             || i.ThawAccount? || i.InitializeAccount2?
    ensures Unpack(input) == Ok(i) <==> PackedBytes(i) <= input
  {
    if i.InitializeMultisig? {
      PrefixAfter([2], [i.m], input);
    } else if i.InitializeAccount2? {
      PrefixAfter([16], i.owner.bytes, input);
      PubkeyCodec(input[1..], i.owner);
    }
  }

  lemma UncheckedCodec(input: seq<u8>, tag: u8, amount: u64)
    requires input != []
    ensures (input[0] == tag && UnpackAmount(input[1..]) == Ok(amount)) <==> [tag] + U64Bytes(amount) <= input
  {
    PrefixAfter([tag], U64Bytes(amount), input);
    AmountCodec(input[1..], amount);
  }

  lemma CheckedCodec(input: seq<u8>, tag: u8, amount: u64, decimals: u8)
    requires input != []
    ensures (input[0] == tag && UnpackAmountAndDecimals(input[1..]) == Ok((amount, decimals)))
       <==> [tag] + U64Bytes(amount) + [decimals] <= input
  {
    assert [tag] + U64Bytes(amount) + [decimals] == [tag] + (U64Bytes(amount) + [decimals]);
    PrefixAfter([tag], U64Bytes(amount) + [decimals], input);
    AmountAndDecimalsCodec(input[1..], amount, decimals);
  }

  lemma SetAuthorityCodec(input: seq<u8>, i: TokenInstruction)
    requires input != [] && i.SetAuthority?
    ensures Unpack(input) == Ok(i) <==> PackedBytes(i) <= input
  {
    var head := [6] + [AuthorityTypeInto(i.authorityType)];
    PrefixAfter(head, PubkeyOptionBytes(i.newAuthority), input);
    if |input| >= 2 {
      assert input[1..][1..] == input[2..];
      PubkeyOptionCodec(input[2..], i.newAuthority);
    }
  }

  lemma InitializeMintCodec(input: seq<u8>, i: TokenInstruction)
    requires input != [] && i.InitializeMint?
    ensures Unpack(input) == Ok(i) <==> PackedBytes(i) <= input
  {
    var head := [0] + [i.decimals];
    PrefixAfter(head + i.mintAuthority.bytes, PubkeyOptionBytes(i.freezeAuthority), input);
    PrefixAfter(head, i.mintAuthority.bytes, input);
    if |input| >= 34 {
      assert input[1..][1..] == input[2..] && input[2..][32..] == input[34..];
      PubkeyCodec(input[2..], i.mintAuthority);
      PubkeyOptionCodec(input[34..], i.freezeAuthority);
    }
  }
}
