/** Byte layout of token program records (token/program/src/state.rs). A record is packed into
    a buffer that may hold anything; `None` options leave their body bytes as they were. */
module TokenCodec {
  import opened Basics
  import opened Bytes
  import opened TokenState

  const MINT_LEN: nat := 82
  const ACCOUNT_LEN: nat := 165
  const MULTISIG_LEN: nat := 355

  // ---------- fields ----------

  /** `None` writes the tag only. */
  function OptionKeyBytes(o: Option<Pubkey>, before: seq<u8>): (b: seq<u8>)
    requires |before| == 36
    ensures |b| == 36
  {
    match o
    case Some(key) => [1, 0, 0, 0] + key.bytes
    case None => [0, 0, 0, 0] + before[4..]
  }

  function OptionKeyAt(b: seq<u8>): Result<Option<Pubkey>>
    requires |b| == 36
  {
    if b[..4] == [0, 0, 0, 0] then Ok(None)
    else if b[..4] == [1, 0, 0, 0] then Ok(Some(Pubkey(b[4..])))
    else Err(InvalidAccountData)
  }

  function OptionU64Bytes(o: Option<u64>, before: seq<u8>): (b: seq<u8>)
    requires |before| == 12
    ensures |b| == 12
  {
    match o
    case Some(x) => [1, 0, 0, 0] + U64Bytes(x)
    case None => [0, 0, 0, 0] + before[4..]
  }

  function OptionU64At(b: seq<u8>): Result<Option<u64>>
    requires |b| == 12
  {
    if b[..4] == [0, 0, 0, 0] then Ok(None)
    else if b[..4] == [1, 0, 0, 0] then Ok(Some(U64At(b[4..])))
    else Err(InvalidAccountData)
  }

  function BoolByte(b: bool): u8 {
    if b then 1 else 0
  }

  function BoolAt(b: u8): Result<bool> {
    if b == 0 then Ok(false) else if b == 1 then Ok(true) else Err(InvalidAccountData)
  }

  function StateByte(s: AccountState): u8 {
    match s case Uninitialized => 0 case Initialized => 1 case Frozen => 2
  }

  function StateAt(b: u8): Result<AccountState> {
    match b
    case 0 => Ok(Uninitialized)
    case 1 => Ok(Initialized)
    case 2 => Ok(Frozen)
    case _ => Err(InvalidAccountData)
  }

  lemma OptionKeyCodec(o: Option<Pubkey>, b: seq<u8>)
    requires |b| == 36
    ensures OptionKeyAt(OptionKeyBytes(o, b)) == Ok(o)
    ensures OptionKeyAt(b) == Ok(o) ==> OptionKeyBytes(o, b) == b
  {
    var packed := OptionKeyBytes(o, b);
    if o.Some? {
      assert packed[..4] == [1, 0, 0, 0] && packed[4..] == o.value.bytes;
    } else {
      assert packed[..4] == [0, 0, 0, 0];
    }
    assert b == b[..4] + b[4..];
  }

  lemma OptionU64Codec(o: Option<u64>, b: seq<u8>)
    requires |b| == 12
    ensures OptionU64At(OptionU64Bytes(o, b)) == Ok(o)
    ensures OptionU64At(b) == Ok(o) ==> OptionU64Bytes(o, b) == b
  {
    var packed := OptionU64Bytes(o, b);
    if o.Some? {
      assert packed[..4] == [1, 0, 0, 0] && packed[4..] == U64Bytes(o.value);
    } else {
      assert packed[..4] == [0, 0, 0, 0];
    }
    assert b == b[..4] + b[4..];
    U64BytesOfU64At(b[4..]);
  }

  // ---------- records ----------

  /** Supply, decimals and the initialized flag, between a mint's two options. */
  function MintMiddle(m: Mint): (b: seq<u8>)
    ensures |b| == 10
  {
    U64Bytes(m.supply) + [m.decimals] + [BoolByte(m.isInitialized)]
  }

  function MintBytes(m: Mint, before: seq<u8>): (b: seq<u8>)
    requires |before| == MINT_LEN
    ensures |b| == MINT_LEN
  {
    OptionKeyBytes(m.mintAuthority, before[..36]) + MintMiddle(m) + OptionKeyBytes(m.freezeAuthority, before[46..])
  }

  function MintAt(b: seq<u8>): Result<Mint>
    requires |b| == MINT_LEN
  {
    var mintAuthority :- OptionKeyAt(b[..36]);
    var isInitialized :- BoolAt(b[45]);
    var freezeAuthority :- OptionKeyAt(b[46..]);
    Ok(Mint(mintAuthority, U64At(b[36..44]), b[44], isInitialized, freezeAuthority))
  }

  // An account is 108 bytes up to the delegate and 57 bytes from the state on.

  function AccountHead(a: Account, before: seq<u8>): (b: seq<u8>)
    requires |before| == 108
    ensures |b| == 108
  {
    a.mint.bytes + a.owner.bytes + U64Bytes(a.amount) + OptionKeyBytes(a.delegate, before[72..])
  }

  function AccountTail(a: Account, before: seq<u8>): (b: seq<u8>)
    requires |before| == 57
    ensures |b| == 57
  {
    [StateByte(a.state)] + OptionU64Bytes(a.isNative, before[1..13]) + U64Bytes(a.delegatedAmount)
    + OptionKeyBytes(a.closeAuthority, before[21..])
  }

  function AccountBytes(a: Account, before: seq<u8>): (b: seq<u8>)
    requires |before| == ACCOUNT_LEN
    ensures |b| == ACCOUNT_LEN
  {
    AccountHead(a, before[..108]) + AccountTail(a, before[108..])
  }

  function AccountAt(b: seq<u8>): Result<Account>
    requires |b| == ACCOUNT_LEN
  {
    AccountOf(b[..108], b[108..])
  }

  function AccountOf(h: seq<u8>, t: seq<u8>): Result<Account>
    requires |h| == 108 && |t| == 57
  {
    var delegate :- OptionKeyAt(h[72..]);
    var state :- StateAt(t[0]);
    var isNative :- OptionU64At(t[1..13]);
    var closeAuthority :- OptionKeyAt(t[21..]);
    Ok(Account(Pubkey(h[..32]), Pubkey(h[32..64]), U64At(h[64..72]), delegate, state, isNative,
               U64At(t[13..21]), closeAuthority))
  }

  function KeysBytes(keys: seq<Pubkey>): (b: seq<u8>)
    ensures |b| == 32 * |keys|
  {
    if keys == [] then [] else KeysBytes(keys[..|keys| - 1]) + keys[|keys| - 1].bytes
  }

  function KeysAt(b: seq<u8>, n: nat): (keys: seq<Pubkey>)
    requires |b| == 32 * n
    ensures |keys| == n
  {
    if n == 0 then [] else KeysAt(b[..32 * (n - 1)], n - 1) + [Pubkey(b[32 * (n - 1)..])]
  }

  function MultisigBytes(ms: Multisig): (b: seq<u8>)
    ensures |b| == MULTISIG_LEN
  {
    [ms.m] + [ms.n] + [BoolByte(ms.isInitialized)] + KeysBytes(ms.signers)
  }

  function MultisigAt(b: seq<u8>): Result<Multisig>
    requires |b| == MULTISIG_LEN
  {
    var isInitialized :- BoolAt(b[2]);
    Ok(Multisig(b[0], b[1], isInitialized, KeysAt(b[3..], 11)))
  }

  /** Where the pieces of a concatenation sit. */
  lemma Pieces(head: seq<u8>, piece: seq<u8>, tail: seq<u8>)
    ensures (head + piece + tail)[|head|..|head| + |piece|] == piece
    ensures (head + piece + tail)[..|head|] == head
    ensures (head + piece + tail)[|head| + |piece|..] == tail
  {
  }

  /** Unpacking a packed mint gives it back, whatever the buffer held. */
  lemma UnpackOfPackMint(m: Mint, b: seq<u8>)
    requires |b| == MINT_LEN
    ensures MintAt(MintBytes(m, b)) == Ok(m)
  {
    var (authority, freeze) := (OptionKeyBytes(m.mintAuthority, b[..36]), OptionKeyBytes(m.freezeAuthority, b[46..]));
    OptionKeyCodec(m.mintAuthority, b[..36]);
    OptionKeyCodec(m.freezeAuthority, b[46..]);
    Pieces(authority, MintMiddle(m), freeze);
    var p := MintBytes(m, b);
    assert p[36..44] == p[36..46][..8] == U64Bytes(m.supply);
    assert p[44] == p[36..46][8] && p[45] == p[36..46][9];
  }

  /** Packing an unpacked mint over its own bytes changes none of them. */
  lemma PackOfUnpackMint(b: seq<u8>)
    requires |b| == MINT_LEN && MintAt(b).Ok?
    ensures MintBytes(MintAt(b).value, b) == b
  {
    var m := MintAt(b).value;
    OptionKeyCodec(m.mintAuthority, b[..36]);
    OptionKeyCodec(m.freezeAuthority, b[46..]);
    U64BytesOfU64At(b[36..44]);
    assert b[36..46] == b[36..44] + [b[44]] + [b[45]] == MintMiddle(m);
    assert b == b[..36] + b[36..46] + b[46..];
  }

  lemma AccountHeadFields(a: Account, b: seq<u8>)
    requires |b| == 108
    ensures var h := AccountHead(a, b);
            && h[..32] == a.mint.bytes && h[32..64] == a.owner.bytes && h[64..72] == U64Bytes(a.amount)
            && OptionKeyAt(h[72..]) == Ok(a.delegate)
  {
    var (amount, delegate) := (U64Bytes(a.amount), OptionKeyBytes(a.delegate, b[72..]));
    OptionKeyCodec(a.delegate, b[72..]);
    Pieces(a.mint.bytes, a.owner.bytes, amount + delegate);
    Pieces(a.mint.bytes + a.owner.bytes, amount, delegate);
    assert AccountHead(a, b) == a.mint.bytes + a.owner.bytes + (amount + delegate);
  }

  lemma AccountTailFields(a: Account, b: seq<u8>)
    requires |b| == 57
    ensures var t := AccountTail(a, b);
            && StateAt(t[0]) == Ok(a.state) && OptionU64At(t[1..13]) == Ok(a.isNative)
            && t[13..21] == U64Bytes(a.delegatedAmount) && OptionKeyAt(t[21..]) == Ok(a.closeAuthority)
  {
    var (state, native) := ([StateByte(a.state)], OptionU64Bytes(a.isNative, b[1..13]));
    var (allowance, close) := (U64Bytes(a.delegatedAmount), OptionKeyBytes(a.closeAuthority, b[21..]));
    OptionU64Codec(a.isNative, b[1..13]);
    OptionKeyCodec(a.closeAuthority, b[21..]);
    Pieces(state, native, allowance + close);
    Pieces(state + native, allowance, close);
    assert AccountTail(a, b) == state + native + (allowance + close);
  }

  lemma UnpackOfPackAccount(a: Account, b: seq<u8>)
    requires |b| == ACCOUNT_LEN
    ensures AccountAt(AccountBytes(a, b)) == Ok(a)
  {
    var (h, t) := (AccountHead(a, b[..108]), AccountTail(a, b[108..]));
    AccountHeadFields(a, b[..108]);
    AccountTailFields(a, b[108..]);
    assert AccountBytes(a, b)[..108] == h && AccountBytes(a, b)[108..] == t;
  }

  lemma HeadOfUnpack(h: seq<u8>, a: Account)
    requires |h| == 108
    requires a.mint == Pubkey(h[..32]) && a.owner == Pubkey(h[32..64]) && a.amount == U64At(h[64..72])
    requires OptionKeyAt(h[72..]) == Ok(a.delegate)
    ensures AccountHead(a, h) == h
  {
    OptionKeyCodec(a.delegate, h[72..]);
    U64BytesOfU64At(h[64..72]);
    assert h == h[..32] + h[32..64] + h[64..72] + h[72..];
  }

  lemma TailOfUnpack(t: seq<u8>, a: Account)
    requires |t| == 57
    requires StateAt(t[0]) == Ok(a.state) && OptionU64At(t[1..13]) == Ok(a.isNative)
    requires a.delegatedAmount == U64At(t[13..21]) && OptionKeyAt(t[21..]) == Ok(a.closeAuthority)
    ensures AccountTail(a, t) == t
  {
    OptionU64Codec(a.isNative, t[1..13]);
    OptionKeyCodec(a.closeAuthority, t[21..]);
    U64BytesOfU64At(t[13..21]);
    assert t == [t[0]] + t[1..13] + t[13..21] + t[21..];
  }

  lemma PackOfUnpackAccount(b: seq<u8>)
    requires |b| == ACCOUNT_LEN && AccountAt(b).Ok?
    ensures AccountBytes(AccountAt(b).value, b) == b
  {
    HeadOfUnpack(b[..108], AccountAt(b).value);
    TailOfUnpack(b[108..], AccountAt(b).value);
  }

  lemma {:induction false} KeysCodec(keys: seq<Pubkey>, b: seq<u8>)
    requires |b| == 32 * |keys|
    ensures KeysAt(KeysBytes(keys), |keys|) == keys
    ensures KeysBytes(KeysAt(b, |keys|)) == b
  {
    if keys != [] {
      var n := |keys| - 1;
      KeysCodec(keys[..n], b[..32 * n]);
      var p := KeysBytes(keys);
      assert p[..32 * n] == KeysBytes(keys[..n]) && p[32 * n..] == keys[n].bytes;
      assert KeysAt(b, |keys|)[..n] == KeysAt(b[..32 * n], n);
      assert b == b[..32 * n] + b[32 * n..];
    }
  }

  lemma MultisigCodec(ms: Multisig, b: seq<u8>)
    requires |b| == MULTISIG_LEN
    ensures MultisigAt(MultisigBytes(ms)) == Ok(ms)
    ensures MultisigAt(b) == Ok(ms) ==> MultisigBytes(ms) == b
  {
    KeysCodec(ms.signers, b[3..]);
    assert MultisigBytes(ms)[3..] == KeysBytes(ms.signers);
    assert b == [b[0]] + [b[1]] + [b[2]] + b[3..];
  }

  // ---------- where each field sits ----------

  lemma OptionKeyLayout(o: Option<Pubkey>, before: seq<u8>)
    requires |before| == 36
    ensures var b := OptionKeyBytes(o, before);
            b[0] == (if o.Some? then 1 else 0) && b[1] == b[2] == b[3] == 0
            && b[4..] == if o.Some? then o.value.bytes else before[4..]
  {
  }

  lemma OptionU64Layout(o: Option<u64>, before: seq<u8>)
    requires |before| == 12
    ensures var b := OptionU64Bytes(o, before);
            b[0] == (if o.Some? then 1 else 0) && b[1] == b[2] == b[3] == 0
            && if o.Some? then U64At(b[4..]) == o.value else b[4..] == before[4..]
  {
  }

  lemma MintLayout(m: Mint, before: seq<u8>)
    requires |before| == MINT_LEN
    ensures var b := MintBytes(m, before);
            && b[..36] == OptionKeyBytes(m.mintAuthority, before[..36])
            && U64At(b[36..44]) == m.supply && b[44] == m.decimals && b[45] == (if m.isInitialized then 1 else 0)
            && b[46..] == OptionKeyBytes(m.freezeAuthority, before[46..])
  {
    var b := MintBytes(m, before);
    Pieces(OptionKeyBytes(m.mintAuthority, before[..36]), MintMiddle(m), OptionKeyBytes(m.freezeAuthority, before[46..]));
    assert b[36..44] == b[36..46][..8] == U64Bytes(m.supply);
    assert b[44] == b[36..46][8] && b[45] == b[36..46][9];
  }

  lemma AccountLayout(a: Account, before: seq<u8>)
    requires |before| == ACCOUNT_LEN
    ensures var b := AccountBytes(a, before);
            && b[..32] == a.mint.bytes && b[32..64] == a.owner.bytes && U64At(b[64..72]) == a.amount
            && b[72..108] == OptionKeyBytes(a.delegate, before[72..108])
            && b[108] == (match a.state case Uninitialized => 0 case Initialized => 1 case Frozen => 2)
            && b[109..121] == OptionU64Bytes(a.isNative, before[109..121])
            && U64At(b[121..129]) == a.delegatedAmount
            && b[129..] == OptionKeyBytes(a.closeAuthority, before[129..])
  {
    var (h, t) := (AccountHead(a, before[..108]), AccountTail(a, before[108..]));
    HeadSlices(h, t);
    TailSlices(h, t);
    HeadSlices(before[..108], before[108..]);
    TailSlices(before[..108], before[108..]);
    assert before == before[..108] + before[108..];
    HeadLayout(a, before[..108]);
    TailLayout(a, before[108..]);
  }

  lemma HeadSlices(h: seq<u8>, t: seq<u8>)
    requires |h| == 108 && |t| == 57
    ensures var b := h + t;
            b[..32] == h[..32] && b[32..64] == h[32..64] && b[64..72] == h[64..72] && b[72..108] == h[72..]
  {
  }

  lemma TailSlices(h: seq<u8>, t: seq<u8>)
    requires |h| == 108 && |t| == 57
    ensures var b := h + t;
            b[108] == t[0] && b[109..121] == t[1..13] && b[121..129] == t[13..21] && b[129..] == t[21..]
  {
  }

  lemma HeadLayout(a: Account, before: seq<u8>)
    requires |before| == 108
    ensures var h := AccountHead(a, before);
            h[..32] == a.mint.bytes && h[32..64] == a.owner.bytes && h[64..72] == U64Bytes(a.amount)
            && h[72..] == OptionKeyBytes(a.delegate, before[72..])
  {
    AccountHeadFields(a, before);
    Pieces(a.mint.bytes + a.owner.bytes, U64Bytes(a.amount), OptionKeyBytes(a.delegate, before[72..]));
  }

  lemma TailLayout(a: Account, before: seq<u8>)
    requires |before| == 57
    ensures var t := AccountTail(a, before);
            && t[0] == StateByte(a.state) && t[1..13] == OptionU64Bytes(a.isNative, before[1..13])
            && t[13..21] == U64Bytes(a.delegatedAmount) && t[21..] == OptionKeyBytes(a.closeAuthority, before[21..])
  {
    var (state, native) := ([StateByte(a.state)], OptionU64Bytes(a.isNative, before[1..13]));
    var (allowance, close) := (U64Bytes(a.delegatedAmount), OptionKeyBytes(a.closeAuthority, before[21..]));
    Pieces(state, native, allowance + close);
    Pieces(state + native, allowance, close);
    assert AccountTail(a, before) == state + native + (allowance + close);
  }

  lemma {:induction false} KeysLayout(keys: seq<Pubkey>, i: nat)
    requires i < |keys|
    ensures KeysBytes(keys)[32 * i..32 * (i + 1)] == keys[i].bytes
  {
    var n := |keys| - 1;
    if i < n {
      KeysLayout(keys[..n], i);
      assert KeysBytes(keys)[..32 * n] == KeysBytes(keys[..n]);
      assert KeysBytes(keys)[32 * i..32 * (i + 1)] == KeysBytes(keys[..n])[32 * i..32 * (i + 1)];
    }
  }

  lemma MultisigLayout(ms: Multisig, i: nat)
    requires i < 11
    ensures var b := MultisigBytes(ms);
            && b[0] == ms.m && b[1] == ms.n && b[2] == (if ms.isInitialized then 1 else 0)
            && b[3 + 32 * i..35 + 32 * i] == ms.signers[i].bytes
  {
    KeysLayout(ms.signers, i);
    assert MultisigBytes(ms)[3..] == KeysBytes(ms.signers);
    assert MultisigBytes(ms)[3 + 32 * i..35 + 32 * i] == MultisigBytes(ms)[3..][32 * i..32 * (i + 1)];
  }

  // ---------- packing in place ----------

  /** Overwrites part of a buffer. */
  method Write(dst: array<u8>, at: nat, bytes: seq<u8>)
    requires at + |bytes| <= dst.Length
    modifies dst
    ensures dst[..at + |bytes|] == old(dst[..at]) + bytes
    ensures dst[at + |bytes|..] == old(dst[at + |bytes|..])
  {
    forall k | 0 <= k < |bytes| {
      dst[at + k] := bytes[k];
    }
  }

  method PackOptionKey(o: Option<Pubkey>, dst: array<u8>, at: nat)
    requires at + 36 <= dst.Length
    modifies dst
    ensures dst[..at + 36] == old(dst[..at] + OptionKeyBytes(o, dst[at..at + 36]))
    ensures dst[at + 36..] == old(dst[at + 36..])
  {
    match o
    case Some(key) =>
      Write(dst, at, [1, 0, 0, 0]);
      Write(dst, at + 4, key.bytes);
    case None =>
      Write(dst, at, [0, 0, 0, 0]);
      assert dst[..at + 36] == dst[..at + 4] + dst[at + 4..][..32];
  }

  method PackOptionU64(o: Option<u64>, dst: array<u8>, at: nat)
    requires at + 12 <= dst.Length
    modifies dst
    ensures dst[..at + 12] == old(dst[..at] + OptionU64Bytes(o, dst[at..at + 12]))
    ensures dst[at + 12..] == old(dst[at + 12..])
  {
    match o
    case Some(x) =>
      Write(dst, at, [1, 0, 0, 0]);
      Write(dst, at + 4, U64Bytes(x));
    case None =>
      Write(dst, at, [0, 0, 0, 0]);
      assert dst[..at + 12] == dst[..at + 4] + dst[at + 4..][..8];
  }

  method PackMint(m: Mint, dst: array<u8>) returns (r: ProgramResult)
    modifies dst
    ensures dst.Length != MINT_LEN ==> r == Err(InvalidAccountData) && dst[..] == old(dst[..])
    ensures dst.Length == MINT_LEN ==> r == Ok(()) && dst[..] == MintBytes(m, old(dst[..]))
  {
    if dst.Length != MINT_LEN {
      return Err(InvalidAccountData);
    }
    ghost var before := dst[..];
    PackOptionKey(m.mintAuthority, dst, 0);
    ghost var head, tail := dst[..36], dst[36..];
    assert tail == before[36..];
    Write(dst, 36, MintMiddle(m));
    assert dst[46..82] == dst[46..] == tail[10..] == before[46..];
    PackOptionKey(m.freezeAuthority, dst, 46);
    assert dst[..] == dst[..82];
    return Ok(());
  }

  method PackAccount(a: Account, dst: array<u8>) returns (r: ProgramResult)
    modifies dst
    ensures dst.Length != ACCOUNT_LEN ==> r == Err(InvalidAccountData) && dst[..] == old(dst[..])
    ensures dst.Length == ACCOUNT_LEN ==> r == Ok(()) && dst[..] == AccountBytes(a, old(dst[..]))
  {
    if dst.Length != ACCOUNT_LEN {
      return Err(InvalidAccountData);
    }
    PackAccountHead(a, dst);
    PackAccountTail(a, dst);
    assert dst[..] == dst[..108] + dst[108..];
    return Ok(());
  }

  method PackAccountHead(a: Account, dst: array<u8>)
    requires dst.Length == ACCOUNT_LEN
    modifies dst
    ensures dst[..108] == AccountHead(a, old(dst[..][..108]))
    ensures dst[108..] == old(dst[..][108..])
  {
    ghost var before := dst[..];
    Write(dst, 0, a.mint.bytes);
    Write(dst, 32, a.owner.bytes);
    Write(dst, 64, U64Bytes(a.amount));
    assert dst[72..] == before[72..];
    assert dst[72..108] == dst[72..][..36] == before[..108][72..];
    PackOptionKey(a.delegate, dst, 72);
    assert dst[108..] == before[72..][36..];
  }

  method PackAccountTail(a: Account, dst: array<u8>)
    requires dst.Length == ACCOUNT_LEN
    modifies dst
    ensures dst[..108] == old(dst[..108])
    ensures dst[108..] == AccountTail(a, old(dst[108..]))
  {
    ghost var head, tail := dst[..108], dst[108..];
    PackStateAndNative(a, dst);
    ghost var middle := dst[108..121];
    assert dst[129..] == dst[121..][8..] == tail[21..];
    PackAllowanceAndCloser(a, dst);
    assert dst[..108] == dst[..121][..108];
    assert dst[108..121] == dst[..121][108..] == middle;
    assert dst[108..] == dst[108..121] + dst[121..];
    TailParts(a, tail);
  }

  lemma TailParts(a: Account, before: seq<u8>)
    requires |before| == 57
    ensures AccountTail(a, before)
            == ([StateByte(a.state)] + OptionU64Bytes(a.isNative, before[1..13]))
               + (U64Bytes(a.delegatedAmount) + OptionKeyBytes(a.closeAuthority, before[21..]))
  {
  }

  method PackStateAndNative(a: Account, dst: array<u8>)
    requires dst.Length == ACCOUNT_LEN
    modifies dst
    ensures dst[..108] == old(dst[..108])
    ensures dst[108..121] == [StateByte(a.state)] + OptionU64Bytes(a.isNative, old(dst[108..][1..13]))
    ensures dst[121..] == old(dst[108..][13..])
  {
    ghost var tail := dst[108..];
    Write(dst, 108, [StateByte(a.state)]);
    assert dst[109..] == tail[1..];
    assert dst[109..121] == dst[109..][..12] == tail[1..13];
    PackOptionU64(a.isNative, dst, 109);
    assert dst[..108] == dst[..121][..108];
    assert dst[108..121] == dst[..121][108..];
    assert dst[121..] == tail[13..];
  }

  method PackAllowanceAndCloser(a: Account, dst: array<u8>)
    requires dst.Length == ACCOUNT_LEN
    modifies dst
    ensures dst[..121] == old(dst[..121])
    ensures dst[121..] == U64Bytes(a.delegatedAmount) + OptionKeyBytes(a.closeAuthority, old(dst[129..]))
  {
    ghost var close := dst[129..];
    Write(dst, 121, U64Bytes(a.delegatedAmount));
    assert dst[129..165] == dst[129..] == close;
    PackOptionKey(a.closeAuthority, dst, 129);
    assert dst[..] == dst[..165];
    assert dst[..121] == dst[..][..121];
    assert dst[121..] == dst[..][121..];
  }

  method PackMultisig(ms: Multisig, dst: array<u8>) returns (r: ProgramResult)
    modifies dst
    ensures dst.Length != MULTISIG_LEN ==> r == Err(InvalidAccountData) && dst[..] == old(dst[..])
    ensures dst.Length == MULTISIG_LEN ==> r == Ok(()) && dst[..] == MultisigBytes(ms)
  {
    if dst.Length != MULTISIG_LEN {
      return Err(InvalidAccountData);
    }
    Write(dst, 0, [ms.m]);
    Write(dst, 1, [ms.n]);
    Write(dst, 2, [BoolByte(ms.isInitialized)]);
    ghost var head := [ms.m] + [ms.n] + [BoolByte(ms.isInitialized)];
    assert dst[..3] == head;
    for i := 0 to |ms.signers|
      invariant dst[..3 + 32 * i] == head + KeysBytes(ms.signers[..i])
    {
      Write(dst, 3 + 32 * i, ms.signers[i].bytes);
      assert ms.signers[..i + 1][..i] == ms.signers[..i];
    }
    assert ms.signers[..11] == ms.signers && dst[..] == dst[..355];
    return Ok(());
  }

  /** The loop that fills the signer array of an unpacked multisig. */
  method UnpackMultisig(src: seq<u8>) returns (r: Result<Multisig>)
    ensures |src| != MULTISIG_LEN ==> r == Err(InvalidAccountData)
    ensures |src| == MULTISIG_LEN ==> r == MultisigAt(src)
  {
    if |src| != MULTISIG_LEN {
      return Err(InvalidAccountData);
    }
    var isInitialized := BoolAt(src[2]);
    if isInitialized.Err? {
      return Err(isInitialized.error);
    }
    var signersFlat := src[3..];
    var signers := seq(11, _ => ZERO_KEY);
    for i := 0 to 11
      invariant |signers| == 11 && signers[..i] == KeysAt(signersFlat[..32 * i], i)
    {
      signers := signers[i := Pubkey(signersFlat[32 * i..32 * (i + 1)])];
      assert signersFlat[..32 * (i + 1)][..32 * i] == signersFlat[..32 * i];
      assert signersFlat[..32 * (i + 1)][32 * i..] == signersFlat[32 * i..32 * (i + 1)];
    }
    assert signersFlat[..32 * 11] == signersFlat && signers[..11] == signers;
    return Ok(Multisig(src[0], src[1], isInitialized.value, signers));
  }
}
