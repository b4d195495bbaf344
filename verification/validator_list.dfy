/** The validator stake list and its byte form (program/src/state.rs). */
module ValidatorList {
  import opened Basics
  import opened Bytes

  const MAX_VALIDATOR_STAKE_ACCOUNTS: nat := 1000
  const VALIDATOR_STAKE_LIST_VERSION: u8 := 1
  const HEADER_LEN: nat := 3
  const INFO_LEN: nat := 48
  const LIST_LEN: nat := 48003

  datatype ValidatorStakeInfo = ValidatorStakeInfo(validatorAccount: Pubkey, balance: u64, lastUpdateEpoch: u64)

  datatype ValidatorStakeList = ValidatorStakeList(version: u8, validators: seq<ValidatorStakeInfo>)

  predicate Contains(validators: seq<ValidatorStakeInfo>, validator: Pubkey) {
    exists i | 0 <= i < |validators| :: validators[i].validatorAccount == validator
  }

  /** The position of a validator's first record. */
  function Find(validators: seq<ValidatorStakeInfo>, validator: Pubkey): (r: Option<nat>)
    ensures r.Some? <==> Contains(validators, validator)
    ensures r.Some? ==> r.value < |validators| && validators[r.value].validatorAccount == validator
    ensures r.Some? ==> forall k | 0 <= k < r.value :: validators[k].validatorAccount != validator
  {
    if validators == [] then None
    else if validators[0].validatorAccount == validator then Some(0)
    else
      var rest := Find(validators[1..], validator);
      if rest.Some? then Some(rest.value + 1) else None
  }

  /** The records of all other validators, in order. */
  function Without(validators: seq<ValidatorStakeInfo>, validator: Pubkey): seq<ValidatorStakeInfo> {
    if validators == [] then []
    else if validators[0].validatorAccount == validator then Without(validators[1..], validator)
    else [validators[0]] + Without(validators[1..], validator)
  }

  function SumBalances(validators: seq<ValidatorStakeInfo>): nat {
    if validators == [] then 0
    else SumBalances(validators[..|validators| - 1]) + validators[|validators| - 1].balance
  }

  // ---------- byte form ----------

  /** The C layout of a record: a 32-byte key and two little-endian u64, with no padding. */
  function InfoBytes(v: ValidatorStakeInfo): (b: seq<u8>)
    ensures |b| == INFO_LEN
  {
    v.validatorAccount.bytes + U64Bytes(v.balance) + U64Bytes(v.lastUpdateEpoch)
  }

  function InfoAt(b: seq<u8>): ValidatorStakeInfo
    requires |b| == INFO_LEN
  {
    ValidatorStakeInfo(Pubkey(b[..32]), U64At(b[32..40]), U64At(b[40..]))
  }

  function RecordsBytes(validators: seq<ValidatorStakeInfo>): (b: seq<u8>)
    ensures |b| == INFO_LEN * |validators|
  {
    if validators == [] then []
    else RecordsBytes(validators[..|validators| - 1]) + InfoBytes(validators[|validators| - 1])
  }

  function RecordsAt(b: seq<u8>, n: nat): (validators: seq<ValidatorStakeInfo>)
    requires |b| == INFO_LEN * n
    ensures |validators| == n
  {
    if n == 0 then []
    else RecordsAt(b[..INFO_LEN * (n - 1)], n - 1) + [InfoAt(b[INFO_LEN * (n - 1)..])]
  }

  function ListHeader(l: ValidatorStakeList): (b: seq<u8>)
    ensures |b| == HEADER_LEN
  {
    [l.version] + ToLE(|l.validators|, 2)
  }

  /** The bytes after serializing into a buffer: header, records, and the rest of the buffer. */
  function ListBytes(l: ValidatorStakeList, before: seq<u8>): (b: seq<u8>)
    requires |l.validators| <= MAX_VALIDATOR_STAKE_ACCOUNTS && LIST_LEN <= |before|
    ensures |b| == |before|
  {
    ListHeader(l) + RecordsBytes(l.validators) + before[HEADER_LEN + INFO_LEN * |l.validators|..]
  }

  function ListAt(b: seq<u8>): Result<ValidatorStakeList> {
    if |b| < LIST_LEN then Err(InvalidAccountData)
    else if b[0] == 0 then Ok(ValidatorStakeList(0, []))
    else
      var n := FromLE(b[1..3]);
      if n > MAX_VALIDATOR_STAKE_ACCOUNTS then Err(InvalidAccountData)
      else Ok(ValidatorStakeList(b[0], RecordsAt(b[HEADER_LEN..HEADER_LEN + INFO_LEN * n], n)))
  }

  lemma InfoCodec(v: ValidatorStakeInfo)
    ensures InfoAt(InfoBytes(v)) == v
  {
    InfoFields(v);
  }

  lemma {:induction false} RecordsCodec(validators: seq<ValidatorStakeInfo>)
    ensures RecordsAt(RecordsBytes(validators), |validators|) == validators
  {
    if validators != [] {
      var n := |validators| - 1;
      RecordsCodec(validators[..n]);
      InfoCodec(validators[n]);
      var b := RecordsBytes(validators);
      assert b[..INFO_LEN * n] == RecordsBytes(validators[..n]) && b[INFO_LEN * n..] == InfoBytes(validators[n]);
    }
  }

  lemma {:induction false} RecordsLayout(validators: seq<ValidatorStakeInfo>, i: nat)
    requires i < |validators|
    ensures RecordsBytes(validators)[INFO_LEN * i..INFO_LEN * (i + 1)] == InfoBytes(validators[i])
  {
    var n := |validators| - 1;
    if i < n {
      RecordsLayout(validators[..n], i);
      assert RecordsBytes(validators)[..INFO_LEN * n] == RecordsBytes(validators[..n]);
      assert RecordsBytes(validators)[INFO_LEN * i..INFO_LEN * (i + 1)]
             == RecordsBytes(validators[..n])[INFO_LEN * i..INFO_LEN * (i + 1)];
    }
  }

  lemma RecordInList(l: ValidatorStakeList, before: seq<u8>, i: nat)
    requires i < |l.validators| <= MAX_VALIDATOR_STAKE_ACCOUNTS && LIST_LEN <= |before|
    ensures ListBytes(l, before)[3 + 48 * i..3 + 48 * i + 48] == InfoBytes(l.validators[i])
  {
    var (b, n) := (ListBytes(l, before), |l.validators|);
    var records := RecordsBytes(l.validators);
    RecordsLayout(l.validators, i);
    assert b[HEADER_LEN..HEADER_LEN + INFO_LEN * n] == records;
    assert b[3 + 48 * i..3 + 48 * i + 48] == b[HEADER_LEN..HEADER_LEN + INFO_LEN * n][48 * i..48 * i + 48];
  }

  lemma ListHeaderLayout(l: ValidatorStakeList, before: seq<u8>)
    requires |l.validators| <= MAX_VALIDATOR_STAKE_ACCOUNTS && LIST_LEN <= |before|
    ensures var b := ListBytes(l, before);
            b[0] == l.version && (b[1] as int) + 256 * (b[2] as int) == |l.validators|
  {
    TwoBytes(|l.validators|);
    var b := ListBytes(l, before);
    assert b[0] == ListHeader(l)[0] && b[1] == ListHeader(l)[1] && b[2] == ListHeader(l)[2];
  }

  /** The byte form: version, a two-byte count, and at 3 + 48 * i the key, balance and epoch of record i. */
  lemma ListLayout(l: ValidatorStakeList, before: seq<u8>, i: nat)
    requires i < |l.validators| <= MAX_VALIDATOR_STAKE_ACCOUNTS && LIST_LEN <= |before|
    ensures var b := ListBytes(l, before);
            && b[0] == l.version && (b[1] as int) + 256 * (b[2] as int) == |l.validators|
            && var record := b[3 + 48 * i..3 + 48 * i + 48];
               && record[..32] == l.validators[i].validatorAccount.bytes
               && U64At(record[32..40]) == l.validators[i].balance
               && U64At(record[40..]) == l.validators[i].lastUpdateEpoch
  {
    ListHeaderLayout(l, before);
    RecordInList(l, before, i);
    InfoFields(l.validators[i]);
  }

  lemma InfoFields(v: ValidatorStakeInfo)
    ensures var b := InfoBytes(v);
            b[..32] == v.validatorAccount.bytes && b[32..40] == U64Bytes(v.balance) && b[40..] == U64Bytes(v.lastUpdateEpoch)
  {
  }

  lemma TwoBytes(n: nat)
    requires n < 65536
    ensures (ToLE(n, 2)[0] as int) + 256 * (ToLE(n, 2)[1] as int) == n
  {
    assert ToLE(n, 2)[1] == ToLE(n / 256, 1)[0];
  }

  /** Deserializing a serialized list gives it back, whatever the buffer held, exactly when the list
      has a non-zero version or no records; bytes after the last record are untouched. */
  lemma ListCodec(l: ValidatorStakeList, before: seq<u8>)
    requires |l.validators| <= MAX_VALIDATOR_STAKE_ACCOUNTS && LIST_LEN <= |before|
    ensures ListAt(ListBytes(l, before)) == Ok(l) <==> l.version != 0 || l.validators == []
    ensures var end := HEADER_LEN + INFO_LEN * |l.validators|;
            ListBytes(l, before)[end..] == before[end..]
  {
    var (b, n) := (ListBytes(l, before), |l.validators|);
    var records := RecordsBytes(l.validators);
    assert b[HEADER_LEN..HEADER_LEN + INFO_LEN * n] == records;
    assert b[..HEADER_LEN] == ListHeader(l);
    assert b[1..3] == ListHeader(l)[1..3] == ToLE(n, 2);
    assert Power256(2) == 65536;
    FromLEOfToLE(n, 2);
    RecordsCodec(l.validators);
  }

  /** A list of version zero loses its record. */
  lemma VersionZeroLosesRecords(v: ValidatorStakeInfo, before: seq<u8>)
    requires LIST_LEN <= |before|
    ensures ListAt(ListBytes(ValidatorStakeList(0, [v]), before)) == Ok(ValidatorStakeList(0, []))
  {
    assert ListBytes(ValidatorStakeList(0, [v]), before)[0] == 0;
  }

  /** Overwrites part of a buffer. */
  method CopyInto(output: array<u8>, from: nat, bytes: seq<u8>)
    requires from + |bytes| <= output.Length
    modifies output
    ensures output[..from + |bytes|] == old(output[..from]) + bytes
    ensures output[from + |bytes|..] == old(output[from + |bytes|..])
    ensures forall k | from + |bytes| <= k < output.Length :: output[k] == old(output[k])
  {
    forall k | 0 <= k < |bytes| {
      output[from + k] := bytes[k];
    }
  }

  method Serialize(l: ValidatorStakeList, output: array<u8>) returns (r: ProgramResult)
    modifies output
    ensures output.Length < LIST_LEN || |l.validators| > MAX_VALIDATOR_STAKE_ACCOUNTS ==>
              r == Err(InvalidAccountData) && output[..] == old(output[..])
    ensures LIST_LEN <= output.Length && |l.validators| <= MAX_VALIDATOR_STAKE_ACCOUNTS ==>
              r == Ok(()) && output[..] == ListBytes(l, old(output[..]))
  {
    if output.Length < LIST_LEN {
      return Err(InvalidAccountData);
    }
    if |l.validators| > MAX_VALIDATOR_STAKE_ACCOUNTS {
      return Err(InvalidAccountData);
    }
    ghost var before := output[..];
    CopyInto(output, 0, [l.version]);
    CopyInto(output, 1, ToLE(|l.validators|, 2));
    assert output[..3] == ListHeader(l);
    assert output[3..] == before[3..];
    SerializeRecords(l.validators, output);
    ghost var end := HEADER_LEN + INFO_LEN * |l.validators|;
    assert output[..] == output[..end] + output[end..];
    assert output[end..] == before[3..][INFO_LEN * |l.validators|..] == before[end..];
    return Ok(());
  }

  /** The loop over the records, with its moving offset. */
  method SerializeRecords(validators: seq<ValidatorStakeInfo>, output: array<u8>)
    requires HEADER_LEN + INFO_LEN * |validators| <= output.Length
    modifies output
    ensures output[..HEADER_LEN + INFO_LEN * |validators|] == old(output[..HEADER_LEN]) + RecordsBytes(validators)
    ensures output[HEADER_LEN + INFO_LEN * |validators|..] == old(output[HEADER_LEN + INFO_LEN * |validators|..])
  {
    ghost var end := HEADER_LEN + INFO_LEN * |validators|;
    ghost var header := output[..HEADER_LEN];
    var from := HEADER_LEN;
    for i := 0 to |validators|
      invariant from == HEADER_LEN + INFO_LEN * i <= end
      invariant output[..from] == header + RecordsBytes(validators[..i])
      invariant forall k | from <= k < output.Length :: output[k] == old(output[k])
    {
      ghost var done := RecordsBytes(validators[..i]);
      assert validators[..i + 1][..i] == validators[..i];
      CopyInto(output, from, InfoBytes(validators[i]));
      assert header + done + InfoBytes(validators[i]) == header + (done + InfoBytes(validators[i]));
      from := from + INFO_LEN;
    }
    assert validators[..|validators|] == validators;
  }

  /** Slicing a prefix of a slice. */
  lemma SliceOfSlice(b: seq<u8>, start: nat, end: nat, lo: nat, hi: nat)
    requires start <= end <= |b| && lo <= hi <= end - start
    ensures b[start..end][..hi][lo..] == b[start + lo..start + hi]
    ensures b[start..end][..hi][..lo] == b[start..end][..lo]
  {
    assert b[start..end][..hi] == b[start..start + hi];
    assert b[start..start + hi][lo..] == b[start + lo..start + hi];
  }

  method Deserialize(input: seq<u8>) returns (r: Result<ValidatorStakeList>)
    ensures r == ListAt(input)
  {
    if |input| < LIST_LEN {
      return Err(InvalidAccountData);
    }
    if input[0] == 0 {
      return Ok(ValidatorStakeList(0, []));
    }
    var n := FromLE(input[1..3]);
    if n > MAX_VALIDATOR_STAKE_ACCOUNTS {
      return Err(InvalidAccountData);
    }
    var validators := [];
    var from, to := HEADER_LEN, HEADER_LEN + INFO_LEN;
    ghost var records := input[HEADER_LEN..HEADER_LEN + INFO_LEN * n];
    for i := 0 to n
      invariant from == HEADER_LEN + INFO_LEN * i && to == from + INFO_LEN
      invariant validators == RecordsAt(records[..INFO_LEN * i], i)
    {
      assert to <= HEADER_LEN + INFO_LEN * n;
      SliceOfSlice(input, HEADER_LEN, HEADER_LEN + INFO_LEN * n, INFO_LEN * i, INFO_LEN * (i + 1));
      validators := validators + [InfoAt(input[from..to])];
      from := from + INFO_LEN;
      to := to + INFO_LEN;
    }
    assert records[..INFO_LEN * n] == records;
    return Ok(ValidatorStakeList(input[0], validators));
  }
}
