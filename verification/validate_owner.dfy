/** Whether an instruction carries the authority of a key (token/program/src/processor.rs): single and
    multisig authorities. */
module OwnerValidation {
  import opened Basics
  import opened TokenState

  predicate Listed(signers: seq<AccountMeta>, key: Pubkey) {
    exists i | 0 <= i < |signers| :: signers[i].key == key
  }

  /** Entry `i` is the first entry of the list with its key. */
  predicate FirstListing(signers: seq<AccountMeta>, i: nat)
    requires i < |signers|
  {
    forall j | 0 <= j < i :: signers[j].key != signers[i].key
  }

  /** Every member key that the list mentions is signed at its first mention. */
  predicate FirstListingsSigned(members: seq<Pubkey>, signers: seq<AccountMeta>) {
    forall i | 0 <= i < |signers| && signers[i].key in members && FirstListing(signers, i) :: signers[i].isSigner
  }

  /** The number of member positions whose key the list mentions. */
  function PositionsListed(members: seq<Pubkey>, signers: seq<AccountMeta>): nat {
    if members == [] then 0
    else PositionsListed(members[..|members| - 1], signers)
         + if Listed(signers, members[|members| - 1]) then 1 else 0
  }

  predicate MultisigSatisfied(ms: Multisig, signers: seq<AccountMeta>)
    requires ms.n <= 11
  {
    && FirstListingsSigned(ms.signers[..ms.n], signers)
    && ms.m <= PositionsListed(ms.signers[..ms.n], signers)
  }

  function ValidateOwner(l: Ledger, expected: Pubkey, owner: AccountMeta, signers: seq<AccountMeta>): Outcome {
    if expected != owner.key then Fail(Token(OwnerMismatch))
    else
      var record := Load(l, owner.key).record;
      if record.MultisigRecord? then
        if !record.multisig.isInitialized then Fail(UninitializedAccount)
        else if record.multisig.n > 11 then Fail(Panicked)
        else Need(MultisigSatisfied(record.multisig, signers), MissingRequiredSignature)
      else Need(owner.isSigner, MissingRequiredSignature)
  }

  // ---------- the loops of the source ----------

  function CountTrue(b: seq<bool>): nat {
    if b == [] then 0 else CountTrue(b[..|b| - 1]) + if b[|b| - 1] then 1 else 0
  }

  lemma {:induction false} CountTrueSet(b: seq<bool>, p: nat)
    requires p < |b| && !b[p]
    ensures CountTrue(b[p := true]) == CountTrue(b) + 1
  {
    var last := |b| - 1;
    if p == last {
      assert b[p := true][..last] == b[..last];
    } else {
      CountTrueSet(b[..last], p);
      assert b[p := true][..last] == b[..last][p := true];
    }
  }

  lemma {:induction false} CountTrueIsPositionsListed(b: seq<bool>, members: seq<Pubkey>, signers: seq<AccountMeta>)
    requires |b| == |members|
    requires forall p | 0 <= p < |b| :: b[p] <==> Listed(signers, members[p])
    ensures CountTrue(b) == PositionsListed(members, signers)
  {
    if b != [] {
      CountTrueIsPositionsListed(b[..|b| - 1], members[..|b| - 1], signers);
    }
  }

  lemma {:induction false} CountTrueOfFalse(b: seq<bool>)
    requires forall p | 0 <= p < |b| :: !b[p]
    ensures CountTrue(b) == 0
  {
    if b != [] {
      CountTrueOfFalse(b[..|b| - 1]);
    }
  }

  /** `matched` flags exactly the member positions that the entries seen so far mention. */
  ghost predicate MatchedFor(matched: seq<bool>, members: seq<Pubkey>, seen: seq<AccountMeta>) {
    && |matched| == |members|
    && forall p | 0 <= p < |members| :: matched[p] <==> Listed(seen, members[p])
  }

  /** `after` is `before` with the positions of one more signer flagged. */
  ghost predicate SignerMatched(before: seq<bool>, after: seq<bool>, members: seq<Pubkey>, signer: AccountMeta) {
    && |before| == |after| == |members|
    && (forall p | 0 <= p < |members| :: after[p] <==> before[p] || members[p] == signer.key)
    && (forall p | 0 <= p < |members| && members[p] == signer.key && !before[p] :: signer.isSigner)
  }

  lemma SignerProcessed(before: seq<bool>, after: seq<bool>, members: seq<Pubkey>, signers: seq<AccountMeta>, i: nat)
    requires i < |signers|
    requires MatchedFor(before, members, signers[..i]) && FirstListingsSigned(members, signers[..i])
    requires SignerMatched(before, after, members, signers[i])
    ensures MatchedFor(after, members, signers[..i + 1]) && FirstListingsSigned(members, signers[..i + 1])
  {
    ListedGrows(signers, i);
    var seen := signers[..i + 1];
    forall j | 0 <= j < |seen| && seen[j].key in members && FirstListing(seen, j)
      ensures seen[j].isSigner
    {
      if j < i {
        assert seen[j] == signers[..i][j] && FirstListing(signers[..i], j);
      } else {
        var p :| 0 <= p < |members| && members[p] == signers[i].key;
        assert !Listed(signers[..i], members[p]);
      }
    }
  }

  lemma UnsignedFirstListing(ms: Multisig, signers: seq<AccountMeta>, i: nat, position: nat)
    requires ms.n <= 11 && i < |signers| && position < ms.n
    requires ms.signers[position] == signers[i].key && !signers[i].isSigner
    requires !Listed(signers[..i], signers[i].key)
    ensures !MultisigSatisfied(ms, signers)
  {
    assert ms.signers[..ms.n][position] == signers[i].key;
    forall j | 0 <= j < i
      ensures signers[j].key != signers[i].key
    {
      assert signers[..i][j].key == signers[j].key;
    }
    assert FirstListing(signers, i);
  }

  /** The nested loops over the signer list and the member positions, with the `matched` array. */
  method CheckMultisig(ms: Multisig, signers: seq<AccountMeta>) returns (r: Outcome)
    requires ms.n <= 11
    ensures r == Need(MultisigSatisfied(ms, signers), MissingRequiredSignature)
  {
    ghost var members := ms.signers[..ms.n];
    var numSigners := 0;
    var matched := new bool[MAX_SIGNERS](_ => false);
    CountTrueOfFalse(matched[..ms.n]);
    for i := 0 to |signers|
      invariant MatchedFor(matched[..ms.n], members, signers[..i])
      invariant FirstListingsSigned(members, signers[..i])
      invariant numSigners == CountTrue(matched[..ms.n])
    {
      var signer := signers[i];
      ghost var before := matched[..ms.n];
      for position := 0 to ms.n
        invariant forall p | position <= p < ms.n :: matched[p] == before[p]
        invariant forall p | 0 <= p < position :: matched[p] <==> before[p] || members[p] == signer.key
        invariant forall p | 0 <= p < position && members[p] == signer.key && !before[p] :: signer.isSigner
        invariant numSigners == CountTrue(matched[..ms.n])
      {
        if ms.signers[position] == signer.key && !matched[position] {
          if !signer.isSigner {
            assert !before[position] && members[position] == signer.key;
            UnsignedFirstListing(ms, signers, i, position);
            return Fail(MissingRequiredSignature);
          }
          ghost var now := matched[..ms.n];
          CountTrueSet(now, position);
          matched[position] := true;
          assert matched[..ms.n] == now[position := true];
          numSigners := numSigners + 1;
        }
      }
      SignerProcessed(before, matched[..ms.n], members, signers, i);
    }
    assert signers[..|signers|] == signers;
    CountTrueIsPositionsListed(matched[..ms.n], members, signers);
    if numSigners < ms.m {
      return Fail(MissingRequiredSignature);
    }
    return Pass;
  }

  method CheckOwner(l: Ledger, expected: Pubkey, owner: AccountMeta, signers: seq<AccountMeta>) returns (r: Outcome)
    ensures r == ValidateOwner(l, expected, owner, signers)
  {
    if expected != owner.key {
      return Fail(Token(OwnerMismatch));
    }
    var record := Load(l, owner.key).record;
    if record.MultisigRecord? {
      if !record.multisig.isInitialized {
        return Fail(UninitializedAccount);
      }
      if record.multisig.n > 11 {
        return Fail(Panicked);
      }
      r := CheckMultisig(record.multisig, signers);
      return;
    } else if !owner.isSigner {
      return Fail(MissingRequiredSignature);
    }
    return Pass;
  }

  lemma ListedGrows(signers: seq<AccountMeta>, i: nat)
    requires i < |signers|
    ensures forall key :: Listed(signers[..i + 1], key) <==> Listed(signers[..i], key) || key == signers[i].key
  {
    forall key | Listed(signers[..i], key) || key == signers[i].key
      ensures Listed(signers[..i + 1], key)
    {
      if key != signers[i].key {
        var j :| 0 <= j < i && signers[..i][j].key == key;
        assert signers[..i + 1][j].key == key;
      } else {
        assert signers[..i + 1][i].key == key;
      }
    }
    forall key | Listed(signers[..i + 1], key) && key != signers[i].key
      ensures Listed(signers[..i], key)
    {
      var j :| 0 <= j < i + 1 && signers[..i + 1][j].key == key;
      assert signers[..i][j].key == key;
    }
  }

  /** With distinct member keys, an accepted multisig carries the signatures of at least `m`
      different members. */
  lemma AcceptedMultisigHasMSignatures(ms: Multisig, signers: seq<AccountMeta>) returns (signed: set<Pubkey>)
    requires ms.n <= 11 && MultisigSatisfied(ms, signers)
    requires forall p, q | 0 <= p < q < ms.n :: ms.signers[p] != ms.signers[q]
    ensures ms.m <= |signed|
    ensures forall key | key in signed :: key in ms.signers[..ms.n] && AccountMeta(key, true) in signers
  {
    var members := ms.signers[..ms.n];
    signed := ListedMembers(members, signers);
    forall key | key in signed
      ensures AccountMeta(key, true) in signers
    {
      var i := FirstIndex(signers, key);
      assert signers[i] == AccountMeta(key, true);
    }
  }

  lemma {:induction false} ListedMembers(members: seq<Pubkey>, signers: seq<AccountMeta>) returns (keys: set<Pubkey>)
    requires forall p, q | 0 <= p < q < |members| :: members[p] != members[q]
    ensures |keys| == PositionsListed(members, signers)
    ensures forall key | key in keys :: key in members && Listed(signers, key)
  {
    keys := {};
    if members != [] {
      var last := |members| - 1;
      keys := ListedMembers(members[..last], signers);
      if Listed(signers, members[last]) {
        keys := keys + {members[last]};
      }
    }
  }

  /** And `m` different members that signed are enough, if no entry names a member without signing. */
  lemma EnoughSignaturesSuffice(ms: Multisig, signers: seq<AccountMeta>, signed: set<Pubkey>)
    requires ms.n <= 11 && ms.m <= |signed|
    requires forall key | key in signed :: key in ms.signers[..ms.n] && AccountMeta(key, true) in signers
    requires forall meta | meta in signers && meta.key in ms.signers[..ms.n] :: meta.isSigner
    ensures MultisigSatisfied(ms, signers)
  {
    forall key | key in signed
      ensures Listed(signers, key)
    {
      var i :| 0 <= i < |signers| && signers[i] == AccountMeta(key, true);
    }
    ListedAtMostPositions(ms.signers[..ms.n], signers, signed);
  }

  lemma {:induction false} ListedAtMostPositions(members: seq<Pubkey>, signers: seq<AccountMeta>, keys: set<Pubkey>)
    requires forall key | key in keys :: key in members && Listed(signers, key)
    ensures |keys| <= PositionsListed(members, signers)
  {
    if members == [] {
      assert keys == {};
    } else {
      var last := |members| - 1;
      var rest := keys - {members[last]};
      ListedAtMostPositions(members[..last], signers, rest);
      if members[last] in keys {
        assert keys == rest + {members[last]};
      } else {
        assert keys == rest;
      }
    }
  }

  lemma {:induction false} FirstIndex(signers: seq<AccountMeta>, key: Pubkey) returns (i: nat)
    requires Listed(signers, key)
    ensures i < |signers| && signers[i].key == key && FirstListing(signers, i)
  {
    i := 0;
    while signers[i].key != key
      invariant i < |signers| && forall j | 0 <= j < i :: signers[j].key != key
      decreases |signers| - i
    {
      i := i + 1;
    }
  }
}
