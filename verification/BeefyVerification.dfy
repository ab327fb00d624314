/** The checks of a signed BEEFY commitment (bridges/modules/beefy/src/utils.rs). Signature
    verification, the Merkle root of a validator list and MMR proofs are given functions. */
module BeefyVerification {
  import opened Wrappers
  import SetSizes

  type Hash(==, !new)
  type AuthorityId(==, !new)
  type Signature(==, !new)
  type MmrProof(==, !new)

  datatype Commitment = Commitment(blockNumber: nat, validatorSetId: nat, mmrRoot: Option<Hash>)

  datatype SignedCommitment = SignedCommitment(commitment: Commitment, signatures: seq<Option<Signature>>)

  datatype ValidatorSet = ValidatorSet(id: nat, validators: seq<AuthorityId>)

  datatype AuthoritySetInfo = AuthoritySetInfo(id: nat, len: nat, keysetCommitment: Hash)

  datatype MmrLeaf = MmrLeaf(parentNumber: nat, parentHash: Hash, nextAuthoritySet: AuthoritySetInfo)

  datatype Crypto = Crypto(
    verifySignature: (AuthorityId, Signature, Commitment) -> bool,
    keysetRoot: seq<AuthorityId> -> Hash,
    verifyLeaf: (MmrLeaf, MmrProof, Hash) -> bool)

  datatype Error =
    | NotInitialized
    | AlreadyInitialized
    | InvalidInitialAuthoritySet
    | TooManyRequests
    | OldCommitment
    | InvalidCommitmentValidatorSetId
    | InvalidValidatorSetId
    | InvalidCommitmentSignaturesLen
    | InvalidValidatorSetLen
    | NotEnoughCorrectSignatures
    | MmrRootMissingFromCommitment
    | MmrProofVerificationFailed
    | InvalidValidatorSetRoot
    | PalletHalted
    | BadOrigin

  function SignaturesRequired(validatorsLen: nat): nat {
    validatorsLen - (if validatorsLen == 0 then 0 else validatorsLen - 1) / 3
  }

  /** Fewer than a third of the validators are missing. An empty set has nobody to wait for. */
  predicate Quorum(validatorsLen: nat, signers: nat) {
    validatorsLen == 0 || 3 * (validatorsLen - signers) < validatorsLen
  }

  /** The required number is the least that leaves fewer than a third missing. */
  lemma RequiredIsQuorum(validatorsLen: nat, signers: nat)
    ensures SignaturesRequired(validatorsLen) <= signers <==> Quorum(validatorsLen, signers)
  {
  }

  /** So many validators may be missing as is less than a third of them, and not one more. */
  lemma ToleratedFaults(validatorsLen: nat)
    requires 0 < validatorsLen
    ensures
      var tolerated := validatorsLen - SignaturesRequired(validatorsLen);
      3 * tolerated < validatorsLen <= 3 * (tolerated + 1)
  {
  }

  predicate SignedAt(crypto: Crypto, signed: SignedCommitment, validators: seq<AuthorityId>, i: nat) {
    && i < |validators| && i < |signed.signatures|
    && signed.signatures[i].Some?
    && crypto.verifySignature(validators[i], signed.signatures[i].value, signed.commitment)
  }

  /** The positions below `bound` that carry a verifying signature. */
  ghost function SignedPositions(crypto: Crypto, signed: SignedCommitment, validators: seq<AuthorityId>, bound: nat)
    : set<nat>
  {
    set i | 0 <= i < bound && SignedAt(crypto, signed, validators, i)
  }

  ghost function Signers(crypto: Crypto, signed: SignedCommitment, validators: seq<AuthorityId>): set<nat> {
    SignedPositions(crypto, signed, validators, |validators|)
  }

  lemma MoreSigners(crypto: Crypto, signed: SignedCommitment, validators: seq<AuthorityId>, i: nat, bound: nat)
    requires i < bound
    ensures SignedPositions(crypto, signed, validators, i + 1) ==
            SignedPositions(crypto, signed, validators, i) +
            if SignedAt(crypto, signed, validators, i) then {i} else {}
    ensures |SignedPositions(crypto, signed, validators, i + 1)| <= |SignedPositions(crypto, signed, validators, bound)|
  {
    SetSizes.SubsetSize(SignedPositions(crypto, signed, validators, i + 1),
                          SignedPositions(crypto, signed, validators, bound));
  }

  /** Stops at the signature that completes the quorum. It accepts exactly when fewer than a third of the
      signatures are missing. */
  method VerifySignatures(crypto: Crypto, signed: SignedCommitment, authoritySet: ValidatorSet)
    returns (r: Result<(), Error>)
    ensures r.Ok? <==>
            && |signed.signatures| == |authoritySet.validators|
            && Quorum(|authoritySet.validators|, |Signers(crypto, signed, authoritySet.validators)|)
    ensures r == Err(InvalidCommitmentSignaturesLen) <==> |signed.signatures| != |authoritySet.validators|
    ensures r.Err? ==> r.error in {InvalidCommitmentSignaturesLen, NotEnoughCorrectSignatures}
  {
    var validators := authoritySet.validators;
    if |signed.signatures| != |validators| {
      return Err(InvalidCommitmentSignaturesLen);
    }
    var required := SignaturesRequired(|validators|);
    RequiredIsQuorum(|validators|, |Signers(crypto, signed, validators)|);
    var missing := required;
    assert SignedPositions(crypto, signed, validators, 0) == {};
    for i := 0 to |validators|
      invariant |SignedPositions(crypto, signed, validators, i)| + missing == required
      invariant 0 < i ==> 0 < missing
    {
      MoreSigners(crypto, signed, validators, i, |validators|);
      var signature := signed.signatures[i];
      if signature.Some? && crypto.verifySignature(validators[i], signature.value, signed.commitment) {
        missing := missing - 1;
        if missing == 0 {
          return Ok(());
        }
      }
    }
    if missing == 0 {
      return Ok(());
    }
    return Err(NotEnoughCorrectSignatures);
  }

  /** The validator set is the one that the pallet expects. */
  predicate MatchesInfo(crypto: Crypto, info: AuthoritySetInfo, authoritySet: ValidatorSet) {
    && authoritySet.id == info.id
    && |authoritySet.validators| == info.len
    && crypto.keysetRoot(authoritySet.validators) == info.keysetCommitment
  }

  method VerifyAuthoritySet(crypto: Crypto, info: AuthoritySetInfo, authoritySet: ValidatorSet)
    returns (r: Result<(), Error>)
    ensures r.Ok? <==> MatchesInfo(crypto, info, authoritySet)
    ensures r == Err(InvalidValidatorSetId) <==> authoritySet.id != info.id
    ensures r == Err(InvalidValidatorSetLen) <==> authoritySet.id == info.id && |authoritySet.validators| != info.len
    ensures r.Err? ==> r.error in {InvalidValidatorSetId, InvalidValidatorSetLen, InvalidValidatorSetRoot}
  {
    if authoritySet.id != info.id {
      return Err(InvalidValidatorSetId);
    }
    if |authoritySet.validators| != info.len {
      return Err(InvalidValidatorSetLen);
    }
    if crypto.keysetRoot(authoritySet.validators) != info.keysetCommitment {
      return Err(InvalidValidatorSetRoot);
    }
    return Ok(());
  }

  /** The commitment names the expected set, the validators are that set, a quorum of them signed
      it, and it carries an MMR root. */
  ghost predicate Committed(
    crypto: Crypto, signed: SignedCommitment, info: AuthoritySetInfo, authoritySet: ValidatorSet)
  {
    && signed.commitment.validatorSetId == info.id
    && MatchesInfo(crypto, info, authoritySet)
    && |signed.signatures| == info.len
    && Quorum(info.len, |Signers(crypto, signed, authoritySet.validators)|)
    && signed.commitment.mmrRoot.Some?
  }

  method VerifyCommitment(crypto: Crypto, signed: SignedCommitment, info: AuthoritySetInfo, authoritySet: ValidatorSet)
    returns (r: Result<Hash, Error>)
    ensures r.Ok? <==> Committed(crypto, signed, info, authoritySet)
    ensures r.Ok? ==> signed.commitment.mmrRoot == Some(r.value)
    ensures r == Err(InvalidCommitmentValidatorSetId) <==> signed.commitment.validatorSetId != info.id
    ensures r == Err(InvalidCommitmentSignaturesLen) <==>
            signed.commitment.validatorSetId == info.id && |signed.signatures| != info.len
    ensures r.Err? && r.error in {InvalidValidatorSetId, InvalidValidatorSetLen, InvalidValidatorSetRoot} <==>
            && signed.commitment.validatorSetId == info.id && |signed.signatures| == info.len
            && !MatchesInfo(crypto, info, authoritySet)
    ensures r == Err(NotEnoughCorrectSignatures) <==>
            && signed.commitment.validatorSetId == info.id && |signed.signatures| == info.len
            && MatchesInfo(crypto, info, authoritySet)
            && !Quorum(info.len, |Signers(crypto, signed, authoritySet.validators)|)
    ensures r == Err(MmrRootMissingFromCommitment) ==> signed.commitment.mmrRoot.None?
    ensures r.Err? ==> r.error in {InvalidCommitmentValidatorSetId, InvalidCommitmentSignaturesLen,
                                   InvalidValidatorSetId, InvalidValidatorSetLen, InvalidValidatorSetRoot,
                                   NotEnoughCorrectSignatures, MmrRootMissingFromCommitment}
  {
    if signed.commitment.validatorSetId != info.id {
      return Err(InvalidCommitmentValidatorSetId);
    }
    if |signed.signatures| != info.len {
      return Err(InvalidCommitmentSignaturesLen);
    }
    var setChecked := VerifyAuthoritySet(crypto, info, authoritySet);
    if setChecked.Err? {
      return Err(setChecked.error);
    }
    var signaturesChecked := VerifySignatures(crypto, signed, authoritySet);
    if signaturesChecked.Err? {
      return Err(signaturesChecked.error);
    }
    if signed.commitment.mmrRoot.None? {
      return Err(MmrRootMissingFromCommitment);
    }
    return Ok(signed.commitment.mmrRoot.value);
  }

  /** Quorum intersection: two commitments that the same authority set has committed to share
      more than a third of the validators, so one that is not faulty if at most a third are. */
  lemma QuorumsIntersect(
    crypto: Crypto, info: AuthoritySetInfo, first: SignedCommitment, firstSet: ValidatorSet,
    second: SignedCommitment, secondSet: ValidatorSet)
    requires 0 < info.len
    requires Committed(crypto, first, info, firstSet) && Committed(crypto, second, info, secondSet)
    requires forall a, b :: crypto.keysetRoot(a) == crypto.keysetRoot(b) ==> a == b
    ensures firstSet == secondSet
    ensures (info.len - 1) / 3 <
            |Signers(crypto, first, firstSet.validators) * Signers(crypto, second, firstSet.validators)|
  {
    assert crypto.keysetRoot(firstSet.validators) == crypto.keysetRoot(secondSet.validators);
    var a, b := Signers(crypto, first, firstSet.validators), Signers(crypto, second, firstSet.validators);
    SetSizes.BelowSize(a + b, info.len);
    assert |a + b| + |a * b| == |a| + |b|;
  }
}
