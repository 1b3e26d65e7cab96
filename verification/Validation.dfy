/** The rules a proposal and a committed checkpoint must pass, and what passing means. */
module Validation {
  import opened Models
  import opened Chain

  datatype Fault =
    | BadHeight | BadPrevHash | EpochNotAdvancing | EmptyProposal
    | BadClaimSignature | ImplausibleFlops | DoubleClaim | ReusedSequence | FutureCheckpoint
    | InsufficientQuorum | DuplicateSigner | BadQuorumSignature

  /** `Passed` carries the caller's seen set with the claims added. */
  datatype Verdict = Passed(seen: set<string>) | Failed(fault: Fault)

  predicate IsCanonicalGenesis(p: Proposal) {
    p.height == 0 && p.epoch == 0 && p.prevHash == GENESIS_PREV_HASH && p.sealedBy == GENESIS_SEALER &&
    p.claims == [] && p.createdAt == GENESIS_TIMESTAMP
  }

  // ---------------------------------------------------------------------- claims

  /** The last sequence number each node used among the first `i` claims. */
  function LastSequences(cs: seq<SignedClaim>, i: nat): map<string, int>
    requires i <= |cs|
  {
    if i == 0 then map[] else LastSequences(cs, i - 1)[cs[i - 1].claim.nodeId := cs[i - 1].claim.sequence]
  }

  function IdsTo(cs: seq<SignedClaim>, i: nat): set<string>
    requires i <= |cs|
  { if i == 0 then {} else IdsTo(cs, i - 1) + {cs[i - 1].claim.claimId} }

  /** What is wrong with claim `i`, given the ones before it. */
  function ClaimFault(env: Env, tolerance: real, cs: seq<SignedClaim>, i: nat, head: int, seen: set<string>): Option<Fault>
    requires i < |cs|
  {
    var c := cs[i].claim;
    if !env.claimVerifies(cs[i]) then Some(BadClaimSignature)
    else if !env.plausible(c, tolerance) then Some(ImplausibleFlops)
    else if c.claimId in seen + IdsTo(cs, i) then Some(DoubleClaim)
    else if c.nodeId in LastSequences(cs, i) && LastSequences(cs, i)[c.nodeId] == c.sequence then Some(ReusedSequence)
    else if c.lastSeenHeight > head then Some(FutureCheckpoint)
    else None
  }

  function CheckClaims(env: Env, tolerance: real, cs: seq<SignedClaim>, i: nat, head: int, seen: set<string>): Verdict
    requires i <= |cs|
    decreases |cs| - i
  {
    if i == |cs| then Passed(seen + IdsTo(cs, i))
    else
      var f := ClaimFault(env, tolerance, cs, i, head, seen);
      if f.Some? then Failed(f.value) else CheckClaims(env, tolerance, cs, i + 1, head, seen)
  }

  function HeaderFault(env: Env, p: Proposal, chain: Ledger, allowEmpty: bool): Option<Fault> {
    if p.height != |chain| then Some(BadHeight)
    else if p.prevHash != TipHash(env, chain) then Some(BadPrevHash)
    else if chain != [] && p.epoch <= chain[|chain| - 1].Epoch() then Some(EpochNotAdvancing)
    else if !allowEmpty && p.claims == [] then Some(EmptyProposal)
    else None
  }

  function ValidateProposal(env: Env, tolerance: real, p: Proposal, chain: Ledger, seen: set<string>, allowEmpty: bool): Verdict {
    var f := HeaderFault(env, p, chain, allowEmpty);
    if f.Some? then Failed(f.value) else CheckClaims(env, tolerance, p.claims, 0, |chain| - 1, seen)
  }

  // ---------------------------------------------------------------------- quorum

  /** The signatures a block must carry: its frozen quorum, or one if none is recorded. */
  function Required(b: Checkpoint): nat { if b.quorum > 0 then b.quorum else 1 }

  function SignersTo(ss: seq<QuorumSignature>, i: nat): set<string>
    requires i <= |ss|
  { if i == 0 then {} else SignersTo(ss, i - 1) + {ss[i - 1].nodeId} }

  predicate SignatureOk(env: Env, p: Proposal, s: QuorumSignature) {
    env.shareVerifies(s.signature, s.publicKey, env.proposalHash(p))
  }

  function CheckSignatures(env: Env, b: Checkpoint, i: nat): Option<Fault>
    requires i <= |b.signatures|
    decreases |b.signatures| - i
  {
    if i == |b.signatures| then None
    else if b.signatures[i].nodeId in SignersTo(b.signatures, i) then Some(DuplicateSigner)
    else if !SignatureOk(env, b.proposal, b.signatures[i]) then Some(BadQuorumSignature)
    else CheckSignatures(env, b, i + 1)
  }

  function QuorumFault(env: Env, b: Checkpoint): Option<Fault> {
    if |b.signatures| < Required(b) then Some(InsufficientQuorum) else CheckSignatures(env, b, 0)
  }

  /** The committee the node knows plays no part in the verdict. */
  function ValidateCheckpoint(env: Env, tolerance: real, b: Checkpoint, chain: Ledger, seen: set<string>, allowEmpty: bool): Verdict {
    if IsCanonicalGenesis(b.proposal) then Passed(seen)
    else
      var v := ValidateProposal(env, tolerance, b.proposal, chain, seen, allowEmpty);
      if v.Failed? then v
      else
        var f := QuorumFault(env, b);
        if f.Some? then Failed(f.value) else v
  }

  // ------------------------------------------------------------- what passing means

  /** Claim `i` on its own: signed, plausible, not seen before, not from the future. */
  ghost predicate ClaimSound(env: Env, tolerance: real, s: SignedClaim, head: int, seen: set<string>) {
    env.claimVerifies(s) && env.plausible(s.claim, tolerance) && s.claim.claimId !in seen && s.claim.lastSeenHeight <= head
  }

  /** `j` is the next claim of `i`'s node. */
  ghost predicate NextOfNode(cs: seq<SignedClaim>, i: int, j: int) {
    0 <= i < j < |cs| && cs[i].claim.nodeId == cs[j].claim.nodeId &&
    forall k :: i < k < j ==> cs[k].claim.nodeId != cs[j].claim.nodeId
  }

  /** Every claim sound, ids distinct, and consecutive claims of one node with different
      sequence numbers; claims of a node further apart may share one. */
  ghost predicate ClaimsAcceptable(env: Env, tolerance: real, cs: seq<SignedClaim>, n: nat, head: int, seen: set<string>)
    requires n <= |cs|
  {
    && (forall i :: 0 <= i < n ==> ClaimSound(env, tolerance, cs[i], head, seen))
    && (forall i, j :: 0 <= i < j < n ==> cs[i].claim.claimId != cs[j].claim.claimId)
    && (forall i, j :: j < n && NextOfNode(cs, i, j) ==> cs[i].claim.sequence != cs[j].claim.sequence)
  }

  lemma {:induction false} IdsToMember(cs: seq<SignedClaim>, i: nat, id: string)
    requires i <= |cs|
    ensures id in IdsTo(cs, i) <==> exists k :: 0 <= k < i && cs[k].claim.claimId == id
  {
    if i == 0 {
    } else {
      IdsToMember(cs, i - 1, id);
    }
  }

  /** The recorded sequence number of a node is that of its latest claim. */
  lemma {:induction false} LastSequenceOf(cs: seq<SignedClaim>, i: nat, node: string) returns (k: int)
    requires i <= |cs|
    ensures node in LastSequences(cs, i) <==> k >= 0
    ensures k >= 0 ==> k < i && cs[k].claim.nodeId == node && LastSequences(cs, i)[node] == cs[k].claim.sequence
    ensures forall j :: k < j < i && j >= 0 ==> cs[j].claim.nodeId != node
    ensures k >= -1
  {
    if i == 0 {
      k := -1;
    } else if cs[i - 1].claim.nodeId == node {
      k := i - 1;
    } else {
      k := LastSequenceOf(cs, i - 1, node);
    }
  }

  /** One more claim is acceptable exactly when it has no fault. */
  lemma ClaimFaultStep(env: Env, tolerance: real, cs: seq<SignedClaim>, i: nat, head: int, seen: set<string>)
    requires i < |cs| && ClaimsAcceptable(env, tolerance, cs, i, head, seen)
    ensures ClaimFault(env, tolerance, cs, i, head, seen).None? <==> ClaimsAcceptable(env, tolerance, cs, i + 1, head, seen)
  {
    hide IdsTo, LastSequences;
    var c := cs[i].claim;
    IdsToMember(cs, i, c.claimId);
    var k := LastSequenceOf(cs, i, c.nodeId);
    if k >= 0 { assert NextOfNode(cs, k, i); }
    assert forall a :: NextOfNode(cs, a, i) ==> a == k;
  }

  lemma ClaimsAcceptableFewer(env: Env, tolerance: real, cs: seq<SignedClaim>, m: nat, n: nat, head: int, seen: set<string>)
    requires m <= n <= |cs| && ClaimsAcceptable(env, tolerance, cs, n, head, seen)
    ensures ClaimsAcceptable(env, tolerance, cs, m, head, seen)
  {
  }

  lemma {:induction false} CheckClaimsFrom(env: Env, tolerance: real, cs: seq<SignedClaim>, i: nat, head: int, seen: set<string>)
    requires i <= |cs| && ClaimsAcceptable(env, tolerance, cs, i, head, seen)
    ensures CheckClaims(env, tolerance, cs, i, head, seen).Passed? <==> ClaimsAcceptable(env, tolerance, cs, |cs|, head, seen)
    ensures CheckClaims(env, tolerance, cs, i, head, seen).Passed? ==>
              CheckClaims(env, tolerance, cs, i, head, seen).seen == seen + IdsTo(cs, |cs|)
    decreases |cs| - i
  {
    hide ClaimsAcceptable, ClaimFault;
    if i == |cs| {
    } else {
      ClaimFaultStep(env, tolerance, cs, i, head, seen);
      if ClaimFault(env, tolerance, cs, i, head, seen).None? {
        CheckClaimsFrom(env, tolerance, cs, i + 1, head, seen);
      } else if ClaimsAcceptable(env, tolerance, cs, |cs|, head, seen) {
        ClaimsAcceptableFewer(env, tolerance, cs, i + 1, |cs|, head, seen);
      }
    }
  }

  /** The claims of a proposal pass exactly when they are acceptable, and the seen set
      then grows by exactly their ids. */
  lemma ClaimsPassIff(env: Env, tolerance: real, cs: seq<SignedClaim>, head: int, seen: set<string>)
    ensures var v := CheckClaims(env, tolerance, cs, 0, head, seen);
            (v.Passed? <==> ClaimsAcceptable(env, tolerance, cs, |cs|, head, seen)) &&
            (v.Passed? ==> v.seen == seen + IdsTo(cs, |cs|))
  {
    CheckClaimsFrom(env, tolerance, cs, 0, head, seen);
  }

  lemma {:induction false} IdsToAll(cs: seq<SignedClaim>, b: Checkpoint)
    requires b.proposal.claims == cs
    ensures IdsTo(cs, |cs|) == BlockIds(b)
  {
    forall id ensures id in IdsTo(cs, |cs|) <==> id in BlockIds(b) {
      IdsToMember(cs, |cs|, id);
      if k :| 0 <= k < |cs| && cs[k].claim.claimId == id { assert BlockClaims(b)[k].claimId == id; }
    }
  }

  ghost predicate DistinctSigners(ss: seq<QuorumSignature>, n: nat)
    requires n <= |ss|
  { forall i, j :: 0 <= i < j < n ==> ss[i].nodeId != ss[j].nodeId }

  /** At least the required number of signatures, all by different signers, all over
      this proposal. */
  ghost predicate QuorumMet(env: Env, b: Checkpoint) {
    && |b.signatures| >= 1 && |b.signatures| >= b.quorum
    && DistinctSigners(b.signatures, |b.signatures|)
    && forall i :: 0 <= i < |b.signatures| ==>
         env.shareVerifies(b.signatures[i].signature, b.signatures[i].publicKey, env.proposalHash(b.proposal))
  }

  lemma {:induction false} SignersToMember(ss: seq<QuorumSignature>, i: nat, id: string)
    requires i <= |ss|
    ensures id in SignersTo(ss, i) <==> exists k :: 0 <= k < i && ss[k].nodeId == id
  {
    if i == 0 {
    } else {
      SignersToMember(ss, i - 1, id);
    }
  }

  lemma {:induction false} CheckSignaturesFrom(env: Env, b: Checkpoint, i: nat)
    requires i <= |b.signatures| && DistinctSigners(b.signatures, i)
    requires forall k :: 0 <= k < i ==> SignatureOk(env, b.proposal, b.signatures[k])
    ensures CheckSignatures(env, b, i).None? <==>
            DistinctSigners(b.signatures, |b.signatures|) &&
            forall k :: 0 <= k < |b.signatures| ==> SignatureOk(env, b.proposal, b.signatures[k])
    decreases |b.signatures| - i
  {
    hide SignersTo, SignatureOk;
    if i == |b.signatures| {
    } else {
      SignersToMember(b.signatures, i, b.signatures[i].nodeId);
      if CheckSignatures(env, b, i) == CheckSignatures(env, b, i + 1) && b.signatures[i].nodeId !in SignersTo(b.signatures, i)
         && SignatureOk(env, b.proposal, b.signatures[i]) {
        CheckSignaturesFrom(env, b, i + 1);
      }
    }
  }

  lemma QuorumMetIff(env: Env, b: Checkpoint)
    ensures QuorumFault(env, b).None? <==> QuorumMet(env, b)
  {
    CheckSignaturesFrom(env, b, 0);
  }

  /** A checkpoint passes exactly when it is the canonical genesis, or extends the head
      with a later epoch and acceptable claims and carries its quorum. */
  lemma CheckpointPassesIff(env: Env, tolerance: real, b: Checkpoint, chain: Ledger, seen: set<string>, allowEmpty: bool)
    ensures ValidateCheckpoint(env, tolerance, b, chain, seen, allowEmpty).Passed? <==>
            IsCanonicalGenesis(b.proposal) ||
            (&& b.Height() == |chain|
             && b.proposal.prevHash == TipHash(env, chain)
             && (chain != [] ==> b.Epoch() > chain[|chain| - 1].Epoch())
             && (allowEmpty || b.proposal.claims != [])
             && ClaimsAcceptable(env, tolerance, b.proposal.claims, |b.proposal.claims|, |chain| - 1, seen)
             && QuorumMet(env, b))
    ensures var v := ValidateCheckpoint(env, tolerance, b, chain, seen, allowEmpty);
            v.Passed? ==> v.seen == seen + BlockIds(b)
  {
    hide ClaimsAcceptable, QuorumMet, CheckClaims, QuorumFault, IdsTo;
    ClaimsPassIff(env, tolerance, b.proposal.claims, |chain| - 1, seen);
    QuorumMetIff(env, b);
    IdsToAll(b.proposal.claims, b);
    if IsCanonicalGenesis(b.proposal) { assert BlockIds(b) == {} by { assert |BlockClaims(b)| == 0; } }
  }
}
