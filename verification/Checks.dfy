/** Validation as it runs: loops over claims and signatures that carry the sequence
    numbers, ids and signers met so far. */
module Checks {
  import opened Models
  import opened Chain
  import opened Validation
  import opened Store
  import Tables

  /** The head the store hands out, in the ledger's terms. */
  lemma HeadIs(store: ChainStore)
    requires store.Valid()
    ensures var c := store.Contents();
            && store.Height() == |c| - 1
            && store.Head() == (if c == [] then None else Some(Reconstruct(c[|c| - 1])))
            && (c == [] ==> TipHash(store.env, c) == GENESIS_PREV_HASH)
            && (c != [] ==> store.Head().value.Height() == |c| - 1)
            && (c != [] ==> store.env.Hash(store.Head().value) == TipHash(store.env, c))
            && (c != [] ==> store.Head().value.Epoch() == c[|c| - 1].Epoch())
  {
    hide AppendOk, Tables.FlatRows, Tables.TableOf;
    var c := store.Contents();
    if c != [] { BuiltHeights(store.env, c, |c| - 1); }
  }

  method CheckProposal(tolerance: real, p: Proposal, store: ChainStore, seen: set<string>, allowEmpty: bool)
    returns (fault: Option<Fault>, noted: set<string>)
    requires store.Valid()
    ensures ValidateProposal(store.env, tolerance, p, store.Contents(), seen, allowEmpty) ==
            if fault.Some? then Failed(fault.value) else Passed(noted)
  {
    hide TablesOk, TipHash, CheckClaims, Reconstruct, ChainStore.Contents, ChainStore.Height, ChainStore.BlockAt, ChainStore.Head;
    HeadIs(store);
    noted := seen;
    var head := store.Head();
    var headHeight := if head.Some? then head.value.Height() else -1;
    var expected := if head.Some? then store.env.Hash(head.value) else GENESIS_PREV_HASH;
    if p.height != headHeight + 1 { return Some(BadHeight), noted; }
    if p.prevHash != expected { return Some(BadPrevHash), noted; }
    if head.Some? && p.epoch <= head.value.Epoch() { return Some(EpochNotAdvancing), noted; }
    if !allowEmpty && p.claims == [] { return Some(EmptyProposal), noted; }
    fault, noted := CheckClaimList(store.env, tolerance, p.claims, headHeight, seen);
  }

  method CheckClaimList(env: Env, tolerance: real, cs: seq<SignedClaim>, head: int, seen: set<string>)
    returns (fault: Option<Fault>, noted: set<string>)
    ensures CheckClaims(env, tolerance, cs, 0, head, seen) == if fault.Some? then Failed(fault.value) else Passed(noted)
  {
    noted := seen;
    var sequences: map<string, int> := map[];
    var ids: set<string> := {};
    var i := 0;
    while i < |cs|
      invariant i <= |cs|
      invariant sequences == LastSequences(cs, i) && ids == IdsTo(cs, i) && noted == seen + IdsTo(cs, i)
      invariant CheckClaims(env, tolerance, cs, 0, head, seen) == CheckClaims(env, tolerance, cs, i, head, seen)
    {
      var c := cs[i].claim;
      if !env.claimVerifies(cs[i]) { return Some(BadClaimSignature), noted; }
      if !env.plausible(c, tolerance) { return Some(ImplausibleFlops), noted; }
      if c.claimId in noted || c.claimId in ids { return Some(DoubleClaim), noted; }
      if c.nodeId in sequences && sequences[c.nodeId] == c.sequence { return Some(ReusedSequence), noted; }
      sequences := sequences[c.nodeId := c.sequence];
      if c.lastSeenHeight > head { return Some(FutureCheckpoint), noted; }
      ids := ids + {c.claimId};
      noted := noted + {c.claimId};
      i := i + 1;
    }
    fault := None;
  }

  method CheckQuorum(env: Env, b: Checkpoint) returns (fault: Option<Fault>)
    ensures fault == QuorumFault(env, b)
  {
    var required := if b.quorum > 0 then b.quorum else 1;
    if |b.signatures| < required { return Some(InsufficientQuorum); }
    var signers: set<string> := {};
    var i := 0;
    while i < |b.signatures|
      invariant i <= |b.signatures|
      invariant signers == SignersTo(b.signatures, i)
      invariant CheckSignatures(env, b, 0) == CheckSignatures(env, b, i)
    {
      var s := b.signatures[i];
      if s.nodeId in signers { return Some(DuplicateSigner); }
      signers := signers + {s.nodeId};
      if !env.shareVerifies(s.signature, s.publicKey, env.proposalHash(b.proposal)) { return Some(BadQuorumSignature); }
      i := i + 1;
    }
    fault := None;
  }

  method CheckCheckpoint(tolerance: real, b: Checkpoint, store: ChainStore, seen: set<string>, allowEmpty: bool)
    returns (fault: Option<Fault>, noted: set<string>)
    requires store.Valid()
    ensures ValidateCheckpoint(store.env, tolerance, b, store.Contents(), seen, allowEmpty) ==
            if fault.Some? then Failed(fault.value) else Passed(noted)
  {
    hide ValidateProposal, QuorumFault, TablesOk, ChainStore.Contents;
    if IsCanonicalGenesis(b.proposal) { return None, seen; }
    fault, noted := CheckProposal(tolerance, b.proposal, store, seen, allowEmpty);
    if fault.Some? { return; }
    fault := CheckQuorum(store.env, b);
  }
}
