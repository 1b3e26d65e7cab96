/** Chains whose every block passed validation and append: what they guarantee, and why
    any other node accepts them. */
module Validity {
  import opened Models
  import opened Chain
  import opened Validation

  /** The block passes validation with no claims noted yet, and the store takes it. */
  ghost predicate Acceptable(env: Env, tolerance: real, chain: Ledger, b: Checkpoint) {
    ValidateCheckpoint(env, tolerance, b, chain, {}, false).Passed? && AppendOk(env, chain, b)
  }

  ghost predicate ValidChain(env: Env, tolerance: real, chain: Ledger) {
    forall i :: 0 <= i < |chain| ==> Acceptable(env, tolerance, chain[..i], chain[i])
  }

  lemma ValidPrefix(env: Env, tolerance: real, chain: Ledger, k: nat)
    requires ValidChain(env, tolerance, chain) && k <= |chain|
    ensures ValidChain(env, tolerance, chain[..k])
  {
    hide Acceptable;
    forall i | 0 <= i < k ensures Acceptable(env, tolerance, chain[..k][..i], chain[..k][i]) {
      assert chain[..k][..i] == chain[..i];
    }
  }

  lemma ValidSnoc(env: Env, tolerance: real, chain: Ledger, b: Checkpoint)
    requires ValidChain(env, tolerance, chain) && Acceptable(env, tolerance, chain, b)
    ensures ValidChain(env, tolerance, chain + [b])
  {
    hide Acceptable;
    var c := chain + [b];
    forall i | 0 <= i < |c| ensures Acceptable(env, tolerance, c[..i], c[i]) {
      if i < |chain| { assert c[..i] == chain[..i]; } else { assert c[..i] == chain; }
    }
  }

  lemma ValidBuilt(env: Env, tolerance: real, chain: Ledger)
    requires ValidChain(env, tolerance, chain)
    ensures Built(env, chain)
  {
    hide AppendOk, ValidateCheckpoint;
    forall i | 0 <= i < |chain| ensures AppendOk(env, chain[..i], chain[i]) {
      assert Acceptable(env, tolerance, chain[..i], chain[i]);
    }
  }

  // ------------------------------------------------------- the seen set and the verdict

  /** Fewer noted claims never turn a pass into a failure. */
  lemma PassWithFewerSeen(env: Env, tolerance: real, b: Checkpoint, chain: Ledger, seen: set<string>, fewer: set<string>)
    requires fewer <= seen && ValidateCheckpoint(env, tolerance, b, chain, seen, false).Passed?
    ensures ValidateCheckpoint(env, tolerance, b, chain, fewer, false).Passed?
  {
    hide ValidateCheckpoint, QuorumMet;
    CheckpointPassesIff(env, tolerance, b, chain, seen, false);
    CheckpointPassesIff(env, tolerance, b, chain, fewer, false);
    var cs := b.proposal.claims;
    if !IsCanonicalGenesis(b.proposal) {
      forall i | 0 <= i < |cs| ensures ClaimSound(env, tolerance, cs[i], |chain| - 1, fewer) {
        assert ClaimSound(env, tolerance, cs[i], |chain| - 1, seen);
      }
    }
  }

  /** An acceptable block passes with the ledger's own claims noted. */
  lemma PassWithLedgerSeen(env: Env, tolerance: real, b: Checkpoint, chain: Ledger)
    requires Acceptable(env, tolerance, chain, b)
    ensures ValidateCheckpoint(env, tolerance, b, chain, ClaimIds(chain), false).Passed?
    ensures ValidateCheckpoint(env, tolerance, b, chain, ClaimIds(chain), false).seen == ClaimIds(chain) + BlockIds(b)
  {
    hide ValidateCheckpoint, QuorumMet, NoRepeat, FreshHash;
    CheckpointPassesIff(env, tolerance, b, chain, {}, false);
    CheckpointPassesIff(env, tolerance, b, chain, ClaimIds(chain), false);
    var cs := b.proposal.claims;
    if !IsCanonicalGenesis(b.proposal) {
      forall i | 0 <= i < |cs| ensures ClaimSound(env, tolerance, cs[i], |chain| - 1, ClaimIds(chain)) {
        assert ClaimSound(env, tolerance, cs[i], |chain| - 1, {});
        NewToLedger(env, chain, b, i);
      }
    }
  }

  lemma NewToLedger(env: Env, chain: Ledger, b: Checkpoint, i: nat)
    requires AppendOk(env, chain, b) && i < |b.proposal.claims|
    ensures b.proposal.claims[i].claim.claimId !in ClaimIds(chain)
  {
    var c := BlockClaims(b)[i];
    forall k | 0 <= k < |Claims(chain)| ensures Claims(chain)[k].claimId != c.claimId {
      assert !Clash(Claims(chain)[k], c);
    }
  }

  // --------------------------------------------------------------- quorums and copies

  /** Validation and append do not see the quorums of the blocks below. */
  lemma SameAcceptable(env: Env, tolerance: real, c: Ledger, d: Ledger, b: Checkpoint)
    requires SameChain(c, d)
    ensures Acceptable(env, tolerance, c, b) <==> Acceptable(env, tolerance, d, b)
  {
    hide AppendOk, CheckClaims, QuorumFault, TipHash;
    SameAppend(env, c, d, b, b);
    assert c != [] ==> c[|c| - 1].Epoch() == d[|d| - 1].Epoch() by { assert c != [] ==> SameBlock(c[|c| - 1], d[|c| - 1]); }
  }

  /** A block read back from the store is as acceptable as the one put in, also one from
      before quorums were recorded. */
  lemma ReconstructAcceptable(env: Env, tolerance: real, chain: Ledger, b: Checkpoint)
    ensures Acceptable(env, tolerance, chain, b) <==> Acceptable(env, tolerance, chain, Reconstruct(b))
    ensures SameBlock(b, Reconstruct(b)) && Reconstruct(b).quorum == if b.quorum > 0 then b.quorum else |b.signatures|
  {
    hide AppendOk, ValidateProposal;
    var r := Reconstruct(b);
    SameAppend(env, chain, chain, b, r);
    QuorumMetIff(env, b);
    QuorumMetIff(env, r);
    assert QuorumMet(env, b) <==> QuorumMet(env, r);
  }

  /** What a node serves is as valid as what it stores. */
  lemma ServedValid(env: Env, tolerance: real, chain: Ledger)
    requires ValidChain(env, tolerance, chain)
    ensures ValidChain(env, tolerance, Served(chain))
  {
    hide Acceptable;
    var s := Served(chain);
    forall i | 0 <= i < |s| ensures Acceptable(env, tolerance, s[..i], s[i]) {
      ServedSame(chain);
      SamePrefix(chain, s, i);
      ReconstructAcceptable(env, tolerance, chain[..i], chain[i]);
      SameAcceptable(env, tolerance, chain[..i], s[..i], s[i]);
    }
  }

  // ------------------------------------------------------------------ portable validity

  /** Above height 0 every block of a valid chain carries at least its recorded quorum,
      and at least one, of distinct-signer signatures over its proposal, and has a later
      epoch than the block below. */
  lemma BlocksAreSealed(env: Env, tolerance: real, chain: Ledger, i: nat)
    requires ValidChain(env, tolerance, chain) && 0 < i < |chain|
    ensures QuorumMet(env, chain[i])
    ensures var ss := chain[i].signatures;
            && |ss| >= 1 && |ss| >= chain[i].quorum
            && (forall j, k :: 0 <= j < k < |ss| ==> ss[j].nodeId != ss[k].nodeId)
            && (forall j :: 0 <= j < |ss| ==> env.shareVerifies(ss[j].signature, ss[j].publicKey, env.proposalHash(chain[i].proposal)))
    ensures chain[i].Epoch() > chain[i - 1].Epoch()
    ensures chain[i].proposal.claims != []
  {
    hide ValidateCheckpoint, ClaimsAcceptable;
    assert Acceptable(env, tolerance, chain[..i], chain[i]);
    CheckpointPassesIff(env, tolerance, chain[i], chain[..i], {}, false);
    assert chain[i].Height() == i;
  }

  /** A node that holds the first `k` blocks, in whatever copies, takes the rest of a valid
      chain one by one: each passes validation there and is appended. */
  lemma ChainIsPortable(env: Env, tolerance: real, chain: Ledger, local: Ledger, k: nat)
    requires ValidChain(env, tolerance, chain) && k <= |chain| && SameChain(local, chain[..k])
    ensures forall i :: k <= i < |chain| ==> Acceptable(env, tolerance, local + chain[k..i], chain[i])
  {
    hide Acceptable;
    forall i | k <= i < |chain| ensures Acceptable(env, tolerance, local + chain[k..i], chain[i]) {
      SplicedPrefix(chain, local, k, i);
      SameAcceptable(env, tolerance, chain[..i], local + chain[k..i], chain[i]);
    }
  }

  lemma SplicedPrefix(chain: Ledger, local: Ledger, k: nat, i: nat)
    requires k <= i <= |chain| && SameChain(local, chain[..k])
    ensures SameChain(chain[..i], local + chain[k..i])
  {
    var d := local + chain[k..i];
    forall j | 0 <= j < i ensures SameBlock(chain[..i][j], d[j]) {
      if j < k { assert SameBlock(local[j], chain[..k][j]); }
    }
  }

  // ------------------------------------------------------- when a passed block is refused

  /** One sequence number of one node. */
  predicate SameTurn(a: Claim, b: Claim) { a.nodeId == b.nodeId && a.sequence == b.sequence }

  /** No two claims of the block, and no claim of it and one of the ledger, share a turn. */
  ghost predicate TurnsNew(chain: Ledger, b: Checkpoint) {
    && (forall i, j :: 0 <= i < |Claims(chain)| && 0 <= j < |BlockClaims(b)| ==> !SameTurn(Claims(chain)[i], BlockClaims(b)[j]))
    && (forall i, j :: 0 <= i < j < |BlockClaims(b)| ==> !SameTurn(BlockClaims(b)[i], BlockClaims(b)[j]))
  }

  /** No claim of the block has the id of one in the ledger. */
  ghost predicate IdsNew(chain: Ledger, b: Checkpoint) {
    forall i, j :: 0 <= i < |Claims(chain)| && 0 <= j < |BlockClaims(b)| ==> Claims(chain)[i].claimId != BlockClaims(b)[j].claimId
  }

  /** Nothing in the block was used before: no id of the ledger, no turn twice. On an empty
      ledger nothing has looked at the epoch yet. */
  ghost predicate BringsNew(chain: Ledger, b: Checkpoint) {
    (chain == [] ==> b.Epoch() >= 0) && IdsNew(chain, b) && TurnsNew(chain, b)
  }

  /** On any ledger and whatever ids were noted, a block that passes validation is appended
      if and only if it is for the next height (the genesis block passes anywhere) and brings
      only new ids and turns (and, first of all, no negative epoch). */
  lemma PassedAppendsIff(env: Env, tolerance: real, chain: Ledger, b: Checkpoint, seen: set<string>)
    requires Binding(env) && Built(env, chain)
    requires ValidateCheckpoint(env, tolerance, b, chain, seen, false).Passed?
    ensures AppendOk(env, chain, b) <==> b.Height() == |chain| && BringsNew(chain, b)
  {
    hide ValidateCheckpoint, QuorumMet, Binding, Built, FreshHash, ClashFree, NoRepeat, TurnsNew, IdsNew, ClaimSound, NextOfNode;
    CheckpointPassesIff(env, tolerance, b, chain, seen, false);
    if b.Height() == |chain| { HashIsFresh(env, chain, b); }
    if chain != [] { EpochCounts(env, chain); }
    ClashesAre(chain, b) by {
      forall i, j | 0 <= i < j < |BlockClaims(b)| ensures BlockClaims(b)[i].claimId != BlockClaims(b)[j].claimId {
        assert b.proposal.claims[i].claim.claimId != b.proposal.claims[j].claim.claimId;
      }
    }
  }

  /** Where the ledger's ids were noted only turns are left to decide. */
  lemma NotedAppendsIff(env: Env, tolerance: real, chain: Ledger, b: Checkpoint, seen: set<string>)
    requires Binding(env) && Built(env, chain) && ClaimIds(chain) <= seen
    requires ValidateCheckpoint(env, tolerance, b, chain, seen, false).Passed?
    ensures AppendOk(env, chain, b) <==> b.Height() == |chain| && (chain == [] ==> b.Epoch() >= 0) && TurnsNew(chain, b)
  {
    hide ValidateCheckpoint, QuorumMet, Binding, Built, AppendOk, TurnsNew, Claims, ClaimIds;
    PassedAppendsIff(env, tolerance, chain, b, seen);
    CheckpointPassesIff(env, tolerance, b, chain, seen, false);
    forall i, j | 0 <= i < |Claims(chain)| && 0 <= j < |BlockClaims(b)|
      ensures Claims(chain)[i].claimId != BlockClaims(b)[j].claimId
    {
      IdNotInLedger(env, tolerance, chain, b.proposal.claims[j], seen, i);
    }
  }

  lemma HashIsFresh(env: Env, chain: Ledger, b: Checkpoint)
    requires Binding(env) && Built(env, chain) && b.Height() == |chain|
    ensures FreshHash(env, chain, b)
  {
    hide Binding, Built;
    forall i | 0 <= i < |chain| ensures env.Hash(chain[i]) != env.Hash(b) {
      BuiltHeights(env, chain, i);
      if env.Hash(chain[i]) == env.Hash(b) { EqualHash(env, chain[i], b); }
    }
  }

  lemma EpochCounts(env: Env, chain: Ledger)
    requires Built(env, chain) && chain != []
    ensures chain[|chain| - 1].Epoch() >= 0
  {
    assert AppendOk(env, chain[..|chain| - 1], chain[|chain| - 1]);
  }

  lemma ClashesAre(chain: Ledger, b: Checkpoint)
    requires forall i, j :: 0 <= i < j < |BlockClaims(b)| ==> BlockClaims(b)[i].claimId != BlockClaims(b)[j].claimId
    ensures ClashFree(Claims(chain), BlockClaims(b)) && NoRepeat(BlockClaims(b)) <==> IdsNew(chain, b) && TurnsNew(chain, b)
  {
    hide Claims;
    var cs, ds := Claims(chain), BlockClaims(b);
    ClashParts(cs, ds);
    RepeatParts(ds);
  }

  lemma IdNotInLedger(env: Env, tolerance: real, chain: Ledger, c: SignedClaim, seen: set<string>, i: nat)
    requires ClaimIds(chain) <= seen && ClaimSound(env, tolerance, c, |chain| - 1, seen) && i < |Claims(chain)|
    ensures Claims(chain)[i].claimId != c.claim.claimId
  {
    hide Claims;
    assert Claims(chain)[i].claimId in ClaimIds(chain);
  }

  lemma ClashParts(cs: seq<Claim>, ds: seq<Claim>)
    ensures ClashFree(cs, ds) <==>
            (forall i, j :: 0 <= i < |cs| && 0 <= j < |ds| ==> cs[i].claimId != ds[j].claimId) &&
            (forall i, j :: 0 <= i < |cs| && 0 <= j < |ds| ==> !SameTurn(cs[i], ds[j]))
  {
    if ClashFree(cs, ds) {
      assert forall i, j :: 0 <= i < |cs| && 0 <= j < |ds| ==> !Clash(cs[i], ds[j]);
    }
  }

  lemma RepeatParts(ds: seq<Claim>)
    requires forall i, j :: 0 <= i < j < |ds| ==> ds[i].claimId != ds[j].claimId
    ensures NoRepeat(ds) <==> forall i, j :: 0 <= i < j < |ds| ==> !SameTurn(ds[i], ds[j])
  {
    assert forall i, j :: 0 <= i < j < |ds| ==> (Clash(ds[i], ds[j]) <==> SameTurn(ds[i], ds[j]));
  }

  /** Validation does let such blocks through: it remembers only a node's latest sequence
      number, so three sound claims of one node numbered x, y, x pass. */
  lemma RepeatedTurnPasses(env: Env, tolerance: real, b: Checkpoint, chain: Ledger, seen: set<string>)
    requires var cs := b.proposal.claims;
             && |cs| == 3
             && (forall i :: 0 <= i < 3 ==> ClaimSound(env, tolerance, cs[i], |chain| - 1, seen) && cs[i].claim.nodeId == cs[0].claim.nodeId)
             && cs[0].claim.claimId != cs[1].claim.claimId && cs[0].claim.claimId != cs[2].claim.claimId && cs[1].claim.claimId != cs[2].claim.claimId
             && cs[0].claim.sequence == cs[2].claim.sequence != cs[1].claim.sequence
    ensures ClaimsAcceptable(env, tolerance, b.proposal.claims, 3, |chain| - 1, seen)
    ensures !TurnsNew(chain, b) && !AppendOk(env, chain, b)
  {
    hide Claims, ClaimSound, NextOfNode, ClaimsAcceptable, ClashFree, FreshHash, TipHash;
    ConsecutiveDiffer(env, tolerance, b.proposal.claims, |chain| - 1, seen);
    assert SameTurn(BlockClaims(b)[0], BlockClaims(b)[2]);
    assert Clash(BlockClaims(b)[0], BlockClaims(b)[2]);
  }

  lemma ConsecutiveDiffer(env: Env, tolerance: real, cs: seq<SignedClaim>, head: int, seen: set<string>)
    requires forall i :: 0 <= i < |cs| ==> ClaimSound(env, tolerance, cs[i], head, seen) && cs[i].claim.nodeId == cs[0].claim.nodeId
    requires forall i, j :: 0 <= i < j < |cs| ==> cs[i].claim.claimId != cs[j].claim.claimId
    requires forall i :: 0 <= i < |cs| - 1 ==> cs[i].claim.sequence != cs[i + 1].claim.sequence
    ensures ClaimsAcceptable(env, tolerance, cs, |cs|, head, seen)
  {
    hide ClaimSound;
    forall i, j | j < |cs| && NextOfNode(cs, i, j) ensures cs[i].claim.sequence != cs[j].claim.sequence { OneNode(cs, i, j); }
  }

  /** Where all claims are one node's, the next one is the next in the list. */
  lemma OneNode(cs: seq<SignedClaim>, i: int, j: int)
    requires NextOfNode(cs, i, j) && forall k :: 0 <= k < |cs| ==> cs[k].claim.nodeId == cs[0].claim.nodeId
    ensures 0 <= i && j == i + 1 < |cs|
  {
    var next := cs[i + 1];
  }
}
