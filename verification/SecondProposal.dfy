/** Where "one own proposal per height" does not hold: a node whose block is taken from it
    by a dropped tail proposes that height again. */
module SecondProposal {
  import opened Models
  import opened Chain
  import opened Validation
  import opened Committee
  import opened Protocol
  import opened Reorg
  import opened Invariant
  import opened ReorgSafety
  import opened Runs
  import opened TailDrop
  import Text

  /** Messages stay in the outbox, and if the ledger grew the proposal is gone. */
  ghost predicate Tried(env: Env, n: Node, m: Node, p: Proposal) {
    && (forall x :: x in n.outgoing ==> x in m.outgoing)
    && (m.chain != n.chain ==> m.proposals == n.proposals - {env.proposalHash(p)})
  }

  lemma CommitLocalTries(env: Env, config: Config, n: Node, b: Checkpoint, now: real)
    ensures Tried(env, n, CommitLocal(env, config, n, b, now), b.proposal)
  {
    hide AppendOk, Refused, BlockIds;
    RefusedTries(config, n, b, now);
  }

  lemma RefusedTries(config: Config, n: Node, b: Checkpoint, now: real)
    ensures var m := Refused(config, n, b, now);
            m.chain == n.chain && forall x :: x in n.outgoing ==> x in m.outgoing
  {
    hide AlreadyCommitted, BlockIds, ClaimIds;
  }

  lemma MaybeCommitTries(env: Env, config: Config, n: Node, p: Proposal, now: real)
    ensures Tried(env, n, MaybeCommit(env, config, n, p, now), p)
  {
    hide ValidateCheckpoint, CommitLocal, Quorum, SortedSignatures;
    CommitLocalTries(env, config, n, Sealed(config, n, p, SharesOf(n, env.proposalHash(p))), now);
  }

  /** A node that may propose does send its proposal; if the block goes in at once the
      proposal is outstanding no more. */
  lemma ProposingEmits(env: Env, config: Config, n: Node, now: real, stamp: string)
    requires Proposes(env, config, n, stamp) && Sound(env, config.flopsTolerance, n)
    ensures var m := ProposeInternal(env, config, n, now, stamp);
            var p := OwnProposal(env, n, stamp);
            && Emits(m, p)
            && (m.chain != n.chain ==> m.proposals == n.proposals[env.proposalHash(p) := p] - {env.proposalHash(p)})
  {
    hide Sound, Proposes, TakeUp, MaybeCommit, OwnProposal, Exact;
    var p := OwnProposal(env, n, stamp);
    var t := Proposed(env, n, now, stamp);
    ProposedIs(env, config.flopsTolerance, n, now, stamp);
    MaybeCommitTries(env, config, t, p, now);
    assert t.outgoing[|t.outgoing| - 1] == ProposalMessage(p);
  }

  lemma FewerOutstanding(n: Node, m: Node, height: int)
    requires !Outstanding(n, height) && forall h :: h in m.proposals ==> h in n.proposals && m.proposals[h] == n.proposals[h]
    ensures !Outstanding(m, height)
  {
  }

  /** A node proposes, its block goes in at once, and a rival takes it away: nothing is
      outstanding at that height any more. */
  lemma HeightIsOpen(env: Env, config: Config, s: Node, x: Checkpoint, rival: Checkpoint, a: string, t0: real, t1: real)
    requires Sound(env, config.flopsTolerance, s) && Proposes(env, config, Cleared(s), a)
    requires Step(env, config, s, Propose(a), t0).chain == s.chain + [x]
    requires rival.Height() == |s.chain| && rival.proposal.prevHash == TipHash(env, s.chain) && Text.Less(env.Hash(rival), env.Hash(x))
    requires ValidateCheckpoint(env, config.flopsTolerance, rival, s.chain, {}, false).Passed? && !AppendOk(env, s.chain, rival)
    ensures var s1 := Step(env, config, s, Propose(a), t0);
            var s2 := Step(env, config, s1, SyncResponseIn(s.chain + [rival]), t1);
            && Emits(s1, OwnProposal(env, Cleared(s), a))
            && s2.chain == s.chain && !Outstanding(s2, |s.chain|) && Sound(env, config.flopsTolerance, s2)
  {
    hide Sound, Step, ValidateCheckpoint, AppendOk, OutcomeOf, ReorgChain, Reconcile, TailOf, OwnProposal, Emits, Candidates, SealerFor,
      ValidateProposal, Offered, AppliedCount, AppliedHashes, EpochsBelow, Quiet, Declined, ProposeInternal, HasGenesisHeight;
    var tol := config.flopsTolerance;
    var c := Cleared(s);
    var s1 := Step(env, config, s, Propose(a), t0);
    var peer := s.chain + [rival];
    ClearedSound(env, tol, s);
    ProposeStepIs(env, config, s, Propose(a), t0);
    ProposingEmits(env, config, c, t0, a);
    StepSound(env, config, s, Propose(a), t0);
    SoundBuilt(env, tol, s);
    SoundBuilt(env, tol, s1);
    FullResponse(env, s.chain, rival);
    LosesABlock(env, tol, s.chain, x, rival);
    ReorgStepIs(env, config, s1, SyncResponseIn(peer), t1);
    ReorgOutcome(env, config, Cleared(s1), peer, t1);
    DeclinesIff(env, tol, s1.chain, peer);
    ReorgEffects(env, config, Cleared(s1), peer, t1);
    StepSound(env, config, s1, SyncResponseIn(peer), t1);
    FewerOutstanding(c, Step(env, config, s1, SyncResponseIn(peer), t1), |s.chain|);
  }

  lemma FullResponse(env: Env, chain: Ledger, b: Checkpoint)
    requires Built(env, chain) && chain != []
    ensures HasGenesisHeight(chain + [b])
  {
    BuiltHeights(env, chain, 0);
    assert (chain + [b])[0].Height() == 0;
  }

  /** The node's second go: a claim comes in, and it proposes. */
  ghost function Second(env: Env, config: Config, s: Node, rival: Checkpoint, a: string, c: SignedClaim, t0: real, t1: real, t2: real): Node {
    var s1 := Step(env, config, s, Propose(a), t0);
    var s2 := Step(env, config, s1, SyncResponseIn(s.chain + [rival]), t1);
    Step(env, config, s2, ClaimIn(c, {}), t2)
  }

  lemma ClaimChangesLittle(env: Env, config: Config, n: Node, c: SignedClaim, now: real)
    ensures var m := Step(env, config, n, ClaimIn(c, {}), now); m.chain == n.chain && m.proposals == n.proposals
  {
  }

  /** If it is then still the sealer and has claims that make a valid proposal, it sends a
      second one for the same height. */
  lemma ProposesTwice(env: Env, config: Config, s: Node, x: Checkpoint, rival: Checkpoint, a: string, b: string, c: SignedClaim,
                      t0: real, t1: real, t2: real, t3: real)
    requires Sound(env, config.flopsTolerance, s) && Proposes(env, config, Cleared(s), a)
    requires Step(env, config, s, Propose(a), t0).chain == s.chain + [x]
    requires rival.Height() == |s.chain| && rival.proposal.prevHash == TipHash(env, s.chain) && Text.Less(env.Hash(rival), env.Hash(x))
    requires ValidateCheckpoint(env, config.flopsTolerance, rival, s.chain, {}, false).Passed? && !AppendOk(env, s.chain, rival)
    requires var n := Cleared(Second(env, config, s, rival, a, c, t0, t1, t2));
             && SealerFor(env, config, n, n.view) == n.me.id && Candidates(n) != []
             && ValidateProposal(env, config.flopsTolerance, OwnProposal(env, n, b), n.chain, {}, false).Passed?
    ensures var first := Step(env, config, s, Propose(a), t0);
            var n := Second(env, config, s, rival, a, c, t0, t1, t2);
            var second := Step(env, config, n, Propose(b), t3);
            var p, q := OwnProposal(env, Cleared(s), a), OwnProposal(env, Cleared(n), b);
            Emits(first, p) && Emits(second, q) && p.height == q.height == |s.chain|
  {
    hide Sound, Step, ValidateCheckpoint, AppendOk, Emits, Candidates, SealerFor, ValidateProposal, ProposeInternal, TipHash;
    var tol := config.flopsTolerance;
    HeightIsOpen(env, config, s, x, rival, a, t0, t1);
    var s2 := Step(env, config, Step(env, config, s, Propose(a), t0), SyncResponseIn(s.chain + [rival]), t1);
    var n := Step(env, config, s2, ClaimIn(c, {}), t2);
    StepSound(env, config, s2, ClaimIn(c, {}), t2);
    ClaimChangesLittle(env, config, s2, c, t2);
    ClearedSound(env, tol, n);
    FewerOutstanding(s2, Cleared(n), |s.chain|);
    ProposeStepIs(env, config, n, Propose(b), t3);
    ProposingEmits(env, config, Cleared(n), t3, b);
  }
}
