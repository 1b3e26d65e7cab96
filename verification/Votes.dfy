/** When a node signs a proposal, when shares make a block, and what two blocks committed by
    different nodes have in common. */
module Votes {
  import opened Models
  import opened Chain
  import opened Validation
  import opened Committee
  import opened Protocol
  import opened Reorg
  import opened Invariant
  import Text

  // ------------------------------------------------------------------ shares and blocks

  /** The shares noted for a proposal. */
  function NotedFor(env: Env, n: Node, p: Proposal): Shares {
    if env.proposalHash(p) in n.signatures then n.signatures[env.proposalHash(p)] else map[]
  }

  /** The quorum of the committee the node knows. */
  function QuorumNow(config: Config, n: Node): nat { QuorumSize(config.byzantine, Members(config, n.me.id, n.peers, n.chain)) }

  function Signers(ss: seq<QuorumSignature>): set<string> { set i | 0 <= i < |ss| :: ss[i].nodeId }

  /** The block is the proposal with one signature per share and the quorum of the moment. */
  ghost predicate SealedFrom(env: Env, config: Config, n: Node, p: Proposal, b: Checkpoint) {
    && b.proposal == p
    && b.quorum == QuorumNow(config, n)
    && |b.signatures| == |NotedFor(env, n, p)| >= QuorumNow(config, n)
  }

  lemma QuorumIs(config: Config, n: Node)
    ensures Quorum(config, n) == QuorumNow(config, n)
  {
  }

  /** With fewer shares than the committee's quorum nothing happens; and a block that goes in
      records that quorum and carries at least as many different signers. */
  lemma SealsQuorum(env: Env, config: Config, n: Node, p: Proposal, now: real)
    ensures |NotedFor(env, n, p)| < QuorumNow(config, n) ==> MaybeCommit(env, config, n, p, now) == n
    ensures var m := MaybeCommit(env, config, n, p, now);
            m.chain != n.chain ==>
              && |m.chain| == |n.chain| + 1 && m.chain[..|n.chain|] == n.chain
              && SealedFrom(env, config, n, p, m.chain[|n.chain|])
              && (IsCanonicalGenesis(p) || (QuorumMet(env, m.chain[|n.chain|]) && DistinctSigners(m.chain[|n.chain|].signatures, |m.chain[|n.chain|].signatures|)))
  {
    hide ValidateCheckpoint, CommitLocal, AppendOk, Quorum, QuorumNow, SortedSignatures, ClaimsAcceptable;
    QuorumIs(config, n);
    var b := Sealed(config, n, p, SharesOf(n, env.proposalHash(p)));
    CheckpointPassesIff(env, config.flopsTolerance, b, n.chain, n.committed, false);
    CommitLocalChain(env, config, n, b, now);
  }

  // ---------------------------------------------------------------- verified shares suffice

  /** The shares are filed under the nodes they name and verify over the proposal's hash, as
      on_signature asks of each. */
  ghost predicate SharesHold(env: Env, p: Proposal, shares: Shares) {
    forall id :: id in shares ==>
      shares[id].nodeId == id && env.shareVerifies(shares[id].signature, shares[id].publicKey, env.proposalHash(p))
  }

  lemma ReachableSharesHold(env: Env, tolerance: real, n: Node, p: Proposal)
    requires Sound(env, tolerance, n) && OwnKey(env, n.me)
    ensures SharesHold(env, p, NotedFor(env, n, p))
  {
  }

  /** Put in order, such shares are signatures by different signers, in rising id order, one
      for each, all over the proposal's hash. */
  lemma SharesSign(env: Env, p: Proposal, shares: Shares)
    requires SharesHold(env, p, shares)
    ensures var ss := SortedSignatures(shares);
            && (forall i, j :: 0 <= i < j < |ss| ==> Text.Less(ss[i].nodeId, ss[j].nodeId) && ss[i].nodeId != ss[j].nodeId)
            && (forall i :: 0 <= i < |ss| ==> env.shareVerifies(ss[i].signature, ss[i].publicKey, env.proposalHash(p)))
            && Signers(ss) == shares.Keys
  {
    hide Text.Ranked, Text.Less;
    var ids := Text.Ranked(NO_WEIGHT, shares.Keys);
    var ss := SortedSignatures(shares);
    assert forall i :: 0 <= i < |ids| ==> ids[i] in Text.Elements(ids);
    assert forall i :: 0 <= i < |ids| ==> ss[i].nodeId == ids[i];
    forall i, j | 0 <= i < j < |ss| ensures Text.Less(ss[i].nodeId, ss[j].nodeId) && ss[i].nodeId != ss[j].nodeId {
      assert Text.Before(NO_WEIGHT, ids[i], ids[j]);
      Text.LessIrreflexive(ids[i]);
    }
    forall id | id in shares ensures id in Signers(ss) {
      assert id in Text.Elements(ids);
      var i :| 0 <= i < |ids| && ids[i] == id;
    }
  }

  /** In every reachable state of a node with a working key: once the shares of a valid
      proposal make a quorum, the block made of them has no quorum fault, at this or any other
      node, and is handed to commit_local. */
  lemma QuorumCommits(env: Env, config: Config, n: Node, p: Proposal, now: real) returns (b: Checkpoint)
    requires Sound(env, config.flopsTolerance, n) && OwnKey(env, n.me)
    requires |NotedFor(env, n, p)| >= QuorumNow(config, n)
    requires ValidateProposal(env, config.flopsTolerance, p, n.chain, n.committed, false).Passed?
    ensures SealedFrom(env, config, n, p, b) && Signers(b.signatures) == NotedFor(env, n, p).Keys
    ensures forall i, j :: 0 <= i < j < |b.signatures| ==> Text.Less(b.signatures[i].nodeId, b.signatures[j].nodeId)
    ensures QuorumFault(env, b) == None
    ensures ValidateCheckpoint(env, config.flopsTolerance, b, n.chain, n.committed, false).Passed?
    ensures MaybeCommit(env, config, n, p, now) == CommitLocal(env, config, n, b, now)
  {
    hide ValidateProposal, CommitLocal, Quorum, QuorumNow, SortedSignatures, Sound, Text.Less, QuorumFault, Signers;
    QuorumIs(config, n);
    var shares := SharesOf(n, env.proposalHash(p));
    b := Sealed(config, n, p, shares);
    ReachableSharesHold(env, config.flopsTolerance, n, p);
    SharesSign(env, p, shares);
    QuorumPositive(config, n);
    QuorumMetIff(env, b);
  }

  lemma QuorumPositive(config: Config, n: Node)
    ensures QuorumNow(config, n) >= 1
  {
  }

  /** Two nodes with one committee that each commit a block out of its members' shares: the
      blocks share as many signers as two quorums must. */
  lemma CommitsOverlap(env: Env, c: Config, n: Node, p: Proposal, s: real, d: Config, k: Node, q: Proposal, t: real)
    requires var members := Members(c, n.me.id, n.peers, n.chain);
             members == Members(d, k.me.id, k.peers, k.chain) && c.byzantine == d.byzantine
    requires !IsCanonicalGenesis(p) && !IsCanonicalGenesis(q)
    requires MaybeCommit(env, c, n, p, s).chain != n.chain && MaybeCommit(env, d, k, q, t).chain != k.chain
    requires |MaybeCommit(env, c, n, p, s).chain| > |n.chain| && |MaybeCommit(env, d, k, q, t).chain| > |k.chain| ==>
             && Signers(MaybeCommit(env, c, n, p, s).chain[|n.chain|].signatures) <= Members(c, n.me.id, n.peers, n.chain)
             && Signers(MaybeCommit(env, d, k, q, t).chain[|k.chain|].signatures) <= Members(c, n.me.id, n.peers, n.chain)
    ensures |MaybeCommit(env, c, n, p, s).chain| == |n.chain| + 1 && |MaybeCommit(env, d, k, q, t).chain| == |k.chain| + 1
    ensures |Signers(MaybeCommit(env, c, n, p, s).chain[|n.chain|].signatures) * Signers(MaybeCommit(env, d, k, q, t).chain[|k.chain|].signatures)|
            >= Overlap(c.byzantine, Members(c, n.me.id, n.peers, n.chain))
  {
    hide MaybeCommit, Members, Signers, Overlap, QuorumSize, QuorumMet, NotedFor;
    SealsQuorum(env, c, n, p, s);
    SealsQuorum(env, d, k, q, t);
    var a := MaybeCommit(env, c, n, p, s).chain[|n.chain|].signatures;
    var b := MaybeCommit(env, d, k, q, t).chain[|k.chain|].signatures;
    SignersCount(a);
    SignersCount(b);
    QuorumsOverlap(c.byzantine, Members(c, n.me.id, n.peers, n.chain), Signers(a), Signers(b));
  }

  lemma {:induction false} SignersCount(ss: seq<QuorumSignature>)
    requires DistinctSigners(ss, |ss|)
    ensures |Signers(ss)| == |ss|
  {
    if ss == [] {
      assert Signers(ss) == {};
    } else {
      var front, last := ss[..|ss| - 1], ss[|ss| - 1];
      SignersCount(front);
      assert Signers(ss) == Signers(front) + {last.nodeId};
    }
  }

  // ----------------------------------------------------------------------------- votes

  /** The node's share for a proposal. */
  function VoteOf(env: Env, n: Node, p: Proposal): Share {
    var h := env.proposalHash(p);
    Share(h, p.height, p.epoch, n.me.id, n.me.publicKey, n.me.sign(h))
  }

  /** The proposal extends the head with a later epoch and claims that are acceptable and not
      in the index, by the sealer whose turn its epoch is. */
  ghost predicate Worthy(env: Env, config: Config, n: Node, p: Proposal) {
    && p.height == |n.chain|
    && p.prevHash == TipHash(env, n.chain)
    && (n.chain != [] ==> p.epoch > n.chain[|n.chain| - 1].Epoch())
    && p.claims != []
    && ClaimsAcceptable(env, config.flopsTolerance, p.claims, |p.claims|, |n.chain| - 1, n.committed)
    && var ranked := Text.Ranked(Weight(env, n.chain), Members(config, n.me.id, n.peers, n.chain));
       ranked != [] && p.sealedBy == ranked[p.epoch % |ranked|]
  }

  lemma WorthyIff(env: Env, config: Config, n: Node, p: Proposal)
    ensures Worthy(env, config, n, p) <==>
            p.sealedBy == SealerFor(env, config, n, p.epoch) &&
            ValidateProposal(env, config.flopsTolerance, p, n.chain, n.committed, false).Passed?
  {
    hide ClaimsAcceptable, CheckClaims, Weight, Members, Text.Ranked, TipHash;
    ClaimsPassIff(env, config.flopsTolerance, p.claims, |n.chain| - 1, n.committed);
  }

  /** A node votes for a proposal if and only if it is worthy and neither held nor signed
      before; it sends no other vote, and remembers what it signed. */
  lemma VotesIff(env: Env, config: Config, n: Node, p: Proposal, now: real)
    requires n.outgoing == []
    ensures var m := OnProposal(env, config, n, p, now);
            var h := env.proposalHash(p);
            var votes := h !in n.proposals && h !in n.signed && Worthy(env, config, n, p);
            && (ShareMessage(VoteOf(env, n, p)) in m.outgoing <==> votes)
            && (forall s :: ShareMessage(s) in m.outgoing ==> s == VoteOf(env, n, p))
            && m.signed == (if votes then n.signed + {h} else n.signed)
            && (!votes ==> m == n)
  {
    hide ValidateProposal, Worthy, SealerFor, TakeUp, MaybeCommit;
    WorthyIff(env, config, n, p);
    WorthyHeight(env, config, n, p);
    if Worthy(env, config, n, p) {
      var taken := TakeUp(env, n, p, now);
      TakenIs(env, n, p, now);
      MaybeCommitVotes(env, config, taken, p, now);
    }
  }

  lemma WorthyHeight(env: Env, config: Config, n: Node, p: Proposal)
    ensures Worthy(env, config, n, p) ==> p.height == |n.chain|
  {
  }

  lemma TakenIs(env: Env, n: Node, p: Proposal, now: real)
    ensures var t := TakeUp(env, n, p, now);
            t.outgoing == n.outgoing + [ShareMessage(VoteOf(env, n, p))] && t.signed == n.signed + {env.proposalHash(p)}
  {
    hide ProposalIds;
  }

  /** What a node does with a proposal it votes for: it is held, its claims no longer wait and
      are reserved, the vote is noted beside the others, the sealer's turn starts anew; and the
      node that seals its own current view, and no other, then tries to commit it. */
  lemma VoteTakesUp(env: Env, config: Config, n: Node, p: Proposal, now: real) returns (t: Node)
    requires Worthy(env, config, n, p) && env.proposalHash(p) !in n.proposals && env.proposalHash(p) !in n.signed
    ensures var h := env.proposalHash(p);
            t == n.(proposals := n.proposals[h := p], signatures := n.signatures[h := NotedFor(env, n, p)[n.me.id := VoteOf(env, n, p)]],
                    signed := n.signed + {h}, pending := t.pending, proposed := t.proposed, lastActivity := now,
                    outgoing := n.outgoing + [ShareMessage(VoteOf(env, n, p))])
    ensures forall id :: id in t.pending <==> id in n.pending && !Names(p, id)
    ensures forall id :: id in t.pending ==> t.pending[id] == n.pending[id]
    ensures forall id :: id in t.proposed <==> id in n.proposed || Names(p, id)
    ensures var ranked := Text.Ranked(Weight(env, n.chain), Members(config, n.me.id, n.peers, n.chain));
            && ranked != []
            && OnProposal(env, config, n, p, now) == if ranked[n.view % |ranked|] == n.me.id then MaybeCommit(env, config, t, p, now) else t
  {
    hide ValidateProposal, MaybeCommit, ProposalIds, Members, Weight, Text.Ranked, ClaimsAcceptable, TipHash;
    WorthyIff(env, config, n, p);
    t := TakeUp(env, n, p, now);
    TakeUpIs(env, n, p, now);
    forall id ensures id in ProposalIds(p) <==> Names(p, id) { NamesIff(p, id); }
  }

  /** A claim of the proposal has the id. */
  ghost predicate Names(p: Proposal, id: string) { exists i :: 0 <= i < |p.claims| && p.claims[i].claim.claimId == id }

  lemma NamesIff(p: Proposal, id: string)
    ensures id in ProposalIds(p) <==> Names(p, id)
  {
    IdsToMember(p.claims, |p.claims|, id);
  }

  lemma TakeUpIs(env: Env, n: Node, p: Proposal, now: real)
    ensures var t := TakeUp(env, n, p, now);
            var h := env.proposalHash(p);
            && t == n.(proposals := n.proposals[h := p], signatures := n.signatures[h := NotedFor(env, n, p)[n.me.id := VoteOf(env, n, p)]],
                       signed := n.signed + {h}, pending := t.pending, proposed := t.proposed, lastActivity := now,
                       outgoing := n.outgoing + [ShareMessage(VoteOf(env, n, p))])
            && t.pending == n.pending - ProposalIds(p) && t.proposed == n.proposed + ProposalIds(p)
  {
    hide ProposalIds;
    var h := env.proposalHash(p);
    assert n.signatures[h := SharesOf(n, h)][h := SharesOf(n, h)[n.me.id := ShareFor(env, n, p)]] ==
           n.signatures[h := SharesOf(n, h)[n.me.id := ShareFor(env, n, p)]];
  }

  /** Trying to commit sends no votes and forgets none. */
  lemma MaybeCommitVotes(env: Env, config: Config, n: Node, p: Proposal, now: real)
    ensures var m := MaybeCommit(env, config, n, p, now);
            && m.signed == n.signed
            && (forall x :: x in n.outgoing ==> x in m.outgoing)
            && (forall x :: x in m.outgoing && x.ShareMessage? ==> x in n.outgoing)
  {
    hide ValidateCheckpoint, CommitLocal, Quorum, SortedSignatures;
    CommitLocalVotes(env, config, n, Sealed(config, n, p, SharesOf(n, env.proposalHash(p))), now);
  }

  lemma CommitLocalVotes(env: Env, config: Config, n: Node, b: Checkpoint, now: real)
    ensures var m := CommitLocal(env, config, n, b, now);
            && m.signed == n.signed
            && (forall x :: x in n.outgoing ==> x in m.outgoing)
            && (forall x :: x in m.outgoing && x.ShareMessage? ==> x in n.outgoing)
  {
    hide AppendOk, Refused, BlockIds;
    RefusedVotes(config, n, b, now);
  }

  lemma RefusedVotes(config: Config, n: Node, b: Checkpoint, now: real)
    ensures var m := Refused(config, n, b, now);
            && m.signed == n.signed && m.chain == n.chain
            && (forall x :: x in n.outgoing ==> x in m.outgoing)
            && (forall x :: x in m.outgoing && x.ShareMessage? ==> x in n.outgoing)
  {
    hide AlreadyCommitted, BlockIds, ClaimIds;
    if AlreadyCommitted(n.chain, b) {
      assert Refused(config, n, b, now).outgoing == n.outgoing;
    } else {
      assert Refused(config, n, b, now).outgoing == n.outgoing || Refused(config, n, b, now).outgoing == n.outgoing + [SyncRequest(n.me.id, b.Height() - 1)];
    }
  }

  /** What one node proposes, any other with the same ledger, committee and tolerance signs,
      unless it has signed or holds it already, or its index has one of the claims. */
  lemma ProposalsAreSigned(env: Env, c: Config, n: Node, stamp: string, d: Config, k: Node, now: real)
    requires Proposes(env, c, n, stamp) && k.outgoing == []
    requires k.chain == n.chain && d.flopsTolerance == c.flopsTolerance
    requires Members(d, k.me.id, k.peers, k.chain) == Members(c, n.me.id, n.peers, n.chain)
    requires var p := OwnProposal(env, n, stamp);
             && env.proposalHash(p) !in k.proposals && env.proposalHash(p) !in k.signed
             && forall i :: 0 <= i < |p.claims| ==> p.claims[i].claim.claimId !in k.committed
    ensures var p := OwnProposal(env, n, stamp);
            ShareMessage(VoteOf(env, k, p)) in OnProposal(env, d, k, p, now).outgoing
  {
    hide ValidateProposal, Candidates, OnProposal, Sealer, Members, Weight, Text.Ranked;
    var p := OwnProposal(env, n, stamp);
    AcceptableThere(env, c.flopsTolerance, p, n.chain, k.committed);
    WorthyIff(env, d, k, p);
    VotesIff(env, d, k, p, now);
  }

  /** Claims that pass with nothing noted pass wherever none of them is noted. */
  lemma AcceptableThere(env: Env, tolerance: real, p: Proposal, chain: Ledger, seen: set<string>)
    requires ValidateProposal(env, tolerance, p, chain, {}, false).Passed?
    requires forall i :: 0 <= i < |p.claims| ==> p.claims[i].claim.claimId !in seen
    ensures ValidateProposal(env, tolerance, p, chain, seen, false).Passed?
  {
    hide CheckClaims, HeaderFault, NextOfNode;
    ClaimsPassIff(env, tolerance, p.claims, |chain| - 1, {});
    ClaimsPassIff(env, tolerance, p.claims, |chain| - 1, seen);
    if HeaderFault(env, p, chain, false).None? {
      forall i | 0 <= i < |p.claims| ensures ClaimSound(env, tolerance, p.claims[i], |chain| - 1, seen) {
        assert ClaimSound(env, tolerance, p.claims[i], |chain| - 1, {});
      }
    }
  }
}
