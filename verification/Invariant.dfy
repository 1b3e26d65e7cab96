/** What every step of a node keeps: a valid ledger, a claim index that covers it,
    proposals dropped only when they are committed, and never a queued genesis; and how the
    view follows the epochs in it. */
module Invariant {
  import opened Models
  import opened Chain
  import opened Validation
  import opened Validity
  import opened Committee
  import opened Protocol

  // ------------------------------------------------------------------ the invariant

  ghost predicate KeysMatch(env: Env, proposals: map<string, Proposal>) {
    forall h :: h in proposals ==> env.proposalHash(proposals[h]) == h
  }

  /** The node's own signatures verify. */
  ghost predicate OwnKey(env: Env, me: Identity) { forall h :: env.shareVerifies(me.sign(h), me.publicKey, h) }

  /** Every share is filed under the proposal it signs and the node it names, and verifies. */
  ghost predicate SharesFiled(env: Env, signatures: map<string, Shares>) {
    forall h, id :: h in signatures && id in signatures[h] ==>
      var s := signatures[h][id];
      s.nodeId == id && s.proposalHash == h && env.shareVerifies(s.signature, s.publicKey, h)
  }

  ghost predicate Sound(env: Env, tolerance: real, n: Node) {
    && ValidChain(env, tolerance, n.chain)
    && ClaimIds(n.chain) <= n.committed
    && KeysMatch(env, n.proposals)
    && 0 !in n.pendingCommits
    && (OwnKey(env, n.me) ==> SharesFiled(env, n.signatures))
  }

  lemma SoundBuilt(env: Env, tolerance: real, n: Node)
    requires Sound(env, tolerance, n)
    ensures Built(env, n.chain)
  {
    ValidBuilt(env, tolerance, n.chain);
  }

  /** The claim index is exactly the ledger's. */
  ghost predicate Exact(n: Node) { n.committed == ClaimIds(n.chain) }

  predicate CommittedHash(env: Env, chain: Ledger, h: string) {
    exists i :: 0 <= i < |chain| && env.proposalHash(chain[i].proposal) == h
  }

  /** The ledger is extended, no proposal is sent, and a proposal is dropped only when its
      block is in the ledger. */
  ghost predicate Advances(env: Env, n: Node, m: Node) {
    && m.me == n.me
    && |n.chain| <= |m.chain| && m.chain[..|n.chain|] == n.chain
    && Quiet(n.outgoing, m.outgoing)
    && Drops(env, n.proposals, m.proposals, m.chain)
  }

  ghost predicate Quiet(before: seq<Message>, after: seq<Message>) {
    forall x :: x in after && x.ProposalMessage? ==> x in before
  }

  ghost predicate Drops(env: Env, before: map<string, Proposal>, after: map<string, Proposal>, chain: Ledger) {
    forall h :: h in before ==> h in after || CommittedHash(env, chain, h)
  }

  lemma CommittedStays(env: Env, c: Ledger, d: Ledger, h: string)
    requires |c| <= |d| && d[..|c|] == c && CommittedHash(env, c, h)
    ensures CommittedHash(env, d, h)
  {
    var i :| 0 <= i < |c| && env.proposalHash(c[i].proposal) == h;
    assert d[i] == d[..|c|][i];
  }

  lemma AdvancesTrans(env: Env, n: Node, m: Node, k: Node)
    requires Advances(env, n, m) && Advances(env, m, k)
    ensures Advances(env, n, k)
  {
    hide CommittedHash;
    assert k.chain[..|n.chain|] == k.chain[..|m.chain|][..|n.chain|];
    forall h | h in n.proposals ensures h in k.proposals || CommittedHash(env, k.chain, h) {
      if h !in m.proposals { CommittedStays(env, m.chain, k.chain, h); }
    }
  }

  // ------------------------------------------------------------------------ the view

  /** The view is past every epoch of the ledger. */
  ghost predicate ViewAhead(n: Node) {
    forall i :: 0 <= i < |n.chain| ==> n.chain[i].Epoch() < n.view
  }

  /** Every epoch of the ledger has a successor. */
  ghost predicate EpochsFit(chain: Ledger) {
    forall i :: 0 <= i < |chain| ==> chain[i].Epoch() < MAX_INT64
  }

  /** The view does not fall, and stays ahead where it can. */
  ghost predicate ViewFollows(n: Node, m: Node) {
    n.view <= m.view && (ViewAhead(n) && EpochsFit(m.chain) ==> ViewAhead(m))
  }

  lemma FollowsTrans(n: Node, m: Node, k: Node)
    requires ViewFollows(n, m) && ViewFollows(m, k) && |m.chain| <= |k.chain| && k.chain[..|m.chain|] == m.chain
    ensures ViewFollows(n, k)
  {
    if EpochsFit(k.chain) {
      assert forall i :: 0 <= i < |m.chain| ==> m.chain[i] == k.chain[..|m.chain|][i] == k.chain[i];
    }
  }

  /** A commit keeps the view ahead if and only if its epoch is not the largest there is:
      the successor of that one wraps around, and nothing is past it. */
  lemma CommitKeepsAhead(env: Env, n: Node, b: Checkpoint, now: real)
    requires ViewAhead(n)
    ensures ViewAhead(Committed(env, n, b, now)) <==> b.Epoch() < MAX_INT64
  {
    hide BlockIds;
    var m := Committed(env, n, b, now);
    assert m.chain[|n.chain|] == b;
  }

  /** `m` is sound, an advance of `n`, and its view follows; if `clean`, an exact index stays
      exact. */
  ghost predicate Keeps(env: Env, tolerance: real, n: Node, m: Node, clean: bool) {
    Sound(env, tolerance, m) && Advances(env, n, m) && ViewFollows(n, m) && (clean && Exact(n) ==> Exact(m))
  }

  lemma KeepsTrans(env: Env, tolerance: real, n: Node, m: Node, k: Node, c: bool, d: bool)
    requires Keeps(env, tolerance, n, m, c) && Keeps(env, tolerance, m, k, d)
    ensures Keeps(env, tolerance, n, k, c && d)
  {
    hide Sound, ViewFollows, Exact, Quiet, Drops;
    AdvancesTrans(env, n, m, k);
    FollowsTrans(n, m, k);
  }

  /** Nothing the invariant speaks about changed, but for messages that are no proposals. */
  ghost predicate SameCore(n: Node, m: Node) {
    m.me == n.me && m.chain == n.chain && m.committed == n.committed && m.proposals == n.proposals && n.view <= m.view &&
    Quiet(n.outgoing, m.outgoing) && (0 in m.pendingCommits ==> 0 in n.pendingCommits) && m.signatures == n.signatures
  }

  lemma SameCoreKeeps(env: Env, tolerance: real, n: Node, m: Node)
    requires Sound(env, tolerance, n) && SameCore(n, m)
    ensures Keeps(env, tolerance, n, m, true)
  {
    hide ValidChain, ClaimIds, CommittedHash;
    assert m.chain[..|n.chain|] == n.chain;
  }

  lemma QuietSelf(s: seq<Message>)
    ensures Quiet(s, s)
  {
  }

  lemma QuietSnoc(s: seq<Message>, x: Message)
    requires !x.ProposalMessage?
    ensures Quiet(s, s + [x])
  {
  }

  lemma QuietTrans(r: seq<Message>, s: seq<Message>, t: seq<Message>)
    requires Quiet(r, s) && Quiet(s, t)
    ensures Quiet(r, t)
  {
  }

  lemma SyncSameCore(config: Config, n: Node, from: int, now: real)
    ensures SameCore(n, RequestSync(config, n, from, now))
  {
    hide Quiet;
    QuietSelf(n.outgoing);
    QuietSnoc(n.outgoing, SyncRequest(n.me.id, from));
  }

  // -------------------------------------------------------------------- commit_local

  lemma CommittedKeeps(env: Env, tolerance: real, n: Node, b: Checkpoint, now: real)
    requires Sound(env, tolerance, n) && Acceptable(env, tolerance, n.chain, b)
    ensures Keeps(env, tolerance, n, Committed(env, n, b, now), true)
  {
    hide ValidChain, Acceptable, ClaimIds, CommittedHash, BlockIds;
    var m := Committed(env, n, b, now);
    ValidSnoc(env, tolerance, n.chain, b);
    ClaimsSnoc(n.chain, b);
    assert m.chain[..|n.chain|] == n.chain;
    CommittedNow(env, n.chain, b);
    assert ViewFollows(n, m) by { CommitFollows(env, n, b, now); }
  }

  lemma CommitFollows(env: Env, n: Node, b: Checkpoint, now: real)
    ensures ViewFollows(n, Committed(env, n, b, now))
  {
    hide BlockIds, Committed;
    var m := Committed(env, n, b, now);
    assert n.view <= m.view && m.chain == n.chain + [b] by { CommittedFrame(env, n, b, now); }
    if ViewAhead(n) && EpochsFit(m.chain) {
      assert m.chain[|n.chain|] == b;
      CommitKeepsAhead(env, n, b, now);
    }
  }

  lemma CommittedFrame(env: Env, n: Node, b: Checkpoint, now: real)
    ensures var m := Committed(env, n, b, now); n.view <= m.view && m.chain == n.chain + [b]
  {
  }

  lemma CommittedNow(env: Env, chain: Ledger, b: Checkpoint)
    ensures CommittedHash(env, chain + [b], env.proposalHash(b.proposal))
  {
    assert (chain + [b])[|chain|] == b;
  }

  lemma RefusedKeeps(env: Env, config: Config, n: Node, b: Checkpoint, now: real)
    requires Sound(env, config.flopsTolerance, n)
    ensures Keeps(env, config.flopsTolerance, n, Refused(config, n, b, now), true)
  {
    hide ValidChain, ClaimIds, CommittedHash, BlockIds, AlreadyCommitted, Keeps;
    var m := Refused(config, n, b, now);
    if AlreadyCommitted(n.chain, b) {
      TidyKeeps(env, config.flopsTolerance, n, m);
    } else {
      SameCoreKeeps(env, config.flopsTolerance, n, m);
    }
  }

  lemma TidyKeeps(env: Env, tolerance: real, n: Node, m: Node)
    requires Sound(env, tolerance, n)
    requires m.me == n.me && m.chain == n.chain && m.proposals == n.proposals && n.view == m.view && n.outgoing == m.outgoing &&
             m.pendingCommits == n.pendingCommits && m.signatures == n.signatures
    requires n.committed <= m.committed <= n.committed + ClaimIds(n.chain)
    ensures Keeps(env, tolerance, n, m, true)
  {
    hide ValidChain, ClaimIds, CommittedHash;
    assert m.chain[..|n.chain|] == n.chain;
  }

  /** A refused append changes no ledger and keeps an exact index exact. */
  lemma CommitLocalKeeps(env: Env, config: Config, n: Node, b: Checkpoint, now: real)
    requires Sound(env, config.flopsTolerance, n)
    requires ValidateCheckpoint(env, config.flopsTolerance, b, n.chain, {}, false).Passed?
    ensures Keeps(env, config.flopsTolerance, n, CommitLocal(env, config, n, b, now), true)
  {
    hide Keeps, Sound, ValidateCheckpoint, AppendOk, Committed, Refused;
    if n.chain != [] && b.Height() <= |n.chain| - 1 {
      SameCoreKeeps(env, config.flopsTolerance, n, n);
    } else if AppendOk(env, n.chain, b) {
      CommittedKeeps(env, config.flopsTolerance, n, b, now);
    } else {
      RefusedKeeps(env, config, n, b, now);
    }
  }

  lemma MaybeCommitKeeps(env: Env, config: Config, n: Node, p: Proposal, now: real)
    requires Sound(env, config.flopsTolerance, n)
    ensures Keeps(env, config.flopsTolerance, n, MaybeCommit(env, config, n, p, now), true)
  {
    hide Keeps, Sound, ValidateCheckpoint, CommitLocal, Sealed, Quorum;
    var tol := config.flopsTolerance;
    var b := Sealed(config, n, p, SharesOf(n, env.proposalHash(p)));
    SameCoreKeeps(env, tol, n, n);
    if ValidateCheckpoint(env, tol, b, n.chain, n.committed, false).Passed? {
      PassWithFewerSeen(env, tol, b, n.chain, n.committed, {});
      CommitLocalKeeps(env, config, n, b, now);
    }
  }

  // ------------------------------------------------------------ proposals and shares

  lemma TakeUpKeeps(env: Env, tolerance: real, n: Node, p: Proposal, now: real)
    requires Sound(env, tolerance, n)
    ensures Keeps(env, tolerance, n, TakeUp(env, n, p, now), true)
  {
    hide ValidChain, ClaimIds, CommittedHash, ProposalIds, SharesFiled;
    var m := TakeUp(env, n, p, now);
    assert m.chain[..|n.chain|] == n.chain;
    TakeUpFiles(env, n, p, now);
  }

  lemma TakeUpFiles(env: Env, n: Node, p: Proposal, now: real)
    ensures OwnKey(env, n.me) && SharesFiled(env, n.signatures) ==> SharesFiled(env, TakeUp(env, n, p, now).signatures)
  {
    hide ProposalIds;
    var m := TakeUp(env, n, p, now);
    var h := env.proposalHash(p);
    assert m.signatures == n.signatures[h := SharesOf(n, h)[n.me.id := ShareFor(env, n, p)]];
  }

  lemma OnProposalKeeps(env: Env, config: Config, n: Node, p: Proposal, now: real)
    requires Sound(env, config.flopsTolerance, n)
    ensures Keeps(env, config.flopsTolerance, n, OnProposal(env, config, n, p, now), true)
  {
    hide Keeps, Sound, ValidateProposal, TakeUp, MaybeCommit, SealerFor;
    var tol := config.flopsTolerance;
    SameCoreKeeps(env, tol, n, n);
    var taken := TakeUp(env, n, p, now);
    TakeUpKeeps(env, tol, n, p, now);
    KeepsSound(env, tol, n, taken, true);
    MaybeCommitKeeps(env, config, taken, p, now);
    KeepsTrans(env, tol, n, taken, MaybeCommit(env, config, taken, p, now), true, true);
  }

  lemma KeepsSound(env: Env, tolerance: real, n: Node, m: Node, clean: bool)
    requires Keeps(env, tolerance, n, m, clean)
    ensures Sound(env, tolerance, m)
  {
  }

  lemma OnSignatureKeeps(env: Env, config: Config, n: Node, s: Share, now: real)
    requires Sound(env, config.flopsTolerance, n)
    ensures Keeps(env, config.flopsTolerance, n, OnSignature(env, config, n, s, now), true)
  {
    hide Keeps, Sound, MaybeCommit;
    var tol := config.flopsTolerance;
    SameCoreKeeps(env, tol, n, n);
    if s.proposalHash in n.proposals && env.shareVerifies(s.signature, s.publicKey, s.proposalHash) {
      var noted := n.(signatures := n.signatures[s.proposalHash := SharesOf(n, s.proposalHash)[s.nodeId := s]]);
      ShareKeeps(env, tol, n, noted, s);
      KeepsSound(env, tol, n, noted, true);
      MaybeCommitKeeps(env, config, noted, n.proposals[s.proposalHash], now);
      KeepsTrans(env, tol, n, noted, MaybeCommit(env, config, noted, n.proposals[s.proposalHash], now), true, true);
    }
  }

  lemma ShareKeeps(env: Env, tolerance: real, n: Node, m: Node, s: Share)
    requires Sound(env, tolerance, n) && env.shareVerifies(s.signature, s.publicKey, s.proposalHash)
    requires m == n.(signatures := n.signatures[s.proposalHash := SharesOf(n, s.proposalHash)[s.nodeId := s]])
    ensures Keeps(env, tolerance, n, m, true)
  {
    hide ValidChain, ClaimIds, CommittedHash, SharesFiled;
    assert m.chain[..|n.chain|] == n.chain;
    if OwnKey(env, n.me) { ShareFiles(env, n, s); }
  }

  lemma ShareFiles(env: Env, n: Node, s: Share)
    requires SharesFiled(env, n.signatures) && env.shareVerifies(s.signature, s.publicKey, s.proposalHash)
    ensures SharesFiled(env, n.signatures[s.proposalHash := SharesOf(n, s.proposalHash)[s.nodeId := s]])
  {
  }

  // ------------------------------------------------------------------ queued commits

  lemma FlushOneKeeps(env: Env, config: Config, n: Node, height: int, now: real)
    requires Sound(env, config.flopsTolerance, n)
    ensures Keeps(env, config.flopsTolerance, n, FlushOne(env, config, n, height, now), true)
  {
    hide Keeps, Sound, ValidateCheckpoint, CommitLocal;
    var tol := config.flopsTolerance;
    SameCoreKeeps(env, tol, n, n);
    if height in n.pendingCommits {
      var b := n.pendingCommits[height];
      var popped := n.(pendingCommits := n.pendingCommits - {height});
      SameCoreKeeps(env, tol, n, popped);
      KeepsSound(env, tol, n, popped, true);
      if ValidateCheckpoint(env, tol, b, n.chain, {}, false).Passed? {
        CommitLocalKeeps(env, config, popped, b, now);
        KeepsTrans(env, tol, n, popped, CommitLocal(env, config, popped, b, now), true, true);
      }
    }
  }

  lemma {:induction false} FlushListKeeps(env: Env, config: Config, n: Node, heights: seq<int>, now: real)
    requires Sound(env, config.flopsTolerance, n)
    ensures Keeps(env, config.flopsTolerance, n, FlushList(env, config, n, heights, now), true)
  {
    hide Keeps, Sound, FlushOne;
    var tol := config.flopsTolerance;
    if heights == [] {
      SameCoreKeeps(env, tol, n, n);
    } else {
      var front := heights[..|heights| - 1];
      var m := FlushList(env, config, n, front, now);
      FlushListKeeps(env, config, n, front, now);
      KeepsSound(env, tol, n, m, true);
      FlushOneKeeps(env, config, m, heights[|heights| - 1], now);
      KeepsTrans(env, tol, n, m, FlushOne(env, config, m, heights[|heights| - 1], now), true, true);
    }
  }

  lemma FlushKeeps(env: Env, config: Config, n: Node, now: real)
    requires Sound(env, config.flopsTolerance, n)
    ensures Keeps(env, config.flopsTolerance, n, Flush(env, config, n, now), true)
  {
    hide Keeps, Sound, FlushList, Ascending;
    SameCoreKeeps(env, config.flopsTolerance, n, n);
    FlushListKeeps(env, config, n, Ascending(n.pendingCommits.Keys), now);
  }

  // ----------------------------------------------------------------------- on_commit

  /** The accept stage, before the queue is flushed. */
  ghost function Accepted(env: Env, config: Config, n: Node, b: Checkpoint, now: real): Node
    requires ValidateCheckpoint(env, config.flopsTolerance, b, n.chain, n.committed, false).Passed?
  {
    CommitLocal(env, config, n.(committed := ValidateCheckpoint(env, config.flopsTolerance, b, n.chain, n.committed, false).seen), b, now)
  }

  /** The block gets through on_commit's checks but the store refuses it. */
  ghost predicate RefusesCommit(env: Env, config: Config, n: Node, b: Checkpoint) {
    && b.Height() == |n.chain|
    && b.proposal.prevHash == TipHash(env, n.chain)
    && env.Hash(b) !in n.rejects
    && ValidateCheckpoint(env, config.flopsTolerance, b, n.chain, n.committed, false).Passed?
    && !AppendOk(env, n.chain, b)
  }

  lemma NotedKeeps(env: Env, tolerance: real, n: Node, more: set<string>)
    requires Sound(env, tolerance, n) && n.committed <= more
    ensures Keeps(env, tolerance, n, n.(committed := more), false)
  {
    hide ValidChain, ClaimIds, CommittedHash;
    assert n.chain[..|n.chain|] == n.chain;
  }

  lemma AcceptedKeeps(env: Env, config: Config, n: Node, b: Checkpoint, now: real)
    requires Sound(env, config.flopsTolerance, n)
    requires ValidateCheckpoint(env, config.flopsTolerance, b, n.chain, n.committed, false).Passed?
    ensures Keeps(env, config.flopsTolerance, n, Accepted(env, config, n, b, now), false)
  {
    hide Keeps, Sound, ValidateCheckpoint, CommitLocal;
    var tol := config.flopsTolerance;
    CheckpointPassesIff(env, tol, b, n.chain, n.committed, false);
    var noted := n.(committed := ValidateCheckpoint(env, tol, b, n.chain, n.committed, false).seen);
    NotedKeeps(env, tol, n, noted.committed);
    KeepsSound(env, tol, n, noted, false);
    PassWithFewerSeen(env, tol, b, n.chain, n.committed, {});
    CommitLocalKeeps(env, config, noted, b, now);
    KeepsTrans(env, tol, n, noted, CommitLocal(env, config, noted, b, now), false, true);
  }

  /** Overwriting the index before the append is exact precisely when the append goes
      through, or the block brings no claims. */
  lemma AcceptedExactIff(env: Env, config: Config, n: Node, b: Checkpoint, now: real)
    requires Exact(n) && b.Height() == |n.chain|
    requires ValidateCheckpoint(env, config.flopsTolerance, b, n.chain, n.committed, false).Passed?
    ensures Exact(Accepted(env, config, n, b, now)) <==> AppendOk(env, n.chain, b) || b.proposal.claims == []
  {
    hide ClaimIds, AppendOk, ValidateCheckpoint, AlreadyCommitted, ClaimsAcceptable, QuorumMet, BlockIds;
    var tol := config.flopsTolerance;
    CheckpointPassesIff(env, tol, b, n.chain, n.committed, false);
    if AppendOk(env, n.chain, b) {
      ClaimsSnoc(n.chain, b);
    } else if b.proposal.claims == [] {
      NoIds(b);
    } else {
      FirstIdNew(env, tol, n, b);
    }
  }

  lemma NoIds(b: Checkpoint)
    requires b.proposal.claims == []
    ensures BlockIds(b) == {}
  {
    assert |BlockClaims(b)| == 0;
  }

  lemma FirstIdNew(env: Env, tolerance: real, n: Node, b: Checkpoint)
    requires ValidateCheckpoint(env, tolerance, b, n.chain, n.committed, false).Passed? && b.proposal.claims != []
    ensures exists id :: id in BlockIds(b) && id !in n.committed
  {
    hide ValidateCheckpoint, QuorumMet;
    CheckpointPassesIff(env, tolerance, b, n.chain, n.committed, false);
    assert ClaimSound(env, tolerance, b.proposal.claims[0], |n.chain| - 1, n.committed);
    assert BlockClaims(b)[0].claimId in BlockIds(b);
  }

  /** on_commit keeps an exact index exact unless the store refuses a block that passed. */
  lemma OnCommitKeeps(env: Env, config: Config, n: Node, b: Checkpoint, now: real)
    requires Sound(env, config.flopsTolerance, n)
    ensures Keeps(env, config.flopsTolerance, n, OnCommit(env, config, n, b, now), !RefusesCommit(env, config, n, b))
  {
    hide Keeps, Sound, NextCommit, OldCommit, QueueCommit, RequestSync, RefusesCommit, SameCore, TipHash;
    var tol := config.flopsTolerance;
    if n.chain != [] && b.Height() <= |n.chain| - 1 {
      OldCommitKeeps(env, config, n, b, now);
    } else if b.Height() == |n.chain| && (n.chain == [] || b.proposal.prevHash == TipHash(env, n.chain)) {
      NextCommitKeeps(env, config, n, b, now);
    } else {
      if b.Height() != 0 { QueueSameCore(config, n, b, if n.chain == [] then -1 else |n.chain| - 1, now); }
      SyncSameCore(config, n, -1, now);
      SameCoreKeeps(env, tol, n, OnCommit(env, config, n, b, now));
    }
    KeepsLess(env, tol, n, OnCommit(env, config, n, b, now), !RefusesCommit(env, config, n, b));
  }

  lemma QueueSameCore(config: Config, n: Node, b: Checkpoint, from: int, now: real)
    requires b.Height() != 0
    ensures SameCore(n, RequestSync(config, QueueCommit(n, b), from, now))
  {
    hide Quiet, TrimLowest, RequestSync;
    TrimKeepsHighest(n.pendingCommits[b.Height() := b]);
    QuietSelf(n.outgoing);
    SyncSameCore(config, QueueCommit(n, b), from, now);
  }

  lemma KeepsLess(env: Env, tolerance: real, n: Node, m: Node, clean: bool)
    ensures Keeps(env, tolerance, n, m, true) ==> Keeps(env, tolerance, n, m, clean)
  {
    hide Sound, Advances;
  }

  lemma OldCommitKeeps(env: Env, config: Config, n: Node, b: Checkpoint, now: real)
    requires Sound(env, config.flopsTolerance, n) && n.chain != []
    ensures Keeps(env, config.flopsTolerance, n, OldCommit(env, config, n, b, now), true)
  {
    hide Keeps, Sound, Quiet, RequestSync, TipHash;
    var alert := ForkAlert(n.me.id, b.Height(), TipHash(env, n.chain), env.Hash(b));
    QuietSelf(n.outgoing);
    QuietSnoc(n.outgoing, alert);
    var alerted := n.(outgoing := n.outgoing + [alert]);
    SyncSameCore(config, alerted, -1, now);
    QuietTrans(n.outgoing, alerted.outgoing, RequestSync(config, alerted, -1, now).outgoing);
    SameCoreKeeps(env, config.flopsTolerance, n, OldCommit(env, config, n, b, now));
  }

  lemma NextCommitKeeps(env: Env, config: Config, n: Node, b: Checkpoint, now: real)
    requires Sound(env, config.flopsTolerance, n) && b.Height() == |n.chain|
    ensures Keeps(env, config.flopsTolerance, n, NextCommit(env, config, n, b, now), !RefusesCommit(env, config, n, b))
  {
    hide Keeps, Sound, ValidateCheckpoint, Flush, CommitLocal, AppendOk, ClaimsAcceptable, QuorumMet;
    var tol := config.flopsTolerance;
    if env.Hash(b) in n.rejects {
      SameCoreKeeps(env, tol, n, n);
    } else if ValidateCheckpoint(env, tol, b, n.chain, n.committed, false).Failed? {
      SameCoreKeeps(env, tol, n, NoteReject(n, env.Hash(b)));
    } else {
      var m := Accepted(env, config, n, b, now);
      var clean := !RefusesCommit(env, config, n, b);
      CheckpointPassesIff(env, tol, b, n.chain, n.committed, false);
      AcceptedKeeps(env, config, n, b, now);
      if Exact(n) { AcceptedExactIff(env, config, n, b, now); }
      KeepsExact(env, tol, n, m, clean);
      KeepsSound(env, tol, n, m, false);
      FlushKeeps(env, config, m, now);
      KeepsTrans(env, tol, n, m, Flush(env, config, m, now), clean, true);
    }
  }

  lemma KeepsExact(env: Env, tolerance: real, n: Node, m: Node, clean: bool)
    requires Keeps(env, tolerance, n, m, false) && (clean && Exact(n) ==> Exact(m))
    ensures Keeps(env, tolerance, n, m, clean)
  {
    hide Sound, Advances;
  }

  /** No block of a suffix response is refused after passing. */
  ghost predicate CleanCommits(env: Env, config: Config, n: Node, blocks: seq<Checkpoint>, now: real) {
    blocks == [] ||
    (&& CleanCommits(env, config, n, blocks[..|blocks| - 1], now)
     && !RefusesCommit(env, config, OnCommits(env, config, n, blocks[..|blocks| - 1], now), blocks[|blocks| - 1]))
  }

  lemma {:induction false} OnCommitsKeeps(env: Env, config: Config, n: Node, blocks: seq<Checkpoint>, now: real)
    requires Sound(env, config.flopsTolerance, n)
    ensures Keeps(env, config.flopsTolerance, n, OnCommits(env, config, n, blocks, now), CleanCommits(env, config, n, blocks, now))
  {
    hide Keeps, Sound, OnCommit, RefusesCommit;
    var tol := config.flopsTolerance;
    if blocks == [] {
      SameCoreKeeps(env, tol, n, n);
    } else {
      var front, b := blocks[..|blocks| - 1], blocks[|blocks| - 1];
      var m := OnCommits(env, config, n, front, now);
      OnCommitsKeeps(env, config, n, front, now);
      KeepsSound(env, tol, n, m, CleanCommits(env, config, n, front, now));
      OnCommitKeeps(env, config, m, b, now);
      KeepsTrans(env, tol, n, m, OnCommit(env, config, m, b, now), CleanCommits(env, config, n, front, now), !RefusesCommit(env, config, m, b));
    }
  }

  lemma {:induction false} FlushListIdle(env: Env, config: Config, n: Node, heights: seq<int>, now: real)
    requires |n.chain| !in n.pendingCommits
    ensures FlushList(env, config, n, heights, now) == n
  {
    hide ValidateCheckpoint, CommitLocal;
    if heights == [] {
    } else {
      FlushListIdle(env, config, n, heights[..|heights| - 1], now);
    }
  }

  lemma RefusedHasClaims(env: Env, config: Config, n: Node, b: Checkpoint)
    requires RefusesCommit(env, config, n, b)
    ensures b.proposal.claims != []
  {
    hide ValidateCheckpoint, ClaimsAcceptable, QuorumMet;
    CheckpointPassesIff(env, config.flopsTolerance, b, n.chain, n.committed, false);
    if IsCanonicalGenesis(b.proposal) { GenesisFits(env, b); }
  }

  lemma GenesisFits(env: Env, b: Checkpoint)
    requires IsCanonicalGenesis(b.proposal)
    ensures AppendOk(env, [], b)
  {
    assert Claims([]) == [] && |BlockClaims(b)| == 0;
  }

  /** Where nothing is queued at the next height, on_commit leaves an exact index exact if and
      only if it does not refuse a block that passed. */
  lemma OnCommitExactIff(env: Env, config: Config, n: Node, b: Checkpoint, now: real)
    requires Sound(env, config.flopsTolerance, n) && Exact(n) && |n.chain| !in n.pendingCommits
    ensures Exact(OnCommit(env, config, n, b, now)) <==> !RefusesCommit(env, config, n, b)
  {
    hide Sound, Exact, ValidateCheckpoint, AppendOk, TipHash, NoteReject, Advances, ViewFollows, CommitLocal, FlushList, Ascending, Accepted;
    OnCommitKeeps(env, config, n, b, now);
    if RefusesCommit(env, config, n, b) {
      RefusedHasClaims(env, config, n, b);
      AcceptedExactIff(env, config, n, b, now);
      RefusedIsAccepted(env, config, n, b, now);
    }
  }

  lemma RefusedIsAccepted(env: Env, config: Config, n: Node, b: Checkpoint, now: real)
    requires RefusesCommit(env, config, n, b) && |n.chain| !in n.pendingCommits
    ensures OnCommit(env, config, n, b, now) == Accepted(env, config, n, b, now)
  {
    hide ValidateCheckpoint, AppendOk, TipHash, FlushList, Ascending, Refused;
    var m := Accepted(env, config, n, b, now);
    RefusedKeepsQueue(config, n.(committed := ValidateCheckpoint(env, config.flopsTolerance, b, n.chain, n.committed, false).seen), b, now);
    FlushListIdle(env, config, m, Ascending(m.pendingCommits.Keys), now);
  }

  lemma RefusedKeepsQueue(config: Config, n: Node, b: Checkpoint, now: real)
    ensures var m := Refused(config, n, b, now); m.chain == n.chain && m.pendingCommits == n.pendingCommits
  {
    hide AlreadyCommitted, BlockIds, ClaimIds;
  }
}
