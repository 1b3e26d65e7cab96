/** A whole round: the sealer's proposal, the committee's votes, the block they make, and its
    way into the other ledgers. */
module Rounds {
  import opened Models
  import opened Chain
  import opened Validation
  import opened Validity
  import opened Committee
  import opened Protocol
  import opened Invariant
  import opened Runs
  import opened Votes
  import opened Pledges
  import opened SecondProposal
  import Text

  // ------------------------------------------------------------------------ counting

  /** The shares come in one after the other. */
  ghost function Hears(env: Env, config: Config, n: Node, shares: seq<Share>, now: real): Node {
    if shares == [] then n
    else OnSignature(env, config, Hears(env, config, n, shares[..|shares| - 1], now), shares[|shares| - 1], now)
  }

  /** Verifying shares for one hash by different nodes, none of which is held. */
  ghost predicate Ballots(env: Env, hash: string, held: Shares, shares: seq<Share>) {
    && (forall i :: 0 <= i < |shares| ==>
          && shares[i].proposalHash == hash && shares[i].nodeId !in held
          && env.shareVerifies(shares[i].signature, shares[i].publicKey, hash))
    && (forall i, j :: 0 <= i < j < |shares| ==> shares[i].nodeId != shares[j].nodeId)
  }

  function Voters(shares: seq<Share>): set<string> { set i | 0 <= i < |shares| :: shares[i].nodeId }

  function Filed(held: Shares, shares: seq<Share>): Shares {
    if shares == [] then held else Filed(held, shares[..|shares| - 1])[shares[|shares| - 1].nodeId := shares[|shares| - 1]]
  }

  lemma {:induction false} FiledKeys(held: Shares, shares: seq<Share>)
    ensures Filed(held, shares).Keys == held.Keys + Voters(shares)
  {
    hide Voters, Filed;
    if shares == [] {
      NoVoters(held);
    } else {
      var front, last := shares[..|shares| - 1], shares[|shares| - 1];
      FiledKeys(held, front);
      assert shares == front + [last];
      VotersSnoc(held, front, last);
    }
  }

  lemma {:induction false} FiledCount(env: Env, hash: string, held: Shares, shares: seq<Share>)
    requires Ballots(env, hash, held, shares)
    ensures |Filed(held, shares)| == |held| + |shares|
  {
    hide Ballots, Voters, Filed;
    if shares == [] {
      NoVoters(held);
    } else {
      var front, last := shares[..|shares| - 1], shares[|shares| - 1];
      Prefixed(env, hash, held, shares);
      FiledCount(env, hash, held, front);
      assert shares == front + [last];
      VotersSnoc(held, front, last);
      assert last.nodeId !in Filed(held, front) by { FiledKeys(held, front); }
      OneKeyMore(Filed(held, front), last);
    }
  }

  lemma NoVoters(held: Shares)
    ensures Voters([]) == {} && Filed(held, []) == held
  {
  }

  lemma VotersSnoc(held: Shares, front: seq<Share>, last: Share)
    ensures Voters(front + [last]) == Voters(front) + {last.nodeId}
    ensures Filed(held, front + [last]) == Filed(held, front)[last.nodeId := last]
  {
    var all := front + [last];
    assert all[|front|] == last && all[..|front|] == front;
    assert forall i :: 0 <= i < |front| ==> all[i] == front[i];
  }

  lemma OneKeyMore(held: Shares, s: Share)
    requires s.nodeId !in held
    ensures |held[s.nodeId := s]| == |held| + 1
  {
  }

  lemma Prefixed(env: Env, hash: string, held: Shares, shares: seq<Share>)
    requires shares != [] && Ballots(env, hash, held, shares)
    ensures Ballots(env, hash, held, shares[..|shares| - 1])
    ensures shares[|shares| - 1].nodeId !in held && shares[|shares| - 1].nodeId !in Voters(shares[..|shares| - 1])
  {
  }

  /** The node with the shares filed. */
  function WithShares(n: Node, hash: string, shares: seq<Share>): Node
    requires hash in n.signatures
  { n.(signatures := n.signatures[hash := Filed(n.signatures[hash], shares)]) }

  /** The quorum does not depend on the shares. */
  lemma SameQuorum(config: Config, n: Node, signatures: map<string, Shares>)
    ensures QuorumNow(config, n.(signatures := signatures)) == QuorumNow(config, n) == Quorum(config, n.(signatures := signatures))
  {
  }

  /** Short of a quorum the node only files what it hears. */
  lemma {:induction false} Collects(env: Env, config: Config, n: Node, p: Proposal, shares: seq<Share>, now: real)
    requires var h := env.proposalHash(p);
             h in n.proposals && n.proposals[h] == p && h in n.signatures && Ballots(env, h, n.signatures[h], shares)
    requires |n.signatures[env.proposalHash(p)]| + |shares| < QuorumNow(config, n)
    ensures Hears(env, config, n, shares, now) == WithShares(n, env.proposalHash(p), shares)
  {
    hide QuorumNow, Quorum, MaybeCommit, Ballots;
    var h := env.proposalHash(p);
    if shares == [] {
      assert n.signatures[h := n.signatures[h]] == n.signatures;
    } else {
      Prefixed(env, h, n.signatures[h], shares);
      Collects(env, config, n, p, shares[..|shares| - 1], now);
      OneMore(env, config, n, p, shares, now);
      FiledCount(env, h, n.signatures[h], shares);
      SameQuorum(config, n, WithShares(n, h, shares).signatures);
      FewDoNothing(env, config, WithShares(n, h, shares), p, now);
    }
  }

  lemma FewDoNothing(env: Env, config: Config, n: Node, p: Proposal, now: real)
    requires env.proposalHash(p) in n.signatures && |n.signatures[env.proposalHash(p)]| < Quorum(config, n)
    ensures MaybeCommit(env, config, n, p, now) == n
  {
    hide Quorum, ValidateCheckpoint, CommitLocal;
  }

  lemma OneMore(env: Env, config: Config, n: Node, p: Proposal, shares: seq<Share>, now: real)
    requires var h := env.proposalHash(p);
             && h in n.proposals && n.proposals[h] == p && h in n.signatures && shares != [] && Ballots(env, h, n.signatures[h], shares)
             && Hears(env, config, n, shares[..|shares| - 1], now) == WithShares(n, h, shares[..|shares| - 1])
    ensures Hears(env, config, n, shares, now) == MaybeCommit(env, config, WithShares(n, env.proposalHash(p), shares), p, now)
  {
    hide MaybeCommit;
    var h := env.proposalHash(p);
    var front, last := shares[..|shares| - 1], shares[|shares| - 1];
    var m := WithShares(n, h, front);
    assert m.signatures[h := m.signatures[h][last.nodeId := last]] == n.signatures[h := Filed(n.signatures[h], shares)];
  }

  lemma {:induction false} WithSharesSound(env: Env, tolerance: real, n: Node, hash: string, shares: seq<Share>)
    requires Sound(env, tolerance, n) && hash in n.signatures && Ballots(env, hash, n.signatures[hash], shares)
    ensures Sound(env, tolerance, WithShares(n, hash, shares))
  {
    hide Sound;
    if shares == [] {
      assert n.signatures[hash := n.signatures[hash]] == n.signatures;
    } else {
      var front, last := shares[..|shares| - 1], shares[|shares| - 1];
      WithSharesSound(env, tolerance, n, hash, front);
      var m, k := WithShares(n, hash, front), WithShares(n, hash, shares);
      assert m.signatures[hash := m.signatures[hash][last.nodeId := last]] == k.signatures;
      ShareKeeps(env, tolerance, m, k, last);
      KeepsSound(env, tolerance, m, k, true);
    }
  }

  /** The shares that complete a quorum make a block signed by exactly the nodes heard, and it
      goes into the ledger if its turns are new. */
  lemma SharesSeal(env: Env, config: Config, n: Node, p: Proposal, shares: seq<Share>, now: real) returns (b: Checkpoint)
    requires Binding(env) && Sound(env, config.flopsTolerance, n) && OwnKey(env, n.me) && n.chain != []
    requires var h := env.proposalHash(p);
             && h in n.proposals && n.proposals[h] == p && h in n.signatures && Ballots(env, h, n.signatures[h], shares)
             && shares != [] && |n.signatures[h]| + |shares| == QuorumNow(config, n)
    requires ValidateProposal(env, config.flopsTolerance, p, n.chain, n.committed, false).Passed? && TurnsNew(n.chain, Checkpoint(p, [], 0))
    ensures b.proposal == p && b.quorum == |b.signatures| == QuorumNow(config, n)
    ensures Signers(b.signatures) == n.signatures[env.proposalHash(p)].Keys + Voters(shares)
    ensures Acceptable(env, config.flopsTolerance, n.chain, b)
    ensures Hears(env, config, n, shares, now) == Committed(env, WithShares(n, env.proposalHash(p), shares), b, now)
  {
    hide QuorumNow, Quorum, MaybeCommit, ValidateProposal, Sound, OwnKey, Binding, Acceptable, TurnsNew, Committed, QuorumFault, Signers, Voters;
    var h := env.proposalHash(p);
    var m := WithShares(n, h, shares);
    Prefixed(env, h, n.signatures[h], shares);
    Collects(env, config, n, p, shares[..|shares| - 1], now);
    OneMore(env, config, n, p, shares, now);
    FiledCount(env, h, n.signatures[h], shares);
    FiledKeys(n.signatures[h], shares);
    SameQuorum(config, n, m.signatures);
    WithSharesSound(env, config.flopsTolerance, n, h, shares);
    NotGenesis(env, config.flopsTolerance, p, n.chain, n.committed);
    b := QuorumCommits(env, config, m, p, now);
    GoesIn(env, config, m, b, now);
  }

  lemma NotGenesis(env: Env, tolerance: real, p: Proposal, chain: Ledger, seen: set<string>)
    requires ValidateProposal(env, tolerance, p, chain, seen, false).Passed?
    ensures !IsCanonicalGenesis(p)
  {
    hide CheckClaims, TipHash;
  }

  /** A validated block whose turns are new goes in. */
  lemma GoesIn(env: Env, config: Config, n: Node, b: Checkpoint, now: real)
    requires Binding(env) && Sound(env, config.flopsTolerance, n) && n.chain != []
    requires ValidateCheckpoint(env, config.flopsTolerance, b, n.chain, n.committed, false).Passed?
    requires !IsCanonicalGenesis(b.proposal) && TurnsNew(n.chain, Checkpoint(b.proposal, [], 0))
    ensures Acceptable(env, config.flopsTolerance, n.chain, b) && CommitLocal(env, config, n, b, now) == Committed(env, n, b, now)
  {
    hide ValidateCheckpoint, AppendOk, Built, Committed, Refused, Claims, ClaimIds, QuorumMet, ClaimsAcceptable, TurnsNew, Binding;
    var tol := config.flopsTolerance;
    SoundBuilt(env, tol, n);
    CheckpointPassesIff(env, tol, b, n.chain, n.committed, false);
    NotedAppendsIff(env, tol, n.chain, b, n.committed);
    PassWithFewerSeen(env, tol, b, n.chain, n.committed, {});
    TurnsAre(n.chain, b);
  }

  lemma TurnsAre(chain: Ledger, b: Checkpoint)
    ensures TurnsNew(chain, b) <==> TurnsNew(chain, Checkpoint(b.proposal, [], 0))
  {
    hide Claims;
    assert BlockClaims(b) == BlockClaims(Checkpoint(b.proposal, [], 0));
  }

  // --------------------------------------------------------------------------- the round

  /** Another member of the committee, on the same ledger, that has not met the proposal or
      any claim in it. */
  ghost predicate FreeToVote(env: Env, c: Config, n: Node, d: Config, k: Node, p: Proposal) {
    && k.me.id != n.me.id && OwnKey(env, k.me) && k.outgoing == []
    && k.chain == n.chain && d.flopsTolerance == c.flopsTolerance
    && Members(d, k.me.id, k.peers, k.chain) == Members(c, n.me.id, n.peers, n.chain)
    && env.proposalHash(p) !in k.proposals && env.proposalHash(p) !in k.signed
    && forall i :: 0 <= i < |p.claims| ==> p.claims[i].claim.claimId !in k.committed
  }

  function BallotsOf(env: Env, voters: seq<Node>, p: Proposal): seq<Share> { seq(|voters|, i requires 0 <= i < |voters| => VoteOf(env, voters[i], p)) }

  /** The sealer's state as its proposal goes out: one share, its own. */
  lemma FirstShare(env: Env, c: Config, n: Node, now: real, stamp: string)
    requires env.proposalHash(OwnProposal(env, n, stamp)) !in n.signatures
    ensures var t := Proposed(env, n, now, stamp);
            var p := OwnProposal(env, n, stamp);
            && env.proposalHash(p) in t.signatures && t.signatures[env.proposalHash(p)] == map[n.me.id := VoteOf(env, n, p)]
            && t.chain == n.chain && t.committed == n.committed && t.me == n.me && QuorumNow(c, t) == QuorumNow(c, n)
  {
    hide OwnProposal, ProposalIds, QuorumSize, Members;
    var nothing: Shares := map[];
    assert nothing[n.me.id := VoteOf(env, n, OwnProposal(env, n, stamp))] == map[n.me.id := VoteOf(env, n, OwnProposal(env, n, stamp))];
  }

  lemma BallotsFit(env: Env, c: Config, d: Config, n: Node, voters: seq<Node>, p: Proposal)
    requires forall i :: 0 <= i < |voters| ==> FreeToVote(env, c, n, d, voters[i], p)
    requires forall i, j :: 0 <= i < j < |voters| ==> voters[i].me.id != voters[j].me.id
    ensures Ballots(env, env.proposalHash(p), map[n.me.id := VoteOf(env, n, p)], BallotsOf(env, voters, p))
  {
    hide Members;
  }

  /** The claims a node proposes are exactly those waiting that are neither in its index nor
      reserved, each once, in rising order of id. */
  lemma CandidatesAre(n: Node) returns (ids: seq<string>)
    ensures |ids| == |Candidates(n)| && forall i :: 0 <= i < |ids| ==> ids[i] in n.pending && Candidates(n)[i] == n.pending[ids[i]]
    ensures forall id :: id in ids <==> id in n.pending && id !in n.committed && id !in n.proposed
    ensures forall i, j :: 0 <= i < j < |ids| ==> Text.Less(ids[i], ids[j])
  {
    hide Text.Ranked, Text.Less;
    var free := set id | id in n.pending && id !in n.committed && id !in n.proposed;
    ids := Text.Ranked(NO_WEIGHT, free);
    assert forall i :: 0 <= i < |ids| ==> ids[i] in Text.Elements(ids);
    forall i, j | 0 <= i < j < |ids| ensures Text.Less(ids[i], ids[j]) { assert Text.Before(NO_WEIGHT, ids[i], ids[j]); }
    forall id | id in free ensures id in ids { assert id in Text.Elements(ids); }
  }

  /** Where claims wait under their own ids, what a node proposes also passes with its own
      index noted. */
  lemma OwnPasses(env: Env, c: Config, n: Node, stamp: string)
    requires Proposes(env, c, n, stamp) && PendingFiled(n)
    ensures ValidateProposal(env, c.flopsTolerance, OwnProposal(env, n, stamp), n.chain, n.committed, false).Passed? && n.chain != []
  {
    hide ValidateProposal, SealerFor, Candidates, Text.Less;
    var ids := CandidatesAre(n);
    assert forall i :: 0 <= i < |ids| ==> ids[i] in ids;
    AcceptableThere(env, c.flopsTolerance, OwnProposal(env, n, stamp), n.chain, n.committed);
  }

  /** A round without losses. The sealer's proposal gets a vote from each member that is free
      to give one; when the votes make a quorum the sealer's ledger grows by a block of that
      proposal, signed by exactly the sealer and the voters, and it sends the block out. */
  lemma RoundCommits(env: Env, c: Config, d: Config, n: Node, stamp: string, voters: seq<Node>, now: real) returns (b: Checkpoint)
    requires Binding(env) && Sound(env, c.flopsTolerance, n) && OwnKey(env, n.me) && PendingFiled(n) && Proposes(env, c, n, stamp)
    requires var p := OwnProposal(env, n, stamp);
             && env.proposalHash(p) !in n.signatures && TurnsNew(n.chain, Checkpoint(p, [], 0))
             && forall i :: 0 <= i < |voters| ==> FreeToVote(env, c, n, d, voters[i], p)
    requires forall i, j :: 0 <= i < j < |voters| ==> voters[i].me.id != voters[j].me.id
    requires 1 + |voters| == QuorumNow(c, n)
    ensures var p := OwnProposal(env, n, stamp);
            && ProposalMessage(p) in ProposeInternal(env, c, n, now, stamp).outgoing
            && (forall i :: 0 <= i < |voters| ==> ShareMessage(VoteOf(env, voters[i], p)) in OnProposal(env, d, voters[i], p, now).outgoing)
            && b.proposal == p && b.quorum == |b.signatures| == 1 + |voters|
            && Signers(b.signatures) == {n.me.id} + (set i | 0 <= i < |voters| :: voters[i].me.id)
            && Acceptable(env, c.flopsTolerance, n.chain, b)
            && var m := Hears(env, c, ProposeInternal(env, c, n, now, stamp), BallotsOf(env, voters, p), now);
               m.chain == n.chain + [b] && CommitMessage(b) in m.outgoing
  {
    hide Sound, Binding, OwnKey, Proposes, Proposed, OwnProposal, Acceptable, TurnsNew, QuorumNow, ProposeInternal, OnProposal, Hears, Signers,
      PendingFiled, Ballots, FreeToVote, Committed, BallotsOf;
    var p := OwnProposal(env, n, stamp);
    forall i | 0 <= i < |voters| ensures ShareMessage(VoteOf(env, voters[i], p)) in OnProposal(env, d, voters[i], p, now).outgoing {
      VoterSigns(env, c, n, stamp, d, voters[i], now);
    }
    BallotsFit(env, c, d, n, voters, p);
    ProposingEmits(env, c, n, now, stamp);
    BallotVoters(env, voters, p);
    b := RoundSeals(env, c, n, stamp, BallotsOf(env, voters, p), now);
  }

  lemma VoterSigns(env: Env, c: Config, n: Node, stamp: string, d: Config, k: Node, now: real)
    requires Proposes(env, c, n, stamp) && FreeToVote(env, c, n, d, k, OwnProposal(env, n, stamp))
    ensures ShareMessage(VoteOf(env, k, OwnProposal(env, n, stamp))) in OnProposal(env, d, k, OwnProposal(env, n, stamp), now).outgoing
  {
    hide Proposes, OwnProposal, OnProposal, Members, OwnKey;
    ProposalsAreSigned(env, c, n, stamp, d, k, now);
  }

  lemma BallotVoters(env: Env, voters: seq<Node>, p: Proposal)
    ensures |BallotsOf(env, voters, p)| == |voters|
    ensures Voters(BallotsOf(env, voters, p)) == set i | 0 <= i < |voters| :: voters[i].me.id
  {
    assert forall i :: 0 <= i < |voters| ==> BallotsOf(env, voters, p)[i].nodeId == voters[i].me.id;
  }

  /** The sealer's side: its own share and the ballots make the block. */
  lemma RoundSeals(env: Env, c: Config, n: Node, stamp: string, ballots: seq<Share>, now: real) returns (b: Checkpoint)
    requires Binding(env) && Sound(env, c.flopsTolerance, n) && OwnKey(env, n.me) && PendingFiled(n) && Proposes(env, c, n, stamp)
    requires var p := OwnProposal(env, n, stamp);
             && env.proposalHash(p) !in n.signatures && TurnsNew(n.chain, Checkpoint(p, [], 0))
             && Ballots(env, env.proposalHash(p), map[n.me.id := VoteOf(env, n, p)], ballots)
    requires 1 + |ballots| == QuorumNow(c, n)
    ensures var p := OwnProposal(env, n, stamp);
            && b.proposal == p && b.quorum == |b.signatures| == 1 + |ballots|
            && Signers(b.signatures) == {n.me.id} + Voters(ballots)
            && Acceptable(env, c.flopsTolerance, n.chain, b)
            && var m := Hears(env, c, ProposeInternal(env, c, n, now, stamp), ballots, now);
               m.chain == n.chain + [b] && CommitMessage(b) in m.outgoing
  {
    hide Sound, Binding, OwnKey, Proposes, Proposed, OwnProposal, Acceptable, TurnsNew, QuorumNow, Quorum, MaybeCommit, Signers, PendingFiled,
      Ballots, Committed, Voters, ValidateProposal;
    var p := OwnProposal(env, n, stamp);
    var t := Proposed(env, n, now, stamp);
    OwnPasses(env, c, n, stamp);
    ProposedIs(env, c.flopsTolerance, n, now, stamp);
    FirstShare(env, c, n, now, stamp);
    TriesProposal(env, c, n, now, stamp);
    SameQuorum(c, t, t.signatures);
    if ballots == [] {
      NoVoters(map[]);
      b := OneSeals(env, c, t, p, now);
    } else {
      FewDoNothing(env, c, t, p, now);
      b := SharesSeal(env, c, t, p, ballots, now);
    }
    var u := WithShares(t, env.proposalHash(p), ballots);
    CommittedSends(env, t, b, now);
    CommittedSends(env, u, b, now);
  }

  lemma TriesProposal(env: Env, c: Config, n: Node, now: real, stamp: string)
    requires Proposes(env, c, n, stamp)
    ensures ProposeInternal(env, c, n, now, stamp) == MaybeCommit(env, c, Proposed(env, n, now, stamp), OwnProposal(env, n, stamp), now)
  {
    hide Proposes, MaybeCommit, TakeUp, OwnProposal;
  }

  lemma CommittedSends(env: Env, n: Node, b: Checkpoint, now: real)
    ensures var m := Committed(env, n, b, now); m.chain == n.chain + [b] && CommitMessage(b) in m.outgoing
  {
    hide BlockIds;
  }

  /** A committee of one. */
  lemma OneSeals(env: Env, config: Config, n: Node, p: Proposal, now: real) returns (b: Checkpoint)
    requires Binding(env) && Sound(env, config.flopsTolerance, n) && OwnKey(env, n.me) && n.chain != []
    requires env.proposalHash(p) in n.signatures && |n.signatures[env.proposalHash(p)]| == QuorumNow(config, n)
    requires ValidateProposal(env, config.flopsTolerance, p, n.chain, n.committed, false).Passed? && TurnsNew(n.chain, Checkpoint(p, [], 0))
    ensures b.proposal == p && b.quorum == |b.signatures| == QuorumNow(config, n)
    ensures Signers(b.signatures) == n.signatures[env.proposalHash(p)].Keys
    ensures Acceptable(env, config.flopsTolerance, n.chain, b)
    ensures MaybeCommit(env, config, n, p, now) == Committed(env, n, b, now)
  {
    hide QuorumNow, Quorum, MaybeCommit, ValidateProposal, Sound, OwnKey, Binding, Acceptable, TurnsNew, Committed, QuorumFault, Signers;
    NotGenesis(env, config.flopsTolerance, p, n.chain, n.committed);
    b := QuorumCommits(env, config, n, p, now);
    GoesIn(env, config, n, b, now);
  }

  // ------------------------------------------------------------------- the block spreads

  /** More blocks, more committed claims, no claim waiting or reserved again, and no clock set
      to another time. */
  ghost predicate Onward(n: Node, m: Node, now: real) {
    && n.chain <= m.chain && n.committed <= m.committed && m.pending.Keys <= n.pending.Keys && m.proposed <= n.proposed
    && (m.lastActivity == n.lastActivity || m.lastActivity == now)
  }

  lemma CommitLocalOnward(env: Env, config: Config, n: Node, b: Checkpoint, now: real)
    ensures Onward(n, CommitLocal(env, config, n, b, now), now)
  {
    hide AppendOk, Committed, Refused, Onward;
    StaysOnward(n, now);
    CommittedOnward(env, n, b, now);
    RefusedOnward(config, n, b, now);
  }

  lemma StaysOnward(n: Node, now: real)
    ensures Onward(n, n, now)
  {
  }

  lemma CommittedOnward(env: Env, n: Node, b: Checkpoint, now: real)
    ensures Onward(n, Committed(env, n, b, now), now)
  {
    hide BlockIds;
  }

  lemma RefusedOnward(config: Config, n: Node, b: Checkpoint, now: real)
    ensures Onward(n, Refused(config, n, b, now), now)
  {
    hide AlreadyCommitted, BlockIds, ClaimIds;
  }

  lemma FlushOneOnward(env: Env, config: Config, n: Node, height: int, now: real)
    ensures Onward(n, FlushOne(env, config, n, height, now), now)
  {
    hide CommitLocal, ValidateCheckpoint;
    if height in n.pendingCommits {
      CommitLocalOnward(env, config, n.(pendingCommits := n.pendingCommits - {height}), n.pendingCommits[height], now);
    }
  }

  lemma {:induction false} FlushListOnward(env: Env, config: Config, n: Node, heights: seq<int>, now: real)
    ensures Onward(n, FlushList(env, config, n, heights, now), now)
  {
    hide FlushOne;
    if heights == [] {
    } else {
      FlushListOnward(env, config, n, heights[..|heights| - 1], now);
      FlushOneOnward(env, config, FlushList(env, config, n, heights[..|heights| - 1], now), heights[|heights| - 1], now);
    }
  }

  /** A block one node's round made is taken up by every node on the same ledger with an exact
      index that has not rejected it: it becomes the next block there, its claims are in the
      index and neither waiting nor reserved, and the sealer's turn starts anew. */
  lemma CommitSpreads(env: Env, config: Config, n: Node, b: Checkpoint, now: real)
    requires Acceptable(env, config.flopsTolerance, n.chain, b) && Exact(n) && env.Hash(b) !in n.rejects
    ensures var m := OnCommit(env, config, n, b, now);
            && n.chain + [b] <= m.chain && m.lastActivity == now
            && forall i :: 0 <= i < |b.proposal.claims| ==>
                 var id := b.proposal.claims[i].claim.claimId;
                 id in m.committed && id !in m.pending && id !in m.proposed
  {
    hide ValidateCheckpoint, AppendOk, ClaimIds, TipHash, FlushList, Ascending, BlockIds;
    AppendsNext(env, n.chain, b);
    PassWithLedgerSeen(env, config.flopsTolerance, b, n.chain);
    var seen := ValidateCheckpoint(env, config.flopsTolerance, b, n.chain, n.committed, false).seen;
    var m := CommitLocal(env, config, n.(committed := seen), b, now);
    FlushListOnward(env, config, m, Ascending(m.pendingCommits.Keys), now);
    SettledHere(env, config, n.(committed := seen), b, now);
  }

  lemma AppendsNext(env: Env, chain: Ledger, b: Checkpoint)
    requires AppendOk(env, chain, b)
    ensures b.Height() == |chain| && b.proposal.prevHash == TipHash(env, chain)
  {
    hide TipHash;
  }

  lemma SettledHere(env: Env, config: Config, n: Node, b: Checkpoint, now: real)
    requires AppendOk(env, n.chain, b) && b.Height() == |n.chain|
    ensures var m := CommitLocal(env, config, n, b, now);
            && m.chain == n.chain + [b] && m.lastActivity == now
            && forall i :: 0 <= i < |b.proposal.claims| ==>
                 var id := b.proposal.claims[i].claim.claimId;
                 id in m.committed && id !in m.pending && id !in m.proposed
  {
    hide AppendOk, Refused;
  }
}
