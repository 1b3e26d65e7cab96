/** What a node has signed and what it keeps waiting, over every step and run. */
module Pledges {
  import opened Models
  import opened Chain
  import opened Validation
  import opened Committee
  import opened Protocol
  import opened Runs
  import opened Votes

  /** Nothing is signed or forgotten, no vote is sent, and no claim joins those waiting. */
  ghost predicate Silent(n: Node, m: Node) {
    && m.me == n.me && m.signed == n.signed && NoVote(n.outgoing, m.outgoing)
    && forall id :: id in m.pending ==> id in n.pending && m.pending[id] == n.pending[id]
  }

  ghost predicate NoVote(before: seq<Message>, after: seq<Message>) {
    forall x :: x in after && x.ShareMessage? ==> x in before
  }

  lemma SilentTrans(n: Node, m: Node, k: Node)
    requires Silent(n, m) && Silent(m, k)
    ensures Silent(n, k)
  {
  }

  lemma NoVoteSnoc(s: seq<Message>, x: Message)
    requires !x.ShareMessage?
    ensures NoVote(s, s) && NoVote(s, s + [x])
  {
  }

  lemma RequestSilent(config: Config, n: Node, from: int, now: real)
    ensures Silent(n, RequestSync(config, n, from, now))
  {
    hide NoVote;
    NoVoteSnoc(n.outgoing, SyncRequest(n.me.id, from));
  }

  lemma RefusedSilent(config: Config, n: Node, b: Checkpoint, now: real)
    ensures Silent(n, Refused(config, n, b, now))
  {
    hide NoVote, AlreadyCommitted, BlockIds, ClaimIds, RequestSync;
    NoVoteSnoc(n.outgoing, SyncRequest(n.me.id, 0));
    RequestSilent(config, n, b.Height() - 1, now);
  }

  lemma CommitLocalSilent(env: Env, config: Config, n: Node, b: Checkpoint, now: real)
    ensures Silent(n, CommitLocal(env, config, n, b, now))
  {
    hide NoVote, AppendOk, Refused, BlockIds;
    NoVoteSnoc(n.outgoing, CommitMessage(b));
    RefusedSilent(config, n, b, now);
  }

  lemma MaybeCommitSilent(env: Env, config: Config, n: Node, p: Proposal, now: real)
    ensures Silent(n, MaybeCommit(env, config, n, p, now))
  {
    hide CommitLocal, Quorum, ValidateCheckpoint, Sealed;
    CommitLocalSilent(env, config, n, Sealed(config, n, p, SharesOf(n, env.proposalHash(p))), now);
  }

  lemma OnSignatureSilent(env: Env, config: Config, n: Node, s: Share, now: real)
    ensures Silent(n, OnSignature(env, config, n, s, now))
  {
    hide MaybeCommit;
    if s.proposalHash in n.proposals {
      var noted := n.(signatures := n.signatures[s.proposalHash := SharesOf(n, s.proposalHash)[s.nodeId := s]]);
      MaybeCommitSilent(env, config, noted, n.proposals[s.proposalHash], now);
    }
  }

  lemma FlushOneSilent(env: Env, config: Config, n: Node, height: int, now: real)
    ensures Silent(n, FlushOne(env, config, n, height, now))
  {
    hide CommitLocal, ValidateCheckpoint;
    if height in n.pendingCommits {
      CommitLocalSilent(env, config, n.(pendingCommits := n.pendingCommits - {height}), n.pendingCommits[height], now);
    }
  }

  lemma {:induction false} FlushListSilent(env: Env, config: Config, n: Node, heights: seq<int>, now: real)
    ensures Silent(n, FlushList(env, config, n, heights, now))
  {
    hide FlushOne;
    if heights == [] {
    } else {
      var m := FlushList(env, config, n, heights[..|heights| - 1], now);
      FlushListSilent(env, config, n, heights[..|heights| - 1], now);
      FlushOneSilent(env, config, m, heights[|heights| - 1], now);
      SilentTrans(n, m, FlushOne(env, config, m, heights[|heights| - 1], now));
    }
  }

  lemma NextSilent(env: Env, config: Config, n: Node, b: Checkpoint, now: real)
    ensures Silent(n, NextCommit(env, config, n, b, now))
  {
    hide CommitLocal, ValidateCheckpoint, FlushList, Ascending;
    var v := ValidateCheckpoint(env, config.flopsTolerance, b, n.chain, n.committed, false);
    if v.Passed? {
      var m := CommitLocal(env, config, n.(committed := v.seen), b, now);
      CommitLocalSilent(env, config, n.(committed := v.seen), b, now);
      FlushListSilent(env, config, m, Ascending(m.pendingCommits.Keys), now);
      SilentTrans(n, m, FlushList(env, config, m, Ascending(m.pendingCommits.Keys), now));
    }
  }

  lemma OldSilent(env: Env, config: Config, n: Node, b: Checkpoint, now: real)
    requires n.chain != []
    ensures Silent(n, OldCommit(env, config, n, b, now))
  {
    hide RequestSync, NoVote, TipHash;
    var alert := ForkAlert(n.me.id, b.Height(), TipHash(env, n.chain), env.Hash(b));
    var alerted := n.(outgoing := n.outgoing + [alert]);
    NoVoteSnoc(n.outgoing, alert);
    RequestSilent(config, alerted, -1, now);
    SilentTrans(n, alerted, RequestSync(config, alerted, -1, now));
  }

  lemma OnCommitSilent(env: Env, config: Config, n: Node, b: Checkpoint, now: real)
    ensures Silent(n, OnCommit(env, config, n, b, now))
  {
    hide RequestSync, NextCommit, OldCommit, TipHash, TrimLowest;
    if n.chain != [] { OldSilent(env, config, n, b, now); }
    NextSilent(env, config, n, b, now);
    RequestSilent(config, QueueCommit(n, b), -1, now);
    RequestSilent(config, QueueCommit(n, b), |n.chain| - 1, now);
    RequestSilent(config, n, -1, now);
  }

  lemma {:induction false} OnCommitsSilent(env: Env, config: Config, n: Node, blocks: seq<Checkpoint>, now: real)
    ensures Silent(n, OnCommits(env, config, n, blocks, now))
  {
    hide OnCommit;
    if blocks == [] {
    } else {
      var m := OnCommits(env, config, n, blocks[..|blocks| - 1], now);
      OnCommitsSilent(env, config, n, blocks[..|blocks| - 1], now);
      OnCommitSilent(env, config, m, blocks[|blocks| - 1], now);
      SilentTrans(n, m, OnCommit(env, config, m, blocks[|blocks| - 1], now));
    }
  }

  lemma {:induction false} ApplySilent(env: Env, config: Config, n: Node, incoming: seq<Checkpoint>, i: nat, saved: seq<Checkpoint>, ancestor: int, now: real)
    requires i <= |incoming|
    ensures Silent(n, Apply(env, config, n, incoming, i, saved, ancestor, now))
    decreases |incoming| - i
  {
    hide ValidateCheckpoint, CommitLocal, Restored, ClaimIds;
    if i == |incoming| {
    } else {
      var m := CommitLocal(env, config, n, incoming[i], now);
      CommitLocalSilent(env, config, n, incoming[i], now);
      ApplySilent(env, config, m, incoming, i + 1, saved, ancestor, now);
      SilentTrans(n, m, Apply(env, config, m, incoming, i + 1, saved, ancestor, now));
    }
  }

  lemma ReconcileSilent(env: Env, config: Config, n: Node, peer: seq<Checkpoint>, now: real)
    ensures Silent(n, Reconcile(env, config, n, peer, now))
  {
    hide Declined, Apply, SortByHeight, Above, AncestorFrom;
    var blocks := SortByHeight(peer);
    var a := CommonAncestor(env, n.chain, blocks);
    ApplySilent(env, config, RolledBack(n, a), Above(blocks, a), 0, Saved(n.chain, a), a, now);
    SilentTrans(n, RolledBack(n, a), Apply(env, config, RolledBack(n, a), Above(blocks, a), 0, Saved(n.chain, a), a, now));
  }

  lemma HeartbeatSilent(env: Env, config: Config, n: Node, from: string, height: int, hash: string, now: real)
    ensures Silent(n, OnHeartbeat(env, config, n, from, height, hash, now))
  {
    hide RequestSync, NoVote, TipHash;
    var noted := n.(peers := n.peers + {from}, peerSeen := n.peerSeen[from := now]);
    NoVoteSnoc(n.outgoing, ForkAlert(n.me.id, height, TipHash(env, n.chain), hash));
    RequestSilent(config, noted, -1, now);
    RequestSilent(config, noted, |n.chain| - 1, now);
  }

  lemma TickSilent(env: Env, config: Config, n: Node, now: real)
    ensures Silent(n, Tick(env, config, n, now))
  {
    hide Prune, NoVote, SignatureCount;
    PruneFrame(config, n, now);
    var t := Turned(config, n, now);
    var out := Beat(env, t).outgoing;
    if t.chain != [] { NoVoteSnoc(n.outgoing, out[|out| - 1]); } else { NoVoteSnoc(n.outgoing, SyncRequest("", 0)); }
  }

  lemma SyncRequestSilent(n: Node, requester: string, from: int)
    ensures Silent(n, OnSyncRequest(n, requester, from))
  {
    hide BlocksAbove, NoVote;
    NoVoteSnoc(n.outgoing, SyncResponse(n.me.id, BlocksAbove(n.chain, from)));
  }

  // --------------------------------------------------------------------------- every step

  predicate IsClaim(e: Event) { e.ClaimIn? || e.Submit? }

  lemma QuietStep(env: Env, config: Config, n: Node, e: Event, now: real)
    requires !IsClaim(e) && !e.ProposalIn? && !e.Propose?
    ensures Silent(Cleared(n), Step(env, config, n, e, now))
  {
    hide OnSignature, OnCommit, OnHeartbeat, OnSyncRequest, OnCommits, Tick, Reconcile, HasGenesisHeight, Silent;
    var c := Cleared(n);
    match e {
      case ShareIn(s) => OnSignatureSilent(env, config, c, s, now);
      case CommitIn(b) => OnCommitSilent(env, config, c, b, now);
      case HeartbeatIn(from, height, hash) => HeartbeatSilent(env, config, c, from, height, hash, now);
      case ForkIn(a, b) => ForkSilent(c, a, b);
      case SyncRequestIn(requester, from) => SyncRequestSilent(c, requester, from);
      case SyncResponseIn(blocks) =>
        OnCommitsSilent(env, config, c, blocks, now);
        ReconcileSilent(env, config, c, blocks, now);
      case ClockTick => TickSilent(env, config, c, now);
    }
  }

  lemma ForkSilent(n: Node, a: string, b: string)
    ensures Silent(n, OnFork(n, a, b))
  {
  }

  /** Claims wait under their own ids. */
  ghost predicate PendingFiled(n: Node) { forall id :: id in n.pending ==> n.pending[id].claim.claimId == id }

  /** One step: nothing signed is forgotten; a vote goes out only for a proposal that came in
      and was not signed before, or for the node's own; claims wait under their own ids. */
  lemma StepPledges(env: Env, config: Config, n: Node, e: Event, now: real)
    ensures var m := Step(env, config, n, e, now);
            && n.signed <= m.signed && m.me == n.me
            && (PendingFiled(n) ==> PendingFiled(m))
            && forall s :: ShareMessage(s) in m.outgoing ==>
                 s.proposalHash in m.signed && (e.Propose? || (e.ProposalIn? && s.proposalHash !in n.signed))
  {
    hide Step;
    var c := Cleared(n);
    if IsClaim(e) {
      ClaimPledges(env, config, n, e, now);
    } else if e.ProposalIn? {
      ProposalPledges(env, config, n, e.proposal, now);
    } else if e.Propose? {
      OwnPledges(env, config, n, e.stamp, now);
    } else {
      QuietStep(env, config, n, e, now);
      assert NoVote([], Step(env, config, n, e, now).outgoing);
    }
  }

  lemma ClaimPledges(env: Env, config: Config, n: Node, e: Event, now: real)
    requires IsClaim(e)
    ensures var m := Step(env, config, n, e, now);
            m.signed == n.signed && m.me == n.me && (PendingFiled(n) ==> PendingFiled(m)) && NoVote([], m.outgoing)
  {
    hide OnClaims, SubmitClaim, PendingFiled, NoVote;
    if e.ClaimIn? {
      ClaimFiled(env, Cleared(n), e.signed, e.victims);
    } else {
      SubmitFiled(env, config, Cleared(n), e.signed);
    }
    SameFiled(n);
  }

  lemma SameFiled(n: Node)
    ensures PendingFiled(n) <==> PendingFiled(Cleared(n))
  {
  }

  lemma ClaimFiled(env: Env, n: Node, s: SignedClaim, victims: set<string>)
    ensures var m := OnClaims(env, n, s, victims);
            m.signed == n.signed && m.me == n.me && (PendingFiled(n) ==> PendingFiled(m)) && NoVote(n.outgoing, m.outgoing)
  {
    assert OnClaims(env, n, s, victims).outgoing == n.outgoing;
  }

  lemma SubmitFiled(env: Env, config: Config, n: Node, s: SignedClaim)
    ensures var m := SubmitClaim(env, config, n, s);
            m.signed == n.signed && m.me == n.me && (PendingFiled(n) ==> PendingFiled(m)) && NoVote(n.outgoing, m.outgoing)
  {
    hide NoVote;
    NoVoteSnoc(n.outgoing, ClaimGossip(s));
  }

  lemma ProposalPledges(env: Env, config: Config, n: Node, p: Proposal, now: real)
    ensures var m := Step(env, config, n, ProposalIn(p), now);
            && n.signed <= m.signed && m.me == n.me
            && (PendingFiled(n) ==> PendingFiled(m))
            && forall s :: ShareMessage(s) in m.outgoing ==> s.proposalHash in m.signed && s.proposalHash !in n.signed
  {
    hide SealerFor, TakeUp, MaybeCommit, ValidateProposal, OnProposal, Worthy;
    var c := Cleared(n);
    var m := Step(env, config, n, ProposalIn(p), now);
    assert m == OnProposal(env, config, c, p, now);
    VotesIff(env, config, c, p, now);
    ProposalPending(env, config, c, p, now);
    forall s | ShareMessage(s) in m.outgoing ensures s.proposalHash in m.signed && s.proposalHash !in n.signed {
      assert s == VoteOf(env, c, p);
    }
  }

  lemma ProposalPending(env: Env, config: Config, n: Node, p: Proposal, now: real)
    ensures var m := OnProposal(env, config, n, p, now);
            m.me == n.me && forall id :: id in m.pending ==> id in n.pending && m.pending[id] == n.pending[id]
  {
    hide SealerFor, TakeUp, MaybeCommit, ValidateProposal;
    TakeUpPending(env, n, p, now);
    MaybeCommitSilent(env, config, TakeUp(env, n, p, now), p, now);
  }

  lemma TakeUpPending(env: Env, n: Node, p: Proposal, now: real)
    ensures var m := TakeUp(env, n, p, now);
            && m.me == n.me && m.signed == n.signed + {env.proposalHash(p)}
            && m.outgoing == n.outgoing + [ShareMessage(VoteOf(env, n, p))]
            && forall id :: id in m.pending ==> id in n.pending && m.pending[id] == n.pending[id]
  {
    hide ProposalIds;
  }

  lemma OwnPledges(env: Env, config: Config, n: Node, stamp: string, now: real)
    ensures var m := Step(env, config, n, Propose(stamp), now);
            && n.signed <= m.signed && m.me == n.me
            && (PendingFiled(n) ==> PendingFiled(m))
            && forall s :: ShareMessage(s) in m.outgoing ==> s.proposalHash in m.signed
  {
    hide Proposes, TakeUp, MaybeCommit, OwnProposal;
    var c := Cleared(n);
    if Proposes(env, config, c, stamp) {
      var p := OwnProposal(env, c, stamp);
      TakeUpPending(env, c, p, now);
      var t := TakeUp(env, c, p, now);
      MaybeCommitSilent(env, config, t.(outgoing := t.outgoing + [ProposalMessage(p)]), p, now);
    }
  }

  // ------------------------------------------------------------------------- whole runs

  /** What was signed at one state of a run is remembered at every later one. */
  lemma {:induction false} RunRemembers(env: Env, config: Config, states: seq<Node>, events: seq<Event>, times: seq<real>, i: nat, j: nat)
    requires IsRun(env, config, states, events, times) && i <= j < |states|
    ensures states[i].signed <= states[j].signed && (PendingFiled(states[i]) ==> PendingFiled(states[j]))
  {
    hide Step, PendingFiled;
    if i == j {
    } else {
      RunRemembers(env, config, states, events, times, i, j - 1);
      assert states[j - 1 + 1] == Step(env, config, states[j - 1], events[j - 1], times[j - 1]);
      StepPledges(env, config, states[j - 1], events[j - 1], times[j - 1]);
    }
  }

  /** In any run, a node that has sent a vote for a proposal never votes for it again when it
      comes in; a second vote can only come with a proposal of its own. */
  lemma SignsOnce(env: Env, config: Config, states: seq<Node>, events: seq<Event>, times: seq<real>, i: nat, j: nat, a: Share, b: Share)
    requires IsRun(env, config, states, events, times) && i < j < |events|
    requires ShareMessage(a) in states[i + 1].outgoing && ShareMessage(b) in states[j + 1].outgoing && a.proposalHash == b.proposalHash
    ensures events[j].Propose?
  {
    hide Step;
    assert states[i + 1] == Step(env, config, states[i], events[i], times[i]);
    assert states[j + 1] == Step(env, config, states[j], events[j], times[j]);
    StepPledges(env, config, states[i], events[i], times[i]);
    StepPledges(env, config, states[j], events[j], times[j]);
    RunRemembers(env, config, states, events, times, i + 1, j);
  }
}
