/** Whole runs of one node: every event, in any order, at any times. */
module Runs {
  import opened Models
  import opened Chain
  import opened Validation
  import opened Validity
  import opened Committee
  import opened Protocol
  import opened Reorg
  import opened HeadOrder
  import opened Invariant
  import opened ReorgSafety

  // ----------------------------------------------------------------------- one step

  function Cleared(n: Node): Node { n.(outgoing := []) }

  /** A full-chain response goes to reconcile_chain. */
  predicate IsReorg(e: Event) { e.SyncResponseIn? && HasGenesisHeight(e.blocks) }

  lemma ClearedSound(env: Env, tolerance: real, n: Node)
    requires Sound(env, tolerance, n)
    ensures Sound(env, tolerance, Cleared(n)) && (Exact(n) <==> Exact(Cleared(n)))
  {
    hide ValidChain, ClaimIds;
  }

  /** No block that passed on_commit's checks is then refused by the store. */
  ghost predicate CleanStep(env: Env, config: Config, n: Node, e: Event, now: real) {
    match e
    case CommitIn(b) => !RefusesCommit(env, config, Cleared(n), b)
    case SyncResponseIn(blocks) => HasGenesisHeight(blocks) || CleanCommits(env, config, Cleared(n), blocks, now)
    case _ => true
  }

  lemma BeatSameCore(env: Env, n: Node)
    ensures SameCore(n, Beat(env, n))
  {
    hide SignatureCount, Quiet;
    QuietSelf(n.outgoing);
    if n.chain != [] {
      var out := Beat(env, n).outgoing;
      QuietSnoc(n.outgoing, out[|out| - 1]);
    }
  }

  /** A tick changes nothing the invariant speaks about, the view apart. */
  lemma TickSameCore(env: Env, config: Config, n: Node, now: real)
    ensures SameCore(n, Tick(env, config, n, now).(view := n.view))
    ensures Tick(env, config, n, now).view == if now - n.lastActivity > config.electionTimeout then Successor(n.view) else n.view
  {
    hide Beat, SameCore;
    var turned := Turned(config, n, now);
    TurnedFrame(config, n, now);
    BeatSameCore(env, turned);
    BeatView(env, turned);
    SameButView(n, turned, Beat(env, turned));
  }

  lemma TurnedFrame(config: Config, n: Node, now: real)
    ensures var t := Turned(config, n, now);
            && t.me == n.me && t.chain == n.chain && t.committed == n.committed && t.proposals == n.proposals && t.outgoing == n.outgoing
            && t.pendingCommits == n.pendingCommits && t.signatures == n.signatures
            && t.view == if now - n.lastActivity > config.electionTimeout then Successor(n.view) else n.view
  {
    hide Prune;
    PruneFrame(config, n, now);
  }

  lemma PruneFrame(config: Config, n: Node, now: real)
    ensures var p := Prune(config, n, now); p == n.(peers := p.peers)
  {
  }

  lemma SameButView(n: Node, p: Node, m: Node)
    requires p.me == n.me && p.chain == n.chain && p.committed == n.committed && p.proposals == n.proposals && p.outgoing == n.outgoing &&
             p.pendingCommits == n.pendingCommits && p.signatures == n.signatures
    ensures SameCore(p, m) ==> SameCore(n, m.(view := n.view))
  {
    hide Quiet;
  }

  lemma BeatView(env: Env, n: Node)
    ensures Beat(env, n).view == n.view
  {
    hide SignatureCount;
  }

  lemma HeartbeatSameCore(env: Env, config: Config, n: Node, from: string, height: int, hash: string, now: real)
    ensures SameCore(n, OnHeartbeat(env, config, n, from, height, hash, now))
  {
    hide Quiet, RequestSync, TipHash;
    QuietSelf(n.outgoing);
    var noted := n.(peers := n.peers + {from}, peerSeen := n.peerSeen[from := now]);
    SyncSameCore(config, noted, -1, now);
    SyncSameCore(config, noted, |n.chain| - 1, now);
    QuietSnoc(n.outgoing, ForkAlert(n.me.id, height, TipHash(env, n.chain), hash));
  }

  lemma ClaimSameCore(env: Env, n: Node, s: SignedClaim, victims: set<string>)
    ensures SameCore(n, OnClaims(env, n, s, victims))
  {
    hide Quiet;
    QuietSelf(n.outgoing);
  }

  lemma SubmitSameCore(env: Env, config: Config, n: Node, s: SignedClaim)
    ensures SameCore(n, SubmitClaim(env, config, n, s))
  {
    hide Quiet;
    QuietSelf(n.outgoing);
    QuietSnoc(n.outgoing, ClaimGossip(s));
  }

  lemma SyncRequestSameCore(n: Node, requester: string, from: int)
    ensures SameCore(n, OnSyncRequest(n, requester, from))
  {
    hide BlocksAbove;
  }

  /** Every step but a reorg, a tick or a proposal of the node's own. */
  lemma PlainStep(env: Env, config: Config, n: Node, e: Event, now: real)
    requires Sound(env, config.flopsTolerance, n) && !IsReorg(e) && !e.Propose? && !e.ClockTick?
    ensures Keeps(env, config.flopsTolerance, Cleared(n), Step(env, config, n, e, now), CleanStep(env, config, n, e, now))
  {
    hide Keeps, Sound, OnClaims, SubmitClaim, OnProposal, OnSignature, OnCommit, OnHeartbeat, OnSyncRequest, OnCommits, Tick, SameCore,
      RefusesCommit, CleanCommits, HasGenesisHeight;
    var tol := config.flopsTolerance;
    var c := Cleared(n);
    ClearedSound(env, tol, n);
    match e {
      case ClaimIn(s, victims) => ClaimSameCore(env, c, s, victims);
      case Submit(s) => SubmitSameCore(env, config, c, s);
      case ProposalIn(p) => OnProposalKeeps(env, config, c, p, now);
      case ShareIn(s) => OnSignatureKeeps(env, config, c, s, now);
      case CommitIn(b) => OnCommitKeeps(env, config, c, b, now);
      case HeartbeatIn(from, height, hash) => HeartbeatSameCore(env, config, c, from, height, hash, now);
      case ForkIn(a, b) => ForkSameCore(c, a, b);
      case SyncRequestIn(requester, from) => SyncRequestSameCore(c, requester, from);
      case SyncResponseIn(blocks) => OnCommitsKeeps(env, config, c, blocks, now);
    }
    if SameCore(c, Step(env, config, n, e, now)) {
      SameCoreKeeps(env, tol, c, Step(env, config, n, e, now));
      KeepsLess(env, tol, c, Step(env, config, n, e, now), CleanStep(env, config, n, e, now));
    }
  }

  lemma TickStep(env: Env, config: Config, n: Node, now: real)
    requires Sound(env, config.flopsTolerance, n)
    ensures var m := Step(env, config, n, ClockTick, now);
            && Sound(env, config.flopsTolerance, m) && Advances(env, Cleared(n), m) && (Exact(n) ==> Exact(m))
            && m.chain == n.chain
            && m.view == if now - n.lastActivity > config.electionTimeout then Successor(n.view) else n.view
  {
    hide Tick, ValidChain, ClaimIds, Quiet, Drops;
    var tol := config.flopsTolerance;
    var c := Cleared(n);
    ClearedSound(env, tol, n);
    TickSameCore(env, config, c, now);
    SameCoreKeeps(env, tol, c, Tick(env, config, c, now).(view := c.view));
  }

  lemma ForkSameCore(n: Node, a: string, b: string)
    ensures SameCore(n, OnFork(n, a, b))
  {
  }

  // ------------------------------------------------------------------- own proposals

  /** The state in which the node tries to commit its own new proposal. */
  ghost function Proposed(env: Env, n: Node, now: real, stamp: string): Node {
    var p := OwnProposal(env, n, stamp);
    var taken := TakeUp(env, n, p, now);
    taken.(outgoing := taken.outgoing + [ProposalMessage(p)])
  }

  lemma ProposedIs(env: Env, tolerance: real, n: Node, now: real, stamp: string)
    requires Sound(env, tolerance, n)
    ensures var m := Proposed(env, n, now, stamp);
            var p := OwnProposal(env, n, stamp);
            && Sound(env, tolerance, m) && (Exact(n) ==> Exact(m))
            && m.me == n.me && m.view == n.view && m.chain == n.chain
            && m.proposals == n.proposals[env.proposalHash(p) := p]
            && (forall x :: x in m.outgoing && x.ProposalMessage? ==> x in n.outgoing || x == ProposalMessage(p))
  {
    hide ValidChain, ClaimIds, ProposalIds, OwnProposal, SharesFiled;
    TakeUpFiles(env, n, OwnProposal(env, n, stamp), now);
  }

  /** A sealer's own proposal has the right height and predecessor, whatever reorgs and
      restores came before; its epoch is a later one if and only if the view is ahead. */
  lemma OwnProposalFits(env: Env, tolerance: real, n: Node, stamp: string)
    requires Sound(env, tolerance, n) && Candidates(n) != []
    ensures var fault := HeaderFault(env, OwnProposal(env, n, stamp), n.chain, false);
            fault == if ViewAhead(n) then None else Some(EpochNotAdvancing)
  {
    hide ValidChain, ClaimIds, Candidates;
    EpochsAscend(env, tolerance, n.chain);
  }

  ghost predicate Emits(n: Node, p: Proposal) { ProposalMessage(p) in n.outgoing }

  /** Only propose_internal sends a proposal, and it sends one for the next height. */
  lemma EmitsOwn(env: Env, config: Config, n: Node, e: Event, now: real, p: Proposal)
    requires Sound(env, config.flopsTolerance, n) && Emits(Step(env, config, n, e, now), p)
    ensures e.Propose? && Proposes(env, config, Cleared(n), e.stamp) && p == OwnProposal(env, Cleared(n), e.stamp)
    ensures p.height == |n.chain|
  {
    hide Sound, Proposes, TakeUp, MaybeCommit, OnSyncResponse, Candidates;
    var tol := config.flopsTolerance;
    var c := Cleared(n);
    var m := Step(env, config, n, e, now);
    ClearedSound(env, tol, n);
    if IsReorg(e) {
      ReorgStepIs(env, config, n, e, now);
      ReorgSound(env, config, c, e.blocks, now);
    } else if e.ClockTick? {
      TickStep(env, config, n, now);
    } else if !e.Propose? {
      PlainStep(env, config, n, e, now);
    } else {
      OwnStep(env, config, c, now, e.stamp);
    }
  }

  lemma ReorgStepIs(env: Env, config: Config, n: Node, e: Event, now: real)
    requires IsReorg(e)
    ensures Step(env, config, n, e, now) == Reconcile(env, config, Cleared(n), e.blocks, now)
  {
    hide Reconcile;
  }

  lemma OwnStep(env: Env, config: Config, n: Node, now: real, stamp: string)
    requires Sound(env, config.flopsTolerance, n)
    ensures Proposes(env, config, n, stamp) ==>
              Keeps(env, config.flopsTolerance, Proposed(env, n, now, stamp), ProposeInternal(env, config, n, now, stamp), true)
    ensures !Proposes(env, config, n, stamp) ==> ProposeInternal(env, config, n, now, stamp) == n
    ensures forall x :: x in ProposeInternal(env, config, n, now, stamp).outgoing && x.ProposalMessage? ==>
              x in n.outgoing || (Proposes(env, config, n, stamp) && x == ProposalMessage(OwnProposal(env, n, stamp)))
  {
    hide Sound, Proposes, TakeUp, MaybeCommit, OwnProposal;
    if Proposes(env, config, n, stamp) {
      ProposedIs(env, config.flopsTolerance, n, now, stamp);
      MaybeCommitKeeps(env, config, Proposed(env, n, now, stamp), OwnProposal(env, n, stamp), now);
    }
  }

  // ------------------------------------------------------------------- every step

  ghost predicate Extends(c: Ledger, d: Ledger) { |d| <= |c| && c[..|d|] == d }

  /** The invariant holds after every step, outside reorgs the ledger only grows, and at
      every step but a tick the view does not fall and follows the epochs. */
  lemma StepSound(env: Env, config: Config, n: Node, e: Event, now: real)
    requires Sound(env, config.flopsTolerance, n)
    ensures var m := Step(env, config, n, e, now);
            && Sound(env, config.flopsTolerance, m) && m.me == n.me && (!e.ClockTick? ==> ViewFollows(n, m))
            && (!IsReorg(e) ==> Extends(m.chain, n.chain))
            && (Exact(n) && CleanStep(env, config, n, e, now) ==> Exact(m))
  {
    hide Sound, Proposes, TakeUp, MaybeCommit, OnSyncResponse, Step, Drops, Quiet, CleanCommits, RefusesCommit, HasGenesisHeight;
    var tol := config.flopsTolerance;
    var c := Cleared(n);
    ClearedSound(env, tol, n);
    if IsReorg(e) {
      ReorgStepIs(env, config, n, e, now);
      ReorgSound(env, config, c, e.blocks, now);
    } else if e.ClockTick? {
      TickStep(env, config, n, now);
    } else if !e.Propose? {
      PlainStep(env, config, n, e, now);
    } else {
      ProposeStepIs(env, config, n, e, now);
      ProposedIs(env, tol, c, now, e.stamp);
      OwnStep(env, config, c, now, e.stamp);
    }
  }

  // -------------------------------------------------------------------- the view

  /** A timeout at the largest view there is. */
  predicate TickWraps(config: Config, n: Node, e: Event, now: real) {
    e.ClockTick? && now - n.lastActivity > config.electionTimeout && n.view == MAX_INT64
  }

  predicate HeadFits(chain: Ledger) { chain != [] ==> chain[|chain| - 1].Epoch() < MAX_INT64 }

  lemma HeadFitsAll(env: Env, tolerance: real, chain: Ledger)
    requires ValidChain(env, tolerance, chain)
    ensures HeadFits(chain) <==> EpochsFit(chain)
  {
    hide ValidChain;
    EpochsAscend(env, tolerance, chain);
  }

  /** A step lets the view fall if and only if it is that timeout. */
  lemma StepView(env: Env, config: Config, n: Node, e: Event, now: real)
    requires Sound(env, config.flopsTolerance, n)
    ensures n.view <= Step(env, config, n, e, now).view <==> !TickWraps(config, n, e, now)
  {
    hide Sound, Step, CleanStep;
    if e.ClockTick? { TickStep(env, config, n, now); } else { StepSound(env, config, n, e, now); }
  }

  /** From a view that is ahead, a step keeps it ahead if and only if the head it leaves has
      an epoch with a successor, and it is not that timeout on a ledger. */
  lemma StepAhead(env: Env, config: Config, n: Node, e: Event, now: real)
    requires Sound(env, config.flopsTolerance, n) && ViewAhead(n)
    ensures var m := Step(env, config, n, e, now);
            ViewAhead(m) <==> HeadFits(m.chain) && !(TickWraps(config, n, e, now) && n.chain != [])
  {
    hide Step, CleanStep, ValidChain, ClaimIds, HeadFits;
    var tol := config.flopsTolerance;
    var m := Step(env, config, n, e, now);
    StepSound(env, config, n, e, now);
    HeadFitsAll(env, tol, m.chain);
    if e.ClockTick? {
      TickStep(env, config, n, now);
      if n.chain != [] {
        ValidBuilt(env, tol, n.chain);
        EpochCounts(env, n.chain);
      }
    }
  }

  lemma ProposeStepIs(env: Env, config: Config, n: Node, e: Event, now: real)
    requires e.Propose?
    ensures Step(env, config, n, e, now) == ProposeInternal(env, config, Cleared(n), now, e.stamp)
  {
    hide ProposeInternal;
  }

  /** The step is a reorg that loses its head to a refused last block. */
  ghost predicate LosesAt(env: Env, config: Config, n: Node, e: Event) {
    IsReorg(e) && LosesByTail(env, config.flopsTolerance, n.chain, e.blocks)
  }

  /** A step keeps the head or makes it strictly better if and only if it is not that. */
  lemma StepHead(env: Env, config: Config, n: Node, e: Event, now: real)
    requires Sound(env, config.flopsTolerance, n)
    ensures NoWorse(env, Step(env, config, n, e, now).chain, n.chain) <==> !LosesAt(env, config, n, e)
  {
    hide ValidChain, ClaimIds, Step, OutcomeOf, ReorgChain, Better, SameHead, Offered, TailOf, Reconcile, HasGenesisHeight, LosesByTail, NoWorse;
    var tol := config.flopsTolerance;
    var m := Step(env, config, n, e, now);
    if IsReorg(e) {
      ReorgStepIs(env, config, n, e, now);
      ValidBuilt(env, tol, n.chain);
      ReorgOutcome(env, config, Cleared(n), e.blocks, now);
      WorseIff(env, tol, n.chain, e.blocks);
      BetterIsStrict(env, m.chain, n.chain, n.chain);
      BetterIsStrict(env, n.chain, m.chain, n.chain);
    } else {
      StepSound(env, config, n, e, now);
      ExtendsNoWorse(env, m.chain, n.chain);
    }
  }

  lemma ExtendsNoWorse(env: Env, c: Ledger, d: Ledger)
    requires Extends(c, d)
    ensures NoWorse(env, c, d)
  {
    if |c| == |d| { assert c == d; }
  }

  // ------------------------------------------------------------------------- runs

  /** States of a run: `states[i + 1]` is what event `i` at time `times[i]` makes of
      `states[i]`. */
  ghost predicate IsRun(env: Env, config: Config, states: seq<Node>, events: seq<Event>, times: seq<real>) {
    && |states| == |events| + 1 && |times| == |events|
    && forall i :: 0 <= i < |events| ==> states[i + 1] == Step(env, config, states[i], events[i], times[i])
  }

  lemma {:induction false} RunSound(env: Env, config: Config, states: seq<Node>, events: seq<Event>, times: seq<real>, i: nat)
    requires IsRun(env, config, states, events, times) && Sound(env, config.flopsTolerance, states[0]) && i < |states|
    ensures Sound(env, config.flopsTolerance, states[i])
  {
    hide Sound, Step;
    if i == 0 {
    } else {
      RunSound(env, config, states, events, times, i - 1);
      assert states[i - 1 + 1] == Step(env, config, states[i - 1], events[i - 1], times[i - 1]);
      StepSound(env, config, states[i - 1], events[i - 1], times[i - 1]);
    }
  }

  /** The step neither times out at the largest view nor leaves a head with the largest
      epoch. */
  ghost predicate RoomAt(config: Config, states: seq<Node>, events: seq<Event>, times: seq<real>, i: nat)
    requires |states| == |events| + 1 && |times| == |events| && i < |events|
  { !TickWraps(config, states[i], events[i], times[i]) && HeadFits(states[i + 1].chain) }

  ghost predicate Roomy(config: Config, states: seq<Node>, events: seq<Event>, times: seq<real>)
    requires |states| == |events| + 1 && |times| == |events|
  { forall i :: 0 <= i < |events| ==> RoomAt(config, states, events, times, i) }

  lemma {:induction false} RunAhead(env: Env, config: Config, states: seq<Node>, events: seq<Event>, times: seq<real>, i: nat)
    requires IsRun(env, config, states, events, times) && Sound(env, config.flopsTolerance, states[0]) && i < |states|
    requires ViewAhead(states[0]) && Roomy(config, states, events, times)
    ensures ViewAhead(states[i])
  {
    hide Sound, Step, ViewAhead;
    if i == 0 {
    } else {
      RunAhead(env, config, states, events, times, i - 1);
      RunSound(env, config, states, events, times, i - 1);
      assert RoomAt(config, states, events, times, i - 1);
      assert states[i - 1 + 1] == Step(env, config, states[i - 1], events[i - 1], times[i - 1]);
      StepAhead(env, config, states[i - 1], events[i - 1], times[i - 1]);
    }
  }

  /** In a run with room the view never falls and stays ahead of the head's epoch; in every
      run epochs rise along the ledger. */
  lemma {:induction false} RunView(env: Env, config: Config, states: seq<Node>, events: seq<Event>, times: seq<real>, i: nat, j: nat)
    requires IsRun(env, config, states, events, times) && Sound(env, config.flopsTolerance, states[0]) && i <= j < |states|
    ensures ViewAhead(states[0]) && Roomy(config, states, events, times) ==> states[i].view <= states[j].view && ViewAhead(states[j])
    ensures forall a, b :: 0 <= a < b < |states[j].chain| ==> states[j].chain[a].Epoch() < states[j].chain[b].Epoch()
    decreases j
  {
    hide Step, ValidChain, ViewAhead, HeadFits, ClaimIds;
    RunSound(env, config, states, events, times, j);
    EpochsAscend(env, config.flopsTolerance, states[j].chain);
    if ViewAhead(states[0]) && Roomy(config, states, events, times) { RunAhead(env, config, states, events, times, j); }
    if i == j {
    } else {
      RunView(env, config, states, events, times, i, j - 1);
      RunSound(env, config, states, events, times, j - 1);
      assert Roomy(config, states, events, times) ==> RoomAt(config, states, events, times, j - 1);
      assert states[j - 1 + 1] == Step(env, config, states[j - 1], events[j - 1], times[j - 1]);
      StepView(env, config, states[j - 1], events[j - 1], times[j - 1]);
    }
  }

  ghost predicate ViewRight(states: seq<Node>, i: nat)
    requires i + 1 < |states|
  { states[i].view <= states[i + 1].view && ViewAhead(states[i + 1]) }

  /** Exactly in the runs with room does the view never fall and stay ahead. */
  lemma RunViewIff(env: Env, config: Config, states: seq<Node>, events: seq<Event>, times: seq<real>)
    requires IsRun(env, config, states, events, times) && Sound(env, config.flopsTolerance, states[0]) && ViewAhead(states[0])
    ensures Roomy(config, states, events, times) <==> forall i :: 0 <= i < |events| ==> ViewRight(states, i)
  {
    hide Sound, Step;
    if Roomy(config, states, events, times) {
      forall i | 0 <= i < |events| ensures ViewRight(states, i) { RunView(env, config, states, events, times, i, i + 1); }
    }
    forall i | 0 <= i < |events| && ViewRight(states, i) ensures RoomAt(config, states, events, times, i) {
      RunSound(env, config, states, events, times, i);
      StepView(env, config, states[i], events[i], times[i]);
    }
  }

  /** So in a run with room the node's own proposals never fail the header checks. */
  lemma RunProposalsFit(env: Env, config: Config, states: seq<Node>, events: seq<Event>, times: seq<real>, i: nat, stamp: string)
    requires IsRun(env, config, states, events, times) && Sound(env, config.flopsTolerance, states[0]) && i < |states|
    requires ViewAhead(states[0]) && Roomy(config, states, events, times) && Candidates(states[i]) != []
    ensures HeaderFault(env, OwnProposal(env, states[i], stamp), states[i].chain, false) == None
  {
    hide Sound, Step, ViewAhead, Candidates, HeaderFault, OwnProposal;
    RunAhead(env, config, states, events, times, i);
    RunSound(env, config, states, events, times, i);
    OwnProposalFits(env, config.flopsTolerance, states[i], stamp);
  }

  lemma {:induction false} EpochsAscend(env: Env, tolerance: real, chain: Ledger)
    requires ValidChain(env, tolerance, chain)
    ensures forall a, b :: 0 <= a < b < |chain| ==> chain[a].Epoch() < chain[b].Epoch()
  {
    hide ValidChain;
    if |chain| <= 1 {
    } else {
      var k := |chain| - 1;
      ValidPrefix(env, tolerance, chain, k);
      EpochsAscend(env, tolerance, chain[..k]);
      BlocksAreSealed(env, tolerance, chain, k);
      assert forall a :: 0 <= a < k ==> chain[..k][a] == chain[a];
    }
  }

  ghost predicate HeadsHold(env: Env, config: Config, states: seq<Node>, events: seq<Event>)
    requires |states| == |events| + 1
  { forall i :: 0 <= i < |events| ==> !LosesAt(env, config, states[i], events[i]) }

  ghost predicate KeepsHead(env: Env, states: seq<Node>, i: nat)
    requires i + 1 < |states|
  { NoWorse(env, states[i + 1].chain, states[i].chain) }

  /** Exactly in the runs without such a step does no step worsen the head. */
  lemma HeadsHoldIff(env: Env, config: Config, states: seq<Node>, events: seq<Event>, times: seq<real>)
    requires IsRun(env, config, states, events, times) && Sound(env, config.flopsTolerance, states[0])
    ensures HeadsHold(env, config, states, events) <==> forall i :: 0 <= i < |events| ==> KeepsHead(env, states, i)
  {
    hide Sound, Step, LosesAt, NoWorse;
    forall i | 0 <= i < |events| ensures KeepsHead(env, states, i) <==> !LosesAt(env, config, states[i], events[i]) {
      RunSound(env, config, states, events, times, i);
      StepHead(env, config, states[i], events[i], times[i]);
    }
  }

  lemma {:induction false} RunHead(env: Env, config: Config, states: seq<Node>, events: seq<Event>, times: seq<real>, i: nat, j: nat)
    requires IsRun(env, config, states, events, times) && Sound(env, config.flopsTolerance, states[0]) && i <= j < |states|
    requires HeadsHold(env, config, states, events)
    ensures NoWorse(env, states[j].chain, states[i].chain)
    decreases j
  {
    hide Sound, Step, LosesAt, Better;
    if i == j {
    } else {
      RunHead(env, config, states, events, times, i, j - 1);
      RunSound(env, config, states, events, times, j - 1);
      assert states[j - 1 + 1] == Step(env, config, states[j - 1], events[j - 1], times[j - 1]);
      StepHead(env, config, states[j - 1], events[j - 1], times[j - 1]);
      BetterIsStrict(env, states[j].chain, states[j - 1].chain, states[i].chain);
    }
  }

  /** No oscillation: a run in which no step loses its head to a refused last block never
      comes back to a head it left, and heads that agree mean ledgers that agree. */
  lemma NoOscillation(env: Env, config: Config, states: seq<Node>, events: seq<Event>, times: seq<real>, i: nat, j: nat, k: nat)
    requires IsRun(env, config, states, events, times) && Sound(env, config.flopsTolerance, states[0]) && i <= j <= k < |states|
    requires HeadsHold(env, config, states, events)
    ensures NoWorse(env, states[k].chain, states[i].chain)
    ensures SameHead(env, states[k].chain, states[i].chain) ==> SameHead(env, states[j].chain, states[i].chain)
    ensures Binding(env) && SameHead(env, states[k].chain, states[i].chain) ==> SameChain(states[j].chain, states[i].chain)
  {
    hide Step, LosesAt, Better, ValidChain, ClaimIds, Binding, TipHash;
    RunHead(env, config, states, events, times, i, j);
    RunHead(env, config, states, events, times, j, k);
    RunHead(env, config, states, events, times, i, k);
    var c, d, e := states[i].chain, states[j].chain, states[k].chain;
    BetterIsStrict(env, d, c, e);
    BetterIsStrict(env, e, d, c);
    BetterIsStrict(env, e, c, c);
    RunSound(env, config, states, events, times, i);
    RunSound(env, config, states, events, times, j);
    ValidBuilt(env, config.flopsTolerance, c);
    ValidBuilt(env, config.flopsTolerance, d);
    BuiltLinked(env, c);
    BuiltLinked(env, d);
    if Binding(env) && SameHead(env, d, c) { SameHeadSameChain(env, d, c); }
  }

  ghost predicate CleanRun(env: Env, config: Config, states: seq<Node>, events: seq<Event>, times: seq<real>)
    requires |states| == |events| + 1 && |times| == |events|
  { forall i :: 0 <= i < |events| ==> CleanStep(env, config, states[i], events[i], times[i]) }

  /** The claim index always covers the ledger, and is exactly the ledger's in runs in
      which the store refuses no block that passed on_commit's checks. */
  lemma {:induction false} RunIndex(env: Env, config: Config, states: seq<Node>, events: seq<Event>, times: seq<real>, i: nat)
    requires IsRun(env, config, states, events, times) && Sound(env, config.flopsTolerance, states[0]) && i < |states|
    ensures ClaimIds(states[i].chain) <= states[i].committed
    ensures Exact(states[0]) && CleanRun(env, config, states, events, times) ==> Exact(states[i])
  {
    hide Step, CleanStep, ValidChain, ClaimIds;
    RunSound(env, config, states, events, times, i);
    if i == 0 {
    } else {
      RunIndex(env, config, states, events, times, i - 1);
      RunSound(env, config, states, events, times, i - 1);
      assert states[i - 1 + 1] == Step(env, config, states[i - 1], events[i - 1], times[i - 1]);
      StepSound(env, config, states[i - 1], events[i - 1], times[i - 1]);
    }
  }

  /** Whatever went wrong before, a reorg that reaches its apply loop makes the index
      exact again. */
  lemma ReorgMakesExact(env: Env, config: Config, n: Node, e: Event, now: real)
    requires Sound(env, config.flopsTolerance, n) && IsReorg(e)
    requires OutcomeOf(env, config.flopsTolerance, n.chain, e.blocks) != Declines
    ensures Exact(Step(env, config, n, e, now))
  {
    hide Step, ValidChain, ClaimIds, OutcomeOf, ReorgChain, Offered, TailOf, Reconcile, HasGenesisHeight;
    ReorgStepIs(env, config, n, e, now);
    ValidBuilt(env, config.flopsTolerance, n.chain);
    ReorgOutcome(env, config, Cleared(n), e.blocks, now);
  }

  // ----------------------------------------------------------------------- the start

  lemma GenesisAcceptable(env: Env, tolerance: real)
    ensures Acceptable(env, tolerance, [], GENESIS) && BlockIds(GENESIS) == {}
  {
    assert |BlockClaims(GENESIS)| == 0;
  }

  /** A node started on the ledger of an earlier run, or on none, satisfies the invariant;
      its view is ahead if and only if the head's epoch has a successor. */
  lemma StartSound(env: Env, config: Config, me: Identity, stored: Ledger, now: real)
    requires ValidChain(env, config.flopsTolerance, stored)
    ensures var n := Start(env, me, stored, now);
            Sound(env, config.flopsTolerance, n) && Exact(n) && n.chain == (if stored == [] then [GENESIS] else stored) &&
            (ViewAhead(n) <==> HeadFits(stored))
  {
    hide ValidChain, AppendOk, ClaimIds;
    var tol := config.flopsTolerance;
    EpochsAscend(env, tol, stored);
    if stored == [] {
      GenesisChain(env, tol);
      GenesisAppends(env, tol);
      assert stored + [GENESIS] == [GENESIS];
    }
  }

  /** The ledger of a node that started on none. */
  lemma GenesisChain(env: Env, tolerance: real)
    ensures Acceptable(env, tolerance, [], GENESIS) && ValidChain(env, tolerance, [GENESIS])
    ensures ClaimIds([GENESIS]) == {} && ClaimIds([]) == {}
  {
    hide Acceptable, ValidChain;
    GenesisAcceptable(env, tolerance);
    NothingValid(env, tolerance);
    ValidSnoc(env, tolerance, [], GENESIS);
    ClaimsSnoc([], GENESIS);
    assert [] + [GENESIS] == [GENESIS];
  }

  lemma NothingValid(env: Env, tolerance: real)
    ensures ValidChain(env, tolerance, []) && ClaimIds([]) == {}
  {
    assert Claims([]) == [];
  }

  lemma GenesisAppends(env: Env, tolerance: real)
    requires Acceptable(env, tolerance, [], GENESIS)
    ensures AppendOk(env, [], GENESIS)
  {
  }

  // --------------------------------------------------------------- portable validity

  /** The ledger of any state of any run: above height 0 every block carries its recorded
      quorum, and at least one, of distinct-signer signatures; and a node that shares its
      first `k` blocks accepts the rest one by one, as the store hands them out, whatever
      committee that node knows. */
  lemma ReachableIsPortable(env: Env, config: Config, states: seq<Node>, events: seq<Event>, times: seq<real>, i: nat, local: Ledger, k: nat)
    requires IsRun(env, config, states, events, times) && Sound(env, config.flopsTolerance, states[0]) && i < |states|
    requires k <= |states[i].chain| && SameChain(local, states[i].chain[..k])
    ensures forall h :: 0 < h < |states[i].chain| ==> QuorumMet(env, states[i].chain[h])
    ensures forall h, j :: 0 < h < |states[i].chain| && 0 <= j < |states[i].chain[h].signatures| ==>
              var b := states[i].chain[h];
              env.shareVerifies(b.signatures[j].signature, b.signatures[j].publicKey, env.proposalHash(b.proposal))
    ensures var s := Served(states[i].chain);
            forall h :: k <= h < |s| ==> Acceptable(env, config.flopsTolerance, local + s[k..h], s[h])
  {
    hide Step, ValidChain, Acceptable, ClaimIds, QuorumMet;
    var tol := config.flopsTolerance;
    var chain := states[i].chain;
    RunSound(env, config, states, events, times, i);
    forall h | 0 < h < |chain|
      ensures QuorumMet(env, chain[h])
      ensures forall j :: 0 <= j < |chain[h].signatures| ==>
                env.shareVerifies(chain[h].signatures[j].signature, chain[h].signatures[j].publicKey, env.proposalHash(chain[h].proposal))
    {
      BlocksAreSealed(env, tol, chain, h);
    }
    ServedValid(env, tol, chain);
    ServedPrefixSame(chain, local, k);
    ChainIsPortable(env, tol, Served(chain), local, k);
  }

  lemma ServedPrefixSame(chain: Ledger, local: Ledger, k: nat)
    requires k <= |chain| && SameChain(local, chain[..k])
    ensures SameChain(local, Served(chain)[..k])
  {
    forall j | 0 <= j < k ensures SameBlock(local[j], Served(chain)[..k][j]) { assert SameBlock(local[j], chain[..k][j]); }
  }
}
