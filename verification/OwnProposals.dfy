/** One own proposal per height. */
module OwnProposals {
  import opened Models
  import opened Chain
  import opened Validation
  import opened Validity
  import opened Committee
  import opened Protocol
  import opened Reorg
  import opened HeadOrder
  import opened Invariant
  import opened ReorgSafety
  import opened Runs

  /** The proposal is still outstanding, or its height is covered. */
  ghost predicate Guarded(env: Env, n: Node, p: Proposal) {
    env.proposalHash(p) in n.proposals || |n.chain| > p.height
  }

  lemma OutstandingIs(env: Env, n: Node, p: Proposal)
    requires Binding(env) && KeysMatch(env, n.proposals) && env.proposalHash(p) in n.proposals
    ensures n.proposals[env.proposalHash(p)] == p && Outstanding(n, p.height)
  {
  }

  lemma CommittedCovers(env: Env, chain: Ledger, p: Proposal)
    requires Binding(env) && Built(env, chain) && CommittedHash(env, chain, env.proposalHash(p))
    ensures |chain| > p.height
  {
    var i :| 0 <= i < |chain| && env.proposalHash(chain[i].proposal) == env.proposalHash(p);
    BuiltHeights(env, chain, i);
  }

  lemma AdvanceGuards(env: Env, tolerance: real, n: Node, m: Node, p: Proposal)
    requires Binding(env) && Sound(env, tolerance, m) && Advances(env, n, m) && Guarded(env, n, p)
    ensures Guarded(env, m, p)
  {
    hide Binding, ValidChain, ClaimIds, CommittedHash, Quiet;
    ValidBuilt(env, tolerance, m.chain);
    if env.proposalHash(p) in n.proposals && env.proposalHash(p) !in m.proposals {
      CommittedCovers(env, m.chain, p);
    }
  }

  /** A reorg applied in full drops a proposal only by covering its height. */
  lemma AdoptGuards(env: Env, config: Config, n: Node, peer: seq<Checkpoint>, now: real, p: Proposal)
    requires Binding(env) && Sound(env, config.flopsTolerance, n) && Guarded(env, n, p)
    requires OutcomeOf(env, config.flopsTolerance, n.chain, peer) == Adopts
    ensures Guarded(env, Reconcile(env, config, n, peer, now), p)
  {
    hide Binding, ValidChain, ClaimIds, Reconcile, OutcomeOf, TailOf, Declined, Quiet, Progress, ReorgChain, EpochsBelow;
    var tol := config.flopsTolerance;
    var r := Reconcile(env, config, n, peer, now);
    ValidBuilt(env, tol, n.chain);
    ReorgOutcome(env, config, n, peer, now);
    AdoptLength(env, tol, n.chain, peer);
    DeclinesIff(env, tol, n.chain, peer);
    ReorgEffects(env, config, n, peer, now);
    var h := env.proposalHash(p);
    if h in n.proposals && h !in r.proposals { AppliedCovers(env, tol, n.chain, peer, p); }
  }

  lemma AdoptLength(env: Env, tolerance: real, chain: Ledger, peer: seq<Checkpoint>)
    requires Built(env, chain) && OutcomeOf(env, tolerance, chain, peer) == Adopts
    ensures |ReorgChain(env, tolerance, chain, peer)| >= |chain|
    ensures |ReorgChain(env, tolerance, chain, peer)| == OfferedTo(env, chain, peer)
  {
    hide OutcomeOf, Better, Built, Shared, Offered;
    ReorgImproves(env, tolerance, chain, peer);
    BetterLength(env, ReorgChain(env, tolerance, chain, peer), chain);
    SameTip(env, chain, chain);
  }

  lemma AppliedCovers(env: Env, tolerance: real, chain: Ledger, peer: seq<Checkpoint>, p: Proposal)
    requires Binding(env) && !Declined(env, chain, SortByHeight(peer))
    requires env.proposalHash(p) in AppliedHashes(env, Offered(env, chain, peer), 0, AppliedCount(env, tolerance, chain, peer))
    ensures p.height < OfferedTo(env, chain, peer)
  {
    hide Progress, SortByHeight, AncestorFrom, Above, Wins, TipHash;
    var inc := Offered(env, chain, peer);
    var a := CommonAncestor(env, chain, SortByHeight(peer));
    var j :| 0 <= j < AppliedCount(env, tolerance, chain, peer) && env.proposalHash(inc[j].proposal) == env.proposalHash(p);
    ChainedHeights(env, TipHash(env, chain[..a + 1]), a + 1, inc, j);
  }

  /** The reorg is declined before any rollback, or applied in full. */
  ghost predicate MildStep(env: Env, config: Config, n: Node, e: Event) {
    IsReorg(e) ==> OutcomeOf(env, config.flopsTolerance, n.chain, e.blocks) in {Declines, Adopts}
  }

  lemma StepGuards(env: Env, config: Config, n: Node, e: Event, now: real, p: Proposal)
    requires Binding(env) && Sound(env, config.flopsTolerance, n) && Guarded(env, n, p) && MildStep(env, config, n, e)
    ensures Guarded(env, Step(env, config, n, e, now), p)
  {
    hide Binding, Sound, Step, OutcomeOf, ReorgChain, TailOf, Reconcile, HasGenesisHeight, Proposed, ProposeInternal, Proposes, CleanStep,
      Advances, Offered;
    var tol := config.flopsTolerance;
    var c := Cleared(n);
    var m := Step(env, config, n, e, now);
    ClearedSound(env, tol, n);
    if IsReorg(e) {
      ReorgStepIs(env, config, n, e, now);
      SoundBuilt(env, tol, c);
      ReorgOutcome(env, config, c, e.blocks, now);
      if OutcomeOf(env, tol, n.chain, e.blocks) == Adopts { AdoptGuards(env, config, c, e.blocks, now, p); }
    } else if e.ClockTick? {
      TickStep(env, config, n, now);
      AdvanceGuards(env, tol, c, m, p);
    } else if !e.Propose? {
      PlainStep(env, config, n, e, now);
      AdvanceGuards(env, tol, c, m, p);
    } else {
      ProposeStepIs(env, config, n, e, now);
      OwnStep(env, config, c, now, e.stamp);
      ProposedIs(env, tol, c, now, e.stamp);
      if Proposes(env, config, c, e.stamp) { AdvanceGuards(env, tol, Proposed(env, c, now, e.stamp), m, p); }
    }
  }

  /** A proposal just sent is guarded. */
  lemma EmittedGuarded(env: Env, config: Config, n: Node, e: Event, now: real, p: Proposal)
    requires Binding(env) && Sound(env, config.flopsTolerance, n) && Emits(Step(env, config, n, e, now), p)
    ensures Guarded(env, Step(env, config, n, e, now), p)
  {
    hide Binding, Sound, Step, Proposed, ProposeInternal, Proposes, Advances, OwnProposal;
    var tol := config.flopsTolerance;
    var c := Cleared(n);
    ClearedSound(env, tol, n);
    EmitsOwn(env, config, n, e, now, p);
    ProposeStepIs(env, config, n, e, now);
    OwnStep(env, config, c, now, e.stamp);
    ProposedIs(env, tol, c, now, e.stamp);
    AdvanceGuards(env, tol, Proposed(env, c, now, e.stamp), Step(env, config, n, e, now), p);
  }

  ghost predicate MildRun(env: Env, config: Config, states: seq<Node>, events: seq<Event>)
    requires |states| == |events| + 1
  { forall i :: 0 <= i < |events| ==> MildStep(env, config, states[i], events[i]) }

  lemma {:induction false} RunGuards(env: Env, config: Config, states: seq<Node>, events: seq<Event>, times: seq<real>, i: nat, j: nat, p: Proposal)
    requires Binding(env) && IsRun(env, config, states, events, times) && Sound(env, config.flopsTolerance, states[0])
    requires MildRun(env, config, states, events) && i <= j < |states| && Guarded(env, states[i], p)
    ensures Guarded(env, states[j], p)
    decreases j
  {
    hide Binding, Sound, Step, Guarded, MildStep;
    if i == j {
    } else {
      RunGuards(env, config, states, events, times, i, j - 1, p);
      RunSound(env, config, states, events, times, j - 1);
      assert states[j - 1 + 1] == Step(env, config, states[j - 1], events[j - 1], times[j - 1]);
      StepGuards(env, config, states[j - 1], events[j - 1], times[j - 1], p);
    }
  }

  /** In a run whose reorgs are all declined or applied in full, the node's own proposals
      have strictly rising heights: never two for one height. */
  lemma OneProposalPerHeight(env: Env, config: Config, states: seq<Node>, events: seq<Event>, times: seq<real>,
                             i: nat, j: nat, p: Proposal, q: Proposal)
    requires Binding(env) && IsRun(env, config, states, events, times) && Sound(env, config.flopsTolerance, states[0])
    requires MildRun(env, config, states, events)
    requires i < j < |events| && Emits(states[i + 1], p) && Emits(states[j + 1], q)
    ensures p.height < q.height
  {
    hide Binding, Sound, Step, MildStep, Emits, SealerFor, Candidates, ValidateProposal, LosesAt, Better;
    var n, m := states[i], states[j];
    RunSound(env, config, states, events, times, i);
    RunSound(env, config, states, events, times, j);
    assert states[i + 1] == Step(env, config, n, events[i], times[i]);
    assert states[j + 1] == Step(env, config, m, events[j], times[j]);
    EmitsOwn(env, config, n, events[i], times[i], p);
    EmitsOwn(env, config, m, events[j], times[j], q);
    EmittedGuarded(env, config, n, events[i], times[i], p);
    RunGuards(env, config, states, events, times, i + 1, j, p);
    MildDropsNothing(env, config, states, events);
    RunHead(env, config, states, events, times, i, j);
    BetterLength(env, m.chain, n.chain);
    if env.proposalHash(p) in m.proposals {
      SoundKeys(env, config.flopsTolerance, m);
      OutstandingIs(env, m, p);
      assert Outstanding(Cleared(m), p.height);
    }
  }

  lemma SoundKeys(env: Env, tolerance: real, n: Node)
    requires Sound(env, tolerance, n)
    ensures KeysMatch(env, n.proposals)
  {
  }

  lemma MildDropsNothing(env: Env, config: Config, states: seq<Node>, events: seq<Event>)
    requires |states| == |events| + 1 && MildRun(env, config, states, events)
    ensures HeadsHold(env, config, states, events)
  {
    hide OutcomeOf;
    forall i | 0 <= i < |events| ensures !LosesAt(env, config, states[i], events[i]) {
      assert MildStep(env, config, states[i], events[i]);
    }
  }

  /** For every reorg past the decision to roll back, exactly when a proposal is still
      guarded: it was outstanding and is not among the blocks committed on the way, or the
      ledger that is left covers its height. */
  lemma ReorgGuardsIff(env: Env, config: Config, n: Node, peer: seq<Checkpoint>, now: real, p: Proposal)
    requires Sound(env, config.flopsTolerance, n) && OutcomeOf(env, config.flopsTolerance, n.chain, peer) != Declines
    ensures Guarded(env, Reconcile(env, config, n, peer, now), p) <==>
            (env.proposalHash(p) in n.proposals && env.proposalHash(p) !in Committing(env, config, n, peer)) ||
            |ReorgChain(env, config.flopsTolerance, n.chain, peer)| > p.height
  {
    hide ValidChain, ClaimIds, OutcomeOf, ReorgChain, TailOf, Reconcile, Offered, AppliedHashes, Quiet, EpochsBelow, AppliedCount, Declined;
    ValidBuilt(env, config.flopsTolerance, n.chain);
    ReorgOutcome(env, config, n, peer, now);
    DeclinesIff(env, config.flopsTolerance, n.chain, peer);
    ReorgEffects(env, config, n, peer, now);
  }

  /** The proposals of the blocks a reorg commits, whether or not it keeps them. */
  ghost function Committing(env: Env, config: Config, n: Node, peer: seq<Checkpoint>): set<string> {
    AppliedHashes(env, Offered(env, n.chain, peer), 0, AppliedCount(env, config.flopsTolerance, n.chain, peer))
  }

  /** The step is no reorg past its rollback, or one that meets that condition. */
  ghost predicate LeavesGuard(env: Env, config: Config, n: Node, e: Event, p: Proposal) {
    IsReorg(e) && OutcomeOf(env, config.flopsTolerance, n.chain, e.blocks) != Declines ==>
      (env.proposalHash(p) in n.proposals && env.proposalHash(p) !in Committing(env, config, n, e.blocks)) ||
      |ReorgChain(env, config.flopsTolerance, n.chain, e.blocks)| > p.height
  }

  /** For every event, exactly when a guarded proposal stays guarded. */
  lemma StepGuardsIff(env: Env, config: Config, n: Node, e: Event, now: real, p: Proposal)
    requires Binding(env) && Sound(env, config.flopsTolerance, n) && Guarded(env, n, p)
    ensures Guarded(env, Step(env, config, n, e, now), p) <==> LeavesGuard(env, config, n, e, p)
  {
    hide Binding, Sound, Step, OutcomeOf, ReorgChain, Reconcile, HasGenesisHeight, Offered, AppliedHashes, AppliedCount;
    if IsReorg(e) && OutcomeOf(env, config.flopsTolerance, n.chain, e.blocks) != Declines {
      ReorgStepIs(env, config, n, e, now);
      ClearedSound(env, config.flopsTolerance, n);
      ReorgGuardsIff(env, config, Cleared(n), e.blocks, now, p);
    } else {
      StepGuards(env, config, n, e, now, p);
    }
  }

  ghost predicate GuardedAt(env: Env, states: seq<Node>, k: nat, p: Proposal)
    requires k < |states|
  { Guarded(env, states[k], p) }

  ghost predicate LeavesAt(env: Env, config: Config, states: seq<Node>, events: seq<Event>, k: nat, p: Proposal)
    requires |states| == |events| + 1 && k < |events|
  { LeavesGuard(env, config, states[k], events[k], p) }

  /** Over a stretch of any run: the proposal is guarded all along if and only if every step
      leaves it so. */
  lemma {:induction false} RunGuardsIff(env: Env, config: Config, states: seq<Node>, events: seq<Event>, times: seq<real>, i: nat, j: nat, p: Proposal)
    requires Binding(env) && IsRun(env, config, states, events, times) && Sound(env, config.flopsTolerance, states[0])
    requires i <= j < |states| && Guarded(env, states[i], p)
    ensures (forall k :: i <= k <= j ==> GuardedAt(env, states, k, p)) <==> forall k :: i <= k < j ==> LeavesAt(env, config, states, events, k, p)
    decreases j
  {
    hide Binding, Sound, Step, Guarded, LeavesGuard;
    if i == j {
    } else {
      RunGuardsIff(env, config, states, events, times, i, j - 1, p);
      if forall k :: i <= k <= j - 1 ==> GuardedAt(env, states, k, p) {
        RunSound(env, config, states, events, times, j - 1);
        assert GuardedAt(env, states, j - 1, p);
        assert states[j - 1 + 1] == Step(env, config, states[j - 1], events[j - 1], times[j - 1]);
        StepGuardsIff(env, config, states[j - 1], events[j - 1], times[j - 1], p);
        assert GuardedAt(env, states, j, p) <==> LeavesAt(env, config, states, events, j - 1, p);
      }
    }
  }

  /** Two own proposals have different heights whenever every step in between leaves the
      first one guarded, reorgs of any outcome included. */
  lemma ProposalsApart(env: Env, config: Config, states: seq<Node>, events: seq<Event>, times: seq<real>,
                       i: nat, j: nat, p: Proposal, q: Proposal)
    requires Binding(env) && IsRun(env, config, states, events, times) && Sound(env, config.flopsTolerance, states[0])
    requires i < j < |events| && Emits(states[i + 1], p) && Emits(states[j + 1], q)
    requires forall k :: i + 1 <= k < j ==> LeavesAt(env, config, states, events, k, p)
    ensures p.height != q.height
  {
    hide Binding, Sound, Step, Emits, SealerFor, Candidates, ValidateProposal, LeavesGuard;
    var n, m := states[i], states[j];
    RunSound(env, config, states, events, times, i);
    RunSound(env, config, states, events, times, j);
    assert states[i + 1] == Step(env, config, n, events[i], times[i]);
    assert states[j + 1] == Step(env, config, m, events[j], times[j]);
    EmitsOwn(env, config, m, events[j], times[j], q);
    EmittedGuarded(env, config, n, events[i], times[i], p);
    RunGuardsIff(env, config, states, events, times, i + 1, j, p);
    assert GuardedAt(env, states, j, p);
    if env.proposalHash(p) in m.proposals {
      SoundKeys(env, config.flopsTolerance, m);
      OutstandingIs(env, m, p);
      assert Outstanding(Cleared(m), p.height);
    }
  }

  /** Outside that class the guard can go: a reorg that fails and restores has dropped the
      proposals of exactly the blocks it committed on the way, so afterwards nothing is
      outstanding at a height if and only if those were all there was. */
  lemma RestoreDrops(env: Env, config: Config, n: Node, peer: seq<Checkpoint>, now: real, height: int)
    requires Sound(env, config.flopsTolerance, n) && OutcomeOf(env, config.flopsTolerance, n.chain, peer) == Restores
    ensures |Reconcile(env, config, n, peer, now).chain| == |n.chain|
    ensures Outstanding(Reconcile(env, config, n, peer, now), height) <==>
            exists h :: h in n.proposals && n.proposals[h].height == height &&
              h !in Committing(env, config, n, peer)
  {
    hide ValidChain, ClaimIds, OutcomeOf, ReorgChain, TailOf, Reconcile, Offered, AppliedHashes, Quiet, EpochsBelow, AppliedCount, Declined;
    ValidBuilt(env, config.flopsTolerance, n.chain);
    ReorgOutcome(env, config, n, peer, now);
    DeclinesIff(env, config.flopsTolerance, n.chain, peer);
    ReorgEffects(env, config, n, peer, now);
    OutstandingLess(n, Reconcile(env, config, n, peer, now), height, Committing(env, config, n, peer));
  }

  lemma OutstandingLess(n: Node, r: Node, height: int, gone: set<string>)
    requires r.proposals == n.proposals - gone
    ensures Outstanding(r, height) <==> exists h :: h in n.proposals && n.proposals[h].height == height && h !in gone
  {
    if Outstanding(r, height) {
      var h :| h in r.proposals && r.proposals[h].height == height;
      assert h in n.proposals && n.proposals[h].height == height && h !in gone;
    }
    if h :| h in n.proposals && n.proposals[h].height == height && h !in gone {
      assert h in r.proposals && r.proposals[h].height == height;
    }
  }
}
