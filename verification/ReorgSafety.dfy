/** A reorg keeps the node's invariant, and drops exactly the proposals it committed. */
module ReorgSafety {
  import opened Models
  import opened Chain
  import opened Validation
  import opened Validity
  import opened Committee
  import opened Protocol
  import opened Reorg
  import opened Invariant

  // ------------------------------------------------------------- the ledger stays valid

  lemma {:induction false} ProgressValid(env: Env, tolerance: real, prefix: Ledger, incoming: seq<Checkpoint>, i: nat)
    requires i <= |incoming| && ValidChain(env, tolerance, prefix + incoming[..i])
    ensures ValidChain(env, tolerance, prefix + incoming[..Progress(env, tolerance, prefix, incoming, i)])
    decreases |incoming| - i
  {
    hide Acceptable, ValidChain;
    if i < |incoming| && Acceptable(env, tolerance, prefix + incoming[..i], incoming[i]) {
      ValidSnoc(env, tolerance, prefix + incoming[..i], incoming[i]);
      assert prefix + incoming[..i] + [incoming[i]] == prefix + incoming[..i + 1];
      ProgressValid(env, tolerance, prefix, incoming, i + 1);
    }
  }

  lemma RestoredValid(env: Env, tolerance: real, chain: Ledger, k: nat)
    requires ValidChain(env, tolerance, chain) && k <= |chain|
    ensures ValidChain(env, tolerance, chain[..k] + Served(chain)[k..])
  {
    hide Acceptable;
    var r := chain[..k] + Served(chain)[k..];
    RestoredReadsSame(chain, k);
    forall i | 0 <= i < |r| ensures Acceptable(env, tolerance, r[..i], r[i]) {
      assert Acceptable(env, tolerance, chain[..i], chain[i]);
      ReconstructAcceptable(env, tolerance, chain[..i], chain[i]);
      SamePrefix(chain, r, i);
      SameAcceptable(env, tolerance, chain[..i], r[..i], r[i]);
    }
  }

  /** Whatever a peer sends, a valid ledger stays valid. */
  lemma ReorgChainValid(env: Env, tolerance: real, chain: Ledger, peer: seq<Checkpoint>)
    requires ValidChain(env, tolerance, chain)
    ensures ValidChain(env, tolerance, ReorgChain(env, tolerance, chain, peer))
  {
    hide ValidChain, Progress, SortByHeight, Above, AncestorFrom, Declined, ValidateCheckpoint, Served;
    var o := OutcomeOf(env, tolerance, chain, peer);
    var p, inc := Shared(env, chain, peer), Offered(env, chain, peer);
    if o != Declines {
      ValidPrefix(env, tolerance, chain, |p|);
      assert p == chain[..|p|];
      assert p + inc[..0] == p;
      ProgressValid(env, tolerance, p, inc, 0);
      RestoredValid(env, tolerance, chain, |p|);
      assert inc[..|inc|] == inc;
    }
  }

  // ---------------------------------------------------------------- the rest of the state

  /** The hashes of the proposals committed by the blocks from `i` to `k`. */
  ghost function AppliedHashes(env: Env, incoming: seq<Checkpoint>, i: nat, k: nat): set<string>
    requires i <= k <= |incoming|
  { set j | i <= j < k :: env.proposalHash(incoming[j].proposal) }

  lemma AppliedFirst(env: Env, incoming: seq<Checkpoint>, i: nat, k: nat)
    requires i < k <= |incoming|
    ensures AppliedHashes(env, incoming, i, k) == {env.proposalHash(incoming[i].proposal)} + AppliedHashes(env, incoming, i + 1, k)
  {
  }

  /** Every epoch that has a successor is below the view. */
  ghost predicate EpochsBelow(incoming: seq<Checkpoint>, i: nat, k: nat, view: int)
    requires i <= k <= |incoming|
  { forall j :: i <= j < k && incoming[j].Epoch() < MAX_INT64 ==> incoming[j].Epoch() < view }

  ghost predicate Effects(env: Env, n: Node, r: Node, incoming: seq<Checkpoint>, i: nat, k: nat)
    requires i <= k <= |incoming|
  {
    && r.me == n.me
    && n.view <= r.view
    && Quiet(n.outgoing, r.outgoing)
    && EpochsBelow(incoming, i, k, r.view)
    && r.proposals == n.proposals - AppliedHashes(env, incoming, i, k)
    && r.signatures == n.signatures - AppliedHashes(env, incoming, i, k)
    && r.pendingCommits.Keys <= n.pendingCommits.Keys
  }

  lemma NoEffects(env: Env, n: Node, r: Node, incoming: seq<Checkpoint>, i: nat)
    requires i <= |incoming| && r.me == n.me && r.view == n.view && Quiet(n.outgoing, r.outgoing) && r.proposals == n.proposals
    requires r.pendingCommits == n.pendingCommits && r.signatures == n.signatures
    ensures Effects(env, n, r, incoming, i, i)
  {
  }

  lemma EffectsCons(env: Env, n: Node, m: Node, r: Node, incoming: seq<Checkpoint>, i: nat, k: nat)
    requires i < k <= |incoming| && Effects(env, m, r, incoming, i + 1, k)
    requires m.me == n.me && n.view <= m.view && (incoming[i].Epoch() < MAX_INT64 ==> incoming[i].Epoch() < m.view) && Quiet(n.outgoing, m.outgoing)
    requires m.proposals == n.proposals - {env.proposalHash(incoming[i].proposal)} && m.pendingCommits == n.pendingCommits
    requires m.signatures == n.signatures - {env.proposalHash(incoming[i].proposal)}
    ensures Effects(env, n, r, incoming, i, k)
  {
    hide AppliedHashes;
    AppliedFirst(env, incoming, i, k);
  }

  /** The apply loop drops the proposals of exactly the blocks it committed, puts the view
      past those epochs that have a successor, and sends no proposal, however it ends. */
  lemma {:induction false} ApplyEffects(env: Env, config: Config, n: Node, prefix: Ledger, incoming: seq<Checkpoint>, i: nat,
                                        saved: seq<Checkpoint>, now: real)
    requires i <= |incoming| && ApplyState(n, prefix, incoming, i)
    requires forall j :: 0 <= j < |incoming| ==> incoming[j].Height() == |prefix| + j
    ensures Effects(env, n, Apply(env, config, n, incoming, i, saved, |prefix| - 1, now), incoming, i,
                    Progress(env, config.flopsTolerance, prefix, incoming, i))
    decreases |incoming| - i
  {
    hide AppendOk, ValidateCheckpoint, ClaimIds, CommitLocal, Restored, Effects;
    var tol := config.flopsTolerance;
    var r := Apply(env, config, n, incoming, i, saved, |prefix| - 1, now);
    if i == |incoming| {
      NoEffects(env, n, r, incoming, i);
    } else {
      var b := incoming[i];
      var next := CommitLocal(env, config, n, b, now);
      CommitLocalChain(env, config, n, b, now);
      if ValidateCheckpoint(env, tol, b, n.chain, {}, false).Failed? {
        NoEffects(env, n, r, incoming, i);
      } else if AppendOk(env, n.chain, b) {
        assert next.chain == prefix + incoming[..i + 1];
        ApplyEffects(env, config, next, prefix, incoming, i + 1, saved, now);
        CommittedEffect(env, config, n, b, now);
        EffectsCons(env, n, next, r, incoming, i, Progress(env, tol, prefix, incoming, i + 1));
      } else {
        assert next.chain == prefix + incoming[..i];
        RefusedEffect(env, config, n, b, now);
        assert r == Apply(env, config, next, incoming, i + 1, saved, |prefix| - 1, now);
        if i + 1 < |incoming| { GapFails(env, tol, next.chain, incoming[i + 1]); }
        ApplyStops(env, config, next, incoming, i + 1, saved, |prefix| - 1, now);
        NoEffects(env, n, r, incoming, i);
      }
    }
  }

  lemma ApplyStops(env: Env, config: Config, n: Node, incoming: seq<Checkpoint>, i: nat, saved: seq<Checkpoint>, ancestor: int, now: real)
    requires i <= |incoming|
    requires i < |incoming| ==> ValidateCheckpoint(env, config.flopsTolerance, incoming[i], n.chain, {}, false).Failed?
    ensures var r := Apply(env, config, n, incoming, i, saved, ancestor, now);
            r.me == n.me && r.view == n.view && r.outgoing == n.outgoing && r.proposals == n.proposals && r.pendingCommits == n.pendingCommits && r.signatures == n.signatures
  {
    hide ValidateCheckpoint, ClaimIds, CommitLocal, Restored;
  }

  lemma CommittedEffect(env: Env, config: Config, n: Node, b: Checkpoint, now: real)
    requires AppendOk(env, n.chain, b)
    ensures var m := CommitLocal(env, config, n, b, now);
            && m.me == n.me && n.view <= m.view && (b.Epoch() < MAX_INT64 ==> b.Epoch() < m.view) && Quiet(n.outgoing, m.outgoing)
            && m.proposals == n.proposals - {env.proposalHash(b.proposal)} && m.pendingCommits == n.pendingCommits
            && m.signatures == n.signatures - {env.proposalHash(b.proposal)}
  {
    hide Claims, ClaimIds, BlockIds, FreshHash, ClashFree, NoRepeat, TipHash, Refused;
  }

  lemma RefusedEffect(env: Env, config: Config, n: Node, b: Checkpoint, now: real)
    requires !AppendOk(env, n.chain, b)
    ensures var m := CommitLocal(env, config, n, b, now);
            m.me == n.me && m.view == n.view && Quiet(n.outgoing, m.outgoing) && m.proposals == n.proposals && m.pendingCommits == n.pendingCommits && m.signatures == n.signatures
  {
    hide AppendOk, Refused;
    RefusedFrame(config, n, b, now);
  }

  lemma RefusedFrame(config: Config, n: Node, b: Checkpoint, now: real)
    ensures var m := Refused(config, n, b, now);
            m.me == n.me && m.view == n.view && Quiet(n.outgoing, m.outgoing) && m.proposals == n.proposals && m.pendingCommits == n.pendingCommits && m.signatures == n.signatures
  {
    hide ClaimIds, BlockIds, AlreadyCommitted;
    if !AlreadyCommitted(n.chain, b) { assert Quiet(n.outgoing, RequestSync(config, n, b.Height() - 1, now).outgoing); }
  }

  // ------------------------------------------------------------------- the whole reorg

  /** How many offered blocks the reorg commits before it ends. */
  ghost function AppliedCount(env: Env, tolerance: real, chain: Ledger, peer: seq<Checkpoint>): (k: nat)
    ensures k <= |Offered(env, chain, peer)|
  { Progress(env, tolerance, Shared(env, chain, peer), Offered(env, chain, peer), 0) }

  lemma ReorgEffects(env: Env, config: Config, n: Node, peer: seq<Checkpoint>, now: real)
    requires !Declined(env, n.chain, SortByHeight(peer))
    ensures Effects(env, n, Reconcile(env, config, n, peer, now), Offered(env, n.chain, peer), 0,
                    AppliedCount(env, config.flopsTolerance, n.chain, peer))
  {
    hide Declined, Reconcile, Apply, Progress, Shared, Offered, RolledBack, Saved, Effects, ApplyState, SortByHeight, Above, AncestorFrom;
    var a, inc := ReorgInputs(env, config, n, peer, now);
    RolledBackState(n, a, inc);
    var start := RolledBack(n, a);
    ApplyEffects(env, config, start, n.chain[..a + 1], inc, 0, Saved(n.chain, a), now);
    RolledBackEffect(env, n, a, Reconcile(env, config, n, peer, now), inc, AppliedCount(env, config.flopsTolerance, n.chain, peer));
  }

  lemma RolledBackEffect(env: Env, n: Node, a: int, r: Node, inc: seq<Checkpoint>, k: nat)
    requires k <= |inc| && Effects(env, RolledBack(n, a), r, inc, 0, k)
    ensures Effects(env, n, r, inc, 0, k)
  {
    hide AppliedHashes, EpochsBelow;
  }

  /** Every block the reorg leaves in the ledger was there before or was committed by it. */
  lemma ReorgViewAhead(env: Env, tolerance: real, chain: Ledger, peer: seq<Checkpoint>, i: nat, was: int, view: int)
    requires forall j :: 0 <= j < |chain| ==> chain[j].Epoch() < was
    requires OutcomeOf(env, tolerance, chain, peer) != Declines && was <= view
    requires EpochsBelow(Offered(env, chain, peer), 0, AppliedCount(env, tolerance, chain, peer), view)
    requires i < |ReorgChain(env, tolerance, chain, peer)| && ReorgChain(env, tolerance, chain, peer)[i].Epoch() < MAX_INT64
    ensures ReorgChain(env, tolerance, chain, peer)[i].Epoch() < view
  {
    hide Progress, SortByHeight, Above, AncestorFrom, Declined, ValidateCheckpoint;
    var p, inc := Shared(env, chain, peer), Offered(env, chain, peer);
    assert i < |p| ==> ReorgChain(env, tolerance, chain, peer)[i] == chain[i];
  }

  /** Declined, adopted, cut short or restored: the invariant holds afterwards. */
  lemma ReorgSound(env: Env, config: Config, n: Node, peer: seq<Checkpoint>, now: real)
    requires Sound(env, config.flopsTolerance, n)
    ensures var r := Reconcile(env, config, n, peer, now);
            Sound(env, config.flopsTolerance, r) && r.me == n.me && ViewFollows(n, r) && Quiet(n.outgoing, r.outgoing)
    ensures Exact(n) ==> Exact(Reconcile(env, config, n, peer, now))
  {
    hide ValidChain, ClaimIds, Progress, Declined, Reconcile, ReorgChain, OutcomeOf, Offered, Shared, TailOf, AppliedHashes;
    var tol := config.flopsTolerance;
    var r := Reconcile(env, config, n, peer, now);
    ValidBuilt(env, tol, n.chain);
    ReorgOutcome(env, config, n, peer, now);
    DeclinesIff(env, tol, n.chain, peer);
    if OutcomeOf(env, tol, n.chain, peer) != Declines {
      ReorgChainValid(env, tol, n.chain, peer);
      ReorgEffects(env, config, n, peer, now);
      if ViewAhead(n) && EpochsFit(r.chain) {
        forall i | 0 <= i < |r.chain| ensures r.chain[i].Epoch() < r.view {
          ReorgViewAhead(env, tol, n.chain, peer, i, n.view, r.view);
        }
      }
    }
  }

  lemma DeclinesIff(env: Env, tolerance: real, chain: Ledger, peer: seq<Checkpoint>)
    ensures OutcomeOf(env, tolerance, chain, peer) == Declines <==> Declined(env, chain, SortByHeight(peer))
  {
    hide Progress, SortByHeight, Above, AncestorFrom, Declined, TailRefused;
  }
}
