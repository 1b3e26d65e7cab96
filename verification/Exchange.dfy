/** Two nodes that talk until they agree: what a heartbeat, a block from further up and a
    block from another branch set off. */
module Exchange {
  import opened Models
  import opened Chain
  import opened Validity
  import opened Committee
  import opened Protocol
  import opened Reorg
  import opened HeadOrder
  import opened Invariant
  import opened Convergence
  import opened CatchUp
  import opened Runs
  import Text

  /** Enough time has passed since the last request, if any has to. */
  predicate MayAsk(config: Config, n: Node, now: real) { config.syncInterval <= 0.0 || now - n.lastSync >= config.syncInterval }

  /** A request goes out exactly then; otherwise nothing happens. */
  lemma AsksIff(config: Config, n: Node, from: int, now: real)
    ensures RequestSync(config, n, from, now) ==
            if MayAsk(config, n, now) then n.(lastSync := now, outgoing := n.outgoing + [SyncRequest(n.me.id, from)]) else n
  {
  }

  // ----------------------------------------------------------------------- heartbeats

  /** The signatures in a ledger, by block and place. */
  ghost function Places(chain: Ledger): set<(int, int)> {
    set h, j | 0 <= h < |chain| && 0 <= j < |chain[h].signatures| :: (h, j)
  }

  /** The first `k` places of block `h`. */
  ghost function PlacesAt(h: nat, k: nat): set<(int, int)> {
    if k == 0 then {} else PlacesAt(h, k - 1) + {(h as int, k - 1)}
  }

  lemma {:induction false} PlacesAtAre(h: nat, k: nat)
    ensures |PlacesAt(h, k)| == k && forall x :: x in PlacesAt(h, k) <==> x.0 == h && 0 <= x.1 < k
  {
    if k == 0 {
    } else {
      PlacesAtAre(h, k - 1);
    }
  }

  lemma PlacesSnoc(chain: Ledger)
    requires chain != []
    ensures var n := |chain| - 1;
            && Places(chain) == Places(chain[..n]) + PlacesAt(n, |chain[n].signatures|)
            && Places(chain[..n]) !! PlacesAt(n, |chain[n].signatures|)
  {
    hide PlacesAt;
    var n := |chain| - 1;
    PlacesAtAre(n, |chain[n].signatures|);
    forall x | x in Places(chain) ensures x in Places(chain[..n]) + PlacesAt(n, |chain[n].signatures|) {
      if x.0 < n { assert chain[..n][x.0] == chain[x.0]; }
    }
  }

  lemma {:induction false} CountIs(chain: Ledger)
    ensures SignatureCount(chain) == |Places(chain)|
  {
    hide Places, PlacesAt;
    if chain == [] {
      assert Places(chain) == {} by { NoPlaces(); }
    } else {
      var n := |chain| - 1;
      CountIs(chain[..n]);
      PlacesAtAre(n, |chain[n].signatures|);
      PlacesSnoc(chain);
    }
  }

  lemma NoPlaces()
    ensures Places([]) == {}
  {
  }

  /** A tick announces the head in one message: the node, the head's height, hash, epoch and
      sealer, and how many signatures the ledger holds. */
  lemma TickAnnounces(env: Env, config: Config, n: Node, now: real)
    requires n.chain != []
    ensures var m := Step(env, config, n, ClockTick, now);
            var head := n.chain[|n.chain| - 1];
            && m.chain == n.chain && m.me == n.me
            && m.outgoing == [Heartbeat(n.me.id, head.proposal.height, env.blockHash(head.proposal, head.signatures), head.proposal.epoch,
                                        head.proposal.sealedBy, |Places(n.chain)|)]
  {
    hide Turned, Beat, Places;
    TurnedFrame(config, Cleared(n), now);
    BeatIs(env, Turned(config, Cleared(n), now));
  }

  lemma BeatIs(env: Env, n: Node)
    requires n.chain != [] && n.outgoing == []
    ensures var m := Beat(env, n);
            var head := n.chain[|n.chain| - 1];
            && m.chain == n.chain && m.me == n.me
            && m.outgoing == [Heartbeat(n.me.id, head.proposal.height, env.blockHash(head.proposal, head.signatures), head.proposal.epoch,
                                        head.proposal.sealedBy, |Places(n.chain)|)]
  {
    hide SignatureCount, Places;
    CountIs(n.chain);
  }

  /** A heartbeat notes the peer and, if the peer is taller, asks it for what is above the
      node's own head. */
  lemma HeartbeatAsks(env: Env, config: Config, n: Node, from: string, height: int, hash: string, now: real)
    requires from != n.me.id && (n.chain == [] || height >= |n.chain|)
    ensures var m := Step(env, config, n, HeartbeatIn(from, height, hash), now);
            && m.outgoing == (if MayAsk(config, n, now) then [SyncRequest(n.me.id, |n.chain| - 1)] else [])
            && from in m.peers && from in m.peerSeen && m.peerSeen[from] == now
            && m.me == n.me && m.chain == n.chain && m.committed == n.committed && m.pendingCommits == n.pendingCommits && m.rejects == n.rejects
  {
    hide RequestSync, TipHash;
    AsksIff(config, Cleared(n).(peers := n.peers + {from}, peerSeen := n.peerSeen[from := now]), |n.chain| - 1, now);
  }

  /** Peers on one head leave each other alone; one on another head of the same height, or a
      lower one, is not asked for blocks. */
  lemma HeartbeatRests(env: Env, config: Config, n: Node, from: string, height: int, hash: string, now: real)
    requires n.chain != [] && height < |n.chain|
    ensures var m := Step(env, config, n, HeartbeatIn(from, height, hash), now);
            m.outgoing ==
            if from != n.me.id && height == |n.chain| - 1 && hash != TipHash(env, n.chain)
            then [ForkAlert(n.me.id, height, TipHash(env, n.chain), hash)] else []
  {
    hide TipHash;
  }

  /** What stays behind stays behind when nothing it speaks about changes. */
  lemma BehindSame(env: Env, n: Node, m: Node, server: Ledger)
    requires Behind(env, n, server)
    requires m.chain == n.chain && m.committed == n.committed && m.pendingCommits == n.pendingCommits && m.rejects == n.rejects
    ensures Behind(env, m, server)
  {
    hide SameChain, OnChain, ClaimIds;
  }

  /** Request and answer: a node behind the server ends on the server's chain. */
  lemma AnswerHeals(env: Env, c: Config, server: Node, d: Config, n: Node, t1: real, t2: real)
    requires Binding(env) && ValidChain(env, d.flopsTolerance, server.chain) && Behind(env, n, server.chain)
    requires server.me.id != n.me.id && |n.chain| < |server.chain|
    ensures var served := Step(env, c, server, SyncRequestIn(n.me.id, |n.chain| - 1), t1);
            && |served.outgoing| == 1 && served.outgoing[0].SyncResponse?
            && var m := Step(env, d, n, SyncResponseIn(served.outgoing[0].blocks), t2);
               SameChain(m.chain, server.chain) && Exact(m)
  {
    hide Behind, ValidChain, Binding, SameChain, Exact, BlocksAbove, OnSyncResponse;
    BehindSame(env, n, Cleared(n), server.chain);
    CatchesUp(env, d, Cleared(n), server, t2);
  }

  /** A taller server's heartbeat brings a node that is behind it onto its chain: the node
      asks, the server answers, the node takes the answer in. */
  lemma HeartbeatHeals(env: Env, c: Config, server: Node, d: Config, n: Node, t0: real, t1: real, t2: real, t3: real)
    requires Binding(env) && ValidChain(env, d.flopsTolerance, server.chain) && Behind(env, n, server.chain)
    requires server.me.id != n.me.id && |n.chain| < |server.chain| && MayAsk(d, n, t1)
    ensures var ticked := Step(env, c, server, ClockTick, t0);
            && |ticked.outgoing| == 1 && ticked.outgoing[0].Heartbeat?
            && var beat := ticked.outgoing[0];
               var heard := Step(env, d, n, HeartbeatIn(beat.nodeId, beat.height, beat.blockHash), t1);
               && |heard.outgoing| == 1 && heard.outgoing[0].SyncRequest?
               && var served := Step(env, c, ticked, SyncRequestIn(heard.outgoing[0].nodeId, heard.outgoing[0].fromHeight), t2);
                  && |served.outgoing| == 1 && served.outgoing[0].SyncResponse?
                  && var m := Step(env, d, heard, SyncResponseIn(served.outgoing[0].blocks), t3);
                     SameChain(m.chain, server.chain) && Exact(m)
  {
    hide Step, Behind, ValidChain, Binding, SameChain, Exact;
    TickAnnounces(env, c, server, t0);
    HeadHeight(env, d.flopsTolerance, server.chain);
    var ticked := Step(env, c, server, ClockTick, t0);
    var beat := ticked.outgoing[0];
    HeartbeatAsks(env, d, n, beat.nodeId, beat.height, beat.blockHash, t1);
    var heard := Step(env, d, n, HeartbeatIn(beat.nodeId, beat.height, beat.blockHash), t1);
    BehindSame(env, n, heard, server.chain);
    AnswerHeals(env, c, ticked, d, heard, t2, t3);
  }

  lemma HeadHeight(env: Env, tolerance: real, chain: Ledger)
    requires ValidChain(env, tolerance, chain) && chain != []
    ensures chain[|chain| - 1].Height() == |chain| - 1
  {
    ValidBuilt(env, tolerance, chain);
    BuiltHeights(env, chain, |chain| - 1);
  }

  // ----------------------------------------------------------------- blocks further up

  /** A block from further up the server's chain is kept for later and the node asks for
      what it lacks; it is still behind, so the answer brings it up. */
  lemma GapHeals(env: Env, c: Config, server: Node, d: Config, n: Node, b: Checkpoint, t1: real, t2: real, t3: real)
    requires Binding(env) && ValidChain(env, d.flopsTolerance, server.chain) && Behind(env, n, server.chain)
    requires server.me.id != n.me.id && OnChain(server.chain, b) && b.Height() > |n.chain| && MayAsk(d, n, t1)
    ensures var m := Step(env, d, n, CommitIn(b), t1);
            && m.outgoing == [SyncRequest(n.me.id, |n.chain| - 1)]
            && (|n.pendingCommits| < MAX_PENDING_COMMITS ==> b.Height() in m.pendingCommits && m.pendingCommits[b.Height()] == b)
            && var served := Step(env, c, server, SyncRequestIn(n.me.id, |n.chain| - 1), t2);
               && |served.outgoing| == 1 && served.outgoing[0].SyncResponse?
               && var k := Step(env, d, m, SyncResponseIn(served.outgoing[0].blocks), t3);
                  SameChain(k.chain, server.chain) && Exact(k)
  {
    hide Step, Behind, ValidChain, Binding, SameChain, Exact, OnChain;
    OnChainHeight(server.chain, b);
    GapQueues(env, d, n, b, t1);
    var m := Step(env, d, n, CommitIn(b), t1);
    QueueBehind(env, n, m, b, server.chain);
    AnswerHeals(env, c, server, d, m, t2, t3);
  }

  lemma GapQueues(env: Env, config: Config, n: Node, b: Checkpoint, now: real)
    requires b.Height() > |n.chain| && MayAsk(config, n, now)
    ensures var m := Step(env, config, n, CommitIn(b), now);
            && m.outgoing == [SyncRequest(n.me.id, |n.chain| - 1)] && m.me == n.me
            && m.chain == n.chain && m.committed == n.committed && m.rejects == n.rejects
            && m.pendingCommits == TrimLowest(n.pendingCommits[b.Height() := b])
  {
    hide TrimLowest, TipHash, NextCommit, OldCommit, RequestSync;
    AsksIff(config, QueueCommit(Cleared(n), b), |n.chain| - 1, now);
  }

  lemma QueueBehind(env: Env, n: Node, m: Node, b: Checkpoint, server: Ledger)
    requires Behind(env, n, server) && OnChain(server, b)
    requires m.chain == n.chain && m.committed == n.committed && m.rejects == n.rejects
    requires m.pendingCommits == TrimLowest(n.pendingCommits[b.Height() := b])
    ensures Behind(env, m, server)
    ensures |n.pendingCommits| < MAX_PENDING_COMMITS ==> b.Height() in m.pendingCommits && m.pendingCommits[b.Height()] == b
  {
    hide SameChain, OnChain, ClaimIds, TrimLowest;
    var queue := n.pendingCommits[b.Height() := b];
    TrimKeepsHighest(queue);
    if |n.pendingCommits| < MAX_PENDING_COMMITS { RoomInQueue(n.pendingCommits, b); }
  }

  lemma RoomInQueue(queue: map<int, Checkpoint>, b: Checkpoint)
    requires |queue| < MAX_PENDING_COMMITS
    ensures TrimLowest(queue[b.Height() := b]) == queue[b.Height() := b]
  {
    var more := queue[b.Height() := b];
    assert more.Keys == queue.Keys + {b.Height()};
    assert |more| == |more.Keys| && |queue| == |queue.Keys|;
  }

  // ------------------------------------------------------------------- other branches

  /** Asked for everything, a node sends its whole chain as read back; whoever takes that in
      ends on the better of the two chains. */
  lemma FullSyncHeals(env: Env, c: Config, server: Node, d: Config, n: Node, t1: real, t2: real)
    requires Binding(env) && ValidChain(env, d.flopsTolerance, server.chain) && ValidChain(env, d.flopsTolerance, n.chain)
    requires server.me.id != n.me.id && server.chain != []
    ensures var served := Step(env, c, server, SyncRequestIn(n.me.id, -1), t1);
            && |served.outgoing| == 1 && served.outgoing[0].SyncResponse?
            && var m := Step(env, d, n, SyncResponseIn(served.outgoing[0].blocks), t2);
               if Better(env, server.chain, n.chain) then SameChain(server.chain, m.chain) else m.chain == n.chain
  {
    hide ValidChain, Binding, SameChain, Better, Reconcile, OnCommits, Served, ReorgChain, OutcomeOf, TailOf, Offered, ClaimIds, HasGenesisHeight;
    var tol := d.flopsTolerance;
    var s := server.chain;
    WholeChain(env, c, tol, server, n.me.id, t1);
    ServedValid(env, tol, s);
    ServedSame(s);
    TakesTheBetter(env, tol, n.chain, Served(s));
    ValidBuilt(env, tol, n.chain);
    ReorgOutcome(env, d, Cleared(n), Served(s), t2);
    ServedBetter(env, s, n.chain);
    var r := ReorgChain(env, tol, n.chain, Served(s));
    if Better(env, s, n.chain) { SameTrans(s, Served(s), r); }
  }

  lemma WholeChain(env: Env, config: Config, tolerance: real, server: Node, requester: string, now: real)
    requires ValidChain(env, tolerance, server.chain) && server.me.id != requester && server.chain != []
    ensures Step(env, config, server, SyncRequestIn(requester, -1), now).outgoing == [SyncResponse(server.me.id, Served(server.chain))]
    ensures HasGenesisHeight(Served(server.chain))
  {
    hide ValidChain, Served, HasGenesisHeight;
    ResponseKind(env, tolerance, server.chain, 0);
    assert Served(server.chain)[0..] == Served(server.chain) != [];
  }

  lemma ServedBetter(env: Env, s: Ledger, c: Ledger)
    ensures Better(env, Served(s), c) <==> Better(env, s, c)
  {
    hide SameChain;
    ServedSame(s);
    SameTips(env, s, Served(s));
  }

  lemma SameTips(env: Env, c: Ledger, d: Ledger)
    requires SameChain(c, d)
    ensures |c| == |d| && TipHash(env, c) == TipHash(env, d)
  {
  }

  /** The block another node has as head at the same height: the node raises an alert with
      both hashes and asks for that node's whole chain exactly when the other hash is the
      smaller one. */
  lemma ForkAsks(env: Env, config: Config, n: Node, b: Checkpoint, now: real)
    requires n.chain != [] && b.Height() == |n.chain| - 1 && env.Hash(b) != TipHash(env, n.chain)
    ensures var m := Step(env, config, n, CommitIn(b), now);
            && m.outgoing == [ForkAlert(n.me.id, b.Height(), TipHash(env, n.chain), env.Hash(b))] +
                             (if Text.Less(env.Hash(b), TipHash(env, n.chain)) && MayAsk(config, n, now) then [SyncRequest(n.me.id, -1)] else [])
            && m.chain == n.chain && m.me == n.me
  {
    hide TipHash, Text.Less, RequestSync, NextCommit;
    var alert := ForkAlert(n.me.id, b.Height(), TipHash(env, n.chain), env.Hash(b));
    AsksIff(config, Cleared(n).(outgoing := Cleared(n).outgoing + [alert]), -1, now);
  }

  /** Two nodes on different heads of one height exchange their heads. Exactly one of them
      asks for the other's chain, and the answer puts it on that chain. */
  lemma ForkHeals(env: Env, c: Config, k: Node, d: Config, n: Node, t0: real, t1: real, t2: real, t3: real)
    requires Binding(env) && ValidChain(env, d.flopsTolerance, k.chain) && ValidChain(env, d.flopsTolerance, n.chain)
    requires k.me.id != n.me.id && |k.chain| == |n.chain| > 0 && TipHash(env, k.chain) != TipHash(env, n.chain)
    requires MayAsk(c, k, t0) && MayAsk(d, n, t1)
    requires Text.Less(TipHash(env, k.chain), TipHash(env, n.chain))
    ensures var winner := Step(env, c, k, CommitIn(n.chain[|n.chain| - 1]), t0);
            var other := Step(env, d, n, CommitIn(k.chain[|k.chain| - 1]), t1);
            && (forall x :: x in winner.outgoing ==> !x.SyncRequest?) && SyncRequest(n.me.id, -1) in other.outgoing
            && var served := Step(env, c, winner, SyncRequestIn(n.me.id, -1), t2);
               && |served.outgoing| == 1 && served.outgoing[0].SyncResponse?
               && SameChain(k.chain, Step(env, d, other, SyncResponseIn(served.outgoing[0].blocks), t3).chain)
  {
    hide Step, ValidChain, Binding, SameChain, Text.Less;
    HeadHeight(env, d.flopsTolerance, k.chain);
    HeadHeight(env, d.flopsTolerance, n.chain);
    Text.LessAsymmetric(TipHash(env, k.chain), TipHash(env, n.chain));
    ForkAsks(env, c, k, n.chain[|n.chain| - 1], t0);
    ForkAsks(env, d, n, k.chain[|k.chain| - 1], t1);
    var winner := Step(env, c, k, CommitIn(n.chain[|n.chain| - 1]), t0);
    var other := Step(env, d, n, CommitIn(k.chain[|k.chain| - 1]), t1);
    FullSyncHeals(env, c, winner, d, other, t2, t3);
  }

  /** A next block that does not chain off the node's head is not taken: the node changes
      nothing and asks for the whole chain. If the sender is one block taller, the answer puts
      the node on the sender's chain. */
  lemma WrongParentHeals(env: Env, c: Config, k: Node, d: Config, n: Node, t1: real, t2: real, t3: real)
    requires Binding(env) && ValidChain(env, d.flopsTolerance, k.chain) && ValidChain(env, d.flopsTolerance, n.chain)
    requires k.me.id != n.me.id && |k.chain| == |n.chain| + 1 && n.chain != [] && MayAsk(d, n, t1)
    requires k.chain[|n.chain|].proposal.prevHash != TipHash(env, n.chain)
    ensures var m := Step(env, d, n, CommitIn(k.chain[|n.chain|]), t1);
            && m == n.(outgoing := [SyncRequest(n.me.id, -1)], lastSync := t1)
            && var served := Step(env, c, k, SyncRequestIn(n.me.id, -1), t2);
               && |served.outgoing| == 1 && served.outgoing[0].SyncResponse?
               && SameChain(k.chain, Step(env, d, m, SyncResponseIn(served.outgoing[0].blocks), t3).chain)
  {
    hide Step, ValidChain, Binding, SameChain, TipHash;
    HeadHeight(env, d.flopsTolerance, k.chain);
    WrongParent(env, d, n, k.chain[|n.chain|], t1);
    FullSyncHeals(env, c, k, d, Step(env, d, n, CommitIn(k.chain[|n.chain|]), t1), t2, t3);
  }

  lemma WrongParent(env: Env, config: Config, n: Node, b: Checkpoint, now: real)
    requires n.chain != [] && b.Height() == |n.chain| && b.proposal.prevHash != TipHash(env, n.chain) && MayAsk(config, n, now)
    ensures Step(env, config, n, CommitIn(b), now) == n.(outgoing := [SyncRequest(n.me.id, -1)], lastSync := now)
  {
    hide TipHash, NextCommit, OldCommit;
  }
}
