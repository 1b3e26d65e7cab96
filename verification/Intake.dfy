/** What a node lets in and remembers: claims, rejected blocks, peers. */
module Intake {
  import opened Models
  import opened Chain
  import opened Validation
  import opened Committee
  import opened Protocol
  import opened Runs
  import Tables

  // --------------------------------------------------------------------------- claims

  /** A claim the node may submit: its own, verifying, plausible, and not known yet. */
  ghost predicate MaySubmit(env: Env, config: Config, n: Node, s: SignedClaim) {
    && s.claim.nodeId == n.me.id && env.claimVerifies(s) && env.plausible(s.claim, config.flopsTolerance)
    && s.claim.claimId !in n.pending && s.claim.claimId !in n.committed
  }

  /** A submitted claim is sent and waits if and only if it may be; else nothing changes. */
  lemma SubmitSends(env: Env, config: Config, n: Node, s: SignedClaim, now: real)
    ensures var m := Step(env, config, n, Submit(s), now);
            && m.outgoing == (if MaySubmit(env, config, n, s) then [ClaimGossip(s)] else [])
            && m == Cleared(n).(outgoing := m.outgoing,
                                pending := if MaySubmit(env, config, n, s) then n.pending[s.claim.claimId := s] else n.pending)
  {
  }

  /** A gossiped claim joins those waiting if and only if it verifies and is neither waiting,
      committed nor reserved; past the bound the victims go, and nothing else ever changes. */
  lemma GossipWaits(env: Env, config: Config, n: Node, s: SignedClaim, victims: set<string>, now: real)
    ensures var m := Step(env, config, n, ClaimIn(s, victims), now);
            var joins := env.claimVerifies(s) && s.claim.claimId !in n.pending && s.claim.claimId !in n.committed && s.claim.claimId !in n.proposed;
            && m == Cleared(n).(pending := m.pending)
            && (!joins ==> m.pending == n.pending)
            && (joins && |n.pending| < MAX_PENDING_CLAIMS ==> m.pending == n.pending[s.claim.claimId := s])
            && (joins && |n.pending| >= MAX_PENDING_CLAIMS ==> m.pending == n.pending[s.claim.claimId := s] - victims)
  {
    hide OnClaims;
    ClaimWaits(env, Cleared(n), s, victims);
  }

  lemma ClaimWaits(env: Env, n: Node, s: SignedClaim, victims: set<string>)
    ensures var m := OnClaims(env, n, s, victims);
            var joins := env.claimVerifies(s) && s.claim.claimId !in n.pending && s.claim.claimId !in n.committed && s.claim.claimId !in n.proposed;
            && m == n.(pending := m.pending)
            && (!joins ==> m.pending == n.pending)
            && (joins && |n.pending| < MAX_PENDING_CLAIMS ==> m.pending == n.pending[s.claim.claimId := s])
            && (joins && |n.pending| >= MAX_PENDING_CLAIMS ==> m.pending == n.pending[s.claim.claimId := s] - victims)
  {
    assert s.claim.claimId !in n.pending ==> |n.pending[s.claim.claimId := s]| == |n.pending| + 1;
  }

  /** What one node submits waits at every other node that hears it, has room and did not
      know it. */
  lemma ClaimSpreads(env: Env, c: Config, n: Node, d: Config, k: Node, s: SignedClaim, victims: set<string>, t0: real, t1: real)
    requires MaySubmit(env, c, n, s) && |k.pending| < MAX_PENDING_CLAIMS
    requires s.claim.claimId !in k.pending && s.claim.claimId !in k.committed && s.claim.claimId !in k.proposed
    ensures var sent := Step(env, c, n, Submit(s), t0).outgoing;
            && |sent| == 1 && sent[0].ClaimGossip?
            && var m := Step(env, d, k, ClaimIn(sent[0].signed, victims), t1);
               s.claim.claimId in m.pending && m.pending[s.claim.claimId] == s
  {
    hide Step;
    SubmitSends(env, c, n, s, t0);
    GossipWaits(env, d, k, s, victims, t1);
  }

  // ----------------------------------------------------------------------- rejected blocks

  /** A next block that fails validation is remembered and changes nothing else; delivered
      again, it changes nothing at all. */
  lemma RejectRemembered(env: Env, config: Config, n: Node, b: Checkpoint, t0: real, t1: real)
    requires n.chain != [] && b.Height() == |n.chain| && b.proposal.prevHash == TipHash(env, n.chain) && env.Hash(b) !in n.rejects
    requires ValidateCheckpoint(env, config.flopsTolerance, b, n.chain, n.committed, false).Failed?
    ensures var m := Step(env, config, n, CommitIn(b), t0);
            && m == Cleared(n).(rejects := m.rejects) && env.Hash(b) in m.rejects
            && Step(env, config, m, CommitIn(b), t1) == m
  {
    hide ValidateCheckpoint, TipHash, CommitLocal, OldCommit, RequestSync;
    NotesLast(n, env.Hash(b));
  }

  lemma NotesLast(n: Node, hash: string)
    requires hash !in n.rejects
    ensures var m := NoteReject(n, hash);
            m == n.(rejects := m.rejects) && m.rejects != [] && m.rejects[|m.rejects| - 1] == hash
  {
  }

  ghost function NoteAll(n: Node, hashes: seq<string>): Node {
    if hashes == [] then n else NoteReject(NoteAll(n, hashes[..|hashes| - 1]), hashes[|hashes| - 1])
  }

  /** Noting one more block moves an entry at most one place towards being forgotten. */
  lemma NoteShifts(n: Node, hash: string, i: nat) returns (j: nat)
    requires i < |n.rejects| <= MAX_RECENT_COMMIT_REJECTS && |n.rejects| - i < MAX_RECENT_COMMIT_REJECTS
    ensures var m := NoteReject(n, hash);
            |m.rejects| <= MAX_RECENT_COMMIT_REJECTS && j < |m.rejects| && m.rejects[j] == n.rejects[i] && |m.rejects| - j <= |n.rejects| - i + 1
  {
    var m := NoteReject(n, hash);
    j := if hash in n.rejects then i else if |n.rejects| == MAX_RECENT_COMMIT_REJECTS then i - 1 else i;
  }

  /** A rejected block is remembered through any 511 further rejections. */
  lemma {:induction false} RejectStays(n: Node, hashes: seq<string>, i: nat) returns (j: nat)
    requires i < |n.rejects| <= MAX_RECENT_COMMIT_REJECTS && |n.rejects| - i + |hashes| <= MAX_RECENT_COMMIT_REJECTS
    ensures var m := NoteAll(n, hashes);
            |m.rejects| <= MAX_RECENT_COMMIT_REJECTS && j < |m.rejects| && m.rejects[j] == n.rejects[i] && |m.rejects| - j <= |n.rejects| - i + |hashes|
  {
    hide NoteReject;
    if hashes == [] {
      j := i;
    } else {
      var front := hashes[..|hashes| - 1];
      var k := RejectStays(n, front, i);
      j := NoteShifts(NoteAll(n, front), hashes[|hashes| - 1], k);
    }
  }

  // ------------------------------------------------------------------------ refused blocks

  /** The claim is in the ledger by id, or its node has used that sequence number there. */
  ghost predicate InLedger(chain: Ledger, c: Claim) {
    exists i :: 0 <= i < |Claims(chain)| &&
      (Claims(chain)[i].claimId == c.claimId || (Claims(chain)[i].nodeId == c.nodeId && Claims(chain)[i].sequence == c.sequence))
  }

  /** A block past the head that the store refuses. If all its claims are in the ledger
      already, they no longer wait and are no longer reserved, and those there by id count as
      committed; otherwise the node asks from the height below and leaves its claims alone. */
  lemma RefusalIs(env: Env, config: Config, n: Node, b: Checkpoint, now: real)
    requires b.Height() >= |n.chain| && !AppendOk(env, n.chain, b)
    ensures var m := CommitLocal(env, config, n, b, now);
            var known := forall i :: 0 <= i < |BlockClaims(b)| ==> InLedger(n.chain, BlockClaims(b)[i]);
            && m.chain == n.chain
            && (known ==>
                  && m == n.(pending := m.pending, proposed := m.proposed, committed := m.committed)
                  && (forall id :: id in m.pending <==> id in n.pending && id !in BlockIds(b))
                  && (forall id :: id in m.proposed <==> id in n.proposed && id !in BlockIds(b))
                  && (forall id :: id in m.committed <==> id in n.committed || (id in BlockIds(b) && id in ClaimIds(n.chain))))
            && (!known ==> m == RequestSync(config, n, b.Height() - 1, now))
  {
    hide AppendOk, Claims, BlockClaims, RequestSync, BlockIds, ClaimIds;
    KnownIff(n.chain, b);
    RequestChain(config, n, b.Height() - 1, now);
  }

  lemma RequestChain(config: Config, n: Node, from: int, now: real)
    ensures RequestSync(config, n, from, now).chain == n.chain
  {
  }

  lemma KnownIff(chain: Ledger, b: Checkpoint)
    requires b.Height() >= |chain|
    ensures AlreadyCommitted(chain, b) <==> forall i :: 0 <= i < |BlockClaims(b)| ==> InLedger(chain, BlockClaims(b)[i])
  {
    hide Claims, BlockClaims;
    var ds := BlockClaims(b);
    forall i | 0 <= i < |ds| ensures InLedger(chain, ds[i]) <==> Tables.ClashesWith(Claims(chain), ds[i]) {
      ClashIs(chain, ds[i]);
    }
  }

  lemma ClashIs(chain: Ledger, c: Claim)
    ensures InLedger(chain, c) <==> Tables.ClashesWith(Claims(chain), c)
  {
    hide Claims;
  }

  // ------------------------------------------------------------------------------ echoes

  /** The node's own heartbeats and requests, come back to it, are ignored. */
  lemma EchoesIgnored(env: Env, config: Config, n: Node, height: int, hash: string, from: int, now: real)
    ensures Step(env, config, n, HeartbeatIn(n.me.id, height, hash), now) == Cleared(n)
    ensures Step(env, config, n, SyncRequestIn(n.me.id, from), now) == Cleared(n)
  {
  }

  /** A fork alert is remembered under its two hashes, once, and changes nothing else. */
  lemma AlertRemembered(env: Env, config: Config, n: Node, a: string, b: string, s: real, t: real)
    ensures var m := Step(env, config, n, ForkIn(a, b), s);
            && m == Cleared(n).(forkAlerts := m.forkAlerts) && (forall x :: x in m.forkAlerts <==> x in n.forkAlerts || x == a + b)
            && Step(env, config, m, ForkIn(a, b), t) == m
  {
    assert n.forkAlerts + {a + b} + {a + b} == n.forkAlerts + {a + b};
  }

  // ----------------------------------------------------------------------------- peers

  /** A tick drops exactly the peers last heard from too long ago; one never heard from
      stays, and without a limit all do. */
  lemma TickPrunes(env: Env, config: Config, n: Node, now: real, p: string)
    ensures p in Step(env, config, n, ClockTick, now).peers <==>
            p in n.peers && (config.peerStaleAfter <= 0.0 || p !in n.peerSeen || n.peerSeen[p] > now - config.peerStaleAfter)
  {
    hide Prune, Beat;
    TickPeers(env, config, Cleared(n), now);
    PruneIs(config, Cleared(n), now, p);
  }

  lemma TickPeers(env: Env, config: Config, n: Node, now: real)
    ensures Tick(env, config, n, now).peers == Prune(config, n, now).peers
  {
    hide Prune, SignatureCount;
  }

  lemma PruneIs(config: Config, n: Node, now: real, p: string)
    ensures p in Prune(config, n, now).peers <==>
            p in n.peers && (config.peerStaleAfter <= 0.0 || p !in n.peerSeen || n.peerSeen[p] > now - config.peerStaleAfter)
  {
  }

  /** A peer whose heartbeat came in survives every tick until the limit has passed. */
  lemma HeardStays(env: Env, config: Config, n: Node, from: string, height: int, hash: string, t0: real, t1: real)
    requires from != n.me.id && t1 < t0 + config.peerStaleAfter
    ensures from in Step(env, config, Step(env, config, n, HeartbeatIn(from, height, hash), t0), ClockTick, t1).peers
  {
    hide Step;
    HeartbeatNotes(env, config, n, from, height, hash, t0);
    TickPrunes(env, config, Step(env, config, n, HeartbeatIn(from, height, hash), t0), t1, from);
  }

  lemma HeartbeatNotes(env: Env, config: Config, n: Node, from: string, height: int, hash: string, now: real)
    requires from != n.me.id
    ensures var m := Step(env, config, n, HeartbeatIn(from, height, hash), now);
            && m.peers == n.peers + {from} && m.peerSeen == n.peerSeen[from := now]
  {
    hide CompareHeads;
    ComparePeers(env, config, Cleared(n).(peers := n.peers + {from}, peerSeen := n.peerSeen[from := now]), height, hash, now);
  }

  lemma ComparePeers(env: Env, config: Config, n: Node, height: int, hash: string, now: real)
    ensures var m := CompareHeads(env, config, n, height, hash, now); m.peers == n.peers && m.peerSeen == n.peerSeen
  {
    hide TipHash, RequestSync;
    AskPeers(config, n, -1, now);
    AskPeers(config, n, |n.chain| - 1, now);
  }

  lemma AskPeers(config: Config, n: Node, from: int, now: real)
    ensures var m := RequestSync(config, n, from, now); m.peers == n.peers && m.peerSeen == n.peerSeen
  {
  }

  // ----------------------------------------------------------------------------- turns

  /** A tick ends the sealer's turn if and only if the timeout has passed since the last
      activity; the next turn then starts from this tick. */
  lemma TickTurns(env: Env, config: Config, n: Node, now: real)
    ensures var m := Step(env, config, n, ClockTick, now);
            if now - n.lastActivity > config.electionTimeout then m.view == Successor(n.view) && m.lastActivity == now
            else m.view == n.view && m.lastActivity == n.lastActivity
  {
    hide Turned, Beat;
    BeatTimes(env, Turned(config, Cleared(n), now));
    TurnTimes(config, Cleared(n), now);
  }

  lemma BeatTimes(env: Env, n: Node)
    ensures Beat(env, n).view == n.view && Beat(env, n).lastActivity == n.lastActivity
  {
    hide SignatureCount;
  }

  lemma TurnTimes(config: Config, n: Node, now: real)
    ensures var m := Turned(config, n, now);
            if now - n.lastActivity > config.electionTimeout then m.view == Successor(n.view) && m.lastActivity == now
            else m.view == n.view && m.lastActivity == n.lastActivity
  {
    hide Prune;
    PruneFrame(config, n, now);
  }

  /** Every turn gets its full time: after one tick has ended a turn, the next tick ends
      another only once the timeout has passed again. */
  lemma TurnLasts(env: Env, config: Config, n: Node, s: real, t: real)
    requires s - n.lastActivity > config.electionTimeout && t - s <= config.electionTimeout
    ensures Step(env, config, Step(env, config, n, ClockTick, s), ClockTick, t).view == Successor(n.view)
  {
    hide Step;
    TickTurns(env, config, n, s);
    TickTurns(env, config, Step(env, config, n, ClockTick, s), t);
  }

  /** A node that starts has nothing waiting, reserved, held, signed or queued and knows no
      peer; its clock starts now, and no request counts as sent. */
  lemma StartsClean(env: Env, me: Identity, stored: Ledger, now: real)
    ensures var n := Start(env, me, stored, now);
            && n.me == me && n.lastActivity == now && n.lastSync == 0.0
            && n.pending.Keys == {} && n.proposed == {} && n.proposals.Keys == {} && n.signatures.Keys == {} && n.signed == {}
            && n.peers == {} && n.peerSeen.Keys == {} && n.pendingCommits.Keys == {} && n.forkAlerts == {} && n.rejects == [] && n.outgoing == []
            && (if stored == [] then n.view == 1 else n.chain == stored && n.view == Successor(stored[|stored| - 1].proposal.epoch))
  {
    hide AppendOk, ClaimIds;
  }
}
