/** The node's handlers as functions from state to state. Handlers run under one lock, so
    each is one atomic step; the time a handler reads is an argument. */
module Protocol {
  import opened Models
  import opened Chain
  import opened Validation
  import opened Committee
  import Tables
  import Sets
  import Text

  const MAX_PENDING_CLAIMS: nat := 4096
  const MAX_PENDING_COMMITS: nat := 1024
  const MAX_RECENT_COMMIT_REJECTS: nat := 512

  datatype Identity = Identity(id: string, publicKey: string, sign: string -> string)

  datatype Share = Share(proposalHash: string, height: int, epoch: int, nodeId: string, publicKey: string, signature: string)

  datatype Message =
    | ClaimGossip(signed: SignedClaim)
    | ProposalMessage(proposal: Proposal)
    | ShareMessage(share: Share)
    | CommitMessage(checkpoint: Checkpoint)
    | Heartbeat(nodeId: string, height: int, blockHash: string, epoch: int, sealedBy: string, weight: int)
    | SyncRequest(nodeId: string, fromHeight: int)
    | SyncResponse(nodeId: string, blocks: seq<Checkpoint>)
    | ForkAlert(nodeId: string, height: int, hashA: string, hashB: string)

  type Shares = map<string, Share>

  datatype Node = Node(
    me: Identity,
    chain: Ledger,
    pending: map<string, SignedClaim>,
    committed: set<string>,
    proposed: set<string>,
    proposals: map<string, Proposal>,
    signatures: map<string, Shares>,
    signed: set<string>,
    view: Int64,
    lastActivity: real,
    peers: set<string>,
    peerSeen: map<string, real>,
    pendingCommits: map<int, Checkpoint>,
    forkAlerts: set<string>,
    rejects: seq<string>,
    lastSync: real,
    outgoing: seq<Message>)

  // ------------------------------------------------------------------- committee

  function MembersOf(config: Config, n: Node): (r: set<string>)
    ensures n.me.id in r
  { Members(config, n.me.id, n.peers, n.chain) }

  ghost function SealerFor(env: Env, config: Config, n: Node, view: int): string {
    Sealer(env, n.chain, MembersOf(config, n), view)
  }

  function Quorum(config: Config, n: Node): (q: nat)
    ensures q >= 1
  { QuorumSize(config.byzantine, MembersOf(config, n)) }

  // ---------------------------------------------------------------- small steps

  predicate SyncDue(config: Config, n: Node, now: real) {
    !(config.syncInterval > 0.0 && now - n.lastSync < config.syncInterval)
  }

  function RequestSync(config: Config, n: Node, from: int, now: real): Node {
    if SyncDue(config, n, now)
    then n.(lastSync := now, outgoing := n.outgoing + [SyncRequest(n.me.id, from)])
    else n
  }

  function ShareFor(env: Env, n: Node, p: Proposal): Share {
    var h := env.proposalHash(p);
    Share(h, p.height, p.epoch, n.me.id, n.me.publicKey, n.me.sign(h))
  }

  function SharesOf(n: Node, hash: string): Shares { if hash in n.signatures then n.signatures[hash] else map[] }

  function AddOwnSignature(env: Env, n: Node, p: Proposal): Node {
    var h := env.proposalHash(p);
    var share := ShareFor(env, n, p);
    n.(signatures := n.signatures[h := SharesOf(n, h)[n.me.id := share]],
       signed := n.signed + {h},
       outgoing := n.outgoing + [ShareMessage(share)])
  }

  function ProposalIds(p: Proposal): set<string> { IdsTo(p.claims, |p.claims|) }

  /** A proposal taken up: remembered, its claims reserved, signed. */
  function TakeUp(env: Env, n: Node, p: Proposal, now: real): Node {
    var h := env.proposalHash(p);
    var taken := n.(proposals := n.proposals[h := p],
                    signatures := n.signatures[h := SharesOf(n, h)],
                    proposed := n.proposed + ProposalIds(p),
                    pending := n.pending - ProposalIds(p));
    AddOwnSignature(env, taken, p).(lastActivity := now)
  }

  // --------------------------------------------------------------------- commit

  /** Every claim is in the ledger, by id or sequence number, or the height is covered. */
  predicate AlreadyCommitted(chain: Ledger, b: Checkpoint) {
    b.Height() <= |chain| - 1 ||
    forall i :: 0 <= i < |BlockClaims(b)| ==> Tables.ClashesWith(Claims(chain), BlockClaims(b)[i])
  }

  function Committed(env: Env, n: Node, b: Checkpoint, now: real): Node {
    var h := env.proposalHash(b.proposal);
    n.(chain := n.chain + [b],
       pending := n.pending - BlockIds(b),
       proposed := n.proposed - BlockIds(b),
       committed := n.committed + BlockIds(b),
       proposals := n.proposals - {h},
       signatures := n.signatures - {h},
       view := if Successor(b.Epoch()) > n.view then Successor(b.Epoch()) else n.view,
       lastActivity := now,
       outgoing := n.outgoing + [CommitMessage(b)])
  }

  /** A refused append is swallowed: a known block only tidies up, any other asks for a
      sync. */
  function Refused(config: Config, n: Node, b: Checkpoint, now: real): Node {
    if AlreadyCommitted(n.chain, b) then
      n.(pending := n.pending - BlockIds(b),
         proposed := n.proposed - BlockIds(b),
         committed := n.committed + BlockIds(b) * ClaimIds(n.chain))
    else RequestSync(config, n, b.Height() - 1, now)
  }

  function CommitLocal(env: Env, config: Config, n: Node, b: Checkpoint, now: real): Node {
    if n.chain != [] && b.Height() <= |n.chain| - 1 then n
    else if AppendOk(env, n.chain, b) then Committed(env, n, b, now)
    else Refused(config, n, b, now)
  }

  const NO_WEIGHT: string -> real := _ => 0.0

  function SignatureOf(s: Share): QuorumSignature { QuorumSignature(s.nodeId, s.publicKey, s.signature) }

  /** The shares in signer order. */
  ghost function SortedSignatures(shares: Shares): (r: seq<QuorumSignature>)
    ensures |r| == |shares|
  {
    var ids := Text.Ranked(NO_WEIGHT, shares.Keys);
    assert forall i :: 0 <= i < |ids| ==> ids[i] in Text.Elements(ids);
    seq(|ids|, i requires 0 <= i < |ids| => SignatureOf(shares[ids[i]]))
  }

  /** The block a quorum of shares seals, with the quorum frozen. */
  ghost function Sealed(config: Config, n: Node, p: Proposal, shares: Shares): Checkpoint {
    Checkpoint(p, SortedSignatures(shares), Quorum(config, n))
  }

  ghost function MaybeCommit(env: Env, config: Config, n: Node, p: Proposal, now: real): Node {
    var shares := SharesOf(n, env.proposalHash(p));
    if |shares| < Quorum(config, n) then n
    else
      var b := Sealed(config, n, p, shares);
      if ValidateCheckpoint(env, config.flopsTolerance, b, n.chain, n.committed, false).Failed? then n
      else CommitLocal(env, config, n, b, now)
  }

  // ---------------------------------------------------------- claims and proposals

  /** Past the bound, entries are dropped in whatever order the map yields them:
      `victims` are the ones that go. */
  function OnClaims(env: Env, n: Node, s: SignedClaim, victims: set<string>): Node {
    var id := s.claim.claimId;
    if !env.claimVerifies(s) || id in n.pending || id in n.committed || id in n.proposed then n
    else
      var grown := n.pending[id := s];
      n.(pending := if |grown| > MAX_PENDING_CLAIMS then grown - victims else grown)
  }

  function SubmitClaim(env: Env, config: Config, n: Node, s: SignedClaim): Node {
    var id := s.claim.claimId;
    if s.claim.nodeId != n.me.id || !env.claimVerifies(s) || !env.plausible(s.claim, config.flopsTolerance) then n
    else if id in n.pending || id in n.committed then n
    else n.(pending := n.pending[id := s], outgoing := n.outgoing + [ClaimGossip(s)])
  }

  ghost function OnProposal(env: Env, config: Config, n: Node, p: Proposal, now: real): Node {
    var h := env.proposalHash(p);
    if h in n.proposals || h in n.signed then n
    else if n.chain != [] && p.height <= |n.chain| - 1 then n
    else if p.sealedBy != SealerFor(env, config, n, p.epoch) then n
    else if ValidateProposal(env, config.flopsTolerance, p, n.chain, n.committed, false).Failed? then n
    else
      var taken := TakeUp(env, n, p, now);
      if SealerFor(env, config, taken, taken.view) == n.me.id then MaybeCommit(env, config, taken, p, now) else taken
  }

  ghost function OnSignature(env: Env, config: Config, n: Node, s: Share, now: real): Node {
    if !env.shareVerifies(s.signature, s.publicKey, s.proposalHash) || s.proposalHash !in n.proposals then n
    else
      var noted := n.(signatures := n.signatures[s.proposalHash := SharesOf(n, s.proposalHash)[s.nodeId := s]]);
      MaybeCommit(env, config, noted, n.proposals[s.proposalHash], now)
  }

  /** Claims waiting and neither committed nor reserved, in id order. */
  ghost function Candidates(n: Node): seq<SignedClaim> {
    var ids := set id | id in n.pending && id !in n.committed && id !in n.proposed;
    var ranked := Text.Ranked(NO_WEIGHT, ids);
    assert forall i :: 0 <= i < |ranked| ==> ranked[i] in Text.Elements(ranked);
    seq(|ranked|, i requires 0 <= i < |ranked| => n.pending[ranked[i]])
  }

  /** `stamp` is the wall-clock text put into the proposal. */
  ghost function OwnProposal(env: Env, n: Node, stamp: string): Proposal {
    Proposal(n.view, |n.chain|, TipHash(env, n.chain), n.me.id, Candidates(n), stamp)
  }

  predicate Outstanding(n: Node, height: int) {
    exists h :: h in n.proposals && n.proposals[h].height == height
  }

  ghost predicate Proposes(env: Env, config: Config, n: Node, stamp: string) {
    && SealerFor(env, config, n, n.view) == n.me.id
    && n.chain != []
    && !Outstanding(n, |n.chain|)
    && Candidates(n) != []
    && ValidateProposal(env, config.flopsTolerance, OwnProposal(env, n, stamp), n.chain, {}, false).Passed?
  }

  ghost function ProposeInternal(env: Env, config: Config, n: Node, now: real, stamp: string): Node {
    if !Proposes(env, config, n, stamp) then n
    else
      var p := OwnProposal(env, n, stamp);
      var taken := TakeUp(env, n, p, now);
      MaybeCommit(env, config, taken.(outgoing := taken.outgoing + [ProposalMessage(p)]), p, now)
  }

  // --------------------------------------------------------------- queued commits

  ghost predicate IsLowest(s: set<int>, k: int) { k in s && forall j :: j in s ==> k <= j }

  lemma {:induction false} LowestExists(s: set<int>) returns (k: int)
    requires |s| > 0
    ensures IsLowest(s, k)
  {
    Sets.SomeInt(s);
    var x :| x in s;
    var rest := s - {x};
    if |rest| == 0 {
      assert forall j :: j in s ==> j == x || j in rest;
      k := x;
    } else {
      var j := LowestExists(rest);
      k := if j < x then j else x;
      assert forall i :: i in s ==> i == x || i in rest;
    }
  }

  ghost function Lowest(s: set<int>): (k: int)
    requires |s| > 0
    ensures IsLowest(s, k)
  {
    assert exists k :: IsLowest(s, k) by { var k := LowestExists(s); }
    var k :| IsLowest(s, k);
    k
  }

  ghost function Ascending(s: set<int>): (r: seq<int>)
    decreases |s|
  {
    if |s| == 0 then [] else [Lowest(s)] + Ascending(s - {Lowest(s)})
  }

  ghost function TrimLowest(m: map<int, Checkpoint>): map<int, Checkpoint>
    decreases |m|
  {
    if |m| <= MAX_PENDING_COMMITS then m
    else
      assert |m - {Lowest(m.Keys)}| < |m| by { assert (m - {Lowest(m.Keys)}).Keys == m.Keys - {Lowest(m.Keys)}; }
      TrimLowest(m - {Lowest(m.Keys)})
  }

  /** At most the bound is kept, and it is the highest heights that are. */
  lemma {:induction false} TrimKeepsHighest(m: map<int, Checkpoint>)
    ensures var r := TrimLowest(m);
            && |r| == (if |m| > MAX_PENDING_COMMITS then MAX_PENDING_COMMITS else |m|)
            && (forall h :: h in r ==> h in m && r[h] == m[h])
            && (forall h, k :: h in r && k in m && k !in r ==> k < h)
    decreases |m|
  {
    if |m| > MAX_PENDING_COMMITS {
      var low := Lowest(m.Keys);
      var rest := m - {low};
      assert rest.Keys == m.Keys - {low};
      TrimKeepsHighest(rest);
    }
  }

  ghost function QueueCommit(n: Node, b: Checkpoint): Node {
    n.(pendingCommits := TrimLowest(n.pendingCommits[b.Height() := b]))
  }

  ghost function FlushOne(env: Env, config: Config, n: Node, height: int, now: real): Node {
    if height != |n.chain| || height !in n.pendingCommits then n
    else
      var b := n.pendingCommits[height];
      var popped := n.(pendingCommits := n.pendingCommits - {height});
      if ValidateCheckpoint(env, config.flopsTolerance, b, n.chain, {}, false).Passed?
      then CommitLocal(env, config, popped, b, now)
      else popped
  }

  ghost function FlushList(env: Env, config: Config, n: Node, heights: seq<int>, now: real): Node {
    if heights == [] then n
    else FlushOne(env, config, FlushList(env, config, n, heights[..|heights| - 1], now), heights[|heights| - 1], now)
  }

  /** Queued commits in height order, each applied if it has become the next one. */
  ghost function Flush(env: Env, config: Config, n: Node, now: real): Node {
    if n.chain == [] then n else FlushList(env, config, n, Ascending(n.pendingCommits.Keys), now)
  }

  // -------------------------------------------------------------------- on_commit

  function NoteReject(n: Node, hash: string): Node {
    if hash in n.rejects then n
    else
      var r := n.rejects + [hash];
      n.(rejects := if |r| > MAX_RECENT_COMMIT_REJECTS then r[|r| - MAX_RECENT_COMMIT_REJECTS..] else r)
  }

  /** A commit at or below the head: at most a fork alert, and a sync when the other
      block wins the tie-break. */
  function OldCommit(env: Env, config: Config, n: Node, b: Checkpoint, now: real): Node
    requires n.chain != []
  {
    var mine := TipHash(env, n.chain);
    if b.Height() == |n.chain| - 1 && mine != env.Hash(b) then
      var alerted := n.(outgoing := n.outgoing + [ForkAlert(n.me.id, b.Height(), mine, env.Hash(b))]);
      if Text.Less(env.Hash(b), mine) then RequestSync(config, alerted, -1, now) else alerted
    else n
  }

  /** The next block: validated with the committed ids noted, appended, queue flushed. */
  ghost function NextCommit(env: Env, config: Config, n: Node, b: Checkpoint, now: real): Node {
    if env.Hash(b) in n.rejects then n
    else
      var v := ValidateCheckpoint(env, config.flopsTolerance, b, n.chain, n.committed, false);
      if v.Failed? then NoteReject(n, env.Hash(b))
      else Flush(env, config, CommitLocal(env, config, n.(committed := v.seen), b, now), now)
  }

  ghost function OnCommit(env: Env, config: Config, n: Node, b: Checkpoint, now: real): Node {
    if n.chain != [] && b.Height() <= |n.chain| - 1 then OldCommit(env, config, n, b, now)
    else if n.chain == [] && b.Height() != 0 then RequestSync(config, QueueCommit(n, b), -1, now)
    else if b.Height() > |n.chain| then RequestSync(config, QueueCommit(n, b), |n.chain| - 1, now)
    else if n.chain != [] && b.proposal.prevHash != TipHash(env, n.chain) then RequestSync(config, n, -1, now)
    else NextCommit(env, config, n, b, now)
  }

  // ------------------------------------------------------------------------ sync

  /** The blocks above a height, as the store hands them out. */
  function BlocksAbove(chain: Ledger, from: int): seq<Checkpoint> {
    if from + 1 >= |chain| then [] else if from < 0 then Served(chain) else Served(chain)[from + 1..]
  }

  function OnSyncRequest(n: Node, requester: string, from: int): Node {
    if requester == n.me.id || BlocksAbove(n.chain, from) == [] then n
    else n.(outgoing := n.outgoing + [SyncResponse(n.me.id, BlocksAbove(n.chain, from))])
  }

  ghost function OnCommits(env: Env, config: Config, n: Node, blocks: seq<Checkpoint>, now: real): Node {
    if blocks == [] then n
    else OnCommit(env, config, OnCommits(env, config, n, blocks[..|blocks| - 1], now), blocks[|blocks| - 1], now)
  }

  // ------------------------------------------------------------------- reconcile

  function InsertByHeight(b: Checkpoint, sorted: seq<Checkpoint>): seq<Checkpoint> {
    if sorted == [] || b.Height() < sorted[0].Height() then [b] + sorted
    else [sorted[0]] + InsertByHeight(b, sorted[1..])
  }

  /** Stable sort by height, last element inserted last. */
  function SortByHeight(blocks: seq<Checkpoint>): seq<Checkpoint> {
    if blocks == [] then [] else InsertByHeight(blocks[|blocks| - 1], SortByHeight(blocks[..|blocks| - 1]))
  }

  function Above(blocks: seq<Checkpoint>, height: int): seq<Checkpoint> {
    if blocks == [] then []
    else Above(blocks[..|blocks| - 1], height) + (if blocks[|blocks| - 1].Height() > height then [blocks[|blocks| - 1]] else [])
  }

  /** Taller wins; at equal height the smaller head hash. */
  predicate Wins(env: Env, chain: Ledger, tip: Checkpoint) {
    tip.Height() > |chain| - 1 ||
    (tip.Height() == |chain| - 1 && (chain == [] || Text.Less(env.Hash(tip), TipHash(env, chain))))
  }

  /** Each block one above the last and chained off it. */
  predicate Chained(env: Env, prev: string, height: int, incoming: seq<Checkpoint>)
    decreases |incoming|
  {
    incoming == [] ||
    (&& incoming[0].Height() == height
     && incoming[0].proposal.prevHash == prev
     && Chained(env, env.Hash(incoming[0]), height + 1, incoming[1..]))
  }

  /** Appends, in order, each block whose height the ledger lacks; refusals are ignored. */
  function AppendMissing(env: Env, chain: Ledger, bs: seq<Checkpoint>): Ledger {
    if bs == [] then chain
    else
      var c := AppendMissing(env, chain, bs[..|bs| - 1]);
      var b := bs[|bs| - 1];
      if GetBlock(c, b.Height()).None? then Append(env, c, b) else c
  }

  /** The ledger after a failed reorg put the saved blocks back. */
  function Restored(env: Env, chain: Ledger, saved: seq<Checkpoint>, applied: nat, ancestor: int): Ledger {
    var first := if applied <= |saved| then saved[..applied] else saved;
    AppendMissing(env, Rollback(AppendMissing(env, chain, first), ancestor), saved)
  }

  function Restore(env: Env, n: Node, saved: seq<Checkpoint>, applied: nat, ancestor: int): Node {
    var chain := Restored(env, n.chain, saved, applied, ancestor);
    n.(chain := chain, committed := ClaimIds(chain))
  }

  /** Applies the incoming blocks from index `i` on. */
  function Apply(env: Env, config: Config, n: Node, incoming: seq<Checkpoint>, i: nat, saved: seq<Checkpoint>, ancestor: int, now: real): Node
    requires i <= |incoming|
    decreases |incoming| - i
  {
    if i == |incoming| then n.(committed := ClaimIds(n.chain))
    else if ValidateCheckpoint(env, config.flopsTolerance, incoming[i], n.chain, {}, false).Failed?
    then Restore(env, n, saved, i, ancestor)
    else Apply(env, config, CommitLocal(env, config, n, incoming[i], now), incoming, i + 1, saved, ancestor, now)
  }

  function RolledBack(n: Node, ancestor: int): Node {
    if ancestor < |n.chain| - 1 then
      n.(chain := Rollback(n.chain, ancestor),
         pendingCommits := map h | h in n.pendingCommits && h <= ancestor :: n.pendingCommits[h])
    else n
  }

  function Saved(chain: Ledger, ancestor: int): seq<Checkpoint>
    requires -1 <= ancestor < |chain|
  { Served(chain)[ancestor + 1..] }

  predicate Declined(env: Env, chain: Ledger, blocks: seq<Checkpoint>) {
    blocks == [] || !Wins(env, chain, blocks[|blocks| - 1]) ||
    var a := CommonAncestor(env, chain, blocks);
    !Chained(env, TipHash(env, chain[..a + 1]), a + 1, Above(blocks, a))
  }

  function Reconcile(env: Env, config: Config, n: Node, peer: seq<Checkpoint>, now: real): Node {
    var blocks := SortByHeight(peer);
    if Declined(env, n.chain, blocks) then n
    else
      var a := CommonAncestor(env, n.chain, blocks);
      Apply(env, config, RolledBack(n, a), Above(blocks, a), 0, Saved(n.chain, a), a, now)
  }

  predicate HasGenesisHeight(blocks: seq<Checkpoint>) {
    exists i :: 0 <= i < |blocks| && blocks[i].Height() == 0
  }

  ghost function OnSyncResponse(env: Env, config: Config, n: Node, blocks: seq<Checkpoint>, now: real): Node {
    if HasGenesisHeight(blocks) then Reconcile(env, config, n, blocks, now) else OnCommits(env, config, n, blocks, now)
  }

  // ----------------------------------------------------------- peers and the clock

  /** A taller peer is asked for what is missing; a different head at the same height
      raises an alert. */
  function CompareHeads(env: Env, config: Config, n: Node, height: int, hash: string, now: real): Node {
    if n.chain == [] then RequestSync(config, n, -1, now)
    else if height > |n.chain| - 1 then RequestSync(config, n, |n.chain| - 1, now)
    else if height == |n.chain| - 1 && hash != TipHash(env, n.chain) then
      n.(outgoing := n.outgoing + [ForkAlert(n.me.id, height, TipHash(env, n.chain), hash)])
    else n
  }

  function OnHeartbeat(env: Env, config: Config, n: Node, from: string, height: int, hash: string, now: real): Node {
    if from == n.me.id then n
    else CompareHeads(env, config, n.(peers := n.peers + {from}, peerSeen := n.peerSeen[from := now]), height, hash, now)
  }

  function OnFork(n: Node, hashA: string, hashB: string): Node { n.(forkAlerts := n.forkAlerts + {hashA + hashB}) }

  function Prune(config: Config, n: Node, now: real): Node {
    if config.peerStaleAfter <= 0.0 then n
    else n.(peers := set p | p in n.peers && (p !in n.peerSeen || n.peerSeen[p] > now - config.peerStaleAfter))
  }

  function SignatureCount(chain: Ledger): int {
    if chain == [] then 0 else SignatureCount(chain[..|chain| - 1]) + |chain[|chain| - 1].signatures|
  }

  function Beat(env: Env, n: Node): Node {
    if n.chain == [] then n
    else
      var head := n.chain[|n.chain| - 1];
      n.(outgoing := n.outgoing + [Heartbeat(n.me.id, head.Height(), env.Hash(head), head.Epoch(), head.proposal.sealedBy, SignatureCount(n.chain))])
  }

  /** Peers pruned, and a silent sealer's turn over after the election timeout. */
  function Turned(config: Config, n: Node, now: real): Node {
    var pruned := Prune(config, n, now);
    if now - pruned.lastActivity > config.electionTimeout
    then pruned.(view := Successor(pruned.view), lastActivity := now) else pruned
  }

  function Tick(env: Env, config: Config, n: Node, now: real): Node { Beat(env, Turned(config, n, now)) }

  // ------------------------------------------------------------------------- runs

  datatype Event =
    | ClaimIn(signed: SignedClaim, victims: set<string>)
    | Submit(signed: SignedClaim)
    | ProposalIn(proposal: Proposal)
    | ShareIn(share: Share)
    | CommitIn(checkpoint: Checkpoint)
    | HeartbeatIn(from: string, height: int, hash: string)
    | ForkIn(hashA: string, hashB: string)
    | SyncRequestIn(requester: string, fromHeight: int)
    | SyncResponseIn(blocks: seq<Checkpoint>)
    | ClockTick
    | Propose(stamp: string)

  /** One handler run to its end; `outgoing` holds what it emits. */
  ghost function Step(env: Env, config: Config, before: Node, e: Event, now: real): Node {
    var n := before.(outgoing := []);
    match e
    case ClaimIn(s, victims) => OnClaims(env, n, s, victims)
    case Submit(s) => SubmitClaim(env, config, n, s)
    case ProposalIn(p) => OnProposal(env, config, n, p, now)
    case ShareIn(s) => OnSignature(env, config, n, s, now)
    case CommitIn(b) => OnCommit(env, config, n, b, now)
    case HeartbeatIn(from, height, hash) => OnHeartbeat(env, config, n, from, height, hash, now)
    case ForkIn(a, b) => OnFork(n, a, b)
    case SyncRequestIn(requester, from) => OnSyncRequest(n, requester, from)
    case SyncResponseIn(blocks) => OnSyncResponse(env, config, n, blocks, now)
    case ClockTick => Tick(env, config, n, now)
    case Propose(stamp) => ProposeInternal(env, config, n, now, stamp)
  }

  /** A node started on a stored ledger; an empty one gets the genesis block. */
  function Start(env: Env, me: Identity, stored: Ledger, now: real): Node {
    var chain := if stored == [] then Append(env, stored, GENESIS) else stored;
    Node(me, chain, map[], ClaimIds(stored), {}, map[], map[], {},
         if stored == [] then 1 else Successor(stored[|stored| - 1].Epoch()),
         now, {}, map[], map[], {}, [], 0.0, [])
  }
}
