/** The node as it runs: fields updated in place by the handlers, each proved to do what
    the step function of the same name says. */
module NodeState {
  import opened Models
  import opened Chain
  import opened Validation
  import opened Committee
  import opened Store
  import opened Checks
  import opened Steps
  import opened Protocol
  import Text

  lemma RecentStep(chain: Ledger, h: nat, left: nat, m: set<string>)
    requires h < |chain| && left > 0
    ensures m + Recent(chain[..h + 1], left) == (m + BlockMembers(Reconstruct(chain[h]))) + Recent(chain[..h], left - 1)
  {
    hide BlockMembers;
    assert chain[..h + 1][..h] == chain[..h] && chain[..h + 1][h] == chain[h];
    assert BlockMembers(chain[h]) == BlockMembers(Reconstruct(chain[h])) by { MembersRead(chain[h]); }
  }

  lemma MembersRead(b: Checkpoint)
    ensures BlockMembers(b) == BlockMembers(Reconstruct(b))
  {
  }

  lemma RecentNone(chain: Ledger, left: nat)
    requires chain == [] || left == 0
    ensures Recent(chain, left) == {}
  {
  }

  /** Signing touches the shares, the list of signed proposals and the outbox. */
  lemma SignatureFrame(env: Env, n: Node, p: Proposal)
    ensures var m := Protocol.AddOwnSignature(env, n, p);
            m == n.(signatures := m.signatures, signed := m.signed, outgoing := m.outgoing)
  {
  }

  lemma LessBoth<T>(m: map<string, T>, s: set<string>, a: set<string>, x: string)
    ensures m - a - {x} == m - (a + {x}) && s - a - {x} == s - (a + {x})
  {
  }

  lemma LessIs(m: map<string, SignedClaim>, gone: set<string>)
    ensures m - gone == m - (m.Keys - (m - gone).Keys)
  {
  }

  lemma DropOne(m: map<string, SignedClaim>, id: string)
    requires id in m
    ensures |m - {id}| == |m| - 1
  {
    assert (m - {id}).Keys == m.Keys - {id};
  }

  lemma IdsMeet(cs: seq<SignedClaim>, i: nat, s: set<string>)
    requires i < |cs|
    ensures IdsTo(cs, i + 1) * s == IdsTo(cs, i) * s + (if cs[i].claim.claimId in s then {cs[i].claim.claimId} else {})
  {
  }

  lemma StoreKnows(store: ChainStore, b: Checkpoint)
    requires store.Valid()
    ensures store.AlreadyCommitted(b) <==> Protocol.AlreadyCommitted(store.Contents(), b)
  {
    hide TablesOk, Claims, ChainStore.AlreadyCommitted;
    AlreadyCommittedIs(store, b);
  }

  class ProtocolState {
    const env: Env
    const config: Config
    const me: Identity
    const store: ChainStore

    var pending: map<string, SignedClaim>
    var committed: set<string>
    var proposed: set<string>
    var proposals: map<string, Proposal>
    var signatures: map<string, Shares>
    var signed: set<string>
    var view: Int64
    var lastActivity: real
    var peers: set<string>
    var peerSeen: map<string, real>
    var pendingCommits: map<int, Checkpoint>
    var forkAlerts: set<string>
    var rejects: seq<string>
    var lastSync: real
    var outgoing: seq<Message>

    ghost predicate Valid()
      reads this, store
    { store.Valid() && store.env == env }

    ghost function Abs(): Node
      requires Valid()
      reads this, store
    {
      Node(me, store.Contents(), pending, committed, proposed, proposals, signatures, signed, view, lastActivity, peers, peerSeen,
           pendingCommits, forkAlerts, rejects, lastSync, outgoing)
    }

    /** Opens a node on its store; an empty one gets the genesis block. */
    constructor (config: Config, me: Identity, store: ChainStore, now: real)
      requires store.Valid()
      modifies store
      ensures Valid() && this.store == store && this.config == config && this.me == me && env == store.env
      ensures Abs() == Start(store.env, me, old(store.Contents()), now)
    {
      hide TablesOk, ChainStore.Valid, ChainStore.Contents, ChainStore.Height, AppendOk, ClaimIds;
      HeadIs(store);
      this.config, this.me, this.store, this.env := config, me, store, store.env;
      pending, proposed, proposals, signatures, signed := map[], {}, map[], map[], {};
      committed := store.AllClaimIds();
      view := 1;
      lastActivity, lastSync := now, 0.0;
      peers, peerSeen, pendingCommits, forkAlerts, rejects, outgoing := {}, map[], map[], {}, [], [];
      if store.Height() != -1 {
        view := Successor(store.Head().value.Epoch());
      }
      new;
      if store.Height() == -1 {
        var ok := store.Append(GENESIS);
      }
    }

    // ------------------------------------------------------------------- committee

    method CommitteeMembers() returns (m: set<string>)
      requires Valid()
      ensures m == MembersOf(config, Abs())
    {
      hide TablesOk, ChainStore.Valid, ChainStore.Contents, ChainStore.Height, Recent, BlockMembers;
      HeadIs(store);
      m := {me.id};
      ghost var chain := store.Contents();
      var h := store.Height();
      var window := if config.activePeerWindow < 0 then store.Height() + 1 else config.activePeerWindow;
      var left := window;
      assert chain[..h + 1] == chain;
      ghost var all := {me.id} + Recent(chain, window);
      while h >= 0 && left > 0
        invariant -1 <= h < |chain| && left >= 0
        invariant m + Recent(chain[..h + 1], left) == all
      {
        RecentStep(chain, h, left, m);
        var b := store.BlockAt(h).value;
        ghost var before := m;
        m := AddBlockMembers(m, b);
        h := h - 1;
        left := left - 1;
      }
      RecentNone(chain[..h + 1], left);
      m := m + peers;
    }

    static method AddBlockMembers(members: set<string>, b: Checkpoint) returns (m: set<string>)
      ensures m == members + BlockMembers(b)
    {
      m := members;
      if b.proposal.sealedBy != GENESIS_SEALER { m := m + {b.proposal.sealedBy}; }
      ghost var before := m;
      var i := 0;
      while i < |b.signatures|
        invariant i <= |b.signatures| && m == before + SignersTo(b.signatures, i)
      {
        m := m + {b.signatures[i].nodeId};
        i := i + 1;
      }
    }

    method SealerForView(v: int) returns (id: string)
      requires Valid()
      ensures id == SealerFor(env, config, Abs(), v)
    {
      hide TablesOk, ChainStore.Valid, ChainStore.Contents, MembersOf, Text.Ranked;
      var members := CommitteeMembers();
      var weights := WeighMembers(members);
      var weight := (x: string) => if x in weights then weights[x] else 0.0;
      Text.RankedAgree(weight, Weight(env, store.Contents()), members);
      var ranked := Text.Rank(weight, members);
      id := ranked[v % |ranked|];
    }

    /** What each member has contributed, read from the claims table. */
    method WeighMembers(members: set<string>) returns (weights: map<string, real>)
      requires Valid()
      ensures weights.Keys == members && forall x :: x in members ==> weights[x] == NodeUnits(env, store.Contents(), x)
    {
      hide TablesOk, ChainStore.Valid, ChainStore.Contents, NodeUnits;
      weights := map[];
      var left := members;
      while left != {}
        invariant left <= members && weights.Keys == members - left
        invariant forall x :: x in weights ==> weights[x] == NodeUnits(env, store.Contents(), x)
        decreases left
      {
        var x :| x in left;
        var total := store.TotalFor(x);
        weights := weights[x := total];
        left := left - {x};
      }
    }

    method QuorumSize() returns (q: nat)
      requires Valid()
      ensures q == Quorum(config, Abs())
    {
      hide TablesOk, ChainStore.Valid, ChainStore.Contents, MembersOf;
      var members := CommitteeMembers();
      var n := if |members| == 0 then 1 else |members|;
      q := if config.byzantine then 2 * ((n - 1) / 3) + 1 else n / 2 + 1;
    }

    // ------------------------------------------------------------------ small steps

    method RequestSync(from: int, now: real)
      requires Valid()
      modifies this`lastSync, this`outgoing
      ensures Valid() && Abs() == Protocol.RequestSync(config, old(Abs()), from, now)
    {
      hide TablesOk, ChainStore.Valid, ChainStore.Contents;
      if config.syncInterval > 0.0 && now - lastSync < config.syncInterval { return; }
      lastSync := now;
      outgoing := outgoing + [SyncRequest(me.id, from)];
    }

    method AddOwnSignature(p: Proposal)
      requires Valid()
      modifies this`signatures, this`signed, this`outgoing
      ensures var m := Protocol.AddOwnSignature(env, old(Abs()), p);
              signatures == m.signatures && signed == m.signed && outgoing == m.outgoing
    {
      hide TablesOk, ChainStore.Valid, ChainStore.Contents;
      var h := env.proposalHash(p);
      var share := Share(h, p.height, p.epoch, me.id, me.publicKey, me.sign(h));
      var shares := if h in signatures then signatures[h] else map[];
      signatures := signatures[h := shares[me.id := share]];
      signed := signed + {h};
      outgoing := outgoing + [ShareMessage(share)];
    }

    method TakeUp(p: Proposal, now: real)
      requires Valid()
      modifies this`proposals, this`signatures, this`proposed, this`pending, this`signed, this`outgoing, this`lastActivity
      ensures Valid() && Abs() == Protocol.TakeUp(env, old(Abs()), p, now)
    {
      hide TablesOk, ChainStore.Valid, ChainStore.Contents, Protocol.AddOwnSignature;
      var h := env.proposalHash(p);
      Enter(p, h);
      ghost var entered := Abs();
      AddOwnSignature(p);
      lastActivity := now;
      SignatureFrame(env, entered, p);
    }

    method Enter(p: Proposal, h: string)
      modifies this`proposals, this`signatures, this`proposed, this`pending
      ensures proposals == old(proposals)[h := p]
      ensures signatures == old(signatures)[h := if h in old(signatures) then old(signatures)[h] else map[]]
      ensures proposed == old(proposed) + ProposalIds(p) && pending == old(pending) - ProposalIds(p)
    {
      proposals := proposals[h := p];
      if h !in signatures { signatures := signatures[h := map[]]; }
      Reserve(p.claims);
    }

    method Reserve(cs: seq<SignedClaim>)
      modifies this`proposed, this`pending
      ensures proposed == old(proposed) + IdsTo(cs, |cs|) && pending == old(pending) - IdsTo(cs, |cs|)
    {
      var i := 0;
      while i < |cs|
        invariant i <= |cs| && proposed == old(proposed) + IdsTo(cs, i) && pending == old(pending) - IdsTo(cs, i)
      {
        proposed := proposed + {cs[i].claim.claimId};
        pending := pending - {cs[i].claim.claimId};
        i := i + 1;
      }
    }

    // ----------------------------------------------------------------------- commit

    /** Claims of a block now in the ledger: no longer pending or reserved. */
    method MarkCommitted(b: Checkpoint)
      modifies this`proposed, this`pending, this`committed
      ensures proposed == old(proposed) - BlockIds(b) && pending == old(pending) - BlockIds(b)
      ensures committed == old(committed) + BlockIds(b)
    {
      hide BlockIds;
      var cs := b.proposal.claims;
      var i := 0;
      while i < |cs|
        invariant i <= |cs| && proposed == old(proposed) - IdsTo(cs, i) && pending == old(pending) - IdsTo(cs, i)
        invariant committed == old(committed) + IdsTo(cs, i)
      {
        LessBoth(old(pending), old(proposed), IdsTo(cs, i), cs[i].claim.claimId);
        pending := pending - {cs[i].claim.claimId};
        proposed := proposed - {cs[i].claim.claimId};
        committed := committed + {cs[i].claim.claimId};
        i := i + 1;
      }
      IdsToAll(cs, b);
    }

    /** Claims of a block the ledger has or cannot take: only those really in it count as
        committed. */
    method TidyUp(b: Checkpoint)
      requires Valid()
      modifies this`proposed, this`pending, this`committed
      ensures proposed == old(proposed) - BlockIds(b) && pending == old(pending) - BlockIds(b)
      ensures committed == old(committed) + BlockIds(b) * ClaimIds(store.Contents())
    {
      hide BlockIds, TablesOk, ChainStore.Valid, ChainStore.Contents, ClaimIds;
      var cs := b.proposal.claims;
      var i := 0;
      while i < |cs|
        invariant i <= |cs| && proposed == old(proposed) - IdsTo(cs, i) && pending == old(pending) - IdsTo(cs, i)
        invariant committed == old(committed) + IdsTo(cs, i) * ClaimIds(store.Contents())
      {
        LessBoth(old(pending), old(proposed), IdsTo(cs, i), cs[i].claim.claimId);
        pending := pending - {cs[i].claim.claimId};
        proposed := proposed - {cs[i].claim.claimId};
        IdsMeet(cs, i, ClaimIds(store.Contents()));
        if store.ClaimExists(cs[i].claim.claimId) { committed := committed + {cs[i].claim.claimId}; }
        i := i + 1;
      }
      IdsToAll(cs, b);
    }

    method CommitLocal(b: Checkpoint, now: real)
      requires Valid()
      modifies this, store
      ensures Valid() && Abs() == Protocol.CommitLocal(env, config, old(Abs()), b, now)
    {
      hide TablesOk, ChainStore.Valid, ChainStore.Contents, ChainStore.Height, AppendOk, Protocol.Committed, Protocol.Refused;
      HeadIs(store);
      var head := store.Head();
      if head.Some? && b.Height() <= head.value.Height() { return; }
      var ok := AppendBlock(b, now);
      if !ok { HandleRefusal(b, now); }
    }

    /** Appends with all the bookkeeping, or changes nothing. */
    method AppendBlock(b: Checkpoint, now: real) returns (ok: bool)
      requires Valid()
      modifies this, store
      ensures Valid() && (ok <==> AppendOk(env, old(store.Contents()), b))
      ensures Abs() == if ok then Protocol.Committed(env, old(Abs()), b, now) else old(Abs())
    {
      hide BlockIds, TablesOk, ChainStore.Valid, ChainStore.Contents, AppendOk;
      ok := store.Append(b);
      if ok { Settle(b, now); }
    }

    /** The bookkeeping after a successful append. */
    method Settle(b: Checkpoint, now: real)
      modifies this`proposed, this`pending, this`committed, this`proposals, this`signatures, this`view, this`lastActivity, this`outgoing
      ensures proposed == old(proposed) - BlockIds(b) && pending == old(pending) - BlockIds(b)
      ensures committed == old(committed) + BlockIds(b)
      ensures proposals == old(proposals) - {env.proposalHash(b.proposal)} && signatures == old(signatures) - {env.proposalHash(b.proposal)}
      ensures view == (if Successor(b.Epoch()) > old(view) then Successor(b.Epoch()) else old(view)) && lastActivity == now
      ensures outgoing == old(outgoing) + [CommitMessage(b)]
    {
      hide BlockIds;
      MarkCommitted(b);
      var h := env.proposalHash(b.proposal);
      proposals := proposals - {h};
      signatures := signatures - {h};
      var next := Successor(b.Epoch());
      view := if next > view then next else view;
      lastActivity := now;
      outgoing := outgoing + [CommitMessage(b)];
    }

    method HandleRefusal(b: Checkpoint, now: real)
      requires Valid()
      modifies this
      ensures Valid() && Abs() == Protocol.Refused(config, old(Abs()), b, now)
    {
      hide BlockIds, TablesOk, ChainStore.Valid, ChainStore.Contents, ClaimIds, Protocol.RequestSync, Protocol.AlreadyCommitted;
      StoreKnows(store, b);
      if store.AlreadyCommitted(b) {
        TidyUp(b);
      } else {
        RequestSync(b.Height() - 1, now);
      }
    }

    method MaybeCommit(p: Proposal, now: real)
      requires Valid()
      modifies this, store
      ensures Valid() && Abs() == Protocol.MaybeCommit(env, config, old(Abs()), p, now)
    {
      hide TablesOk, ChainStore.Valid, ChainStore.Contents, Protocol.CommitLocal, ValidateCheckpoint, Quorum, SortedSignatures;
      var h := env.proposalHash(p);
      var shares: Shares := if h in signatures then signatures[h] else map[];
      var q := QuorumSize();
      if |shares| < q { return; }
      var sigs := SortShares(shares);
      var b := Checkpoint(p, sigs, q);
      var fault, noted := CheckCheckpoint(config.flopsTolerance, b, store, committed, false);
      if fault.Some? { return; }
      CommitLocal(b, now);
    }

    // ---------------------------------------------------------- claims and proposals

    method OnClaims(s: SignedClaim) returns (ghost victims: set<string>)
      requires Valid()
      modifies this`pending
      ensures Valid() && Abs() == Protocol.OnClaims(env, old(Abs()), s, victims)
      ensures pending != old(pending) ==> |pending| <= MAX_PENDING_CLAIMS
    {
      hide TablesOk, ChainStore.Valid, ChainStore.Contents;
      victims := {};
      var id := s.claim.claimId;
      if !env.claimVerifies(s) { return; }
      if id in pending || id in committed || id in proposed { return; }
      var grown := pending[id := s];
      pending := Bounded(grown);
      victims := grown.Keys - pending.Keys;
    }

    /** Drops entries, whichever come first, until the bound holds. */
    static method Bounded(grown: map<string, SignedClaim>) returns (kept: map<string, SignedClaim>)
      ensures |kept| == if |grown| > MAX_PENDING_CLAIMS then MAX_PENDING_CLAIMS else |grown|
      ensures kept == grown - (grown.Keys - kept.Keys)
      ensures |grown| <= MAX_PENDING_CLAIMS ==> kept == grown
    {
      kept := grown;
      ghost var gone: set<string> := {};
      assert grown - {} == grown;
      while |kept| > MAX_PENDING_CLAIMS
        invariant kept == grown - gone && (|grown| <= MAX_PENDING_CLAIMS ==> kept == grown)
        invariant |grown| > MAX_PENDING_CLAIMS ==> |kept| >= MAX_PENDING_CLAIMS
        decreases |kept|
      {
        assert kept.Keys != {};
        var id :| id in kept.Keys;
        DropOne(kept, id);
        LessBoth(grown, {}, gone, id);
        kept := kept - {id};
        gone := gone + {id};
      }
      LessIs(grown, gone);
    }

    method SubmitClaim(s: SignedClaim) returns (accepted: bool)
      requires Valid()
      modifies this`pending, this`outgoing
      ensures Valid() && Abs() == Protocol.SubmitClaim(env, config, old(Abs()), s)
      ensures accepted <==> s.claim.nodeId == me.id && env.claimVerifies(s) && env.plausible(s.claim, config.flopsTolerance)
    {
      hide TablesOk, ChainStore.Valid, ChainStore.Contents;
      if s.claim.nodeId != me.id || !env.claimVerifies(s) || !env.plausible(s.claim, config.flopsTolerance) { return false; }
      accepted := true;
      if s.claim.claimId in pending || s.claim.claimId in committed { return; }
      pending := pending[s.claim.claimId := s];
      outgoing := outgoing + [ClaimGossip(s)];
    }

    method OnProposal(p: Proposal, now: real)
      requires Valid()
      modifies this, store
      ensures Valid() && Abs() == Protocol.OnProposal(env, config, old(Abs()), p, now)
    {
      hide TablesOk, ChainStore.Valid, ChainStore.Contents, ChainStore.Height, Protocol.MaybeCommit, Protocol.TakeUp, ValidateProposal, SealerFor;
      var h := env.proposalHash(p);
      if h in proposals || h in signed { return; }
      HeadIs(store);
      var head := store.Head();
      if head.Some? && p.height <= head.value.Height() { return; }
      var sealer := SealerForView(p.epoch);
      if p.sealedBy != sealer { return; }
      var fault, noted := CheckProposal(config.flopsTolerance, p, store, committed, false);
      if fault.Some? { return; }
      TakeUp(p, now);
      sealer := SealerForView(view);
      if sealer == me.id { MaybeCommit(p, now); }
    }

    method OnSignature(s: Share, now: real)
      requires Valid()
      modifies this, store
      ensures Valid() && Abs() == Protocol.OnSignature(env, config, old(Abs()), s, now)
    {
      hide TablesOk, ChainStore.Valid, ChainStore.Contents, Protocol.MaybeCommit;
      if !env.shareVerifies(s.signature, s.publicKey, s.proposalHash) { return; }
      if s.proposalHash !in proposals { return; }
      var shares: Shares := if s.proposalHash in signatures then signatures[s.proposalHash] else map[];
      signatures := signatures[s.proposalHash := shares[s.nodeId := s]];
      MaybeCommit(proposals[s.proposalHash], now);
    }

    method GatherClaims() returns (cs: seq<SignedClaim>)
      requires Valid()
      ensures cs == Candidates(Abs())
    {
      hide TablesOk, ChainStore.Valid, ChainStore.Contents;
      cs := SortClaims(pending, set id | id in pending && id !in committed && id !in proposed);
    }

    method ProposeInternal(now: real, stamp: string)
      requires Valid()
      modifies this, store
      ensures Valid() && Abs() == Protocol.ProposeInternal(env, config, old(Abs()), now, stamp)
    {
      hide TablesOk, ChainStore.Valid, ChainStore.Contents, ChainStore.Height, Protocol.MaybeCommit, Protocol.TakeUp, ValidateProposal,
        SealerFor, Candidates, TipHash;
      var sealer := SealerForView(view);
      if sealer != me.id { return; }
      HeadIs(store);
      var head := store.Head();
      if head.None? { return; }
      var height := head.value.Height() + 1;
      if exists h :: h in proposals && proposals[h].height == height { return; }
      var cs := GatherClaims();
      if cs == [] { return; }
      var p := Proposal(view, height, env.Hash(head.value), me.id, cs, stamp);
      var fault, noted := CheckProposal(config.flopsTolerance, p, store, {}, false);
      if fault.Some? { return; }
      TakeUp(p, now);
      outgoing := outgoing + [ProposalMessage(p)];
      MaybeCommit(p, now);
    }

    // --------------------------------------------------------------- queued commits

    method InsertPendingCommit(b: Checkpoint)
      requires Valid()
      modifies this`pendingCommits
      ensures Valid() && Abs() == QueueCommit(old(Abs()), b)
    {
      hide TablesOk, ChainStore.Valid, ChainStore.Contents, TrimLowest;
      pendingCommits := Trim(pendingCommits[b.Height() := b]);
    }

    method FlushHeight(height: int, now: real)
      requires Valid()
      modifies this, store
      ensures Valid() && Abs() == FlushOne(env, config, old(Abs()), height, now)
    {
      hide TablesOk, ChainStore.Valid, ChainStore.Contents, ChainStore.Height, Protocol.CommitLocal, ValidateCheckpoint;
      HeadIs(store);
      if height != store.Height() + 1 || height !in pendingCommits { return; }
      var b := pendingCommits[height];
      pendingCommits := pendingCommits - {height};
      var fault, noted := CheckCheckpoint(config.flopsTolerance, b, store, {}, false);
      if fault.None? { CommitLocal(b, now); }
    }

    method FlushPendingCommits(now: real)
      requires Valid()
      modifies this, store
      ensures Valid() && Abs() == Flush(env, config, old(Abs()), now)
    {
      hide TablesOk, ChainStore.Valid, ChainStore.Contents, ChainStore.Height, FlushOne, Ascending;
      HeadIs(store);
      if store.Height() < 0 { return; }
      var heights := AscendingKeys(pendingCommits.Keys);
      ghost var start := Abs();
      var i := 0;
      while i < |heights|
        invariant i <= |heights| && Valid() && Abs() == FlushList(env, config, start, heights[..i], now)
      {
        assert heights[..i + 1][..i] == heights[..i];
        FlushHeight(heights[i], now);
        i := i + 1;
      }
      assert heights[..|heights|] == heights;
    }

    method NoteCommitReject(hash: string)
      requires Valid()
      modifies this`rejects
      ensures Valid() && Abs() == NoteReject(old(Abs()), hash)
    {
      hide TablesOk, ChainStore.Valid, ChainStore.Contents;
      if hash in rejects { return; }
      var ring := rejects + [hash];
      var r := ring;
      while |r| > MAX_RECENT_COMMIT_REJECTS
        invariant |r| <= |ring| && r == ring[|ring| - |r|..]
        invariant |ring| <= MAX_RECENT_COMMIT_REJECTS ==> r == ring
        invariant |ring| > MAX_RECENT_COMMIT_REJECTS ==> |r| >= MAX_RECENT_COMMIT_REJECTS
      {
        r := r[1..];
      }
      rejects := r;
    }

    // -------------------------------------------------------------------- on_commit

    method OnOldCommit(b: Checkpoint, now: real)
      requires Valid() && store.Contents() != []
      modifies this`outgoing, this`lastSync
      ensures Valid() && Abs() == OldCommit(env, config, old(Abs()), b, now)
    {
      hide TablesOk, ChainStore.Valid, ChainStore.Contents, ChainStore.Height, Protocol.RequestSync, TipHash;
      HeadIs(store);
      var mine := env.Hash(store.Head().value);
      if mine == env.Hash(b) || b.Height() != store.Height() { return; }
      outgoing := outgoing + [ForkAlert(me.id, b.Height(), mine, env.Hash(b))];
      if Text.Less(env.Hash(b), mine) { RequestSync(-1, now); }
    }

    method AcceptCommit(b: Checkpoint, now: real)
      requires Valid()
      modifies this, store
      ensures Valid() && Abs() == NextCommit(env, config, old(Abs()), b, now)
    {
      hide TablesOk, ChainStore.Valid, ChainStore.Contents, ChainStore.Height, Protocol.CommitLocal, Flush, ValidateCheckpoint, NoteReject;
      if env.Hash(b) in rejects { return; }
      var fault, noted := CheckCheckpoint(config.flopsTolerance, b, store, committed, false);
      if fault.Some? {
        NoteCommitReject(env.Hash(b));
        return;
      }
      committed := noted;
      CommitLocal(b, now);
      FlushPendingCommits(now);
    }

    method OnCommit(b: Checkpoint, now: real)
      requires Valid()
      modifies this, store
      ensures Valid() && Abs() == Protocol.OnCommit(env, config, old(Abs()), b, now)
    {
      hide TablesOk, ChainStore.Valid, ChainStore.Contents, ChainStore.Height, OldCommit, NextCommit, Protocol.RequestSync, QueueCommit, TipHash;
      HeadIs(store);
      var head := store.Head();
      if head.Some? && b.Height() <= head.value.Height() {
        OnOldCommit(b, now);
        return;
      }
      if head.None? && b.Height() != 0 {
        InsertPendingCommit(b);
        RequestSync(-1, now);
        return;
      }
      if b.Height() > store.Height() + 1 {
        var at := store.Height();
        InsertPendingCommit(b);
        RequestSync(at, now);
        return;
      }
      if head.Some? && b.proposal.prevHash != env.Hash(head.value) {
        RequestSync(-1, now);
        return;
      }
      AcceptCommit(b, now);
    }

    // ------------------------------------------------------------------------- sync

    method OnSyncRequest(requester: string, from: int)
      requires Valid()
      modifies this`outgoing
      ensures Valid() && Abs() == Protocol.OnSyncRequest(old(Abs()), requester, from)
    {
      hide TablesOk, ChainStore.Valid, ChainStore.Contents, BlocksAbove;
      if requester == me.id { return; }
      var blocks := BlocksFrom(store, from + 1);
      if blocks != [] { outgoing := outgoing + [SyncResponse(me.id, blocks)]; }
    }

    method OnSyncResponse(blocks: seq<Checkpoint>, now: real)
      requires Valid()
      modifies this, store
      ensures Valid() && Abs() == Protocol.OnSyncResponse(env, config, old(Abs()), blocks, now)
    {
      hide TablesOk, ChainStore.Valid, ChainStore.Contents, ChainStore.Height, Reconcile, Protocol.OnCommit;
      if HasGenesisHeight(blocks) {
        ReconcileChain(blocks, now);
        return;
      }
      ghost var start := Abs();
      var i := 0;
      while i < |blocks|
        invariant i <= |blocks| && Valid() && Abs() == OnCommits(env, config, start, blocks[..i], now)
      {
        assert blocks[..i + 1][..i] == blocks[..i];
        OnCommit(blocks[i], now);
        i := i + 1;
      }
      assert blocks[..|blocks|] == blocks;
    }

    // -------------------------------------------------------------------- reconcile

    /** Puts back, in order, what the ledger lacks. */
    method PutBack(bs: seq<Checkpoint>)
      requires Valid()
      modifies store
      ensures Valid() && store.Contents() == AppendMissing(env, old(store.Contents()), bs)
    {
      hide TablesOk, ChainStore.Contents, ChainStore.Valid, AppendOk;
      var i := 0;
      while i < |bs|
        invariant i <= |bs| && Valid() && store.Contents() == AppendMissing(env, old(store.Contents()), bs[..i])
      {
        assert bs[..i + 1][..i] == bs[..i];
        if store.BlockAt(bs[i].Height()).None? { var ok := store.Append(bs[i]); }
        i := i + 1;
      }
      assert bs[..|bs|] == bs;
    }

    method RestoreChain(saved: seq<Checkpoint>, applied: nat, ancestor: int)
      requires Valid()
      modifies this`committed, store
      ensures Valid() && Abs() == Restore(env, old(Abs()), saved, applied, ancestor)
    {
      hide TablesOk, ChainStore.Contents, ChainStore.Valid, AppendMissing, Chain.Rollback, ClaimIds;
      PutBack(if applied <= |saved| then saved[..applied] else saved);
      store.Rollback(ancestor);
      PutBack(saved);
      committed := store.AllClaimIds();
    }

    method RollBackTo(ancestor: int)
      requires Valid()
      modifies this`pendingCommits, store
      ensures Valid() && Abs() == RolledBack(old(Abs()), ancestor)
    {
      hide TablesOk, ChainStore.Contents, ChainStore.Valid, ChainStore.Height;
      HeadIs(store);
      if ancestor < store.Height() {
        store.Rollback(ancestor);
        pendingCommits := map h | h in pendingCommits && h <= ancestor :: pendingCommits[h];
      }
    }

    method ApplyBlocks(incoming: seq<Checkpoint>, saved: seq<Checkpoint>, ancestor: int, now: real)
      requires Valid()
      modifies this, store
      ensures Valid() && Abs() == Apply(env, config, old(Abs()), incoming, 0, saved, ancestor, now)
    {
      hide TablesOk, ChainStore.Contents, ChainStore.Valid, Restore, Protocol.CommitLocal, ValidateCheckpoint, ClaimIds;
      var applied := 0;
      while applied < |incoming|
        invariant applied <= |incoming| && Valid()
        invariant Apply(env, config, old(Abs()), incoming, 0, saved, ancestor, now) ==
                  Apply(env, config, Abs(), incoming, applied, saved, ancestor, now)
      {
        var fault, noted := CheckCheckpoint(config.flopsTolerance, incoming[applied], store, {}, false);
        if fault.Some? {
          RestoreChain(saved, applied, ancestor);
          return;
        }
        CommitLocal(incoming[applied], now);
        applied := applied + 1;
      }
      committed := store.AllClaimIds();
    }

    /** Whether the peer's tip loses against the local head. */
    method Loses(tip: Checkpoint) returns (r: bool)
      requires Valid()
      ensures r <==> !Wins(env, store.Contents(), tip)
    {
      hide TablesOk, ChainStore.Contents, ChainStore.Valid, ChainStore.Height, TipHash;
      HeadIs(store);
      if tip.Height() < store.Height() { return true; }
      var head := store.Head();
      return tip.Height() == store.Height() && head.Some? && !Text.Less(env.Hash(tip), env.Hash(head.value));
    }

    method ReconcileChain(peer: seq<Checkpoint>, now: real)
      requires Valid()
      modifies this, store
      ensures Valid() && Abs() == Reconcile(env, config, old(Abs()), peer, now)
    {
      hide TablesOk, ChainStore.Contents, ChainStore.Valid, ChainStore.Height, TipHash, Wins, Apply, RolledBack, Chained, Above, SortByHeight,
        AncestorFrom, Served, BlocksAbove;
      var blocks := SortBlocks(peer);
      if blocks == [] { return; }
      var loses := Loses(blocks[|blocks| - 1]);
      if loses { return; }
      var ancestor := FindAncestor(store, blocks);
      var incoming := Filter(blocks, ancestor);
      var anchor := AnchorHash(ancestor);
      var chained := IsChained(env, anchor, ancestor + 1, incoming);
      if !chained { return; }
      var saved := BlocksFrom(store, ancestor + 1);
      SavedIs(store.Contents(), ancestor);
      RollBackTo(ancestor);
      ApplyBlocks(incoming, saved, ancestor, now);
    }

    method AnchorHash(ancestor: int) returns (hash: string)
      requires Valid() && -1 <= ancestor < |store.Contents()|
      ensures hash == TipHash(env, store.Contents()[..ancestor + 1])
    {
      hide TablesOk, ChainStore.Contents, ChainStore.Valid, ChainStore.Height;
      var b := store.BlockAt(ancestor);
      hash := if b.Some? then env.Hash(b.value) else GENESIS_PREV_HASH;
    }

    // ---------------------------------------------------------- peers and the clock

    method CompareHeads(height: int, hash: string, now: real)
      requires Valid()
      modifies this`outgoing, this`lastSync
      ensures Valid() && Abs() == Protocol.CompareHeads(env, config, old(Abs()), height, hash, now)
    {
      hide TablesOk, ChainStore.Contents, ChainStore.Valid, ChainStore.Height, TipHash, Protocol.RequestSync;
      HeadIs(store);
      var head := store.Head();
      if head.None? { RequestSync(-1, now); return; }
      if height > head.value.Height() { RequestSync(head.value.Height(), now); return; }
      if height == head.value.Height() && hash != env.Hash(head.value) {
        outgoing := outgoing + [ForkAlert(me.id, height, env.Hash(head.value), hash)];
      }
    }

    method OnHeartbeat(from: string, height: int, hash: string, now: real)
      requires Valid()
      modifies this`peers, this`peerSeen, this`outgoing, this`lastSync
      ensures Valid() && Abs() == Protocol.OnHeartbeat(env, config, old(Abs()), from, height, hash, now)
    {
      hide TablesOk, ChainStore.Contents, ChainStore.Valid, Protocol.CompareHeads;
      if from == me.id { return; }
      peers := peers + {from};
      peerSeen := peerSeen[from := now];
      CompareHeads(height, hash, now);
    }

    method OnFork(hashA: string, hashB: string)
      requires Valid()
      modifies this`forkAlerts
      ensures Valid() && Abs() == Protocol.OnFork(old(Abs()), hashA, hashB)
    {
      hide TablesOk, ChainStore.Contents, ChainStore.Valid;
      var key := hashA + hashB;
      if key in forkAlerts {
        assert forkAlerts + {key} == forkAlerts;
        return;
      }
      forkAlerts := forkAlerts + {key};
    }

    method PruneStalePeers(now: real)
      requires Valid()
      modifies this`peers
      ensures Valid() && Abs() == Prune(config, old(Abs()), now)
    {
      hide TablesOk, ChainStore.Contents, ChainStore.Valid;
      if config.peerStaleAfter <= 0.0 { return; }
      var cutoff := now - config.peerStaleAfter;
      peers := set p | p in peers && (p !in peerSeen || peerSeen[p] > cutoff);
    }

    method CountSignatures() returns (total: int)
      requires Valid()
      ensures total == SignatureCount(store.Contents())
    {
      hide TablesOk, ChainStore.Contents, ChainStore.Valid, ChainStore.Height;
      HeadIs(store);
      ghost var chain := store.Contents();
      total := 0;
      var h := 0;
      while h <= store.Height()
        invariant 0 <= h <= |chain| && total == SignatureCount(chain[..h])
      {
        assert chain[..h + 1][..h] == chain[..h];
        total := total + |store.BlockAt(h).value.signatures|;
        h := h + 1;
      }
      assert chain[..|chain|] == chain;
    }

    /** Returns whether this node has just become the sealer and should propose. */
    method Tick(now: real) returns (takeover: bool)
      requires Valid()
      modifies this
      ensures Valid() && Abs() == Protocol.Tick(env, config, old(Abs()), now)
      ensures takeover <==>
              && now - old(lastActivity) > config.electionTimeout
              && SealerFor(env, config, Prune(config, old(Abs()), now), old(view)) != me.id
              && SealerFor(env, config, Abs(), view) == me.id
    {
      hide TablesOk, ChainStore.Contents, ChainStore.Valid, Prune, Beat, SealerFor;
      PruneStalePeers(now);
      takeover := false;
      if now - lastActivity > config.electionTimeout {
        var was := SealerForView(view);
        view := Successor(view);
        var turn := SealerForView(view);
        takeover := was != me.id && turn == me.id;
        ghost var turned := Abs();
        lastActivity := now;
        SealerSame(env, config, turned, Abs(), view);
      }
      ghost var before := Abs();
      SendHeartbeat();
      BeatFrame(env, before);
      SealerSame(env, config, before, Abs(), view);
    }

    method SendHeartbeat()
      requires Valid()
      modifies this`outgoing
      ensures Valid() && Abs() == Beat(env, old(Abs()))
    {
      hide TablesOk, ChainStore.Contents, ChainStore.Valid, ChainStore.Height, SignatureCount;
      HeadIs(store);
      var head := store.Head();
      if head.None? { return; }
      var weight := CountSignatures();
      HeadRecord(store.Contents());
      outgoing := outgoing + [Heartbeat(me.id, head.value.Height(), env.Hash(head.value), head.value.Epoch(), head.value.proposal.sealedBy, weight)];
    }
  }

  lemma HeadRecord(chain: Ledger)
    requires chain != []
    ensures Reconstruct(chain[|chain| - 1]).proposal == chain[|chain| - 1].proposal
  {
  }

  lemma BeatFrame(env: Env, n: Node)
    ensures var m := Beat(env, n); m.me == n.me && m.peers == n.peers && m.chain == n.chain
  {
    hide SignatureCount;
  }

  lemma SealerSame(env: Env, config: Config, n: Node, m: Node, view: int)
    requires m.me == n.me && m.peers == n.peers && m.chain == n.chain
    ensures SealerFor(env, config, m, view) == SealerFor(env, config, n, view)
  {
  }

  lemma SavedIs(chain: Ledger, ancestor: int)
    requires -1 <= ancestor < |chain|
    ensures BlocksAbove(chain, ancestor) == Saved(chain, ancestor)
  {
  }
}
