/** Small inputs on which the code does not do what its comments say. All signatures verify
    here, and a hash is the canonical text of what it covers, so hashes do bind. */
module Examples {
  import opened Decimal
  import opened CanonicalJson
  import opened CanonicalForm
  import opened JsonText
  import opened Models
  import opened Chain
  import opened Validation
  import opened Validity
  import opened Committee
  import opened Protocol
  import opened Reorg
  import opened HeadOrder
  import opened Invariant
  import opened Runs
  import opened SecondProposal
  import opened TailDrop
  import Text

  // ------------------------------------------------------------------ the environment

  function ProposalText(p: Proposal): string { Canonical(ProposalValue(p)) }

  function BlockValue(p: Proposal, ss: seq<QuorumSignature>): Json {
    Arr([Str(p.createdAt), ProposalValue(p), SignaturesValue(ss)])
  }

  /** The text starts with the time stamp, so an earlier stamp sorts first. */
  function BlockText(p: Proposal, ss: seq<QuorumSignature>): string { Canonical(BlockValue(p, ss)) }

  const PLAIN: Env := Env(BlockText, ProposalText, _ => true, (s, k, h) => true, (c, t) => true, _ => 0.0)

  lemma BlockValueValid(p: Proposal, ss: seq<QuorumSignature>)
    ensures Valid(BlockValue(p, ss))
  {
    hide ProposalValue, SignaturesValue;
    ProposalValid(p);
    SignaturesValid(ss);
  }

  lemma BlockValueBinds(p: Proposal, s: seq<QuorumSignature>, q: Proposal, t: seq<QuorumSignature>)
    requires Same(BlockValue(p, s), BlockValue(q, t))
    ensures p == q && s == t
  {
    hide ProposalValue, SignaturesValue;
    var v, w := BlockValue(p, s).items, BlockValue(q, t).items;
    assert Same(v[1], w[1]) && Same(v[2], w[2]);
    ProposalBinds(p, q);
    SignaturesBind(s, t);
  }

  lemma PlainBinds()
    ensures Binding(PLAIN)
  {
    hide Canonical, ProposalValue, BlockValue, Same;
    forall p, q | PLAIN.proposalHash(p) == PLAIN.proposalHash(q) ensures p == q {
      ProposalValid(p);
      ProposalValid(q);
      CanonicalDecides(ProposalValue(p), ProposalValue(q));
      ProposalBinds(p, q);
    }
    forall p, s, q, t | PLAIN.blockHash(p, s) == PLAIN.blockHash(q, t) ensures p == q && s == t {
      BlockValueValid(p, s);
      BlockValueValid(q, t);
      CanonicalDecides(BlockValue(p, s), BlockValue(q, t));
      BlockValueBinds(p, s, q, t);
    }
  }

  /** How the text of a block stamped with one letter starts. */
  lemma StampLeads(p: Proposal, ss: seq<QuorumSignature>, c: char)
    requires p.createdAt == [c] && 'a' <= c <= 'z'
    ensures var t := BlockText(p, ss); |t| > 2 && t[0] == '[' && t[1] == '"' && t[2] == c
  {
    hide ProposalValue, SignaturesValue, PrintFields, SortFields;
    var items := NormItems(BlockValue(p, ss).items);
    assert Norm(BlockValue(p, ss)) == Arr(items) && items[0] == Str([c]);
    assert EscapeChar(c) == [c];
    assert [c][1..] == "";
    assert Escape([c]) == [c] + Escape("");
    assert Print(items[0]) == Quote([c]);
    assert BlockText(p, ss) == ['['] + PrintItems(items);
  }

  lemma EarlierFirst(a: string, b: string)
    requires |a| > 2 && |b| > 2 && a[..2] == b[..2] && a[2] < b[2]
    ensures Text.Less(a, b)
  {
    assert a[0] == a[..2][0] == b[0] && a[1] == a[..2][1] == b[1];
    assert Text.Less(a[1..][1..], b[1..][1..]);
    assert Text.Less(a[1..], b[1..]);
  }

  // ------------------------------------------------------------------------ the blocks

  const ZERO: Float64 := Float(false, "0", 0)

  function ClaimOf(id: string, sequence: int): SignedClaim {
    SignedClaim(Claim(id, "n", sequence, Generic, "", ZERO, Fp32, 0, 0, ZERO, ZERO, Cpu, "", "", -1, ""), "", "")
  }

  function BlockOn(chain: Ledger, epoch: Int64, claims: seq<SignedClaim>, stamp: string): Checkpoint {
    Checkpoint(Proposal(epoch, |chain|, TipHash(PLAIN, chain), "n", claims, stamp), [QuorumSignature("n", "", "")], 1)
  }

  const OWN: Checkpoint := BlockOn([GENESIS], 1, [ClaimOf("own", 1)], "b")

  /** Three claims of one node, numbered 1, 2 and 1 again. */
  const RIVAL: Checkpoint := BlockOn([GENESIS], 1, [ClaimOf("x", 1), ClaimOf("y", 2), ClaimOf("z", 1)], "a")

  /** A claim id of the ledger once more, under the next number. */
  const REPEAT: Checkpoint := BlockOn([GENESIS] + [OWN], 2, [ClaimOf("own", 2)], "c")

  /** A first block from before the beginning. */
  const EARLY: Checkpoint := BlockOn([], -1, [ClaimOf("own", 1)], "d")

  /** One node's claims with different ids and changing numbers, on the head, signed. */
  lemma Passes(tolerance: real, chain: Ledger, epoch: Int64, claims: seq<SignedClaim>, stamp: string)
    requires chain != [] ==> epoch > chain[|chain| - 1].Epoch()
    requires claims != [] && forall i :: 0 <= i < |claims| ==> claims[i].claim.nodeId == "n" && claims[i].claim.lastSeenHeight <= |chain| - 1
    requires forall i, j :: 0 <= i < j < |claims| ==> claims[i].claim.claimId != claims[j].claim.claimId
    requires forall i :: 0 <= i < |claims| - 1 ==> claims[i].claim.sequence != claims[i + 1].claim.sequence
    ensures ValidateCheckpoint(PLAIN, tolerance, BlockOn(chain, epoch, claims, stamp), chain, {}, false).Passed?
  {
    hide ValidateCheckpoint, ClaimsAcceptable, TipHash, BlockText, ProposalText;
    var b := BlockOn(chain, epoch, claims, stamp);
    ConsecutiveDiffer(PLAIN, tolerance, claims, |chain| - 1, {}) by {
      forall i | 0 <= i < |claims| ensures ClaimSound(PLAIN, tolerance, claims[i], |chain| - 1, {}) {}
    }
    assert QuorumMet(PLAIN, b);
    CheckpointPassesIff(PLAIN, tolerance, b, chain, {}, false);
  }

  lemma NoClaimsYet()
    ensures Claims([]) == [] && Claims([GENESIS]) == []
  {
    assert [GENESIS][..0] == [];
    assert BlockClaims(GENESIS) == [];
  }

  lemma OwnFits(tolerance: real)
    ensures Acceptable(PLAIN, tolerance, [GENESIS], OWN) && ValidChain(PLAIN, tolerance, [GENESIS] + [OWN])
  {
    hide Acceptable, ValidChain, BlockText, ValidateCheckpoint;
    FirstFits(tolerance, 1, "b");
    GenesisChain(PLAIN, tolerance);
    ValidSnoc(PLAIN, tolerance, [GENESIS], OWN);
  }

  lemma RivalRefused(tolerance: real)
    ensures ValidateCheckpoint(PLAIN, tolerance, RIVAL, [GENESIS], {}, false).Passed? && !AppendOk(PLAIN, [GENESIS], RIVAL)
  {
    hide ValidateCheckpoint, BlockText, Claims;
    Passes(tolerance, [GENESIS], 1, [ClaimOf("x", 1), ClaimOf("y", 2), ClaimOf("z", 1)], "a");
    assert Clash(BlockClaims(RIVAL)[0], BlockClaims(RIVAL)[2]);
  }

  /** A valid ledger of two blocks, offered a rival second block, is left with one. */
  lemma LossHappens(tolerance: real)
    ensures Binding(PLAIN) && ValidChain(PLAIN, tolerance, [GENESIS] + [OWN])
    ensures OutcomeOf(PLAIN, tolerance, [GENESIS] + [OWN], [GENESIS] + [RIVAL]) == DropsTail
    ensures ReorgChain(PLAIN, tolerance, [GENESIS] + [OWN], [GENESIS] + [RIVAL]) == [GENESIS]
  {
    hide ValidateCheckpoint, AppendOk, OutcomeOf, ReorgChain, ValidChain, BlockText, Binding, Text.Less;
    PlainBinds();
    OwnFits(tolerance);
    ValidBuilt(PLAIN, tolerance, [GENESIS] + [OWN]);
    RivalRefused(tolerance);
    RivalEarlier();
    LosesABlock(PLAIN, tolerance, [GENESIS], OWN, RIVAL);
  }

  lemma RivalEarlier()
    ensures Text.Less(PLAIN.Hash(RIVAL), PLAIN.Hash(OWN))
  {
    hide BlockText, Text.Less;
    StampLeads(RIVAL.proposal, RIVAL.signatures, 'a');
    StampLeads(OWN.proposal, OWN.signatures, 'b');
    EarlierFirst(PLAIN.Hash(RIVAL), PLAIN.Hash(OWN));
  }

  /** A node with an exact index takes the rival in through on_commit: the store refuses it,
      and the index now holds claims no ledger has. */
  lemma IndexGoesWrong(config: Config, n: Node, now: real)
    requires Sound(PLAIN, config.flopsTolerance, n) && n.chain == [GENESIS] && n.committed == {} && PLAIN.Hash(RIVAL) !in n.rejects
    requires 1 !in n.pendingCommits
    ensures Exact(n) && !Exact(OnCommit(PLAIN, config, n, RIVAL, now))
  {
    hide ValidateCheckpoint, AppendOk, BlockText, OnCommit, Sound, ClaimIds;
    RivalRefused(config.flopsTolerance);
    GenesisChain(PLAIN, config.flopsTolerance);
    OnCommitExactIff(PLAIN, config, n, RIVAL, now);
  }

  /** With nothing noted, as in a reorg or a flush, a repeated claim id passes. */
  lemma RepeatedIdPasses(tolerance: real)
    ensures ValidateCheckpoint(PLAIN, tolerance, REPEAT, [GENESIS] + [OWN], {}, false).Passed?
    ensures TurnsNew([GENESIS] + [OWN], REPEAT) && !AppendOk(PLAIN, [GENESIS] + [OWN], REPEAT)
  {
    hide ValidateCheckpoint, BlockText;
    var chain := [GENESIS] + [OWN];
    Passes(tolerance, chain, 2, [ClaimOf("own", 2)], "c");
    NoClaimsYet();
    ClaimsSnoc([GENESIS], OWN);
    assert Claims(chain) == [ClaimOf("own", 1).claim];
    assert BlockClaims(REPEAT) == [ClaimOf("own", 2).claim];
    assert Clash(Claims(chain)[0], BlockClaims(REPEAT)[0]);
  }

  /** On an empty ledger a negative epoch passes. */
  lemma NegativeEpochPasses(tolerance: real)
    ensures ValidateCheckpoint(PLAIN, tolerance, EARLY, [], {}, false).Passed? && !AppendOk(PLAIN, [], EARLY)
    ensures IdsNew([], EARLY) && TurnsNew([], EARLY)
  {
    hide ValidateCheckpoint, BlockText;
    Passes(tolerance, [], -1, [ClaimOf("own", 1)], "d");
    NoClaimsYet();
  }

  /** The genesis block passes on any ledger, brings nothing, and is refused. */
  lemma GenesisPassesAnywhere(tolerance: real)
    ensures ValidateCheckpoint(PLAIN, tolerance, GENESIS, [GENESIS], {}, false).Passed?
    ensures BringsNew([GENESIS], GENESIS) && !AppendOk(PLAIN, [GENESIS], GENESIS)
  {
    hide BlockText;
    NoClaimsYet();
  }

  // ----------------------------------------------------- a worse head of the same height

  /** Like the node's own block, but with a later stamp. */
  const ASIDE: Checkpoint := BlockOn([GENESIS], 1, [ClaimOf("x", 1)], "c")

  /** The claim id of the block below once more. */
  const TWIN: Checkpoint := BlockOn([GENESIS] + [ASIDE], 2, [ClaimOf("x", 2)], "d")

  lemma AsideFits(tolerance: real)
    ensures Acceptable(PLAIN, tolerance, [GENESIS], ASIDE)
  {
    hide ValidateCheckpoint, AppendOk, ValidChain, BlockText, Binding;
    Passes(tolerance, [GENESIS], 1, [ClaimOf("x", 1)], "c");
    PlainBinds();
    GenesisChain(PLAIN, tolerance);
    ValidBuilt(PLAIN, tolerance, [GENESIS]);
    NoClaimsYet();
    PassedAppendsIff(PLAIN, tolerance, [GENESIS], ASIDE, {});
  }

  lemma TwinRefused(tolerance: real)
    ensures ValidateCheckpoint(PLAIN, tolerance, TWIN, [GENESIS] + [ASIDE], {}, false).Passed? && !AppendOk(PLAIN, [GENESIS] + [ASIDE], TWIN)
  {
    hide ValidateCheckpoint, BlockText;
    var chain := [GENESIS] + [ASIDE];
    Passes(tolerance, chain, 2, [ClaimOf("x", 2)], "d");
    NoClaimsYet();
    ClaimsSnoc([GENESIS], ASIDE);
    assert BlockClaims(TWIN) == [ClaimOf("x", 2).claim];
    assert Claims(chain) == [ClaimOf("x", 1).claim];
    assert Clash(Claims(chain)[0], BlockClaims(TWIN)[0]);
  }

  /** A valid ledger, offered a taller branch whose tip is refused, ends at its old height on
      a head that loses to the old one. */
  lemma WorseHappens(tolerance: real)
    ensures Binding(PLAIN) && ValidChain(PLAIN, tolerance, [GENESIS] + [OWN])
    ensures ReorgChain(PLAIN, tolerance, [GENESIS] + [OWN], [GENESIS] + [ASIDE, TWIN]) == [GENESIS] + [ASIDE]
    ensures Better(PLAIN, [GENESIS] + [OWN], [GENESIS] + [ASIDE])
  {
    hide ValidateCheckpoint, AppendOk, OutcomeOf, ReorgChain, ValidChain, BlockText, Binding, Text.Less, Better;
    PlainBinds();
    OwnFits(tolerance);
    ValidBuilt(PLAIN, tolerance, [GENESIS] + [OWN]);
    AsideFits(tolerance);
    TwinRefused(tolerance);
    StampLeads(OWN.proposal, OWN.signatures, 'b');
    StampLeads(ASIDE.proposal, ASIDE.signatures, 'c');
    EarlierFirst(PLAIN.Hash(OWN), PLAIN.Hash(ASIDE));
    LosesTheTie(PLAIN, tolerance, [GENESIS], OWN, ASIDE, TWIN);
  }

  // ------------------------------------------------------------------- the last epoch

  /** A block of the largest epoch there is, and one of the epoch before. */
  const LAST: Checkpoint := BlockOn([GENESIS], MAX_INT64, [ClaimOf("own", 1)], "e")
  const LAST_BUT_ONE: Checkpoint := BlockOn([GENESIS], MAX_INT64 - 1, [ClaimOf("own", 1)], "f")

  /** Any block of the node's first claim on the genesis block. */
  lemma FirstFits(tolerance: real, epoch: Int64, stamp: string)
    requires epoch > 0
    ensures var b := BlockOn([GENESIS], epoch, [ClaimOf("own", 1)], stamp);
            Acceptable(PLAIN, tolerance, [GENESIS], b) && ValidateCheckpoint(PLAIN, tolerance, b, [GENESIS], {}, false).seen == BlockIds(b)
  {
    hide ValidateCheckpoint, AppendOk, ValidChain, BlockText, Binding, QuorumMet, ClaimsAcceptable, BlockIds;
    var b := BlockOn([GENESIS], epoch, [ClaimOf("own", 1)], stamp);
    Passes(tolerance, [GENESIS], epoch, [ClaimOf("own", 1)], stamp);
    PlainBinds();
    GenesisChain(PLAIN, tolerance);
    ValidBuilt(PLAIN, tolerance, [GENESIS]);
    NoClaimsYet();
    PassedAppendsIff(PLAIN, tolerance, [GENESIS], b, {});
    CheckpointPassesIff(PLAIN, tolerance, b, [GENESIS], {}, false);
  }

  lemma LateFits(tolerance: real, b: Checkpoint)
    requires b == LAST || b == LAST_BUT_ONE
    ensures Acceptable(PLAIN, tolerance, [GENESIS], b)
    ensures ValidateCheckpoint(PLAIN, tolerance, b, [GENESIS], {}, false).seen == BlockIds(b)
  {
    hide Acceptable, ValidateCheckpoint, BlockText, BlockIds, BlockOn;
    FirstFits(tolerance, MAX_INT64, "e");
    FirstFits(tolerance, MAX_INT64 - 1, "f");
  }

  /** A new node after such a block came in. */
  ghost function Late(b: Checkpoint): Node { Step(PLAIN, SETTINGS, Start(PLAIN, ME, [], 0.0), CommitIn(b), 0.0) }

  lemma LateIs(b: Checkpoint)
    requires b == LAST || b == LAST_BUT_ONE
    ensures Sound(PLAIN, 0.0, Late(b)) && Late(b).chain == [GENESIS] + [b] && Late(b).lastActivity == 0.0
    ensures Late(b).view == if Successor(b.Epoch()) > 1 then Successor(b.Epoch()) else 1
  {
    hide ValidateCheckpoint, AppendOk, BlockText, ProposalText, Sound, FlushList, Ascending, ClaimIds, BlockIds;
    var s := Start(PLAIN, ME, [], 0.0);
    NothingValid(PLAIN, 0.0);
    StartSound(PLAIN, SETTINGS, ME, [], 0.0);
    StepSound(PLAIN, SETTINGS, s, CommitIn(b), 0.0);
    LateFits(0.0, b);
    var c := Cleared(s);
    var noted := c.(committed := BlockIds(b));
    var m := Committed(PLAIN, noted, b, 0.0);
    FlushListIdle(PLAIN, SETTINGS, m, Ascending(m.pendingCommits.Keys), 0.0);
    assert Step(PLAIN, SETTINGS, s, CommitIn(b), 0.0) == m;
  }

  /** After a block of the last epoch the view is behind the head, and whatever the node
      would propose does not advance the epoch. */
  lemma ViewFallsBehind(stamp: string)
    ensures !ViewAhead(Late(LAST))
    ensures HeaderFault(PLAIN, OwnProposal(PLAIN, Late(LAST), stamp), Late(LAST).chain, false) == Some(EpochNotAdvancing)
  {
    hide BlockText, Late, Candidates;
    LateIs(LAST);
    assert Late(LAST).chain[1] == LAST;
  }

  /** After a block of the epoch before, the next timeout takes the view from the largest to
      the smallest number. */
  lemma ViewWraps()
    ensures Late(LAST_BUT_ONE).view == MAX_INT64
    ensures Step(PLAIN, SETTINGS, Late(LAST_BUT_ONE), ClockTick, 91.0).view == MIN_INT64
  {
    hide BlockText, Late, Step, Sound;
    LateIs(LAST_BUT_ONE);
    TickStep(PLAIN, SETTINGS, Late(LAST_BUT_ONE), 91.0);
  }

  // ------------------------------------------------------------- two proposals, one height

  const ME: Identity := Identity("n", "", _ => "")

  /** A committee of whoever is heard from; alone, one signature is a quorum. */
  const SETTINGS: Config := Config(true, 0, 0.0, 90.0, 30.0, 0.0)

  const OWN_CLAIM: SignedClaim := ClaimOf("own", 1)
  const LATE_CLAIM: SignedClaim := ClaimOf("late", 3)

  /** A new node with one claim of its own. */
  ghost function Opened(): Node { Step(PLAIN, SETTINGS, Start(PLAIN, ME, [], 0.0), Submit(OWN_CLAIM), 0.0) }

  lemma OpenedIs()
    ensures var n := Opened();
            && n.me == ME && n.chain == [GENESIS] && n.view == 1 && n.pending == map["own" := OWN_CLAIM] && n.committed == {}
            && n.proposed == {} && n.proposals == map[] && n.signatures == map[] && n.peers == {}
            && Sound(PLAIN, 0.0, n)
  {
    hide Sound, Append, ClaimIds, BlockText, ProposalText;
    var n := Start(PLAIN, ME, [], 0.0);
    NothingValid(PLAIN, 0.0);
    StartSound(PLAIN, SETTINGS, ME, [], 0.0);
    StepSound(PLAIN, SETTINGS, n, Submit(OWN_CLAIM), 0.0);
  }

  lemma Alone(n: Node, view: int)
    requires n.me == ME && n.peers == {}
    ensures SealerFor(PLAIN, SETTINGS, n, view) == "n" && Quorum(SETTINGS, n) == 1
  {
    hide Sealer;
    assert Recent(n.chain, 0) == {};
    assert MembersOf(SETTINGS, n) == {"n"};
  }

  lemma OneRanked(id: string)
    ensures Text.Ranked(NO_WEIGHT, {id}) == [id]
  {
    var r := Text.Ranked(NO_WEIGHT, {id});
    assert r[0] in Text.Elements(r);
  }

  lemma OneCandidate(n: Node, id: string, c: SignedClaim)
    requires n.pending == map[id := c] && id !in n.committed && id !in n.proposed
    ensures Candidates(n) == [c]
  {
    hide Text.Ranked;
    OneRanked(id);
    assert (set k | k in n.pending && k !in n.committed && k !in n.proposed) == {id};
  }

  /** Alone and with one claim, the node proposes it. */
  lemma ProposesOne(n: Node, id: string, c: SignedClaim, stamp: string)
    requires Sound(PLAIN, 0.0, n) && n.me == ME && n.peers == {} && n.chain == [GENESIS] && n.view > 0
    requires n.pending == map[id := c] && id !in n.committed && id !in n.proposed && !Outstanding(n, 1)
    requires c.claim.nodeId == "n" && c.claim.lastSeenHeight <= 0
    ensures Candidates(n) == [c] && Proposes(PLAIN, SETTINGS, n, stamp)
    ensures ValidateProposal(PLAIN, 0.0, OwnProposal(PLAIN, n, stamp), n.chain, {}, false).Passed?
    ensures OwnProposal(PLAIN, n, stamp) == BlockOn([GENESIS], n.view, [c], stamp).proposal
  {
    hide Candidates, SealerFor, CheckClaims, BlockText, ProposalText, HeaderFault, QuorumFault;
    OneCandidate(n, id, c);
    Alone(n, n.view);
    Passes(0.0, [GENESIS], n.view, [c], stamp);
  }

  lemma OneShare(share: Share)
    requires share.nodeId == "n" && share.publicKey == "" && share.signature == ""
    ensures SortedSignatures(map["n" := share]) == [QuorumSignature("n", "", "")]
  {
    hide Text.Ranked;
    OneRanked("n");
    var m := map["n" := share];
    assert m.Keys == {"n"};
  }

  /** Its own signature is quorum enough, so the block goes in at once. */
  lemma CommitsAlone(t: Node, now: real)
    requires t.me == ME && t.peers == {} && t.chain == [GENESIS] && t.committed == {}
    requires SharesOf(t, PLAIN.proposalHash(OWN.proposal)) == map["n" := ShareFor(PLAIN, t, OWN.proposal)]
    ensures MaybeCommit(PLAIN, SETTINGS, t, OWN.proposal, now) == Committed(PLAIN, t, OWN, now)
  {
    hide ValidateCheckpoint, AppendOk, BlockText, ProposalText, Quorum, SortedSignatures, Committed, Refused;
    Alone(t, 0);
    OneShare(ShareFor(PLAIN, t, OWN.proposal));
    OwnFits(0.0);
  }

  /** After the first proposal. */
  lemma FirstGoes()
    ensures var s := Opened();
            var m := Step(PLAIN, SETTINGS, s, Propose("b"), 0.0);
            && Proposes(PLAIN, SETTINGS, Cleared(s), "b")
            && m.chain == [GENESIS] + [OWN] && m.me == ME && m.peers == {} && m.view == 2 && m.pending == map[] && m.proposed == {}
  {
    hide Sound, ValidateCheckpoint, ValidateProposal, AppendOk, BlockText, ProposalText, Opened, Candidates, SealerFor, MaybeCommit, Step, OwnProposal,
      ProposalIds, BlockIds;
    var s := Opened();
    var c := Cleared(s);
    OpenedIs();
    ClearedSound(PLAIN, 0.0, s);
    ProposesOne(c, "own", OWN_CLAIM, "b");
    ProposeStepIs(PLAIN, SETTINGS, s, Propose("b"), 0.0);
    var taken := TakeUp(PLAIN, c, OWN.proposal, 0.0);
    CommitsAlone(taken.(outgoing := taken.outgoing + [ProposalMessage(OWN.proposal)]), 0.0);
    OwnIds();
  }

  lemma OwnIds()
    ensures ProposalIds(OWN.proposal) == {"own"} && BlockIds(OWN) == {"own"}
  {
    hide BlockText;
    IdsToAll(OWN.proposal.claims, OWN);
    assert IdsTo(OWN.proposal.claims, 0) == {};
    assert IdsTo(OWN.proposal.claims, 1) == IdsTo(OWN.proposal.claims, 0) + {"own"};
  }

  /** The rival takes the block away and nothing else of note. */
  lemma RivalTakes(n: Node, now: real)
    requires n.chain == [GENESIS] + [OWN]
    ensures var r := Reconcile(PLAIN, SETTINGS, n, [GENESIS] + [RIVAL], now);
            r.chain == [GENESIS] && r.me == n.me && r.peers == n.peers && r.view == n.view && r.pending == n.pending && r.proposed == n.proposed
            && r.committed == {}
  {
    hide ValidateCheckpoint, AppendOk, BlockText, ProposalText, SortByHeight, Above, AncestorFrom, Declined, Built, CommitLocal, Served, Restore, ClaimIds,
      RolledBack, Saved;
    var peer := [GENESIS] + [RIVAL];
    OwnFits(0.0);
    ValidBuilt(PLAIN, 0.0, n.chain);
    RivalEarlier();
    TieInputs(PLAIN, [GENESIS], OWN, RIVAL);
    RivalRefused(0.0);
    GenesisChain(PLAIN, 0.0);
    var back := RolledBack(n, 0);
    BackToGenesis(n);
    var m := CommitLocal(PLAIN, SETTINGS, back, RIVAL, now);
    RivalLeaves(back, now);
    assert Apply(PLAIN, SETTINGS, back, [RIVAL], 0, Saved(n.chain, 0), 0, now) == Apply(PLAIN, SETTINGS, m, [RIVAL], 1, Saved(n.chain, 0), 0, now);
  }

  lemma BackToGenesis(n: Node)
    requires n.chain == [GENESIS] + [OWN]
    ensures var back := RolledBack(n, 0);
            back.chain == [GENESIS] && back.me == n.me && back.peers == n.peers && back.view == n.view && back.pending == n.pending &&
            back.proposed == n.proposed
  {
    hide BlockText;
    assert n.chain[..1] == [GENESIS];
  }

  lemma RivalLeaves(n: Node, now: real)
    requires n.chain == [GENESIS]
    ensures var m := CommitLocal(PLAIN, SETTINGS, n, RIVAL, now);
            m.chain == n.chain && m.me == n.me && m.peers == n.peers && m.view == n.view && m.pending == n.pending && m.proposed == n.proposed
  {
    hide AppendOk, BlockText, ProposalText, BlockIds, ClaimIds;
    RivalRefused(0.0);
    NoClaimsYet();
    assert !AlreadyCommitted(n.chain, RIVAL) by { assert |BlockClaims(RIVAL)| == 3; }
  }

  /** A whole run of a new node: it proposes its claim for height 1 and commits alone, loses
      the block to a rival the store refuses, and proposes for height 1 again. */
  lemma TwiceHappens()
    ensures var first := Step(PLAIN, SETTINGS, Opened(), Propose("b"), 0.0);
            var n := Second(PLAIN, SETTINGS, Opened(), RIVAL, "b", LATE_CLAIM, 0.0, 0.0, 0.0);
            var second := Step(PLAIN, SETTINGS, n, Propose("c"), 0.0);
            var p, q := OwnProposal(PLAIN, Cleared(Opened()), "b"), OwnProposal(PLAIN, Cleared(n), "c");
            p != q && Emits(first, p) && Emits(second, q) && p.height == q.height == 1
  {
    hide Sound, ValidateCheckpoint, ValidateProposal, AppendOk, BlockText, ProposalText, Opened, Candidates, SealerFor, Step, OwnProposal, Emits,
      Proposes, Second, Text.Less;
    var s := Opened();
    var n := Second(PLAIN, SETTINGS, s, RIVAL, "b", LATE_CLAIM, 0.0, 0.0, 0.0);
    OpenedIs();
    FirstGoes();
    RivalEarlier();
    RivalRefused(0.0);
    SecondIs();
    ProposesOne(Cleared(s), "own", OWN_CLAIM, "b") by { ClearedSound(PLAIN, 0.0, s); }
    ProposesOne(Cleared(n), "late", LATE_CLAIM, "c");
    Alone(Cleared(n), n.view);
    ProposesTwice(PLAIN, SETTINGS, s, OWN, RIVAL, "b", "c", LATE_CLAIM, 0.0, 0.0, 0.0, 0.0);
  }

  /** Where the node stands before its second proposal. */
  lemma SecondIs()
    ensures var n := Cleared(Second(PLAIN, SETTINGS, Opened(), RIVAL, "b", LATE_CLAIM, 0.0, 0.0, 0.0));
            && Sound(PLAIN, 0.0, n) && n.me == ME && n.peers == {} && n.chain == [GENESIS] && n.view == 2
            && n.pending == map["late" := LATE_CLAIM] && n.committed == {} && n.proposed == {} && !Outstanding(n, 1)
  {
    hide Sound, ValidateCheckpoint, AppendOk, BlockText, ProposalText, Opened, Step, Emits, Proposes, Text.Less, Reconcile, OwnProposal, HasGenesisHeight;
    var s := Opened();
    OpenedIs();
    FirstGoes();
    RivalEarlier();
    RivalRefused(0.0);
    HeightIsOpen(PLAIN, SETTINGS, s, OWN, RIVAL, "b", 0.0, 0.0);
    var s1 := Step(PLAIN, SETTINGS, s, Propose("b"), 0.0);
    var peer := [GENESIS] + [RIVAL];
    FullResponse(PLAIN, [GENESIS], RIVAL) by { SoundBuilt(PLAIN, 0.0, s); }
    ReorgStepIs(PLAIN, SETTINGS, s1, SyncResponseIn(peer), 0.0);
    RivalTakes(Cleared(s1), 0.0);
    var s2 := Step(PLAIN, SETTINGS, s1, SyncResponseIn(peer), 0.0);
    LateComes(s2);
  }

  lemma LateComes(n: Node)
    requires Sound(PLAIN, 0.0, n) && n.pending == map[] && n.committed == {} && n.proposed == {} && !Outstanding(n, 1)
    ensures var m := Cleared(Step(PLAIN, SETTINGS, n, ClaimIn(LATE_CLAIM, {}), 0.0));
            && Sound(PLAIN, 0.0, m) && m.me == n.me && m.peers == n.peers && m.chain == n.chain && m.view == n.view
            && m.pending == map["late" := LATE_CLAIM] && m.committed == {} && m.proposed == {} && !Outstanding(m, 1)
  {
    hide Sound, BlockText, ProposalText;
    var m := Step(PLAIN, SETTINGS, n, ClaimIn(LATE_CLAIM, {}), 0.0);
    StepSound(PLAIN, SETTINGS, n, ClaimIn(LATE_CLAIM, {}), 0.0);
    ClearedSound(PLAIN, 0.0, m);
    assert m.proposals == n.proposals;
  }
}
