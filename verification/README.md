# Exodus ledger: a Dafny model of its consensus, encodings and gossip

Exodus is a node for a ledger of compute contributions. Nodes exchange signed claims, a
rotating sealer proposes blocks of them, a quorum of signature shares commits a block, and
forks are settled by adopting the taller chain (ties: the smaller head hash). This project
models three parts and proves what they keep over every input and every run:

- the consensus state machine on top of the ledger store,
- the canonical encodings under the hashes, and
- the flooding of messages between peers.

`dafny verify dfyconfig.toml` checks everything.

## How the model is laid out

Every handler of the node appears twice. `Protocol` gives it as a function from state to
state, which is what the theorems about runs are about. `NodeState.ProtocolState` is the
object with the fields the program has; its methods update those fields and the store in
place, loops included, and each is proved to do exactly what the function of the same name
says. The store (`Store.ChainStore`), the validation loops (`Checks`), the JSON writer, the
float and base32 writers and the gossip relay are imperative in the same way.

| file | holds |
|---|---|
| `Sets`, `Text`, `Decimal`, `JsonText`, `CanonicalJson`, `CanonicalForm`, `CanonicalWriter`, `Base32` | small facts about sets and strings; encodings and readers for them |
| `Models` | records, their JSON values, hashes |
| `Chain`, `Tables`, `Totals`, `Store`, `Audit` | the ledger as a sequence, as two tables, its sums, as an object, and its audit |
| `Validation`, `Checks`, `Validity` | the rules, the loops that check them, what passing guarantees elsewhere |
| `Committee`, `Protocol`, `Steps`, `NodeState` | membership, sealers, quorums, the handlers |
| `Reorg`, `HeadOrder`, `ReorgSafety`, `TailDrop` | everything `reconcile_chain` can do |
| `Invariant`, `Runs`, `OwnProposals`, `SecondProposal`, `Pledges`, `Intake` | what every step keeps, whole runs of one node, what it signs, lets in and remembers |
| `Votes`, `Rounds` | when a node signs, when shares make a block, a whole round of a committee |
| `CatchUp`, `Exchange`, `Convergence` | two nodes that talk, and N nodes |
| `Gossip`, `Flooding` | one relay, and a network of them |
| `Examples` | small inputs on which the code departs from its comments |

## What is assumed

- `Models.Env` holds the functions foreign code provides: hashes of records, signature
  checks, the FLOPS plausibility test at a tolerance, compute units of a claim (an exact
  number). Where collisions matter a lemma asks for `Binding(env)`: the hashes are
  injective on records. `Models.DigestBinds` derives that for the program's own hash
  construction from an injective digest whose output has no `[` (hex). A fixed output
  length is not assumed, since no injective function on all strings has one.
- SQLite is two maps with atomic transactions; a constraint violation undoes the append.
- Time is an argument, one reading per handler, and need not even move forward.
- Handlers run under one lock, so each is one step. The proposal a `tick` takeover makes
  happens after the lock is released and is a step of its own.

## Where the code does not do what its comments or DESIGN.md say

The model follows the code.

- A block can pass validation and still be refused by the store. Validation remembers only
  the latest sequence number of each node, reorgs and flushes validate with no claims
  noted, and nothing looks at the epoch of a first block. `Validity.PassedAppendsIff` is
  the exact condition on any ledger and for any noted ids: the next height, no claim id of
  the ledger, no (node, sequence) turn twice, and on an empty ledger no negative epoch.
  `Examples.GenesisPassesAnywhere`, `Examples.RepeatedIdPasses`,
  `Validity.RepeatedTurnPasses` and `Examples.NegativeEpochPasses` show each way to fail it.
- A failed reorg *can* leave the chain shorter: `commit_local` swallows a refused append and
  the reorg counts the block as applied, so if it is the last one nothing is restored.
  `TailDrop.LosesABlock` gives the inputs, `Examples.LossHappens` one in full, and
  `TailDrop.ShorterIffRepeats` the exact condition in claim ids and turns.
- For the same reason a reorg can leave a worse head of the same height: the branch was one
  taller, lost its tip, and ends in a block that loses the tie-break.
  `TailDrop.LosesTheTie` gives the inputs, `Examples.WorseHappens` one in full,
  `HeadOrder.WorseIff` is the exact condition for a worse head, and `Runs.HeadsHoldIff` says that the runs
  `Runs.NoOscillation` is about are exactly those in which no step worsens the head.
- `on_commit` overwrites the index of committed claims before it appends.
  `Invariant.AcceptedExactIff` says exactly when that leaves the index wrong,
  `Invariant.OnCommitExactIff` what is left of it after the flush, and
  `Examples.IndexGoesWrong` shows it.
- The view does not always stay ahead of the ledger. Epochs and views are 64-bit numbers and
  the release build adds without overflow checks, while validation takes any epoch above the
  head's. `Invariant.CommitKeepsAhead`, `Runs.StepView` and `Runs.StepAhead` are the exact
  conditions step by step, `Runs.RunViewIff` over runs, `Examples.ViewFallsBehind` and
  `Examples.ViewWraps` the failing blocks.
- A node can send two proposals for one height. A reorg that fails and restores may have
  dropped an outstanding proposal on the way, and one that drops its tail may have taken
  away the node's own block. `OwnProposals.ReorgGuardsIff` says for every reorg past its
  rollback exactly when a proposal is still guarded, `SecondProposal.ProposesTwice` gives
  the inputs for a second proposal, and `Examples.TwiceHappens` a whole run.
  `OwnProposals.ProposalsApart` covers all runs whose steps leave the proposal guarded, and
  `OwnProposals.OneProposalPerHeight` those whose reorgs are declined or applied in full.
- Blocks from before quorums were recorded count their own signatures as quorum when read
  back, and a restore writes that number. So ledgers are compared "up to quorum"
  (`Chain.SameChain`): the hash does not cover the quorum, the store reads both the same.
- Any node that holds a quorum of shares commits, not only the sealer.
- `verify_chain` looks at the stored `prev_hash` column, not at the proposal's own field;
  `Audit.VerifyChain` says what it accepts on arbitrary tables.
- A reader that receives a frame of its own node stops reading that connection. In
  `Flooding` whatever was still on its way there counts as lost.

## Model

| member | source | states |
|---|---|---|
| Convergence.Converges | src/consensus/protocol.rs:911-1031 | Any number of nodes with valid chains and one tolerance, whatever their other settings: once each has reconciled with a full chain of every other, sent at any time, in any order, with repeats, every node holds the best chain any of them started with (tallest, ties to the smallest head hash) and all hold the same blocks |
| Convergence.TakesTheBetter | src/consensus/protocol.rs:911-1031 | Offered a valid chain, a node adopts it whole if it is better than its own and otherwise declines with nothing changed |
| Convergence.EndsUnbeaten | src/consensus/protocol.rs:923-937 | At the end of an exchange no chain a node started with beats any node's chain |
| Convergence.DeliveryStep | src/consensus/protocol.rs:911-1031 | One delivery leaves a valid chain that is one of the starting ones, no worse than before and no worse than the one received |
| Reorg.ReorgOutcome | src/consensus/protocol.rs:911-1031 | For every peer input: declined with no change at all; shared prefix plus everything offered; that less its last block, only when the store refuses that block; or the old ledger, reading back block for block and claim for claim; past the rollback the claim index is exactly the ledger's |
| Reorg.RestoredRows | src/consensus/protocol.rs:1009-1023 | A reorg that fails mid-apply puts every claim row back |
| Reorg.RestoreIsExact | src/consensus/protocol.rs:1011-1021 | From any intermediate ledger on the shared prefix, the two restore loops and the rollback between them give prefix plus saved blocks |
| Reorg.ApplyEnds | src/consensus/protocol.rs:997-1030 | How the apply loop ends from any point, by how far blocks were acceptable one after the other |
| Reorg.ReorgQueue | src/consensus/protocol.rs:977-1030 | Past a rollback exactly the queued commits at or below the shared height are left, unchanged, however the reorg ends; without one all are |
| HeadOrder.ReorgImproves | src/consensus/protocol.rs:926-937 | A reorg applied in full leaves the ledger unchanged or makes the head strictly better; a declined or restored one keeps the head |
| HeadOrder.ShorterIff | src/consensus/protocol.rs:1025-1026 | The ledger gets shorter if and only if a reorg drops the tail of a branch no taller than the local one, and then by one block |
| HeadOrder.WorseIff | src/consensus/protocol.rs:926-937 | A reorg leaves a worse head if and only if it drops the tail of a branch no taller than the local one, or of one just one taller whose last offered block but one loses the tie-break to the local head |
| HeadOrder.BetterIsStrict | src/consensus/protocol.rs:923-937 | Preference between heads is a strict order in which any two heads compare |
| TailDrop.LosesABlock | src/consensus/protocol.rs:611-632 | A rival last block that wins the tie-break and passes validation but is refused by the store costs the node its own last block |
| TailDrop.LosesTheTie | src/consensus/protocol.rs:611-632 | A branch one taller whose tip passes but is refused leaves the block below it as head, even where that one loses the tie-break |
| TailDrop.DropsTailIff | src/consensus/protocol.rs:997-1027 | A tail is dropped if and only if the branch wins and is contiguous, all blocks but the last are acceptable, and the last passes validation but repeats a claim id or a turn (or opens a ledger with a negative epoch) |
| TailDrop.ShorterIffRepeats | src/consensus/protocol.rs:1025-1026 | The ledger gets shorter exactly then, for an equally tall branch |
| Examples.LossHappens | src/consensus/protocol.rs:1025-1030 | Under binding hashes: a concrete valid ledger of two blocks and a concrete peer chain after which one block is left |
| Examples.IndexGoesWrong | src/consensus/protocol.rs:717-736 | A concrete block after whose on_commit a node with an exact index has a wrong one |
| Examples.WorseHappens | src/consensus/protocol.rs:997-1030 | Under binding hashes: a concrete valid ledger and taller peer branch after which the head is worse at the same height |
| Examples.ViewFallsBehind | src/consensus/protocol.rs:641 | A new node that takes in a block of epoch 2^63-1: its view is behind the head and its own proposals do not advance the epoch |
| Examples.ViewWraps | src/consensus/protocol.rs:398-408 | After a block of epoch 2^63-2 the next timeout takes the view from 2^63-1 to -2^63 |
| Examples.GenesisPassesAnywhere | src/consensus/validation.rs:138-140 | The genesis block passes validation on a ledger that has it, and is refused |
| Examples.RepeatedIdPasses | src/consensus/protocol.rs:999-1007 | A concrete block that repeats a ledger claim id under a new turn, passes with nothing noted, and is refused |
| Examples.NegativeEpochPasses | src/consensus/validation.rs:63-71 | A concrete first block with a negative epoch passes and is refused |
| Examples.TwiceHappens | src/consensus/protocol.rs:1033-1088 | A whole run of a new node that sends two different proposals for height 1 |
| ReorgSafety.ReorgSound | src/consensus/protocol.rs:911-1031 | Whatever the peer sent and however the reorg ends, the node's invariant holds, the view has not fallen and follows the epochs, no proposal was sent |
| ReorgSafety.ReorgChainValid | src/consensus/protocol.rs:997-1027 | A valid ledger is valid after any reorg, cut short or restored ones included |
| ReorgSafety.ReorgEffects | src/consensus/protocol.rs:638-641 | A reorg removes the proposals of exactly the blocks it committed and puts the view past each of their epochs that has a successor |
| Runs.NoOscillation | src/consensus/protocol.rs:604-651 | Over whole runs of any events in which no reorg loses its head to a refused last block: heads only get better, a node never returns to a head it left, and equal heads mean equal ledgers |
| Runs.HeadsHoldIff | src/consensus/protocol.rs:604-651 | Those runs are exactly the ones in which no step worsens the head |
| Runs.StepHead | src/consensus/protocol.rs:604-651 | A step keeps the head or makes it strictly better if and only if it is not a reorg that loses its head that way |
| Runs.StepSound | src/consensus/protocol.rs:460-1089 | Every step keeps the invariant and outside reorgs only extends the ledger; at every step but a tick the view does not fall, and stays ahead where epochs have successors |
| Runs.RunView | src/consensus/protocol.rs:641 | In runs with room (no timeout at view 2^63-1, no head of epoch 2^63-1) the view never falls and stays past every epoch of the ledger; in every run epochs rise along the ledger |
| Runs.RunViewIff | src/consensus/protocol.rs:401-641 | From a view that is ahead, the runs with room are exactly those in which the view never falls and stays ahead |
| Runs.StepView | src/consensus/protocol.rs:398-408 | For every event: the view falls if and only if it is a timeout at view 2^63-1 |
| Runs.StepAhead | src/consensus/protocol.rs:398-641 | For every event: a view that is ahead stays so if and only if the head left has an epoch below 2^63-1 and it is no such timeout on a ledger |
| Invariant.CommitKeepsAhead | src/consensus/protocol.rs:641 | A commit keeps the view ahead if and only if its epoch is below 2^63-1 |
| Runs.RunProposalsFit | src/consensus/protocol.rs:1059-1068 | In runs with room a sealer's own proposal never fails the height, predecessor, epoch or emptiness check |
| Runs.OwnProposalFits | src/consensus/protocol.rs:1059-1068 | Whatever reorgs and restores came before, a sealer's own proposal has the right height and predecessor, and its epoch advances if and only if the view is ahead |
| Runs.RunIndex | src/consensus/protocol.rs:604-637 | The claim index covers the ledger in every state, and equals it in runs where no block that passed on_commit's checks is then refused |
| Runs.ReorgMakesExact | src/consensus/protocol.rs:1022-1030 | A reorg that reaches its apply loop makes the index exact whatever it was before |
| Runs.ReachableIsPortable | src/consensus/validation.rs:129-186 | The ledger of any state of any run: every block above height 0 carries at least max(1, recorded quorum) signatures by different signers, each verifying over that block's own proposal hash, and a node sharing its first k blocks accepts the rest one by one as the store hands them out |
| Runs.EmitsOwn | src/consensus/protocol.rs:1033-1088 | Only propose_internal sends proposals, and only the node's own for the next height |
| Runs.StartSound | src/consensus/protocol.rs:162-226 | A node opened on a valid or empty store satisfies the invariant with an exact index; its view is ahead if and only if the stored head's epoch is below 2^63-1 |
| Intake.StartsClean | src/consensus/protocol.rs:162-226 | A node that starts has nothing waiting, reserved, held, signed or queued and knows no peer; its view is past the stored head's epoch (wrapped at 2^63-1), or 1 |
| Invariant.CommitLocalKeeps | src/consensus/protocol.rs:604-651 | commit_local on a validated block keeps the invariant and an exact index, also when the append is refused |
| Invariant.AcceptedExactIff | src/consensus/protocol.rs:717-735 | Overwriting the index before the append leaves it exact if and only if the append goes through or the block has no claims |
| Invariant.OnCommitKeeps | src/consensus/protocol.rs:653-736 | on_commit keeps the invariant, and an exact index unless a block that passed is refused |
| Invariant.OnCommitExactIff | src/consensus/protocol.rs:653-736 | With nothing queued at the next height, on_commit leaves an exact index exact if and only if it does not refuse a block that passed |
| OwnProposals.OneProposalPerHeight | src/consensus/protocol.rs:1033-1088 | In runs whose reorgs are declined or applied in full, the node's own proposals have strictly rising heights |
| OwnProposals.StepGuards | src/consensus/protocol.rs:638-640 | In such runs a proposal stays outstanding until its height is covered |
| OwnProposals.ReorgGuardsIff | src/consensus/protocol.rs:997-1030 | After any reorg past its rollback a proposal is guarded if and only if it was outstanding and not among the blocks committed on the way, or the ledger left covers its height |
| OwnProposals.StepGuardsIff | src/consensus/protocol.rs:638-1030 | For every event: a guarded proposal stays guarded if and only if the event is no reorg past its rollback or meets that condition |
| OwnProposals.RunGuardsIff | src/consensus/protocol.rs:638-1030 | Over any stretch of any run: guarded all along if and only if every step leaves it so |
| OwnProposals.ProposalsApart | src/consensus/protocol.rs:1033-1088 | Two own proposals have different heights whenever every step between them leaves the first guarded, reorgs of any outcome included |
| OwnProposals.RestoreDrops | src/consensus/protocol.rs:997-1026 | After a restored reorg something is outstanding at a height if and only if a proposal there was not among the blocks committed on the way |
| SecondProposal.ProposesTwice | src/consensus/protocol.rs:1033-1088 | A node that commits its own block at once, loses it to a rival the store refuses and still has claims sends a second proposal for the same height |
| CatchUp.CatchesUp | src/consensus/protocol.rs:871-905 | A node holding a prefix of the server's chain, with exact index, queue on that chain and no needed block in its reject ring, ends on the server's chain with exact index after one request and response, from an empty ledger too |
| CatchUp.FlushEmptiesNext | src/consensus/protocol.rs:778-803 | However the queue looked, a flush leaves nothing queued right above the head; on an empty ledger provided height 0 is not queued |
| CatchUp.FlushDrains | src/consensus/protocol.rs:778-818 | In every state that satisfies the invariant nothing is left queued there, empty ledgers included, since height 0 is never queued |
| CatchUp.FlushRuns | src/consensus/protocol.rs:778-803 | A flush runs through all that is queued in line: the ledger reaches the first height not queued |
| CatchUp.GapFills | src/consensus/protocol.rs:653-803 | When the one missing block arrives, the node goes through everything it had queued above it |
| CatchUp.OnCommitCloser | src/consensus/protocol.rs:653-736 | One more block of the server's, at or below the next height, takes the node past it even when queued blocks let it jump ahead |
| Votes.VotesIff | src/consensus/protocol.rs:516-547 | A node votes for a proposal if and only if it neither holds nor has signed it, the proposal has the next height, the head's hash, a later epoch and acceptable claims new to the index, and names as sealer the entry at epoch mod n of the members ranked by weight; it sends no other vote, and otherwise nothing changes |
| Votes.VoteTakesUp | src/consensus/protocol.rs:534-546 | A proposal voted for is held, exactly its claims stop waiting and are reserved, the vote is noted beside the others, the timeout starts anew, and only the node that seals its own current view then tries to commit |
| Votes.ProposalsAreSigned | src/consensus/protocol.rs:516-547 | What one node proposes is signed by any other with the same ledger, committee and tolerance that has not met it and whose index has none of its claims |
| Votes.SealsQuorum | src/consensus/protocol.rs:565-602 | With fewer shares than the committee's quorum nothing happens; a block that goes in is the proposal with that quorum recorded and at least as many signatures, by different signers, verifying over its hash |
| Votes.SharesSign | src/consensus/protocol.rs:571-582 | Shares filed under their nodes become signatures in rising id order, one for each node, all over the proposal's hash |
| Votes.QuorumCommits | src/consensus/protocol.rs:549-602 | In every reachable state of a node with a working key: a quorum of noted shares of a valid proposal makes a block without quorum fault at any node, signed by exactly the nodes heard |
| Votes.CommitsOverlap | src/consensus/protocol.rs:133-141 | Blocks two nodes with one committee commit out of its members' shares have at least as many signers in common as two quorums must |
| Rounds.CandidatesAre | src/consensus/protocol.rs:1047-1056 | A proposal holds exactly the claims waiting that are neither in the index nor reserved, in rising id order |
| Rounds.SharesSeal | src/consensus/protocol.rs:549-602 | Shares one after the other: short of a quorum they are only filed, the one that completes it puts the block into the ledger, signed by exactly the nodes heard, if its turns are new |
| Rounds.RoundCommits | src/consensus/protocol.rs:516-602 | A whole round: the sealer's proposal gets a vote from each free member; a quorum of votes makes a block of it signed by exactly the sealer and the voters, which enters the sealer's ledger, passes every check and is sent out |
| Rounds.CommitSpreads | src/consensus/protocol.rs:653-736 | Such a block becomes the next one at every node on that ledger with an exact index that has not rejected it, its claims are committed, no longer waiting or reserved, and the timeout starts anew |
| Pledges.StepPledges | src/consensus/protocol.rs:480-547 | Every step: nothing signed is forgotten, votes go out only for an incoming proposal not signed before or for the node's own, and claims wait under their own ids |
| Pledges.SignsOnce | src/consensus/protocol.rs:516-522 | Over any run a node never votes for an incoming proposal it has voted for before |
| Exchange.HeartbeatHeals | src/consensus/protocol.rs:820-905 | Tick, heartbeat, request and answer between two nodes: the one behind asks for exactly what it lacks and ends on the taller chain with an exact index |
| Exchange.TickAnnounces | src/consensus/protocol.rs:409-429 | A tick sends one heartbeat: the head's height, hash, epoch and sealer, and the number of signatures in the ledger |
| Exchange.GapHeals | src/consensus/protocol.rs:687-697 | A block from further up the chain is kept (while the queue has room), the node asks from its head on, and the answer brings it onto the server's chain |
| Exchange.ForkHeals | src/consensus/protocol.rs:664-686 | Two nodes on different heads of one height that see each other's: only the one with the larger hash asks, and the answer puts it on the other's chain |
| Exchange.ForkAsks | src/consensus/protocol.rs:664-686 | A rival head of the same height raises an alert with both hashes, and a request for the whole chain exactly when its hash is the smaller and one may be sent |
| Exchange.WrongParentHeals | src/consensus/protocol.rs:706-713 | A next block that does not chain off the head changes nothing and asks for the whole chain; the answer of a taller sender is adopted |
| Exchange.FullSyncHeals | src/consensus/protocol.rs:871-905 | Asked for everything, a node serves its chain as read back, and whoever takes that in ends on the better of the two chains |
| Exchange.HeartbeatRests | src/consensus/protocol.rs:820-846 | A peer no taller is not asked; a different head of the same height raises an alert, anything else nothing |
| Exchange.AsksIff | src/consensus/protocol.rs:760-776 | A request goes out and is timed exactly when there is no interval or it has passed |
| Intake.SubmitSends | src/consensus/protocol.rs:297-324 | A claim is queued and gossiped if and only if it is the node's own, verifies, is plausible and is neither waiting nor committed; otherwise nothing changes |
| Intake.GossipWaits | src/consensus/protocol.rs:492-514 | A gossiped claim joins those waiting if and only if it verifies and is neither waiting, committed nor reserved; past the bound only the dropped entries go; nothing else changes |
| Intake.ClaimSpreads | src/consensus/protocol.rs:297-504 | What one node submits waits at every other that hears it, has room and did not know it |
| Intake.RefusalIs | src/consensus/protocol.rs:611-632 | A refused block: if every claim of it is in the ledger by id or turn, its claims stop waiting and being reserved and those there by id are indexed; otherwise nothing changes but a request from the height below |
| Intake.RejectRemembered | src/consensus/protocol.rs:714-732 | A next block that fails validation is remembered and changes nothing else; redelivered it changes nothing |
| Intake.RejectStays | src/consensus/protocol.rs:742-754 | A rejected block stays remembered through 511 further rejections |
| Intake.TickTurns | src/consensus/protocol.rs:398-408 | A tick moves the view, by one, if and only if the timeout has passed since the last activity, and then the next turn starts from it |
| Intake.TurnLasts | src/consensus/protocol.rs:398-408 | Every turn gets its full time |
| Intake.EchoesIgnored | src/consensus/protocol.rs:820-874 | The node's own heartbeats and requests are ignored |
| Intake.AlertRemembered | src/consensus/protocol.rs:863-869 | A fork alert is remembered under its two hashes, once, and changes nothing else |
| Intake.TickPrunes | src/consensus/protocol.rs:850-861 | A tick keeps exactly the peers never timed or heard from within the limit, all if there is none |
| Intake.HeardStays | src/consensus/protocol.rs:820-861 | A peer heard from survives every tick until the limit has passed |
| Validity.ChainIsPortable | src/consensus/validation.rs:129-186 | A node with the first blocks of a valid chain, in any copies, accepts each further block |
| Validity.BlocksAreSealed | src/consensus/validation.rs:148-185 | Above height 0: at least max(1, recorded quorum) signatures by different signers, each verifying with its key over the hash of the block's own proposal; a later epoch than the block below, and claims |
| Validity.ReconstructAcceptable | src/ledger.rs:412-441 | A block read back is the stored one but for its quorum, which for a legacy block without one is the number of its signatures; it is acceptable exactly when the stored one is |
| Validity.PassedAppendsIff | src/ledger.rs:131-220 | On any ledger and for any noted ids, a block that passed validation is appended if and only if it is for the next height, has no claim id of the ledger, no (node, sequence) turn occurs twice, and on an empty ledger its epoch is not negative |
| Validity.NotedAppendsIff | src/consensus/protocol.rs:717-735 | Where the ledger's ids were noted, as in on_commit, only the turns (and a first epoch) decide |
| Validity.RepeatedTurnPasses | src/consensus/validation.rs:96-104 | Three sound claims of one node numbered x, y, x pass validation and cannot be appended |
| Validation.CheckpointPassesIff | src/consensus/validation.rs:129-186 | validate_checkpoint passes exactly canonical genesis, or blocks that extend the head with a later epoch, acceptable claims and a met quorum; the seen set grows by exactly the block's ids |
| Validation.ClaimsPassIff | src/consensus/validation.rs:76-114 | The claim loop passes exactly when claims are sound, ids distinct and consecutive claims of a node differ in sequence |
| Validation.QuorumMetIff | src/consensus/validation.rs:155-184 | The signature loop passes exactly when there are at least max(1, recorded quorum) signatures, by different signers, each verifying with its key over the proposal's hash |
| Checks.CheckProposal | src/consensus/validation.rs:36-115 | The running checks give the first fault of the proposal, or the grown seen set |
| Checks.CheckClaimList | src/consensus/validation.rs:76-113 | The claim loop with its sequence map and id sets computes that verdict |
| Checks.CheckQuorum | src/consensus/validation.rs:155-184 | The signer loop finds the first quorum fault or none |
| Checks.CheckCheckpoint | src/consensus/validation.rs:129-186 | The running checks give the verdict on a checkpoint |
| Chain.HeadBindsHistory | src/models.rs:259-264 | Two linked chains with one head hash have equal proposals and signatures at every height |
| Chain.AncestorIsLongestPrefix | src/consensus/protocol.rs:145-159 | Against a linked peer chain the common ancestor is the last index of the longest common prefix |
| Chain.BuiltNoRepeat | src/ledger.rs:157-183 | No claim id and no (node, sequence) appears twice in a ledger built by appends and rollbacks |
| Chain.UnitsConserved | src/ledger.rs:347-363 | Per-node totals over any list of distinct nodes covering the claimants add up to the ledger's total |
| Totals.ColumnIsLedger | src/ledger.rs:347-363 | The sum of the cu column, over a node's rows or over all, is the sum over the ledger's claims |
| Totals.SumColumn | src/ledger.rs:347-363 | Adding up the column row by row in any order gives that sum |
| Store.ChainStore.TotalFor | src/ledger.rs:347-355 | The table query gives the node's units in the ledger |
| Store.ChainStore.Total | src/ledger.rs:357-363 | The table query gives the ledger's units |
| Store.ChainStore.constructor | src/ledger.rs:43-96 | A new store holds the empty ledger |
| Store.ChainStore.Append | src/ledger.rs:131-220 | A block joins exactly when height, predecessor, epoch, hash and claims allow it; otherwise neither table changes; the tables stay the flattening of the ledger |
| Store.ChainStore.Rollback | src/ledger.rs:227-249 | Everything above a height goes, claims included, and the tables still are the flattening of what is left |
| Store.ChainStore.BlockAt | src/ledger.rs:273-276 | The block at a height as read back, or none |
| Store.ChainStore.ClaimExists | src/ledger.rs:365-369 | True exactly for claim ids of the ledger |
| Store.ChainStore.AllClaimIds | src/ledger.rs:253-258 | Exactly the ledger's claim ids |
| Store.AlreadyCommittedIs | src/ledger.rs:105-127 | The table queries say exactly that the height is covered or every claim clashes with one in the ledger |
| Store.InsertClaims | src/ledger.rs:197-218 | The insert loop succeeds exactly when no row repeats an id or a turn, and then adds exactly the block's rows |
| Store.RolledBackTables | src/ledger.rs:227-249 | Deleting rows above a height is the same as rolling the ledger back |
| Tables.LedgerClash | src/ledger.rs:159-183 | A claim clashes with the table exactly when it clashes with a committed claim |
| Audit.VerifyChain | src/ledger.rs:373-409 | On arbitrary tables: accepts exactly when every stored link and hash up to the highest row holds and no claim id or turn repeats |
| Audit.RowIff | src/ledger.rs:385-398 | A row is accepted exactly when it names the stored hash of the row below (the fixed one at the bottom) and is stored under the hash of its proposal and signatures |
| Audit.AcceptsIff | src/ledger.rs:373-409 | The walk accepts exactly when every row is accepted and no two claim positions share an id or a node's sequence number |
| Audit.BuiltTablesAccepted | src/ledger.rs:373-409 | Tables built by appends and rollbacks are accepted |
| Committee.SealerIgnoresListing | src/consensus/protocol.rs:117-131 | Any listing of the members sorted by the comparison names the same sealer, so equal committees and ledgers agree for every view |
| Committee.RotationIsFair | src/consensus/protocol.rs:129-130 | Any n consecutive views over a committee of n pick each member exactly once |
| Committee.SealersByWeight | src/consensus/protocol.rs:117-131 | Over a committee of n, views 0 to n-1 go down the members by contribution, equal ones by rising id |
| Committee.MembersIff | src/consensus/protocol.rs:96-115 | A member is the node itself, a peer, or a sealer (other than genesis) or signer of one of the last blocks in the window; of any block if the window is negative |
| Committee.QuorumsOverlap | src/consensus/protocol.rs:133-141 | Two quorums share at least max(0, 2q-n) members |
| Committee.OverlapIsTight | src/consensus/protocol.rs:133-141 | Every committee has two quorums that share exactly that many |
| Committee.OverlapInNumbers | src/consensus/protocol.rs:133-141 | That is f+1, f or max(0, f-1) for n = 3f+1, 3f+2, 3f+3, and for majorities one if n is odd, two if it is even |
| NodeState.ProtocolState.constructor | src/consensus/protocol.rs:162-226 | Opens the node on its store and adds genesis to an empty one |
| NodeState.ProtocolState.CommitteeMembers | src/consensus/protocol.rs:96-115 | The loop over recent blocks, signers and peers collects exactly the members |
| NodeState.ProtocolState.SealerForView | src/consensus/protocol.rs:117-131 | Weights read from the claims table, sorting by them and picking by view give the sealer |
| NodeState.ProtocolState.WeighMembers | src/consensus/protocol.rs:120-121 | Each member's weight is its units in the ledger, summed from the table |
| NodeState.ProtocolState.QuorumSize | src/consensus/protocol.rs:133-141 | The size `Committee.OverlapInNumbers` is about, for the committee the node knows |
| NodeState.ProtocolState.SubmitClaim | src/consensus/protocol.rs:297-324 | Accepted exactly for own, verifying, plausible claims; a new one is queued and gossiped |
| NodeState.ProtocolState.OnClaims | src/consensus/protocol.rs:492-514 | A new verifying claim is queued; the queue ends within its bound |
| NodeState.ProtocolState.AddOwnSignature | src/consensus/protocol.rs:480-490 | The node's share is recorded, remembered as signed and sent |
| NodeState.ProtocolState.TakeUp | src/consensus/protocol.rs:536-543 | Proposal remembered, claims reserved, signed |
| NodeState.ProtocolState.OnProposal | src/consensus/protocol.rs:516-547 | The whole new state after a proposal message, all refusals included; `Votes.VotesIff` says for which ones it votes |
| NodeState.ProtocolState.OnSignature | src/consensus/protocol.rs:549-563 | The whole new state after a share |
| NodeState.ProtocolState.MaybeCommit | src/consensus/protocol.rs:565-602 | Commits with signatures in signer order and the quorum frozen, once there are enough shares and the block validates; `Votes.SealsQuorum` says what that block carries |
| NodeState.ProtocolState.CommitLocal | src/consensus/protocol.rs:604-651 | The whole new state: appended, already known, or refused |
| NodeState.ProtocolState.AppendBlock | src/consensus/protocol.rs:611-650 | Appends with all the bookkeeping exactly when the store takes the block, else changes nothing |
| NodeState.ProtocolState.TidyUp | src/consensus/protocol.rs:620-626 | After a refusal of known claims only those in the ledger count as committed |
| NodeState.ProtocolState.OnCommit | src/consensus/protocol.rs:653-736 | The whole new state for old, queued, forked, rejected and next blocks |
| NodeState.ProtocolState.NoteCommitReject | src/consensus/protocol.rs:742-754 | The ring keeps the latest 512 distinct rejects |
| NodeState.ProtocolState.RequestSync | src/consensus/protocol.rs:760-776 | A request goes out unless one did within the interval |
| NodeState.ProtocolState.FlushPendingCommits | src/consensus/protocol.rs:778-803 | Queued commits in height order, each applied if it has become the next one |
| NodeState.ProtocolState.InsertPendingCommit | src/consensus/protocol.rs:808-818 | The queue drops lowest heights past its bound |
| NodeState.ProtocolState.OnHeartbeat | src/consensus/protocol.rs:820-846 | Peer noted; asks a taller peer, alerts on a different head |
| NodeState.ProtocolState.PruneStalePeers | src/consensus/protocol.rs:850-861 | Keeps the peers heard from recently enough |
| NodeState.ProtocolState.OnFork | src/consensus/protocol.rs:863-869 | Alert remembered once |
| NodeState.ProtocolState.OnSyncRequest | src/consensus/protocol.rs:871-890 | Answers with every block above the height, as read back |
| NodeState.ProtocolState.OnSyncResponse | src/consensus/protocol.rs:892-905 | Full chains reconcile, suffixes go block by block through on_commit |
| NodeState.ProtocolState.ReconcileChain | src/consensus/protocol.rs:911-1031 | Sort, compare, ancestor, precheck, snapshot, rollback, apply and restore, in place on the store, give the state `Reorg.ReorgOutcome` is about |
| NodeState.ProtocolState.ApplyBlocks | src/consensus/protocol.rs:997-1030 | The apply loop with its restore on failure |
| NodeState.ProtocolState.RestoreChain | src/consensus/protocol.rs:1011-1022 | Both restore loops, the rollback between them, and the rebuilt index |
| NodeState.ProtocolState.ProposeInternal | src/consensus/protocol.rs:1033-1088 | The whole new state of a proposal attempt |
| NodeState.ProtocolState.Tick | src/consensus/protocol.rs:389-435 | Peers pruned, view advanced after the timeout, heartbeat sent; reports a takeover exactly when the timeout made this node the sealer |
| Steps.FindAncestor | src/consensus/protocol.rs:145-159 | The downward search finds the deepest shared height |
| Steps.SortBlocks | src/consensus/protocol.rs:912-913 | The insertion loop computes the sort `Reorg.SortSorts` is about |
| Reorg.SortSorts | src/consensus/protocol.rs:913 | The result has the same blocks as often, by rising height, and blocks of one height keep their order |
| Steps.IsChained | src/consensus/protocol.rs:951-975 | The precheck loop accepts exactly contiguous, chained blocks |
| Steps.BlocksFrom | src/consensus/protocol.rs:875-880 | The blocks from a height on, skipping heights without one |
| Steps.Trim | src/consensus/protocol.rs:810-817 | The trimming loop computes what `Protocol.TrimKeepsHighest` is about |
| Protocol.TrimKeepsHighest | src/consensus/protocol.rs:810-817 | At most 1024 entries are kept, unchanged, as many as there were or exactly 1024, and every kept height is above every dropped one |
| Steps.SortShares | src/consensus/protocol.rs:571-582 | Signatures in signer order |
| Gossip.ReadmittedLate | src/network/tcp.rs:54-68 | An id is let in again only after 4096 other admissions: any 4097 admissions in a row are of different ids |
| Gossip.WindowIsLatest | src/network/tcp.rs:54-68 | After any ids, the window is exactly the latest 4096 admissions |
| Gossip.Relay.NoteSeen | src/network/tcp.rs:54-68 | Map and queue hold the same ids, each once, within the bound; says whether the id was known |
| Gossip.Relay.OnFrame | src/network/tcp.rs:83-112 | Own frames end the connection, known ids are dropped, new ones are delivered; then each peer but the sender has exactly that frame added at the end of its queue, and the sender's queue is as before |
| Gossip.Relay.Publish | src/network/tcp.rs:197-205 | Delivered locally and added at the end of every peer's queue, without noting the id |
| Gossip.Relay.Enqueue | src/network/tcp.rs:99-110 | The frame is added at the end of every queue but the skipped one, which is unchanged |
| Flooding.Hear | src/network/tcp.rs:83-112 | A relay that reads a frame moves as the network does: the window and deliveries agree, and what is new in its queues is exactly what enters flight |
| Flooding.Say | src/network/tcp.rs:197-205 | So does a relay that publishes |
| Flooding.FloodingStops | src/network/tcp.rs:83-112 | On any finite graph of degree d, with at most 4096 ids and P publications, no run has more than d*N*ids + d*P deliveries and losses |
| Flooding.DeliveredOnce | src/network/tcp.rs:83-112 | In such runs no node delivers a message twice |
| Flooding.SilenceMeansAll | src/network/tcp.rs:83-112 | When a run without losses falls silent, every node connected to the publisher has delivered the message |
| Flooding.NextInv | src/network/tcp.rs:83-122 | Every move keeps: frames in flight come from a node that has the message, what is had is what is recorded, ids have one publisher |
| CanonicalForm.CanonicalDecides | src/crypto.rs:29-101 | A reader recovers every value from its canonical text; two values share a text exactly when equal up to the order of object keys |
| CanonicalForm.CanonicalShape | src/crypto.rs:29-101 | The canonical text has only characters from 0x20 to 0x7f, and every object in it lists its keys in rising order |
| Text.LessIff | src/crypto.rs:51-54 | The order: at the first difference the smaller character comes first, and a prefix before what it starts |
| CanonicalJson.ValueRoundTrip | src/crypto.rs:29-70 | Reading a printed value gives it back and leaves what followed |
| CanonicalJson.NumberRoundTrip | src/crypto.rs:34-42 | Integers and floats never share a text |
| JsonText.QuotedRoundTrip | src/crypto.rs:71-101 | Every string survives escaping: short, control, BMP and surrogate-pair escapes (section 7 of RFC 8259) |
| JsonText.EscapeIs | src/crypto.rs:71-101 | Each character's text in full: the seven short escapes, other ASCII as itself, `\u` and four lower-case hex digits for controls and up to 0xffff, two such units, the surrogates, beyond |
| CanonicalWriter.Writer.WriteValue | src/crypto.rs:29-69 | Pushes exactly the canonical text onto the buffer |
| CanonicalWriter.Writer.WriteEscaped | src/crypto.rs:71-101 | Pushes exactly the quoted, escaped string |
| Decimal.PyFloatKeepsValue | src/crypto.rs:103-182 | For every nonzero decimal text the re-notation denotes the same number, is stable, and is positional if and only if 10^-4 <= the number's size < 10^16 |
| Decimal.LeadIsMagnitude | src/crypto.rs:131-137 | The leading exponent is the order of magnitude: 10^lead <= size < 10^(lead+1) |
| Decimal.RenderRoundTrip | src/crypto.rs:145-181 | The rendered text reads back as the same sign, digits and exponent |
| Decimal.RenderShape | src/crypto.rs:145-181 | How the text looks: a minus sign only for negative numbers, then digits on both sides of a point, or one digit, its fraction and a signed exponent of two digits or more; no digit to spare |
| Decimal.WriteFloat | src/crypto.rs:120-182 | The splitting and re-notation of the printer's text |
| Decimal.WriteNotation | src/crypto.rs:145-181 | The three notations, zero loops included |
| Base32.RoundTrip | src/crypto.rs:273-291 | A decoder recovers every byte string; the length is ceil(8n/5) (section 6 of RFC 4648, no padding) |
| Base32.EncodeAt | src/crypto.rs:273-291 | Letter k is the one of the alphabet for bits 5k to 5k+4, zeros past the end |
| Base32.BitsAt | src/crypto.rs:273-291 | Bit 8j+i is bit i of byte j |
| Base32.ByteDigits | src/crypto.rs:278-281 | A byte's bits are its binary digits, highest first |
| Base32.Write | src/crypto.rs:273-291 | The 64-bit buffer that drops high bits still writes the exact bit string in groups of five |
| Models.ClaimRecord | src/models.rs:123-160 | Every field of a claim stands under its own name in its JSON value |
| Models.OtherRecords | src/models.rs:164-236 | So do those of signed claims, proposals and signatures |
| Models.DigestBinds | src/models.rs:259-264 | Over a sound digest no two proposals and no two blocks share a hash |
| Models.ProposalHashBinds | src/models.rs:223-225 | A proposal's hash determines it |
| Models.BlockHashBinds | src/models.rs:259-264 | A block's hash determines proposal and signatures |

## Left out

- NodeState.ProtocolState.OnClaims: which entries are dropped past the bound is left open, because a hash map yields them in no fixed order.
- Decimal.PyFloatKeepsValue: NaN and the infinities are not modelled, since finite numbers only reach the hashes; zero is its own case (`Decimal.ZeroText`).
- BFT agreement is not claimed: a node may sign two proposals at one height. What is proved is convergence.
- NodeState.ProtocolState.OnSyncRequest: a request from height 2^63-1, whose successor wraps around, is not modelled; heights are unbounded integers here, as no ledger grows to 2^63 blocks.
- Quorums beyond the signed 64-bit range of their column are not modelled.
- Debug builds, in which the additions that wrap here stop the program instead, are not modelled.
- The commit listener calls and log output are not modelled; heartbeat payloads are kept only as the set of peers and their times.
- Frames without an id are handled (`Gossip.Handle`) but never made by the program; the flooding theorems are about frames it makes.
- Connections that come and go during a flood: the graph is fixed, and a dropped connection shows as lost frames.
- Ed25519, SHA-256, ryu, serde and SQLite internals are assumptions, as described above.
- The HTTP interface and its pages, command line and environment settings, which only pass values in and out.
- Running models, probing hardware and starting helper processes, which are calls into the operating system.
- Reward and FLOPS formulas in floating point; a claim's units are an exact number and its plausibility a predicate here.
- Peer discovery, reconnecting and the in-process transport of the simulator.
