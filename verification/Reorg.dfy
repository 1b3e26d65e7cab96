/** What `reconcile_chain` leaves behind, for every peer input. */
module Reorg {
  import opened Models
  import opened Chain
  import opened Validation
  import opened Validity
  import opened Committee
  import opened Protocol
  import Tables

  // ---------------------------------------------------------------- sorted input

  ghost predicate HeightsAscend(bs: seq<Checkpoint>) {
    forall i, j :: 0 <= i < j < |bs| ==> bs[i].Height() <= bs[j].Height()
  }

  lemma {:induction false} InsertSorted(b: Checkpoint, bs: seq<Checkpoint>)
    requires HeightsAscend(bs)
    ensures HeightsAscend(InsertByHeight(b, bs)) && |InsertByHeight(b, bs)| == |bs| + 1
    ensures forall x :: x in InsertByHeight(b, bs) <==> x == b || x in bs
  {
    if bs != [] && !(b.Height() < bs[0].Height()) {
      InsertSorted(b, bs[1..]);
      assert bs == [bs[0]] + bs[1..];
      assert forall x :: x in bs[1..] ==> bs[0].Height() <= x.Height();
    }
  }

  lemma {:induction false} InsertKeepsAll(b: Checkpoint, bs: seq<Checkpoint>)
    ensures multiset(InsertByHeight(b, bs)) == multiset(bs) + multiset{b}
  {
    if bs != [] && !(b.Height() < bs[0].Height()) {
      InsertKeepsAll(b, bs[1..]);
      assert bs == [bs[0]] + bs[1..];
    }
  }

  /** The blocks of one height, in the order listed. */
  ghost function AtHeight(bs: seq<Checkpoint>, h: int): seq<Checkpoint> {
    if bs == [] then [] else (if bs[0].Height() == h then [bs[0]] else []) + AtHeight(bs[1..], h)
  }

  lemma {:induction false} AtHeightSnoc(bs: seq<Checkpoint>, b: Checkpoint, h: int)
    ensures AtHeight(bs + [b], h) == AtHeight(bs, h) + (if b.Height() == h then [b] else [])
  {
    if bs == [] {
      assert [] + [b] == [b] && [b][1..] == [];
    } else {
      AtHeightSnoc(bs[1..], b, h);
      assert (bs + [b])[1..] == bs[1..] + [b];
    }
  }

  lemma {:induction false} AtHeightNone(bs: seq<Checkpoint>, h: int)
    requires forall x :: x in bs ==> x.Height() > h
    ensures AtHeight(bs, h) == []
  {
    if bs == [] {
    } else {
      assert bs[0] in bs;
      AtHeightNone(bs[1..], h);
    }
  }

  /** A block goes in behind those of its own height. */
  lemma {:induction false} InsertBehind(b: Checkpoint, bs: seq<Checkpoint>, h: int)
    requires HeightsAscend(bs)
    ensures AtHeight(InsertByHeight(b, bs), h) == AtHeight(bs, h) + (if b.Height() == h then [b] else [])
  {
    if bs == [] || b.Height() < bs[0].Height() {
      assert ([b] + bs)[1..] == bs;
      if b.Height() == h {
        forall x | x in bs ensures x.Height() > h {
          var i :| 0 <= i < |bs| && bs[i] == x;
          assert i == 0 || bs[0].Height() <= bs[i].Height();
        }
        AtHeightNone(bs, h);
      }
    } else {
      InsertBehind(b, bs[1..], h);
      var rest := InsertByHeight(b, bs[1..]);
      assert ([bs[0]] + rest)[1..] == rest;
    }
  }

  /** The sort gives the same blocks, each as often, by rising height, and keeps the order of
      blocks of one height. */
  lemma {:induction false} SortSorts(bs: seq<Checkpoint>)
    ensures HeightsAscend(SortByHeight(bs)) && |SortByHeight(bs)| == |bs|
    ensures multiset(SortByHeight(bs)) == multiset(bs)
    ensures forall x :: x in SortByHeight(bs) <==> x in bs
    ensures forall h :: AtHeight(SortByHeight(bs), h) == AtHeight(bs, h)
  {
    hide HeightsAscend, AtHeight, InsertByHeight;
    if bs == [] {
      assert HeightsAscend([]) by { NothingAscends(); }
    } else {
      var front, b := bs[..|bs| - 1], bs[|bs| - 1];
      var sorted := SortByHeight(front);
      SortSorts(front);
      InsertSorted(b, sorted);
      InsertKeepsAll(b, sorted);
      assert bs == front + [b];
      forall h ensures AtHeight(SortByHeight(bs), h) == AtHeight(bs, h) {
        InsertBehind(b, sorted, h);
        AtHeightSnoc(front, b, h);
      }
    }
  }

  lemma NothingAscends()
    ensures HeightsAscend([])
  {
  }

  /** Sorting leaves an ascending list as it is. */
  lemma {:induction false} SortKeeps(bs: seq<Checkpoint>)
    requires HeightsAscend(bs)
    ensures SortByHeight(bs) == bs
  {
    if bs == [] {
    } else {
      SortKeeps(bs[..|bs| - 1]);
      InsertLast(bs[|bs| - 1], bs[..|bs| - 1]);
      assert bs == bs[..|bs| - 1] + [bs[|bs| - 1]];
    }
  }

  lemma {:induction false} InsertLast(b: Checkpoint, bs: seq<Checkpoint>)
    requires forall x :: x in bs ==> x.Height() <= b.Height()
    ensures InsertByHeight(b, bs) == bs + [b]
  {
    if bs == [] {
    } else {
      assert bs[0] in bs;
      InsertLast(b, bs[1..]);
    }
  }

  lemma {:induction false} AboveMembers(bs: seq<Checkpoint>, h: int)
    ensures forall x :: x in Above(bs, h) ==> x in bs && x.Height() > h
    ensures bs != [] && bs[|bs| - 1].Height() > h ==> Above(bs, h) != [] && Above(bs, h)[|Above(bs, h)| - 1] == bs[|bs| - 1]
  {
    if bs == [] {
    } else {
      AboveMembers(bs[..|bs| - 1], h);
    }
  }

  lemma {:induction false} AboveNone(bs: seq<Checkpoint>, h: int)
    requires forall x :: x in bs ==> x.Height() <= h
    ensures Above(bs, h) == []
  {
    if bs == [] {
    } else {
      AboveNone(bs[..|bs| - 1], h);
    }
  }

  lemma {:induction false} ChainedHeights(env: Env, prev: string, height: int, incoming: seq<Checkpoint>, i: nat)
    requires Chained(env, prev, height, incoming) && i < |incoming|
    ensures incoming[i].Height() == height + i
    ensures incoming[i].proposal.prevHash == if i == 0 then prev else env.Hash(incoming[i - 1])
    decreases i
  {
    if i == 0 {
    } else {
      ChainedHeights(env, env.Hash(incoming[0]), height + 1, incoming[1..], i - 1);
    }
  }

  // -------------------------------------------------------------------- outcomes

  datatype Outcome = Declines | Adopts | DropsTail | Restores

  /** How many incoming blocks, from `i` on, are acceptable one after the other. */
  ghost function Progress(env: Env, tolerance: real, prefix: Ledger, incoming: seq<Checkpoint>, i: nat): (k: nat)
    requires i <= |incoming|
    ensures i <= k <= |incoming|
    decreases |incoming| - i
  {
    if i < |incoming| && Acceptable(env, tolerance, prefix + incoming[..i], incoming[i])
    then Progress(env, tolerance, prefix, incoming, i + 1) else i
  }

  /** The last block passes validation but the store refuses it. */
  ghost predicate TailRefused(env: Env, tolerance: real, prefix: Ledger, incoming: seq<Checkpoint>) {
    && incoming != []
    && Progress(env, tolerance, prefix, incoming, 0) == |incoming| - 1
    && ValidateCheckpoint(env, tolerance, incoming[|incoming| - 1], prefix + incoming[..|incoming| - 1], {}, false).Passed?
  }

  ghost function OutcomeOf(env: Env, tolerance: real, chain: Ledger, peer: seq<Checkpoint>): Outcome {
    var blocks := SortByHeight(peer);
    if Declined(env, chain, blocks) then Declines
    else
      var a := CommonAncestor(env, chain, blocks);
      var incoming := Above(blocks, a);
      if Progress(env, tolerance, chain[..a + 1], incoming, 0) == |incoming| then Adopts
      else if TailRefused(env, tolerance, chain[..a + 1], incoming) then DropsTail
      else Restores
  }

  /** The blocks both sides share, and what the peer offers above them. */
  ghost function Shared(env: Env, chain: Ledger, peer: seq<Checkpoint>): Ledger {
    chain[..CommonAncestor(env, chain, SortByHeight(peer)) + 1]
  }

  ghost function Offered(env: Env, chain: Ledger, peer: seq<Checkpoint>): seq<Checkpoint> {
    Above(SortByHeight(peer), CommonAncestor(env, chain, SortByHeight(peer)))
  }

  /** The ledger a reorg ends with. */
  ghost function ReorgChain(env: Env, tolerance: real, chain: Ledger, peer: seq<Checkpoint>): Ledger {
    var p, inc := Shared(env, chain, peer), Offered(env, chain, peer);
    match OutcomeOf(env, tolerance, chain, peer)
    case Declines => chain
    case Adopts => p + inc
    case DropsTail => if inc == [] then p else p + inc[..|inc| - 1]
    case Restores => p + Served(chain)[|p|..]
  }

  // ------------------------------------------------------------- commit and refusal

  lemma CommitLocalChain(env: Env, config: Config, n: Node, b: Checkpoint, now: real)
    ensures CommitLocal(env, config, n, b, now).chain == Append(env, n.chain, b)
  {
    hide Claims, ClaimIds, BlockIds, AlreadyCommitted, FreshHash, ClashFree, NoRepeat, TipHash;
    if n.chain != [] && b.Height() <= |n.chain| - 1 { assert !AppendOk(env, n.chain, b); }
  }

  /** Appending in order what the ledger lacks only ever extends it. */
  lemma {:induction false} AppendMissingExtends(env: Env, chain: Ledger, bs: seq<Checkpoint>)
    ensures |chain| <= |AppendMissing(env, chain, bs)| && AppendMissing(env, chain, bs)[..|chain|] == chain
  {
    hide AppendOk;
    if bs == [] {
    } else {
      AppendMissingExtends(env, chain, bs[..|bs| - 1]);
    }
  }

  lemma {:induction false} AppendMissingAll(env: Env, chain: Ledger, bs: seq<Checkpoint>)
    requires forall i :: 0 <= i < |bs| ==> bs[i].Height() == |chain| + i && AppendOk(env, chain + bs[..i], bs[i])
    ensures AppendMissing(env, chain, bs) == chain + bs
  {
    hide AppendOk;
    if bs == [] {
    } else {
      var front := bs[..|bs| - 1];
      forall i | 0 <= i < |front| ensures front[i].Height() == |chain| + i && AppendOk(env, chain + front[..i], front[i]) {
        assert front[..i] == bs[..i];
      }
      AppendMissingAll(env, chain, front);
      assert AppendOk(env, chain + front, bs[|bs| - 1]);
      assert chain + bs == chain + front + [bs[|bs| - 1]];
    }
  }

  /** After a failed reorg the ledger reads exactly as before. */
  lemma RestoreIsExact(env: Env, chain: Ledger, a: int, current: Ledger, applied: nat)
    requires Built(env, chain) && -1 <= a < |chain|
    requires a + 1 <= |current| && current[..a + 1] == chain[..a + 1]
    ensures Restored(env, current, Saved(chain, a), applied, a) == chain[..a + 1] + Served(chain)[a + 1..]
  {
    hide AppendMissing, Built, AppendOk;
    var saved := Saved(chain, a);
    var first := if applied <= |saved| then saved[..applied] else saved;
    var grown := AppendMissing(env, current, first);
    AppendMissingExtends(env, current, first);
    assert grown[..a + 1] == current[..|current|][..a + 1] by { assert grown[..|current|][..a + 1] == grown[..a + 1]; }
    assert Rollback(grown, a) == chain[..a + 1];
    forall i | 0 <= i < |saved| ensures saved[i].Height() == a + 1 + i && AppendOk(env, chain[..a + 1] + saved[..i], saved[i]) {
      SavedAppends(env, chain, a, i);
    }
    AppendMissingAll(env, chain[..a + 1], saved);
  }

  lemma SavedAppends(env: Env, chain: Ledger, a: int, i: nat)
    requires Built(env, chain) && -1 <= a < |chain| && i < |Saved(chain, a)|
    ensures Saved(chain, a)[i].Height() == a + 1 + i
    ensures AppendOk(env, chain[..a + 1] + Saved(chain, a)[..i], Saved(chain, a)[i])
  {
    hide AppendOk, SameChain, Saved, SameBlock;
    var k := a + 1 + i;
    SavedAt(chain, a, i);
    BuiltHeights(env, chain, k);
    assert AppendOk(env, chain[..k], chain[k]);
    SameAppend(env, chain[..k], chain[..a + 1] + Saved(chain, a)[..i], chain[k], Saved(chain, a)[i]);
  }

  /** Saved blocks and the blocks below them are the chain's own, up to quorum. */
  lemma SavedAt(chain: Ledger, a: int, i: nat)
    requires -1 <= a < |chain| && i < |Saved(chain, a)|
    ensures a + 1 + i < |chain| && SameBlock(chain[a + 1 + i], Saved(chain, a)[i])
    ensures Saved(chain, a)[i].Height() == chain[a + 1 + i].Height()
    ensures SameChain(chain[..a + 1 + i], chain[..a + 1] + Saved(chain, a)[..i])
  {
    var c, d := chain[..a + 1 + i], chain[..a + 1] + Saved(chain, a)[..i];
    forall j | 0 <= j < |c| ensures SameBlock(c[j], d[j]) {
      assert d[j] == if j <= a then chain[j] else Reconstruct(chain[j]);
    }
  }

  /** Reading it back: same blocks, same claims. */
  lemma RestoredReadsSame(chain: Ledger, k: nat)
    requires k <= |chain|
    ensures var r := chain[..k] + Served(chain)[k..];
            Served(r) == Served(chain) && SameChain(chain, r) && Claims(r) == Claims(chain)
  {
    hide Claims, Reconstruct, SameBlock;
    var r := chain[..k] + Served(chain)[k..];
    forall i | 0 <= i < |chain| ensures SameBlock(chain[i], r[i]) && Served(r)[i] == Served(chain)[i] { ReadsSame(chain, k, i); }
    SameClaims(chain, r);
  }

  lemma ReadsSame(chain: Ledger, k: nat, i: nat)
    requires k <= |chain| && i < |chain|
    ensures var r := chain[..k] + Served(chain)[k..];
            SameBlock(chain[i], r[i]) && Reconstruct(r[i]) == Reconstruct(chain[i])
  {
    var r := chain[..k] + Served(chain)[k..];
    assert r[i] == if i < k then chain[i] else Reconstruct(chain[i]);
    ReconstructTwice(chain[i]);
  }

  /** A restore puts the claims table back row for row. */
  lemma RestoredRows(env: Env, config: Config, n: Node, peer: seq<Checkpoint>, now: real)
    requires Built(env, n.chain) && OutcomeOf(env, config.flopsTolerance, n.chain, peer) == Restores
    ensures var r := Reconcile(env, config, n, peer, now).chain;
            Tables.TableOf(Tables.FlatRows(env, r)) == Tables.TableOf(Tables.FlatRows(env, n.chain))
  {
    hide OutcomeOf, ReorgChain, Reconcile, Built, TailOf, Offered, Served, Claims, ClaimIds, Tables.FlatRows, Tables.TableOf;
    ReorgOutcome(env, config, n, peer, now);
    Tables.SameRows(env, n.chain, Reconcile(env, config, n, peer, now).chain);
  }

  lemma ReconstructTwice(b: Checkpoint)
    ensures Reconstruct(Reconstruct(b)) == Reconstruct(b)
  {
  }

  // ------------------------------------------------------------------ the apply loop

  /** A refused block leaves a gap the next one cannot pass. */
  lemma GapFails(env: Env, tolerance: real, chain: Ledger, b: Checkpoint)
    requires b.Height() > |chain|
    ensures ValidateCheckpoint(env, tolerance, b, chain, {}, false).Failed?
  {
    hide CheckClaims, QuorumFault;
  }

  ghost predicate ApplyState(n: Node, prefix: Ledger, incoming: seq<Checkpoint>, i: nat)
    requires i <= |incoming|
  { n.chain == prefix + incoming[..i] }

  ghost predicate RestoredFrom(env: Env, r: Ledger, current: Ledger, saved: seq<Checkpoint>, applied: nat, prefix: Ledger) {
    |prefix| <= |current| && current[..|prefix|] == prefix && r == Restored(env, current, saved, applied, |prefix| - 1)
  }

  /** The ledger and claim index the apply loop ends with, from a state in which the
      first `i` blocks went in. */
  lemma {:induction false} ApplyEnds(env: Env, config: Config, n: Node, prefix: Ledger, incoming: seq<Checkpoint>, i: nat,
                                     saved: seq<Checkpoint>, now: real)
    requires i <= |incoming| && ApplyState(n, prefix, incoming, i)
    requires forall j :: 0 <= j < |incoming| ==> incoming[j].Height() == |prefix| + j
    ensures var tol := config.flopsTolerance;
            var k := Progress(env, tol, prefix, incoming, i);
            var r := Apply(env, config, n, incoming, i, saved, |prefix| - 1, now);
            && r.committed == ClaimIds(r.chain)
            && (k == |incoming| ==> r.chain == prefix + incoming)
            && (k == |incoming| - 1 && ValidateCheckpoint(env, tol, incoming[k], prefix + incoming[..k], {}, false).Passed? ==>
                  r.chain == prefix + incoming[..k])
            && (k < |incoming| && !(k == |incoming| - 1 && ValidateCheckpoint(env, tol, incoming[k], prefix + incoming[..k], {}, false).Passed?) ==>
                  exists current, applied :: RestoredFrom(env, r.chain, current, saved, applied, prefix))
    decreases |incoming| - i
  {
    hide AppendOk, ValidateCheckpoint, ClaimIds, CommitLocal, Restored;
    var tol := config.flopsTolerance;
    if i == |incoming| {
      assert incoming[..i] == incoming;
    } else {
      var b := incoming[i];
      var next := CommitLocal(env, config, n, b, now);
      CommitLocalChain(env, config, n, b, now);
      if ValidateCheckpoint(env, tol, b, n.chain, {}, false).Failed? {
        assert n.chain[..|prefix|] == prefix;
        assert RestoredFrom(env, Restored(env, n.chain, saved, i, |prefix| - 1), n.chain, saved, i, prefix);
      } else if AppendOk(env, n.chain, b) {
        assert next.chain == prefix + incoming[..i + 1];
        ApplyEnds(env, config, next, prefix, incoming, i + 1, saved, now);
      } else {
        assert next.chain == prefix + incoming[..i];
        if i + 1 < |incoming| {
          GapFails(env, tol, next.chain, incoming[i + 1]);
          assert next.chain[..|prefix|] == prefix;
          assert RestoredFrom(env, Restored(env, next.chain, saved, i + 1, |prefix| - 1), next.chain, saved, i + 1, prefix);
        }
      }
    }
  }

  // ----------------------------------------------------------------- the theorem

  /** For every peer input a reorg ends in one of four ways: declined with nothing
      changed; the shared prefix plus everything offered; that less its last block, only
      when the store refuses that one; or the old ledger, block for block as the store
      reads it. Past the decision to roll back the claim index is rebuilt exactly. */
  lemma ReorgOutcome(env: Env, config: Config, n: Node, peer: seq<Checkpoint>, now: real)
    requires Built(env, n.chain)
    ensures var r := Reconcile(env, config, n, peer, now);
            var o := OutcomeOf(env, config.flopsTolerance, n.chain, peer);
            && r.chain == ReorgChain(env, config.flopsTolerance, n.chain, peer)
            && (o == Declines ==> r == n)
            && (o != Declines ==> r.committed == ClaimIds(r.chain))
            && (o == DropsTail ==> Offered(env, n.chain, peer) != [] && TailOf(env, r.chain, n.chain, peer))
            && (o == Restores ==> Served(r.chain) == Served(n.chain) && SameChain(n.chain, r.chain) && Claims(r.chain) == Claims(n.chain))
  {
    hide AppendOk, ValidateCheckpoint, Claims, ClaimIds, Built, Apply, Progress, SortByHeight, Above, AncestorFrom, TailRefused,
      SameChain, Served, TipHash, RolledBack, Saved, Declined, Reconcile, Shared, Offered;
    if !Declined(env, n.chain, SortByHeight(peer)) {
      var a, inc := ReorgInputs(env, config, n, peer, now);
      ReorgApplies(env, config, n, a, inc, now);
    } else {
      DeclinedKeeps(env, config, n, peer, now);
    }
  }

  lemma DeclinedKeeps(env: Env, config: Config, n: Node, peer: seq<Checkpoint>, now: real)
    requires Declined(env, n.chain, SortByHeight(peer))
    ensures Reconcile(env, config, n, peer, now) == n
  {
  }

  /** The ancestor and the offered blocks a reorg goes on with. */
  lemma ReorgInputs(env: Env, config: Config, n: Node, peer: seq<Checkpoint>, now: real) returns (a: int, inc: seq<Checkpoint>)
    requires !Declined(env, n.chain, SortByHeight(peer))
    ensures a == CommonAncestor(env, n.chain, SortByHeight(peer)) && inc == Above(SortByHeight(peer), a)
    ensures -1 <= a < |n.chain| && Shared(env, n.chain, peer) == n.chain[..a + 1] && Offered(env, n.chain, peer) == inc
    ensures forall j :: 0 <= j < |inc| ==> inc[j].Height() == a + 1 + j
    ensures Reconcile(env, config, n, peer, now) == Apply(env, config, RolledBack(n, a), inc, 0, Saved(n.chain, a), a, now)
  {
    hide Apply, RolledBack, Saved, SortByHeight, Above, AncestorFrom, Wins, TipHash;
    a := CommonAncestor(env, n.chain, SortByHeight(peer));
    inc := Above(SortByHeight(peer), a);
    forall j | 0 <= j < |inc| ensures inc[j].Height() == a + 1 + j {
      ChainedHeights(env, TipHash(env, n.chain[..a + 1]), a + 1, inc, j);
    }
  }

  /** The part past the decision to roll back. */
  lemma ReorgApplies(env: Env, config: Config, n: Node, a: int, inc: seq<Checkpoint>, now: real)
    requires Built(env, n.chain) && -1 <= a < |n.chain|
    requires forall j :: 0 <= j < |inc| ==> inc[j].Height() == a + 1 + j
    ensures var p, tol := n.chain[..a + 1], config.flopsTolerance;
            var r := Apply(env, config, RolledBack(n, a), inc, 0, Saved(n.chain, a), a, now);
            && r.committed == ClaimIds(r.chain)
            && (Progress(env, tol, p, inc, 0) == |inc| ==> r.chain == p + inc)
            && (TailRefused(env, tol, p, inc) ==> r.chain == p + inc[..|inc| - 1] && !AppendOk(env, r.chain, inc[|inc| - 1]))
            && (Progress(env, tol, p, inc, 0) < |inc| && !TailRefused(env, tol, p, inc) ==>
                  && r.chain == p + Served(n.chain)[a + 1..]
                  && Served(r.chain) == Served(n.chain) && SameChain(n.chain, r.chain) && Claims(r.chain) == Claims(n.chain))
  {
    hide AppendOk, ValidateCheckpoint, Claims, ClaimIds, Built, Apply, Restored, Progress, RolledBack, Saved, SameChain, Served;
    var tol := config.flopsTolerance;
    var p := n.chain[..a + 1];
    var start := RolledBack(n, a);
    RolledBackState(n, a, inc);
    var r := Apply(env, config, start, inc, 0, Saved(n.chain, a), a, now);
    ApplyEnds(env, config, start, p, inc, 0, Saved(n.chain, a), now);
    if TailRefused(env, tol, p, inc) {
      TailNotAppendable(env, tol, p, inc);
    } else if Progress(env, tol, p, inc, 0) < |inc| {
      var current, applied :| RestoredFrom(env, r.chain, current, Saved(n.chain, a), applied, p);
      RestoreIsExact(env, n.chain, a, current, applied);
      RestoredReadsSame(n.chain, a + 1);
    }
  }

  lemma RolledBackState(n: Node, a: int, inc: seq<Checkpoint>)
    requires -1 <= a < |n.chain|
    ensures ApplyState(RolledBack(n, a), n.chain[..a + 1], inc, 0)
  {
    assert a == |n.chain| - 1 ==> n.chain[..a + 1] == n.chain;
    assert n.chain[..a + 1] + inc[..0] == n.chain[..a + 1];
  }

  /** The last offered block does not go onto the ledger that is left. */
  ghost predicate TailOf(env: Env, left: Ledger, chain: Ledger, peer: seq<Checkpoint>) {
    var inc := Offered(env, chain, peer);
    inc != [] && !AppendOk(env, left, inc[|inc| - 1])
  }

  lemma {:induction false} ProgressStops(env: Env, tolerance: real, prefix: Ledger, incoming: seq<Checkpoint>, i: nat)
    requires i <= |incoming|
    ensures var k := Progress(env, tolerance, prefix, incoming, i);
            k < |incoming| ==> !Acceptable(env, tolerance, prefix + incoming[..k], incoming[k])
    decreases |incoming| - i
  {
    hide Acceptable;
    if i < |incoming| && Acceptable(env, tolerance, prefix + incoming[..i], incoming[i]) {
      ProgressStops(env, tolerance, prefix, incoming, i + 1);
    }
  }

  lemma TailNotAppendable(env: Env, tolerance: real, prefix: Ledger, incoming: seq<Checkpoint>)
    requires TailRefused(env, tolerance, prefix, incoming)
    ensures !AppendOk(env, prefix + incoming[..|incoming| - 1], incoming[|incoming| - 1])
  {
    hide AppendOk, ValidateCheckpoint, Progress;
    ProgressStops(env, tolerance, prefix, incoming, 0);
  }

  // --------------------------------------------------------------------------- the queue

  lemma CommitLocalQueue(env: Env, config: Config, n: Node, b: Checkpoint, now: real)
    ensures CommitLocal(env, config, n, b, now).pendingCommits == n.pendingCommits
  {
    hide AppendOk, AlreadyCommitted, BlockIds, ClaimIds, TipHash;
    assert Refused(config, n, b, now).pendingCommits == n.pendingCommits;
  }

  lemma {:induction false} ApplyQueue(env: Env, config: Config, n: Node, incoming: seq<Checkpoint>, i: nat, saved: seq<Checkpoint>, ancestor: int, now: real)
    requires i <= |incoming|
    ensures Apply(env, config, n, incoming, i, saved, ancestor, now).pendingCommits == n.pendingCommits
    decreases |incoming| - i
  {
    hide ValidateCheckpoint, CommitLocal, Restored, ClaimIds;
    if i == |incoming| {
    } else {
      CommitLocalQueue(env, config, n, incoming[i], now);
      ApplyQueue(env, config, CommitLocal(env, config, n, incoming[i], now), incoming, i + 1, saved, ancestor, now);
    }
  }

  /** A reorg that rolls blocks back keeps exactly the queued commits at or below the shared
      height, whatever comes of it; one that rolls none back keeps them all. */
  lemma ReorgQueue(env: Env, config: Config, n: Node, peer: seq<Checkpoint>, now: real)
    requires OutcomeOf(env, config.flopsTolerance, n.chain, peer) != Declines
    ensures var r, shared := Reconcile(env, config, n, peer, now), |Shared(env, n.chain, peer)|;
            && (forall h :: h in r.pendingCommits <==> h in n.pendingCommits && (shared < |n.chain| ==> h <= shared - 1))
            && (forall h :: h in r.pendingCommits ==> r.pendingCommits[h] == n.pendingCommits[h])
  {
    hide Declined, Reconcile, Apply, Progress, Shared, Offered, Saved, SortByHeight, Above, AncestorFrom, TailRefused;
    var a, inc := ReorgInputs(env, config, n, peer, now);
    ApplyQueue(env, config, RolledBack(n, a), inc, 0, Saved(n.chain, a), a, now);
  }
}
