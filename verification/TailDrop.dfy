/** Where "a failed reorg never leaves the chain shorter" and "heads only get better" do not
    hold. */
module TailDrop {
  import opened Models
  import opened Chain
  import opened Validation
  import opened Validity
  import opened Protocol
  import opened Reorg
  import opened HeadOrder
  import opened Convergence
  import Text

  lemma LinkedSnoc(env: Env, chain: Ledger, b: Checkpoint)
    requires Linked(env, chain) && b.Height() == |chain| && b.proposal.prevHash == TipHash(env, chain)
    ensures Linked(env, chain + [b])
  {
    var c := chain + [b];
    forall i | 0 <= i < |c| ensures LinkedAt(env, c, i) {
      if i < |chain| { assert LinkedAt(env, chain, i); }
    }
  }

  /** A chain and one that parts from it at its last block share all but that. */
  lemma AncestorBelowTip(env: Env, p: Ledger, x: Checkpoint, inc: seq<Checkpoint>)
    requires Linked(env, p + [x]) && Linked(env, p + inc) && inc != [] && env.Hash(x) != env.Hash(inc[0])
    ensures CommonAncestor(env, p + [x], p + inc) == |p| - 1
  {
    var c, d := p + [x], p + inc;
    assert !PeerHas(env, c, d, |p|) by {
      forall i | 0 <= i < |d| && d[i].Height() == |p| ensures env.Hash(d[i]) != env.Hash(c[|p|]) {
        assert LinkedAt(env, d, i);
      }
    }
    if |p| > 0 {
      assert LinkedAt(env, d, |p| - 1);
      assert d[|p| - 1].Height() == |p| - 1 && env.Hash(d[|p| - 1]) == env.Hash(c[|p| - 1]);
      assert PeerHas(env, c, d, |p| - 1);
    }
  }

  /** What a reorg makes of a peer that parts at the last block and wins. */
  lemma RivalInputs(env: Env, p: Ledger, x: Checkpoint, inc: seq<Checkpoint>)
    requires Built(env, p + [x]) && Linked(env, p + inc) && inc != [] && env.Hash(x) != env.Hash(inc[0])
    requires Wins(env, p + [x], inc[|inc| - 1])
    ensures SortByHeight(p + inc) == p + inc && !Declined(env, p + [x], p + inc)
    ensures CommonAncestor(env, p + [x], p + inc) == |p| - 1 && Above(p + inc, |p| - 1) == inc
  {
    hide CommonAncestor, Above, Chained, SortByHeight, Wins, Built, Linked, TipHash;
    BuiltLinked(env, p + [x]);
    AncestorBelowTip(env, p, x, inc);
    RivalSorted(env, p, inc);
    assert (p + [x])[..|p|] == p;
    RivalChained(env, p, inc);
  }

  lemma RivalSorted(env: Env, p: Ledger, inc: seq<Checkpoint>)
    requires Linked(env, p + inc) && inc != []
    ensures SortByHeight(p + inc) == p + inc && Above(p + inc, |p| - 1) == inc
  {
    hide Linked, SortByHeight, Above, HeightsAscend;
    LinkedAscend(env, p + inc);
    SortKeeps(p + inc);
    AboveLinked(env, p + inc, |p| - 1);
    assert (p + inc)[|p|..] == inc;
  }

  lemma RivalChained(env: Env, p: Ledger, inc: seq<Checkpoint>)
    requires Linked(env, p + inc)
    ensures Chained(env, TipHash(env, p), |p|, inc)
  {
    hide Linked, Chained, TipHash;
    PrefixTip(env, p, inc);
    LinkedChained(env, p + inc, |p|, TipHash(env, p));
    assert (p + inc)[|p|..] == inc;
  }

  lemma PrefixTip(env: Env, p: Ledger, inc: seq<Checkpoint>)
    ensures TipHash(env, p) == if |p| == 0 then GENESIS_PREV_HASH else env.Hash((p + inc)[|p| - 1])
  {
  }

  lemma RivalLinked(env: Env, p: Ledger, x: Checkpoint, b: Checkpoint)
    requires Built(env, p + [x]) && b.Height() == |p| && b.proposal.prevHash == TipHash(env, p)
    ensures Linked(env, p + [x]) && Linked(env, p + [b])
  {
    hide Linked, Built, TipHash;
    BuiltLinked(env, p + [x]);
    LinkedPrefix(env, p + [x], |p|);
    assert (p + [x])[..|p|] == p;
    LinkedSnoc(env, p, b);
  }

  /** One block that wins the tie-break. */
  lemma TieInputs(env: Env, p: Ledger, x: Checkpoint, b: Checkpoint)
    requires Built(env, p + [x]) && Text.Less(env.Hash(b), env.Hash(x))
    requires b.Height() == |p| && b.proposal.prevHash == TipHash(env, p)
    ensures SortByHeight(p + [b]) == p + [b] && !Declined(env, p + [x], p + [b])
    ensures CommonAncestor(env, p + [x], p + [b]) == |p| - 1 && Above(p + [b], |p| - 1) == [b]
  {
    hide CommonAncestor, Above, Declined, SortByHeight, Built, Linked, TipHash, Text.Less, Wins;
    RivalLinked(env, p, x, b);
    Text.LessIrreflexive(env.Hash(b));
    WinsTie(env, p, x, b);
    RivalInputs(env, p, x, [b]);
  }

  lemma WinsTie(env: Env, p: Ledger, x: Checkpoint, b: Checkpoint)
    requires b.Height() == |p| && Text.Less(env.Hash(b), env.Hash(x))
    ensures Wins(env, p + [x], b)
  {
  }

  /** A peer whose last block wins the tie-break and passes validation, but which the
      store refuses, costs the node its own last block: the ledger ends one shorter. */
  lemma LosesABlock(env: Env, tolerance: real, p: Ledger, x: Checkpoint, b: Checkpoint)
    requires Built(env, p + [x]) && Text.Less(env.Hash(b), env.Hash(x))
    requires b.Height() == |p| && b.proposal.prevHash == TipHash(env, p)
    requires ValidateCheckpoint(env, tolerance, b, p, {}, false).Passed? && !AppendOk(env, p, b)
    ensures OutcomeOf(env, tolerance, p + [x], p + [b]) == DropsTail
    ensures ReorgChain(env, tolerance, p + [x], p + [b]) == p
  {
    hide AppendOk, ValidateCheckpoint, AncestorFrom, Above, Declined, SortByHeight, Built, TipHash;
    TieInputs(env, p, x, b);
    assert (p + [x])[..|p|] == p && p + [b][..0] == p;
    assert Progress(env, tolerance, p, [b], 0) == 0;
  }

  /** A taller peer whose tip the store refuses, and whose block below it would have lost the
      tie-break, still takes the node's last block: the head ends worse, at the same height. */
  lemma LosesTheTie(env: Env, tolerance: real, p: Ledger, x: Checkpoint, b: Checkpoint, t: Checkpoint)
    requires Built(env, p + [x]) && Text.Less(env.Hash(x), env.Hash(b)) && Acceptable(env, tolerance, p, b)
    requires t.Height() == |p| + 1 && t.proposal.prevHash == env.Hash(b)
    requires ValidateCheckpoint(env, tolerance, t, p + [b], {}, false).Passed? && !AppendOk(env, p + [b], t)
    ensures OutcomeOf(env, tolerance, p + [x], p + [b, t]) == DropsTail
    ensures ReorgChain(env, tolerance, p + [x], p + [b, t]) == p + [b]
    ensures Better(env, p + [x], p + [b])
  {
    hide AppendOk, ValidateCheckpoint, AncestorFrom, Above, Declined, SortByHeight, Built, Linked, Text.Less;
    TallerInputs(env, tolerance, p, x, b, t);
    var inc := [b, t];
    assert (p + [x])[..|p|] == p && p + inc[..0] == p && inc[..1] == [b];
    assert Progress(env, tolerance, p, inc, 1) == 1;
  }

  lemma TallerInputs(env: Env, tolerance: real, p: Ledger, x: Checkpoint, b: Checkpoint, t: Checkpoint)
    requires Built(env, p + [x]) && Text.Less(env.Hash(x), env.Hash(b)) && AppendOk(env, p, b)
    requires t.Height() == |p| + 1 && t.proposal.prevHash == env.Hash(b)
    ensures SortByHeight(p + [b, t]) == p + [b, t] && !Declined(env, p + [x], p + [b, t])
    ensures CommonAncestor(env, p + [x], p + [b, t]) == |p| - 1 && Above(p + [b, t], |p| - 1) == [b, t]
  {
    hide CommonAncestor, Above, Declined, SortByHeight, Built, Linked, Text.Less, Claims, FreshHash, ClashFree, NoRepeat;
    RivalLinked(env, p, x, b);
    LinkedSnoc(env, p + [b], t);
    assert p + [b] + [t] == p + [b, t];
    Text.LessIrreflexive(env.Hash(b));
    RivalInputs(env, p, x, [b, t]);
  }

  // ------------------------------------------------------- the exact condition, in claims

  lemma {:induction false} ProgressAccepts(env: Env, tolerance: real, p: Ledger, inc: seq<Checkpoint>, i: nat)
    requires i <= |inc|
    ensures forall j :: i <= j < Progress(env, tolerance, p, inc, i) ==> Acceptable(env, tolerance, p + inc[..j], inc[j])
    decreases |inc| - i
  {
    hide Acceptable;
    if i < |inc| && Acceptable(env, tolerance, p + inc[..i], inc[i]) { ProgressAccepts(env, tolerance, p, inc, i + 1); }
  }

  lemma {:induction false} ProgressReaches(env: Env, tolerance: real, p: Ledger, inc: seq<Checkpoint>, i: nat, k: nat)
    requires i <= k <= |inc| && forall j :: i <= j < k ==> Acceptable(env, tolerance, p + inc[..j], inc[j])
    ensures Progress(env, tolerance, p, inc, i) >= k
    decreases |inc| - i
  {
    hide Acceptable;
    if i == k {
    } else {
      ProgressReaches(env, tolerance, p, inc, i + 1, k);
    }
  }

  lemma {:induction false} BuiltOnto(env: Env, tolerance: real, p: Ledger, inc: seq<Checkpoint>, k: nat)
    requires Built(env, p) && k <= |inc| && forall j :: 0 <= j < k ==> Acceptable(env, tolerance, p + inc[..j], inc[j])
    ensures Built(env, p + inc[..k])
  {
    hide Built, ValidateCheckpoint, AppendOk;
    if k == 0 {
      assert p + inc[..0] == p;
    } else {
      BuiltOnto(env, tolerance, p, inc, k - 1);
      assert Acceptable(env, tolerance, p + inc[..k - 1], inc[k - 1]);
      BuiltSnoc(env, p + inc[..k - 1], inc[k - 1]);
      assert p + inc[..k - 1] + [inc[k - 1]] == p + inc[..k];
    }
  }

  /** All blocks but the last are acceptable one after the other; the last passes
      validation but repeats a claim id, repeats a turn, or opens a ledger with a negative
      epoch. */
  ghost predicate LastRepeats(env: Env, tolerance: real, p: Ledger, inc: seq<Checkpoint>) {
    && inc != []
    && (forall j :: 0 <= j < |inc| - 1 ==> Acceptable(env, tolerance, p + inc[..j], inc[j]))
    && ValidateCheckpoint(env, tolerance, inc[|inc| - 1], p + inc[..|inc| - 1], {}, false).Passed?
    && !BringsNew(p + inc[..|inc| - 1], inc[|inc| - 1])
  }

  lemma TailRefusedIff(env: Env, tolerance: real, p: Ledger, inc: seq<Checkpoint>)
    requires Binding(env) && Built(env, p) && forall j :: 0 <= j < |inc| ==> inc[j].Height() == |p| + j
    ensures TailRefused(env, tolerance, p, inc) <==> LastRepeats(env, tolerance, p, inc)
  {
    hide Binding, Built, ValidateCheckpoint, AppendOk, BringsNew, Progress;
    if inc != [] {
      var k := |inc| - 1;
      var kept, last := p + inc[..k], inc[k];
      ProgressAccepts(env, tolerance, p, inc, 0);
      ProgressStops(env, tolerance, p, inc, 0);
      if forall j :: 0 <= j < k ==> Acceptable(env, tolerance, p + inc[..j], inc[j]) {
        ProgressReaches(env, tolerance, p, inc, 0, k);
        BuiltOnto(env, tolerance, p, inc, k);
        if ValidateCheckpoint(env, tolerance, last, kept, {}, false).Passed? {
          PassedAppendsIff(env, tolerance, kept, last, {});
          assert Acceptable(env, tolerance, kept, last) <==> BringsNew(kept, last);
        }
      }
    }
  }

  /** A tail is dropped if and only if the branch wins and hangs together, and its last
      block is the first to repeat something. */
  lemma DropsTailIff(env: Env, tolerance: real, chain: Ledger, peer: seq<Checkpoint>)
    requires Binding(env) && Built(env, chain)
    ensures OutcomeOf(env, tolerance, chain, peer) == DropsTail <==>
            !Declined(env, chain, SortByHeight(peer)) && LastRepeats(env, tolerance, Shared(env, chain, peer), Offered(env, chain, peer))
  {
    hide Binding, Built, Progress, SortByHeight, Above, AncestorFrom, Wins, TipHash, LastRepeats;
    if !Declined(env, chain, SortByHeight(peer)) {
      var a := CommonAncestor(env, chain, SortByHeight(peer));
      var inc := Above(SortByHeight(peer), a);
      BuiltPrefix(env, chain, a + 1);
      forall j | 0 <= j < |inc| ensures inc[j].Height() == a + 1 + j {
        ChainedHeights(env, TipHash(env, chain[..a + 1]), a + 1, inc, j);
      }
      TailRefusedIff(env, tolerance, chain[..a + 1], inc);
    }
  }

  /** The ledger gets shorter if and only if an equally tall branch wins the tie-break,
      hangs together, and its last block is the first to repeat something. */
  lemma ShorterIffRepeats(env: Env, tolerance: real, chain: Ledger, peer: seq<Checkpoint>)
    requires Binding(env) && Built(env, chain)
    ensures |ReorgChain(env, tolerance, chain, peer)| < |chain| <==>
            && !Declined(env, chain, SortByHeight(peer))
            && LastRepeats(env, tolerance, Shared(env, chain, peer), Offered(env, chain, peer))
            && OfferedTo(env, chain, peer) == |chain|
  {
    hide Binding, Built, OutcomeOf, Declined, LastRepeats, ReorgChain, OfferedTo;
    DropsTailIff(env, tolerance, chain, peer);
    ShorterIff(env, tolerance, chain, peer);
  }
}
