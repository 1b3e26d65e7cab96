/** The order in which nodes prefer heads, and what a reorg does to it. */
module HeadOrder {
  import opened Models
  import opened Chain
  import opened Protocol
  import opened Reorg
  import Text

  /** Taller, or as tall with the smaller head hash. */
  ghost predicate Better(env: Env, c: Ledger, d: Ledger) {
    |c| > |d| || (|c| == |d| && c != [] && Text.Less(TipHash(env, c), TipHash(env, d)))
  }

  ghost predicate SameHead(env: Env, c: Ledger, d: Ledger) {
    |c| == |d| && TipHash(env, c) == TipHash(env, d)
  }

  ghost predicate NoWorse(env: Env, c: Ledger, d: Ledger) { SameHead(env, c, d) || Better(env, c, d) }

  lemma BetterIsStrict(env: Env, c: Ledger, d: Ledger, e: Ledger)
    ensures !(Better(env, c, d) && SameHead(env, c, d))
    ensures !(Better(env, c, d) && NoWorse(env, d, c))
    ensures Better(env, c, d) && NoWorse(env, d, e) ==> Better(env, c, e)
    ensures NoWorse(env, c, d) && Better(env, d, e) ==> Better(env, c, e)
    ensures NoWorse(env, c, d) && NoWorse(env, d, e) ==> NoWorse(env, c, e)
    ensures NoWorse(env, c, d) || Better(env, d, c)
  {
    hide TipHash;
    var x, y, z := TipHash(env, c), TipHash(env, d), TipHash(env, e);
    Text.LessIrreflexive(x);
    Text.LessTotal(x, y);
    if Text.Less(x, y) && Text.Less(y, z) { Text.LessTransitive(x, y, z); }
    if Text.Less(x, y) && Text.Less(y, x) { Text.LessTransitive(x, y, x); }
    if |c| == |d| == 0 { EmptyHeads(env, c, d); }
  }

  lemma EmptyHeads(env: Env, c: Ledger, d: Ledger)
    requires |c| == |d| == 0
    ensures TipHash(env, c) == TipHash(env, d)
  {
  }

  /** Two linked chains with one head are the same chain. */
  lemma SameHeadSameChain(env: Env, c: Ledger, d: Ledger)
    requires Binding(env) && Linked(env, c) && Linked(env, d) && SameHead(env, c, d)
    ensures SameChain(c, d)
  {
    if c != [] { HeadBindsHistory(env, c, d); }
  }

  /** Where the offered blocks end: at the peer's highest block, or there are none and
      the local chain is already all shared. */
  lemma OfferedTop(env: Env, chain: Ledger, peer: seq<Checkpoint>)
    requires OutcomeInputs(env, chain, peer)
    ensures var p, inc := Shared(env, chain, peer), Offered(env, chain, peer);
            if inc == [] then p == chain
            else |p| + |inc| >= |chain| && Wins(env, chain, inc[|inc| - 1]) && inc[|inc| - 1].Height() == |p| + |inc| - 1
  {
    hide Wins, Chained, TipHash, AncestorFrom, HeightsAscend, SortByHeight, Above, AtHeight;
    var blocks := SortByHeight(peer);
    var a := CommonAncestor(env, chain, blocks);
    var tip := blocks[|blocks| - 1];
    var inc := Above(blocks, a);
    SortSorts(peer);
    WinsHeight(env, chain, tip);
    if tip.Height() > a {
      AboveMembers(blocks, a);
      ChainedHeights(env, TipHash(env, chain[..a + 1]), a + 1, inc, |inc| - 1);
    } else {
      LastIsHighest(blocks);
      AboveNone(blocks, a);
      assert chain[..a + 1] == chain;
    }
  }

  lemma LastIsHighest(blocks: seq<Checkpoint>)
    requires blocks != [] && HeightsAscend(blocks)
    ensures forall x :: x in blocks ==> x.Height() <= blocks[|blocks| - 1].Height()
  {
    forall x | x in blocks ensures x.Height() <= blocks[|blocks| - 1].Height() {
      var i :| 0 <= i < |blocks| && blocks[i] == x;
      assert i == |blocks| - 1 || blocks[i].Height() <= blocks[|blocks| - 1].Height();
    }
  }

  ghost predicate OutcomeInputs(env: Env, chain: Ledger, peer: seq<Checkpoint>) {
    !Declined(env, chain, SortByHeight(peer))
  }

  lemma WinsHeight(env: Env, chain: Ledger, tip: Checkpoint)
    requires Wins(env, chain, tip)
    ensures tip.Height() >= |chain| - 1
  {
  }

  /** A reorg applied in full leaves the ledger as it was or makes the head strictly
      better; one that is declined or fails and restores keeps the head. */
  lemma ReorgImproves(env: Env, tolerance: real, chain: Ledger, peer: seq<Checkpoint>)
    requires Built(env, chain) && OutcomeOf(env, tolerance, chain, peer) != DropsTail
    ensures var r := ReorgChain(env, tolerance, chain, peer);
            match OutcomeOf(env, tolerance, chain, peer)
            case Declines => r == chain
            case Adopts => r == chain || Better(env, r, chain)
            case Restores => SameHead(env, r, chain)
            case DropsTail => true
  {
    hide AppendOk, Built, Progress, TailRefused, SortByHeight, Above, AncestorFrom, Wins, Chained, Declined;
    var o := OutcomeOf(env, tolerance, chain, peer);
    var p, inc := Shared(env, chain, peer), Offered(env, chain, peer);
    if o == Adopts {
      OfferedTop(env, chain, peer);
      if inc == [] { assert p + inc == chain; } else { WinsBetter(env, chain, p, inc); }
    } else if o == Restores {
      RestoredReadsSame(chain, |p|);
      SameTip(env, chain, p + Served(chain)[|p|..]);
    }
  }

  lemma SameTip(env: Env, c: Ledger, d: Ledger)
    requires SameChain(c, d)
    ensures SameHead(env, d, c)
  {
    if c != [] { assert SameBlock(c[|c| - 1], d[|c| - 1]); }
  }

  lemma WinsBetter(env: Env, chain: Ledger, p: Ledger, inc: seq<Checkpoint>)
    requires inc != [] && Wins(env, chain, inc[|inc| - 1]) && inc[|inc| - 1].Height() == |p| + |inc| - 1
    ensures Better(env, p + inc, chain)
  {
    var c := p + inc;
    assert c[|c| - 1] == inc[|inc| - 1];
  }

  /** The ledger gets shorter exactly when the store refuses the last block of an
      otherwise acceptable branch no taller than the local one. */
  lemma ShorterIff(env: Env, tolerance: real, chain: Ledger, peer: seq<Checkpoint>)
    requires Built(env, chain)
    ensures |ReorgChain(env, tolerance, chain, peer)| < |chain| <==>
            OutcomeOf(env, tolerance, chain, peer) == DropsTail && OfferedTo(env, chain, peer) == |chain|
    ensures |ReorgChain(env, tolerance, chain, peer)| >= |chain| - 1
  {
    hide AppendOk, Built, Progress, SortByHeight, Above, AncestorFrom, Wins, Chained, Declined, ReorgChain, Better;
    var o := OutcomeOf(env, tolerance, chain, peer);
    if o == DropsTail {
      DropsTailLength(env, tolerance, chain, peer);
    } else {
      ReorgImproves(env, tolerance, chain, peer);
      BetterLength(env, ReorgChain(env, tolerance, chain, peer), chain);
    }
  }

  lemma BetterLength(env: Env, c: Ledger, d: Ledger)
    ensures NoWorse(env, c, d) ==> |c| >= |d|
  {
  }

  /** One past the height of the highest offered block. */
  ghost function OfferedTo(env: Env, chain: Ledger, peer: seq<Checkpoint>): nat {
    |Shared(env, chain, peer)| + |Offered(env, chain, peer)|
  }

  lemma DropsTailLength(env: Env, tolerance: real, chain: Ledger, peer: seq<Checkpoint>)
    requires OutcomeOf(env, tolerance, chain, peer) == DropsTail
    ensures |ReorgChain(env, tolerance, chain, peer)| == OfferedTo(env, chain, peer) - 1
    ensures OfferedTo(env, chain, peer) >= |chain|
  {
    hide Progress, SortByHeight, Above, AncestorFrom, Wins, Chained, Declined;
    OfferedTop(env, chain, peer);
  }

  /** A tail is dropped from a branch that reaches no further than the local one, or just
      one further and then ends, without its tip, in a block that loses the tie-break. */
  ghost predicate LosesByTail(env: Env, tolerance: real, chain: Ledger, peer: seq<Checkpoint>) {
    OutcomeOf(env, tolerance, chain, peer) == DropsTail &&
    var inc := Offered(env, chain, peer);
    (OfferedTo(env, chain, peer) == |chain| ||
     (OfferedTo(env, chain, peer) == |chain| + 1 && |inc| > 1 && Text.Less(TipHash(env, chain), env.Hash(inc[|inc| - 2]))))
  }

  /** The head a dropped tail leaves: the last offered block but one, or the shared head. */
  lemma DropsTailHead(env: Env, tolerance: real, chain: Ledger, peer: seq<Checkpoint>)
    requires OutcomeOf(env, tolerance, chain, peer) == DropsTail
    ensures var r, inc := ReorgChain(env, tolerance, chain, peer), Offered(env, chain, peer);
            if |inc| > 1 then TipHash(env, r) == env.Hash(inc[|inc| - 2]) else |r| <= |chain| && r == chain[..|r|]
  {
    hide Progress, SortByHeight, Above, AncestorFrom, Declined;
    var p, inc := Shared(env, chain, peer), Offered(env, chain, peer);
    if |inc| > 1 {
      var r := p + inc[..|inc| - 1];
      assert r[|r| - 1] == inc[|inc| - 2];
    } else {
      assert p + inc[..|inc| - 1] == p;
    }
  }

  /** A reorg leaves a worse head in exactly that case. */
  lemma WorseIff(env: Env, tolerance: real, chain: Ledger, peer: seq<Checkpoint>)
    requires Built(env, chain)
    ensures Better(env, chain, ReorgChain(env, tolerance, chain, peer)) <==> LosesByTail(env, tolerance, chain, peer)
  {
    hide Built, OutcomeOf, ReorgChain, OfferedTo, TipHash, Offered;
    var r := ReorgChain(env, tolerance, chain, peer);
    if OutcomeOf(env, tolerance, chain, peer) == DropsTail {
      DropsTailLength(env, tolerance, chain, peer);
      DropsTailHead(env, tolerance, chain, peer);
      Text.LessIrreflexive(TipHash(env, chain));
      if |chain| == |r| {
        assert chain[..|r|] == chain;
        if |chain| == 0 { EmptyHeads(env, chain, r); }
      }
    } else {
      ReorgImproves(env, tolerance, chain, peer);
      BetterIsStrict(env, chain, r, r);
      SameTip(env, chain, chain);
      BetterIsStrict(env, r, chain, chain);
    }
  }
}
