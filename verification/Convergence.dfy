/** Nodes that exchange full chains end on one head. */
module Convergence {
  import opened Models
  import opened Chain
  import opened Validity
  import opened Committee
  import opened Protocol
  import opened Reorg
  import opened HeadOrder
  import opened ReorgSafety

  // ----------------------------------------------------------- one full-chain response

  lemma LinkedAscend(env: Env, chain: Ledger)
    requires Linked(env, chain)
    ensures HeightsAscend(chain)
  {
    forall i, j | 0 <= i < j < |chain| ensures chain[i].Height() <= chain[j].Height() {
      assert LinkedAt(env, chain, i) && LinkedAt(env, chain, j);
    }
  }

  lemma {:induction false} AboveLinked(env: Env, chain: Ledger, a: int)
    requires Linked(env, chain) && -1 <= a < |chain|
    ensures Above(chain, a) == chain[a + 1..]
  {
    if chain == [] {
    } else {
      var n := |chain| - 1;
      assert LinkedAt(env, chain, n);
      LinkedPrefix(env, chain, n);
      if a < n {
        AboveLinked(env, chain[..n], a);
        assert chain[a + 1..] == chain[..n][a + 1..] + [chain[n]];
      } else {
        forall x | x in chain ensures x.Height() <= a {
          var i :| 0 <= i < |chain| && chain[i] == x;
          assert LinkedAt(env, chain, i);
        }
        AboveNone(chain, a);
      }
    }
  }

  lemma {:induction false} LinkedChained(env: Env, chain: Ledger, k: nat, prev: string)
    requires Linked(env, chain) && k <= |chain|
    requires k < |chain| ==> prev == if k == 0 then GENESIS_PREV_HASH else env.Hash(chain[k - 1])
    ensures Chained(env, prev, k, chain[k..])
    decreases |chain| - k
  {
    if k == |chain| {
    } else {
      assert LinkedAt(env, chain, k);
      LinkedChained(env, chain, k + 1, env.Hash(chain[k]));
      assert chain[k..][1..] == chain[k + 1..];
    }
  }

  lemma {:induction false} ProgressAll(env: Env, tolerance: real, prefix: Ledger, inc: seq<Checkpoint>, i: nat)
    requires i <= |inc| && forall j :: i <= j < |inc| ==> Acceptable(env, tolerance, prefix + inc[..j], inc[j])
    ensures Progress(env, tolerance, prefix, inc, i) == |inc|
    decreases |inc| - i
  {
    hide Acceptable;
    if i == |inc| {
    } else {
      ProgressAll(env, tolerance, prefix, inc, i + 1);
    }
  }

  /** What a valid peer chain offers past the shared prefix is acceptable there. */
  lemma OfferedAcceptable(env: Env, tolerance: real, chain: Ledger, peer: Ledger, k: nat)
    requires ValidChain(env, tolerance, peer) && k <= |chain| && k <= |peer| && SameChain(chain[..k], peer[..k])
    ensures Progress(env, tolerance, chain[..k], peer[k..], 0) == |peer| - k
  {
    hide Acceptable, ValidChain, Progress;
    ChainIsPortable(env, tolerance, peer, chain[..k], k);
    forall j | 0 <= j < |peer[k..]| ensures Acceptable(env, tolerance, chain[..k] + peer[k..][..j], peer[k..][j]) {
      assert peer[k..][..j] == peer[k..k + j];
    }
    ProgressAll(env, tolerance, chain[..k], peer[k..], 0);
  }

  lemma WinsIff(env: Env, chain: Ledger, peer: Ledger)
    requires peer != [] && Linked(env, peer)
    ensures Wins(env, chain, peer[|peer| - 1]) <==> Better(env, peer, chain)
  {
    assert LinkedAt(env, peer, |peer| - 1);
  }

  /** Offered a valid chain, a node keeps its own or takes over the other, whichever is
      better. */
  lemma TakesTheBetter(env: Env, tolerance: real, chain: Ledger, peer: Ledger)
    requires Binding(env) && ValidChain(env, tolerance, chain) && ValidChain(env, tolerance, peer)
    ensures OutcomeOf(env, tolerance, chain, peer) == if Better(env, peer, chain) then Adopts else Declines
    ensures var r := ReorgChain(env, tolerance, chain, peer);
            if Better(env, peer, chain) then SameChain(peer, r) else r == chain
  {
    hide Binding, ValidChain, Better, TipHash, Above, AncestorFrom, Wins, SortByHeight, Progress, Acceptable, AppendOk, Built, Linked,
      Chained, SameChain, TailRefused;
    ValidBuilt(env, tolerance, chain);
    ValidBuilt(env, tolerance, peer);
    BuiltLinked(env, chain);
    BuiltLinked(env, peer);
    LinkedAscend(env, peer);
    SortKeeps(peer);
    if peer != [] {
      WinsIff(env, chain, peer);
      if Better(env, peer, chain) {
        AdoptsAll(env, tolerance, chain, peer);
      }
    } else {
      EmptyNotBetter(env, chain);
    }
  }

  lemma EmptyNotBetter(env: Env, chain: Ledger)
    ensures !Better(env, [], chain)
  {
  }

  lemma AdoptsAll(env: Env, tolerance: real, chain: Ledger, peer: Ledger)
    requires Binding(env) && ValidChain(env, tolerance, peer) && Linked(env, chain) && Linked(env, peer)
    ensures var a := CommonAncestor(env, chain, peer);
            && a < |peer|
            && Above(peer, a) == peer[a + 1..]
            && Chained(env, TipHash(env, chain[..a + 1]), a + 1, peer[a + 1..])
            && Progress(env, tolerance, chain[..a + 1], peer[a + 1..], 0) == |peer| - (a + 1)
            && SameChain(peer, chain[..a + 1] + peer[a + 1..])
  {
    hide Binding, ValidChain, Progress, Chained, Above, AncestorFrom, Linked, SameChain, TipHash;
    var a := CommonAncestor(env, chain, peer);
    AncestorIsLongestPrefix(env, chain, peer);
    AboveLinked(env, peer, a);
    OfferedAcceptable(env, tolerance, chain, peer, a + 1);
    SplicedSame(chain, peer, a + 1);
    SharedTip(env, chain, peer, a + 1);
    LinkedChained(env, peer, a + 1, TipHash(env, chain[..a + 1]));
  }

  lemma SharedTip(env: Env, chain: Ledger, peer: Ledger, k: nat)
    requires k <= |chain| && k <= |peer| && SameChain(chain[..k], peer[..k])
    ensures TipHash(env, chain[..k]) == if k == 0 then GENESIS_PREV_HASH else env.Hash(peer[k - 1])
  {
    if k > 0 { assert SameBlock(chain[..k][k - 1], peer[..k][k - 1]); }
  }

  lemma SplicedSame(chain: Ledger, peer: Ledger, k: nat)
    requires k <= |chain| && k <= |peer| && SameChain(chain[..k], peer[..k])
    ensures SameChain(peer, chain[..k] + peer[k..])
  {
    var d := chain[..k] + peer[k..];
    forall j | 0 <= j < |peer| ensures SameBlock(peer[j], d[j]) {
      if j < k { assert SameBlock(chain[..k][j], peer[..k][j]); }
    }
  }

  // --------------------------------------------------------------------- the network

  /** `to`, with settings `config`, handles a full-chain response that `from` sent when the
      network was in its `at`-th state. */
  datatype Delivery = Delivery(to: nat, config: Config, from: nat, at: nat, now: real)

  ghost predicate IsExchange(env: Env, tolerance: real, states: seq<seq<Node>>, deliveries: seq<Delivery>) {
    && |states| == |deliveries| + 1
    && (forall t :: 0 <= t < |states| ==> |states[t]| == |states[0]|)
    && forall t :: 0 <= t < |deliveries| ==> Delivers(env, tolerance, states, deliveries[t], t)
  }

  ghost predicate Delivers(env: Env, tolerance: real, states: seq<seq<Node>>, d: Delivery, t: nat)
    requires t + 1 < |states| && forall u :: 0 <= u < |states| ==> |states[u]| == |states[0]|
  {
    && d.to < |states[0]| && d.from < |states[0]| && d.at <= t && d.config.flopsTolerance == tolerance
    && states[t + 1] == states[t][d.to := Reconcile(env, d.config, states[t][d.to], Served(states[d.at][d.from].chain), d.now)]
  }

  ghost predicate OneOf(c: Ledger, starts: seq<Node>) {
    exists m :: 0 <= m < |starts| && SameChain(starts[m].chain, c)
  }

  ghost predicate Fine(env: Env, tolerance: real, n: Node, starts: seq<Node>) {
    ValidChain(env, tolerance, n.chain) && OneOf(n.chain, starts)
  }

  lemma SameTrans(c: Ledger, d: Ledger, e: Ledger)
    requires SameChain(c, d) && SameChain(d, e)
    ensures SameChain(c, e) && SameChain(e, c)
  {
    forall i | 0 <= i < |c| ensures SameBlock(c[i], e[i]) { assert SameBlock(c[i], d[i]) && SameBlock(d[i], e[i]); }
  }

  lemma SameHeads(env: Env, c: Ledger, d: Ledger, e: Ledger)
    requires SameChain(c, d)
    ensures Better(env, c, e) <==> Better(env, d, e)
    ensures Better(env, e, c) <==> Better(env, e, d)
    ensures NoWorse(env, c, d) && NoWorse(env, d, c)
  {
    SameTip(env, c, d);
  }

  /** One delivery: the receiver's chain is still one of the chains the nodes started
      with, no worse than before, and no worse than the one it was sent. */
  lemma DeliveryStep(env: Env, config: Config, n: Node, sent: Ledger, starts: seq<Node>, now: real)
    requires Binding(env) && Fine(env, config.flopsTolerance, n, starts)
    requires ValidChain(env, config.flopsTolerance, sent) && OneOf(sent, starts)
    ensures var r := Reconcile(env, config, n, Served(sent), now);
            && Fine(env, config.flopsTolerance, r, starts)
            && NoWorse(env, r.chain, n.chain) && NoWorse(env, r.chain, sent)
  {
    hide Binding, ValidChain, Reconcile, OutcomeOf, ReorgChain, TailOf, Offered, Served, Better, SameHead, SameChain, Built;
    var tol := config.flopsTolerance;
    var s := Served(sent);
    ServedValid(env, tol, sent);
    ServedSame(sent);
    SameHeads(env, sent, s, n.chain);
    ValidBuilt(env, tol, n.chain);
    ReorgOutcome(env, config, n, s, now);
    ReorgChainValid(env, tol, n.chain, s);
    TakesTheBetter(env, tol, n.chain, s);
    var r := Reconcile(env, config, n, s, now).chain;
    BetterIsStrict(env, n.chain, sent, sent);
    SameTip(env, n.chain, n.chain) by { assert SameChain(n.chain, n.chain) by { SameSelf(n.chain); } }
    if Better(env, s, n.chain) {
      SameHeads(env, s, r, n.chain);
      SameHeads(env, r, s, sent) by { SameSym(s, r); }
      SameTrans(sent, s, r);
      SameHeads(env, r, sent, sent);
      var m :| 0 <= m < |starts| && SameChain(starts[m].chain, sent);
      SameTrans(starts[m].chain, sent, r);
    }
  }

  lemma SameSelf(c: Ledger)
    ensures SameChain(c, c)
  {
  }

  lemma SameSym(c: Ledger, d: Ledger)
    requires SameChain(c, d)
    ensures SameChain(d, c)
  {
  }

  // ------------------------------------------------------------------------ whole runs

  lemma {:induction false} ExchangeFine(env: Env, tolerance: real, states: seq<seq<Node>>, deliveries: seq<Delivery>, t: nat, i: nat)
    requires Binding(env) && IsExchange(env, tolerance, states, deliveries) && AllValid(env, tolerance, states[0])
    requires t < |states| && i < |states[0]|
    ensures Fine(env, tolerance, states[t][i], states[0])
    decreases t
  {
    hide Binding, ValidChain, Reconcile, Served, SameChain;
    if t == 0 {
      SameSelf(states[0][i].chain);
      assert OneOf(states[0][i].chain, states[0]);
      assert ValidAt(env, tolerance, states[0], i);
    } else {
      ExchangeFine(env, tolerance, states, deliveries, t - 1, i);
      var d := deliveries[t - 1];
      assert Delivers(env, tolerance, states, d, t - 1);
      ExchangeFine(env, tolerance, states, deliveries, d.at, d.from);
      if d.to == i { DeliveryStep(env, d.config, states[t - 1][i], states[d.at][d.from].chain, states[0], d.now); }
    }
  }

  ghost predicate ValidAt(env: Env, tolerance: real, nodes: seq<Node>, i: nat)
    requires i < |nodes|
  { ValidChain(env, tolerance, nodes[i].chain) }

  ghost predicate AllValid(env: Env, tolerance: real, nodes: seq<Node>) {
    forall i :: 0 <= i < |nodes| ==> ValidAt(env, tolerance, nodes, i)
  }

  lemma {:induction false} ExchangeImproves(env: Env, tolerance: real, states: seq<seq<Node>>, deliveries: seq<Delivery>, s: nat, t: nat, i: nat)
    requires Binding(env) && IsExchange(env, tolerance, states, deliveries) && AllValid(env, tolerance, states[0])
    requires s <= t < |states| && i < |states[0]|
    ensures NoWorse(env, states[t][i].chain, states[s][i].chain)
    decreases t
  {
    hide Binding, ValidChain, Reconcile, Served, SameChain, Better, SameHead, Fine, OneOf;
    if s == t {
      SameTip(env, states[t][i].chain, states[t][i].chain) by { SameSelf(states[t][i].chain); }
    } else {
      ExchangeImproves(env, tolerance, states, deliveries, s, t - 1, i);
      var d := deliveries[t - 1];
      assert Delivers(env, tolerance, states, d, t - 1);
      ReceiverImproves(env, tolerance, states, deliveries, t - 1);
      if d.to == i { BetterIsStrict(env, states[t][i].chain, states[t - 1][i].chain, states[s][i].chain); }
    }
  }

  /** Right after a delivery the receiver is no worse than it was, nor than what it got. */
  lemma ReceiverImproves(env: Env, tolerance: real, states: seq<seq<Node>>, deliveries: seq<Delivery>, t: nat)
    requires Binding(env) && IsExchange(env, tolerance, states, deliveries) && AllValid(env, tolerance, states[0])
    requires t < |deliveries|
    ensures Delivers(env, tolerance, states, deliveries[t], t)
    ensures var d := deliveries[t];
            && NoWorse(env, states[t + 1][d.to].chain, states[t][d.to].chain)
            && NoWorse(env, states[t + 1][d.to].chain, states[d.at][d.from].chain)
  {
    hide Binding, ValidChain, Reconcile, Served, SameChain, Better, SameHead, OneOf;
    var d := deliveries[t];
    assert Delivers(env, tolerance, states, d, t);
    ExchangeFine(env, tolerance, states, deliveries, t, d.to);
    ExchangeFine(env, tolerance, states, deliveries, d.at, d.from);
    DeliveryStep(env, d.config, states[t][d.to], states[d.at][d.from].chain, states[0], d.now);
  }

  ghost predicate Heard(deliveries: seq<Delivery>, to: nat, from: nat) {
    exists t :: 0 <= t < |deliveries| && deliveries[t].to == to && deliveries[t].from == from
  }

  /** Every node has handled a full chain of every other, sent at any time. */
  ghost predicate AllHeard(deliveries: seq<Delivery>, n: nat) {
    forall i, j :: 0 <= i < n && 0 <= j < n && i != j ==> Heard(deliveries, i, j)
  }

  /** At the end no chain any node started with beats any node's chain. */
  lemma EndsUnbeaten(env: Env, tolerance: real, states: seq<seq<Node>>, deliveries: seq<Delivery>, i: nat, j: nat)
    requires Binding(env) && IsExchange(env, tolerance, states, deliveries) && AllValid(env, tolerance, states[0])
    requires AllHeard(deliveries, |states[0]|) && i < |states[0]| && j < |states[0]|
    ensures NoWorse(env, states[|deliveries|][i].chain, states[0][j].chain)
  {
    hide Binding, AllValid, Better, SameHead, Reconcile, Served, NoWorse;
    var end := |deliveries|;
    if i == j {
      ExchangeImproves(env, tolerance, states, deliveries, 0, end, i);
    } else {
      assert Heard(deliveries, i, j);
      var t :| 0 <= t < |deliveries| && deliveries[t].to == i && deliveries[t].from == j;
      var d := deliveries[t];
      ReceiverImproves(env, tolerance, states, deliveries, t);
      ExchangeImproves(env, tolerance, states, deliveries, 0, d.at, j);
      ExchangeImproves(env, tolerance, states, deliveries, t + 1, end, i);
      var c := states[end][i].chain;
      BetterIsStrict(env, states[t + 1][i].chain, states[d.at][j].chain, states[0][j].chain);
      BetterIsStrict(env, c, states[t + 1][i].chain, states[0][j].chain);
    }
  }

  /** The chain no start beats: the tallest, of those the one with the smallest head hash. */
  ghost predicate IsBest(env: Env, starts: seq<Node>, c: Ledger) {
    OneOf(c, starts) && forall j :: 0 <= j < |starts| ==> NoWorse(env, c, starts[j].chain)
  }

  /** Convergence: once every node has reconciled with a chain of every other, in any
      order, with repeats and delays, every node holds the best of the chains the nodes
      started with, and so all hold the same blocks. */
  lemma Converges(env: Env, tolerance: real, states: seq<seq<Node>>, deliveries: seq<Delivery>)
    requires Binding(env) && IsExchange(env, tolerance, states, deliveries) && AllValid(env, tolerance, states[0])
    requires AllHeard(deliveries, |states[0]|)
    ensures forall i :: 0 <= i < |states[0]| ==> IsBest(env, states[0], states[|deliveries|][i].chain)
    ensures forall i, k :: 0 <= i < |states[0]| && 0 <= k < |states[0]| ==>
              SameChain(states[|deliveries|][i].chain, states[|deliveries|][k].chain)
  {
    hide Binding, AllValid, ValidChain, Better, SameHead, Reconcile, Served, NoWorse, OneOf, SameChain, Delivers;
    var last := states[|deliveries|];
    forall i | 0 <= i < |states[0]| ensures IsBest(env, states[0], last[i].chain) {
      ExchangeFine(env, tolerance, states, deliveries, |deliveries|, i);
      forall j | 0 <= j < |states[0]| ensures NoWorse(env, last[i].chain, states[0][j].chain) {
        EndsUnbeaten(env, tolerance, states, deliveries, i, j);
      }
    }
    forall i, k | 0 <= i < |states[0]| && 0 <= k < |states[0]| ensures SameChain(last[i].chain, last[k].chain) {
      ExchangeFine(env, tolerance, states, deliveries, |deliveries|, i);
      ExchangeFine(env, tolerance, states, deliveries, |deliveries|, k);
      BestIsUnique(env, tolerance, states[0], last[i].chain, last[k].chain);
    }
  }

  lemma BestIsUnique(env: Env, tolerance: real, starts: seq<Node>, c: Ledger, d: Ledger)
    requires Binding(env) && ValidChain(env, tolerance, c) && ValidChain(env, tolerance, d)
    requires IsBest(env, starts, c) && IsBest(env, starts, d)
    ensures SameChain(c, d)
  {
    hide Binding, ValidChain, Better, SameChain, TipHash, Built;
    var j :| 0 <= j < |starts| && SameChain(starts[j].chain, d);
    var e := starts[j].chain;
    SameHeads(env, e, d, c);
    BetterIsStrict(env, c, e, d);
    var k :| 0 <= k < |starts| && SameChain(starts[k].chain, c);
    SameHeads(env, starts[k].chain, c, d);
    BetterIsStrict(env, d, starts[k].chain, c);
    BetterIsStrict(env, c, d, c);
    ValidBuilt(env, tolerance, c);
    ValidBuilt(env, tolerance, d);
    BuiltLinked(env, c);
    BuiltLinked(env, d);
    SameHeadSameChain(env, c, d);
  }
}
