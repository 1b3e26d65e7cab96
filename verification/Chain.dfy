/** The ledger as a value: the blocks by height, the rule for appending one, and what
    the hash links say about two chains. */
module Chain {
  import opened Models
  import Text

  datatype Option<+T> = None | Some(value: T)

  type Ledger = seq<Checkpoint>

  // ---------------------------------------------------------------------- claims

  function BlockClaims(b: Checkpoint): (r: seq<Claim>)
    ensures |r| == |b.proposal.claims|
    ensures forall i :: 0 <= i < |r| ==> r[i] == b.proposal.claims[i].claim
  { seq(|b.proposal.claims|, i requires 0 <= i < |b.proposal.claims| => b.proposal.claims[i].claim) }

  /** Every claim of the ledger, in the order it was committed. */
  function Claims(chain: Ledger): seq<Claim> {
    if chain == [] then [] else Claims(chain[..|chain| - 1]) + BlockClaims(chain[|chain| - 1])
  }

  function Ids(cs: seq<Claim>): set<string> { set i | 0 <= i < |cs| :: cs[i].claimId }

  function ClaimIds(chain: Ledger): set<string> { Ids(Claims(chain)) }

  function BlockIds(b: Checkpoint): set<string> { Ids(BlockClaims(b)) }

  /** Two claims the ledger cannot both hold: one id, or one sequence number of a node. */
  predicate Clash(a: Claim, b: Claim) {
    a.claimId == b.claimId || (a.nodeId == b.nodeId && a.sequence == b.sequence)
  }

  predicate ClashFree(cs: seq<Claim>, ds: seq<Claim>) {
    forall i, j :: 0 <= i < |cs| && 0 <= j < |ds| ==> !Clash(cs[i], ds[j])
  }

  predicate NoRepeat(cs: seq<Claim>) {
    forall i, j :: 0 <= i < j < |cs| ==> !Clash(cs[i], cs[j])
  }

  lemma NoRepeatConcat(cs: seq<Claim>, ds: seq<Claim>)
    requires NoRepeat(cs) && NoRepeat(ds) && ClashFree(cs, ds)
    ensures NoRepeat(cs + ds)
  {
  }

  lemma FrontNoRepeat(cs: seq<Claim>, ds: seq<Claim>)
    requires NoRepeat(cs + ds)
    ensures NoRepeat(cs)
  {
    forall i, j | 0 <= i < j < |cs| ensures !Clash(cs[i], cs[j]) {
      assert !Clash((cs + ds)[i], (cs + ds)[j]);
    }
  }

  lemma IdsConcat(cs: seq<Claim>, ds: seq<Claim>)
    ensures Ids(cs + ds) == Ids(cs) + Ids(ds)
  {
    forall x | x in Ids(cs) + Ids(ds) ensures x in Ids(cs + ds) {
      if x in Ids(cs) {
        var i :| 0 <= i < |cs| && cs[i].claimId == x;
        assert (cs + ds)[i].claimId == x;
      } else {
        var i :| 0 <= i < |ds| && ds[i].claimId == x;
        assert (cs + ds)[|cs| + i].claimId == x;
      }
    }
  }

  lemma ClaimsSnoc(chain: Ledger, b: Checkpoint)
    ensures Claims(chain + [b]) == Claims(chain) + BlockClaims(b)
    ensures ClaimIds(chain + [b]) == ClaimIds(chain) + BlockIds(b)
  {
    assert (chain + [b])[..|chain|] == chain;
    IdsConcat(Claims(chain), BlockClaims(b));
  }

  // ------------------------------------------------------------ append and rollback

  function TipHash(env: Env, chain: Ledger): string {
    if chain == [] then GENESIS_PREV_HASH else env.Hash(chain[|chain| - 1])
  }

  /** The blocks table has a unique hash column. */
  predicate FreshHash(env: Env, chain: Ledger, b: Checkpoint) {
    forall i :: 0 <= i < |chain| ==> env.Hash(chain[i]) != env.Hash(b)
  }

  /** The block fits on the chain and repeats no claim. */
  predicate AppendOk(env: Env, chain: Ledger, b: Checkpoint) {
    && b.Height() == |chain|
    && b.proposal.prevHash == TipHash(env, chain)
    && b.Epoch() >= 0
    && FreshHash(env, chain, b)
    && ClashFree(Claims(chain), BlockClaims(b))
    && NoRepeat(BlockClaims(b))
  }

  function Append(env: Env, chain: Ledger, b: Checkpoint): Ledger {
    if AppendOk(env, chain, b) then chain + [b] else chain
  }

  function Rollback(chain: Ledger, keep: int): Ledger {
    if keep + 1 >= |chain| then chain else if keep < 0 then [] else chain[..keep + 1]
  }

  /** A block read back from the store: one sealed before quorums were recorded counts
      the signatures it carries as its quorum. */
  function Reconstruct(b: Checkpoint): Checkpoint {
    if b.quorum == 0 && b.signatures != [] then b.(quorum := |b.signatures|) else b
  }

  /** The block at a height, as the store hands it out. */
  function GetBlock(chain: Ledger, h: int): Option<Checkpoint> {
    if 0 <= h < |chain| then Some(Reconstruct(chain[h])) else None
  }

  function Served(chain: Ledger): (r: Ledger)
    ensures |r| == |chain| && forall i :: 0 <= i < |r| ==> r[i] == Reconstruct(chain[i])
  { seq(|chain|, i requires 0 <= i < |chain| => Reconstruct(chain[i])) }

  /** Ledgers that append and rollback can build. */
  ghost predicate Built(env: Env, chain: Ledger) {
    forall i :: 0 <= i < |chain| ==> AppendOk(env, chain[..i], chain[i])
  }

  lemma BuiltPrefix(env: Env, chain: Ledger, k: nat)
    requires Built(env, chain) && k <= |chain|
    ensures Built(env, chain[..k])
  {
    forall i | 0 <= i < k ensures AppendOk(env, chain[..k][..i], chain[..k][i]) {
      assert chain[..k][..i] == chain[..i];
    }
  }

  lemma BuiltSnoc(env: Env, chain: Ledger, b: Checkpoint)
    requires Built(env, chain) && AppendOk(env, chain, b)
    ensures Built(env, chain + [b])
  {
    var c := chain + [b];
    forall i | 0 <= i < |c| ensures AppendOk(env, c[..i], c[i]) {
      if i < |chain| { assert c[..i] == chain[..i]; } else { assert c[..i] == chain; }
    }
  }

  lemma BuiltHeights(env: Env, chain: Ledger, i: nat)
    requires Built(env, chain) && i < |chain|
    ensures chain[i].Height() == i
    ensures chain[i].proposal.prevHash == if i == 0 then GENESIS_PREV_HASH else env.Hash(chain[i - 1])
  {
    assert AppendOk(env, chain[..i], chain[i]);
  }

  /** No claim id and no sequence number of a node appears twice. */
  lemma {:induction false} BuiltNoRepeat(env: Env, chain: Ledger)
    requires Built(env, chain)
    ensures NoRepeat(Claims(chain))
  {
    if chain == [] {
    } else {
      var n := |chain| - 1;
      BuiltPrefix(env, chain, n);
      BuiltNoRepeat(env, chain[..n]);
      assert AppendOk(env, chain[..n], chain[n]);
      NoRepeatConcat(Claims(chain[..n]), BlockClaims(chain[n]));
    }
  }

  // ------------------------------------------------------------ equal up to quorum

  /** Everything the hash covers is equal. */
  predicate SameBlock(a: Checkpoint, b: Checkpoint) {
    a.proposal == b.proposal && a.signatures == b.signatures
  }

  ghost predicate SameChain(c: Ledger, d: Ledger) {
    |c| == |d| && forall i :: 0 <= i < |c| ==> SameBlock(c[i], d[i])
  }

  lemma ServedSame(chain: Ledger)
    ensures SameChain(chain, Served(chain))
  {
  }

  lemma SamePrefix(c: Ledger, d: Ledger, k: nat)
    requires SameChain(c, d) && k <= |c|
    ensures SameChain(c[..k], d[..k])
  {
  }

  lemma {:induction false} SameClaims(c: Ledger, d: Ledger)
    requires SameChain(c, d)
    ensures Claims(c) == Claims(d)
  {
    if c == [] {
    } else {
      SamePrefix(c, d, |c| - 1);
      SameClaims(c[..|c| - 1], d[..|d| - 1]);
    }
  }

  /** The append rule does not see quorums. */
  lemma SameAppend(env: Env, c: Ledger, d: Ledger, a: Checkpoint, b: Checkpoint)
    requires SameChain(c, d) && SameBlock(a, b)
    ensures AppendOk(env, c, a) <==> AppendOk(env, d, b)
    ensures TipHash(env, c) == TipHash(env, d)
  {
    SameClaims(c, d);
    assert FreshHash(env, c, a) <==> FreshHash(env, d, b) by {
      assert forall i :: 0 <= i < |c| ==> env.Hash(c[i]) == env.Hash(d[i]);
    }
  }

  // ----------------------------------------------------------- the head binds history

  /** Heights count up from 0 and each block names its predecessor's hash. */
  ghost predicate Linked(env: Env, chain: Ledger) {
    forall i :: 0 <= i < |chain| ==> LinkedAt(env, chain, i)
  }

  predicate LinkedAt(env: Env, chain: Ledger, i: nat)
    requires i < |chain|
  {
    chain[i].Height() == i && chain[i].proposal.prevHash == (if i == 0 then GENESIS_PREV_HASH else env.Hash(chain[i - 1]))
  }

  lemma BuiltLinked(env: Env, chain: Ledger)
    requires Built(env, chain)
    ensures Linked(env, chain)
  {
    forall i | 0 <= i < |chain| ensures LinkedAt(env, chain, i) { BuiltHeights(env, chain, i); }
  }

  lemma LinkedPrefix(env: Env, chain: Ledger, k: nat)
    requires Linked(env, chain) && k <= |chain|
    ensures Linked(env, chain[..k])
  {
    forall i | 0 <= i < k ensures LinkedAt(env, chain[..k], i) { assert LinkedAt(env, chain, i); }
  }

  lemma EqualHash(env: Env, a: Checkpoint, b: Checkpoint)
    requires Binding(env) && env.Hash(a) == env.Hash(b)
    ensures SameBlock(a, b)
  {
  }

  lemma SameSnoc(c: Ledger, d: Ledger)
    requires |c| == |d| > 0 && SameChain(c[..|c| - 1], d[..|c| - 1]) && SameBlock(c[|c| - 1], d[|c| - 1])
    ensures SameChain(c, d)
  {
    forall i | 0 <= i < |c| ensures SameBlock(c[i], d[i]) {
      if i < |c| - 1 { assert SameBlock(c[..|c| - 1][i], d[..|c| - 1][i]); }
    }
  }

  /** Two linked chains with one head hash hold the same proposals and signatures at
      every height. */
  lemma {:induction false} HeadBindsHistory(env: Env, c: Ledger, d: Ledger)
    requires Binding(env) && Linked(env, c) && Linked(env, d) && c != [] && d != []
    requires TipHash(env, c) == TipHash(env, d)
    ensures SameChain(c, d)
  {
    var n := |c| - 1;
    assert LinkedAt(env, c, n) && LinkedAt(env, d, |d| - 1);
    EqualHash(env, c[n], d[|d| - 1]);
    if n == 0 {
    } else {
      LinkedPrefix(env, c, n);
      LinkedPrefix(env, d, n);
      HeadBindsHistory(env, c[..n], d[..n]);
    }
    SameSnoc(c, d);
  }

  /** The peer shows the block the ledger has at `h`. */
  predicate PeerHas(env: Env, chain: Ledger, peer: seq<Checkpoint>, h: nat)
    requires h < |chain|
  {
    exists i :: 0 <= i < |peer| && peer[i].Height() == h && env.Hash(peer[i]) == env.Hash(chain[h])
  }

  /** The deepest height at or below `h` the two agree on, or -1. */
  function AncestorFrom(env: Env, chain: Ledger, peer: seq<Checkpoint>, h: int): (a: int)
    requires -1 <= h < |chain|
    ensures -1 <= a <= h
    ensures a >= 0 ==> PeerHas(env, chain, peer, a)
    ensures forall i :: a < i <= h ==> !PeerHas(env, chain, peer, i)
    decreases h + 1
  {
    if h == -1 || PeerHas(env, chain, peer, h) then h else AncestorFrom(env, chain, peer, h - 1)
  }

  function CommonAncestor(env: Env, chain: Ledger, peer: seq<Checkpoint>): (a: int)
    ensures -1 <= a < |chain|
  { AncestorFrom(env, chain, peer, |chain| - 1) }

  /** Against a linked peer chain the common ancestor is the last index of the longest
      common prefix. */
  lemma AncestorIsLongestPrefix(env: Env, chain: Ledger, peer: Ledger)
    requires Binding(env) && Linked(env, chain) && Linked(env, peer)
    ensures var k := CommonAncestor(env, chain, peer) + 1;
            && k <= |chain| && k <= |peer|
            && SameChain(chain[..k], peer[..k])
            && (k < |chain| && k < |peer| ==> !SameBlock(chain[k], peer[k]))
  {
    var a := CommonAncestor(env, chain, peer);
    if a >= 0 { SharedHeight(env, chain, peer, a); }
    var k := a + 1;
    if k < |chain| && k < |peer| && SameBlock(chain[k], peer[k]) {
      assert LinkedAt(env, peer, k);
      assert PeerHas(env, chain, peer, k);
    }
  }

  lemma SharedHeight(env: Env, chain: Ledger, peer: Ledger, a: nat)
    requires Binding(env) && Linked(env, chain) && Linked(env, peer)
    requires a < |chain| && PeerHas(env, chain, peer, a)
    ensures a < |peer| && SameChain(chain[..a + 1], peer[..a + 1])
  {
    var i :| 0 <= i < |peer| && peer[i].Height() == a && env.Hash(peer[i]) == env.Hash(chain[a]);
    assert LinkedAt(env, peer, i);
    LinkedPrefix(env, chain, a + 1);
    LinkedPrefix(env, peer, a + 1);
    HeadBindsHistory(env, chain[..a + 1], peer[..a + 1]);
  }

  // ------------------------------------------------------------------ compute units

  function UnitsIf(env: Env, cs: seq<Claim>, node: string): real {
    if cs == [] then 0.0
    else UnitsIf(env, cs[..|cs| - 1], node) + (if cs[|cs| - 1].nodeId == node then env.units(cs[|cs| - 1]) else 0.0)
  }

  function NodeUnits(env: Env, chain: Ledger, node: string): real { UnitsIf(env, Claims(chain), node) }

  function SumUnits(env: Env, cs: seq<Claim>): real {
    if cs == [] then 0.0 else SumUnits(env, cs[..|cs| - 1]) + env.units(cs[|cs| - 1])
  }

  function TotalUnits(env: Env, chain: Ledger): real { SumUnits(env, Claims(chain)) }

  function SumOver(env: Env, cs: seq<Claim>, nodes: seq<string>): real {
    if nodes == [] then 0.0 else SumOver(env, cs, nodes[1..]) + UnitsIf(env, cs, nodes[0])
  }

  /** How one claim's units spread over a list of nodes. */
  lemma {:induction false} SpreadOne(env: Env, cs: seq<Claim>, c: Claim, nodes: seq<string>)
    requires Text.Distinct(nodes)
    ensures SumOver(env, cs + [c], nodes) == SumOver(env, cs, nodes) + (if c.nodeId in nodes then env.units(c) else 0.0)
  {
    if nodes == [] {
    } else {
      SpreadOne(env, cs, c, nodes[1..]);
      assert (cs + [c])[..|cs|] == cs;
      assert nodes == [nodes[0]] + nodes[1..];
    }
  }

  lemma {:induction false} SpreadNone(env: Env, nodes: seq<string>)
    ensures SumOver(env, [], nodes) == 0.0
  {
    if nodes == [] {
    } else {
      SpreadNone(env, nodes[1..]);
    }
  }

  lemma {:induction false} SpreadAll(env: Env, cs: seq<Claim>, nodes: seq<string>)
    requires Text.Distinct(nodes)
    requires forall i :: 0 <= i < |cs| ==> cs[i].nodeId in nodes
    ensures SumUnits(env, cs) == SumOver(env, cs, nodes)
  {
    if cs == [] {
      SpreadNone(env, nodes);
    } else {
      var front, c := cs[..|cs| - 1], cs[|cs| - 1];
      SpreadAll(env, front, nodes);
      SpreadOne(env, front, c, nodes);
      assert front + [c] == cs;
    }
  }

  /** Conservation: over any list of distinct nodes that covers the claimants, the
      nodes' totals add up to the ledger's. */
  lemma UnitsConserved(env: Env, chain: Ledger, nodes: seq<string>)
    requires Text.Distinct(nodes)
    requires forall i :: 0 <= i < |Claims(chain)| ==> Claims(chain)[i].nodeId in nodes
    ensures TotalUnits(env, chain) == SumOver(env, Claims(chain), nodes)
  {
    SpreadAll(env, Claims(chain), nodes);
  }
}
