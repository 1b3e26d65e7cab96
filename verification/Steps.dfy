/** The loops the handlers run over their inputs, each proved against its definition. */
module Steps {
  import opened Models
  import opened Chain
  import opened Protocol
  import opened Store
  import Checks
  import Sets
  import Text

  // --------------------------------------------------------------------- ordered keys

  lemma LowestUnique(s: set<int>, k: int)
    requires |s| > 0 && IsLowest(s, k)
    ensures k == Lowest(s)
  {
  }

  method LowestKey(s: set<int>) returns (k: int)
    requires |s| > 0
    ensures k == Lowest(s)
  {
    Sets.SomeInt(s);
    k :| k in s;
    var met := {k};
    while met != s
      invariant k in met && met <= s && forall j :: j in met ==> k <= j
      decreases s - met
    {
      MoreLeft(s, met);
      var x :| x in s && x !in met;
      met := met + {x};
      if x < k { k := x; }
    }
    LowestUnique(s, k);
  }

  lemma MoreLeft(s: set<int>, met: set<int>)
    requires met <= s && met != s
    ensures exists x :: x in s && x !in met
  {
    if !exists x :: x in s && x !in met { AllMet(s, met); }
  }

  lemma AllMet(s: set<int>, met: set<int>)
    requires met <= s && forall x :: x in s ==> x in met
    ensures s == met
  {
    var left := s - met;
    Sets.NoInts(left);
    assert s == met + left;
    assert left == {};
  }

  /** The heights of a sorted map, lowest first. */
  method AscendingKeys(s: set<int>) returns (r: seq<int>)
    ensures r == Ascending(s)
  {
    r := [];
    var left := s;
    while |left| > 0
      invariant Ascending(s) == r + Ascending(left)
      decreases |left|
    {
      var k := LowestKey(left);
      assert Ascending(left) == [k] + Ascending(left - {k});
      r := r + [k];
      left := left - {k};
    }
  }

  /** Dropping the lowest entry while there are too many. */
  method Trim(m: map<int, Checkpoint>) returns (r: map<int, Checkpoint>)
    ensures r == TrimLowest(m)
  {
    r := m;
    while |r| > MAX_PENDING_COMMITS
      invariant TrimLowest(m) == TrimLowest(r)
      decreases |r|
    {
      var k := LowestKey(r.Keys);
      assert (r - {k}).Keys == r.Keys - {k};
      r := r - {k};
    }
  }

  // ------------------------------------------------------------------------ ranked maps

  method SortShares(shares: Shares) returns (r: seq<QuorumSignature>)
    ensures r == SortedSignatures(shares)
  {
    hide Text.Ranked, SignatureOf;
    var ids := Text.Rank(NO_WEIGHT, shares.Keys);
    assert forall i :: 0 <= i < |ids| ==> ids[i] in Text.Elements(ids);
    r := [];
    while |r| < |ids|
      invariant |r| <= |ids|
      invariant forall i :: 0 <= i < |r| ==> r[i] == SignatureOf(shares[ids[i]])
    {
      r := r + [SignatureOf(shares[ids[|r|]])];
    }
  }

  method SortClaims(pending: map<string, SignedClaim>, ids: set<string>) returns (r: seq<SignedClaim>)
    requires ids <= pending.Keys
    ensures |r| == |Text.Ranked(NO_WEIGHT, ids)|
    ensures forall i :: 0 <= i < |r| ==> Text.Ranked(NO_WEIGHT, ids)[i] in pending && r[i] == pending[Text.Ranked(NO_WEIGHT, ids)[i]]
  {
    hide Text.Ranked;
    var ranked := Text.Rank(NO_WEIGHT, ids);
    assert forall i :: 0 <= i < |ranked| ==> ranked[i] in Text.Elements(ranked);
    r := [];
    while |r| < |ranked|
      invariant |r| <= |ranked|
      invariant forall i :: 0 <= i < |r| ==> r[i] == pending[ranked[i]]
    {
      r := r + [pending[ranked[|r|]]];
    }
  }

  // -------------------------------------------------------------------- peer blocks

  method Insert(b: Checkpoint, sorted: seq<Checkpoint>) returns (r: seq<Checkpoint>)
    ensures r == InsertByHeight(b, sorted)
  {
    var i := 0;
    while i < |sorted| && !(b.Height() < sorted[i].Height())
      invariant i <= |sorted|
      invariant InsertByHeight(b, sorted) == sorted[..i] + InsertByHeight(b, sorted[i..])
    {
      assert sorted[i..][1..] == sorted[i + 1..];
      assert sorted[..i] + [sorted[i]] == sorted[..i + 1];
      Text.Associative(sorted[..i], [sorted[i]], InsertByHeight(b, sorted[i + 1..]));
      i := i + 1;
    }
    r := sorted[..i] + [b] + sorted[i..];
    Text.Associative(sorted[..i], [b], sorted[i..]);
  }

  method SortBlocks(blocks: seq<Checkpoint>) returns (r: seq<Checkpoint>)
    ensures r == SortByHeight(blocks)
  {
    r := [];
    var i := 0;
    while i < |blocks|
      invariant i <= |blocks| && r == SortByHeight(blocks[..i])
    {
      assert blocks[..i + 1][..i] == blocks[..i];
      r := Insert(blocks[i], r);
      i := i + 1;
    }
    assert blocks[..|blocks|] == blocks;
  }

  method Filter(blocks: seq<Checkpoint>, height: int) returns (r: seq<Checkpoint>)
    ensures r == Above(blocks, height)
  {
    r := [];
    var i := 0;
    while i < |blocks|
      invariant i <= |blocks| && r == Above(blocks[..i], height)
    {
      assert blocks[..i + 1][..i] == blocks[..i];
      if blocks[i].Height() > height { r := r + [blocks[i]]; }
      i := i + 1;
    }
    assert blocks[..|blocks|] == blocks;
  }

  method IsChained(env: Env, prev: string, height: int, incoming: seq<Checkpoint>) returns (ok: bool)
    ensures ok <==> Chained(env, prev, height, incoming)
  {
    var expectedPrev, expectedHeight := prev, height;
    var i := 0;
    while i < |incoming|
      invariant i <= |incoming|
      invariant Chained(env, prev, height, incoming) <==> Chained(env, expectedPrev, expectedHeight, incoming[i..])
    {
      if incoming[i].Height() != expectedHeight { return false; }
      if incoming[i].proposal.prevHash != expectedPrev { return false; }
      assert incoming[i..][1..] == incoming[i + 1..];
      expectedPrev := env.Hash(incoming[i]);
      expectedHeight := expectedHeight + 1;
      i := i + 1;
    }
    return true;
  }

  method FindAncestor(store: ChainStore, peer: seq<Checkpoint>) returns (a: int)
    requires store.Valid()
    ensures a == CommonAncestor(store.env, store.Contents(), peer)
  {
    hide TablesOk;
    var h := store.Height();
    Checks.HeadIs(store);
    while h >= 0
      invariant -1 <= h < |store.Contents()|
      invariant CommonAncestor(store.env, store.Contents(), peer) == AncestorFrom(store.env, store.Contents(), peer, h)
    {
      var local := store.BlockAt(h);
      if exists i :: 0 <= i < |peer| && peer[i].Height() == h && store.env.Hash(peer[i]) == store.env.Hash(local.value) { return h; }
      h := h - 1;
    }
    return -1;
  }

  /** The blocks from one height up to below another, as the store reads them. */
  ghost function Between(chain: Ledger, from: int, h: int): seq<Checkpoint> {
    if h <= from || h <= 0 || h > |chain| then [] else Served(chain)[if from < 0 then 0 else from..h]
  }

  lemma BetweenStep(chain: Ledger, from: int, h: int)
    requires from <= h < |chain|
    ensures Between(chain, from, h + 1) == Between(chain, from, h) + (if h < 0 then [] else [Reconstruct(chain[h])])
  {
    if h >= 0 { assert Served(chain)[h] == Reconstruct(chain[h]); }
  }

  lemma BetweenAll(chain: Ledger, from: int)
    ensures from >= |chain| ==> BlocksAbove(chain, from - 1) == []
    ensures from < |chain| ==> BlocksAbove(chain, from - 1) == Between(chain, from, |chain|)
  {
  }

  method BlocksFrom(store: ChainStore, from: int) returns (r: seq<Checkpoint>)
    requires store.Valid()
    ensures r == BlocksAbove(store.Contents(), from - 1)
  {
    hide TablesOk, Between, BlocksAbove, Reconstruct, Served, ChainStore.Contents, ChainStore.Height;
    Checks.HeadIs(store);
    r := [];
    var h := from;
    assert Between(store.Contents(), from, from) == [] by { BetweenNone(store.Contents(), from); }
    while h <= store.Height()
      invariant from <= h && (h == from || h <= |store.Contents()|)
      invariant r == Between(store.Contents(), from, h)
    {
      BetweenStep(store.Contents(), from, h);
      var b := store.BlockAt(h);
      if b.Some? { r := r + [b.value]; }
      h := h + 1;
    }
    BetweenAll(store.Contents(), from);
  }

  lemma BetweenNone(chain: Ledger, from: int)
    ensures Between(chain, from, from) == []
  {
  }
}
