/** `verify_chain`: what the walk over the stored rows accepts, for any tables at all. */
module Audit {
  import Sets
  import opened Models
  import opened Chain
  import opened Tables
  import opened Store

  ghost predicate IsMax(blocks: BlockTable, h: int) {
    if blocks == map[] then h == -1 else h in blocks && forall k :: k in blocks ==> k <= h
  }

  /** A stored row links to the stored hash below it and hashes to its own. */
  ghost predicate RowOk(env: Env, blocks: BlockTable, h: nat) {
    && h in blocks
    && (h > 0 ==> h - 1 in blocks)
    && blocks[h].prevHash == (if h == 0 then GENESIS_PREV_HASH else blocks[h - 1].blockHash)
    && env.Hash(BlockOf(blocks[h])) == blocks[h].blockHash
  }

  /** The claims of the rows below `n` that are present. */
  function RowClaims(blocks: BlockTable, n: nat): seq<Claim> {
    if n == 0 then []
    else RowClaims(blocks, n - 1) + (if n - 1 in blocks then BlockClaims(BlockOf(blocks[n - 1])) else [])
  }

  ghost predicate Accepts(env: Env, blocks: BlockTable, n: nat) {
    (forall h :: 0 <= h < n ==> RowOk(env, blocks, h)) && NoRepeat(RowClaims(blocks, n))
  }

  ghost function Sequences(cs: seq<Claim>): set<(string, int)> { set i | 0 <= i < |cs| :: (cs[i].nodeId, cs[i].sequence) }

  lemma SeenIffClash(cs: seq<Claim>, c: Claim)
    ensures c.claimId in Ids(cs) || (c.nodeId, c.sequence) in Sequences(cs) <==> ClashesWith(cs, c)
  {
    if c.claimId in Ids(cs) {
      var i :| 0 <= i < |cs| && cs[i].claimId == c.claimId;
      assert Clash(cs[i], c);
    } else if (c.nodeId, c.sequence) in Sequences(cs) {
      var i :| 0 <= i < |cs| && (cs[i].nodeId, cs[i].sequence) == (c.nodeId, c.sequence);
      assert Clash(cs[i], c);
    }
    if i :| 0 <= i < |cs| && Clash(cs[i], c) {
      assert cs[i].claimId in Ids(cs) && (cs[i].nodeId, cs[i].sequence) in Sequences(cs);
    }
  }

  lemma SeenSnoc(cs: seq<Claim>, c: Claim)
    ensures Ids(cs + [c]) == Ids(cs) + {c.claimId}
    ensures Sequences(cs + [c]) == Sequences(cs) + {(c.nodeId, c.sequence)}
  {
    IdsConcat(cs, [c]);
    forall x | x in Sequences(cs + [c]) ensures x in Sequences(cs) + {(c.nodeId, c.sequence)} {
      var i :| 0 <= i < |cs + [c]| && ((cs + [c])[i].nodeId, (cs + [c])[i].sequence) == x;
      if i < |cs| { assert (cs + [c])[i] == cs[i]; }
    }
    forall x | x in Sequences(cs) + {(c.nodeId, c.sequence)} ensures x in Sequences(cs + [c]) {
      if x in Sequences(cs) {
        var i :| 0 <= i < |cs| && (cs[i].nodeId, cs[i].sequence) == x;
        assert (cs + [c])[i] == cs[i];
      } else {
        assert (cs + [c])[|cs|] == c;
      }
    }
  }

  lemma RepeatSnoc(cs: seq<Claim>, c: Claim)
    ensures NoRepeat(cs + [c]) <==> NoRepeat(cs) && !ClashesWith(cs, c)
  {
    if NoRepeat(cs + [c]) {
      FrontNoRepeat(cs, [c]);
      forall i | 0 <= i < |cs| ensures !Clash(cs[i], c) { assert !Clash((cs + [c])[i], (cs + [c])[|cs|]); }
    }
    if NoRepeat(cs) && !ClashesWith(cs, c) { NoRepeatConcat(cs, [c]); }
  }

  /** A repeat stays a repeat however the list goes on. */
  lemma RepeatStays(cs: seq<Claim>, ds: seq<Claim>)
    requires !NoRepeat(cs)
    ensures !NoRepeat(cs + ds)
  {
    if NoRepeat(cs + ds) { FrontNoRepeat(cs, ds); }
  }

  /** One block's claims against everything seen so far. */
  method NoteClaims(ids0: set<string>, seqs0: set<(string, int)>, cs: seq<Claim>, ghost before: seq<Claim>)
    returns (ok: bool, ids: set<string>, seqs: set<(string, int)>)
    requires ids0 == Ids(before) && seqs0 == Sequences(before) && NoRepeat(before)
    ensures ok <==> NoRepeat(before + cs)
    ensures ok ==> ids == Ids(before + cs) && seqs == Sequences(before + cs)
  {
    hide NoRepeat, ClashesWith, Ids, Sequences;
    ids, seqs := ids0, seqs0;
    var i := 0;
    assert before + cs[..0] == before;
    while i < |cs|
      invariant 0 <= i <= |cs|
      invariant ids == Ids(before + cs[..i]) && seqs == Sequences(before + cs[..i]) && NoRepeat(before + cs[..i])
    {
      ghost var sofar := before + cs[..i];
      SeenIffClash(sofar, cs[i]);
      SeenSnoc(sofar, cs[i]);
      RepeatSnoc(sofar, cs[i]);
      assert before + cs[..i + 1] == sofar + [cs[i]];
      if cs[i].claimId in ids || (cs[i].nodeId, cs[i].sequence) in seqs {
        RepeatStays(before + cs[..i + 1], cs[i + 1..]);
        assert before + cs == before + cs[..i + 1] + cs[i + 1..];
        return false, ids, seqs;
      }
      ids := ids + {cs[i].claimId};
      seqs := seqs + {(cs[i].nodeId, cs[i].sequence)};
      i := i + 1;
    }
    assert cs[..i] == cs;
    ok := true;
  }

  method MaxHeight(blocks: BlockTable) returns (h: int)
    ensures IsMax(blocks, h)
  {
    if blocks == map[] {
      return -1;
    }
    Sets.SomeInt(blocks.Keys);
    h :| h in blocks.Keys;
    var left := blocks.Keys - {h};
    while left != {}
      invariant left <= blocks.Keys && h in blocks
      invariant forall k :: k in blocks && k !in left ==> k <= h
      decreases left
    {
      Sets.SomeInt(left);
      var k :| k in left;
      if k > h { h := k; }
      left := left - {k};
    }
  }

  lemma {:induction false} BadRowStays(env: Env, blocks: BlockTable, h: nat, n: nat)
    requires h < n && !RowOk(env, blocks, h)
    ensures !Accepts(env, blocks, n)
  {
  }

  lemma {:induction false} RepeatInRows(blocks: BlockTable, k: nat, n: nat)
    requires k <= n && !NoRepeat(RowClaims(blocks, k))
    ensures !NoRepeat(RowClaims(blocks, n))
  {
    if k < n {
      RepeatInRows(blocks, k, n - 1);
      RepeatStays(RowClaims(blocks, n - 1), if n - 1 in blocks then BlockClaims(BlockOf(blocks[n - 1])) else []);
    }
  }

  /** The walk accepts exactly when every stored link and hash up to the highest row holds
      and no claim repeats, whatever the tables contain. */
  method VerifyChain(env: Env, blocks: BlockTable) returns (ok: bool, top: int)
    ensures IsMax(blocks, top)
    ensures ok <==> Accepts(env, blocks, if top < 0 then 0 else top + 1)
  {
    hide NoRepeat, Ids, Sequences, IsMax;
    top := MaxHeight(blocks);
    ghost var n: nat := if top < 0 then 0 else top + 1;
    var ids: set<string>, seqs: set<(string, int)> := {}, {};
    EmptySeen();
    var prev := GENESIS_PREV_HASH;
    var h := 0;
    while h <= top
      invariant 0 <= h <= n
      invariant forall k :: 0 <= k < h ==> RowOk(env, blocks, k)
      invariant h > 0 ==> h - 1 in blocks
      invariant prev == if h == 0 then GENESIS_PREV_HASH else blocks[h - 1].blockHash
      invariant ids == Ids(RowClaims(blocks, h)) && seqs == Sequences(RowClaims(blocks, h)) && NoRepeat(RowClaims(blocks, h))
    {
      assert h > 0 ==> RowOk(env, blocks, h - 1);
      if h !in blocks || blocks[h].prevHash != prev || env.Hash(Reconstruct(BlockOf(blocks[h]))) != blocks[h].blockHash {
        BadRowStays(env, blocks, h, n);
        ok := false;
        return;
      }
      var newClaims: bool;
      newClaims, ids, seqs := NoteClaims(ids, seqs, BlockClaims(BlockOf(blocks[h])), RowClaims(blocks, h));
      if !newClaims {
        RepeatInRows(blocks, h + 1, n);
        ok := false;
        return;
      }
      prev := blocks[h].blockHash;
      h := h + 1;
    }
    ok := true;
  }

  lemma EmptySeen()
    ensures Ids([]) == {} && Sequences([]) == {} && NoRepeat([])
  {
  }

  // ------------------------------------------------- stores built by append and rollback

  lemma {:induction false} RowClaimsAreClaims(blocks: BlockTable, chain: Ledger, n: nat)
    requires Contiguous(blocks) && chain == BlocksOf(blocks) && n <= |chain|
    ensures RowClaims(blocks, n) == Claims(chain[..n])
  {
    hide BlocksOf, Claims, ClaimIds, BlockIds, BlockClaims;
    if n == 0 {
      assert chain[..0] == [];
      NoClaims();
    } else {
      RowClaimsAreClaims(blocks, chain, n - 1);
      PrefixClaims(chain, n);
    }
  }

  lemma PrefixClaims(chain: Ledger, n: nat)
    requires 0 < n <= |chain|
    ensures Claims(chain[..n]) == Claims(chain[..n - 1]) + BlockClaims(chain[n - 1])
  {
    assert chain[..n][..n - 1] == chain[..n - 1] && chain[..n][n - 1] == chain[n - 1];
  }

  lemma NoClaims()
    ensures Claims([]) == []
  {
  }

  /** Whatever appends and rollbacks built, the walk accepts. */
  lemma BuiltTablesAccepted(env: Env, blocks: BlockTable, claims: ClaimTable)
    requires TablesOk(env, blocks, claims)
    ensures IsMax(blocks, |blocks| - 1)
    ensures Accepts(env, blocks, |blocks|)
  {
    hide AppendOk, NoRepeat, Claims, Built, FlatRows, TableOf;
    var chain := BlocksOf(blocks);
    RowClaimsAreClaims(blocks, chain, |blocks|);
    assert chain[..|blocks|] == chain;
    BuiltNoRepeat(env, chain);
    forall h | 0 <= h < |blocks| ensures RowOk(env, blocks, h) {
      BuiltHeights(env, chain, h);
    }
    assert blocks != map[] ==> |blocks| - 1 in blocks;
  }

  // ---------------------------------------------------------- what is accepted, row by row

  /** Claim `i` of row `h`. */
  predicate At(blocks: BlockTable, h: int, i: int) { h in blocks && 0 <= i < |blocks[h].proposal.claims| }

  function ClaimAt(blocks: BlockTable, h: int, i: int): Claim
    requires At(blocks, h, i)
  { blocks[h].proposal.claims[i].claim }

  lemma RowIs(blocks: BlockTable, h: int)
    requires h in blocks
    ensures var row := BlockClaims(BlockOf(blocks[h]));
            |row| == |blocks[h].proposal.claims| && forall i :: 0 <= i < |row| ==> At(blocks, h, i) && row[i] == ClaimAt(blocks, h, i)
  {
  }

  /** Different claims of the rows below `n` differ in id and in turn. */
  ghost predicate AllApart(blocks: BlockTable, n: nat) {
    forall h, i, k, j :: 0 <= h < n && 0 <= k < n && At(blocks, h, i) && At(blocks, k, j) && (h != k || i != j) ==>
      !Clash(ClaimAt(blocks, h, i), ClaimAt(blocks, k, j))
  }

  ghost predicate ApartAt(blocks: BlockTable, h: int) {
    forall i, j :: At(blocks, h, i) && At(blocks, h, j) && i != j ==> !Clash(ClaimAt(blocks, h, i), ClaimAt(blocks, h, j))
  }

  /** No claim of the rows below `n` clashes with one of `ds`. */
  ghost predicate ApartFrom(blocks: BlockTable, n: nat, ds: seq<Claim>) {
    forall h, i, j :: 0 <= h < n && At(blocks, h, i) && 0 <= j < |ds| ==> !Clash(ClaimAt(blocks, h, i), ds[j])
  }

  lemma {:induction false} ClashFreeRows(blocks: BlockTable, n: nat, ds: seq<Claim>)
    ensures ClashFree(RowClaims(blocks, n), ds) <==> ApartFrom(blocks, n, ds)
  {
    hide Clash;
    if n == 0 {
    } else {
      var front := RowClaims(blocks, n - 1);
      ClashFreeRows(blocks, n - 1, ds);
      if n - 1 in blocks {
        var row := BlockClaims(BlockOf(blocks[n - 1]));
        ClashFreeConcat(front, row, ds);
        RowIs(blocks, n - 1);
      } else {
        assert front + [] == front;
      }
    }
  }

  lemma ClashFreeConcat(a: seq<Claim>, b: seq<Claim>, ds: seq<Claim>)
    ensures ClashFree(a + b, ds) <==> ClashFree(a, ds) && ClashFree(b, ds)
  {
    hide Clash;
    if ClashFree(a + b, ds) {
      forall i, j | 0 <= i < |a| && 0 <= j < |ds| ensures !Clash(a[i], ds[j]) { assert (a + b)[i] == a[i]; }
      forall i, j | 0 <= i < |b| && 0 <= j < |ds| ensures !Clash(b[i], ds[j]) { assert (a + b)[|a| + i] == b[i]; }
    }
  }

  lemma ClashSymmetric(a: Claim, b: Claim)
    ensures Clash(a, b) <==> Clash(b, a)
  {
  }

  lemma {:induction false} NoRepeatRows(blocks: BlockTable, n: nat)
    ensures NoRepeat(RowClaims(blocks, n)) <==> AllApart(blocks, n)
  {
    hide Clash, ClashFree, NoRepeat;
    if n == 0 {
      EmptySeen();
    } else {
      var front := RowClaims(blocks, n - 1);
      NoRepeatRows(blocks, n - 1);
      if n - 1 in blocks {
        var row := BlockClaims(BlockOf(blocks[n - 1]));
        ClashFreeRows(blocks, n - 1, row);
        NoRepeatSplit(front, row);
        RowApart(blocks, n - 1, row);
        ApartSnoc(blocks, n, row);
      } else {
        assert front + [] == front;
      }
    }
  }

  lemma NoRepeatSplit(a: seq<Claim>, b: seq<Claim>)
    ensures NoRepeat(a + b) <==> NoRepeat(a) && NoRepeat(b) && ClashFree(a, b)
  {
    hide Clash;
    if NoRepeat(a + b) {
      forall i, j | 0 <= i < j < |a| ensures !Clash(a[i], a[j]) { assert (a + b)[i] == a[i] && (a + b)[j] == a[j]; }
      forall i, j | 0 <= i < j < |b| ensures !Clash(b[i], b[j]) { assert (a + b)[|a| + i] == b[i] && (a + b)[|a| + j] == b[j]; }
      forall i, j | 0 <= i < |a| && 0 <= j < |b| ensures !Clash(a[i], b[j]) { assert (a + b)[i] == a[i] && (a + b)[|a| + j] == b[j]; }
    }
    if NoRepeat(a) && NoRepeat(b) && ClashFree(a, b) { NoRepeatConcat(a, b); }
  }

  lemma RowApart(blocks: BlockTable, h: nat, row: seq<Claim>)
    requires h in blocks && row == BlockClaims(BlockOf(blocks[h]))
    ensures NoRepeat(row) <==> ApartAt(blocks, h)
  {
    hide Clash, BlockClaims;
    RowIs(blocks, h);
    if NoRepeat(row) {
      forall i, j | At(blocks, h, i) && At(blocks, h, j) && i != j ensures !Clash(ClaimAt(blocks, h, i), ClaimAt(blocks, h, j)) {
        ClashSymmetric(row[i], row[j]);
      }
    }
  }

  lemma ApartSnoc(blocks: BlockTable, n: nat, row: seq<Claim>)
    requires n > 0 && n - 1 in blocks && row == BlockClaims(BlockOf(blocks[n - 1]))
    ensures AllApart(blocks, n) <==> AllApart(blocks, n - 1) && ApartAt(blocks, n - 1) && ApartFrom(blocks, n - 1, row)
  {
    hide Clash, BlockClaims;
    RowIs(blocks, n - 1);
    if AllApart(blocks, n - 1) && ApartAt(blocks, n - 1) && ApartFrom(blocks, n - 1, row) { ApartJoin(blocks, n, row); }
  }

  lemma ApartJoin(blocks: BlockTable, n: nat, row: seq<Claim>)
    requires n > 0 && n - 1 in blocks && row == BlockClaims(BlockOf(blocks[n - 1]))
    requires AllApart(blocks, n - 1) && ApartAt(blocks, n - 1) && ApartFrom(blocks, n - 1, row)
    ensures AllApart(blocks, n)
  {
    hide Clash, BlockClaims;
    RowIs(blocks, n - 1);
    forall h, i, k, j | 0 <= h < n && 0 <= k < n && At(blocks, h, i) && At(blocks, k, j) && (h != k || i != j)
      ensures !Clash(ClaimAt(blocks, h, i), ClaimAt(blocks, k, j))
    {
      if h < n - 1 && k == n - 1 {
        assert row[j] == ClaimAt(blocks, k, j);
      } else if k < n - 1 && h == n - 1 {
        assert row[i] == ClaimAt(blocks, h, i);
        ClashSymmetric(ClaimAt(blocks, k, j), row[i]);
      }
    }
  }

  /** A row is accepted if it names the stored hash of the row below (the fixed one at the
      bottom) and is stored under the hash of its proposal and signatures. */
  lemma RowIff(env: Env, blocks: BlockTable, h: nat)
    ensures RowOk(env, blocks, h) <==>
            && h in blocks
            && env.blockHash(blocks[h].proposal, blocks[h].signatures) == blocks[h].blockHash
            && (h == 0 ==> blocks[h].prevHash == GENESIS_PREV_HASH)
            && (h > 0 ==> h - 1 in blocks && blocks[h].prevHash == blocks[h - 1].blockHash)
  {
  }

  /** The walk over rows 0 to `n` accepts if and only if each row is accepted and no two
      claims in them share an id or a sequence number of a node. */
  lemma AcceptsIff(env: Env, blocks: BlockTable, n: nat)
    ensures Accepts(env, blocks, n) <==>
            && (forall h :: 0 <= h < n ==> RowOk(env, blocks, h))
            && (forall h, i, k, j :: 0 <= h < n && 0 <= k < n && At(blocks, h, i) && At(blocks, k, j) && (h != k || i != j) ==>
                  && ClaimAt(blocks, h, i).claimId != ClaimAt(blocks, k, j).claimId
                  && !(ClaimAt(blocks, h, i).nodeId == ClaimAt(blocks, k, j).nodeId && ClaimAt(blocks, h, i).sequence == ClaimAt(blocks, k, j).sequence))
  {
    hide NoRepeat, RowClaims, RowOk;
    NoRepeatRows(blocks, n);
  }
}
