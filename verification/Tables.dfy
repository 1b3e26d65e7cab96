/** The rows of the blocks and claims tables, and how the claims table follows from the
    blocks. */
module Tables {
  import opened Models
  import opened Chain
  import Text

  datatype BlockRow = BlockRow(
    blockHash: string,
    prevHash: string,
    epoch: int,
    sealedBy: string,
    proposal: Proposal,
    signatures: seq<QuorumSignature>,
    quorum: nat,
    committedAt: string)

  datatype ClaimRow = ClaimRow(height: int, nodeId: string, sequence: int, units: real, claim: Claim)

  type ClaimTable = map<string, ClaimRow>

  function RowOf(env: Env, b: Checkpoint): BlockRow {
    BlockRow(env.Hash(b), b.proposal.prevHash, b.Epoch(), b.proposal.sealedBy, b.proposal, b.signatures, b.quorum,
             b.proposal.createdAt)
  }

  function BlockOf(r: BlockRow): Checkpoint { Checkpoint(r.proposal, r.signatures, r.quorum) }

  function ClaimRowOf(env: Env, height: int, c: Claim): ClaimRow {
    ClaimRow(height, c.nodeId, c.sequence, env.units(c), c)
  }

  /** The rows a block's claims become. */
  function RowsOf(env: Env, height: int, cs: seq<Claim>): (r: seq<ClaimRow>)
    ensures |r| == |cs|
    ensures forall i :: 0 <= i < |cs| ==> r[i] == ClaimRowOf(env, height, cs[i])
  { seq(|cs|, i requires 0 <= i < |cs| => ClaimRowOf(env, height, cs[i])) }

  function FlatRows(env: Env, chain: Ledger): seq<ClaimRow> {
    if chain == [] then []
    else FlatRows(env, chain[..|chain| - 1]) + RowsOf(env, chain[|chain| - 1].Height(), BlockClaims(chain[|chain| - 1]))
  }

  function TableOf(rows: seq<ClaimRow>): ClaimTable {
    if rows == [] then map[] else TableOf(rows[..|rows| - 1])[rows[|rows| - 1].claim.claimId := rows[|rows| - 1]]
  }

  /** A row whose insertion would break a uniqueness constraint of the table. */
  predicate TableClash(t: ClaimTable, c: Claim) {
    c.claimId in t || exists k :: k in t && t[k].nodeId == c.nodeId && t[k].sequence == c.sequence
  }

  ghost predicate WellFormedRows(rows: seq<ClaimRow>) { ColumnsAgree(rows) && DistinctIds(rows) }

  ghost predicate ColumnsAgree(rows: seq<ClaimRow>) {
    forall i :: 0 <= i < |rows| ==> rows[i].nodeId == rows[i].claim.nodeId && rows[i].sequence == rows[i].claim.sequence
  }

  ghost predicate DistinctIds(rows: seq<ClaimRow>) {
    forall i, j :: 0 <= i < j < |rows| ==> rows[i].claim.claimId != rows[j].claim.claimId
  }

  /** Every row is in the table under its claim's id. */
  lemma {:induction false} TableGet(rows: seq<ClaimRow>, i: nat)
    requires DistinctIds(rows) && i < |rows|
    ensures rows[i].claim.claimId in TableOf(rows) && TableOf(rows)[rows[i].claim.claimId] == rows[i]
  {
    if i < |rows| - 1 { TableGet(rows[..|rows| - 1], i); }
  }

  /** Every entry of the table is one of the rows. */
  lemma {:induction false} TableFind(rows: seq<ClaimRow>, k: string) returns (i: nat)
    requires k in TableOf(rows)
    ensures i < |rows| && rows[i].claim.claimId == k && TableOf(rows)[k] == rows[i]
  {
    if k == rows[|rows| - 1].claim.claimId {
      i := |rows| - 1;
    } else {
      i := TableFind(rows[..|rows| - 1], k);
    }
  }

  lemma ClashInTable(rows: seq<ClaimRow>, c: Claim) returns (i: nat)
    requires ColumnsAgree(rows) && TableClash(TableOf(rows), c)
    ensures i < |rows| && Clash(rows[i].claim, c)
  {
    var k :| k in TableOf(rows) && (k == c.claimId || (TableOf(rows)[k].nodeId == c.nodeId && TableOf(rows)[k].sequence == c.sequence));
    i := TableFind(rows, k);
  }

  lemma ClashInRows(rows: seq<ClaimRow>, c: Claim, i: nat)
    requires WellFormedRows(rows) && i < |rows| && Clash(rows[i].claim, c)
    ensures TableClash(TableOf(rows), c)
  {
    TableGet(rows, i);
  }

  // --------------------------------------------------------- rows against claims

  lemma {:induction false} FlatRowsMatch(env: Env, chain: Ledger)
    ensures |FlatRows(env, chain)| == |Claims(chain)|
    ensures forall i :: 0 <= i < |Claims(chain)| ==> FlatRows(env, chain)[i].claim == Claims(chain)[i]
    ensures forall i :: 0 <= i < |Claims(chain)| ==>
              FlatRows(env, chain)[i].nodeId == Claims(chain)[i].nodeId && FlatRows(env, chain)[i].sequence == Claims(chain)[i].sequence
  {
    if chain == [] {
    } else {
      FlatRowsMatch(env, chain[..|chain| - 1]);
    }
  }

  lemma FlatRowsWellFormed(env: Env, chain: Ledger)
    requires NoRepeat(Claims(chain))
    ensures WellFormedRows(FlatRows(env, chain))
  {
    FlatRowsMatch(env, chain);
    var rows := FlatRows(env, chain);
    forall i, j | 0 <= i < j < |rows| ensures rows[i].claim.claimId != rows[j].claim.claimId {
      assert !Clash(Claims(chain)[i], Claims(chain)[j]);
    }
  }

  predicate ClashesWith(cs: seq<Claim>, c: Claim) {
    exists i :: 0 <= i < |cs| && Clash(cs[i], c)
  }

  /** A claim clashes with the table exactly when it clashes with a committed claim. */
  lemma LedgerClash(env: Env, chain: Ledger, c: Claim)
    requires NoRepeat(Claims(chain))
    ensures TableClash(TableOf(FlatRows(env, chain)), c) <==> ClashesWith(Claims(chain), c)
  {
    FlatRowsMatch(env, chain);
    FlatRowsWellFormed(env, chain);
    var rows := FlatRows(env, chain);
    if TableClash(TableOf(rows), c) {
      var i := ClashInTable(rows, c);
      assert Clash(Claims(chain)[i], c);
    }
    if i :| 0 <= i < |Claims(chain)| && Clash(Claims(chain)[i], c) {
      ClashInRows(rows, c, i);
    }
  }

  lemma TableIds(env: Env, chain: Ledger)
    requires NoRepeat(Claims(chain))
    ensures TableOf(FlatRows(env, chain)).Keys == ClaimIds(chain)
  {
    FlatRowsMatch(env, chain);
    FlatRowsWellFormed(env, chain);
    var rows := FlatRows(env, chain);
    forall k | k in TableOf(rows).Keys ensures k in ClaimIds(chain) {
      var i := TableFind(rows, k);
      assert Claims(chain)[i].claimId == k;
    }
    forall k | k in ClaimIds(chain) ensures k in TableOf(rows).Keys {
      var i :| 0 <= i < |Claims(chain)| && Claims(chain)[i].claimId == k;
      TableGet(rows, i);
    }
  }

  // -------------------------------------------------------------- rolling back rows

  function KeepRows(t: ClaimTable, keep: int): ClaimTable {
    map k | k in t && t[k].height <= keep :: t[k]
  }

  ghost predicate HeightsWithin(rows: seq<ClaimRow>, lo: int, hi: int) {
    forall i :: 0 <= i < |rows| ==> lo <= rows[i].height < hi
  }

  lemma HeightsConcat(a: seq<ClaimRow>, b: seq<ClaimRow>, lo: int, mid: int, hi: int)
    requires lo <= mid <= hi && HeightsWithin(a, lo, mid) && HeightsWithin(b, mid, hi)
    ensures HeightsWithin(a + b, lo, hi)
  {
  }

  /** The rows of the first `k` blocks come first, and heights follow the blocks. */
  lemma {:induction false} FlatSplit(env: Env, chain: Ledger, k: nat) returns (more: seq<ClaimRow>)
    requires k <= |chain| && forall j :: 0 <= j < |chain| ==> chain[j].Height() == j
    ensures FlatRows(env, chain) == FlatRows(env, chain[..k]) + more
    ensures HeightsWithin(more, k, |chain|)
  {
    if k == |chain| {
      assert chain[..k] == chain;
      more := [];
    } else {
      var n := |chain| - 1;
      var m := FlatSplit(env, chain[..n], k);
      assert chain[..n][..k] == chain[..k];
      var last := RowsOf(env, n, BlockClaims(chain[n]));
      more := m + last;
      Text.Associative(FlatRows(env, chain[..k]), m, last);
      HeightsConcat(m, last, k, n, |chain|);
    }
  }

  /** Deleting the rows above a height leaves the table of the kept blocks. */
  lemma KeepPrefix(env: Env, chain: Ledger, k: nat)
    requires forall j :: 0 <= j < |chain| ==> chain[j].Height() == j
    requires NoRepeat(Claims(chain)) && k <= |chain|
    ensures KeepRows(TableOf(FlatRows(env, chain)), k - 1) == TableOf(FlatRows(env, chain[..k]))
  {
    var more := FlatSplit(env, chain, k);
    var low := FlatSplit(env, chain[..k], 0);
    var rows := FlatRows(env, chain[..k]);
    assert rows == low by { assert chain[..k][..0] == []; }
    KeepSplit(FlatRows(env, chain), rows, more, k - 1) by { FlatRowsWellFormed(env, chain); }
  }

  lemma KeepSplit(all: seq<ClaimRow>, rows: seq<ClaimRow>, more: seq<ClaimRow>, keep: int)
    requires all == rows + more && DistinctIds(all)
    requires forall i :: 0 <= i < |rows| ==> rows[i].height <= keep
    requires forall i :: 0 <= i < |more| ==> more[i].height > keep
    ensures KeepRows(TableOf(all), keep) == TableOf(rows)
  {
    KeepInserted(rows, more, keep);
    KeepAll(rows, keep);
  }

  lemma KeepAll(rows: seq<ClaimRow>, keep: int)
    requires forall i :: 0 <= i < |rows| ==> rows[i].height <= keep
    ensures KeepRows(TableOf(rows), keep) == TableOf(rows)
  {
    forall k | k in TableOf(rows) ensures TableOf(rows)[k].height <= keep {
      var i := TableFind(rows, k);
    }
  }

  lemma NewId(rows: seq<ClaimRow>, last: ClaimRow)
    requires forall i :: 0 <= i < |rows| ==> rows[i].claim.claimId != last.claim.claimId
    ensures last.claim.claimId !in TableOf(rows)
  {
    if last.claim.claimId in TableOf(rows) {
      var i := TableFind(rows, last.claim.claimId);
    }
  }

  lemma InsertedTable(rows: seq<ClaimRow>, last: ClaimRow)
    ensures TableOf(rows + [last]) == TableOf(rows)[last.claim.claimId := last]
  {
    assert (rows + [last])[..|rows|] == rows;
  }

  lemma KeepOne(rows: seq<ClaimRow>, last: ClaimRow, keep: int)
    requires DistinctIds(rows + [last]) && last.height > keep
    ensures KeepRows(TableOf(rows + [last]), keep) == KeepRows(TableOf(rows), keep)
  {
    forall i | 0 <= i < |rows| ensures rows[i].claim.claimId != last.claim.claimId {
      assert (rows + [last])[i] == rows[i] && (rows + [last])[|rows|] == last;
    }
    NewId(rows, last);
    InsertedTable(rows, last);
  }

  /** Rows inserted above the kept height are the ones deleted. */
  lemma {:induction false} KeepInserted(rows: seq<ClaimRow>, more: seq<ClaimRow>, keep: int)
    requires DistinctIds(rows + more) && forall i :: 0 <= i < |more| ==> more[i].height > keep
    ensures KeepRows(TableOf(rows + more), keep) == KeepRows(TableOf(rows), keep)
  {
    if more == [] {
      assert rows + more == rows;
    } else {
      var front, last := more[..|more| - 1], more[|more| - 1];
      assert rows + more == (rows + front) + [last];
      KeepOne(rows + front, last, keep);
      FrontDistinct(rows + front, last);
      KeepInserted(rows, front, keep);
    }
  }

  lemma FrontDistinct(rows: seq<ClaimRow>, last: ClaimRow)
    requires DistinctIds(rows + [last])
    ensures DistinctIds(rows)
  {
    forall i, j | 0 <= i < j < |rows| ensures rows[i].claim.claimId != rows[j].claim.claimId {
      assert (rows + [last])[i] == rows[i] && (rows + [last])[j] == rows[j];
    }
  }

  /** Ledgers that differ only in quorums have the same claim rows. */
  lemma {:induction false} SameRows(env: Env, c: Ledger, d: Ledger)
    requires SameChain(c, d)
    ensures FlatRows(env, c) == FlatRows(env, d)
  {
    if c == [] {
    } else {
      var k := |c| - 1;
      SamePrefix(c, d, k);
      SameRows(env, c[..k], d[..k]);
      assert SameBlock(c[k], d[k]);
    }
  }
}
