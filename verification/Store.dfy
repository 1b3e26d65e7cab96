/** `ChainStore`: the two tables changed in place inside transactions. */
module Store {
  import opened Models
  import opened Chain
  import opened Tables
  import Totals
  import Text

  type BlockTable = map<int, BlockRow>

  lemma RowsExtend(env: Env, rows: seq<ClaimRow>, height: int, cs: seq<Claim>, i: nat)
    requires i < |cs|
    ensures rows + RowsOf(env, height, cs[..i + 1]) == rows + RowsOf(env, height, cs[..i]) + [ClaimRowOf(env, height, cs[i])]
  {
    assert RowsOf(env, height, cs[..i + 1]) == RowsOf(env, height, cs[..i]) + [ClaimRowOf(env, height, cs[i])];
    Text.Associative(rows, RowsOf(env, height, cs[..i]), [ClaimRowOf(env, height, cs[i])]);
  }

  ghost predicate RowsRepeatFree(rows: seq<ClaimRow>) {
    ColumnsAgree(rows) && forall i, j :: 0 <= i < j < |rows| ==> !Clash(rows[i].claim, rows[j].claim)
  }

  lemma RepeatFreeWellFormed(rows: seq<ClaimRow>)
    requires RowsRepeatFree(rows)
    ensures WellFormedRows(rows)
  {
    forall i, j | 0 <= i < j < |rows| ensures rows[i].claim.claimId != rows[j].claim.claimId {
      assert !Clash(rows[i].claim, rows[j].claim);
    }
  }

  ghost predicate RowsClash(rows: seq<ClaimRow>, c: Claim) {
    exists i :: 0 <= i < |rows| && Clash(rows[i].claim, c)
  }

  lemma TableSeesClash(rows: seq<ClaimRow>, c: Claim)
    requires RowsRepeatFree(rows)
    ensures TableClash(TableOf(rows), c) <==> RowsClash(rows, c)
  {
    RepeatFreeWellFormed(rows);
    if TableClash(TableOf(rows), c) {
      var i := ClashInTable(rows, c);
    }
    if i :| 0 <= i < |rows| && Clash(rows[i].claim, c) {
      ClashInRows(rows, c, i);
    }
  }

  lemma RepeatFreeSnoc(rows: seq<ClaimRow>, r: ClaimRow)
    requires RowsRepeatFree(rows) && !RowsClash(rows, r.claim)
    requires r.nodeId == r.claim.nodeId && r.sequence == r.claim.sequence
    ensures RowsRepeatFree(rows + [r])
  {
  }

  /** The rows as they stand after inserting some of a block's claims clash with the
      next one exactly when the ledger or the block repeats it. */
  lemma ClashSplit(env: Env, rows: seq<ClaimRow>, height: int, cs: seq<Claim>, i: nat)
    requires i < |cs|
    ensures RowsClash(rows + RowsOf(env, height, cs[..i]), cs[i]) <==>
            RowsClash(rows, cs[i]) || ClashesWith(cs[..i], cs[i])
  {
    var all := rows + RowsOf(env, height, cs[..i]);
    if j :| 0 <= j < |all| && Clash(all[j].claim, cs[i]) {
      if j >= |rows| { assert Clash(cs[..i][j - |rows|], cs[i]); }
    }
    if j :| 0 <= j < |rows| && Clash(rows[j].claim, cs[i]) { assert all[j] == rows[j]; }
    if j :| 0 <= j < |cs[..i]| && Clash(cs[..i][j], cs[i]) { assert all[|rows| + j].claim == cs[j]; }
  }

  /** The claims, none of which clashes with the rows or an earlier one of them. */
  ghost predicate Insertable(rows: seq<ClaimRow>, cs: seq<Claim>) {
    forall i :: 0 <= i < |cs| ==> !RowsClash(rows, cs[i]) && !ClashesWith(cs[..i], cs[i])
  }

  /** One transaction's inserts into the claims table: all of them, or a violated
      uniqueness constraint. */
  method InsertClaims(env: Env, t: ClaimTable, ghost rows: seq<ClaimRow>, height: int, cs: seq<Claim>)
    returns (ok: bool, t': ClaimTable)
    requires t == TableOf(rows) && RowsRepeatFree(rows)
    ensures ok <==> Insertable(rows, cs)
    ensures ok ==> t' == TableOf(rows + RowsOf(env, height, cs))
  {
    hide RowsRepeatFree, RowsClash, ClashesWith, TableOf, Clash;
    t' := t;
    var i := 0;
    assert rows + RowsOf(env, height, cs[..0]) == rows;
    while i < |cs|
      invariant 0 <= i <= |cs|
      invariant t' == TableOf(rows + RowsOf(env, height, cs[..i]))
      invariant RowsRepeatFree(rows + RowsOf(env, height, cs[..i]))
      invariant forall j :: 0 <= j < i ==> !RowsClash(rows, cs[j]) && !ClashesWith(cs[..j], cs[j])
    {
      ghost var sofar := rows + RowsOf(env, height, cs[..i]);
      TableSeesClash(sofar, cs[i]);
      ClashSplit(env, rows, height, cs, i);
      if TableClash(t', cs[i]) {
        return false, t';
      }
      var row := ClaimRowOf(env, height, cs[i]);
      RepeatFreeSnoc(sofar, row);
      InsertedTable(sofar, row);
      RowsExtend(env, rows, height, cs, i);
      t' := t'[cs[i].claimId := row];
      i := i + 1;
    }
    assert cs[..i] == cs;
    ok := true;
  }

  lemma InsertableIffAppendable(env: Env, chain: Ledger, cs: seq<Claim>)
    ensures Insertable(FlatRows(env, chain), cs) <==> ClashFree(Claims(chain), cs) && NoRepeat(cs)
  {
    FlatRowsMatch(env, chain);
    var rows := FlatRows(env, chain);
    if Insertable(rows, cs) {
      forall i, j | 0 <= i < |Claims(chain)| && 0 <= j < |cs| ensures !Clash(Claims(chain)[i], cs[j]) {
        assert !RowsClash(rows, cs[j]) && rows[i].claim == Claims(chain)[i];
      }
      forall i, j | 0 <= i < j < |cs| ensures !Clash(cs[i], cs[j]) {
        assert !ClashesWith(cs[..j], cs[j]) && cs[..j][i] == cs[i];
      }
    }
  }

  lemma LedgerRepeatFree(env: Env, chain: Ledger)
    requires NoRepeat(Claims(chain))
    ensures RowsRepeatFree(FlatRows(env, chain))
  {
    FlatRowsMatch(env, chain);
    var rows := FlatRows(env, chain);
    forall i, j | 0 <= i < j < |rows| ensures !Clash(rows[i].claim, rows[j].claim) {
      assert !Clash(Claims(chain)[i], Claims(chain)[j]);
    }
  }

  // ----------------------------------------------------------------- the tables

  /** Heights 0 to n-1 and nothing else. */
  ghost predicate Contiguous(blocks: BlockTable) {
    forall h :: h in blocks <==> 0 <= h < |blocks|
  }

  function BlocksOf(blocks: BlockTable): (r: Ledger)
    requires forall h :: 0 <= h < |blocks| ==> h in blocks
    ensures |r| == |blocks| && forall i :: 0 <= i < |r| ==> r[i] == BlockOf(blocks[i])
  { seq(|blocks|, i requires 0 <= i < |blocks| => BlockOf(blocks[i])) }

  ghost predicate Faithful(env: Env, blocks: BlockTable) {
    forall h :: h in blocks ==> blocks[h] == RowOf(env, BlockOf(blocks[h]))
  }

  lemma InsertContiguous(blocks: BlockTable, row: BlockRow)
    requires Contiguous(blocks)
    ensures var next := blocks[|blocks| := row]; |next| == |blocks| + 1 && Contiguous(next)
  {
    InsertSize(blocks, |blocks|, row);
  }

  lemma InsertSize(blocks: BlockTable, n: int, row: BlockRow)
    requires n !in blocks
    ensures |blocks[n := row]| == |blocks| + 1
  {
    assert blocks[n := row].Keys == blocks.Keys + {n};
  }

  lemma InsertBlock(env: Env, blocks: BlockTable, b: Checkpoint)
    requires Contiguous(blocks) && Faithful(env, blocks)
    ensures var next := blocks[|blocks| := RowOf(env, b)];
            Contiguous(next) && Faithful(env, next) && |next| == |blocks| + 1 && BlocksOf(next) == BlocksOf(blocks) + [b]
  {
    InsertContiguous(blocks, RowOf(env, b));
    var next := blocks[|blocks| := RowOf(env, b)];
    assert forall i :: 0 <= i < |blocks| ==> BlocksOf(next)[i] == BlocksOf(blocks)[i];
  }

  function KeepBlocks(blocks: BlockTable, keep: int): BlockTable {
    map h | h in blocks && h <= keep :: blocks[h]
  }

  lemma {:induction false} Interval(n: nat) returns (s: set<int>)
    ensures forall h :: h in s <==> 0 <= h < n
    ensures |s| == n
  {
    if n == 0 {
      s := {};
    } else {
      var t := Interval(n - 1);
      s := t + {n - 1};
    }
  }

  lemma KeepContiguous(blocks: BlockTable, k: nat)
    requires Contiguous(blocks) && k <= |blocks|
    ensures Contiguous(KeepBlocks(blocks, k - 1)) && |KeepBlocks(blocks, k - 1)| == k
  {
    var kept := KeepBlocks(blocks, k - 1);
    var s := Interval(k);
    assert forall h :: h in kept.Keys <==> h in s;
    assert kept.Keys == s;
    assert |kept| == |kept.Keys|;
  }

  lemma KeepBlocksPrefix(env: Env, blocks: BlockTable, k: nat)
    requires Contiguous(blocks) && Faithful(env, blocks) && k <= |blocks|
    ensures var kept := KeepBlocks(blocks, k - 1);
            Contiguous(kept) && Faithful(env, kept) && |kept| == k && BlocksOf(kept) == BlocksOf(blocks)[..k]
  {
    KeepContiguous(blocks, k);
  }

  /** Heights are contiguous, every column follows from its block, the blocks could
      have been appended one by one, and the claims table is exactly their claims. */
  ghost predicate TablesOk(env: Env, blocks: BlockTable, claims: ClaimTable) {
    && Contiguous(blocks)
    && Faithful(env, blocks)
    && Built(env, BlocksOf(blocks))
    && claims == TableOf(FlatRows(env, BlocksOf(blocks)))
  }

  /** What the tables say about where a new block goes. */
  lemma TablesTip(env: Env, blocks: BlockTable)
    requires Contiguous(blocks) && Faithful(env, blocks)
    ensures TipHash(env, BlocksOf(blocks)) == if blocks == map[] then GENESIS_PREV_HASH else blocks[|blocks| - 1].blockHash
  {
    if blocks == map[] {
      assert |BlocksOf(blocks)| == 0;
    } else {
      assert |blocks| - 1 in blocks;
    }
  }

  /** The hash column has a block's hash exactly when the ledger has it. */
  lemma TablesFresh(env: Env, blocks: BlockTable, b: Checkpoint)
    requires Contiguous(blocks) && Faithful(env, blocks)
    ensures FreshHash(env, BlocksOf(blocks), b) <==> !exists h :: h in blocks && blocks[h].blockHash == env.Hash(b)
  {
    forall i | 0 <= i < |blocks| ensures i in blocks && env.Hash(BlocksOf(blocks)[i]) == blocks[i].blockHash {
      assert blocks[i] == RowOf(env, BlockOf(blocks[i]));
    }
  }

  lemma AppendedTables(env: Env, blocks: BlockTable, claims: ClaimTable, b: Checkpoint, t: ClaimTable)
    requires TablesOk(env, blocks, claims) && AppendOk(env, BlocksOf(blocks), b)
    requires t == TableOf(FlatRows(env, BlocksOf(blocks)) + RowsOf(env, b.Height(), BlockClaims(b)))
    ensures TablesOk(env, blocks[b.Height() := RowOf(env, b)], t)
    ensures BlocksOf(blocks[b.Height() := RowOf(env, b)]) == BlocksOf(blocks) + [b]
  {
    hide AppendOk, TableOf;
    assert b.Height() == |blocks| by { AppendHeight(env, BlocksOf(blocks), b); }
    InsertBlock(env, blocks, b);
    BuiltSnoc(env, BlocksOf(blocks), b);
    SnocRows(env, BlocksOf(blocks), b);
  }

  lemma AppendHeight(env: Env, chain: Ledger, b: Checkpoint)
    requires AppendOk(env, chain, b)
    ensures b.Height() == |chain|
  {
  }

  lemma RolledBackTables(env: Env, blocks: BlockTable, claims: ClaimTable, keep: int)
    requires TablesOk(env, blocks, claims)
    ensures TablesOk(env, KeepBlocks(blocks, keep), KeepRows(claims, keep))
    ensures BlocksOf(KeepBlocks(blocks, keep)) == Chain.Rollback(BlocksOf(blocks), keep)
  {
    hide Built, TableOf, FlatRows, NoRepeat, Claims, KeepRows, KeepBlocks, Faithful, BlocksOf, Chain.Rollback;
    var chain := BlocksOf(blocks);
    var k := if keep < -1 then 0 else if keep + 1 > |chain| then |chain| else keep + 1;
    BuiltNoRepeat(env, chain);
    forall i | 0 <= i < |chain| ensures chain[i].Height() == i { BuiltHeights(env, chain, i); }
    BuiltPrefix(env, chain, k);
    KeepPrefix(env, chain, k);
    KeepBlocksPrefix(env, blocks, k);
    ClampBlocks(blocks, keep, k);
    ClampRows(env, chain, keep, k);
    ClampChain(chain, keep, k);
  }

  lemma ClampChain(chain: Ledger, keep: int, k: nat)
    requires k == if keep < -1 then 0 else if keep + 1 > |chain| then |chain| else keep + 1
    ensures chain[..k] == Chain.Rollback(chain, keep)
  {
  }

  /** Keep heights outside the ledger delete everything or nothing. */
  lemma ClampBlocks(blocks: BlockTable, keep: int, k: nat)
    requires Contiguous(blocks)
    requires k == if keep < -1 then 0 else if keep + 1 > |blocks| then |blocks| else keep + 1
    ensures KeepBlocks(blocks, keep) == KeepBlocks(blocks, k - 1)
  {
  }

  lemma ClampRows(env: Env, chain: Ledger, keep: int, k: nat)
    requires forall i :: 0 <= i < |chain| ==> chain[i].Height() == i
    requires k == if keep < -1 then 0 else if keep + 1 > |chain| then |chain| else keep + 1
    ensures KeepRows(TableOf(FlatRows(env, chain)), keep) == KeepRows(TableOf(FlatRows(env, chain)), k - 1)
  {
    hide TableOf, HeightsWithin;
    var more := FlatSplit(env, chain, 0);
    assert FlatRows(env, chain) == more by { assert chain[..0] == []; }
    var t := TableOf(more);
    forall id | id in t ensures 0 <= t[id].height < |chain| {
      RowHeight(more, id, |chain|);
    }
  }

  lemma RowHeight(rows: seq<ClaimRow>, id: string, hi: int)
    requires HeightsWithin(rows, 0, hi) && id in TableOf(rows)
    ensures 0 <= TableOf(rows)[id].height < hi
  {
    var i := TableFind(rows, id);
  }

  class ChainStore {
    const env: Env
    var blocks: BlockTable
    var claims: ClaimTable

    ghost predicate Valid()
      reads this
    { TablesOk(env, blocks, claims) }

    function Contents(): Ledger
      requires Valid()
      reads this
    { BlocksOf(blocks) }

    constructor (env: Env)
      ensures Valid() && Contents() == [] && this.env == env
    {
      this.env := env;
      blocks := map[];
      claims := map[];
    }

    /** `SELECT MAX(height)`, or -1. */
    function Height(): (h: int)
      requires Valid()
      reads this
      ensures h == -1 || h in blocks
      ensures forall k :: k in blocks ==> k <= h
    { |blocks| - 1 }

    function BlockAt(h: int): (r: Option<Checkpoint>)
      requires Valid()
      reads this
      ensures r == GetBlock(Contents(), h)
    { if h in blocks then Some(Reconstruct(BlockOf(blocks[h]))) else None }

    function Head(): (r: Option<Checkpoint>)
      requires Valid()
      reads this
    { BlockAt(Height()) }

    /** A block joins the ledger exactly when the append rule allows it; otherwise
        neither table changes. */
    method Append(b: Checkpoint) returns (ok: bool)
      requires Valid()
      modifies this
      ensures Valid()
      ensures ok <==> AppendOk(env, old(Contents()), b)
      ensures Contents() == Chain.Append(env, old(Contents()), b)
    {
      hide Built, FlatRows, TableOf, ClashFree, NoRepeat, FreshHash, Insertable, RowsRepeatFree, Claims, RowsOf, TipHash;
      TablesTip(env, blocks);
      TablesFresh(env, blocks, b);
      if b.Height() != Height() + 1 {
        return false;
      }
      var expected := if Height() >= 0 then blocks[Height()].blockHash else GENESIS_PREV_HASH;
      if b.proposal.prevHash != expected || b.Epoch() < 0 {
        return false;
      }
      if exists h :: h in blocks && blocks[h].blockHash == env.Hash(b) {
        return false;
      }
      BuiltNoRepeat(env, Contents());
      LedgerRepeatFree(env, Contents());
      var inserted, t := InsertClaims(env, claims, FlatRows(env, Contents()), b.Height(), BlockClaims(b));
      InsertableIffAppendable(env, Contents(), BlockClaims(b));
      if !inserted {
        return false;
      }
      AppendedTables(env, blocks, claims, b, t);
      blocks := blocks[b.Height() := RowOf(env, b)];
      claims := t;
      ok := true;
    }

    /** Everything above a height is deleted, claims included; -1 empties the ledger. */
    method Rollback(keep: int)
      requires Valid()
      modifies this
      ensures Valid()
      ensures Contents() == Chain.Rollback(old(Contents()), keep)
    {
      RolledBackTables(env, blocks, claims, keep);
      claims := KeepRows(claims, keep);
      blocks := KeepBlocks(blocks, keep);
    }

    function ClaimExists(id: string): (r: bool)
      requires Valid()
      reads this
      ensures r <==> id in ClaimIds(Contents())
    { IndexIs(env, blocks, claims); id in claims }

    function AllClaimIds(): (ids: set<string>)
      requires Valid()
      reads this
      ensures ids == ClaimIds(Contents())
    { IndexIs(env, blocks, claims); claims.Keys }

    /** `SUM(cu)` over the rows of a node. */
    method TotalFor(node: string) returns (total: real)
      requires Valid()
      ensures total == NodeUnits(env, Contents(), node)
    {
      hide Built, FlatRows, TableOf, Claims, NoRepeat;
      BuiltNoRepeat(env, Contents());
      Totals.ColumnIsLedger(env, Contents(), node);
      total := Totals.SumColumn(claims, Some(node), FlatRows(env, Contents()));
    }

    /** `SUM(cu)` over the whole table. */
    method Total() returns (total: real)
      requires Valid()
      ensures total == TotalUnits(env, Contents())
    {
      hide Built, FlatRows, TableOf, Claims, NoRepeat;
      BuiltNoRepeat(env, Contents());
      Totals.ColumnIsLedger(env, Contents(), "");
      total := Totals.SumColumn(claims, None, FlatRows(env, Contents()));
    }

    /** Every claim is already in the ledger, by id or by sequence number, or the
        height is covered. */
    predicate AlreadyCommitted(b: Checkpoint)
      requires Valid()
      reads this
    {
      b.Height() <= Height() ||
      forall i :: 0 <= i < |BlockClaims(b)| ==> TableClash(claims, BlockClaims(b)[i])
    }
  }

  lemma IndexIs(env: Env, blocks: BlockTable, claims: ClaimTable)
    requires TablesOk(env, blocks, claims)
    ensures claims.Keys == ClaimIds(BlocksOf(blocks))
  {
    hide Built, FlatRows, TableOf, Claims;
    BuiltNoRepeat(env, BlocksOf(blocks));
    TableIds(env, BlocksOf(blocks));
  }

  lemma AlreadyCommittedIs(store: ChainStore, b: Checkpoint)
    requires store.Valid()
    ensures store.AlreadyCommitted(b) <==>
            b.Height() <= |store.Contents()| - 1 ||
            forall i :: 0 <= i < |BlockClaims(b)| ==> ClashesWith(Claims(store.Contents()), BlockClaims(b)[i])
  {
    hide Built, FlatRows, TableOf, Claims, TableClash, ClashesWith;
    BuiltNoRepeat(store.env, store.Contents());
    forall i | 0 <= i < |BlockClaims(b)|
      ensures TableClash(store.claims, BlockClaims(b)[i]) <==> ClashesWith(Claims(store.Contents()), BlockClaims(b)[i])
    { LedgerClash(store.env, store.Contents(), BlockClaims(b)[i]); }
  }

  lemma SnocRows(env: Env, chain: Ledger, b: Checkpoint)
    ensures FlatRows(env, chain + [b]) == FlatRows(env, chain) + RowsOf(env, b.Height(), BlockClaims(b))
  {
    assert (chain + [b])[..|chain|] == chain;
  }
}
