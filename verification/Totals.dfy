/** Sums over a column of the claims table. */
module Totals {
  import opened Models
  import opened Chain
  import opened Tables

  /** Rows of one node, or of all. */
  predicate Counts(r: ClaimRow, who: Option<string>) { who == None || who == Some(r.nodeId) }

  /** The units of the rows that count and whose ids are in a set. */
  ghost function Picked(rows: seq<ClaimRow>, ids: set<string>, who: Option<string>): real {
    if rows == [] then 0.0
    else
      var last := rows[|rows| - 1];
      Picked(rows[..|rows| - 1], ids, who) + (if last.claim.claimId in ids && Counts(last, who) then last.units else 0.0)
  }

  lemma {:induction false} PickedNone(rows: seq<ClaimRow>, who: Option<string>)
    ensures Picked(rows, {}, who) == 0.0
  {
    if rows == [] {
    } else {
      PickedNone(rows[..|rows| - 1], who);
    }
  }

  /** An id no row has makes no difference. */
  lemma {:induction false} PickedWithout(rows: seq<ClaimRow>, ids: set<string>, id: string, who: Option<string>)
    requires forall i :: 0 <= i < |rows| ==> rows[i].claim.claimId != id
    ensures Picked(rows, ids, who) == Picked(rows, ids - {id}, who)
  {
    if rows == [] {
    } else {
      PickedWithout(rows[..|rows| - 1], ids, id, who);
    }
  }

  lemma {:induction false} PickedOne(rows: seq<ClaimRow>, ids: set<string>, i: nat, who: Option<string>)
    requires DistinctIds(rows) && i < |rows| && rows[i].claim.claimId in ids
    ensures Picked(rows, ids, who) ==
            Picked(rows, ids - {rows[i].claim.claimId}, who) + (if Counts(rows[i], who) then rows[i].units else 0.0)
  {
    var front := rows[..|rows| - 1];
    if i == |rows| - 1 {
      PickedWithout(front, ids, rows[i].claim.claimId, who);
    } else {
      PickedOne(front, ids, i, who);
    }
  }

  /** The query adds up the column row by row, in whatever order the table yields them. */
  method SumColumn(t: ClaimTable, who: Option<string>, ghost rows: seq<ClaimRow>) returns (total: real)
    requires t == TableOf(rows) && DistinctIds(rows)
    ensures total == Picked(rows, t.Keys, who)
  {
    total := 0.0;
    var left := t.Keys;
    while left != {}
      invariant left <= t.Keys && total + Picked(rows, left, who) == Picked(rows, t.Keys, who)
      decreases left
    {
      var id :| id in left;
      ghost var i := TableFind(rows, id);
      PickedOne(rows, left, i, who);
      if Counts(t[id], who) { total := total + t[id].units; }
      left := left - {id};
    }
    PickedNone(rows, who);
  }

  /** Rows and claims that agree in every column the sums look at. */
  ghost predicate Matching(env: Env, rows: seq<ClaimRow>, cs: seq<Claim>) {
    |rows| == |cs| && forall i :: 0 <= i < |cs| ==> rows[i] == ClaimRowOf(env, rows[i].height, cs[i])
  }

  lemma {:induction false} FlatMatches(env: Env, chain: Ledger)
    ensures Matching(env, FlatRows(env, chain), Claims(chain))
  {
    if chain == [] {
    } else {
      FlatMatches(env, chain[..|chain| - 1]);
    }
  }

  lemma {:induction false} PickedAll(env: Env, rows: seq<ClaimRow>, cs: seq<Claim>, ids: set<string>, node: string)
    requires Matching(env, rows, cs) && forall i :: 0 <= i < |cs| ==> cs[i].claimId in ids
    ensures Picked(rows, ids, Some(node)) == UnitsIf(env, cs, node)
    ensures Picked(rows, ids, None) == SumUnits(env, cs)
  {
    if rows == [] {
    } else {
      PickedAll(env, rows[..|rows| - 1], cs[..|cs| - 1], ids, node);
    }
  }

  /** Over the table of a ledger the sums are the ledger's: of one node, and of all. */
  lemma ColumnIsLedger(env: Env, chain: Ledger, node: string)
    requires NoRepeat(Claims(chain))
    ensures DistinctIds(FlatRows(env, chain))
    ensures var ids := TableOf(FlatRows(env, chain)).Keys;
            && Picked(FlatRows(env, chain), ids, Some(node)) == NodeUnits(env, chain, node)
            && Picked(FlatRows(env, chain), ids, None) == TotalUnits(env, chain)
  {
    hide FlatRows, TableOf, Claims, Picked, UnitsIf, SumUnits, NoRepeat;
    FlatMatches(env, chain);
    FlatRowsWellFormed(env, chain);
    TableIds(env, chain);
    PickedAll(env, FlatRows(env, chain), Claims(chain), ClaimIds(chain), node);
  }
}
