/** Who is in the committee, who seals a view, and how many signatures a quorum takes. */
module Committee {
  import opened Models
  import opened Chain
  import opened Validation
  import Sets
  import Text

  datatype Config = Config(
    byzantine: bool,
    activePeerWindow: int,
    flopsTolerance: real,
    electionTimeout: real,
    peerStaleAfter: real,
    syncInterval: real)

  // ------------------------------------------------------------------- membership

  function BlockMembers(b: Checkpoint): set<string> {
    (if b.proposal.sealedBy != GENESIS_SEALER then {b.proposal.sealedBy} else {}) +
    SignersTo(b.signatures, |b.signatures|)
  }

  /** Sealers and signers of the last `k` blocks. */
  function Recent(chain: Ledger, k: nat): set<string> {
    if k == 0 || chain == [] then {} else BlockMembers(chain[|chain| - 1]) + Recent(chain[..|chain| - 1], k - 1)
  }

  /** A negative window reads as an enormous unsigned one. */
  function Window(config: Config, chain: Ledger): nat {
    if config.activePeerWindow < 0 then |chain| else config.activePeerWindow
  }

  function Members(config: Config, nodeId: string, peers: set<string>, chain: Ledger): (r: set<string>)
    ensures nodeId in r && peers <= r
  { {nodeId} + Recent(chain, Window(config, chain)) + peers }

  /** The node sealed the block or signed it. */
  ghost predicate TookPart(b: Checkpoint, id: string) {
    (b.proposal.sealedBy == id && id != GENESIS_SEALER) || exists j :: 0 <= j < |b.signatures| && b.signatures[j].nodeId == id
  }

  lemma {:induction false} RecentIff(chain: Ledger, k: nat, id: string)
    ensures id in Recent(chain, k) <==> exists i :: 0 <= i < |chain| && i >= |chain| - k && TookPart(chain[i], id)
  {
    if k == 0 || chain == [] {
    } else {
      var n := |chain| - 1;
      SignersToMember(chain[n].signatures, |chain[n].signatures|, id);
      assert id in BlockMembers(chain[n]) <==> TookPart(chain[n], id);
      RecentIff(chain[..n], k - 1, id);
      if i :| 0 <= i < |chain[..n]| && i >= |chain[..n]| - (k - 1) && TookPart(chain[..n][i], id) { assert TookPart(chain[i], id); }
      if i :| 0 <= i < |chain| && i >= |chain| - k && TookPart(chain[i], id) {
        if i < n { assert TookPart(chain[..n][i], id); }
      }
    }
  }

  /** The committee: the node itself, its peers, and whoever sealed or signed one of the
      latest blocks in the window; all blocks if the window is negative. */
  lemma MembersIff(config: Config, nodeId: string, peers: set<string>, chain: Ledger, id: string)
    ensures id in Members(config, nodeId, peers, chain) <==>
            || id == nodeId || id in peers
            || exists i :: 0 <= i < |chain| && (config.activePeerWindow < 0 || i >= |chain| - config.activePeerWindow) && TookPart(chain[i], id)
  {
    hide TookPart, Recent;
    RecentIff(chain, Window(config, chain), id);
  }

  function Weight(env: Env, chain: Ledger): string -> real { id => NodeUnits(env, chain, id) }

  // ------------------------------------------------------------------------ sealers

  /** Members by weight, heaviest first, ties by id; the view picks round-robin. */
  ghost function Sealer(env: Env, chain: Ledger, members: set<string>, view: int): (id: string)
    requires members != {}
    ensures id in members
  {
    var ranked := Text.Ranked(Weight(env, chain), members);
    assert ranked[view % |ranked|] in Text.Elements(ranked);
    ranked[view % |ranked|]
  }

  /** The sealer is fixed by the set of members and the ledger: any listing of the members,
      sorted by the same comparison, names the same one. */
  lemma SealerIgnoresListing(env: Env, chain: Ledger, members: set<string>, view: int, sorted: seq<string>)
    requires members != {} && Text.Elements(sorted) == members && Text.RankedBy(Weight(env, chain), sorted)
    ensures sorted != [] && sorted[view % |sorted|] == Sealer(env, chain, members, view)
  {
    Text.RankedUnique(Weight(env, chain), members, sorted);
  }

  ghost predicate SealsAt(env: Env, chain: Ledger, members: set<string>, id: string, view: int)
    requires members != {}
  { Sealer(env, chain, members, view) == id }

  /** Over a fixed committee of n members, any n consecutive views pick each member
      exactly once. */
  lemma RotationIsFair(env: Env, chain: Ledger, members: set<string>, first: int, id: string)
    requires id in members
    ensures exists v :: first <= v < first + |members| && SealsAt(env, chain, members, id, v)
    ensures forall v, w :: first <= v < w < first + |members| && SealsAt(env, chain, members, id, v) ==> !SealsAt(env, chain, members, id, w)
  {
    var w := Weight(env, chain);
    var r := Text.Ranked(w, members);
    var n := |r|;
    assert id in Text.Elements(r);
    var k :| 0 <= k < n && r[k] == id;
    var v := ViewFor(first, n, k);
    assert SealsAt(env, chain, members, id, v);
    forall a, b | first <= a < b < first + n && SealsAt(env, chain, members, id, a) ensures !SealsAt(env, chain, members, id, b) {
      DifferentTurns(first, n, a, b);
      RankedDistinct(w, r, a % n, b % n);
    }
  }

  lemma RankedDistinct(w: string -> real, r: seq<string>, i: nat, j: nat)
    requires Text.RankedBy(w, r) && i < |r| && j < |r| && i != j
    ensures r[i] != r[j]
  {
    if i < j { Text.BeforeIsStrictOrder(w, r[i], r[j], r[i]); } else { Text.BeforeIsStrictOrder(w, r[j], r[i], r[j]); }
  }

  lemma ViewFor(first: int, n: nat, k: nat) returns (v: int)
    requires k < n
    ensures first <= v < first + n && v % n == k
  {
    var r := first % n;
    v := if k >= r then first + (k - r) else first + (n - r + k);
    var q := first / n;
    assert first == q * n + r;
    if k >= r {
      assert v == q * n + k;
      ModOf(q, n, k);
    } else {
      assert v == (q + 1) * n + k;
      ModOf(q + 1, n, k);
    }
  }

  lemma Multiples(d: int, n: nat)
    ensures d >= 1 ==> d * n >= n
    ensures d <= -1 ==> d * n + n <= 0
  {
  }

  lemma ModOf(q: int, n: nat, k: nat)
    requires k < n
    ensures (q * n + k) % n == k
  {
    var x := q * n + k;
    QuotientIs(x, n, q, x / n, k, x % n);
  }

  lemma QuotientIs(x: int, n: nat, q: int, a: int, k: nat, b: nat)
    requires x == q * n + k && x == a * n + b && k < n && b < n
    ensures q == a && k == b
  {
    Multiples(a - q, n);
    assert (a - q) * n == k - b;
  }

  lemma DifferentTurns(first: int, n: nat, a: int, b: int)
    requires n > 0 && first <= a < b < first + n
    ensures a % n != b % n
  {
    var q, r := a / n, a % n;
    var d := b - a;
    if r + d < n {
      ModOf(q, n, r + d);
      assert b == q * n + (r + d);
    } else {
      ModOf(q + 1, n, r + d - n);
      assert b == (q + 1) * n + (r + d - n);
    }
  }

  /** Over a committee of n, views 0 to n-1 go down the members by contribution, those with
      equal contributions by id. */
  lemma SealersByWeight(env: Env, chain: Ledger, members: set<string>, v: int, w: int)
    requires members != {} && 0 <= v < w < |members|
    ensures var a, b := Sealer(env, chain, members, v), Sealer(env, chain, members, w);
            NodeUnits(env, chain, a) > NodeUnits(env, chain, b) || (NodeUnits(env, chain, a) == NodeUnits(env, chain, b) && Text.Less(a, b))
  {
    hide NodeUnits, Text.Ranked, Text.Less;
    var r := Text.Ranked(Weight(env, chain), members);
    ModOf(0, |r|, v);
    ModOf(0, |r|, w);
    assert Text.Before(Weight(env, chain), r[v], r[w]);
  }

  // ------------------------------------------------------------------------ quorums

  function Faulty(n: nat): nat { if n == 0 then 0 else (n - 1) / 3 }

  function QuorumSize(byzantine: bool, members: set<string>): (q: nat)
    ensures 1 <= q
  {
    var n := if |members| == 0 then 1 else |members|;
    if byzantine then 2 * Faulty(n) + 1 else n / 2 + 1
  }

  lemma QuorumFits(byzantine: bool, members: set<string>)
    requires members != {}
    ensures QuorumSize(byzantine, members) <= |members|
  {
    var n := |members|;
    assert n >= 1;
  }

  lemma UnionSize(a: set<string>, b: set<string>)
    ensures |a| + |b| == |a + b| + |a * b|
  {
    assert a + b == (a - b) + b && (a - b) !! b;
    assert a == (a - b) + (a * b) && (a - b) !! (a * b);
  }

  /** How many members two quorums of an `n`-member committee must share. */
  function Overlap(byzantine: bool, members: set<string>): int {
    var k := 2 * QuorumSize(byzantine, members) - |members|;
    if k < 0 then 0 else k
  }

  lemma QuorumsOverlap(byzantine: bool, members: set<string>, a: set<string>, b: set<string>)
    requires a <= members && b <= members
    requires |a| >= QuorumSize(byzantine, members) && |b| >= QuorumSize(byzantine, members)
    ensures |a * b| >= Overlap(byzantine, members)
  {
    UnionSize(a, b);
    Sets.SubsetSize(a + b, members);
  }

  lemma {:induction false} TakeSubset(s: set<string>, k: nat) returns (t: set<string>)
    requires k <= |s|
    ensures t <= s && |t| == k
  {
    if k == 0 {
      t := {};
    } else {
      var x :| x in s;
      t := TakeSubset(s - {x}, k - 1);
      t := t + {x};
    }
  }

  /** The bound is met exactly by some two quorums of every committee. */
  lemma OverlapIsTight(byzantine: bool, members: set<string>) returns (a: set<string>, b: set<string>)
    requires members != {}
    ensures a <= members && b <= members
    ensures |a| == |b| == QuorumSize(byzantine, members)
    ensures |a * b| == Overlap(byzantine, members)
  {
    var q := QuorumSize(byzantine, members);
    QuorumFits(byzantine, members);
    a := TakeSubset(members, q);
    var rest := members - a;
    assert |rest| == |members| - q;
    if q <= |rest| {
      b := TakeSubset(rest, q);
      assert a * b == {};
    } else {
      var shared := TakeSubset(a, q - |rest|);
      b := rest + shared;
      assert rest !! shared;
      assert a * b == shared;
    }
  }

  /** In numbers: with f = (n-1)/3 tolerated faults, two Byzantine quorums share f+1
      members when n = 3f+1, f when n = 3f+2, and f-1 (if positive) when n = 3f+3; two
      majorities share one, or two when n is even. */
  lemma OverlapInNumbers(members: set<string>)
    requires members != {}
    ensures var n, f := |members|, Faulty(|members|);
            && (n == 3 * f + 1 || n == 3 * f + 2 || n == 3 * f + 3)
            && Overlap(true, members) ==
               (if n == 3 * f + 1 then f + 1 else if n == 3 * f + 2 then f else if f == 0 then 0 else f - 1)
            && Overlap(false, members) == (if n % 2 == 1 then 1 else 2)
  {
    var n := |members|;
    assert n >= 1;
  }
}
