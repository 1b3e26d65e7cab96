/** Catching up with a longer chain, and what a flush of the queue leaves. */
module CatchUp {
  import opened Models
  import opened Chain
  import opened Validation
  import opened Validity
  import opened Committee
  import opened Protocol
  import opened Reorg
  import opened Invariant
  import opened Convergence

  // ------------------------------------------------------------------ ascending keys

  ghost predicate Rises(s: seq<int>) { forall i, j :: 0 <= i < j < |s| ==> s[i] < s[j] }

  lemma {:induction false} AscendingIs(s: set<int>)
    ensures Rises(Ascending(s))
    ensures forall k :: k in Ascending(s) <==> k in s
    decreases |s|
  {
    if |s| == 0 {
      NoneIn(s);
    } else {
      var low := Lowest(s);
      AscendingIs(s - {low});
      var rest := Ascending(s - {low});
      assert forall i :: 0 <= i < |rest| ==> rest[i] in s - {low};
      assert forall k :: k in [low] + rest <==> k == low || k in rest;
    }
  }

  lemma NoneIn(s: set<int>)
    requires |s| == 0
    ensures forall k :: k !in s
  {
    var none: set<int> := {};
    assert s == none;
  }

  // ------------------------------------------------------------------------- the flush

  /** What is queued next is still to come in the list from index `i` on. */
  ghost predicate NextAhead(n: Node, heights: seq<int>, i: nat) {
    |n.chain| in n.pendingCommits ==> exists k :: i <= k < |heights| && heights[k] == |n.chain|
  }

  lemma FlushOneQueue(env: Env, config: Config, n: Node, height: int, now: real)
    ensures var m := FlushOne(env, config, n, height, now);
            && m.pendingCommits.Keys <= n.pendingCommits.Keys
            && (m.chain == n.chain || (|m.chain| == |n.chain| + 1 && height == |n.chain|))
            && (height == |n.chain| ==> height !in m.pendingCommits)
            && (height != |n.chain| ==> m == n)
  {
    hide ValidateCheckpoint, CommitLocal, AppendOk;
    if height in n.pendingCommits {
      var popped := n.(pendingCommits := n.pendingCommits - {height});
      CommitLocalQueue(env, config, popped, n.pendingCommits[height], now);
      CommitLocalChain(env, config, popped, n.pendingCommits[height], now);
    }
  }

  lemma {:induction false} FlushListQueue(env: Env, config: Config, n: Node, heights: seq<int>, k: nat, now: real)
    requires k <= |heights| && Rises(heights) && (forall h :: h in n.pendingCommits ==> h in heights)
    ensures var m := FlushList(env, config, n, heights[..k], now);
            m.pendingCommits.Keys <= n.pendingCommits.Keys && NextAhead(m, heights, k)
  {
    hide FlushOne;
    if k == 0 {
      assert heights[..0] == [];
    } else {
      FlushListQueue(env, config, n, heights, k - 1, now);
      assert heights[..k][..k - 1] == heights[..k - 1];
      var m := FlushList(env, config, n, heights[..k - 1], now);
      FlushOneQueue(env, config, m, heights[k - 1], now);
      var r := FlushOne(env, config, m, heights[k - 1], now);
      if |r.chain| in r.pendingCommits { StillAhead(heights, k, |m.chain|, |r.chain|); }
    }
  }

  lemma StillAhead(heights: seq<int>, k: nat, was: int, now: int)
    requires 0 < k <= |heights| && Rises(heights) && now in heights
    requires (now == was && heights[k - 1] != was) || (now == was + 1 && heights[k - 1] == was)
    requires now == was ==> exists j :: k - 1 <= j < |heights| && heights[j] == was
    ensures exists j :: k <= j < |heights| && heights[j] == now
  {
    var j :| 0 <= j < |heights| && heights[j] == now && (now == was ==> k - 1 <= j);
  }

  /** A flush leaves nothing queued right above the head; with no head it does nothing. */
  lemma FlushEmptiesNext(env: Env, config: Config, n: Node, now: real)
    requires n.chain == [] ==> 0 !in n.pendingCommits
    ensures |Flush(env, config, n, now).chain| !in Flush(env, config, n, now).pendingCommits
  {
    hide FlushList, Ascending;
    var heights := Ascending(n.pendingCommits.Keys);
    AscendingIs(n.pendingCommits.Keys);
    FlushListQueue(env, config, n, heights, |heights|, now);
    assert heights[..|heights|] == heights;
  }

  /** So it does in every state that satisfies the invariant, in which height 0 is never
      queued. */
  lemma FlushDrains(env: Env, config: Config, n: Node, now: real)
    requires Sound(env, config.flopsTolerance, n)
    ensures |Flush(env, config, n, now).chain| !in Flush(env, config, n, now).pendingCommits
  {
    hide Flush, ValidChain, ClaimIds;
    FlushEmptiesNext(env, config, n, now);
  }

  // ---------------------------------------------------------------------- the suffix

  /** The block, as stored or as read back, of `server` at its own height. */
  ghost predicate OnChain(server: Ledger, b: Checkpoint) {
    0 <= b.Height() < |server| && (b == server[b.Height()] || b == Reconstruct(server[b.Height()]))
  }

  /** The node holds the first blocks of the server's chain, its index is exact, what it
      has queued is the server's, and no block it still needs is remembered as rejected. */
  ghost predicate Behind(env: Env, n: Node, server: Ledger) {
    && |n.chain| <= |server| && SameChain(n.chain, server[..|n.chain|])
    && Exact(n)
    && (forall h :: h in n.pendingCommits ==> n.pendingCommits[h].Height() == h && OnChain(server, n.pendingCommits[h]))
    && (forall i :: |n.chain| <= i < |server| ==> env.Hash(server[i]) !in n.rejects)
  }

  /** The server's next block is acceptable here. */
  lemma NextFits(env: Env, tolerance: real, chain: Ledger, server: Ledger, b: Checkpoint)
    requires ValidChain(env, tolerance, server) && |chain| <= |server| && SameChain(chain, server[..|chain|])
    requires OnChain(server, b) && b.Height() == |chain|
    ensures Acceptable(env, tolerance, chain, b)
    ensures SameChain(chain + [b], server[..|chain| + 1])
  {
    hide Acceptable;
    var k := |chain|;
    assert Acceptable(env, tolerance, server[..k], server[k]);
    ReconstructAcceptable(env, tolerance, server[..k], server[k]);
    SameSym(chain, server[..k]);
    SameAcceptable(env, tolerance, server[..k], chain, b);
    var c, d := chain + [b], server[..k + 1];
    forall i | 0 <= i < |c| ensures SameBlock(c[i], d[i]) {
      if i < k { assert SameBlock(chain[i], server[..k][i]); }
    }
  }

  /** `m` is `n` or has more of the server's blocks, and is still behind it. */
  ghost predicate Closer(env: Env, n: Node, m: Node, server: Ledger) {
    Behind(env, m, server) && |n.chain| <= |m.chain|
  }

  lemma CommitCloser(env: Env, config: Config, n: Node, server: Ledger, b: Checkpoint, now: real)
    requires ValidChain(env, config.flopsTolerance, server) && Behind(env, n, server)
    requires OnChain(server, b) && b.Height() == |n.chain|
    ensures Closer(env, n, CommitLocal(env, config, n, b, now), server)
    ensures |CommitLocal(env, config, n, b, now).chain| == |n.chain| + 1
  {
    hide ValidChain, AppendOk, ValidateCheckpoint, SameChain, ClaimIds, BlockIds, OnChain;
    NextFits(env, config.flopsTolerance, n.chain, server, b);
    ClaimsSnoc(n.chain, b);
    OnChainHeight(server, b);
  }

  lemma OnChainHeight(server: Ledger, b: Checkpoint)
    requires OnChain(server, b)
    ensures 0 <= b.Height() < |server|
  {
  }

  lemma FlushOneCloser(env: Env, config: Config, n: Node, server: Ledger, height: int, now: real)
    requires ValidChain(env, config.flopsTolerance, server) && Behind(env, n, server)
    ensures Closer(env, n, FlushOne(env, config, n, height, now), server)
  {
    hide ValidChain, AppendOk, ValidateCheckpoint, SameChain, ClaimIds, OnChain, CommitLocal;
    if height == |n.chain| && height in n.pendingCommits {
      var b := n.pendingCommits[height];
      var popped := n.(pendingCommits := n.pendingCommits - {height});
      assert Behind(env, popped, server);
      CommitCloser(env, config, popped, server, b, now);
    }
  }

  lemma {:induction false} FlushListCloser(env: Env, config: Config, n: Node, server: Ledger, heights: seq<int>, now: real)
    requires ValidChain(env, config.flopsTolerance, server) && Behind(env, n, server)
    ensures Closer(env, n, FlushList(env, config, n, heights, now), server)
  {
    hide ValidChain, FlushOne, Behind;
    if heights == [] {
    } else {
      var front := heights[..|heights| - 1];
      FlushListCloser(env, config, n, server, front, now);
      FlushOneCloser(env, config, FlushList(env, config, n, front, now), server, heights[|heights| - 1], now);
    }
  }

  /** The blocks from the node's next height up to `top` are all queued and still to come in
      the list from index `i` on. */
  ghost predicate Lined(n: Node, top: int, heights: seq<int>, i: nat) {
    forall h :: |n.chain| <= h < top ==> h in n.pendingCommits && InFrom(heights, i, h)
  }

  ghost predicate InFrom(heights: seq<int>, i: nat, h: int) { exists k :: i <= k < |heights| && heights[k] == h }

  lemma InFromNext(heights: seq<int>, i: nat, h: int)
    requires Rises(heights) && i < |heights| && InFrom(heights, i, h)
    ensures heights[i] <= h && (heights[i] < h ==> InFrom(heights, i + 1, h))
  {
  }

  /** One entry of the list: the chain reaches `top`, or what is left is still lined up. */
  lemma FlushOneRuns(env: Env, config: Config, n: Node, server: Ledger, top: nat, heights: seq<int>, i: nat, now: real)
    requires ValidChain(env, config.flopsTolerance, server) && Behind(env, n, server)
    requires Rises(heights) && i < |heights| && (|n.chain| >= top || Lined(n, top, heights, i))
    ensures var m := FlushOne(env, config, n, heights[i], now); |m.chain| >= top || Lined(m, top, heights, i + 1)
  {
    hide ValidChain, Behind, Rises, InFrom, CommitLocal, ValidateCheckpoint;
    var c := |n.chain|;
    if c >= top {
      FlushOneCloser(env, config, n, server, heights[i], now);
    } else {
      assert c in n.pendingCommits && InFrom(heights, i, c);
      InFromNext(heights, i, c);
      if heights[i] == c {
        NextRuns(env, config, n, server, now);
        LinedNext(n, FlushOne(env, config, n, c, now), top, heights, i);
      } else {
        forall h | c <= h < top ensures h in n.pendingCommits && InFrom(heights, i + 1, h) {
          assert InFrom(heights, i, h);
          InFromNext(heights, i, h);
        }
      }
    }
  }

  lemma LinedNext(n: Node, m: Node, top: nat, heights: seq<int>, i: nat)
    requires Rises(heights) && i < |heights| && Lined(n, top, heights, i) && heights[i] == |n.chain|
    requires |m.chain| == |n.chain| + 1 && m.pendingCommits == n.pendingCommits - {|n.chain|}
    ensures Lined(m, top, heights, i + 1)
  {
    hide Rises, InFrom;
    forall h | |m.chain| <= h < top ensures h in m.pendingCommits && InFrom(heights, i + 1, h) {
      assert h in n.pendingCommits && InFrom(heights, i, h);
      assert h != |n.chain|;
      InFromNext(heights, i, h);
    }
  }

  /** A queued block that has become the next one goes in. */
  lemma NextRuns(env: Env, config: Config, n: Node, server: Ledger, now: real)
    requires ValidChain(env, config.flopsTolerance, server) && Behind(env, n, server) && |n.chain| in n.pendingCommits
    ensures var m := FlushOne(env, config, n, |n.chain|, now);
            |m.chain| == |n.chain| + 1 && m.pendingCommits == n.pendingCommits - {|n.chain|}
  {
    hide ValidChain, SameChain, OnChain, CommitLocal, ValidateCheckpoint, AppendOk;
    var b := n.pendingCommits[|n.chain|];
    var popped := n.(pendingCommits := n.pendingCommits - {|n.chain|});
    NextFits(env, config.flopsTolerance, n.chain, server, b);
    assert Behind(env, popped, server);
    CommitCloser(env, config, popped, server, b, now);
    CommitLocalQueue(env, config, popped, b, now);
  }

  lemma {:induction false} FlushListRuns(env: Env, config: Config, n: Node, server: Ledger, top: nat, heights: seq<int>, i: nat, now: real)
    requires ValidChain(env, config.flopsTolerance, server) && Behind(env, n, server)
    requires Rises(heights) && i <= |heights| && Lined(n, top, heights, 0)
    ensures var m := FlushList(env, config, n, heights[..i], now);
            Behind(env, m, server) && (|m.chain| >= top || Lined(m, top, heights, i))
  {
    hide ValidChain, Behind, Rises, Lined, FlushOne;
    if i == 0 {
      assert heights[..0] == [];
    } else {
      FlushListRuns(env, config, n, server, top, heights, i - 1, now);
      var m := FlushList(env, config, n, heights[..i - 1], now);
      assert heights[..i][..i - 1] == heights[..i - 1];
      FlushOneRuns(env, config, m, server, top, heights, i - 1, now);
      FlushOneCloser(env, config, m, server, heights[i - 1], now);
    }
  }

  /** A flush runs through everything that is queued in line: if each height from the next
      one up to `top` is, the ledger reaches `top`. */
  lemma FlushRuns(env: Env, config: Config, n: Node, server: Ledger, top: nat, now: real)
    requires ValidChain(env, config.flopsTolerance, server) && Behind(env, n, server) && n.chain != []
    requires forall h :: |n.chain| <= h < top ==> h in n.pendingCommits
    ensures |Flush(env, config, n, now).chain| >= top
  {
    hide ValidChain, Behind, FlushList, Ascending;
    var heights := Ascending(n.pendingCommits.Keys);
    AscendingIs(n.pendingCommits.Keys);
    assert Lined(n, top, heights, 0);
    FlushListRuns(env, config, n, server, top, heights, |heights|, now);
    assert heights[..|heights|] == heights;
    LinedEnds(FlushList(env, config, n, heights, now), top, heights);
  }

  lemma LinedEnds(n: Node, top: nat, heights: seq<int>)
    ensures Lined(n, top, heights, |heights|) ==> |n.chain| >= top
  {
    assert !InFrom(heights, |heights|, |n.chain|);
  }

  /** The one missing block arrives: the node goes through all it had queued in line. */
  lemma GapFills(env: Env, config: Config, n: Node, server: Ledger, top: nat, now: real)
    requires ValidChain(env, config.flopsTolerance, server) && Behind(env, n, server) && n.chain != [] && |n.chain| < |server|
    requires forall h :: |n.chain| < h < top ==> h in n.pendingCommits
    ensures |OnCommit(env, config, n, Reconstruct(server[|n.chain|]), now).chain| >= top
  {
    hide ValidChain, AppendOk, ValidateCheckpoint, SameChain, ClaimIds, OnChain, CommitLocal, Flush, BlockIds, TipHash;
    var tol := config.flopsTolerance;
    var b := Reconstruct(server[|n.chain|]);
    ServerBlock(env, tol, server, |n.chain|);
    PrevMatches(env, tol, n.chain, server, b);
    NextFits(env, tol, n.chain, server, b);
    PassWithLedgerSeen(env, tol, b, n.chain);
    var v := ValidateCheckpoint(env, tol, b, n.chain, n.committed, false);
    AcceptCloser(env, config, n, server, b, v.seen, now);
    CommitLocalQueue(env, config, n.(committed := v.seen), b, now);
    FlushRuns(env, config, CommitLocal(env, config, n.(committed := v.seen), b, now), server, top, now);
  }

  /** One block of the server's, at or below the next height, takes the node past it. */
  lemma OnCommitCloser(env: Env, config: Config, n: Node, server: Ledger, h: nat, now: real)
    requires ValidChain(env, config.flopsTolerance, server) && Behind(env, n, server) && n.chain != []
    requires h <= |n.chain| && h < |server|
    ensures var m := OnCommit(env, config, n, Reconstruct(server[h]), now);
            Closer(env, n, m, server) && |m.chain| > h
  {
    hide ValidChain, SameChain, ClaimIds, OnChain, NextCommit, OldCommit, TipHash;
    var b := Reconstruct(server[h]);
    ServerBlock(env, config.flopsTolerance, server, h);
    if h < |n.chain| {
      OldCloser(env, config, n, server, b, now);
    } else {
      PrevMatches(env, config.flopsTolerance, n.chain, server, b);
      NextCloser(env, config, n, server, h, now);
    }
  }

  lemma ServerBlock(env: Env, tolerance: real, server: Ledger, h: nat)
    requires ValidChain(env, tolerance, server) && h < |server|
    ensures server[h].Height() == h && OnChain(server, Reconstruct(server[h]))
  {
    ValidBuilt(env, tolerance, server);
    BuiltHeights(env, server, h);
  }

  lemma OldCloser(env: Env, config: Config, n: Node, server: Ledger, b: Checkpoint, now: real)
    requires Behind(env, n, server) && n.chain != []
    ensures Closer(env, n, OldCommit(env, config, n, b, now), server)
  {
    hide SameChain, ClaimIds, OnChain, TipHash;
  }

  lemma PrevMatches(env: Env, tolerance: real, chain: Ledger, server: Ledger, b: Checkpoint)
    requires ValidChain(env, tolerance, server) && |chain| <= |server| && SameChain(chain, server[..|chain|])
    requires OnChain(server, b) && b.Height() == |chain|
    ensures b.proposal.prevHash == TipHash(env, chain)
  {
    hide ValidateCheckpoint, TipHash, SameChain, OnChain;
    NextFits(env, tolerance, chain, server, b);
  }

  lemma NextCloser(env: Env, config: Config, n: Node, server: Ledger, h: nat, now: real)
    requires ValidChain(env, config.flopsTolerance, server) && Behind(env, n, server) && n.chain != []
    requires h == |n.chain| < |server| && server[h].Height() == h && OnChain(server, Reconstruct(server[h]))
    ensures var m := NextCommit(env, config, n, Reconstruct(server[h]), now);
            Closer(env, n, m, server) && |m.chain| > h
  {
    hide ValidChain, AppendOk, ValidateCheckpoint, SameChain, ClaimIds, OnChain, CommitLocal, FlushList, Ascending, BlockIds;
    var tol := config.flopsTolerance;
    var b := Reconstruct(server[h]);
    NextFits(env, tol, n.chain, server, b);
    PassWithLedgerSeen(env, tol, b, n.chain);
    var v := ValidateCheckpoint(env, tol, b, n.chain, n.committed, false);
    assert env.Hash(b) == env.Hash(server[h]);
    AcceptCloser(env, config, n, server, b, v.seen, now);
    var m := CommitLocal(env, config, n.(committed := v.seen), b, now);
    FlushListCloser(env, config, m, server, Ascending(m.pendingCommits.Keys), now);
  }

  lemma AcceptCloser(env: Env, config: Config, n: Node, server: Ledger, b: Checkpoint, seen: set<string>, now: real)
    requires ValidChain(env, config.flopsTolerance, server) && Behind(env, n, server)
    requires OnChain(server, b) && b.Height() == |n.chain| && seen == ClaimIds(n.chain) + BlockIds(b)
    ensures var m := CommitLocal(env, config, n.(committed := seen), b, now);
            Behind(env, m, server) && |m.chain| == |n.chain| + 1
  {
    hide ValidChain, AppendOk, ValidateCheckpoint, SameChain, ClaimIds, BlockIds, OnChain;
    NextFits(env, config.flopsTolerance, n.chain, server, b);
    ClaimsSnoc(n.chain, b);
    OnChainHeight(server, b);
  }

  lemma {:induction false} SuffixCloser(env: Env, config: Config, n: Node, server: Ledger, k: nat, j: nat, now: real)
    requires ValidChain(env, config.flopsTolerance, server) && Behind(env, n, server) && n.chain != []
    requires k == |n.chain| <= j <= |server|
    ensures var m := OnCommits(env, config, n, Served(server)[k..j], now);
            Behind(env, m, server) && |m.chain| >= j && m.chain != []
    decreases j
  {
    hide ValidChain, Behind, OnCommit;
    var s := Served(server);
    if j == k {
      assert s[k..j] == [];
    } else {
      SuffixCloser(env, config, n, server, k, j - 1, now);
      assert s[k..j][..j - k - 1] == s[k..j - 1] && s[k..j][j - k - 1] == s[j - 1];
      var m := OnCommits(env, config, n, s[k..j - 1], now);
      OnCommitCloser(env, config, m, server, j - 1, now);
    }
  }

  // --------------------------------------------------------------------- catching up

  lemma BehindLength(env: Env, n: Node, server: Ledger)
    requires Behind(env, n, server) && |n.chain| >= |server|
    ensures SameChain(n.chain, server)
  {
    assert server[..|n.chain|] == server;
  }

  /** One request from the node's head and the server's answer to it: the node, ahead of
      nothing but a prefix, ends on the server's chain with its index exact. */
  lemma CatchesUp(env: Env, config: Config, n: Node, server: Node, now: real)
    requires Binding(env) && ValidChain(env, config.flopsTolerance, server.chain) && Behind(env, n, server.chain)
    requires server.me.id != n.me.id && |n.chain| < |server.chain|
    ensures var reply := OnSyncRequest(server.(outgoing := []), n.me.id, |n.chain| - 1);
            && reply.outgoing == [SyncResponse(server.me.id, BlocksAbove(server.chain, |n.chain| - 1))]
            && var m := OnSyncResponse(env, config, n, BlocksAbove(server.chain, |n.chain| - 1), now);
               SameChain(m.chain, server.chain) && Exact(m)
  {
    hide ValidChain, Behind, OnCommits, Reconcile, Exact, Binding, SameChain;
    var tol := config.flopsTolerance;
    var s := server.chain;
    var k := |n.chain|;
    var blocks := BlocksAbove(s, k - 1);
    assert blocks == Served(s)[k..];
    ResponseKind(env, tol, s, k);
    if k == 0 {
      FromNothing(env, config, n, s, now);
      assert Served(s)[0..] == Served(s);
    } else {
      SuffixCloser(env, config, n, s, k, |s|, now);
      assert Served(s)[k..|s|] == Served(s)[k..];
      var m := OnCommits(env, config, n, blocks, now);
      BehindLength(env, m, s);
      BehindExact(env, m, s);
    }
  }

  lemma BehindExact(env: Env, n: Node, server: Ledger)
    requires Behind(env, n, server)
    ensures Exact(n)
  {
  }

  /** A response is treated as a full chain exactly when it starts at height 0. */
  lemma ResponseKind(env: Env, tolerance: real, s: Ledger, k: nat)
    requires ValidChain(env, tolerance, s) && k < |s|
    ensures HasGenesisHeight(Served(s)[k..]) <==> k == 0
  {
    hide ValidChain, Built;
    ValidBuilt(env, tolerance, s);
    var r := Served(s)[k..];
    forall i | 0 <= i < |r| ensures r[i].Height() == k + i {
      assert r[i] == Reconstruct(s[k + i]);
      BuiltHeights(env, s, k + i);
    }
    assert r[0].Height() == k;
  }

  lemma FromNothing(env: Env, config: Config, n: Node, s: Ledger, now: real)
    requires Binding(env) && ValidChain(env, config.flopsTolerance, s) && n.chain == [] && s != []
    ensures var m := Reconcile(env, config, n, Served(s), now);
            SameChain(m.chain, s) && Exact(m)
  {
    hide ValidChain, Reconcile, OutcomeOf, ReorgChain, TailOf, Offered, Served, SameChain, Binding, ClaimIds;
    var tol := config.flopsTolerance;
    EmptyValid(env, tol);
    ValidBuilt(env, tol, []);
    ServedValid(env, tol, s);
    ServedSame(s);
    TakesTheBetter(env, tol, [], Served(s));
    ReorgOutcome(env, config, n, Served(s), now);
    SameTrans(s, Served(s), Reconcile(env, config, n, Served(s), now).chain);
  }

  lemma EmptyValid(env: Env, tolerance: real)
    ensures ValidChain(env, tolerance, [])
  {
  }
}
