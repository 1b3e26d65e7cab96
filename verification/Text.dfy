/** Strings in the order Rust gives them: code point by code point, and lists of
    distinct strings ranked by a weight (heaviest first, ties by name). */
module Text {

  lemma Associative<T>(a: seq<T>, b: seq<T>, c: seq<T>)
    ensures a + b + c == a + (b + c)
  {
  }

  ghost predicate Distinct<T>(s: seq<T>) { forall i, j :: 0 <= i < j < |s| ==> s[i] != s[j] }

  predicate Less(a: string, b: string) {
    |b| > 0 && (|a| == 0 || a[0] < b[0] || (a[0] == b[0] && Less(a[1..], b[1..])))
  }

  lemma {:induction false} LessIrreflexive(a: string)
    ensures !Less(a, a)
  {
    if |a| == 0 {
    } else {
      LessIrreflexive(a[1..]);
    }
  }

  lemma {:induction false} LessTransitive(a: string, b: string, c: string)
    requires Less(a, b) && Less(b, c)
    ensures Less(a, c)
  {
    if |a| > 0 && a[0] == b[0] == c[0] { LessTransitive(a[1..], b[1..], c[1..]); }
  }

  lemma {:induction false} LessAsymmetric(a: string, b: string)
    requires Less(a, b)
    ensures !Less(b, a)
  {
    if a != [] && a[0] == b[0] { LessAsymmetric(a[1..], b[1..]); }
  }

  lemma {:induction false} LessTotal(a: string, b: string)
    ensures a == b || Less(a, b) || Less(b, a)
  {
    if |a| > 0 && |b| > 0 && a[0] == b[0] {
      LessTotal(a[1..], b[1..]);
      assert a == [a[0]] + a[1..] && b == [b[0]] + b[1..];
    }
  }

  /** At the first difference the smaller character, or the end, comes first. */
  lemma {:induction false} LessIff(a: string, b: string)
    ensures Less(a, b) <==> exists k :: 0 <= k <= |a| && k < |b| && a[..k] == b[..k] && (k == |a| || a[k] < b[k])
  {
    if |a| == 0 || |b| == 0 || a[0] != b[0] {
      if Less(a, b) { assert a[..0] == b[..0]; }
      if k :| 0 < k <= |a| && k < |b| && a[..k] == b[..k] { assert a[..k][0] == b[..k][0]; }
    } else {
      LessIff(a[1..], b[1..]);
      if k :| 0 <= k <= |a[1..]| && k < |b[1..]| && a[1..][..k] == b[1..][..k] && (k == |a[1..]| || a[1..][k] < b[1..][k]) {
        assert a[..k + 1] == [a[0]] + a[1..][..k] && b[..k + 1] == [b[0]] + b[1..][..k];
      }
      if k :| 0 <= k <= |a| && k < |b| && a[..k] == b[..k] && (k == |a| || a[k] < b[k]) {
        assert k > 0;
        assert a[1..][..k - 1] == a[..k][1..] && b[1..][..k - 1] == b[..k][1..];
      }
    }
  }

  /** Heavier first; equal weights by name. */
  predicate Before(w: string -> real, a: string, b: string) {
    w(a) > w(b) || (w(a) == w(b) && Less(a, b))
  }

  lemma BeforeIsStrictOrder(w: string -> real, a: string, b: string, c: string)
    ensures !Before(w, a, a)
    ensures a == b || Before(w, a, b) || Before(w, b, a)
    ensures !(Before(w, a, b) && Before(w, b, a))
    ensures Before(w, a, b) && Before(w, b, c) ==> Before(w, a, c)
  {
    LessIrreflexive(a);
    LessTotal(a, b);
    if Less(a, b) && Less(b, a) { LessTransitive(a, b, a); }
    if Less(a, b) && Less(b, c) { LessTransitive(a, b, c); }
  }

  ghost predicate IsFirst(w: string -> real, s: set<string>, m: string) {
    m in s && forall x :: x in s && x != m ==> Before(w, m, x)
  }

  lemma {:induction false} FirstExists(w: string -> real, s: set<string>)
    requires s != {}
    ensures exists m :: IsFirst(w, s, m)
  {
    var x :| x in s;
    if s == {x} {
      assert IsFirst(w, s, x);
    } else {
      var rest := s - {x};
      FirstExists(w, rest);
      var m :| IsFirst(w, rest, m);
      BeforeIsStrictOrder(w, x, m, m);
      if Before(w, x, m) {
        forall y | y in s && y != x ensures Before(w, x, y) {
          BeforeIsStrictOrder(w, x, m, y);
        }
        assert IsFirst(w, s, x);
      } else {
        assert IsFirst(w, s, m);
      }
    }
  }

  ghost predicate RankedBy(w: string -> real, r: seq<string>) {
    forall i, j :: 0 <= i < j < |r| ==> Before(w, r[i], r[j])
  }

  ghost function Elements<T>(r: seq<T>): set<T> {
    set x | x in r
  }

  lemma RankedCons(w: string -> real, s: set<string>, m: string, rest: seq<string>)
    requires IsFirst(w, s, m) && Elements(rest) == s - {m} && RankedBy(w, rest)
    ensures Elements([m] + rest) == s && RankedBy(w, [m] + rest)
  {
    assert forall i :: 0 <= i < |rest| ==> rest[i] in Elements(rest);
    assert forall x :: x in [m] + rest <==> x == m || x in rest;
    assert forall x :: x in rest <==> x in Elements(rest);
  }

  /** The members of a set in rank order. */
  ghost function Ranked(w: string -> real, s: set<string>): (r: seq<string>)
    ensures Elements(r) == s
    ensures |r| == |s|
    ensures RankedBy(w, r)
  {
    if s == {} then [] else
      FirstExists(w, s);
      var m :| IsFirst(w, s, m);
      var rest := Ranked(w, s - {m});
      RankedCons(w, s, m, rest);
      [m] + rest
  }

  /** A set has one ranking: whatever order its members were listed in, sorting
      them by rank gives `Ranked`. */
  lemma {:induction false} RankedUnique(w: string -> real, s: set<string>, r: seq<string>)
    requires Elements(r) == s && RankedBy(w, r)
    ensures r == Ranked(w, s)
  {
    if r == [] {
      assert Elements(r) == {};
    } else {
      assert r[0] in Elements(r);
      var q := Ranked(w, s);
      assert r[0] in Elements(r) && q[0] in Elements(q);
      assert r[0] == q[0] by {
        var i :| 0 <= i < |q| && q[i] == r[0];
        var j :| 0 <= j < |r| && r[j] == q[0];
        BeforeIsStrictOrder(w, r[0], q[0], r[0]);
      }
      RankedTail(w, r);
      RankedTail(w, q);
      RankedUnique(w, s - {r[0]}, r[1..]);
      RankedUnique(w, s - {r[0]}, q[1..]);
      assert r == [r[0]] + r[1..] && q == [q[0]] + q[1..];
    }
  }

  /** The ranking depends only on the weights of the members. */
  lemma RankedAgree(w: string -> real, v: string -> real, s: set<string>)
    requires forall x :: x in s ==> w(x) == v(x)
    ensures Ranked(w, s) == Ranked(v, s)
  {
    hide Ranked;
    var r := Ranked(v, s);
    assert forall i :: 0 <= i < |r| ==> r[i] in Elements(r);
    assert RankedBy(w, r);
    RankedUnique(w, s, r);
  }

  lemma RankedTail(w: string -> real, r: seq<string>)
    requires RankedBy(w, r) && r != []
    ensures RankedBy(w, r[1..]) && Elements(r[1..]) == Elements(r) - {r[0]}
  {
    forall x | x in r[1..] ensures x != r[0] {
      var i :| 0 < i < |r| && r[i] == x;
      BeforeIsStrictOrder(w, r[0], x, x);
    }
    assert r == [r[0]] + r[1..];
  }

  /** Selection by rank: what a sort of the members produces. */
  method Rank(w: string -> real, s: set<string>) returns (r: seq<string>)
    ensures r == Ranked(w, s)
  {
    var left := s;
    r := [];
    while left != {}
      invariant left <= s
      invariant Elements(r) == s - left
      invariant RankedBy(w, r)
      invariant forall x, y :: x in r && y in left ==> Before(w, x, y)
      decreases left
    {
      var m :| m in left;
      var seen := {m};
      while seen != left
        invariant m in seen && seen <= left
        invariant IsFirst(w, seen, m)
        decreases left - seen
      {
        assert left - seen != {} by { assert left == seen + (left - seen); }
        var x :| x in left - seen;
        ghost var m0 := m;
        BeforeIsStrictOrder(w, x, m, x);
        seen := seen + {x};
        if Before(w, x, m) {
          m := x;
          forall y | y in seen && y != x ensures Before(w, x, y) {
            BeforeIsStrictOrder(w, x, m0, y);
          }
        }
      }
      left := left - {m};
      assert Elements(r + [m]) == Elements(r) + {m};
      r := r + [m];
    }
    RankedUnique(w, s, r);
  }
}
