/** Counting members of finite sets. */
module Sets {

  lemma {:induction false} SubsetSize<T>(a: set<T>, b: set<T>)
    requires a <= b
    ensures |a| <= |b|
  {
    if a == {} {
    } else {
      var x :| x in a;
      SubsetSize(a - {x}, b - {x});
    }
  }

  lemma NoInts(s: set<int>)
    requires forall k :: k !in s
    ensures |s| == 0
  {
    var none: set<int> := {};
    assert forall k :: k in s ==> k in none;
    assert s <= none;
  }

  lemma SomeInt(s: set<int>)
    requires |s| > 0
    ensures exists k :: k in s
  {
    if !exists k :: k in s { NoInts(s); }
  }
}
