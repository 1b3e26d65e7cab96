/** The canonical form itself: fields sorted by key at every level, then printed.
    Two values have one canonical text exactly when they are the same value up to the
    order their fields were listed in. */
module CanonicalForm {
  import opened JsonText
  import opened CanonicalJson
  import Text

  // --------------------------------------------------------------------- sorting

  function InsertField(f: Field, fs: seq<Field>): seq<Field> {
    if fs == [] || Text.Less(f.key, fs[0].key) then [f] + fs else [fs[0]] + InsertField(f, fs[1..])
  }

  function SortFields(fs: seq<Field>): (r: seq<Field>) {
    if fs == [] then [] else InsertField(fs[0], SortFields(fs[1..]))
  }

  ghost predicate KeysAscend(fs: seq<Field>) {
    forall i, j :: 0 <= i < j < |fs| ==> Text.Less(fs[i].key, fs[j].key)
  }

  lemma {:induction false} InsertMembers(f: Field, fs: seq<Field>)
    ensures |InsertField(f, fs)| == |fs| + 1
    ensures forall x :: x in InsertField(f, fs) <==> x == f || x in fs
  {
    if fs != [] && !Text.Less(f.key, fs[0].key) {
      InsertMembers(f, fs[1..]);
      assert fs == [fs[0]] + fs[1..];
    }
  }

  lemma {:induction false} SortMembers(fs: seq<Field>)
    ensures |SortFields(fs)| == |fs|
    ensures forall x :: x in SortFields(fs) <==> x in fs
  {
    if fs == [] {
    } else {
      SortMembers(fs[1..]);
      InsertMembers(fs[0], SortFields(fs[1..]));
      assert fs == [fs[0]] + fs[1..];
    }
  }

  lemma {:induction false} InsertAscends(f: Field, fs: seq<Field>)
    requires KeysAscend(fs) && forall x :: x in fs ==> x.key != f.key
    ensures KeysAscend(InsertField(f, fs))
  {
    if fs == [] {
    } else if Text.Less(f.key, fs[0].key) {
      forall x | x in fs ensures Text.Less(f.key, x.key) {
        if x != fs[0] { Text.LessTransitive(f.key, fs[0].key, x.key); }
      }
    } else {
      assert fs[0] in fs;
      Text.LessTotal(f.key, fs[0].key);
      InsertAscends(f, fs[1..]);
      InsertMembers(f, fs[1..]);
      forall x | x in InsertField(f, fs[1..]) ensures Text.Less(fs[0].key, x.key) {}
      ConsAscends(fs[0], InsertField(f, fs[1..]));
    }
  }

  lemma ConsAscends(f: Field, fs: seq<Field>)
    requires KeysAscend(fs) && forall x :: x in fs ==> Text.Less(f.key, x.key)
    ensures KeysAscend([f] + fs)
  {
  }

  lemma {:induction false} SortAscends(fs: seq<Field>)
    requires DistinctKeys(fs)
    ensures KeysAscend(SortFields(fs))
  {
    if fs == [] {
    } else {
      SortAscends(fs[1..]);
      SortMembers(fs[1..]);
      InsertAscends(fs[0], SortFields(fs[1..]));
    }
  }

  lemma AscendTail(a: seq<Field>)
    requires KeysAscend(a) && a != []
    ensures KeysAscend(a[1..]) && forall x :: x in a[1..] <==> x in a && x != a[0]
  {
    forall x | x in a[1..] ensures x in a && x != a[0] {
      var i :| 0 < i < |a| && a[i] == x;
      Text.LessIrreflexive(x.key);
    }
    assert a == [a[0]] + a[1..];
  }

  lemma AscendHead(a: seq<Field>, b: seq<Field>)
    requires KeysAscend(a) && KeysAscend(b) && a != [] && b != []
    requires a[0] in b && b[0] in a
    ensures a[0] == b[0]
  {
    if a[0] != b[0] {
      var i :| 0 <= i < |b| && b[i] == a[0];
      var j :| 0 <= j < |a| && a[j] == b[0];
      Text.LessTransitive(a[0].key, b[0].key, a[0].key);
      Text.LessIrreflexive(a[0].key);
    }
  }

  /** A list of fields has one ascending order. */
  lemma {:induction false} AscendingUnique(a: seq<Field>, b: seq<Field>)
    requires KeysAscend(a) && KeysAscend(b) && forall x :: x in a <==> x in b
    ensures a == b
  {
    if a != [] { assert a[0] in a; }
    if b != [] { assert b[0] in b; }
    if a == [] {
    } else {
      assert a[0] in b && b[0] in a;
      AscendHead(a, b);
      AscendTail(a);
      AscendTail(b);
      AscendingUnique(a[1..], b[1..]);
      assert a == [a[0]] + a[1..] && b == [b[0]] + b[1..];
    }
  }

  // ---------------------------------------------------------------- normal form

  function NormItems(items: seq<Json>): (r: seq<Json>)
    ensures |r| == |items|
    ensures forall i :: 0 <= i < |items| ==> r[i] == Norm(items[i])
    decreases items
  {
    if items == [] then [] else [Norm(items[0])] + NormItems(items[1..])
  }

  function NormField(f: Field): Field
    decreases f, 0
  { Field(f.key, Norm(f.value)) }

  function NormFields(fs: seq<Field>): (r: seq<Field>)
    ensures |r| == |fs|
    ensures forall i :: 0 <= i < |fs| ==> r[i] == NormField(fs[i])
    decreases fs
  {
    if fs == [] then [] else [NormField(fs[0])] + NormFields(fs[1..])
  }

  /** Every object's fields in key order. */
  function Norm(v: Json): Json
    decreases v
  {
    match v
    case Arr(items) => Arr(NormItems(items))
    case Obj(fs) => Obj(SortFields(NormFields(fs)))
    case _ => v
  }

  function Canonical(v: Json): string { Print(Norm(v)) }

  lemma {:induction false} NormValid(v: Json)
    requires Valid(v)
    ensures Valid(Norm(v))
  {
    match v
    case Arr(items) =>
      forall i | 0 <= i < |items| ensures Valid(NormItems(items)[i]) { NormValid(items[i]); }
    case Obj(fs) =>
      var ns := NormFields(fs);
      forall i | 0 <= i < |fs| ensures Valid(ns[i].value) { NormValid(fs[i].value); }
      SortedValid(ns);
    case _ =>
  }

  lemma SortedValid(ns: seq<Field>)
    requires DistinctKeys(ns) && forall i :: 0 <= i < |ns| ==> Valid(ns[i].value)
    ensures Valid(Obj(SortFields(ns)))
  {
    SortMembers(ns);
    SortAscends(ns);
    var r := SortFields(ns);
    forall i | 0 <= i < |r| ensures Valid(r[i].value) { assert r[i] in ns; }
    forall i, j | 0 <= i < j < |r| ensures r[i].key != r[j].key { Text.LessIrreflexive(r[i].key); }
  }

  // ----------------------------------------------------------- the same value

  ghost predicate HasField(fs: seq<Field>, f: Field)
    decreases f, fs
  {
    exists j :: 0 <= j < |fs| && fs[j].key == f.key && Same(f.value, fs[j].value)
  }

  /** Equal up to the order of fields, at every level. */
  ghost predicate Same(v: Json, w: Json)
    decreases v, w
  {
    match (v, w)
    case (Arr(a), Arr(b)) => |a| == |b| && forall i :: 0 <= i < |a| ==> Same(a[i], b[i])
    case (Obj(f), Obj(g)) =>
      (forall i :: 0 <= i < |f| ==> HasField(g, f[i])) &&
      (forall k :: k in Keys(g) ==> k in Keys(f))
    case _ => v == w
  }

  ghost function Keys(fs: seq<Field>): set<string> { set i | 0 <= i < |fs| :: fs[i].key }

  /** The normal form decides sameness. */
  lemma {:induction false} NormDecides(v: Json, w: Json)
    requires Valid(v) && Valid(w)
    ensures Norm(v) == Norm(w) <==> Same(v, w)
    decreases v
  {
    match (v, w)
    case (Arr(a), Arr(b)) =>
      if |a| == |b| {
        forall i | 0 <= i < |a| ensures NormItems(a)[i] == NormItems(b)[i] <==> Same(a[i], b[i]) {
          NormDecides(a[i], b[i]);
        }
        assert NormItems(a) == NormItems(b) <==> forall i :: 0 <= i < |a| ==> NormItems(a)[i] == NormItems(b)[i];
      }
    case (Obj(f), Obj(g)) =>
      forall i, j | 0 <= i < |f| && 0 <= j < |g| ensures Norm(f[i].value) == Norm(g[j].value) <==> Same(f[i].value, g[j].value) {
        NormDecides(f[i].value, g[j].value);
      }
      FieldsDecide(f, g);
    case _ =>
  }

  lemma FieldsDecide(f: seq<Field>, g: seq<Field>)
    requires Valid(Obj(f)) && Valid(Obj(g))
    requires forall i, j :: 0 <= i < |f| && 0 <= j < |g| ==>
               (Norm(f[i].value) == Norm(g[j].value) <==> Same(f[i].value, g[j].value))
    ensures SortFields(NormFields(f)) == SortFields(NormFields(g)) <==> Same(Obj(f), Obj(g))
  {
    if SortFields(NormFields(f)) == SortFields(NormFields(g)) {
      FieldsFromForms(f, g);
    }
    if Same(Obj(f), Obj(g)) {
      FormsFromFields(f, g);
    }
  }

  lemma FieldsFromForms(f: seq<Field>, g: seq<Field>)
    requires SortFields(NormFields(f)) == SortFields(NormFields(g))
    requires forall i, j :: 0 <= i < |f| && 0 <= j < |g| ==>
               (Norm(f[i].value) == Norm(g[j].value) <==> Same(f[i].value, g[j].value))
    ensures Same(Obj(f), Obj(g))
  {
    SortMembers(NormFields(f));
    SortMembers(NormFields(g));
    forall i | 0 <= i < |f| ensures HasField(g, f[i]) {
      assert NormFields(f)[i] in NormFields(g);
      var j :| 0 <= j < |g| && NormFields(g)[j] == NormFields(f)[i];
      assert g[j].key == f[i].key && Same(f[i].value, g[j].value);
    }
    forall k | k in Keys(g) ensures k in Keys(f) {
      var j :| 0 <= j < |g| && g[j].key == k;
      assert NormFields(g)[j] in NormFields(f);
      var i :| 0 <= i < |f| && NormFields(f)[i] == NormFields(g)[j];
      assert f[i].key == k;
    }
  }

  lemma FormsFromFields(f: seq<Field>, g: seq<Field>)
    requires Valid(Obj(f)) && Valid(Obj(g)) && Same(Obj(f), Obj(g))
    requires forall i, j :: 0 <= i < |f| && 0 <= j < |g| ==>
               (Norm(f[i].value) == Norm(g[j].value) <==> Same(f[i].value, g[j].value))
    ensures SortFields(NormFields(f)) == SortFields(NormFields(g))
  {
    var nf, ng := NormFields(f), NormFields(g);
    forall i | 0 <= i < |f| ensures nf[i] in ng {
      assert HasField(g, f[i]);
      var j :| 0 <= j < |g| && g[j].key == f[i].key && Same(f[i].value, g[j].value);
      assert ng[j] == nf[i];
    }
    assert DistinctKeys(nf) && DistinctKeys(ng);
    assert forall k :: k in Keys(ng) ==> k in Keys(nf) by {
      assert Keys(nf) == Keys(f) && Keys(ng) == Keys(g);
    }
    SameMembers(nf, ng);
  }

  lemma SameMembers(nf: seq<Field>, ng: seq<Field>)
    requires DistinctKeys(nf) && DistinctKeys(ng)
    requires forall i :: 0 <= i < |nf| ==> nf[i] in ng
    requires forall k :: k in Keys(ng) ==> k in Keys(nf)
    ensures SortFields(nf) == SortFields(ng)
  {
    forall j | 0 <= j < |ng| ensures ng[j] in nf {
      assert ng[j].key in Keys(ng);
      var i :| 0 <= i < |nf| && nf[i].key == ng[j].key;
      var k :| 0 <= k < |ng| && ng[k] == nf[i];
    }
    SortMembers(nf);
    SortMembers(ng);
    SortAscends(nf);
    SortAscends(ng);
    AscendingUnique(SortFields(nf), SortFields(ng));
  }

  /** A reader recovers the value from its canonical text, so two values share a
      canonical text exactly when they are the same up to field order. */
  lemma CanonicalDecides(v: Json, w: Json)
    requires Valid(v) && Valid(w)
    ensures ReadValue(Canonical(v)) == Got(Norm(v), "")
    ensures Canonical(v) == Canonical(w) <==> Same(v, w)
  {
    CanonicalReads(v);
    CanonicalReads(w);
    NormDecides(v, w);
  }

  lemma CanonicalReads(v: Json)
    requires Valid(v)
    ensures ReadValue(Canonical(v)) == Got(Norm(v), "")
  {
    NormValid(v);
    ValueRoundTrip(Norm(v), "");
    assert Canonical(v) + "" == Canonical(v);
  }

  // ------------------------------------------------------------- sorted, and ASCII only

  /** In every object, however deep, the keys rise. */
  ghost predicate SortedKeys(v: Json) {
    match v
    case Arr(items) => forall i :: 0 <= i < |items| ==> SortedKeys(items[i])
    case Obj(fs) => KeysAscend(fs) && forall i :: 0 <= i < |fs| ==> SortedKeys(fs[i].value)
    case _ => true
  }

  lemma {:induction false} NormSorted(v: Json)
    requires Valid(v)
    ensures SortedKeys(Norm(v))
    decreases v
  {
    match v
    case Arr(items) =>
      forall i | 0 <= i < |items| ensures SortedKeys(NormItems(items)[i]) { NormSorted(items[i]); }
    case Obj(fs) =>
      forall i | 0 <= i < |fs| ensures SortedKeys(NormFields(fs)[i].value) { NormSorted(fs[i].value); }
      SortedFields(NormFields(fs));
    case _ =>
  }

  lemma SortedFields(fs: seq<Field>)
    requires DistinctKeys(fs) && forall i :: 0 <= i < |fs| ==> SortedKeys(fs[i].value)
    ensures SortedKeys(Obj(SortFields(fs)))
  {
    hide SortFields, SortedKeys, KeysAscend, DistinctKeys;
    var sorted := SortFields(fs);
    SortMembers(fs);
    SortAscends(fs);
    forall i | 0 <= i < |sorted| ensures SortedKeys(sorted[i].value) {
      var f := sorted[i];
      assert f in sorted && f in fs;
    }
    SortedObj(sorted);
  }

  lemma SortedObj(fs: seq<Field>)
    requires KeysAscend(fs) && forall i :: 0 <= i < |fs| ==> SortedKeys(fs[i].value)
    ensures SortedKeys(Obj(fs))
  {
  }

  /** The canonical text is ASCII only and lists the keys of every object in rising order:
      what it reads back as has them so. */
  lemma CanonicalShape(v: Json)
    requires Valid(v)
    ensures AllAscii(Canonical(v))
    ensures ReadValue(Canonical(v)).Got? && SortedKeys(ReadValue(Canonical(v)).value)
  {
    hide Print, ReadValue, SortedKeys, Norm;
    CanonicalReads(v);
    NormSorted(v);
    NormValid(v);
    PrintAscii(Norm(v));
  }
}
