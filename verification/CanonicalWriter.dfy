/** `write_value` and `write_escaped`: the canonical text pushed piece by piece into a
    shared buffer. */
module CanonicalWriter {
  import opened Decimal
  import opened JsonText
  import opened CanonicalJson
  import opened CanonicalForm
  import Text

  lemma {:induction false} InsertCommutes(f: Field, fs: seq<Field>)
    ensures NormFields(InsertField(f, fs)) == InsertField(NormField(f), NormFields(fs))
  {
    if fs == [] {
    } else {
      InsertCommutes(f, fs[1..]);
      assert NormFields(fs)[1..] == NormFields(fs[1..]);
    }
  }

  /** Sorting before or after normalising the values is the same. */
  lemma {:induction false} SortCommutes(fs: seq<Field>)
    ensures NormFields(SortFields(fs)) == SortFields(NormFields(fs))
  {
    if fs == [] {
    } else {
      SortCommutes(fs[1..]);
      InsertCommutes(fs[0], SortFields(fs[1..]));
    }
  }

  /** The first `i` entries of a list, with commas between them. */
  function Joined(ts: seq<string>, i: nat): string
    requires i <= |ts|
  {
    if i == 0 then "" else Joined(ts, i - 1) + ((if i > 1 then [','] else []) + ts[i - 1])
  }

  function ItemTexts(items: seq<Json>): (r: seq<string>)
    ensures |r| == |items|
    ensures forall i :: 0 <= i < |items| ==> r[i] == Print(items[i])
  { if items == [] then [] else [Print(items[0])] + ItemTexts(items[1..]) }

  function FieldTexts(fs: seq<Field>): (r: seq<string>)
    ensures |r| == |fs|
    ensures forall i :: 0 <= i < |fs| ==> r[i] == PrintField(fs[i])
  { if fs == [] then [] else [PrintField(fs[0])] + FieldTexts(fs[1..]) }

  /** Joining from the front. */
  lemma {:induction false} JoinedFront(ts: seq<string>, i: nat)
    requires 1 < i <= |ts|
    ensures Joined(ts, i) == ts[0] + ([','] + Joined(ts[1..], i - 1))
  {
    if i == 2 {
      Unit(ts[0]);
      Unit(ts[1]);
      assert Joined(ts, 1) == "" + ("" + ts[0]);
      assert Joined(ts[1..], 1) == "" + ("" + ts[1..][0]);
    } else {
      JoinedFront(ts, i - 1);
      var last := [','] + ts[i - 1];
      Text.Associative(ts[0], [','] + Joined(ts[1..], i - 2), last);
      Text.Associative([','], Joined(ts[1..], i - 2), last);
    }
  }

  lemma Unit(s: string)
    ensures "" + s == s && "" + ("" + s) == s
  {
  }

  lemma {:induction false} ItemsJoined(items: seq<Json>)
    requires items != []
    ensures Joined(ItemTexts(items), |items|) + [']'] == PrintItems(items)
  {
    var ts := ItemTexts(items);
    if |items| == 1 {
      Unit(ts[0]);
    } else {
      ItemsJoined(items[1..]);
      assert ts[1..] == ItemTexts(items[1..]);
      JoinedFront(ts, |items|);
      Text.Associative(ts[0], [','] + Joined(ts[1..], |items| - 1), [']']);
      Text.Associative([','], Joined(ts[1..], |items| - 1), [']']);
    }
  }

  lemma {:induction false} FieldsJoined(fs: seq<Field>)
    requires fs != []
    ensures Joined(FieldTexts(fs), |fs|) + ['}'] == PrintFields(fs)
  {
    var ts := FieldTexts(fs);
    if |fs| == 1 {
      Unit(ts[0]);
    } else {
      FieldsJoined(fs[1..]);
      assert ts[1..] == FieldTexts(fs[1..]);
      JoinedFront(ts, |fs|);
      Text.Associative(ts[0], [','] + Joined(ts[1..], |fs| - 1), ['}']);
      Text.Associative([','], Joined(ts[1..], |fs| - 1), ['}']);
    }
  }

  /** A bracketed list is its opening, its joined entries and its closing. */
  lemma ArrJoined(start: string, items: seq<Json>)
    ensures start + ['['] + Joined(ItemTexts(items), |items|) + [']'] == start + Print(Arr(items))
  {
    if items != [] { ItemsJoined(items); }
    Text.Associative(start, ['['], Joined(ItemTexts(items), |items|));
    Text.Associative(start, ['['] + Joined(ItemTexts(items), |items|), [']']);
    Text.Associative(['['], Joined(ItemTexts(items), |items|), [']']);
  }

  lemma ObjJoined(start: string, fs: seq<Field>)
    ensures start + ['{'] + Joined(FieldTexts(fs), |fs|) + ['}'] == start + Print(Obj(fs))
  {
    if fs != [] { FieldsJoined(fs); }
    Text.Associative(start, ['{'], Joined(FieldTexts(fs), |fs|));
    Text.Associative(start, ['{'] + Joined(FieldTexts(fs), |fs|), ['}']);
    Text.Associative(['{'], Joined(FieldTexts(fs), |fs|), ['}']);
  }

  lemma JoinedStep(start: string, ts: seq<string>, i: nat)
    requires i < |ts|
    ensures start + Joined(ts, i) + (if i > 0 then [','] else []) + ts[i] == start + Joined(ts, i + 1)
  {
    var comma := if i > 0 then [','] else [];
    Text.Associative(start + Joined(ts, i), comma, ts[i]);
    Text.Associative(start, Joined(ts, i), comma + ts[i]);
  }

  lemma {:induction false} EscapeSnoc(s: string, i: nat)
    requires i < |s|
    ensures Escape(s[..i + 1]) == Escape(s[..i]) + EscapeChar(s[i])
  {
    if i == 0 {
      assert s[..1][1..] == "";
      assert EscapeChar(s[0]) + "" == EscapeChar(s[0]) && "" + EscapeChar(s[0]) == EscapeChar(s[0]);
    } else {
      EscapeSnoc(s[1..], i - 1);
      assert s[..i + 1][1..] == s[1..][..i] && s[..i][1..] == s[1..][..i - 1];
      Text.Associative(EscapeChar(s[0]), Escape(s[1..][..i - 1]), EscapeChar(s[i]));
    }
  }

  class Writer {
    var out: string

    constructor ()
      ensures out == ""
    { out := ""; }

    method WriteEscaped(s: string)
      modifies this
      ensures out == old(out) + Quote(s)
    {
      var start := out;
      out := out + ['"'];
      ghost var begun := out;
      var i := 0;
      while i < |s|
        invariant 0 <= i <= |s|
        invariant out == begun + Escape(s[..i])
      {
        EscapeSnoc(s, i);
        Text.Associative(begun, Escape(s[..i]), EscapeChar(s[i]));
        out := out + EscapeChar(s[i]);
        i := i + 1;
      }
      assert s[..i] == s;
      out := out + ['"'];
      Text.Associative(begun, Escape(s), ['"']);
      Text.Associative(start, ['"'], Escape(s) + ['"']);
    }

    method WriteItems(items: seq<Json>)
      requires forall i :: 0 <= i < |items| ==> Valid(items[i])
      modifies this
      ensures out == old(out) + Print(Arr(NormItems(items)))
      decreases items, 0
    {
      ghost var start := out;
      ghost var ts := ItemTexts(NormItems(items));
      out := out + ['['];
      var i := 0;
      while i < |items|
        invariant 0 <= i <= |items|
        invariant out == start + ['['] + Joined(ts, i)
      {
        if i != 0 { out := out + [',']; }
        WriteValue(items[i]);
        JoinedStep(start + ['['], ts, i);
        i := i + 1;
      }
      out := out + [']'];
      ArrJoined(start, NormItems(items));
    }

    /** The fields as the sort listed them. */
    method WriteListed(sorted: seq<Field>, ghost fs: seq<Field>)
      requires forall f :: f in sorted ==> f in fs && Valid(f.value)
      modifies this
      ensures out == old(out) + Print(Obj(NormFields(sorted)))
      decreases fs, 0
    {
      ghost var start := out;
      ghost var ts := FieldTexts(NormFields(sorted));
      out := out + ['{'];
      var i := 0;
      while i < |sorted|
        invariant 0 <= i <= |sorted|
        invariant out == start + ['{'] + Joined(ts, i)
      {
        if i != 0 { out := out + [',']; }
        assert sorted[i] in fs;
        WriteField(sorted[i]);
        JoinedStep(start + ['{'], ts, i);
        i := i + 1;
      }
      out := out + ['}'];
      ObjJoined(start, NormFields(sorted));
    }

    method WriteFields(fs: seq<Field>)
      requires forall i :: 0 <= i < |fs| ==> Valid(fs[i].value)
      modifies this
      ensures out == old(out) + Print(Obj(SortFields(NormFields(fs))))
      decreases fs, 1
    {
      SortMembers(fs);
      SortCommutes(fs);
      WriteListed(SortFields(fs), fs);
    }

    method WriteField(f: Field)
      requires Valid(f.value)
      modifies this
      ensures out == old(out) + PrintField(NormField(f))
      decreases f, 0
    {
      var start := out;
      WriteEscaped(f.key);
      out := out + [':'];
      WriteValue(f.value);
      Text.Associative(start + Quote(f.key), [':'], Canonical(f.value));
      Text.Associative(start, Quote(f.key), [':'] + Canonical(f.value));
    }

    /** The canonical text of `v`, appended. */
    method WriteValue(v: Json)
      requires Valid(v)
      modifies this
      ensures out == old(out) + Canonical(v)
      decreases v
    {
      match v
      case Null => out := out + "null";
      case Bool(b) => out := out + (if b then "true" else "false");
      case Int(i) => out := out + IntText(i);
      case Number(f) =>
        var t := WriteNotation(f.neg, f.sig, f.lead);
        out := out + t;
      case Str(s) => WriteEscaped(s);
      case Arr(items) => WriteItems(items);
      case Obj(fs) => WriteFields(fs);
    }
  }
}
