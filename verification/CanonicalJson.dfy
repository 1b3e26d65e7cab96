/** Canonical JSON: sorted keys, compact separators, ASCII escapes. A reader recovers
    every value from its text, so distinct records never hash the same bytes, and the
    order in which an object's fields were listed never shows. */
module CanonicalJson {
  import opened Decimal
  import opened JsonText
  import Text

  datatype Field = Field(key: string, value: Json)

  datatype Json =
    | Null
    | Bool(b: bool)
    | Int(i: int)
    | Number(f: Float)
    | Str(s: string)
    | Arr(items: seq<Json>)
    | Obj(fields: seq<Field>)

  ghost predicate DistinctKeys(fs: seq<Field>) {
    forall i, j :: 0 <= i < j < |fs| ==> fs[i].key != fs[j].key
  }

  ghost predicate Valid(v: Json) {
    match v
    case Number(f) => WellFormed(f)
    case Arr(items) => forall i :: 0 <= i < |items| ==> Valid(items[i])
    case Obj(fs) => DistinctKeys(fs) && forall i :: 0 <= i < |fs| ==> Valid(fs[i].value)
    case _ => true
  }

  // -------------------------------------------------------------------- printing

  function NumberText(v: Json): string
    requires v.Int? || (v.Number? && v.f.sig != "")
  { if v.Int? then IntText(v.i) else Render(v.f) }

  /** The text of a value with its fields in the order listed. */
  function Print(v: Json): string
    decreases v
  {
    match v
    case Null => "null"
    case Bool(b) => if b then "true" else "false"
    case Int(_) => NumberText(v)
    case Number(f) => if f.sig == "" then "" else NumberText(v)
    case Str(s) => Quote(s)
    case Arr(items) => ['['] + (if items == [] then [']'] else PrintItems(items))
    case Obj(fs) => ['{'] + (if fs == [] then ['}'] else PrintFields(fs))
  }

  /** Items separated by commas, with the closing bracket. */
  function PrintItems(items: seq<Json>): string
    requires items != []
    decreases items
  {
    Print(items[0]) + (if |items| == 1 then [']'] else [','] + PrintItems(items[1..]))
  }

  function PrintField(f: Field): string
    decreases f, 0
  { Quote(f.key) + ([':'] + Print(f.value)) }

  function PrintFields(fs: seq<Field>): string
    requires fs != []
    decreases fs
  {
    PrintField(fs[0]) + (if |fs| == 1 then ['}'] else [','] + PrintFields(fs[1..]))
  }

  // --------------------------------------------------------------------- reading

  predicate IsNumberChar(c: char) { IsDigit(c) || c == '-' || c == '+' || c == '.' || c == 'e' }

  predicate NumberChars(s: string) { forall i :: 0 <= i < |s| ==> IsNumberChar(s[i]) }

  function NumberRun(s: string): (n: nat)
    ensures n <= |s|
  { if s != "" && IsNumberChar(s[0]) then 1 + NumberRun(s[1..]) else 0 }

  /** A point or an exponent marks a float. */
  function ReadNumber(t: string): (r: Parsed<Json>)
    ensures r.Got? ==> r.rest == ""
  {
    if '.' in t || 'e' in t then if IsDecimalText(t) then Got(Number(Normalize(t)), "") else Fail
    else if IsSignedInt(t) then Got(Int(IntOf(t)), "") else Fail
  }

  function ReadWord(s: string, word: string, v: Json): (r: Parsed<Json>)
    requires word != ""
    ensures r.Got? ==> |r.rest| < |s|
  { if word <= s then Got(v, s[|word|..]) else Fail }

  function ReadValue(s: string): (r: Parsed<Json>)
    ensures r.Got? ==> |r.rest| < |s|
    decreases |s|, 0
  {
    if s == "" then Fail
    else if s[0] == 'n' then ReadWord(s, "null", Null)
    else if s[0] == 't' then ReadWord(s, "true", Bool(true))
    else if s[0] == 'f' then ReadWord(s, "false", Bool(false))
    else if s[0] == '"' then
      var q := ReadQuoted(s);
      if q.Got? then Got(Str(q.value), q.rest) else Fail
    else if s[0] == '[' then
      if |s| > 1 && s[1] == ']' then Got(Arr([]), s[2..])
      else
        var t := ReadItems(s[1..]);
        if t.Got? then Got(Arr(t.value), t.rest) else Fail
    else if s[0] == '{' then
      if |s| > 1 && s[1] == '}' then Got(Obj([]), s[2..])
      else
        var t := ReadFields(s[1..]);
        if t.Got? then Got(Obj(t.value), t.rest) else Fail
    else
      var n := NumberRun(s);
      var t := ReadNumber(s[..n]);
      if n > 0 && t.Got? then Got(t.value, s[n..]) else Fail
  }

  function ReadItems(s: string): (r: Parsed<seq<Json>>)
    ensures r.Got? ==> |r.rest| < |s|
    decreases |s|, 1
  {
    var v := ReadValue(s);
    if v.Fail? || v.rest == "" then Fail
    else if v.rest[0] == ']' then Got([v.value], v.rest[1..])
    else if v.rest[0] == ',' then
      var t := ReadItems(v.rest[1..]);
      if t.Got? then Got([v.value] + t.value, t.rest) else Fail
    else Fail
  }

  function ReadField(s: string): (r: Parsed<Field>)
    ensures r.Got? ==> |r.rest| < |s|
    decreases |s|, 1
  {
    var k := ReadQuoted(s);
    if k.Fail? || k.rest == "" || k.rest[0] != ':' then Fail
    else
      var v := ReadValue(k.rest[1..]);
      if v.Got? then Got(Field(k.value, v.value), v.rest) else Fail
  }

  function ReadFields(s: string): (r: Parsed<seq<Field>>)
    ensures r.Got? ==> |r.rest| < |s|
    decreases |s|, 2
  {
    var f := ReadField(s);
    if f.Fail? || f.rest == "" then Fail
    else if f.rest[0] == '}' then Got([f.value], f.rest[1..])
    else if f.rest[0] == ',' then
      var t := ReadFields(f.rest[1..]);
      if t.Got? then Got([f.value] + t.value, t.rest) else Fail
    else Fail
  }

  // ------------------------------------------------------------------ round trip

  /** What may follow a value: nothing, or a separator. */
  predicate Stops(rest: string) {
    rest == "" || rest[0] == ',' || rest[0] == ']' || rest[0] == '}'
  }

  lemma {:induction false} NumberRunOf(t: string, rest: string)
    requires Stops(rest) && NumberChars(t)
    ensures NumberRun(t + rest) == |t|
  {
    if t == "" {
      assert t + rest == rest;
    } else {
      NumberRunOf(t[1..], rest);
      assert (t + rest)[1..] == t[1..] + rest;
    }
  }

  lemma IntChars(i: int)
    ensures IntText(i) != "" && NumberChars(IntText(i))
    ensures '.' !in IntText(i) && 'e' !in IntText(i)
  {
  }

  lemma FloatChars(f: Float)
    requires WellFormed(f)
    ensures Render(f) != "" && NumberChars(Render(f))
  {
    if Positional(f) {
      PositionalDigits(f);
      DigitChars(IntegerDigits(f));
      DigitChars(FractionDigits(f));
      NumberCharsConcat(IntegerDigits(f), ".");
      NumberCharsConcat(IntegerDigits(f) + ".", FractionDigits(f));
    } else {
      ScientificChars(f);
    }
    NumberCharsConcat(SignText(f.neg), Unsigned(f));
  }

  lemma ScientificChars(f: Float)
    requires WellFormed(f) && !Positional(f)
    ensures NumberChars(Unsigned(f)) && Unsigned(f) != ""
  {
    NumberCharsConcat(MantissaText(f), "e");
    NumberCharsConcat(MantissaText(f) + "e", ExponentText(f.lead));
  }

  lemma DigitChars(s: string)
    requires AllDigits(s)
    ensures NumberChars(s)
  {
  }

  lemma NumberCharsConcat(a: string, b: string)
    requires NumberChars(a) && NumberChars(b)
    ensures NumberChars(a + b)
  {
  }

  /** Integers and floats never share a text. */
  lemma NumberRoundTrip(v: Json)
    requires v.Int? || (v.Number? && WellFormed(v.f))
    ensures ReadNumber(NumberText(v)) == Got(v, "")
  {
    if v.Int? {
      IntRoundTrip(v.i);
      IntChars(v.i);
    } else {
      RenderRoundTrip(v.f);
      RenderIsMarked(v.f);
    }
  }

  lemma NumberHead(v: Json)
    requires v.Int? || (v.Number? && WellFormed(v.f))
    ensures NumberText(v) != "" && NumberChars(NumberText(v))
    ensures IsDigit(NumberText(v)[0]) || NumberText(v)[0] == '-'
  {
    if v.Int? { IntChars(v.i); } else { FloatChars(v.f); RenderHead(v.f); }
  }

  lemma RenderHead(f: Float)
    requires WellFormed(f)
    ensures Render(f) != "" && (IsDigit(Render(f)[0]) || Render(f)[0] == '-')
  {
    if Positional(f) { PositionalDigits(f); }
  }

  lemma ReadNumberValue(v: Json, rest: string)
    requires Stops(rest) && (v.Int? || (v.Number? && WellFormed(v.f)))
    ensures ReadValue(NumberText(v) + rest) == Got(v, rest)
  {
    var t := NumberText(v);
    NumberHead(v);
    NumberRunOf(t, rest);
    NumberRoundTrip(v);
    TakeDrop(t, rest);
  }

  lemma TakeDrop(t: string, rest: string)
    ensures (t + rest)[..|t|] == t && (t + rest)[|t|..] == rest
    ensures t != "" ==> (t + rest)[0] == t[0]
  {
  }

  lemma ReadWordValue(v: Json, rest: string)
    requires v.Null? || v.Bool?
    ensures ReadValue(Print(v) + rest) == Got(v, rest)
  {
    TakeDrop(Print(v), rest);
  }

  lemma ReadStrValue(s: string, rest: string)
    ensures ReadValue(Quote(s) + rest) == Got(Str(s), rest)
  {
    QuotedRoundTrip(s, rest);
    TakeDrop(Quote(s), rest);
  }

  lemma ReadEmpty(open: char, close: char, rest: string)
    ensures ([open] + [close] + rest)[0] == open && ([open] + [close] + rest)[1] == close
    ensures ([open] + [close] + rest)[2..] == rest
  {
  }

  /** Reading a printed value gives the value back and leaves what followed it. */
  lemma {:induction false} ValueRoundTrip(v: Json, rest: string)
    requires Valid(v) && Stops(rest)
    ensures ReadValue(Print(v) + rest) == Got(v, rest)
    decreases v, 1
  {
    match v
    case Null => ReadWordValue(v, rest);
    case Bool(_) => ReadWordValue(v, rest);
    case Int(_) => ReadNumberValue(v, rest);
    case Number(_) => ReadNumberValue(v, rest);
    case Str(s) => ReadStrValue(s, rest);
    case Arr(items) =>
      if items != [] { ItemsRoundTrip(items, rest); }
      ReadArr(items, rest);
    case Obj(fs) =>
      if fs != [] { FieldsRoundTrip(fs, rest); }
      ReadObj(fs, rest);
  }

  lemma ReadArr(items: seq<Json>, rest: string)
    requires forall i :: 0 <= i < |items| ==> Valid(items[i])
    requires items != [] ==> ReadItems(PrintItems(items) + rest) == Got(items, rest)
    ensures ReadValue(Print(Arr(items)) + rest) == Got(Arr(items), rest)
  {
    if items == [] {
      ReadEmpty('[', ']', rest);
    } else {
      ItemsHead(items, rest);
      Text.Associative(['['], PrintItems(items), rest);
      HeadTail('[', PrintItems(items) + rest);
    }
  }

  lemma ReadObj(fs: seq<Field>, rest: string)
    requires fs != [] ==> ReadFields(PrintFields(fs) + rest) == Got(fs, rest)
    ensures ReadValue(Print(Obj(fs)) + rest) == Got(Obj(fs), rest)
  {
    if fs == [] {
      ReadEmpty('{', '}', rest);
    } else {
      FieldsHead(fs, rest);
      Text.Associative(['{'], PrintFields(fs), rest);
      HeadTail('{', PrintFields(fs) + rest);
    }
  }

  lemma PrintHead(v: Json)
    requires Valid(v)
    ensures Print(v) != "" && Print(v)[0] != ']' && Print(v)[0] != '}'
  {
    if v.Int? || v.Number? { NumberHead(v); }
  }

  lemma ItemsHead(items: seq<Json>, rest: string)
    requires items != [] && forall i :: 0 <= i < |items| ==> Valid(items[i])
    ensures (PrintItems(items) + rest)[0] != ']'
  {
    PrintHead(items[0]);
  }

  lemma FieldsHead(fs: seq<Field>, rest: string)
    requires fs != []
    ensures (PrintFields(fs) + rest)[0] != '}'
  {
    assert Quote(fs[0].key)[0] == '"';
  }

  lemma {:induction false} ItemsRoundTrip(items: seq<Json>, rest: string)
    requires items != [] && forall i :: 0 <= i < |items| ==> Valid(items[i])
    ensures ReadItems(PrintItems(items) + rest) == Got(items, rest)
    decreases items, 0
  {
    var tail := if |items| == 1 then [']'] else [','] + PrintItems(items[1..]);
    ValueRoundTrip(items[0], tail + rest);
    Text.Associative(Print(items[0]), tail, rest);
    if |items| == 1 {
      HeadTail(']', rest);
      assert items == [items[0]];
    } else {
      Text.Associative([','], PrintItems(items[1..]), rest);
      HeadTail(',', PrintItems(items[1..]) + rest);
      ItemsRoundTrip(items[1..], rest);
      assert [items[0]] + items[1..] == items;
    }
  }

  lemma {:induction false} FieldRoundTrip(f: Field, rest: string)
    requires Valid(f.value) && Stops(rest)
    ensures ReadField(PrintField(f) + rest) == Got(f, rest)
    decreases f, 2
  {
    var body := [':'] + Print(f.value);
    Text.Associative(Quote(f.key), body, rest);
    QuotedRoundTrip(f.key, body + rest);
    Text.Associative([':'], Print(f.value), rest);
    HeadTail(':', Print(f.value) + rest);
    ValueRoundTrip(f.value, rest);
  }

  lemma {:induction false} FieldsRoundTrip(fs: seq<Field>, rest: string)
    requires fs != [] && forall i :: 0 <= i < |fs| ==> Valid(fs[i].value)
    ensures ReadFields(PrintFields(fs) + rest) == Got(fs, rest)
    decreases fs, 0
  {
    var tail := if |fs| == 1 then ['}'] else [','] + PrintFields(fs[1..]);
    FieldRoundTrip(fs[0], tail + rest);
    Text.Associative(PrintField(fs[0]), tail, rest);
    if |fs| == 1 {
      HeadTail('}', rest);
      assert fs == [fs[0]];
    } else {
      Text.Associative([','], PrintFields(fs[1..]), rest);
      HeadTail(',', PrintFields(fs[1..]) + rest);
      FieldsRoundTrip(fs[1..], rest);
      assert [fs[0]] + fs[1..] == fs;
    }
  }

  // -------------------------------------------------------------------- ASCII only

  lemma NumberAscii(v: Json)
    requires v.Int? || (v.Number? && WellFormed(v.f))
    ensures AllAscii(NumberText(v))
  {
    hide Render, IntText;
    if v.Int? { IntChars(v.i); } else { FloatChars(v.f); }
  }

  lemma {:induction false} PrintAscii(v: Json)
    requires Valid(v)
    ensures AllAscii(Print(v))
    decreases v, 1
  {
    hide AllAscii, Quote, NumberText;
    match v
    case Null => WordAscii();
    case Bool(_) => WordAscii();
    case Int(_) => NumberAscii(v);
    case Number(_) => NumberAscii(v);
    case Str(s) => QuoteAscii(s);
    case Arr(items) =>
      BracketAscii();
      if items != [] { ItemsAscii(items); }
      JoinAscii(['['], if items == [] then [']'] else PrintItems(items));
    case Obj(fs) =>
      BracketAscii();
      if fs != [] { FieldsAscii(fs); }
      JoinAscii(['{'], if fs == [] then ['}'] else PrintFields(fs));
  }

  lemma WordAscii()
    ensures AllAscii("null") && AllAscii("true") && AllAscii("false")
  {
  }

  lemma BracketAscii()
    ensures AllAscii(['[']) && AllAscii([']']) && AllAscii(['{']) && AllAscii(['}']) && AllAscii([',']) && AllAscii([':'])
  {
  }

  lemma {:induction false} ItemsAscii(items: seq<Json>)
    requires items != [] && forall i :: 0 <= i < |items| ==> Valid(items[i])
    ensures AllAscii(PrintItems(items))
    decreases items, 0
  {
    hide AllAscii, Print;
    BracketAscii();
    PrintAscii(items[0]);
    if |items| == 1 {
      JoinAscii(Print(items[0]), [']']);
    } else {
      ItemsAscii(items[1..]);
      JoinAscii([','], PrintItems(items[1..]));
      JoinAscii(Print(items[0]), [','] + PrintItems(items[1..]));
    }
  }

  lemma {:induction false} FieldsAscii(fs: seq<Field>)
    requires fs != [] && forall i :: 0 <= i < |fs| ==> Valid(fs[i].value)
    ensures AllAscii(PrintFields(fs))
    decreases fs, 0
  {
    hide AllAscii, Print, Quote;
    BracketAscii();
    var f := fs[0];
    QuoteAscii(f.key);
    PrintAscii(f.value);
    JoinAscii([':'], Print(f.value));
    JoinAscii(Quote(f.key), [':'] + Print(f.value));
    if |fs| == 1 {
      JoinAscii(PrintField(f), ['}']);
    } else {
      FieldsAscii(fs[1..]);
      JoinAscii([','], PrintFields(fs[1..]));
      JoinAscii(PrintField(f), [','] + PrintFields(fs[1..]));
    }
  }
}
