/** Decimal text: integers, and floats re-notated from the shortest-digits printer's
    output to the reference implementation's notation. */
module Decimal {

  // ------------------------------------------------------------------ integers

  predicate IsDigit(c: char) { '0' <= c <= '9' }

  predicate AllDigits(s: string) { forall i :: 0 <= i < |s| ==> IsDigit(s[i]) }

  function DigitValue(c: char): nat
    requires IsDigit(c)
  { c as int - '0' as int }

  function DigitChar(d: nat): (c: char)
    requires d < 10
    ensures IsDigit(c) && DigitValue(c) == d
  { ('0' as int + d) as char }

  function NatOf(s: string): nat
    requires AllDigits(s)
  {
    if s == "" then 0 else NatOf(s[..|s| - 1]) * 10 + DigitValue(s[|s| - 1])
  }

  function NatText(n: nat): (s: string)
    ensures AllDigits(s) && s != ""
  { if n < 10 then [DigitChar(n)] else NatText(n / 10) + [DigitChar(n % 10)] }

  lemma NatOfSnoc(s: string, c: char)
    requires AllDigits(s) && IsDigit(c)
    ensures AllDigits(s + [c]) && NatOf(s + [c]) == NatOf(s) * 10 + DigitValue(c)
  {
    assert (s + [c])[..|s|] == s;
  }

  lemma {:induction false} NatTextValue(n: nat)
    ensures NatOf(NatText(n)) == n
  {
    if n < 10 {
      NatOfSnoc("", DigitChar(n));
      assert "" + [DigitChar(n)] == [DigitChar(n)];
    } else {
      NatTextValue(n / 10);
      NatOfSnoc(NatText(n / 10), DigitChar(n % 10));
    }
  }

  /** `{:02}` formatting. */
  function TwoDigits(n: nat): (s: string)
    ensures AllDigits(s) && s != ""
  { if n < 10 then "0" + NatText(n) else NatText(n) }

  lemma TwoDigitsValue(n: nat)
    ensures NatOf(TwoDigits(n)) == n
  {
    NatTextValue(n);
    PrependZero(NatText(n));
  }

  function IntText(i: int): string {
    if i < 0 then "-" + NatText(-i) else NatText(i)
  }

  predicate IsSignedInt(s: string) {
    s != "" && if s[0] == '-' || s[0] == '+' then |s| > 1 && AllDigits(s[1..]) else AllDigits(s)
  }

  function IntOf(s: string): int
    requires IsSignedInt(s)
  {
    if s[0] == '-' then 0 - NatOf(s[1..]) else if s[0] == '+' then NatOf(s[1..]) else NatOf(s)
  }

  lemma IntRoundTrip(i: int)
    ensures IsSignedInt(IntText(i)) && IntOf(IntText(i)) == i
  {
    hide NatOf, NatText;
    NatTextValue(if i < 0 then -i else i);
    assert i < 0 ==> IntText(i)[1..] == NatText(-i);
  }

  // ------------------------------------------------------------- powers of ten

  /** `r` times ten to the `e`. */
  function Scale(r: real, e: int): real
    decreases if e < 0 then -e else e
  {
    if e == 0 then r else if e > 0 then 10.0 * Scale(r, e - 1) else Scale(r, e + 1) / 10.0
  }

  lemma {:induction false} ScaleTen(r: real, e: int)
    ensures Scale(10.0 * r, e) == 10.0 * Scale(r, e)
    decreases if e < 0 then -e else e
  {
    if e > 0 { ScaleTen(r, e - 1); } else if e < 0 { ScaleTen(r, e + 1); }
  }

  lemma {:induction false} ScaleAdd(r: real, k: nat, e: int)
    ensures Scale(Scale(r, k), e) == Scale(r, e + k)
    decreases k
  {
    if k == 0 {
    } else {
      ScaleTen(Scale(r, k - 1), e);
      ScaleAdd(r, k - 1, e);
      assert Scale(r, e + k - 1) * 10.0 == Scale(r, e + k);
    }
  }

  lemma {:induction false} ScaleSign(r: real, e: int)
    ensures r == 0.0 ==> Scale(r, e) == 0.0
    ensures r > 0.0 ==> Scale(r, e) > 0.0
    decreases if e < 0 then -e else e
  {
    if e > 0 { ScaleSign(r, e - 1); } else if e < 0 { ScaleSign(r, e + 1); }
  }

  // ------------------------------------------------------------ trimming zeros

  function Zeros(n: nat): (s: string)
    ensures |s| == n
  { if n == 0 then "" else "0" + Zeros(n - 1) }

  function StripLeading(s: string): (t: string)
    ensures |t| <= |s| && (t != "" ==> t[0] != '0')
  { if s != "" && s[0] == '0' then StripLeading(s[1..]) else s }

  function StripTrailing(s: string): (t: string)
    ensures |t| <= |s| && (t != "" ==> t[|t| - 1] != '0')
  { if s != "" && s[|s| - 1] == '0' then StripTrailing(s[..|s| - 1]) else s }

  /** Both ends trimmed of zeros; the digits of zero itself trim to nothing. */
  function TrimZeros(s: string): string { StripTrailing(StripLeading(s)) }

  lemma {:induction false} StripLeadingValue(s: string)
    requires AllDigits(s)
    ensures AllDigits(StripLeading(s)) && NatOf(StripLeading(s)) == NatOf(s)
  {
    if s != "" && s[0] == '0' {
      StripLeadingValue(s[1..]);
      PrependZero(s[1..]);
      assert "0" + s[1..] == s;
    }
  }

  lemma {:induction false} PrependZero(s: string)
    requires AllDigits(s)
    ensures AllDigits("0" + s) && NatOf("0" + s) == NatOf(s)
  {
    if s == "" {
      assert ("0" + s)[..0] == "";
    } else {
      PrependZero(s[..|s| - 1]);
      assert ("0" + s)[..|s|] == "0" + s[..|s| - 1];
    }
  }

  lemma {:induction false} StripTrailingValue(s: string)
    requires AllDigits(s)
    ensures AllDigits(StripTrailing(s))
    ensures NatOf(s) as real == Scale(NatOf(StripTrailing(s)) as real, |s| - |StripTrailing(s)|)
  {
    if s != "" && s[|s| - 1] == '0' {
      var front := s[..|s| - 1];
      StripTrailingValue(front);
      assert NatOf(s) == NatOf(front) * 10;
      assert NatOf(s) as real == NatOf(front) as real * 10.0;
    }
  }

  /** Stripping trailing zeros keeps the first digit. */
  lemma {:induction false} StripTrailingHead(s: string)
    requires s != "" && s[0] != '0'
    ensures StripTrailing(s) != "" && StripTrailing(s)[0] == s[0]
  {
    if s[|s| - 1] == '0' { StripTrailingHead(s[..|s| - 1]); }
  }

  lemma {:induction false} StripLeadingOf(n: nat, s: string)
    requires s != "" && s[0] != '0'
    ensures StripLeading(Zeros(n) + s) == s
  {
    if n == 0 {
      assert Zeros(n) + s == s;
    } else {
      StripLeadingOf(n - 1, s);
      assert (Zeros(n) + s)[1..] == Zeros(n - 1) + s;
    }
  }

  lemma {:induction false} ZerosSnoc(n: nat)
    ensures Zeros(n + 1) == Zeros(n) + "0"
  {
    if n == 0 {
    } else {
      ZerosSnoc(n - 1);
    }
  }

  lemma {:induction false} ZerosAreDigits(n: nat)
    ensures AllDigits(Zeros(n))
  {
    if n == 0 {
    } else {
      ZerosAreDigits(n - 1);
    }
  }

  lemma {:induction false} StripTrailingOf(s: string, n: nat)
    requires s != "" && s[|s| - 1] != '0'
    ensures StripTrailing(s + Zeros(n)) == s
  {
    if n == 0 {
      assert s + Zeros(n) == s;
    } else {
      ZerosSnoc(n - 1);
      StripTrailingOf(s, n - 1);
      StripOne(s + Zeros(n - 1), s + Zeros(n)) by { assert s + Zeros(n) == s + Zeros(n - 1) + "0"; }
    }
  }

  lemma StripOne(s: string, t: string)
    requires t == s + "0"
    ensures StripTrailing(t) == StripTrailing(s)
  {
    assert t[..|t| - 1] == s;
  }

  // -------------------------------------------------------------------- floats

  /** Index of the first `c`, or the length. */
  function Find(s: string, c: char): (i: nat)
    ensures i <= |s| && (i < |s| ==> s[i] == c) && forall j :: 0 <= j < i ==> s[j] != c
  { if s == "" || s[0] == c then 0 else 1 + Find(s[1..], c) }

  lemma {:induction false} FindAt(a: string, c: char, b: string)
    requires c !in a
    ensures Find(a + [c] + b, c) == |a|
  {
    if a == "" {
    } else {
      FindAt(a[1..], c, b);
      assert (a + [c] + b)[1..] == a[1..] + [c] + b;
    }
  }

  lemma {:induction false} FindNone(a: string, c: char)
    requires c !in a
    ensures Find(a, c) == |a|
  {
    if a == "" {
    } else {
      FindNone(a[1..], c);
    }
  }

  /** A float's decimal: significant digits with no zero at either end (zero itself is
      the digit 0), and the power of ten of the first of them. */
  datatype Float = Float(neg: bool, sig: string, lead: int)

  predicate WellFormed(f: Float) {
    AllDigits(f.sig) && f.sig != "" &&
    ((f.sig == "0" && f.lead == 0) || (f.sig[0] != '0' && f.sig[|f.sig| - 1] != '0'))
  }

  /** Decimal text taken apart as the printer's output is: sign, digits before and
      after the point, exponent. */
  datatype Parts = Parts(neg: bool, ip: string, fp: string, exp: int)

  function Body(s: string): string { if s != "" && s[0] == '-' then s[1..] else s }
  function Mantissa(b: string): string { b[..Find(b, 'e')] }

  /** Digits, an optional point with digits after it, an optional exponent. */
  predicate IsBody(b: string) {
    IsMantissa(Mantissa(b)) && (Find(b, 'e') < |b| ==> IsSignedInt(b[Find(b, 'e') + 1..]))
  }

  predicate IsMantissa(m: string) {
    && m[..Find(m, '.')] != "" && AllDigits(m[..Find(m, '.')])
    && (Find(m, '.') < |m| ==> AllDigits(m[Find(m, '.') + 1..]))
  }

  predicate IsDecimalText(s: string) { IsBody(Body(s)) }

  function Fraction(m: string): string { if Find(m, '.') < |m| then m[Find(m, '.') + 1..] else "" }

  function Exponent(b: string): int
    requires IsBody(b)
  { if Find(b, 'e') < |b| then IntOf(b[Find(b, 'e') + 1..]) else 0 }

  function Split(s: string): (p: Parts)
    requires IsDecimalText(s)
    ensures PartsOk(p)
  {
    var m := Mantissa(Body(s));
    Parts(s != "" && s[0] == '-', m[..Find(m, '.')], Fraction(m), Exponent(Body(s)))
  }

  function Signed(neg: bool, r: real): real { if neg then -r else r }

  predicate PartsOk(p: Parts) { p.ip != "" && AllDigits(p.ip + p.fp) }

  function PartsValue(p: Parts): real
    requires PartsOk(p)
  { Signed(p.neg, Scale(NatOf(p.ip + p.fp) as real, p.exp - |p.fp|)) }

  /** The number a decimal text denotes. */
  function TextValue(s: string): real
    requires IsDecimalText(s)
  { PartsValue(Split(s)) }

  function FloatValue(f: Float): real
    requires WellFormed(f)
  { Signed(f.neg, Scale(NatOf(f.sig) as real, f.lead + 1 - |f.sig|)) }

  function Significant(combined: string): string {
    if TrimZeros(combined) == "" then "0" else TrimZeros(combined)
  }

  /** Index of the first digit that is not zero; 0 when there is none. */
  function FirstNonzero(combined: string): int {
    if StripLeading(combined) == "" then 0 else |combined| - |StripLeading(combined)|
  }

  /** Significant digits, and where the first of them stands. */
  function FloatOf(p: Parts): Float {
    Float(p.neg, Significant(p.ip + p.fp), |p.ip| - 1 - FirstNonzero(p.ip + p.fp) + p.exp)
  }

  function Normalize(s: string): (f: Float)
    requires IsDecimalText(s)
  { FloatOf(Split(s)) }

  lemma TrimValue(c: string)
    requires AllDigits(c) && NatOf(c) != 0
    ensures StripLeading(c) != "" && TrimZeros(c) != "" && TrimZeros(c)[0] != '0' && AllDigits(TrimZeros(c))
    ensures NatOf(c) as real == Scale(NatOf(TrimZeros(c)) as real, |StripLeading(c)| - |TrimZeros(c)|)
  {
    StripLeadingValue(c);
    StripTrailingValue(StripLeading(c));
    StripTrailingHead(StripLeading(c));
  }

  lemma PartsKeepValue(p: Parts)
    requires PartsOk(p) && PartsValue(p) != 0.0
    ensures WellFormed(FloatOf(p)) && FloatValue(FloatOf(p)) == PartsValue(p) && FloatOf(p).sig != "0"
  {
    var c := p.ip + p.fp;
    ScaleSign(0.0, p.exp - |p.fp|);
    TrimValue(c);
    ScaleAdd(NatOf(TrimZeros(c)) as real, |StripLeading(c)| - |TrimZeros(c)|, p.exp - |p.fp|);
  }

  /** Taking decimal text apart keeps the number. */
  lemma NormalizeKeepsValue(s: string)
    requires IsDecimalText(s) && TextValue(s) != 0.0
    ensures WellFormed(Normalize(s)) && FloatValue(Normalize(s)) == TextValue(s) && Normalize(s).sig != "0"
  {
    PartsKeepValue(Split(s));
  }

  // ------------------------------------------------------------------ notation

  function SignText(neg: bool): string { if neg then "-" else "" }

  predicate Positional(f: Float) { -4 <= f.lead < 16 }

  function MantissaText(f: Float): string
    requires f.sig != ""
  { if |f.sig| == 1 then f.sig else f.sig[..1] + "." + f.sig[1..] }

  function ExponentText(lead: int): string {
    (if lead < 0 then "-" else "+") + TwoDigits(if lead < 0 then -lead else lead)
  }

  /** The integer and fractional digits of the positional forms. */
  function IntegerDigits(f: Float): string
    requires f.sig != "" && Positional(f)
  {
    if f.lead < 0 then "0"
    else if f.lead + 1 >= |f.sig| then f.sig + Zeros(f.lead + 1 - |f.sig|)
    else f.sig[..f.lead + 1]
  }

  function FractionDigits(f: Float): string
    requires f.sig != "" && Positional(f)
  {
    if f.lead < 0 then Zeros(-f.lead - 1) + f.sig
    else if f.lead + 1 >= |f.sig| then "0"
    else f.sig[f.lead + 1..]
  }

  function Unsigned(f: Float): string
    requires f.sig != ""
  {
    if Positional(f) then IntegerDigits(f) + "." + FractionDigits(f)
    else MantissaText(f) + "e" + ExponentText(f.lead)
  }

  function Render(f: Float): string
    requires f.sig != ""
  { SignText(f.neg) + Unsigned(f) }

  lemma SignedBody(neg: bool, u: string)
    requires u != "" && u[0] != '-'
    ensures Body(SignText(neg) + u) == u && ((SignText(neg) + u)[0] == '-' <==> neg)
  {
    assert neg ==> (SignText(neg) + u)[1..] == u;
  }

  function Join(ip: string, fp: string, point: bool, ex: string): string {
    (if point then ip + ['.'] + fp else ip) + (if ex != "" then ['e'] + ex else "")
  }

  lemma NoLetters(s: string)
    requires AllDigits(s)
    ensures 'e' !in s && '.' !in s
  {
  }

  lemma ExponentFind(m: string, ex: string, b: string)
    requires 'e' !in m && IsMantissa(m) && b == m + (if ex != "" then ['e'] + ex else "")
    requires ex != "" ==> IsSignedInt(ex)
    ensures Mantissa(b) == m && IsBody(b) && Exponent(b) == if ex != "" then IntOf(ex) else 0
  {
    if ex != "" {
      FindAt(m, 'e', ex);
      assert b == m + ['e'] + ex;
      assert b[|m| + 1..] == ex;
    } else {
      FindNone(m, 'e');
      assert b == m;
    }
  }

  lemma PointFind(ip: string, fp: string, point: bool, m: string)
    requires ip != "" && AllDigits(ip) && AllDigits(fp) && (!point ==> fp == "")
    requires m == if point then ip + ['.'] + fp else ip
    ensures m[..Find(m, '.')] == ip && Fraction(m) == fp && IsMantissa(m) && 'e' !in m
  {
    NoLetters(ip);
    NoLetters(fp);
    if point {
      FindAt(ip, '.', fp);
      assert m[|ip| + 1..] == fp;
    } else {
      FindNone(ip, '.');
    }
  }

  /** What a mantissa `ip.fp` and an exponent text split into. */
  lemma SplitOf(neg: bool, ip: string, fp: string, point: bool, ex: string)
    requires ip != "" && AllDigits(ip) && AllDigits(fp) && (!point ==> fp == "")
    requires ex != "" ==> IsSignedInt(ex)
    ensures IsDecimalText(SignText(neg) + Join(ip, fp, point, ex))
    ensures Split(SignText(neg) + Join(ip, fp, point, ex)) == Parts(neg, ip, fp, if ex != "" then IntOf(ex) else 0)
  {
    var m := if point then ip + ['.'] + fp else ip;
    PointFind(ip, fp, point, m);
    ExponentFind(m, ex, Join(ip, fp, point, ex));
    JoinHead(ip, fp, point, ex);
    SplitSigned(neg, Join(ip, fp, point, ex), m);
  }

  lemma SplitSigned(neg: bool, b: string, m: string)
    requires b != "" && b[0] != '-' && IsBody(b) && Mantissa(b) == m
    ensures IsDecimalText(SignText(neg) + b)
    ensures Split(SignText(neg) + b) == Parts(neg, m[..Find(m, '.')], Fraction(m), Exponent(b))
  {
    SignedBody(neg, b);
  }

  lemma JoinHead(ip: string, fp: string, point: bool, ex: string)
    requires ip != ""
    ensures Join(ip, fp, point, ex) != "" && Join(ip, fp, point, ex)[0] == ip[0]
  {
  }

  /** Digits padded with zeros on both sides trim back. */
  lemma TrimOf(n: nat, s: string, k: nat, c: string)
    requires s != "" && s[0] != '0' && s[|s| - 1] != '0'
    requires c == Zeros(n) + s + Zeros(k)
    ensures FirstNonzero(c) == n && Significant(c) == s
  {
    assert c == Zeros(n) + (s + Zeros(k));
    StripLeadingOf(n, s + Zeros(k));
    StripTrailingOf(s, k);
  }

  lemma ZeroDigits()
    ensures FirstNonzero("00") == 0 && Significant("00") == "0"
  {
    assert "00"[1..] == "0" && "0"[1..] == "";
    assert StripLeading("00") == StripLeading("0") == StripLeading("") == "";
  }

  lemma SmallDigits(f: Float)
    requires WellFormed(f) && -4 <= f.lead < 0
    ensures AllDigits(FractionDigits(f))
    ensures Significant(IntegerDigits(f) + FractionDigits(f)) == f.sig
    ensures FirstNonzero(IntegerDigits(f) + FractionDigits(f)) == -f.lead
  {
    ZerosAreDigits(-f.lead - 1);
    var c := IntegerDigits(f) + FractionDigits(f);
    TrimOf(-f.lead, f.sig, 0, c) by { assert c == Zeros(-f.lead) + f.sig + Zeros(0); }
  }

  lemma WholeDigits(f: Float)
    requires WellFormed(f) && 0 <= f.lead < 16 && f.lead + 1 >= |f.sig|
    ensures AllDigits(IntegerDigits(f)) && |IntegerDigits(f)| == f.lead + 1
    ensures Significant(IntegerDigits(f) + FractionDigits(f)) == f.sig
    ensures FirstNonzero(IntegerDigits(f) + FractionDigits(f)) == 0
  {
    var pad := f.lead + 1 - |f.sig|;
    var c := IntegerDigits(f) + FractionDigits(f);
    ZerosAreDigits(pad);
    ZerosSnoc(pad);
    if f.sig == "0" {
      assert c == "00";
      ZeroDigits();
    } else {
      TrimOf(0, f.sig, pad + 1, c) by { assert c == Zeros(0) + f.sig + Zeros(pad + 1); }
    }
  }

  lemma MixedDigits(sig: string, k: nat)
    requires k <= |sig| && sig != "" && sig[0] != '0' && sig[|sig| - 1] != '0'
    ensures Significant(sig[..k] + sig[k..]) == sig && FirstNonzero(sig[..k] + sig[k..]) == 0
  {
    var c := sig[..k] + sig[k..];
    TrimOf(0, sig, 0, c) by { assert c == Zeros(0) + sig + Zeros(0); }
  }

  lemma MixedFloat(f: Float)
    requires WellFormed(f) && 0 <= f.lead < 16 && f.lead + 1 < |f.sig|
    ensures AllDigits(IntegerDigits(f)) && AllDigits(FractionDigits(f)) && |IntegerDigits(f)| == f.lead + 1
    ensures Significant(IntegerDigits(f) + FractionDigits(f)) == f.sig
    ensures FirstNonzero(IntegerDigits(f) + FractionDigits(f)) == 0
  {
    MixedDigits(f.sig, f.lead + 1);
  }

  lemma PositionalDigits(f: Float)
    requires WellFormed(f) && Positional(f)
    ensures IntegerDigits(f) != "" && AllDigits(IntegerDigits(f)) && AllDigits(FractionDigits(f))
    ensures FloatOf(Parts(f.neg, IntegerDigits(f), FractionDigits(f), 0)) == f
  {
    if f.lead < 0 {
      SmallDigits(f);
    } else if f.lead + 1 >= |f.sig| {
      WholeDigits(f);
    } else {
      MixedFloat(f);
    }
  }

  lemma ExponentValue(lead: int)
    ensures IsSignedInt(ExponentText(lead)) && IntOf(ExponentText(lead)) == lead
  {
    hide NatOf, TwoDigits;
    var n := if lead < 0 then -lead else lead;
    TwoDigitsValue(n);
    assert ExponentText(lead)[1..] == TwoDigits(n);
  }

  /** The notation, as the mantissa and exponent it is joined from. */
  lemma RenderIsJoin(f: Float)
    requires WellFormed(f)
    ensures Positional(f) ==> Unsigned(f) == Join(IntegerDigits(f), FractionDigits(f), true, "")
    ensures !Positional(f) ==> Unsigned(f) == Join(f.sig[..1], f.sig[1..], |f.sig| > 1, ExponentText(f.lead))
  {
    if Positional(f) {
      assert Unsigned(f) + "" == Unsigned(f);
    } else {
      assert f.sig[..1] + f.sig[1..] == f.sig;
      assert MantissaText(f) == if |f.sig| > 1 then f.sig[..1] + ['.'] + f.sig[1..] else f.sig[..1];
      assert MantissaText(f) + "e" + ExponentText(f.lead) == MantissaText(f) + (['e'] + ExponentText(f.lead));
    }
  }

  /** Reading the notation back gives the decimal it was written from, so distinct
      floats never share a text. */
  lemma RenderRoundTrip(f: Float)
    requires WellFormed(f)
    ensures IsDecimalText(Render(f)) && Normalize(Render(f)) == f
  {
    if Positional(f) { PositionalRoundTrip(f); } else { ScientificRoundTrip(f); }
  }

  lemma PositionalRoundTrip(f: Float)
    requires WellFormed(f) && Positional(f)
    ensures IsDecimalText(Render(f)) && Normalize(Render(f)) == f
  {
    RenderIsJoin(f);
    PositionalDigits(f);
    SplitOf(f.neg, IntegerDigits(f), FractionDigits(f), true, "");
  }

  lemma ScientificRoundTrip(f: Float)
    requires WellFormed(f) && !Positional(f)
    ensures IsDecimalText(Render(f)) && Normalize(Render(f)) == f
  {
    hide Unsigned, ExponentText, IsDecimalText, Split, Join, SignText, IntOf, Significant, FirstNonzero;
    var front, back := f.sig[..1], f.sig[1..];
    RenderIsJoin(f);
    ExponentValue(f.lead);
    SplitOf(f.neg, front, back, |f.sig| > 1, ExponentText(f.lead));
    MixedDigits(f.sig, 1);
  }

  /** The re-notation `py_float` applies to the printer's text. */
  function PyFloat(s: string): (t: string)
    requires IsDecimalText(s)
  { Render(Normalize(s)) }

  // -------------------------------------------------------------------- magnitude

  lemma {:induction false} ScaleMonotone(r: real, t: real, e: int)
    ensures r <= t ==> Scale(r, e) <= Scale(t, e)
    ensures r < t ==> Scale(r, e) < Scale(t, e)
    decreases if e < 0 then -e else e
  {
    if e > 0 { ScaleMonotone(r, t, e - 1); } else if e < 0 { ScaleMonotone(r, t, e + 1); }
  }

  lemma ScaleStep(r: real, e: int)
    ensures Scale(r, e + 1) == 10.0 * Scale(r, e)
  {
  }

  lemma {:induction false} PowersRise(d: int, e: int)
    requires d <= e
    ensures Scale(1.0, d) <= Scale(1.0, e)
    decreases e - d
  {
    if d == e {
    } else {
      PowersRise(d, e - 1);
      ScaleSign(1.0, e - 1);
      ScaleStep(1.0, e - 1);
    }
  }

  /** A number of m digits, the first not zero, lies between 10^(m-1) and 10^m. */
  lemma {:induction false} DigitsBound(s: string)
    requires AllDigits(s) && s != "" && s[0] != '0'
    ensures Scale(1.0, |s| - 1) <= NatOf(s) as real
    ensures NatOf(s) as real + 1.0 <= Scale(1.0, |s|)
  {
    var n := |s| - 1;
    ScaleStep(1.0, n);
    if n == 0 {
      assert s[..0] == "";
    } else {
      DigitsBound(s[..n]);
      ScaleStep(1.0, n - 1);
      TenTimes(NatOf(s[..n]), DigitValue(s[n]));
    }
  }

  lemma TenTimes(n: nat, d: nat)
    requires d < 10
    ensures 10.0 * n as real <= (n * 10 + d) as real
    ensures (n * 10 + d) as real + 1.0 <= 10.0 * (n as real + 1.0)
  {
    assert (n * 10 + d) as real == n as real * 10.0 + d as real;
  }

  function Size(r: real): real { if r < 0.0 then -r else r }

  /** The leading exponent is the number's order of magnitude. */
  lemma LeadIsMagnitude(f: Float)
    requires WellFormed(f) && f.sig[0] != '0'
    ensures Scale(1.0, f.lead) <= Size(FloatValue(f)) < Scale(1.0, f.lead + 1)
  {
    hide Scale, NatOf;
    var m, e := |f.sig|, f.lead + 1 - |f.sig|;
    var n := NatOf(f.sig) as real;
    DigitsBound(f.sig);
    ScaleMonotone(Scale(1.0, m - 1), n, e);
    ScaleMonotone(n, Scale(1.0, m), e);
    ScaleAdd(1.0, m - 1, e);
    ScaleAdd(1.0, m, e);
    ScaleSign(n, e);
    ScaleSign(1.0, f.lead);
  }

  const SMALLEST_POSITIONAL: real := 0.0001
  const SMALLEST_SCIENTIFIC: real := 10000000000000000.0

  lemma Bounds()
    ensures Scale(1.0, -4) == SMALLEST_POSITIONAL && Scale(1.0, 16) == SMALLEST_SCIENTIFIC
  {
    assert Scale(1.0, -2) == 0.01;
    assert Scale(1.0, 4) == 10000.0;
    assert Scale(1.0, 8) == 100000000.0;
    assert Scale(1.0, 12) == 1000000000000.0;
  }

  /** Positional notation is for sizes from 10^-4 up to below 10^16. */
  lemma PositionalIsSize(f: Float)
    requires WellFormed(f) && f.sig[0] != '0'
    ensures Positional(f) <==> SMALLEST_POSITIONAL <= Size(FloatValue(f)) < SMALLEST_SCIENTIFIC
  {
    hide Scale, FloatValue;
    LeadIsMagnitude(f);
    Bounds();
    if f.lead >= -4 { PowersRise(-4, f.lead); } else { PowersRise(f.lead + 1, -4); }
    if f.lead >= 16 { PowersRise(16, f.lead); } else { PowersRise(f.lead + 1, 16); }
  }

  /** For every nonzero decimal text the re-notation denotes exactly the same number, is a
      fixed point of itself, and is positional exactly for sizes in [10^-4, 10^16). */
  lemma PyFloatKeepsValue(s: string)
    requires IsDecimalText(s) && TextValue(s) != 0.0
    ensures IsDecimalText(PyFloat(s)) && TextValue(PyFloat(s)) == TextValue(s)
    ensures PyFloat(PyFloat(s)) == PyFloat(s)
    ensures 'e' !in PyFloat(s) <==> SMALLEST_POSITIONAL <= Size(TextValue(s)) < SMALLEST_SCIENTIFIC
    ensures '.' in PyFloat(s) || 'e' in PyFloat(s)
  {
    hide Render, IsDecimalText, Split, FloatValue, PartsValue, FloatOf;
    NormalizeKeepsValue(s);
    var f := Normalize(s);
    RenderRoundTrip(f);
    RenderIsMarked(f);
    NonzeroFloat(f);
    PositionalIsSize(f);
    ReadsNonzero(f);
  }

  lemma NonzeroFloat(f: Float)
    requires WellFormed(f) && FloatValue(f) != 0.0
    ensures f.sig[0] != '0'
  {
    if f.sig == "0" { ZeroIsZero(f); }
  }

  lemma ZeroIsZero(f: Float)
    requires WellFormed(f) && f.sig == "0"
    ensures FloatValue(f) == 0.0
  {
    NatOfSnoc("", '0');
    assert "" + ['0'] == f.sig;
    ScaleSign(0.0, f.lead + 1 - |f.sig|);
  }

  /** What is written of a nonzero decimal reads as that number. */
  lemma ReadsNonzero(f: Float)
    requires WellFormed(f) && f.sig[0] != '0' && IsDecimalText(Render(f)) && Normalize(Render(f)) == f
    ensures TextValue(Render(f)) == FloatValue(f)
  {
    hide Render, IsDecimalText, Split;
    NonzeroParts(Split(Render(f)));
    PartsKeepValue(Split(Render(f)));
  }

  /** Parts that read as a nonzero decimal are nonzero. */
  lemma NonzeroParts(p: Parts)
    requires PartsOk(p) && FloatOf(p).sig != "0"
    ensures PartsValue(p) != 0.0
  {
    NonzeroDigits(p.ip + p.fp);
    ScaleSign(NatOf(p.ip + p.fp) as real, p.exp - |p.fp|);
  }

  lemma {:induction false} NonzeroDigits(s: string)
    requires AllDigits(s) && StripLeading(s) != ""
    ensures NatOf(s) > 0
  {
    StripLeadingValue(s);
    LeadingDigitCounts(StripLeading(s));
  }

  lemma {:induction false} LeadingDigitCounts(s: string)
    requires AllDigits(s) && s != "" && s[0] != '0'
    ensures NatOf(s) > 0
  {
    if |s| <= 1 {
    } else {
      LeadingDigitCounts(s[..|s| - 1]);
    }
  }

  /** A float's text shows it is one: it has a point or an exponent, and has an
      exponent exactly outside the positional range. */
  lemma RenderIsMarked(f: Float)
    requires WellFormed(f)
    ensures '.' in Render(f) || 'e' in Render(f)
    ensures 'e' in Render(f) <==> !Positional(f)
  {
    if Positional(f) {
      PositionalDigits(f);
      NoLetters(IntegerDigits(f));
      NoLetters(FractionDigits(f));
      Middle(IntegerDigits(f), '.', FractionDigits(f));
    } else {
      Middle(MantissaText(f), 'e', ExponentText(f.lead));
    }
    assert forall c :: c in Render(f) <==> c in SignText(f.neg) || c in Unsigned(f);
  }

  lemma Middle(a: string, c: char, b: string)
    ensures c in a + [c] + b
    ensures forall d :: d in a + [c] + b <==> d in a || d == c || d in b
  {
    assert (a + [c] + b)[|a|] == c;
  }

  /** `py_float` over the printer's text, pushing characters as it goes. */
  method WriteFloat(s: string) returns (out: string)
    requires IsDecimalText(s)
    ensures out == PyFloat(s)
  {
    var p := Split(s);
    var combined := p.ip + p.fp;
    var lead := |p.ip| - 1 - FirstNonzero(combined);
    lead := lead + p.exp;
    var sig := Significant(combined);
    out := WriteNotation(p.neg, sig, lead);
  }

  /** Zero needs no branch of its own: its early return is what the general path writes. */
  lemma ZeroText(neg: bool)
    ensures Render(Float(neg, "0", 0)) == SignText(neg) + "0.0"
  {
    var f := Float(neg, "0", 0);
    assert IntegerDigits(f) == "0" && FractionDigits(f) == "0";
    assert "0" + "." + "0" == "0.0";
  }

  method WriteNotation(neg: bool, sig: string, lead: int) returns (out: string)
    requires sig != ""
    ensures out == Render(Float(neg, sig, lead))
  {
    if lead >= 16 || lead < -4 {
      var mantissa := if |sig| == 1 then sig else sig[..1] + "." + sig[1..];
      var esign := if lead < 0 then "-" else "+";
      var eabs := if lead < 0 then -lead else lead;
      out := SignText(neg) + (mantissa + "e" + (esign + TwoDigits(eabs)));
    } else {
      if lead < 0 {
        out := "0" + ".";
        out := PushZeros(out, -lead - 1);
        out := out + sig;
        assert out == "0" + "." + (Zeros(-lead - 1) + sig);
      } else if lead + 1 >= |sig| {
        out := PushZeros(sig, lead + 1 - |sig|);
        out := out + "." + "0";
      } else {
        out := sig[..lead + 1] + ".";
        out := out + sig[lead + 1..];
      }
      out := SignText(neg) + out;
    }
  }

  method PushZeros(prefix: string, n: nat) returns (out: string)
    ensures out == prefix + Zeros(n)
  {
    out := prefix;
    var i := 0;
    while i < n
      invariant 0 <= i <= n && out == prefix + Zeros(i)
    {
      ZerosSnoc(i);
      out := out + "0";
      i := i + 1;
    }
  }

  // ------------------------------------------------------------------------ the shape

  lemma {:induction false} NatTextLead(n: nat)
    ensures |NatText(n)| > 1 ==> NatText(n)[0] != '0'
    ensures n >= 10 ==> |NatText(n)| > 1
    ensures n < 10 ==> |NatText(n)| == 1
  {
    if n < 10 {
    } else {
      NatTextLead(n / 10);
      if n / 10 < 10 { assert NatText(n / 10) == [DigitChar(n / 10)] && n / 10 > 0; }
    }
  }

  /** Two digits at least, and no zero in front of more. */
  predicate IsExponentDigits(s: string) { |s| >= 2 && AllDigits(s) && (|s| > 2 ==> s[0] != '0') }

  lemma TwoDigitsShape(n: nat)
    ensures IsExponentDigits(TwoDigits(n))
  {
    NatTextLead(n);
  }

  predicate IsWhole(s: string) { s != "" && AllDigits(s) && (|s| > 1 ==> s[0] != '0') }

  predicate IsFraction(s: string) { s != "" && AllDigits(s) && (|s| > 1 ==> s[|s| - 1] != '0') }

  /** Digits on both sides of a point, none to spare. */
  ghost predicate PositionalShape(t: string, ip: string, fp: string) { t == ip + "." + fp && IsWhole(ip) && IsFraction(fp) }

  /** One digit that is not zero, a fraction if there is more, and an exponent with its sign. */
  ghost predicate ScientificShape(t: string, d: char, fp: string, down: bool, ex: string) {
    && t == [d] + (if fp == "" then "" else "." + fp) + "e" + (if down then "-" else "+") + ex
    && IsDigit(d) && d != '0'
    && (fp == "" || (AllDigits(fp) && fp[|fp| - 1] != '0'))
    && IsExponentDigits(ex)
  }

  lemma ZerosShape(n: nat, s: string)
    requires s != "" && AllDigits(s)
    ensures AllDigits(Zeros(n)) && AllDigits(s + Zeros(n)) && AllDigits(Zeros(n) + s)
  {
    ZerosAreDigits(n);
  }

  lemma PositionalText(f: Float) returns (ip: string, fp: string)
    requires WellFormed(f) && Positional(f)
    ensures PositionalShape(Unsigned(f), ip, fp)
  {
    hide Zeros;
    ip, fp := IntegerDigits(f), FractionDigits(f);
    if f.lead < 0 {
      ZerosShape(-f.lead - 1, f.sig);
    } else if f.lead + 1 >= |f.sig| {
      ZerosShape(f.lead + 1 - |f.sig|, f.sig);
    }
  }

  lemma ScientificText(f: Float) returns (fp: string, ex: string)
    requires WellFormed(f) && !Positional(f)
    ensures ScientificShape(Unsigned(f), f.sig[0], fp, f.lead < 0, ex)
    ensures NatOf(ex) == (if f.lead < 0 then -f.lead else f.lead)
  {
    hide TwoDigits, NatOf;
    var n := if f.lead < 0 then -f.lead else f.lead;
    fp, ex := f.sig[1..], TwoDigits(n);
    TwoDigitsShape(n);
    TwoDigitsValue(n);
    assert f.sig[..1] == [f.sig[0]];
    assert |f.sig| == 1 ==> f.sig == [f.sig[0]] && fp == "";
    assert Unsigned(f) == [f.sig[0]] + (if fp == "" then "" else "." + fp) + "e" + ((if f.lead < 0 then "-" else "+") + ex);
  }

  /** How the text looks: a minus sign only for negative numbers, then digits on both sides of
      a point, or one digit, its fraction and a signed exponent of two digits or more; and no
      digit to spare. */
  lemma RenderShape(f: Float) returns (unsigned: string, a: string, b: string)
    requires WellFormed(f)
    ensures Render(f) == (if f.neg then "-" else "") + unsigned
    ensures Positional(f) ==> PositionalShape(unsigned, a, b)
    ensures !Positional(f) ==> ScientificShape(unsigned, f.sig[0], a, f.lead < 0, b)
  {
    hide Unsigned;
    unsigned := Unsigned(f);
    if Positional(f) { a, b := PositionalText(f); } else { a, b := ScientificText(f); }
  }
}
