/** Base32 of section 6 of RFC 4648 without padding, written with a 64-bit shift buffer
    whose high bits are silently lost. */
module Base32 {
  import Text

  type Byte = b: int | 0 <= b < 256
  type Bit = b: int | 0 <= b < 2

  // ------------------------------------------------------------------------ bits

  function Pow2(k: nat): (p: nat)
    ensures p > 0
  { if k == 0 then 1 else 2 * Pow2(k - 1) }

  lemma Powers()
    ensures Pow2(3) == 8 && Pow2(5) == 32 && Pow2(8) == 256
  {
    assert Pow2(1) == 2 && Pow2(2) == 4;
    assert Pow2(4) == 16;
    assert Pow2(6) == 64 && Pow2(7) == 128;
  }

  /** The number a string of bits spells, most significant first. */
  function Value(bits: seq<Bit>): nat {
    if bits == [] then 0 else 2 * Value(bits[..|bits| - 1]) + bits[|bits| - 1]
  }

  lemma {:induction false} ValueBound(bits: seq<Bit>)
    ensures Value(bits) < Pow2(|bits|)
  {
    if bits == [] {
    } else {
      ValueBound(bits[..|bits| - 1]);
    }
  }

  /** The `k` low bits of a number. */
  function BitsOf(n: nat, k: nat): (r: seq<Bit>)
    ensures |r| == k
  { if k == 0 then [] else BitsOf(n / 2, k - 1) + [n % 2] }

  lemma {:induction false} BitsOfValue(bits: seq<Bit>)
    ensures BitsOf(Value(bits), |bits|) == bits
  {
    if bits == [] {
    } else {
      BitsOfValue(bits[..|bits| - 1]);
      assert bits == bits[..|bits| - 1] + [bits[|bits| - 1]];
    }
  }

  lemma {:induction false} ValueBitsOf(n: nat, k: nat)
    requires n < Pow2(k)
    ensures Value(BitsOf(n, k)) == n
  {
    if k == 0 {
    } else {
      ValueBitsOf(n / 2, k - 1);
      assert BitsOf(n, k)[..k - 1] == BitsOf(n / 2, k - 1);
    }
  }

  function ByteBits(b: Byte): seq<Bit> { BitsOf(b, 8) }

  lemma ByteValue(b: Byte)
    ensures Value(ByteBits(b)) == b && |ByteBits(b)| == 8
  {
    Powers();
    ValueBitsOf(b, 8);
  }

  function Bits(data: seq<Byte>): (r: seq<Bit>)
    ensures |r| == 8 * |data|
  { if data == [] then [] else ByteBits(data[0]) + Bits(data[1..]) }

  // -------------------------------------------------------------------- alphabet

  /** The letters A to Z, then the digits 2 to 7. */
  function Symbol(n: nat): (c: char)
    requires n < 32
    ensures SymbolValue(c) == n
  { if n < 26 then ('A' as int + n) as char else ('2' as int + n - 26) as char }

  function SymbolValue(c: char): nat {
    if 'A' <= c <= 'Z' then c as int - 'A' as int else if '2' <= c <= '7' then c as int - '2' as int + 26 else 32
  }

  // --------------------------------------------------------------- specification

  /** The bit string cut into groups of five, the last one filled up with zeros. */
  function Groups(bits: seq<Bit>): (r: string)
    ensures |r| == (|bits| + 4) / 5
  {
    if bits == [] then ""
    else if |bits| < 5 then [Group(bits + Fill(5 - |bits|))]
    else [Group(bits[..5])] + Groups(bits[5..])
  }

  function Fill(n: nat): (r: seq<Bit>)
    ensures |r| == n
  { if n == 0 then [] else Fill(n - 1) + [0] }

  function Group(g: seq<Bit>): char
    requires |g| == 5
  { Powers(); ValueBound(g); Symbol(Value(g)) }

  function Encode(data: seq<Byte>): string { Groups(Bits(data)) }

  function Ungroup(s: string): (r: seq<Bit>)
    ensures |r| == 5 * |s|
  { if s == "" then [] else BitsOf(SymbolValue(s[0]), 5) + Ungroup(s[1..]) }

  /** Whole bytes; what is left over is dropped. */
  function Bytes(bits: seq<Bit>): seq<Byte> {
    if |bits| < 8 then []
    else
      Powers();
      ValueBound(bits[..8]);
      [Value(bits[..8])] + Bytes(bits[8..])
  }

  function Decode(s: string): seq<Byte> { Bytes(Ungroup(s)) }

  lemma UngroupOne(g: seq<Bit>)
    requires |g| == 5
    ensures BitsOf(SymbolValue(Group(g)), 5) == g
  {
    BitsOfValue(g);
    Powers();
    ValueBound(g);
  }

  lemma {:induction false} UngroupGroups(bits: seq<Bit>)
    ensures |Ungroup(Groups(bits))| >= |bits| && Ungroup(Groups(bits))[..|bits|] == bits
  {
    if bits == [] {
    } else if |bits| < 5 {
      var g := bits + Fill(5 - |bits|);
      UngroupOne(g);
      assert Groups(bits) == [Group(g)] && Groups(bits)[1..] == "";
      assert g + [] == g;
    } else {
      UngroupOne(bits[..5]);
      UngroupGroups(bits[5..]);
      var r := Groups(bits);
      assert r[1..] == Groups(bits[5..]);
      assert Ungroup(r) == bits[..5] + Ungroup(r[1..]);
      assert (bits[..5] + Ungroup(r[1..]))[..|bits|] == bits[..5] + Ungroup(r[1..])[..|bits| - 5];
      assert bits == bits[..5] + bits[5..];
    }
  }

  lemma {:induction false} BytesOfBits(data: seq<Byte>, extra: seq<Bit>)
    requires |extra| < 8
    ensures Bytes(Bits(data) + extra) == data
  {
    if data == [] {
      assert Bits(data) + extra == extra;
    } else {
      BytesOfBits(data[1..], extra);
      ByteValue(data[0]);
      BytesCons(ByteBits(data[0]), Bits(data[1..]) + extra);
      assert Bits(data) + extra == ByteBits(data[0]) + (Bits(data[1..]) + extra);
      assert [data[0]] + data[1..] == data;
    }
  }

  lemma BytesCons(g: seq<Bit>, bits: seq<Bit>)
    requires |g| == 8 && Value(g) < 256
    ensures Bytes(g + bits) == [Value(g)] + Bytes(bits)
  {
    assert (g + bits)[..8] == g && (g + bits)[8..] == bits;
  }

  /** Every byte string comes back, and the text is as short as its bits allow. */
  lemma RoundTrip(data: seq<Byte>)
    ensures Decode(Encode(data)) == data
    ensures |Encode(data)| == (8 * |data| + 4) / 5
  {
    UngroupGroups(Bits(data));
    var all := Ungroup(Encode(data));
    BytesOfBits(data, all[|Bits(data)|..]);
    assert all == all[..|Bits(data)|] + all[|Bits(data)|..];
  }

  // -------------------------------------------------------------- the u64 buffer

  /** A 64-bit word, most significant bit first. */
  type Word = w: seq<Bit> | |w| == 64 witness Fill(64)

  /** A left shift loses the high bits. */
  function Shl(w: Word, k: nat): Word
    requires k <= 64
  { w[k..] + Fill(k) }

  function Shr(w: Word, k: nat): Word
    requires k <= 64
  { Fill(k) + w[..64 - k] }

  function OrBit(a: Bit, b: Bit): Bit { if a == 1 then 1 else b }

  function Or(a: Word, b: Word): (r: Word)
    ensures forall i :: 0 <= i < 64 ==> r[i] == OrBit(a[i], b[i])
  { seq(64, i requires 0 <= i < 64 => OrBit(a[i], b[i])) }

  function ByteWord(b: Byte): Word { Fill(56) + ByteBits(b) }

  /** `w & 0x1f` */
  function LowFive(w: Word): (n: nat)
    ensures n < 32
  { Powers(); ValueBound(w[59..]); Value(w[59..]) }

  lemma {:induction false} FillIsZero(n: nat, i: nat)
    requires i < n
    ensures Fill(n)[i] == 0
  {
    if i < n - 1 { FillIsZero(n - 1, i); }
  }

  /** Shifting a byte in appends its bits and drops the eight highest. */
  lemma ShiftIn(w: Word, b: Byte)
    ensures Or(Shl(w, 8), ByteWord(b)) == w[8..] + ByteBits(b)
  {
    var r := Or(Shl(w, 8), ByteWord(b));
    forall i | 0 <= i < 64 ensures r[i] == (w[8..] + ByteBits(b))[i] {
      if i < 56 { FillIsZero(56, i); } else { FillIsZero(8, i - 56); }
    }
  }

  lemma ShiftOut(w: Word, k: nat)
    requires k <= 59
    ensures LowFive(Shr(w, k)) == Value(w[59 - k..64 - k])
  {
    assert Shr(w, k)[59..] == w[59 - k..64 - k];
  }

  lemma ShiftUp(w: Word, k: nat)
    requires k <= 5
    ensures LowFive(Shl(w, k)) == Value(w[59 + k..] + Fill(k))
  {
    assert Shl(w, k)[59..] == w[59 + k..] + Fill(k);
  }

  /** A full group at the front is written first. */
  lemma GroupsFront(pending: seq<Bit>, rest: seq<Bit>)
    requires |pending| >= 5
    ensures Groups(pending + rest) == [Group(pending[..5])] + Groups(pending[5..] + rest)
  {
    assert (pending + rest)[..5] == pending[..5] && (pending + rest)[5..] == pending[5..] + rest;
  }

  lemma Pushed(out: string, c: char, rest: string)
    ensures out + ([c] + rest) == out + [c] + rest
  {
  }

  /** Writes whole groups while five bits are pending; `rest` is still to be read. */
  method Drain(buffer: Word, out0: string, bits0: nat, ghost rest: seq<Bit>) returns (out: string, bits: nat)
    requires bits0 <= 12
    ensures bits < 5
    ensures out + Groups(buffer[64 - bits..] + rest) == out0 + Groups(buffer[64 - bits0..] + rest)
  {
    out, bits := out0, bits0;
    while bits >= 5
      invariant bits <= 12
      invariant out + Groups(buffer[64 - bits..] + rest) == out0 + Groups(buffer[64 - bits0..] + rest)
    {
      GroupsFront(buffer[64 - bits..], rest);
      bits := bits - 5;
      DrainStep(buffer, bits);
      Pushed(out, Symbol(LowFive(Shr(buffer, bits))), Groups(buffer[64 - bits..] + rest));
      out := out + [Symbol(LowFive(Shr(buffer, bits)))];
    }
  }

  lemma DrainStep(buffer: Word, bits: nat)
    requires bits <= 7
    ensures Symbol(LowFive(Shr(buffer, bits))) == Group(buffer[59 - bits..][..5])
    ensures buffer[59 - bits..][5..] == buffer[64 - bits..]
  {
    ShiftOut(buffer, bits);
    assert buffer[59 - bits..][..5] == buffer[59 - bits..64 - bits];
  }

  /** `base32_nopad` writes exactly the bit string in groups of five, whatever the
      buffer has lost. */
  method Write(data: seq<Byte>) returns (out: string)
    ensures out == Encode(data)
  {
    out := "";
    var buffer: Word := Fill(64);
    var bits: nat := 0;
    var i := 0;
    assert buffer[64..] + Bits(data[0..]) == Bits(data) by { assert data[0..] == data; }
    while i < |data|
      invariant 0 <= i <= |data| && bits < 5
      invariant out + Groups(buffer[64 - bits..] + Bits(data[i..])) == Encode(data)
    {
      NextByte(buffer, bits, data, i);
      buffer := Or(Shl(buffer, 8), ByteWord(data[i]));
      out, bits := Drain(buffer, out, bits + 8, Bits(data[i + 1..]));
      i := i + 1;
    }
    LastBits(buffer, bits);
    assert buffer[64 - bits..] + Bits(data[i..]) == buffer[64 - bits..];
    if bits > 0 {
      out := out + [Symbol(LowFive(Shl(buffer, 5 - bits)))];
    }
  }

  lemma NextByte(buffer: Word, bits: nat, data: seq<Byte>, i: nat)
    requires bits < 5 && i < |data|
    ensures Or(Shl(buffer, 8), ByteWord(data[i]))[64 - (bits + 8)..] + Bits(data[i + 1..]) ==
            buffer[64 - bits..] + Bits(data[i..])
  {
    ShiftIn(buffer, data[i]);
    DropConcat(buffer[8..], ByteBits(data[i]), 56 - bits);
    assert buffer[8..][56 - bits..] == buffer[64 - bits..];
    assert data[i..][1..] == data[i + 1..];
    Text.Associative(buffer[64 - bits..], ByteBits(data[i]), Bits(data[i + 1..]));
  }

  lemma DropConcat(a: seq<Bit>, b: seq<Bit>, k: nat)
    requires k <= |a|
    ensures (a + b)[k..] == a[k..] + b
  {
  }

  lemma LastBits(buffer: Word, bits: nat)
    requires bits < 5
    ensures Groups(buffer[64 - bits..]) == if bits == 0 then "" else [Symbol(LowFive(Shl(buffer, 5 - bits)))]
  {
    ShiftUp(buffer, 5 - bits);
  }

  // ------------------------------------------------------------------ letter by letter

  const ALPHABET: string := "ABCDEFGHIJKLMNOPQRSTUVWXYZ234567"

  lemma SymbolIs(n: nat)
    requires n < 32
    ensures Symbol(n) == ALPHABET[n]
  {
  }

  /** The number five bits spell, the highest first. */
  function Five(g: seq<Bit>): int
    requires |g| == 5
  { 16 * (g[0] as int) + 8 * (g[1] as int) + 4 * (g[2] as int) + 2 * (g[3] as int) + g[4] as int }

  lemma ValueSnoc(g: seq<Bit>)
    requires g != []
    ensures Value(g) == 2 * Value(g[..|g| - 1]) + g[|g| - 1]
  {
  }

  lemma ValueFive(g: seq<Bit>)
    requires |g| == 5
    ensures Value(g) == Five(g)
  {
    assert g[..4][..3] == g[..3] && g[..3][..2] == g[..2] && g[..2][..1] == g[..1] && g[..1][..0] == [];
    ValueSnoc(g);
    ValueSnoc(g[..4]);
    ValueSnoc(g[..3]);
    ValueSnoc(g[..2]);
    ValueSnoc(g[..1]);
  }

  /** A byte's bits, the highest first. */
  lemma ByteDigits(b: Byte)
    ensures var x := ByteBits(b);
            |x| == 8 && b == 8 * Five(x[..5]) + 4 * (x[5] as int) + 2 * (x[6] as int) + x[7] as int
  {
    hide Value;
    ByteValue(b);
    var x := ByteBits(b);
    ValueFive(x[..5]);
    assert x[..7][..6] == x[..6] && x[..6][..5] == x[..5];
    ValueSnoc(x);
    ValueSnoc(x[..7]);
    ValueSnoc(x[..6]);
  }

  lemma PaddedShort(bits: seq<Bit>)
    requires 0 < |bits| < 5
    ensures (bits + Fill(4))[..5] == bits + Fill(5 - |bits|)
  {
    hide Fill;
    forall i | 0 <= i < 5 - |bits| ensures Fill(4)[i] == Fill(5 - |bits|)[i] {
      FillIsZero(4, i);
      FillIsZero(5 - |bits|, i);
    }
  }

  lemma {:induction false} GroupsAt(bits: seq<Bit>, k: nat)
    requires k < |Groups(bits)|
    ensures 5 * k + 5 <= |bits| + 4 && Groups(bits)[k] == Group((bits + Fill(4))[5 * k..5 * k + 5])
  {
    hide Group, Fill;
    var padded := bits + Fill(4);
    if |bits| < 5 {
      PaddedShort(bits);
    } else if k == 0 {
      assert padded[..5] == bits[..5];
    } else {
      GroupsAt(bits[5..], k - 1);
      assert (bits[5..] + Fill(4))[5 * (k - 1)..5 * (k - 1) + 5] == padded[5 * k..5 * k + 5];
    }
  }

  /** Letter `k` is the one for bits 5k to 5k+4 of the data, zeros past its end. */
  lemma EncodeAt(data: seq<Byte>, k: nat)
    requires k < |Encode(data)|
    ensures 5 * k + 5 <= |Bits(data)| + 4
    ensures var g := (Bits(data) + Fill(4))[5 * k..5 * k + 5];
            0 <= Five(g) < 32 && Encode(data)[k] == ALPHABET[Five(g)]
  {
    hide Five, Value, Symbol;
    GroupsAt(Bits(data), k);
    var g := (Bits(data) + Fill(4))[5 * k..5 * k + 5];
    ValueFive(g);
    Powers();
    ValueBound(g);
    SymbolIs(Value(g));
  }

  /** Bit `8j + i` of the data is bit `i` of byte `j`. */
  lemma {:induction false} BitsAt(data: seq<Byte>, j: nat, i: nat)
    requires j < |data| && i < 8
    ensures Bits(data)[8 * j + i] == ByteBits(data[j])[i]
  {
    if j == 0 {
    } else {
      BitsAt(data[1..], j - 1, i);
    }
  }
}
