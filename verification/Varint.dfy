/** Variable-length integers, as section 16 of RFC 9000 defines them. */
module Varint {
  import opened Words

  const VARINT_LIMIT: nat := 0x4000_0000_0000_0000

  function ToBigEndian(n: nat, length: nat): (b: seq<Byte>)
    ensures |b| == length
  {
    if length == 0 then [] else ToBigEndian(n / 256, length - 1) + [n % 256]
  }

  function FromBigEndian(b: seq<Byte>): nat {
    if b == [] then 0 else FromBigEndian(b[..|b| - 1]) * 256 + b[|b| - 1]
  }

  function Power256(k: nat): (p: nat)
    ensures p >= 1
  {
    if k == 0 then 1 else Power256(k - 1) * 256
  }

  /** The length of a varint, from the two top bits of its first byte. */
  function LengthFrom(first: Byte): (n: nat)
    ensures n == 1 || n == 2 || n == 4 || n == 8
  {
    if first < 64 then 1 else if first < 128 then 2 else if first < 192 then 4 else 8
  }

  function EncodedLength(n: nat): (length: nat)
    ensures length == 1 || length == 2 || length == 4 || length == 8
  {
    if n < 64 then 1 else if n < 0x4000 then 2 else if n < 0x4000_0000 then 4 else 8
  }

  function LengthTag(length: nat): nat {
    if length == 1 then 0 else if length == 2 then 64 else if length == 4 then 128 else 192
  }

  lemma {:induction false} TopByte(n: nat, length: nat)
    requires length > 0 && n < 64 * Power256(length - 1)
    ensures ToBigEndian(n, length)[0] < 64
  {
    if length > 1 {
      assert n / 256 < 64 * Power256(length - 2);
      TopByte(n / 256, length - 1);
    }
  }

  lemma ShortestFits(n: nat)
    requires n < VARINT_LIMIT
    ensures n < 64 * Power256(EncodedLength(n) - 1)
  {
    assert Power256(1) == 0x100;
    assert Power256(3) == 0x100_0000;
    assert Power256(5) == 0x100_0000_0000;
    assert Power256(7) == 0x100_0000_0000_0000;
  }

  /** The shortest encoding: the number in big-endian order with the length's tag in
      the two top bits. */
  function Encode(n: nat): (b: seq<Byte>)
    requires n < VARINT_LIMIT
    ensures |b| == EncodedLength(n) && LengthFrom(b[0]) == |b|
  {
    ShortestFits(n);
    TopByte(n, EncodedLength(n));
    var b := ToBigEndian(n, EncodedLength(n));
    [b[0] + LengthTag(|b|)] + b[1..]
  }

  datatype Decoded = Truncated | Decoded(value: nat, length: nat)

  function Decode(b: seq<Byte>): (d: Decoded)
    ensures d.Decoded? ==> 1 <= d.length <= |b| && d.length == LengthFrom(b[0])
  {
    if b == [] || |b| < LengthFrom(b[0]) then Truncated
    else
      var length := LengthFrom(b[0]);
      Decoded(FromBigEndian([b[0] % 64] + b[1..length]), length)
  }

  lemma {:induction false} BigEndianRoundTrip(n: nat, length: nat)
    requires n < Power256(length)
    ensures FromBigEndian(ToBigEndian(n, length)) == n
  {
    if length > 0 {
      BigEndianRoundTrip(n / 256, length - 1);
      var b := ToBigEndian(n, length);
      assert b[..length - 1] == ToBigEndian(n / 256, length - 1);
    }
  }

  lemma {:induction false} BigEndianUnique(b: seq<Byte>)
    ensures FromBigEndian(b) < Power256(|b|)
    ensures ToBigEndian(FromBigEndian(b), |b|) == b
  {
    if b != [] {
      BigEndianUnique(b[..|b| - 1]);
      var n := FromBigEndian(b);
      assert n / 256 == FromBigEndian(b[..|b| - 1]) && n % 256 == b[|b| - 1];
    }
  }

  /** Whatever follows it, an encoded number is decoded to itself, using up exactly
      its own bytes. */
  lemma DecodeEncode(n: nat, rest: seq<Byte>)
    requires n < VARINT_LIMIT
    ensures Decode(Encode(n) + rest) == Decoded(n, EncodedLength(n))
  {
    ShortestFits(n);
    var length := EncodedLength(n);
    TopByte(n, length);
    var b := ToBigEndian(n, length);
    var all := Encode(n) + rest;
    assert [all[0] % 64] + all[1..length] == b;
    assert Power256(length) == Power256(length - 1) * 256;
    BigEndianRoundTrip(n, length);
  }

  /** A decoded number is encoded back to the same bytes exactly when they were its
      shortest form. */
  lemma EncodeDecode(b: seq<Byte>)
    requires Decode(b).Decoded?
    ensures Decode(b).value < VARINT_LIMIT
    ensures Encode(Decode(b).value) == b[..Decode(b).length] <==> EncodedLength(Decode(b).value) == Decode(b).length
  {
    var d := Decode(b);
    var plain := [b[0] % 64] + b[1..d.length];
    BigEndianUnique(plain);
    TopSmall(plain);
    assert Power256(1) == 0x100;
    assert Power256(3) == 0x100_0000;
    assert Power256(5) == 0x100_0000_0000;
    assert Power256(7) == 0x100_0000_0000_0000;
    if EncodedLength(d.value) == d.length {
      assert Encode(d.value) == [plain[0] + LengthTag(d.length)] + plain[1..];
      assert plain[1..] == b[1..d.length];
    }
  }

  lemma {:induction false} TopSmall(b: seq<Byte>)
    requires b != [] && b[0] < 64
    ensures FromBigEndian(b) < 64 * Power256(|b| - 1)
  {
    if |b| > 1 {
      TopSmall(b[..|b| - 1]);
      assert FromBigEndian(b[..|b| - 1]) + 1 <= 64 * Power256(|b| - 2);
    }
  }

  lemma AppendByte(b: seq<Byte>, x: Byte)
    ensures FromBigEndian(b + [x]) == FromBigEndian(b) * 256 + x
  {
    assert (b + [x])[..|b|] == b;
  }

  lemma TwoBytes(a: Byte, b: Byte)
    ensures FromBigEndian([a]) == a && FromBigEndian([a, b]) == a * 256 + b
  {
    AppendByte([], a);
    AppendByte([a], b);
    assert [] + [a] == [a] && [a] + [b] == [a, b];
  }

  lemma FourBytes(a: Byte, b: Byte, c: Byte, d: Byte)
    ensures FromBigEndian([a, b, c, d]) == ((a * 256 + b) * 256 + c) * 256 + d
  {
    TwoBytes(a, b);
    AppendByte([a, b], c);
    AppendByte([a, b, c], d);
    assert [a, b] + [c] == [a, b, c] && [a, b, c] + [d] == [a, b, c, d];
  }

  lemma EightBytes(b: seq<Byte>)
    requires |b| == 8
    ensures FromBigEndian(b) == FromBigEndian(b[..4]) * 0x1_0000_0000 + FromBigEndian(b[4..])
  {
    hide FromBigEndian;
    FourBytes(b[4], b[5], b[6], b[7]);
    assert b[4..] == [b[4], b[5], b[6], b[7]];
    AppendByte(b[..4], b[4]);
    AppendByte(b[..5], b[5]);
    AppendByte(b[..6], b[6]);
    AppendByte(b[..7], b[7]);
    assert b[..4] + [b[4]] == b[..5] && b[..5] + [b[5]] == b[..6] && b[..6] + [b[6]] == b[..7] && b[..7] + [b[7]] == b;
  }

  // ----- The test table -----

  /** Eight bytes, of which the first `length` encode a number, in canonical form or not. */
  datatype Row = Row(encoding: seq<Byte>, length: nat, decoded: nat, canonical: bool)

  const BOUNDARIES: seq<Row> := [
    Row([0, 0xCC, 0xCC, 0xCC, 0xCC, 0xCC, 0xCC, 0xCC], 1, 0, true),
    Row([1, 0xCC, 0xCC, 0xCC, 0xCC, 0xCC, 0xCC, 0xCC], 1, 1, true),
    Row([63, 0xCC, 0xCC, 0xCC, 0xCC, 0xCC, 0xCC, 0xCC], 1, 63, true),
    Row([0x40, 64, 0xCC, 0xCC, 0xCC, 0xCC, 0xCC, 0xCC], 2, 64, true),
    Row([0x7F, 0xFF, 0xCC, 0xCC, 0xCC, 0xCC, 0xCC, 0xCC], 2, 0x3FFF, true),
    Row([0x80, 0, 0x40, 0, 0xCC, 0xCC, 0xCC, 0xCC], 4, 0x4000, true),
    Row([0xBF, 0xFF, 0xFF, 0xFF, 0xCC, 0xCC, 0xCC, 0xCC], 4, 0x3FFF_FFFF, true),
    Row([0xC0, 0, 0, 0, 0x40, 0, 0, 0], 8, 0x4000_0000, true),
    Row([0xFF, 0xFF, 0xFF, 0xFF, 0xFF, 0xFF, 0xFF, 0xFF], 8, 0x3FFF_FFFF_FFFF_FFFF, true)]

  const EXAMPLES: seq<Row> := [
    Row([0xC2, 0x19, 0x7C, 0x5E, 0xFF, 0x14, 0xE8, 0x8C], 8, 151288809941952652, true),
    Row([0x9D, 0x7F, 0x3E, 0x7D, 0xFF, 0x14, 0xE8, 0x8C], 4, 494878333, true),
    Row([0xC0, 0, 0, 0, 0x1D, 0x7F, 0x3E, 0x7D], 8, 494878333, false),
    Row([0x7B, 0xBD, 0x3E, 0x7D, 0xFF, 0x14, 0xE8, 0x8C], 2, 15293, true),
    Row([0x80, 0, 0x3B, 0xBD, 0x3E, 0x7D, 0xFF, 0x14], 4, 15293, false),
    Row([0xC0, 0, 0, 0, 0, 0, 0x3B, 0xBD], 8, 15293, false),
    Row([0x25, 0xBD, 0x3E, 0x7D, 0xFF, 0x14, 0xE8, 0x8C], 1, 37, true),
    Row([0x40, 0x25, 0xBD, 0x3E, 0x7D, 0xFF, 0x14, 0xE8], 2, 37, false)]

  /** The row decodes as it says, and its number is encoded this way exactly if it is canonical. */
  predicate Passes(r: Row) {
    && Decode(r.encoding) == Decoded(r.decoded, r.length)
    && r.decoded < VARINT_LIMIT
    && (r.canonical <==> Encode(r.decoded) == r.encoding[..r.length])
  }

  /** The value of the digits, written out. */
  function Digits(b: seq<Byte>, length: nat): nat
    requires |b| == 8
  {
    var top: int := b[0] % 64;
    if length == 1 then top
    else if length == 2 then top * 0x100 + b[1]
    else
      var four := ((top * 0x100 + b[1]) * 0x100 + b[2]) * 0x100 + b[3];
      if length == 4 then four
      else
        var next: int := b[4];
        four * 0x1_0000_0000 + ((next * 0x100 + b[5]) * 0x100 + b[6]) * 0x100 + b[7]
  }

  predicate AddsUp(r: Row) {
    && |r.encoding| == 8 && r.length == LengthFrom(r.encoding[0])
    && r.decoded == Digits(r.encoding, r.length)
    && (r.canonical <==> EncodedLength(r.decoded) == r.length)
  }

  lemma DigitsDecode(b: seq<Byte>)
    requires |b| == 8
    ensures Decode(b) == Decoded(Digits(b, LengthFrom(b[0])), LengthFrom(b[0]))
  {
    hide FromBigEndian;
    var length := LengthFrom(b[0]);
    var plain := [b[0] % 64] + b[1..length];
    TwoBytes(b[0] % 64, b[1]);
    FourBytes(b[0] % 64, b[1], b[2], b[3]);
    FourBytes(b[4], b[5], b[6], b[7]);
    if length == 1 {
      assert plain == [b[0] % 64];
    } else if length == 2 {
      assert plain == [b[0] % 64, b[1]];
    } else if length == 4 {
      assert plain == [b[0] % 64, b[1], b[2], b[3]];
    } else {
      EightBytes(plain);
      assert plain[..4] == [b[0] % 64, b[1], b[2], b[3]];
      assert plain[4..] == [b[4], b[5], b[6], b[7]];
    }
  }

  lemma RowPasses(r: Row)
    requires AddsUp(r)
    ensures Passes(r)
  {
    hide Decode, Encode, Digits;
    DigitsDecode(r.encoding);
    EncodeDecode(r.encoding);
  }

  lemma BoundariesAddUp()
    ensures forall r :: r in BOUNDARIES ==> AddsUp(r)
  {
  }

  lemma ExamplesAddUp()
    ensures forall r :: r in EXAMPLES ==> AddsUp(r)
  {
  }

  /** Every row of the format's own test table holds. */
  lemma TableRows()
    ensures forall r :: r in BOUNDARIES + EXAMPLES ==> Passes(r)
  {
    hide Passes, AddsUp, BOUNDARIES, EXAMPLES;
    BoundariesAddUp();
    ExamplesAddUp();
    forall r | r in BOUNDARIES + EXAMPLES
      ensures Passes(r)
    {
      RowPasses(r);
    }
  }
}
