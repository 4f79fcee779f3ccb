/** Reference encoders for the primitive EXI datatypes, written as the
    inverses the decoders of streamDecode.c must have, and the round-trip
    lemmas connecting each encoder with its decoder. */
module StreamEncode {
  import opened ErrorHandle
  import opened ProcTypes
  import opened StreamIO
  import opened StreamDecode

  function WriteBytesLE(v: nat, count: nat): (r: Bits)
    ensures |r| == 8 * count
    decreases count
  {
    if count == 0 then [] else WriteBits(v % 256, 8) + WriteBytesLE(v / 256, count - 1)
  }

  function EncodeNBitUnsignedInteger(o: Options, v: nat, n: nat): (r: Bits)
    ensures |r| == (if IsBitPacked(o) then n else 8 * ByteCount(n))
  {
    if IsBitPacked(o) then WriteBits(v, n) else WriteBytesLE(v, ByteCount(n))
  }

  function EncodeUnsignedInteger(v: nat): (r: Bits)
    ensures |r| >= 8 && |r| % 8 == 0
    decreases v
  {
    if v < 128 then WriteBits(v, 8)
    else WriteBits(v % 128 + 128, 8) + EncodeUnsignedInteger(v / 128)
  }

  function EncodeStringOnly(str: Str): (r: Bits)
    decreases |str|
  {
    if |str| == 0 then [] else EncodeUnsignedInteger(str[0]) + EncodeStringOnly(str[1..])
  }

  function EncodeString(str: Str): Bits {
    EncodeUnsignedInteger(|str|) + EncodeStringOnly(str)
  }

  function WriteByteSeq(bytes: seq<nat>): (r: Bits)
    ensures |r| == 8 * |bytes|
    decreases |bytes|
  {
    if |bytes| == 0 then [] else WriteBits(bytes[0], 8) + WriteByteSeq(bytes[1..])
  }

  function EncodeBinary(bytes: seq<nat>): Bits {
    EncodeUnsignedInteger(|bytes|) + WriteByteSeq(bytes)
  }

  function Abs(i: int): nat {
    if i < 0 then -i else i
  }

  function EncodeIntegerValue(i: int): Bits {
    [i < 0] + EncodeUnsignedInteger(Abs(i))
  }

  /** A float whose exponent is not the special marker, or a special value. */
  predicate Representable(f: FloatVal) {
    f.Decimal? ==> f.exponent != SpecialExponent
  }

  function EncodeFloatValue(f: FloatVal): Bits
    requires Representable(f)
  {
    match f
    case PosInf => EncodeIntegerValue(1) + EncodeIntegerValue(SpecialExponent)
    case NegInf => EncodeIntegerValue(-1) + EncodeIntegerValue(SpecialExponent)
    case NaN => EncodeIntegerValue(0) + EncodeIntegerValue(SpecialExponent)
    case Decimal(m, e) => EncodeIntegerValue(m) + EncodeIntegerValue(e)
  }

  // ---------------------------------------------------------- round trips

  /** Reading back the head byte of a little-endian write: when the
      remaining bytes read back as the high digits, the whole reads back. */
  lemma BytesLEHead(v: nat, count: nat, rest: Bits)
    requires count > 0
    requires ReadBytesLE(WriteBytesLE(v / 256, count - 1) + rest, count - 1) == Ok((v / 256, rest))
    ensures ReadBytesLE(WriteBytesLE(v, count) + rest, count) == Ok((v, rest))
  {
    DigitSplit(v, 256);
    var tail := WriteBytesLE(v / 256, count - 1) + rest;
    assert WriteBytesLE(v, count) == WriteBits(v % 256, 8) + WriteBytesLE(v / 256, count - 1);
    ConcatAssoc(WriteBits(v % 256, 8), WriteBytesLE(v / 256, count - 1), rest);
    assert Pow2(8) == 256;
    ReadWritten(v % 256, 8, tail);
    BytesLEStep(WriteBits(v % 256, 8) + tail, count, v % 256, tail);
  }

  /** 256^count, the number of values `count` bytes hold. */
  function ByteRange(count: nat): (r: nat)
    ensures r >= 1
  {
    if count == 0 then 1 else 256 * ByteRange(count - 1)
  }

  lemma {:induction false} ByteRangeIsPow2(count: nat)
    ensures ByteRange(count) == Pow2(8 * count)
  {
    if count > 0 {
      ByteRangeIsPow2(count - 1);
      assert 8 * count == 8 + 8 * (count - 1);
      Pow2Add(8, 8 * (count - 1));
      assert Pow2(8) == 256;
    }
  }

  lemma {:induction false} BytesLERoundTrip(v: nat, count: nat, rest: Bits)
    requires v < ByteRange(count)
    ensures ReadBytesLE(WriteBytesLE(v, count) + rest, count) == Ok((v, rest))
    decreases count
  {
    if count > 0 {
      DivBound(v, 256, ByteRange(count - 1));
      BytesLERoundTrip(v / 256, count - 1, rest);
      BytesLEHead(v, count, rest);
    } else {
      assert WriteBytesLE(v, count) + rest == rest;
    }
  }

  lemma DigitSplit(v: nat, d: nat)
    requires d > 0
    ensures v % d + d * (v / d) == v
  {
  }

  lemma DivBound(v: nat, d: nat, p: nat)
    requires d > 0 && v < d * p
    ensures v / d < p
  {
    if v / d >= p {
      MulMonotone(d, p, v / d);
    }
  }

  /** n-bit unsigned integers round-trip in every alignment, for every value
      that fits in n bits. */
  lemma NBitRoundTrip(o: Options, v: nat, n: nat, rest: Bits)
    requires v < Pow2(n)
    ensures DecodeNBitUnsignedInteger(o, EncodeNBitUnsignedInteger(o, v, n) + rest, n) == Ok((v, rest))
  {
    if IsBitPacked(o) {
      ReadWritten(v, n, rest);
    } else {
      Pow2Monotone(n, 8 * ByteCount(n));
      ByteRangeIsPow2(ByteCount(n));
      BytesLERoundTrip(v, ByteCount(n), rest);
    }
  }

  lemma {:induction false} UnsignedIntegerRoundTrip(v: nat, rest: Bits)
    ensures DecodeUnsignedInteger(EncodeUnsignedInteger(v) + rest) == Ok((v, rest))
    decreases v
  {
    assert Pow2(8) == 256;
    if v < 128 {
      ReadWritten(v, 8, rest);
      UnsignedIntegerStep(WriteBits(v, 8) + rest, v, rest);
    } else {
      var tail := EncodeUnsignedInteger(v / 128) + rest;
      var b := v % 128 + 128;
      assert EncodeUnsignedInteger(v) + rest == WriteBits(b, 8) + tail by {
        assert EncodeUnsignedInteger(v) == WriteBits(b, 8) + EncodeUnsignedInteger(v / 128);
        ConcatAssoc(WriteBits(b, 8), EncodeUnsignedInteger(v / 128), rest);
      }
      assert DecodeUnsignedInteger(WriteBits(b, 8) + tail) == LiftDigit(b % 128, 128, DecodeUnsignedInteger(tail)) by {
        ReadWritten(b, 8, tail);
        UnsignedIntegerStep(WriteBits(b, 8) + tail, b, tail);
      }
      assert DecodeUnsignedInteger(tail) == Ok((v / 128, rest)) by {
        UnsignedIntegerRoundTrip(v / 128, rest);
      }
      assert Accumulate(b % 128, 128, v / 128) == v by {
        SevenBitDigit(v);
      }
    }
  }

  lemma SevenBitDigit(v: nat)
    ensures (v % 128 + 128) % 128 + 128 * (v / 128) == v
  {
    var d := v % 128;
    assert (d + 128) % 128 == d;
  }

  /** The worked example of the base-128 form: 300 is written as the two
      bytes 0xAC 0x02. */
  lemma UnsignedInteger300()
    ensures EncodeUnsignedInteger(300) == WriteBits(0xAC, 8) + WriteBits(0x02, 8)
  {
    assert 300 % 128 + 128 == 0xAC && 300 / 128 == 0x02;
    assert EncodeUnsignedInteger(0x02) == WriteBits(0x02, 8);
  }

  /** The code points after the first, with the rest of the stream. */
  lemma StringOnlyCons(str: Str, rest: Bits)
    requires |str| > 0
    ensures EncodeStringOnly(str) + rest == EncodeUnsignedInteger(str[0]) + (EncodeStringOnly(str[1..]) + rest)
  {
    ConcatAssoc(EncodeUnsignedInteger(str[0]), EncodeStringOnly(str[1..]), rest);
  }

  lemma {:induction false} StringOnlyRoundTrip(str: Str, rest: Bits)
    ensures DecodeStringOnly(EncodeStringOnly(str) + rest, |str|) == Ok((str, rest))
    decreases |str|
  {
    if |str| > 0 {
      var tail := EncodeStringOnly(str[1..]) + rest;
      var s := EncodeUnsignedInteger(str[0]) + tail;
      assert EncodeStringOnly(str) + rest == s by {
        StringOnlyCons(str, rest);
      }
      assert DecodeStringOnly(tail, |str| - 1) == Ok((str[1..], rest)) by {
        StringOnlyRoundTrip(str[1..], rest);
      }
      assert DecodeStringOnly(s, |str|) == Ok(([str[0]] + str[1..], rest)) by {
        UnsignedIntegerRoundTrip(str[0], tail);
        StringOnlyStep(s, |str|, str[0], tail);
      }
      assert [str[0]] + str[1..] == str;
    } else {
      assert EncodeStringOnly(str) + rest == rest;
    }
  }

  lemma StringRoundTrip(str: Str, rest: Bits)
    ensures DecodeString(EncodeString(str) + rest) == Ok((str, rest))
  {
    var tail := EncodeStringOnly(str) + rest;
    assert EncodeString(str) + rest == EncodeUnsignedInteger(|str|) + tail;
    UnsignedIntegerRoundTrip(|str|, tail);
    StringOnlyRoundTrip(str, rest);
  }

  lemma {:induction false} ByteSeqRoundTrip(bytes: seq<nat>, rest: Bits)
    requires forall i :: 0 <= i < |bytes| ==> bytes[i] < 256
    ensures ReadByteSeq(WriteByteSeq(bytes) + rest, |bytes|) == Ok((bytes, rest))
    decreases |bytes|
  {
    if |bytes| > 0 {
      var tail := WriteByteSeq(bytes[1..]) + rest;
      assert WriteByteSeq(bytes) == WriteBits(bytes[0], 8) + WriteByteSeq(bytes[1..]);
      ConcatAssoc(WriteBits(bytes[0], 8), WriteByteSeq(bytes[1..]), rest);
      assert Pow2(8) == 256;
      ReadWritten(bytes[0], 8, tail);
      ByteSeqStep(WriteBits(bytes[0], 8) + tail, |bytes|, bytes[0], tail);
      ByteSeqRoundTrip(bytes[1..], rest);
      assert [bytes[0]] + bytes[1..] == bytes;
    } else {
      assert WriteByteSeq(bytes) + rest == rest;
    }
  }

  lemma BinaryRoundTrip(bytes: seq<nat>, rest: Bits)
    requires forall i :: 0 <= i < |bytes| ==> bytes[i] < 256
    ensures DecodeBinary(EncodeBinary(bytes) + rest) == Ok((bytes, rest))
  {
    var tail := WriteByteSeq(bytes) + rest;
    assert EncodeBinary(bytes) + rest == EncodeUnsignedInteger(|bytes|) + tail;
    UnsignedIntegerRoundTrip(|bytes|, tail);
    ByteSeqRoundTrip(bytes, rest);
  }

  lemma IntegerRoundTrip(i: int, rest: Bits)
    ensures DecodeIntegerValue(EncodeIntegerValue(i) + rest) == Ok((i, rest))
  {
    var tail := EncodeUnsignedInteger(Abs(i)) + rest;
    assert EncodeIntegerValue(i) + rest == [i < 0] + tail;
    UnsignedIntegerRoundTrip(Abs(i), rest);
    SignedDecode([i < 0] + tail, i < 0, tail, Abs(i), rest);
  }

  /** A sign bit followed by a magnitude decodes to the signed value. */
  lemma SignedDecode(s: Bits, neg: bool, tail: Bits, v: nat, rest: Bits)
    requires s == [neg] + tail && DecodeUnsignedInteger(tail) == Ok((v, rest))
    ensures DecodeIntegerValue(s) == Ok((if neg then -(v as int) else v as int, rest))
  {
    assert s[0] == neg && s[1..] == tail;
  }

  /** The two integers a float is written as. */
  function FloatParts(f: FloatVal): (p: (int, int))
    requires Representable(f)
    ensures FloatOf(p.0, p.1) == f
    ensures EncodeFloatValue(f) == EncodeIntegerValue(p.0) + EncodeIntegerValue(p.1)
  {
    match f
    case PosInf => (1, SpecialExponent)
    case NegInf => (-1, SpecialExponent)
    case NaN => (0, SpecialExponent)
    case Decimal(m, e) => (m, e)
  }

  lemma TwoIntegersRoundTrip(m: int, e: int, rest: Bits)
    ensures DecodeFloatValue(EncodeIntegerValue(m) + EncodeIntegerValue(e) + rest) == Ok((FloatOf(m, e), rest))
  {
    var tail := EncodeIntegerValue(e) + rest;
    ConcatAssoc(EncodeIntegerValue(m), EncodeIntegerValue(e), rest);
    IntegerRoundTrip(m, tail);
    IntegerRoundTrip(e, rest);
  }

  lemma FloatRoundTrip(f: FloatVal, rest: Bits)
    requires Representable(f)
    ensures DecodeFloatValue(EncodeFloatValue(f) + rest) == Ok((f, rest))
  {
    var p := FloatParts(f);
    TwoIntegersRoundTrip(p.0, p.1, rest);
  }

  /** As written, the special floats decode as ordinary numbers: the stream
      holding +INF (mantissa 1, exponent -2^14) yields 2139095040. */
  lemma FloatInfinityAsWritten(rest: Bits)
    ensures DecodeFloatValueAsWritten(EncodeFloatValue(PosInf) + rest) == Ok((Decimal(0x7f80_0000, 0), rest))
    ensures DecodeFloatValue(EncodeFloatValue(PosInf) + rest) == Ok((PosInf, rest))
  {
    var tail := EncodeIntegerValue(SpecialExponent) + rest;
    assert EncodeFloatValue(PosInf) + rest == EncodeIntegerValue(1) + tail;
    IntegerRoundTrip(1, tail);
    IntegerRoundTrip(SpecialExponent, rest);
  }
}
