/** The primitive EXI datatype decoders of streamDecode.c. Each takes the
    unread part of the bit stream and returns the decoded value with the
    bits that follow it, or the reader's error. Values are unbounded
    integers; the C code keeps them in 32-bit `unsigned int`/`int`. */
module StreamDecode {
  import opened ErrorHandle
  import opened ProcTypes
  import opened StreamIO

  /** The number of whole bytes an n-bit integer occupies when aligned. */
  function ByteCount(n: nat): (c: nat)
    ensures n <= 8 * c < n + 8
  {
    n / 8 + (if n % 8 != 0 then 1 else 0)
  }

  /** `count` bytes, least significant byte first. */
  function ReadBytesLE(s: Bits, count: nat): (r: Result<(nat, Bits)>)
    ensures r.Ok? ==> |r.value.1| + 8 * count == |s|
    decreases count
  {
    if count == 0 then Ok((0, s))
    else
      var b :- ReadBits(s, 8);
      var rest :- ReadBytesLE(b.1, count - 1);
      Ok((b.0 + 256 * rest.0, rest.1))
  }

  /** One byte of the little-endian form: the head byte is the low digit. */
  lemma BytesLEStep(s: Bits, count: nat, b: nat, tail: Bits)
    requires count > 0 && ReadBits(s, 8) == Ok((b, tail))
    ensures ReadBytesLE(s, count) == LiftDigit(b, 256, ReadBytesLE(tail, count - 1))
  {
  }

  /** An n-bit unsigned integer: `n` bits when the stream is bit-packed and
      uncompressed, otherwise the smallest number of whole bytes holding `n`
      bits, least significant byte first. */
  function DecodeNBitUnsignedInteger(o: Options, s: Bits, n: nat): (r: Result<(nat, Bits)>)
    ensures r.Ok? && IsBitPacked(o) ==> |r.value.1| + n == |s| && r.value.0 < Pow2(n)
    ensures r.Ok? && !IsBitPacked(o) ==> |r.value.1| + 8 * ByteCount(n) == |s|
  {
    if IsBitPacked(o) then ReadBits(s, n)
    else ReadBytesLE(s, ByteCount(n))
  }

  function DecodeBoolean(s: Bits): (r: Result<(bool, Bits)>)
    ensures r.Ok? <==> |s| > 0
    ensures r.Ok? ==> r.value == (s[0], s[1..])
  {
    var b :- ReadBits(s, 1);
    assert s[..1] == [s[0]];
    assert BitsValue([s[0]]) == BitsValue([]) * 2 + (if s[0] then 1 else 0);
    Ok((b.0 == 1, b.1))
  }

  /** An unsigned integer in the variable-length base-128 form: each byte
      carries seven value bits, least significant group first, and its high
      bit says whether another byte follows. */
  function DecodeUnsignedInteger(s: Bits): (r: Result<(nat, Bits)>)
    ensures r.Ok? ==> |r.value.1| + 8 <= |s| && (|s| - |r.value.1|) % 8 == 0
    decreases |s|
  {
    var b :- ReadBits(s, 8);
    assert Pow2(8) == 256;
    if b.0 >= 128 then
      var rest :- DecodeUnsignedInteger(b.1);
      Ok((b.0 % 128 + 128 * rest.0, rest.1))
    else
      Ok((b.0, b.1))
  }

  /** One step of the base-128 form: a byte with the high bit set
      contributes its low seven bits and defers to the rest. */
  lemma UnsignedIntegerStep(s: Bits, b: nat, tail: Bits)
    requires ReadBits(s, 8) == Ok((b, tail))
    ensures DecodeUnsignedInteger(s)
            == if b >= 128 then LiftDigit(b % 128, 128, DecodeUnsignedInteger(tail)) else Ok((b, tail))
  {
  }

  /** `LiftDigit(v, m, r)`: the outcome of the loop when `v` has already been
      accumulated with multiplier `m` and `r` is the outcome of decoding the
      rest of the integer. */
  function LiftDigit(v: nat, m: nat, r: Result<(nat, Bits)>): Result<(nat, Bits)> {
    match r
    case Ok((x, q)) => Ok((Accumulate(v, m, x), q))
    case Err(e) => Err(e)
  }

  /** The accumulated value after a digit `d` of weight `m`. */
  function Accumulate(v: nat, m: nat, d: nat): nat {
    v + m * d
  }

  lemma LiftDigitCompose(v: nat, m: nat, d: nat, r: Result<(nat, Bits)>)
    ensures LiftDigit(v, m, LiftDigit(d, 128, r)) == LiftDigit(Accumulate(v, m, d), m * 128, r)
  {
    if r.Ok? {
      var x := r.value.0;
      assert m * (d + 128 * x) == m * d + m * (128 * x);
      MulAssoc(m, 128, x);
      assert Accumulate(v, m, Accumulate(d, 128, x)) == Accumulate(Accumulate(v, m, d), m * 128, x);
    }
  }

  /** The do-while loop of decodeUnsignedInteger: the accumulating loop
      computes the same outcome as the recursive definition. */
  method DecodeUnsignedIntegerLoop(s: Bits) returns (r: Result<(nat, Bits)>)
    ensures r == DecodeUnsignedInteger(s)
  {
    var value: nat := 0;
    var multiplier: nat := 1;
    var cur := s;
    var more := true;
    while more
      invariant more ==> DecodeUnsignedInteger(s) == LiftDigit(value, multiplier, DecodeUnsignedInteger(cur))
      invariant !more ==> DecodeUnsignedInteger(s) == Ok((value, cur))
      decreases if more then |cur| + 1 else 0
    {
      var rb := ReadBits(cur, 8);
      if rb.Err? {
        assert DecodeUnsignedInteger(cur) == Err(rb.code);
        return Err(rb.code);
      }
      var b, tail := rb.value.0, rb.value.1;
      UnsignedIntegerStep(cur, b, tail);
      LiftDigitCompose(value, multiplier, b % 128, DecodeUnsignedInteger(tail));
      assert b < 128 ==> b % 128 == b;
      value := Accumulate(value, multiplier, b % 128);
      multiplier := multiplier * 128;
      cur := tail;
      more := b >= 128;
    }
    return Ok((value, cur));
  }

  /** `len` code points, each an unsigned integer. */
  function DecodeStringOnly(s: Bits, len: nat): (r: Result<(Str, Bits)>)
    ensures r.Ok? ==> |r.value.0| == len && |r.value.1| + 8 * len <= |s|
    decreases len
  {
    if len == 0 then Ok(([], s))
    else
      var c :- DecodeUnsignedInteger(s);
      var rest :- DecodeStringOnly(c.1, len - 1);
      Ok(([c.0] + rest.0, rest.1))
  }

  /** `x` in front of a decoded sequence; failures pass through. */
  function Prepend(x: nat, r: Result<(seq<nat>, Bits)>): Result<(seq<nat>, Bits)> {
    match r
    case Ok((xs, q)) => Ok(([x] + xs, q))
    case Err(e) => Err(e)
  }

  /** One code point of a string: the head integer, then the rest. */
  lemma StringOnlyStep(s: Bits, len: nat, c: nat, tail: Bits)
    requires len > 0 && DecodeUnsignedInteger(s) == Ok((c, tail))
    ensures DecodeStringOnly(s, len) == Prepend(c, DecodeStringOnly(tail, len - 1))
  {
  }

  /** A length-prefixed string. */
  function DecodeString(s: Bits): (r: Result<(Str, Bits)>)
    ensures r.Ok? ==> DecodeUnsignedInteger(s).Ok?
                      && |r.value.0| == DecodeUnsignedInteger(s).value.0
  {
    var len :- DecodeUnsignedInteger(s);
    DecodeStringOnly(len.1, len.0)
  }

  /** `count` bytes of eight bits each. */
  function ReadByteSeq(s: Bits, count: nat): (r: Result<(seq<nat>, Bits)>)
    ensures r.Ok? <==> 8 * count <= |s|
    ensures r.Ok? ==> |r.value.0| == count && |r.value.1| + 8 * count == |s|
                      && forall i :: 0 <= i < count ==> r.value.0[i] < 256
    decreases count
  {
    if count == 0 then Ok(([], s))
    else
      var b :- ReadBits(s, 8);
      var rest :- ReadByteSeq(b.1, count - 1);
      assert Pow2(8) == 256;
      Ok(([b.0] + rest.0, rest.1))
  }

  /** One byte of a byte sequence: the head byte, then the rest. */
  lemma ByteSeqStep(s: Bits, count: nat, b: nat, tail: Bits)
    requires count > 0 && ReadBits(s, 8) == Ok((b, tail))
    ensures ReadByteSeq(s, count) == Prepend(b, ReadByteSeq(tail, count - 1))
  {
  }

  /** A length-prefixed byte sequence. */
  function DecodeBinary(s: Bits): (r: Result<(seq<nat>, Bits)>)
    ensures r.Ok? ==> DecodeUnsignedInteger(s).Ok?
                      && |r.value.0| == DecodeUnsignedInteger(s).value.0
                      && |r.value.1| + 8 * |r.value.0| == |DecodeUnsignedInteger(s).value.1|
  {
    var len :- DecodeUnsignedInteger(s);
    ReadByteSeq(len.1, len.0)
  }

  /** A sign bit followed by the magnitude; a set sign bit negates it. */
  function DecodeIntegerValue(s: Bits): (r: Result<(int, Bits)>)
    ensures r.Ok? <==> |s| > 0 && DecodeUnsignedInteger(s[1..]).Ok?
    ensures r.Ok? ==> var m := DecodeUnsignedInteger(s[1..]).value;
                      (r.value.0 == m.0 || r.value.0 == -(m.0 as int)) && r.value.1 == m.1
    ensures r.Ok? && r.value.0 < 0 ==> s[0]
    ensures r.Ok? && r.value.0 > 0 ==> !s[0]
  {
    var sign :- DecodeBoolean(s);
    var m :- DecodeUnsignedInteger(sign.1);
    if !sign.0 then Ok((m.0 as int, m.1)) else Ok((-(m.0 as int), m.1))
  }

  /** Decimal values are not decoded by this version. */
  function DecodeDecimalValue(s: Bits): (r: Result<(int, Bits)>)
    ensures r == Err(NotImplementedYet)
  {
    Err(NotImplementedYet)
  }

  /** The exponent that marks the special float values. */
  const SpecialExponent: int := -16384

  /** A decoded float: a special value, or mantissa * 10^exponent. */
  datatype FloatVal = PosInf | NegInf | NaN | Decimal(mantissa: int, exponent: int)

  /** The classification of a float from its two integers. */
  function FloatOf(man: int, exp: int): (f: FloatVal)
    ensures exp != SpecialExponent ==> f == Decimal(man, exp)
    ensures f.PosInf? <==> exp == SpecialExponent && man == 1
    ensures f.NegInf? <==> exp == SpecialExponent && man == -1
    ensures f.NaN? <==> exp == SpecialExponent && man != 1 && man != -1
  {
    if exp == SpecialExponent then
      if man == 1 then PosInf else if man == -1 then NegInf else NaN
    else Decimal(man, exp)
  }

  /** A float: two integers, mantissa then exponent. */
  function DecodeFloatValue(s: Bits): (r: Result<(FloatVal, Bits)>)
    ensures r.Ok? ==> var m := DecodeIntegerValue(s);
                      m.Ok? && DecodeIntegerValue(m.value.1).Ok?
                      && r.value.0 == FloatOf(m.value.0, DecodeIntegerValue(m.value.1).value.0)
  {
    var man :- DecodeIntegerValue(s);
    var exp :- DecodeIntegerValue(man.1);
    Ok((FloatOf(man.0, exp.0), exp.1))
  }

  /** decodeFloatValue as written: the special cases assign the integers
      0x7f800000, 0xff800000 and 0x7fc00000 to a `long double`, which yields
      those numbers rather than infinity or NaN. */
  function DecodeFloatValueAsWritten(s: Bits): (r: Result<(FloatVal, Bits)>)
    ensures r.Ok? ==> r.value.0.Decimal?
    ensures r.Ok? <==> DecodeFloatValue(s).Ok?
  {
    var man :- DecodeIntegerValue(s);
    var exp :- DecodeIntegerValue(man.1);
    if exp.0 == SpecialExponent then
      if man.0 == 1 then Ok((Decimal(0x7f80_0000, 0), exp.1))
      else if man.0 == -1 then Ok((Decimal(0xff80_0000, 0), exp.1))
      else Ok((Decimal(0x7fc0_0000, 0), exp.1))
    else Ok((Decimal(man.0, exp.0), exp.1))
  }
}
