/** The bit stream: a sequence of bits read from a cursor, most significant
    bit of each value first (the C reader walks `bitPointer` 0..7 from the
    most significant bit of each byte). Writing is the reference inverse of
    reading. */
module StreamIO {
  import opened ErrorHandle
  import opened ProcTypes

  type Bits = seq<bool>

  /** The unsigned value of a bit string, most significant bit first. */
  function BitsValue(s: Bits): (v: nat)
    ensures v < Pow2(|s|)
    decreases |s|
  {
    if |s| == 0 then 0
    else 2 * BitsValue(s[..|s| - 1]) + (if s[|s| - 1] then 1 else 0)
  }

  /** The low `n` bits of `v`, most significant first (writeNBits). */
  function WriteBits(v: nat, n: nat): (r: Bits)
    ensures |r| == n
    decreases n
  {
    if n == 0 then [] else WriteBits(v / 2, n - 1) + [v % 2 == 1]
  }

  lemma ConcatAssoc(a: Bits, b: Bits, c: Bits)
    ensures (a + b) + c == a + (b + c)
  {
  }

  /** Reads `n` bits from the front of the stream and returns them with
      the bits that follow; fails when fewer than `n` remain. */
  function ReadBits(s: Bits, n: nat): (r: Result<(nat, Bits)>)
    ensures r.Ok? <==> n <= |s|
    ensures r.Ok? ==> r.value.1 == s[n..] && r.value.0 < Pow2(n)
    ensures r.Err? ==> r.code == BufferEndReached
  {
    if n <= |s| then Ok((BitsValue(s[..n]), s[n..])) else Err(BufferEndReached)
  }

  /** Splitting off the low digit in base `d` and the next `p`-digit: the
      arithmetic behind reading a value in two pieces. */
  lemma ModSplit(v: nat, d: nat, p: nat)
    requires d > 0 && p > 0
    ensures d * ((v / d) % p) + v % d == v % (d * p)
  {
    var q := v / d;
    var m := q % p;
    var a := q / p;
    var r := v % d;
    DivModParts(v, d);
    DivModParts(q, p);
    assert v == (d * p) * a + (d * m + r) by {
      MulAdd(d, p * a, m);
      MulAssoc(d, p, a);
    }
    assert d * m + r < d * p by {
      MulBelow(d, m, p);
    }
    ModUnique(v, d * p, a, d * m + r);
  }

  lemma DivModParts(v: nat, d: nat)
    requires d > 0
    ensures v == d * (v / d) + v % d && v % d < d
  {
  }

  lemma MulAdd(d: nat, x: nat, y: nat)
    ensures d * (x + y) == d * x + d * y
  {
  }

  lemma MulBelow(d: nat, m: nat, p: nat)
    requires m < p
    ensures d * m + d <= d * p
  {
    MulAdd(d, m, p - m - 1 + 1);
    MulAdd(d, p - m - 1, 1);
  }

  lemma MulAssoc(a: nat, b: nat, c: nat)
    ensures a * (b * c) == (a * b) * c
  {
  }

  lemma MulMonotone(d: nat, a: nat, b: nat)
    requires a <= b
    ensures d * a <= d * b
  {
  }

  lemma ModUnique(v: nat, d: nat, a: nat, r: nat)
    requires d > 0 && r < d && v == d * a + r
    ensures v % d == r && v / d == a
  {
    var q := v / d;
    var m := v % d;
    assert d * q + m == d * a + r;
    if a > q {
      MulAtLeast(d, a - q);
    } else if q > a {
      MulAtLeast(d, q - a);
    }
  }

  lemma MulAtLeast(d: nat, k: nat)
    requires k >= 1
    ensures d * k >= d
  {
  }

  /** Reading back what `WriteBits` wrote gives the value modulo 2^n. */
  lemma {:induction false} ValueOfWriteBits(v: nat, n: nat)
    ensures BitsValue(WriteBits(v, n)) == v % Pow2(n)
    decreases n
  {
    if n > 0 {
      var w := WriteBits(v, n);
      assert w[..n - 1] == WriteBits(v / 2, n - 1);
      ValueOfWriteBits(v / 2, n - 1);
      ModSplit(v, 2, Pow2(n - 1));
    }
  }

  /** Writing the value of a bit string gives the bit string back: the two
      are inverse bijections between n-bit strings and 0..2^n-1. */
  lemma {:induction false} WriteBitsOfValue(s: Bits)
    ensures WriteBits(BitsValue(s), |s|) == s
    decreases |s|
  {
    if |s| > 0 {
      var init := s[..|s| - 1];
      var b := if s[|s| - 1] then 1 else 0;
      var v := BitsValue(s);
      assert v == 2 * BitsValue(init) + b;
      assert v / 2 == BitsValue(init) && v % 2 == b;
      WriteBitsOfValue(init);
      assert s == init + [s[|s| - 1]];
    }
  }

  /** Writing `v` in `n` bits and reading `n` bits back yields `v` and the
      rest of the stream, whenever `v` fits. */
  lemma ReadWritten(v: nat, n: nat, rest: Bits)
    requires v < Pow2(n)
    ensures ReadBits(WriteBits(v, n) + rest, n) == Ok((v, rest))
  {
    var s := WriteBits(v, n) + rest;
    assert s[..n] == WriteBits(v, n);
    assert s[n..] == rest;
    ValueOfWriteBits(v, n);
    ModUnique(v, Pow2(n), 0, v);
  }
}
