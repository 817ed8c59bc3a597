/** Multiple-precision integers as SSH strings (RFC 4251, section 5). Big numbers are natural numbers. */
module Mpint {
  import opened Arith
  import opened Bytes

  function NumBits(n: nat): nat {
    if n == 0 then 0 else 1 + NumBits(n / 2)
  }

  function NumBytes(n: nat): nat {
    (NumBits(n) + 7) / 8
  }

  predicate BitSet(n: nat, i: nat) {
    Pow(2, i) > 0 && (n / Pow(2, i)) % 2 == 1
  }

  /** The string of a big number: a zero byte goes in front when the top bit would make it negative. */
  function MakeBignumString(n: nat): Option<seq<byte>> {
    var len, bits := NumBytes(n), NumBits(n);
    if len == 0 then None
    else
      var pad := if bits % 8 == 0 && BitSet(n, bits - 1) then 1 else 0;
      if len + pad > STRING_SIZE_MAX then None
      else Some((if pad == 1 then [0] else []) + BigEndian(n, len))
  }

  function MakeStringBn(s: seq<byte>): nat {
    Value(s)
  }

  lemma {:induction false} NumBitsBounds(n: nat)
    ensures n < Pow(2, NumBits(n))
    ensures n > 0 ==> Pow(2, NumBits(n) - 1) <= n
  {
    if n > 0 {
      NumBitsBounds(n / 2);
    }
  }

  lemma TopBitSet(n: nat)
    requires n > 0
    ensures BitSet(n, NumBits(n) - 1)
  {
    NumBitsBounds(n);
    var p := Pow(2, NumBits(n) - 1);
    assert Pow(2, NumBits(n)) == 2 * p;
    assert n / p == 1 by {
      assert n == p * 1 + (n - p);
      DivideOnce(n, p);
    }
  }

  lemma DivideOnce(n: nat, p: nat)
    requires 0 < p <= n < 2 * p
    ensures n / p == 1
  {
  }

  lemma BytesOfBits(k: nat)
    ensures Pow(256, k) == Pow(2, 8 * k)
  {
    PowMul(2, 8, k);
    assert Pow(2, 8) == 256;
  }

  /** Zero and numbers beyond the size limit have no string; any other number has one of `NumBits / 8 + 1` bytes. */
  lemma MpintLength(n: nat)
    ensures MakeBignumString(n).Some? <==> n > 0 && NumBits(n) / 8 + 1 <= STRING_SIZE_MAX
    ensures MakeBignumString(n).Some? ==> |MakeBignumString(n).value| == NumBits(n) / 8 + 1
  {
    if n > 0 {
      TopBitSet(n);
    }
  }

  /** Reading the string gives the number back. */
  lemma MpintRoundTrip(n: nat)
    requires MakeBignumString(n).Some?
    ensures MakeStringBn(MakeBignumString(n).value) == n
  {
    var len := NumBytes(n);
    NumBitsBounds(n);
    BytesOfBits(len);
    PowMonotoneExponent(2, NumBits(n), 8 * len);
    ValueOfBigEndian(n, len);
    ValueLeadingZero(BigEndian(n, len));
    assert [] + BigEndian(n, len) == BigEndian(n, len);
  }

  lemma Distribute(a: nat, p: nat)
    ensures (a + 1) * p == a * p + p
  {
  }

  /** The leading byte of a string bounds its value on both sides. */
  lemma LeadingByte(s: seq<byte>)
    requires s != []
    ensures s[0] * Pow(2, 8 * (|s| - 1)) <= Value(s) < (s[0] + 1) * Pow(2, 8 * (|s| - 1))
  {
    ValueHead(s);
    BigEndianOfValue(s[1..]);
    BytesOfBits(|s| - 1);
    Distribute(s[0], Pow(2, 8 * (|s| - 1)));
  }

  lemma SeventhBit(k: nat)
    ensures Pow(2, 7 + 8 * k) == 0x80 * Pow(2, 8 * k)
  {
    PowAdd(2, 7, 8 * k);
    assert Pow(2, 7) == 0x80;
  }

  /** A leading byte with the sign bit set makes a number of a full number of bytes. */
  lemma SignBitSet(v: nat, bits: nat, b: nat, k: nat)
    requires b * Pow(2, 8 * k) <= v < Pow(2, bits) && b >= 0x80
    ensures bits > 7 + 8 * k
  {
    var p := Pow(2, 8 * k);
    MulMonotone(0x80, p, b, p);
    SeventhBit(k);
    if bits <= 7 + 8 * k {
      PowMonotoneExponent(2, bits, 7 + 8 * k);
    }
  }

  /** One with the sign bit clear does not. */
  lemma SignBitClear(v: nat, bits: nat, b: nat, k: nat)
    requires bits > 0 && Pow(2, bits - 1) <= v < (b + 1) * Pow(2, 8 * k) && b < 0x80
    ensures bits <= 7 + 8 * k
  {
    var p := Pow(2, 8 * k);
    MulMonotone(b + 1, p, 0x80, p);
    SeventhBit(k);
    if bits > 7 + 8 * k {
      PowMonotoneExponent(2, 7 + 8 * k, bits - 1);
    }
  }

  /** The string never reads as a negative number. */
  lemma MpintNonNegative(n: nat)
    requires MakeBignumString(n).Some?
    ensures MakeBignumString(n).value[0] < 0x80
  {
    var s, bits := MakeBignumString(n).value, NumBits(n);
    MpintLength(n);
    MpintRoundTrip(n);
    LeadingByte(s);
    NumBitsBounds(n);
    if s[0] >= 0x80 {
      SignBitSet(n, bits, s[0], |s| - 1);
    }
  }

  lemma ShortestLength(n: nat, s: seq<byte>, m: seq<byte>)
    requires n > 0 && |m| == NumBits(n) / 8 + 1 && Value(m) == n
    requires s != [] && s[0] < 0x80 && Value(s) == n
    ensures |s| >= |m| && (|s| == |m| ==> s == m)
  {
    FitsBits(n, s, |s| - 1, NumBits(n));
    SameNumber(s, m);
  }

  lemma FitsBits(n: nat, s: seq<byte>, k: nat, bits: nat)
    requires n > 0 && |s| == k + 1 && s[0] < 0x80 && Value(s) == n && bits == NumBits(n)
    ensures bits / 8 <= k
  {
    NumBitsBounds(n);
    LeadingByte(s);
    SignBitClear(n, bits, s[0], k);
  }

  lemma SameNumber(s: seq<byte>, t: seq<byte>)
    requires Value(s) == Value(t)
    ensures |s| == |t| ==> s == t
  {
    BigEndianOfValue(s);
    BigEndianOfValue(t);
  }

  /** No non-negative string of the same value is shorter, and none of the same length is different. */
  lemma MpintShortest(n: nat, s: seq<byte>)
    requires MakeBignumString(n).Some? && s != [] && s[0] < 0x80 && Value(s) == n
    ensures |s| >= |MakeBignumString(n).value|
    ensures |s| == |MakeBignumString(n).value| ==> s == MakeBignumString(n).value
  {
    MpintLength(n);
    MpintRoundTrip(n);
    ShortestLength(n, s, MakeBignumString(n).value);
  }
}
