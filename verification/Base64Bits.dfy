/** The shifts, masks and ors of the base64 code compute the digits and bytes the arithmetic of `Base64` speaks of. */
module Base64Bits {
  import opened Arith
  import opened Bytes
  import opened Base64

  lemma ShiftRight(x: bv8)
    ensures (x >> 2) as int == x as int / 4 && (x >> 4) as int == x as int / 16 && (x >> 6) as int == x as int / 64
  {
  }

  lemma ShiftLeft2(x: bv8)
    requires x < 64
    ensures (x << 2) as int == x as int * 4
  {
  }

  lemma ShiftLeft4(x: bv8)
    ensures (x << 4) as int == x as int % 16 * 16
  {
  }

  lemma ShiftLeft6(x: bv8)
    ensures (x << 6) as int == x as int % 4 * 64
  {
  }

  lemma Mask2(x: bv8)
    ensures (x & 3) as int == x as int % 4
  {
  }

  lemma Mask4(x: bv8)
    ensures (x & 15) as int == x as int % 16
  {
  }

  lemma Mask6(x: bv8)
    ensures (x & 63) as int == x as int % 64
  {
  }

  /** Or-ing fields that do not overlap adds them. */
  lemma OrAdds(x: bv8, y: bv8)
    requires x & y == 0
    ensures (x | y) as int == x as int + y as int
  {
    assert x | y == x + y >= x;
  }

  // Encoding

  /** The four indices into the alphabet that the encoder computes from three bytes. */
  function Indices(a: bv8, b: bv8, c: bv8): seq<bv8> {
    [a >> 2, (b >> 4) | ((a & 3) << 4), (c >> 6) | ((b & 15) << 2), c & 63]
  }

  /** They are the sextets, whose meaning as digits is `SextetsAreDigits`. */
  lemma EncoderBits(a: bv8, b: bv8, c: bv8)
    ensures forall i :: 0 <= i < 4 ==> Indices(a, b, c)[i] as int == Sextets(a as int, b as int, c as int)[i]
  {
    ShiftRight(a);
    SecondIndex(a, b);
    ThirdIndex(b, c);
    Mask6(c);
  }

  lemma SecondIndex(a: bv8, b: bv8)
    ensures ((b >> 4) | ((a & 3) << 4)) as int == a as int % 4 * 16 + b as int / 16
  {
    ShiftRight(b);
    Mask2(a);
    ShiftLeft4(a & 3);
    OrAdds(b >> 4, (a & 3) << 4);
  }

  lemma ThirdIndex(b: bv8, c: bv8)
    ensures ((c >> 6) | ((b & 15) << 2)) as int == b as int % 16 * 4 + c as int / 64
  {
    ShiftRight(c);
    Mask4(b);
    ShiftLeft2(b & 15);
    OrAdds(c >> 6, (b & 15) << 2);
  }

  // Decoding

  /** The word the decoder assembles from four indices. */
  function Word(i: bv8, j: bv8, k: bv8, l: bv8): bv32 {
    (((i & 63) as bv32) << 18) | (((j & 63) as bv32) << 12) | (((k & 63) as bv32) << 6) | ((l & 63) as bv32)
  }

  /** The three bytes in terms of the indices. */
  function Fields(i: bv8, j: bv8, k: bv8, l: bv8): (f: seq<bv8>)
    ensures |f| == 3
  {
    [(i << 2) | (j >> 4), (j << 4) | (k >> 2), (k << 6) | l]
  }

  /** The three bytes the decoder masks and shifts out of a word. */
  function Unpacked(w: bv32): (b: seq<bv8>)
    ensures |b| == 3
  {
    [((w & 0xff0000) >> 16) as bv8, ((w & 0xff00) >> 8) as bv8, (w & 0xff) as bv8]
  }

  lemma Narrow(x: bv8)
    ensures (x as bv32) as bv8 == x
  {
  }

  lemma MaskedWord(i: bv8, j: bv8, k: bv8, l: bv8)
    requires i < 64 && j < 64 && k < 64 && l < 64
    ensures (Word(i, j, k, l) & 0xff0000) >> 16 == ((i << 2) | (j >> 4)) as bv32
    ensures (Word(i, j, k, l) & 0xff00) >> 8 == ((j << 4) | (k >> 2)) as bv32
    ensures Word(i, j, k, l) & 0xff == ((k << 6) | l) as bv32
  {
  }

  lemma FieldsOfWord(i: bv8, j: bv8, k: bv8, l: bv8)
    requires i < 64 && j < 64 && k < 64 && l < 64
    ensures Unpacked(Word(i, j, k, l)) == Fields(i, j, k, l)
  {
    MaskedWord(i, j, k, l);
    Narrow((i << 2) | (j >> 4));
    Narrow((j << 4) | (k >> 2));
    Narrow((k << 6) | l);
  }

  // What those fields are as numbers

  lemma FirstByte(i: bv8, j: bv8)
    requires i < 64 && j < 64
    ensures ((i << 2) | (j >> 4)) as int == i as int * 4 + j as int / 16
  {
    ShiftLeft2(i);
    ShiftRight(j);
    OrAdds(i << 2, j >> 4);
  }

  lemma SecondByte(j: bv8, k: bv8)
    requires k < 64
    ensures ((j << 4) | (k >> 2)) as int == j as int % 16 * 16 + k as int / 4
  {
    ShiftLeft4(j);
    ShiftRight(k);
    OrAdds(j << 4, k >> 2);
  }

  lemma ThirdByte(k: bv8, l: bv8)
    requires l < 64
    ensures ((k << 6) | l) as int == k as int % 4 * 64 + l as int
  {
    ShiftLeft6(k);
    OrAdds(k << 6, l);
  }

  lemma BytesOfDigits(i: nat, j: nat, k: nat, l: nat)
    requires i < 64 && j < 64 && k < 64 && l < 64
    ensures ThreeBytes(FromDigits(i, j, k, l)) == [i * 4 + j / 16, j % 16 * 16 + k / 4, k % 4 * 64 + l]
  {
    var n := FromDigits(i, j, k, l);
    var high := i * 4 + j / 16;
    var middle := j % 16 * 16 + k / 4;
    assert n == 256 * (256 * high + middle) + (k % 4 * 64 + l);
    DivideUnique(n, 256, 256 * high + middle, k % 4 * 64 + l);
    DivideUnique(256 * high + middle, 256, high, middle);
  }

  lemma BytesAre(f: seq<nat>, v: seq<nat>)
    requires |f| == 3 && |v| == 4 && forall n :: 0 <= n < 4 ==> v[n] < 64
    requires f[0] == v[0] * 4 + v[1] / 16 && f[1] == v[1] % 16 * 16 + v[2] / 4 && f[2] == v[2] % 4 * 64 + v[3]
    ensures f == ThreeBytes(FromDigits(v[0], v[1], v[2], v[3]))
  {
    BytesOfDigits(v[0], v[1], v[2], v[3]);
  }

  /** Machine bytes as numbers. */
  function Numbers(d: seq<bv8>): (s: seq<nat>)
    ensures |s| == |d|
  {
    if d == [] then [] else [d[0] as int] + Numbers(d[1..])
  }

  lemma NumbersAt(d: seq<bv8>)
    ensures forall n :: 0 <= n < |d| ==> Numbers(d)[n] == d[n] as int
  {
  }

  lemma FieldNumbers(d: seq<bv8>)
    requires |d| == 4 && forall n :: 0 <= n < 4 ==> d[n] < 64
    ensures var v, f := Numbers(d), Numbers(Fields(d[0], d[1], d[2], d[3]));
      f[0] == v[0] * 4 + v[1] / 16 && f[1] == v[1] % 16 * 16 + v[2] / 4 && f[2] == v[2] % 4 * 64 + v[3]
  {
    NumbersAt(d);
    NumbersAt(Fields(d[0], d[1], d[2], d[3]));
    FirstByte(d[0], d[1]);
    SecondByte(d[1], d[2]);
    ThirdByte(d[2], d[3]);
  }

  /** They are the bytes of the number with the indices as digits, which is what `DecodeGroup` speaks of. */
  lemma DecoderBits(d: seq<bv8>)
    requires |d| == 4 && forall n :: 0 <= n < 4 ==> d[n] < 64
    ensures var v := Numbers(d);
      Numbers(Unpacked(Word(d[0], d[1], d[2], d[3]))) == ThreeBytes(FromDigits(v[0], v[1], v[2], v[3]))
  {
    FieldsOfWord(d[0], d[1], d[2], d[3]);
    FieldNumbers(d);
    NumbersAt(d);
    BytesAre(Numbers(Fields(d[0], d[1], d[2], d[3])), Numbers(d));
  }
}
