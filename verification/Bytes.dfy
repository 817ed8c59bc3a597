/** Bytes, machine words and the network byte order shared by every codec. */
module Bytes {
  import opened Arith

  type byte = x: int | 0 <= x < 256
  type u32 = x: int | 0 <= x < 0x1_0000_0000

  /** The most bytes a buffer, and a string, can hold. */
  const BUFFER_SIZE_MAX := 0x1000_0000
  const STRING_SIZE_MAX := 0x1000_0000

  datatype Option<+T> = None | Some(value: T)

  /** The number a big-endian byte string stands for. */
  function Value(bs: seq<byte>): nat {
    if bs == [] then 0 else Value(bs[..|bs| - 1]) * 256 + bs[|bs| - 1]
  }

  /** The `width` low-order bytes of `v`, most significant first. */
  function BigEndian(v: nat, width: nat): (r: seq<byte>)
    ensures |r| == width
  {
    if width == 0 then [] else BigEndian(v / 256, width - 1) + [v % 256]
  }

  lemma {:induction false} ValueOfBigEndian(v: nat, width: nat)
    requires v < Pow(256, width)
    ensures Value(BigEndian(v, width)) == v
  {
    if width > 0 {
      var front := BigEndian(v / 256, width - 1);
      assert BigEndian(v, width)[..width - 1] == front;
      ValueOfBigEndian(v / 256, width - 1);
    }
  }

  lemma {:induction false} BigEndianOfValue(bs: seq<byte>)
    ensures Value(bs) < Pow(256, |bs|)
    ensures BigEndian(Value(bs), |bs|) == bs
  {
    if bs != [] {
      var front := bs[..|bs| - 1];
      BigEndianOfValue(front);
      assert bs == front + [bs[|bs| - 1]];
    }
  }

  /** Leading zero bytes do not change the value. */
  lemma {:induction false} ValueConcat(a: seq<byte>, b: seq<byte>)
    ensures Value(a + b) == Value(a) * Pow(256, |b|) + Value(b)
  {
    if b == [] {
      assert a + b == a;
    } else {
      var front, last := b[..|b| - 1], b[|b| - 1];
      assert (a + b)[..|a + b| - 1] == a + front;
      ValueConcat(a, front);
      var x, y := Value(a), Pow(256, |front|);
      assert (x * y) * 256 == x * (256 * y) by {
        MulAssoc(x, y, 256);
      }
    }
  }

  /** The most significant byte counts for the largest power. */
  lemma ValueHead(s: seq<byte>)
    requires s != []
    ensures Value(s) == s[0] * Pow(256, |s| - 1) + Value(s[1..])
  {
    assert s == s[..1] + s[1..];
    ValueConcat(s[..1], s[1..]);
    assert s[..1][..0] == [];
    assert Value(s[..1]) == s[0];
  }

  lemma ValueLeadingZero(s: seq<byte>)
    ensures Value([0] + s) == Value(s)
  {
    ValueHead([0] + s);
    assert ([0] + s)[1..] == s;
    assert 0 * Pow(256, |s|) == 0;
  }

  lemma Associate<T>(a: seq<T>, b: seq<T>, c: seq<T>)
    ensures a + b + c == a + (b + c)
  {
  }
}
