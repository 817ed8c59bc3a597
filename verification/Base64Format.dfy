/** The text and the bytes of section 4 of RFC 4648, written out, and that they are what `Base64` computes. */
module Base64Format {
  import opened Arith
  import opened Bytes
  import opened Base64

  const UPPER := "ABCDEFGHIJKLMNOPQRSTUVWXYZ"
  const LOWER := "abcdefghijklmnopqrstuvwxyz"
  const DIGITS := "0123456789"
  const ALPHABET := UPPER + LOWER + DIGITS + "+/"

  /** The 64 characters and their places. */
  lemma AlphabetIs(i: nat)
    requires i < 64
    ensures |ALPHABET| == 64 && Alphabet(i) == ALPHABET[i] && Position(ALPHABET[i]) == i
  {
    AlphabetInverse('=', i);
    if i < 26 {
      assert ALPHABET[i] == UPPER[i];
    } else if i < 52 {
      assert ALPHABET[i] == LOWER[i - 26];
    } else if i < 62 {
      assert ALPHABET[i] == DIGITS[i - 52];
    }
  }

  /** Only they are looked up. */
  lemma PositionIs(c: char)
    ensures Position(c) < 64 <==> c in ALPHABET
  {
    if Position(c) < 64 {
      AlphabetInverse(c, Position(c));
      AlphabetIs(Position(c));
    }
    if c in ALPHABET {
      var i :| 0 <= i < |ALPHABET| && ALPHABET[i] == c;
      AlphabetIs(i);
    }
  }

  lemma Digits(n: nat, d0: nat, d1: nat, d2: nat, d3: nat)
    requires d0 < 64 && d1 < 64 && d2 < 64 && d3 < 64 && n == FromDigits(d0, d1, d2, d3)
    ensures n / 0x40000 == d0 && n / 0x1000 % 64 == d1 && n / 0x40 % 64 == d2 && n % 64 == d3
  {
    DivideUnique(n, 64, d0 * 0x1000 + d1 * 0x40 + d2, d3);
    DivideUnique(n, 0x40, d0 * 0x1000 + d1 * 0x40 + d2, d3);
    DivideUnique(d0 * 0x1000 + d1 * 0x40 + d2, 64, d0 * 0x40 + d1, d2);
    DivideUnique(n, 0x1000, d0 * 0x40 + d1, d2 * 0x40 + d3);
    DivideUnique(d0 * 0x40 + d1, 64, d0, d1);
    DivideUnique(n, 0x40000, d0, d1 * 0x1000 + d2 * 0x40 + d3);
  }

  lemma SextetsIs(a: byte, b: byte, c: byte)
    ensures var n := a * 0x10000 + b * 0x100 + c;
      Sextets(a, b, c) == [n / 0x40000, n / 0x1000 % 64, n / 0x40 % 64, n % 64]
  {
    var d := Sextets(a, b, c);
    SextetsAreDigits(a, b, c);
    Digits(a * 0x10000 + b * 0x100 + c, d[0], d[1], d[2], d[3]);
  }

  /** Three bytes are four characters, in front of the text of the bytes after them. */
  lemma ThreeBytesText(a: byte, b: byte, c: byte, rest: seq<byte>)
    ensures var n := a * 0x10000 + b * 0x100 + c;
      n / 0x40000 < 64 && Encode([a, b, c] + rest) ==
        [Alphabet(n / 0x40000), Alphabet(n / 0x1000 % 64), Alphabet(n / 0x40 % 64), Alphabet(n % 64)] + Encode(rest)
  {
    var x := [a, b, c] + rest;
    assert x[..3] == [a, b, c] && x[3..] == rest;
    SextetsIs(a, b, c);
  }

  /** Two bytes are three characters and an equals sign. */
  lemma TwoBytesText(a: byte, b: byte)
    ensures var n := a * 0x10000 + b * 0x100;
      n / 0x40000 < 64 && Encode([a, b]) ==
        [Alphabet(n / 0x40000), Alphabet(n / 0x1000 % 64), Alphabet(n / 0x40 % 64), '=']
  {
    var n := a * 0x10000 + b * 0x100;
    SextetsIs(a, b, 0);
  }

  /** One byte is two characters and two equals signs. */
  lemma OneByteText(a: byte)
    ensures var n := a * 0x10000;
      n / 0x40000 < 64 && Encode([a]) == [Alphabet(n / 0x40000), Alphabet(n / 0x1000 % 64), '=', '=']
  {
    var n := a * 0x10000;
    SextetsIs(a, 0, 0);
  }

  /**
   * Four characters are the three bytes of their number, in front of the bytes of the text after them; of fewer, the
   * missing ones count as zero and as no byte.
   */
  lemma CharactersBytes(s: string, n: nat, rest: string)
    requires 2 <= |s| <= 4 && (rest == "" || |s| == 4)
    requires n == Position(s[0]) * 0x40000 + Position(s[1]) * 0x1000
      + (if |s| > 2 then Position(s[2]) * 0x40 else 0) + (if |s| > 3 then Position(s[3]) else 0)
    ensures Decode(s + rest) == [n / 0x100 / 0x100 % 0x100, n / 0x100 % 0x100, n % 0x100][..|s| - 1] + Decode(rest)
  {
    assert n == Block(s);
    if rest == "" {
      assert s + rest == s;
    } else {
      DecodeFullGroup(s, rest);
    }
  }

  /**
   * A text is accepted exactly if what precedes its first equals sign is not empty and in the alphabet, and the equals
   * signs, two at most, make its length a multiple of four.
   */
  lemma AcceptedExactly(p: string, tail: string)
    requires '=' !in p && (tail != "" ==> tail[0] == '=')
    ensures Accepts(p + tail) <==>
      (p != "" && InAlphabet(p) && Equals(tail) <= 2 && (|p| + Equals(tail)) % 4 == 0)
  {
    PrefixOnly(p, tail);
    PaddedIs(|p|, Equals(tail));
  }

  lemma PaddedIs(n: nat, equals: nat)
    ensures Padded(n, equals) <==> equals <= 2 && (n + equals) % 4 == 0
  {
    assert n == 4 * (n / 4) + n % 4;
  }
}
