/** Decimal printing and reading of big numbers, as done for a library that has neither. */
module Decimal {
  import opened Arith
  import opened Bytes
  import opened Mpint

  const ZERO: byte := 48
  const ULONG := 0x1_0000_0000_0000_0000

  // The size of the output buffer

  /** The digits reserved for a number of `bits` bits: 0.303 stands in for the logarithm of two, and two are spare. */
  function Reserved(bits: nat): nat {
    var size := bits * 3;
    size / 10 + size / 1000 + 2
  }

  lemma TwoToTheHundred()
    ensures Pow(2, 100) == 1267650600228229401496703205376
  {
    assert Pow(2, 5) == 32;
    PowAdd(2, 5, 5);
    PowAdd(2, 10, 10);
    PowAdd(2, 20, 20);
    PowAdd(2, 40, 40);
    PowAdd(2, 80, 20);
  }

  lemma ThirteenToTheTenth()
    ensures Pow(13, 10) < Pow(10, 12)
  {
    assert Pow(13, 5) == 371293;
    PowAdd(13, 5, 5);
    assert Pow(10, 6) == 1000000;
    PowAdd(10, 6, 6);
  }

  /** Because 2^100 < 13 * 10^29 and 13^10 < 10^12. */
  lemma TwoToTheThousand()
    ensures Pow(2, 1000) <= Pow(10, 303)
  {
    TwoToTheHundred();
    ThirteenTimes();
    ThirteenToTheTenth();
    var p := Pow(10, 290);
    calc {
      Pow(2, 1000);
      == { PowMul(2, 100, 10); }
      Pow(Pow(2, 100), 10);
      <= { PowMonotoneBase(Pow(2, 100), 13 * Pow(10, 29), 10); }
      Pow(13 * Pow(10, 29), 10);
      == { PowBaseMul(13, Pow(10, 29), 10); PowMul(10, 29, 10); }
      Pow(13, 10) * p;
      <= { MulMonotone(Pow(13, 10), p, Pow(10, 12), p); }
      Pow(10, 12) * p;
      == { PowAdd(10, 12, 290); }
      Pow(10, 302);
      <= { PowMonotoneExponent(10, 302, 303); }
      Pow(10, 303);
    }
  }

  lemma ThirteenTimes()
    ensures 13 * Pow(10, 29) == 1300000000000000000000000000000
  {
    assert Pow(10, 9) == 1000000000;
    PowAdd(10, 9, 9);
    PowAdd(10, 18, 9);
    PowAdd(10, 27, 2);
    assert Pow(10, 2) == 100;
  }

  /** For every bit count the reserved digits are enough: the integer approximation never truncates. */
  lemma ReservedIsEnough(b: nat)
    ensures Pow(2, b) <= Pow(10, Reserved(b))
  {
    var k := Reserved(b);
    TwoToTheThousand();
    PowMonotoneBase(Pow(2, 1000), Pow(10, 303), b);
    PowMul(2, 1000, b);
    PowMul(2, b, 1000);
    PowMul(10, 303, b);
    PowMul(10, k, 1000);
    assert 1000 * b == b * 1000;
    PowMonotoneExponent(10, 303 * b, k * 1000);
    PowReflectsOrder(Pow(2, b), Pow(10, k), 1000);
  }

  // What is printed and what is read

  /** The decimal digits of a number, most significant first, without leading zeros. */
  function Print(n: nat): seq<byte> {
    (if n < 10 then [] else Print(n / 10)) + [ZERO + n % 10]
  }

  /** The `width` low-order digits, leading zeros included. */
  function Padded(n: nat, width: nat): (r: seq<byte>)
    ensures |r| == width
  {
    if width == 0 then [] else Padded(n / 10, width - 1) + [ZERO + n % 10]
  }

  /** What one character adds: the difference to '0' of a signed character, as an unsigned long. */
  function Digit(c: byte): nat {
    ((if c >= 128 then c - 256 else c) - ZERO) % ULONG
  }

  function Parse(s: seq<byte>): nat {
    if s == [] then 0 else Parse(s[..|s| - 1]) * 10 + Digit(s[|s| - 1])
  }

  predicate IsDigits(s: seq<byte>) {
    forall i :: 0 <= i < |s| ==> ZERO <= s[i] <= ZERO + 9
  }

  /** Printing gives digits, and no leading zero for a positive number. */
  lemma {:induction false} PrintShape(n: nat)
    ensures Print(n) != [] && IsDigits(Print(n)) && (n > 0 ==> Print(n)[0] != ZERO)
  {
    if n >= 10 {
      PrintShape(n / 10);
    }
  }

  lemma DigitValue(d: nat)
    requires d < 10
    ensures Digit(ZERO + d) == d
  {
  }

  lemma ParseSnoc(s: seq<byte>, d: nat)
    requires d < 10
    ensures Parse(s + [ZERO + d]) == Parse(s) * 10 + d
  {
    var t := s + [ZERO + d];
    assert t[..|t| - 1] == s;
    DigitValue(d);
  }

  /** The digits are the characters '0' to '9', and each one read multiplies what was read before by ten. */
  lemma ParseDigit(s: seq<byte>, d: nat)
    requires d < 10
    ensures Parse([]) == 0 && Parse(s + [48 + d]) == 10 * Parse(s) + d
  {
    ParseSnoc(s, d);
  }

  /** Reading a printed number gives it back. */
  lemma {:induction false} ParsePrint(n: nat)
    ensures Parse(Print(n)) == n
  {
    if n < 10 {
      ParseSnoc([], n);
      assert [] + [ZERO + n] == Print(n);
    } else {
      ParsePrint(n / 10);
      ParseSnoc(Print(n / 10), n % 10);
    }
  }

  lemma {:induction false} ParsePositive(s: seq<byte>)
    requires s != [] && IsDigits(s) && s[0] != ZERO
    ensures Parse(s) > 0
  {
    var front := s[..|s| - 1];
    if front != [] {
      ParsePositive(front);
    } else {
      assert s[0] == s[|s| - 1];
    }
  }

  lemma PrintSnoc(n: nat, d: nat)
    requires n > 0 && d < 10
    ensures Print(n * 10 + d) == Print(n) + [ZERO + d]
  {
    assert (n * 10 + d) / 10 == n && (n * 10 + d) % 10 == d;
  }

  /** Printing a number that was read gives the text back, if it had no leading zero. */
  lemma {:induction false} PrintParse(s: seq<byte>)
    requires s != [] && IsDigits(s) && (s[0] != ZERO || |s| == 1)
    ensures Print(Parse(s)) == s
  {
    var front, last := s[..|s| - 1], s[|s| - 1];
    assert s == front + [last];
    assert Digit(last) == last - ZERO;
    if front == [] {
      assert Parse(front) == 0;
      assert [] + [last] == s;
    } else {
      PrintParse(front);
      ParsePositive(front);
      PrintSnoc(Parse(front), Digit(last));
    }
  }

  /** A padded number is its digits behind zeros. */
  lemma {:induction false} PaddedIsPrint(n: nat, width: nat)
    requires 0 < n < Pow(10, width)
    ensures |Print(n)| <= width
    ensures Padded(n, width) == seq(width - |Print(n)|, _ => ZERO) + Print(n)
  {
    if n >= 10 {
      PaddedIsPrint(n / 10, width - 1);
    } else {
      PaddedZero(width - 1);
      assert [] + [ZERO + n % 10] == Print(n);
    }
  }

  lemma {:induction false} PaddedZero(width: nat)
    ensures Padded(0, width) == seq(width, _ => ZERO)
  {
    if width > 0 {
      PaddedZero(width - 1);
    }
  }

  // The code

  /** The digit in `num`, put together bit by bit from the top. */
  method DigitOf(num: nat) returns (decnum: nat)
    requires num < 10
    ensures decnum == num
  {
    decnum := 0;
    var count := NumBits(num);
    NumBitsBounds(num);
    assert num / Pow(2, count) == 0;
    while count > 0
      invariant Pow(2, count) > 0 && decnum == num / Pow(2, count)
    {
      PowPositive(2, count - 1);
      HalfStep(num, Pow(2, count - 1));
      decnum := decnum * 2 + if BitSet(num, count - 1) then 1 else 0;
      count := count - 1;
    }
  }

  lemma HalfStep(n: nat, p: nat)
    requires p > 0
    ensures n / p == n / (2 * p) * 2 + (n / p) % 2
  {
    var q, e := n / p, n % p;
    var h, b := q / 2, q % 2;
    assert n == p * q + e;
    assert p * q == 2 * p * h + p * b by {
      assert q == 2 * h + b;
    }
    assert p * b <= p;
    DivideUnique(n, 2 * p, h, p * b + e);
  }

  lemma LowestDigit(n: nat, count: nat, low: seq<byte>)
    requires count > 0
    ensures Padded(n / 10, count - 1) + ([n % 10 + ZERO] + low) == Padded(n, count) + low
  {
    assert Padded(n, count) == Padded(n / 10, count - 1) + [n % 10 + ZERO];
  }

  /** All digits from the lowest one up, with leading zeros. */
  method WriteDigits(ret: array<byte>, rsize: nat, bn: nat)
    requires rsize < ret.Length
    modifies ret
    ensures ret[..rsize] == Padded(bn, rsize)
  {
    var bndup, count := bn, rsize;
    while count > 0
      invariant 0 <= count <= rsize
      invariant Padded(bndup, count) + ret[count..rsize] == Padded(bn, rsize)
    {
      ghost var low := ret[count..rsize];
      LowestDigit(bndup, count, low);
      var num := bndup % 10;
      bndup := bndup / 10;
      var decnum := DigitOf(num);
      ret[count - 1] := decnum + ZERO;
      count := count - 1;
      assert ret[count..rsize] == [decnum + ZERO] + low;
    }
  }

  /** Print into an array of the reserved size plus a terminator. */
  method Bn2Dec(bn: nat) returns (ret: array<byte>, ghost len: nat)
    ensures ret.Length == Reserved(NumBits(bn)) + 1
    ensures len < ret.Length && ret[len] == 0 && ret[..len] == Print(bn)
  {
    var size := NumBits(bn) * 3;
    var rsize := size / 10 + size / 1000 + 2;
    ret := new byte[rsize + 1](_ => 0);
    if bn == 0 {
      ret[0], ret[1] := ZERO, 0;
      len := 1;
      assert ret[..1] == [ZERO] == Print(0);
      return;
    }
    NumBitsBounds(bn);
    ReservedIsEnough(NumBits(bn));
    WriteDigits(ret, rsize, bn);
    len := Strip(ret, rsize, bn);
  }

  /** The text is preceded by `zeros` zeros in the first `rsize` bytes. */
  ghost predicate Preceded(bytes: seq<byte>, text: seq<byte>, zeros: nat) {
    && |bytes| == zeros + |text| && text != [] && text[0] != ZERO
    && (forall i :: 0 <= i < zeros ==> bytes[i] == ZERO)
    && (forall i :: 0 <= i < |text| ==> bytes[zeros + i] == text[i])
  }

  lemma PaddedIsPreceded(bn: nat, rsize: nat)
    requires 0 < bn < Pow(10, rsize)
    ensures |Print(bn)| <= rsize && Preceded(Padded(bn, rsize), Print(bn), rsize - |Print(bn)|)
  {
    PaddedIsPrint(bn, rsize);
    PrintShape(bn);
  }

  /** Count the leading zeros. */
  method CountZeros(ret: array<byte>, rsize: nat, ghost text: seq<byte>, ghost zeros: nat) returns (count: nat)
    requires rsize <= ret.Length && Preceded(ret[..rsize], text, zeros)
    ensures count == zeros
  {
    count := 0;
    assert ret[..rsize][zeros + 0] == text[0];
    while count < rsize && ret[count] == ZERO
      invariant 0 <= count <= zeros
    {
      assert ret[count] == ret[..rsize][count];
      count := count + 1;
    }
  }

  /** Move the text to the front and terminate it. */
  method MoveDown(ret: array<byte>, rsize: nat, count: nat, ghost text: seq<byte>) returns (ghost len: nat)
    requires ret.Length == rsize + 1 && Preceded(ret[..rsize], text, count)
    modifies ret
    ensures len <= rsize && ret[len] == 0 && ret[..len] == text
  {
    assert forall i :: 0 <= i < |text| ==> ret[count + i] == ret[..rsize][count + i] == text[i];
    var count2 := 0;
    while count2 < rsize - count
      invariant 0 <= count2 <= rsize - count
      invariant forall i :: 0 <= i < count2 ==> ret[i] == text[i]
      invariant forall i :: count2 <= i < |text| ==> ret[count + i] == text[i]
    {
      ret[count2] := ret[count2 + count];
      count2 := count2 + 1;
    }
    ret[count2] := 0;
    len := count2;
  }

  /** Drop the leading zeros, in place. */
  method Strip(ret: array<byte>, rsize: nat, ghost bn: nat) returns (ghost len: nat)
    requires ret.Length == rsize + 1 && 0 < bn < Pow(10, rsize) && ret[..rsize] == Padded(bn, rsize)
    modifies ret
    ensures len <= rsize && ret[len] == 0 && ret[..len] == Print(bn)
  {
    PaddedIsPreceded(bn, rsize);
    var count := CountZeros(ret, rsize, Print(bn), rsize - |Print(bn)|);
    len := MoveDown(ret, rsize, count, Print(bn));
  }

  /** Read up to the terminator; the count of characters is returned. */
  method Dec2Bn(data: seq<byte>) returns (bn: nat, count: nat)
    requires 0 in data
    ensures count < |data| && data[count] == 0 && forall i :: 0 <= i < count ==> data[i] != 0
    ensures bn == Parse(data[..count])
  {
    bn, count := 0, 0;
    while data[count] != 0
      invariant count < |data| && 0 in data[count..] && forall i :: 0 <= i < count ==> data[i] != 0
      invariant bn == Parse(data[..count])
      decreases |data| - count
    {
      bn := bn * 10;
      bn := bn + Digit(data[count]);
      assert data[..count + 1][..count] == data[..count];
      assert data[count..] == [data[count]] + data[count + 1..];
      count := count + 1;
    }
  }

  /** Reading back what was printed, terminator included, gives the number. */
  method PrintThenRead(bn: nat) returns (back: nat)
    ensures back == bn
  {
    var ret;
    ghost var len;
    ret, len := Bn2Dec(bn);
    var count;
    assert ret[..][len] == 0;
    back, count := Dec2Bn(ret[..]);
    PrintShape(bn);
    assert forall i :: 0 <= i < len ==> ret[..][i] == ret[..len][i] == Print(bn)[i];
    assert count == len;
    assert ret[..][..count] == ret[..len];
    ParsePrint(bn);
  }
}
