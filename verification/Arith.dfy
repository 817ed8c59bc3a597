/** Exponentiation and the few facts about it that the number codecs and the key agreement need. */
module Arith {

  function Pow(b: nat, e: nat): nat {
    if e == 0 then 1 else b * Pow(b, e - 1)
  }

  lemma {:induction false} PowAdd(b: nat, x: nat, y: nat)
    ensures Pow(b, x + y) == Pow(b, x) * Pow(b, y)
  {
    if x > 0 {
      PowAdd(b, x - 1, y);
      calc {
        Pow(b, x + y);
        b * Pow(b, x - 1 + y);
        b * (Pow(b, x - 1) * Pow(b, y));
        { MulAssoc(b, Pow(b, x - 1), Pow(b, y)); }
        Pow(b, x) * Pow(b, y);
      }
    }
  }

  lemma MulAssoc(a: int, b: int, c: int)
    ensures a * (b * c) == (a * b) * c
  {
  }

  /** An exponent that is a product is a power of a power. */
  lemma {:induction false} PowMul(b: nat, x: nat, y: nat)
    ensures Pow(b, x * y) == Pow(Pow(b, x), y)
  {
    if y > 0 {
      PowMul(b, x, y - 1);
      assert x * y == x + x * (y - 1);
      PowAdd(b, x, x * (y - 1));
    } else {
      assert x * y == 0;
    }
  }

  lemma {:induction false} PowBaseMul(a: nat, b: nat, e: nat)
    ensures Pow(a * b, e) == Pow(a, e) * Pow(b, e)
  {
    if e > 0 {
      PowBaseMul(a, b, e - 1);
      var x, y := Pow(a, e - 1), Pow(b, e - 1);
      assert (a * b) * (x * y) == (a * x) * (b * y) by {
        MulAssoc(a * b, x, y);
        MulAssoc(a, b, x);
        MulAssoc(a, x, b);
        MulAssoc(a * x, b, y);
      }
    }
  }

  lemma {:induction false} PowPositive(b: nat, e: nat)
    requires b > 0
    ensures Pow(b, e) > 0
  {
    if e > 0 {
      PowPositive(b, e - 1);
    }
  }

  lemma MulMonotone(a: nat, b: nat, c: nat, d: nat)
    requires a <= c && b <= d
    ensures a * b <= c * d
  {
    assert a * b <= c * b;
    assert c * b <= c * d;
  }

  lemma {:induction false} PowMonotoneBase(a: nat, b: nat, e: nat)
    requires a <= b
    ensures Pow(a, e) <= Pow(b, e)
  {
    if e > 0 {
      PowMonotoneBase(a, b, e - 1);
      MulMonotone(a, Pow(a, e - 1), b, Pow(b, e - 1));
    }
  }

  lemma PowMonotoneExponent(b: nat, x: nat, y: nat)
    requires b > 0 && x <= y
    ensures Pow(b, x) <= Pow(b, y)
  {
    PowAdd(b, x, y - x);
    PowPositive(b, y - x);
    MulMonotone(Pow(b, x), 1, Pow(b, x), Pow(b, y - x));
  }

  lemma {:induction false} PowStrictBase(a: nat, b: nat, e: nat)
    requires a < b && e > 0
    ensures Pow(a, e) < Pow(b, e)
  {
    PowMonotoneBase(a, b, e - 1);
    PowPositive(b, e - 1);
    var x, y := Pow(a, e - 1), Pow(b, e - 1);
    MulMonotone(a, x, a, y);
    assert a * y < b * y by {
      assert b * y == a * y + (b - a) * y;
      MulMonotone(1, y, b - a, y);
    }
  }

  /** The order of two numbers can be read off any positive power of them. */
  lemma PowReflectsOrder(a: nat, b: nat, e: nat)
    requires e > 0 && Pow(a, e) <= Pow(b, e)
    ensures a <= b
  {
    if b < a {
      PowStrictBase(b, a, e);
    }
  }

  /** Quotient and remainder are the only numbers that fit. */
  lemma DivideUnique(n: nat, p: nat, k: nat, r: nat)
    requires p > 0 && n == p * k + r && r < p
    ensures n / p == k && n % p == r
  {
    var d, e := n / p, n % p;
    assert n == p * d + e && p * (d + 1) == p * d + p && p * (k + 1) == p * k + p;
    if d < k {
      MulMonotone(p, d + 1, p, k);
    } else if d > k {
      MulMonotone(p, k + 1, p, d);
    }
  }
}
