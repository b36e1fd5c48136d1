/** Floor and ceiling division of naturals, characterised by the two Galois
    connections every rounding argument of the project goes through. */
module Arith {

  /** Quotient rounded up, written as the quotient-and-remainder test of the quoting code. */
  function CeilDiv(a: nat, b: nat): (q: nat)
    requires b > 0
  {
    if a % b == 0 then a / b else a / b + 1
  }

  lemma MulMono(a: int, b: int, c: int)
    requires a <= b && 0 <= c
    ensures a * c <= b * c
    ensures c * a <= c * b
  {
    assert (b - a) * c >= 0;
    assert (b - a) * c == b * c - a * c;
  }

  /** a * c <= b * d for componentwise larger non-negative factors. */
  lemma MulMono2(a: int, b: int, c: int, d: int)
    requires 0 <= a <= b && 0 <= c <= d
    ensures a * c <= b * d
  {
    MulMono(a, b, c);
    MulMono(c, d, b);
  }

  lemma MulCancel(a: int, b: int, c: int)
    requires a * c <= b * c && 0 < c
    ensures a <= b
  {
    if a > b { MulMono(b + 1, a, c); }
  }

  lemma DivBounds(a: nat, b: nat)
    requires b > 0
    ensures (a / b) * b <= a < (a / b) * b + b
    ensures 0 <= a / b
  {
  }

  lemma FloorGalois(a: nat, b: nat, q: int)
    requires b > 0
    ensures q <= a / b <==> q * b <= a
  {
    DivBounds(a, b);
    if q <= a / b {
      MulMono(q, a / b, b);
    } else {
      MulMono(a / b + 1, q, b);
    }
  }

  lemma CeilBounds(a: nat, b: nat)
    requires b > 0
    ensures (CeilDiv(a, b) - 1) * b < a <= CeilDiv(a, b) * b
  {
    assert a == (a / b) * b + a % b;
    if a % b == 0 {
      assert (CeilDiv(a, b) - 1) * b == (a / b) * b - b;
    } else {
      assert CeilDiv(a, b) * b == (a / b) * b + b;
    }
  }

  lemma CeilGalois(a: nat, b: nat, q: int)
    requires b > 0
    ensures CeilDiv(a, b) <= q <==> a <= q * b
  {
    CeilBounds(a, b);
    if CeilDiv(a, b) <= q {
      MulMono(CeilDiv(a, b), q, b);
    } else {
      MulMono(q, CeilDiv(a, b) - 1, b);
    }
  }

  lemma FloorMono(a: nat, a': nat, b: nat)
    requires a <= a' && b > 0
    ensures a / b <= a' / b
  {
    DivBounds(a, b);
    FloorGalois(a', b, a / b);
  }

  /** A smaller numerator over a larger denominator. */
  lemma CeilAntitone(a: nat, a': nat, d: nat, d': nat)
    requires a' <= a && 0 < d <= d'
    ensures CeilDiv(a', d') <= CeilDiv(a, d)
  {
    CeilBounds(a, d);
    MulMono(d, d', CeilDiv(a, d));
    CeilGalois(a', d', CeilDiv(a, d));
  }

  lemma FloorLeCeil(a: nat, b: nat)
    requires b > 0
    ensures a / b <= CeilDiv(a, b) <= a / b + 1
  {
  }

  /** Rounding up twice is rounding up once by the product. */
  lemma CeilNested(x: nat, b: nat, a: nat)
    requires a > 0 && b > 0
    ensures a * b > 0 && CeilDiv(CeilDiv(x, b), a) == CeilDiv(x, a * b)
  {
    MulMono(1, a, b);
    CeilTwice(x, b, a, CeilDiv(CeilDiv(x, b), a));
    CeilTwice(x, b, a, CeilDiv(x, a * b));
  }

  lemma CeilTwice(x: nat, b: nat, a: nat, q: int)
    requires a > 0 && b > 0 && a * b > 0
    ensures CeilDiv(CeilDiv(x, b), a) <= q <==> CeilDiv(x, a * b) <= q
  {
    CeilGalois(CeilDiv(x, b), a, q);
    CeilGalois(x, b, q * a);
    CeilGalois(x, a * b, q);
    assert (q * a) * b == q * (a * b);
  }

  /** Rounding down twice is rounding down once by the product. */
  lemma FloorNested(x: nat, b: nat, a: nat)
    requires a > 0 && b > 0
    ensures a * b > 0 && (x / b) / a == x / (a * b)
  {
    MulMono(1, a, b);
    FloorTwice(x, b, a, (x / b) / a);
    FloorTwice(x, b, a, x / (a * b));
  }

  lemma FloorTwice(x: nat, b: nat, a: nat, q: int)
    requires a > 0 && b > 0 && a * b > 0
    ensures q <= (x / b) / a <==> q <= x / (a * b)
  {
    FloorGalois(x / b, a, q);
    FloorGalois(x, b, q * a);
    FloorGalois(x, a * b, q);
    assert (q * a) * b == q * (a * b);
  }

  /** A floored difference never exceeds the difference of the floors by more than rounding. */
  lemma FloorGap(u: nat, v: nat, d: nat)
    requires v <= u && d > 0
    ensures u / d - v / d >= (u - v) / d
  {
    DivBounds(v, d);
    DivBounds(u - v, d);
    assert ((u - v) / d + v / d) * d == ((u - v) / d) * d + (v / d) * d;
    FloorGalois(u, d, (u - v) / d + v / d);
  }

  function Pow2(i: nat): (p: nat)
    ensures p > 0
  {
    if i == 0 then 1 else 2 * Pow2(i - 1)
  }

  lemma {:induction false} Pow2Sum(i: nat, j: nat)
    ensures Pow2(i + j) == Pow2(i) * Pow2(j)
  {
    if i > 0 { Pow2Sum(i - 1, j); }
  }

  /** a >> i */
  function ShiftRight(a: nat, i: nat): nat {
    DivBounds(a, Pow2(i));
    a / Pow2(i)
  }

  lemma ShiftOnce(a: nat, i: nat)
    ensures ShiftRight(a, i) / 2 == ShiftRight(a, i + 1)
  {
    FloorNested(a, Pow2(i), 2);
  }

  /** Squaring a known power of two; the exponent comes back as a variable so that the
      solver never unrolls it. */
  lemma Doubled(i: nat, p: nat) returns (k: nat)
    requires Pow2(i) == p
    ensures k == 2 * i && Pow2(k) == p * p
  {
    Pow2Sum(i, i);
    k := i + i;
  }
}
