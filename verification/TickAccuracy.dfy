/** How close tick prices are to 2^96 * 1.0001^(tick / 2): the multiplier table is the right
    one, and flooring after every multiplication costs at most 30 units of 2^-128. */
module TickAccuracy {
  import opened Arith
  import opened U256
  import opened TickMath

  const Q192: int := 0x1_00000000_00000000_00000000_00000000_00000000_00000000
  const R128: real := 340282366920938463463374607431768211456.0
  const R192: real := 6277101735386680763835789423207666416102355444464034512896.0
  const Q64: int := 0x1_00000000_00000000

  function Power(x: real, n: nat): real {
    if n == 0 then 1.0 else x * Power(x, n - 1)
  }

  /** r = 1.0001^(-1/2) */
  predicate TickRoot(r: real) {
    0.0 < r && r * r * 10001.0 == 10000.0
  }

  // ---------- Real arithmetic ----------

  lemma RealMono(a: real, b: real, c: real)
    requires a <= b && 0.0 <= c
    ensures a * c <= b * c
    ensures c * a <= c * b
  {
    assert (b - a) * c >= 0.0;
    assert (b - a) * c == b * c - a * c;
  }

  lemma {:induction false} CastMul(a: nat, b: nat)
    ensures (a * b) as real == a as real * b as real
  {
    if a > 0 {
      CastMul(a - 1, b);
      assert a * b == (a - 1) * b + b;
    }
  }

  lemma {:induction false} PowerSum(x: real, m: nat, n: nat)
    ensures Power(x, m + n) == Power(x, m) * Power(x, n)
  {
    if m > 0 { PowerSum(x, m - 1, n); }
  }

  lemma {:induction false} PowerUnit(x: real, n: nat)
    requires 0.0 < x <= 1.0
    ensures 0.0 < Power(x, n) <= 1.0
  {
    if n > 0 {
      PowerUnit(x, n - 1);
      RealMono(x, 1.0, Power(x, n - 1));
    }
  }

  lemma RootBelowOne(r: real)
    requires TickRoot(r)
    ensures r <= 1.0
  {
    if r > 1.0 { RealMono(1.0, r, r); }
  }

  lemma SquareGrows(a: real, b: real)
    requires 0.0 <= a < b
    ensures a * a < b * b
  {
    var d := b - a;
    assert d * d > 0.0;
    assert d * a >= 0.0;
    assert b * b == a * a + 2.0 * (d * a) + d * d;
  }

  // ---------- Repeated squares to 192 bits ----------

  /** Entry i is 2^192 * 1.0001^(-2^i / 2), the first one floored and each next one the
      floored square of the one before. */
  ghost const SQUARES: seq<nat> := [
    0xfffcb933bd6fad37aa2d162d1a594001733071ca63262237, 0xfff97272373d413259a46990580e2139b8e3eb6b6eb57c60,
    0xfff2e50f5f656932ef12357cf3c7fdcb98a5078da53efa25, 0xffe5caca7e10e4e61c3624eaa0941ccff04a8a212009f024,
    0xffcb9843d60f6159c9db58835c926643ad7c09ed8821ecf5, 0xff973b41fa98c081472e6896dfb254bf81ef047c569db3a2,
    0xff2ea16466c96a3843ec78b326b5286097e9315c35bffb3b, 0xfe5dee046a99a2a811c461f1969c3052f544235f4d64fd85,
    0xfcbe86c7900a88aedcffc83b479aa3a3dc268667328f4b13, 0xf987a7253ac413176f2b074cf7815e53facbf1906fa659ad,
    0xf3392b0822b70005940c7a398e4b70f2ca02c578b1d41f50, 0xe7159475a2c29b7443b29c7fa6e889d89a78853263da3752,
    0xd097f3bdfd2022b8845ad8f792aa58256a3df3fc12a5ba57, 0xa9f746462d870fdf8a65dc1f90e061e4fa160424952d4740,
    0x70d869a156d2a1b890bb3df62baf32f6c49744d5020b4d6e, 0x31be135f97d08fd981231505542fcfa586c1e84cfea49fad,
    0x9aa508b5b7a84e1c677de54f3e99bc8fdac1d580d2e9b01, 0x5d6af8dedb81196699c329225ee6044e0e6dc91bb283db,
    0x2216e584f5fa1ea926041bedfe97b74dcb4ff36b9c96, 0x48a170391f7dc42444e8fa23b8ad7d66987e9cb
  ]

  lemma FirstSquare()
    ensures |SQUARES| == BITS
    ensures SQUARES[0] * SQUARES[0] * 10001 <= Q192 * Q192 * 10000 < (SQUARES[0] + 1) * (SQUARES[0] + 1) * 10001
  {
  }

  function Square(x: nat): nat {
    assert x * x >= 0;
    x * x / Q192
  }

  ghost predicate Squared(squares: seq<nat>) {
    forall k :: 0 <= k < |squares| - 1 ==> squares[k + 1] == Square(squares[k])
  }

  ghost predicate BelowOne(squares: seq<nat>) {
    forall k :: 0 <= k < |squares| ==> squares[k] <= Q192
  }

  ghost predicate SquaredBetween(squares: seq<nat>, from: nat, to: nat)
    requires from <= to < |squares|
  {
    forall k :: from <= k < to ==> squares[k + 1] == Square(squares[k])
  }

  lemma LowSquares()
    ensures |SQUARES| == BITS && SquaredBetween(SQUARES, 0, 10)
  {
  }

  lemma HighSquares()
    ensures |SQUARES| == BITS && SquaredBetween(SQUARES, 10, 19)
  {
  }

  lemma SquaresChained()
    ensures Squared(SQUARES)
  {
    hide Square;
    LowSquares();
    HighSquares();
  }

  lemma SquaresBelowOne()
    ensures BelowOne(SQUARES)
  {
  }

  /** Twice the drift that 19 squarings can accumulate. */
  const ROOM: int := 2 * 0x10_0000

  /** Each factor is its square rounded to the nearest 128-bit value, drift included. */
  ghost predicate Rounded(factors: seq<nat>, squares: seq<nat>) {
    && |factors| == |squares|
    && forall k :: 0 <= k < |factors| ==> Nearest(factors[k], squares[k])
  }

  predicate Nearest(factor: nat, square: nat) {
    -Q64 < 2 * (factor * Q64 - square) - ROOM && 2 * (factor * Q64 - square) + ROOM < Q64
  }

  lemma FactorsRounded()
    ensures Rounded(FACTORS, SQUARES)
  {
  }

  lemma SquaresApart(t: real, u: real, y: real, e: real)
    requires 0.0 <= u <= t && 0.0 <= y <= t && -e <= u - y <= e
    ensures -(2.0 * e * t) <= u * u - y * y <= 2.0 * e * t
  {
    assert u * u - y * y == (u - y) * (u + y);
    RealMono(u - y, e, u + y);
    RealMono(-e, u - y, u + y);
    RealMono(u + y, 2.0 * t, e);
  }

  lemma SquareReals(u: nat)
    ensures var u', v := u as real, Square(u) as real; v * R192 <= u' * u' < v * R192 + R192
  {
    CastMul(u, u);
    DivBounds(u * u, Q192);
  }

  lemma FlooredSquare(u: real, v: real, x: real, e: real)
    requires v * R192 <= u * u < v * R192 + R192
    requires -(2.0 * e * R192) <= u * u - (R192 * x) * (R192 * x) <= 2.0 * e * R192
    ensures -(2.0 * e + 1.0) <= v - R192 * (x * x) <= 2.0 * e + 1.0
  {
    assert (R192 * x) * (R192 * x) == R192 * R192 * (x * x);
  }

  /** One squaring at most doubles an error, and flooring adds one. */
  lemma SquareDrift(u: nat, x: real, e: real)
    requires u <= Q192 && 0.0 <= x <= 1.0
    requires -e <= u as real - R192 * x <= e
    ensures -(2.0 * e + 1.0) <= Square(u) as real - R192 * (x * x) <= 2.0 * e + 1.0
  {
    hide Square;
    SquareReals(u);
    SquaresApart(R192, u as real, R192 * x, e);
    FlooredSquare(u as real, Square(u) as real, x, e);
  }

  /** The k-th square is that of 1.0001^(-1/2), up to its drift. */
  lemma FirstDrift(r: real)
    requires TickRoot(r)
    ensures -1.0 <= SQUARES[0] as real - R192 * r <= 1.0
  {
    FirstSquare();
    var s := SQUARES[0];
    CastMul(s, s);
    CastMul(s + 1, s + 1);
    var y, low, high := R192 * r, s as real, (s + 1) as real;
    assert y * y == R192 * R192 * (r * r);
    if y < low { SquareGrows(y, low); }
    if high < y { SquareGrows(high, y); }
  }

  lemma PowerDoubled(x: real, k: nat)
    requires 0.0 < x <= 1.0 && 0 < k
    ensures Pow2(k) == 2 * Pow2(k - 1)
    ensures 0.0 < Power(x, Pow2(k - 1)) <= 1.0
    ensures Power(x, Pow2(k)) == Power(x, Pow2(k - 1)) * Power(x, Pow2(k - 1))
  {
    PowerUnit(x, Pow2(k - 1));
    PowerSum(x, Pow2(k - 1), Pow2(k - 1));
  }

  function DriftBound(k: nat): real {
    2.0 * Pow2(k) as real - 1.0
  }

  /** One more squaring, of the k-th square. */
  lemma NextDrift(s: nat, r: real, k: nat)
    requires 0 < k && 0.0 < r <= 1.0 && s <= Q192
    ensures -DriftBound(k - 1) <= s as real - R192 * Power(r, Pow2(k - 1)) <= DriftBound(k - 1) ==>
              -DriftBound(k) <= Square(s) as real - R192 * Power(r, Pow2(k)) <= DriftBound(k)
  {
    hide Power, Square, Pow2;
    var x, e := Power(r, Pow2(k - 1)), DriftBound(k - 1);
    PowerDoubled(r, k);
    assert DriftBound(k) == 2.0 * e + 1.0;
    if -e <= s as real - R192 * x <= e { SquareDrift(s, x, e); }
  }

  lemma {:induction false} Drift(squares: seq<nat>, r: real, k: nat)
    requires Squared(squares) && BelowOne(squares) && k < |squares| && 0.0 < r <= 1.0
    requires -1.0 <= squares[0] as real - R192 * r <= 1.0
    ensures -DriftBound(k) <= squares[k] as real - R192 * Power(r, Pow2(k)) <= DriftBound(k)
  {
    if k == 0 {
      PowerOne(r);
      assert Pow2(0) == 1;
    } else {
      Drift(squares, r, k - 1);
      NextDrift(squares[k - 1], r, k);
    }
  }

  lemma PowerOne(x: real)
    ensures Power(x, 1) == x
  {
  }

  lemma {:induction false} Pow2Mono(i: nat, j: nat)
    requires i <= j
    ensures Pow2(i) <= Pow2(j)
  {
    if i < j { Pow2Mono(i, j - 1); }
  }

  lemma NearestIs(factor: nat, square: nat, x: real, drift: real)
    requires Nearest(factor, square) && -drift <= square as real - R192 * x <= drift <= 1048576.0
    ensures -0.5 < factor as real - R128 * x < 0.5
  {
    var f, s := factor as real, square as real;
    assert (2 * (factor * Q64 - square)) as real == 2.0 * (f * 18446744073709551616.0 - s);
    assert -18446744073709551616.0 + 2097152.0 < 2.0 * (f * 18446744073709551616.0 - s) < 18446744073709551616.0 - 2097152.0;
    assert -18446744073709551616.0 < 2.0 * (f * 18446744073709551616.0 - R192 * x) < 18446744073709551616.0;
  }

  lemma DriftSmall(k: nat)
    requires k < 20
    ensures DriftBound(k) <= 1048576.0
  {
    Pow2Mono(k, 19);
    assert Pow2(19) == 0x8_0000 by { assert Pow2(10) == 1024; }
  }

  lemma SquaresDrift(r: real, k: nat)
    requires TickRoot(r) && k < |SQUARES|
    ensures -DriftBound(k) <= SQUARES[k] as real - R192 * Power(r, Pow2(k)) <= DriftBound(k)
  {
    SquaresChained();
    SquaresBelowOne();
    RootBelowOne(r);
    FirstDrift(r);
    Drift(SQUARES, r, k);
  }

  /** Every multiplier is the integer nearest to its exact value. */
  ghost predicate NearestFactors(factors: seq<nat>, r: real) {
    forall k :: 0 <= k < |factors| ==> factors[k] <= Q128 && -0.5 < factors[k] as real - R128 * Power(r, Pow2(k)) < 0.5
  }

  lemma NearestToSquares(factors: seq<nat>, squares: seq<nat>, r: real, k: nat)
    requires Rounded(factors, squares) && k < |factors| == 20
    requires -DriftBound(k) <= squares[k] as real - R192 * Power(r, Pow2(k)) <= DriftBound(k)
    ensures -0.5 < factors[k] as real - R128 * Power(r, Pow2(k)) < 0.5
  {
    hide Power, Pow2, DriftBound, Nearest;
    DriftSmall(k);
    NearestIs(factors[k], squares[k], Power(r, Pow2(k)), DriftBound(k));
  }

  lemma FactorsAreNearest(r: real)
    requires TickRoot(r)
    ensures NearestFactors(FACTORS, r)
  {
    hide Power, Pow2, DriftBound, Nearest, Rounded;
    FirstSquare();
    FactorsRounded();
    TableSeparated();
    forall k | 0 <= k < |FACTORS|
      ensures FACTORS[k] <= Q128 && -0.5 < FACTORS[k] as real - R128 * Power(r, Pow2(k)) < 0.5
    {
      SquaresDrift(r, k);
      NearestToSquares(FACTORS, SQUARES, r, k);
    }
  }

  // ---------- Floored products ----------

  lemma ProductNonNegative(a: real, b: real)
    requires 0.0 <= a && 0.0 <= b
    ensures 0.0 <= a * b
  {
  }

  lemma FactorError(u: real, d: real)
    requires 0.0 <= u <= R128 && -0.5 < d < 0.5
    ensures -(0.5 * R128) <= u * d <= 0.5 * R128
  {
    ProductNonNegative(u, 0.5 - d);
    ProductNonNegative(u, d + 0.5);
    assert u * (0.5 - d) == 0.5 * u - u * d;
    assert u * (d + 0.5) == u * d + 0.5 * u;
  }

  lemma RestError(d: real, y: real, low: real, high: real)
    requires -low <= d <= high && 0.0 <= y <= 1.0 && 0.0 <= low && 0.0 <= high
    ensures -low <= d * y <= high
  {
    ProductNonNegative(high - d, y);
    ProductNonNegative(high, 1.0 - y);
    ProductNonNegative(d + low, y);
    ProductNonNegative(low, 1.0 - y);
    assert (high - d) * y == high * y - d * y;
    assert high * (1.0 - y) == high - high * y;
    assert (d + low) * y == d * y + low * y;
    assert low * (1.0 - y) == low - low * y;
  }

  lemma ScaleReals(v: nat, factor: nat)
    ensures var u, f, w := v as real, factor as real, Scale(v, factor) as real; w * R128 <= u * f < w * R128 + R128
  {
    CastMul(v, factor);
    DivBounds(v * factor, Q128);
  }

  /** The error of a product, from the errors of its factors. */
  lemma ErrorsAdd(u: real, f: real, x: real, y: real)
    ensures u * f - R128 * R128 * (x * y) == u * (f - R128 * y) + R128 * ((u - R128 * x) * y)
  {
    assert u * (f - R128 * y) == u * f - R128 * (u * y);
    assert (u - R128 * x) * y == u * y - R128 * (x * y);
  }

  lemma ProductError(u: real, f: real, x: real, y: real, low: real, high: real)
    requires 0.0 <= u <= R128 && 0.0 <= y <= 1.0 && 0.0 <= low && 0.0 <= high
    requires -low <= u - R128 * x <= high && -0.5 < f - R128 * y < 0.5
    ensures -(low + 0.5) * R128 <= u * f - R128 * R128 * (x * y) <= (high + 0.5) * R128
  {
    ErrorsAdd(u, f, x, y);
    FactorError(u, f - R128 * y);
    RestError(u - R128 * x, y, low, high);
  }

  lemma FlooredError(w: real, product: real, exact: real, low: real, high: real)
    requires w * R128 <= product < w * R128 + R128
    requires -(low + 0.5) * R128 <= product - R128 * R128 * exact <= (high + 0.5) * R128
    ensures -(low + 1.5) <= w - R128 * exact <= high + 0.5
  {
    assert (w - R128 * exact) * R128 == w * R128 - R128 * R128 * exact;
    assert (w - R128 * exact) * R128 <= (high + 0.5) * R128;
    assert -(low + 1.5) * R128 <= (w - R128 * exact) * R128;
  }

  /** One multiplication adds half a unit for its factor and one for the floor. */
  lemma ScaleError(v: nat, factor: nat, x: real, y: real, low: real, high: real)
    requires v <= Q128 && 0.0 <= y <= 1.0 && 0.0 <= low && 0.0 <= high
    requires -low <= v as real - R128 * x <= high
    requires -0.5 < factor as real - R128 * y < 0.5
    ensures -(low + 1.5) <= Scale(v, factor) as real - R128 * (x * y) <= high + 0.5
  {
    hide Scale;
    var u, f := v as real, factor as real;
    ScaleReals(v, factor);
    ProductError(u, f, x, y, low, high);
    FlooredError(Scale(v, factor) as real, u * f, x * y, low, high);
  }

  /** Within what the given number of multiplications can lose or gain. */
  predicate Close(v: nat, x: real, scalings: nat) {
    -1.5 * scalings as real <= v as real - R128 * x <= 0.5 * scalings as real
  }

  lemma ScaleClose(v: nat, factor: nat, r: real, m: nat, n: nat, scalings: nat)
    requires v <= Q128 && factor <= Q128 && 0.0 < r <= 1.0
    requires Close(v, Power(r, m), scalings)
    requires -0.5 < factor as real - R128 * Power(r, n) < 0.5
    ensures Close(Scale(v, factor), Power(r, m + n), scalings + 1)
  {
    hide Power, Scale;
    PowerUnit(r, m);
    PowerUnit(r, n);
    PowerSum(r, m, n);
    ScaleError(v, factor, Power(r, m), Power(r, n), 1.5 * scalings as real, 0.5 * scalings as real);
  }

  /** The bits of high, from position i, multiply by the power they stand for. */
  lemma {:induction false} FoldClose(factors: seq<nat>, r: real, v: nat, m: nat, i: nat, high: nat)
    requires NearestFactors(factors, r) && 0.0 < r <= 1.0 && i <= |factors| && high < Pow2(|factors| - i)
    requires v <= Q128 && Close(v, Power(r, m), i)
    ensures high * Pow2(i) >= 0 && Close(Fold(factors, v, i, high), Power(r, m + high * Pow2(i)), |factors|)
    decreases |factors| - i
  {
    hide Power, Scale, Close;
    if i == |factors| {
      assert m + high * Pow2(i) == m;
    } else {
      assert Pow2(i + 1) == 2 * Pow2(i);
      assert high * Pow2(i) == (high / 2) * Pow2(i + 1) + (high % 2) * Pow2(i);
      if high % 2 == 1 {
        ScaleClose(v, factors[i], r, m, Pow2(i), i);
        ScaleMono(v, 0, factors[i]);
        FoldClose(factors, r, Scale(v, factors[i]), m + Pow2(i), i + 1, high / 2);
      } else {
        StaysClose(v, Power(r, m), i);
        FoldClose(factors, r, v, m, i + 1, high / 2);
      }
    }
  }

  lemma StaysClose(v: nat, x: real, scalings: nat)
    requires Close(v, x, scalings)
    ensures Close(v, x, scalings + 1)
  {
  }

  lemma WholeFoldClose(factors: seq<nat>, r: real, a: nat)
    requires NearestFactors(factors, r) && 0.0 < r <= 1.0 && |factors| == 20 && a <= MAX_TICK
    ensures -30.0 <= Fold(factors, Q128, 0, a) as real - R128 * Power(r, a) <= 10.0
  {
    hide Fold, NearestFactors;
    assert Pow2(20) == 1048576 by { assert Pow2(10) == 1024; }
    assert Pow2(0) == 1 && Power(r, 0) == 1.0;
    assert Close(Q128, Power(r, 0), 0);
    FoldClose(factors, r, Q128, 0, 0, a);
    assert 0 + a * Pow2(0) == a;
  }

  /** The magnitude of a tick is within 30 units of 2^128 * 1.0001^(-a / 2), whatever bits
      the tick has. */
  lemma MagnitudeClose(r: real, a: nat)
    requires TickRoot(r) && a <= MAX_TICK
    ensures -30.0 <= Magnitude(a) as real - R128 * Power(r, a) <= 10.0
  {
    hide Fold, Power, NearestFactors;
    FactorsAreNearest(r);
    TableSeparated();
    RootBelowOne(r);
    WholeFoldClose(FACTORS, r, a);
  }

  // ---------- Prices ----------

  const R96: real := 79228162514264337593543950336.0
  const R224: real := 26959946667150639794667015087019630673637144422540572481103610249216.0

  /** The relative error of a price, 2^-58. */
  const PRECISION: real := 288230376151711744.0

  /** 2^96 * 1.0001^(tick / 2), for the root s of 1.0001. */
  function ExactPrice(s: real, tick: int): real
    requires 0.0 < s
  {
    PowerPositive(s, Abs(tick));
    if tick >= 0 then R96 * Power(s, tick) else R96 / Power(s, -tick)
  }

  lemma {:induction false} PowerPositive(x: real, n: nat)
    requires 0.0 < x
    ensures 0.0 < Power(x, n)
  {
    if n > 0 { PowerPositive(x, n - 1); }
  }

  lemma {:induction false} PowerInverse(x: real, y: real, n: nat)
    requires x * y == 1.0
    ensures Power(x, n) * Power(y, n) == 1.0
  {
    if n > 0 {
      PowerInverse(x, y, n - 1);
      assert Power(x, n) * Power(y, n) == (x * y) * (Power(x, n - 1) * Power(y, n - 1));
    }
  }

  lemma RootOf(s: real) returns (r: real)
    requires 0.0 < s && s * s == 1.0001
    ensures TickRoot(r) && r * s == 1.0
  {
    r := 1.0 / s;
    assert (r * r) * (s * s) == (r * s) * (r * s);
  }

  /** The reciprocal and both roundings of a positive tick. */
  lemma ReciprocalBounds(v: nat)
    requires 0 < v
    ensures var p := CeilDiv(MAX_U256 / v, TWO32); (p - 1) * v * TWO32 < MAX_U256 + 1 <= (p * TWO32 + 1) * v
  {
    var q := MAX_U256 / v;
    var p := CeilDiv(q, TWO32);
    DivBounds(MAX_U256, v);
    CeilBounds(q, TWO32);
    MulMono((p - 1) * TWO32, q, v);
    MulMono(q, p * TWO32, v);
    assert (p - 1) * v * TWO32 == (p - 1) * TWO32 * v;
    assert (p * TWO32 + 1) * v == p * TWO32 * v + v;
  }

  /** A product the solver is not to look into; its laws follow. */
  function Mul(a: real, b: real): real { a * b }

  lemma MulSub(a: real, b: real, c: real)
    ensures Mul(a - b, c) == Mul(a, c) - Mul(b, c)
  {
  }

  lemma MulAdd(a: real, b: real, c: real)
    ensures Mul(a + b, c) == Mul(a, c) + Mul(b, c)
  {
  }

  lemma MulCommutes(a: real, b: real)
    ensures Mul(a, b) == Mul(b, a)
  {
  }

  lemma MulLess(a: real, b: real, c: real)
    requires a <= b && 0.0 <= c
    ensures Mul(a, c) <= Mul(b, c)
  {
    RealMono(a, b, c);
  }

  lemma MulStrict(a: real, b: real, c: real)
    requires a < b && 0.0 < c
    ensures Mul(a, c) < Mul(b, c)
  {
    assert (b - a) * c > 0.0;
  }

  lemma MulCancel(a: real, b: real, c: real)
    requires Mul(a, c) <= Mul(b, c) && 0.0 < c
    ensures a <= b
  {
    hide Mul;
    if b < a { MulStrict(b, a, c); }
  }

  /** (1 + 2^-58) times a product, and (1 - 2^-58) times it. */
  lemma MulRelative(a: real, w: real)
    ensures Mul(a + a / PRECISION, w) == Mul(a, w) + Mul(a, w) / PRECISION
    ensures Mul(a - a / PRECISION, w) == Mul(a, w) - Mul(a, w) / PRECISION
  {
  }

  lemma MulTen(a: real)
    ensures Mul(10.0, a) == 10.0 * a && Mul(30.0, a) == 30.0 * a && Mul(1.0, a) == a
    ensures Mul(1099511627776.0, a) == 1099511627776.0 * a
    ensures Mul(18446744073709551616.0, a) == 18446744073709551616.0 * a
  {
  }

  lemma AboveReciprocal(p: real, w: real, exact: real, x: real)
    requires 0.0 < exact && Mul(x, exact) == R224
    requires 18446744073709551616.0 <= w && x <= w + 30.0 && Mul(p - 1.0, w) <= R224
    ensures p <= exact + 1.0 + exact / PRECISION
  {
    hide Mul;
    MulLess(x, w + 30.0, exact);
    MulAdd(w, 30.0, exact);
    MulLess(18446744073709551616.0, w, exact);
    MulTen(exact);
    MulCommutes(w, exact);
    MulRelative(exact, w);
    assert Mul(p - 1.0, w) <= Mul(exact + exact / PRECISION, w);
    MulCancel(p - 1.0, exact + exact / PRECISION, w);
  }

  lemma BelowReciprocal(p: real, w: real, exact: real, x: real)
    requires R96 <= exact && Mul(x, exact) == R224
    requires 18446744073709551616.0 <= w && w <= x + 10.0 && R224 * 4294967296.0 <= Mul(p, w) * 4294967296.0 + w
    ensures exact - exact / PRECISION <= p
  {
    hide Mul;
    MulLess(w - 10.0, x, exact);
    MulSub(w, 10.0, exact);
    MulLess(18446744073709551616.0, w, exact);
    MulTen(exact);
    MulCommutes(w, exact);
    MulLess(1099511627776.0, exact, w);
    MulTen(w);
    MulRelative(exact, w);
    assert Mul(exact - exact / PRECISION, w) <= Mul(p, w);
    MulCancel(exact - exact / PRECISION, p, w);
  }

  lemma ShiftedPrice(v: nat, x: real)
    requires -30.0 <= v as real - R128 * x <= 10.0
    ensures var p, exact := CeilDiv(v, TWO32), R96 * x;
            p >= MIN_SQRT_RATIO ==> exact - exact / PRECISION <= p as real <= exact + 1.0 + exact / PRECISION
  {
    CeilBounds(v, TWO32);
  }

  lemma ReciprocalReals(v: nat, p: nat)
    requires (p - 1) * v * TWO32 < MAX_U256 + 1 <= (p * TWO32 + 1) * v
    ensures Mul(p as real - 1.0, v as real) <= R224
    ensures R224 * 4294967296.0 <= Mul(p as real, v as real) * 4294967296.0 + v as real
  {
    hide Mul;
    var product := p * v;
    MulIsCast(p, v);
    assert (p - 1) * v == product - v;
    assert (p * TWO32 + 1) * v == product * TWO32 + v;
    assert (product - v) * TWO32 < MAX_U256 + 1 <= product * TWO32 + v;
    MulSub(p as real, 1.0, v as real);
    MulTen(v as real);
  }

  lemma MulIsCast(a: nat, b: nat)
    ensures Mul(a as real, b as real) == (a * b) as real
  {
    CastMul(a, b);
  }

  lemma ScaledReciprocal(x: real, exact: real)
    requires exact * x == R96
    ensures Mul(R128 * x, exact) == R224
  {
  }

  lemma ReciprocalPrice(v: nat, x: real, exact: real)
    requires -30.0 <= v as real - R128 * x <= 10.0
    requires Q64 <= v && R96 <= exact && exact * x == R96
    ensures var p := CeilDiv(MAX_U256 / v, TWO32);
            exact - exact / PRECISION <= p as real <= exact + 1.0 + exact / PRECISION
  {
    hide CeilDiv, Mul;
    var p := CeilDiv(MAX_U256 / v, TWO32);
    ReciprocalBounds(v);
    ReciprocalReals(v, p);
    ScaledReciprocal(x, exact);
    AboveReciprocal(p as real, v as real, exact, R128 * x);
    BelowReciprocal(p as real, v as real, exact, R128 * x);
  }

  lemma PositiveExact(s: real, r: real, tick: nat)
    requires 0.0 < s && TickRoot(r) && r * s == 1.0
    ensures R96 <= ExactPrice(s, tick) && ExactPrice(s, tick) * Power(r, tick) == R96
  {
    PowerInverse(r, s, tick);
    PowerPositive(s, tick);
    RootBelowOne(r);
    PowerUnit(r, tick);
    RealMono(Power(r, tick), 1.0, Power(s, tick));
  }

  lemma NegativeExact(s: real, r: real, tick: nat)
    requires 0.0 < s && r * s == 1.0
    ensures ExactPrice(s, 0 - tick) == R96 * Power(r, tick)
  {
    PowerInverse(r, s, tick);
    PowerPositive(s, tick);
  }

  lemma MagnitudeLarge(a: nat)
    requires a <= MAX_TICK
    ensures Q64 <= Magnitude(a)
  {
    LastMagnitude();
    if a < MAX_TICK { MagnitudeMono(a, MAX_TICK); }
  }

  /** Every tick price is 2^96 * 1.0001^(tick / 2) up to one unit and one part in 2^58, for
      the root s of 1.0001. */
  lemma PriceIsAccurate(s: real, tick: int)
    requires 0.0 < s && s * s == 1.0001 && ValidTick(tick)
    ensures GetSqrtRatioAtTick(tick).Ok?
    ensures var price, exact := GetSqrtRatioAtTick(tick).value as real, ExactPrice(s, tick);
            exact - exact / PRECISION <= price <= exact + 1.0 + exact / PRECISION
  {
    hide Magnitude, ExactPrice, Power, CeilDiv, TickRoot;
    var r := RootOf(s);
    var a := Abs(tick);
    RatioInRange(tick);
    MagnitudeClose(r, a);
    if tick > 0 {
      MagnitudeLarge(a);
      PositiveExact(s, r, a);
      ReciprocalPrice(Magnitude(a), Power(r, a), ExactPrice(s, tick));
    } else {
      NegativeExact(s, r, a);
      ShiftedPrice(Magnitude(a), Power(r, a));
    }
  }
}
