/** Tick to square-root price, as in Uniswap v3 TickMath. */
module TickMath {
  import opened Arith
  import opened U256

  const MIN_TICK: int := -887272
  const MAX_TICK: int := 887272
  const MIN_SQRT_RATIO: int := 4295128739
  const MAX_SQRT_RATIO: int := 1461446703485210103287273052203988822378723970342
  const TWO32: int := 0x1_00000000
  const BITS: nat := 20

  /** Entry i is the Q128 value of 1.0001^(-2^i / 2), the multiplier of magnitude bit i. */
  const FACTORS: seq<nat> := [
    0xfffcb933bd6fad37aa2d162d1a594001, 0xfff97272373d413259a46990580e213a,
    0xfff2e50f5f656932ef12357cf3c7fdcc, 0xffe5caca7e10e4e61c3624eaa0941cd0,
    0xffcb9843d60f6159c9db58835c926644, 0xff973b41fa98c081472e6896dfb254c0,
    0xff2ea16466c96a3843ec78b326b52861, 0xfe5dee046a99a2a811c461f1969c3053,
    0xfcbe86c7900a88aedcffc83b479aa3a4, 0xf987a7253ac413176f2b074cf7815e54,
    0xf3392b0822b70005940c7a398e4b70f3, 0xe7159475a2c29b7443b29c7fa6e889d9,
    0xd097f3bdfd2022b8845ad8f792aa5825, 0xa9f746462d870fdf8a65dc1f90e061e5,
    0x70d869a156d2a1b890bb3df62baf32f7, 0x31be135f97d08fd981231505542fcfa6,
    0x9aa508b5b7a84e1c677de54f3e99bc9, 0x5d6af8dedb81196699c329225ee604,
    0x2216e584f5fa1ea926041bedfe98, 0x48a170391f7dc42444e8fa2
  ]

  function Scale(ratio: nat, factor: nat): nat {
    assert ratio * factor >= 0;
    ratio * factor / Q128
  }

  /** The multipliers of the set bits of high, whose bit 0 stands at position i. */
  function Fold(factors: seq<nat>, ratio: nat, i: nat, high: nat): nat
    requires i <= |factors|
    decreases |factors| - i, high
  {
    if i == |factors| then ratio
    else Fold(factors, if high % 2 == 1 then Scale(ratio, factors[i]) else ratio, i + 1, high / 2)
  }

  /** Q128 value of 1.0001^(-magnitude / 2), floored after every multiplication. */
  function Magnitude(magnitude: nat): nat {
    Fold(FACTORS, Q128, 0, magnitude)
  }

  // ---------- Neighbouring magnitudes stay apart ----------

  /** A certificate that incrementing a magnitude always costs a visible amount:
      ones[k] is the ratio of a magnitude whose low k bits are all set, and a gap of
      keep[k] before bit k is still one of keep[k + 1] after its multiplier. */
  ghost predicate Separated(factors: seq<nat>, ones: seq<nat>, keep: seq<nat>) {
    && |ones| == |keep| == |factors| + 1
    && ones[0] == Q128
    && Chained(factors, ones)
    && Gaps(factors, ones, keep)
    && Keeps(factors, keep)
  }

  ghost predicate Chained(factors: seq<nat>, ones: seq<nat>)
    requires |ones| == |factors| + 1
  {
    forall k :: 0 <= k < |factors| ==> ones[k + 1] == Scale(ones[k], factors[k])
  }

  ghost predicate Gaps(factors: seq<nat>, ones: seq<nat>, keep: seq<nat>)
    requires |ones| == |keep| == |factors| + 1
  {
    forall k :: 0 <= k < |factors| ==> ones[k] >= factors[k] + keep[k + 1]
  }

  ghost predicate Keeps(factors: seq<nat>, keep: seq<nat>)
    requires |keep| == |factors| + 1
  {
    && (forall k :: 0 <= k < |factors| ==> factors[k] <= Q128)
    && (forall k :: 0 <= k < |factors| ==> Scale(keep[k], factors[k]) >= keep[k + 1])
  }

  lemma ScaleMono(u: nat, v: nat, factor: nat)
    requires factor <= Q128 && v <= u
    ensures Scale(v, factor) <= Scale(u, factor) <= u
    ensures Scale(u, factor) - Scale(v, factor) >= Scale(u - v, factor)
  {
    MulMono(v, u, factor);
    MulMono(factor, Q128, u);
    FloorMono(v * factor, u * factor, Q128);
    FloorMono(u * factor, u * Q128, Q128);
    assert u * factor - v * factor == (u - v) * factor;
    FloorGap(u * factor, v * factor, Q128);
  }

  /** The same high bits applied to two ratios leave the larger one visibly ahead. */
  lemma {:induction false} FoldGap(factors: seq<nat>, ones: seq<nat>, keep: seq<nat>, u: nat, v: nat, i: nat, high: nat)
    requires Separated(factors, ones, keep) && i <= |factors|
    requires u >= v + keep[i]
    ensures Fold(factors, u, i, high) >= Fold(factors, v, i, high) + keep[|factors|]
    decreases |factors| - i, high
  {
    if i < |factors| {
      if high % 2 == 1 {
        ScaleMono(u, v, factors[i]);
        ScaleMono(u - v, keep[i], factors[i]);
        FoldGap(factors, ones, keep, Scale(u, factors[i]), Scale(v, factors[i]), i + 1, high / 2);
      } else {
        ScaleMono(keep[i], 0, factors[i]);
        FoldGap(factors, ones, keep, u, v, i + 1, high / 2);
      }
    }
  }

  /** Incrementing a magnitude carries through its trailing ones: below bit i the old
      magnitude has only ones and the new one only zeros. */
  lemma {:induction false} CarryGap(factors: seq<nat>, ones: seq<nat>, keep: seq<nat>, i: nat, high: nat)
    requires Separated(factors, ones, keep) && i <= |factors|
    requires high + 1 < Pow2(|factors| - i)
    ensures Fold(factors, ones[i], i, high) >= Fold(factors, Q128, i, high + 1) + keep[|factors|]
    decreases |factors| - i, high
  {
    if high % 2 == 0 {
      assert Scale(Q128, factors[i]) == factors[i];
      assert (high + 1) / 2 == high / 2;
      FoldGap(factors, ones, keep, ones[i], factors[i], i + 1, high / 2);
    } else {
      assert (high + 1) / 2 == high / 2 + 1;
      CarryGap(factors, ones, keep, i + 1, high / 2);
    }
  }

  // ---------- The certificate of the real table ----------

  ghost const ONES: seq<nat> := [
    0x100000000000000000000000000000000, 0xfffcb933bd6fad37aa2d162d1a594001,
    0xfff62bbb6d458ec3c792106391dc463e, 0xffe9114b9cf28d394c3203dbd44eb085,
    0xffcede6f1d8be90b88f350424e84e5b7, 0xff9a80c1ada7480b1daa871d7c4d9b36,
    0xff31e58d5a53c84fc142023ec1b1dfd7, 0xfe612f8183b1ea21b72fb71b03542ae4,
    0xfcc1c2f380536bc67ee1ff564d1080b2, 0xf98ad8c8d7ecc0a3f8a42c9724cffb6a,
    0xf33c480189b415235ad119427d89a1f6, 0xe71889a85903fd03cb7cc40bdf371a9c,
    0xd09a9f3e93db5812d4820c2fc67a3e3a, 0xa9f973345b9e647c4163af91d00b255f,
    0x70d9db6485f04ddd567e07c7b89f8e7c, 0x31beb65d91af63ae717a760be3b374dc,
    0x9aa7036fd2355429c4030b032e1cf71, 0x5d6c2af97aaa8de0e5a6bf23f5e547,
    0x221755388a6658e120f4a3c503cf, 0x48a25e36942a4fc0c1f899f,
    0x149b7873d84d48
  ]

  ghost const KEEP: seq<nat> := [
    0x18d9c00000000000000000000000, 0x18d9600000000000000000000000, 0x18d8a00000000000000000000000, 0x18d7400000000000000000000000,
    0x18d4a00000000000000000000000, 0x18cf800000000000000000000000, 0x18c5400000000000000000000000, 0x18b0e00000000000000000000000,
    0x1888800000000000000000000000, 0x1838a00000000000000000000000, 0x179be00000000000000000000000, 0x166e200000000000000000000000,
    0x143f400000000000000000000000, 0x107f600000000000000000000000, 0xaf4000000000000000000000000, 0x4d4000000000000000000000000,
    0xf0290000000000000000000000, 0x9113000000000000000000000, 0x34f08000000000000000000, 0x70ca80000000000000,
    0x200000000
  ]

  lemma OnesCertificate()
    ensures |ONES| == |FACTORS| + 1 && Chained(FACTORS, ONES)
  {
  }

  lemma KeepCertificate()
    ensures |KEEP| == |FACTORS| + 1 && Keeps(FACTORS, KEEP)
  {
  }

  lemma GapCertificate()
    ensures |ONES| == |KEEP| == |FACTORS| + 1 && Gaps(FACTORS, ONES, KEEP)
  {
  }

  lemma TableSeparated()
    ensures Separated(FACTORS, ONES, KEEP)
    ensures |FACTORS| == BITS && KEEP[BITS] == 2 * TWO32
  {
    OnesCertificate();
    KeepCertificate();
    GapCertificate();
  }

  /** ratios and highs list the successive states of a fold that scales by used. */
  ghost predicate FoldStates(factors: seq<nat>, used: seq<nat>, ratios: seq<nat>, highs: seq<nat>) {
    && |ratios| == |highs| == |used| + 1
    && |used| == |factors|
    && Shifted(highs)
    && Chained(used, ratios)
    && Selected(factors, used, highs)
  }

  ghost predicate Shifted(highs: seq<nat>) {
    forall k :: 0 <= k < |highs| - 1 ==> highs[k + 1] == highs[k] / 2
  }

  ghost predicate Selected(factors: seq<nat>, used: seq<nat>, highs: seq<nat>)
    requires |used| == |factors| && |highs| == |factors| + 1
  {
    forall k :: 0 <= k < |factors| ==> used[k] == if highs[k] % 2 == 1 then factors[k] else Q128
  }

  lemma {:induction false} FoldReaches(
    factors: seq<nat>, used: seq<nat>, ratios: seq<nat>, highs: seq<nat>, i: nat)
    requires FoldStates(factors, used, ratios, highs) && i <= |factors|
    ensures Fold(factors, ratios[i], i, highs[i]) == ratios[|factors|]
    decreases |factors| - i
  {
    if i < |factors| { FoldReaches(factors, used, ratios, highs, i + 1); }
  }

  ghost const LAST_RATIOS: seq<nat> := [
    0x100000000000000000000000000000000, 0x100000000000000000000000000000000,
    0x100000000000000000000000000000000, 0x100000000000000000000000000000000,
    0xffe5caca7e10e4e61c3624eaa0941cd0, 0xffe5caca7e10e4e61c3624eaa0941cd0,
    0xff7d10c63a977157da4140deb6f31a7b, 0xfeac1d4052f7714818b490c1138ea058,
    0xfd0c3654da9e033741d1a9f93707f6f6, 0xf9d459c5817dbafa9e376ae84dcfeb8b,
    0xf9d459c5817dbafa9e376ae84dcfeb8b, 0xf9d459c5817dbafa9e376ae84dcfeb8b,
    0xe183ac4e25d5949966242a64e9c80e2f, 0xe183ac4e25d5949966242a64e9c80e2f,
    0xe183ac4e25d5949966242a64e9c80e2f, 0xe183ac4e25d5949966242a64e9c80e2f,
    0x2bd1a4c5d2a1181aca1ef15e64c2e3cf, 0x1a785cbbdc050483e3be5812760be73,
    0x1a785cbbdc050483e3be5812760be73, 0x3865a6455d07d2bc87c5956d2e,
    0x1000276a221a17501
  ]

  ghost const LAST_HIGHS: seq<nat> := [
    887272, 443636, 221818, 110909, 55454, 27727, 13863, 6931, 3465, 1732,
    866, 433, 216, 108, 54, 27, 13, 6, 3, 1,
    0
  ]

  ghost const LAST_USED: seq<nat> := [
    Q128, Q128,
    Q128, 0xffe5caca7e10e4e61c3624eaa0941cd0,
    Q128, 0xff973b41fa98c081472e6896dfb254c0,
    0xff2ea16466c96a3843ec78b326b52861, 0xfe5dee046a99a2a811c461f1969c3053,
    0xfcbe86c7900a88aedcffc83b479aa3a4, Q128,
    Q128, 0xe7159475a2c29b7443b29c7fa6e889d9,
    Q128, Q128,
    Q128, 0x31be135f97d08fd981231505542fcfa6,
    0x9aa508b5b7a84e1c677de54f3e99bc9, Q128,
    0x2216e584f5fa1ea926041bedfe98, 0x48a170391f7dc42444e8fa2
  ]

  lemma LastHighs()
    ensures Shifted(LAST_HIGHS)
  {
  }

  lemma LastUsed()
    ensures |LAST_HIGHS| == |FACTORS| + 1 && |LAST_USED| == |FACTORS| && Selected(FACTORS, LAST_USED, LAST_HIGHS)
  {
  }

  lemma LastRatios()
    ensures |LAST_RATIOS| == |LAST_USED| + 1 && Chained(LAST_USED, LAST_RATIOS)
  {
  }

  lemma LastMagnitude()
    ensures Magnitude(887272) == 0x1000276a221a17501
  {
    LastHighs();
    LastUsed();
    LastRatios();
    FoldReaches(FACTORS, LAST_USED, LAST_RATIOS, LAST_HIGHS, 0);
  }

  lemma MagnitudeStep(a: nat)
    requires a < MAX_TICK
    ensures Magnitude(a) >= Magnitude(a + 1) + 2 * TWO32
  {
    TableSeparated();
    assert Pow2(20) == 1048576 by { assert Pow2(10) == 1024; }
    CarryGap(FACTORS, ONES, KEEP, 0, a);
  }

  lemma {:induction false} MagnitudeMono(a: nat, b: nat)
    requires a < b <= MAX_TICK
    ensures Magnitude(a) >= Magnitude(b) + 2 * TWO32
  {
    MagnitudeStep(b - 1);
    if a < b - 1 { MagnitudeMono(a, b - 1); }
  }

  /** Bit i of a magnitude, the test absolute & (1 << i) != 0. */
  predicate Bit(magnitude: nat, i: nat) {
    ShiftRight(magnitude, i) % 2 == 1
  }

  lemma MagnitudePositive(a: nat)
    requires a <= MAX_TICK
    ensures 0 < Magnitude(a) <= Magnitude(0) == Q128
  {
    ZeroMagnitude();
    LastMagnitude();
    if a > 0 { MagnitudeMono(0, a); }
    if a < MAX_TICK { MagnitudeMono(a, MAX_TICK); }
  }

  lemma ZeroMagnitude()
    ensures Magnitude(0) == Q128
  {
    FoldNothing(FACTORS, 0);
  }

  lemma {:induction false} FoldNothing(factors: seq<nat>, i: nat)
    requires i <= |factors|
    ensures Fold(factors, Q128, i, 0) == Q128
    decreases |factors| - i
  {
    if i < |factors| { FoldNothing(factors, i + 1); }
  }

  // ---------- The price of a tick ----------

  predicate ValidTick(tick: int) { MIN_TICK <= tick <= MAX_TICK }

  function Abs(tick: int): nat {
    if tick < 0 then -tick else tick
  }

  /** Q128 price of a tick: a positive tick takes the reciprocal of its magnitude. */
  function RatioQ128(tick: int): nat
    requires ValidTick(tick)
  {
    MagnitudePositive(Abs(tick));
    if tick > 0 then MAX_U256 / Magnitude(Abs(tick)) else Magnitude(Abs(tick))
  }

  function GetSqrtRatioAtTick(tick: int): Result<int> {
    if !ValidTick(tick) then Err(TickOutOfRange)
    else
      var quotient := CeilDiv(RatioQ128(tick), TWO32);
      if quotient > MAX_U160 then Err(SqrtOverflow) else Ok(quotient)
  }

  /** One pass over the bits of absolute, multiplying and shifting ratio in place. */
  method ComputeMagnitude(factors: seq<nat>, absolute: nat) returns (ratio: nat)
    requires factors != []
    ensures ratio == Fold(factors, Q128, 0, absolute)
  {
    ratio := if absolute % 2 != 0 then factors[0] else Q128;
    ShiftOnce(absolute, 0);
    var i := 1;
    while i < |factors|
      invariant 1 <= i <= |factors|
      invariant Fold(factors, ratio, i, ShiftRight(absolute, i)) == Fold(factors, Q128, 0, absolute)
    {
      if Bit(absolute, i) {
        ratio := Scale(ratio, factors[i]);
      }
      ShiftOnce(absolute, i);
      i := i + 1;
    }
  }

  method ComputeSqrtRatioAtTick(tick: int) returns (r: Result<int>)
    ensures r == GetSqrtRatioAtTick(tick)
    ensures ValidTick(tick) ==> r.Ok? && MIN_SQRT_RATIO <= r.value <= MAX_SQRT_RATIO
  {
    if tick < MIN_TICK || tick > MAX_TICK {
      return Err(TickOutOfRange);
    }
    RatioInRange(tick);
    MagnitudePositive(Abs(tick));
    var ratio := ComputeMagnitude(FACTORS, Abs(tick));
    if tick > 0 {
      ratio := MAX_U256 / ratio;
    }
    var quotient := CeilDiv(ratio, TWO32);
    if quotient > MAX_U160 {
      return Err(SqrtOverflow);
    }
    return Ok(quotient);
  }

  /** Reciprocals of magnitudes that are 2^33 apart stay 2^32 apart. */
  lemma ReciprocalGap(x: nat, y: nat)
    requires 0 < x && x + 2 * TWO32 <= y <= Q128
    ensures MAX_U256 / x >= MAX_U256 / y + TWO32
    ensures MAX_U256 / y >= Q128 - 1
  {
    var q := MAX_U256 / y;
    DivBounds(MAX_U256, y);
    MulMono(y, Q128, Q128 - 1);
    FloorGalois(MAX_U256, y, Q128 - 1);
    MulMono(x + 2 * TWO32, y, q);
    assert (q + TWO32) * x == q * x + TWO32 * x;
    assert (x + 2 * TWO32) * q == q * x + 2 * TWO32 * q;
    FloorGalois(MAX_U256, x, q + TWO32);
  }

  /** Strictly increasing before the overflow test, one tick at a time. */
  lemma RatioStep(tick: int)
    requires ValidTick(tick) && ValidTick(tick + 1)
    ensures CeilDiv(RatioQ128(tick), TWO32) < CeilDiv(RatioQ128(tick + 1), TWO32)
  {
    if tick < 0 {
      MagnitudeMono(Abs(tick + 1), Abs(tick));
    } else {
      MagnitudeMono(tick, tick + 1);
      MagnitudePositive(tick + 1);
      MagnitudePositive(tick);
      ReciprocalGap(Magnitude(tick + 1), Magnitude(tick));
      if tick == 0 {
        assert RatioQ128(0) == Q128;
        assert RatioQ128(1) >= Q128 - 1 + TWO32;
      }
    }
  }

  lemma {:induction false} RatioMono(low: int, high: int)
    requires ValidTick(low) && ValidTick(high) && low <= high
    ensures CeilDiv(RatioQ128(low), TWO32) <= CeilDiv(RatioQ128(high), TWO32)
    ensures low < high ==> CeilDiv(RatioQ128(low), TWO32) < CeilDiv(RatioQ128(high), TWO32)
    decreases high - low
  {
    if low < high {
      RatioMono(low, high - 1);
      RatioStep(high - 1);
    }
  }

  lemma RatioAtEnds()
    ensures GetSqrtRatioAtTick(MIN_TICK) == Ok(MIN_SQRT_RATIO)
    ensures GetSqrtRatioAtTick(MAX_TICK) == Ok(MAX_SQRT_RATIO)
  {
    LastMagnitude();
    assert CeilDiv(0x1000276a221a17501, TWO32) == MIN_SQRT_RATIO;
    assert CeilDiv(MAX_U256 / 0x1000276a221a17501, TWO32) == MAX_SQRT_RATIO;
  }

  /** Every tick has a price, between the two end prices: the overflow error is unreachable. */
  lemma RatioInRange(tick: int)
    requires ValidTick(tick)
    ensures GetSqrtRatioAtTick(tick).Ok?
    ensures MIN_SQRT_RATIO <= GetSqrtRatioAtTick(tick).value <= MAX_SQRT_RATIO
  {
    RatioAtEnds();
    RatioMono(MIN_TICK, tick);
    RatioMono(tick, MAX_TICK);
  }

  /** The price is strictly increasing over all ticks, across zero and the reciprocal branch. */
  lemma RatioStrictlyIncreasing(low: int, high: int)
    requires ValidTick(low) && ValidTick(high)
    ensures GetSqrtRatioAtTick(low).Ok? && GetSqrtRatioAtTick(high).Ok?
    ensures low < high <==> GetSqrtRatioAtTick(low).value < GetSqrtRatioAtTick(high).value
  {
    RatioInRange(low);
    RatioInRange(high);
    if low <= high { RatioMono(low, high); } else { RatioMono(high, low); }
  }
}
