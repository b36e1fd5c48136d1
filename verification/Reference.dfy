/** The repository's own reference arithmetic: the same formulas over unbounded integers,
    without a single range check. None stands for an exception: a division by zero, or a
    loop that does not converge. */
module Reference {
  import opened Arith
  import opened Options

  const TWO32: int := 0x1_00000000
  const TWO128: int := 0x1_00000000_00000000_00000000_00000000
  const MAX_U256: int := 0xFFFFFFFF_FFFFFFFF_FFFFFFFF_FFFFFFFF_FFFFFFFF_FFFFFFFF_FFFFFFFF_FFFFFFFF
  const TWO96: int := 0x1_00000000_00000000_00000000
  const MILLION: int := 1_000_000
  const AMP_PRECISION: int := 1000
  const ONE: int := 1_000_000_000_000_000_000
  const ROUNDS: nat := 255

  function DivDown(a: int, b: int): Option<int> {
    if b == 0 then None
    else if b > 0 then Some(a / b)
    else Some((-a) / (-b))
  }

  /** (a + b - 1) // b */
  function DivUp(a: int, b: int): Option<int> {
    DivDown(a + b - 1, b)
  }

  function Distance(a: int, b: int): nat {
    if a < b then b - a else a - b
  }

  // ---------- Tick ratio ----------

  /** The multiplications of bits i and above, one bit at a time. */
  function ScaleBits(factors: seq<nat>, ratio: nat, i: nat, absolute: nat): nat
    requires i <= |factors|
    decreases |factors| - i, absolute
  {
    if i == |factors| then ratio
    else
      assert ratio * factors[i] >= 0;
      ScaleBits(factors, if ShiftRight(absolute, i) % 2 == 1 then ratio * factors[i] / TWO128 else ratio, i + 1, absolute)
  }

  const TICK_FACTORS: seq<nat> := [
    0xfffcb933bd6fad37aa2d162d1a594001, 0xfff97272373d413259a46990580e213a,
    0xfff2e50f5f656932ef12357cf3c7fdcc, 0xffe5caca7e10e4e61c3624eaa0941cd0,
    0xffcb9843d60f6159c9db58835c926644, 0xff973b41fa98c081472e6896dfb254c0,
    0xff2ea16466c96a3843ec78b326b52861, 0xfe5dee046a99a2a811c461f1969c3053,
    0xfcbe86c7900a88aedcffc83b479aa3a4, 0xf987a7253ac413176f2b074cf7815e54,
    0xf3392b0822b70005940c7a398e4b70f3, 0xe7159475a2c29b7443b29c7fa6e889d9,
    0xd097f3bdfd2022b8845ad8f792aa5825, 0xa9f746462d870fdf8a65dc1f90e061e5,
    0x70d869a156d2a1b890bb3df62baf32f7, 0x31be135f97d08fd981231505542fcfa6,
    0x9aa508b5b7a84e1c677de54f3e99bc9, 0x5d6af8dedb81196699c329225ee604,
    0x2216e584f5fa1ea926041bedfe98, 0x48a170391f7dc42444e8fa2
  ]

  function TickRatio(tick: int): Option<int> {
    var absolute: nat := if tick < 0 then -tick else tick;
    var ratio := ScaleBits(TICK_FACTORS, if absolute % 2 == 1 then TICK_FACTORS[0] else TWO128, 1, absolute);
    var ratio' :- if tick > 0 then DivDown(MAX_U256, ratio) else Some(ratio);
    Some(ratio' / TWO32 + (if ratio' % TWO32 != 0 then 1 else 0))
  }

  // ---------- Constant product ----------

  function CpOut(reserveIn: int, reserveOut: int, amountIn: int, feeNum: int, feeDen: int): Option<int> {
    var after := amountIn * (feeDen - feeNum);
    DivDown(after * reserveOut, reserveIn * feeDen + after)
  }

  // ---------- One concentrated range ----------

  function Amount0Delta(a: int, b: int, liquidity: int, roundUp: bool): Option<int> {
    var lower, upper := if a > b then b else a, if a > b then a else b;
    var product := liquidity * TWO96 * (upper - lower);
    if roundUp then
      var part :- DivUp(product, upper);
      DivUp(part, lower)
    else
      var part :- DivDown(product, upper);
      DivDown(part, lower)
  }

  function Amount1Delta(a: int, b: int, liquidity: int, roundUp: bool): Option<int> {
    var lower, upper := if a > b then b else a, if a > b then a else b;
    var product := liquidity * (upper - lower);
    if roundUp then DivUp(product, TWO96) else DivDown(product, TWO96)
  }

  function SingleRange(sqrtPrice: int, liquidity: int, amountIn: int, pips: int, zeroForOne: bool): Option<int> {
    var lessFee := amountIn * (MILLION - pips) / MILLION;
    if zeroForOne then
      var numerator := liquidity * TWO96;
      var next :- DivUp(numerator * sqrtPrice, numerator + lessFee * sqrtPrice);
      var used :- Amount0Delta(next, sqrtPrice, liquidity, true);
      if used > amountIn then None else Amount1Delta(next, sqrtPrice, liquidity, false)
    else
      var moved :- DivDown(lessFee * TWO96, liquidity);
      var used :- Amount1Delta(sqrtPrice, sqrtPrice + moved, liquidity, true);
      if used > amountIn then None else Amount0Delta(sqrtPrice, sqrtPrice + moved, liquidity, false)
  }

  // ---------- Stable pools ----------

  function Total(balances: seq<int>, n: nat): int
    requires n <= |balances|
  {
    if n == 0 then 0 else Total(balances, n - 1) + balances[n - 1]
  }

  /** d_p after the first n balances. */
  function DP(balances: seq<int>, inv: int, n: nat): Option<int>
    requires n <= |balances|
  {
    if n == 0 then Some(inv)
    else
      var dP :- DP(balances, inv, n - 1);
      DivDown(dP * inv, balances[n - 1] * |balances|)
  }

  function InvariantRound(amp: int, balances: seq<int>, inv: int): Option<int> {
    var n := |balances|;
    var dP :- DP(balances, inv, n);
    var weighted :- DivDown(amp * n * Total(balances, n), AMP_PRECISION);
    var scaled :- DivDown((amp * n - AMP_PRECISION) * inv, AMP_PRECISION);
    DivDown((weighted + dP * n) * inv, scaled + (n + 1) * dP)
  }

  function InvariantRounds(amp: int, balances: seq<int>, inv: int, rounds: nat): Option<int>
    decreases rounds, inv
  {
    if rounds == 0 then None
    else
      var next :- InvariantRound(amp, balances, inv);
      if Distance(next, inv) <= 1 then Some(next) else InvariantRounds(amp, balances, next, rounds - 1)
  }

  function StableInvariant(amp: int, balances: seq<int>): Option<int> {
    var total := Total(balances, |balances|);
    if total == 0 then Some(0) else InvariantRounds(amp, balances, total, ROUNDS)
  }

  /** p_d after the first n balances. */
  function PD(balances: seq<int>, inv: int, n: nat): Option<int>
    requires 1 <= n <= |balances|
  {
    if n == 1 then Some(balances[0] * |balances|)
    else
      var pD :- PD(balances, inv, n - 1);
      DivDown(pD * balances[n - 1] * |balances|, inv)
  }

  function BalanceRounds(b: int, c: int, inv: int, y: int, rounds: nat): Option<int>
    decreases rounds, y
  {
    if rounds == 0 then None
    else
      var next :- DivUp(y * y + c, y * 2 + b - inv);
      if Distance(next, y) <= 1 then Some(next) else BalanceRounds(b, c, inv, next, rounds - 1)
  }

  function StableBalance(amp: int, balances: seq<int>, inv: int, index: nat): Option<int>
    requires index < |balances|
  {
    var n := |balances|;
    var pD :- PD(balances, inv, n);
    var total := Total(balances, n) - balances[index];
    var c0 :- DivUp(inv * inv, amp * n * pD);
    var c := c0 * AMP_PRECISION * balances[index];
    var b0 :- DivDown(inv, amp * n);
    var b := total + b0 * AMP_PRECISION;
    var start :- DivUp(inv * inv + c, inv + b);
    BalanceRounds(b, c, inv, start, ROUNDS)
  }

  /** The upscaled balances. */
  function Scaled(balances: seq<int>, scales: seq<int>, n: nat): (r: seq<int>)
    requires n <= |balances| && n <= |scales|
    ensures |r| == n
  {
    if n == 0 then [] else Scaled(balances, scales, n - 1) + [balances[n - 1] * scales[n - 1] / ONE]
  }

  function StableOut(
    raw: seq<int>, scales: seq<int>, amp: int, feeNum: int, feeDen: int, tokenIn: nat, tokenOut: nat, amountIn: int): Option<int>
    requires |raw| == |scales| && tokenIn < |raw| && tokenOut < |raw|
  {
    var feeBfp :- DivDown(feeNum * ONE, feeDen);
    var fee :- DivUp(amountIn * feeBfp, ONE);
    var after := amountIn - fee;
    var balances := Scaled(raw, scales, |raw|);
    var upIn := after * scales[tokenIn] / ONE;
    var inv :- StableInvariant(amp, balances);
    var finalOut :- StableBalance(amp, balances[tokenIn := balances[tokenIn] + upIn], inv, tokenOut);
    var upOut := balances[tokenOut] - finalOut - 1;
    DivDown(upOut * ONE, scales[tokenOut])
  }
}
