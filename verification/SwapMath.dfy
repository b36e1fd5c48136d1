/** One exact-input swap step, as in Uniswap v3 SqrtPriceMath and SwapMath
    (section 6.2.3 of the Uniswap v3 Core whitepaper). */
module SwapMath {
  import opened Arith
  import opened U256

  const MILLION: int := 1_000_000

  /** What one step moves: the new price, the input and output of the range, and the fee. */
  datatype Step = Step(next: int, amountIn: int, amountOut: int, fee: int) {
    function Consumed(): int { amountIn + fee }
  }

  predicate PriceOk(price: int) { 0 < price <= MAX_U160 }

  predicate LiquidityOk(liquidity: int) { 0 < liquidity < Q128 }

  predicate PipsOk(pips: int) { 0 <= pips < MILLION }

  function Amount0Delta(a: int, b: int, liquidity: int, roundUp: bool): Result<int> {
    var lower, upper := if a > b then b else a, if a > b then a else b;
    if lower <= 0 || liquidity < 0 || liquidity >= Q128 then Err(InvalidInput)
    else
      var numerator1 := liquidity * Q96;
      if !IsU256(numerator1) then Err(Overflow)
      else
        var numerator2 :- Sub(upper, lower);
        if roundUp then
          var intermediate :- MulDivUp(numerator1, numerator2, upper);
          DivUp(intermediate, lower)
        else
          var intermediate :- MulDiv(numerator1, numerator2, upper);
          DivDown(intermediate, lower)
  }

  function Amount1Delta(a: int, b: int, liquidity: int, roundUp: bool): Result<int> {
    var lower, upper := if a > b then b else a, if a > b then a else b;
    var delta :- Sub(upper, lower);
    if roundUp then MulDivUp(liquidity, delta, Q96) else MulDiv(liquidity, delta, Q96)
  }

  function NextSqrtFromInput(sqrtPrice: int, liquidity: int, amount: int, zeroForOne: bool): Result<int> {
    if amount == 0 then Ok(sqrtPrice)
    else if liquidity <= 0 || liquidity >= Q128 then Err(InvalidInput)
    else if zeroForOne then
      var numerator := liquidity * Q96;
      if !IsU256(numerator) then Err(Overflow)
      else
        var product := amount * sqrtPrice;
        var denominator := numerator + product;
        if product <= MAX_U256 && denominator <= MAX_U256 && denominator >= numerator then
          MulDivUp(numerator, sqrtPrice, denominator)
        else
          var base :- DivDown(numerator, sqrtPrice);
          var sum :- Add(base, amount);
          DivUp(numerator, sum)
    else
      var quotient :- MulDiv(amount, Q96, liquidity);
      var next := Add(sqrtPrice, quotient);
      if next.Err? || next.value > MAX_U160 then Err(SqrtOverflow) else next
  }

  function ComputeSwapStep(current: int, target: int, liquidity: int, remaining: int, pips: int): Result<Step> {
    var zeroForOne := current >= target;
    var complement := Sub(MILLION, pips);
    if complement.Err? || complement.value <= 0 then Err(InvalidFee)
    else
      var lessFee :- MulDiv(remaining, complement.value, MILLION);
      var toTarget :- if zeroForOne then Amount0Delta(target, current, liquidity, true)
                      else Amount1Delta(current, target, liquidity, true);
      var next :- if lessFee >= toTarget then Ok(target)
                  else NextSqrtFromInput(current, liquidity, lessFee, zeroForOne);
      var maxed := next == target;
      var amountIn :- if maxed then Ok(toTarget)
                      else if zeroForOne then Amount0Delta(next, current, liquidity, true)
                      else Amount1Delta(current, next, liquidity, true);
      var amountOut :- if zeroForOne then Amount1Delta(next, current, liquidity, false)
                       else Amount0Delta(current, next, liquidity, false);
      var fee :- if maxed then MulDivUp(amountIn, pips, complement.value)
                 else Sub(remaining, amountIn);
      Ok(Step(next, amountIn, amountOut, fee))
  }

  // ---------- The deltas as single quotients ----------

  lemma QuotientNat(a: nat, b: nat, d: nat)
    requires 0 < d
    ensures a * b >= 0 && a * b / d >= 0
  {
  }

  /** Token 0 held by liquidity between two prices, rounded up and rounded down. */
  function Up0(lower: nat, upper: nat, liquidity: nat): nat
    requires 0 < lower <= upper
  {
    Positive(lower, upper);
    CeilDiv(liquidity * Q96 * (upper - lower), lower * upper)
  }

  function Down0(lower: nat, upper: nat, liquidity: nat): nat
    requires 0 < lower <= upper
  {
    Positive(lower, upper);
    QuotientNat(liquidity * Q96, upper - lower, lower * upper);
    liquidity * Q96 * (upper - lower) / (lower * upper)
  }

  /** Token 1 held by liquidity between two prices, rounded up and rounded down. */
  function Up1(lower: nat, upper: nat, liquidity: nat): nat
    requires lower <= upper
  {
    assert liquidity * (upper - lower) >= 0;
    CeilDiv(liquidity * (upper - lower), Q96)
  }

  function Down1(lower: nat, upper: nat, liquidity: nat): nat
    requires lower <= upper
  {
    assert liquidity * (upper - lower) >= 0;
    liquidity * (upper - lower) / Q96
  }

  lemma Positive(a: nat, b: nat)
    requires 0 < a && 0 < b
    ensures a * b > 0
  {
  }

  lemma Amount0Exact(lower: int, upper: int, liquidity: int)
    requires 0 < lower <= upper <= MAX_U160 && 0 <= liquidity < Q128
    ensures Amount0Delta(lower, upper, liquidity, true) == Ok(Up0(lower, upper, liquidity))
    ensures Amount0Delta(lower, upper, liquidity, false) == Ok(Down0(lower, upper, liquidity))
    ensures Amount0Delta(upper, lower, liquidity, true) == Ok(Up0(lower, upper, liquidity))
    ensures Amount0Delta(upper, lower, liquidity, false) == Ok(Down0(lower, upper, liquidity))
    ensures Up0(lower, upper, liquidity) <= liquidity * Q96 < MAX_U256 / 2
    ensures Down0(lower, upper, liquidity) <= liquidity * Q96
  {
    var n := liquidity * Q96;
    var x := n * (upper - lower);
    MulMono(0, upper - lower, n);
    MulMono(upper - lower, upper, n);
    CeilGalois(x, upper, n);
    FloorLeCeil(x, upper);
    CeilNested(x, upper, lower);
    FloorNested(x, upper, lower);
    MulMono(1, lower, n);
    CeilGalois(CeilDiv(x, upper), lower, n);
    FloorLeCeil(x, lower * upper);
    DivBounds(x, upper);
  }

  lemma Amount1Exact(lower: int, upper: int, liquidity: int)
    requires 0 < lower <= upper <= MAX_U160 && 0 <= liquidity < Q128
    ensures Amount1Delta(lower, upper, liquidity, true) == Ok(Up1(lower, upper, liquidity))
    ensures Amount1Delta(lower, upper, liquidity, false) == Ok(Down1(lower, upper, liquidity))
    ensures Amount1Delta(upper, lower, liquidity, true) == Ok(Up1(lower, upper, liquidity))
    ensures Amount1Delta(upper, lower, liquidity, false) == Ok(Down1(lower, upper, liquidity))
    ensures Up1(lower, upper, liquidity) <= Q128 * MAX_U160 / Q96 + 1 < MAX_U256 / 2
    ensures Down1(lower, upper, liquidity) <= Up1(lower, upper, liquidity)
  {
    MulMono2(liquidity, Q128, upper - lower, MAX_U160);
    FloorMono(liquidity * (upper - lower), Q128 * MAX_U160, Q96);
    FloorLeCeil(liquidity * (upper - lower), Q96);
  }

  // ---------- Selling token 0: the price moves down ----------

  /** A price fails only if the sum of the overflow fallback does not fit. Both formulas
      round up from the exact price N * P / (N + amount * P), never beyond P. */
  lemma NextDown(price: int, liquidity: int, amount: int)
    requires PriceOk(price) && LiquidityOk(liquidity) && IsU256(amount)
    ensures var next := NextSqrtFromInput(price, liquidity, amount, true);
            && (next.Ok? <==> liquidity * Q96 / price + amount <= MAX_U256)
            && (amount <= liquidity * Q96 ==> next.Ok?)
            && (next.Ok? ==>
                  0 < next.value <= price && next.value * (liquidity * Q96 + amount * price) >= liquidity * Q96 * price)
  {
    var n := liquidity * Q96;
    BaseFits(n, price);
    if amount > 0 {
      MulMono(1, price, amount);
      MulMono(1, amount, price);
      NextDownExact(price, n, amount);
      NextDownFallback(price, n, amount);
    }
  }

  lemma NextDownIs(price: int, liquidity: int, amount: int)
    requires PriceOk(price) && LiquidityOk(liquidity) && 0 < amount <= MAX_U256
    ensures liquidity * Q96 * price >= 0 && amount * price >= 0 && liquidity * Q96 / price >= 0
    ensures var next, n := NextSqrtFromInput(price, liquidity, amount, true), liquidity * Q96;
            next.Ok? ==> next.value == if n + amount * price <= MAX_U256 then CeilDiv(n * price, n + amount * price)
                                       else CeilDiv(n, n / price + amount)
  {
    MulMono(0, amount, price);
    MulMono(0, price, liquidity * Q96);
    BaseFits(liquidity * Q96, price);
  }

  lemma NothingMoves(price: int, liquidity: int)
    ensures NextSqrtFromInput(price, liquidity, 0, true) == Ok(price)
  {
  }

  lemma BaseFits(n: nat, price: nat)
    requires 0 < price
    ensures 0 <= n / price <= n
  {
    DivBounds(n, price);
    MulMono(1, price, n / price);
  }

  lemma NextDownExact(price: nat, n: nat, amount: nat)
    requires 0 < price && 0 < n
    ensures n * price >= 0 && amount * price >= 0
    ensures var next := CeilDiv(n * price, n + amount * price);
            0 < next <= price && next * (n + amount * price) >= n * price
  {
    MulMono(0, amount, price);
    MulMono(1, price, n);
    var d := n + amount * price;
    MulMono(n, d, price);
    CeilGalois(n * price, d, price);
    CeilGalois(n * price, d, 0);
    CeilBounds(n * price, d);
  }

  lemma NextDownFallback(price: nat, n: nat, amount: nat)
    requires 0 < price && 0 < n && 0 < amount
    ensures var next := CeilDiv(n, n / price + amount);
            0 < next <= price && next * (n + amount * price) >= n * price
  {
    var base := n / price;
    DivBounds(n, price);
    var next := CeilDiv(n, base + amount);
    CeilBounds(n, base + amount);
    CeilGalois(n, base + amount, 0);
    FallbackBounds(price, n, base, amount, next);
    CeilGalois(n, base + amount, price);
  }

  lemma FallbackBounds(price: nat, n: nat, base: nat, amount: nat, next: nat)
    requires 0 < amount && base * price <= n < base * price + price
    requires n <= next * (base + amount)
    ensures n <= price * (base + amount)
    ensures next * (n + amount * price) >= n * price
  {
    var sum := base + amount;
    MulMono(1, amount, price);
    assert price * sum == base * price + amount * price;
    var product := next * sum;
    MulMono(n, product, price);
    assert product * price == next * (sum * price);
    MulMono(sum * price, n + amount * price, next);
  }

  /** An input below the cost of the target leaves the price strictly short of it. */
  lemma DownStopsShort(price: nat, target: nat, liquidity: nat, amount: nat, next: nat)
    requires 0 < target <= price && amount < Up0(target, price, liquidity)
    requires next * (liquidity * Q96 + amount * price) >= liquidity * Q96 * price
    ensures next > target
  {
    var n := liquidity * Q96;
    Positive(target, price);
    CeilGalois(n * (price - target), target * price, amount);
    assert target * (n + amount * price) == target * n + amount * (target * price);
    assert n * (price - target) == n * price - target * n;
    if next <= target { MulMono(next, target, n + amount * price); }
  }

  /** The input needed to move to the rounded-up price is at most the input given. */
  lemma DownCost(price: nat, liquidity: nat, amount: nat, next: nat)
    requires 0 < next <= price
    requires next * (liquidity * Q96 + amount * price) >= liquidity * Q96 * price
    ensures Up0(next, price, liquidity) <= amount
  {
    var n := liquidity * Q96;
    Positive(next, price);
    assert next * (n + amount * price) == next * n + amount * (next * price);
    assert n * (price - next) == n * price - next * n;
    CeilGalois(n * (price - next), next * price, amount);
  }

  /** More input moves the price at least as far down, even when the two inputs take
      different formulas. */
  lemma NextDownMono(price: int, liquidity: int, amount: int, amount': int)
    requires PriceOk(price) && LiquidityOk(liquidity) && 0 <= amount <= amount' <= MAX_U256
    ensures var near, far := NextSqrtFromInput(price, liquidity, amount, true), NextSqrtFromInput(price, liquidity, amount', true);
            far.Ok? ==> near.Ok? && far.value <= near.value
  {
    hide NextSqrtFromInput;
    NextDown(price, liquidity, amount);
    NextDown(price, liquidity, amount');
    var near := NextSqrtFromInput(price, liquidity, amount, true);
    if amount == 0 { NothingMoves(price, liquidity); }
    if 0 < amount < amount' && near.Ok? { FurtherDown(price, liquidity, amount, amount', near.value); }
  }

  lemma FurtherDown(price: int, liquidity: int, amount: int, amount': int, near: int)
    requires PriceOk(price) && LiquidityOk(liquidity) && 0 < amount < amount' <= MAX_U256 && 0 < near
    requires near * (liquidity * Q96 + amount * price) >= liquidity * Q96 * price
    ensures var far := NextSqrtFromInput(price, liquidity, amount', true); far.Ok? ==> far.value <= near
  {
    hide NextSqrtFromInput;
    var n := liquidity * Q96;
    NextDownIs(price, liquidity, amount');
    DownExactMono(n, price, amount, amount', near);
    DownFallbackMono(n, price, amount, amount', near);
  }

  lemma DownExactMono(n: nat, price: nat, amount: nat, amount': nat, next: nat)
    requires 0 < n && 0 < price && amount <= amount'
    requires next * (n + amount * price) >= n * price
    ensures n * price >= 0 && n + amount' * price > 0
    ensures CeilDiv(n * price, n + amount' * price) <= next
  {
    MulMono(amount, amount', price);
    MulMono(0, amount, price);
    MulMono(0, price, n);
    MulMono(n + amount * price, n + amount' * price, next);
    CeilGalois(n * price, n + amount' * price, next);
  }

  lemma DownFallbackMono(n: nat, price: nat, amount: nat, amount': nat, next: nat)
    requires 0 < n && 0 < price && amount < amount'
    requires next * (n + amount * price) >= n * price
    ensures CeilDiv(n, n / price + amount') <= next
  {
    DivBounds(n, price);
    FallbackCovers(n, price, n / price, amount, amount', next);
    CeilGalois(n, n / price + amount', next);
  }

  /** One unit of input more makes up for flooring n / price. */
  lemma FallbackCovers(n: nat, price: nat, base: nat, amount: nat, amount': nat, next: nat)
    requires 0 < price && amount < amount' && n < base * price + price
    requires next * (n + amount * price) >= n * price
    ensures n <= next * (base + amount')
  {
    UnitMore(n, price, base, amount, amount');
    ScaledCancel(n, price, base + amount', next, n + amount * price);
  }

  lemma UnitMore(n: nat, price: nat, base: nat, amount: nat, amount': nat)
    requires 0 < price && amount < amount' && n < base * price + price
    ensures n + amount * price <= (base + amount') * price
  {
    MulMono(amount + 1, amount', price);
    assert (amount + 1) * price == amount * price + price;
    assert (base + amount') * price == base * price + amount' * price;
  }

  lemma ScaledCancel(n: nat, price: nat, sum: nat, next: nat, cost: nat)
    requires 0 < price && cost <= sum * price && next * cost >= n * price
    ensures n <= next * sum
  {
    MulMono(cost, sum * price, next);
    assert next * (sum * price) == (next * sum) * price;
    MulCancel(n, next * sum, price);
  }

  // ---------- Selling token 1: the price moves up ----------

  /** The price moves up by the whole quotient, which the amount pays for, and fails only past
      160 bits; it stays short of a target exactly when the amount is below its cost. */
  lemma NextUp(price: int, target: int, liquidity: int, amount: int)
    requires PriceOk(price) && PriceOk(target) && LiquidityOk(liquidity) && price <= target && IsU256(amount)
    ensures var next, moved := NextSqrtFromInput(price, liquidity, amount, false), price + amount * Q96 / liquidity;
            && price <= moved
            && (next.Ok? <==> moved <= MAX_U160)
            && (next.Ok? ==> next.value == moved)
            && (moved < target <==> amount < Up1(price, target, liquidity))
            && Up1(price, moved, liquidity) <= amount
  {
    var quotient := amount * Q96 / liquidity;
    DivBounds(amount * Q96, liquidity);
    MulMono(0, target - price, liquidity);
    CeilGalois(liquidity * (target - price), Q96, amount);
    FloorGalois(amount * Q96, liquidity, target - price);
    CeilGalois(liquidity * quotient, Q96, amount);
    if amount == 0 { assert 0 / liquidity == 0; }
  }

  lemma NextUpMono(price: int, target: int, liquidity: int, amount: int, amount': int)
    requires PriceOk(price) && PriceOk(target) && LiquidityOk(liquidity) && price <= target
    requires 0 <= amount <= amount' <= MAX_U256
    ensures var near, far := NextSqrtFromInput(price, liquidity, amount, false), NextSqrtFromInput(price, liquidity, amount', false);
            far.Ok? ==> near.Ok? && near.value <= far.value
  {
    hide NextSqrtFromInput, Up1;
    NextUp(price, target, liquidity, amount);
    NextUp(price, target, liquidity, amount');
    FloorMono(amount * Q96, amount' * Q96, liquidity);
  }

  // ---------- The whole step ----------

  predicate StepInputs(current: int, target: int, liquidity: int, remaining: int, pips: int) {
    PriceOk(current) && PriceOk(target) && LiquidityOk(liquidity) && IsU256(remaining) && PipsOk(pips)
  }

  function LessFee(remaining: nat, pips: int): nat
    requires PipsOk(pips)
  {
    assert remaining * (MILLION - pips) >= 0;
    remaining * (MILLION - pips) / MILLION
  }

  /** Input that moves the price from current to next, in the direction of target. */
  function Cost(current: nat, target: nat, next: nat, liquidity: nat): nat
    requires 0 < current && 0 < next && (target <= next <= current || current <= next <= target)
  {
    if current >= target then Up0(next, current, liquidity) else Up1(current, next, liquidity)
  }

  function Gain(current: nat, target: nat, next: nat, liquidity: nat): nat
    requires 0 < current && 0 < next && (target <= next <= current || current <= next <= target)
  {
    if current >= target then Down1(next, current, liquidity) else Down0(current, next, liquidity)
  }

  lemma LessFeeBound(remaining: nat, pips: int)
    requires PipsOk(pips)
    ensures 0 <= LessFee(remaining, pips) <= remaining
  {
    MulMono(0, MILLION - pips, remaining);
    MulMono(MILLION - pips, MILLION, remaining);
    FloorMono(remaining * (MILLION - pips), remaining * MILLION, MILLION);
  }

  lemma LessFeeMono(remaining: nat, remaining': nat, pips: int)
    requires PipsOk(pips) && remaining <= remaining'
    ensures LessFee(remaining, pips) <= LessFee(remaining', pips)
  {
    MulMono(remaining, remaining', MILLION - pips);
    FloorMono(remaining * (MILLION - pips), remaining' * (MILLION - pips), MILLION);
  }

  lemma CompleteFee(amountIn: nat, remaining: nat, pips: int)
    requires PipsOk(pips) && amountIn <= LessFee(remaining, pips)
    ensures amountIn * pips >= 0
    ensures var fee := CeilDiv(amountIn * pips, MILLION - pips);
            && amountIn + fee <= remaining
            && (fee - 1) * MILLION < (amountIn + fee - 1) * pips
            && fee * MILLION >= (amountIn + fee) * pips
  {
    var complement := MILLION - pips;
    MulMono(0, pips, amountIn);
    FloorGalois(remaining * complement, MILLION, amountIn);
    CeilBounds(amountIn * pips, complement);
    CeilGalois(amountIn * pips, complement, remaining - amountIn);
    assert (remaining - amountIn) * complement == remaining * complement - amountIn * complement;
  }

  lemma PartialFee(amountIn: nat, remaining: nat, pips: int)
    requires PipsOk(pips) && amountIn <= LessFee(remaining, pips)
    ensures amountIn <= remaining
    ensures (remaining - amountIn) * MILLION >= remaining * pips
  {
    FloorGalois(remaining * (MILLION - pips), MILLION, amountIn);
    MulMono(0, pips, remaining);
  }

  /** Where the price goes: to the target when the fee-reduced input covers its cost,
      and otherwise strictly short of it, at a cost the input covers. */
  lemma NextPrice(current: int, target: int, liquidity: int, lessFee: int)
    requires PriceOk(current) && PriceOk(target) && LiquidityOk(liquidity)
    requires 0 <= lessFee < Cost(current, target, target, liquidity)
    ensures var next := NextSqrtFromInput(current, liquidity, lessFee, current >= target);
            && next.Ok? && PriceOk(next.value)
            && (target < next.value <= current || current <= next.value < target)
            && Cost(current, target, next.value, liquidity) <= lessFee
  {
    if current >= target {
      Amount0Exact(target, current, liquidity);
      NextDown(current, liquidity, lessFee);
      var next := NextSqrtFromInput(current, liquidity, lessFee, true).value;
      DownStopsShort(current, target, liquidity, lessFee, next);
      DownCost(current, liquidity, lessFee, next);
    } else {
      Amount1Exact(current, target, liquidity);
      NextUp(current, target, liquidity, lessFee);
    }
  }

  /** The price the step moves to. */
  function StepPrice(current: int, target: int, liquidity: int, lessFee: int): (next: int)
    requires PriceOk(current) && PriceOk(target) && LiquidityOk(liquidity) && 0 <= lessFee
    ensures target <= next <= current || current <= next <= target
    ensures PriceOk(next)
    ensures next == target <==> lessFee >= Cost(current, target, target, liquidity)
    ensures next != target ==> Cost(current, target, next, liquidity) <= lessFee
  {
    if lessFee >= Cost(current, target, target, liquidity) then target
    else
      NextPrice(current, target, liquidity, lessFee);
      NextSqrtFromInput(current, liquidity, lessFee, current >= target).value
  }

  /** The step a caller can rely on: between the two prices, at the target exactly when the
      fee-reduced input covers it, consuming at most the remaining input (all of it when it
      stops short) and charging at least the full fee on what it consumes, and not a unit
      more than that when it reaches the target. */
  ghost predicate SoundStep(current: int, target: int, liquidity: int, remaining: int, pips: int, step: Step)
    requires StepInputs(current, target, liquidity, remaining, pips)
  {
    && step.next == StepPrice(current, target, liquidity, LessFee(remaining, pips))
    && (target <= step.next <= current || current <= step.next <= target)
    && (step.next == target <==> LessFee(remaining, pips) >= Cost(current, target, target, liquidity))
    && step.amountIn == Cost(current, target, step.next, liquidity)
    && step.amountOut == Gain(current, target, step.next, liquidity) < MAX_U256 / 1024
    && 0 <= step.fee && step.Consumed() <= remaining
    && (step.next != target ==> step.Consumed() == remaining)
    && step.fee * MILLION >= step.Consumed() * pips
    && (step.next == target ==> (step.fee - 1) * MILLION < (step.Consumed() - 1) * pips)
  }

  /** The fee of a step: proportional when the target is reached, else whatever is left. */
  function StepFee(amountIn: nat, remaining: nat, pips: int, maxed: bool): (fee: int)
    requires PipsOk(pips) && amountIn <= LessFee(remaining, pips)
    ensures 0 <= fee && amountIn + fee <= remaining && fee * MILLION >= (amountIn + fee) * pips
    ensures if maxed then (fee - 1) * MILLION < (amountIn + fee - 1) * pips else amountIn + fee == remaining
  {
    CompleteFee(amountIn, remaining, pips);
    PartialFee(amountIn, remaining, pips);
    if maxed then CeilDiv(amountIn * pips, MILLION - pips) else remaining - amountIn
  }

  /** On prices, liquidity and fee in range a step never fails and is sound, in both
      directions and on the overflow fallback path. */
  lemma StepSucceeds(current: int, target: int, liquidity: int, remaining: int, pips: int)
    requires StepInputs(current, target, liquidity, remaining, pips)
    ensures ComputeSwapStep(current, target, liquidity, remaining, pips).Ok?
    ensures SoundStep(current, target, liquidity, remaining, pips,
                      ComputeSwapStep(current, target, liquidity, remaining, pips).value)
  {
    hide ComputeSwapStep, Amount0Delta, Amount1Delta, NextSqrtFromInput, Up0, Up1, Down0, Down1, LessFee, StepFee;
    var lessFee := LessFee(remaining, pips);
    LessFeeBound(remaining, pips);
    var next := StepPrice(current, target, liquidity, lessFee);
    var lower, upper := if current >= target then next else current, if current >= target then current else next;
    Amount0Exact(lower, upper, liquidity);
    Amount1Exact(lower, upper, liquidity);
    var amountIn, amountOut := Cost(current, target, next, liquidity), Gain(current, target, next, liquidity);
    var fee := StepFee(amountIn, remaining, pips, next == target);
    StepIs(current, target, liquidity, remaining, pips, amountIn, fee, next);
    var step := Step(next, amountIn, amountOut, fee);
    assert SoundStep(current, target, liquidity, remaining, pips, step);
  }

  lemma FeesChecked(amountIn: nat, remaining: nat, pips: int)
    requires PipsOk(pips) && remaining <= MAX_U256 && amountIn <= LessFee(remaining, pips)
    ensures MulDiv(remaining, MILLION - pips, MILLION) == Ok(LessFee(remaining, pips))
    ensures MulDivUp(amountIn, pips, MILLION - pips) == Ok(StepFee(amountIn, remaining, pips, true))
  {
    LessFeeBound(remaining, pips);
    CompleteFee(amountIn, remaining, pips);
  }

  /** The branches of ComputeSwapStep, once its arithmetic is known. */
  lemma StepIs(current: int, target: int, liquidity: int, remaining: int, pips: int, amountIn: int, fee: int, next: int)
    requires StepInputs(current, target, liquidity, remaining, pips)
    requires 0 <= LessFee(remaining, pips) <= remaining
    requires next == StepPrice(current, target, liquidity, LessFee(remaining, pips))
    requires amountIn == Cost(current, target, next, liquidity) <= LessFee(remaining, pips)
    requires fee == StepFee(amountIn, remaining, pips, next == target)
    ensures ComputeSwapStep(current, target, liquidity, remaining, pips) ==
            Ok(Step(next, amountIn, Gain(current, target, next, liquidity), fee))
  {
    hide Amount0Delta, Amount1Delta, Up0, Up1, Down0, Down1, NextSqrtFromInput, MulDiv, MulDivUp, LessFee;
    FeesChecked(amountIn, remaining, pips);
    var far, near := if current >= target then target else current, if current >= target then current else target;
    Amount0Exact(far, near, liquidity);
    Amount1Exact(far, near, liquidity);
    var lower, upper := if current >= target then next else current, if current >= target then current else next;
    Amount0Exact(lower, upper, liquidity);
    Amount1Exact(lower, upper, liquidity);
    if LessFee(remaining, pips) < Cost(current, target, target, liquidity) {
      NextPrice(current, target, liquidity, LessFee(remaining, pips));
    }
  }
}
