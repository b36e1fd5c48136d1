/** What relates two swap steps: more input never buys less, and selling the output
    back never profits. */
module SwapTheorems {
  import opened Arith
  import opened U256
  import opened SwapMath

  lemma Down0Mono(lower: nat, near: nat, far: nat, liquidity: nat)
    requires 0 < lower <= near <= far
    ensures Down0(lower, near, liquidity) <= Down0(lower, far, liquidity)
  {
    var n, out := liquidity * Q96, Down0(lower, near, liquidity);
    Positive(lower, near);
    Positive(lower, far);
    MulMono(0, near - lower, n);
    MulMono(0, far - lower, n);
    FloorGalois(n * (near - lower), lower * near, out);
    FloorGalois(n * (far - lower), lower * far, out);
    WiderRange(n, lower, near, far, out);
  }

  lemma WiderRange(n: nat, lower: nat, near: nat, far: nat, out: nat)
    requires 0 < near <= far
    requires out * (lower * near) <= n * (near - lower)
    ensures out * (lower * far) <= n * (far - lower)
  {
    var slack := n - out * lower;
    assert slack * near >= n * lower by {
      assert slack * near == n * near - out * (lower * near);
      assert n * (near - lower) == n * near - n * lower;
    }
    if slack < 0 { MulMono(slack, -1, near); MulMono(0, lower, n); }
    MulMono(near, far, slack);
    assert slack * far == n * far - out * (lower * far);
    assert n * (far - lower) == n * far - n * lower;
  }

  lemma Down1Mono(lower: nat, lower': nat, upper: nat, upper': nat, liquidity: nat)
    requires lower' <= lower <= upper <= upper'
    ensures Down1(lower, upper, liquidity) <= Down1(lower', upper', liquidity)
  {
    MulMono(upper - lower, upper' - lower', liquidity);
    FloorMono(liquidity * (upper - lower), liquidity * (upper' - lower'), Q96);
  }

  /** More fee-reduced input moves the price at least as far towards the target. */
  lemma StepPriceMono(current: int, target: int, liquidity: int, lessFee: int, lessFee': int)
    requires PriceOk(current) && PriceOk(target) && LiquidityOk(liquidity) && 0 <= lessFee <= lessFee'
    ensures var next, next' := StepPrice(current, target, liquidity, lessFee), StepPrice(current, target, liquidity, lessFee');
            target <= next' <= next <= current || current <= next <= next' <= target
  {
    hide NextSqrtFromInput, Amount0Delta, Amount1Delta, Up0, Up1;
    var next, next' := StepPrice(current, target, liquidity, lessFee), StepPrice(current, target, liquidity, lessFee');
    if next' != target {
      NextPrice(current, target, liquidity, lessFee');
      if current >= target {
        Amount0Exact(target, current, liquidity);
        NextDownMono(current, liquidity, lessFee, lessFee');
      } else {
        Amount1Exact(current, target, liquidity);
        NextUpMono(current, target, liquidity, lessFee, lessFee');
      }
    }
  }

  lemma GainMono(current: int, target: int, near: int, far: int, liquidity: int)
    requires PriceOk(current) && 0 < near && 0 < far && 0 <= liquidity
    requires 0 < target <= far <= near <= current || current <= near <= far <= target
    ensures Gain(current, target, near, liquidity) <= Gain(current, target, far, liquidity)
  {
    if current >= target {
      Down1Mono(near, far, current, current, liquidity);
    } else {
      Down0Mono(current, near, far, liquidity);
    }
  }

  /** A larger input takes the very same step when the smaller one reaches the target,
      and never buys less. */
  lemma StepMono(current: int, target: int, liquidity: int, remaining: int, remaining': int, pips: int)
    requires StepInputs(current, target, liquidity, remaining, pips)
    requires IsU256(remaining') && remaining <= remaining'
    ensures ComputeSwapStep(current, target, liquidity, remaining, pips).Ok?
    ensures ComputeSwapStep(current, target, liquidity, remaining', pips).Ok?
    ensures var step := ComputeSwapStep(current, target, liquidity, remaining, pips).value;
            var step' := ComputeSwapStep(current, target, liquidity, remaining', pips).value;
            && (step.next == target ==> step' == step)
            && step.amountOut <= step'.amountOut
  {
    StepSucceeds(current, target, liquidity, remaining, pips);
    StepSucceeds(current, target, liquidity, remaining', pips);
    var lessFee, lessFee' := LessFee(remaining, pips), LessFee(remaining', pips);
    LessFeeMono(remaining, remaining', pips);
    LessFeeBound(remaining, pips);
    LessFeeBound(remaining', pips);
    StepPriceMono(current, target, liquidity, lessFee, lessFee');
    var next, next' := StepPrice(current, target, liquidity, lessFee), StepPrice(current, target, liquidity, lessFee');
    GainMono(current, target, next, next', liquidity);
    if next == target {
      FeeIgnoresRemaining(current, target, liquidity, remaining, remaining', pips);
    }
  }

  lemma FeeIgnoresRemaining(current: int, target: int, liquidity: int, remaining: int, remaining': int, pips: int)
    requires StepInputs(current, target, liquidity, remaining, pips)
    requires StepInputs(current, target, liquidity, remaining', pips)
    requires Cost(current, target, target, liquidity) <= LessFee(remaining, pips) <= remaining
    requires Cost(current, target, target, liquidity) <= LessFee(remaining', pips) <= remaining'
    ensures ComputeSwapStep(current, target, liquidity, remaining, pips) == ComputeSwapStep(current, target, liquidity, remaining', pips)
  {
    var cost := Cost(current, target, target, liquidity);
    StepIs(current, target, liquidity, remaining, pips, cost, StepFee(cost, remaining, pips, true), target);
    StepIs(current, target, liquidity, remaining', pips, cost, StepFee(cost, remaining', pips, true), target);
  }

  // ---------- Round trip ----------

  /** What token 1 bought, rounded down, buys back at most the original range. */
  lemma BuyBackUp(low: nat, high: nat, reached: nat, liquidity: nat)
    requires 0 < low <= high && low <= reached && 0 < liquidity
    requires Up1(low, reached, liquidity) <= Down1(low, high, liquidity)
    ensures reached <= high
  {
    var m := Down1(low, high, liquidity);
    MulMono(0, reached - low, liquidity);
    MulMono(0, high - low, liquidity);
    CeilGalois(liquidity * (reached - low), Q96, m);
    FloorGalois(liquidity * (high - low), Q96, m);
    MulCancel(reached - low, high - low, liquidity);
  }

  lemma BuyBackDown(low: nat, high: nat, reached: nat, liquidity: nat)
    requires 0 < low <= high && 0 < reached <= high && 0 < liquidity
    requires Up0(reached, high, liquidity) <= Down0(low, high, liquidity)
    ensures low <= reached
  {
    var n, m := liquidity * Q96, Down0(low, high, liquidity);
    CostBound(reached, high, n, m);
    YieldBound(low, high, n, m);
    if reached < low { NarrowerCostsLess(n, m, low, high, reached); }
  }

  lemma CostBound(lower: nat, upper: nat, n: nat, m: nat)
    requires 0 < lower <= upper
    requires lower * upper > 0 && n * (upper - lower) >= 0 ==> CeilDiv(n * (upper - lower), lower * upper) <= m
    ensures n * (upper - lower) <= m * (lower * upper)
  {
    Positive(lower, upper);
    MulMono(0, upper - lower, n);
    CeilGalois(n * (upper - lower), lower * upper, m);
  }

  lemma YieldBound(lower: nat, upper: nat, n: nat, m: nat)
    requires 0 < lower <= upper
    requires lower * upper > 0 && n * (upper - lower) >= 0 ==> m <= n * (upper - lower) / (lower * upper)
    ensures m * (lower * upper) <= n * (upper - lower)
  {
    Positive(lower, upper);
    MulMono(0, upper - lower, n);
    FloorGalois(n * (upper - lower), lower * upper, m);
  }

  lemma NarrowerCostsLess(n: nat, m: nat, low: nat, high: nat, reached: nat)
    requires 0 < n && reached < low
    requires n * (high - reached) <= m * (reached * high)
    ensures m * (low * high) > n * (high - low)
  {
    MulMono(reached, low, high);
    MulMono(reached * high, low * high, m);
    assert n * (high - reached) == n * (high - low) + n * (low - reached);
    MulMono(1, low - reached, n);
  }

  /** Inside one range, feeding a step's output back from the price it reached never moves
      past the original price and never returns more than the step took in, whatever the
      two fees and the two directions. */
  lemma RoundTripNeverProfits(
    current: int, target: int, back: int, liquidity: int, remaining: int, pips: int, pips': int)
    requires StepInputs(current, target, liquidity, remaining, pips)
    requires PriceOk(back) && PipsOk(pips')
    ensures ComputeSwapStep(current, target, liquidity, remaining, pips).Ok?
    ensures var there := ComputeSwapStep(current, target, liquidity, remaining, pips).value;
            (if current >= target then back >= there.next else back <= there.next) ==>
              && var home := ComputeSwapStep(there.next, back, liquidity, there.amountOut, pips');
              && home.Ok?
              && (there.next <= home.value.next <= current || current <= home.value.next <= there.next)
              && home.value.amountOut <= there.amountIn
  {
    hide ComputeSwapStep, StepPrice, LessFee, Up0, Up1, Down0, Down1;
    StepSucceeds(current, target, liquidity, remaining, pips);
    var there := ComputeSwapStep(current, target, liquidity, remaining, pips).value;
    if if current >= target then back >= there.next else back <= there.next {
      StepSucceeds(there.next, back, liquidity, there.amountOut, pips');
      var home := ComputeSwapStep(there.next, back, liquidity, there.amountOut, pips').value;
      LessFeeBound(there.amountOut, pips');
      if there.next == back {
        EmptyRange(back, liquidity);
      } else if current >= target {
        ReturnUp(there.next, current, home.next, liquidity);
      } else {
        ReturnDown(current, there.next, home.next, liquidity);
      }
    }
  }

  lemma EmptyRange(price: nat, liquidity: nat)
    requires 0 < price
    ensures Down0(price, price, liquidity) == Down1(price, price, liquidity) == 0
  {
    Positive(price, price);
  }

  lemma ReturnUp(low: nat, high: nat, reached: nat, liquidity: nat)
    requires 0 < low <= high && low <= reached && 0 < liquidity
    ensures Up1(low, reached, liquidity) <= Down1(low, high, liquidity) ==>
              reached <= high && Down0(low, reached, liquidity) <= Up0(low, high, liquidity)
  {
    if Up1(low, reached, liquidity) <= Down1(low, high, liquidity) {
      BuyBackUp(low, high, reached, liquidity);
      Down0Mono(low, reached, high, liquidity);
      RoundedDownBelowUp(low, high, liquidity);
    }
  }

  lemma ReturnDown(low: nat, high: nat, reached: nat, liquidity: nat)
    requires 0 < low <= high && 0 < reached <= high && 0 < liquidity
    ensures Up0(reached, high, liquidity) <= Down0(low, high, liquidity) ==>
              low <= reached && Down1(reached, high, liquidity) <= Up1(low, high, liquidity)
  {
    if Up0(reached, high, liquidity) <= Down0(low, high, liquidity) {
      BuyBackDown(low, high, reached, liquidity);
      Down1Mono(reached, low, high, high, liquidity);
      RoundedDownBelowUp(low, high, liquidity);
    }
  }

  lemma RoundedDownBelowUp(lower: nat, upper: nat, liquidity: nat)
    requires 0 < lower <= upper
    ensures Down0(lower, upper, liquidity) <= Up0(lower, upper, liquidity)
    ensures Down1(lower, upper, liquidity) <= Up1(lower, upper, liquidity)
  {
    Positive(lower, upper);
    MulMono(0, upper - lower, liquidity * Q96);
    MulMono(0, upper - lower, liquidity);
    FloorLeCeil(liquidity * Q96 * (upper - lower), lower * upper);
    FloorLeCeil(liquidity * (upper - lower), Q96);
  }

  // ---------- Uniqueness ----------

  /** There is only one sound step: its fee, too, is the only one that is large enough and
      not larger than that. */
  lemma SoundStepUnique(current: int, target: int, liquidity: int, remaining: int, pips: int, a: Step, b: Step)
    requires StepInputs(current, target, liquidity, remaining, pips)
    requires SoundStep(current, target, liquidity, remaining, pips, a)
    requires SoundStep(current, target, liquidity, remaining, pips, b)
    ensures a == b
  {
    hide StepPrice, Cost, Gain, LessFee;
    if a.next == target {
      LeastFee(a.amountIn, a.fee, b.fee, pips);
      LeastFee(a.amountIn, b.fee, a.fee, pips);
    }
  }

  lemma LeastFee(amountIn: int, fee: int, fee': int, pips: int)
    requires PipsOk(pips)
    requires (fee - 1) * MILLION < (amountIn + fee - 1) * pips
    requires fee' * MILLION >= (amountIn + fee') * pips
    ensures fee <= fee'
  {
    if fee' <= fee - 1 {
      assert (fee - 1) * (MILLION - pips) < amountIn * pips;
      assert fee' * (MILLION - pips) >= amountIn * pips;
      Arith.MulMono(fee', fee - 1, MILLION - pips);
    }
  }
}
