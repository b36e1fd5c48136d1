/** The checked arithmetic refines the reference: whenever a checked quote succeeds, its
    value is the one the unbounded formulas give. */
module Refinement {
  import opened Arith
  import opened U256
  import opened Options
  import TickMath
  import SwapMath
  import SwapTheorems
  import ConstantProduct
  import StableMath
  import R = Reference

  lemma CeilIsDivUp(a: nat, b: nat)
    requires b > 0
    ensures R.DivUp(a, b) == Some(CeilDiv(a, b))
  {
    CeilBounds(a, b);
    var q := CeilDiv(a, b);
    assert (q - 1) * b == q * b - b;
    FloorGalois(a + b - 1, b, q);
    FloorGalois(a + b - 1, b, q + 1);
    assert (q + 1) * b == q * b + b;
  }

  // ---------- Tick ratio ----------

  lemma {:induction false} BitsAreHalvings(factors: seq<nat>, ratio: nat, i: nat, absolute: nat)
    requires i <= |factors|
    ensures R.ScaleBits(factors, ratio, i, absolute) == TickMath.Fold(factors, ratio, i, ShiftRight(absolute, i))
    decreases |factors| - i
  {
    if i < |factors| {
      ShiftOnce(absolute, i);
      var ratio' := if ShiftRight(absolute, i) % 2 == 1 then TickMath.Scale(ratio, factors[i]) else ratio;
      BitsAreHalvings(factors, ratio', i + 1, absolute);
    }
  }

  lemma TablesAgree()
    ensures TickMath.FACTORS == R.TICK_FACTORS
  {
  }

  /** Every tick ratio is the reference's, from its own table. */
  lemma TickRatioRefines(tick: int)
    requires TickMath.ValidTick(tick)
    ensures R.TickRatio(tick).Some?
    ensures TickMath.GetSqrtRatioAtTick(tick) == Ok(R.TickRatio(tick).value)
  {
    TablesAgree();
    TickMath.RatioInRange(tick);
    TickMath.MagnitudePositive(TickMath.Abs(tick));
    RatioIs(TickMath.FACTORS, TickMath.Abs(tick));
  }

  lemma RatioIs(factors: seq<nat>, absolute: nat)
    requires factors != []
    ensures R.ScaleBits(factors, if absolute % 2 == 1 then factors[0] else Q128, 1, absolute)
         == TickMath.Fold(factors, Q128, 0, absolute)
  {
    BitsAreHalvings(factors, if absolute % 2 == 1 then factors[0] else Q128, 1, absolute);
    assert TickMath.Scale(Q128, factors[0]) == factors[0];
  }

  // ---------- One concentrated range ----------

  lemma Amount0Refines(lower: int, upper: int, liquidity: int)
    requires 0 < lower <= upper && 0 <= liquidity
    ensures R.Amount0Delta(lower, upper, liquidity, true) == Some(SwapMath.Up0(lower, upper, liquidity))
    ensures R.Amount0Delta(lower, upper, liquidity, false) == Some(SwapMath.Down0(lower, upper, liquidity))
  {
    hide R.DivUp;
    var x := liquidity * Q96 * (upper - lower);
    MulMono(0, upper - lower, liquidity * Q96);
    CeilIsDivUp(x, upper);
    CeilIsDivUp(CeilDiv(x, upper), lower);
    CeilNested(x, upper, lower);
    FloorNested(x, upper, lower);
  }

  lemma Amount1Refines(lower: int, upper: int, liquidity: int)
    requires 0 <= lower <= upper && 0 <= liquidity
    ensures R.Amount1Delta(lower, upper, liquidity, true) == Some(SwapMath.Up1(lower, upper, liquidity))
    ensures R.Amount1Delta(lower, upper, liquidity, false) == Some(SwapMath.Down1(lower, upper, liquidity))
  {
    hide R.DivUp;
    MulMono(0, upper - lower, liquidity);
    CeilIsDivUp(liquidity * (upper - lower), Q96);
  }

  lemma NextDownRefines(price: int, liquidity: int, amount: int)
    requires SwapMath.PriceOk(price) && SwapMath.LiquidityOk(liquidity)
    requires 0 <= amount && liquidity * Q96 + amount * price <= MAX_U256
    ensures var next := SwapMath.NextSqrtFromInput(price, liquidity, amount, true);
            next.Ok? ==> R.DivUp(liquidity * Q96 * price, liquidity * Q96 + amount * price) == Some(next.value)
  {
    hide R.DivUp;
    var n := liquidity * Q96;
    MulMono(0, amount, price);
    MulMono(0, price, n);
    CeilIsDivUp(n * price, n + amount * price);
    if amount == 0 { CeilOfMultiple(price, n); }
  }

  lemma CeilOfMultiple(a: nat, b: nat)
    requires 0 < b
    ensures b * a >= 0 && CeilDiv(b * a, b) == a
  {
    CeilGalois(b * a, b, a);
    CeilGalois(b * a, b, a - 1);
    assert (a - 1) * b < b * a;
  }

  /** Selling token 0 the reference moves to the exact price rounded up. The code never moves
      further, so it never buys more, on the overflow fallback path either. */
  lemma SingleRangeBounds(price: int, target: int, liquidity: int, amountIn: int, pips: int)
    requires SwapMath.StepInputs(price, target, liquidity, amountIn, pips) && price >= target
    ensures SwapMath.ComputeSwapStep(price, target, liquidity, amountIn, pips).Ok?
    ensures var step := SwapMath.ComputeSwapStep(price, target, liquidity, amountIn, pips).value;
            var reference := R.SingleRange(price, liquidity, amountIn, pips, true);
            step.next != target ==> reference.Some? && step.amountOut <= reference.value
  {
    hide SwapMath.ComputeSwapStep, SwapMath.NextSqrtFromInput, SwapMath.Up0, SwapMath.Up1, SwapMath.Down0, SwapMath.Down1,
      R.DivUp, R.Amount0Delta, R.Amount1Delta;
    SwapMath.StepSucceeds(price, target, liquidity, amountIn, pips);
    SwapMath.LessFeeBound(amountIn, pips);
    var lessFee := SwapMath.LessFee(amountIn, pips);
    var step := SwapMath.ComputeSwapStep(price, target, liquidity, amountIn, pips).value;
    if step.next != target {
      SwapMath.NextPrice(price, target, liquidity, lessFee);
      SwapMath.NextDown(price, liquidity, lessFee);
      ExactNext(price, liquidity, lessFee, step.next);
      var n := liquidity * Q96;
      var next := CeilDiv(n * price, n + lessFee * price);
      SwapMath.DownCost(price, liquidity, lessFee, next);
      Amount0Refines(next, price, liquidity);
      Amount1Refines(next, price, liquidity);
      SwapTheorems.Down1Mono(step.next, next, price, price, liquidity);
    }
  }

  lemma ExactNext(price: int, liquidity: int, amount: int, reached: int)
    requires SwapMath.PriceOk(price) && SwapMath.LiquidityOk(liquidity) && 0 <= amount
    ensures liquidity * Q96 * price >= 0 && amount * price >= 0
    ensures var n := liquidity * Q96;
            var next := CeilDiv(n * price, n + amount * price);
            && R.DivUp(n * price, n + amount * price) == Some(next)
            && 0 < next <= price && next * (n + amount * price) >= n * price
            && (reached * (n + amount * price) >= n * price ==> next <= reached)
  {
    hide R.DivUp;
    var n := liquidity * Q96;
    SwapMath.NextDownExact(price, n, amount);
    CeilIsDivUp(n * price, n + amount * price);
    CeilGalois(n * price, n + amount * price, reached);
  }

  /** A step that stops short of its target, without the overflow fallback, sells for what
      the single-range reference computes. */
  lemma SingleRangeRefines(price: int, target: int, liquidity: int, amountIn: int, pips: int)
    requires SwapMath.StepInputs(price, target, liquidity, amountIn, pips)
    ensures SwapMath.ComputeSwapStep(price, target, liquidity, amountIn, pips).Ok?
    ensures var step := SwapMath.ComputeSwapStep(price, target, liquidity, amountIn, pips).value;
            step.next != target
            && (price >= target ==> liquidity * Q96 + SwapMath.LessFee(amountIn, pips) * price <= MAX_U256)
            ==> R.SingleRange(price, liquidity, amountIn, pips, price >= target) == Some(step.amountOut)
  {
    hide SwapMath.ComputeSwapStep, SwapMath.NextSqrtFromInput, SwapMath.Up0, SwapMath.Up1, SwapMath.Down0, SwapMath.Down1,
      R.DivUp, R.Amount0Delta, R.Amount1Delta;
    SwapMath.StepSucceeds(price, target, liquidity, amountIn, pips);
    SwapMath.LessFeeBound(amountIn, pips);
    var lessFee := SwapMath.LessFee(amountIn, pips);
    var step := SwapMath.ComputeSwapStep(price, target, liquidity, amountIn, pips).value;
    if step.next != target {
      SwapMath.NextPrice(price, target, liquidity, lessFee);
      if price < target {
        SwapMath.NextUp(price, target, liquidity, lessFee);
        Amount1Refines(price, step.next, liquidity);
        Amount0Refines(price, step.next, liquidity);
      } else if liquidity * Q96 + lessFee * price <= MAX_U256 {
        NextDownRefines(price, liquidity, lessFee);
        Amount0Refines(step.next, price, liquidity);
        Amount1Refines(step.next, price, liquidity);
      }
    }
  }

  // ---------- Constant product ----------

  /** A successful quote is the reference's; from a well-formed pool it succeeds exactly when
      nothing overflows and the reference buys something. */
  lemma ConstantProductRefines(reserveIn: int, reserveOut: int, feeNum: int, feeDen: int, amountIn: int)
    ensures var quote := ConstantProduct.Quote(reserveIn, reserveOut, feeNum, feeDen, amountIn);
            quote.Ok? ==> R.CpOut(reserveIn, reserveOut, amountIn, feeNum, feeDen) == Some(quote.value)
    ensures ConstantProduct.WellFormed(reserveIn, reserveOut, feeNum, feeDen) && 0 < amountIn <= MAX_U256 ==>
              var reference := R.CpOut(reserveIn, reserveOut, amountIn, feeNum, feeDen);
              && reference.Some?
              && (ConstantProduct.Quote(reserveIn, reserveOut, feeNum, feeDen, amountIn).Ok?
                  <==> ConstantProduct.NoOverflow(reserveIn, reserveOut, feeNum, feeDen, amountIn) && reference.value > 0)
  {
    if ConstantProduct.WellFormed(reserveIn, reserveOut, feeNum, feeDen) && 0 < amountIn <= MAX_U256 {
      ConstantProduct.QuoteExactly(reserveIn, reserveOut, feeNum, feeDen, amountIn);
      ConstantProduct.Terms(reserveIn, reserveOut, feeDen, feeDen - feeNum, amountIn);
    }
  }

  // ---------- Stable pools: one balance ----------

  lemma {:induction false} ProductAndSumRefines(balances: seq<int>, inv: int, i: nat, pD: int, sum: int)
    requires 1 <= i <= |balances| && R.PD(balances, inv, i) == Some(pD) && sum == R.Total(balances, i)
    ensures var r := StableMath.ProductAndSum(balances, inv, i, pD, sum);
            r.Ok? ==> R.PD(balances, inv, |balances|) == Some(r.value.0) && R.Total(balances, |balances|) == r.value.1
    decreases |balances| - i
  {
    var r := StableMath.ProductAndSum(balances, inv, i, pD, sum);
    if i < |balances| && r.Ok? {
      ProductAndSumRefines(balances, inv, i + 1, pD * balances[i] * |balances| / inv, sum + balances[i]);
    }
  }

  lemma BalanceStepRefines(q: StableMath.Quadratic, inv: int, y: int)
    ensures var r := StableMath.BalanceStep(q, inv, y);
            r.Ok? ==> R.DivUp(y * y + q.c, y * 2 + q.b - inv) == Some(r.value)
  {
    if StableMath.BalanceStep(q, inv, y).Ok? { CeilIsDivUp(y * y + q.c, y * 2 + q.b - inv); }
  }

  /** The Newton loops agree step by step. */
  lemma {:induction false} BalanceRoundsRefine(q: StableMath.Quadratic, inv: int, y: int, fuel: nat)
    ensures var r := StableMath.Iterate(StableMath.BalanceNewton(q, inv), y, fuel);
            r.Ok? ==> R.BalanceRounds(q.b, q.c, inv, y, fuel) == Some(r.value)
    decreases fuel
  {
    hide StableMath.BalanceStep, R.DivUp;
    if fuel > 0 {
      BalanceStepRefines(q, inv, y);
      var next := StableMath.BalanceStep(q, inv, y);
      if next.Ok? { BalanceRoundsRefine(q, inv, next.value, fuel - 1); }
    }
  }

  lemma BalanceRefines(amp: int, balances: seq<int>, inv: int, index: int)
    ensures var r := StableMath.BalanceGivenInvariant(amp, balances, inv, index);
            r.Ok? ==> 0 <= index < |balances| && R.StableBalance(amp, balances, inv, index) == Some(r.value)
  {
    hide R.BalanceRounds, StableMath.Iterate, R.DivUp;
    var coefficients := StableMath.Coefficients(amp, balances, inv, index);
    if coefficients.Ok? {
      var q := coefficients.value;
      ProductAndSumRefines(balances, inv, 1, balances[0] * |balances|, balances[0]);
      var pD := StableMath.ProductAndSum(balances, inv, 1, balances[0] * |balances|, balances[0]).value.0;
      CeilIsDivUp(inv * inv, amp * |balances| * pD);
      CeilIsDivUp(inv * inv + q.c, inv + q.b);
      BalanceRoundsRefine(q, inv, q.start, StableMath.MAX_ITERATIONS);
    }
  }

  // ---------- Stable pools: the invariant ----------

  lemma {:induction false} SumRefines(balances: seq<int>, i: nat, sum: int)
    requires i <= |balances| && sum == R.Total(balances, i)
    ensures var r := StableMath.SumLoop(balances, i, sum); r.Ok? ==> r.value == R.Total(balances, |balances|)
    decreases |balances| - i
  {
    if i < |balances| { SumRefines(balances, i + 1, sum + balances[i]); }
  }

  lemma {:induction false} ProductRefines(balances: seq<int>, inv: int, i: nat, dP: int)
    requires i <= |balances| && R.DP(balances, inv, i) == Some(dP)
    ensures var r := StableMath.ProductLoop(balances, inv, i, dP);
            r.Ok? ==> R.DP(balances, inv, |balances|) == Some(r.value)
    decreases |balances| - i
  {
    var r := StableMath.ProductLoop(balances, inv, i, dP);
    if i < |balances| && r.Ok? {
      ProductRefines(balances, inv, i + 1, dP * inv / (balances[i] * |balances|));
    }
  }

  lemma InvariantStepRefines(amp: int, balances: seq<int>, inv: int)
    ensures var r := StableMath.InvariantStep(amp * |balances|, balances, R.Total(balances, |balances|), inv);
            r.Ok? ==> R.InvariantRound(amp, balances, inv) == Some(r.value)
  {
    ProductRefines(balances, inv, 0, inv);
  }

  lemma {:induction false} InvariantRoundsRefine(amp: int, balances: seq<int>, inv: int, fuel: nat)
    ensures var step := StableMath.InvariantNewton(amp * |balances|, balances, R.Total(balances, |balances|));
            var r := StableMath.Iterate(step, inv, fuel);
            r.Ok? ==> R.InvariantRounds(amp, balances, inv, fuel) == Some(r.value)
    decreases fuel
  {
    hide StableMath.InvariantStep, R.InvariantRound;
    if fuel > 0 {
      InvariantStepRefines(amp, balances, inv);
      var next := StableMath.InvariantStep(amp * |balances|, balances, R.Total(balances, |balances|), inv);
      if next.Ok? { InvariantRoundsRefine(amp, balances, next.value, fuel - 1); }
    }
  }

  lemma InvariantRefines(amp: int, balances: seq<int>)
    ensures var r := StableMath.StableInvariant(amp, balances);
            r.Ok? ==> R.StableInvariant(amp, balances) == Some(r.value)
  {
    hide StableMath.Iterate, R.InvariantRounds;
    SumRefines(balances, 0, 0);
    InvariantRoundsRefine(amp, balances, R.Total(balances, |balances|), StableMath.MAX_ITERATIONS);
  }

  // ---------- Stable pools: the quote ----------

  lemma {:induction false} ScaleRefines(basket: StableMath.Basket, n: nat)
    requires n <= |basket.balances| && n <= |basket.scalingFactors|
    ensures var r := StableMath.ScaleAll(basket, n);
            r.Ok? ==> r.value == R.Scaled(basket.balances, basket.scalingFactors, n)
  {
    if n > 0 { ScaleRefines(basket, n - 1); }
  }

  lemma MulUpRefines(a: int, b: int)
    ensures var r := StableMath.FpMulUp(a, b); r.Ok? ==> R.DivUp(a * b, R.ONE) == Some(r.value)
  {
    if StableMath.FpMulUp(a, b).Ok? { CeilIsDivUp(a * b, R.ONE); }
  }

  /** A stable quote is the reference's, Newton loops included. */
  lemma StableQuoteRefines(
    basket: StableMath.Basket, tokens: nat, feeNum: int, feeDen: int, inIdx: int, outIdx: int, amountIn: int)
    ensures var r := StableMath.Quote(basket, tokens, feeNum, feeDen, inIdx, outIdx, amountIn);
            r.Ok? ==>
              && |basket.balances| == |basket.scalingFactors| == tokens && 0 <= inIdx < tokens && 0 <= outIdx < tokens
              && R.StableOut(basket.balances, basket.scalingFactors, basket.amplificationRaw, feeNum, feeDen,
                             inIdx, outIdx, amountIn) == Some(r.value)
  {
    hide StableMath.StableInvariant, R.StableInvariant, StableMath.BalanceGivenInvariant, R.StableBalance, R.DivUp,
      StableMath.FpMulUp, StableMath.ScaleAll, R.Scaled;
    var r := StableMath.Quote(basket, tokens, feeNum, feeDen, inIdx, outIdx, amountIn);
    if r.Ok? {
      var amp := basket.amplificationRaw;
      var feeBfp := StableMath.FeeBfp(feeNum, feeDen).value;
      MulUpRefines(amountIn, feeBfp);
      ScaleRefines(basket, tokens);
      var after := amountIn - StableMath.FpMulUp(amountIn, feeBfp).value;
      var balances := StableMath.ScaleAll(basket, tokens).value;
      InvariantRefines(amp, balances);
      var inv := StableMath.StableInvariant(amp, balances).value;
      var upIn := StableMath.FpMulDown(after, basket.scalingFactors[inIdx]).value;
      BalanceRefines(amp, balances[inIdx := balances[inIdx] + upIn], inv, outIdx);
    }
  }
}
