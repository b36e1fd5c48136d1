/** Convergence and tightness of the Newton loop that solves for one stable balance.
    With F(y) = y^2 + (b - D) y - c, the first iterate is itself a rounded-up Newton step
    from y = D, every rounded-up step lands where F >= 0, and from there the iterates
    only descend, halving their distance to the root. */
module StableTheorems {
  import opened Arith
  import opened U256
  import opened StableMath

  /** The quadratic of the balance at y, with slope = b - D. */
  function F(slope: int, c: int, y: int): int {
    y * y + slope * y - c
  }

  /** A rounded-up Newton step from y to next lands at a positive point where F is at least
      the square of the distance travelled. */
  lemma StepLands(slope: int, c: nat, y: nat, next: nat)
    requires 0 < c && next * (2 * y + slope) >= y * y + c
    ensures F(slope, c, next) >= 0 && next > 0
    ensures next != y ==> F(slope, c, next) > 0
  {
    hide F;
    StepIdentity(slope, c, y, next);
    Square(next - y);
    if next == 0 { Square(y); }
  }

  lemma StepIdentity(slope: int, c: int, y: int, next: int)
    ensures F(slope, c, next) == (next - y) * (next - y) + (next * (2 * y + slope) - (y * y + c))
  {
    assert (next - y) * (next - y) == next * next - 2 * (next * y) + y * y;
    assert next * (2 * y + slope) == 2 * (next * y) + slope * next;
  }

  lemma Square(a: int)
    ensures a * a >= 0 && (a != 0 ==> a * a >= 1)
  {
    if a > 0 { MulMono(1, a, a); }
    if a < 0 { MulMono(1, -a, -a); }
  }

  /** Where F >= 0 the Newton denominator is positive, larger than y itself. */
  lemma DenominatorPositive(slope: int, c: nat, y: nat)
    requires 0 < c && F(slope, c, y) >= 0
    ensures y > 0 && y + slope > 0
  {
    assert F(slope, c, y) == y * (y + slope) - c;
    if y + slope <= 0 { MulMono(y + slope, 0, y); }
  }

  /** F increases beyond any positive point where it is not negative. */
  lemma FMono(slope: int, c: nat, y: nat, z: nat)
    requires 0 < c && F(slope, c, y) >= 0 && y <= z
    ensures F(slope, c, z) >= F(slope, c, y)
  {
    DenominatorPositive(slope, c, y);
    assert F(slope, c, z) - F(slope, c, y) == (z - y) * (z + y + slope);
    MulMono(0, z - y, z + y + slope);
  }

  /** The least integer where F >= 0. */
  ghost function Root(slope: int, c: nat, y: nat): (r: nat)
    requires 0 < c && F(slope, c, y) >= 0
    ensures 0 < r <= y && F(slope, c, r) >= 0 && F(slope, c, r - 1) < 0
  {
    if y > 0 && F(slope, c, y - 1) < 0 then
      y
    else
      DenominatorPositive(slope, c, y);
      Root(slope, c, y - 1)
  }

  /** The step never increases y, stays at or above the root, and halves the distance. */
  lemma StepHalves(slope: int, c: nat, y: nat, r: nat, next: nat)
    requires 0 < c && F(slope, c, y) >= 0
    requires 0 < r <= y && F(slope, c, r) >= 0 && F(slope, c, r - 1) < 0
    requires 2 * y + slope > 0 && next == CeilDiv(y * y + c, 2 * y + slope)
    ensures F(slope, c, next) >= 0 && r <= next <= y && next - r <= (y - r + 1) / 2
    ensures next != y ==> F(slope, c, next) > 0
  {
    hide F;
    var d := 2 * y + slope;
    CeilBounds(y * y + c, d);
    StepLands(slope, c, y, next);
    if next < r { FMono(slope, c, next, r - 1); }
    var m := r + (y - r + 1) / 2;
    HalfwayCovers(slope, c, y, r, m);
    CeilGalois(y * y + c, d, m);
    HalfwayCovers(slope, c, y, y, y);
    CeilGalois(y * y + c, d, y);
  }

  lemma HalfwayCovers(slope: int, c: nat, y: nat, r: nat, m: nat)
    requires 0 < c && 0 < r <= y && F(slope, c, r) >= 0 && 2 * m >= y + r
    ensures m * (2 * y + slope) >= y * y + c
  {
    hide F;
    DenominatorPositive(slope, c, r);
    MulMono(0, y - r, 2 * r + slope);
    AroundRoot(slope, c, y, r);
    HalfOfProduct(m, y + r, 2 * y + slope, y * y + c, (y - r) * (2 * r + slope) + 2 * F(slope, c, r));
  }

  lemma HalfOfProduct(m: int, sum: int, d: int, half: int, excess: int)
    requires sum <= 2 * m && 0 <= d && 0 <= excess && sum * d == 2 * half + excess
    ensures half <= m * d
  {
    MulMono(sum, 2 * m, d);
    assert (2 * m) * d == 2 * (m * d);
  }

  /** The Newton numerator around a point r, exactly. */
  lemma AroundRoot(slope: int, c: int, y: int, r: int)
    ensures (y + r) * (2 * y + slope) == 2 * (y * y + c) + (y - r) * (2 * r + slope) + 2 * F(slope, c, r)
  {
    assert (y + r) * (2 * y + slope) == 2 * (y * y) + y * slope + 2 * (r * y) + r * slope;
    assert (y - r) * (2 * r + slope) == 2 * (y * r) + y * slope - 2 * (r * r) - r * slope;
  }

  /** Two iterates at most one apart: F is below 4 just under the second. */
  lemma StopsTight(slope: int, c: nat, y: nat, next: nat)
    requires 0 < c && 2 * y + slope > 0 && next == CeilDiv(y * y + c, 2 * y + slope)
    requires y - 1 <= next <= y
    ensures F(slope, c, next - 1) < 4
  {
    CeilBounds(y * y + c, 2 * y + slope);
    assert (next - 1) * (2 * y + slope) < y * y + c;
    if next == y {
      assert F(slope, c, y - 1) == (y - 1) * (2 * y + slope) - y * y - c + 1;
    } else {
      assert F(slope, c, y - 2) == (y - 2) * (2 * y + slope) - y * y - c + 4;
    }
  }

  // ---------- The checked loop ----------

  predicate Fits(q: Quadratic, y: int) {
    IsU256(y * y + q.c) && IsU256(2 * y + q.b)
  }

  /** Coefficients in range and a current iterate where F >= 0. */
  predicate Descending(q: Quadratic, inv: int, y: int) {
    && IsU256(q.b) && IsU256(inv) && 0 < q.c && 0 < y && F(q.b - inv, q.c, y) >= 0
  }

  /** How far an iterate is from the least integer where F >= 0. */
  ghost function Distance(q: Quadratic, inv: int, y: int): nat
    requires Descending(q, inv, y)
  {
    y - Root(q.b - inv, q.c, y)
  }

  /** next is the rounded-up Newton step from y: the denominator is positive, the iterate
      does not grow, and its distance to the root at least halves. */
  ghost predicate Descends(q: Quadratic, inv: int, y: int, next: int)
    requires Descending(q, inv, y)
  {
    && 2 * y + q.b - inv > 0
    && next == CeilDiv(y * y + q.c, 2 * y + q.b - inv)
    && next <= y
    && Descending(q, inv, next)
    && Distance(q, inv, next) <= (Distance(q, inv, y) + 1) / 2
    && y - next <= Distance(q, inv, y)
    && (next != y ==> F(q.b - inv, q.c, next) > 0)
  }

  lemma NewtonDescends(q: Quadratic, inv: int, y: int)
    requires Descending(q, inv, y)
    ensures 2 * y + q.b - inv > 0 && y * y + q.c >= 0
    ensures Descends(q, inv, y, CeilDiv(y * y + q.c, 2 * y + q.b - inv))
  {
    hide F;
    DenominatorPositive(q.b - inv, q.c, y);
    MulMono(1, y, y);
    var r := Root(q.b - inv, q.c, y);
    var next := CeilDiv(y * y + q.c, 2 * y + q.b - inv);
    StepHalves(q.b - inv, q.c, y, r, next);
    RootUnique(q.b - inv, q.c, y, next);
  }

  /** With a positive denominator the only check that can fail is that of the squares. */
  lemma BalanceStepIs(q: Quadratic, inv: int, y: int)
    requires IsU256(q.b) && IsU256(inv) && 0 < q.c && 0 < y && 2 * y + q.b - inv > 0
    ensures y * y + q.c >= 0
    ensures BalanceStep(q, inv, y) == if Fits(q, y) then Ok(CeilDiv(y * y + q.c, 2 * y + q.b - inv)) else Err(Overflow)
  {
    MulMono(1, y, y);
  }

  /** One checked step: it passes its checks exactly when the squares fit, and then the
      subtraction of the invariant does not underflow and the iterate descends. */
  lemma BalanceStepDescends(q: Quadratic, inv: int, y: int)
    requires Descending(q, inv, y)
    ensures match BalanceStep(q, inv, y)
            case Ok(next) => Fits(q, y) && Descends(q, inv, y, next) && Fits(q, next)
            case Err(error) => !Fits(q, y) && error == Overflow
  {
    hide F, Root, BalanceStep;
    NewtonDescends(q, inv, y);
    BalanceStepIs(q, inv, y);
    var next := CeilDiv(y * y + q.c, 2 * y + q.b - inv);
    MulMono2(next, y, next, y);
  }

  lemma RootUnique(slope: int, c: nat, y: nat, z: nat)
    requires 0 < c && F(slope, c, y) >= 0 && F(slope, c, z) >= 0
    ensures Root(slope, c, y) == Root(slope, c, z)
  {
    RootAtMost(slope, c, y, Root(slope, c, z));
    RootAtMost(slope, c, z, Root(slope, c, y));
  }

  lemma RootAtMost(slope: int, c: nat, y: nat, z: nat)
    requires 0 < c && F(slope, c, y) >= 0 && F(slope, c, z) >= 0
    ensures Root(slope, c, y) <= z
  {
    hide F;
    var last: nat := Root(slope, c, y) - 1;
    if z <= last { FMono(slope, c, z, last); }
  }

  /** The balance y rounds in the pool's favour and is tight. */
  predicate TightBalance(q: Quadratic, inv: int, y: int) {
    && y * y + q.b * y >= inv * y + q.c
    && (y - 1) * (y - 1) + q.b * (y - 1) < inv * (y - 1) + q.c + 4
  }

  /** A positive balance, at most the start and, below it, strictly in the pool's favour. */
  predicate SolvesBalance(q: Quadratic, inv: int, y: int) {
    0 < y <= q.start && TightBalance(q, inv, y) && (y < q.start ==> y * y + q.b * y > inv * y + q.c)
  }

  /** A step that stays within good, never increases its argument nor passes the root, and
      halves the distance to it: from a distance of at most 2^k, k + 1 iterations settle. */
  lemma {:induction false} HalvingConverges(
    step: int -> Result<int>, good: int -> bool, distance: int -> nat, y: int, k: nat, fuel: nat)
    returns (last: int)
    requires forall z {:trigger step(z)} :: good(z) ==>
      && step(z).Ok? && good(step(z).value)
      && 0 <= z - step(z).value <= distance(z)
      && distance(step(z).value) <= (distance(z) + 1) / 2
    requires good(y) && distance(y) <= Pow2(k) && k < fuel
    ensures good(last) && last <= y && Iterate(step, y, fuel) == step(last)
    ensures step(last).Ok? && last - 1 <= step(last).value <= last
    decreases fuel
  {
    var next := step(y).value;
    last := y;
    if !Converged(next, y) {
      last := HalvingConverges(step, good, distance, next, k - 1, fuel - 1);
    }
  }

  /** From a distance of at most 2^k to the root, more than k iterations settle. */
  lemma BalanceSettles(q: Quadratic, inv: int, y: int, k: nat, fuel: nat)
    requires Descending(q, inv, y) && Fits(q, y) && k < fuel
    ensures var r := Iterate(BalanceNewton(q, inv), y, fuel);
            Distance(q, inv, y) <= Pow2(k) ==>
              r.Ok? && 0 < r.value <= y && TightBalance(q, inv, r.value)
              && (r.value < y ==> F(q.b - inv, q.c, r.value) > 0)
  {
    hide F, BalanceStep, Root, Distance, Iterate, Fits, TightBalance;
    if Distance(q, inv, y) <= Pow2(k) {
      var good := (z: int) => Descending(q, inv, z) && Fits(q, z) && (z == y || F(q.b - inv, q.c, z) > 0);
      var distance := (z: int) => if Descending(q, inv, z) then Distance(q, inv, z) else 0;
      var step := BalanceNewton(q, inv);
      forall z {:trigger step(z)} | good(z)
        ensures
          && step(z).Ok? && good(step(z).value)
          && 0 <= z - step(z).value <= distance(z)
          && distance(step(z).value) <= (distance(z) + 1) / 2
      {
        BalanceStepDescends(q, inv, z);
      }
      var last := HalvingConverges(step, good, distance, y, k, fuel);
      SettledIsTight(q, inv, last);
    }
  }

  lemma SettledIsTight(q: Quadratic, inv: int, last: int)
    requires Descending(q, inv, last) && Fits(q, last)
    ensures var r := BalanceStep(q, inv, last);
            && r.Ok? && (r.value != last ==> F(q.b - inv, q.c, r.value) > 0)
            && (last - 1 <= r.value <= last ==> 0 < r.value && TightBalance(q, inv, r.value))
  {
    hide F, BalanceStep, Root, Distance;
    BalanceStepDescends(q, inv, last);
    var next := BalanceStep(q, inv, last).value;
    if last - 1 <= next <= last {
      StopsTight(q.b - inv, q.c, last, next);
      TightIs(q, inv, next);
    }
  }

  lemma TightIs(q: Quadratic, inv: int, y: int)
    ensures F(q.b - inv, q.c, y) >= 0 && F(q.b - inv, q.c, y - 1) < 4 <==> TightBalance(q, inv, y)
    ensures F(q.b - inv, q.c, y) > 0 <==> y * y + q.b * y > inv * y + q.c
  {
    assert (q.b - inv) * y == q.b * y - inv * y;
    assert (q.b - inv) * (y - 1) == q.b * (y - 1) - inv * (y - 1);
  }

  // ---------- From the coefficients to the result ----------

  /** A positive product needs every balance positive. */
  lemma {:induction false} ProductPositive(balances: seq<int>, inv: int, i: nat, pD: int, sum: int)
    requires i <= |balances| && 0 <= pD
    ensures var r := ProductAndSum(balances, inv, i, pD, sum);
            r.Ok? && r.value.0 > 0 ==> pD > 0 && forall k :: i <= k < |balances| ==> balances[k] > 0
    decreases |balances| - i
  {
    if i < |balances| {
      var scaled := Mul(pD, balances[i]);
      if scaled.Ok? && Mul(scaled.value, |balances|).Ok? && DivDown(scaled.value * |balances|, inv).Ok? && Add(sum, balances[i]).Ok? {
        var next := scaled.value * |balances| / inv;
        PositiveFactors(pD, balances[i], |balances|, inv);
        ProductPositive(balances, inv, i + 1, next, sum + balances[i]);
      }
    }
  }

  lemma PositiveFactors(pD: nat, balance: nat, n: nat, inv: nat)
    requires 0 < inv
    ensures 0 <= pD * balance && 0 <= pD * balance * n / inv
    ensures pD * balance * n / inv > 0 ==> pD > 0 && balance > 0
  {
    MulMono(0, pD, balance);
    MulMono(0, pD * balance, n);
    DivBounds(pD * balance * n, inv);
  }

  /** The constant term and the first iterate, from the inside of the coefficients. */
  lemma StartDescends(amp: int, n: nat, pD: int, balance: int, inv: int, q: Quadratic)
    requires 0 < amp * n && 0 < pD && 0 < balance && 0 < inv && 0 < amp * n * pD && IsU256(inv) && IsU256(q.b)
    requires inv * inv >= 0 && q.c == CeilDiv(inv * inv, amp * n * pD) * AMP_PRECISION * balance
    requires q.c >= 0 && q.start == CeilDiv(inv * inv + q.c, inv + q.b)
    ensures Descending(q, inv, q.start)
  {
    hide F;
    var c0 := CeilDiv(inv * inv, amp * n * pD);
    MulMono(1, inv, inv);
    CeilGalois(inv * inv, amp * n * pD, 0);
    MulMono(1, c0 * AMP_PRECISION, balance);
    CeilBounds(inv * inv + q.c, inv + q.b);
    StepLands(q.b - inv, q.c, inv, q.start);
  }

  /** The first iterate is itself a Newton step, so F >= 0 from the start. With two tokens
      or more the product loop has divided by the invariant, which is therefore positive. */
  lemma CoefficientsDescend(amp: int, balances: seq<int>, inv: int, index: int)
    requires |balances| >= 2
    ensures var q := Coefficients(amp, balances, inv, index);
            q.Ok? ==> Descending(q.value, inv, q.value.start)
  {
    var r := Coefficients(amp, balances, inv, index);
    if r.Ok? {
      var product := ProductAndSum(balances, inv, 1, balances[0] * |balances|, balances[0]);
      ProductPositive(balances, inv, 1, balances[0] * |balances|, balances[0]);
      StartDescends(amp, |balances|, product.value.0, balances[index], inv, r.value);
    }
  }

  lemma RootOf256Bits(y: nat)
    requires y * y <= MAX_U256
    ensures y <= Q128
  {
    if y > Q128 { MulMono2(Q128, y, Q128, y); }
  }

  /** With at least two tokens the loop never reaches its cap of 255 iterations: once the
      coefficients exist it succeeds exactly when its first iteration passes the uint256
      checks, with a balance that rounds in the pool's favour and is tight. */
  lemma BalanceConverges(amp: int, balances: seq<int>, inv: int, index: int)
    requires |balances| >= 2
    ensures BalanceGivenInvariant(amp, balances, inv, index) != Err(NoConvergence)
    ensures var r := BalanceGivenInvariant(amp, balances, inv, index);
            match Coefficients(amp, balances, inv, index)
            case Err(error) => r == Err(error)
            case Ok(q) => if Fits(q, q.start) then r.Ok? && SolvesBalance(q, inv, r.value) else r == Err(Overflow)
  {
    hide ProductAndSum, BalanceStep, F;
    CoefficientsNeverStuck(amp, balances, inv, index);
    CoefficientsDescend(amp, balances, inv, index);
    var coefficients := Coefficients(amp, balances, inv, index);
    if coefficients.Ok? {
      var q := coefficients.value;
      BalanceStepDescends(q, inv, q.start);
      if Fits(q, q.start) {
        RootOf256Bits(q.start);
        var k := Exponent128();
        BalanceSettles(q, inv, q.start, k, MAX_ITERATIONS);
        TightIs(q, inv, Iterate(BalanceNewton(q, inv), q.start, MAX_ITERATIONS).value);
      }
    }
  }

  lemma CoefficientsNeverStuck(amp: int, balances: seq<int>, inv: int, index: int)
    ensures Coefficients(amp, balances, inv, index) != Err(NoConvergence)
  {
    if balances != [] { ProductNeverStuck(balances, inv, 1, balances[0] * |balances|, balances[0]); }
  }

  lemma {:induction false} ProductNeverStuck(balances: seq<int>, inv: int, i: nat, pD: int, sum: int)
    requires i <= |balances|
    ensures ProductAndSum(balances, inv, i, pD, sum) != Err(NoConvergence)
    decreases |balances| - i
  {
    if i < |balances| {
      var scaled := Mul(pD, balances[i]);
      if scaled.Ok? {
        var timesN := Mul(scaled.value, |balances|);
        if timesN.Ok? && DivDown(timesN.value, inv).Ok? && Add(sum, balances[i]).Ok? {
          ProductNeverStuck(balances, inv, i + 1, timesN.value / inv, sum + balances[i]);
        }
      }
    }
  }

  // ---------- The invariant is never zero ----------

  predicate AllPositive(balances: seq<int>) {
    forall k :: 0 <= k < |balances| ==> balances[k] > 0
  }

  lemma SmallQuotient(product: nat, denominator: nat)
    requires product < denominator
    ensures product / denominator == 0
  {
    DivBounds(product, denominator);
    FloorGalois(product, denominator, 1);
  }

  /** With an invariant of 1 (or a running product of 0) the first division leaves 0. */
  lemma {:induction false} ProductVanishes(balances: seq<int>, inv: int, i: nat, dP: int)
    requires AllPositive(balances) && |balances| >= 2 && i <= |balances|
    requires (inv == 1 && i == 0 && dP == 1) || dP == 0
    ensures ProductLoop(balances, inv, i, dP).Ok? ==> ProductLoop(balances, inv, i, dP).value == 0
    decreases |balances| - i
  {
    if i < |balances| && ProductLoop(balances, inv, i, dP).Ok? {
      MulMono(1, balances[i], |balances|);
      SmallQuotient(dP * inv, balances[i] * |balances|);
      ProductVanishes(balances, inv, i + 1, 0);
    }
  }

  lemma UpdateFromOne(ampTotal: int, n: nat, sum: int)
    requires sum >= 1
    ensures InvariantUpdate(ampTotal, n, sum, 1, 0).Ok? ==> InvariantUpdate(ampTotal, n, sum, 1, 0).value >= 1
  {
    if InvariantUpdate(ampTotal, n, sum, 1, 0).Ok? {
      MulMono(1, sum, ampTotal);
      FloorMono(ampTotal - AMP_PRECISION, ampTotal * sum, AMP_PRECISION);
      FloorGalois(ampTotal * sum / AMP_PRECISION, (ampTotal - AMP_PRECISION) / AMP_PRECISION, 1);
    }
  }

  /** No step from a non-negative invariant settles on zero. */
  lemma InvariantStepPositive(ampTotal: int, balances: seq<int>, sum: int, inv: int)
    requires AllPositive(balances) && |balances| >= 2 && sum >= 1 && inv >= 0
    ensures var next := InvariantStep(ampTotal, balances, sum, inv);
            next.Ok? ==> next.value >= 0 && (next.value == 0 ==> inv > 1)
  {
    hide ProductLoop;
    if inv == 0 {
      ProductVanishes(balances, 0, 0, 0);
    } else if inv == 1 {
      ProductVanishes(balances, 1, 0, 1);
      UpdateFromOne(ampTotal, |balances|, sum);
    }
  }

  lemma {:induction false} NeverSettlesOnZero(step: int -> Result<int>, y: int, fuel: nat)
    requires forall z {:trigger step(z)} :: z >= 0 && step(z).Ok? ==> step(z).value >= 0 && (step(z).value == 0 ==> z > 1)
    requires y >= 0
    ensures Iterate(step, y, fuel) != Ok(0)
    decreases fuel
  {
    if fuel > 0 && step(y).Ok? { NeverSettlesOnZero(step, step(y).value, fuel - 1); }
  }

  lemma {:induction false} SumAtLeast(balances: seq<int>, i: nat, sum: int)
    requires AllPositive(balances) && i <= |balances|
    ensures SumLoop(balances, i, sum).Ok? ==> SumLoop(balances, i, sum).value >= sum + (|balances| - i)
    decreases |balances| - i
  {
    if i < |balances| { SumAtLeast(balances, i + 1, sum + balances[i]); }
  }

  lemma {:induction false} ScaledPositive(basket: Basket, n: nat)
    requires n <= |basket.balances| && n <= |basket.scalingFactors|
    ensures ScaleAll(basket, n).Ok? ==> AllPositive(ScaleAll(basket, n).value)
  {
    if n > 0 { ScaledPositive(basket, n - 1); }
  }

  /** On the balances a quote computes, the invariant solver never returns zero: the quote's
      test for a non-positive invariant can only meet an error, never a missing result. */
  lemma QuoteInvariantPositive(basket: Basket, tokens: nat, amp: int)
    requires 2 <= tokens == |basket.balances| == |basket.scalingFactors|
    ensures var balances := ScaleAll(basket, tokens);
            balances.Ok? ==> StableInvariant(amp, balances.value) != Ok(0)
  {
    ScaledPositive(basket, tokens);
    var balances := ScaleAll(basket, tokens);
    if balances.Ok? && StableInvariant(amp, balances.value).Ok? {
      SumAtLeast(balances.value, 0, 0);
      var sum := SumLoop(balances.value, 0, 0).value;
      var step := InvariantNewton(amp * tokens, balances.value, sum);
      forall z {:trigger step(z)} | z >= 0 && step(z).Ok?
        ensures step(z).value >= 0 && (step(z).value == 0 ==> z > 1)
      {
        InvariantStepPositive(amp * tokens, balances.value, sum, z);
      }
      NeverSettlesOnZero(step, sum, MAX_ITERATIONS);
    }
  }
}
