/** Balancer StableMath in checked uint256 arithmetic: the two bounded Newton loops and
    the quote built on them. */
module StableMath {
  import opened U256

  const AMP_PRECISION: int := 1000
  const FP_ONE: int := 1_000_000_000_000_000_000
  const MAX_ITERATIONS: nat := 255

  predicate Converged(current: int, previous: int) {
    -1 <= current - previous <= 1
  }

  /** Newton iteration: repeat step until two iterates are at most one apart. */
  function Iterate(step: int -> Result<int>, y: int, fuel: nat): Result<int>
    decreases fuel, y
  {
    if fuel == 0 then Err(NoConvergence)
    else
      var next :- step(y);
      if Converged(next, y) then Ok(next) else Iterate(step, next, fuel - 1)
  }

  // ---------- Solving for one balance ----------

  /** The running product and sum over the balances from position i on. */
  function ProductAndSum(balances: seq<int>, inv: int, i: nat, pD: int, sum: int): Result<(int, int)>
    requires i <= |balances|
    decreases |balances| - i
  {
    if i == |balances| then Ok((pD, sum))
    else
      var scaled :- Mul(pD, balances[i]);
      var timesN :- Mul(scaled, |balances|);
      var pD' :- DivDown(timesN, inv);
      var sum' :- Add(sum, balances[i]);
      ProductAndSum(balances, inv, i + 1, pD', sum')
  }

  /** The quadratic y^2 + (b - D) y - c whose root is the balance, and its first iterate. */
  datatype Quadratic = Quadratic(b: int, c: int, start: int)

  /** The coefficients from the product and the sum of the balances. */
  function Terms(ampTotal: int, inv: int, pD: int, sum: int, balance: int): Result<Quadratic> {
    var inv2 :- Mul(inv, inv);
    var denominator :- Mul(ampTotal, pD).OrElse(NoLiquidity);
    if denominator <= 0 then Err(NoLiquidity)
    else
      var c0 :- DivUp(inv2, denominator);
      var c1 :- Mul(c0, AMP_PRECISION);
      var c :- Mul(c1, balance);
      var b0 :- DivDown(inv, ampTotal);
      var b1 :- Mul(b0, AMP_PRECISION);
      var b :- Add(sum, b1);
      var top :- Add(inv2, c);
      var bottom :- Add(inv, b);
      var start :- DivUp(top, bottom);
      Ok(Quadratic(b, c, start))
  }

  function Coefficients(amp: int, balances: seq<int>, inv: int, index: int): Result<Quadratic> {
    if balances == [] || index < 0 || index >= |balances| || !IsU256(amp) || !IsU256(inv) then Err(NoLiquidity)
    else
      var ampTotal :- Mul(amp, |balances|);
      var pD0 :- Mul(balances[0], |balances|);
      var (pD, total) :- ProductAndSum(balances, inv, 1, pD0, balances[0]);
      var sum :- Sub(total, balances[index]);
      Terms(ampTotal, inv, pD, sum, balances[index])
  }

  /** One Newton step, rounded up. */
  function BalanceStep(q: Quadratic, inv: int, y: int): Result<int> {
    var square :- Mul(y, y);
    var numerator :- Add(square, q.c);
    var twice :- Mul(y, 2);
    var withB :- Add(twice, q.b);
    var denominator :- Sub(withB, inv).OrElse(NoLiquidity);
    if denominator <= 0 then Err(NoLiquidity) else DivUp(numerator, denominator)
  }

  function BalanceNewton(q: Quadratic, inv: int): int -> Result<int> {
    y => BalanceStep(q, inv, y)
  }

  function BalanceGivenInvariant(amp: int, balances: seq<int>, inv: int, index: int): Result<int> {
    var q :- Coefficients(amp, balances, inv, index);
    Iterate(BalanceNewton(q, inv), q.start, MAX_ITERATIONS)
  }

  /** The product and sum loop over the balances. */
  method ComputeProductAndSum(balances: seq<int>, inv: int, pD0: int) returns (r: Result<(int, int)>)
    requires balances != []
    ensures r == ProductAndSum(balances, inv, 1, pD0, balances[0])
  {
    var pD, sum := pD0, balances[0];
    var i := 1;
    while i < |balances|
      invariant 1 <= i <= |balances|
      invariant ProductAndSum(balances, inv, i, pD, sum) == ProductAndSum(balances, inv, 1, pD0, balances[0])
    {
      pD :- Mul(pD, balances[i]);
      pD :- Mul(pD, |balances|);
      pD :- DivDown(pD, inv);
      sum :- Add(sum, balances[i]);
      i := i + 1;
    }
    return Ok((pD, sum));
  }

  method ComputeBalanceGivenInvariant(amp: int, balances: seq<int>, inv: int, index: int) returns (r: Result<int>)
    ensures r == BalanceGivenInvariant(amp, balances, inv, index)
  {
    hide ProductAndSum, Terms, BalanceStep;
    if balances == [] || index < 0 || index >= |balances| || !IsU256(amp) || !IsU256(inv) {
      return Err(NoLiquidity);
    }
    var ampTotal :- Mul(amp, |balances|);
    var pD0 :- Mul(balances[0], |balances|);
    var product :- ComputeProductAndSum(balances, inv, pD0);
    var sum :- Sub(product.1, balances[index]);
    var q :- Terms(ampTotal, inv, product.0, sum, balances[index]);
    var tokenBalance := q.start;
    var i := 0;
    while i < MAX_ITERATIONS
      invariant i <= MAX_ITERATIONS
      invariant Iterate(BalanceNewton(q, inv), tokenBalance, MAX_ITERATIONS - i) == BalanceGivenInvariant(amp, balances, inv, index)
    {
      var previous := tokenBalance;
      tokenBalance :- BalanceStep(q, inv, tokenBalance);
      if Converged(tokenBalance, previous) {
        return Ok(tokenBalance);
      }
      i := i + 1;
    }
    return Err(NoConvergence);
  }

  // ---------- Solving for the invariant ----------

  function SumLoop(balances: seq<int>, i: nat, sum: int): Result<int>
    requires i <= |balances|
    decreases |balances| - i
  {
    if i == |balances| then Ok(sum)
    else if !IsU256(balances[i]) then Err(NoLiquidity)
    else
      var sum' :- Add(sum, balances[i]);
      SumLoop(balances, i + 1, sum')
  }

  /** D^(n+1) / (n^n * product), floored balance by balance. */
  function ProductLoop(balances: seq<int>, inv: int, i: nat, dP: int): Result<int>
    requires i <= |balances|
    decreases |balances| - i
  {
    if i == |balances| then Ok(dP)
    else
      var product :- Mul(dP, inv);
      var denominator :- Mul(balances[i], |balances|).OrElse(NoLiquidity);
      if denominator == 0 then Err(NoLiquidity)
      else
        var dP' :- DivDown(product, denominator);
        ProductLoop(balances, inv, i + 1, dP')
  }

  function InvariantStep(ampTotal: int, balances: seq<int>, sum: int, inv: int): Result<int> {
    var dP :- ProductLoop(balances, inv, 0, inv);
    InvariantUpdate(ampTotal, |balances|, sum, inv, dP)
  }

  function InvariantUpdate(ampTotal: int, n: nat, sum: int, inv: int, dP: int): Result<int> {
    var weighted :- Mul(ampTotal, sum);
    var term :- DivDown(weighted, AMP_PRECISION);
    var dPTimesN :- Mul(dP, n);
    var sum1 :- Add(term, dPTimesN);
    var numerator :- Mul(sum1, inv);
    var ampMinusPrecision :- Sub(ampTotal, AMP_PRECISION);
    var scaled :- Mul(ampMinusPrecision, inv);
    var denominator0 :- DivDown(scaled, AMP_PRECISION);
    var nPlusOne :- Add(n, 1);
    var lastTerm :- Mul(nPlusOne, dP);
    var denominator :- Add(denominator0, lastTerm).OrElse(NoLiquidity);
    if denominator <= 0 then Err(NoLiquidity) else DivDown(numerator, denominator)
  }

  function InvariantNewton(ampTotal: int, balances: seq<int>, sum: int): int -> Result<int> {
    inv => InvariantStep(ampTotal, balances, sum, inv)
  }

  function StableInvariant(amp: int, balances: seq<int>): Result<int> {
    if balances == [] || !IsU256(amp) then Err(NoLiquidity)
    else
      var sum :- SumLoop(balances, 0, 0);
      if sum == 0 then Ok(0)
      else
        var ampTotal :- Mul(amp, |balances|);
        Iterate(InvariantNewton(ampTotal, balances, sum), sum, MAX_ITERATIONS)
  }

  method ComputeSum(balances: seq<int>) returns (r: Result<int>)
    ensures r == SumLoop(balances, 0, 0)
  {
    var sum := 0;
    var i := 0;
    while i < |balances|
      invariant 0 <= i <= |balances|
      invariant SumLoop(balances, i, sum) == SumLoop(balances, 0, 0)
    {
      if !IsU256(balances[i]) {
        return Err(NoLiquidity);
      }
      sum :- Add(sum, balances[i]);
      i := i + 1;
    }
    return Ok(sum);
  }

  method ComputeProduct(balances: seq<int>, inv: int) returns (r: Result<int>)
    ensures r == ProductLoop(balances, inv, 0, inv)
  {
    var dP := inv;
    var i := 0;
    while i < |balances|
      invariant 0 <= i <= |balances|
      invariant ProductLoop(balances, inv, i, dP) == ProductLoop(balances, inv, 0, inv)
    {
      var product :- Mul(dP, inv);
      var denominator := Mul(balances[i], |balances|);
      if denominator.Err? || denominator.value == 0 {
        return Err(NoLiquidity);
      }
      dP :- DivDown(product, denominator.value);
      i := i + 1;
    }
    return Ok(dP);
  }

  method ComputeStableInvariant(amp: int, balances: seq<int>) returns (r: Result<int>)
    ensures r == StableInvariant(amp, balances)
  {
    if balances == [] || !IsU256(amp) {
      return Err(NoLiquidity);
    }
    var sum :- ComputeSum(balances);
    if sum == 0 {
      return Ok(0);
    }
    var inv := sum;
    var ampTotal :- Mul(amp, |balances|);
    var i := 0;
    while i < MAX_ITERATIONS
      invariant i <= MAX_ITERATIONS
      invariant Iterate(InvariantNewton(ampTotal, balances, sum), inv, MAX_ITERATIONS - i) == StableInvariant(amp, balances)
    {
      var previous := inv;
      var dP :- ComputeProduct(balances, inv);
      inv :- InvariantUpdate(ampTotal, |balances|, sum, inv, dP);
      if Converged(inv, previous) {
        return Ok(inv);
      }
      i := i + 1;
    }
    return Err(NoConvergence);
  }

  // ---------- Fixed point, 18 decimals ----------

  function FpMulDown(a: int, b: int): Result<int> {
    var product :- Mul(a, b);
    DivDown(product, FP_ONE)
  }

  function FpMulUp(a: int, b: int): Result<int> {
    var product :- Mul(a, b);
    if product == 0 then Ok(0)
    else
      var less :- Sub(product, 1);
      var result :- DivDown(less, FP_ONE);
      Add(result, 1)
  }

  function FpDivDown(a: int, scalingFactor: int): Result<int> {
    if scalingFactor <= 0 then Err(DivisionByZero)
    else
      var inflated :- Mul(a, FP_ONE);
      DivDown(inflated, scalingFactor)
  }

  function FeeBfp(feeNum: int, feeDen: int): Result<int> {
    if !IsU256(feeNum) || !IsU256(feeDen) || feeDen == 0 then Err(InvalidFee)
    else
      var scaled :- Mul(feeNum, FP_ONE);
      DivDown(scaled, feeDen)
  }

  // ---------- The quote ----------

  /** The priced part of a stable pool; the two sequences share their indices. */
  datatype Basket = Basket(balances: seq<int>, scalingFactors: seq<int>, amplificationRaw: int)

  function ScaleBalance(balance: int, factor: int): Result<int> {
    if !PositiveU256(balance) || !PositiveU256(factor) then Err(NoLiquidity)
    else
      var scaled := FpMulDown(balance, factor);
      if scaled.Err? || scaled.value <= 0 then Err(NoLiquidity) else scaled
  }

  /** The upscaled balances, when every one of the first n is positive. */
  function ScaleAll(basket: Basket, n: nat): (r: Result<seq<int>>)
    requires n <= |basket.balances| && n <= |basket.scalingFactors|
    ensures r.Ok? ==> |r.value| == n
  {
    if n == 0 then Ok([])
    else
      var front :- ScaleAll(basket, n - 1);
      var last :- ScaleBalance(basket.balances[n - 1], basket.scalingFactors[n - 1]);
      Ok(front + [last])
  }

  function Quote(basket: Basket, tokens: nat, feeNum: int, feeDen: int, inIdx: int, outIdx: int, amountIn: int): Result<int> {
    if tokens < 2 || |basket.balances| != tokens || |basket.scalingFactors| != tokens then Err(NoLiquidity)
    else if inIdx == outIdx || inIdx < 0 || outIdx < 0 || inIdx >= tokens || outIdx >= tokens then Err(InvalidInput)
    else if !PositiveU256(amountIn) || !PositiveU256(basket.amplificationRaw) then Err(NoLiquidity)
    else
      var feeBfp := FeeBfp(feeNum, feeDen);
      if feeBfp.Err? || feeBfp.value >= FP_ONE then Err(InvalidFee)
      else
        var fee :- FpMulUp(amountIn, feeBfp.value);
        var after := Sub(amountIn, fee);
        if after.Err? || after.value <= 0 then Err(NoLiquidity)
        else
          var balances :- ScaleAll(basket, tokens);
          var upIn := FpMulDown(after.value, basket.scalingFactors[inIdx]);
          if upIn.Err? || upIn.value <= 0 then Err(NoLiquidity)
          else
            var inv :- StableInvariant(basket.amplificationRaw, balances);
            if inv <= 0 then Err(NoLiquidity)
            else
              var raised :- Add(balances[inIdx], upIn.value);
              var finalOut :- BalanceGivenInvariant(basket.amplificationRaw, balances[inIdx := raised], inv, outIdx);
              PayOut(basket, balances[outIdx], finalOut, outIdx)
  }

  /** What leaves the pool: one unit less than the balance moved, scaled back down. */
  function PayOut(basket: Basket, balance: int, finalOut: int, outIdx: nat): Result<int>
    requires outIdx < |basket.balances| && outIdx < |basket.scalingFactors|
  {
    var moved :- Sub(balance, finalOut);
    var upOut := Sub(moved, 1);
    if upOut.Err? || upOut.value <= 0 then Err(NoLiquidity)
    else
      var out := FpDivDown(upOut.value, basket.scalingFactors[outIdx]);
      if out.Err? || out.value <= 0 || out.value >= basket.balances[outIdx] then Err(NoLiquidity) else out
  }

  /** The quote over a balances buffer that is filled, raised in place and restored. */
  method ComputeQuote(basket: Basket, tokens: nat, feeNum: int, feeDen: int, inIdx: int, outIdx: int, amountIn: int)
    returns (r: Result<int>)
    ensures r == Quote(basket, tokens, feeNum, feeDen, inIdx, outIdx, amountIn)
  {
    hide StableInvariant, BalanceGivenInvariant, PayOut, FeeBfp, FpMulUp, FpMulDown;
    if tokens < 2 || |basket.balances| != tokens || |basket.scalingFactors| != tokens {
      return Err(NoLiquidity);
    }
    if inIdx == outIdx || inIdx < 0 || outIdx < 0 || inIdx >= tokens || outIdx >= tokens {
      return Err(InvalidInput);
    }
    if !PositiveU256(amountIn) || !PositiveU256(basket.amplificationRaw) {
      return Err(NoLiquidity);
    }
    var feeBfp := FeeBfp(feeNum, feeDen);
    if feeBfp.Err? || feeBfp.value >= FP_ONE {
      return Err(InvalidFee);
    }
    var fee :- FpMulUp(amountIn, feeBfp.value);
    var after := Sub(amountIn, fee);
    if after.Err? || after.value <= 0 {
      return Err(NoLiquidity);
    }
    var balances := new int[tokens];
    var filled := FillBalances(basket, balances);
    if filled.Err? {
      return Err(NoLiquidity);
    }
    ghost var scaled := balances[..];
    assert ScaleAll(basket, tokens) == Ok(scaled);
    var upIn := FpMulDown(after.value, basket.scalingFactors[inIdx]);
    if upIn.Err? || upIn.value <= 0 {
      return Err(NoLiquidity);
    }
    var inv :- ComputeStableInvariant(basket.amplificationRaw, balances[..]);
    if inv <= 0 {
      return Err(NoLiquidity);
    }
    var raised :- Add(balances[inIdx], upIn.value);
    balances[inIdx] := raised;
    assert balances[..] == scaled[inIdx := raised];
    var finalOut :- ComputeBalanceGivenInvariant(basket.amplificationRaw, balances[..], inv, outIdx);
    var restored := Sub(balances[inIdx], upIn.value);
    assert restored == Ok(scaled[inIdx]);  // cannot underflow: upIn was just added
    balances[inIdx] := restored.value;
    assert balances[..] == scaled;
    r := PayOut(basket, balances[outIdx], finalOut, outIdx);
  }

  method FillBalances(basket: Basket, balances: array<int>) returns (r: Result<()>)
    requires |basket.balances| == |basket.scalingFactors| == balances.Length
    modifies balances
    ensures match ScaleAll(basket, balances.Length)
            case Ok(scaled) => r.Ok? && balances[..] == scaled
            case Err(error) => r.Err? && error == NoLiquidity
  {
    var i := 0;
    while i < balances.Length
      invariant 0 <= i <= balances.Length
      invariant ScaleAll(basket, i) == Ok(balances[..i])
    {
      var scaled := ScaleBalance(basket.balances[i], basket.scalingFactors[i]);
      if scaled.Err? {
        ScaleAllFails(basket, i + 1, balances.Length);
        return Err(NoLiquidity);
      }
      balances[i] := scaled.value;
      assert balances[..i + 1] == balances[..i] + [scaled.value];
      i := i + 1;
    }
    assert balances[..i] == balances[..];
    return Ok(());
  }

  lemma {:induction false} ScaleAllFails(basket: Basket, i: nat, n: nat)
    requires i <= n <= |basket.balances| && n <= |basket.scalingFactors|
    requires ScaleAll(basket, i) == Err(NoLiquidity)
    ensures ScaleAll(basket, n) == Err(NoLiquidity)
    decreases n - i
  {
    if i < n {
      assert ScaleAll(basket, i + 1) == Err(NoLiquidity);
      ScaleAllFails(basket, i + 1, n);
    }
  }
}
