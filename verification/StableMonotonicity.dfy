/** How the stable quote depends on its input: exactly when more input never buys less. */
module StableMonotonicity {
  import opened Arith
  import opened U256
  import opened StableMath
  import opened StableTheorems

  // ---------- Raising one balance ----------

  /** The running product grows with the raised balance, and the sum by exactly the raise. */
  lemma {:induction false} ProductRaised(
    balances: seq<int>, inv: int, k: nat, raised: int, i: nat, pD: int, pD': int, sum: int, sum': int)
    requires k < |balances| && balances[k] <= raised && i <= |balances| && 0 <= pD <= pD'
    requires sum' == sum + (if k < i then raised - balances[k] else 0)
    ensures var r, r' := ProductAndSum(balances, inv, i, pD, sum), ProductAndSum(balances[k := raised], inv, i, pD', sum');
            r.Ok? && r'.Ok? ==> 0 <= r.value.0 <= r'.value.0 && r'.value.1 == r.value.1 + (raised - balances[k])
    decreases |balances| - i
  {
    var balances' := balances[k := raised];
    if i < |balances| && ProductAndSum(balances, inv, i, pD, sum).Ok? && ProductAndSum(balances', inv, i, pD', sum').Ok? {
      var n := |balances|;
      StepGrows(pD, pD', balances[i], balances'[i], n, inv);
      ProductRaised(balances, inv, k, raised, i + 1, pD * balances[i] * n / inv, pD' * balances'[i] * n / inv,
                    sum + balances[i], sum' + balances'[i]);
    }
  }

  lemma StepGrows(pD: nat, pD': nat, balance: nat, balance': nat, n: nat, inv: nat)
    requires pD <= pD' && balance <= balance' && 0 < inv
    ensures 0 <= pD * balance <= pD' * balance'
    ensures 0 <= pD * balance * n <= pD' * balance' * n
    ensures 0 <= pD * balance * n / inv <= pD' * balance' * n / inv
  {
    MulMono(0, pD, balance);
    MulMono2(pD, pD', balance, balance');
    MulMono(0, pD * balance, n);
    MulMono(pD * balance, pD' * balance', n);
    FloorMono(pD * balance * n, pD' * balance' * n, inv);
  }

  /** With a larger product the constant term and the first iterate do not grow. */
  lemma TermsShrink(inv: nat, den: nat, den': nat, balance: nat, b: nat, b': nat)
    requires 0 < den <= den' && 0 < inv + b && b <= b'
    ensures inv * inv >= 0
    ensures CeilDiv(inv * inv, den') <= CeilDiv(inv * inv, den)
    ensures 0 <= CeilDiv(inv * inv, den') * AMP_PRECISION * balance <= CeilDiv(inv * inv, den) * AMP_PRECISION * balance
    ensures var c, c' := CeilDiv(inv * inv, den) * AMP_PRECISION * balance, CeilDiv(inv * inv, den') * AMP_PRECISION * balance;
            CeilDiv(inv * inv + c', inv + b') <= CeilDiv(inv * inv + c, inv + b)
  {
    MulMono(0, inv, inv);
    CeilAntitone(inv * inv, inv * inv, den, den');
    var c0, c0' := CeilDiv(inv * inv, den), CeilDiv(inv * inv, den');
    MulMono(0, c0' * AMP_PRECISION, balance);
    MulMono(c0' * AMP_PRECISION, c0 * AMP_PRECISION, balance);
    CeilAntitone(inv * inv + c0 * AMP_PRECISION * balance, inv * inv + c0' * AMP_PRECISION * balance, inv + b, inv + b');
  }

  /** Coefficients of one balance when another one is raised: b grows by exactly the raise,
      c and the first iterate do not grow, and c is always a multiple of the precision. */
  ghost predicate Raised(q: Quadratic, q': Quadratic, raise: int) {
    && q'.b == q.b + raise && 0 < q'.c <= q.c && q'.start <= q.start && q.c % 2 == 0
  }

  lemma TermsRaised(ampTotal: nat, inv: int, pD: nat, pD': nat, sum: int, sum': int, balance: nat)
    requires pD <= pD' && sum <= sum'
    ensures var q, q' := Terms(ampTotal, inv, pD, sum, balance), Terms(ampTotal, inv, pD', sum', balance);
            q.Ok? && q'.Ok? && 0 < q'.value.c ==> Raised(q.value, q'.value, sum' - sum)
  {
    var q, q' := Terms(ampTotal, inv, pD, sum, balance), Terms(ampTotal, inv, pD', sum', balance);
    if q.Ok? && q'.Ok? {
      MulMono(pD, pD', ampTotal);
      TermsShrink(inv, ampTotal * pD, ampTotal * pD', balance, q.value.b, q'.value.b);
      MultipleIsEven(CeilDiv(inv * inv, ampTotal * pD), balance);
    }
  }

  lemma CoefficientsRaised(amp: int, balances: seq<int>, inv: int, index: int, k: nat, raised: int)
    requires 2 <= |balances| && k < |balances| && k != index && balances[k] <= raised
    ensures var q, q' := Coefficients(amp, balances, inv, index), Coefficients(amp, balances[k := raised], inv, index);
            q.Ok? && q'.Ok? ==> Raised(q.value, q'.value, raised - balances[k])
  {
    hide ProductAndSum, F, Terms;
    var balances' := balances[k := raised];
    var q, q' := Coefficients(amp, balances, inv, index), Coefficients(amp, balances', inv, index);
    if q.Ok? && q'.Ok? {
      var n := |balances|;
      MulMono(0, balances[0], n);
      MulMono(balances[0], balances'[0], n);
      ProductRaised(balances, inv, k, raised, 1, balances[0] * n, balances'[0] * n, balances[0], balances'[0]);
      var r, r' := ProductAndSum(balances, inv, 1, balances[0] * n, balances[0]).value,
        ProductAndSum(balances', inv, 1, balances'[0] * n, balances'[0]).value;
      CoefficientsDescend(amp, balances', inv, index);
      BalanceAtIndex(amp, balances, inv, index);
      TermsRaised(amp * n, inv, r.0, r'.0, r.1 - balances[index], r'.1 - balances'[index], balances[index]);
    }
  }

  lemma BalanceAtIndex(amp: int, balances: seq<int>, inv: int, index: int)
    ensures Coefficients(amp, balances, inv, index).Ok? ==> 0 <= index < |balances| && 0 <= balances[index]
  {
    hide ProductAndSum;
  }

  lemma MultipleIsEven(a: int, b: int)
    ensures (a * AMP_PRECISION * b) % 2 == 0
  {
    assert a * AMP_PRECISION * b == 2 * (a * 500 * b);
  }

  lemma FShifts(s: int, c: int, c': int, delta: int, y: int)
    ensures F(s + delta, c', y) == F(s, c, y) + delta * y + (c - c')
    ensures F(s, c, y + 1) == F(s, c, y) + 2 * y + 1 + s
    ensures F(s, c, 1) == 1 + s - c && F(s, c, 2) == 4 + 2 * s - c
  {
    assert (s + delta) * y == s * y + delta * y;
    assert (y + 1) * (y + 1) == y * y + 2 * y + 1;
    assert s * (y + 1) == s * y + s;
  }

  /** If a raise by delta leaves more of the other token, then it left one unit, now leaves
      two, and the raise is one or two units. */
  lemma RarelyMore(s: int, c: nat, c': nat, delta: int, y: int, y': int)
    requires 0 < delta && 0 < c' <= c && c % 2 == 0 && 0 < y < y'
    requires F(s, c, y) > 0 && F(s + delta, c', y' - 1) < 4
    ensures y == 1 && y' == 2 && delta <= 2
    ensures 1 <= 1 + s - c <= 3 - delta
  {
    hide F;
    FShifts(s, c, c', delta, y);
    FShifts(s + delta, c', c', 0, y);
    MulMono(1, y, delta);
    MulMono(1, delta, y);
    FMono(s + delta, c', y, y' - 1);
    if y' - 1 > y {
      DenominatorPositive(s + delta, c', y);
      FMono(s + delta, c', y + 1, y' - 1);
    }
  }

  /** F at one unit, from the coefficients alone, is positive and at most three units less
      the raise. */
  predicate NearOne(amp: int, balances: seq<int>, inv: int, index: int, raise: int) {
    var q := Coefficients(amp, balances, inv, index);
    q.Ok? && 1 <= 1 + q.value.b - inv - q.value.c <= 3 - raise
  }

  /** Raising another balance never leaves more of a token, except for a second unit where
      one was left, and then by a raise of at most two units, and near one. */
  lemma BalanceRaised(amp: int, balances: seq<int>, inv: int, index: int, k: nat, raised: int)
    requires 2 <= |balances| && k < |balances| && k != index && balances[k] <= raised
    ensures var y, y' := BalanceGivenInvariant(amp, balances, inv, index), BalanceGivenInvariant(amp, balances[k := raised], inv, index);
            y.Ok? && y'.Ok? ==>
              && 0 < y.value && 0 < y'.value
              && (y'.value <= y.value
                  || (y.value == 1 && y'.value == 2 && 1 <= raised - balances[k] <= 2
                      && NearOne(amp, balances, inv, index, raised - balances[k])))
  {
    hide Coefficients, Iterate, F, Fits;
    var balances' := balances[k := raised];
    var y, y' := BalanceGivenInvariant(amp, balances, inv, index), BalanceGivenInvariant(amp, balances', inv, index);
    if y.Ok? && y'.Ok? {
      BalanceConverges(amp, balances, inv, index);
      BalanceConverges(amp, balances', inv, index);
      CoefficientsRaised(amp, balances, inv, index, k, raised);
      var q, q' := Coefficients(amp, balances, inv, index).value, Coefficients(amp, balances', inv, index).value;
      TightIs(q, inv, y.value);
      TightIs(q', inv, y'.value);
      if raised == balances[k] {
        assert balances' == balances;
      } else if y.value < y'.value {
        RarelyMore(q.b - inv, q.c, q'.c, raised - balances[k], y.value, y'.value);
      }
    }
  }

  // ---------- Between two inputs that can be quoted ----------

  /** No Go slice is longer. */
  const MAX_LENGTH: nat := 0x7FFFFFFF_FFFFFFFF

  /** If the product loop succeeds below and above a raised balance, it succeeds there. */
  lemma {:induction false} ProductBetween(
    balances: seq<int>, inv: int, k: nat, mid: int, high: int, i: nat,
    pD: int, pDMid: int, pDHigh: int, sum: int, sumMid: int, sumHigh: int)
    requires k < |balances| && balances[k] <= mid <= high && i <= |balances|
    requires 0 <= pD <= pDMid <= pDHigh && 0 <= sum <= sumMid <= sumHigh
    ensures ProductAndSum(balances, inv, i, pD, sum).Ok? && ProductAndSum(balances[k := high], inv, i, pDHigh, sumHigh).Ok? ==>
              ProductAndSum(balances[k := mid], inv, i, pDMid, sumMid).Ok?
    decreases |balances| - i
  {
    if i < |balances| && ProductAndSum(balances, inv, i, pD, sum).Ok? && ProductAndSum(balances[k := high], inv, i, pDHigh, sumHigh).Ok? {
      var n, low, middle, top := |balances|, balances[i], balances[k := mid][i], balances[k := high][i];
      StepGrows(pD, pDMid, low, middle, n, inv);
      StepGrows(pDMid, pDHigh, middle, top, n, inv);
      ProductBetween(balances, inv, k, mid, high, i + 1, pD * low * n / inv, pDMid * middle * n / inv, pDHigh * top * n / inv,
                     sum + low, sumMid + middle, sumHigh + top);
    }
  }

  lemma TermsBetween(ampTotal: nat, inv: int, pD: nat, pD': nat, pD'': nat, sum: int, sum': int, sum'': int, balance: nat)
    requires pD <= pD' <= pD'' && sum <= sum' <= sum''
    ensures Terms(ampTotal, inv, pD, sum, balance).Ok? && Terms(ampTotal, inv, pD'', sum'', balance).Ok? ==>
              Terms(ampTotal, inv, pD', sum', balance).Ok?
  {
    if Terms(ampTotal, inv, pD, sum, balance).Ok? && Terms(ampTotal, inv, pD'', sum'', balance).Ok? {
      MulMono(pD, pD', ampTotal);
      MulMono(pD', pD'', ampTotal);
      var fixed := inv / ampTotal * AMP_PRECISION;
      TermsShrink(inv, ampTotal * pD, ampTotal * pD', balance, sum + fixed, sum' + fixed);
    }
  }

  lemma CoefficientsBetween(amp: int, balances: seq<int>, inv: int, index: int, k: nat, mid: int, high: int)
    requires k < |balances| && k != index && balances[k] <= mid <= high
    ensures Coefficients(amp, balances, inv, index).Ok? && Coefficients(amp, balances[k := high], inv, index).Ok? ==>
              Coefficients(amp, balances[k := mid], inv, index).Ok?
  {
    hide ProductAndSum, Terms;
    var low, middle, top := balances, balances[k := mid], balances[k := high];
    if Coefficients(amp, low, inv, index).Ok? && Coefficients(amp, top, inv, index).Ok? {
      var n := |balances|;
      MulMono(0, low[0], n);
      MulMono(low[0], middle[0], n);
      MulMono(middle[0], top[0], n);
      ProductBetween(balances, inv, k, mid, high, 1, low[0] * n, middle[0] * n, top[0] * n, low[0], middle[0], top[0]);
      ProductRaised(low, inv, k, mid, 1, low[0] * n, middle[0] * n, low[0], middle[0]);
      ProductRaised(middle, inv, k, high, 1, middle[0] * n, top[0] * n, middle[0], top[0]);
      assert middle[k := high] == top;
      var r, r', r'' := ProductAndSum(low, inv, 1, low[0] * n, low[0]).value,
        ProductAndSum(middle, inv, 1, middle[0] * n, middle[0]).value, ProductAndSum(top, inv, 1, top[0] * n, top[0]).value;
      BalanceAtIndex(amp, balances, inv, index);
      TermsBetween(amp * n, inv, r.0, r'.0, r''.0, r.1 - low[index], r'.1 - middle[index], r''.1 - top[index], balances[index]);
    }
  }

  /** What is left of uint256 when the product loop has multiplied every balance by n. */
  lemma {:induction false} ProductRoom(balances: seq<int>, inv: int, i: nat, pD: int, sum: int, index: nat)
    requires i <= |balances| && index < |balances| && 0 <= pD
    ensures var r, n := ProductAndSum(balances, inv, i, pD, sum), |balances|;
            r.Ok? && r.value.0 > 0 ==>
              if i <= index then n * (r.value.1 - sum - balances[index]) <= (n - i - 1) * MAX_U256
              else n * (r.value.1 - sum) <= (n - i) * MAX_U256
    decreases |balances| - i
  {
    var r := ProductAndSum(balances, inv, i, pD, sum);
    if i < |balances| && r.Ok? && r.value.0 > 0 {
      var n, balance := |balances|, balances[i];
      ProductPositive(balances, inv, i, pD, sum);
      MulMono(0, pD, balance);
      MulMono(0, pD * balance, n);
      DivBounds(pD * balance * n, inv);
      ProductRoom(balances, inv, i + 1, pD * balance * n / inv, sum + balance, index);
      OneFactor(pD, balance, n);
      RoomStep(n, r.value.1, sum, balance, balances[index], i);
    }
  }

  lemma OneFactor(pD: nat, balance: nat, n: nat)
    requires 0 < pD
    ensures n * balance <= pD * balance * n
  {
    MulMono(1, pD, balance);
    MulMono(balance, pD * balance, n);
  }

  lemma RoomStep(n: nat, total: int, sum: int, balance: int, other: int, i: nat)
    ensures n * (total - sum) == n * (total - (sum + balance)) + n * balance
    ensures n * (total - sum - other) == n * (total - (sum + balance) - other) + n * balance
    ensures (n - i) * MAX_U256 == (n - (i + 1)) * MAX_U256 + MAX_U256
    ensures (n - i - 1) * MAX_U256 == (n - (i + 1) - 1) * MAX_U256 + MAX_U256
  {
    assert n * (total - sum) == n * total - n * sum;
    assert n * (total - (sum + balance)) == n * total - n * sum - n * balance;
    assert n * (total - sum - other) == n * total - n * sum - n * other;
    assert n * (total - (sum + balance) - other) == n * total - n * sum - n * balance - n * other;
  }

  /** b leaves room for any iterate whose square fits. */
  lemma CoefficientsRoom(amp: int, balances: seq<int>, inv: int, index: int)
    requires 2 <= |balances| <= MAX_LENGTH
    ensures var q := Coefficients(amp, balances, inv, index); q.Ok? ==> 2 * Q128 + q.value.b <= MAX_U256
  {
    hide ProductAndSum;
    var q := Coefficients(amp, balances, inv, index);
    if q.Ok? {
      var n := |balances|;
      var r := ProductAndSum(balances, inv, 1, balances[0] * n, balances[0]).value;
      ProductRoom(balances, inv, 1, balances[0] * n, balances[0], index);
      RoomStep(n, r.1, 0, balances[0], balances[index], 0);
      SumRoom(n, r.1 - balances[index]);
      RootOf256Bits(inv);
      MulMono(1, amp * n, inv / (amp * n));
      DivBounds(inv, amp * n);
    }
  }

  lemma SumRoom(n: nat, sum: int)
    requires 2 <= n <= MAX_LENGTH && n * sum <= (n - 1) * MAX_U256
    ensures sum <= MAX_U256 - 1002 * Q128
  {
    if sum > MAX_U256 - 1002 * Q128 {
      MulMono(MAX_U256 - 1002 * Q128 + 1, sum, n);
      MulMono(n, MAX_LENGTH, 1002 * Q128);
    }
  }

  /** If a balance can be solved below and above a raised one, it can be solved there. */
  lemma BalanceBetween(amp: int, balances: seq<int>, inv: int, index: int, k: nat, mid: int, high: int)
    requires 2 <= |balances| <= MAX_LENGTH && k < |balances| && k != index && balances[k] <= mid <= high
    ensures BalanceGivenInvariant(amp, balances, inv, index).Ok? && BalanceGivenInvariant(amp, balances[k := high], inv, index).Ok? ==>
              BalanceGivenInvariant(amp, balances[k := mid], inv, index).Ok?
  {
    hide Coefficients, Iterate, F;
    var middle := balances[k := mid];
    if BalanceGivenInvariant(amp, balances, inv, index).Ok? && BalanceGivenInvariant(amp, balances[k := high], inv, index).Ok? {
      BalanceConverges(amp, balances, inv, index);
      BalanceConverges(amp, middle, inv, index);
      CoefficientsBetween(amp, balances, inv, index, k, mid, high);
      CoefficientsRaised(amp, balances, inv, index, k, mid);
      CoefficientsDescend(amp, middle, inv, index);
      CoefficientsRoom(amp, middle, inv, index);
      var q, q' := Coefficients(amp, balances, inv, index).value, Coefficients(amp, middle, inv, index).value;
      MulMono2(q'.start, q.start, q'.start, q.start);
      RootOf256Bits(q'.start);
    }
  }

  // ---------- Quotes ----------

  /** One direction of exchange through a stable pool. */
  datatype Exchange = Exchange(basket: Basket, tokens: nat, feeNum: int, feeDen: int, inIdx: int, outIdx: int)
  {
    function Quote(amountIn: int): Result<int> {
      StableMath.Quote(basket, tokens, feeNum, feeDen, inIdx, outIdx, amountIn)
    }

    /** By how much an input raises the scaled balance of its token. */
    function Raise(amountIn: int): Result<int> {
      if !(0 <= inIdx < |basket.scalingFactors|) then Err(InvalidInput)
      else
        var feeBfp :- FeeBfp(feeNum, feeDen);
        var fee :- FpMulUp(amountIn, feeBfp);
        var after :- Sub(amountIn, fee);
        FpMulDown(after, basket.scalingFactors[inIdx])
    }

    /** What does not depend on the input: the fee, the scaled balances and the invariant. */
    predicate Open() {
      && 2 <= tokens == |basket.balances| == |basket.scalingFactors|
      && inIdx != outIdx && 0 <= inIdx < tokens && 0 <= outIdx < tokens
      && PositiveU256(basket.amplificationRaw)
      && FeeBfp(feeNum, feeDen).Ok? && FeeBfp(feeNum, feeDen).value < FP_ONE
      && ScaleAll(basket, tokens).Ok?
      && StableInvariant(basket.amplificationRaw, Scaled()).Ok? && Invariant() > 0
    }

    function Scaled(): (r: seq<int>)
      requires |basket.balances| == |basket.scalingFactors| == tokens && ScaleAll(basket, tokens).Ok?
      ensures |r| == tokens
    {
      ScaleAll(basket, tokens).value
    }

    function Invariant(): int
      requires |basket.balances| == |basket.scalingFactors| == tokens && ScaleAll(basket, tokens).Ok?
      requires StableInvariant(basket.amplificationRaw, Scaled()).Ok?
    {
      StableInvariant(basket.amplificationRaw, Scaled()).value
    }

    /** The scaled balance of the bought token that the solver leaves in the pool. */
    function Remaining(raise: int): Result<int>
      requires Open()
    {
      BalanceGivenInvariant(basket.amplificationRaw, Scaled()[inIdx := Scaled()[inIdx] + raise], Invariant(), outIdx)
    }

    /** F at one unit left, after a raise: b - D - c + 1, which needs no iteration. */
    function Slack(raise: int): Result<int>
      requires Open()
    {
      var q :- Coefficients(basket.amplificationRaw, Scaled()[inIdx := Scaled()[inIdx] + raise], Invariant(), outIdx);
      Ok(1 + q.b - Invariant() - q.c)
    }

    /** An input leaves at least so many scaled units of the bought token. */
    predicate Leaves(amountIn: int, units: int) {
      && Open() && Raise(amountIn).Ok?
      && Remaining(Raise(amountIn).value).Ok? && Remaining(Raise(amountIn).value).value >= units
    }
  }

  /** A quote, by its parts. */
  lemma QuoteParts(x: Exchange, amountIn: int)
    ensures x.Quote(amountIn).Ok? ==> x.Open()
    ensures x.Open() ==>
              var raise := x.Raise(amountIn);
              && (x.Quote(amountIn).Ok? <==>
                    && PositiveU256(amountIn) && raise.Ok? && raise.value > 0 && IsU256(x.Scaled()[x.inIdx] + raise.value)
                    && x.Remaining(raise.value).Ok?
                    && PayOut(x.basket, x.Scaled()[x.outIdx], x.Remaining(raise.value).value, x.outIdx).Ok?)
              && (x.Quote(amountIn).Ok? ==>
                    x.Quote(amountIn) == PayOut(x.basket, x.Scaled()[x.outIdx], x.Remaining(raise.value).value, x.outIdx))
  {
    hide FeeBfp, FpMulUp, ScaleAll, StableInvariant, BalanceGivenInvariant, PayOut;
    if x.Open() {
      ScaledPositive(x.basket, x.tokens);
      NothingRaised(x.basket.scalingFactors[x.inIdx]);
    }
  }

  lemma NothingRaised(factor: int)
    ensures FpMulDown(0, factor).Ok? ==> FpMulDown(0, factor).value == 0
  {
  }

  /** More input raises the balance at least as much, and more needs no larger checks. */
  lemma RaiseMono(x: Exchange, a: int, b: int)
    requires x.Open() && 0 < a <= b
    ensures x.Raise(a).Ok? && x.Raise(b).Ok? ==> 0 <= x.Raise(a).value <= x.Raise(b).value
    ensures x.Raise(b).Ok? ==> x.Raise(a).Ok?
  {
    hide FeeBfp, ScaleAll, StableInvariant;
    if x.Raise(b).Ok? {
      var fee := FeeBfp(x.feeNum, x.feeDen).value;
      var factor := x.basket.scalingFactors[x.inIdx];
      MulMono(a, b, fee);
      FeeCeil(a, fee);
      FeeCeil(b, fee);
      FeeMono(a, b, fee);
      var after, after' := a - CeilDiv(a * fee, FP_ONE), b - CeilDiv(b * fee, FP_ONE);
      MulMono(after, after', factor);
      MulMono(0, after, factor);
      FloorMono(after * factor, after' * factor, FP_ONE);
    }
  }

  lemma FeeCeil(a: nat, fee: nat)
    requires fee < FP_ONE
    ensures a * fee >= 0 && CeilDiv(a * fee, FP_ONE) <= a
    ensures a * fee <= MAX_U256 && a <= MAX_U256 ==> FpMulUp(a, fee) == Ok(CeilDiv(a * fee, FP_ONE))
  {
    MulMono(0, a, fee);
    MulMono(fee, FP_ONE, a);
    CeilGalois(a * fee, FP_ONE, a);
    if a * fee > 0 { LessOne(a * fee); }
  }

  lemma LessOne(product: nat)
    requires product > 0
    ensures (product - 1) / FP_ONE + 1 == CeilDiv(product, FP_ONE)
  {
  }

  /** The fee never grows faster than the input. */
  lemma FeeMono(a: nat, b: nat, fee: nat)
    requires a <= b && fee < FP_ONE
    ensures a * fee >= 0 && b * fee >= 0
    ensures a - CeilDiv(a * fee, FP_ONE) <= b - CeilDiv(b * fee, FP_ONE)
  {
    MulMono(0, a, fee);
    MulMono(a, b, fee);
    CeilBounds(a * fee, FP_ONE);
    MulMono(fee, FP_ONE, b - a);
    assert b * fee == a * fee + (b - a) * fee;
    CeilGalois(b * fee, FP_ONE, CeilDiv(a * fee, FP_ONE) + (b - a));
  }

  /** Leaving less pays out more. */
  lemma PayOutMono(basket: Basket, balance: int, left: int, left': int, outIdx: nat)
    requires outIdx < |basket.balances| && outIdx < |basket.scalingFactors| && 0 <= left' <= left
    ensures var out, out' := PayOut(basket, balance, left, outIdx), PayOut(basket, balance, left', outIdx);
            out.Ok? && out'.Ok? ==> out.value <= out'.value
  {
    var out, out' := PayOut(basket, balance, left, outIdx), PayOut(basket, balance, left', outIdx);
    if out.Ok? && out'.Ok? {
      FloorMono((balance - left - 1) * FP_ONE, (balance - left' - 1) * FP_ONE, basket.scalingFactors[outIdx]);
    }
  }

  /** Between two amounts that can be paid out, every amount can. */
  lemma PayOutBetween(basket: Basket, balance: int, left: int, mid: int, least: int, outIdx: nat)
    requires outIdx < |basket.balances| && outIdx < |basket.scalingFactors| && 0 <= least <= mid <= left
    ensures PayOut(basket, balance, left, outIdx).Ok? && PayOut(basket, balance, least, outIdx).Ok? ==>
              PayOut(basket, balance, mid, outIdx).Ok?
  {
    if PayOut(basket, balance, left, outIdx).Ok? && PayOut(basket, balance, least, outIdx).Ok? {
      FloorMono((balance - left - 1) * FP_ONE, (balance - mid - 1) * FP_ONE, basket.scalingFactors[outIdx]);
      FloorMono((balance - mid - 1) * FP_ONE, (balance - least - 1) * FP_ONE, basket.scalingFactors[outIdx]);
    }
  }

  /** What is left after a larger raise: at most a unit more, and that only where one unit was
      left, the raise grew by one or two, and the slack was positive and small. */
  lemma RemainingRaised(x: Exchange, raise: int, raise': int)
    requires x.Open() && raise <= raise'
    ensures var y, y' := x.Remaining(raise), x.Remaining(raise');
            y.Ok? && y'.Ok? ==>
              && 0 < y.value && 0 < y'.value
              && x.Slack(raise).Ok?
              && (y'.value <= y.value
                  || (y.value == 1 && y'.value == 2 && 1 <= raise' - raise <= 2
                      && 1 <= x.Slack(raise).value <= 3 - (raise' - raise)))
  {
    hide Coefficients, Iterate, StableInvariant, ScaleAll, FeeBfp;
    var base := x.Scaled()[x.inIdx];
    var balances := x.Scaled()[x.inIdx := base + raise];
    assert x.Scaled()[x.inIdx := base + raise'] == balances[x.inIdx := base + raise'];
    BalanceRaised(x.basket.amplificationRaw, balances, x.Invariant(), x.outIdx, x.inIdx, base + raise');
  }

  /** Two inputs, or their raises, can be out of order only so close together and so near
      one: a condition on the coefficients alone. */
  predicate Disorderly(slack: int, delta: int) {
    1 <= slack && 1 <= delta && slack + delta <= 3
  }

  /** A larger input never buys less, unless the smaller one leaves a single scaled unit of
      the bought token, with a slack of one or two, and the two raise the sold token's
      balance by amounts one or two units apart. */
  lemma StableQuoteOrdered(x: Exchange, a: int, b: int)
    requires 0 < a <= b
    ensures x.Quote(a).Ok? && x.Quote(b).Ok? ==>
              && x.Raise(a).Ok? && x.Raise(b).Ok? && x.Slack(x.Raise(a).value).Ok?
              && var delta := x.Raise(b).value - x.Raise(a).value;
              && (x.Leaves(a, 2) || delta !in {1, 2} ==> x.Quote(a).value <= x.Quote(b).value)
              && (!Disorderly(x.Slack(x.Raise(a).value).value, delta) ==> x.Quote(a).value <= x.Quote(b).value)
  {
    hide StableMath.Quote, PayOut, ScaleAll, FeeBfp, StableInvariant;
    QuoteParts(x, a);
    QuoteParts(x, b);
    if x.Quote(a).Ok? && x.Quote(b).Ok? {
      RaiseMono(x, a, b);
      var raise, raise' := x.Raise(a).value, x.Raise(b).value;
      RemainingRaised(x, raise, raise');
      var y, y' := x.Remaining(raise).value, x.Remaining(raise').value;
      if y' <= y { PayOutMono(x.basket, x.Scaled()[x.outIdx], y, y', x.outIdx); }
    }
  }

  /** An input that can be quoted and leaves at least three units: below it quotes persist
      once they exist, and never decrease. */
  lemma StableQuoteGrows(x: Exchange, a: int, b: int, limit: int)
    requires 0 < a <= b <= limit && x.tokens <= MAX_LENGTH
    requires x.Quote(limit).Ok? && x.Leaves(limit, 3)
    ensures x.Quote(a).Ok? ==> x.Quote(b).Ok? && x.Quote(a).value <= x.Quote(b).value
  {
    hide StableMath.Quote, PayOut, ScaleAll, FeeBfp, StableInvariant, BalanceGivenInvariant;
    QuoteParts(x, a);
    QuoteParts(x, b);
    QuoteParts(x, limit);
    if x.Quote(a).Ok? {
      RaiseMono(x, a, b);
      RaiseMono(x, b, limit);
      var low, mid, high := x.Raise(a).value, x.Raise(b).value, x.Raise(limit).value;
      RemainingBetween(x, low, mid, high);
      RemainingRaised(x, low, mid);
      RemainingRaised(x, mid, high);
      RemainingRaised(x, low, high);
      PayOutBetween(x.basket, x.Scaled()[x.outIdx], x.Remaining(low).value, x.Remaining(mid).value, x.Remaining(high).value, x.outIdx);
      PayOutMono(x.basket, x.Scaled()[x.outIdx], x.Remaining(low).value, x.Remaining(mid).value, x.outIdx);
    }
  }

  lemma RemainingBetween(x: Exchange, low: int, mid: int, high: int)
    requires x.Open() && x.tokens <= MAX_LENGTH && low <= mid <= high
    ensures x.Remaining(low).Ok? && x.Remaining(high).Ok? ==> x.Remaining(mid).Ok?
  {
    hide BalanceGivenInvariant, StableInvariant, ScaleAll, FeeBfp;
    var base := x.Scaled()[x.inIdx];
    var balances := x.Scaled()[x.inIdx := base + low];
    assert x.Scaled()[x.inIdx := base + mid] == balances[x.inIdx := base + mid];
    assert x.Scaled()[x.inIdx := base + high] == balances[x.inIdx := base + high];
    BalanceBetween(x.basket.amplificationRaw, balances, x.Invariant(), x.outIdx, x.inIdx, base + mid, base + high);
  }
}
