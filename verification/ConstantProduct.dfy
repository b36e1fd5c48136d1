/** Constant-product quotes with a rational fee, in checked uint256 arithmetic. */
module ConstantProduct {
  import opened Arith
  import opened U256

  function Quote(reserveIn: int, reserveOut: int, feeNum: int, feeDen: int, amountIn: int): Result<int> {
    if !IsU256(reserveIn) || !IsU256(reserveOut) || !IsU256(feeNum) || !IsU256(feeDen) || feeDen <= 0 then Err(NoLiquidity)
    else if reserveIn <= 0 || reserveOut <= 0 then Err(NoLiquidity)
    else
      var keep := Sub(feeDen, feeNum);
      if keep.Err? || keep.value <= 0 then Err(InvalidFee)
      else
        var inputAfterFee :- Mul(amountIn, keep.value);
        var numerator :- Mul(inputAfterFee, reserveOut);
        var reserveTerm :- Mul(reserveIn, feeDen);
        var denominator := Add(reserveTerm, inputAfterFee);
        if denominator.Err? || denominator.value <= 0 then Err(NoLiquidity)
        else
          var output := DivDown(numerator, denominator.value);
          if output.Err? || output.value <= 0 || output.value >= reserveOut then Err(NoLiquidity) else output
  }

  /** What a constant-product pool that was built from the auction satisfies. */
  predicate WellFormed(reserveIn: int, reserveOut: int, feeNum: int, feeDen: int) {
    0 < reserveIn <= MAX_U256 && 0 < reserveOut <= MAX_U256 && 0 <= feeNum < feeDen <= MAX_U256
  }

  /** Every intermediate product of the quote fits uint256. */
  predicate NoOverflow(reserveIn: int, reserveOut: int, feeNum: int, feeDen: int, amountIn: int) {
    var after := amountIn * (feeDen - feeNum);
    after * reserveOut <= MAX_U256 && reserveIn * feeDen + after <= MAX_U256
  }

  /** The output before rounding and checks, as a single floor. */
  function Output(reserveIn: nat, reserveOut: nat, feeNum: nat, feeDen: nat, amountIn: nat): nat
    requires 0 < reserveIn && feeNum < feeDen
  {
    Terms(reserveIn, reserveOut, feeDen, feeDen - feeNum, amountIn);
    amountIn * (feeDen - feeNum) * reserveOut / (reserveIn * feeDen + amountIn * (feeDen - feeNum))
  }

  lemma Terms(reserveIn: nat, reserveOut: nat, feeDen: nat, keep: nat, amountIn: nat)
    requires 0 < reserveIn && 0 < feeDen
    ensures 0 <= amountIn * keep && 0 <= amountIn * keep * reserveOut
    ensures 0 < reserveIn * feeDen && 0 < reserveIn * feeDen + amountIn * keep
  {
    MulMono(0, amountIn, keep);
    MulMono(0, amountIn * keep, reserveOut);
    MulMono(1, reserveIn, feeDen);
  }

  lemma OutputBelowReserve(reserveIn: nat, reserveOut: nat, feeNum: nat, feeDen: nat, amountIn: nat)
    requires 0 < reserveIn && 0 < reserveOut && feeNum < feeDen
    ensures Output(reserveIn, reserveOut, feeNum, feeDen, amountIn) < reserveOut
  {
    var keep := feeDen - feeNum;
    Terms(reserveIn, reserveOut, feeDen, keep, amountIn);
    var after, term := amountIn * keep, reserveIn * feeDen;
    assert reserveOut * (term + after) == reserveOut * term + after * reserveOut;
    MulMono(1, reserveOut, term);
    FloorGalois(after * reserveOut, term + after, reserveOut);
  }

  /** A quote from a well-formed pool succeeds exactly when nothing overflows and the output
      is not dust, and then it is the single floor, always below the reserve. */
  lemma QuoteExactly(reserveIn: int, reserveOut: int, feeNum: int, feeDen: int, amountIn: int)
    requires WellFormed(reserveIn, reserveOut, feeNum, feeDen) && 0 < amountIn <= MAX_U256
    ensures var quote := Quote(reserveIn, reserveOut, feeNum, feeDen, amountIn);
            quote.Ok? <==> NoOverflow(reserveIn, reserveOut, feeNum, feeDen, amountIn)
                           && Output(reserveIn, reserveOut, feeNum, feeDen, amountIn) > 0
    ensures var quote := Quote(reserveIn, reserveOut, feeNum, feeDen, amountIn);
            quote.Ok? ==> quote.value == Output(reserveIn, reserveOut, feeNum, feeDen, amountIn) < reserveOut
  {
    var keep := feeDen - feeNum;
    Terms(reserveIn, reserveOut, feeDen, keep, amountIn);
    MulMono(1, reserveOut, amountIn * keep);
    OutputBelowReserve(reserveIn, reserveOut, feeNum, feeDen, amountIn);
  }

  /** The output is the largest amount that keeps the product of the reserves when only the
      fee-reduced input is counted. */
  lemma OutputIsLargest(reserveIn: nat, reserveOut: nat, feeNum: nat, feeDen: nat, amountIn: nat, candidate: nat)
    requires 0 < reserveIn && feeNum < feeDen
    ensures var term, after := reserveIn * feeDen, amountIn * (feeDen - feeNum);
            candidate <= Output(reserveIn, reserveOut, feeNum, feeDen, amountIn)
            <==> (term + after) * (reserveOut - candidate) >= term * reserveOut
  {
    Terms(reserveIn, reserveOut, feeDen, feeDen - feeNum, amountIn);
    var term, after := reserveIn * feeDen, amountIn * (feeDen - feeNum);
    FloorGalois(after * reserveOut, term + after, candidate);
    Remainder(term, after, reserveOut, candidate);
  }

  lemma Remainder(term: int, after: int, reserveOut: int, candidate: int)
    ensures (term + after) * (reserveOut - candidate) == term * reserveOut + after * reserveOut - candidate * (term + after)
  {
    assert (term + after) * (reserveOut - candidate) == (term + after) * reserveOut - (term + after) * candidate;
    assert (term + after) * reserveOut == term * reserveOut + after * reserveOut;
  }

  /** The pool never loses value: its product of reserves does not decrease, for any fee. */
  lemma KeepsProduct(reserveIn: nat, reserveOut: nat, feeNum: nat, feeDen: nat, amountIn: nat)
    requires 0 < reserveIn && feeNum < feeDen
    ensures var out := Output(reserveIn, reserveOut, feeNum, feeDen, amountIn);
            (reserveIn + amountIn) * (reserveOut - out) >= reserveIn * reserveOut
  {
    var keep, out := feeDen - feeNum, Output(reserveIn, reserveOut, feeNum, feeDen, amountIn);
    Terms(reserveIn, reserveOut, feeDen, keep, amountIn);
    FloorGalois(amountIn * keep * reserveOut, reserveIn * feeDen + amountIn * keep, out);
    FeeOnlyHelps(reserveIn, reserveOut, feeDen, keep, amountIn, out);
    assert (reserveIn + amountIn) * (reserveOut - out)
        == reserveIn * reserveOut + amountIn * reserveOut - out * (reserveIn + amountIn);
  }

  /** An output that respects the fee respects the bare product formula. */
  lemma FeeOnlyHelps(reserveIn: nat, reserveOut: nat, feeDen: nat, keep: nat, amountIn: nat, out: nat)
    requires 0 < keep <= feeDen
    requires out * (reserveIn * feeDen + amountIn * keep) <= amountIn * keep * reserveOut
    ensures out * (reserveIn + amountIn) <= amountIn * reserveOut
  {
    var bare := amountIn * reserveOut - out * amountIn;
    assert out * (reserveIn * feeDen + amountIn * keep) == (out * reserveIn) * feeDen + (out * amountIn) * keep;
    assert amountIn * keep * reserveOut == (amountIn * reserveOut) * keep;
    assert (out * reserveIn) * feeDen <= bare * keep by {
      assert bare * keep == (amountIn * reserveOut) * keep - (out * amountIn) * keep;
    }
    MulMono(0, out, reserveIn);
    MulMono(0, out * reserveIn, feeDen);
    if bare < 0 { MulMono(bare, -1, keep); }
    MulMono(keep, feeDen, bare);
    MulCancel(out * reserveIn, bare, feeDen);
    assert out * (reserveIn + amountIn) == out * reserveIn + out * amountIn;
  }

  /** More input buys at least as much. */
  lemma OutputMono(reserveIn: nat, reserveOut: nat, feeNum: nat, feeDen: nat, a: nat, b: nat)
    requires 0 < reserveIn && feeNum < feeDen && a <= b
    ensures Output(reserveIn, reserveOut, feeNum, feeDen, a) <= Output(reserveIn, reserveOut, feeNum, feeDen, b)
  {
    var keep, term := feeDen - feeNum, reserveIn * feeDen;
    Terms(reserveIn, reserveOut, feeDen, keep, a);
    Terms(reserveIn, reserveOut, feeDen, keep, b);
    MulMono(a, b, keep);
    var out := Output(reserveIn, reserveOut, feeNum, feeDen, a);
    FloorGalois(a * keep * reserveOut, term + a * keep, out);
    MoreCovers(term, reserveOut, a * keep, b * keep, out);
    FloorGalois(b * keep * reserveOut, term + b * keep, out);
  }

  lemma MoreCovers(term: nat, reserveOut: nat, a: nat, b: nat, out: nat)
    requires 0 < term && a <= b && out * (term + a) <= a * reserveOut
    ensures out * (term + b) <= b * reserveOut
  {
    assert out * (term + a) == out * term + out * a;
    assert out * (term + b) == out * term + out * b;
    var slack := reserveOut - out;
    assert a * reserveOut - out * a == a * slack;
    assert b * reserveOut - out * b == b * slack;
    MulMono(0, out, term);
    if slack < 0 { MulMono(slack, -1, a); }
    if slack < 0 && a == 0 { MulMono(1, out, term); }
    MulMono(a, b, slack);
  }

  /** Between an input that is quoted and one that does not overflow every input is quoted,
      and the output never decreases. */
  lemma QuoteMonotone(reserveIn: int, reserveOut: int, feeNum: int, feeDen: int, a: int, m: int, b: int)
    requires WellFormed(reserveIn, reserveOut, feeNum, feeDen) && 0 < a <= m <= b <= MAX_U256
    requires NoOverflow(reserveIn, reserveOut, feeNum, feeDen, b)
    ensures var low, mid := Quote(reserveIn, reserveOut, feeNum, feeDen, a), Quote(reserveIn, reserveOut, feeNum, feeDen, m);
            low.Ok? ==> mid.Ok? && low.value <= mid.value
  {
    hide Quote, Output;
    QuoteExactly(reserveIn, reserveOut, feeNum, feeDen, a);
    QuoteExactly(reserveIn, reserveOut, feeNum, feeDen, m);
    OutputMono(reserveIn, reserveOut, feeNum, feeDen, a, m);
    LessOverflowsLess(reserveIn, reserveOut, feeNum, feeDen, m, b);
  }

  lemma LessOverflowsLess(reserveIn: nat, reserveOut: nat, feeNum: nat, feeDen: nat, m: nat, b: nat)
    requires feeNum < feeDen && m <= b && NoOverflow(reserveIn, reserveOut, feeNum, feeDen, b)
    ensures NoOverflow(reserveIn, reserveOut, feeNum, feeDen, m)
  {
    MulMono(m, b, feeDen - feeNum);
    MulMono(m * (feeDen - feeNum), b * (feeDen - feeNum), reserveOut);
  }

  /** Selling the output back through the updated reserves never returns more than the
      input, for any two fees. */
  lemma RoundTripNeverProfits(
    reserveIn: int, reserveOut: int, feeNum: int, feeDen: int, feeNum': int, feeDen': int, amountIn: int)
    requires WellFormed(reserveIn, reserveOut, feeNum, feeDen) && 0 < amountIn <= MAX_U256
    ensures var out := Quote(reserveIn, reserveOut, feeNum, feeDen, amountIn);
            out.Ok? ==>
              var back := Quote(reserveOut - out.value, reserveIn + amountIn, feeNum', feeDen', out.value);
              back.Ok? ==> back.value <= amountIn
  {
    QuoteExactly(reserveIn, reserveOut, feeNum, feeDen, amountIn);
    var out := Quote(reserveIn, reserveOut, feeNum, feeDen, amountIn);
    if out.Ok? {
      var back := Quote(reserveOut - out.value, reserveIn + amountIn, feeNum', feeDen', out.value);
      if back.Ok? {
        QuoteExactly(reserveOut - out.value, reserveIn + amountIn, feeNum', feeDen', out.value);
        KeepsProduct(reserveIn, reserveOut, feeNum, feeDen, amountIn);
        KeepsProduct(reserveOut - out.value, reserveIn + amountIn, feeNum', feeDen', out.value);
        SellBack(reserveIn, reserveOut, amountIn, out.value, back.value);
      }
    }
  }

  lemma SellBack(reserveIn: int, reserveOut: nat, amountIn: nat, out: nat, back: int)
    requires 0 < reserveOut
    requires (reserveIn + amountIn) * (reserveOut - out) >= reserveIn * reserveOut
    requires (reserveOut - out + out) * (reserveIn + amountIn - back) >= (reserveOut - out) * (reserveIn + amountIn)
    ensures back <= amountIn
  {
    MulCancel(reserveIn, reserveIn + amountIn - back, reserveOut);
  }
}
