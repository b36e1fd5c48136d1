/** The Uniswap v3 tick walk: an exact input pushed through consecutive liquidity ranges
    (section 6.2.3 of the Uniswap v3 Core whitepaper). */
module Concentrated {
  import opened U256
  import opened SwapMath
  import opened TickMath

  const MAX_STEPS: nat := 512

  /** Net liquidity added when the price crosses index upwards. */
  datatype Tick = Tick(index: int, net: int)

  /** The priced part of a concentrated pool. */
  datatype Range = Range(sqrtPrice: int, liquidity: int, tick: int, ticks: seq<Tick>)

  /** One swap step at the fee of the pool: current and target price, liquidity, input. */
  type Stepper = (int, int, int, int) -> Result<Step>

  function StepAt(pips: int): Stepper {
    (current, target, liquidity, remaining) => ComputeSwapStep(current, target, liquidity, remaining, pips)
  }

  /** What stays fixed during a walk. */
  datatype Swap = Swap(zeroForOne: bool, limit: int, ticks: seq<Tick>, step: Stepper)

  datatype State = State(sqrtPrice: int, liquidity: int, remaining: int, amountOut: int, idx: int)

  /** One swap step of a walk, with the prices it was asked to connect. */
  datatype Leg = Leg(from: int, target: int, step: Step)

  datatype Turn =
    | Fail(error: Error)
    | Idle
    | Stop(state: State, leg: Leg)
    | Next(state: State, leg: Leg)

  /** The rational fee in millionths, when it is exactly that. */
  function FeePips(feeNum: int, feeDen: int): Result<int> {
    if !IsU256(feeNum) || !IsU256(feeDen) || feeDen <= 0 then Err(InvalidFee)
    else
      var scaled := feeNum * MILLION;
      if scaled % feeDen != 0 || !IsU256(scaled / feeDen) || scaled / feeDen >= MILLION then Err(InvalidFee)
      else Ok(scaled / feeDen)
  }

  function Limit(zeroForOne: bool): int {
    if zeroForOne then MIN_SQRT_RATIO + 1 else MAX_SQRT_RATIO - 1
  }

  /** First position whose tick lies above the current one; the ticks are sorted. */
  function FirstAbove(ticks: seq<Tick>, tick: int): (i: nat)
    ensures i <= |ticks|
    ensures forall j :: 0 <= j < i ==> ticks[j].index <= tick
    ensures i < |ticks| ==> ticks[i].index > tick
  {
    if ticks == [] || ticks[0].index > tick then 0 else 1 + FirstAbove(ticks[1..], tick)
  }

  function StartIndex(range: Range, zeroForOne: bool): int {
    if zeroForOne then FirstAbove(range.ticks, range.tick) - 1 else FirstAbove(range.ticks, range.tick)
  }

  /** The price to walk to, and whether a tick is crossed there. */
  function Target(swap: Swap, idx: int): Result<(int, bool)> {
    if 0 <= idx < |swap.ticks| then
      var price :- GetSqrtRatioAtTick(swap.ticks[idx].index);
      if (if swap.zeroForOne then price > swap.limit else price < swap.limit) then Ok((price, true))
      else Ok((swap.limit, false))
    else Ok((swap.limit, false))
  }

  /** One iteration of the quoting loop. */
  function TakeTurn(swap: Swap, s: State): Turn {
    if s.liquidity <= 0 || s.liquidity >= Q128 then Fail(NoLiquidity)
    else
      var aim := Target(swap, s.idx);
      if aim.Err? then Fail(aim.error)
      else
        var (target, crossing) := aim.value;
        var moved := swap.step(s.sqrtPrice, target, s.liquidity, s.remaining);
        if moved.Err? then Fail(moved.error) else Settle(swap, s, target, crossing, moved.value)
  }

  /** The bookkeeping after a step: input, output, and the tick that was crossed. */
  function Settle(swap: Swap, s: State, target: int, crossing: bool, step: Step): Turn {
    var consumed := Add(step.amountIn, step.fee);
    var amountOut := Add(s.amountOut, step.amountOut);
    if consumed.Err? then Fail(consumed.error)
    else if consumed.value == 0 && step.amountOut == 0 && step.next == s.sqrtPrice && !crossing then Idle
    else if consumed.value > s.remaining then Fail(Overconsumed)
    else if amountOut.Err? then Fail(amountOut.error)
    else
      var leg := Leg(s.sqrtPrice, target, step);
      var s' := State(step.next, s.liquidity, s.remaining - consumed.value, amountOut.value, s.idx);
      if crossing && step.next == target && 0 <= s.idx < |swap.ticks| then
        var net := swap.ticks[s.idx].net;
        var liquidity := s.liquidity + (if swap.zeroForOne then -net else net);
        if liquidity < 0 || liquidity >= Q128 then Fail(NoLiquidity)
        else Next(s'.(liquidity := liquidity, idx := if swap.zeroForOne then s.idx - 1 else s.idx + 1), leg)
      else if step.next == swap.limit || (s'.remaining > 0 && !crossing) then Stop(s', leg)
      else Next(s', leg)
  }

  function Walk(swap: Swap, s: State, fuel: nat): Result<State>
    decreases fuel, s
  {
    if s.remaining <= 0 || fuel == 0 then Ok(s)
    else
      match TakeTurn(swap, s)
      case Fail(error) => Err(error)
      case Idle => Ok(s)
      case Stop(s', _) => Ok(s')
      case Next(s', _) => Walk(swap, s', fuel - 1)
  }

  /** The steps a walk takes. */
  function Legs(swap: Swap, s: State, fuel: nat): seq<Leg>
    decreases fuel, s
  {
    if s.remaining <= 0 || fuel == 0 then []
    else
      match TakeTurn(swap, s)
      case Fail(_) => []
      case Idle => []
      case Stop(_, leg) => [leg]
      case Next(s', leg) => [leg] + Legs(swap, s', fuel - 1)
  }

  predicate Quotable(range: Range, zeroForOne: bool) {
    && MIN_SQRT_RATIO <= range.sqrtPrice <= MAX_SQRT_RATIO
    && 0 < range.liquidity < Q128
    && ValidTick(range.tick)
    && if zeroForOne then range.sqrtPrice > Limit(true) else range.sqrtPrice < Limit(false)
  }

  function Start(range: Range, zeroForOne: bool, amountIn: int): State {
    State(range.sqrtPrice, range.liquidity, amountIn, 0, StartIndex(range, zeroForOne))
  }

  function Quote(range: Range, feeNum: int, feeDen: int, zeroForOne: bool, amountIn: int): Result<int> {
    if !(MIN_SQRT_RATIO <= range.sqrtPrice <= MAX_SQRT_RATIO && 0 < range.liquidity < Q128 && ValidTick(range.tick)) then
      Err(NoLiquidity)
    else
      var pips :- FeePips(feeNum, feeDen);
      if !Quotable(range, zeroForOne) then Err(NoLiquidity)
      else
        var swap := Swap(zeroForOne, Limit(zeroForOne), range.ticks, StepAt(pips));
        var end :- Walk(swap, Start(range, zeroForOne, amountIn), MAX_STEPS);
        if end.remaining != 0 then Err(InputNotConsumed)
        else if end.amountOut <= 0 then Err(NoLiquidity)
        else Ok(end.amountOut)
  }

  lemma WalkEnds(swap: Swap, s: State, fuel: nat)
    ensures s.remaining <= 0 || fuel == 0 ==> Walk(swap, s, fuel) == Ok(s)
  {
  }

  lemma WalkTurns(swap: Swap, s: State, fuel: nat)
    requires s.remaining > 0 && fuel > 0
    ensures Walk(swap, s, fuel) ==
            match TakeTurn(swap, s)
            case Fail(error) => Err(error)
            case Idle => Ok(s)
            case Stop(s', _) => Ok(s')
            case Next(s', _) => Walk(swap, s', fuel - 1)
  {
    hide TakeTurn;
  }

  /** The quoting loop: it walks as Walk does, on its own five variables. */
  method ComputeQuote(range: Range, feeNum: int, feeDen: int, zeroForOne: bool, amountIn: int) returns (r: Result<int>)
    ensures r == Quote(range, feeNum, feeDen, zeroForOne, amountIn)
  {
    hide ComputeSwapStep, GetSqrtRatioAtTick, FirstAbove, FeePips, Limit, Add, Walk;
    if range.sqrtPrice < MIN_SQRT_RATIO || range.sqrtPrice > MAX_SQRT_RATIO ||
       range.liquidity <= 0 || range.liquidity >= Q128 || range.tick < MIN_TICK || range.tick > MAX_TICK {
      return Err(NoLiquidity);
    }
    var pips :- FeePips(feeNum, feeDen);
    var sqrtPrice, liquidity, remaining, amountOut := range.sqrtPrice, range.liquidity, amountIn, 0;
    var limit := Limit(zeroForOne);
    if (zeroForOne && sqrtPrice <= limit) || (!zeroForOne && sqrtPrice >= limit) {
      return Err(NoLiquidity);
    }
    var idx := StartIndex(range, zeroForOne);
    ghost var swap := Swap(zeroForOne, limit, range.ticks, StepAt(pips));
    ghost var end := Walk(swap, Start(range, zeroForOne, amountIn), MAX_STEPS);
    var steps := 0;
    WalkEnds(swap, Start(range, zeroForOne, amountIn), MAX_STEPS);
    while remaining > 0 && steps < MAX_STEPS
      invariant steps <= MAX_STEPS
      invariant Walk(swap, State(sqrtPrice, liquidity, remaining, amountOut, idx), MAX_STEPS - steps) == end
      invariant remaining <= 0 || steps == MAX_STEPS ==> end == Ok(State(sqrtPrice, liquidity, remaining, amountOut, idx))
      decreases MAX_STEPS - steps
    {
      WalkTurns(swap, State(sqrtPrice, liquidity, remaining, amountOut, idx), MAX_STEPS - steps);
      if liquidity <= 0 || liquidity >= Q128 {
        return Err(NoLiquidity);
      }
      var target, crossing := limit, false;
      if 0 <= idx < |range.ticks| {
        var tickPrice :- ComputeSqrtRatioAtTick(range.ticks[idx].index);
        if (zeroForOne && tickPrice > target) || (!zeroForOne && tickPrice < target) {
          target, crossing := tickPrice, true;
        }
      }
      var step :- ComputeSwapStep(sqrtPrice, target, liquidity, remaining, pips);
      var consumed :- Add(step.amountIn, step.fee);
      if consumed == 0 && step.amountOut == 0 && step.next == sqrtPrice && !crossing {
        break;
      }
      if consumed > remaining {
        return Err(Overconsumed);
      }
      remaining := remaining - consumed;
      amountOut :- Add(amountOut, step.amountOut);
      sqrtPrice := step.next;
      if crossing && sqrtPrice == target {
        var net := if zeroForOne then -range.ticks[idx].net else range.ticks[idx].net;
        liquidity := liquidity + net;
        if liquidity < 0 || liquidity >= Q128 {
          return Err(NoLiquidity);
        }
        idx := if zeroForOne then idx - 1 else idx + 1;
      } else if sqrtPrice == limit || (remaining > 0 && !crossing) {
        break;
      }
      steps := steps + 1;
      WalkEnds(swap, State(sqrtPrice, liquidity, remaining, amountOut, idx), MAX_STEPS - steps);
    }
    if remaining != 0 {
      return Err(InputNotConsumed);
    }
    if amountOut <= 0 {
      return Err(NoLiquidity);
    }
    return Ok(amountOut);
  }
}
