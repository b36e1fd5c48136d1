/** Whole walks: what they conserve, where they go, and how they depend on the input. */
module WalkTheorems {
  import opened U256
  import opened SwapMath
  import opened SwapTheorems
  import opened TickMath
  import opened Concentrated

  /** Room left in the output so that no step of a 512-step walk can overflow it. */
  const STEP_ROOM: int := MAX_U256 / 1024

  predicate StateOk(s: State, fuel: nat) {
    && PriceOk(s.sqrtPrice)
    && IsU256(s.remaining)
    && fuel <= MAX_STEPS
    && 0 <= s.amountOut <= (MAX_STEPS - fuel) * STEP_ROOM
  }

  lemma TargetOk(swap: Swap, idx: int)
    requires SwapOk(swap)
    ensures match Target(swap, idx)
            case Ok((target, crossing)) => PriceOk(target) && (!crossing ==> target == swap.limit)
            case Err(error) => error == TickOutOfRange
  {
    if 0 <= idx < |swap.ticks| && ValidTick(swap.ticks[idx].index) {
      RatioInRange(swap.ticks[idx].index);
    }
  }

  /** The bookkeeping facts of a sound step. */
  ghost predicate SoundLeg(leg: Leg, remaining: int, pips: int) {
    && PriceOk(leg.step.next)
    && (leg.target <= leg.step.next <= leg.from || leg.from <= leg.step.next <= leg.target)
    && 0 <= leg.step.amountIn && 0 <= leg.step.fee && leg.step.Consumed() <= remaining
    && 0 <= leg.step.amountOut < STEP_ROOM
    && (leg.step.next != leg.target ==> leg.step.Consumed() == remaining)
    && leg.step.fee * MILLION >= leg.step.Consumed() * pips
  }

  /** More input never buys less, and does not change a step that reaches its target. */
  ghost predicate NoLess(step: Stepper, current: int, target: int, liquidity: int, remaining: int, remaining': int)
    requires step(current, target, liquidity, remaining).Ok? && step(current, target, liquidity, remaining').Ok?
  {
    var less, more := step(current, target, liquidity, remaining).value, step(current, target, liquidity, remaining').value;
    less.amountOut <= more.amountOut && (less.next == target ==> more == less)
  }

  /** A step that is sound and monotone at a fee of pips millionths. All that is proved
      about walks holds for every such step. */
  ghost predicate GoodStep(step: Stepper, pips: int) {
    && PipsOk(pips)
    && (forall current, target, liquidity, remaining {:trigger step(current, target, liquidity, remaining)} ::
          StepInputs(current, target, liquidity, remaining, pips) ==>
            && step(current, target, liquidity, remaining).Ok?
            && SoundLeg(Leg(current, target, step(current, target, liquidity, remaining).value), remaining, pips))
    && (forall current, target, liquidity, remaining, remaining'
          {:trigger step(current, target, liquidity, remaining), step(current, target, liquidity, remaining')} ::
          StepInputs(current, target, liquidity, remaining, pips) && IsU256(remaining') && remaining <= remaining' ==>
            NoLess(step, current, target, liquidity, remaining, remaining'))
  }

  /** The step of section 6.2.3 is one. */
  lemma StepAtIsGood(pips: int)
    requires PipsOk(pips)
    ensures GoodStep(StepAt(pips), pips)
  {
    hide ComputeSwapStep, SoundStep, SoundLeg;
    var step := StepAt(pips);
    forall current, target, liquidity, remaining | StepInputs(current, target, liquidity, remaining, pips)
      ensures step(current, target, liquidity, remaining).Ok?
      ensures SoundLeg(Leg(current, target, step(current, target, liquidity, remaining).value), remaining, pips)
    {
      StepSucceeds(current, target, liquidity, remaining, pips);
      SoundStepIsLeg(current, target, liquidity, remaining, pips, step(current, target, liquidity, remaining).value);
    }
    forall current, target, liquidity, remaining, remaining' |
      StepInputs(current, target, liquidity, remaining, pips) && IsU256(remaining') && remaining <= remaining'
      ensures NoLess(step, current, target, liquidity, remaining, remaining')
    {
      StepMono(current, target, liquidity, remaining, remaining', pips);
    }
  }

  lemma SoundStepIsLeg(current: int, target: int, liquidity: int, remaining: int, pips: int, step: Step)
    requires StepInputs(current, target, liquidity, remaining, pips)
    ensures SoundStep(current, target, liquidity, remaining, pips, step) ==> SoundLeg(Leg(current, target, step), remaining, pips)
  {
  }

  predicate SwapOk(swap: Swap) { PriceOk(swap.limit) }

  /** What the state after a leg owes to the state before it. */
  ghost predicate Follows(pips: int, s: State, leg: Leg, s': State) {
    && SoundLeg(leg, s.remaining, pips)
    && leg.from == s.sqrtPrice
    && s'.sqrtPrice == leg.step.next
    && s'.remaining == s.remaining - leg.step.Consumed()
    && s'.amountOut == s.amountOut + leg.step.amountOut
  }

  /** A turn fails only for missing liquidity or an out-of-range tick; otherwise the leg it
      takes is sound and fully accounted for. */
  lemma TurnSound(swap: Swap, pips: int, s: State, fuel: nat)
    requires SwapOk(swap) && GoodStep(swap.step, pips) && StateOk(s, fuel) && fuel > 0
    ensures match TakeTurn(swap, s)
            case Fail(error) => error == NoLiquidity || error == TickOutOfRange
            case Idle => true
            case Stop(s', leg) => StateOk(s', fuel - 1) && Follows(pips, s, leg, s')
            case Next(s', leg) => StateOk(s', fuel - 1) && Follows(pips, s, leg, s')
  {
    TargetOk(swap, s.idx);
    var aim := Target(swap, s.idx);
    if aim.Ok? && LiquidityOk(s.liquidity) {
      var (target, crossing) := aim.value;
      var step := swap.step(s.sqrtPrice, target, s.liquidity, s.remaining).value;
      SettleSound(swap, pips, s, fuel, target, crossing, step);
    }
  }

  lemma SettleSound(swap: Swap, pips: int, s: State, fuel: nat, target: int, crossing: bool, step: Step)
    requires StateOk(s, fuel) && fuel > 0
    requires SoundLeg(Leg(s.sqrtPrice, target, step), s.remaining, pips)
    ensures match Settle(swap, s, target, crossing, step)
            case Fail(error) => error == NoLiquidity
            case Idle => true
            case Stop(s', leg) => StateOk(s', fuel - 1) && Follows(pips, s, leg, s')
            case Next(s', leg) => StateOk(s', fuel - 1) && Follows(pips, s, leg, s')
  {
  }

  // ---------- Conservation ----------

  function Spent(legs: seq<Leg>): int {
    if legs == [] then 0 else legs[0].step.Consumed() + Spent(legs[1..])
  }

  function Fees(legs: seq<Leg>): int {
    if legs == [] then 0 else legs[0].step.fee + Fees(legs[1..])
  }

  function Bought(legs: seq<Leg>): int {
    if legs == [] then 0 else legs[0].step.amountOut + Bought(legs[1..])
  }

  /** The legs form one path that starts at price. */
  ghost predicate Connected(legs: seq<Leg>, price: int) {
    && (legs != [] ==> legs[0].from == price)
    && forall i :: 0 < i < |legs| ==> legs[i].from == legs[i - 1].step.next
  }

  ghost predicate OnlyLastStopsShort(legs: seq<Leg>) {
    forall i :: 0 <= i < |legs| - 1 ==> legs[i].step.next == legs[i].target
  }

  /** What a path of legs accounts for. */
  ghost predicate Accounts(pips: int, s: State, legs: seq<Leg>, spent: int, bought: int) {
    && Spent(legs) == spent
    && Bought(legs) == bought
    && Fees(legs) * MILLION >= spent * pips
    && Connected(legs, s.sqrtPrice)
    && OnlyLastStopsShort(legs)
  }

  lemma AccountsCons(pips: int, s: State, leg: Leg, s': State, rest: seq<Leg>, spent: int, bought: int)
    requires Follows(pips, s, leg, s') && Accounts(pips, s', rest, spent, bought)
    requires leg.step.next != leg.target ==> rest == []
    ensures Accounts(pips, s, [leg] + rest, leg.step.Consumed() + spent, leg.step.amountOut + bought)
  {
    var legs := [leg] + rest;
    assert legs[1..] == rest;
    assert (leg.step.Consumed() + spent) * pips == leg.step.Consumed() * pips + spent * pips;
    assert forall i :: 0 < i < |legs| ==> legs[i] == rest[i - 1];
  }

  /** A walk neither loses nor invents anything: its legs consume what left the input and
      produce what entered the output. */
  lemma {:induction false} WalkAccounts(swap: Swap, pips: int, s: State, fuel: nat)
    requires SwapOk(swap) && GoodStep(swap.step, pips) && StateOk(s, fuel)
    ensures match Walk(swap, s, fuel)
            case Ok(end) =>
              && 0 <= end.remaining && s.amountOut <= end.amountOut
              && Accounts(pips, s, Legs(swap, s, fuel), s.remaining - end.remaining, end.amountOut - s.amountOut)
            case Err(error) => error == NoLiquidity || error == TickOutOfRange
    decreases fuel
  {
    hide TakeTurn, GoodStep;
    if s.remaining > 0 && fuel > 0 {
      TurnSound(swap, pips, s, fuel);
      match TakeTurn(swap, s)
      case Fail(_) =>
      case Idle =>
      case Stop(s', leg) =>
        AccountsCons(pips, s, leg, s', [], 0, 0);
        assert [leg] + [] == [leg];
      case Next(s', leg) =>
        WalkAccounts(swap, pips, s', fuel - 1);
        var end := Walk(swap, s', fuel - 1);
        if end.Ok? {
          AccountsCons(pips, s, leg, s', Legs(swap, s', fuel - 1),
                       s'.remaining - end.value.remaining, end.value.amountOut - s'.amountOut);
        }
    }
  }

  function SwapOf(range: Range, zeroForOne: bool, pips: int): Swap {
    Swap(zeroForOne, Limit(zeroForOne), range.ticks, StepAt(pips))
  }

  lemma FeePipsOk(feeNum: int, feeDen: int)
    ensures FeePips(feeNum, feeDen).Ok? ==> PipsOk(FeePips(feeNum, feeDen).value)
    ensures FeePips(feeNum, feeDen).Err? ==> FeePips(feeNum, feeDen).error == InvalidFee
  {
  }

  /** Whole-walk conservation: a quote that succeeds consumes the input exactly, only its
      last step may stop short of its target, its output is what the steps produced, and the
      fees add up to at least the pool's rate on the whole input. */
  lemma QuoteConserves(range: Range, feeNum: int, feeDen: int, zeroForOne: bool, amountIn: int)
    requires IsU256(amountIn)
    ensures var quote, pips := Quote(range, feeNum, feeDen, zeroForOne, amountIn), FeePips(feeNum, feeDen);
            quote.Ok? ==>
              && pips.Ok?
              && var legs := Legs(SwapOf(range, zeroForOne, pips.value), Start(range, zeroForOne, amountIn), MAX_STEPS);
              && Spent(legs) == amountIn
              && Bought(legs) == quote.value > 0
              && Fees(legs) * MILLION >= amountIn * pips.value
              && Connected(legs, range.sqrtPrice)
              && OnlyLastStopsShort(legs)
  {
    hide TakeTurn;
    FeePipsOk(feeNum, feeDen);
    if FeePips(feeNum, feeDen).Ok? && Quotable(range, zeroForOne) {
      var pips := FeePips(feeNum, feeDen).value;
      StepAtIsGood(pips);
      WalkAccounts(SwapOf(range, zeroForOne, pips), pips, Start(range, zeroForOne, amountIn), MAX_STEPS);
    }
  }

  /** The only ways a quote can be refused: neither over-consumption nor any arithmetic
      error is reachable. */
  lemma QuoteErrors(range: Range, feeNum: int, feeDen: int, zeroForOne: bool, amountIn: int)
    requires IsU256(amountIn)
    ensures var quote := Quote(range, feeNum, feeDen, zeroForOne, amountIn);
            quote.Err? ==> quote.error in {NoLiquidity, TickOutOfRange, InputNotConsumed, InvalidFee}
  {
    hide TakeTurn;
    FeePipsOk(feeNum, feeDen);
    if FeePips(feeNum, feeDen).Ok? && Quotable(range, zeroForOne) {
      var pips := FeePips(feeNum, feeDen).value;
      StepAtIsGood(pips);
      WalkAccounts(SwapOf(range, zeroForOne, pips), pips, Start(range, zeroForOne, amountIn), MAX_STEPS);
    }
  }

  // ---------- Monotonicity ----------

  /** One turn with less input: the same step when that reaches its target, else the end. */
  lemma TurnLess(swap: Swap, pips: int, s: State, s': State, fuel: nat)
    requires SwapOk(swap) && GoodStep(swap.step, pips) && StateOk(s, fuel) && StateOk(s', fuel) && fuel > 0
    requires s' == s.(remaining := s'.remaining) && 0 < s.remaining <= s'.remaining
    requires !TakeTurn(swap, s').Fail? && !TakeTurn(swap, s').Idle?
    ensures TakeTurn(swap, s).Stop? || TakeTurn(swap, s).Next?
    ensures var turn, turn' := TakeTurn(swap, s), TakeTurn(swap, s');
            && StateOk(turn.state, fuel - 1) && StateOk(turn'.state, fuel - 1)
            && turn.state.amountOut <= turn'.state.amountOut
            && (turn.state.remaining == 0
                || (turn.Next? && turn'.Next?
                    && turn'.state == turn.state.(remaining := turn'.state.remaining)
                    && turn.state.remaining <= turn'.state.remaining)
                || (turn.Stop? && turn'.Stop? && turn.state.remaining <= turn'.state.remaining))
  {
    hide Target;
    TurnSound(swap, pips, s, fuel);
    TurnSound(swap, pips, s', fuel);
    TargetOk(swap, s.idx);
    var (target, crossing) := Target(swap, s.idx).value;
    assert NoLess(swap.step, s.sqrtPrice, target, s.liquidity, s.remaining, s'.remaining);
  }

  /** If a walk uses up an input, it uses up every smaller one, for no more output. */
  lemma {:induction false} WalkLess(swap: Swap, pips: int, s: State, s': State, fuel: nat)
    requires SwapOk(swap) && GoodStep(swap.step, pips) && StateOk(s, fuel) && StateOk(s', fuel)
    requires s' == s.(remaining := s'.remaining) && s.remaining <= s'.remaining
    requires Walk(swap, s', fuel).Ok? && Walk(swap, s', fuel).value.remaining == 0
    ensures Walk(swap, s, fuel).Ok?
    ensures Walk(swap, s, fuel).value.remaining == 0
    ensures Walk(swap, s, fuel).value.amountOut <= Walk(swap, s', fuel).value.amountOut
    decreases fuel
  {
    hide TakeTurn;
    WalkAccounts(swap, pips, s', fuel);
    if s.remaining > 0 && fuel > 0 {
      TurnLess(swap, pips, s, s', fuel);
      var turn, turn' := TakeTurn(swap, s), TakeTurn(swap, s');
      WalkAccounts(swap, pips, turn'.state, fuel - 1);
      if turn.state.remaining > 0 && turn.Next? {
        WalkLess(swap, pips, turn.state, turn'.state, fuel - 1);
      }
    }
  }

  /** The same, from the start of a quote. */
  lemma EndsLess(range: Range, zeroForOne: bool, swap: Swap, pips: int, a: int, b: int)
    requires SwapOk(swap) && GoodStep(swap.step, pips) && Quotable(range, zeroForOne)
    requires IsU256(a) && IsU256(b) && a <= b
    ensures var end, end' := Walk(swap, Start(range, zeroForOne, a), MAX_STEPS), Walk(swap, Start(range, zeroForOne, b), MAX_STEPS);
            end'.Ok? && end'.value.remaining == 0 ==>
              end.Ok? && end.value.remaining == 0 && end.value.amountOut <= end'.value.amountOut
  {
    hide TakeTurn;
    var end' := Walk(swap, Start(range, zeroForOne, b), MAX_STEPS);
    if end'.Ok? && end'.value.remaining == 0 {
      WalkLess(swap, pips, Start(range, zeroForOne, a), Start(range, zeroForOne, b), MAX_STEPS);
    }
  }

  /** Below an input that can be quoted, a quote can only fail for being dust. */
  lemma QuoteLess(range: Range, feeNum: int, feeDen: int, zeroForOne: bool, a: int, b: int)
    requires IsU256(a) && IsU256(b) && a <= b
    ensures var small, large := Quote(range, feeNum, feeDen, zeroForOne, a), Quote(range, feeNum, feeDen, zeroForOne, b);
            large.Ok? ==> if small.Ok? then small.value <= large.value else small.error == NoLiquidity
  {
    hide TakeTurn, Walk, StepAt, GoodStep;
    FeePipsOk(feeNum, feeDen);
    if Quote(range, feeNum, feeDen, zeroForOne, b).Ok? {
      var pips := FeePips(feeNum, feeDen).value;
      StepAtIsGood(pips);
      EndsLess(range, zeroForOne, SwapOf(range, zeroForOne, pips), pips, a, b);
    }
  }

  /** For a <= m <= b, whenever the quotes for a and b succeed so does the one for m, and the
      output never decreases, across any number of crossings and either price formula. */
  lemma QuoteMonotone(range: Range, feeNum: int, feeDen: int, zeroForOne: bool, a: int, m: int, b: int)
    requires IsU256(a) && IsU256(b) && a <= m <= b
    ensures var low, mid, high := Quote(range, feeNum, feeDen, zeroForOne, a),
                                  Quote(range, feeNum, feeDen, zeroForOne, m),
                                  Quote(range, feeNum, feeDen, zeroForOne, b);
            low.Ok? && high.Ok? ==> mid.Ok? && low.value <= mid.value <= high.value
  {
    hide TakeTurn, Walk, StepAt, GoodStep;
    FeePipsOk(feeNum, feeDen);
    if Quote(range, feeNum, feeDen, zeroForOne, b).Ok? {
      var pips := FeePips(feeNum, feeDen).value;
      StepAtIsGood(pips);
      EndsLess(range, zeroForOne, SwapOf(range, zeroForOne, pips), pips, m, b);
      EndsLess(range, zeroForOne, SwapOf(range, zeroForOne, pips), pips, a, m);
    }
  }

  // ---------- Direction ----------

  /** Ticks as a pool builder delivers them. */
  predicate TicksSorted(ticks: seq<Tick>) {
    && (forall i :: 0 <= i < |ticks| ==> ValidTick(ticks[i].index))
    && (forall i, j :: 0 <= i < j < |ticks| ==> ticks[i].index < ticks[j].index)
  }

  function PriceAt(tick: int): int
    requires ValidTick(tick)
  {
    RatioInRange(tick);
    GetSqrtRatioAtTick(tick).value
  }

  /** The supplied price belongs to the supplied tick. */
  predicate PriceInTick(range: Range) {
    && ValidTick(range.tick)
    && PriceAt(range.tick) <= range.sqrtPrice
    && (range.tick < MAX_TICK ==> range.sqrtPrice <= PriceAt(range.tick + 1))
  }

  predicate Towards(zeroForOne: bool, from: int, to: int) {
    if zeroForOne then to <= from else from <= to
  }

  /** The next tick and the limit still lie in the direction of the swap. */
  predicate Ahead(swap: Swap, s: State) {
    && TicksSorted(swap.ticks)
    && Towards(swap.zeroForOne, s.sqrtPrice, swap.limit)
    && (if swap.zeroForOne then s.idx < |swap.ticks| else 0 <= s.idx)
    && (0 <= s.idx < |swap.ticks| ==> Towards(swap.zeroForOne, s.sqrtPrice, PriceAt(swap.ticks[s.idx].index)))
  }

  lemma TargetAhead(swap: Swap, s: State)
    requires Ahead(swap, s)
    ensures match Target(swap, s.idx)
            case Ok((target, crossing)) =>
              && Towards(swap.zeroForOne, s.sqrtPrice, target)
              && Towards(swap.zeroForOne, target, swap.limit)
              && (0 <= s.idx < |swap.ticks| ==> Towards(swap.zeroForOne, target, PriceAt(swap.ticks[s.idx].index)))
              && (crossing ==> 0 <= s.idx < |swap.ticks| && target == PriceAt(swap.ticks[s.idx].index))
            case Err(_) => false
  {
    hide RatioQ128;
    if 0 <= s.idx < |swap.ticks| { RatioInRange(swap.ticks[s.idx].index); }
  }

  /** One tick further on still lies ahead of the tick just crossed. */
  lemma CrossedTickBehind(swap: Swap, idx: int)
    requires TicksSorted(swap.ticks) && 0 <= idx < |swap.ticks|
    ensures var next := if swap.zeroForOne then idx - 1 else idx + 1;
            0 <= next < |swap.ticks| ==>
              Towards(swap.zeroForOne, PriceAt(swap.ticks[idx].index), PriceAt(swap.ticks[next].index))
  {
    hide GetSqrtRatioAtTick;
    var next := if swap.zeroForOne then idx - 1 else idx + 1;
    if 0 <= next < |swap.ticks| {
      RatioStrictlyIncreasing(swap.ticks[idx].index, swap.ticks[next].index);
    }
  }

  lemma TurnAhead(swap: Swap, pips: int, s: State, fuel: nat)
    requires SwapOk(swap) && GoodStep(swap.step, pips) && StateOk(s, fuel) && fuel > 0 && Ahead(swap, s)
    ensures match TakeTurn(swap, s)
            case Stop(s', leg) => LegAhead(swap, leg)
            case Next(s', leg) => LegAhead(swap, leg) && Ahead(swap, s')
            case _ => true
  {
    hide GetSqrtRatioAtTick;
    TargetAhead(swap, s);
    var (target, crossing) := Target(swap, s.idx).value;
    if LiquidityOk(s.liquidity) {
      TargetOk(swap, s.idx);
      var step := swap.step(s.sqrtPrice, target, s.liquidity, s.remaining).value;
      if crossing { CrossedTickBehind(swap, s.idx); }
      SettleAhead(swap, pips, s, target, crossing, step);
    }
  }

  lemma SettleAhead(swap: Swap, pips: int, s: State, target: int, crossing: bool, step: Step)
    requires Ahead(swap, s)
    requires SoundLeg(Leg(s.sqrtPrice, target, step), s.remaining, pips)
    requires Towards(swap.zeroForOne, s.sqrtPrice, target) && Towards(swap.zeroForOne, target, swap.limit)
    requires 0 <= s.idx < |swap.ticks| ==> Towards(swap.zeroForOne, target, PriceAt(swap.ticks[s.idx].index))
    requires crossing ==> 0 <= s.idx < |swap.ticks| && target == PriceAt(swap.ticks[s.idx].index)
    requires crossing ==>
      var next := if swap.zeroForOne then s.idx - 1 else s.idx + 1;
      0 <= next < |swap.ticks| ==> Towards(swap.zeroForOne, target, PriceAt(swap.ticks[next].index))
    ensures match Settle(swap, s, target, crossing, step)
            case Stop(s', leg) => LegAhead(swap, leg)
            case Next(s', leg) => LegAhead(swap, leg) && Ahead(swap, s')
            case _ => true
  {
    hide GetSqrtRatioAtTick, PriceAt;
  }

  /** A leg moves in the direction of the swap, up to its target, within the limit. */
  predicate LegAhead(swap: Swap, leg: Leg) {
    && Towards(swap.zeroForOne, leg.from, leg.step.next)
    && Towards(swap.zeroForOne, leg.step.next, leg.target)
    && Towards(swap.zeroForOne, leg.target, swap.limit)
  }

  lemma {:induction false} WalkAhead(swap: Swap, pips: int, s: State, fuel: nat)
    requires SwapOk(swap) && GoodStep(swap.step, pips) && StateOk(s, fuel) && Ahead(swap, s)
    ensures forall leg :: leg in Legs(swap, s, fuel) ==> LegAhead(swap, leg)
    decreases fuel
  {
    hide TakeTurn;
    if s.remaining > 0 && fuel > 0 {
      TurnAhead(swap, pips, s, fuel);
      TurnSound(swap, pips, s, fuel);
      match TakeTurn(swap, s)
      case Next(s', leg) => WalkAhead(swap, pips, s', fuel - 1);
      case _ =>
    }
  }

  /** The tick a walk starts towards lies in its direction. */
  predicate TickAhead(range: Range, zeroForOne: bool)
    requires TicksSorted(range.ticks)
  {
    var idx := StartIndex(range, zeroForOne);
    0 <= idx < |range.ticks| ==> Towards(zeroForOne, range.sqrtPrice, PriceAt(range.ticks[idx].index))
  }

  lemma FirstTarget(swap: Swap, s: State, fuel: nat)
    ensures var legs, aim := Legs(swap, s, fuel), Target(swap, s.idx);
            legs != [] ==> aim.Ok? && legs[0].from == s.sqrtPrice && legs[0].target == aim.value.0
  {
    hide Target;
  }

  /** If the first tick lies behind, the first leg is asked to walk backwards. */
  lemma FirstLegAstray(range: Range, zeroForOne: bool, pips: int, amountIn: int)
    requires Quotable(range, zeroForOne) && TicksSorted(range.ticks) && !TickAhead(range, zeroForOne)
    ensures var swap := SwapOf(range, zeroForOne, pips);
            var legs := Legs(swap, Start(range, zeroForOne, amountIn), MAX_STEPS);
            legs != [] ==> !LegAhead(swap, legs[0])
  {
    hide GetSqrtRatioAtTick, Legs;
    var swap, start := SwapOf(range, zeroForOne, pips), Start(range, zeroForOne, amountIn);
    RatioInRange(range.ticks[start.idx].index);
    FirstTarget(swap, start, MAX_STEPS);
  }

  /** On sorted ticks every step of the walk moves in the direction of the swap, passing
      neither its target nor the limit, exactly when the first tick lies ahead. */
  lemma QuoteDirection(range: Range, zeroForOne: bool, pips: int, amountIn: int)
    requires IsU256(amountIn) && PipsOk(pips) && Quotable(range, zeroForOne) && TicksSorted(range.ticks)
    ensures var swap := SwapOf(range, zeroForOne, pips);
            var legs := Legs(swap, Start(range, zeroForOne, amountIn), MAX_STEPS);
            (forall leg :: leg in legs ==> LegAhead(swap, leg)) <==> legs == [] || TickAhead(range, zeroForOne)
  {
    hide GetSqrtRatioAtTick, Legs, LegAhead, GoodStep, PriceAt;
    var swap, start := SwapOf(range, zeroForOne, pips), Start(range, zeroForOne, amountIn);
    if TickAhead(range, zeroForOne) {
      StepAtIsGood(pips);
      WalkAhead(swap, pips, start, MAX_STEPS);
    } else {
      FirstLegAstray(range, zeroForOne, pips, amountIn);
    }
  }

  /** For a quote that succeeds the first tick alone decides. */
  lemma QuotedDirection(range: Range, feeNum: int, feeDen: int, zeroForOne: bool, amountIn: int)
    requires IsU256(amountIn) && TicksSorted(range.ticks)
    ensures Quote(range, feeNum, feeDen, zeroForOne, amountIn).Ok? ==>
              && FeePips(feeNum, feeDen).Ok?
              && var swap := SwapOf(range, zeroForOne, FeePips(feeNum, feeDen).value);
              (forall leg :: leg in Legs(swap, Start(range, zeroForOne, amountIn), MAX_STEPS) ==> LegAhead(swap, leg))
              <==> TickAhead(range, zeroForOne)
  {
    hide Walk, Legs, LegAhead, TickAhead;
    if Quote(range, feeNum, feeDen, zeroForOne, amountIn).Ok? {
      FeePipsOk(feeNum, feeDen);
      QuoteConserves(range, feeNum, feeDen, zeroForOne, amountIn);
      QuoteDirection(range, zeroForOne, FeePips(feeNum, feeDen).value, amountIn);
    }
  }

  /** A price that belongs to its tick has the first tick ahead, whichever way it goes. */
  lemma PriceInTickIsAhead(range: Range, zeroForOne: bool)
    requires TicksSorted(range.ticks) && PriceInTick(range)
    ensures TickAhead(range, zeroForOne)
  {
    hide GetSqrtRatioAtTick;
    var above := FirstAbove(range.ticks, range.tick);
    if zeroForOne && above > 0 {
      RatioStrictlyIncreasing(range.ticks[above - 1].index, range.tick);
    }
    if !zeroForOne && above < |range.ticks| {
      RatioStrictlyIncreasing(range.tick + 1, range.ticks[above].index);
    }
  }
}
