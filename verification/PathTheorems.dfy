/** What a concentrated quote means, without its loop: the one path of swap steps through
    the ticks, each at the liquidity those ticks leave. */
module PathTheorems {
  import Arith
  import opened U256
  import opened SwapMath
  import opened TickMath
  import opened Concentrated
  import opened WalkTheorems

  // ---------- Positions and their liquidity ----------

  /** Net liquidity of the n lowest ticks. */
  function SumNets(ticks: seq<Tick>, n: nat): int
    requires n <= |ticks|
  {
    if n == 0 then 0 else SumNets(ticks, n - 1) + ticks[n - 1].net
  }

  /** Liquidity with the n lowest ticks at or below the price, given what the pool supplies
      for its own tick. */
  function LiquidityAt(range: Range, n: nat): int
    requires n <= |range.ticks|
  {
    range.liquidity + SumNets(range.ticks, n) - SumNets(range.ticks, FirstAbove(range.ticks, range.tick))
  }

  /** Index of the tick a walk meets next with n ticks at or below it. */
  function NextTick(zeroForOne: bool, n: int): int {
    if zeroForOne then n - 1 else n
  }

  function Beyond(zeroForOne: bool, n: int): int {
    if zeroForOne then n - 1 else n + 1
  }

  /** The next tick, if any, has a price. */
  predicate NextPriced(range: Range, zeroForOne: bool, n: nat) {
    var i := NextTick(zeroForOne, n);
    0 <= i < |range.ticks| ==> ValidTick(range.ticks[i].index)
  }

  /** Strictly before the last price a swap may reach. */
  predicate Inside(zeroForOne: bool, price: int) {
    if zeroForOne then price > MIN_SQRT_RATIO + 1 else price < MAX_SQRT_RATIO - 1
  }

  predicate TickInside(range: Range, zeroForOne: bool, n: nat)
    requires NextPriced(range, zeroForOne, n)
  {
    var i := NextTick(zeroForOne, n);
    0 <= i < |range.ticks| && Inside(zeroForOne, PriceAt(range.ticks[i].index))
  }

  /** The price of the next tick, or the last price a swap may reach. */
  function TargetFrom(range: Range, zeroForOne: bool, n: nat): int
    requires NextPriced(range, zeroForOne, n)
  {
    if TickInside(range, zeroForOne, n) then PriceAt(range.ticks[NextTick(zeroForOne, n)].index)
    else if zeroForOne then MIN_SQRT_RATIO + 1
    else MAX_SQRT_RATIO - 1
  }

  // ---------- Paths ----------

  /** The walk over the ticks of a range, by the given swap step. */
  function SwapBy(range: Range, zeroForOne: bool, stepper: Stepper): Swap {
    Swap(zeroForOne, Limit(zeroForOne), range.ticks, stepper)
  }

  /** A swap step from price to the next target, at the liquidity of position n. */
  predicate Takes(range: Range, zeroForOne: bool, stepper: Stepper, price: int, n: int, remaining: int, leg: Leg) {
    && 0 <= n <= |range.ticks|
    && NextPriced(range, zeroForOne, n)
    && leg.from == price
    && leg.target == TargetFrom(range, zeroForOne, n)
    && PriceOk(price) && LiquidityOk(LiquidityAt(range, n)) && IsU256(remaining)
    && stepper(price, leg.target, LiquidityAt(range, n), remaining) == Ok(leg.step)
  }

  /** The leg reaches its tick, and the liquidity beyond can be represented. */
  predicate Crosses(range: Range, zeroForOne: bool, n: int, leg: Leg)
    requires 0 <= n <= |range.ticks| && NextPriced(range, zeroForOne, n)
  {
    TickInside(range, zeroForOne, n) && leg.step.next == leg.target
  }

  predicate Crossable(range: Range, zeroForOne: bool, n: int, leg: Leg)
    requires 0 <= n <= |range.ticks| && NextPriced(range, zeroForOne, n)
  {
    Crosses(range, zeroForOne, n, leg) ==> 0 <= LiquidityAt(range, Beyond(zeroForOne, n)) < Q128
  }

  /** The legs run from price at position n, one tick after the other, while input remains. */
  predicate Path(range: Range, zeroForOne: bool, stepper: Stepper, legs: seq<Leg>, price: int, n: int, remaining: int)
    decreases |legs|
  {
    legs == [] ||
    (&& 0 < remaining
     && Takes(range, zeroForOne, stepper, price, n, remaining, legs[0])
     && Crossable(range, zeroForOne, n, legs[0])
     && (|legs| > 1 ==> Crosses(range, zeroForOne, n, legs[0]))
     && Path(range, zeroForOne, stepper, legs[1..], legs[0].step.next, Beyond(zeroForOne, n),
             remaining - legs[0].step.Consumed()))
  }

  // ---------- A turn takes the leg of its position ----------

  /** The state stands at position n, with the liquidity of that position. */
  predicate Placed(range: Range, zeroForOne: bool, s: State, n: int) {
    && 0 <= n <= |range.ticks|
    && s.idx == NextTick(zeroForOne, n)
    && s.liquidity == LiquidityAt(range, n)
  }

  lemma CrossingNet(range: Range, zeroForOne: bool, n: nat)
    requires n <= |range.ticks| && 0 <= NextTick(zeroForOne, n) < |range.ticks|
    ensures 0 <= Beyond(zeroForOne, n) <= |range.ticks|
    ensures var net := range.ticks[NextTick(zeroForOne, n)].net;
            LiquidityAt(range, Beyond(zeroForOne, n)) == LiquidityAt(range, n) + (if zeroForOne then -net else net)
  {
  }

  lemma TargetIs(range: Range, zeroForOne: bool, stepper: Stepper, n: nat)
    requires n <= |range.ticks|
    ensures Target(SwapBy(range, zeroForOne, stepper), NextTick(zeroForOne, n)) ==
            if NextPriced(range, zeroForOne, n) then
              Ok((TargetFrom(range, zeroForOne, n), TickInside(range, zeroForOne, n)))
            else Err(TickOutOfRange)
    ensures NextPriced(range, zeroForOne, n) ==> PriceOk(TargetFrom(range, zeroForOne, n))
  {
    var i := NextTick(zeroForOne, n);
    if 0 <= i < |range.ticks| && ValidTick(range.ticks[i].index) { RatioInRange(range.ticks[i].index); }
  }

  /** What a state owes to the leg it has taken. */
  predicate Moved(s: State, leg: Leg, s': State) {
    && s'.sqrtPrice == leg.step.next
    && s'.remaining == s.remaining - leg.step.Consumed()
    && s'.amountOut == s.amountOut + leg.step.amountOut
  }

  predicate TurnTaken(range: Range, zeroForOne: bool, stepper: Stepper, s: State, n: int, leg: Leg, s': State) {
    && Takes(range, zeroForOne, stepper, s.sqrtPrice, n, s.remaining, leg)
    && Crossable(range, zeroForOne, n, leg)
    && Moved(s, leg, s')
    && if Crosses(range, zeroForOne, n, leg) then
         Placed(range, zeroForOne, s', Beyond(zeroForOne, n)) && Inside(zeroForOne, s'.sqrtPrice)
       else Placed(range, zeroForOne, s', n)
  }

  /** A turn is the bookkeeping after the step to the target of its position. */
  lemma TurnIsSettled(range: Range, zeroForOne: bool, stepper: Stepper, pips: int, s: State, n: int)
    requires GoodStep(stepper, pips) && IsU256(s.remaining) && PriceOk(s.sqrtPrice) && Placed(range, zeroForOne, s, n)
    ensures var turn := TakeTurn(SwapBy(range, zeroForOne, stepper), s);
            if LiquidityOk(s.liquidity) && NextPriced(range, zeroForOne, n) then
              var target := TargetFrom(range, zeroForOne, n);
              var step := stepper(s.sqrtPrice, target, s.liquidity, s.remaining);
              && step.Ok? && SoundLeg(Leg(s.sqrtPrice, target, step.value), s.remaining, pips)
              && turn == Settle(SwapBy(range, zeroForOne, stepper), s, target, TickInside(range, zeroForOne, n), step.value)
            else turn.Fail?
  {
    hide LiquidityAt, TargetFrom, TickInside, NextPriced, Target, SoundLeg, Settle;
    TargetIs(range, zeroForOne, stepper, n);
    if LiquidityOk(s.liquidity) && NextPriced(range, zeroForOne, n) {
      assert StepInputs(s.sqrtPrice, TargetFrom(range, zeroForOne, n), s.liquidity, s.remaining, pips);
    }
  }

  /** The bookkeeping after a step that stays within its input. */
  lemma SettleCases(swap: Swap, s: State, target: int, crossing: bool, step: Step)
    requires crossing ==> 0 <= s.idx < |swap.ticks|
    requires 0 <= step.amountIn && 0 <= step.fee && step.Consumed() <= s.remaining && IsU256(s.remaining)
    requires 0 <= step.amountOut && 0 <= s.amountOut && s.amountOut + step.amountOut <= MAX_U256
    ensures var crossed := crossing && step.next == target;
            var net := if crossed then swap.ticks[s.idx].net else 0;
            var liquidity := s.liquidity + (if swap.zeroForOne then -net else net);
            match Settle(swap, s, target, crossing, step)
            case Fail(_) => crossed && !(0 <= liquidity < Q128)
            case Idle => step.Consumed() == 0 && !crossing && step.next == s.sqrtPrice
            case Stop(s', leg) =>
              && !crossed && leg == Leg(s.sqrtPrice, target, step) && Moved(s, leg, s')
              && s'.idx == s.idx && s'.liquidity == s.liquidity
            case Next(s', leg) =>
              && leg == Leg(s.sqrtPrice, target, step) && Moved(s, leg, s')
              && s'.liquidity == liquidity && (crossed ==> 0 <= liquidity < Q128)
              && s'.idx == (if !crossed then s.idx else if swap.zeroForOne then s.idx - 1 else s.idx + 1)
              && (crossed || (step.next != swap.limit && (crossing || s'.remaining == 0)))
  {
  }

  lemma SettleTakes(range: Range, zeroForOne: bool, stepper: Stepper, pips: int, s: State, n: int, fuel: nat, step: Step)
    requires StateOk(s, fuel) && 0 < fuel && 0 < s.remaining && LiquidityOk(s.liquidity)
    requires Placed(range, zeroForOne, s, n) && Inside(zeroForOne, s.sqrtPrice) && NextPriced(range, zeroForOne, n)
    requires stepper(s.sqrtPrice, TargetFrom(range, zeroForOne, n), s.liquidity, s.remaining) == Ok(step)
    requires SoundLeg(Leg(s.sqrtPrice, TargetFrom(range, zeroForOne, n), step), s.remaining, pips)
    ensures match Settle(SwapBy(range, zeroForOne, stepper), s, TargetFrom(range, zeroForOne, n), TickInside(range, zeroForOne, n), step)
            case Fail(error) => !Crossable(range, zeroForOne, n, Leg(s.sqrtPrice, TargetFrom(range, zeroForOne, n), step))
            case Idle => false
            case Stop(s', leg) => TurnTaken(range, zeroForOne, stepper, s, n, leg, s') && !Crosses(range, zeroForOne, n, leg)
            case Next(s', leg) =>
              && TurnTaken(range, zeroForOne, stepper, s, n, leg, s')
              && (Crosses(range, zeroForOne, n, leg) || s'.remaining == 0)
  {
    hide LiquidityAt, NextPriced, PriceAt, Settle;
    var target, crossing := TargetFrom(range, zeroForOne, n), TickInside(range, zeroForOne, n);
    SettleCases(SwapBy(range, zeroForOne, stepper), s, target, crossing, step);
    if crossing { CrossingNet(range, zeroForOne, n); }
  }

  /** A turn takes the one leg of its position, and fails when that is missing or ends beyond
      all liquidity. */
  lemma TurnTakes(range: Range, zeroForOne: bool, stepper: Stepper, pips: int, s: State, n: int, fuel: nat)
    requires GoodStep(stepper, pips) && StateOk(s, fuel) && 0 < fuel && 0 < s.remaining
    requires Placed(range, zeroForOne, s, n) && Inside(zeroForOne, s.sqrtPrice)
    ensures match TakeTurn(SwapBy(range, zeroForOne, stepper), s)
            case Fail(error) =>
              forall leg :: Takes(range, zeroForOne, stepper, s.sqrtPrice, n, s.remaining, leg) ==> !Crossable(range, zeroForOne, n, leg)
            case Idle => false
            case Stop(s', leg) => TurnTaken(range, zeroForOne, stepper, s, n, leg, s') && !Crosses(range, zeroForOne, n, leg)
            case Next(s', leg) =>
              && TurnTaken(range, zeroForOne, stepper, s, n, leg, s')
              && (Crosses(range, zeroForOne, n, leg) || s'.remaining == 0)
  {
    hide LiquidityAt, TargetFrom, TickInside, NextPriced, SoundLeg, Settle, TurnTaken, TakeTurn, Crossable, GoodStep;
    TurnIsSettled(range, zeroForOne, stepper, pips, s, n);
    if LiquidityOk(s.liquidity) && NextPriced(range, zeroForOne, n) {
      var step := stepper(s.sqrtPrice, TargetFrom(range, zeroForOne, n), s.liquidity, s.remaining).value;
      SettleTakes(range, zeroForOne, stepper, pips, s, n, fuel, step);
      assert forall leg :: Takes(range, zeroForOne, stepper, s.sqrtPrice, n, s.remaining, leg) ==>
        leg == Leg(s.sqrtPrice, TargetFrom(range, zeroForOne, n), step);
    }
  }

  lemma TakesUnique(range: Range, zeroForOne: bool, stepper: Stepper, price: int, n: int, remaining: int, a: Leg, b: Leg)
    requires Takes(range, zeroForOne, stepper, price, n, remaining, a) && Takes(range, zeroForOne, stepper, price, n, remaining, b)
    ensures a == b
  {
    hide LiquidityAt, TargetFrom, NextPriced;
  }

  // ---------- Walks are paths ----------

  /** Ticks at or below the price of a state whose next tick is idx. */
  function PositionOf(zeroForOne: bool, idx: int): int {
    if zeroForOne then idx + 1 else idx
  }

  lemma PathCons(range: Range, zeroForOne: bool, stepper: Stepper, leg: Leg, rest: seq<Leg>, price: int, n: int, remaining: int)
    requires 0 < remaining && Takes(range, zeroForOne, stepper, price, n, remaining, leg) && Crossable(range, zeroForOne, n, leg)
    requires rest != [] ==> Crosses(range, zeroForOne, n, leg)
    requires Path(range, zeroForOne, stepper, rest, leg.step.next, Beyond(zeroForOne, n), remaining - leg.step.Consumed())
    ensures Path(range, zeroForOne, stepper, [leg] + rest, price, n, remaining)
  {
    hide Takes, Crosses, Crossable;
    assert ([leg] + rest)[1..] == rest;
  }

  /** The legs of a walk are a path, and its last state has the liquidity of its position. */
  lemma {:induction false} WalkIsPath(range: Range, zeroForOne: bool, stepper: Stepper, pips: int, s: State, n: int, fuel: nat)
    requires StateOk(s, fuel) && GoodStep(stepper, pips)
    requires Placed(range, zeroForOne, s, n) && Inside(zeroForOne, s.sqrtPrice)
    ensures Path(range, zeroForOne, stepper, Legs(SwapBy(range, zeroForOne, stepper), s, fuel), s.sqrtPrice, n, s.remaining)
    ensures |Legs(SwapBy(range, zeroForOne, stepper), s, fuel)| <= fuel
    ensures var end := Walk(SwapBy(range, zeroForOne, stepper), s, fuel);
            end.Ok? ==> Placed(range, zeroForOne, end.value, PositionOf(zeroForOne, end.value.idx))
    decreases fuel
  {
    hide TakeTurn, GoodStep, Crosses, Crossable, Path, SoundLeg, TargetFrom, LiquidityAt, NextPriced;
    var swap := SwapBy(range, zeroForOne, stepper);
    if s.remaining > 0 && fuel > 0 {
      TurnSound(swap, pips, s, fuel);
      TurnTakes(range, zeroForOne, stepper, pips, s, n, fuel);
      match TakeTurn(swap, s)
      case Stop(s', leg) =>
        EmptyPath(range, zeroForOne, stepper, leg.step.next, Beyond(zeroForOne, n), s'.remaining);
        PathCons(range, zeroForOne, stepper, leg, [], s.sqrtPrice, n, s.remaining);
        assert [leg] + [] == [leg];
      case Next(s', leg) =>
        if Crosses(range, zeroForOne, n, leg) {
          WalkIsPath(range, zeroForOne, stepper, pips, s', Beyond(zeroForOne, n), fuel - 1);
        } else {
          EmptyPath(range, zeroForOne, stepper, leg.step.next, Beyond(zeroForOne, n), s'.remaining);
        }
        PathCons(range, zeroForOne, stepper, leg, Legs(swap, s', fuel - 1), s.sqrtPrice, n, s.remaining);
      case _ => EmptyPath(range, zeroForOne, stepper, s.sqrtPrice, n, s.remaining);
    } else {
      EmptyPath(range, zeroForOne, stepper, s.sqrtPrice, n, s.remaining);
    }
  }

  lemma EmptyPath(range: Range, zeroForOne: bool, stepper: Stepper, price: int, n: int, remaining: int)
    ensures Path(range, zeroForOne, stepper, [], price, n, remaining)
  {
  }

  /** A path that uses up the input is the walk. */
  lemma {:induction false} PathIsWalk(
    range: Range, zeroForOne: bool, stepper: Stepper, pips: int, legs: seq<Leg>, s: State, n: int, fuel: nat)
    requires StateOk(s, fuel) && GoodStep(stepper, pips)
    requires Placed(range, zeroForOne, s, n) && Inside(zeroForOne, s.sqrtPrice)
    requires Path(range, zeroForOne, stepper, legs, s.sqrtPrice, n, s.remaining)
    requires |legs| <= fuel && Spent(legs) == s.remaining
    ensures Legs(SwapBy(range, zeroForOne, stepper), s, fuel) == legs
    ensures var end := Walk(SwapBy(range, zeroForOne, stepper), s, fuel);
            end.Ok? && end.value.remaining == 0 && end.value.amountOut == s.amountOut + Bought(legs)
    decreases fuel
  {
    hide TakeTurn, GoodStep, Takes, Crosses, Crossable;
    var swap := SwapBy(range, zeroForOne, stepper);
    if legs != [] {
      TurnSound(swap, pips, s, fuel);
      TurnTakes(range, zeroForOne, stepper, pips, s, n, fuel);
      var turn := TakeTurn(swap, s);
      assert turn.Stop? || turn.Next?;
      TakesUnique(range, zeroForOne, stepper, s.sqrtPrice, n, s.remaining, turn.leg, legs[0]);
      assert legs == [legs[0]] + legs[1..];
      if turn.Next? && |legs| > 1 {
        PathIsWalk(range, zeroForOne, stepper, pips, legs[1..], turn.state, Beyond(zeroForOne, n), fuel - 1);
      } else if |legs| == 1 {
        assert legs[1..] == [];
        assert turn.state.remaining == 0;
      }
    }
  }

  // ---------- Quotes are paths ----------

  /** What a pool needs for any quote in the given direction. */
  predicate Startable(range: Range, zeroForOne: bool) {
    && MIN_SQRT_RATIO <= range.sqrtPrice <= MAX_SQRT_RATIO
    && 0 < range.liquidity < Q128
    && MIN_TICK <= range.tick <= MAX_TICK
    && Inside(zeroForOne, range.sqrtPrice)
  }

  /** The fee is a whole number of millionths below one, and this is it. */
  predicate FeeIs(feeNum: int, feeDen: int, pips: int) {
    && IsU256(feeNum) && PositiveU256(feeDen) && PipsOk(pips)
    && pips * feeDen == feeNum * MILLION
  }

  lemma FeePipsIs(feeNum: int, feeDen: int, pips: int)
    ensures FeePips(feeNum, feeDen) == Ok(pips) <==> FeeIs(feeNum, feeDen, pips)
  {
    if IsU256(feeNum) && PositiveU256(feeDen) {
      var scaled := feeNum * MILLION;
      Arith.DivBounds(scaled, feeDen);
      if pips * feeDen == scaled {
        Arith.FloorGalois(scaled, feeDen, pips);
        Arith.FloorGalois(scaled, feeDen, pips + 1);
      }
    }
  }

  /** At most 512 legs that start at the pool's price and tick, use up the input and buy
      something. */
  predicate WholePath(range: Range, zeroForOne: bool, stepper: Stepper, amountIn: int, legs: seq<Leg>) {
    && |legs| <= 512
    && Path(range, zeroForOne, stepper, legs, range.sqrtPrice, FirstAbove(range.ticks, range.tick), amountIn)
    && Spent(legs) == amountIn
    && 0 < Bought(legs)
  }

  lemma StartPlaced(range: Range, zeroForOne: bool, amountIn: int)
    requires Startable(range, zeroForOne)
    ensures Placed(range, zeroForOne, Start(range, zeroForOne, amountIn), FirstAbove(range.ticks, range.tick))
  {
  }

  lemma QuoteIsPath(range: Range, feeNum: int, feeDen: int, zeroForOne: bool, amountIn: int)
    requires IsU256(amountIn)
    ensures var quote, pips := Quote(range, feeNum, feeDen, zeroForOne, amountIn), FeePips(feeNum, feeDen);
            quote.Ok? ==>
              && Startable(range, zeroForOne) && pips.Ok?
              && var legs := Legs(SwapOf(range, zeroForOne, pips.value), Start(range, zeroForOne, amountIn), MAX_STEPS);
              WholePath(range, zeroForOne, StepAt(pips.value), amountIn, legs) && Bought(legs) == quote.value
  {
    hide TakeTurn, GoodStep, StepAt, Path, Spent, Bought;
    if Quote(range, feeNum, feeDen, zeroForOne, amountIn).Ok? {
      FeePipsOk(feeNum, feeDen);
      var pips := FeePips(feeNum, feeDen).value;
      StepAtIsGood(pips);
      StartPlaced(range, zeroForOne, amountIn);
      WalkIsPath(range, zeroForOne, StepAt(pips), pips, Start(range, zeroForOne, amountIn), FirstAbove(range.ticks, range.tick), MAX_STEPS);
      QuoteConserves(range, feeNum, feeDen, zeroForOne, amountIn);
    }
  }

  lemma PathIsEnd(range: Range, zeroForOne: bool, stepper: Stepper, pips: int, amountIn: int, legs: seq<Leg>)
    requires IsU256(amountIn) && Startable(range, zeroForOne) && GoodStep(stepper, pips)
    requires WholePath(range, zeroForOne, stepper, amountIn, legs)
    ensures var end := Walk(SwapBy(range, zeroForOne, stepper), Start(range, zeroForOne, amountIn), MAX_STEPS);
            end.Ok? && end.value.remaining == 0 && end.value.amountOut == Bought(legs)
  {
    hide TakeTurn, GoodStep, Path, Spent, Bought;
    StartPlaced(range, zeroForOne, amountIn);
    PathIsWalk(range, zeroForOne, stepper, pips, legs, Start(range, zeroForOne, amountIn), FirstAbove(range.ticks, range.tick), MAX_STEPS);
  }

  /** A quote succeeds exactly when the pool can start and some path uses up the input at
      the pool's fee; it is what that path buys. */
  lemma QuoteExactly(range: Range, feeNum: int, feeDen: int, zeroForOne: bool, amountIn: int, amountOut: int)
    requires IsU256(amountIn)
    ensures Quote(range, feeNum, feeDen, zeroForOne, amountIn) == Ok(amountOut) <==>
            && Startable(range, zeroForOne)
            && exists pips, legs ::
                 FeeIs(feeNum, feeDen, pips) && WholePath(range, zeroForOne, StepAt(pips), amountIn, legs) && Bought(legs) == amountOut
  {
    hide Walk, Legs, WholePath, FeeIs, FeePips, Bought, Spent, StepAt, GoodStep, FirstAbove;
    if Quote(range, feeNum, feeDen, zeroForOne, amountIn) == Ok(amountOut) {
      QuoteIsPath(range, feeNum, feeDen, zeroForOne, amountIn);
      FeePipsIs(feeNum, feeDen, FeePips(feeNum, feeDen).value);
    }
    forall pips, legs |
      Startable(range, zeroForOne) && FeeIs(feeNum, feeDen, pips) && WholePath(range, zeroForOne, StepAt(pips), amountIn, legs)
      ensures Quote(range, feeNum, feeDen, zeroForOne, amountIn) == Ok(Bought(legs))
    {
      FeePipsIs(feeNum, feeDen, pips);
      FeePipsOk(feeNum, feeDen);
      StepAtIsGood(pips);
      PathIsEnd(range, zeroForOne, StepAt(pips), pips, amountIn, legs);
      Buys(range, zeroForOne, StepAt(pips), amountIn, legs);
    }
  }

  lemma Buys(range: Range, zeroForOne: bool, stepper: Stepper, amountIn: int, legs: seq<Leg>)
    requires WholePath(range, zeroForOne, stepper, amountIn, legs)
    ensures 0 < Bought(legs)
  {
    hide Path;
  }

  // ---------- What a path says of its legs ----------

  function Steps(zeroForOne: bool, n: int, k: int): int {
    if zeroForOne then n - k else n + k
  }

  lemma {:induction false} LegTakes(
    range: Range, zeroForOne: bool, stepper: Stepper, legs: seq<Leg>, price: int, n: int, remaining: int, k: nat)
    requires Path(range, zeroForOne, stepper, legs, price, n, remaining) && k < |legs|
    ensures Takes(range, zeroForOne, stepper, if k == 0 then price else legs[k - 1].step.next,
                  Steps(zeroForOne, n, k), remaining - Spent(legs[..k]), legs[k])
    ensures k < |legs| - 1 ==> Crosses(range, zeroForOne, Steps(zeroForOne, n, k), legs[k])
    decreases k
  {
    hide Takes, Crosses, Crossable;
    if k > 0 {
      assert legs[..k][1..] == legs[1..][..k - 1];
      LegTakes(range, zeroForOne, stepper, legs[1..], legs[0].step.next, Beyond(zeroForOne, n),
               remaining - legs[0].step.Consumed(), k - 1);
    }
  }

  /** What a leg trades against: the liquidity of position n, for a target it does not pass. */
  predicate TradesAt(liquidity: int, leg: Leg) {
    var from, target, next := leg.from, leg.target, leg.step.next;
    && 0 < liquidity < Q128
    && 0 < from && 0 < target && 0 < next && (target <= next <= from || from <= next <= target)
    && leg.step.amountIn == Cost(from, target, next, liquidity)
    && leg.step.amountOut == Gain(from, target, next, liquidity)
  }

  /** A swap step that trades against the liquidity it is given. */
  ghost predicate TradingStep(stepper: Stepper, pips: int) {
    forall current, target, liquidity, remaining {:trigger stepper(current, target, liquidity, remaining)} ::
      StepInputs(current, target, liquidity, remaining, pips) && stepper(current, target, liquidity, remaining).Ok? ==>
        TradesAt(liquidity, Leg(current, target, stepper(current, target, liquidity, remaining).value))
  }

  /** The step of section 6.2.3 does. */
  lemma StepAtTrades(pips: int)
    requires PipsOk(pips)
    ensures TradingStep(StepAt(pips), pips)
  {
    hide ComputeSwapStep, TradesAt;
    forall current, target, liquidity, remaining |
      StepInputs(current, target, liquidity, remaining, pips) && StepAt(pips)(current, target, liquidity, remaining).Ok?
      ensures TradesAt(liquidity, Leg(current, target, StepAt(pips)(current, target, liquidity, remaining).value))
    {
      StepTrades(current, target, liquidity, remaining, pips);
    }
  }

  lemma StepTrades(current: int, target: int, liquidity: int, remaining: int, pips: int)
    requires StepInputs(current, target, liquidity, remaining, pips)
    ensures var step := ComputeSwapStep(current, target, liquidity, remaining, pips);
            step.Ok? && TradesAt(liquidity, Leg(current, target, step.value))
  {
    hide ComputeSwapStep, StepPrice, LessFee, Cost, Gain;
    StepSucceeds(current, target, liquidity, remaining, pips);
  }

  lemma TakesTrades(range: Range, zeroForOne: bool, stepper: Stepper, pips: int, price: int, n: int, remaining: int, leg: Leg)
    requires PipsOk(pips) && TradingStep(stepper, pips) && Takes(range, zeroForOne, stepper, price, n, remaining, leg)
    ensures TradesAt(LiquidityAt(range, n), leg)
  {
    hide LiquidityAt, TargetFrom, TradesAt;
    TargetIs(range, zeroForOne, stepper, n);
    assert StepInputs(price, leg.target, LiquidityAt(range, n), remaining, pips);
  }

  /** Leg k of a path has k ticks behind it. It trades against the liquidity the pool
      supplies, plus the nets of the ticks at or below its position, less those at or below
      the pool's tick; and every leg but the last ends at the price of its tick. */
  lemma PathLiquidity(range: Range, zeroForOne: bool, stepper: Stepper, pips: int, amountIn: int, legs: seq<Leg>, k: nat)
    requires PipsOk(pips) && TradingStep(stepper, pips)
    requires WholePath(range, zeroForOne, stepper, amountIn, legs) && k < |legs|
    ensures var ticks, above := range.ticks, FirstAbove(range.ticks, range.tick);
            var n := if zeroForOne then above - k else above + k;
            && 0 <= n <= |ticks|
            && TradesAt(range.liquidity + SumNets(ticks, n) - SumNets(ticks, above), legs[k])
            && (k < |legs| - 1 ==>
                  var i := if zeroForOne then n - 1 else n;
                  0 <= i < |ticks| && ValidTick(ticks[i].index) && legs[k].step.next == PriceAt(ticks[i].index))
  {
    hide Path, Spent, Bought, GetSqrtRatioAtTick, PriceAt, LiquidityAt, TargetFrom, TradesAt, Inside, TradingStep, Crosses;
    var above := FirstAbove(range.ticks, range.tick);
    var n, remaining := Steps(zeroForOne, above, k), amountIn - Spent(legs[..k]);
    LegTakes(range, zeroForOne, stepper, legs, range.sqrtPrice, above, amountIn, k);
    TakesTrades(range, zeroForOne, stepper, pips, legs[k].from, n, remaining, legs[k]);
    LiquidityIs(range, n);
    if k < |legs| - 1 { CrossedPrice(range, zeroForOne, n, legs[k]); }
  }

  lemma LiquidityIs(range: Range, n: nat)
    requires n <= |range.ticks|
    ensures LiquidityAt(range, n) == range.liquidity + SumNets(range.ticks, n) - SumNets(range.ticks, FirstAbove(range.ticks, range.tick))
  {
  }

  lemma CrossedPrice(range: Range, zeroForOne: bool, n: nat, leg: Leg)
    requires n <= |range.ticks| && NextPriced(range, zeroForOne, n) && leg.target == TargetFrom(range, zeroForOne, n)
    requires Crosses(range, zeroForOne, n, leg)
    ensures var i := NextTick(zeroForOne, n);
            0 <= i < |range.ticks| && ValidTick(range.ticks[i].index) && leg.step.next == PriceAt(range.ticks[i].index)
  {
    hide GetSqrtRatioAtTick;
  }

  // ---------- The position is the price's ----------

  /** The n lowest ticks lie at or below the price, and the others at or above it. */
  predicate Splits(range: Range, price: int, n: int)
    requires TicksSorted(range.ticks)
  {
    && 0 <= n <= |range.ticks|
    && (forall j :: 0 <= j < n ==> PriceAt(range.ticks[j].index) <= price)
    && (forall j :: n <= j < |range.ticks| ==> price <= PriceAt(range.ticks[j].index))
  }

  lemma PricesSorted(ticks: seq<Tick>, i: nat, j: nat)
    requires TicksSorted(ticks) && i <= j < |ticks|
    ensures PriceAt(ticks[i].index) <= PriceAt(ticks[j].index)
  {
    hide GetSqrtRatioAtTick;
    if i < j { RatioStrictlyIncreasing(ticks[i].index, ticks[j].index); }
  }

  lemma StartSplits(range: Range)
    requires TicksSorted(range.ticks) && PriceInTick(range)
    ensures Splits(range, range.sqrtPrice, FirstAbove(range.ticks, range.tick))
  {
    hide GetSqrtRatioAtTick;
    var above := FirstAbove(range.ticks, range.tick);
    forall j | 0 <= j < above ensures PriceAt(range.ticks[j].index) <= range.sqrtPrice {
      if range.ticks[j].index < range.tick { RatioStrictlyIncreasing(range.ticks[j].index, range.tick); }
    }
    forall j | above <= j < |range.ticks| ensures range.sqrtPrice <= PriceAt(range.ticks[j].index) {
      assert range.ticks[above].index <= range.ticks[j].index;
      if range.tick + 1 < range.ticks[j].index { RatioStrictlyIncreasing(range.tick + 1, range.ticks[j].index); }
    }
  }

  lemma TakesBetween(range: Range, zeroForOne: bool, stepper: Stepper, pips: int, price: int, n: int, remaining: int, leg: Leg)
    requires GoodStep(stepper, pips) && Takes(range, zeroForOne, stepper, price, n, remaining, leg)
    ensures leg.target <= leg.step.next <= price || price <= leg.step.next <= leg.target
  {
    hide LiquidityAt, TargetFrom;
    TargetIs(range, zeroForOne, stepper, n);
    assert StepInputs(price, leg.target, LiquidityAt(range, n), remaining, pips);
  }

  lemma LegSplits(range: Range, zeroForOne: bool, price: int, n: nat, leg: Leg)
    requires TicksSorted(range.ticks) && Splits(range, price, n)
    requires leg.target == TargetFrom(range, zeroForOne, n) && Inside(zeroForOne, price)
    requires leg.target <= leg.step.next <= price || price <= leg.step.next <= leg.target
    ensures Splits(range, leg.step.next, if Crosses(range, zeroForOne, n, leg) then Beyond(zeroForOne, n) else n)
  {
    hide GetSqrtRatioAtTick, PriceAt;
    var ticks, i := range.ticks, NextTick(zeroForOne, n);
    if 0 <= i < |ticks| {
      forall j | 0 <= j <= i ensures PriceAt(ticks[j].index) <= PriceAt(ticks[i].index) { PricesSorted(ticks, j, i); }
      forall j | i <= j < |ticks| ensures PriceAt(ticks[i].index) <= PriceAt(ticks[j].index) { PricesSorted(ticks, i, j); }
    }
  }

  lemma {:induction false} ReachedSplits(range: Range, zeroForOne: bool, stepper: Stepper, pips: int, s: State, n: int, fuel: nat)
    requires StateOk(s, fuel) && GoodStep(stepper, pips) && TicksSorted(range.ticks)
    requires Placed(range, zeroForOne, s, n) && Inside(zeroForOne, s.sqrtPrice) && Splits(range, s.sqrtPrice, n)
    ensures var end := Walk(SwapBy(range, zeroForOne, stepper), s, fuel);
            end.Ok? ==> Splits(range, end.value.sqrtPrice, PositionOf(zeroForOne, end.value.idx))
    decreases fuel
  {
    hide TakeTurn, GoodStep, Crosses, Crossable, SoundLeg, TargetFrom, LiquidityAt, NextPriced, Splits;
    var swap := SwapBy(range, zeroForOne, stepper);
    if s.remaining > 0 && fuel > 0 {
      TurnSound(swap, pips, s, fuel);
      TurnTakes(range, zeroForOne, stepper, pips, s, n, fuel);
      match TakeTurn(swap, s)
      case Stop(s', leg) =>
        TakesBetween(range, zeroForOne, stepper, pips, s.sqrtPrice, n, s.remaining, leg);
        LegSplits(range, zeroForOne, s.sqrtPrice, n, leg);
      case Next(s', leg) =>
        TakesBetween(range, zeroForOne, stepper, pips, s.sqrtPrice, n, s.remaining, leg);
        LegSplits(range, zeroForOne, s.sqrtPrice, n, leg);
        if Crosses(range, zeroForOne, n, leg) {
          ReachedSplits(range, zeroForOne, stepper, pips, s', Beyond(zeroForOne, n), fuel - 1);
        }
      case _ =>
    }
  }

  /** Every state a walk reaches, after any number of turns, has the liquidity of its
      position; and on sorted ticks, from a price that belongs to its tick, that position
      parts the ticks at or below the price from those at or above it. */
  lemma ReachedLiquidity(range: Range, zeroForOne: bool, pips: int, amountIn: int, fuel: nat)
    requires PipsOk(pips) && IsU256(amountIn) && Startable(range, zeroForOne) && fuel <= MAX_STEPS
    ensures var end := Walk(SwapOf(range, zeroForOne, pips), Start(range, zeroForOne, amountIn), fuel);
            end.Ok? ==>
              var ticks, n := range.ticks, PositionOf(zeroForOne, end.value.idx);
              && 0 <= n <= |ticks|
              && end.value.liquidity == range.liquidity + SumNets(ticks, n) - SumNets(ticks, FirstAbove(ticks, range.tick))
              && (TicksSorted(ticks) && PriceInTick(range) ==> Splits(range, end.value.sqrtPrice, n))
  {
    hide Walk, GoodStep, StepAt, GetSqrtRatioAtTick, Splits, PriceInTick, SumNets;
    var start, above := Start(range, zeroForOne, amountIn), FirstAbove(range.ticks, range.tick);
    StepAtIsGood(pips);
    StartPlaced(range, zeroForOne, amountIn);
    WalkIsPath(range, zeroForOne, StepAt(pips), pips, start, above, fuel);
    if TicksSorted(range.ticks) && PriceInTick(range) {
      StartSplits(range);
      ReachedSplits(range, zeroForOne, StepAt(pips), pips, start, above, fuel);
    }
  }
}
