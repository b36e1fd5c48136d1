/** Which side of a pool a token pair trades: every kind of curve, stated by the tokens. */
module PoolTheorems {
  import opened U256
  import opened Ordering
  import opened Pools
  import opened PoolBuilding
  import opened WalkTheorems
  import opened PathTheorems
  import SwapMath
  import Concentrated
  import ConstantProduct
  import StableMath

  /** The two tokens of the pool, in either order; an empty address names none. */
  predicate Pairs(p: Pool, tokenIn: Token, tokenOut: Token) {
    && tokenIn != tokenOut && tokenIn != "" && tokenOut != ""
    && ((tokenIn == p.tokenA && tokenOut == p.tokenB) || (tokenIn == p.tokenB && tokenOut == p.tokenA))
  }

  lemma PairsAreSupported(p: Pool, tokenIn: Token, tokenOut: Token)
    requires !p.curve.Stable?
    ensures p.Supports(tokenIn, tokenOut) <==> Pairs(p, tokenIn, tokenOut)
  {
  }

  // ---------- Constant product ----------

  /** The reserve on the side of a token. */
  function ReserveAt(p: Pool, token: Token): int
    requires p.curve.Product?
  {
    if token == p.tokenA then p.curve.reserveA else p.curve.reserveB
  }

  /** A constant-product pool pays from the reserve of the bought token for an input that
      joins the reserve of the sold one. */
  lemma ProductPairExactly(p: Pool, tokenIn: Token, tokenOut: Token, amountIn: int, amountOut: int)
    requires p.curve.Product? && WellFormedPool(p)
    ensures p.QuoteExactInPair(tokenIn, tokenOut, amountIn) == Ok(amountOut) <==>
            && Pairs(p, tokenIn, tokenOut)
            && 0 < amountIn <= MAX_U256
            && var reserveIn, reserveOut := ReserveAt(p, tokenIn), ReserveAt(p, tokenOut);
            && ConstantProduct.NoOverflow(reserveIn, reserveOut, p.feeNum, p.feeDen, amountIn)
            && 0 < amountOut == ConstantProduct.Output(reserveIn, reserveOut, p.feeNum, p.feeDen, amountIn)
  {
    hide ConstantProduct.Quote, ConstantProduct.Output, ConstantProduct.NoOverflow, Before;
    PairsAreSupported(p, tokenIn, tokenOut);
    if Pairs(p, tokenIn, tokenOut) && 0 < amountIn <= MAX_U256 {
      ConstantProduct.QuoteExactly(ReserveAt(p, tokenIn), ReserveAt(p, tokenOut), p.feeNum, p.feeDen, amountIn);
    }
  }

  // ---------- Concentrated ----------

  /** Selling the smaller address is selling token 0. */
  lemma SellsToken0(p: Pool, tokenIn: Token, tokenOut: Token)
    requires Pairs(p, tokenIn, tokenOut)
    ensures tokenIn == p.Token0() <==> Before(tokenIn, tokenOut)
  {
    hide Before;
    BeforeTotal(tokenIn, tokenOut);
    BeforeAsymmetric(tokenIn, tokenOut);
  }

  /** A concentrated pool pays what a path of swap steps buys: down from the pool's price when
      the sold address is the smaller one, and up otherwise. */
  lemma RangedPairExactly(p: Pool, tokenIn: Token, tokenOut: Token, amountIn: int, amountOut: int)
    requires p.curve.Ranged?
    ensures p.QuoteExactInPair(tokenIn, tokenOut, amountIn) == Ok(amountOut) <==>
            && Pairs(p, tokenIn, tokenOut)
            && 0 < amountIn <= MAX_U256
            && var range, down := p.curve.range, Before(tokenIn, tokenOut);
            && Startable(range, down)
            && exists pips, legs ::
                 && FeeIs(p.feeNum, p.feeDen, pips)
                 && WholePath(range, down, Concentrated.StepAt(pips), amountIn, legs)
                 && Bought(legs) == amountOut
  {
    hide Before, Concentrated.Quote, WholePath, FeeIs, Bought, Startable, Pool.Token0;
    PairsAreSupported(p, tokenIn, tokenOut);
    if Pairs(p, tokenIn, tokenOut) && 0 < amountIn <= MAX_U256 {
      SellsToken0(p, tokenIn, tokenOut);
      QuoteExactly(p.curve.range, p.feeNum, p.feeDen, Before(tokenIn, tokenOut), amountIn, amountOut);
    }
  }

  /** Every leg moves the price the given way, and only moves it that way. */
  predicate AllMove(down: bool, legs: seq<Concentrated.Leg>) {
    forall i :: 0 <= i < |legs| ==> if down then legs[i].step.next <= legs[i].from else legs[i].from <= legs[i].step.next
  }

  /** On sorted ticks, from a price within its tick, a quote is the total bought by joined
      legs at the pool's own fee. They all move the price down when the smaller address is
      sold, and all move it up otherwise. */
  lemma RangedPairDirection(p: Pool, tokenIn: Token, tokenOut: Token, amountIn: int)
    requires p.curve.Ranged? && TicksSorted(p.curve.range.ticks) && PriceInTick(p.curve.range)
    ensures var quote := p.QuoteExactInPair(tokenIn, tokenOut, amountIn);
            quote.Ok? ==>
              exists pips, legs ::
                && FeeIs(p.feeNum, p.feeDen, pips)
                && Spent(legs) == amountIn && Bought(legs) == quote.value
                && Fees(legs) * 1_000_000 >= amountIn * pips
                && Connected(legs, p.curve.range.sqrtPrice) && OnlyLastStopsShort(legs)
                && AllMove(Before(tokenIn, tokenOut), legs)
  {
    hide Before, Concentrated.Quote, FeeIs, Bought, Spent, Fees, Connected, OnlyLastStopsShort, PriceInTick, Concentrated.Legs,
      Concentrated.FeePips, TickAhead;
    var range, down := p.curve.range, Before(tokenIn, tokenOut);
    PairsAreSupported(p, tokenIn, tokenOut);
    if p.QuoteExactInPair(tokenIn, tokenOut, amountIn).Ok? {
      SellsToken0(p, tokenIn, tokenOut);
      QuoteConserves(range, p.feeNum, p.feeDen, down, amountIn);
      QuotedDirection(range, p.feeNum, p.feeDen, down, amountIn);
      PriceInTickIsAhead(range, down);
      var pips := Concentrated.FeePips(p.feeNum, p.feeDen).value;
      FeePipsIs(p.feeNum, p.feeDen, pips);
      var swap := SwapOf(range, down, pips);
      var legs := Concentrated.Legs(swap, Concentrated.Start(range, down, amountIn), Concentrated.MAX_STEPS);
      forall i | 0 <= i < |legs|
        ensures if down then legs[i].step.next <= legs[i].from else legs[i].from <= legs[i].step.next
      {
        assert legs[i] in legs;
        assert LegAhead(swap, legs[i]);
      }
    }
  }

  // ---------- Stable ----------

  lemma {:induction false} LastIndexIs(tokens: seq<Token>, token: Token, k: int)
    requires Distinct(tokens)
    ensures 0 <= k < |tokens| && tokens[k] == token ==> LastIndex(tokens, token) == k
    ensures token !in tokens ==> LastIndex(tokens, token) == -1
  {
    if tokens != [] && tokens[|tokens| - 1] != token {
      LastIndexIs(tokens[..|tokens| - 1], token, k);
    }
  }

  predicate IndexedAt(tokens: seq<Token>, i: int, token: Token) {
    0 <= i < |tokens| && tokens[i] == token
  }

  /** A stable pool trades between the indices of the two addresses in its token list. */
  lemma StablePairExactly(p: Pool, tokenIn: Token, tokenOut: Token, amountIn: int)
    requires p.curve.Stable? && WellFormedPool(p)
    ensures tokenIn !in p.curve.tokens || tokenOut !in p.curve.tokens || tokenIn == tokenOut ==>
              p.QuoteExactInPair(tokenIn, tokenOut, amountIn).Err?
    ensures forall i, j :: IndexedAt(p.curve.tokens, i, tokenIn) && IndexedAt(p.curve.tokens, j, tokenOut) && i != j && PositiveU256(amountIn) ==>
              p.QuoteExactInPair(tokenIn, tokenOut, amountIn)
              == StableMath.Quote(p.curve.basket, |p.curve.tokens|, p.feeNum, p.feeDen, i, j, amountIn)
  {
    hide StableMath.Quote, Before;
    StringsOrdered();
    var tokens := p.curve.tokens;
    forall i, j | IndexedAt(tokens, i, tokenIn) && IndexedAt(tokens, j, tokenOut) && i != j
      ensures tokenIn != tokenOut && LastIndex(tokens, tokenIn) == i && LastIndex(tokens, tokenOut) == j
    {
      LastIndexIs(tokens, tokenIn, i);
      LastIndexIs(tokens, tokenOut, j);
    }
  }
}
