/** The input of a buy order, by binary search over the best route. */
module BuyInput {
  import opened Arith
  import opened U256
  import opened Options
  import opened Pools
  import opened Contexts
  import opened Routes
  import opened RouteSearch

  const MAX_ROUNDS: nat := 256

  datatype Purchase = Purchase(input: int, route: Route)

  /** The best route for this input buys at least what is wanted. */
  predicate Enough(g: Graph, sell: Token, buy: Token, want: int, input: int)
    requires g.Valid()
  {
    var route := BestRoute(g, sell, buy, input);
    route.Some? && route.value.out >= want
  }

  /** The input found after at most fuel further rounds on lo..hi. */
  function Bisect(g: Graph, sell: Token, buy: Token, want: int, lo: int, hi: int, bestIn: int, fuel: nat): int
    requires g.Valid()
    decreases fuel, lo
  {
    if fuel == 0 || lo > hi then bestIn
    else
      var mid := (lo + hi) / 2;
      if Enough(g, sell, buy, want, mid) then Bisect(g, sell, buy, want, lo, mid - 1, mid, fuel - 1)
      else Bisect(g, sell, buy, want, mid + 1, hi, bestIn, fuel - 1)
  }

  /** What an uncancelled search returns. */
  function MinInput(g: Graph, sell: Token, buy: Token, want: int, maxIn: int): Option<Purchase>
    requires g.Valid()
  {
    if !Enough(g, sell, buy, want, maxIn) then None
    else
      var input := Bisect(g, sell, buy, want, 1, maxIn, maxIn, MAX_ROUNDS);
      var route :- BestRoute(g, sell, buy, input);
      Some(Purchase(input, route))
  }

  method MinInputFor(ctx: Context, g: Graph, sell: Token, buy: Token, want: int, maxIn: int)
    returns (r: Option<Purchase>, cancelled: bool)
    requires g.Valid()
    modifies ctx
    ensures cancelled <==> ctx.Fired()
    ensures !cancelled ==> r == MinInput(g, sell, buy, want, maxIn)
  {
    hide BestRoute;
    var full;
    full, cancelled := BestRouteContext(ctx, g, sell, buy, maxIn);
    if cancelled {
      return None, true;
    }
    if full.None? || full.value.out < want {
      return None, false;
    }
    var lo, hi := 1, maxIn;
    var bestIn, bestRoute := maxIn, full.value;
    var i := 0;
    while i < MAX_ROUNDS && lo <= hi
      invariant i <= MAX_ROUNDS && !ctx.Fired()
      invariant BestRoute(g, sell, buy, bestIn) == Some(bestRoute)
      invariant Bisect(g, sell, buy, want, lo, hi, bestIn, MAX_ROUNDS - i) == Bisect(g, sell, buy, want, 1, maxIn, maxIn, MAX_ROUNDS)
      decreases MAX_ROUNDS - i
    {
      cancelled := ctx.Cancelled();
      if cancelled {
        return None, true;
      }
      var mid := (lo + hi) / 2;
      var route;
      route, cancelled := BestRouteContext(ctx, g, sell, buy, mid);
      if cancelled {
        return None, true;
      }
      if route.Some? && route.value.out >= want {
        bestIn, bestRoute := mid, route.value;
        hi := mid - 1;
      } else {
        lo := mid + 1;
      }
      i := i + 1;
    }
    return Some(Purchase(bestIn, bestRoute)), false;
  }

  /** 2^k - 1 candidates are exhausted in k rounds, leaving an input that is enough and whose
      predecessor is not. */
  lemma {:induction false} BisectFinds(
    g: Graph, sell: Token, buy: Token, want: int, lo: int, hi: int, bestIn: int, maxIn: int, fuel: nat)
    requires g.Valid() && 1 <= lo <= hi + 1 && 1 <= bestIn <= maxIn && Enough(g, sell, buy, want, bestIn)
    requires bestIn == hi + 1 || bestIn == hi
    requires bestIn == hi ==> hi == maxIn
    requires lo == 1 || !Enough(g, sell, buy, want, lo - 1)
    requires hi - lo + 1 < Pow2(fuel)
    ensures var input := Bisect(g, sell, buy, want, lo, hi, bestIn, fuel);
            && 1 <= input <= maxIn
            && Enough(g, sell, buy, want, input)
            && (input == 1 || !Enough(g, sell, buy, want, input - 1))
    decreases fuel
  {
    hide Enough;
    if lo <= hi {
      var mid := (lo + hi) / 2;
      if Enough(g, sell, buy, want, mid) {
        BisectFinds(g, sell, buy, want, lo, mid - 1, mid, maxIn, fuel - 1);
      } else {
        BisectFinds(g, sell, buy, want, mid + 1, hi, bestIn, maxIn, fuel - 1);
      }
    }
  }

  /** Beyond uint256, and below one unit, nothing is quoted. */
  lemma NoRouteOutOfRange(g: Graph, sell: Token, buy: Token, amountIn: int)
    requires g.Valid() && !(0 < amountIn <= MAX_U256)
    ensures BestRoute(g, sell, buy, amountIn).None?
  {
    hide Pool.AllTokens;
    if sell != buy && amountIn > 0 {
      NoDirect(g, sell, buy, amountIn, |g.PoolsFor(sell)|);
      NoMid(g, sell, buy, amountIn, |g.intermediates|);
      assert Candidates(g, sell, buy, amountIn) == [];
    }
  }

  lemma NoQuote(pool: Pool, tokenIn: Token, tokenOut: Token, amountIn: int)
    requires !IsU256(amountIn)
    ensures pool.QuoteExactInPair(tokenIn, tokenOut, amountIn) == Err(InvalidInput)
  {
    hide Pool.AllTokens;
  }

  lemma NoHop(pool: Pool, sell: Token, buy: Token, amountIn: int)
    requires !IsU256(amountIn)
    ensures Direct(pool, sell, buy, amountIn).None? && FirstHop(pool, sell, buy, amountIn).None?
  {
    hide Pool.AllTokens, Pool.QuoteExactInPair;
    NoQuote(pool, sell, buy, amountIn);
  }

  lemma {:induction false} NoDirect(g: Graph, sell: Token, buy: Token, amountIn: int, n: nat)
    requires g.Valid() && n <= |g.PoolsFor(sell)| && !IsU256(amountIn)
    ensures DirectList(g, sell, buy, amountIn, n) == []
  {
    hide Direct, Graph.PoolsFor;
    if n > 0 {
      NoDirect(g, sell, buy, amountIn, n - 1);
      NoHop(g.pools[g.PoolsFor(sell)[n - 1]], sell, buy, amountIn);
    }
  }

  lemma {:induction false} NoFirst(g: Graph, sell: Token, mid: Token, buy: Token, amountIn: int, n: nat)
    requires g.Valid() && n <= |g.PoolsFor(sell)| && !IsU256(amountIn)
    ensures FirstList(g, sell, mid, buy, amountIn, n) == []
  {
    hide FirstHop, SecondList, Graph.PoolsFor;
    if n > 0 {
      NoFirst(g, sell, mid, buy, amountIn, n - 1);
      NoHop(g.pools[g.PoolsFor(sell)[n - 1]], sell, mid, amountIn);
    }
  }

  lemma {:induction false} NoMid(g: Graph, sell: Token, buy: Token, amountIn: int, n: nat)
    requires g.Valid() && n <= |g.intermediates| && !IsU256(amountIn)
    ensures MidList(g, sell, buy, amountIn, n) == []
  {
    hide Pool.AllTokens;
    if n > 0 {
      NoMid(g, sell, buy, amountIn, n - 1);
      NoFirst(g, sell, g.intermediates[n - 1], buy, amountIn, |g.PoolsFor(sell)|);
    }
  }

  /** The search finds an input exactly when the whole budget is enough; that input lies in
      1..maxIn, is enough, and one unit less is not. The 256 rounds always suffice, since a
      budget beyond uint256 is never enough. */
  lemma MinInputFeasible(g: Graph, sell: Token, buy: Token, want: int, maxIn: int)
    requires g.Valid()
    ensures MinInput(g, sell, buy, want, maxIn).Some? <==> Enough(g, sell, buy, want, maxIn)
    ensures match MinInput(g, sell, buy, want, maxIn)
            case None => true
            case Some(p) =>
              && 1 <= p.input <= maxIn
              && BestRoute(g, sell, buy, p.input) == Some(p.route) && p.route.out >= want
              && (p.input == 1 || !Enough(g, sell, buy, want, p.input - 1))
  {
    hide BestRoute;
    if Enough(g, sell, buy, want, maxIn) {
      if !(0 < maxIn <= MAX_U256) {
        NoRouteOutOfRange(g, sell, buy, maxIn);
      } else {
        var k := Exponent256();
        BisectFinds(g, sell, buy, want, 1, maxIn, maxIn, maxIn, k);
      }
    }
  }
}
