/** The route search itself: nested loops that keep the best route so far and poll the
    context between quotes. */
module RouteSearch {
  import opened Options
  import opened Pools
  import opened Contexts
  import opened Routes

  lemma AppendListed(done: seq<Route>, rest: seq<Route>, next: Option<Route>)
    ensures Best(done + (rest + Listed(next))) == Better(Best(done + rest), next)
  {
    if next.None? {
      assert done + (rest + []) == done + rest;
    } else {
      assert done + (rest + [next.value]) == (done + rest) + [next.value];
      BestAppend(done + rest, next.value);
    }
  }

  lemma NoneYet()
    ensures Best([]) == None
  {
  }

  method SearchDirect(ctx: Context, g: Graph, sell: Token, buy: Token, amountIn: int)
    returns (best: Option<Route>, cancelled: bool)
    requires g.Valid() && !ctx.Fired()
    modifies ctx
    ensures cancelled <==> ctx.Fired()
    ensures !cancelled ==> best == Best(AllDirect(g, sell, buy, amountIn))
  {
    hide Pool.QuoteExactInPair, Best, Beats;
    best := None;
    var pools := g.PoolsFor(sell);
    NoneYet();
    for k := 0 to |pools|
      invariant !ctx.Fired()
      invariant best == Best(DirectList(g, sell, buy, amountIn, k))
    {
      cancelled := ctx.Cancelled();
      if cancelled {
        return None, true;
      }
      var pool := g.pools[pools[k]];
      ghost var before := DirectList(g, sell, buy, amountIn, k);
      AppendListed([], before, Direct(pool, sell, buy, amountIn));
      assert [] + before == before && [] + (before + Listed(Direct(pool, sell, buy, amountIn))) == DirectList(g, sell, buy, amountIn, k + 1);
      if !pool.Supports(sell, buy) {
        continue;
      }
      var out := pool.ComputeQuoteExactInPair(sell, buy, amountIn);
      if out.Err? {
        continue;
      }
      cancelled := ctx.Cancelled();
      if cancelled {
        return None, true;
      }
      best := ComputeBetter(best, Some(Route([Hop(pool, sell, buy, amountIn, out.value)], out.value, pool.gasEstimate)));
    }
    return best, false;
  }

  /** All second hops after one first hop, on top of the routes already considered. */
  method SearchSecond(
    ctx: Context, g: Graph, i: nat, sell: Token, mid: Token, buy: Token, amountIn: int, midAmount: int,
    start: Option<Route>, ghost done: seq<Route>)
    returns (best: Option<Route>, cancelled: bool)
    requires g.Valid() && i < |g.pools| && !ctx.Fired() && start == Best(done)
    modifies ctx
    ensures cancelled <==> ctx.Fired()
    ensures !cancelled ==> best == Best(done + SecondList(g, i, sell, mid, buy, amountIn, midAmount, |g.PoolsFor(mid)|))
  {
    hide Pool.QuoteExactInPair, Best, Beats;
    best := start;
    var pools := g.PoolsFor(mid);
    assert done + [] == done;
    for k := 0 to |pools|
      invariant !ctx.Fired()
      invariant best == Best(done + SecondList(g, i, sell, mid, buy, amountIn, midAmount, k))
    {
      cancelled := ctx.Cancelled();
      if cancelled {
        return None, true;
      }
      var j := pools[k];
      var first, second := g.pools[i], g.pools[j];
      ghost var before := SecondList(g, i, sell, mid, buy, amountIn, midAmount, k);
      ghost var next := if j == i then None else SecondHop(first, second, sell, mid, buy, amountIn, midAmount);
      AppendListed(done, before, next);
      assert SecondList(g, i, sell, mid, buy, amountIn, midAmount, k + 1) == before + Listed(next);
      if j == i || !second.Supports(mid, buy) {
        continue;
      }
      var out := second.ComputeQuoteExactInPair(mid, buy, midAmount);
      if out.Err? {
        continue;
      }
      cancelled := ctx.Cancelled();
      if cancelled {
        return None, true;
      }
      var gas := ComputeSumGas([first.gasEstimate, second.gasEstimate]);
      if gas.None? {
        continue;
      }
      best := ComputeBetter(best, Some(Route(
        [Hop(first, sell, mid, amountIn, midAmount), Hop(second, mid, buy, midAmount, out.value)], out.value, gas.value)));
    }
    return best, false;
  }

  /** All routes through one middle token. */
  method SearchThrough(
    ctx: Context, g: Graph, sell: Token, mid: Token, buy: Token, amountIn: int, start: Option<Route>, ghost done: seq<Route>)
    returns (best: Option<Route>, cancelled: bool)
    requires g.Valid() && !ctx.Fired() && start == Best(done)
    modifies ctx
    ensures cancelled <==> ctx.Fired()
    ensures !cancelled ==> best == Best(done + FirstList(g, sell, mid, buy, amountIn, |g.PoolsFor(sell)|))
  {
    hide Pool.QuoteExactInPair, Pool.AllTokens, Best, Beats, SecondList, Graph.PoolsFor;
    best := start;
    var pools := g.PoolsFor(sell);
    assert done + [] == done;
    for k := 0 to |pools|
      invariant !ctx.Fired()
      invariant best == Best(done + FirstList(g, sell, mid, buy, amountIn, k))
    {
      cancelled := ctx.Cancelled();
      if cancelled {
        return None, true;
      }
      var i := pools[k];
      ghost var before := FirstList(g, sell, mid, buy, amountIn, k);
      if !g.pools[i].Supports(sell, mid) {
        assert before + [] == before;
        continue;
      }
      var midAmount := g.pools[i].ComputeQuoteExactInPair(sell, mid, amountIn);
      if midAmount.Err? {
        assert before + [] == before;
        continue;
      }
      ghost var rest := SecondList(g, i, sell, mid, buy, amountIn, midAmount.value, |g.PoolsFor(mid)|);
      assert (done + before) + rest == done + (before + rest);
      best, cancelled := SearchSecond(ctx, g, i, sell, mid, buy, amountIn, midAmount.value, best, done + before);
      if cancelled {
        return None, true;
      }
    }
    return best, false;
  }

  /** The search: cancelled exactly when one of its polls found the context cancelled, and
      otherwise the best of all candidates. */
  method BestRouteContext(ctx: Context, g: Graph, sell: Token, buy: Token, amountIn: int)
    returns (best: Option<Route>, cancelled: bool)
    requires g.Valid()
    modifies ctx
    ensures cancelled <==> ctx.Fired()
    ensures !cancelled ==> best == BestRoute(g, sell, buy, amountIn)
  {
    hide Pool.QuoteExactInPair, Best, FirstList, DirectList;
    cancelled := ctx.Cancelled();
    if cancelled {
      return None, true;
    }
    if sell == buy || amountIn <= 0 {
      return None, false;
    }
    best, cancelled := SearchDirect(ctx, g, sell, buy, amountIn);
    if cancelled {
      return None, true;
    }
    ghost var direct := AllDirect(g, sell, buy, amountIn);
    assert direct + [] == direct;
    for m := 0 to |g.intermediates|
      invariant !ctx.Fired()
      invariant best == Best(direct + MidList(g, sell, buy, amountIn, m))
    {
      cancelled := ctx.Cancelled();
      if cancelled {
        return None, true;
      }
      var mid := g.intermediates[m];
      ghost var before := MidList(g, sell, buy, amountIn, m);
      if mid == sell || mid == buy {
        assert before + [] == before;
        continue;
      }
      ghost var through := FirstList(g, sell, mid, buy, amountIn, |g.PoolsFor(sell)|);
      assert (direct + before) + through == direct + (before + through);
      best, cancelled := SearchThrough(ctx, g, sell, mid, buy, amountIn, best, direct + before);
      if cancelled {
        return None, true;
      }
    }
    cancelled := ctx.Cancelled();
    if cancelled {
      return None, true;
    }
    return best, false;
  }
}
