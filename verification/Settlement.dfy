/** Every proposed settlement pays for itself, trade by trade and token by token. */
module Settlement {
  import opened U256
  import opened Options
  import opened Pools
  import opened Orders
  import opened Routes
  import opened Graphs
  import opened RouteTheorems
  import opened BuyInput
  import opened Matching
  import opened MatchingTheorems
  import opened PoolBuilding
  import opened Solver

  /** What one trade moves: the trader pays in the sell token and receives in the buy token. */
  datatype Fill = Fill(order: Order, paid: int, received: int)

  datatype Transfer = Transfer(token: Token, amount: int)

  function Moved(transfers: seq<Transfer>, token: Token): int {
    if transfers == [] then 0
    else
      var last := transfers[|transfers| - 1];
      Moved(transfers[..|transfers| - 1], token) + (if last.token == token then last.amount else 0)
  }

  function Payments(fills: seq<Fill>): seq<Transfer> {
    seq(|fills|, i requires 0 <= i < |fills| => Transfer(fills[i].order.sellToken, fills[i].paid))
  }

  function Payouts(fills: seq<Fill>): seq<Transfer> {
    seq(|fills|, i requires 0 <= i < |fills| => Transfer(fills[i].order.buyToken, fills[i].received))
  }

  function PoolInputs(calls: seq<Interaction>): seq<Transfer> {
    seq(|calls|, i requires 0 <= i < |calls| => Transfer(calls[i].inputToken, calls[i].inputAmount))
  }

  function PoolOutputs(calls: seq<Interaction>): seq<Transfer> {
    seq(|calls|, i requires 0 <= i < |calls| => Transfer(calls[i].outputToken, calls[i].outputAmount))
  }

  /** A trade executes its order completely, within its limit, at the clearing prices. */
  ghost predicate Fills(prices: map<Token, int>, trade: Trade, fill: Fill) {
    var order := fill.order;
    && trade.uid == order.uid
    && order.sellToken in prices && order.buyToken in prices
    && prices[order.sellToken] > 0 && prices[order.buyToken] > 0
    && fill.paid * prices[order.sellToken] == fill.received * prices[order.buyToken]
    && 0 < fill.paid <= order.sellAmount && order.buyAmount <= fill.received
    && (if order.kind.BuyOrder?
        then trade.executedAmount == fill.received == order.buyAmount
        else trade.executedAmount == fill.paid == order.sellAmount)
  }

  /** In every token, what traders pay and pools deliver covers what is paid out and fed in. */
  ghost predicate Conserves(fills: seq<Fill>, calls: seq<Interaction>) {
    forall token ::
      Moved(Payments(fills), token) + Moved(PoolOutputs(calls), token)
      >= Moved(Payouts(fills), token) + Moved(PoolInputs(calls), token)
  }

  /** Each hop spends exactly what the hop before it delivered. */
  ghost predicate Chained(hops: seq<Hop>) {
    forall k :: 0 < k < |hops| ==> hops[k].tokenIn == hops[k - 1].tokenOut && hops[k].amountIn == hops[k - 1].out
  }

  /** The amounts of a hop are those the pool itself quotes. */
  ghost predicate Quoted(pools: seq<Pool>, hop: Hop) {
    hop.pool in pools && hop.pool.QuoteExactInPair(hop.tokenIn, hop.tokenOut, hop.amountIn) == Ok(hop.out)
  }

  ghost predicate SettlesBy(orders: seq<Order>, pools: seq<Pool>, s: Solution, fills: seq<Fill>, hops: seq<Hop>) {
    && |fills| == |s.trades|
    && (forall k :: 0 <= k < |fills| ==> fills[k].order in orders && Fills(s.prices, s.trades[k], fills[k]))
    && s.interactions == Interactions(hops)
    && Conserves(fills, s.interactions)
    && Chained(hops)
    && (forall k :: 0 <= k < |hops| ==> Quoted(pools, hops[k]))
  }

  ghost predicate Settles(orders: seq<Order>, pools: seq<Pool>, s: Solution) {
    exists fills, hops :: SettlesBy(orders, pools, s, fills, hops)
  }

  // ---------- Routes ----------

  /** A route from amountIn of sell to out of buy. */
  ghost predicate Carries(pools: seq<Pool>, hops: seq<Hop>, sell: Token, buy: Token, amountIn: int, out: int) {
    && hops != []
    && hops[0].tokenIn == sell && hops[0].amountIn == amountIn
    && hops[|hops| - 1].tokenOut == buy && hops[|hops| - 1].out == out
    && Chained(hops)
    && forall k :: 0 <= k < |hops| ==> Quoted(pools, hops[k])
  }

  lemma DirectCarries(pools: seq<Pool>, pool: Pool, sell: Token, buy: Token, amountIn: int, r: Route)
    requires pool in pools && Direct(pool, sell, buy, amountIn) == Some(r)
    ensures Carries(pools, r.hops, sell, buy, amountIn, r.out)
  {
    hide Pool.QuoteExactInPair, Pool.AllTokens;
  }

  lemma TwoHopCarries(pools: seq<Pool>, first: Pool, second: Pool, sell: Token, mid: Token, buy: Token, amountIn: int, r: Route)
    requires first in pools && second in pools && TwoHop(first, second, sell, mid, buy, amountIn) == Some(r)
    ensures Carries(pools, r.hops, sell, buy, amountIn, r.out)
  {
    hide Pool.QuoteExactInPair, Pool.AllTokens, SumGas;
  }

  /** The route of a search runs from the sell token to the buy token through quoted hops. */
  lemma BestRouteCarries(g: Graph, sell: Token, buy: Token, amountIn: int)
    requires g.Valid() && BestRoute(g, sell, buy, amountIn).Some?
    ensures var r := BestRoute(g, sell, buy, amountIn).value;
            Carries(g.pools, r.hops, sell, buy, amountIn, r.out)
  {
    hide Direct, TwoHop, Graph.PoolsFor, Best, DirectList, MidList, Carries, Beats;
    var r := BestRoute(g, sell, buy, amountIn).value;
    BestOptimal(Candidates(g, sell, buy, amountIn));
    InDirectList(g, sell, buy, amountIn, |g.PoolsFor(sell)|, r);
    InMidList(g, sell, buy, amountIn, |g.intermediates|, r);
    if r in AllDirect(g, sell, buy, amountIn) {
      var k :| 0 <= k < |g.PoolsFor(sell)| && Direct(g.pools[g.PoolsFor(sell)[k]], sell, buy, amountIn) == Some(r);
      DirectCarries(g.pools, g.pools[g.PoolsFor(sell)[k]], sell, buy, amountIn, r);
    } else {
      var m :| 0 <= m < |g.intermediates| && ThroughMid(g, sell, g.intermediates[m], buy, amountIn, r);
      var mid := g.intermediates[m];
      var k :| 0 <= k < |g.PoolsFor(sell)| && ThroughSome(g, g.PoolsFor(sell)[k], sell, mid, buy, amountIn, r);
      var i := g.PoolsFor(sell)[k];
      var l :| 0 <= l < |g.PoolsFor(mid)| && Through(g, i, g.PoolsFor(mid)[l], sell, mid, buy, amountIn, r);
      TwoHopCarries(g.pools, g.pools[i], g.pools[g.PoolsFor(mid)[l]], sell, mid, buy, amountIn, r);
    }
  }

  lemma CallAppend(calls: seq<Interaction>, next: Interaction, token: Token)
    ensures Moved(PoolOutputs(calls + [next]), token)
            == Moved(PoolOutputs(calls), token) + (if next.outputToken == token then next.outputAmount else 0)
    ensures Moved(PoolInputs(calls + [next]), token)
            == Moved(PoolInputs(calls), token) + (if next.inputToken == token then next.inputAmount else 0)
  {
    assert PoolOutputs(calls + [next])[..|calls|] == PoolOutputs(calls);
    assert PoolInputs(calls + [next])[..|calls|] == PoolInputs(calls);
  }

  /** Along a chain everything but the two ends cancels. */
  lemma {:induction false} ChainTelescopes(hops: seq<Hop>, token: Token)
    requires hops != [] && Chained(hops)
    ensures Moved(PoolOutputs(Interactions(hops)), token) + (if hops[0].tokenIn == token then hops[0].amountIn else 0)
            == Moved(PoolInputs(Interactions(hops)), token)
               + (if hops[|hops| - 1].tokenOut == token then hops[|hops| - 1].out else 0)
  {
    hide PoolInputs, PoolOutputs, Moved;
    var front, last := hops[..|hops| - 1], hops[|hops| - 1];
    CallAppend(Interactions(front), InteractionOf(last), token);
    if front == [] {
      NothingMoves(token);
    } else {
      ChainTelescopes(front, token);
    }
  }

  lemma NothingMoves(token: Token)
    ensures Moved(PoolInputs([]), token) == 0 == Moved(PoolOutputs([]), token)
  {
  }

  lemma OneFill(fill: Fill, token: Token)
    ensures Moved(Payments([fill]), token) == if fill.order.sellToken == token then fill.paid else 0
    ensures Moved(Payouts([fill]), token) == if fill.order.buyToken == token then fill.received else 0
  {
  }

  /** A route that is fed the payment and delivers at least the payout settles its order. */
  lemma FillThroughSettles(
    orders: seq<Order>, pools: seq<Pool>, order: Order, paid: int, received: int, hops: seq<Hop>, out: int, s: Solution)
    requires order in orders && order.Supported() && order.Positive()
    requires 0 < paid <= order.sellAmount && order.buyAmount <= received <= out
    requires if order.kind.BuyOrder? then received == order.buyAmount else paid == order.sellAmount
    requires Carries(pools, hops, order.sellToken, order.buyToken, paid, out)
    requires s.prices == map[order.sellToken := received][order.buyToken := paid]
    requires s.trades == [Trade(order.uid, if order.kind.BuyOrder? then received else paid)]
    requires s.interactions == Interactions(hops)
    ensures Settles(orders, pools, s)
  {
    hide Quoted, Interactions;
    var fills := [Fill(order, paid, received)];
    forall token
      ensures Moved(Payments(fills), token) + Moved(PoolOutputs(s.interactions), token)
              >= Moved(Payouts(fills), token) + Moved(PoolInputs(s.interactions), token)
    {
      OneFill(fills[0], token);
      ChainTelescopes(hops, token);
    }
    assert SettlesBy(orders, pools, s, fills, hops);
  }

  lemma RoutedSettles(orders: seq<Order>, g: Graph, order: Order, cfg: Config, id: nat)
    requires g.Valid() && order in orders && order.Supported() && RouteOrder(g, order, cfg).Routed?
    ensures Settles(orders, g.pools, RouteOrder(g, order, cfg).solution.(id := id))
  {
    hide BestRoute, MinInput, SumGas, Interactions, Carries, Graph.Valid;
    var s := RouteOrder(g, order, cfg).solution.(id := id);
    if order.kind.BuyOrder? {
      MinInputFeasible(g, order.sellToken, order.buyToken, order.buyAmount, order.sellAmount);
      var p := MinInput(g, order.sellToken, order.buyToken, order.buyAmount, order.sellAmount).value;
      BestRouteCarries(g, order.sellToken, order.buyToken, p.input);
      FillThroughSettles(orders, g.pools, order, p.input, order.buyAmount, p.route.hops, p.route.out, s);
    } else {
      var r := BestRoute(g, order.sellToken, order.buyToken, order.sellAmount).value;
      BestRouteCarries(g, order.sellToken, order.buyToken, order.sellAmount);
      FillThroughSettles(orders, g.pools, order, order.sellAmount, r.out, r.hops, r.out, s);
    }
  }

  // ---------- Matches ----------

  ghost predicate AllCross(orders: seq<Order>, ms: seq<Match>) {
    forall i :: 0 <= i < |ms| ==> Crossing(orders, ms[i])
  }

  lemma {:induction false} BucketCrosses(orders: seq<Order>, key: Key, n: nat, s: State)
    requires AllCross(orders, s.out) && n <= |Bucket(orders, |orders|, key)|
    ensures AllCross(orders, MatchBucket(Bucket(orders, |orders|, key.Reverse()), Bucket(orders, |orders|, key), n, s).out)
  {
    hide Bucket, LimitsCross;
    if n > 0 {
      BucketCrosses(orders, key, n - 1, s);
      var as_, bs := Bucket(orders, |orders|, key), Bucket(orders, |orders|, key.Reverse());
      var used := MatchBucket(bs, as_, n - 1, s).used;
      PartnerFree(bs, used, as_[n - 1], 0);
      BucketMembers(orders, key, as_[n - 1]);
      var partner := Partner(bs, used, as_[n - 1], 0);
      if partner.Some? {
        BucketMembers(orders, key.Reverse(), partner.value);
        CrossingKeys(orders, as_[n - 1], partner.value);
      }
    }
  }

  /** Matches cross even if the auction repeats a uid. */
  lemma {:induction false} KeysCross(orders: seq<Order>, keys: seq<Key>, n: nat)
    requires n <= |keys|
    ensures AllCross(orders, MatchKeys(orders, keys, n).out)
  {
    hide Bucket, MatchBucket, Crossing;
    if n > 0 {
      KeysCross(orders, keys, n - 1);
      BucketCrosses(orders, keys[n - 1], |Bucket(orders, |orders|, keys[n - 1])|, MatchKeys(orders, keys, n - 1));
    }
  }

  /** At the two sold amounts as prices each side receives all that the other side sells. */
  lemma MatchSettles(orders: seq<Order>, pools: seq<Pool>, m: Match, id: nat, gas: nat)
    requires Crossing(orders, m) && m.a.Supported()
    ensures Settles(orders, pools, MatchSolution(m, id, gas))
  {
    var s := MatchSolution(m, id, gas);
    var fills := [Fill(m.a, m.a.sellAmount, m.b.sellAmount), Fill(m.b, m.b.sellAmount, m.a.sellAmount)];
    forall token
      ensures Moved(Payments(fills), token) == Moved(Payouts(fills), token)
    {
      assert Payments(fills)[..1] == Payments(fills[..1]) && Payouts(fills)[..1] == Payouts(fills[..1]);
      OneFill(fills[0], token);
    }
    assert Interactions([]) == [];
    assert SettlesBy(orders, pools, s, fills, []);
  }

  // ---------- Runs ----------

  ghost predicate AllSettle(orders: seq<Order>, pools: seq<Pool>, solutions: seq<Solution>) {
    forall i :: 0 <= i < |solutions| ==> Settles(orders, pools, solutions[i])
  }

  lemma {:induction false} MatchPassSettles(orders: seq<Order>, pools: seq<Pool>, matches: seq<Match>, n: nat, cfg: Config)
    requires AllSupported(orders) && AllCross(orders, matches) && n <= |matches|
    ensures AllSettle(orders, pools, MatchPass(matches, n, cfg).solutions)
  {
    hide MatchGas, MatchSolution, Settles, Order.Supported, LimitsCross;
    if n > 0 {
      MatchPassSettles(orders, pools, matches, n - 1, cfg);
      assert Crossing(orders, matches[n - 1]);
      if Accepts(matches[n - 1], cfg) {
        MatchSettles(orders, pools, matches[n - 1], |MatchPass(matches, n - 1, cfg).solutions|, MatchGas(cfg).value);
      }
    }
  }

  lemma {:induction false} RoutePassSettles(start: Run, g: Graph, orders: seq<Order>, n: nat, cfg: Config)
    requires g.Valid() && AllSupported(orders) && AllSettle(orders, g.pools, start.solutions) && n <= |orders|
    ensures AllSettle(orders, g.pools, RoutePass(start, g, orders, n, cfg).solutions)
  {
    hide RouteOrder, Settles, Graph.Valid, Order.Supported;
    if n > 0 {
      RoutePassSettles(start, g, orders, n - 1, cfg);
      var run := RoutePass(start, g, orders, n - 1, cfg);
      if RouteOrder(g, orders[n - 1], cfg).Routed? {
        RoutedSettles(orders, g, orders[n - 1], cfg, |run.solutions|);
      }
    }
  }

  lemma FullRunSettles(g: Graph, orders: seq<Order>, cfg: Config)
    requires g.Valid() && AllSupported(orders)
    ensures AllSettle(orders, g.pools, FullRun(g, orders, cfg).solutions)
  {
    hide MatchKeys, SortedKeys, MatchPass, RoutePass, AllCross, AllSettle, Graph.Valid;
    KeysCross(orders, SortedKeys(orders), |SortedKeys(orders)|);
    MatchPassSettles(orders, g.pools, Matches(orders), |Matches(orders)|, cfg);
    RoutePassSettles(MatchPass(Matches(orders), |Matches(orders)|, cfg), g, orders, |orders|, cfg);
  }

  /** Every solution an auction can answer with, cancelled or not, settles: its orders are
      executed in full and within their limits at the clearing prices, its interactions are
      chained quotes of pools that were built, and every token is covered. */
  lemma AnswersSettle(liquidity: seq<Liquidity>, orders: seq<Order>, cfg: Config, answered: seq<Solution>)
    requires answered <= FullSolutions(liquidity, orders, cfg)
    ensures AllSettle(orders, Built(liquidity, Looked(liquidity, cfg.PoolLimit())), answered)
  {
    hide FullRun, Eligible, Built, Intermediates, Settles;
    EligibleSound(orders, cfg.OrderLimit(), 0);
    var eligible, g := EligibleOrders(orders, cfg), GraphFor(liquidity, cfg);
    FullRunSettles(g, eligible, cfg);
    forall i | 0 <= i < |answered|
      ensures Settles(orders, g.pools, answered[i])
    {
      assert answered[i] == FullRun(g, eligible, cfg).solutions[i];
      MoreOrders(eligible, orders, g.pools, answered[i]);
    }
  }

  lemma MoreOrders(some: seq<Order>, orders: seq<Order>, pools: seq<Pool>, s: Solution)
    requires (forall o :: o in some ==> o in orders) && Settles(some, pools, s)
    ensures Settles(orders, pools, s)
  {
    hide Fills, Conserves, Quoted;
    var fills, hops :| SettlesBy(some, pools, s, fills, hops);
    assert SettlesBy(orders, pools, s, fills, hops);
  }
}
