/** One auction: match coincidences of wants, route what is left, cap the answer. */
module Solver {
  import opened Options
  import opened Pools
  import opened Orders
  import opened Contexts
  import opened Routes
  import opened RouteSearch
  import opened Graphs
  import opened BuyInput
  import opened Matching
  import opened PoolBuilding

  datatype Trade = Trade(uid: string, executedAmount: int)

  datatype Interaction = Interaction(
    id: string, inputToken: Token, outputToken: Token, inputAmount: int, outputAmount: int)

  datatype Solution = Solution(
    id: nat, prices: map<Token, int>, trades: seq<Trade>, interactions: seq<Interaction>, gas: nat)

  /** The two profitability filters are arbitrary deterministic predicates. */
  datatype Config = Config(
    settlementOverheadGas: nat, perTradeGas: nat, maxSolutions: int, maxOrders: int, maxPools: int,
    keepMatch: (Match, nat) -> bool, keepRoute: (int, Token, nat) -> bool)
  {
    function OrderLimit(): int { if maxOrders <= 0 then 250 else maxOrders }
    function PoolLimit(): int { if maxPools <= 0 then 2_048 else maxPools }
  }

  /** What became of an order in the routing pass. */
  datatype Outcome =
    | NoRoute
    | BelowLimit
    | Routed(solution: Solution, surplus: int, surplusToken: Token, gas: nat)

  function InteractionOf(hop: Hop): Interaction {
    Interaction(hop.pool.id, hop.tokenIn, hop.tokenOut, hop.amountIn, hop.out)
  }

  function Interactions(hops: seq<Hop>): (r: seq<Interaction>)
    ensures |r| == |hops|
    ensures forall i :: 0 <= i < |hops| ==> r[i] == InteractionOf(hops[i])
  {
    if hops == [] then [] else Interactions(hops[..|hops| - 1]) + [InteractionOf(hops[|hops| - 1])]
  }

  method HopsToInteractions(hops: seq<Hop>) returns (out: seq<Interaction>)
    ensures out == Interactions(hops)
  {
    out := [];
    for i := 0 to |hops|
      invariant |out| == i && forall k :: 0 <= k < i ==> out[k] == InteractionOf(hops[k])
    {
      out := out + [InteractionOf(hops[i])];
    }
  }

  /** A solution that fills one order through a route; its id is assigned later. */
  function FillThrough(order: Order, sellPrice: int, buyPrice: int, executed: int, hops: seq<Hop>, gas: nat): Solution {
    Solution(0, map[order.sellToken := sellPrice][order.buyToken := buyPrice],
             [Trade(order.uid, executed)], Interactions(hops), gas)
  }

  function RouteOrder(g: Graph, order: Order, cfg: Config): Outcome
    requires g.Valid()
  {
    if !order.Positive() then NoRoute
    else if order.kind.BuyOrder? then
      match MinInput(g, order.sellToken, order.buyToken, order.buyAmount, order.sellAmount)
      case None => NoRoute
      case Some(p) =>
        match SumGas([cfg.settlementOverheadGas, cfg.perTradeGas, p.route.gas])
        case None => NoRoute
        case Some(gas) =>
          Routed(FillThrough(order, order.buyAmount, p.input, order.buyAmount, p.route.hops, gas),
                 order.sellAmount - p.input, order.sellToken, gas)
    else
      match BestRoute(g, order.sellToken, order.buyToken, order.sellAmount)
      case None => NoRoute
      case Some(route) =>
        if route.out < order.buyAmount then BelowLimit
        else
          match SumGas([cfg.settlementOverheadGas, cfg.perTradeGas, route.gas])
          case None => NoRoute
          case Some(gas) =>
            Routed(FillThrough(order, route.out, order.sellAmount, order.sellAmount, route.hops, gas),
                   route.out - order.buyAmount, order.buyToken, gas)
  }

  method ComputeRouteOrder(ctx: Context, g: Graph, order: Order, cfg: Config) returns (r: Outcome, cancelled: bool)
    requires g.Valid() && !ctx.Fired()
    modifies ctx
    ensures cancelled <==> ctx.Fired()
    ensures !cancelled ==> r == RouteOrder(g, order, cfg)
  {
    hide BestRoute, MinInput, SumGas, Interactions;
    if !order.Positive() {
      return NoRoute, false;
    }
    if order.kind.BuyOrder? {
      var found;
      found, cancelled := MinInputFor(ctx, g, order.sellToken, order.buyToken, order.buyAmount, order.sellAmount);
      if cancelled {
        return NoRoute, true;
      }
      if found.None? {
        return NoRoute, false;
      }
      var gas := ComputeSumGas([cfg.settlementOverheadGas, cfg.perTradeGas, found.value.route.gas]);
      if gas.None? {
        return NoRoute, false;
      }
      var interactions := HopsToInteractions(found.value.route.hops);
      return Routed(
          Solution(0, map[order.sellToken := order.buyAmount][order.buyToken := found.value.input],
                   [Trade(order.uid, order.buyAmount)], interactions, gas.value),
          order.sellAmount - found.value.input, order.sellToken, gas.value), false;
    }
    var route;
    route, cancelled := BestRouteContext(ctx, g, order.sellToken, order.buyToken, order.sellAmount);
    if cancelled {
      return NoRoute, true;
    }
    if route.None? {
      return NoRoute, false;
    }
    if route.value.out < order.buyAmount {
      return BelowLimit, false;
    }
    var gas := ComputeSumGas([cfg.settlementOverheadGas, cfg.perTradeGas, route.value.gas]);
    if gas.None? {
      return NoRoute, false;
    }
    var interactions := HopsToInteractions(route.value.hops);
    return Routed(
        Solution(0, map[order.sellToken := route.value.out][order.buyToken := order.sellAmount],
                 [Trade(order.uid, order.sellAmount)], interactions, gas.value),
        route.value.out - order.buyAmount, order.buyToken, gas.value), false;
  }

  /** A match settles at the two sold amounts as prices, without any interaction. */
  function MatchSolution(m: Match, id: nat, gas: nat): Solution {
    Solution(id, map[m.a.sellToken := m.b.sellAmount][m.a.buyToken := m.a.sellAmount],
             [Trade(m.a.uid, m.a.sellAmount), Trade(m.b.uid, m.b.sellAmount)], [], gas)
  }

  /** The solver's variables: candidates so far, matched uids, and the order counters. */
  datatype Run = Run(
    solutions: seq<Solution>, matched: set<string>,
    cowMatches: nat, baselineRoutes: nat, droppedNoRoute: nat, droppedLimit: nat, droppedNotProfitable: nat)

  const START: Run := Run([], {}, 0, 0, 0, 0, 0)

  function MatchGas(cfg: Config): Option<nat> {
    SumGas([cfg.settlementOverheadGas, cfg.perTradeGas, cfg.perTradeGas])
  }

  function Accepts(m: Match, cfg: Config): bool {
    MatchGas(cfg).Some? && cfg.keepMatch(m, MatchGas(cfg).value)
  }

  function TakeMatch(run: Run, m: Match, cfg: Config): Run {
    if !Accepts(m, cfg) then run.(droppedNotProfitable := run.droppedNotProfitable + 2)
    else
      run.(solutions := run.solutions + [MatchSolution(m, |run.solutions|, MatchGas(cfg).value)],
           matched := run.matched + {m.a.uid, m.b.uid},
           cowMatches := run.cowMatches + 1)
  }

  /** The run after the first n matches. */
  function MatchPass(matches: seq<Match>, n: nat, cfg: Config): Run
    requires n <= |matches|
  {
    if n == 0 then START else TakeMatch(MatchPass(matches, n - 1, cfg), matches[n - 1], cfg)
  }

  function TakeOrder(run: Run, g: Graph, order: Order, cfg: Config): Run
    requires g.Valid()
  {
    if order.uid in run.matched then run
    else
      match RouteOrder(g, order, cfg)
      case NoRoute => run.(droppedNoRoute := run.droppedNoRoute + 1)
      case BelowLimit => run.(droppedLimit := run.droppedLimit + 1)
      case Routed(solution, surplus, token, gas) =>
        if !cfg.keepRoute(surplus, token, gas) then run.(droppedNotProfitable := run.droppedNotProfitable + 1)
        else
          run.(solutions := run.solutions + [solution.(id := |run.solutions|)],
               baselineRoutes := run.baselineRoutes + 1)
  }

  /** The run after the first n orders of the routing pass. */
  function RoutePass(start: Run, g: Graph, orders: seq<Order>, n: nat, cfg: Config): Run
    requires g.Valid() && n <= |orders|
  {
    if n == 0 then start else TakeOrder(RoutePass(start, g, orders, n - 1, cfg), g, orders[n - 1], cfg)
  }

  /** The run of an auction that is never cancelled, from its eligible orders. */
  ghost function FullRun(g: Graph, orders: seq<Order>, cfg: Config): Run
    requires g.Valid()
  {
    var matches := Matches(orders);
    RoutePass(MatchPass(matches, |matches|, cfg), g, orders, |orders|, cfg)
  }

  function Capped(solutions: seq<Solution>, max: int): seq<Solution> {
    if max <= 0 then [] else if |solutions| > max then solutions[..max] else solutions
  }

  datatype Stats = Stats(
    orders: nat, poolsUsable: nat, poolsSkipped: map<string, nat>, cowMatches: nat, baselineRoutes: nat,
    droppedUnsupportedOrder: nat, droppedNoRoute: nat, droppedLimit: nat, droppedNotProfitable: nat,
    candidateSolutions: nat, solutions: nat)

  datatype Answer = Answer(solutions: seq<Solution>, stats: Stats)

  ghost function GraphFor(liquidity: seq<Liquidity>, cfg: Config): (g: Graph)
    ensures g.Valid()
  {
    GraphOf(Built(liquidity, Looked(liquidity, cfg.PoolLimit())))
  }

  function EligibleOrders(orders: seq<Order>, cfg: Config): seq<Order> {
    Eligible(orders, cfg.OrderLimit(), 0).0
  }

  /** The solutions of an auction that is never cancelled. */
  ghost function FullSolutions(liquidity: seq<Liquidity>, orders: seq<Order>, cfg: Config): seq<Solution> {
    Capped(FullRun(GraphFor(liquidity, cfg), EligibleOrders(orders, cfg), cfg).solutions, cfg.maxSolutions)
  }

  /** The statistics agree with the counters of a run. */
  predicate Reports(stats: Stats, run: Run) {
    && stats.cowMatches == run.cowMatches
    && stats.baselineRoutes == run.baselineRoutes
    && stats.droppedNoRoute == run.droppedNoRoute
    && stats.droppedLimit == run.droppedLimit
    && stats.droppedNotProfitable == run.droppedNotProfitable
    && stats.candidateSolutions == |run.solutions|
  }

  // ---------- The solver ----------

  lemma {:induction false} MatchPassExtends(matches: seq<Match>, m: nat, n: nat, cfg: Config)
    requires m <= n <= |matches|
    ensures MatchPass(matches, m, cfg).solutions <= MatchPass(matches, n, cfg).solutions
  {
    hide Accepts, MatchGas, MatchSolution;
    if m < n { MatchPassExtends(matches, m, n - 1, cfg); }
  }

  lemma {:induction false} RoutePassExtends(start: Run, g: Graph, orders: seq<Order>, m: nat, n: nat, cfg: Config)
    requires g.Valid() && m <= n <= |orders|
    ensures RoutePass(start, g, orders, m, cfg).solutions <= RoutePass(start, g, orders, n, cfg).solutions
  {
    hide RouteOrder;
    if m < n { RoutePassExtends(start, g, orders, m, n - 1, cfg); }
  }

  /** The matching pass; a cancelled run has taken a prefix of the matches. */
  method RunMatchPass(ctx: Context, orders: seq<Order>, cfg: Config) returns (run: Run)
    requires !ctx.Fired()
    modifies ctx
    ensures !ctx.Fired() ==> run == MatchPass(Matches(orders), |Matches(orders)|, cfg)
    ensures run.solutions <= MatchPass(Matches(orders), |Matches(orders)|, cfg).solutions
  {
    hide Matches, MatchSolution, SumGas;
    run := START;
    var found := FindCoWMatches(ctx, orders);
    ghost var matches := Matches(orders);
    ghost var fired := ctx.Fired();
    for n := 0 to |found|
      invariant n > 0 ==> !ctx.Fired() && found == matches
      invariant n == 0 ==> ctx.Fired() == fired
      invariant run == MatchPass(matches, n, cfg)
    {
      MatchPassExtends(matches, n, |matches|, cfg);
      var cancelled := ctx.Cancelled();
      if cancelled {
        return;
      }
      var gas := ComputeSumGas([cfg.settlementOverheadGas, cfg.perTradeGas, cfg.perTradeGas]);
      if gas.None? || !cfg.keepMatch(found[n], gas.value) {
        run := run.(droppedNotProfitable := run.droppedNotProfitable + 2);
        continue;
      }
      run := run.(solutions := run.solutions + [MatchSolution(found[n], |run.solutions|, gas.value)],
                  matched := run.matched + {found[n].a.uid, found[n].b.uid},
                  cowMatches := run.cowMatches + 1);
    }
    MatchPassExtends(matches, |found|, |matches|, cfg);
  }

  /** The routing pass; a cancelled run has taken a prefix of the orders. */
  method RunRoutePass(ctx: Context, start: Run, g: Graph, orders: seq<Order>, cfg: Config) returns (run: Run)
    requires g.Valid()
    modifies ctx
    ensures !ctx.Fired() ==> run == RoutePass(start, g, orders, |orders|, cfg)
    ensures run.solutions <= RoutePass(start, g, orders, |orders|, cfg).solutions
    ensures old(ctx.Fired()) ==> ctx.Fired() && run == start
  {
    hide RouteOrder, Graph.Valid;
    run := start;
    for n := 0 to |orders|
      invariant n > 0 ==> !ctx.Fired() && !old(ctx.Fired())
      invariant n == 0 ==> ctx.Fired() == old(ctx.Fired())
      invariant run == RoutePass(start, g, orders, n, cfg)
    {
      RoutePassExtends(start, g, orders, n, |orders|, cfg);
      var cancelled := ctx.Cancelled();
      if cancelled {
        return;
      }
      var order := orders[n];
      if order.uid in run.matched {
        continue;
      }
      var outcome;
      outcome, cancelled := ComputeRouteOrder(ctx, g, order, cfg);
      if cancelled {
        return;
      }
      match outcome {
        case NoRoute =>
          run := run.(droppedNoRoute := run.droppedNoRoute + 1);
        case BelowLimit =>
          run := run.(droppedLimit := run.droppedLimit + 1);
        case Routed(solution, surplus, token, gas) =>
          if !cfg.keepRoute(surplus, token, gas) {
            run := run.(droppedNotProfitable := run.droppedNotProfitable + 1);
          } else {
            run := run.(solutions := run.solutions + [solution.(id := |run.solutions|)],
                        baselineRoutes := run.baselineRoutes + 1);
          }
      }
    }
  }

  lemma CappedPrefix(a: seq<Solution>, b: seq<Solution>, max: int)
    requires a <= b
    ensures Capped(a, max) <= Capped(b, max)
  {
  }

  /** The counters of a result that was cut off before any order was considered. */
  function NoStats(usable: nat, skipped: map<string, nat>): Stats {
    Stats(0, usable, skipped, 0, 0, 0, 0, 0, 0, 0, 0)
  }

  /** Both passes over the eligible orders. */
  method RunPasses(ctx: Context, g: Graph, orders: seq<Order>, cfg: Config) returns (run: Run)
    requires g.Valid() && !ctx.Fired()
    modifies ctx
    ensures !ctx.Fired() ==> run == FullRun(g, orders, cfg)
    ensures run.solutions <= FullRun(g, orders, cfg).solutions
  {
    hide Matches, MatchPass, RoutePass, Graph.Valid;
    run := RunMatchPass(ctx, orders, cfg);
    ghost var matched := MatchPass(Matches(orders), |Matches(orders)|, cfg);
    ghost var full := FullRun(g, orders, cfg);
    assert matched.solutions <= full.solutions by {
      RoutePassStarts(matched, g, orders, cfg);
    }
    run := RunRoutePass(ctx, run, g, orders, cfg);
  }

  lemma RoutePassStarts(start: Run, g: Graph, orders: seq<Order>, cfg: Config)
    requires g.Valid()
    ensures start.solutions <= RoutePass(start, g, orders, |orders|, cfg).solutions
  {
    hide TakeOrder;
    RoutePassExtends(start, g, orders, 0, |orders|, cfg);
  }

  /** One auction. Whenever the context may become cancelled, the solutions returned are a
      prefix of those of the uncancelled run: every one of them is whole, with the same id,
      prices, trades, interactions and gas. The pools are fully accounted for either way. */
  method Solve(ctx: Context, liquidity: seq<Liquidity>, auctionOrders: seq<Order>, cfg: Config) returns (answer: Answer)
    modifies ctx
    ensures answer.solutions <= FullSolutions(liquidity, auctionOrders, cfg)
    ensures answer.stats.poolsUsable + Total(answer.stats.poolsSkipped) == |liquidity|
    ensures answer.stats.solutions == |answer.solutions|
    ensures !ctx.Fired() ==>
              && |Built(liquidity, Looked(liquidity, cfg.PoolLimit()))| == answer.stats.poolsUsable
              && Skipped(answer.stats.poolsSkipped, liquidity, Looked(liquidity, cfg.PoolLimit()),
                         |liquidity| - Looked(liquidity, cfg.PoolLimit()))
    ensures !ctx.Fired() ==>
              && answer.solutions == FullSolutions(liquidity, auctionOrders, cfg)
              && answer.stats.orders == |EligibleOrders(auctionOrders, cfg)|
              && answer.stats.droppedUnsupportedOrder == Eligible(auctionOrders, cfg.OrderLimit(), 0).1
              && Reports(answer.stats, FullRun(GraphFor(liquidity, cfg), EligibleOrders(auctionOrders, cfg), cfg))
  {
    hide FullRun, Eligible, Built, Total, GraphOf, Skipped;
    var pools, skipped := BuildPoolsContext(ctx, liquidity, cfg.PoolLimit());
    var cancelled := ctx.Cancelled();
    if cancelled {
      return Answer([], NoStats(|pools|, skipped));
    }
    var graph := NewGraph(pools);
    cancelled := ctx.Cancelled();
    if cancelled {
      return Answer([], NoStats(|pools|, skipped));
    }
    var orders, unsupported := ComputeEligible(auctionOrders, cfg.OrderLimit());
    var run := RunPasses(ctx, graph, orders, cfg);
    ghost var full := FullRun(GraphFor(liquidity, cfg), EligibleOrders(auctionOrders, cfg), cfg);
    CappedPrefix(run.solutions, full.solutions, cfg.maxSolutions);
    var solutions := Capped(run.solutions, cfg.maxSolutions);
    answer := Answer(solutions, Stats(
      |orders|, |pools|, skipped, run.cowMatches, run.baselineRoutes, unsupported,
      run.droppedNoRoute, run.droppedLimit, run.droppedNotProfitable, |run.solutions|, |solutions|));
  }
}
