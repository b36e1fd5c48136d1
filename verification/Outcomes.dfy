/** What becomes of every order and every match of an uncancelled auction, and what its
    solution says: stated by the routes there are, not by how the passes run. */
module Outcomes {
  import opened Options
  import opened Pools
  import opened Orders
  import opened Routes
  import opened RouteTheorems
  import opened Graphs
  import opened BuyInput
  import opened Matching
  import opened PoolBuilding
  import opened Solver

  // ---------- Gas ----------

  /** Overhead, one trade, and every pool on the way. */
  function RouteGas(cfg: Config, hops: seq<Hop>): nat {
    cfg.settlementOverheadGas + cfg.perTradeGas + GasOf(hops)
  }

  lemma ThreeGas(a: nat, b: nat, c: nat)
    ensures SumGas([a, b, c]) == if a + b + c < 0x1_0000_0000_0000_0000 then Some(a + b + c) else None
  {
    SumGasIsSum([a, b, c]);
    assert [a, b, c][..2] == [a, b] && [a, b][..1] == [a] && [a][..0] == [];
    assert PlainSum([a]) == a;
    assert PlainSum([a, b]) == PlainSum([a, b][..1]) + b;
  }

  // ---------- One order ----------

  /** The solution fills the order alone, at the two prices, through the hops of the route. */
  ghost predicate Executes(
    cfg: Config, order: Order, sellPrice: int, buyPrice: int, executed: int, route: Route, s: Solution)
  {
    && s.prices == map[order.sellToken := sellPrice][order.buyToken := buyPrice]
    && s.trades == [Trade(order.uid, executed)]
    && |s.interactions| == |route.hops|
    && (forall k :: 0 <= k < |route.hops| ==>
          var hop := route.hops[k];
          s.interactions[k] == Interaction(hop.pool.id, hop.tokenIn, hop.tokenOut, hop.amountIn, hop.out))
    && s.gas == RouteGas(cfg, route.hops) < 0x1_0000_0000_0000_0000
  }

  /** Both amounts of the order parse as positive integers. */
  predicate Parsed(order: Order) {
    0 < order.sellAmount && 0 < order.buyAmount
  }

  /** x is enough for the order and one unit less is not. */
  ghost predicate JustEnough(g: Graph, order: Order, x: int)
    requires g.Valid()
  {
    && 1 <= x <= order.sellAmount
    && Enough(g, order.sellToken, order.buyToken, order.buyAmount, x)
    && (x == 1 || !Enough(g, order.sellToken, order.buyToken, order.buyAmount, x - 1))
  }

  /** The input that the search finds for a buy order, and the route for it. */
  function Bought(g: Graph, order: Order): Option<Purchase>
    requires g.Valid()
  {
    MinInput(g, order.sellToken, order.buyToken, order.buyAmount, order.sellAmount)
  }

  function Sold(g: Graph, order: Order): Option<Route>
    requires g.Valid()
  {
    BestRoute(g, order.sellToken, order.buyToken, order.sellAmount)
  }

  /** A buy order is answered exactly when its whole budget is enough and its gas fits. It
      then pays an input that is just enough, receives exactly what it wants, and keeps the
      rest of its budget; it is never refused for its limit. */
  lemma BuyOutcome(g: Graph, order: Order, cfg: Config)
    requires g.Valid() && order.kind.BuyOrder?
    ensures var outcome, bought := RouteOrder(g, order, cfg), Bought(g, order);
            && !outcome.BelowLimit?
            && (bought.Some? <==> Enough(g, order.sellToken, order.buyToken, order.buyAmount, order.sellAmount))
            && (outcome.Routed? <==>
                  Parsed(order) && bought.Some? && RouteGas(cfg, bought.value.route.hops) < 0x1_0000_0000_0000_0000)
            && (outcome.Routed? ==>
                  var x, route := bought.value.input, bought.value.route;
                  && JustEnough(g, order, x)
                  && BestRoute(g, order.sellToken, order.buyToken, x) == Some(route)
                  && Executes(cfg, order, order.buyAmount, x, order.buyAmount, route, outcome.solution)
                  && outcome.surplus == order.sellAmount - x && outcome.surplusToken == order.sellToken
                  && outcome.gas == outcome.solution.gas)
  {
    hide BestRoute, MinInput, SumGas, GasOf, Graph.Valid;
    MinInputFeasible(g, order.sellToken, order.buyToken, order.buyAmount, order.sellAmount);
    var bought := Bought(g, order);
    if bought.Some? {
      GasOfBest(g, order.sellToken, order.buyToken, bought.value.input);
      ThreeGas(cfg.settlementOverheadGas, cfg.perTradeGas, bought.value.route.gas);
    }
  }

  /** A sell order is refused for its limit exactly when the best route delivers less than
      that, and answered exactly when it delivers it and its gas fits. It then sells all it
      has for all the route delivers, and the surplus is what exceeds the limit. */
  lemma SellOutcome(g: Graph, order: Order, cfg: Config)
    requires g.Valid() && !order.kind.BuyOrder?
    ensures var outcome, sold := RouteOrder(g, order, cfg), Sold(g, order);
            && (outcome.BelowLimit? <==> Parsed(order) && sold.Some? && sold.value.out < order.buyAmount)
            && (outcome.Routed? <==>
                  && Parsed(order) && sold.Some? && order.buyAmount <= sold.value.out
                  && RouteGas(cfg, sold.value.hops) < 0x1_0000_0000_0000_0000)
            && (outcome.Routed? ==>
                  && Executes(cfg, order, sold.value.out, order.sellAmount, order.sellAmount, sold.value, outcome.solution)
                  && outcome.surplus == sold.value.out - order.buyAmount && outcome.surplusToken == order.buyToken
                  && outcome.gas == outcome.solution.gas)
  {
    hide BestRoute, MinInput, SumGas, GasOf, Graph.Valid;
    var sold := Sold(g, order);
    if sold.Some? {
      GasOfBest(g, order.sellToken, order.buyToken, order.sellAmount);
      ThreeGas(cfg.settlementOverheadGas, cfg.perTradeGas, sold.value.gas);
    }
  }

  // ---------- Matches ----------

  /** Gas of a settlement with two trades and no interaction. */
  function PairGas(cfg: Config): nat {
    cfg.settlementOverheadGas + cfg.perTradeGas + cfg.perTradeGas
  }

  predicate Accepted(cfg: Config, m: Match) {
    PairGas(cfg) < 0x1_0000_0000_0000_0000 && cfg.keepMatch(m, PairGas(cfg))
  }

  lemma AcceptedIs(cfg: Config, m: Match)
    ensures Accepts(m, cfg) <==> Accepted(cfg, m)
    ensures Accepts(m, cfg) ==> MatchGas(cfg) == Some(PairGas(cfg))
  {
    ThreeGas(cfg.settlementOverheadGas, cfg.perTradeGas, cfg.perTradeGas);
  }

  /** The accepted ones of the first n matches, in order. */
  function AcceptedOf(cfg: Config, matches: seq<Match>, n: nat): seq<Match>
    requires n <= |matches|
  {
    if n == 0 then []
    else AcceptedOf(cfg, matches, n - 1) + (if Accepted(cfg, matches[n - 1]) then [matches[n - 1]] else [])
  }

  ghost function UidsIn(matches: seq<Match>): set<string> {
    (set m | m in matches :: m.a.uid) + (set m | m in matches :: m.b.uid)
  }

  /** Each side receives all that the other one sells. */
  ghost predicate Exchanges(cfg: Config, m: Match, s: Solution) {
    && s.prices == map[m.a.sellToken := m.b.sellAmount][m.a.buyToken := m.a.sellAmount]
    && s.trades == [Trade(m.a.uid, m.a.sellAmount), Trade(m.b.uid, m.b.sellAmount)]
    && s.interactions == []
    && s.gas == PairGas(cfg)
  }

  lemma UidsInAppend(matches: seq<Match>, m: Match)
    ensures UidsIn(matches + [m]) == UidsIn(matches) + {m.a.uid, m.b.uid}
  {
    var all := matches + [m];
    assert all[|matches|] == m;
    assert forall x :: x in all <==> x in matches || x == m;
    assert UidsIn(all) == UidsIn(matches) + {m.a.uid, m.b.uid} by {
      assert (set x | x in all :: x.a.uid) == (set x | x in matches :: x.a.uid) + {m.a.uid};
      assert (set x | x in all :: x.b.uid) == (set x | x in matches :: x.b.uid) + {m.b.uid};
    }
  }

  /** The matching pass answers the accepted matches in order, takes their uids out of the
      auction, and counts two orders for every other match. */
  lemma {:induction false} MatchPassAnswers(matches: seq<Match>, n: nat, cfg: Config)
    requires n <= |matches|
    ensures var run, accepted := MatchPass(matches, n, cfg), AcceptedOf(cfg, matches, n);
            && |run.solutions| == |accepted| == run.cowMatches <= n
            && (forall k :: 0 <= k < |accepted| ==> run.solutions[k].id == k && Exchanges(cfg, accepted[k], run.solutions[k]))
            && run.matched == UidsIn(accepted)
            && run.droppedNotProfitable == 2 * (n - |accepted|)
            && run.baselineRoutes == run.droppedNoRoute == run.droppedLimit == 0
  {
    hide Accepts, MatchGas, UidsIn;
    if n == 0 {
      assert UidsIn([]) == {} by { NoUidsIn(); }
    } else {
      MatchPassAnswers(matches, n - 1, cfg);
      AcceptedIs(cfg, matches[n - 1]);
      var accepted := AcceptedOf(cfg, matches, n - 1);
      assert accepted + [] == accepted;
      UidsInAppend(accepted, matches[n - 1]);
    }
  }

  lemma NoUidsIn()
    ensures UidsIn([]) == {}
  {
  }

  // ---------- Orders ----------

  /** A route answers the order, and the gas of its settlement fits 64 bits. */
  predicate Routable(g: Graph, cfg: Config, order: Order)
    requires g.Valid()
  {
    && Parsed(order)
    && if order.kind.BuyOrder? then
         Bought(g, order).Some? && RouteGas(cfg, Bought(g, order).value.route.hops) < 0x1_0000_0000_0000_0000
       else
         && Sold(g, order).Some? && order.buyAmount <= Sold(g, order).value.out
         && RouteGas(cfg, Sold(g, order).value.hops) < 0x1_0000_0000_0000_0000
  }

  /** The profitability filter keeps what is left of the budget, or exceeds the limit. */
  predicate Kept(g: Graph, cfg: Config, order: Order)
    requires g.Valid() && Routable(g, cfg, order)
  {
    if order.kind.BuyOrder? then
      var bought := Bought(g, order).value;
      cfg.keepRoute(order.sellAmount - bought.input, order.sellToken, RouteGas(cfg, bought.route.hops))
    else
      var sold := Sold(g, order).value;
      cfg.keepRoute(sold.out - order.buyAmount, order.buyToken, RouteGas(cfg, sold.hops))
  }

  /** The best route of a sell order delivers less than its limit. */
  predicate LimitMissed(g: Graph, order: Order)
    requires g.Valid()
  {
    !order.kind.BuyOrder? && Parsed(order) && Sold(g, order).Some? && Sold(g, order).value.out < order.buyAmount
  }

  datatype Fate = Matched | Answered | Unprofitable | BelowItsLimit | Unroutable

  function FateOf(g: Graph, cfg: Config, matched: set<string>, order: Order): Fate
    requires g.Valid()
  {
    if order.uid in matched then Matched
    else if Routable(g, cfg, order) then if Kept(g, cfg, order) then Answered else Unprofitable
    else if LimitMissed(g, order) then BelowItsLimit
    else Unroutable
  }

  /** A buy order pays the found input for exactly what it wants; a sell order sells all it
      has for all its best route delivers. */
  ghost predicate Fulfils(g: Graph, cfg: Config, order: Order, s: Solution)
    requires g.Valid()
  {
    if order.kind.BuyOrder? then
      var bought := Bought(g, order);
      && bought.Some? && JustEnough(g, order, bought.value.input)
      && BestRoute(g, order.sellToken, order.buyToken, bought.value.input) == Some(bought.value.route)
      && Executes(cfg, order, order.buyAmount, bought.value.input, order.buyAmount, bought.value.route, s)
    else
      var sold := Sold(g, order);
      && sold.Some? && order.buyAmount <= sold.value.out
      && Executes(cfg, order, sold.value.out, order.sellAmount, order.sellAmount, sold.value, s)
  }

  lemma OutcomeIs(g: Graph, cfg: Config, matched: set<string>, order: Order, id: nat)
    requires g.Valid() && order.uid !in matched
    ensures var fate := FateOf(g, cfg, matched, order);
            match RouteOrder(g, order, cfg)
            case NoRoute => fate == Unroutable
            case BelowLimit => fate == BelowItsLimit
            case Routed(solution, surplus, token, gas) =>
              && fate == (if cfg.keepRoute(surplus, token, gas) then Answered else Unprofitable)
              && Fulfils(g, cfg, order, solution.(id := id))
  {
    hide BestRoute, MinInput, SumGas, GasOf, Graph.Valid, RouteOrder, JustEnough;
    if order.kind.BuyOrder? { BuyOutcome(g, order, cfg); } else { SellOutcome(g, order, cfg); }
  }

  /** The first n orders of one fate, in order. */
  function WithFate(g: Graph, cfg: Config, matched: set<string>, orders: seq<Order>, n: nat, fate: Fate): seq<Order>
    requires g.Valid() && n <= |orders|
  {
    if n == 0 then []
    else
      WithFate(g, cfg, matched, orders, n - 1, fate)
      + (if FateOf(g, cfg, matched, orders[n - 1]) == fate then [orders[n - 1]] else [])
  }

  function FateCount(g: Graph, cfg: Config, matched: set<string>, orders: seq<Order>, n: nat, fate: Fate): nat
    requires g.Valid() && n <= |orders|
  {
    |WithFate(g, cfg, matched, orders, n, fate)|
  }

  lemma OneMoreOrder(g: Graph, cfg: Config, matched: set<string>, orders: seq<Order>, n: nat, fate: Fate)
    requires g.Valid() && 0 < n <= |orders|
    ensures var before, now := WithFate(g, cfg, matched, orders, n - 1, fate), WithFate(g, cfg, matched, orders, n, fate);
            if FateOf(g, cfg, matched, orders[n - 1]) == fate then now == before + [orders[n - 1]] else now == before
  {
    hide FateOf, Graph.Valid;
    var before := WithFate(g, cfg, matched, orders, n - 1, fate);
    assert before + [] == before;
  }

  /** The routing pass answers, in order, the orders whose fate is to be answered, and counts
      each of the others under its own fate. */
  lemma {:induction false} RoutePassAnswers(start: Run, g: Graph, orders: seq<Order>, n: nat, cfg: Config)
    requires g.Valid() && n <= |orders|
    ensures var run, answered := RoutePass(start, g, orders, n, cfg), WithFate(g, cfg, start.matched, orders, n, Answered);
            && |run.solutions| == |start.solutions| + |answered| && start.solutions <= run.solutions
            && (forall k :: |start.solutions| <= k < |run.solutions| ==>
                  run.solutions[k].id == k && Fulfils(g, cfg, answered[k - |start.solutions|], run.solutions[k]))
            && run.matched == start.matched && run.cowMatches == start.cowMatches
            && run.baselineRoutes == start.baselineRoutes + |answered|
            && run.droppedNoRoute == start.droppedNoRoute + FateCount(g, cfg, start.matched, orders, n, Unroutable)
            && run.droppedLimit == start.droppedLimit + FateCount(g, cfg, start.matched, orders, n, BelowItsLimit)
            && run.droppedNotProfitable == start.droppedNotProfitable + FateCount(g, cfg, start.matched, orders, n, Unprofitable)
  {
    hide FateOf, Graph.Valid, Fulfils, RouteOrder, WithFate;
    if n == 0 {
      assert forall fate :: WithFate(g, cfg, start.matched, orders, 0, fate) == [] by { NoOrders(g, cfg, start.matched, orders); }
    } else {
      RoutePassAnswers(start, g, orders, n - 1, cfg);
      var run, order := RoutePass(start, g, orders, n - 1, cfg), orders[n - 1];
      OneMoreOrder(g, cfg, start.matched, orders, n, Answered);
      OneMoreOrder(g, cfg, start.matched, orders, n, Unroutable);
      OneMoreOrder(g, cfg, start.matched, orders, n, BelowItsLimit);
      OneMoreOrder(g, cfg, start.matched, orders, n, Unprofitable);
      if order.uid in start.matched {
        MatchedFate(g, cfg, start.matched, order);
      } else {
        OutcomeIs(g, cfg, start.matched, order, |run.solutions|);
      }
    }
  }

  lemma NoOrders(g: Graph, cfg: Config, matched: set<string>, orders: seq<Order>)
    requires g.Valid()
    ensures forall fate :: WithFate(g, cfg, matched, orders, 0, fate) == []
  {
  }

  lemma MatchedFate(g: Graph, cfg: Config, matched: set<string>, order: Order)
    requires g.Valid() && order.uid in matched
    ensures FateOf(g, cfg, matched, order) == Matched
  {
  }

  // ---------- A whole auction ----------

  /** The accepted matches of an auction. */
  ghost function AcceptedMatches(cfg: Config, orders: seq<Order>): seq<Match> {
    AcceptedOf(cfg, Matches(orders), |Matches(orders)|)
  }

  /** An uncancelled auction answers exactly the accepted matches and the orders whose fate
      is to be answered, in this order and numbered through; and every counter is the number
      of orders, or of matches, of its kind. */
  lemma FullRunAnswers(g: Graph, orders: seq<Order>, cfg: Config)
    requires g.Valid()
    ensures var run, accepted := FullRun(g, orders, cfg), AcceptedMatches(cfg, orders);
            var matched := UidsIn(accepted);
            var answered := WithFate(g, cfg, matched, orders, |orders|, Answered);
            && |run.solutions| == |accepted| + |answered|
            && (forall k :: 0 <= k < |run.solutions| ==>
                  && run.solutions[k].id == k
                  && if k < |accepted| then Exchanges(cfg, accepted[k], run.solutions[k])
                     else Fulfils(g, cfg, answered[k - |accepted|], run.solutions[k]))
            && run.cowMatches == |accepted| && run.baselineRoutes == |answered|
            && run.droppedNoRoute == FateCount(g, cfg, matched, orders, |orders|, Unroutable)
            && run.droppedLimit == FateCount(g, cfg, matched, orders, |orders|, BelowItsLimit)
            && run.droppedNotProfitable
               == FateCount(g, cfg, matched, orders, |orders|, Unprofitable) + 2 * (|Matches(orders)| - |accepted|)
  {
    hide Graph.Valid, Fulfils, Exchanges, WithFate, RoutePass, MatchPass, AcceptedOf, Matches, UidsIn;
    var matches := Matches(orders);
    var start := MatchPass(matches, |matches|, cfg);
    MatchPassAnswers(matches, |matches|, cfg);
    RoutePassAnswers(start, g, orders, |orders|, cfg);
    assert forall k :: 0 <= k < |start.solutions| ==> FullRun(g, orders, cfg).solutions[k] == start.solutions[k];
  }

  lemma CappedIs(solutions: seq<Solution>, max: int)
    ensures var capped := Capped(solutions, max);
            && |capped| == (if max <= 0 then 0 else if |solutions| < max then |solutions| else max)
            && capped <= solutions
  {
  }

  /** The solutions of both passes, in order and numbered through. */
  ghost predicate Answers(g: Graph, cfg: Config, accepted: seq<Match>, answered: seq<Order>, solutions: seq<Solution>)
    requires g.Valid() && |solutions| <= |accepted| + |answered|
  {
    forall k :: 0 <= k < |solutions| ==>
      && solutions[k].id == k
      && if k < |accepted| then Exchanges(cfg, accepted[k], solutions[k])
         else Fulfils(g, cfg, answered[k - |accepted|], solutions[k])
  }

  lemma CappedAnswers(g: Graph, orders: seq<Order>, cfg: Config)
    requires g.Valid()
    ensures var accepted := AcceptedMatches(cfg, orders);
            var answered := WithFate(g, cfg, UidsIn(accepted), orders, |orders|, Answered);
            var answers, candidates := Capped(FullRun(g, orders, cfg).solutions, cfg.maxSolutions), |accepted| + |answered|;
            && |answers| == (if cfg.maxSolutions <= 0 then 0 else if candidates < cfg.maxSolutions then candidates else cfg.maxSolutions)
            && Answers(g, cfg, accepted, answered, answers)
  {
    hide Graph.Valid, Fulfils, Exchanges, WithFate, FullRun, AcceptedMatches, UidsIn, Capped;
    FullRunAnswers(g, orders, cfg);
    CappedIs(FullRun(g, orders, cfg).solutions, cfg.maxSolutions);
  }

  /** The first supported orders, 250 of them unless configured otherwise. */
  function Considered(orders: seq<Order>, cfg: Config): seq<Order> {
    var limit := if cfg.maxOrders <= 0 then 250 else cfg.maxOrders;
    var supported := SupportedOf(orders);
    if |supported| > limit then supported[..limit] else supported
  }

  /** The pools of the first liquidity entries, 2048 of them unless configured otherwise. */
  function Usable(liquidity: seq<Liquidity>, cfg: Config): seq<Pool> {
    var limit := if cfg.maxPools <= 0 then 2048 else cfg.maxPools;
    Built(liquidity, if |liquidity| > limit then limit else |liquidity|)
  }

  /** A whole uncancelled auction, over the considered orders and the usable pools: the
      accepted matches and the answered orders, up to the cap on solutions. */
  lemma AuctionAnswers(liquidity: seq<Liquidity>, orders: seq<Order>, cfg: Config)
    ensures var g, considered := GraphOf(Usable(liquidity, cfg)), Considered(orders, cfg);
            var accepted := AcceptedMatches(cfg, considered);
            var answered := WithFate(g, cfg, UidsIn(accepted), considered, |considered|, Answered);
            var answers, candidates := FullSolutions(liquidity, orders, cfg), |accepted| + |answered|;
            && EligibleOrders(orders, cfg) == considered
            && |answers| == (if cfg.maxSolutions <= 0 then 0 else if candidates < cfg.maxSolutions then candidates else cfg.maxSolutions)
            && Answers(g, cfg, accepted, answered, answers)
  {
    hide Graph.Valid, Answers, WithFate, FullRun, AcceptedMatches, UidsIn, Eligible, SupportedOf, Built, Capped, GraphOf;
    EligibleAreFirst(orders, cfg.OrderLimit());
    CappedAnswers(GraphOf(Usable(liquidity, cfg)), Considered(orders, cfg), cfg);
  }
}
