/** Bookkeeping of an uncancelled run over orders with distinct uids. */
module SolverTheorems {
  import opened Routes
  import opened BuyInput
  import opened Orders
  import opened Matching
  import opened MatchingTheorems
  import opened PoolBuilding
  import opened Solver

  ghost function TradeUids(s: Solution): set<string> {
    set t | t in s.trades :: t.uid
  }

  /** Ids are positions, all traded uids are known, and no uid is traded in two solutions. */
  ghost predicate Orderly(solutions: seq<Solution>, uids: set<string>) {
    && (forall i :: 0 <= i < |solutions| ==> solutions[i].id == i && TradeUids(solutions[i]) <= uids)
    && (forall i, j :: 0 <= i < j < |solutions| ==> TradeUids(solutions[i]) !! TradeUids(solutions[j]))
  }

  lemma OrderlyAppend(solutions: seq<Solution>, uids: set<string>, s: Solution, more: set<string>)
    requires Orderly(solutions, uids) && s.id == |solutions| && TradeUids(s) <= more && TradeUids(s) !! uids
    ensures Orderly(solutions + [s], uids + more)
  {
    hide TradeUids;
  }

  lemma {:induction false} DisjointFromAll(ms: seq<Match>, uids: set<string>)
    requires forall i :: 0 <= i < |ms| ==> Uids(ms[i]) !! uids
    ensures AllUids(ms) !! uids
  {
    if ms != [] { DisjointFromAll(ms[..|ms| - 1], uids); }
  }

  lemma EmptyIsOrderly()
    ensures Orderly([], {})
  {
  }

  lemma MatchTrades(m: Match, id: nat, gas: nat)
    ensures TradeUids(MatchSolution(m, id, gas)) == Uids(m)
  {
    var s := MatchSolution(m, id, gas);
    assert s.trades[0] in s.trades && s.trades[1] in s.trades;
  }

  // ---------- The matching pass ----------

  /** Two matched uids per accepted match. */
  ghost predicate MatchesCounted(run: Run) {
    && Orderly(run.solutions, run.matched)
    && |run.matched| == 2 * run.cowMatches && |run.solutions| == run.cowMatches
    && run.baselineRoutes == run.droppedNoRoute == run.droppedLimit == 0
  }

  lemma TakeMatchCounts(run: Run, m: Match, cfg: Config)
    requires MatchesCounted(run) && Uids(m) !! run.matched && m.a.uid != m.b.uid
    ensures var r := TakeMatch(run, m, cfg);
            && MatchesCounted(r) && r.matched <= run.matched + Uids(m)
            && r.droppedNotProfitable + 2 * r.cowMatches == run.droppedNotProfitable + 2 * run.cowMatches + 2
  {
    hide MatchGas, Orderly, TradeUids, MatchSolution;
    if Accepts(m, cfg) {
      var s := MatchSolution(m, |run.solutions|, MatchGas(cfg).value);
      MatchTrades(m, |run.solutions|, MatchGas(cfg).value);
      assert s.id == |run.solutions| by { MatchId(m, |run.solutions|, MatchGas(cfg).value); }
      OrderlyAppend(run.solutions, run.matched, s, Uids(m));
      assert |run.matched + Uids(m)| == |run.matched| + |Uids(m)|;
    }
  }

  lemma MatchId(m: Match, id: nat, gas: nat)
    ensures MatchSolution(m, id, gas).id == id
  {
  }

  /** Every match takes two orders out of the auction or counts both as unprofitable. */
  lemma {:induction false} MatchPassCounts(orders: seq<Order>, matches: seq<Match>, n: nat, cfg: Config)
    requires DisjointCrossing(orders, matches) && n <= |matches|
    ensures var run := MatchPass(matches, n, cfg);
            && MatchesCounted(run) && run.matched <= AllUids(matches[..n])
            && run.droppedNotProfitable + 2 * run.cowMatches == 2 * n
  {
    hide Crossing, TakeMatch, Orderly;
    if n == 0 {
      EmptyIsOrderly();
    } else {
      MatchPassCounts(orders, matches, n - 1, cfg);
      assert matches[..n][..n - 1] == matches[..n - 1];
      DisjointFromAll(matches[..n - 1], Uids(matches[n - 1]));
      TakeMatchCounts(MatchPass(matches, n - 1, cfg), matches[n - 1], cfg);
    }
  }

  // ---------- The routing pass ----------

  ghost function UidsOf(orders: seq<Order>): set<string> {
    set i | 0 <= i < |orders| :: orders[i].uid
  }

  lemma UidsOfNext(orders: seq<Order>, n: nat)
    requires n < |orders|
    ensures UidsOf(orders[..n + 1]) == UidsOf(orders[..n]) + {orders[n].uid}
    ensures UniqueUids(orders) ==> orders[n].uid !in UidsOf(orders[..n])
  {
    var next, now := orders[..n + 1], orders[..n];
    forall uid | uid in UidsOf(now) + {orders[n].uid}
      ensures uid in UidsOf(next)
    {
      var i :| 0 <= i < |next| && next[i].uid == uid;
    }
  }

  function Seen(run: Run): int {
    run.baselineRoutes + run.droppedNoRoute + run.droppedLimit + run.droppedNotProfitable
  }

  lemma TakeOrderCounts(run: Run, g: Graph, order: Order, cfg: Config, uids: set<string>)
    requires g.Valid() && Orderly(run.solutions, run.matched + uids) && order.uid !in uids
    ensures var r := TakeOrder(run, g, order, cfg);
            && Orderly(r.solutions, run.matched + (uids + {order.uid}))
            && r.matched == run.matched && r.cowMatches == run.cowMatches
            && |r.solutions| - r.baselineRoutes == |run.solutions| - run.baselineRoutes
            && Seen(r) == Seen(run) + (if order.uid in run.matched then 0 else 1)
  {
    hide RouteOrder, Orderly;
    Wider(run.solutions, run.matched + uids, run.matched + (uids + {order.uid}));
    if order.uid !in run.matched && RouteOrder(g, order, cfg).Routed? {
      var s := RouteOrder(g, order, cfg).solution.(id := |run.solutions|);
      RoutedTrades(g, order, cfg);
      OrderlyAppend(run.solutions, run.matched + uids, s, {order.uid});
      assert run.matched + uids + {order.uid} == run.matched + (uids + {order.uid});
    }
  }

  lemma Wider(solutions: seq<Solution>, some: set<string>, more: set<string>)
    requires Orderly(solutions, some) && some <= more
    ensures Orderly(solutions, more)
  {
    hide TradeUids;
  }

  lemma RoutedTrades(g: Graph, order: Order, cfg: Config)
    requires g.Valid() && RouteOrder(g, order, cfg).Routed?
    ensures TradeUids(RouteOrder(g, order, cfg).solution) == {order.uid}
  {
    hide BestRoute, MinInput, SumGas, Interactions, Graph.Valid;
    var s := RouteOrder(g, order, cfg).solution;
    assert s.trades[0] in s.trades;
  }

  /** Every order that is not matched is routed or counted as dropped, exactly once. */
  lemma {:induction false} RoutePassCounts(start: Run, g: Graph, orders: seq<Order>, n: nat, cfg: Config)
    requires g.Valid() && UniqueUids(orders) && Orderly(start.solutions, start.matched) && n <= |orders|
    ensures var run := RoutePass(start, g, orders, n, cfg);
            && Orderly(run.solutions, start.matched + UidsOf(orders[..n]))
            && run.matched == start.matched && run.cowMatches == start.cowMatches
            && |run.solutions| - run.baselineRoutes == |start.solutions| - start.baselineRoutes
            && Seen(run) + |start.matched * UidsOf(orders[..n])| == Seen(start) + n
  {
    hide TakeOrder, Orderly, UidsOf, Seen, Graph.Valid;
    var known := UidsOf(orders[..n]);
    if n == 0 {
      assert known == {} by { NoUids(); }
      assert start.matched + known == start.matched && start.matched * known == {};
    } else {
      RoutePassCounts(start, g, orders, n - 1, cfg);
      UidsOfNext(orders, n - 1);
      var before, uid := UidsOf(orders[..n - 1]), orders[n - 1].uid;
      TakeOrderCounts(RoutePass(start, g, orders, n - 1, cfg), g, orders[n - 1], cfg, before);
      assert start.matched * known == start.matched * before + (if uid in start.matched then {uid} else {});
    }
  }

  lemma NoUids()
    ensures UidsOf([]) == {}
  {
  }

  lemma {:induction false} MatchedAreOrders(orders: seq<Order>, ms: seq<Match>)
    requires DisjointCrossing(orders, ms)
    ensures AllUids(ms) <= UidsOf(orders)
  {
    if ms != [] {
      MatchedAreOrders(orders, ms[..|ms| - 1]);
      assert Crossing(orders, ms[|ms| - 1]);
    }
  }

  /** The books of an uncancelled run: every order, and every order of a rejected match once
      more, is accounted for exactly once; ids are positions; no order is in two solutions. */
  lemma FullRunAccounts(g: Graph, orders: seq<Order>, cfg: Config)
    requires g.Valid() && UniqueUids(orders) && AllSupported(orders)
    ensures var run := FullRun(g, orders, cfg);
            var rejected := |Matches(orders)| - run.cowMatches;
            && 0 <= rejected
            && |orders| + 2 * rejected
               == 2 * run.cowMatches + run.baselineRoutes + run.droppedNoRoute + run.droppedLimit + run.droppedNotProfitable
            && |run.solutions| == run.cowMatches + run.baselineRoutes
            && Orderly(run.solutions, UidsOf(orders))
  {
    hide Matches, MatchPass, RoutePass, Orderly, UidsOf, AllUids, DisjointCrossing, Graph.Valid;
    var matches := Matches(orders);
    MatchesMaximal(orders);
    MatchPassCounts(orders, matches, |matches|, cfg);
    MatchedAreOrders(orders, matches);
    var start := MatchPass(matches, |matches|, cfg);
    RoutePassCounts(start, g, orders, |orders|, cfg);
    assert matches[..|matches|] == matches && orders[..|orders|] == orders;
    assert start.matched * UidsOf(orders) == start.matched && start.matched + UidsOf(orders) == UidsOf(orders);
  }

  lemma OrderlyPrefix(solutions: seq<Solution>, answered: seq<Solution>, uids: set<string>)
    requires answered <= solutions && Orderly(solutions, uids)
    ensures Orderly(answered, uids)
  {
    hide TradeUids;
  }

  /** Whatever an auction with distinct uids answers, cancelled or not, uses positions as ids
      and trades every eligible order at most once. */
  lemma AnswersAreOrderly(liquidity: seq<Liquidity>, orders: seq<Order>, cfg: Config, answered: seq<Solution>)
    requires UniqueUids(orders) && answered <= FullSolutions(liquidity, orders, cfg)
    ensures Orderly(answered, UidsOf(EligibleOrders(orders, cfg)))
  {
    hide FullRun, Eligible, Built, Orderly, UidsOf, GraphFor, Graph.Valid;
    EligibleSound(orders, cfg.OrderLimit(), 0);
    EligibleUnique(orders, cfg.OrderLimit(), 0);
    var eligible, g := EligibleOrders(orders, cfg), GraphFor(liquidity, cfg);
    FullRunAccounts(g, eligible, cfg);
    OrderlyPrefix(FullRun(g, eligible, cfg).solutions, answered, UidsOf(eligible));
  }
}
