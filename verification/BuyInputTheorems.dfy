/** Exactly when the binary search finds the least input, and that it need not. */
module BuyInputTheorems {
  import opened Arith
  import opened U256
  import opened Options
  import opened Pools
  import opened Routes
  import opened Graphs
  import opened RouteTheorems
  import opened BuyInput
  import opened PoolBuilding
  import opened StableMonotonicity
  import ConstantProduct
  import Concentrated
  import StableMath
  import WalkTheorems

  // ---------- One hop ----------

  /** Up to limit, quotes persist once they exist and never decrease. */
  ghost predicate Grows(pool: Pool, tokenIn: Token, tokenOut: Token, limit: int) {
    forall a, b :: 0 < a <= b <= limit && pool.QuoteExactInPair(tokenIn, tokenOut, a).Ok? ==>
      && pool.QuoteExactInPair(tokenIn, tokenOut, b).Ok?
      && pool.QuoteExactInPair(tokenIn, tokenOut, a).value <= pool.QuoteExactInPair(tokenIn, tokenOut, b).value
  }

  /** The largest input is quoted, or nothing up to it is. */
  ghost predicate QuotesUpTo(pool: Pool, tokenIn: Token, tokenOut: Token, limit: int) {
    || pool.QuoteExactInPair(tokenIn, tokenOut, limit).Ok?
    || forall a :: 0 < a <= limit ==> pool.QuoteExactInPair(tokenIn, tokenOut, a).Err?
  }

  lemma LimitQuoted(pool: Pool, tokenIn: Token, tokenOut: Token, limit: int)
    requires Grows(pool, tokenIn, tokenOut, limit)
    ensures QuotesUpTo(pool, tokenIn, tokenOut, limit)
  {
    hide Pool.QuoteExactInPair;
    forall a | 0 < a <= limit && pool.QuoteExactInPair(tokenIn, tokenOut, a).Ok?
      ensures pool.QuoteExactInPair(tokenIn, tokenOut, limit).Ok?
    {
    }
  }

  lemma ProductGrows(pool: Pool, tokenIn: Token, tokenOut: Token, a: int, b: int, limit: int)
    requires pool.curve.Product? && 0 < a <= b <= limit
    ensures var low, mid := pool.QuoteExactInPair(tokenIn, tokenOut, a), pool.QuoteExactInPair(tokenIn, tokenOut, b);
            low.Ok? && pool.QuoteExactInPair(tokenIn, tokenOut, limit).Ok? ==> mid.Ok? && low.value <= mid.value
  {
    hide Pool.AllTokens, ConstantProduct.NoOverflow, ConstantProduct.Output;
    if pool.QuoteExactInPair(tokenIn, tokenOut, limit).Ok? {
      var (reserveIn, reserveOut) := if tokenIn == pool.tokenB then (pool.curve.reserveB, pool.curve.reserveA)
                                     else (pool.curve.reserveA, pool.curve.reserveB);
      assert ConstantProduct.WellFormed(reserveIn, reserveOut, pool.feeNum, pool.feeDen);
      hide ConstantProduct.Quote;
      ConstantProduct.QuoteExactly(reserveIn, reserveOut, pool.feeNum, pool.feeDen, limit);
      ConstantProduct.QuoteMonotone(reserveIn, reserveOut, pool.feeNum, pool.feeDen, a, b, limit);
    }
  }

  /** A pool that is not stable grows exactly when it quotes the limit, or nothing at all. */
  lemma GrowsExactly(pool: Pool, tokenIn: Token, tokenOut: Token, limit: int)
    requires !pool.curve.Stable?
    ensures Grows(pool, tokenIn, tokenOut, limit) <==> QuotesUpTo(pool, tokenIn, tokenOut, limit)
  {
    hide Pool.AllTokens, Concentrated.Quote, ConstantProduct.Quote;
    if Grows(pool, tokenIn, tokenOut, limit) { LimitQuoted(pool, tokenIn, tokenOut, limit); }
    if pool.QuoteExactInPair(tokenIn, tokenOut, limit).Ok? {
      forall a, b | 0 < a <= b <= limit && pool.QuoteExactInPair(tokenIn, tokenOut, a).Ok?
        ensures pool.QuoteExactInPair(tokenIn, tokenOut, b).Ok?
        ensures pool.QuoteExactInPair(tokenIn, tokenOut, a).value <= pool.QuoteExactInPair(tokenIn, tokenOut, b).value
      {
        match pool.curve
        case Product(_, _) =>
          ProductGrows(pool, tokenIn, tokenOut, a, b, limit);
        case Ranged(range) =>
          WalkTheorems.QuoteMonotone(range, pool.feeNum, pool.feeDen, tokenIn == pool.Token0(), a, b, limit);
        case Unsupported(_) =>
      }
    }
  }

  function ExchangeOf(pool: Pool, tokenIn: Token, tokenOut: Token): Exchange
    requires pool.curve.Stable?
  {
    var tokens := pool.curve.tokens;
    Exchange(pool.curve.basket, |tokens|, pool.feeNum, pool.feeDen, LastIndex(tokens, tokenIn), LastIndex(tokens, tokenOut))
  }

  /** What a caller can check of one hop. A stable pool must be left with three scaled units
      of the bought token, since its quotes are ordered only while two remain. */
  ghost predicate Steady(pool: Pool, tokenIn: Token, tokenOut: Token, limit: int) {
    && QuotesUpTo(pool, tokenIn, tokenOut, limit)
    && (pool.curve.Stable? && pool.QuoteExactInPair(tokenIn, tokenOut, limit).Ok? ==>
          var x := ExchangeOf(pool, tokenIn, tokenOut);
          x.tokens <= MAX_LENGTH && x.Leaves(limit, 3))
  }

  lemma SteadyGrows(pool: Pool, tokenIn: Token, tokenOut: Token, limit: int)
    requires Steady(pool, tokenIn, tokenOut, limit)
    ensures Grows(pool, tokenIn, tokenOut, limit)
  {
    hide Pool.AllTokens, StableMath.Quote, Concentrated.Quote, ConstantProduct.Quote, Exchange.Leaves;
    if !pool.curve.Stable? {
      GrowsExactly(pool, tokenIn, tokenOut, limit);
    } else if pool.QuoteExactInPair(tokenIn, tokenOut, limit).Ok? {
      forall a, b | 0 < a <= b <= limit && pool.QuoteExactInPair(tokenIn, tokenOut, a).Ok?
        ensures pool.QuoteExactInPair(tokenIn, tokenOut, b).Ok?
        ensures pool.QuoteExactInPair(tokenIn, tokenOut, a).value <= pool.QuoteExactInPair(tokenIn, tokenOut, b).value
      {
        StableQuoteGrows(ExchangeOf(pool, tokenIn, tokenOut), a, b, limit);
      }
    }
  }

  /** For a well-formed constant-product pool steadiness is plain arithmetic: the products of
      the largest input fit. */
  lemma ProductSteady(pool: Pool, tokenIn: Token, tokenOut: Token, limit: int)
    requires WellFormedPool(pool) && pool.curve.Product?
    requires var (reserveIn, reserveOut) := if tokenIn == pool.tokenB then (pool.curve.reserveB, pool.curve.reserveA)
                                            else (pool.curve.reserveA, pool.curve.reserveB);
             ConstantProduct.NoOverflow(reserveIn, reserveOut, pool.feeNum, pool.feeDen, limit)
    ensures Steady(pool, tokenIn, tokenOut, limit)
  {
    hide Pool.AllTokens, ConstantProduct.Quote, ConstantProduct.Output;
    var (reserveIn, reserveOut) := if tokenIn == pool.tokenB then (pool.curve.reserveB, pool.curve.reserveA)
                                   else (pool.curve.reserveA, pool.curve.reserveB);
    forall a | 0 < a <= limit && pool.QuoteExactInPair(tokenIn, tokenOut, a).Ok?
      ensures pool.QuoteExactInPair(tokenIn, tokenOut, limit).Ok?
    {
      FitsU256(reserveOut, pool.feeDen - pool.feeNum, limit);
      ConstantProduct.QuoteMonotone(reserveIn, reserveOut, pool.feeNum, pool.feeDen, a, limit, limit);
    }
  }

  lemma FitsU256(reserveOut: nat, keep: nat, limit: nat)
    requires 0 < reserveOut && 0 < keep && limit * keep * reserveOut <= MAX_U256
    ensures limit <= MAX_U256
  {
    MulMono(1, keep, limit);
    MulMono(1, reserveOut, limit * keep);
  }

  // ---------- All hops of the candidates ----------

  /** The two hops of a route that can be a candidate: the first up to maxIn, the second up
      to what the first delivers for maxIn. */
  ghost predicate SteadyPair(g: Graph, i: nat, j: nat, sell: Token, mid: Token, buy: Token, maxIn: int)
    requires i < |g.pools| && j < |g.pools|
  {
    var first, second := g.pools[i], g.pools[j];
    i != j && mid != sell && mid != buy && second.Supports(mid, buy) && SumGas([first.gasEstimate, second.gasEstimate]).Some? ==>
      && Steady(first, sell, mid, maxIn)
      && (first.QuoteExactInPair(sell, mid, maxIn).Ok? ==>
            Steady(second, mid, buy, first.QuoteExactInPair(sell, mid, maxIn).value))
  }

  ghost predicate AllSteady(g: Graph, sell: Token, buy: Token, maxIn: int)
    requires g.Valid()
  {
    && (forall k :: 0 <= k < |g.PoolsFor(sell)| ==> Steady(g.pools[g.PoolsFor(sell)[k]], sell, buy, maxIn))
    && (forall m, k, l ::
          0 <= m < |g.intermediates| && 0 <= k < |g.PoolsFor(sell)| && 0 <= l < |g.PoolsFor(g.intermediates[m])| ==>
            SteadyPair(g, g.PoolsFor(sell)[k], g.PoolsFor(g.intermediates[m])[l], sell, g.intermediates[m], buy, maxIn))
  }

  lemma DirectGrows(pool: Pool, sell: Token, buy: Token, a: int, b: int, limit: int)
    requires 0 < a <= b <= limit && Grows(pool, sell, buy, limit)
    ensures var small, large := Direct(pool, sell, buy, a), Direct(pool, sell, buy, b);
            small.Some? ==> large.Some? && small.value.out <= large.value.out
  {
    hide Pool.QuoteExactInPair, Pool.AllTokens;
  }

  lemma TwoHopGrows(first: Pool, second: Pool, sell: Token, mid: Token, buy: Token, a: int, b: int, limit: int)
    requires 0 < a <= b <= limit && Grows(first, sell, mid, limit)
    requires var most := first.QuoteExactInPair(sell, mid, limit); most.Ok? ==> Grows(second, mid, buy, most.value)
    ensures var small, large := TwoHop(first, second, sell, mid, buy, a), TwoHop(first, second, sell, mid, buy, b);
            small.Some? ==> large.Some? && small.value.out <= large.value.out
  {
    QuotePositive(first, sell, mid, a);
    hide Pool.QuoteExactInPair, Pool.AllTokens;
    var small := TwoHop(first, second, sell, mid, buy, a);
    if small.Some? {
      var m, m' := first.QuoteExactInPair(sell, mid, a).value, first.QuoteExactInPair(sell, mid, b).value;
      assert m <= m' <= first.QuoteExactInPair(sell, mid, limit).value;
      assert second.QuoteExactInPair(mid, buy, m).Ok?;
    }
  }

  lemma QuotePositive(pool: Pool, tokenIn: Token, tokenOut: Token, amountIn: int)
    ensures var quote := pool.QuoteExactInPair(tokenIn, tokenOut, amountIn); quote.Ok? ==> quote.value > 0
  {
    hide Pool.AllTokens;
  }

  lemma DirectCandidateGrows(g: Graph, sell: Token, buy: Token, a: int, b: int, maxIn: int, r: Route)
    requires g.Valid() && AllSteady(g, sell, buy, maxIn) && 0 < a <= b <= maxIn
    requires r in AllDirect(g, sell, buy, a)
    ensures exists r' :: r' in AllDirect(g, sell, buy, b) && r.out <= r'.out
  {
    hide Pool.QuoteExactInPair, Pool.AllTokens, Steady;
    var n := |g.PoolsFor(sell)|;
    InDirectList(g, sell, buy, a, n, r);
    var k :| 0 <= k < n && Direct(g.pools[g.PoolsFor(sell)[k]], sell, buy, a) == Some(r);
    var pool := g.pools[g.PoolsFor(sell)[k]];
    SteadyGrows(pool, sell, buy, maxIn);
    DirectGrows(pool, sell, buy, a, b, maxIn);
    var r' := Direct(pool, sell, buy, b).value;
    InDirectList(g, sell, buy, b, n, r');
  }

  lemma TwoHopCandidateGrows(g: Graph, i: nat, j: nat, sell: Token, mid: Token, buy: Token, a: int, b: int, maxIn: int)
    requires i < |g.pools| && j < |g.pools| && SteadyPair(g, i, j, sell, mid, buy, maxIn)
    requires i != j && mid != sell && mid != buy && 0 < a <= b <= maxIn
    ensures var small, large := TwoHop(g.pools[i], g.pools[j], sell, mid, buy, a), TwoHop(g.pools[i], g.pools[j], sell, mid, buy, b);
            small.Some? ==> large.Some? && small.value.out <= large.value.out
  {
    hide Pool.QuoteExactInPair, Pool.AllTokens, Steady;
    var first, second := g.pools[i], g.pools[j];
    if TwoHop(first, second, sell, mid, buy, a).Some? {
      SteadyGrows(first, sell, mid, maxIn);
      var most := first.QuoteExactInPair(sell, mid, maxIn);
      if most.Ok? { SteadyGrows(second, mid, buy, most.value); }
      TwoHopGrows(first, second, sell, mid, buy, a, b, maxIn);
    }
  }

  lemma MidCandidateGrows(g: Graph, sell: Token, buy: Token, a: int, b: int, maxIn: int, r: Route)
    requires g.Valid() && AllSteady(g, sell, buy, maxIn) && 0 < a <= b <= maxIn
    requires r in MidList(g, sell, buy, a, |g.intermediates|)
    ensures exists r' :: r' in MidList(g, sell, buy, b, |g.intermediates|) && r.out <= r'.out
  {
    hide Pool.QuoteExactInPair, Pool.AllTokens, SteadyPair, TwoHop, MidList;
    InMidList(g, sell, buy, a, |g.intermediates|, r);
    var m :| 0 <= m < |g.intermediates| && ThroughMid(g, sell, g.intermediates[m], buy, a, r);
    var mid := g.intermediates[m];
    var k :| 0 <= k < |g.PoolsFor(sell)| && ThroughSome(g, g.PoolsFor(sell)[k], sell, mid, buy, a, r);
    var i := g.PoolsFor(sell)[k];
    var l :| 0 <= l < |g.PoolsFor(mid)| && Through(g, i, g.PoolsFor(mid)[l], sell, mid, buy, a, r);
    var j := g.PoolsFor(mid)[l];
    TwoHopCandidateGrows(g, i, j, sell, mid, buy, a, b, maxIn);
    var r' := TwoHop(g.pools[i], g.pools[j], sell, mid, buy, b).value;
    assert Through(g, i, g.PoolsFor(mid)[l], sell, mid, buy, b, r');
    assert ThroughSome(g, g.PoolsFor(sell)[k], sell, mid, buy, b, r');
    assert ThroughMid(g, sell, g.intermediates[m], buy, b, r');
    InMidList(g, sell, buy, b, |g.intermediates|, r');
  }

  /** More input stays enough, up to maxIn. */
  lemma EnoughGrows(g: Graph, sell: Token, buy: Token, want: int, a: int, b: int, maxIn: int)
    requires g.Valid() && AllSteady(g, sell, buy, maxIn) && 0 < a <= b <= maxIn
    ensures Enough(g, sell, buy, want, a) ==> Enough(g, sell, buy, want, b)
  {
    hide AllSteady, MidList, DirectList, Best;
    if Enough(g, sell, buy, want, a) {
      var small, large := Candidates(g, sell, buy, a), Candidates(g, sell, buy, b);
      BestOptimal(small);
      BestOptimal(large);
      var r := Best(small).value;
      if r in AllDirect(g, sell, buy, a) {
        DirectCandidateGrows(g, sell, buy, a, b, maxIn, r);
      } else {
        MidCandidateGrows(g, sell, buy, a, b, maxIn, r);
      }
      var r' :| r' in large && r.out <= r'.out;
      assert !Beats(r', Best(large).value);
    }
  }

  // ---------- When the minimum is found ----------

  /** The answer is the least input that is enough, and there is none only if no input within
      the budget is. */
  ghost predicate FindsLeast(g: Graph, sell: Token, buy: Token, want: int, budget: int)
    requires g.Valid()
  {
    match MinInput(g, sell, buy, want, budget)
    case None => forall x :: x <= budget ==> !Enough(g, sell, buy, want, x)
    case Some(p) => Enough(g, sell, buy, want, p.input) && forall x :: x < p.input ==> !Enough(g, sell, buy, want, x)
  }

  /** What is enough stays enough, up to maxIn. */
  ghost predicate StaysEnough(g: Graph, sell: Token, buy: Token, want: int, maxIn: int)
    requires g.Valid()
  {
    forall a, b :: 0 < a <= b <= maxIn && Enough(g, sell, buy, want, a) ==> Enough(g, sell, buy, want, b)
  }

  lemma StaysEnoughFinds(g: Graph, sell: Token, buy: Token, want: int, budget: int)
    requires g.Valid() && StaysEnough(g, sell, buy, want, budget)
    ensures FindsLeast(g, sell, buy, want, budget)
  {
    hide BestRoute, Enough;
    MinInputFeasible(g, sell, buy, want, budget);
    FoundIsEnough(g, sell, buy, want, budget);
    var found := MinInput(g, sell, buy, want, budget);
    forall x | x <= budget && (found.Some? ==> x < found.value.input)
      ensures !Enough(g, sell, buy, want, x)
    {
      if x <= 0 { NothingIsEnough(g, sell, buy, want, x); }
    }
  }

  lemma FoundIsEnough(g: Graph, sell: Token, buy: Token, want: int, budget: int)
    requires g.Valid()
    ensures var found := MinInput(g, sell, buy, want, budget);
            found.Some? ==> Enough(g, sell, buy, want, found.value.input)
  {
    hide BestRoute;
    MinInputFeasible(g, sell, buy, want, budget);
  }

  lemma NothingIsEnough(g: Graph, sell: Token, buy: Token, want: int, x: int)
    requires g.Valid() && x <= 0
    ensures !Enough(g, sell, buy, want, x)
  {
    hide BestRoute;
    NoRouteOutOfRange(g, sell, buy, x);
  }

  /** For one pair of tokens, the search finds the least input for every wanted amount and
      every budget up to maxIn exactly when the best output never falls as the input grows. */
  lemma MinInputExactlyWhenMonotone(g: Graph, sell: Token, buy: Token, maxIn: int)
    requires g.Valid()
    ensures (forall want, budget :: budget <= maxIn ==> FindsLeast(g, sell, buy, want, budget))
            <==> (forall want :: StaysEnough(g, sell, buy, want, maxIn))
  {
    hide BestRoute, Enough, MinInput;
    if forall want, budget :: budget <= maxIn ==> FindsLeast(g, sell, buy, want, budget) {
      forall want, a, b | 0 < a <= b <= maxIn && Enough(g, sell, buy, want, a)
        ensures Enough(g, sell, buy, want, b)
      {
        assert FindsLeast(g, sell, buy, want, b);
        MinInputFeasible(g, sell, buy, want, b);
      }
    }
    if forall want :: StaysEnough(g, sell, buy, want, maxIn) {
      forall want, budget | budget <= maxIn
        ensures FindsLeast(g, sell, buy, want, budget)
      {
        assert StaysEnough(g, sell, buy, want, maxIn);
        StaysEnoughFinds(g, sell, buy, want, budget);
      }
    }
  }

  /** When every hop of the candidates is steady the search returns the smallest input. */
  lemma MinInputIsGlobalMinimum(g: Graph, sell: Token, buy: Token, want: int, maxIn: int)
    requires g.Valid() && AllSteady(g, sell, buy, maxIn)
    ensures FindsLeast(g, sell, buy, want, maxIn)
  {
    hide AllSteady, BestRoute, Enough, FindsLeast;
    forall a, b | 0 < a <= b <= maxIn && Enough(g, sell, buy, want, a)
      ensures Enough(g, sell, buy, want, b)
    {
      EnoughGrows(g, sell, buy, want, a, b, maxIn);
    }
    StaysEnoughFinds(g, sell, buy, want, maxIn);
  }

  // ---------- One call ----------

  /** least is enough, and nothing smaller is. */
  ghost predicate Least(g: Graph, sell: Token, buy: Token, want: int, least: int)
    requires g.Valid()
  {
    Enough(g, sell, buy, want, least) && forall x :: x < least ==> !Enough(g, sell, buy, want, x)
  }

  /** Halving lo..hi towards goal, every midpoint from goal on is enough. */
  predicate MidpointsEnough(g: Graph, sell: Token, buy: Token, want: int, goal: int, lo: int, hi: int, fuel: nat)
    requires g.Valid()
    decreases fuel, lo
  {
    if fuel == 0 || lo > hi then true
    else
      var mid := (lo + hi) / 2;
      if mid < goal then MidpointsEnough(g, sell, buy, want, goal, mid + 1, hi, fuel - 1)
      else Enough(g, sell, buy, want, mid) && MidpointsEnough(g, sell, buy, want, goal, lo, mid - 1, fuel - 1)
  }

  /** Once the lower end has passed the least input the search cannot return to it. */
  lemma {:induction false} BisectStaysAbove(
    g: Graph, sell: Token, buy: Token, want: int, least: int, lo: int, hi: int, bestIn: int, fuel: nat)
    requires g.Valid() && least < lo && least < bestIn
    ensures Bisect(g, sell, buy, want, lo, hi, bestIn, fuel) > least
    decreases fuel
  {
    hide Enough;
    if fuel > 0 && lo <= hi {
      var mid := (lo + hi) / 2;
      if Enough(g, sell, buy, want, mid) {
        BisectStaysAbove(g, sell, buy, want, least, lo, mid - 1, mid, fuel - 1);
      } else {
        BisectStaysAbove(g, sell, buy, want, least, mid + 1, hi, bestIn, fuel - 1);
      }
    }
  }

  lemma {:induction false} BisectFindsExactly(
    g: Graph, sell: Token, buy: Token, want: int, least: int, lo: int, hi: int, bestIn: int, fuel: nat)
    requires g.Valid() && Least(g, sell, buy, want, least) && Enough(g, sell, buy, want, bestIn)
    requires lo <= least <= bestIn && (bestIn == hi || bestIn == hi + 1) && hi - lo + 1 < Pow2(fuel)
    ensures Bisect(g, sell, buy, want, lo, hi, bestIn, fuel) == least
            <==> MidpointsEnough(g, sell, buy, want, least, lo, hi, fuel)
    decreases fuel
  {
    hide Enough;
    if lo <= hi {
      var mid := (lo + hi) / 2;
      if mid < least {
        BisectFindsExactly(g, sell, buy, want, least, mid + 1, hi, bestIn, fuel - 1);
      } else if Enough(g, sell, buy, want, mid) {
        BisectFindsExactly(g, sell, buy, want, least, lo, mid - 1, mid, fuel - 1);
      } else {
        BisectStaysAbove(g, sell, buy, want, least, mid + 1, hi, bestIn, fuel - 1);
      }
    }
  }

  /** One call returns the least input exactly when every midpoint on the way to it that is
      not below it is enough. */
  lemma MinInputExactly(g: Graph, sell: Token, buy: Token, want: int, maxIn: int, least: int)
    requires g.Valid() && Least(g, sell, buy, want, least) && Enough(g, sell, buy, want, maxIn)
    ensures MinInput(g, sell, buy, want, maxIn).Some?
    ensures MinInput(g, sell, buy, want, maxIn).value.input == least
            <==> MidpointsEnough(g, sell, buy, want, least, 1, maxIn, MAX_ROUNDS)
  {
    hide BestRoute, MidpointsEnough, Bisect;
    MinInputFeasible(g, sell, buy, want, maxIn);
    if least <= 0 { NothingIsEnough(g, sell, buy, want, least); }
    if !(0 < maxIn <= MAX_U256) { NoRouteOutOfRange(g, sell, buy, maxIn); }
    var k := Exponent256();
    BisectFindsExactly(g, sell, buy, want, least, 1, maxIn, maxIn, k);
  }

  // ---------- Without steadiness the minimum can be missed ----------

  const BUDGET: int := 0x1000_0000_0000_0000

  /** Answers small inputs generously and overflows uint256 on large ones. */
  function Deep(): Pool {
    Pool("deep", 90_000, "a", "b", 0, 1, Product(1, 0x1_00000000_00000000_00000000_00000000_00000000_00000000_00))
  }

  /** Reaches two units of output only at the whole budget. */
  function Wide(): Pool {
    Pool("wide", 90_000, "a", "b", 0, 1, Product(BUDGET, 4))
  }

  lemma {:induction false} CopiesShort(tokens: seq<Token>, n: nat, token: Token, i: nat)
    requires n <= |tokens|
    ensures |Copies(tokens, n, token, i)| <= n
  {
    if n > 0 { CopiesShort(tokens, n - 1, token, i); }
  }

  lemma TwoPoolsAreFew(p: Pool, q: Pool)
    requires |p.AllTokens()| == |q.AllTokens()| == 2
    ensures FewPools([p, q])
  {
    hide Pool.AllTokens;
    forall t
      ensures |Listing([p, q], t)| <= MAX_POOLS_PER_TOKEN
    {
      CopiesShort(p.AllTokens(), 2, t, 0);
      CopiesShort(q.AllTokens(), 2, t, 1);
      assert Occurrences([p, q], 0, t) == [];
      assert Occurrences([p, q], 1, t) == Occurrences([p, q], 0, t) + Copies(p.AllTokens(), 2, t, 0);
    }
  }

  /** Over two pools of one pair only the direct routes exist. */
  lemma OnePairEnough(p: Pool, q: Pool, want: int, x: int)
    requires p.AllTokens() == q.AllTokens() == ["a", "b"] && x > 0
    ensures var g := GraphOf([p, q]);
            Enough(g, "a", "b", want, x) <==>
              (Direct(p, "a", "b", x).Some? && Direct(p, "a", "b", x).value.out >= want)
              || (Direct(q, "a", "b", x).Some? && Direct(q, "a", "b", x).value.out >= want)
  {
    hide Pool.AllTokens, Pool.QuoteExactInPair, GraphOf, Candidates, Best, FewPools, Direct, Listing, IsDirect, IsTwoHop;
    var pools, g := [p, q], GraphOf([p, q]);
    TwoPoolsAreFew(p, q);
    BestOptimal(Candidates(g, "a", "b", x));
    forall r
      ensures r in Candidates(g, "a", "b", x) <==> Direct(p, "a", "b", x) == Some(r) || Direct(q, "a", "b", x) == Some(r)
    {
      CandidatesAre(pools, "a", "b", x, r);
      DirectsAre(pools, "a", "b", x, r);
      TwoHopsAre(pools, "a", "b", x, r);
      assert IsDirect(pools, 0, "a", "b", x, r) <==> Direct(p, "a", "b", x) == Some(r);
      assert IsDirect(pools, 1, "a", "b", x, r) <==> Direct(q, "a", "b", x) == Some(r);
    }
    var direct, direct' := Direct(p, "a", "b", x), Direct(q, "a", "b", x);
    assert direct.Some? ==> direct.value in Candidates(g, "a", "b", x);
    assert direct'.Some? ==> direct'.value in Candidates(g, "a", "b", x);
  }

  lemma DirectOut(p: Pool, x: int)
    requires p.AllTokens() == ["a", "b"] && p.tokenB == "b" && p.curve.Product? && 0 < x <= MAX_U256
    ensures var quote := ConstantProduct.Quote(p.curve.reserveA, p.curve.reserveB, p.feeNum, p.feeDen, x);
            && (Direct(p, "a", "b", x).Some? <==> quote.Ok?)
            && (quote.Ok? ==> Direct(p, "a", "b", x).value.out == quote.value)
  {
    hide ConstantProduct.Quote;
  }

  lemma HalfBudgetIsShort(x: int)
    requires BUDGET / 2 <= x < BUDGET
    ensures !Enough(GraphOf([Deep(), Wide()]), "a", "b", 2, x)
  {
    hide Enough, GraphOf;
    OnePairEnough(Deep(), Wide(), 2, x);
    DirectOut(Deep(), x);
    DirectOut(Wide(), x);
    FloorGalois(4 * x, BUDGET + x, 2);
  }

  lemma EndsAreEnough()
    ensures Enough(GraphOf([Deep(), Wide()]), "a", "b", 2, 1)
    ensures Enough(GraphOf([Deep(), Wide()]), "a", "b", 2, BUDGET)
  {
    hide Enough, GraphOf;
    OnePairEnough(Deep(), Wide(), 2, 1);
    OnePairEnough(Deep(), Wide(), 2, BUDGET);
    DirectOut(Deep(), 1);
    DirectOut(Wide(), BUDGET);
  }

  /** If the upper half falls short except for the whole budget, the search ends there. */
  lemma {:induction false} BisectStaysHigh(g: Graph, sell: Token, buy: Token, want: int, lo: int, hi: int, maxIn: int, fuel: nat)
    requires g.Valid() && 1 <= lo && (hi == maxIn || (hi == maxIn - 1 && lo == maxIn))
    requires Enough(g, sell, buy, want, maxIn)
    requires forall x :: (1 + maxIn) / 2 <= x < maxIn ==> !Enough(g, sell, buy, want, x)
    ensures Bisect(g, sell, buy, want, lo, hi, maxIn, fuel) == maxIn
    decreases fuel
  {
    hide Enough;
    if fuel > 0 && lo <= hi {
      var mid := (lo + hi) / 2;
      if mid == maxIn {
        BisectStaysHigh(g, sell, buy, want, lo, maxIn - 1, maxIn, fuel - 1);
      } else {
        BisectStaysHigh(g, sell, buy, want, mid + 1, hi, maxIn, fuel - 1);
      }
    }
  }

  /** The best output is not monotone in the input once a quote overflows: here, with two
      well-formed pools, one unit is enough, and the search answers with the whole budget. */
  lemma MinInputCanMissTheMinimum()
    ensures WellFormedPool(Deep()) && WellFormedPool(Wide())
    ensures var g := GraphOf([Deep(), Wide()]);
            && Enough(g, "a", "b", 2, 1)
            && MinInput(g, "a", "b", 2, BUDGET).Some?
            && MinInput(g, "a", "b", 2, BUDGET).value.input == BUDGET
  {
    hide Enough, GraphOf, BestRoute;
    var g := GraphOf([Deep(), Wide()]);
    EndsAreEnough();
    forall x | (1 + BUDGET) / 2 <= x < BUDGET
      ensures !Enough(g, "a", "b", 2, x)
    {
      HalfBudgetIsShort(x);
    }
    BisectStaysHigh(g, "a", "b", 2, 1, BUDGET, BUDGET, MAX_ROUNDS);
    MinInputFeasible(g, "a", "b", 2, BUDGET);
  }
}
