/** Pools the builder accepts whose quotes are not what their descriptions lead one to expect. */
module Witnesses {
  import opened Arith
  import opened U256
  import opened Options
  import opened Ordering
  import opened Pools
  import opened PoolBuilding
  import opened StableExactness
  import opened StableMonotonicity
  import opened SwapMath
  import opened TickMath
  import opened WalkTheorems
  import Concentrated
  import StableMath

  // ---------- A stable pool that sells less for more ----------

  const ONE: Option<Rational> := Some(Rational(1, 1))

  const SHALLOW_LIQUIDITY: Liquidity := Liquidity(
    "stable", "shallow", Some(Rational(0, 1)), Some(90_000),
    Balances([StableEntry("a", 3155, ONE), StableEntry("b", 4, ONE)], Some(Rational(245, 1))))

  const SHALLOW_POOL: Pool := Pool("shallow", 90_000, "a", "b", 0, 1, Stable(["a", "b"], SHALLOW.basket))

  lemma ShallowBalances(entries: seq<StableEntry>)
    requires entries == [StableEntry("a", 3155, ONE), StableEntry("b", 4, ONE)]
    ensures ReadBalances(entries, ["a", "b"], 2) == Some(([3155, 4], [StableMath.FP_ONE, StableMath.FP_ONE]))
  {
    assert FindEntry(entries, "a") == Some(entries[0]);
    assert entries[1..][0] == entries[1];
    assert FindEntry(entries[1..], "b") == Some(entries[1]);
    assert ReadBalances(entries, ["a", "b"], 0) == Some(([], []));
    assert ReadBalances(entries, ["a", "b"], 1) == Some(([] + [3155], [] + [StableMath.FP_ONE]));
    assert ([] + [3155]) + [4] == [3155, 4];
    assert ([] + [StableMath.FP_ONE]) + [StableMath.FP_ONE] == [StableMath.FP_ONE, StableMath.FP_ONE];
  }

  lemma SortPair(addresses: seq<Token>)
    requires |addresses| == 2 && addresses[0] == "a" && addresses[1] == "b"
    ensures Sort(addresses, Before) == ["a", "b"]
  {
    StringsOrdered();
    assert Before("a", "b");
    SortSorted(addresses, Before);
    SortElements(addresses, Before);
    SortedUnique(Sort(addresses, Before), addresses, Before);
  }

  lemma ShallowBuilt()
    ensures BuildPool(SHALLOW_LIQUIDITY) == Some(SHALLOW_POOL)
  {
    hide Sort, ReadBalances, Before;
    var entries := [StableEntry("a", 3155, ONE), StableEntry("b", 4, ONE)];
    ShallowBalances(entries);
    SortPair(StableAddresses(entries));
    assert PoolBuilding.Scaled(Some(Rational(245, 1)), StableMath.AMP_PRECISION) == Some(245_000);
    var base := Pool("shallow", 90_000, "", "", 0, 1, Unsupported("stable"));
    assert BuildStable(base, entries, Some(Rational(245, 1))) == Some(SHALLOW_POOL);
  }

  lemma ShallowQuoted(paid: int)
    requires 0 < paid <= MAX_U256
    ensures SHALLOW_POOL.QuoteExactInPair("a", "b", paid) == SHALLOW.Quote(paid)
  {
    hide StableMath.Quote;
    var tokens := ["a", "b"];
    assert tokens[..1] == ["a"];
    assert LastIndex(tokens, "b") == 1;
    assert LastIndex(tokens, "a") == LastIndex(tokens[..1], "a") == 0;
    assert "a" in tokens && "b" in tokens;
  }

  /** The builder accepts the pool, and paying one unit more buys one less. */
  lemma ShallowPoolSellsLess()
    ensures BuildPool(SHALLOW_LIQUIDITY) == Some(SHALLOW_POOL)
    ensures SHALLOW_POOL.QuoteExactInPair("a", "b", 3364) == Ok(2)
    ensures SHALLOW_POOL.QuoteExactInPair("a", "b", 3365) == Ok(1)
  {
    hide BuildPool, Exchange.Quote, Pool.QuoteExactInPair;
    ShallowBuilt();
    ShallowQuotes();
    ShallowQuoted(3364);
    ShallowQuoted(3365);
  }

  // ---------- A concentrated pool whose price lies below its tick ----------

  const PRICE: int := Q96 / 2
  const MOVED: int := 39_614_081_257_132_248_024_934_489_432
  const DEPTH: int := 1_000_000_000_000_000_000

  const ASTRAY: Concentrated.Range := Concentrated.Range(PRICE, DEPTH, 0, [Concentrated.Tick(0, 0)])

  const ASTRAY_LIQUIDITY: Liquidity := Liquidity(
    "concentratedLiquidity", "astray", Some(Rational(0, 1)), Some(90_000),
    TickRange(["a", "b"], PRICE, DEPTH, Some(0), [NetEntry(Some(0), Some(0))]))

  const ASTRAY_POOL: Pool := Pool("astray", 90_000, "a", "b", 0, 1, Ranged(ASTRAY))

  lemma AstrayBuilt()
    ensures BuildPool(ASTRAY_LIQUIDITY) == Some(ASTRAY_POOL)
  {
    var nets, tick := [NetEntry(Some(0), Some(0))], Concentrated.Tick(0, 0);
    assert ReadTicks(nets, 0) == Some([]);
    assert ReadTicks(nets, 1) == Some([] + [tick]);
    assert [] + [tick] == [tick];
    assert Sort([tick][1..], TickBefore) == [];
    assert Sort([tick], TickBefore) == [tick];
    var base := Pool("astray", 90_000, "", "", 0, 1, Unsupported("concentratedLiquidity"));
    assert BuildRanged(base, ["a", "b"], PRICE, DEPTH, Some(0), nets) == Some(ASTRAY_POOL);
  }

  lemma MovedPrice()
    ensures NextSqrtFromInput(PRICE, DEPTH, 1000, false) == Ok(MOVED)
  {
    hide Amount0Delta, Amount1Delta;
    assert MulDiv(1000, Q96, DEPTH) == Ok(MOVED - PRICE);
  }

  lemma MovedIn()
    ensures Amount1Delta(PRICE, MOVED, DEPTH, true) == Ok(1000)
  {
    assert MulDivUp(DEPTH, MOVED - PRICE, Q96) == Ok(1000);
  }

  lemma MovedOut()
    ensures Amount0Delta(PRICE, MOVED, DEPTH, false) == Ok(3999)
  {
    var part := DEPTH * Q96 * (MOVED - PRICE) / MOVED;
    assert MulDiv(DEPTH * Q96, MOVED - PRICE, MOVED) == Ok(part);
    assert part / PRICE == 3999;
  }

  lemma FarTarget(target: int)
    requires Q96 <= target <= MAX_U160
    ensures var cost := Amount1Delta(PRICE, target, DEPTH, true); cost.Ok? && cost.value > 1000
  {
    Amount1Exact(PRICE, target, DEPTH);
    CeilGalois(DEPTH * (target - PRICE), Q96, 1000);
  }

  /** Towards either target the step raises the price: it sells token 1 for token 0. */
  lemma StepUp(target: int)
    requires Q96 <= target <= MAX_U160
    ensures ComputeSwapStep(PRICE, target, DEPTH, 1000, 0) == Ok(Step(MOVED, 1000, 3999, 0))
  {
    hide NextSqrtFromInput, Amount0Delta, Amount1Delta;
    MovedPrice();
    MovedIn();
    MovedOut();
    FarTarget(target);
    assert MulDiv(1000, MILLION, MILLION) == Ok(1000);
  }

  lemma TickZero()
    ensures GetSqrtRatioAtTick(0) == Ok(Q96)
  {
    ZeroMagnitude();
  }

  lemma AstrayTurn(zeroForOne: bool)
    ensures var target := if zeroForOne then Q96 else MAX_SQRT_RATIO - 1;
            Concentrated.TakeTurn(SwapOf(ASTRAY, zeroForOne, 0), Concentrated.Start(ASTRAY, zeroForOne, 1000))
            == Concentrated.Next(Concentrated.State(MOVED, DEPTH, 0, 3999, if zeroForOne then 0 else 1),
                                 Concentrated.Leg(PRICE, target, Step(MOVED, 1000, 3999, 0)))
  {
    hide ComputeSwapStep, GetSqrtRatioAtTick, Concentrated.FirstAbove;
    TickZero();
    assert Concentrated.FirstAbove(ASTRAY.ticks, 0) == 1;
    if zeroForOne { StepUp(Q96); } else { StepUp(MAX_SQRT_RATIO - 1); }
  }

  /** Selling either token sells token 1: the walk of a token-0 input starts at a price below
      the tick it should descend to, and goes up. */
  lemma AstrayWalk(zeroForOne: bool)
    ensures var swap := SwapOf(ASTRAY, zeroForOne, 0);
            && Concentrated.Legs(swap, Concentrated.Start(ASTRAY, zeroForOne, 1000), Concentrated.MAX_STEPS)
               == [Concentrated.Leg(PRICE, if zeroForOne then Q96 else MAX_SQRT_RATIO - 1, Step(MOVED, 1000, 3999, 0))]
            && Concentrated.Quote(ASTRAY, 0, 1, zeroForOne, 1000) == Ok(3999)
  {
    hide ComputeSwapStep, GetSqrtRatioAtTick, Concentrated.Walk, Concentrated.TakeTurn;
    var swap, start := SwapOf(ASTRAY, zeroForOne, 0), Concentrated.Start(ASTRAY, zeroForOne, 1000);
    AstrayTurn(zeroForOne);
    Concentrated.WalkTurns(swap, start, Concentrated.MAX_STEPS);
    Concentrated.WalkEnds(swap, Concentrated.TakeTurn(swap, start).state, Concentrated.MAX_STEPS - 1);
  }

  /** The builder accepts the pool, and a quote of token 0 is a quote of token 1. */
  lemma AstrayPoolGoesBackwards()
    ensures BuildPool(ASTRAY_LIQUIDITY) == Some(ASTRAY_POOL)
    ensures ASTRAY_POOL.QuoteExactInPair("a", "b", 1000) == Ok(3999) == ASTRAY_POOL.QuoteExactInPair("b", "a", 1000)
    ensures TicksSorted(ASTRAY.ticks) && !TickAhead(ASTRAY, true) && TickAhead(ASTRAY, false)
  {
    hide BuildPool, Concentrated.Quote, GetSqrtRatioAtTick, Before;
    AstrayBuilt();
    AstrayWalk(true);
    AstrayWalk(false);
    TickZero();
    assert Before("a", "b") && !Before("b", "a") by { SmallerAddress(); }
  }

  lemma SmallerAddress()
    ensures Before("a", "b") && !Before("b", "a")
  {
  }
}
