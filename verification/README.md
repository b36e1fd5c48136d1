# Verification of the solver engine

This project models the exact-integer quoting engine (`internal/amm`) and the
solver that searches over it (`internal/solve`), together with the
duplicate-name check of JSON documents (`internal/contract`), and proves what
they promise. All amounts are mathematical integers; every uint256, uint160,
int128 and uint64 limit the Go code checks is written out as a check with its
own error. `dafny verify dfyconfig.toml` checks everything.

Code that computes by expressions is a function. Code that loops over mutable
state is a method with its loop, proved equal to a function; the properties are
then proved about that function, and so hold of the loop.

- **Arithmetic.** `Arith`, `U256`: rounding, powers of two, the checked
  uint256 operations.
- **Uniswap v3 pools.** `TickMath` and `TickAccuracy` (tick to square-root price, and how
  close it is to 1.0001^(tick / 2)), `SwapMath` and `SwapTheorems` (one swap step, section
  6.2.3 of the Uniswap v3 Core whitepaper), `Concentrated` and `WalkTheorems` (the walk over
  ticks as a state machine of price, liquidity, remaining input, output and position),
  `PathTheorems` (what a quote means without the machine: the one path of steps, each at the
  liquidity of its ticks).
- **Other pools.** `ConstantProduct`; `StableMath`, `StableTheorems`,
  `StableMonotonicity` and `StableExactness` (the two Newton loops of Balancer stable
  pools, and exactly how the quote depends on its input); `Pools` and `PoolTheorems`
  (dispatch on kind and pair, stated by the tokens).
- **Reference.** `Reference` is the repository's own unchecked Python
  arithmetic; `Refinement` proves that the checked code computes the same values.
- **Routing.** `Graphs` (indexing the pools), `Routes` (ranking and candidates),
  `RouteSearch` (the cancellable loops), `RouteTheorems` and `RouteKeys` (the allowed
  routes, brute force, pool order, the tie-break), `BuyInput` and `BuyInputTheorems` (the binary search of buy orders).
- **Solving.** `Orders`, `Matching`, `MatchingTheorems`, `PoolBuilding` and
  `BuildTheorems` (which pool an entry becomes), `Witnesses` (pools that are built but do
  not quote as described), `Solver`, `Settlement`, `SolverTheorems`, `Outcomes` (what
  becomes of every order, and what its solution says).
- **JSON.** `JsonWalker`, over token streams and documents as in section 4 of
  RFC 8259.
- **Shared.** `Options`, `Ordering` (strict total orders, sorting, string
  order), `Contexts`.

A context is an oracle: an object that counts its polls and is cancelled from
an arbitrary, fixed poll onwards. Theorems about cancellation hold for every
such poll.

## How the main proofs go

- *Tick ratios.* Magnitudes a and a+1 differ in trailing bits only, and the low
  bits are multiplied in first. The twenty factors carry a certificate: a lower
  bound on the gap that remains after each factor, and a proof that each carry
  opens that gap. Flooring loses less than the gap, so strict order survives all
  20 multiplications, the reciprocal and the final rounding up.
- *Tick prices.* A table of repeated squares to 192 bits drifts from the true powers of
  1.0001^(-1/2) by less than 2^21 units, and every 128-bit factor is the nearest value with
  that much to spare. A product of factors then gains half a unit per factor and loses one
  more per floor, and the reciprocal keeps the relative error.
- *Stable balance.* With F(y) = y^2 + (b - D) y - c, the first iterate is itself a
  rounded-up Newton step, rounded-up steps land where F >= 0, and from there the
  distance to the root at least halves. 255 iterations are always enough.
- *Stable order.* Raising the sold token's balance raises b by exactly as much and never
  c, so F at the old result grows by the raise times that result, while a solved
  balance has F below 4 just under it. That leaves three small cases; one of them is
  excluded because c is even, and a pool of two tokens shows the other two.
- *Tick walk.* A step at its target does not depend on how much input is left,
  so two walks run in lockstep until the smaller input is used up.
- *Tick paths.* Every leg but the last ends on a tick, so the k-th leg stands k ticks from
  the start and its liquidity is a difference of two sums of nets. Nothing is left to choose
  on the way, so a path that uses up the input is the walk.
- *Search.* Candidate lists are characterised exactly; the fold over them returns
  an undominated route; route keys are injective on clean fields, so the
  undominated route is unique and does not depend on the order of the pools.
- *Matching.* Every visited bucket is exhausted against its reverse when it is
  left, so no free pair crosses; every other pair touches a matched order, hence
  the factor of two.

## Where the code and its documentation disagree

The comment at `internal/solve/solve.go:269-270` says that route output is
monotonic in the input for every pool kind, and the repository's README that the
binary search finds the smallest input. Neither holds in general.

- A larger input can overflow and buy nothing. `BuyInputTheorems.MinInputCanMissTheMinimum`
  gives two well-formed pools for which the search returns the whole budget although
  one unit is enough. `BuyInputTheorems.GrowsExactly` says of a single constant-product
  or concentrated pool exactly when its quotes persist and never decrease.
- A stable pool that is drained to its last unit can buy less for more, without any
  overflow: `Witnesses.ShallowPoolSellsLess` gives a pool that is built from its liquidity
  entry and sells two units for 3364 and one for 3365. `StableExactness.StableOrderExactly`
  says exactly when that can happen: only if a single scaled unit is left, and only for
  raises of the sold token's balance that differ by one or two units.
  `StableExactness.StableGuardExactly` says it by the coefficients alone, before solving:
  only if the slack b - D - c + 1 is positive and, with the difference of the raises, at
  most three.
- `BuyInputTheorems.MinInputExactlyWhenMonotone` says exactly for which pools and budgets
  the search always finds the least input, and `BuyInputTheorems.MinInputExactly` exactly
  when one call does. `BuyInput.MinInputFeasible` says what it finds in any case.

The repository's README says that malformed pools are rejected, but the price of a
concentrated pool is never compared with its tick. `computeSwapStep` reads the direction
off the prices, so a pool whose price lies on the wrong side of its first tick is quoted
backwards: `Witnesses.AstrayPoolGoesBackwards` gives a pool that is built from its
liquidity entry and for which a quote of token 0 is a quote of token 1.
`WalkTheorems.QuoteDirection` says exactly when every leg moves in the direction of the
trade: when the first tick lies ahead. A price that belongs to its tick is enough for that
(`WalkTheorems.PriceInTickIsAhead`).

## Model

| member | source | states |
|---|---|---|
| TickMath.ComputeMagnitude | internal/amm/amm.go:551-567 | the loop that multiplies and shifts in place computes the fold the theorems below are about |
| TickMath.ComputeSqrtRatioAtTick | internal/amm/amm.go:547-579 | the loop, the reciprocal and the rounding give the tick price that the theorems here and in TickAccuracy are about; for every valid tick it succeeds between the two published bounds |
| TickMath.FoldGap | internal/amm/amm.go:561-567 | a gap between two ratios survives every remaining factor and its floor, for whichever bits are set |
| TickMath.MagnitudeStep | internal/amm/amm.go:551-567 | one more unit of magnitude lowers the 128-bit ratio by well over 2^32 |
| TickMath.RatioStrictlyIncreasing | internal/amm/amm.go:546-579 | lower tick if and only if lower square-root price, over all valid ticks and across the sign change |
| TickMath.RatioInRange | internal/amm/amm.go:547-579 | every valid tick has a ratio, inside the bounds |
| TickMath.RatioAtEnds | internal/amm/amm.go:22-23 | the two published bounds are exactly the ratios of the first and the last tick |
| TickAccuracy.FactorsAreNearest | internal/amm/amm.go:25-36 | every entry of the table is the integer nearest to 2^128 * 1.0001^(-2^i / 2) |
| TickAccuracy.MagnitudeClose | internal/amm/amm.go:551-567 | all floors together lose less than 30 units of the exact 128-bit ratio and gain less than 10, whatever bits the tick has |
| TickAccuracy.PriceIsAccurate | internal/amm/amm.go:546-579 | every tick price is 2^96 * 1.0001^(tick / 2) up to one unit and one part in 2^58, across the reciprocal |
| SwapMath.Amount0Exact | internal/amm/amm.go:463-490 | two nested divisions give the single exact quotient rounded up or down, in either argument order, without overflow |
| SwapMath.Amount1Exact | internal/amm/amm.go:492-504 | the token-1 delta never fails and is the exact quotient rounded as asked |
| SwapMath.NextDown | internal/amm/amm.go:506-534 | a price exists exactly when the sum of the overflow fallback fits; both formulas round up from the exact price and stay within the start price |
| SwapMath.NextDownMono | internal/amm/amm.go:506-534 | whenever the larger input has a price so does the smaller, and it is no further along, even if they take different formulas |
| SwapMath.NextUp | internal/amm/amm.go:535-543 | the price moves by the whole quotient, which the input pays for, fails only past 160 bits, and stays short of a target exactly when the input is below its cost |
| SwapMath.StepSucceeds | internal/amm/amm.go:400-461 | a step never fails, overshoots or overconsumes; it reaches the target exactly when the fee-reduced input covers it, otherwise it consumes everything; the fee is never below its share and at the target the least that is not |
| SwapTheorems.SoundStepUnique | internal/amm/amm.go:400-461 | those properties determine the step: its price, its amounts and its fee |
| SwapTheorems.StepMono | internal/amm/amm.go:400-461 | more input never buys less, and a step that reaches its target is unchanged by more input |
| SwapTheorems.GainMono | internal/amm/amm.go:400-461 | moving the price further never pays out less |
| SwapTheorems.RoundTripNeverProfits | internal/amm/amm.go:400-504 | selling a step's output straight back, at any fee and in either direction, never passes the first price nor returns more than the first step took |
| Concentrated.FirstAbove | internal/amm/amm.go:314-317 | the position the walk starts from separates ticks at or below the current one from those above |
| Concentrated.ComputeQuote | internal/amm/amm.go:282-397 | the loop over five variables updated in place gives the quote that PathTheorems.QuoteExactly characterises, with every guard and error |
| WalkTheorems.StepAtIsGood | internal/amm/amm.go:400-461 | the swap step at any valid fee is sound and monotone, which is all that the theorems about walks ask of a step |
| WalkTheorems.TurnSound | internal/amm/amm.go:319-389 | a turn keeps the state valid and fails only for missing liquidity or an out-of-range tick, so overconsumption is unreachable |
| WalkTheorems.WalkAccounts | internal/amm/amm.go:319-389 | over a whole walk the legs account for all input spent and all output bought |
| WalkTheorems.QuoteConserves | internal/amm/amm.go:319-397 | a successful quote spends its input exactly, its legs join up, only the last stops short, and total fees are at least the fee rate on the input |
| WalkTheorems.QuoteErrors | internal/amm/amm.go:282-397 | the only errors a quote can end in |
| WalkTheorems.QuoteLess | internal/amm/amm.go:282-397 | below an input that can be quoted, a quote is no larger, or fails only because it buys nothing |
| WalkTheorems.QuoteMonotone | internal/amm/amm.go:282-397 | between two inputs that can be quoted every input can, and output never decreases, across any number of crossings |
| WalkTheorems.QuoteDirection | internal/amm/amm.go:314-389 | on sorted ticks every leg moves in the direction of the trade, within target and limit, if and only if there is no leg or the first tick lies ahead of the price |
| WalkTheorems.QuotedDirection | internal/amm/amm.go:314-397 | of a quote that succeeds the first tick alone decides whether it goes the right way |
| WalkTheorems.PriceInTickIsAhead | internal/amm/amm.go:314-317 | a price that belongs to its tick has its first tick ahead in both directions |
| Witnesses.AstrayPoolGoesBackwards | internal/solve/pools.go:112-151 | a pool that is built, with a price below its first tick, quotes token 0 as if it were token 1 |
| PathTheorems.FeePipsIs | internal/amm/amm.go:270-280 | the fee in millionths is p if and only if p is below a million and p times the denominator is the numerator times a million |
| PathTheorems.QuoteExactly | internal/amm/amm.go:282-397 | a quote is an amount if and only if the pool can start and at most 512 swap steps, each from where the last ended to the next tick price or the limit and at the liquidity of its ticks, use up the input at the fee of the pool and buy that amount |
| PathTheorems.StepAtTrades | internal/amm/amm.go:400-461 | the swap step costs and pays exactly what the given liquidity does between its two prices |
| PathTheorems.PathLiquidity | internal/amm/amm.go:314-377 | leg k costs and pays what a liquidity does that is the pool's own plus the nets of the ticks at or below its position less those at or below the pool's tick; every leg but the last ends at the price of its tick |
| PathTheorems.ReachedLiquidity | internal/amm/amm.go:368-377 | every state that a walk reaches, in either direction, has that liquidity, and from a price within its tick the position parts the ticks below the price from those above it |
| PathTheorems.TurnTakes | internal/amm/amm.go:319-389 | a turn takes the one leg of its position, and fails only if there is none or it ends beyond all liquidity |
| ConstantProduct.QuoteExactly | internal/amm/amm.go:230-267 | a quote succeeds if and only if nothing overflows and it buys something, and stays below the reserve |
| ConstantProduct.OutputIsLargest | internal/amm/amm.go:230-267 | an amount is at most the output if and only if paying it keeps the product of the reserves on the fee-reduced input |
| ConstantProduct.KeepsProduct | internal/amm/amm.go:230-267 | the product of the reserves never falls, whatever the fee |
| ConstantProduct.OutputMono | internal/amm/amm.go:230-267 | more input never buys less |
| ConstantProduct.QuoteMonotone | internal/amm/amm.go:230-267 | up to an input that does not overflow, quotes keep existing and never decrease |
| ConstantProduct.RoundTripNeverProfits | internal/amm/amm.go:230-267 | selling the output back through the updated reserves never returns more than was paid |
| StableMath.ComputeProductAndSum | internal/amm/stable.go:228-250 | the loop over the balances computes the running product and sum, failing where it fails |
| StableMath.ComputeBalanceGivenInvariant | internal/amm/stable.go:217-333 | the bounded Newton loop is the iteration the convergence theorem is about |
| StableMath.ComputeSum | internal/amm/stable.go:120-130 | the checked sum of the balances |
| StableMath.ComputeProduct | internal/amm/stable.go:142-156 | the nested rounded-down product of one round |
| StableMath.ComputeStableInvariant | internal/amm/stable.go:114-214 | the bounded loop for the invariant |
| StableMath.FillBalances | internal/amm/stable.go:63-73 | the balance buffer is filled with the upscaled balances, or the quote fails |
| StableMath.ComputeQuote | internal/amm/stable.go:37-111 | the whole stable quote, with the buffer changed in place and changed back |
| StableTheorems.NewtonDescends | internal/amm/stable.go:302-332 | from where F >= 0 a rounded-up step has a positive denominator, never rises, stays where F >= 0 and halves the distance to the root |
| StableTheorems.BalanceStepDescends | internal/amm/stable.go:302-332 | a checked step fails if and only if the squares overflow; the subtraction of the invariant never underflows |
| StableTheorems.HalvingConverges | internal/amm/stable.go:302-339 | an iteration that halves its distance to a floor settles within the logarithm of that distance |
| StableTheorems.BalanceConverges | internal/amm/stable.go:217-333 | non-convergence is never returned: past its first checks the loop succeeds if and only if the start fits, with a tight balance rounded in the pool's favour, strictly so below the start |
| StableTheorems.QuoteInvariantPositive | internal/amm/stable.go:114-214 | a quote never works with a zero invariant, so the early return that hands back neither value nor error is unreachable |
| StableMonotonicity.QuoteParts | internal/amm/stable.go:37-111 | a quote succeeds if and only if the pool is open and the raise, the remaining balance and the payout each do, and is then that payout |
| StableMonotonicity.BalanceRaised | internal/amm/stable.go:217-333 | raising another balance never leaves more of a token, except a second unit where one was left, after a raise of one or two, and only if the coefficients were near one |
| StableMonotonicity.BalanceBetween | internal/amm/stable.go:217-333 | if the balance can be solved below and above a raised balance, it can be solved there |
| StableMonotonicity.StableQuoteOrdered | internal/amm/stable.go:37-111 | more input never buys less while two scaled units are left, or when the raises are further than two units apart, or when the coefficients alone rule it out |
| StableMonotonicity.StableQuoteGrows | internal/amm/stable.go:37-111 | below an input that leaves three scaled units, quotes persist once they exist and never decrease |
| StableExactness.ShallowQuotes | internal/amm/stable.go:37-111 | a pool that sells two units for 3364 and only one for 3365 |
| StableExactness.StableOrderExactly | internal/amm/stable.go:37-111 | which units left and which raises always keep stable quotes in order, and that all others do not |
| StableExactness.StableGuardExactly | internal/amm/stable.go:37-111 | which slacks of the coefficients and which raises always keep stable quotes in order, and that all others do not |
| Witnesses.ShallowPoolSellsLess | internal/solve/pools.go:153-224 | a stable pool that is built sells two units for 3364 and one for 3365 |
| Refinement.TickRatioRefines | scripts/generate_reference_vectors.py:28-36 | every tick ratio is the one the reference computes bit by bit from its own table |
| Refinement.SingleRangeRefines | scripts/generate_reference_vectors.py:42-68 | a step that stops short, off the overflow fallback, buys what the single-range reference buys |
| Refinement.SingleRangeBounds | scripts/generate_reference_vectors.py:42-68 | a step that sells token 0 and stops short never buys more than the single-range reference, on the overflow fallback either |
| Refinement.ConstantProductRefines | scripts/generate_reference_vectors.py:38-40 | a successful constant-product quote is the reference's, and a well-formed pool quotes exactly when nothing overflows and the reference buys something |
| Refinement.BalanceRoundsRefine | scripts/generate_reference_vectors.py:102-107 | the checked balance loop follows the reference round by round |
| Refinement.BalanceRefines | scripts/generate_reference_vectors.py:89-107 | a solved balance is the reference's |
| Refinement.InvariantRoundsRefine | scripts/generate_reference_vectors.py:77-87 | the checked invariant loop follows the reference round by round |
| Refinement.InvariantRefines | scripts/generate_reference_vectors.py:70-87 | a computed invariant is the reference's |
| Refinement.StableQuoteRefines | scripts/generate_reference_vectors.py:109-120 | a successful stable quote is the reference's, both loops included |
| Pools.Pool.ComputeQuoteExactInPair | internal/amm/amm.go:199-228 | the dispatch and its index loop give the quote that PoolTheorems states by the tokens of the pair, with the errors for bad amounts, foreign pairs and unknown kinds |
| PoolTheorems.ProductPairExactly | internal/amm/amm.go:230-267 | the input joins the reserve of the sold token and the output is the single floor against the reserve of the bought one, if and only if nothing overflows and it is not dust |
| PoolTheorems.RangedPairExactly | internal/amm/amm.go:289-294 | a concentrated pool pays what a path buys that goes down from its price when the sold address is the smaller one, and up otherwise |
| PoolTheorems.RangedPairDirection | internal/amm/amm.go:289-397 | on sorted ticks from a price within its tick, all legs of a quote move the price down when the smaller address is sold and up otherwise, joined, at the fee of the pool, using up the input |
| PoolTheorems.StablePairExactly | internal/amm/amm.go:199-228 | a stable pool trades between the indices at which its list holds the two addresses, and refuses any other pair |
| Ordering.BeforeIsLexicographic | internal/amm/amm.go:291 | addresses compare as strings do: a proper prefix first, else by the first differing character |
| Routes.ComputeSumGas | internal/solve/route.go:214-223 | the gas sum, or nothing when it would wrap around uint64 |
| Routes.SumGasIsSum | internal/solve/route.go:214-223 | the gas is the plain sum exactly when that fits 64 bits |
| Routes.ComputeBetter | internal/solve/route.go:176-199 | the branches on output, gas and key keep the preferred of two routes |
| Routes.ComputeRouteKey | internal/solve/route.go:205-212 | the key that breaks ties |
| Routes.BeatsTransitive | internal/solve/route.go:176-199 | preference by output, gas and key is a strict order |
| Routes.BestOptimal | internal/solve/route.go:176-199 | keeping the better route over a list ends with one that no other beats, and with nothing only from nothing |
| Graphs.CollectIntermediates | internal/solve/route.go:46-62 | the middle tokens do not depend on the order in which the map yields them |
| Graphs.NewGraph | internal/solve/route.go:36-64 | the index lists for every token exactly its pools, with the best connected tokens as middle tokens |
| RouteSearch.BestRouteContext | internal/solve/route.go:80-166 | an error if and only if a poll found the context cancelled; otherwise the best of all candidates |
| RouteTheorems.CandidatesAre | internal/solve/route.go:80-174 | the lists hold every direct route and every two-hop route over different pools through a middle token, and nothing else |
| RouteTheorems.DirectIs | internal/solve/route.go:91-111 | a direct route is one hop of the whole amount at the pool's own quote, with the gas of that pool |
| RouteTheorems.TwoHopIs | internal/solve/route.go:113-166 | a two-hop route feeds the quote of one pool to the other, with the gas of both when it fits 64 bits |
| RouteTheorems.GasOfBest | internal/solve/route.go:80-166 | the gas of the chosen route is the sum over its pools |
| RouteTheorems.PoolsForAreFirst | internal/solve/route.go:168-174 | a search looks at the first 24 pools that list a token, in the order supplied |
| RouteTheorems.IntermediatesAreDeepest | internal/solve/route.go:46-62 | at most twelve middle tokens, each listed twice or more; one left out is listed no more often than any of twelve, and has the larger address when as often |
| RouteTheorems.BestRouteIsBest | internal/solve/route.go:80-199 | the search returns an allowed route with the most output, then the least gas, then the first key, and nothing only when there is no allowed route |
| RouteTheorems.BestRouteIsBruteForce | internal/solve/route.go:36-212 | with at most 24 pools per token and 12 busy tokens the search is the best by output, gas and key of all routes through any token |
| RouteTheorems.RouteKeyInjective | internal/solve/route.go:201-212 | equal keys name the same pools and tokens, if no field holds the separator |
| RouteKeys.KeysCompareAsFields | internal/solve/route.go:201-212 | keys compare field by field and hop by hop: kind, id, sold token, bought token, if no field holds the separator |
| RouteTheorems.BestRouteIgnoresOrder | internal/solve/route.go:36-212 | the chosen route does not depend on the order in which the pools were supplied |
| BuyInput.MinInputFor | internal/solve/solve.go:271-299 | an error if and only if a poll found the context cancelled; no partly searched input is ever returned |
| BuyInput.BisectFinds | internal/solve/solve.go:279-297 | k rounds exhaust any interval of fewer than 2^k inputs |
| BuyInput.NoRouteOutOfRange | internal/solve/solve.go:271-278 | beyond uint256 nothing is quoted, so 256 rounds always suffice |
| BuyInput.MinInputFeasible | internal/solve/solve.go:269-299 | an input is found if and only if the budget is enough; it lies within the budget, is enough, and one unit less is not |
| BuyInputTheorems.GrowsExactly | internal/solve/solve.go:269-270 | a pool that is not stable keeps quoting, for no less, up to a limit if and only if it quotes the limit or nothing at all |
| BuyInputTheorems.SteadyGrows | internal/solve/solve.go:269-270 | the same for a stable pool that is left with three units at the limit |
| BuyInputTheorems.ProductSteady | internal/solve/solve.go:269-270 | a well-formed constant-product hop is steady wherever the products of the largest input fit |
| BuyInputTheorems.EnoughGrows | internal/solve/solve.go:269-270 | where the hops of all candidate routes are steady, what is enough stays enough within the budget |
| BuyInputTheorems.MinInputIsGlobalMinimum | internal/solve/solve.go:269-299 | where the hops of all candidate routes are steady the input found is the least that is enough |
| BuyInputTheorems.MinInputExactlyWhenMonotone | internal/solve/solve.go:269-299 | the search finds the least input for every wanted amount and every budget up to a limit if and only if the best output never falls up to that limit |
| BuyInputTheorems.MinInputExactly | internal/solve/solve.go:271-299 | one call finds the least input if and only if every midpoint at or above it, on the way to it, is enough |
| BuyInputTheorems.MinInputCanMissTheMinimum | internal/solve/solve.go:269-299 | for two well-formed pools the search returns the whole budget although one unit is enough |
| Orders.ComputeEligible | internal/solve/solve.go:167-198 | the supported orders up to the limit, and the count of those passed over |
| Orders.EligibleSound | internal/solve/solve.go:167-198 | eligible orders are supported, come from the auction and respect the limit; below it every order is eligible or counted |
| Orders.EligibleIs | internal/solve/solve.go:167-198 | the eligible orders are the supported ones among those looked at, in order, the others are counted, and the look stops at the order that reaches the limit |
| Orders.EligibleAreFirst | internal/solve/solve.go:167-198 | under a limit the eligible orders are the first supported ones up to it |
| Matching.FindCoWMatches | internal/solve/solve.go:384-453 | the matches, and of a cancelled run a prefix of them |
| Matching.CollectKeys | internal/solve/solve.go:401-410 | the visiting order of the pairs does not depend on map iteration |
| MatchingTheorems.MatchesMaximal | internal/solve/solve.go:384-453 | matches are disjoint pairs with crossing limits, and no two orders left over cross |
| MatchingTheorems.MatchesAtLeastHalf | internal/solve/solve.go:384-453 | at least half as many pairs as any set of disjoint crossing pairs |
| MatchingTheorems.MatchesAreFirstChoices | internal/solve/solve.go:401-452 | every match is the first choice left by those before it: the earliest free partner for the earliest order of the first pair that still has one |
| PoolBuilding.ComputeBuildPool | internal/solve/pools.go:53-227 | the loops of the builder give the pool that BuildTheorems.BuildExactly characterises, with a fee below one, positive amounts and strictly increasing ticks, or skip the entry |
| BuildTheorems.BuildExactly | internal/solve/pools.go:53-227 | a pool is built if and only if it carries the entry: each reserve on the side of its address, each balance and scaling factor at the index of its token, each net at its tick, with the price, liquidity, tick, amplification, fee, gas, kind and id of the entry |
| BuildTheorems.BuiltKeepsTicks | internal/solve/pools.go:127-151 | a built concentrated pool lists exactly the ticks supplied |
| PoolBuilding.TotalAdds | internal/solve/pools.go:25-51 | counting a skip raises the total of all counts by exactly that much |
| PoolBuilding.BuildPoolsContext | internal/solve/pools.go:25-51 | pools built and entries skipped add up to the liquidity supplied, cancelled or not; a cancelled run has built a prefix, and an uncancelled one counts every unusable entry under its own kind |
| Contexts.Context.Cancelled | internal/solve/solve.go:79-85 | once cancelled, every later poll finds the context cancelled |
| Solver.HopsToInteractions | internal/solve/solve.go:301-314 | one interaction per hop, in order |
| Solver.ComputeRouteOrder | internal/solve/solve.go:215-267 | one order becomes the outcome that Outcomes.BuyOutcome and Outcomes.SellOutcome characterise, or the cancellation that some poll found |
| Outcomes.BuyOutcome | internal/solve/solve.go:215-246 | a buy order is answered if and only if its whole budget is enough and the gas fits; it pays an input that is enough while one unit less is not, receives what it wants, and its surplus is the rest of the budget |
| Outcomes.SellOutcome | internal/solve/solve.go:215-267 | a sell order is refused for its limit, answered or left without a route exactly by what its best route delivers; it is paid all of that, and its surplus is what exceeds the limit |
| Outcomes.MatchPassAnswers | internal/solve/solve.go:101-120 | the matching pass answers the accepted matches in order, at the two sold amounts, and counts two orders for every other match |
| Outcomes.RoutePassAnswers | internal/solve/solve.go:122-151 | the routing pass answers in order the orders that are routed and kept, and counts each other unmatched order under what became of it |
| Outcomes.FullRunAnswers | internal/solve/solve.go:96-153 | an uncancelled run answers exactly the accepted matches and then the answered orders, numbered through, and each counter is the number of its kind |
| Outcomes.AuctionAnswers | internal/solve/solve.go:66-162 | an uncancelled auction returns these for the first supported orders and the pools of the first entries, as many of them as the cap and no fewer |
| Solver.RunMatchPass | internal/solve/solve.go:101-120 | a cancelled matching pass has taken a prefix of the matches |
| Solver.RunRoutePass | internal/solve/solve.go:122-151 | a cancelled routing pass has taken a prefix of the orders |
| Solver.Solve | internal/solve/solve.go:66-162 | whatever the poll at which the context is cancelled, the solutions are a prefix of the uncancelled ones, each of them whole; uncancelled, solutions and statistics are those of the full run |
| Settlement.BestRouteCarries | internal/solve/route.go:80-166 | a route runs from the sell to the buy token through quotes of supplied pools, each hop spending what the hop before delivered |
| Settlement.ChainTelescopes | internal/solve/solve.go:301-314 | along the interactions of a route everything but its two ends cancels, in every token |
| Settlement.RoutedSettles | internal/solve/solve.go:215-267 | a routed order is executed in full, within its limit, at the clearing prices, and the pools cover the payout |
| Settlement.MatchSettles | internal/solve/solve.go:455-471 | at the two sold amounts as prices both trades of a match balance and pay for each other |
| Settlement.AnswersSettle | internal/solve/solve.go:66-162 | every solution an auction can answer with, cancelled or not, settles in this sense |
| SolverTheorems.MatchPassCounts | internal/solve/solve.go:101-120 | every match takes two orders out of the auction or counts both as unprofitable |
| SolverTheorems.RoutePassCounts | internal/solve/solve.go:122-151 | every order that was not matched is routed or counted as dropped, exactly once |
| SolverTheorems.FullRunAccounts | internal/solve/solve.go:96-153 | orders plus twice the rejected matches equal twice the matches plus routes plus drops; ids are positions; no order is in two solutions |
| SolverTheorems.AnswersAreOrderly | internal/solve/solve.go:66-162 | the same ids and exclusiveness for whatever a cancelled or capped auction answers |
| JsonWalker.Decoder.WalkValue | internal/contract/contract.go:64-117 | the recursive walker ends where the specification says, or fails with its error |
| JsonWalker.WalkDocument | internal/contract/contract.go:64-117 | on the tokens of any document the walk consumes exactly those, unless some object at some depth repeats a name, which is then the error |
| JsonWalker.WalkedDocument | internal/contract/contract.go:64-117 | whatever token stream the walk accepts is that of a document with unique names |
| JsonWalker.AcceptsExactly | internal/contract/contract.go:49-117 | the walk uses up a stream if and only if it is one document with unique names at every depth |
| JsonWalker.ValidateUniqueJson | internal/contract/contract.go:49-62 | accepts exactly the streams that end cleanly after one such document |

## Left out

- HTTP, logging, recording, reports, deadlines by wall clock, configuration from the environment: input and output only.
- Decoding: amounts, fees and JSON objects arrive parsed. A non-positive amount stands for text that does not parse as a positive integer, a missing value for text that is rejected, and the entries of a JSON object come as a sequence.
- Case folding and address formats: tokens are canonical strings in byte order, compared as the Go code compares them once they are lower case.
- The two profitability filters are arbitrary deterministic predicates of the match or of the surplus, its token and the gas; reference prices are not modelled.
- Library sorts and binary searches (`sort.Slice`, `sort.Strings`, `sort.Search`) are functions with the properties of a sort and of a search.
- Weighted pools, limit-order liquidity and partial fills are not quoted by the engine.
- uint64 solution ids are unbounded: an auction has fewer orders than ids.
- SolverTheorems.FullRunAccounts: for orders with distinct uids; the Go map of matched uids cannot tell two orders with one uid apart.
- BuyInputTheorems.MinInputIsGlobalMinimum: a condition on hops, one way only; the exact conditions are those of MinInputExactlyWhenMonotone and MinInputExactly, on the best output and on the midpoints of the search.
- BuyInputTheorems.SteadyGrows: one way for stable pools. One that ends with a single unit or two may or may not have passed an unordered pair of inputs.
- StableMonotonicity.StableQuoteGrows: for pools of fewer than 2^63 tokens, which is every slice Go can hold.
- Refinement.SingleRangeRefines: equality off the overflow fallback only. There the code uses a coarser formula, and SingleRangeBounds says that it never buys more.
- StableMath.ComputeStableInvariant: no convergence claim. The nested floors of its product allow none, so it is tied to the reference round by round instead.
- RouteKeys.KeysCompareAsFields: for key fields free of NUL.
- RouteTheorems.BestRouteIgnoresOrder: for pools with distinct ids and key fields free of NUL, at most 24 per token; beyond that the cut-off keeps whichever pools come first.
- Concentrated.FirstAbove: a linear search. The Go code uses a binary search, which agrees on sorted ticks only; built pools have sorted ticks.
- JsonWalker.Decoder.WalkValue: the decoder hands out any stream of tokens. A syntax error is the end of such a stream, so mismatched brackets, which the Go decoder refuses itself, are refused here by the walker.
