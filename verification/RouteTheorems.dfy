/** The indexed, pruned search against brute force, and its independence of pool order. */
module RouteTheorems {
  import opened U256
  import opened Options
  import opened Ordering
  import opened Pools
  import opened Routes
  import opened Graphs

  // ---------- What the candidate lists hold ----------

  lemma {:induction false} InDirectList(g: Graph, sell: Token, buy: Token, amountIn: int, n: nat, r: Route)
    requires g.Valid() && n <= |g.PoolsFor(sell)|
    ensures r in DirectList(g, sell, buy, amountIn, n) <==>
            exists k :: 0 <= k < n && Direct(g.pools[g.PoolsFor(sell)[k]], sell, buy, amountIn) == Some(r)
  {
    hide Direct;
    if n > 0 { InDirectList(g, sell, buy, amountIn, n - 1, r); }
  }

  ghost predicate Second(g: Graph, i: nat, j: nat, sell: Token, mid: Token, buy: Token, amountIn: int, midAmount: int, r: Route)
    requires i < |g.pools| && j < |g.pools|
  {
    i != j && SecondHop(g.pools[i], g.pools[j], sell, mid, buy, amountIn, midAmount) == Some(r)
  }

  lemma {:induction false} InSecondList(
    g: Graph, i: nat, sell: Token, mid: Token, buy: Token, amountIn: int, midAmount: int, n: nat, r: Route)
    requires g.Valid() && i < |g.pools| && n <= |g.PoolsFor(mid)|
    ensures r in SecondList(g, i, sell, mid, buy, amountIn, midAmount, n) <==>
            exists k :: 0 <= k < n && Second(g, i, g.PoolsFor(mid)[k], sell, mid, buy, amountIn, midAmount, r)
  {
    hide SecondHop;
    if n > 0 { InSecondList(g, i, sell, mid, buy, amountIn, midAmount, n - 1, r); }
  }

  /** r goes through pools i and j, with mid in between. */
  ghost predicate Through(g: Graph, i: nat, j: nat, sell: Token, mid: Token, buy: Token, amountIn: int, r: Route)
    requires i < |g.pools| && j < |g.pools|
  {
    i != j && TwoHop(g.pools[i], g.pools[j], sell, mid, buy, amountIn) == Some(r)
  }

  ghost predicate ThroughSome(g: Graph, i: nat, sell: Token, mid: Token, buy: Token, amountIn: int, r: Route)
    requires g.Valid() && i < |g.pools|
  {
    exists k :: 0 <= k < |g.PoolsFor(mid)| && Through(g, i, g.PoolsFor(mid)[k], sell, mid, buy, amountIn, r)
  }

  lemma {:induction false} InFirstList(g: Graph, sell: Token, mid: Token, buy: Token, amountIn: int, n: nat, r: Route)
    requires g.Valid() && n <= |g.PoolsFor(sell)|
    ensures r in FirstList(g, sell, mid, buy, amountIn, n) <==>
            exists k :: 0 <= k < n && ThroughSome(g, g.PoolsFor(sell)[k], sell, mid, buy, amountIn, r)
  {
    hide SecondHop, FirstHop, SecondList;
    if n > 0 {
      InFirstList(g, sell, mid, buy, amountIn, n - 1, r);
      var i := g.PoolsFor(sell)[n - 1];
      var midAmount := FirstHop(g.pools[i], sell, mid, amountIn);
      if midAmount.Some? {
        InSecondList(g, i, sell, mid, buy, amountIn, midAmount.value, |g.PoolsFor(mid)|, r);
        forall j: nat | j < |g.pools|
          ensures Through(g, i, j, sell, mid, buy, amountIn, r) <==> Second(g, i, j, sell, mid, buy, amountIn, midAmount.value, r)
        {
        }
      }
    }
  }

  ghost predicate ThroughMid(g: Graph, sell: Token, mid: Token, buy: Token, amountIn: int, r: Route)
    requires g.Valid()
  {
    && mid != sell && mid != buy
    && exists k :: 0 <= k < |g.PoolsFor(sell)| && ThroughSome(g, g.PoolsFor(sell)[k], sell, mid, buy, amountIn, r)
  }

  lemma {:induction false} InMidList(g: Graph, sell: Token, buy: Token, amountIn: int, n: nat, r: Route)
    requires g.Valid() && n <= |g.intermediates|
    ensures r in MidList(g, sell, buy, amountIn, n) <==>
            exists k :: 0 <= k < n && ThroughMid(g, sell, g.intermediates[k], buy, amountIn, r)
  {
    hide FirstList, ThroughSome;
    if n > 0 {
      InMidList(g, sell, buy, amountIn, n - 1, r);
      InFirstList(g, sell, g.intermediates[n - 1], buy, amountIn, |g.PoolsFor(sell)|, r);
    }
  }

  // ---------- Brute force ----------

  ghost predicate FewPools(pools: seq<Pool>) {
    forall t :: |Listing(pools, t)| <= 24
  }

  ghost predicate FewBusyTokens(pools: seq<Pool>) {
    |Busy(Counts(pools))| <= 12
  }

  /** The pool quotes the whole trade. */
  predicate Trades(pool: Pool, sell: Token, buy: Token, amountIn: int, r: Route) {
    && pool.QuoteExactInPair(sell, buy, amountIn) == Ok(r.out)
    && r.hops == [Hop(pool, sell, buy, amountIn, r.out)]
    && r.gas == pool.gasEstimate
  }

  /** The second pool quotes what the first one delivers, and the gas of both fits. */
  predicate TradesVia(first: Pool, second: Pool, sell: Token, mid: Token, buy: Token, amountIn: int, r: Route) {
    && |r.hops| == 2
    && var middle := r.hops[0].out;
    && first.QuoteExactInPair(sell, mid, amountIn) == Ok(middle)
    && second.QuoteExactInPair(mid, buy, middle) == Ok(r.out)
    && r.hops == [Hop(first, sell, mid, amountIn, middle), Hop(second, mid, buy, middle, r.out)]
    && r.gas == first.gasEstimate + second.gasEstimate < 0x1_0000_0000_0000_0000
  }

  lemma QuotedIsSupported(pool: Pool, tokenIn: Token, tokenOut: Token, amountIn: int)
    ensures pool.QuoteExactInPair(tokenIn, tokenOut, amountIn).Ok? ==> pool.Supports(tokenIn, tokenOut)
  {
    hide Pool.AllTokens;
  }

  lemma DirectIs(pool: Pool, sell: Token, buy: Token, amountIn: int, r: Route)
    ensures Direct(pool, sell, buy, amountIn) == Some(r) <==> Trades(pool, sell, buy, amountIn, r)
  {
    hide Pool.QuoteExactInPair, Pool.AllTokens, Pool.Supports;
    QuotedIsSupported(pool, sell, buy, amountIn);
  }

  lemma TwoHopIs(first: Pool, second: Pool, sell: Token, mid: Token, buy: Token, amountIn: int, r: Route)
    ensures TwoHop(first, second, sell, mid, buy, amountIn) == Some(r) <==> TradesVia(first, second, sell, mid, buy, amountIn, r)
  {
    hide Pool.QuoteExactInPair, Pool.AllTokens, Pool.Supports, SumGas;
    var middle := first.QuoteExactInPair(sell, mid, amountIn);
    QuotedIsSupported(first, sell, mid, amountIn);
    if middle.Ok? { QuotedIsSupported(second, mid, buy, middle.value); }
    var gas := [first.gasEstimate, second.gasEstimate];
    SumGasIsSum(gas);
    assert gas[..1] == [first.gasEstimate] && gas[..1][..0] == [];
    assert PlainSum(gas[..1]) == first.gasEstimate;
  }

  ghost predicate IsDirect(pools: seq<Pool>, i: int, sell: Token, buy: Token, amountIn: int, r: Route) {
    0 <= i < |pools| && Trades(pools[i], sell, buy, amountIn, r)
  }

  ghost predicate IsTwoHop(pools: seq<Pool>, i: int, j: int, sell: Token, mid: Token, buy: Token, amountIn: int, r: Route) {
    && 0 <= i < |pools| && 0 <= j < |pools| && i != j && mid != sell && mid != buy
    && TradesVia(pools[i], pools[j], sell, mid, buy, amountIn, r)
  }

  lemma DirectsAre(pools: seq<Pool>, sell: Token, buy: Token, amountIn: int, r: Route)
    ensures forall i :: IsDirect(pools, i, sell, buy, amountIn, r) <==>
              0 <= i < |pools| && Direct(pools[i], sell, buy, amountIn) == Some(r)
  {
    hide Direct, Trades;
    forall i | 0 <= i < |pools|
      ensures Trades(pools[i], sell, buy, amountIn, r) <==> Direct(pools[i], sell, buy, amountIn) == Some(r)
    {
      DirectIs(pools[i], sell, buy, amountIn, r);
    }
  }

  ghost predicate IsTwoHopOf(pools: seq<Pool>, i: int, j: int, sell: Token, mid: Token, buy: Token, amountIn: int, r: Route) {
    && 0 <= i < |pools| && 0 <= j < |pools| && i != j && mid != sell && mid != buy
    && TwoHop(pools[i], pools[j], sell, mid, buy, amountIn) == Some(r)
  }

  lemma TwoHopsAre(pools: seq<Pool>, sell: Token, buy: Token, amountIn: int, r: Route)
    ensures forall i, j, mid :: IsTwoHop(pools, i, j, sell, mid, buy, amountIn, r) <==> IsTwoHopOf(pools, i, j, sell, mid, buy, amountIn, r)
  {
    hide TwoHop, TradesVia;
    forall i, j, mid
      ensures IsTwoHop(pools, i, j, sell, mid, buy, amountIn, r) <==> IsTwoHopOf(pools, i, j, sell, mid, buy, amountIn, r)
    {
      if 0 <= i < |pools| && 0 <= j < |pools| { TwoHopIs(pools[i], pools[j], sell, mid, buy, amountIn, r); }
    }
  }

  /** Every direct route and every two-hop route over two different pools, through any token. */
  ghost predicate IsRoute(pools: seq<Pool>, sell: Token, buy: Token, amountIn: int, r: Route) {
    || (exists i :: IsDirect(pools, i, sell, buy, amountIn, r))
    || (exists i, j, mid :: IsTwoHop(pools, i, j, sell, mid, buy, amountIn, r))
  }

  lemma PoolsForIsListing(pools: seq<Pool>, t: Token)
    requires FewPools(pools)
    ensures GraphOf(pools).PoolsFor(t) == Listing(pools, t)
    ensures forall i :: i in Listing(pools, t) <==> 0 <= i < |pools| && t in pools[i].AllTokens()
  {
    hide Pool.AllTokens, Occurrences, Intermediates;
    OccurrencesElements(pools, |pools|, t);
    if Listing(pools, t) != [] {
      assert Listing(pools, t)[0] in Listing(pools, t);
    }
  }

  /** A search considers the first 24 pools a token is listed in. */
  lemma PoolsForAreFirst(pools: seq<Pool>, t: Token)
    ensures var listing := Listing(pools, t);
            GraphOf(pools).PoolsFor(t) == if |listing| > 24 then listing[..24] else listing
    ensures forall i :: i in Listing(pools, t) <==> 0 <= i < |pools| && t in pools[i].AllTokens()
    ensures Ascending(Listing(pools, t))
  {
    hide Pool.AllTokens, Occurrences, Intermediates;
    OccurrencesElements(pools, |pools|, t);
    OccurrencesAscend(pools, |pools|, t);
    if Listing(pools, t) != [] {
      assert Listing(pools, t)[0] in Listing(pools, t);
    }
  }

  predicate Ascending(s: seq<nat>) {
    forall k, l :: 0 <= k < l < |s| ==> s[k] <= s[l]
  }

  lemma {:induction false} OccurrencesAscend(pools: seq<Pool>, n: nat, token: Token)
    requires n <= |pools|
    ensures Ascending(Occurrences(pools, n, token))
  {
    hide Pool.AllTokens, Copies;
    if n > 0 {
      OccurrencesAscend(pools, n - 1, token);
      OccurrencesElements(pools, n - 1, token);
      var front, tokens := Occurrences(pools, n - 1, token), pools[n - 1].AllTokens();
      var last := Copies(tokens, |tokens|, token, n - 1);
      CopiesElements(tokens, |tokens|, token, n - 1);
      assert forall k :: 0 <= k < |front| ==> front[k] in front;
      assert forall k :: 0 <= k < |last| ==> last[k] in last;
      assert Occurrences(pools, n, token) == front + last;
    }
  }

  lemma TwelveDeepest(counts: map<Token, nat>)
    ensures var mids := Intermediates(counts);
            && |mids| <= 12
            && (forall m :: m in mids ==> m in Busy(counts))
            && forall t :: t in Busy(counts) && t !in mids ==> |mids| == 12 && forall m :: m in mids ==> Deeper(counts)(m, t)
  {
    hide Sort, Deeper;
    var busy := Enumerate(Busy(counts));
    var sorted := Sort(busy, Deeper(counts));
    DeeperOrdered(counts);
    SortSorted(busy, Deeper(counts));
    SortElements(busy, Deeper(counts));
    var mids := Intermediates(counts);
    forall t, m | t in Busy(counts) && t !in mids && m in mids
      ensures Deeper(counts)(m, t)
    {
      assert t in sorted;
      var l :| 0 <= l < |sorted| && sorted[l] == t;
      var k :| 0 <= k < |mids| && mids[k] == m;
    }
  }

  /** The middle tokens are at most twelve of those listed twice or more. One that is left out
      is listed no more often than any of the twelve chosen, and has the larger address when
      it is listed as often. */
  lemma IntermediatesAreDeepest(pools: seq<Pool>)
    ensures var mids := GraphOf(pools).intermediates;
            && |mids| <= 12
            && (forall m :: m in mids ==> |Listing(pools, m)| >= 2)
            && forall t :: |Listing(pools, t)| >= 2 && t !in mids ==>
                 |mids| == 12 && forall m :: m in mids ==>
                   |Listing(pools, m)| > |Listing(pools, t)|
                   || (|Listing(pools, m)| == |Listing(pools, t)| && Before(m, t))
  {
    hide Pool.AllTokens, Listing, Before, Intermediates, Busy;
    var counts := Counts(pools);
    TwelveDeepest(counts);
    forall t
      ensures t in Busy(counts) <==> |Listing(pools, t)| >= 2
      ensures t in Busy(counts) ==> Count(counts, t) == |Listing(pools, t)|
    {
      BusyIs(pools, t);
    }
    forall t, m | |Listing(pools, t)| >= 2 && t !in Intermediates(counts) && m in Intermediates(counts)
      ensures |Listing(pools, m)| > |Listing(pools, t)| || (|Listing(pools, m)| == |Listing(pools, t)| && Before(m, t))
    {
      assert Deeper(counts)(m, t);
    }
  }

  lemma BusyIs(pools: seq<Pool>, t: Token)
    ensures t in Busy(Counts(pools)) <==> |Listing(pools, t)| >= 2
    ensures t in Busy(Counts(pools)) ==> Count(Counts(pools), t) == |Listing(pools, t)|
  {
    hide Pool.AllTokens, Occurrences;
    OccurrencesElements(pools, |pools|, t);
    if |Listing(pools, t)| >= 2 { assert Listing(pools, t)[0] in Listing(pools, t); }
  }

  /** With few pools per token the lists hold every direct route, and every two-hop route
      through the allowed tokens. */
  lemma CandidatesAre(pools: seq<Pool>, sell: Token, buy: Token, amountIn: int, r: Route)
    requires FewPools(pools)
    ensures var g := GraphOf(pools);
            r in Candidates(g, sell, buy, amountIn) <==>
              || (exists i :: IsDirect(pools, i, sell, buy, amountIn, r))
              || (exists i, j, mid :: mid in g.intermediates && IsTwoHop(pools, i, j, sell, mid, buy, amountIn, r))
  {
    hide Pool.AllTokens, Pool.QuoteExactInPair, Listing, Intermediates, GraphOf;
    var g := GraphOf(pools);
    assert g.pools == pools by { GraphPools(pools); }
    InDirectList(g, sell, buy, amountIn, |g.PoolsFor(sell)|, r);
    InMidList(g, sell, buy, amountIn, |g.intermediates|, r);
    DirectIsListed(pools, sell, buy, amountIn, r);
    forall mid
      ensures ThroughMid(g, sell, mid, buy, amountIn, r) <==> exists i, j :: IsTwoHop(pools, i, j, sell, mid, buy, amountIn, r)
    {
      TwoHopIsListed(pools, sell, mid, buy, amountIn, r);
    }
    MemberIndex(g.intermediates);
  }

  lemma GraphPools(pools: seq<Pool>)
    ensures GraphOf(pools).pools == pools
  {
  }

  lemma MemberIndex(s: seq<Token>)
    ensures forall t :: t in s <==> exists k :: 0 <= k < |s| && s[k] == t
  {
  }

  lemma DirectIsListed(pools: seq<Pool>, sell: Token, buy: Token, amountIn: int, r: Route)
    requires FewPools(pools)
    ensures var g := GraphOf(pools);
            && g.pools == pools
            && ((exists k :: 0 <= k < |g.PoolsFor(sell)| && Direct(pools[g.PoolsFor(sell)[k]], sell, buy, amountIn) == Some(r))
                <==> exists i :: IsDirect(pools, i, sell, buy, amountIn, r))
  {
    hide Pool.AllTokens, Pool.QuoteExactInPair, Occurrences, Intermediates, IsDirect;
    PoolsForIsListing(pools, sell);
    DirectsAre(pools, sell, buy, amountIn, r);
    var listing := Listing(pools, sell);
    if i :| IsDirect(pools, i, sell, buy, amountIn, r) {
      assert i in listing;
      var k :| 0 <= k < |listing| && listing[k] == i;
    }
    forall k | 0 <= k < |listing| && Direct(pools[listing[k]], sell, buy, amountIn) == Some(r)
      ensures IsDirect(pools, listing[k], sell, buy, amountIn, r)
    {
    }
  }

  lemma TwoHopIsListed(pools: seq<Pool>, sell: Token, mid: Token, buy: Token, amountIn: int, r: Route)
    requires FewPools(pools)
    ensures ThroughMid(GraphOf(pools), sell, mid, buy, amountIn, r) <==>
            exists i, j :: IsTwoHop(pools, i, j, sell, mid, buy, amountIn, r)
  {
    hide Pool.AllTokens, Pool.QuoteExactInPair, Occurrences, Intermediates, IsTwoHop;
    var g := GraphOf(pools);
    PoolsForIsListing(pools, sell);
    PoolsForIsListing(pools, mid);
    TwoHopsAre(pools, sell, buy, amountIn, r);
    if i, j :| IsTwoHop(pools, i, j, sell, mid, buy, amountIn, r) {
      assert i in Listing(pools, sell) && j in Listing(pools, mid);
      var k :| 0 <= k < |g.PoolsFor(sell)| && g.PoolsFor(sell)[k] == i;
      var l :| 0 <= l < |g.PoolsFor(mid)| && g.PoolsFor(mid)[l] == j;
      assert Through(g, i, j, sell, mid, buy, amountIn, r);
      assert ThroughSome(g, g.PoolsFor(sell)[k], sell, mid, buy, amountIn, r);
    }
    if ThroughMid(g, sell, mid, buy, amountIn, r) {
      var k :| 0 <= k < |g.PoolsFor(sell)| && ThroughSome(g, g.PoolsFor(sell)[k], sell, mid, buy, amountIn, r);
      var l :| 0 <= l < |g.PoolsFor(mid)| && Through(g, g.PoolsFor(sell)[k], g.PoolsFor(mid)[l], sell, mid, buy, amountIn, r);
      assert IsTwoHop(pools, g.PoolsFor(sell)[k], g.PoolsFor(mid)[l], sell, mid, buy, amountIn, r);
    }
  }

  lemma TwoIndices(s: seq<nat>, i: nat, j: nat)
    requires i in s && j in s && i != j
    ensures |s| >= 2
  {
    var k :| 0 <= k < |s| && s[k] == i;
    var l :| 0 <= l < |s| && s[l] == j;
    assert k != l;
  }

  lemma BusyIsIntermediate(pools: seq<Pool>, mid: Token, i: nat, j: nat)
    requires FewPools(pools) && FewBusyTokens(pools)
    requires i < |pools| && j < |pools| && i != j && mid in pools[i].AllTokens() && mid in pools[j].AllTokens()
    ensures mid in GraphOf(pools).intermediates
  {
    hide Pool.AllTokens, Occurrences, Sort;
    PoolsForIsListing(pools, mid);
    TwoIndices(Listing(pools, mid), i, j);
    var counts := Counts(pools);
    assert mid in TokensOf(pools);
    assert mid in Busy(counts);
    SortElements(Enumerate(Busy(counts)), Deeper(counts));
  }

  /** No less output; for the same output no more gas; for the same gas no later key. */
  predicate AsGood(best: Route, r: Route) {
    && r.out <= best.out
    && (r.out == best.out ==> best.gas <= r.gas)
    && (r.out == best.out && best.gas == r.gas ==> !Before(RouteKey(r.hops), RouteKey(best.hops)))
  }

  /** A direct route through a pool listed for the sell token, or one that goes on through a
      middle token to a different pool listed for that. */
  ghost predicate IsAllowed(g: Graph, sell: Token, buy: Token, amountIn: int, r: Route)
    requires g.Valid()
  {
    || (exists i :: i in g.PoolsFor(sell) && IsDirect(g.pools, i, sell, buy, amountIn, r))
    || (exists i, j, mid :: i in g.PoolsFor(sell) && mid in g.intermediates && j in g.PoolsFor(mid)
                            && IsTwoHop(g.pools, i, j, sell, mid, buy, amountIn, r))
  }

  lemma ThroughMidIs(g: Graph, sell: Token, mid: Token, buy: Token, amountIn: int, r: Route)
    requires g.Valid()
    ensures ThroughMid(g, sell, mid, buy, amountIn, r) <==>
            exists i, j :: i in g.PoolsFor(sell) && j in g.PoolsFor(mid) && IsTwoHop(g.pools, i, j, sell, mid, buy, amountIn, r)
  {
    hide IsTwoHop, TwoHop, Graph.PoolsFor;
    TwoHopsAre(g.pools, sell, buy, amountIn, r);
    var firsts, seconds := g.PoolsFor(sell), g.PoolsFor(mid);
    if i, j :| i in firsts && j in seconds && IsTwoHop(g.pools, i, j, sell, mid, buy, amountIn, r) {
      assert IsTwoHopOf(g.pools, i, j, sell, mid, buy, amountIn, r);
      var k :| 0 <= k < |firsts| && firsts[k] == i;
      var l :| 0 <= l < |seconds| && seconds[l] == j;
      assert Through(g, i, seconds[l], sell, mid, buy, amountIn, r);
      assert ThroughSome(g, firsts[k], sell, mid, buy, amountIn, r);
    }
    if ThroughMid(g, sell, mid, buy, amountIn, r) {
      var k :| 0 <= k < |firsts| && ThroughSome(g, firsts[k], sell, mid, buy, amountIn, r);
      var l :| 0 <= l < |seconds| && Through(g, firsts[k], seconds[l], sell, mid, buy, amountIn, r);
      assert IsTwoHopOf(g.pools, firsts[k], seconds[l], sell, mid, buy, amountIn, r);
      assert firsts[k] in firsts && seconds[l] in seconds;
    }
  }

  lemma CandidatesAreAllowed(g: Graph, sell: Token, buy: Token, amountIn: int, r: Route)
    requires g.Valid()
    ensures r in Candidates(g, sell, buy, amountIn) <==> IsAllowed(g, sell, buy, amountIn, r)
  {
    hide IsDirect, IsTwoHop, Direct, ThroughMid, Graph.PoolsFor, DirectList, MidList;
    var listed := g.PoolsFor(sell);
    InDirectList(g, sell, buy, amountIn, |listed|, r);
    InMidList(g, sell, buy, amountIn, |g.intermediates|, r);
    DirectsAre(g.pools, sell, buy, amountIn, r);
    forall mid
      ensures ThroughMid(g, sell, mid, buy, amountIn, r) <==>
              exists i, j :: i in listed && j in g.PoolsFor(mid) && IsTwoHop(g.pools, i, j, sell, mid, buy, amountIn, r)
    {
      ThroughMidIs(g, sell, mid, buy, amountIn, r);
    }
    MemberIndex(g.intermediates);
    if i :| i in listed && IsDirect(g.pools, i, sell, buy, amountIn, r) {
      var k :| 0 <= k < |listed| && listed[k] == i;
    }
  }

  /** The search returns the best of all allowed routes, and nothing only when there is none. */
  lemma BestRouteIsBest(g: Graph, sell: Token, buy: Token, amountIn: int)
    requires g.Valid() && sell != buy && amountIn > 0
    ensures match BestRoute(g, sell, buy, amountIn)
            case None => forall r :: !IsAllowed(g, sell, buy, amountIn, r)
            case Some(best) =>
              && IsAllowed(g, sell, buy, amountIn, best)
              && forall r :: IsAllowed(g, sell, buy, amountIn, r) ==> AsGood(best, r)
  {
    hide Candidates, Best, IsAllowed;
    BestOptimal(Candidates(g, sell, buy, amountIn));
    forall r
      ensures r in Candidates(g, sell, buy, amountIn) <==> IsAllowed(g, sell, buy, amountIn, r)
    {
      CandidatesAreAllowed(g, sell, buy, amountIn, r);
    }
  }

  /** With at most 24 pools per token and at most 12 tokens in two or more pools, the search
      returns the optimum over all direct and two-hop routes, through any token whatever. */
  lemma BestRouteIsBruteForce(pools: seq<Pool>, sell: Token, buy: Token, amountIn: int)
    requires FewPools(pools) && FewBusyTokens(pools) && sell != buy && amountIn > 0
    ensures match BestRoute(GraphOf(pools), sell, buy, amountIn)
            case None => forall r :: !IsRoute(pools, sell, buy, amountIn, r)
            case Some(best) =>
              && IsRoute(pools, sell, buy, amountIn, best)
              && forall r :: IsRoute(pools, sell, buy, amountIn, r) ==> AsGood(best, r)
  {
    hide Pool.AllTokens, Pool.QuoteExactInPair, GraphOf, Candidates, FewPools, FewBusyTokens, Best, IsTwoHop, IsDirect;
    var g := GraphOf(pools);
    BestOptimal(Candidates(g, sell, buy, amountIn));
    forall r
      ensures r in Candidates(g, sell, buy, amountIn) <==> IsRoute(pools, sell, buy, amountIn, r)
    {
      CandidatesAre(pools, sell, buy, amountIn, r);
      TwoHopsAre(pools, sell, buy, amountIn, r);
      forall i, j, mid | IsTwoHop(pools, i, j, sell, mid, buy, amountIn, r)
        ensures mid in g.intermediates
      {
        BusyIsIntermediate(pools, mid, i, j);
      }
    }
  }

  // ---------- The gas of a route ----------

  function GasOf(hops: seq<Hop>): nat {
    if hops == [] then 0 else GasOf(hops[..|hops| - 1]) + hops[|hops| - 1].pool.gasEstimate
  }

  lemma DirectGas(pool: Pool, sell: Token, buy: Token, amountIn: int, r: Route)
    requires Direct(pool, sell, buy, amountIn) == Some(r)
    ensures r.gas == GasOf(r.hops)
  {
    hide Pool.QuoteExactInPair, Pool.AllTokens;
    assert r.hops[..0] == [];
  }

  lemma TwoHopGas(first: Pool, second: Pool, sell: Token, mid: Token, buy: Token, amountIn: int, r: Route)
    requires TwoHop(first, second, sell, mid, buy, amountIn) == Some(r)
    ensures r.gas == GasOf(r.hops)
  {
    hide Pool.QuoteExactInPair, Pool.AllTokens, SumGas;
    var gas := [first.gasEstimate, second.gasEstimate];
    SumGasIsSum(gas);
    assert gas[..1] == [first.gasEstimate] && gas[..1][..0] == [];
    assert PlainSum(gas[..1]) == first.gasEstimate;
    assert r.hops[..1] == [r.hops[0]] && r.hops[..1][..0] == [];
    assert GasOf(r.hops[..1]) == first.gasEstimate;
  }

  /** The gas of the chosen route is that of its pools. */
  lemma GasOfBest(g: Graph, sell: Token, buy: Token, amountIn: int)
    requires g.Valid()
    ensures var best := BestRoute(g, sell, buy, amountIn); best.Some? ==> best.value.gas == GasOf(best.value.hops)
  {
    hide Direct, TwoHop, Graph.PoolsFor, Best, DirectList, MidList, GasOf, Beats;
    if BestRoute(g, sell, buy, amountIn).Some? {
      var r := BestRoute(g, sell, buy, amountIn).value;
      BestOptimal(Candidates(g, sell, buy, amountIn));
      InDirectList(g, sell, buy, amountIn, |g.PoolsFor(sell)|, r);
      InMidList(g, sell, buy, amountIn, |g.intermediates|, r);
      if r in AllDirect(g, sell, buy, amountIn) {
        var k :| 0 <= k < |g.PoolsFor(sell)| && Direct(g.pools[g.PoolsFor(sell)[k]], sell, buy, amountIn) == Some(r);
        DirectGas(g.pools[g.PoolsFor(sell)[k]], sell, buy, amountIn, r);
      } else {
        var m :| 0 <= m < |g.intermediates| && ThroughMid(g, sell, g.intermediates[m], buy, amountIn, r);
        var mid := g.intermediates[m];
        var k :| 0 <= k < |g.PoolsFor(sell)| && ThroughSome(g, g.PoolsFor(sell)[k], sell, mid, buy, amountIn, r);
        var i := g.PoolsFor(sell)[k];
        var l :| 0 <= l < |g.PoolsFor(mid)| && Through(g, i, g.PoolsFor(mid)[l], sell, mid, buy, amountIn, r);
        TwoHopGas(g.pools[i], g.pools[g.PoolsFor(mid)[l]], sell, mid, buy, amountIn, r);
      }
    }
  }

  // ---------- The order of the pools does not matter ----------

  predicate NulFree(s: string) { '\0' !in s }

  /** Pools whose key fields cannot imitate the separators of a route key. */
  ghost predicate CleanPools(pools: seq<Pool>) {
    && (forall p :: p in pools ==> NulFree(p.Kind()) && NulFree(p.id))
    && (forall p, t :: p in pools && t in p.AllTokens() ==> NulFree(t))
    && (forall i, j :: 0 <= i < j < |pools| ==> pools[i].id != pools[j].id)
  }

  lemma FieldsSplit(a: string, b: string, x: string, y: string)
    requires NulFree(a) && NulFree(b) && a + "\0" + x == b + "\0" + y
    ensures a == b && x == y
  {
    var left, right := a + "\0" + x, b + "\0" + y;
    FirstNul(a, x);
    FirstNul(b, y);
    assert |a| == |b|;
    assert left[..|a|] == a && right[..|b|] == b;
    assert left[|a| + 1..] == x && right[|b| + 1..] == y;
  }

  lemma FirstNul(a: string, x: string)
    requires NulFree(a)
    ensures var s := a + "\0" + x; s[|a|] == '\0' && forall k :: 0 <= k < |a| ==> s[k] != '\0'
  {
  }

  ghost predicate CleanHop(h: Hop) {
    NulFree(h.pool.Kind()) && NulFree(h.pool.id) && NulFree(h.tokenIn) && NulFree(h.tokenOut)
  }

  lemma HopKeySplit(h: Hop, h': Hop, x: string, y: string)
    requires CleanHop(h) && CleanHop(h') && HopKey(h) + "\0" + x == HopKey(h') + "\0" + y
    ensures h.pool.id == h'.pool.id && h.tokenIn == h'.tokenIn && h.tokenOut == h'.tokenOut && x == y
  {
    hide Pool.Kind;
    var after3, after3' := h.tokenOut + "\0" + x, h'.tokenOut + "\0" + y;
    var after2, after2' := h.tokenIn + "\0" + after3, h'.tokenIn + "\0" + after3';
    var after1, after1' := h.pool.id + "\0" + after2, h'.pool.id + "\0" + after2';
    assert HopKey(h) + "\0" + x == h.pool.Kind() + "\0" + after1;
    assert HopKey(h') + "\0" + y == h'.pool.Kind() + "\0" + after1';
    FieldsSplit(h.pool.Kind(), h'.pool.Kind(), after1, after1');
    FieldsSplit(h.pool.id, h'.pool.id, after2, after2');
    FieldsSplit(h.tokenIn, h'.tokenIn, after3, after3');
    FieldsSplit(h.tokenOut, h'.tokenOut, x, y);
  }

  /** What follows the first hop in a route key. */
  ghost function KeyTail(hops: seq<Hop>): string
    requires 1 <= |hops| <= 2
  {
    if |hops| == 1 then "" else HopKey(hops[1]) + "\0"
  }

  lemma RouteKeyStep(hops: seq<Hop>, last: Hop)
    ensures RouteKey([]) == ""
    ensures RouteKey(hops + [last]) == RouteKey(hops) + (HopKey(last) + "\0")
  {
    hide HopKey;
    assert (hops + [last])[..|hops|] == hops;
  }

  lemma RouteKeyOf(hops: seq<Hop>)
    requires 1 <= |hops| <= 2
    ensures RouteKey(hops) == HopKey(hops[0]) + "\0" + KeyTail(hops)
  {
    hide HopKey, RouteKey;
    RouteKeyStep([], hops[0]);
    assert [] + [hops[0]] == [hops[0]];
    assert "" + (HopKey(hops[0]) + "\0") == HopKey(hops[0]) + "\0";
    if |hops| == 1 {
      assert hops == [hops[0]];
    } else {
      RouteKeyStep([hops[0]], hops[1]);
      assert hops == [hops[0]] + [hops[1]];
    }
  }

  ghost predicate SameHop(h: Hop, h': Hop) {
    h.pool.id == h'.pool.id && h.tokenIn == h'.tokenIn && h.tokenOut == h'.tokenOut
  }

  lemma KeyTailSplit(hops: seq<Hop>, hops': seq<Hop>)
    requires 1 <= |hops| <= 2 && 1 <= |hops'| <= 2 && KeyTail(hops) == KeyTail(hops')
    requires (forall h :: h in hops ==> CleanHop(h)) && (forall h :: h in hops' ==> CleanHop(h))
    ensures |hops| == |hops'| && (|hops| == 2 ==> SameHop(hops[1], hops'[1]))
  {
    hide HopKey, CleanHop;
    if |hops| == 2 && |hops'| == 2 {
      var key, key' := HopKey(hops[1]) + "\0", HopKey(hops'[1]) + "\0";
      assert key + "" == key && key' + "" == key';
      HopKeySplit(hops[1], hops'[1], "", "");
    }
  }

  /** Equal route keys name the same pools and tokens, hop by hop. */
  lemma RouteKeyInjective(hops: seq<Hop>, hops': seq<Hop>)
    requires 1 <= |hops| <= 2 && 1 <= |hops'| <= 2
    requires (forall h :: h in hops ==> CleanHop(h)) && (forall h :: h in hops' ==> CleanHop(h))
    requires RouteKey(hops) == RouteKey(hops')
    ensures |hops| == |hops'| && forall k :: 0 <= k < |hops| ==> SameHop(hops[k], hops'[k])
  {
    hide HopKey, CleanHop, RouteKey, KeyTail;
    RouteKeyOf(hops);
    RouteKeyOf(hops');
    HopKeySplit(hops[0], hops'[0], KeyTail(hops), KeyTail(hops'));
    KeyTailSplit(hops, hops');
  }

  /** A candidate, told by its pools rather than by their positions. */
  ghost predicate IsCandidate(
    pools: seq<Pool>, mids: seq<Token>, sell: Token, buy: Token, amountIn: int, r: Route)
  {
    || (exists p :: p in pools && Direct(p, sell, buy, amountIn) == Some(r))
    || (exists p, q, mid :: p in pools && q in pools && Pivots(mids, p, q, sell, mid, buy, amountIn, r))
  }

  ghost predicate Pivots(mids: seq<Token>, p: Pool, q: Pool, sell: Token, mid: Token, buy: Token, amountIn: int, r: Route) {
    p != q && mid in mids && mid != sell && mid != buy && TwoHop(p, q, sell, mid, buy, amountIn) == Some(r)
  }

  lemma CandidatesByPool(pools: seq<Pool>, sell: Token, buy: Token, amountIn: int, r: Route)
    requires FewPools(pools) && CleanPools(pools)
    ensures var g := GraphOf(pools);
            r in Candidates(g, sell, buy, amountIn) <==> IsCandidate(pools, g.intermediates, sell, buy, amountIn, r)
  {
    hide Pool.AllTokens, Pool.QuoteExactInPair, GraphOf, Candidates, FewPools, Direct, TwoHop, IsDirect, IsTwoHop;
    var mids := GraphOf(pools).intermediates;
    CandidatesAre(pools, sell, buy, amountIn, r);
    DirectsAre(pools, sell, buy, amountIn, r);
    TwoHopsAre(pools, sell, buy, amountIn, r);
    if i :| IsDirect(pools, i, sell, buy, amountIn, r) {
      assert pools[i] in pools;
    }
    if p :| p in pools && Direct(p, sell, buy, amountIn) == Some(r) {
      var i :| 0 <= i < |pools| && pools[i] == p;
      assert IsDirect(pools, i, sell, buy, amountIn, r);
    }
    if i, j, mid :| mid in mids && IsTwoHop(pools, i, j, sell, mid, buy, amountIn, r) {
      assert pools[i].id != pools[j].id;
      assert Pivots(mids, pools[i], pools[j], sell, mid, buy, amountIn, r);
    }
    if p, q, mid :| p in pools && q in pools && Pivots(mids, p, q, sell, mid, buy, amountIn, r) {
      var i :| 0 <= i < |pools| && pools[i] == p;
      var j :| 0 <= j < |pools| && pools[j] == q;
      assert IsTwoHop(pools, i, j, sell, mid, buy, amountIn, r);
    }
  }

  /** The shape of a candidate: clean keys, pools of the list, and nothing the pools and
      tokens of its hops do not determine. */
  lemma CandidateShape(pools: seq<Pool>, mids: seq<Token>, sell: Token, buy: Token, amountIn: int, r: Route)
    requires CleanPools(pools) && IsCandidate(pools, mids, sell, buy, amountIn, r)
    ensures 1 <= |r.hops| <= 2
    ensures forall h :: h in r.hops ==> h.pool in pools && CleanHop(h)
    ensures |r.hops| == 1 ==> Direct(r.hops[0].pool, sell, buy, amountIn) == Some(r)
    ensures |r.hops| == 2 ==> TwoHop(r.hops[0].pool, r.hops[1].pool, sell, r.hops[0].tokenOut, buy, amountIn) == Some(r)
  {
    hide Pool.AllTokens, Pool.QuoteExactInPair, Pool.Kind;
    if p :| p in pools && Direct(p, sell, buy, amountIn) == Some(r) {
      assert r.hops[0].pool == p;
    } else {
      var p, q, mid :| p in pools && q in pools && Pivots(mids, p, q, sell, mid, buy, amountIn, r);
      assert r.hops[0].pool == p && r.hops[1].pool == q;
    }
  }

  /** Two candidates of the same search that do not beat each other are the same route. */
  lemma UndominatedUnique(pools: seq<Pool>, mids: seq<Token>, sell: Token, buy: Token, amountIn: int, r: Route, r': Route)
    requires CleanPools(pools)
    requires IsCandidate(pools, mids, sell, buy, amountIn, r) && IsCandidate(pools, mids, sell, buy, amountIn, r')
    requires !Beats(r, r') && !Beats(r', r)
    ensures r == r'
  {
    hide Direct, TwoHop, IsCandidate, RouteKey;
    CandidateShape(pools, mids, sell, buy, amountIn, r);
    CandidateShape(pools, mids, sell, buy, amountIn, r');
    BeforeTotal(RouteKey(r.hops), RouteKey(r'.hops));
    RouteKeyInjective(r.hops, r'.hops);
    forall k | 0 <= k < |r.hops|
      ensures r.hops[k].pool == r'.hops[k].pool
    {
      assert r.hops[k] in r.hops && r'.hops[k] in r'.hops;
      SameId(pools, r.hops[k].pool, r'.hops[k].pool);
    }
  }

  lemma SameId(pools: seq<Pool>, p: Pool, q: Pool)
    requires CleanPools(pools) && p in pools && q in pools && p.id == q.id
    ensures p == q
  {
    var i :| 0 <= i < |pools| && pools[i] == p;
    var j :| 0 <= j < |pools| && pools[j] == q;
  }

  // ---------- Counting does not depend on the order either ----------

  function Weight(pool: Pool, token: Token): nat {
    |Copies(pool.AllTokens(), |pool.AllTokens()|, token, 0)|
  }

  lemma {:induction false} CopiesLength(tokens: seq<Token>, n: nat, token: Token, i: nat)
    requires n <= |tokens|
    ensures |Copies(tokens, n, token, i)| == |Copies(tokens, n, token, 0)|
  {
    if n > 0 { CopiesLength(tokens, n - 1, token, i); }
  }

  function TotalWeight(pools: seq<Pool>, token: Token): nat {
    if pools == [] then 0 else Weight(pools[0], token) + TotalWeight(pools[1..], token)
  }

  lemma {:induction false} WeightSplit(a: seq<Pool>, b: seq<Pool>, token: Token)
    ensures TotalWeight(a + b, token) == TotalWeight(a, token) + TotalWeight(b, token)
  {
    if a == [] {
      assert a + b == b;
    } else {
      assert (a + b)[1..] == a[1..] + b;
      WeightSplit(a[1..], b, token);
    }
  }

  lemma {:induction false} WeightPermuted(a: seq<Pool>, b: seq<Pool>, token: Token)
    requires multiset(a) == multiset(b)
    ensures TotalWeight(a, token) == TotalWeight(b, token)
  {
    hide Weight;
    if a == [] {
      assert |b| == |multiset(b)| == 0;
    } else {
      assert a[0] in multiset(b);
      var j :| 0 <= j < |b| && b[j] == a[0];
      assert b == b[..j] + ([b[j]] + b[j + 1..]);
      RemoveHead(a, b, j);
      WeightPermuted(a[1..], b[..j] + b[j + 1..], token);
      WeightSplit(b[..j], b[j + 1..], token);
      WeightSplit(b[..j], [b[j]] + b[j + 1..], token);
      assert ([b[j]] + b[j + 1..])[1..] == b[j + 1..];
    }
  }

  lemma {:induction false} ListingLength(pools: seq<Pool>, n: nat, token: Token)
    requires n <= |pools|
    ensures |Occurrences(pools, n, token)| == TotalWeight(pools[..n], token)
  {
    hide Pool.AllTokens;
    if n > 0 {
      ListingLength(pools, n - 1, token);
      CopiesLength(pools[n - 1].AllTokens(), |pools[n - 1].AllTokens()|, token, n - 1);
      assert pools[..n] == pools[..n - 1] + [pools[n - 1]];
      WeightSplit(pools[..n - 1], [pools[n - 1]], token);
      assert TotalWeight([pools[n - 1]], token) == Weight(pools[n - 1], token) + TotalWeight([], token);
    }
  }

  lemma ListingPermuted(a: seq<Pool>, b: seq<Pool>, token: Token)
    requires multiset(a) == multiset(b)
    ensures |Listing(a, token)| == |Listing(b, token)|
  {
    hide Occurrences;
    ListingLength(a, |a|, token);
    ListingLength(b, |b|, token);
    assert a[..|a|] == a && b[..|b|] == b;
    WeightPermuted(a, b, token);
  }

  lemma SamePools(a: seq<Pool>, b: seq<Pool>)
    requires multiset(a) == multiset(b)
    ensures forall p :: p in a <==> p in b
  {
    forall p
      ensures p in a <==> p in b
    {
      assert p in a <==> p in multiset(a);
      assert p in b <==> p in multiset(b);
    }
  }

  lemma TwicePresent(pools: seq<Pool>, i: nat, j: nat)
    requires i < j < |pools| && pools[i] == pools[j]
    ensures multiset(pools)[pools[i]] >= 2
  {
    assert pools == pools[..j] + pools[j..];
    assert pools[i] == pools[..j][i] && pools[j] == pools[j..][0];
    assert pools[i] in multiset(pools[..j]) && pools[j] in multiset(pools[j..]);
  }

  lemma OncePresent(pools: seq<Pool>, i: nat)
    requires i < |pools| && forall k, l :: 0 <= k < l < |pools| ==> pools[k] != pools[l]
    ensures multiset(pools)[pools[i]] == 1
  {
    var before, after := pools[..i], pools[i + 1..];
    assert pools == before + [pools[i]] + after;
    assert pools[i] !in before && pools[i] !in after;
    assert pools[i] !in multiset(before) && pools[i] !in multiset(after);
  }

  /** Clean key fields and distinct ids do not depend on the order either. */
  lemma CleanPermuted(a: seq<Pool>, b: seq<Pool>)
    requires multiset(a) == multiset(b) && CleanPools(a)
    ensures CleanPools(b)
  {
    hide Pool.AllTokens, Pool.Kind, NulFree;
    SamePools(a, b);
    forall i, j | 0 <= i < j < |b|
      ensures b[i].id != b[j].id
    {
      assert b[i] in a && b[j] in a;
      var k :| 0 <= k < |a| && a[k] == b[i];
      var l :| 0 <= l < |a| && a[l] == b[j];
      if k == l {
        TwicePresent(b, i, j);
        OncePresent(a, k);
      }
    }
  }

  lemma IntermediatesPermuted(a: seq<Pool>, b: seq<Pool>)
    requires multiset(a) == multiset(b)
    ensures GraphOf(a).intermediates == GraphOf(b).intermediates
  {
    hide Pool.AllTokens, Occurrences, Intermediates, Listing;
    SamePools(a, b);
    forall t
      ensures t in TokensOf(a) <==> t in TokensOf(b)
    {
      TokensByPool(a, t);
      TokensByPool(b, t);
    }
    forall t
      ensures |Listing(a, t)| == |Listing(b, t)|
    {
      ListingPermuted(a, b, t);
    }
    assert Counts(a) == Counts(b);
  }

  lemma TokensByPool(pools: seq<Pool>, t: Token)
    ensures t in TokensOf(pools) <==> exists p :: p in pools && t in p.AllTokens()
  {
    hide Pool.AllTokens;
    if t in TokensOf(pools) {
      var i :| 0 <= i < |pools| && t in pools[i].AllTokens();
      assert pools[i] in pools;
    }
  }

  /** With at most 24 pools per token, distinct pool ids and clean keys, the chosen route
      does not depend on the order of the pools, however many tokens are busy. */
  lemma BestRouteIgnoresOrder(a: seq<Pool>, b: seq<Pool>, sell: Token, buy: Token, amountIn: int)
    requires multiset(a) == multiset(b)
    requires FewPools(a) && CleanPools(a)
    ensures BestRoute(GraphOf(a), sell, buy, amountIn) == BestRoute(GraphOf(b), sell, buy, amountIn)
  {
    hide Pool.AllTokens, GraphOf, Candidates, Beats, Best, Listing, Direct, TwoHop, CleanPools, Pivots;
    var g, g' := GraphOf(a), GraphOf(b);
    assert FewPools(b) by {
      forall t
        ensures |Listing(b, t)| <= MAX_POOLS_PER_TOKEN
      {
        ListingPermuted(a, b, t);
      }
    }
    CleanPermuted(a, b);
    IntermediatesPermuted(a, b);
    SamePools(a, b);
    BestOptimal(Candidates(g, sell, buy, amountIn));
    BestOptimal(Candidates(g', sell, buy, amountIn));
    forall r
      ensures r in Candidates(g, sell, buy, amountIn) <==> IsCandidate(a, g.intermediates, sell, buy, amountIn, r)
      ensures r in Candidates(g', sell, buy, amountIn) <==> IsCandidate(a, g.intermediates, sell, buy, amountIn, r)
    {
      CandidatesByPool(a, sell, buy, amountIn, r);
      CandidatesByPool(b, sell, buy, amountIn, r);
    }
    var best, best' := Best(Candidates(g, sell, buy, amountIn)), Best(Candidates(g', sell, buy, amountIn));
    if best.Some? && best'.Some? {
      UndominatedUnique(a, g.intermediates, sell, buy, amountIn, best.value, best'.value);
    }
  }
}
