/** The search for the best direct or two-hop route. */
module Routes {
  import opened Options
  import opened Ordering
  import opened Pools

  const MAX_INTERMEDIATES: nat := 12
  const MAX_POOLS_PER_TOKEN: nat := 24
  const MAX_U64: nat := 0xFFFFFFFF_FFFFFFFF

  datatype Hop = Hop(pool: Pool, tokenIn: Token, tokenOut: Token, amountIn: int, out: int)

  datatype Route = Route(hops: seq<Hop>, out: int, gas: nat)

  /** Pools indexed by token, and the tokens allowed between two hops. */
  datatype Graph = Graph(pools: seq<Pool>, byToken: map<Token, seq<nat>>, intermediates: seq<Token>) {
    predicate Valid() {
      forall t :: t in byToken ==> forall k :: 0 <= k < |byToken[t]| ==> byToken[t][k] < |pools|
    }

    function PoolsFor(token: Token): (r: seq<nat>)
      requires Valid()
      ensures forall k :: 0 <= k < |r| ==> r[k] < |pools|
    {
      if token !in byToken then []
      else if |byToken[token]| > MAX_POOLS_PER_TOKEN then byToken[token][..MAX_POOLS_PER_TOKEN]
      else byToken[token]
    }
  }

  // ---------- Ranking ----------

  /** Gas sum, unless it wraps around uint64. */
  function SumGas(values: seq<nat>): Option<nat> {
    if values == [] then Some(0)
    else
      var total :- SumGas(values[..|values| - 1]);
      if total + values[|values| - 1] > MAX_U64 then None else Some(total + values[|values| - 1])
  }

  method ComputeSumGas(values: seq<nat>) returns (r: Option<nat>)
    ensures r == SumGas(values)
  {
    var total := 0;
    var i := 0;
    while i < |values|
      invariant 0 <= i <= |values| && total <= MAX_U64
      invariant SumGas(values[..i]) == Some(total)
    {
      assert values[..i + 1][..i] == values[..i];
      if values[i] > MAX_U64 - total {
        SumGasFails(values, i + 1);
        return None;
      }
      total := total + values[i];
      i := i + 1;
    }
    assert values[..i] == values;
    return Some(total);
  }

  lemma {:induction false} SumGasFails(values: seq<nat>, i: nat)
    requires i <= |values| && SumGas(values[..i]).None?
    ensures SumGas(values).None?
    decreases |values| - i
  {
    if i == |values| {
      assert values[..i] == values;
    } else {
      assert values[..i + 1][..i] == values[..i];
      SumGasFails(values, i + 1);
    }
  }

  function PlainSum(values: seq<nat>): nat {
    if values == [] then 0 else PlainSum(values[..|values| - 1]) + values[|values| - 1]
  }

  /** The sum, exactly when it fits 64 bits. */
  lemma {:induction false} SumGasIsSum(values: seq<nat>)
    ensures SumGas(values) == if PlainSum(values) <= MAX_U64 then Some(PlainSum(values)) else None
  {
    if values != [] { SumGasIsSum(values[..|values| - 1]); }
  }

  function HopKey(hop: Hop): string {
    hop.pool.Kind() + "\0" + hop.pool.id + "\0" + hop.tokenIn + "\0" + hop.tokenOut
  }

  function RouteKey(hops: seq<Hop>): string {
    if hops == [] then "" else RouteKey(hops[..|hops| - 1]) + HopKey(hops[|hops| - 1]) + "\0"
  }

  method ComputeRouteKey(hops: seq<Hop>) returns (key: string)
    ensures key == RouteKey(hops)
  {
    key := "";
    for i := 0 to |hops|
      invariant key == RouteKey(hops[..i])
    {
      assert hops[..i + 1][..i] == hops[..i];
      key := key + HopKey(hops[i]) + "\0";
    }
    assert hops[..|hops|] == hops;
  }

  /** b is strictly preferred to a: more output, then less gas, then the smaller key. */
  predicate Beats(b: Route, a: Route) {
    b.out > a.out
    || (b.out == a.out && b.gas < a.gas)
    || (b.out == a.out && b.gas == a.gas && Before(RouteKey(b.hops), RouteKey(a.hops)))
  }

  function Better(a: Option<Route>, b: Option<Route>): Option<Route> {
    if a.None? then b
    else if b.None? then a
    else if Beats(b.value, a.value) then b
    else a
  }

  method ComputeBetter(a: Option<Route>, b: Option<Route>) returns (r: Option<Route>)
    ensures r == Better(a, b)
  {
    hide Before, RouteKey;
    if a.None? {
      return b;
    }
    if b.None? {
      return a;
    }
    if b.value.out != a.value.out {
      return if b.value.out > a.value.out then b else a;
    }
    if b.value.gas != a.value.gas {
      return if b.value.gas < a.value.gas then b else a;
    }
    var keyB := ComputeRouteKey(b.value.hops);
    var keyA := ComputeRouteKey(a.value.hops);
    return if Before(keyB, keyA) then b else a;
  }

  /** The first of the most preferred routes of a list. */
  function Best(routes: seq<Route>): Option<Route> {
    if routes == [] then None else Better(Best(routes[..|routes| - 1]), Some(routes[|routes| - 1]))
  }

  lemma BeatsTransitive(a: Route, b: Route, c: Route)
    ensures Beats(a, b) && Beats(b, c) ==> Beats(a, c)
    ensures !Beats(a, a)
  {
    BeforeTransitive(RouteKey(a.hops), RouteKey(b.hops), RouteKey(c.hops));
    BeforeIrreflexive(RouteKey(a.hops));
  }

  /** The fold returns an undominated element, and nothing only from nothing. */
  lemma {:induction false} BestOptimal(routes: seq<Route>)
    ensures Best(routes).None? <==> routes == []
    ensures Best(routes).Some? ==> Best(routes).value in routes && forall r :: r in routes ==> !Beats(r, Best(routes).value)
  {
    if routes != [] {
      var front, last := routes[..|routes| - 1], routes[|routes| - 1];
      BestOptimal(front);
      assert routes == front + [last];
      forall r | r in routes
        ensures !Beats(r, Best(routes).value)
      {
        BeatsTransitive(last, last, last);
        if front != [] { BeatsTransitive(r, last, Best(front).value); }
      }
    }
  }

  lemma BestAppend(routes: seq<Route>, next: Route)
    ensures Best(routes + [next]) == Better(Best(routes), Some(next))
  {
    assert (routes + [next])[..|routes|] == routes;
  }

  // ---------- Candidates ----------

  function Direct(pool: Pool, sell: Token, buy: Token, amountIn: int): Option<Route> {
    if !pool.Supports(sell, buy) then None
    else
      match pool.QuoteExactInPair(sell, buy, amountIn)
      case Err(_) => None
      case Ok(out) => Some(Route([Hop(pool, sell, buy, amountIn, out)], out, pool.gasEstimate))
  }

  /** The amount of the middle token that a first hop delivers. */
  function FirstHop(pool: Pool, sell: Token, mid: Token, amountIn: int): Option<int> {
    if !pool.Supports(sell, mid) then None
    else
      match pool.QuoteExactInPair(sell, mid, amountIn)
      case Err(_) => None
      case Ok(midAmount) => Some(midAmount)
  }

  function SecondHop(
    first: Pool, second: Pool, sell: Token, mid: Token, buy: Token, amountIn: int, midAmount: int): Option<Route>
  {
    if !second.Supports(mid, buy) then None
    else
      match second.QuoteExactInPair(mid, buy, midAmount)
      case Err(_) => None
      case Ok(out) =>
        var gas :- SumGas([first.gasEstimate, second.gasEstimate]);
        Some(Route([Hop(first, sell, mid, amountIn, midAmount), Hop(second, mid, buy, midAmount, out)], out, gas))
  }

  function TwoHop(first: Pool, second: Pool, sell: Token, mid: Token, buy: Token, amountIn: int): Option<Route> {
    var midAmount :- FirstHop(first, sell, mid, amountIn);
    SecondHop(first, second, sell, mid, buy, amountIn, midAmount)
  }

  function Listed(route: Option<Route>): seq<Route> {
    if route.None? then [] else [route.value]
  }

  /** Direct routes through the first n pools of the sell token. */
  function DirectList(g: Graph, sell: Token, buy: Token, amountIn: int, n: nat): seq<Route>
    requires g.Valid() && n <= |g.PoolsFor(sell)|
  {
    if n == 0 then []
    else DirectList(g, sell, buy, amountIn, n - 1) + Listed(Direct(g.pools[g.PoolsFor(sell)[n - 1]], sell, buy, amountIn))
  }

  /** Two-hop routes through one first pool and the first n pools of the middle token. */
  function SecondList(g: Graph, i: nat, sell: Token, mid: Token, buy: Token, amountIn: int, midAmount: int, n: nat): seq<Route>
    requires g.Valid() && i < |g.pools| && n <= |g.PoolsFor(mid)|
  {
    if n == 0 then []
    else
      var j := g.PoolsFor(mid)[n - 1];
      SecondList(g, i, sell, mid, buy, amountIn, midAmount, n - 1)
      + (if j == i then [] else Listed(SecondHop(g.pools[i], g.pools[j], sell, mid, buy, amountIn, midAmount)))
  }

  function FirstList(g: Graph, sell: Token, mid: Token, buy: Token, amountIn: int, n: nat): seq<Route>
    requires g.Valid() && n <= |g.PoolsFor(sell)|
  {
    if n == 0 then []
    else
      var i := g.PoolsFor(sell)[n - 1];
      FirstList(g, sell, mid, buy, amountIn, n - 1)
      + (match FirstHop(g.pools[i], sell, mid, amountIn)
         case None => []
         case Some(midAmount) => SecondList(g, i, sell, mid, buy, amountIn, midAmount, |g.PoolsFor(mid)|))
  }

  function MidList(g: Graph, sell: Token, buy: Token, amountIn: int, n: nat): seq<Route>
    requires g.Valid() && n <= |g.intermediates|
  {
    if n == 0 then []
    else
      var mid := g.intermediates[n - 1];
      MidList(g, sell, buy, amountIn, n - 1)
      + (if mid == sell || mid == buy then [] else FirstList(g, sell, mid, buy, amountIn, |g.PoolsFor(sell)|))
  }

  function AllDirect(g: Graph, sell: Token, buy: Token, amountIn: int): seq<Route>
    requires g.Valid()
  {
    DirectList(g, sell, buy, amountIn, |g.PoolsFor(sell)|)
  }

  function Candidates(g: Graph, sell: Token, buy: Token, amountIn: int): seq<Route>
    requires g.Valid()
  {
    AllDirect(g, sell, buy, amountIn) + MidList(g, sell, buy, amountIn, |g.intermediates|)
  }

  /** What an uncancelled search returns. */
  function BestRoute(g: Graph, sell: Token, buy: Token, amountIn: int): Option<Route>
    requires g.Valid()
  {
    if sell == buy || amountIn <= 0 then None else Best(Candidates(g, sell, buy, amountIn))
  }
}
