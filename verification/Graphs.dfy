/** Building the route graph: pools indexed by token, and the best connected tokens. */
module Graphs {
  import opened Ordering
  import opened Pools
  import opened Routes

  /** i, once for every occurrence of token among the first n tokens. */
  function Copies(tokens: seq<Token>, n: nat, token: Token, i: nat): seq<nat>
    requires n <= |tokens|
  {
    if n == 0 then [] else Copies(tokens, n - 1, token, i) + (if tokens[n - 1] == token then [i] else [])
  }

  /** The positions of token among the first n pools. */
  function Occurrences(pools: seq<Pool>, n: nat, token: Token): seq<nat>
    requires n <= |pools|
  {
    if n == 0 then []
    else Occurrences(pools, n - 1, token) + Copies(pools[n - 1].AllTokens(), |pools[n - 1].AllTokens()|, token, n - 1)
  }

  lemma {:induction false} CopiesElements(tokens: seq<Token>, n: nat, token: Token, i: nat)
    requires n <= |tokens|
    ensures forall k :: k in Copies(tokens, n, token, i) <==> k == i && token in tokens[..n]
  {
    if n > 0 {
      CopiesElements(tokens, n - 1, token, i);
      assert tokens[..n] == tokens[..n - 1] + [tokens[n - 1]];
    }
  }

  lemma {:induction false} OccurrencesElements(pools: seq<Pool>, n: nat, token: Token)
    requires n <= |pools|
    ensures forall i :: i in Occurrences(pools, n, token) <==> 0 <= i < n && token in pools[i].AllTokens()
  {
    hide Pool.AllTokens, Copies;
    if n > 0 {
      OccurrencesElements(pools, n - 1, token);
      var tokens := pools[n - 1].AllTokens();
      CopiesElements(tokens, |tokens|, token, n - 1);
      assert tokens[..|tokens|] == tokens;
    }
  }

  /** The pools a token is listed in, repetitions included. */
  function Listing(pools: seq<Pool>, token: Token): seq<nat> {
    Occurrences(pools, |pools|, token)
  }

  ghost function TokensOf(pools: seq<Pool>): set<Token> {
    set i, t | 0 <= i < |pools| && t in pools[i].AllTokens() :: t
  }

  ghost function Counts(pools: seq<Pool>): map<Token, nat> {
    map t | t in TokensOf(pools) :: |Listing(pools, t)|
  }

  function Count(counts: map<Token, nat>, token: Token): nat {
    if token in counts then counts[token] else 0
  }

  /** More pools first, then the smaller address. */
  function Deeper(counts: map<Token, nat>): (Token, Token) -> bool {
    (left, right) =>
      if Count(counts, left) != Count(counts, right) then Count(counts, left) > Count(counts, right)
      else Before(left, right)
  }

  lemma DeeperOrdered(counts: map<Token, nat>)
    ensures StrictTotal(Deeper(counts))
  {
    StringsOrdered();
  }

  ghost function Busy(counts: map<Token, nat>): set<Token> {
    set t | t in counts && counts[t] >= 2
  }

  function FirstTwelve(tokens: seq<Token>): seq<Token> {
    if |tokens| > MAX_INTERMEDIATES then tokens[..MAX_INTERMEDIATES] else tokens
  }

  ghost function Intermediates(counts: map<Token, nat>): seq<Token> {
    FirstTwelve(Sort(Enumerate(Busy(counts)), Deeper(counts)))
  }

  ghost function GraphOf(pools: seq<Pool>): (g: Graph)
    ensures g.Valid()
  {
    var g := Graph(pools, map t | t in TokensOf(pools) :: Listing(pools, t), Intermediates(Counts(pools)));
    assert g.Valid() by {
      forall t, k | t in g.byToken && 0 <= k < |g.byToken[t]|
        ensures g.byToken[t][k] < |pools|
      {
        OccurrencesElements(pools, |pools|, t);
        assert g.byToken[t][k] in Listing(pools, t);
      }
    }
    g
  }

  /** Collecting the busy tokens in whatever order the map yields them gives, once sorted,
      one and the same sequence. */
  method CollectIntermediates(counts: map<Token, nat>) returns (r: seq<Token>)
    ensures r == Intermediates(counts)
  {
    var rest, list := counts.Keys, [];
    while rest != {}
      invariant rest <= counts.Keys && Distinct(list)
      invariant forall t :: t in list <==> t in counts && t !in rest && counts[t] >= 2
      decreases rest
    {
      var t :| t in rest;
      rest := rest - {t};
      if counts[t] >= 2 {
        list := list + [t];
      }
    }
    DeeperOrdered(counts);
    SortForgetsOrder(list, Enumerate(Busy(counts)), Deeper(counts));
    r := FirstTwelve(Sort(list, Deeper(counts)));
  }

  /** The listing of token once i pools and the first k tokens of pool i are indexed. */
  function Partial(pools: seq<Pool>, i: nat, k: nat, token: Token): seq<nat>
    requires i < |pools| && k <= |pools[i].AllTokens()|
  {
    Occurrences(pools, i, token) + Copies(pools[i].AllTokens(), k, token, i)
  }

  ghost predicate IndexedPartly(byToken: map<Token, seq<nat>>, counts: map<Token, nat>, pools: seq<Pool>, i: nat, k: nat)
    requires i < |pools| && k <= |pools[i].AllTokens()|
  {
    && counts.Keys == byToken.Keys
    && forall t ::
         && (t in byToken <==> Partial(pools, i, k, t) != [])
         && (t in byToken ==> byToken[t] == Partial(pools, i, k, t) && counts[t] == |byToken[t]|)
  }

  ghost predicate Indexed(byToken: map<Token, seq<nat>>, counts: map<Token, nat>, pools: seq<Pool>, i: nat)
    requires i <= |pools|
  {
    && counts.Keys == byToken.Keys
    && forall t ::
         && (t in byToken <==> Occurrences(pools, i, t) != [])
         && (t in byToken ==> byToken[t] == Occurrences(pools, i, t) && counts[t] == |byToken[t]|)
  }

  method AddPool(byToken0: map<Token, seq<nat>>, counts0: map<Token, nat>, pools: seq<Pool>, i: nat)
    returns (byToken: map<Token, seq<nat>>, counts: map<Token, nat>)
    requires i < |pools| && Indexed(byToken0, counts0, pools, i)
    ensures Indexed(byToken, counts, pools, i + 1)
  {
    hide Pool.AllTokens, Partial;
    byToken, counts := byToken0, counts0;
    PartialEnds(pools, i);
    var tokens := pools[i].AllTokens();
    for k := 0 to |tokens|
      invariant IndexedPartly(byToken, counts, pools, i, k)
    {
      var listed := if tokens[k] in byToken then byToken[tokens[k]] else [];
      AddToken(byToken, counts, pools, i, k);
      byToken, counts := byToken[tokens[k] := listed + [i]], counts[tokens[k] := Count(counts, tokens[k]) + 1];
    }
  }

  lemma PartialEnds(pools: seq<Pool>, i: nat)
    requires i < |pools|
    ensures forall t :: Partial(pools, i, 0, t) == Occurrences(pools, i, t)
    ensures forall t :: Partial(pools, i, |pools[i].AllTokens()|, t) == Occurrences(pools, i + 1, t)
  {
    hide Pool.AllTokens;
  }

  lemma AddToken(byToken: map<Token, seq<nat>>, counts: map<Token, nat>, pools: seq<Pool>, i: nat, k: nat)
    requires i < |pools| && k < |pools[i].AllTokens()| && IndexedPartly(byToken, counts, pools, i, k)
    ensures var token := pools[i].AllTokens()[k];
            var listed := if token in byToken then byToken[token] else [];
            IndexedPartly(byToken[token := listed + [i]], counts[token := Count(counts, token) + 1], pools, i, k + 1)
  {
    hide Pool.AllTokens, Partial;
    PartialStep(pools, i, k);
    var token := pools[i].AllTokens()[k];
    var listed := if token in byToken then byToken[token] else [];
    assert listed == Partial(pools, i, k, token);
    assert Partial(pools, i, k + 1, token) == listed + [i];
    forall t
      ensures t != token ==> Partial(pools, i, k + 1, t) == Partial(pools, i, k, t)
    {
      assert t != token ==> Partial(pools, i, k, t) + [] == Partial(pools, i, k, t);
    }
  }

  lemma PartialStep(pools: seq<Pool>, i: nat, k: nat)
    requires i < |pools| && k < |pools[i].AllTokens()|
    ensures forall t :: Partial(pools, i, k + 1, t) == Partial(pools, i, k, t) + (if pools[i].AllTokens()[k] == t then [i] else [])
  {
    hide Pool.AllTokens;
  }

  lemma IndexedIsGraph(byToken: map<Token, seq<nat>>, counts: map<Token, nat>, pools: seq<Pool>)
    requires Indexed(byToken, counts, pools, |pools|)
    ensures byToken == GraphOf(pools).byToken && counts == Counts(pools)
  {
    hide Pool.AllTokens, Intermediates, Occurrences;
    forall t
      ensures t in byToken <==> t in TokensOf(pools)
    {
      OccurrencesElements(pools, |pools|, t);
      if t in byToken { assert byToken[t][0] in Occurrences(pools, |pools|, t); }
    }
  }

  method NewGraph(pools: seq<Pool>) returns (g: Graph)
    ensures g == GraphOf(pools)
  {
    var byToken: map<Token, seq<nat>>, counts: map<Token, nat> := map[], map[];
    for i := 0 to |pools|
      invariant Indexed(byToken, counts, pools, i)
    {
      byToken, counts := AddPool(byToken, counts, pools, i);
    }
    IndexedIsGraph(byToken, counts, pools);
    var intermediates := CollectIntermediates(counts);
    g := Graph(pools, byToken, intermediates);
  }
}
