/** Greedy matching of opposite sell orders whose limits cross. */
module Matching {
  import opened Options
  import opened Ordering
  import opened Pools
  import opened Orders
  import opened Contexts

  /** Two sell orders that settle against each other; a sells a.sellAmount, b sells b.sellAmount. */
  datatype Match = Match(a: Order, b: Order)

  /** Ordered token pair of a bucket of sell orders. */
  datatype Key = Key(sell: Token, buy: Token) {
    function Reverse(): Key { Key(buy, sell) }
  }

  function KeyOf(order: Order): Key {
    Key(order.sellToken, order.buyToken)
  }

  predicate KeyBefore(left: Key, right: Key) {
    if left.sell != right.sell then Before(left.sell, right.sell) else Before(left.buy, right.buy)
  }

  lemma KeysOrdered()
    ensures StrictTotal(KeyBefore)
  {
    hide KeyBefore;
    forall x, y, z
      ensures !KeyBefore(x, x)
      ensures x != y ==> KeyBefore(x, y) || KeyBefore(y, x)
      ensures KeyBefore(x, y) && KeyBefore(y, z) ==> KeyBefore(x, z)
    {
      KeyOrdered(x, y, z);
    }
  }

  lemma KeyOrdered(x: Key, y: Key, z: Key)
    ensures !KeyBefore(x, x)
    ensures x != y ==> KeyBefore(x, y) || KeyBefore(y, x)
    ensures KeyBefore(x, y) && KeyBefore(y, z) ==> KeyBefore(x, z)
  {
    hide Before;
    BeforeIrreflexive(x.buy);
    BeforeTotal(x.sell, y.sell);
    BeforeTotal(x.buy, y.buy);
    BeforeTransitive(x.sell, y.sell, z.sell);
    BeforeTransitive(x.buy, y.buy, z.buy);
    BeforeAsymmetric(x.sell, y.sell);
  }

  datatype State = State(out: seq<Match>, used: set<string>)

  /** The limits cross: each side sells at least what the other wants. */
  predicate LimitsCross(a: Order, b: Order) {
    a.Positive() && b.Positive() && b.sellAmount >= a.buyAmount && a.sellAmount >= b.buyAmount
  }

  /** The sell orders of one pair among the first n orders. */
  function Bucket(orders: seq<Order>, n: nat, key: Key): seq<Order>
    requires n <= |orders|
  {
    if n == 0 then []
    else Bucket(orders, n - 1, key)
         + (if orders[n - 1].kind.SellOrder? && KeyOf(orders[n - 1]) == key then [orders[n - 1]] else [])
  }

  /** The first free order of a bucket that crosses with a. */
  function Partner(bs: seq<Order>, used: set<string>, a: Order, k: nat): Option<Order>
    requires k <= |bs|
    decreases |bs| - k
  {
    if k == |bs| then None
    else if bs[k].uid !in used && LimitsCross(a, bs[k]) then Some(bs[k])
    else Partner(bs, used, a, k + 1)
  }

  function MatchOne(bs: seq<Order>, a: Order, s: State): State {
    if a.uid in s.used || !a.Positive() then s
    else
      match Partner(bs, s.used, a, 0)
      case None => s
      case Some(b) => State(s.out + [Match(a, b)], s.used + {a.uid, b.uid})
  }

  function MatchBucket(bs: seq<Order>, as_: seq<Order>, n: nat, s: State): State
    requires n <= |as_|
  {
    if n == 0 then s else MatchOne(bs, as_[n - 1], MatchBucket(bs, as_, n - 1, s))
  }

  /** Every unordered pair is visited from its smaller token. */
  function MatchKey(orders: seq<Order>, key: Key, s: State): State {
    if Before(key.buy, key.sell) then s
    else
      var as_ := Bucket(orders, |orders|, key);
      MatchBucket(Bucket(orders, |orders|, key.Reverse()), as_, |as_|, s)
  }

  function MatchKeys(orders: seq<Order>, keys: seq<Key>, n: nat): State
    requires n <= |keys|
  {
    if n == 0 then State([], {}) else MatchKey(orders, keys[n - 1], MatchKeys(orders, keys, n - 1))
  }

  ghost function KeySet(orders: seq<Order>): set<Key> {
    set i | 0 <= i < |orders| && orders[i].kind.SellOrder? :: KeyOf(orders[i])
  }

  ghost function SortedKeys(orders: seq<Order>): seq<Key> {
    Sort(Enumerate(KeySet(orders)), KeyBefore)
  }

  /** What an uncancelled run finds. */
  ghost function FinalState(orders: seq<Order>): State {
    MatchKeys(orders, SortedKeys(orders), |SortedKeys(orders)|)
  }

  ghost function Matches(orders: seq<Order>): seq<Match> {
    FinalState(orders).out
  }

  // ---------- The matcher ----------

  /** The pairs in whatever order the map yields them, then sorted. */
  method CollectKeys(bucket: map<Key, seq<Order>>, ghost orders: seq<Order>) returns (keys: seq<Key>)
    requires bucket.Keys == KeySet(orders)
    ensures keys == SortedKeys(orders)
  {
    var rest, list := bucket.Keys, [];
    while rest != {}
      invariant rest <= bucket.Keys && Distinct(list)
      invariant forall k :: k in list <==> k in bucket.Keys && k !in rest
      decreases rest
    {
      var k :| k in rest;
      rest := rest - {k};
      list := list + [k];
    }
    KeysOrdered();
    SortForgetsOrder(list, Enumerate(KeySet(orders)), KeyBefore);
    keys := Sort(list, KeyBefore);
  }

  ghost predicate Filled(bucket: map<Key, seq<Order>>, orders: seq<Order>, n: nat)
    requires n <= |orders|
  {
    forall k ::
      && (k in bucket <==> Bucket(orders, n, k) != [])
      && (k in bucket ==> bucket[k] == Bucket(orders, n, k))
  }

  lemma {:induction false} InBucket(orders: seq<Order>, n: nat, key: Key, order: Order)
    requires n <= |orders|
    ensures order in Bucket(orders, n, key) <==> order in orders[..n] && order.kind.SellOrder? && KeyOf(order) == key
  {
    if n > 0 {
      InBucket(orders, n - 1, key, order);
      assert orders[..n] == orders[..n - 1] + [orders[n - 1]];
    }
  }

  lemma FilledKeys(bucket: map<Key, seq<Order>>, orders: seq<Order>)
    requires Filled(bucket, orders, |orders|)
    ensures bucket.Keys == KeySet(orders)
  {
    forall k
      ensures k in bucket <==> k in KeySet(orders)
    {
      if k in bucket {
        InBucket(orders, |orders|, k, bucket[k][0]);
        var j :| 0 <= j < |orders| && orders[j] == bucket[k][0];
      }
      if k in KeySet(orders) {
        var j :| 0 <= j < |orders| && orders[j].kind.SellOrder? && KeyOf(orders[j]) == k;
        InBucket(orders, |orders|, k, orders[j]);
      }
    }
  }

  method FillBuckets(ctx: Context, orders: seq<Order>) returns (bucket: map<Key, seq<Order>>, cancelled: bool)
    requires orders != []
    modifies ctx
    ensures cancelled <==> ctx.Fired()
    ensures old(ctx.Fired()) ==> cancelled
    ensures !cancelled ==> Filled(bucket, orders, |orders|)
  {
    bucket := map[];
    for i := 0 to |orders|
      invariant i == 0 ==> (ctx.Fired() <==> old(ctx.Fired()))
      invariant i > 0 ==> !ctx.Fired() && !old(ctx.Fired())
      invariant Filled(bucket, orders, i)
    {
      cancelled := ctx.Cancelled();
      if cancelled {
        return map[], true;
      }
      var order := orders[i];
      if !order.kind.SellOrder? {
        continue;
      }
      var listed := if KeyOf(order) in bucket then bucket[KeyOf(order)] else [];
      assert listed == Bucket(orders, i, KeyOf(order));
      bucket := bucket[KeyOf(order) := listed + [order]];
    }
    return bucket, false;
  }

  /** One order against the reverse bucket. */
  method SeekPartner(ctx: Context, bs: seq<Order>, a: Order, s: State) returns (r: State, cancelled: bool)
    requires !ctx.Fired() && a.uid !in s.used && a.Positive()
    modifies ctx
    ensures cancelled <==> ctx.Fired()
    ensures r == if cancelled then s else MatchOne(bs, a, s)
  {
    var k := 0;
    while k < |bs|
      invariant 0 <= k <= |bs| && !ctx.Fired()
      invariant Partner(bs, s.used, a, k) == Partner(bs, s.used, a, 0)
    {
      cancelled := ctx.Cancelled();
      if cancelled {
        return s, true;
      }
      var b := bs[k];
      if b.uid !in s.used && LimitsCross(a, b) {
        return State(s.out + [Match(a, b)], s.used + {a.uid, b.uid}), false;
      }
      k := k + 1;
    }
    return s, false;
  }

  lemma {:induction false} BucketExtends(bs: seq<Order>, as_: seq<Order>, m: nat, n: nat, s: State)
    requires m <= n <= |as_|
    ensures MatchBucket(bs, as_, m, s).out <= MatchBucket(bs, as_, n, s).out
  {
    if m < n { BucketExtends(bs, as_, m, n - 1, s); }
  }

  lemma {:induction false} KeysExtend(orders: seq<Order>, keys: seq<Key>, m: nat, n: nat)
    requires m <= n <= |keys|
    ensures MatchKeys(orders, keys, m).out <= MatchKeys(orders, keys, n).out
  {
    hide Bucket, Before;
    if m < n {
      KeysExtend(orders, keys, m, n - 1);
      var as_ := Bucket(orders, |orders|, keys[n - 1]);
      BucketExtends(Bucket(orders, |orders|, keys[n - 1].Reverse()), as_, 0, |as_|, MatchKeys(orders, keys, n - 1));
    }
  }

  /** One bucket against its reverse; a cancelled run has done a prefix of the orders. */
  method MatchPair(ctx: Context, bs: seq<Order>, as_: seq<Order>, start: State) returns (s: State, cancelled: bool)
    requires !ctx.Fired()
    modifies ctx
    ensures cancelled <==> ctx.Fired()
    ensures !cancelled ==> s == MatchBucket(bs, as_, |as_|, start)
    ensures s.out <= MatchBucket(bs, as_, |as_|, start).out
  {
    s := start;
    for n := 0 to |as_|
      invariant !ctx.Fired()
      invariant s == MatchBucket(bs, as_, n, start)
    {
      BucketExtends(bs, as_, n, |as_|, start);
      cancelled := ctx.Cancelled();
      if cancelled {
        return s, true;
      }
      var a := as_[n];
      if a.uid in s.used || !a.Positive() {
        continue;
      }
      s, cancelled := SeekPartner(ctx, bs, a, s);
      if cancelled {
        return s, true;
      }
    }
    return s, false;
  }

  lemma BucketAt(bucket: map<Key, seq<Order>>, orders: seq<Order>, key: Key)
    requires Filled(bucket, orders, |orders|)
    ensures (if key in bucket then bucket[key] else []) == Bucket(orders, |orders|, key)
  {
  }

  /** One pair against its reverse, unless the reverse is the one to visit. */
  method VisitKey(ctx: Context, bucket: map<Key, seq<Order>>, ghost orders: seq<Order>, pair: Key, start: State)
    returns (s: State, cancelled: bool)
    requires !ctx.Fired() && Filled(bucket, orders, |orders|)
    modifies ctx
    ensures cancelled <==> ctx.Fired()
    ensures !cancelled ==> s == MatchKey(orders, pair, start)
    ensures s.out <= MatchKey(orders, pair, start).out
  {
    hide Bucket, Before, MatchBucket, Filled;
    if Before(pair.buy, pair.sell) {
      return start, false;
    }
    BucketAt(bucket, orders, pair);
    BucketAt(bucket, orders, pair.Reverse());
    var as_ := if pair in bucket then bucket[pair] else [];
    var bs := if pair.Reverse() in bucket then bucket[pair.Reverse()] else [];
    s, cancelled := MatchPair(ctx, bs, as_, start);
  }

  lemma NoKeys()
    ensures SortedKeys([]) == []
  {
    assert KeySet([]) == {};
  }

  /** The matches; of a cancelled run, a prefix of them. */
  method FindCoWMatches(ctx: Context, orders: seq<Order>) returns (out: seq<Match>)
    modifies ctx
    ensures old(ctx.Fired()) ==> ctx.Fired()
    ensures !ctx.Fired() ==> out == Matches(orders)
    ensures out <= Matches(orders)
  {
    hide MatchKey, SortedKeys, KeySet, Filled;
    if orders == [] {
      // the order loop polls nothing and there is no key to visit
      assert SortedKeys(orders) == [] by { NoKeys(); }
      return [];
    }
    var bucket, cancelled := FillBuckets(ctx, orders);
    if cancelled {
      return [];
    }
    FilledKeys(bucket, orders);
    var keys := CollectKeys(bucket, orders);
    var s := State([], {});
    for n := 0 to |keys|
      invariant !ctx.Fired()
      invariant s == MatchKeys(orders, keys, n)
    {
      KeysExtend(orders, keys, n, |keys|);
      cancelled := ctx.Cancelled();
      if cancelled {
        return s.out;
      }
      KeysExtend(orders, keys, n + 1, |keys|);
      s, cancelled := VisitKey(ctx, bucket, orders, keys[n], s);
      if cancelled {
        return s.out;
      }
    }
    return s.out;
  }
}
