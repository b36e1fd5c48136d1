/** Orders as the solver sees them, once their amounts are parsed. */
module Orders {
  import opened Pools

  datatype OrderKind = SellOrder | BuyOrder | OtherKind

  /** A non-positive amount stands for a string that does not parse as a positive integer.
      plain says that the order carries no hooks, wrappers, fee policies or flash-loan hint
      and moves plain ERC-20 balances on both sides. */
  datatype Order = Order(
    uid: string, sellToken: Token, buyToken: Token, sellAmount: int, buyAmount: int, kind: OrderKind, plain: bool)
  {
    predicate Supported() {
      plain && !kind.OtherKind? && sellToken != buyToken
    }

    predicate Positive() {
      sellAmount > 0 && buyAmount > 0
    }
  }

  /** The supported orders, at most max of them when max is positive, and how many
      unsupported ones were passed over before the limit was reached. */
  function Eligible(orders: seq<Order>, max: int, taken: nat): (seq<Order>, nat) {
    if orders == [] then ([], 0)
    else if !orders[0].Supported() then
      var (rest, unsupported) := Eligible(orders[1..], max, taken);
      (rest, unsupported + 1)
    else if max > 0 && taken + 1 >= max then ([orders[0]], 0)
    else
      var (rest, unsupported) := Eligible(orders[1..], max, taken + 1);
      ([orders[0]] + rest, unsupported)
  }

  method ComputeEligible(orders: seq<Order>, max: int) returns (out: seq<Order>, unsupported: nat)
    ensures (out, unsupported) == Eligible(orders, max, 0)
  {
    out, unsupported := [], 0;
    assert orders[0..] == orders;
    assert forall rest: seq<Order> :: [] + rest == rest;
    var i := 0;
    while i < |orders|
      invariant 0 <= i <= |orders|
      invariant var (rest, more) := Eligible(orders[i..], max, |out|);
                (out + rest, unsupported + more) == Eligible(orders, max, 0)
    {
      assert orders[i..][1..] == orders[i + 1..];
      if !orders[i].Supported() {
        unsupported := unsupported + 1;
      } else {
        ghost var before := out;
        out := out + [orders[i]];
        if max > 0 && |out| >= max {
          return;
        }
        assert forall rest: seq<Order> :: before + ([orders[i]] + rest) == out + rest;
      }
      i := i + 1;
    }
    assert out + [] == out;
  }

  predicate UniqueUids(orders: seq<Order>) {
    forall i, j :: 0 <= i < j < |orders| ==> orders[i].uid != orders[j].uid
  }

  predicate AllSupported(orders: seq<Order>) {
    forall i :: 0 <= i < |orders| ==> orders[i].Supported()
  }

  /** Eligible orders are supported, come from the auction, and never exceed the limit;
      below the limit every order is either eligible or counted as unsupported. */
  lemma {:induction false} EligibleSound(orders: seq<Order>, max: int, taken: nat)
    requires max > 0 ==> taken < max
    ensures var (out, unsupported) := Eligible(orders, max, taken);
            && AllSupported(out)
            && |out| + unsupported <= |orders|
            && (max > 0 ==> taken + |out| <= max)
            && (max <= 0 || taken + |out| < max ==> |out| + unsupported == |orders|)
            && (forall o :: o in out ==> o in orders)
  {
    if orders != [] {
      assert orders == [orders[0]] + orders[1..];
      if !orders[0].Supported() {
        EligibleSound(orders[1..], max, taken);
      } else if !(max > 0 && taken + 1 >= max) {
        EligibleSound(orders[1..], max, taken + 1);
      }
    }
  }

  /** The plain sell and buy orders of two different tokens, in order. */
  function SupportedOf(orders: seq<Order>): seq<Order> {
    if orders == [] then []
    else
      var order := orders[0];
      (if order.plain && (order.kind.SellOrder? || order.kind.BuyOrder?) && order.sellToken != order.buyToken then [order] else [])
      + SupportedOf(orders[1..])
  }

  /** The orders that were looked at: all of them, or those up to the one that reaches the
      limit. The supported ones of these are eligible, in order, and the others counted. */
  lemma {:induction false} EligibleIs(orders: seq<Order>, max: int, taken: nat) returns (n: nat)
    requires max > 0 ==> taken < max
    ensures n <= |orders|
    ensures var (out, unsupported) := Eligible(orders, max, taken);
            && out == SupportedOf(orders[..n]) && unsupported == n - |out|
            && (n < |orders| ==> 0 < max == taken + |out|)
            && (0 < max == taken + |out| ==> n > 0 && orders[n - 1].Supported())
  {
    n := 0;
    if orders != [] {
      var full := max > 0 && taken + 1 >= max && orders[0].Supported();
      if !full {
        n := EligibleIs(orders[1..], max, if orders[0].Supported() then taken + 1 else taken);
      }
      assert orders[..n + 1][1..] == orders[1..][..n];
      n := n + 1;
      assert full ==> SupportedOf(orders[..1]) == [orders[0]] + SupportedOf([]);
    }
  }

  lemma {:induction false} SupportedSplit(orders: seq<Order>, n: nat)
    requires n <= |orders|
    ensures SupportedOf(orders) == SupportedOf(orders[..n]) + SupportedOf(orders[n..])
  {
    if n > 0 {
      assert orders[..n][1..] == orders[1..][..n - 1] && orders[n..] == orders[1..][n - 1..];
      SupportedSplit(orders[1..], n - 1);
    } else {
      assert orders[..0] == [] && orders[0..] == orders;
    }
  }

  /** The eligible orders are the first max supported ones. */
  lemma EligibleAreFirst(orders: seq<Order>, max: int)
    requires 0 < max
    ensures Eligible(orders, max, 0).0 == var all := SupportedOf(orders); if |all| > max then all[..max] else all
  {
    var n := EligibleIs(orders, max, 0);
    SupportedSplit(orders, n);
    EligibleSound(orders, max, 0);
    if n == |orders| { assert orders[..n] == orders && SupportedOf(orders[n..]) == []; }
  }

  lemma {:induction false} EligibleUnique(orders: seq<Order>, max: int, taken: nat)
    requires UniqueUids(orders) && (max > 0 ==> taken < max)
    ensures UniqueUids(Eligible(orders, max, taken).0)
  {
    if orders != [] {
      if !orders[0].Supported() {
        EligibleUnique(orders[1..], max, taken);
      } else if !(max > 0 && taken + 1 >= max) {
        EligibleUnique(orders[1..], max, taken + 1);
        EligibleSound(orders[1..], max, taken + 1);
        var rest := Eligible(orders[1..], max, taken + 1).0;
        forall j | 0 <= j < |rest|
          ensures orders[0].uid != rest[j].uid
        {
          assert rest[j] in orders[1..];
        }
      }
    }
  }
}
