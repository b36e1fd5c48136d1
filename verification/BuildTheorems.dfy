/** When a liquidity entry becomes a pool, and which one: stated by what the pool has to say
    about the entry, not by how it is built. */
module BuildTheorems {
  import opened U256
  import opened Options
  import opened Ordering
  import opened Pools
  import opened TickMath
  import opened WalkTheorems
  import opened PoolBuilding
  import Concentrated
  import StableMath
  import Arith

  // ---------- What a pool says of its entry ----------

  /** value * scale rounded down, of a positive rational, and itself a positive uint256. */
  predicate FloorOf(value: Option<Rational>, scale: nat, floor: int) {
    && value.Some? && 0 < value.value.num && 0 < value.value.den
    && PositiveU256(floor)
    && floor * value.value.den <= value.value.num * scale < (floor + 1) * value.value.den
  }

  /** Both reserves stand on the side of their own address, the smaller address first. */
  ghost predicate ProductDescribes(p: Pool, entries: seq<ReserveEntry>, reserveA: int, reserveB: int) {
    && Before(p.tokenA, p.tokenB)
    && PositiveU256(reserveA) && PositiveU256(reserveB)
    && var a, b := ReserveEntry(p.tokenA, reserveA), ReserveEntry(p.tokenB, reserveB);
       entries == [a, b] || entries == [b, a]
  }

  /** Every net is an int128 at a valid tick of its own, and the pool lists exactly those. */
  ghost predicate RangedDescribes(
    p: Pool, tokens: seq<Token>, sqrtPrice: int, liquidity: int, tick: Option<int>, nets: seq<NetEntry>, range: Concentrated.Range)
  {
    && tokens == [p.tokenA, p.tokenB] && p.tokenA != p.tokenB
    && range.sqrtPrice == sqrtPrice && PositiveU256(sqrtPrice)
    && range.liquidity == liquidity && 0 < liquidity < Q128
    && tick == Some(range.tick) && ValidTick(range.tick)
    && |nets| <= 16384
    && (forall i, j :: 0 <= i < j < |nets| ==> nets[i].index != nets[j].index)
    && (forall i :: 0 <= i < |nets| ==> NetDescribed(nets[i]))
    && TicksSorted(range.ticks)
    && (forall index, net :: Concentrated.Tick(index, net) in range.ticks <==> NetEntry(Some(index), Some(net)) in nets)
  }

  predicate NetDescribed(entry: NetEntry) {
    && entry.index.Some? && -887272 <= entry.index.value <= 887272
    && entry.net.Some? && -INT128 <= entry.net.value < INT128
  }

  /** The balance and the scaling factor of an entry stand at the index of its address. */
  ghost predicate Lists(tokens: seq<Token>, basket: StableMath.Basket, entry: StableEntry) {
    && |basket.balances| == |basket.scalingFactors| == |tokens|
    && exists k :: 0 <= k < |tokens| && tokens[k] == entry.address
         && basket.balances[k] == entry.balance && FloorOf(entry.scaling, 1_000_000_000_000_000_000, basket.scalingFactors[k])
  }

  ghost predicate StableDescribes(
    p: Pool, entries: seq<StableEntry>, amplification: Option<Rational>, tokens: seq<Token>, basket: StableMath.Basket)
  {
    && 2 <= |entries| <= 64
    && |tokens| == |entries| && Sorted(tokens, Before) && SameElements(tokens, StableAddresses(entries))
    && p.tokenA == tokens[0] && p.tokenB == tokens[1]
    && Distinct(StableAddresses(entries))
    && FloorOf(amplification, 1000, basket.amplificationRaw)
    && (forall i :: 0 <= i < |entries| ==> PositiveU256(entries[i].balance) && Lists(tokens, basket, entries[i]))
  }

  /** The pool carries the entry's id, kind, fee and gas, and its curve carries the entry's body. */
  ghost predicate Describes(l: Liquidity, p: Pool) {
    && p.id == l.id && p.Kind() == l.kind
    && l.fee == Some(Rational(p.feeNum, p.feeDen)) && 0 <= p.feeNum < p.feeDen <= MAX_U256
    && l.gas.Some? && l.gas.value < 0x1_0000_0000_0000_0000
    && p.gasEstimate == (if l.gas.value == 0 then 90_000 else l.gas.value)
    && match (p.curve, l.body)
       case (Product(reserveA, reserveB), Reserves(entries)) =>
         l.kind == "constantProduct" && ProductDescribes(p, entries, reserveA, reserveB)
       case (Ranged(range), TickRange(tokens, sqrtPrice, liquidity, tick, nets)) =>
         l.kind == "concentratedLiquidity" && RangedDescribes(p, tokens, sqrtPrice, liquidity, tick, nets, range)
       case (Stable(tokens, basket), Balances(entries, amplification)) =>
         l.kind == "stable" && StableDescribes(p, entries, amplification, tokens, basket)
       case _ => false
  }

  // ---------- Rationals ----------

  lemma ScaledIs(value: Option<Rational>, scale: nat, floor: int)
    ensures Scaled(value, scale) == Some(floor) <==> FloorOf(value, scale, floor)
  {
    if value.Some? && 0 < value.value.num && 0 < value.value.den {
      var n, den := value.value.num * scale, value.value.den;
      Arith.DivBounds(n, den);
      Arith.FloorGalois(n, den, floor);
      Arith.FloorGalois(n, den, floor + 1);
    }
  }

  // ---------- Constant product ----------

  lemma ProductExactly(base: Pool, entries: seq<ReserveEntry>, p: Pool)
    ensures BuildProduct(base, entries) == Some(p) <==>
            && p.curve.Product?
            && p == base.(tokenA := p.tokenA, tokenB := p.tokenB, curve := p.curve)
            && ProductDescribes(p, entries, p.curve.reserveA, p.curve.reserveB)
  {
    hide Before;
    StringsOrdered();
    if |entries| == 2 && entries[0].address != entries[1].address {
      PairSorted(entries);
    }
  }

  lemma SortIs(s: seq<string>, sorted: seq<string>)
    requires Distinct(s) && Sorted(sorted, Before) && SameElements(s, sorted)
    ensures Sort(s, Before) == sorted
  {
    hide Before, Sort;
    StringsOrdered();
    SortSorted(s, Before);
    SortElements(s, Before);
    SortedUnique(Sort(s, Before), sorted, Before);
  }

  lemma SortPair(a: string, b: string)
    requires a != b
    ensures Sort([a, b], Before) == if Before(a, b) then [a, b] else [b, a]
  {
    hide Before, Sort;
    BeforeTotal(a, b);
    if Before(a, b) {
      SortIs([a, b], [a, b]);
    } else {
      SortIs([a, b], [b, a]);
    }
  }

  lemma PairSorted(entries: seq<ReserveEntry>)
    requires |entries| == 2 && entries[0].address != entries[1].address
    ensures var a, b := entries[0], entries[1];
            && Sort(Addresses(entries), Before) == (if Before(a.address, b.address) then [a.address, b.address] else [b.address, a.address])
            && ReserveOf(entries, a.address) == a.reserve && ReserveOf(entries, b.address) == b.reserve
  {
    hide Before, Sort;
    assert Addresses(entries) == [entries[0].address, entries[1].address];
    SortPair(entries[0].address, entries[1].address);
    assert ReserveOf(entries[1..], entries[1].address) == entries[1].reserve;
  }

  // ---------- Concentrated ----------

  lemma {:induction false} TicksReadable(nets: seq<NetEntry>, n: nat)
    requires n <= |nets|
    requires forall i :: 0 <= i < n ==> NetDescribed(nets[i])
    requires forall i, j :: 0 <= i < j < n ==> nets[i].index != nets[j].index
    ensures ReadTicks(nets, n).Some?
  {
    if n > 0 {
      TicksReadable(nets, n - 1);
      TicksRead(nets, n - 1);
      assert NetDescribed(nets[n - 1]);
      assert nets[n - 1] == NetEntry(Some(nets[n - 1].index.value), Some(nets[n - 1].net.value));
    }
  }

  lemma SortedTicksUnique(a: seq<Concentrated.Tick>, b: seq<Concentrated.Tick>)
    requires TicksSorted(a) && TicksSorted(b)
    requires forall t :: t in a <==> t in b
    ensures a == b
  {
    TicksOrdered();
    SortedUnique(a, b, TickBefore);
  }

  /** What ReadTicks and the sort leave of the nets. */
  lemma SortedNets(nets: seq<NetEntry>)
    requires ReadTicks(nets, |nets|).Some?
    ensures var ticks := Sort(ReadTicks(nets, |nets|).value, TickBefore);
            && TicksSorted(ticks)
            && (forall index, net :: Concentrated.Tick(index, net) in ticks <==> NetEntry(Some(index), Some(net)) in nets)
    ensures forall i :: 0 <= i < |nets| ==> NetDescribed(nets[i])
    ensures forall i, j :: 0 <= i < j < |nets| ==> nets[i].index != nets[j].index
  {
    hide Sort;
    TicksRead(nets, |nets|);
    var ticks := ReadTicks(nets, |nets|).value;
    SortedTicks(ticks);
    SortElements(ticks, TickBefore);
    forall index, net
      ensures Concentrated.Tick(index, net) in ticks <==> NetEntry(Some(index), Some(net)) in nets
    {
      var tick, entry := Concentrated.Tick(index, net), NetEntry(Some(index), Some(net));
      if tick in ticks {
        var i :| 0 <= i < |ticks| && ticks[i] == tick;
        assert nets[i] == entry;
      }
      if entry in nets {
        var i :| 0 <= i < |nets| && nets[i] == entry;
        assert ticks[i] == tick;
      }
    }
  }

  lemma RangedExactly(
    base: Pool, tokens: seq<Token>, sqrtPrice: int, liquidity: int, tick: Option<int>, nets: seq<NetEntry>, p: Pool)
    ensures BuildRanged(base, tokens, sqrtPrice, liquidity, tick, nets) == Some(p) <==>
            && p.curve.Ranged?
            && p == base.(tokenA := p.tokenA, tokenB := p.tokenB, curve := p.curve)
            && RangedDescribes(p, tokens, sqrtPrice, liquidity, tick, nets, p.curve.range)
  {
    hide Sort, ReadTicks;
    if ReadTicks(nets, |nets|).Some? {
      SortedNets(nets);
    }
    if p.curve.Ranged? && RangedDescribes(p, tokens, sqrtPrice, liquidity, tick, nets, p.curve.range) {
      TicksReadable(nets, |nets|);
      var ticks := Sort(ReadTicks(nets, |nets|).value, TickBefore);
      forall t ensures t in ticks <==> t in p.curve.range.ticks {
        assert t == Concentrated.Tick(t.index, t.net);
      }
      SortedTicksUnique(ticks, p.curve.range.ticks);
    }
  }

  // ---------- Stable ----------

  lemma {:induction false} FoundAt(entries: seq<StableEntry>, i: nat)
    requires i < |entries| && Distinct(StableAddresses(entries))
    ensures FindEntry(entries, entries[i].address) == Some(entries[i])
  {
    var addresses := StableAddresses(entries);
    if i > 0 {
      assert addresses[0] != addresses[i];
      forall j, k | 0 <= j < k < |entries| - 1
        ensures StableAddresses(entries[1..])[j] != StableAddresses(entries[1..])[k]
      {
        assert addresses[j + 1] != addresses[k + 1];
      }
      FoundAt(entries[1..], i - 1);
    }
  }

  /** The entry behind the k-th of the given addresses. */
  ghost predicate Reads(entries: seq<StableEntry>, address: Token, balance: int, scale: int) {
    && FindEntry(entries, address).Some?
    && var entry := FindEntry(entries, address).value;
    entry.balance == balance && PositiveU256(balance) && Scaled(entry.scaling, StableMath.FP_ONE) == Some(scale)
  }

  lemma {:induction false} BalancesRead(entries: seq<StableEntry>, addresses: seq<Token>, n: nat)
    requires n <= |addresses|
    ensures match ReadBalances(entries, addresses, n)
            case None => true
            case Some((balances, scales)) => forall k :: 0 <= k < n ==> Reads(entries, addresses[k], balances[k], scales[k])
  {
    hide Scaled, FindEntry;
    if n > 0 { BalancesRead(entries, addresses, n - 1); }
  }

  lemma {:induction false} BalancesReadable(
    entries: seq<StableEntry>, addresses: seq<Token>, n: nat, balances: seq<int>, scales: seq<int>)
    requires n <= |addresses| && |balances| == |scales| == |addresses|
    requires forall k :: 0 <= k < n ==> Reads(entries, addresses[k], balances[k], scales[k])
    ensures ReadBalances(entries, addresses, n) == Some((balances[..n], scales[..n]))
  {
    hide Scaled, FindEntry;
    if n > 0 {
      BalancesReadable(entries, addresses, n - 1, balances, scales);
      assert Reads(entries, addresses[n - 1], balances[n - 1], scales[n - 1]);
      assert balances[..n] == balances[..n - 1] + [balances[n - 1]];
      assert scales[..n] == scales[..n - 1] + [scales[n - 1]];
    }
  }

  /** For a sorted list of the addresses, every entry is listed exactly when every address
      reads its own entry. */
  lemma ListedIsRead(entries: seq<StableEntry>, tokens: seq<Token>, basket: StableMath.Basket)
    requires Distinct(StableAddresses(entries)) && Sorted(tokens, Before) && SameElements(tokens, StableAddresses(entries))
    requires |basket.balances| == |basket.scalingFactors| == |tokens|
    ensures (forall i :: 0 <= i < |entries| ==> PositiveU256(entries[i].balance) && Lists(tokens, basket, entries[i]))
            <==> (forall k :: 0 <= k < |tokens| ==> Reads(entries, tokens[k], basket.balances[k], basket.scalingFactors[k]))
  {
    hide Scaled, FindEntry, FloorOf, Before;
    StringsOrdered();
    var addresses := StableAddresses(entries);
    forall i, k | 0 <= i < |entries| && 0 <= k < |tokens| && tokens[k] == entries[i].address
      ensures Reads(entries, tokens[k], basket.balances[k], basket.scalingFactors[k]) <==>
              PositiveU256(entries[i].balance) && Lists(tokens, basket, entries[i])
    {
      FoundAt(entries, i);
      ScaledIs(entries[i].scaling, StableMath.FP_ONE, basket.scalingFactors[k]);
    }
    forall i | 0 <= i < |entries|
      ensures exists k :: 0 <= k < |tokens| && tokens[k] == entries[i].address
    {
      assert addresses[i] in addresses;
    }
    forall k | 0 <= k < |tokens|
      ensures exists i :: 0 <= i < |entries| && tokens[k] == entries[i].address
    {
      assert tokens[k] in tokens;
      var i :| 0 <= i < |addresses| && addresses[i] == tokens[k];
    }
  }

  lemma StableExactly(base: Pool, entries: seq<StableEntry>, amplification: Option<Rational>, p: Pool)
    ensures BuildStable(base, entries, amplification) == Some(p) <==>
            && p.curve.Stable?
            && p == base.(tokenA := p.tokenA, tokenB := p.tokenB, curve := p.curve)
            && StableDescribes(p, entries, amplification, p.curve.tokens, p.curve.basket)
  {
    hide Scaled, FindEntry, FloorOf, Before, Sort, Lists, Reads, ReadBalances, Sorted;
    var addresses := StableAddresses(entries);
    if 2 <= |entries| <= 64 && Distinct(addresses) {
      var sorted := Sort(addresses, Before);
      StringsOrdered();
      SortSorted(addresses, Before);
      SortElements(addresses, Before);
      BalancesRead(entries, sorted, |sorted|);
      if BuildStable(base, entries, amplification) == Some(p) {
        ScaledIs(amplification, StableMath.AMP_PRECISION, p.curve.basket.amplificationRaw);
        ListedIsRead(entries, sorted, p.curve.basket);
      }
      if p.curve.Stable? && StableDescribes(p, entries, amplification, p.curve.tokens, p.curve.basket) {
        SortIs(addresses, p.curve.tokens);
        var basket := p.curve.basket;
        ScaledIs(amplification, StableMath.AMP_PRECISION, basket.amplificationRaw);
        assert |basket.balances| == |basket.scalingFactors| == |sorted| by { assert Lists(sorted, basket, entries[0]); ListsSizes(sorted, basket, entries[0]); }
        ListedIsRead(entries, sorted, basket);
        BalancesReadable(entries, sorted, |sorted|, basket.balances, basket.scalingFactors);
        assert basket.balances[..|sorted|] == basket.balances && basket.scalingFactors[..|sorted|] == basket.scalingFactors;
      }
    }
  }

  lemma ListsSizes(tokens: seq<Token>, basket: StableMath.Basket, entry: StableEntry)
    requires Lists(tokens, basket, entry)
    ensures |basket.balances| == |basket.scalingFactors| == |tokens|
  {
  }

  // ---------- Every kind ----------

  /** A pool is built exactly when it carries the entry: each reserve, balance, scaling
      factor and net on the side, at the index or at the tick of its own key, with the
      entry's price, liquidity, tick, amplification, fee, gas, kind and id. An entry no pool can
      carry is skipped. */
  lemma BuildExactly(l: Liquidity, p: Pool)
    ensures BuildPool(l) == Some(p) <==> Describes(l, p)
  {
    hide BuildProduct, BuildRanged, BuildStable, ProductDescribes, RangedDescribes, StableDescribes;
    if l.fee.Some? && l.gas.Some? {
      var gas := l.gas.value;
      var base := Pool(l.id, if gas == 0 then DEFAULT_GAS else gas, "", "", l.fee.value.num, l.fee.value.den, Unsupported(l.kind));
      match l.body
      case Reserves(entries) => ProductExactly(base, entries, p);
      case TickRange(tokens, sqrtPrice, liquidity, tick, nets) =>
        RangedExactly(base, tokens, sqrtPrice, liquidity, tick, nets, p);
      case Balances(entries, amplification) => StableExactly(base, entries, amplification, p);
      case Undecodable =>
    }
  }

  /** Of the ticks nothing is lost: a built concentrated pool lists exactly the given nets. */
  lemma BuiltKeepsTicks(l: Liquidity, index: int, net: int)
    requires BuildPool(l).Some? && l.body.TickRange?
    ensures Concentrated.Tick(index, net) in BuildPool(l).value.curve.range.ticks
            <==> NetEntry(Some(index), Some(net)) in l.body.nets
  {
    hide Sort, ReadTicks;
    SortedNets(l.body.nets);
  }
}
