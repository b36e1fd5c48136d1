/** Building routable pools from the auction's liquidity, with every skipped entry counted. */
module PoolBuilding {
  import opened U256
  import opened Options
  import opened Ordering
  import opened Pools
  import opened Contexts
  import opened TickMath
  import opened WalkTheorems
  import Concentrated
  import StableMath
  import Routes

  const MAX_STABLE_TOKENS: nat := 64
  const MAX_TICKS: nat := 16_384
  const INT128: int := 0x8000_0000_0000_0000_0000_0000_0000_0000
  const DEFAULT_GAS: nat := 90_000

  datatype Rational = Rational(num: int, den: int)

  datatype ReserveEntry = ReserveEntry(address: Token, reserve: int)

  datatype StableEntry = StableEntry(address: Token, balance: int, scaling: Option<Rational>)

  datatype NetEntry = NetEntry(index: Option<int>, net: Option<int>)

  /** The kind-specific part of a liquidity entry, already decoded; a JSON object comes as
      its entries in some order. A non-positive amount stands for one that does not parse. */
  datatype Body =
    | Reserves(reserves: seq<ReserveEntry>)
    | TickRange(tokens: seq<Token>, sqrtPrice: int, liquidity: int, tick: Option<int>, nets: seq<NetEntry>)
    | Balances(entries: seq<StableEntry>, amplification: Option<Rational>)
    | Undecodable

  datatype Liquidity = Liquidity(kind: string, id: string, fee: Option<Rational>, gas: Option<nat>, body: Body)

  predicate ProperFee(fee: Rational) {
    0 <= fee.num < fee.den <= MAX_U256
  }

  /** value * scale, rounded down, when the rational is positive and the result fits. */
  function Scaled(value: Option<Rational>, scale: nat): Option<int> {
    if value.None? || value.value.num <= 0 || value.value.den <= 0 then None
    else
      var scaled := value.value.num * scale / value.value.den;
      if PositiveU256(scaled) then Some(scaled) else None
  }

  function Addresses(entries: seq<ReserveEntry>): seq<Token> {
    seq(|entries|, i requires 0 <= i < |entries| => entries[i].address)
  }

  function ReserveOf(entries: seq<ReserveEntry>, address: Token): int {
    if entries == [] then 0
    else if entries[0].address == address then entries[0].reserve
    else ReserveOf(entries[1..], address)
  }

  function BuildProduct(base: Pool, entries: seq<ReserveEntry>): Option<Pool> {
    if |entries| != 2 || entries[0].address == entries[1].address then None
    else
      var addresses := Sort(Addresses(entries), Before);
      var a, b := ReserveOf(entries, addresses[0]), ReserveOf(entries, addresses[1]);
      if !PositiveU256(a) || !PositiveU256(b) then None
      else Some(base.(tokenA := addresses[0], tokenB := addresses[1], curve := Product(a, b)))
  }

  predicate TickBefore(a: Concentrated.Tick, b: Concentrated.Tick) {
    a.index < b.index || (a.index == b.index && a.net < b.net)
  }

  /** The ticks of the entries, when every index is valid and new and every net an int128. */
  function ReadTicks(nets: seq<NetEntry>, n: nat): Option<seq<Concentrated.Tick>>
    requires n <= |nets|
  {
    if n == 0 then Some([])
    else
      var front :- ReadTicks(nets, n - 1);
      var entry := nets[n - 1];
      var index :- entry.index;
      if !ValidTick(index) || Indexed(front, index) then None
      else
        var net :- entry.net;
        if net < -INT128 || net >= INT128 then None else Some(front + [Concentrated.Tick(index, net)])
  }

  predicate Indexed(ticks: seq<Concentrated.Tick>, index: int) {
    exists i :: 0 <= i < |ticks| && ticks[i].index == index
  }

  function BuildRanged(
    base: Pool, tokens: seq<Token>, sqrtPrice: int, liquidity: int, tick: Option<int>, nets: seq<NetEntry>): Option<Pool>
  {
    if |tokens| != 2 || tokens[0] == tokens[1] || |nets| > MAX_TICKS then None
    else if !PositiveU256(sqrtPrice) || !(0 < liquidity < Q128) || tick.None? || !ValidTick(tick.value) then None
    else
      var ticks :- ReadTicks(nets, |nets|);
      Some(base.(tokenA := tokens[0], tokenB := tokens[1],
                 curve := Ranged(Concentrated.Range(sqrtPrice, liquidity, tick.value, Sort(ticks, TickBefore)))))
  }

  function StableAddresses(entries: seq<StableEntry>): seq<Token> {
    seq(|entries|, i requires 0 <= i < |entries| => entries[i].address)
  }

  function FindEntry(entries: seq<StableEntry>, address: Token): Option<StableEntry> {
    if entries == [] then None
    else if entries[0].address == address then Some(entries[0])
    else FindEntry(entries[1..], address)
  }

  /** Balances and scaling factors of the first n addresses. */
  function ReadBalances(entries: seq<StableEntry>, addresses: seq<Token>, n: nat): (r: Option<(seq<int>, seq<int>)>)
    requires n <= |addresses|
    ensures r.Some? ==> |r.value.0| == |r.value.1| == n
    ensures r.Some? ==> forall k :: 0 <= k < n ==> PositiveU256(r.value.0[k]) && PositiveU256(r.value.1[k])
  {
    if n == 0 then Some(([], []))
    else
      var (balances, scales) :- ReadBalances(entries, addresses, n - 1);
      var entry :- FindEntry(entries, addresses[n - 1]);
      if !PositiveU256(entry.balance) then None
      else
        var scale :- Scaled(entry.scaling, StableMath.FP_ONE);
        Some((balances + [entry.balance], scales + [scale]))
  }

  function BuildStable(base: Pool, entries: seq<StableEntry>, amplification: Option<Rational>): Option<Pool> {
    if !(2 <= |entries| <= MAX_STABLE_TOKENS) then None
    else
      var amp :- Scaled(amplification, StableMath.AMP_PRECISION);
      var addresses := StableAddresses(entries);
      if !Distinct(addresses) then None
      else
        var sorted := Sort(addresses, Before);
        var (balances, scales) :- ReadBalances(entries, sorted, |sorted|);
        Some(base.(tokenA := sorted[0], tokenB := sorted[1],
                   curve := Stable(sorted, StableMath.Basket(balances, scales, amp))))
  }

  function BuildPool(l: Liquidity): Option<Pool> {
    var fee :- l.fee;
    if !ProperFee(fee) then None
    else
      var gas :- l.gas;
      if gas > Routes.MAX_U64 then None
      else
        var base := Pool(l.id, if gas == 0 then DEFAULT_GAS else gas, "", "", fee.num, fee.den, Unsupported(l.kind));
        if l.kind == "constantProduct" && l.body.Reserves? then BuildProduct(base, l.body.reserves)
        else if l.kind == "concentratedLiquidity" && l.body.TickRange? then
          BuildRanged(base, l.body.tokens, l.body.sqrtPrice, l.body.liquidity, l.body.tick, l.body.nets)
        else if l.kind == "stable" && l.body.Balances? then BuildStable(base, l.body.entries, l.body.amplification)
        else None
  }

  // ---------- What a built pool satisfies ----------

  /** The facts every quote may rely on. */
  ghost predicate WellFormedPool(p: Pool) {
    && 0 < p.gasEstimate <= Routes.MAX_U64
    && 0 <= p.feeNum < p.feeDen <= MAX_U256
    && match p.curve
       case Product(reserveA, reserveB) =>
         Before(p.tokenA, p.tokenB) && PositiveU256(reserveA) && PositiveU256(reserveB)
       case Ranged(range) =>
         && p.tokenA != p.tokenB
         && PositiveU256(range.sqrtPrice) && 0 < range.liquidity < Q128 && ValidTick(range.tick)
         && TicksSorted(range.ticks)
         && (forall i :: 0 <= i < |range.ticks| ==> -INT128 <= range.ticks[i].net < INT128)
       case Stable(tokens, basket) =>
         && 2 <= |tokens| <= MAX_STABLE_TOKENS && Sorted(tokens, Before)
         && |basket.balances| == |basket.scalingFactors| == |tokens|
         && PositiveU256(basket.amplificationRaw)
         && forall i :: 0 <= i < |tokens| ==> PositiveU256(basket.balances[i]) && PositiveU256(basket.scalingFactors[i])
       case Unsupported(_) => false
  }

  lemma TicksOrdered()
    ensures StrictTotal(TickBefore)
  {
  }

  lemma {:induction false} TicksRead(nets: seq<NetEntry>, n: nat)
    requires n <= |nets|
    ensures match ReadTicks(nets, n)
            case None => true
            case Some(ticks) =>
              && |ticks| == n
              && (forall i :: 0 <= i < n ==> ValidTick(ticks[i].index) && -INT128 <= ticks[i].net < INT128)
              && (forall i :: 0 <= i < n ==> nets[i] == NetEntry(Some(ticks[i].index), Some(ticks[i].net)))
              && (forall i, j :: 0 <= i < j < n ==> ticks[i].index != ticks[j].index)
  {
    if n > 0 { TicksRead(nets, n - 1); }
  }

  /** Sorting distinct valid ticks makes them strictly increasing. */
  lemma SortedTicks(ticks: seq<Concentrated.Tick>)
    requires forall i :: 0 <= i < |ticks| ==> ValidTick(ticks[i].index) && -INT128 <= ticks[i].net < INT128
    requires forall i, j :: 0 <= i < j < |ticks| ==> ticks[i].index != ticks[j].index
    ensures TicksSorted(Sort(ticks, TickBefore))
    ensures forall i :: 0 <= i < |ticks| ==> -INT128 <= Sort(ticks, TickBefore)[i].net < INT128
  {
    hide Sort;
    TicksOrdered();
    SortSorted(ticks, TickBefore);
    SortElements(ticks, TickBefore);
    var sorted := Sort(ticks, TickBefore);
    forall i | 0 <= i < |sorted|
      ensures sorted[i] in ticks
    {
      assert sorted[i] in sorted;
    }
    forall i, j | 0 <= i < j < |sorted|
      ensures sorted[i].index < sorted[j].index
    {
      assert TickBefore(sorted[i], sorted[j]);
      var k :| 0 <= k < |ticks| && ticks[k] == sorted[i];
      var l :| 0 <= l < |ticks| && ticks[l] == sorted[j];
    }
  }

  /** Whatever is built is well formed. */
  lemma BuiltIsWellFormed(l: Liquidity)
    ensures BuildPool(l).Some? ==> WellFormedPool(BuildPool(l).value)
  {
    hide Sort, Before;
    if BuildPool(l).Some? {
      StringsOrdered();
      match l.body
      case Reserves(entries) =>
        SortSorted(Addresses(entries), Before);
      case TickRange(_, _, _, _, nets) =>
        TicksRead(nets, |nets|);
        SortedTicks(ReadTicks(nets, |nets|).value);
      case Balances(entries, _) =>
        SortSorted(StableAddresses(entries), Before);
    }
  }

  // ---------- The loops of the builder ----------

  /** The tick loop with its seen-set. */
  method ComputeTicks(nets: seq<NetEntry>) returns (r: Option<seq<Concentrated.Tick>>)
    ensures r == ReadTicks(nets, |nets|)
  {
    var ticks: seq<Concentrated.Tick> := [];
    var seen: set<int> := {};
    for i := 0 to |nets|
      invariant ReadTicks(nets, i) == Some(ticks)
      invariant forall index :: index in seen <==> Indexed(ticks, index)
    {
      var entry := nets[i];
      if entry.index.None? || !ValidTick(entry.index.value) || entry.index.value in seen || entry.net.None?
         || entry.net.value < -INT128 || entry.net.value >= INT128 {
        ReadTicksFails(nets, i + 1);
        return None;
      }
      seen := seen + {entry.index.value};
      ghost var before := ticks;
      ticks := ticks + [Concentrated.Tick(entry.index.value, entry.net.value)];
      IndexedAppend(before, Concentrated.Tick(entry.index.value, entry.net.value));
    }
    return Some(ticks);
  }

  lemma IndexedAppend(ticks: seq<Concentrated.Tick>, tick: Concentrated.Tick)
    ensures forall index :: Indexed(ticks + [tick], index) <==> Indexed(ticks, index) || index == tick.index
  {
    forall index
      ensures Indexed(ticks + [tick], index) <==> Indexed(ticks, index) || index == tick.index
    {
      var all := ticks + [tick];
      assert all[|ticks|] == tick;
      if i :| 0 <= i < |ticks| && ticks[i].index == index {
        assert all[i].index == index;
      }
    }
  }

  lemma {:induction false} ReadTicksFails(nets: seq<NetEntry>, i: nat)
    requires i <= |nets| && ReadTicks(nets, i).None?
    ensures ReadTicks(nets, |nets|).None?
    decreases |nets| - i
  {
    if i < |nets| { ReadTicksFails(nets, i + 1); }
  }

  /** The loop over the sorted addresses of a stable pool. */
  method ComputeBalances(entries: seq<StableEntry>, addresses: seq<Token>) returns (r: Option<(seq<int>, seq<int>)>)
    ensures r == ReadBalances(entries, addresses, |addresses|)
  {
    var balances: seq<int>, scales: seq<int> := [], [];
    for i := 0 to |addresses|
      invariant ReadBalances(entries, addresses, i) == Some((balances, scales))
    {
      var entry := FindEntry(entries, addresses[i]);
      if entry.None? || !PositiveU256(entry.value.balance) {
        ReadBalancesFails(entries, addresses, i + 1);
        return None;
      }
      var scale := Scaled(entry.value.scaling, StableMath.FP_ONE);
      if scale.None? {
        ReadBalancesFails(entries, addresses, i + 1);
        return None;
      }
      balances, scales := balances + [entry.value.balance], scales + [scale.value];
    }
    return Some((balances, scales));
  }

  lemma {:induction false} ReadBalancesFails(entries: seq<StableEntry>, addresses: seq<Token>, i: nat)
    requires i <= |addresses| && ReadBalances(entries, addresses, i).None?
    ensures ReadBalances(entries, addresses, |addresses|).None?
    decreases |addresses| - i
  {
    if i < |addresses| { ReadBalancesFails(entries, addresses, i + 1); }
  }

  method ComputeBuildPool(l: Liquidity) returns (r: Option<Pool>)
    ensures r == BuildPool(l)
    ensures r.Some? ==> WellFormedPool(r.value)
  {
    hide ReadTicks, ReadBalances, Sort, Distinct, Scaled, WellFormedPool;
    BuiltIsWellFormed(l);
    if l.fee.None? || !ProperFee(l.fee.value) || l.gas.None? || l.gas.value > Routes.MAX_U64 {
      return None;
    }
    var gas := if l.gas.value == 0 then DEFAULT_GAS else l.gas.value;
    var base := Pool(l.id, gas, "", "", l.fee.value.num, l.fee.value.den, Unsupported(l.kind));
    match l.body {
      case Reserves(reserves) =>
        r := if l.kind == "constantProduct" then BuildProduct(base, reserves) else None;
      case TickRange(tokens, sqrtPrice, liquidity, tick, nets) =>
        if l.kind != "concentratedLiquidity" || |tokens| != 2 || tokens[0] == tokens[1] || |nets| > MAX_TICKS
           || !PositiveU256(sqrtPrice) || !(0 < liquidity < Q128) || tick.None? || !ValidTick(tick.value) {
          return None;
        }
        var ticks :- ComputeTicks(nets);
        return Some(base.(tokenA := tokens[0], tokenB := tokens[1],
                          curve := Ranged(Concentrated.Range(sqrtPrice, liquidity, tick.value, Sort(ticks, TickBefore)))));
      case Balances(entries, amplification) =>
        if l.kind != "stable" || !(2 <= |entries| <= MAX_STABLE_TOKENS) {
          return None;
        }
        var amp :- Scaled(amplification, StableMath.AMP_PRECISION);
        var addresses := StableAddresses(entries);
        if !Distinct(addresses) {
          return None;
        }
        var sorted := Sort(addresses, Before);
        var read :- ComputeBalances(entries, sorted);
        return Some(base.(tokenA := sorted[0], tokenB := sorted[1],
                          curve := Stable(sorted, StableMath.Basket(read.0, read.1, amp))));
      case Undecodable =>
        r := None;
    }
  }

  // ---------- Accounting ----------

  function Tally(counts: map<string, nat>, key: string): nat {
    if key in counts then counts[key] else 0
  }

  function AddTo(counts: map<string, nat>, key: string, n: nat): map<string, nat> {
    counts[key := Tally(counts, key) + n]
  }

  ghost function Total(counts: map<string, nat>): nat
    decreases |counts|
  {
    if counts == map[] then 0
    else
      var key :| key in counts;
      assert |counts - {key}| == |counts| - 1 by { assert (counts - {key}).Keys == counts.Keys - {key}; }
      counts[key] + Total(counts - {key})
  }

  lemma {:induction false} TotalWithout(counts: map<string, nat>, key: string)
    requires key in counts
    ensures Total(counts) == counts[key] + Total(counts - {key})
    decreases |counts|
  {
    var first :| first in counts && Total(counts) == counts[first] + Total(counts - {first});
    if first != key {
      assert (counts - {first}).Keys == counts.Keys - {first};
      assert (counts - {key}).Keys == counts.Keys - {key};
      TotalWithout(counts - {first}, key);
      TotalWithout(counts - {key}, first);
      assert counts - {first} - {key} == counts - {key} - {first};
    }
  }

  lemma TotalAdds(counts: map<string, nat>, key: string, n: nat)
    ensures Total(AddTo(counts, key, n)) == Total(counts) + n
  {
    var added := AddTo(counts, key, n);
    TotalWithout(added, key);
    if key in counts {
      TotalWithout(counts, key);
      assert added - {key} == counts - {key};
    } else {
      assert added - {key} == counts;
    }
  }

  /** The pools of the first n entries. */
  function Built(liquidity: seq<Liquidity>, n: nat): seq<Pool>
    requires n <= |liquidity|
  {
    if n == 0 then []
    else
      match BuildPool(liquidity[n - 1])
      case None => Built(liquidity, n - 1)
      case Some(p) => Built(liquidity, n - 1) + [p]
  }

  function Label(l: Liquidity): string {
    if l.kind == "" then "unknown" else l.kind
  }

  /** An entry counts under its own kind, and under "unknown" when that is empty. */
  predicate CountsAs(kind: string, key: string) {
    key == kind != "" || (kind == "" && key == "unknown")
  }

  /** How many of the first n entries are skipped under a label. */
  function Skips(liquidity: seq<Liquidity>, n: nat, key: string): nat
    requires n <= |liquidity|
  {
    if n == 0 then 0
    else
      Skips(liquidity, n - 1, key)
      + (if BuildPool(liquidity[n - 1]).None? && CountsAs(liquidity[n - 1].kind, key) then 1 else 0)
  }

  /** The skip counts once the first n entries are looked at: each unusable one under its own
      kind, and the rest beyond the limit under one more label. */
  ghost predicate Skipped(skipped: map<string, nat>, liquidity: seq<Liquidity>, n: nat, rest: nat)
    requires n <= |liquidity|
  {
    forall key :: Tally(skipped, key) == Skips(liquidity, n, key) + (if key == "resourceLimit" then rest else 0)
  }

  lemma NothingSkipped(liquidity: seq<Liquidity>, rest: nat)
    ensures Skipped(map[], liquidity, 0, 0)
    ensures Skipped(AddTo(map[], "resourceLimit", rest), liquidity, 0, rest)
  {
  }

  lemma OneMoreSkipped(skipped: map<string, nat>, liquidity: seq<Liquidity>, n: nat, rest: nat)
    requires n < |liquidity| && Skipped(skipped, liquidity, n, rest)
    ensures if BuildPool(liquidity[n]).None? then Skipped(AddTo(skipped, Label(liquidity[n]), 1), liquidity, n + 1, rest)
            else Skipped(skipped, liquidity, n + 1, rest)
  {
    hide BuildPool;
    var kind := Label(liquidity[n]);
    var added := AddTo(skipped, kind, 1);
    forall key
      ensures Tally(added, key) == Tally(skipped, key) + (if key == kind then 1 else 0)
      ensures Skips(liquidity, n + 1, key)
              == Skips(liquidity, n, key) + (if BuildPool(liquidity[n]).None? && kind == key then 1 else 0)
    {
      assert CountsAs(liquidity[n].kind, key) <==> kind == key;
    }
  }

  /** How many entries are looked at. */
  function Looked(liquidity: seq<Liquidity>, maxPools: int): (n: nat)
    ensures n <= |liquidity|
  {
    if maxPools > 0 && |liquidity| > maxPools then maxPools else |liquidity|
  }

  /** Every supplied entry is either built or counted as skipped, even when the run is
      cancelled; an uncancelled run builds every buildable entry up to the limit. */
  method BuildPoolsContext(ctx: Context, liquidity: seq<Liquidity>, maxPools: int)
    returns (pools: seq<Pool>, skipped: map<string, nat>)
    modifies ctx
    ensures |pools| + Total(skipped) == |liquidity|
    ensures forall p :: p in pools ==> WellFormedPool(p)
    ensures pools <= Built(liquidity, Looked(liquidity, maxPools))
    ensures !ctx.Fired() ==> pools == Built(liquidity, Looked(liquidity, maxPools))
    ensures !ctx.Fired() ==>
              var looked := Looked(liquidity, maxPools); Skipped(skipped, liquidity, looked, |liquidity| - looked)
    ensures old(ctx.Fired()) ==> ctx.Fired()
  {
    hide BuildPool, WellFormedPool, Total, AddTo, Skipped, Label;
    var limit := |liquidity|;
    skipped := map[];
    NothingSkipped(liquidity, |liquidity| - Looked(liquidity, maxPools));
    assert Total(skipped) == 0 by { TotalOfNone(); }
    if maxPools > 0 && limit > maxPools {
      limit := maxPools;
      TotalAdds(skipped, "resourceLimit", |liquidity| - limit);
      skipped := AddTo(skipped, "resourceLimit", |liquidity| - limit);
    }
    pools := [];
    for i := 0 to limit
      invariant |pools| + Total(skipped) == |liquidity| - limit + i
      invariant pools == Built(liquidity, i)
      invariant Skipped(skipped, liquidity, i, |liquidity| - limit)
      invariant forall p :: p in pools ==> WellFormedPool(p)
      invariant i > 0 ==> !ctx.Fired() && !old(ctx.Fired())
      invariant i == 0 ==> (ctx.Fired() <==> old(ctx.Fired()))
    {
      var cancelled := ctx.Cancelled();
      if cancelled {
        TotalAdds(skipped, "cancelled", limit - i);
        skipped := AddTo(skipped, "cancelled", limit - i);
        BuiltExtends(liquidity, i, limit);
        return;
      }
      OneMoreSkipped(skipped, liquidity, i, |liquidity| - limit);
      var pool := ComputeBuildPool(liquidity[i]);
      if pool.None? {
        var kind := Label(liquidity[i]);
        TotalAdds(skipped, kind, 1);
        skipped := AddTo(skipped, kind, 1);
        continue;
      }
      pools := pools + [pool.value];
    }
  }

  lemma TotalOfNone()
    ensures Total(map[]) == 0
  {
  }

  lemma {:induction false} BuiltExtends(liquidity: seq<Liquidity>, m: nat, n: nat)
    requires m <= n <= |liquidity|
    ensures Built(liquidity, m) <= Built(liquidity, n)
  {
    hide BuildPool;
    if m < n { BuiltExtends(liquidity, m, n - 1); }
  }
}
