/** What greedy matching guarantees: disjoint crossing pairs, none left to find, and at
    least half as many as any other set of disjoint crossing pairs. */
module MatchingTheorems {
  import opened Ordering
  import opened Orders
  import opened Matching

  /** Two sell orders of the auction on opposite pairs whose limits cross. */
  ghost predicate Crossing(orders: seq<Order>, m: Match) {
    && m.a in orders && m.b in orders
    && m.a.kind.SellOrder? && m.b.kind.SellOrder?
    && m.a.sellToken == m.b.buyToken && m.a.buyToken == m.b.sellToken
    && 0 < m.a.buyAmount <= m.b.sellAmount && 0 < m.b.buyAmount <= m.a.sellAmount
  }

  function Uids(m: Match): set<string> { {m.a.uid, m.b.uid} }

  /** Crossing pairs of which no two share an order, nor one pairs an order with itself. */
  ghost predicate DisjointCrossing(orders: seq<Order>, ms: seq<Match>) {
    && (forall i :: 0 <= i < |ms| ==> Crossing(orders, ms[i]) && ms[i].a.uid != ms[i].b.uid)
    && (forall i, j :: 0 <= i < j < |ms| ==> Uids(ms[i]) !! Uids(ms[j]))
  }

  ghost function AllUids(ms: seq<Match>): set<string> {
    if ms == [] then {} else AllUids(ms[..|ms| - 1]) + Uids(ms[|ms| - 1])
  }

  lemma {:induction false} InAllUids(ms: seq<Match>, i: nat)
    requires i < |ms|
    ensures Uids(ms[i]) <= AllUids(ms)
  {
    if i < |ms| - 1 { InAllUids(ms[..|ms| - 1], i); }
  }

  ghost predicate StateOk(orders: seq<Order>, s: State) {
    DisjointCrossing(orders, s.out) && s.used == AllUids(s.out)
  }

  lemma {:induction false} PartnerFree(bs: seq<Order>, used: set<string>, a: Order, k: nat)
    requires k <= |bs|
    ensures match Partner(bs, used, a, k)
            case Some(b) => b in bs && b.uid !in used && LimitsCross(a, b)
            case None => forall l :: k <= l < |bs| ==> bs[l].uid in used || !LimitsCross(a, bs[l])
    decreases |bs| - k
  {
    if k < |bs| && !(bs[k].uid !in used && LimitsCross(a, bs[k])) { PartnerFree(bs, used, a, k + 1); }
  }

  /** Members of a bucket, told apart by their uids. */
  lemma BucketMembers(orders: seq<Order>, key: Key, order: Order)
    ensures order in Bucket(orders, |orders|, key) <==> order in orders && order.kind.SellOrder? && KeyOf(order) == key
  {
    InBucket(orders, |orders|, key, order);
    assert orders[..|orders|] == orders;
  }

  lemma DifferentUids(orders: seq<Order>, a: Order, b: Order)
    requires UniqueUids(orders) && a in orders && b in orders && a != b
    ensures a.uid != b.uid
  {
    var i :| 0 <= i < |orders| && orders[i] == a;
    var j :| 0 <= j < |orders| && orders[j] == b;
  }

  /** No order of bs that is free still crosses with a. */
  ghost predicate Exhausted(bs: seq<Order>, a: Order, used: set<string>) {
    a.uid in used || forall b :: b in bs && LimitsCross(a, b) ==> b.uid in used
  }

  lemma MatchOneSound(orders: seq<Order>, key: Key, a: Order, s: State)
    requires UniqueUids(orders) && AllSupported(orders) && StateOk(orders, s)
    requires a in Bucket(orders, |orders|, key)
    ensures var bs := Bucket(orders, |orders|, key.Reverse());
            var r := MatchOne(bs, a, s);
            StateOk(orders, r) && s.used <= r.used && Exhausted(bs, a, r.used)
  {
    hide Bucket;
    var bs := Bucket(orders, |orders|, key.Reverse());
    PartnerFree(bs, s.used, a, 0);
    BucketMembers(orders, key, a);
    var partner := Partner(bs, s.used, a, 0);
    if a.uid !in s.used && a.Positive() {
      if partner.Some? {
        BucketMembers(orders, key.Reverse(), partner.value);
        assert a.Supported();
        DifferentUids(orders, a, partner.value);
        AppendMatch(orders, s, Match(a, partner.value));
      }
    }
  }

  lemma AppendMatch(orders: seq<Order>, s: State, m: Match)
    requires StateOk(orders, s) && Crossing(orders, m) && m.a.uid != m.b.uid
    requires m.a.uid !in s.used && m.b.uid !in s.used
    ensures StateOk(orders, State(s.out + [m], s.used + {m.a.uid, m.b.uid}))
  {
    hide Crossing;
    var out := s.out + [m];
    assert out[..|out| - 1] == s.out;
    forall i | 0 <= i < |s.out|
      ensures Uids(s.out[i]) !! Uids(m)
    {
      InAllUids(s.out, i);
    }
  }

  lemma {:induction false} MatchBucketSound(orders: seq<Order>, key: Key, n: nat, s: State)
    requires UniqueUids(orders) && AllSupported(orders) && StateOk(orders, s)
    requires n <= |Bucket(orders, |orders|, key)|
    ensures var as_, bs := Bucket(orders, |orders|, key), Bucket(orders, |orders|, key.Reverse());
            var r := MatchBucket(bs, as_, n, s);
            && StateOk(orders, r) && s.used <= r.used
            && forall k :: 0 <= k < n ==> Exhausted(bs, as_[k], r.used)
  {
    hide Bucket, MatchOne, StateOk;
    if n > 0 {
      var as_, bs := Bucket(orders, |orders|, key), Bucket(orders, |orders|, key.Reverse());
      MatchBucketSound(orders, key, n - 1, s);
      MatchOneSound(orders, key, as_[n - 1], MatchBucket(bs, as_, n - 1, s));
    }
  }

  /** Every bucket visited so far is exhausted against its reverse. */
  ghost predicate KeysExhausted(orders: seq<Order>, keys: seq<Key>, n: nat, used: set<string>)
    requires n <= |keys|
  {
    forall k, a :: 0 <= k < n && !Before(keys[k].buy, keys[k].sell) && a in Bucket(orders, |orders|, keys[k]) ==>
      Exhausted(Bucket(orders, |orders|, keys[k].Reverse()), a, used)
  }

  lemma {:induction false} MatchKeysSound(orders: seq<Order>, keys: seq<Key>, n: nat)
    requires UniqueUids(orders) && AllSupported(orders) && n <= |keys|
    ensures StateOk(orders, MatchKeys(orders, keys, n))
    ensures KeysExhausted(orders, keys, n, MatchKeys(orders, keys, n).used)
  {
    hide Bucket, MatchBucket, Before;
    if n > 0 {
      MatchKeysSound(orders, keys, n - 1);
      var s := MatchKeys(orders, keys, n - 1);
      var as_ := Bucket(orders, |orders|, keys[n - 1]);
      MatchBucketSound(orders, keys[n - 1], |as_|, s);
      forall a | a in as_ && !Before(keys[n - 1].buy, keys[n - 1].sell)
        ensures Exhausted(Bucket(orders, |orders|, keys[n - 1].Reverse()), a, MatchKeys(orders, keys, n).used)
      {
        var k :| 0 <= k < |as_| && as_[k] == a;
      }
    }
  }

  lemma KeyListed(orders: seq<Order>, order: Order)
    requires order in orders && order.kind.SellOrder?
    ensures KeyOf(order) in SortedKeys(orders)
  {
    SortElements(Enumerate(KeySet(orders)), KeyBefore);
    var i :| 0 <= i < |orders| && orders[i] == order;
    assert KeyOf(orders[i]) in KeySet(orders);
  }

  /** The matches are disjoint crossing pairs, and no two orders left over cross. */
  lemma MatchesMaximal(orders: seq<Order>)
    requires UniqueUids(orders) && AllSupported(orders)
    ensures DisjointCrossing(orders, Matches(orders))
    ensures forall m :: Crossing(orders, m) ==> m.a.uid in AllUids(Matches(orders)) || m.b.uid in AllUids(Matches(orders))
  {
    hide Bucket, MatchKeys, SortedKeys;
    var keys := SortedKeys(orders);
    MatchKeysSound(orders, keys, |keys|);
    var used := AllUids(Matches(orders));
    forall m | Crossing(orders, m)
      ensures m.a.uid in used || m.b.uid in used
    {
      var (x, y) := if Before(m.a.buyToken, m.a.sellToken) then (m.b, m.a) else (m.a, m.b);
      BeforeTransitive(m.a.buyToken, m.a.sellToken, m.a.buyToken);
      BeforeIrreflexive(m.a.buyToken);
      KeyListed(orders, x);
      var k :| 0 <= k < |keys| && keys[k] == KeyOf(x);
      BucketMembers(orders, keys[k], x);
      BucketMembers(orders, keys[k].Reverse(), y);
      assert Exhausted(Bucket(orders, |orders|, keys[k].Reverse()), x, used);
    }
  }

  /** Disjoint pairs that each touch a set are no more than its elements. */
  lemma {:induction false} PairsTouch(ms: seq<Match>, touched: set<string>)
    requires forall i, j :: 0 <= i < j < |ms| ==> Uids(ms[i]) !! Uids(ms[j])
    requires forall i :: 0 <= i < |ms| ==> Uids(ms[i]) * touched != {}
    ensures |ms| <= |touched|
  {
    if ms != [] {
      var last := ms[|ms| - 1];
      var u :| u in Uids(last) * touched;
      var front := ms[..|ms| - 1];
      forall i | 0 <= i < |front|
        ensures Uids(front[i]) * (touched - {u}) != {}
      {
        var v :| v in Uids(ms[i]) * touched;
        assert Uids(ms[i]) !! Uids(last);
        assert v in Uids(front[i]) * (touched - {u});
      }
      PairsTouch(front, touched - {u});
      assert |touched - {u}| == |touched| - 1;
    }
  }

  lemma {:induction false} UidsCount(ms: seq<Match>)
    ensures |AllUids(ms)| <= 2 * |ms|
  {
    if ms != [] {
      var front, last := AllUids(ms[..|ms| - 1]), Uids(ms[|ms| - 1]);
      UidsCount(ms[..|ms| - 1]);
      assert |front + last| <= |front| + |last|;
    }
  }

  /** At least half as many pairs as any set of disjoint crossing pairs. */
  lemma MatchesAtLeastHalf(orders: seq<Order>, other: seq<Match>)
    requires UniqueUids(orders) && AllSupported(orders) && DisjointCrossing(orders, other)
    ensures |other| <= 2 * |Matches(orders)|
  {
    hide Crossing, Matches;
    MatchesMaximal(orders);
    var touched := AllUids(Matches(orders));
    forall i | 0 <= i < |other|
      ensures Uids(other[i]) * touched != {}
    {
      assert Crossing(orders, other[i]);
      var uid := if other[i].a.uid in touched then other[i].a.uid else other[i].b.uid;
      assert uid in Uids(other[i]) * touched;
    }
    PairsTouch(other, touched);
    UidsCount(Matches(orders));
  }

  // ---------- The order of the choices ----------

  /** x stands before y in the auction. */
  ghost predicate Earlier(orders: seq<Order>, x: Order, y: Order) {
    exists p, q :: 0 <= p < q < |orders| && orders[p] == x && orders[q] == y
  }

  /** a sells on a pair that is visited before that of c: by the smaller sold token, then by
      the smaller bought one. */
  predicate VisitedBefore(a: Order, c: Order) {
    Before(a.sellToken, c.sellToken) || (a.sellToken == c.sellToken && Before(a.buyToken, c.buyToken))
  }

  ghost predicate Spent(used: set<string>, a: Order, b: Order) {
    a.uid in used || b.uid in used
  }

  /** Match i starts from its smaller token and takes the earliest free partner; and nothing
      is left to match on the pairs and for the orders before it. */
  ghost predicate FirstChoice(orders: seq<Order>, ms: seq<Match>, i: nat)
    requires i < |ms|
  {
    var m, used := ms[i], AllUids(ms[..i]);
    && Before(m.a.sellToken, m.a.buyToken)
    && (forall b :: Crossing(orders, Match(m.a, b)) && Earlier(orders, b, m.b) ==> b.uid in used)
    && (forall a, b :: Crossing(orders, Match(a, b)) && KeyOf(a) == KeyOf(m.a) && Earlier(orders, a, m.a) ==> Spent(used, a, b))
    && (forall a, b :: Crossing(orders, Match(a, b)) && Before(a.sellToken, a.buyToken) && VisitedBefore(a, m.a) ==> Spent(used, a, b))
  }

  ghost predicate AllFirstChoices(orders: seq<Order>, ms: seq<Match>) {
    forall i :: 0 <= i < |ms| ==> FirstChoice(orders, ms, i)
  }

  lemma ChoicesAppend(orders: seq<Order>, ms: seq<Match>, m: Match)
    requires AllFirstChoices(orders, ms) && FirstChoice(orders, ms + [m], |ms|)
    ensures AllFirstChoices(orders, ms + [m])
  {
    var all := ms + [m];
    forall i | 0 <= i < |ms|
      ensures FirstChoice(orders, all, i)
    {
      assert FirstChoice(orders, ms, i);
      assert all[..i] == ms[..i];
    }
  }

  lemma {:induction false} BucketPrefix(orders: seq<Order>, m: nat, n: nat, key: Key)
    requires m <= n <= |orders|
    ensures Bucket(orders, m, key) <= Bucket(orders, n, key)
  {
    if m < n { BucketPrefix(orders, m, n - 1, key); }
  }

  /** A bucket keeps the order of the auction. */
  lemma BucketInOrder(orders: seq<Order>, key: Key, x: Order, j: nat) returns (i: nat)
    requires UniqueUids(orders) && j < |Bucket(orders, |orders|, key)|
    requires x in Bucket(orders, |orders|, key) && Earlier(orders, x, Bucket(orders, |orders|, key)[j])
    ensures i < j && Bucket(orders, |orders|, key)[i] == x
  {
    hide Bucket;
    var bucket := Bucket(orders, |orders|, key);
    var p, q :| 0 <= p < q < |orders| && orders[p] == x && orders[q] == bucket[j];
    BucketMembers(orders, key, x);
    BucketPrefix(orders, q, |orders|, key);
    var front := Bucket(orders, q, key);
    InBucket(orders, q, key, x);
    assert x in orders[..q] by { assert orders[..q][p] == x; }
    i :| 0 <= i < |front| && front[i] == x;
    InBucket(orders, q, key, bucket[j]);
    assert bucket[j] !in orders[..q];
  }

  lemma {:induction false} PartnerIsFirst(bs: seq<Order>, used: set<string>, a: Order, k: nat) returns (i: nat)
    requires k <= |bs| && Partner(bs, used, a, k).Some?
    ensures k <= i < |bs| && bs[i] == Partner(bs, used, a, k).value
    ensures forall j :: k <= j < i ==> bs[j].uid in used || !LimitsCross(a, bs[j])
    decreases |bs| - k
  {
    i := k;
    if !(bs[k].uid !in used && LimitsCross(a, bs[k])) { i := PartnerIsFirst(bs, used, a, k + 1); }
  }

  lemma CrossingKeys(orders: seq<Order>, a: Order, b: Order)
    ensures Crossing(orders, Match(a, b)) <==>
            && a in orders && a.kind.SellOrder? && b in orders && b.kind.SellOrder?
            && KeyOf(b) == KeyOf(a).Reverse() && LimitsCross(a, b)
  {
  }

  /** The n-th order of the k-th pair, once all before it is exhausted, makes a first choice. */
  lemma ChoiceIsFirst(orders: seq<Order>, k: nat, n: nat, s: State)
    requires UniqueUids(orders) && AllSupported(orders) && StateOk(orders, s) && k < |SortedKeys(orders)|
    requires var key := SortedKeys(orders)[k];
             && !Before(key.buy, key.sell) && n < |Bucket(orders, |orders|, key)|
             && (forall l :: 0 <= l < n ==>
                   Exhausted(Bucket(orders, |orders|, key.Reverse()), Bucket(orders, |orders|, key)[l], s.used))
    requires KeysExhausted(orders, SortedKeys(orders), k, s.used)
    requires AllFirstChoices(orders, s.out)
    ensures var key := SortedKeys(orders)[k];
            AllFirstChoices(orders, MatchOne(Bucket(orders, |orders|, key.Reverse()), Bucket(orders, |orders|, key)[n], s).out)
  {
    hide Bucket, SortedKeys, Before, LimitsCross, Crossing, FirstChoice, Earlier;
    var key := SortedKeys(orders)[k];
    var as_, bs := Bucket(orders, |orders|, key), Bucket(orders, |orders|, key.Reverse());
    var a := as_[n];
    if a.uid !in s.used && a.Positive() && Partner(bs, s.used, a, 0).Some? {
      var j := PartnerIsFirst(bs, s.used, a, 0);
      var m := Match(a, bs[j]);
      FirstOfAll(orders, k, n, j, s);
      ChoicesAppend(orders, s.out, m);
    }
  }

  lemma FirstOfAll(orders: seq<Order>, k: nat, n: nat, j: nat, s: State)
    requires UniqueUids(orders) && AllSupported(orders) && s.used == AllUids(s.out) && k < |SortedKeys(orders)|
    requires var key := SortedKeys(orders)[k];
             var as_, bs := Bucket(orders, |orders|, key), Bucket(orders, |orders|, key.Reverse());
             && !Before(key.buy, key.sell) && n < |as_| && j < |bs|
             && (forall l :: 0 <= l < n ==> Exhausted(bs, as_[l], s.used))
             && (forall l :: 0 <= l < j ==> bs[l].uid in s.used || !LimitsCross(as_[n], bs[l]))
    requires KeysExhausted(orders, SortedKeys(orders), k, s.used)
    ensures var key := SortedKeys(orders)[k];
            var as_, bs := Bucket(orders, |orders|, key), Bucket(orders, |orders|, key.Reverse());
            FirstChoice(orders, s.out + [Match(as_[n], bs[j])], |s.out|)
  {
    hide Bucket, SortedKeys, Before, LimitsCross, Crossing, Earlier, KeysExhausted;
    var key := SortedKeys(orders)[k];
    var as_, bs := Bucket(orders, |orders|, key), Bucket(orders, |orders|, key.Reverse());
    var m, all := Match(as_[n], bs[j]), s.out + [Match(as_[n], bs[j])];
    assert all[..|s.out|] == s.out;
    BucketMembers(orders, key, m.a);
    assert Before(key.sell, key.buy) by { assert m.a.Supported(); BeforeTotal(key.sell, key.buy); }
    forall b | Crossing(orders, Match(m.a, b)) && Earlier(orders, b, m.b)
      ensures b.uid in s.used
    {
      CrossingKeys(orders, m.a, b);
      BucketMembers(orders, key.Reverse(), b);
      var i := BucketInOrder(orders, key.Reverse(), b, j);
    }
    forall a, b | Crossing(orders, Match(a, b)) && KeyOf(a) == KeyOf(m.a) && Earlier(orders, a, m.a)
      ensures Spent(s.used, a, b)
    {
      CrossingKeys(orders, a, b);
      BucketMembers(orders, key, a);
      BucketMembers(orders, key.Reverse(), b);
      var i := BucketInOrder(orders, key, a, n);
      assert Exhausted(bs, as_[i], s.used);
    }
    forall a, b | Crossing(orders, Match(a, b)) && Before(a.sellToken, a.buyToken) && VisitedBefore(a, m.a)
      ensures Spent(s.used, a, b)
    {
      CrossingKeys(orders, a, b);
      VisitedKeys(a, m.a);
      EarlierPairSpent(orders, k, a, b, s.used);
    }
  }

  lemma VisitedKeys(a: Order, c: Order)
    ensures VisitedBefore(a, c) ==> KeyBefore(KeyOf(a), KeyOf(c))
  {
    hide Before;
    BeforeIrreflexive(a.sellToken);
  }

  lemma EarlierPairSpent(orders: seq<Order>, k: nat, a: Order, b: Order, used: set<string>)
    requires k < |SortedKeys(orders)| && KeysExhausted(orders, SortedKeys(orders), k, used)
    requires a in orders && a.kind.SellOrder? && b in orders && b.kind.SellOrder?
    requires KeyOf(b) == KeyOf(a).Reverse() && LimitsCross(a, b)
    requires Before(a.sellToken, a.buyToken) && KeyBefore(KeyOf(a), SortedKeys(orders)[k])
    ensures Spent(used, a, b)
  {
    hide Bucket, Before, LimitsCross, Sort, KeyBefore;
    var keys := SortedKeys(orders);
    KeyListed(orders, a);
    var l :| 0 <= l < |keys| && keys[l] == KeyOf(a);
    KeysOrdered();
    SortSorted(Enumerate(KeySet(orders)), KeyBefore);
    BeforeAsymmetric(a.sellToken, a.buyToken);
    BucketMembers(orders, KeyOf(a), a);
    BucketMembers(orders, KeyOf(a).Reverse(), b);
    assert Exhausted(Bucket(orders, |orders|, keys[l].Reverse()), a, used);
  }

  lemma {:induction false} BucketChoices(orders: seq<Order>, k: nat, n: nat, s: State)
    requires UniqueUids(orders) && AllSupported(orders) && StateOk(orders, s) && k < |SortedKeys(orders)|
    requires var key := SortedKeys(orders)[k]; !Before(key.buy, key.sell) && n <= |Bucket(orders, |orders|, key)|
    requires KeysExhausted(orders, SortedKeys(orders), k, s.used) && AllFirstChoices(orders, s.out)
    ensures var key := SortedKeys(orders)[k];
            AllFirstChoices(orders, MatchBucket(Bucket(orders, |orders|, key.Reverse()), Bucket(orders, |orders|, key), n, s).out)
  {
    hide Bucket, SortedKeys, Before, MatchOne, StateOk, AllFirstChoices, Exhausted;
    if n > 0 {
      var key := SortedKeys(orders)[k];
      var as_, bs := Bucket(orders, |orders|, key), Bucket(orders, |orders|, key.Reverse());
      BucketChoices(orders, k, n - 1, s);
      MatchBucketSound(orders, key, n - 1, s);
      var r := MatchBucket(bs, as_, n - 1, s);
      MoreExhausted(orders, SortedKeys(orders), k, s.used, r.used);
      ChoiceIsFirst(orders, k, n - 1, r);
    }
  }

  lemma MoreExhausted(orders: seq<Order>, keys: seq<Key>, n: nat, used: set<string>, used': set<string>)
    requires n <= |keys| && KeysExhausted(orders, keys, n, used) && used <= used'
    ensures KeysExhausted(orders, keys, n, used')
  {
    hide Bucket, Before;
    forall k, a | 0 <= k < n && !Before(keys[k].buy, keys[k].sell) && a in Bucket(orders, |orders|, keys[k])
      ensures Exhausted(Bucket(orders, |orders|, keys[k].Reverse()), a, used')
    {
      assert Exhausted(Bucket(orders, |orders|, keys[k].Reverse()), a, used);
    }
  }

  lemma {:induction false} KeysChoices(orders: seq<Order>, n: nat)
    requires UniqueUids(orders) && AllSupported(orders) && n <= |SortedKeys(orders)|
    ensures AllFirstChoices(orders, MatchKeys(orders, SortedKeys(orders), n).out)
  {
    hide Bucket, SortedKeys, MatchBucket, Before, StateOk, KeysExhausted, FirstChoice;
    if n > 0 {
      var keys := SortedKeys(orders);
      var s := MatchKeys(orders, keys, n - 1);
      KeysChoices(orders, n - 1);
      MatchKeysSound(orders, keys, n - 1);
      if !Before(keys[n - 1].buy, keys[n - 1].sell) {
        BucketChoices(orders, n - 1, |Bucket(orders, |orders|, keys[n - 1])|, s);
      }
    }
  }

  /** Every match is the first choice there is after the matches before it: the earliest free
      partner, for the earliest order of the first pair that still has one. */
  lemma MatchesAreFirstChoices(orders: seq<Order>)
    requires UniqueUids(orders) && AllSupported(orders)
    ensures AllFirstChoices(orders, Matches(orders))
  {
    hide MatchKeys, SortedKeys, AllFirstChoices;
    KeysChoices(orders, |SortedKeys(orders)|);
  }
}
