/** Exactly when stable quotes are ordered, with small pools that show the condition sharp. */
module StableExactness {
  import opened Arith
  import opened U256
  import opened StableMath
  import opened StableMonotonicity

  // ---------- Two tokens, no fee, no scaling ----------

  function Plain(first: int, second: int, amp: int): Exchange {
    Exchange(Basket([first, second], [FP_ONE, FP_ONE], amp), 2, 0, 1, 0, 1)
  }

  predicate Small(first: int, second: int, amp: int) {
    0 < first <= 10_000 && 0 < second <= 10_000 && 0 < amp <= 1_000_000
  }

  lemma ScaleOne(basket: Basket, n: nat, front: seq<int>, last: int)
    requires n < |basket.balances| == |basket.scalingFactors|
    requires ScaleAll(basket, n) == Ok(front) && ScaleBalance(basket.balances[n], basket.scalingFactors[n]) == Ok(last)
    ensures ScaleAll(basket, n + 1) == Ok(front + [last])
  {
  }

  lemma PlainOpen(first: int, second: int, amp: int, inv: int)
    requires Small(first, second, amp) && inv > 0
    ensures StableInvariant(amp, [first, second]) == Ok(inv) ==>
              var x := Plain(first, second, amp); x.Open() && x.Scaled() == [first, second] && x.Invariant() == inv
  {
    hide StableInvariant;
    var basket := Plain(first, second, amp).basket;
    assert ScaleBalance(first, FP_ONE) == Ok(first) && ScaleBalance(second, FP_ONE) == Ok(second);
    ScaleOne(basket, 0, [], first);
    ScaleOne(basket, 1, [] + [first], second);
    assert ([] + [first]) + [second] == [first, second];
    assert FeeBfp(0, 1) == Ok(0);
  }

  lemma PlainRaise(first: int, second: int, amp: int, paid: int)
    requires 0 < paid <= 10_000
    ensures Plain(first, second, amp).Raise(paid) == Ok(paid)
  {
    assert FeeBfp(0, 1) == Ok(0);
    assert FpMulUp(paid, 0) == Ok(0);
  }

  lemma PlainPays(first: int, second: int, amp: int, left: int)
    requires Small(first, second, amp) && 0 < left < second - 1
    ensures PayOut(Plain(first, second, amp).basket, second, left, 1) == Ok(second - left - 1)
  {
  }

  /** An input that leaves so many units buys all but one of the others. */
  lemma PlainQuote(first: int, second: int, amp: int, inv: int, paid: int, q: Quadratic, left: int)
    requires Small(first, second, amp) && inv > 0 && 0 < paid <= 10_000 && 0 < left < second - 1
    ensures StableInvariant(amp, [first, second]) == Ok(inv)
            && Coefficients(amp, [first + paid, second], inv, 1) == Ok(q)
            && Iterate(BalanceNewton(q, inv), q.start, MAX_ITERATIONS) == Ok(left) ==>
              var x := Plain(first, second, amp);
              && x.Quote(paid) == Ok(second - left - 1)
              && x.Open() && x.Raise(paid) == Ok(paid) && x.Remaining(paid) == Ok(left)
              && x.Slack(paid) == Ok(1 + q.b - inv - q.c)
  {
    hide StableInvariant, Coefficients, Iterate, ScaleAll, FeeBfp, FpMulUp, StableMath.Quote, PayOut, Exchange.Open, Exchange.Raise;
    PlainOpen(first, second, amp, inv);
    PlainRaise(first, second, amp, paid);
    PlainPays(first, second, amp, left);
    assert [first, second][0 := first + paid] == [first + paid, second];
    QuoteParts(Plain(first, second, amp), paid);
  }

  lemma IterateOnce(step: int -> Result<int>, y: int, fuel: nat)
    requires fuel > 0
    ensures Iterate(step, y, fuel) ==
            match step(y)
            case Err(error) => Err(error)
            case Ok(next) => if Converged(next, y) then Ok(next) else Iterate(step, next, fuel - 1)
  {
  }

  /** One round of the invariant, from the two quotients of its product. */
  lemma PlainStep(ampTotal: int, first: int, second: int, sum: int, inv: int, one: int, two: int)
    requires 0 < first <= 10_000 && 0 < second <= 10_000 && 0 < inv <= 10_000
    requires 0 <= one <= 10_000 && one == inv * inv / (2 * first) && 0 <= two <= 1_000_000 && two == one * inv / (2 * second)
    ensures InvariantStep(ampTotal, [first, second], sum, inv) == InvariantUpdate(ampTotal, 2, sum, inv, two)
  {
    hide InvariantUpdate;
    MulMono2(0, inv, 0, inv);
    MulMono2(inv, 10_000, inv, 10_000);
    MulMono2(0, one, 0, inv);
    MulMono2(one, 10_000, inv, 10_000);
    assert ProductLoop([first, second], inv, 2, two) == Ok(two);
    assert ProductLoop([first, second], inv, 1, one) == Ok(two);
  }

  lemma PlainSum(first: int, second: int)
    requires 0 < first <= 10_000 && 0 < second <= 10_000
    ensures SumLoop([first, second], 0, 0) == Ok(first + second)
  {
    assert SumLoop([first, second], 2, first + second) == Ok(first + second);
    assert SumLoop([first, second], 1, first) == Ok(first + second);
  }

  // ---------- A pool of 3155 and 4 ----------

  const SHALLOW: Exchange := Plain(3155, 4, 245_000)

  lemma ShallowUpdates()
    ensures InvariantUpdate(490_000, 2, 3159, 3159, 624_297) == Ok(2584)
    ensures InvariantUpdate(490_000, 2, 3159, 2584, 341_734) == Ok(2519)
    ensures InvariantUpdate(490_000, 2, 3159, 2519, 316_449) == Ok(2518)
  {
  }

  lemma ShallowInvariant()
    ensures StableInvariant(245_000, [3155, 4]) == Ok(2518)
  {
    hide InvariantStep, InvariantUpdate, Iterate, SumLoop;
    var balances := [3155, 4];
    ShallowUpdates();
    PlainStep(490_000, 3155, 4, 3159, 3159, 1581, 624_297);
    PlainStep(490_000, 3155, 4, 3159, 2584, 1058, 341_734);
    PlainStep(490_000, 3155, 4, 3159, 2519, 1005, 316_449);
    var step := InvariantNewton(490_000, balances, 3159);
    IterateOnce(step, 3159, 255);
    IterateOnce(step, 2584, 254);
    IterateOnce(step, 2519, 253);
    PlainSum(3155, 4);
  }

  lemma ShallowCoefficients(raised: int)
    requires 6518 <= raised <= 6520
    ensures Coefficients(245_000, [raised, 4], 2518, 1) == Ok(Quadratic(raised, 4000, if raised < 6520 then 703 else 702))
  {
    assert ProductAndSum([raised, 4], 2518, 2, 41, raised + 4) == Ok((41, raised + 4));
    assert ProductAndSum([raised, 4], 2518, 1, raised * 2, raised) == Ok((41, raised + 4));
  }

  lemma ShallowDescent(q: Quadratic)
    requires q == Quadratic(6518, 4000, 703) || q == Quadratic(6519, 4000, 703)
    ensures Iterate(BalanceNewton(q, 2518), 703, 255) == Ok(1)
  {
    hide Iterate;
    IterateOnce(BalanceNewton(q, 2518), 703, 255);
    IterateOnce(BalanceNewton(q, 2518), 93, 254);
    IterateOnce(BalanceNewton(q, 2518), 4, 253);
    IterateOnce(BalanceNewton(q, 2518), 2, 252);
  }

  lemma ShallowStop(q: Quadratic)
    requires q == Quadratic(6520, 4000, 702)
    ensures Iterate(BalanceNewton(q, 2518), 702, 255) == Ok(2)
  {
    hide Iterate;
    IterateOnce(BalanceNewton(q, 2518), 702, 255);
    IterateOnce(BalanceNewton(q, 2518), 92, 254);
    IterateOnce(BalanceNewton(q, 2518), 3, 253);
  }

  /** Paying 3363 or 3364 buys two units, paying 3365 only one. */
  lemma ShallowQuotes()
    ensures SHALLOW.Quote(3363) == Ok(2) && SHALLOW.Quote(3364) == Ok(2) && SHALLOW.Quote(3365) == Ok(1)
    ensures SHALLOW.Open() && SHALLOW.Remaining(3363) == SHALLOW.Remaining(3364) == Ok(1)
    ensures SHALLOW.Raise(3363) == Ok(3363) && SHALLOW.Raise(3364) == Ok(3364) && SHALLOW.Raise(3365) == Ok(3365)
    ensures SHALLOW.Slack(3363) == Ok(1) && SHALLOW.Slack(3364) == Ok(2)
  {
    hide Coefficients, Iterate, StableInvariant, Exchange.Quote, Exchange.Open, Exchange.Raise, Exchange.Remaining, Exchange.Slack;
    ShallowInvariant();
    ShallowCoefficients(6518);
    ShallowCoefficients(6519);
    ShallowCoefficients(6520);
    ShallowDescent(Quadratic(6518, 4000, 703));
    ShallowDescent(Quadratic(6519, 4000, 703));
    ShallowStop(Quadratic(6520, 4000, 702));
    PlainQuote(3155, 4, 245_000, 2518, 3363, Quadratic(6518, 4000, 703), 1);
    PlainQuote(3155, 4, 245_000, 2518, 3364, Quadratic(6519, 4000, 703), 1);
    PlainQuote(3155, 4, 245_000, 2518, 3365, Quadratic(6520, 4000, 702), 2);
  }

  // ---------- A pool of 6190 and 10 ----------

  const NARROW: Exchange := Plain(6190, 10, 309_000)

  lemma NarrowUpdates()
    ensures InvariantUpdate(618_000, 2, 6200, 6200, 962_550) == Ok(5316)
    ensures InvariantUpdate(618_000, 2, 6200, 5316, 606_555) == Ok(5258)
    ensures InvariantUpdate(618_000, 2, 6200, 5258, 587_055) == Ok(5258)
  {
  }

  lemma NarrowInvariant()
    ensures StableInvariant(309_000, [6190, 10]) == Ok(5258)
  {
    hide InvariantStep, InvariantUpdate, Iterate, SumLoop;
    var balances := [6190, 10];
    NarrowUpdates();
    PlainStep(618_000, 6190, 10, 6200, 6200, 3105, 962_550);
    PlainStep(618_000, 6190, 10, 6200, 5316, 2282, 606_555);
    PlainStep(618_000, 6190, 10, 6200, 5258, 2233, 587_055);
    var step := InvariantNewton(618_000, balances, 6200);
    IterateOnce(step, 6200, 255);
    IterateOnce(step, 5316, 254);
    IterateOnce(step, 5258, 253);
    PlainSum(6190, 10);
  }

  lemma NarrowCoefficients(raised: int)
    requires 15258 <= raised <= 15259
    ensures Coefficients(309_000, [raised, 10], 5258, 1) == Ok(Quadratic(raised, 10_000, if raised == 15258 then 1349 else 1348))
  {
    assert ProductAndSum([raised, 10], 5258, 2, 116, raised + 10) == Ok((116, raised + 10));
    assert ProductAndSum([raised, 10], 5258, 1, raised * 2, raised) == Ok((116, raised + 10));
  }

  lemma NarrowDescent(q: Quadratic)
    requires q == Quadratic(15258, 10_000, 1349)
    ensures Iterate(BalanceNewton(q, 5258), 1349, 255) == Ok(1)
  {
    hide Iterate;
    IterateOnce(BalanceNewton(q, 5258), 1349, 255);
    IterateOnce(BalanceNewton(q, 5258), 145, 254);
    IterateOnce(BalanceNewton(q, 5258), 4, 253);
    IterateOnce(BalanceNewton(q, 5258), 2, 252);
  }

  lemma NarrowStop(q: Quadratic)
    requires q == Quadratic(15259, 10_000, 1348)
    ensures Iterate(BalanceNewton(q, 5258), 1348, 255) == Ok(2)
  {
    hide Iterate;
    IterateOnce(BalanceNewton(q, 5258), 1348, 255);
    IterateOnce(BalanceNewton(q, 5258), 144, 254);
    IterateOnce(BalanceNewton(q, 5258), 3, 253);
  }

  /** Paying 9068 buys eight units, paying one more only seven. */
  lemma NarrowQuotes()
    ensures NARROW.Quote(9068) == Ok(8) && NARROW.Quote(9069) == Ok(7)
    ensures NARROW.Open() && NARROW.Raise(9068) == Ok(9068) && NARROW.Raise(9069) == Ok(9069) && NARROW.Slack(9068) == Ok(1)
  {
    hide Coefficients, Iterate, StableInvariant, Exchange.Quote, Exchange.Open, Exchange.Raise, Exchange.Remaining, Exchange.Slack;
    NarrowInvariant();
    NarrowCoefficients(15258);
    NarrowCoefficients(15259);
    NarrowDescent(Quadratic(15258, 10_000, 1349));
    NarrowStop(Quadratic(15259, 10_000, 1348));
    PlainQuote(6190, 10, 309_000, 5258, 9068, Quadratic(15258, 10_000, 1349), 1);
    PlainQuote(6190, 10, 309_000, 5258, 9069, Quadratic(15259, 10_000, 1348), 2);
  }

  // ---------- The exact conditions ----------

  /** Two quotable inputs whose raises are delta apart. */
  ghost predicate Apart(x: Exchange, a: int, b: int, delta: int) {
    && 0 < a <= b && x.Quote(a).Ok? && x.Quote(b).Ok? && x.Open()
    && x.Raise(a).Ok? && x.Raise(b) == Ok(x.Raise(a).value + delta)
  }

  /** Where an input leaves y units, raising the balance by delta more never buys less. */
  ghost predicate OrderedAt(y: int, delta: int) {
    forall x: Exchange, a, b {:trigger Apart(x, a, b, delta)} ::
      Apart(x, a, b, delta) && x.Remaining(x.Raise(a).value) == Ok(y) ==> x.Quote(a).value <= x.Quote(b).value
  }

  /** Exactly when stable quotes are ordered, by what is left: unless that is a single unit
      and the balance is raised by one or two units more. */
  lemma StableOrderExactly(y: int, delta: int)
    requires 0 < y && 0 <= delta
    ensures OrderedAt(y, delta) <==> y >= 2 || delta !in {1, 2}
  {
    hide Exchange.Quote, Exchange.Open, Exchange.Raise, Exchange.Remaining, Exchange.Slack;
    if y >= 2 || delta !in {1, 2} {
      forall x: Exchange, a, b {:trigger Apart(x, a, b, delta)} | Apart(x, a, b, delta) && x.Remaining(x.Raise(a).value) == Ok(y)
        ensures x.Quote(a).value <= x.Quote(b).value
      {
        StableQuoteOrdered(x, a, b);
      }
    } else {
      ShallowQuotes();
      assert Apart(SHALLOW, 3365 - delta, 3365, delta);
    }
  }

  /** Where an input has this slack, raising the balance by delta more never buys less. */
  ghost predicate OrderedFrom(slack: int, delta: int) {
    forall x: Exchange, a, b {:trigger Apart(x, a, b, delta)} ::
      Apart(x, a, b, delta) && x.Slack(x.Raise(a).value) == Ok(slack) ==> x.Quote(a).value <= x.Quote(b).value
  }

  /** Exactly when stable quotes are ordered, by a condition that needs no solving. */
  lemma StableGuardExactly(slack: int, delta: int)
    requires 0 <= delta
    ensures OrderedFrom(slack, delta) <==> !Disorderly(slack, delta)
  {
    hide Exchange.Quote, Exchange.Open, Exchange.Raise, Exchange.Remaining, Exchange.Slack;
    if !Disorderly(slack, delta) {
      forall x: Exchange, a, b {:trigger Apart(x, a, b, delta)} | Apart(x, a, b, delta) && x.Slack(x.Raise(a).value) == Ok(slack)
        ensures x.Quote(a).value <= x.Quote(b).value
      {
        StableQuoteOrdered(x, a, b);
      }
    } else if slack + delta == 3 {
      ShallowQuotes();
      assert Apart(SHALLOW, 3365 - delta, 3365, delta);
    } else {
      NarrowQuotes();
      assert Apart(NARROW, 9068, 9069, 1);
    }
  }
}
