/** The last tie-break between routes: their keys compare as their fields do. */
module RouteKeys {
  import opened Ordering
  import opened Pools
  import opened Routes
  import opened RouteTheorems

  /** Kind, id, sold and bought token of every hop. */
  function FieldsOf(hops: seq<Hop>): seq<string> {
    if hops == [] then []
    else
      var last := hops[|hops| - 1];
      FieldsOf(hops[..|hops| - 1]) + [last.pool.Kind(), last.pool.id, last.tokenIn, last.tokenOut]
  }

  function Joined(fields: seq<string>): string {
    if fields == [] then "" else fields[0] + ("\0" + Joined(fields[1..]))
  }

  lemma {:induction false} JoinedAppend(a: seq<string>, b: seq<string>)
    ensures Joined(a + b) == Joined(a) + Joined(b)
  {
    if a == [] {
      assert a + b == b;
    } else {
      assert (a + b)[1..] == a[1..] + b;
      JoinedAppend(a[1..], b);
    }
  }

  lemma FourFields(a: string, b: string, c: string, d: string)
    ensures Joined([a, b, c, d]) == a + ("\0" + (b + ("\0" + (c + ("\0" + (d + ("\0" + "")))))))
  {
    assert [a, b, c, d][1..] == [b, c, d] && [b, c, d][1..] == [c, d] && [c, d][1..] == [d] && [d][1..] == [];
    assert Joined([d]) == d + ("\0" + "");
    assert Joined([c, d]) == c + ("\0" + Joined([d]));
    assert Joined([b, c, d]) == b + ("\0" + Joined([c, d]));
  }

  lemma Regrouped(a: string, b: string, c: string, d: string)
    ensures a + "\0" + b + "\0" + c + "\0" + d + "\0" == a + ("\0" + (b + ("\0" + (c + ("\0" + (d + ("\0" + "")))))))
  {
  }

  lemma HopIsJoined(h: Hop)
    ensures HopKey(h) + "\0" == Joined([h.pool.Kind(), h.pool.id, h.tokenIn, h.tokenOut])
  {
    hide Pool.Kind, Joined;
    FourFields(h.pool.Kind(), h.pool.id, h.tokenIn, h.tokenOut);
    Regrouped(h.pool.Kind(), h.pool.id, h.tokenIn, h.tokenOut);
  }

  lemma {:induction false} KeyIsJoined(hops: seq<Hop>)
    ensures RouteKey(hops) == Joined(FieldsOf(hops))
  {
    hide HopKey, Pool.Kind;
    if hops != [] {
      var front, last := hops[..|hops| - 1], hops[|hops| - 1];
      KeyIsJoined(front);
      HopIsJoined(last);
      JoinedAppend(FieldsOf(front), [last.pool.Kind(), last.pool.id, last.tokenIn, last.tokenOut]);
    }
  }

  /** The first field in which they differ decides. */
  predicate FieldsBefore(a: seq<string>, b: seq<string>) {
    b != [] && (a == [] || Before(a[0], b[0]) || (a[0] == b[0] && FieldsBefore(a[1..], b[1..])))
  }

  /** The separator is the smallest character, so it never outweighs a field. */
  lemma {:induction false} SeparatorBefore(a: string, b: string, x: string, y: string)
    requires NulFree(a) && NulFree(b)
    ensures Before(a + ("\0" + x), b + ("\0" + y)) <==> Before(a, b) || (a == b && Before(x, y))
  {
    var left, right := a + ("\0" + x), b + ("\0" + y);
    if a == [] && b == [] {
      assert left[1..] == x && right[1..] == y;
    } else if a != [] && b != [] {
      assert left[1..] == a[1..] + ("\0" + x) && right[1..] == b[1..] + ("\0" + y);
      SeparatorBefore(a[1..], b[1..], x, y);
      assert a == [a[0]] + a[1..] && b == [b[0]] + b[1..];
    } else if a == [] {
      assert b[0] in b;
    } else {
      assert a[0] in a;
    }
  }

  lemma {:induction false} JoinedBefore(a: seq<string>, b: seq<string>)
    requires (forall s :: s in a ==> NulFree(s)) && (forall s :: s in b ==> NulFree(s))
    ensures Before(Joined(a), Joined(b)) <==> FieldsBefore(a, b)
  {
    hide NulFree;
    if a != [] && b != [] {
      JoinedBefore(a[1..], b[1..]);
      assert a[0] in a && b[0] in b;
      SeparatorBefore(a[0], b[0], Joined(a[1..]), Joined(b[1..]));
    }
  }

  lemma {:induction false} FieldsClean(hops: seq<Hop>)
    requires forall h :: h in hops ==> CleanHop(h)
    ensures forall s :: s in FieldsOf(hops) ==> NulFree(s)
  {
    hide NulFree, Pool.Kind;
    if hops != [] {
      FieldsClean(hops[..|hops| - 1]);
      assert CleanHop(hops[|hops| - 1]);
    }
  }

  /** Route keys of clean fields compare field by field, hop by hop: kind, id, sold token,
      bought token. */
  lemma KeysCompareAsFields(hops: seq<Hop>, hops': seq<Hop>)
    requires (forall h :: h in hops ==> CleanHop(h)) && (forall h :: h in hops' ==> CleanHop(h))
    ensures Before(RouteKey(hops), RouteKey(hops')) <==> FieldsBefore(FieldsOf(hops), FieldsOf(hops'))
  {
    hide CleanHop, NulFree, Joined, Before, FieldsBefore, FieldsOf, RouteKey;
    KeyIsJoined(hops);
    KeyIsJoined(hops');
    FieldsClean(hops);
    FieldsClean(hops');
    JoinedBefore(FieldsOf(hops), FieldsOf(hops'));
  }
}
