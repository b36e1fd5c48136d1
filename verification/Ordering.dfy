/** Strict total orders, the one sorted arrangement of distinct elements, and the
    lexicographic order of strings. */
module Ordering {

  ghost predicate StrictTotal<T(!new)>(less: (T, T) -> bool) {
    && (forall x :: !less(x, x))
    && (forall x, y :: x != y ==> less(x, y) || less(y, x))
    && (forall x, y, z :: less(x, y) && less(y, z) ==> less(x, z))
  }

  predicate Sorted<T>(s: seq<T>, less: (T, T) -> bool) {
    forall i, j :: 0 <= i < j < |s| ==> less(s[i], s[j])
  }

  predicate Distinct<T(==)>(s: seq<T>) {
    forall i, j :: 0 <= i < j < |s| ==> s[i] != s[j]
  }

  ghost predicate SameElements<T(!new)>(a: seq<T>, b: seq<T>) {
    forall x :: x in a <==> x in b
  }

  function Insert<T>(x: T, s: seq<T>, less: (T, T) -> bool): (r: seq<T>)
    ensures |r| == |s| + 1
  {
    if s == [] || less(x, s[0]) then [x] + s else [s[0]] + Insert(x, s[1..], less)
  }

  /** The library sort: any correct sort of distinct elements gives this sequence. */
  function Sort<T>(s: seq<T>, less: (T, T) -> bool): (r: seq<T>)
    ensures |r| == |s|
  {
    if s == [] then [] else Insert(s[0], Sort(s[1..], less), less)
  }

  lemma {:induction false} InsertElements<T(!new)>(x: T, s: seq<T>, less: (T, T) -> bool)
    ensures forall y :: y in Insert(x, s, less) <==> y == x || y in s
  {
    if s != [] && !less(x, s[0]) { InsertElements(x, s[1..], less); }
  }

  lemma {:induction false} InsertSorted<T(!new)>(x: T, s: seq<T>, less: (T, T) -> bool)
    requires StrictTotal(less) && Sorted(s, less) && x !in s
    ensures Sorted(Insert(x, s, less), less)
  {
    if s != [] && !less(x, s[0]) {
      InsertSorted(x, s[1..], less);
      InsertElements(x, s[1..], less);
      var rest := Insert(x, s[1..], less);
      forall j | 0 <= j < |rest|
        ensures less(s[0], rest[j])
      {
        assert rest[j] in rest;
      }
    } else if s != [] {
      forall j | 0 <= j < |s|
        ensures less(x, s[j])
      {
        assert j > 0 ==> less(s[0], s[j]);
      }
    }
  }

  lemma {:induction false} SortElements<T(!new)>(s: seq<T>, less: (T, T) -> bool)
    ensures SameElements(Sort(s, less), s)
  {
    if s != [] {
      SortElements(s[1..], less);
      InsertElements(s[0], Sort(s[1..], less), less);
    }
  }

  lemma {:induction false} SortSorted<T(!new)>(s: seq<T>, less: (T, T) -> bool)
    requires StrictTotal(less) && Distinct(s)
    ensures Sorted(Sort(s, less), less)
  {
    if s != [] {
      SortSorted(s[1..], less);
      SortElements(s[1..], less);
      assert s[0] !in s[1..];
      InsertSorted(s[0], Sort(s[1..], less), less);
    }
  }

  /** There is only one sorted arrangement of a set of elements. */
  lemma {:induction false} SortedUnique<T(!new)>(a: seq<T>, b: seq<T>, less: (T, T) -> bool)
    requires StrictTotal(less) && Sorted(a, less) && Sorted(b, less) && SameElements(a, b)
    ensures a == b
  {
    assert a != [] ==> a[0] in b;
    assert b != [] ==> b[0] in a;
    if a != [] {
      TailElements(a, b, less);
      SortedUnique(a[1..], b[1..], less);
    }
  }

  lemma TailElements<T(!new)>(a: seq<T>, b: seq<T>, less: (T, T) -> bool)
    requires StrictTotal(less) && Sorted(a, less) && Sorted(b, less) && SameElements(a, b)
    requires a != [] && b != [] && a[0] == b[0]
    ensures SameElements(a[1..], b[1..])
  {
    forall x
      ensures x in a[1..] <==> x in b[1..]
    {
      InTail(a, x, less);
      InTail(b, x, less);
    }
  }

  lemma InTail<T(!new)>(s: seq<T>, x: T, less: (T, T) -> bool)
    requires StrictTotal(less) && Sorted(s, less) && s != []
    ensures x in s[1..] <==> x in s && x != s[0]
  {
    if x in s[1..] {
      var i :| 0 <= i < |s| - 1 && s[1..][i] == x;
      assert less(s[0], s[i + 1]);
    }
  }

  /** Sorting forgets the order its distinct elements came in. */
  lemma SortForgetsOrder<T(!new)>(a: seq<T>, b: seq<T>, less: (T, T) -> bool)
    requires StrictTotal(less) && Distinct(a) && Distinct(b) && SameElements(a, b)
    ensures Sort(a, less) == Sort(b, less)
  {
    SortSorted(a, less);
    SortSorted(b, less);
    SortElements(a, less);
    SortElements(b, less);
    SortedUnique(Sort(a, less), Sort(b, less), less);
  }

  /** Taking one and the same element out of two permutations leaves two permutations. */
  lemma RemoveHead<T>(a: seq<T>, b: seq<T>, j: nat)
    requires a != [] && j < |b| && a[0] == b[j] && multiset(a) == multiset(b)
    ensures multiset(a[1..]) == multiset(b[..j] + b[j + 1..])
  {
    assert a == [a[0]] + a[1..];
    assert b == b[..j] + [b[j]] + b[j + 1..];
    assert multiset(a[1..]) == multiset(a) - multiset{a[0]};
    assert multiset(b[..j] + b[j + 1..]) == multiset(b) - multiset{b[j]};
  }

  /** The elements of a set in some order. */
  ghost function Enumerate<T(!new)>(s: set<T>): (r: seq<T>)
    ensures Distinct(r) && |r| == |s| && forall t :: t in r <==> t in s
  {
    if s == {} then []
    else
      var t :| t in s;
      [t] + Enumerate(s - {t})
  }

  // ---------- Strings ----------

  predicate Before(a: string, b: string) {
    b != [] && (a == [] || a[0] < b[0] || (a[0] == b[0] && Before(a[1..], b[1..])))
  }

  lemma {:induction false} BeforeIrreflexive(a: string)
    ensures !Before(a, a)
  {
    if a != [] { BeforeIrreflexive(a[1..]); }
  }

  lemma {:induction false} BeforeTotal(a: string, b: string)
    ensures a == b || Before(a, b) || Before(b, a)
  {
    if a != [] && b != [] && a[0] == b[0] {
      BeforeTotal(a[1..], b[1..]);
      assert a == [a[0]] + a[1..] && b == [b[0]] + b[1..];
    }
  }

  lemma {:induction false} BeforeTransitive(a: string, b: string, c: string)
    ensures Before(a, b) && Before(b, c) ==> Before(a, c)
  {
    if a != [] && b != [] && c != [] { BeforeTransitive(a[1..], b[1..], c[1..]); }
  }

  lemma BeforeAsymmetric(a: string, b: string)
    ensures !(Before(a, b) && Before(b, a))
  {
    hide Before;
    BeforeTransitive(a, b, a);
    BeforeIrreflexive(a);
  }

  /** The strings first differ at i, where a has the smaller character. */
  predicate SmallerAt(a: string, b: string, i: nat) {
    i < |a| && i < |b| && a[..i] == b[..i] && a[i] < b[i]
  }

  lemma {:induction false} SmallerIsBefore(a: string, b: string, i: nat)
    ensures SmallerAt(a, b, i) ==> Before(a, b)
    decreases i
  {
    if SmallerAt(a, b, i) && i > 0 {
      assert a[0] == a[..i][0] == b[..i][0] == b[0];
      assert a[1..][..i - 1] == a[..i][1..] == b[..i][1..] == b[1..][..i - 1];
      SmallerIsBefore(a[1..], b[1..], i - 1);
    }
  }

  lemma {:induction false} PrefixIsBefore(a: string, b: string)
    ensures a < b ==> Before(a, b)
  {
    if a < b && a != [] { PrefixIsBefore(a[1..], b[1..]); }
  }

  lemma {:induction false} BeforeIsSmaller(a: string, b: string) returns (i: nat)
    ensures Before(a, b) ==> a < b || SmallerAt(a, b, i)
  {
    i := 0;
    if a != [] && b != [] && a[0] == b[0] {
      i := BeforeIsSmaller(a[1..], b[1..]);
      assert a == [a[0]] + a[1..] && b == [b[0]] + b[1..];
      assert i < |a| - 1 ==> a[..i + 1] == [a[0]] + a[1..][..i];
      assert i < |b| - 1 ==> b[..i + 1] == [b[0]] + b[1..][..i];
      i := i + 1;
    }
  }

  /** A string comes before another exactly when it is a proper prefix of it, or has the
      smaller character where they first differ. */
  lemma BeforeIsLexicographic(a: string, b: string)
    ensures Before(a, b) <==> a < b || exists i :: SmallerAt(a, b, i)
  {
    hide Before, SmallerAt;
    PrefixIsBefore(a, b);
    forall i | SmallerAt(a, b, i) ensures Before(a, b) { SmallerIsBefore(a, b, i); }
    var i := BeforeIsSmaller(a, b);
  }

  lemma StringsOrdered()
    ensures StrictTotal(Before)
  {
    forall a: string
      ensures !Before(a, a)
    {
      BeforeIrreflexive(a);
    }
    forall a: string, b: string
      ensures a != b ==> Before(a, b) || Before(b, a)
    {
      BeforeTotal(a, b);
    }
    forall a: string, b: string, c: string
      ensures Before(a, b) && Before(b, c) ==> Before(a, c)
    {
      BeforeTransitive(a, b, c);
    }
  }
}
