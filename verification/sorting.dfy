/** Text order and sorted listings of sets. */
module Sorting {
  /** Text order, character by character. */
  predicate Before(a: string, b: string) {
    if b == "" then false
    else if a == "" then true
    else a[0] < b[0] || (a[0] == b[0] && Before(a[1..], b[1..]))
  }

  lemma {:induction false} BeforeTotal(a: string, b: string)
    ensures a == b || Before(a, b) || Before(b, a)
    ensures Before(a, b) ==> a != b && !Before(b, a)
  {
    if a != "" && b != "" {
      BeforeTotal(a[1..], b[1..]);
      assert a == [a[0]] + a[1..] && b == [b[0]] + b[1..];
    }
  }

  lemma {:induction false} BeforeTransitive(a: string, b: string, c: string)
    requires Before(a, b) && Before(b, c)
    ensures Before(a, c)
  {
    if a != "" && a[0] == b[0] == c[0] {
      BeforeTransitive(a[1..], b[1..], c[1..]);
    }
  }

  /** In dictionary order: a proper beginning of `b`, or smaller at the first difference. */
  ghost predicate Precedes(a: string, b: string) {
    exists k: nat :: DiffersAt(a, b, k)
  }

  predicate DiffersAt(a: string, b: string, k: nat) {
    && k <= |a| && k < |b| && a[..k] == b[..k] && (k == |a| || a[k] < b[k])
  }

  lemma {:induction false} BeforeIsPrecedes(a: string, b: string)
    ensures Before(a, b) <==> Precedes(a, b)
  {
    if a == "" || b == "" {
      assert b != "" ==> DiffersAt("", b, 0);
    } else {
      BeforeIsPrecedes(a[1..], b[1..]);
      if a[0] == b[0] && Precedes(a[1..], b[1..]) {
        var k: nat :| DiffersAt(a[1..], b[1..], k);
        assert a[..k + 1] == [a[0]] + a[1..][..k] && b[..k + 1] == [b[0]] + b[1..][..k];
        assert DiffersAt(a, b, k + 1);
      }
      if a[0] < b[0] {
        assert DiffersAt(a, b, 0);
      }
      if Precedes(a, b) {
        PrecedesTail(a, b);
      }
    }
  }

  lemma PrecedesTail(a: string, b: string)
    requires a != "" && b != "" && Precedes(a, b)
    ensures a[0] < b[0] || (a[0] == b[0] && Precedes(a[1..], b[1..]))
  {
    var k: nat :| DiffersAt(a, b, k);
    if k > 0 {
      assert a[..k][0] == a[0] && b[..k][0] == b[0];
      assert a[1..][..k - 1] == a[..k][1..] && b[1..][..k - 1] == b[..k][1..];
      assert DiffersAt(a[1..], b[1..], k - 1);
    }
  }

  /** A strict total order: what the sort compares by. */
  ghost predicate IsOrder<T(!new)>(less: (T, T) -> bool) {
    && (forall a, b :: a == b || less(a, b) || less(b, a))
    && (forall a, b :: less(a, b) ==> a != b && !less(b, a))
    && (forall a, b, c :: less(a, b) && less(b, c) ==> less(a, c))
  }

  lemma TextOrder()
    ensures IsOrder(Before)
  {
    forall a, b
      ensures a == b || Before(a, b) || Before(b, a)
      ensures Before(a, b) ==> a != b && !Before(b, a)
    {
      BeforeTotal(a, b);
    }
    forall a, b, c | Before(a, b) && Before(b, c)
      ensures Before(a, c)
    {
      BeforeTransitive(a, b, c);
    }
  }

  ghost predicate StrictlySorted<T(!new)>(s: seq<T>, less: (T, T) -> bool) {
    forall i, j :: 0 <= i < j < |s| ==> less(s[i], s[j])
  }

  /** A set has one strictly sorted listing. */
  lemma {:induction false} SortedUnique<T(!new)>(a: seq<T>, b: seq<T>, less: (T, T) -> bool)
    requires forall x, y :: less(x, y) ==> x != y && !less(y, x)
    requires StrictlySorted(a, less) && StrictlySorted(b, less)
    requires forall x :: x in a <==> x in b
    ensures a == b
  {
    if b != [] {
      assert b[0] in b;
    }
    if a != [] {
      assert a[0] in a && b != [];
      assert a[0] == b[0];
      forall x
        ensures x in a[1..] <==> x in b[1..]
      {
        assert x in a <==> x == a[0] || x in a[1..];
        assert x in b <==> x == b[0] || x in b[1..];
        assert a[0] !in a[1..] && b[0] !in b[1..];
      }
      SortedUnique(a[1..], b[1..], less);
    }
  }

  /** Listing a set in order: its elements are taken in any order. */
  method SortSet<T(!new, ==)>(items: set<T>, less: (T, T) -> bool) returns (sorted: seq<T>)
    requires IsOrder(less)
    ensures StrictlySorted(sorted, less)
    ensures forall x :: x in sorted <==> x in items
  {
    sorted := [];
    var rest := items;
    while rest != {}
      invariant rest <= items && StrictlySorted(sorted, less)
      invariant forall x :: x in sorted <==> x in items && x !in rest
      decreases |rest|
    {
      var x :| x in rest;
      sorted := InsertSorted(sorted, x, less);
      rest := rest - {x};
    }
  }

  lemma InsertedOrder<T(!new)>(s: seq<T>, x: T, k: nat, less: (T, T) -> bool)
    requires IsOrder(less) && StrictlySorted(s, less) && x !in s && k <= |s|
    requires (forall i :: 0 <= i < k ==> less(s[i], x)) && (k < |s| ==> !less(s[k], x))
    ensures StrictlySorted(s[..k] + [x] + s[k..], less)
  {
    var r := s[..k] + [x] + s[k..];
    if k < |s| {
      assert s[k] in s;
    }
    forall i, j | 0 <= i < j < |r|
      ensures less(r[i], r[j])
    {
      if i < k < j {
        assert less(s[i], s[j - 1]);
      } else if i == k {
        assert k == j - 1 || less(s[k], s[j - 1]);
      }
    }
  }

  lemma InsertedHas<T>(s: seq<T>, x: T, k: nat)
    requires k <= |s|
    ensures forall y :: y in s[..k] + [x] + s[k..] <==> y == x || y in s
  {
    assert s == s[..k] + s[k..];
  }

  method InsertSorted<T(!new, ==)>(s: seq<T>, x: T, less: (T, T) -> bool) returns (r: seq<T>)
    requires IsOrder(less) && StrictlySorted(s, less) && x !in s
    ensures StrictlySorted(r, less)
    ensures forall y :: y in r <==> y == x || y in s
  {
    var k := 0;
    while k < |s| && less(s[k], x)
      invariant 0 <= k <= |s|
      invariant forall i :: 0 <= i < k ==> less(s[i], x)
    {
      k := k + 1;
    }
    InsertedOrder(s, x, k, less);
    InsertedHas(s, x, k);
    r := s[..k] + [x] + s[k..];
  }
}
