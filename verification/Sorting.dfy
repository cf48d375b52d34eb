/** Stable sorting by a total preorder, as insertion. */
module Sorting {
  ghost predicate Preorder<T(!new)>(le: (T, T) -> bool) {
    && (forall a, b :: le(a, b) || le(b, a))
    && (forall a, b, c :: le(a, b) && le(b, c) ==> le(a, c))
  }

  ghost predicate Ordered<T>(s: seq<T>, le: (T, T) -> bool) {
    forall i, j :: 0 <= i < j < |s| ==> le(s[i], s[j])
  }

  /** Where `x` goes among the first `k` of an ordered list: after all it does not precede. */
  function Slot<T>(s: seq<T>, x: T, k: nat, le: (T, T) -> bool): (r: nat)
    requires k <= |s|
    ensures r <= k
  {
    if k == 0 || le(s[k - 1], x) then k else Slot(s, x, k - 1, le)
  }

  function Inserted<T>(s: seq<T>, x: T, le: (T, T) -> bool): seq<T>
  {
    s[..Slot(s, x, |s|, le)] + [x] + s[Slot(s, x, |s|, le)..]
  }

  function StableSort<T>(s: seq<T>, n: nat, le: (T, T) -> bool): seq<T>
    requires n <= |s|
    ensures |StableSort(s, n, le)| == n
  {
    if n == 0 then [] else Inserted(StableSort(s, n - 1, le), s[n - 1], le)
  }

  /** Inserts `x`, given which elements may stay before it. */
  method Insert<T>(s: seq<T>, x: T, stays: seq<bool>, ghost le: (T, T) -> bool) returns (r: seq<T>)
    requires |stays| == |s| && forall k :: 0 <= k < |s| ==> stays[k] == le(s[k], x)
    ensures r == Inserted(s, x, le)
  {
    var k := |s|;
    while k > 0 && !stays[k - 1]
      invariant 0 <= k <= |s| && Slot(s, x, |s|, le) == Slot(s, x, k, le)
    {
      k := k - 1;
    }
    r := s[..k] + [x] + s[k..];
  }

  /** What is in order already stays as it is. */
  lemma {:induction false} OrderedStays<T>(s: seq<T>, n: nat, le: (T, T) -> bool)
    requires n <= |s| && Ordered(s, le)
    ensures StableSort(s, n, le) == s[..n]
  {
    if n > 0 {
      OrderedStays(s, n - 1, le);
      var t := s[..n - 1];
      assert n > 1 ==> le(t[n - 2], s[n - 1]);
      assert t[..n - 1] + [s[n - 1]] + t[n - 1..] == s[..n];
    }
  }

  lemma {:induction false} SlotFits<T(!new)>(s: seq<T>, x: T, k: nat, le: (T, T) -> bool)
    requires k <= |s| && Preorder(le) && Ordered(s, le)
    ensures forall i :: 0 <= i < Slot(s, x, k, le) ==> le(s[i], x)
    ensures forall i :: Slot(s, x, k, le) <= i < k ==> le(x, s[i])
  {
    if k > 0 && !le(s[k - 1], x) {
      SlotFits(s, x, k - 1, le);
    }
  }

  lemma {:induction false} BetweenOrdered<T>(a: seq<T>, x: T, b: seq<T>, le: (T, T) -> bool)
    requires Ordered(a + b, le)
    requires forall i :: 0 <= i < |a| ==> le(a[i], x)
    requires forall i :: 0 <= i < |b| ==> le(x, b[i])
    ensures Ordered(a + [x] + b, le)
  {
    var r, s := a + [x] + b, a + b;
    forall i, j | 0 <= i < j < |r|
      ensures le(r[i], r[j])
    {
      if i != |a| && j != |a| {
        assert r[i] == s[if i < |a| then i else i - 1] && r[j] == s[if j < |a| then j else j - 1];
      }
    }
  }

  lemma {:induction false} InsertedOrdered<T(!new)>(s: seq<T>, x: T, le: (T, T) -> bool)
    requires Preorder(le) && Ordered(s, le)
    ensures Ordered(Inserted(s, x, le), le) && multiset(Inserted(s, x, le)) == multiset(s) + multiset{x}
  {
    var k := Slot(s, x, |s|, le);
    SlotFits(s, x, |s|, le);
    assert s == s[..k] + s[k..];
    BetweenOrdered(s[..k], x, s[k..], le);
  }

  /** The result is an ordered permutation. */
  lemma {:induction false} SortOrders<T(!new)>(s: seq<T>, n: nat, le: (T, T) -> bool)
    requires n <= |s| && Preorder(le)
    ensures Ordered(StableSort(s, n, le), le) && multiset(StableSort(s, n, le)) == multiset(s[..n])
  {
    if n > 0 {
      SortOrders(s, n - 1, le);
      var t := StableSort(s, n - 1, le);
      InsertedOrdered(t, s[n - 1], le);
      assert s[..n] == s[..n - 1] + [s[n - 1]];
      assert multiset(s[..n]) == multiset(t) + multiset{s[n - 1]};
    }
  }
}
