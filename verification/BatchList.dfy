/**
 * File lists sent in one piece: the sender numbers its entries from zero in the order it has them,
 * the receiver sorts what it gets and numbers it the same way.
 */
module BatchList {
  import opened Bytes
  import opened SortOrder
  import opened CanonicalOrder
  import opened DirectoryTree
  import opened FileIndex
  import opened Sorting
  import opened FileListWire
  import opened FileListReceipt

  /** All places of a list, in order. */
  function InOrder(n: nat): (s: seq<nat>)
    ensures |s| == n && forall k :: 0 <= k < n ==> s[k] == k
  {
    seq(n, k => k)
  }

  lemma AllListed(es: seq<FileEntry>)
    ensures Indices(es, InOrder(|es|)) && Listed(es, InOrder(|es|)) == es
  {
  }

  /** The entries in the order given, each under its place, then the end. */
  method SendFileListBatch(es: seq<FileEntry>) returns (ndx: seq<int>, wire: seq<Item>)
    ensures Indices(es, InOrder(|es|)) && wire == ListFrom(es, InOrder(|es|), 0, 0) && ndx == Consecutive(0, |es|)
  {
    AllListed(es);
    wire := [];
    for i := 0 to |es|
      invariant wire + ListFrom(es, InOrder(|es|), i, 0) == ListFrom(es, InOrder(|es|), 0, 0)
    {
      Assoc(wire, [Entry(es[i], i)], ListFrom(es, InOrder(|es|), i + 1, 0));
      wire := wire + [Entry(es[i], i)];
    }
    wire := wire + [EndOfList];
    ndx := Consecutive(0, |es|);
  }

  /** The entries up to the end, sorted and numbered from zero. */
  ghost function BatchRead(s: seq<Item>): Option<Receipt>
  {
    match ListRead(s, []) case None => None case Some((list, _)) => Some(Noted(Receipt([], [], 0), list, 0))
  }

  method RecvFileListBatch(s: seq<Item>) returns (r: Option<Receipt>)
    ensures r == BatchRead(s)
  {
    var entries: seq<FileEntry>, rest := [], s;
    while rest != []
      invariant ListRead(rest, entries) == ListRead(s, [])
      decreases |rest|
    {
      match rest[0] {
        case Entry(e, _) =>
          entries, rest := entries + [e], rest[1..];
        case EndOfList =>
          var all := SortAndAssign(entries, 0, Receipt([], [], 0));
          return Some(all);
        case Marker(_) =>
          return None;
      }
    }
    r := None;
  }

  lemma SortedStays(es: seq<FileEntry>)
    ensures StableSort(es, |es|, Canonical()) == es <==> Sorted(es)
  {
    CanonicalSortSorts(es);
    if Sorted(es) {
      forall i, j | 0 <= i < j < |es|
        ensures Canonical()(es[i], es[j])
      {
        assert AtMost(es[i], es[j]);
      }
      OrderedStays(es, |es|, Canonical());
      assert es[..|es|] == es;
    }
  }

  /** Place by place, both sides have the same entries under the same indices. */
  ghost predicate SamePlaces(es: seq<FileEntry>, ndx: seq<int>, r: Receipt) {
    |r.entries| == |es| && forall k :: 0 <= k < |es| ==> SameFile(es, ndx, r, k, k)
  }

  lemma PlacesShared(es: seq<FileEntry>, ndx: seq<int>, r: Receipt)
    requires SamePlaces(es, ndx, r) && |ndx| == |es| && |r.ndx| == |es| && ndx == Consecutive(0, |es|) && r.ndx == ndx
    ensures Shared(es, ndx, r)
  {
    var flat := InOrder(|es|);
    forall i | 0 <= i < |es|
      ensures i in flat
    {
      assert flat[i] == i;
    }
    assert Corresponds(flat, es, ndx, r);
  }

  lemma BatchEncoded(es: seq<FileEntry>, sorted: seq<FileEntry>)
    requires |sorted| == |es|
    ensures WithIndices(es, Consecutive(0, |es|)) == WithIndices(sorted, Consecutive(0, |es|)) <==> es == sorted
  {
    var a, b := WithIndices(es, Consecutive(0, |es|)), WithIndices(sorted, Consecutive(0, |es|));
    if a == b {
      forall k | 0 <= k < |es|
        ensures es[k] == sorted[k]
      {
        assert a[k] == b[k];
      }
    }
  }

  /** What the receiver has: the entries sorted, under consecutive indices. */
  lemma BatchReceived(es: seq<FileEntry>)
    ensures Indices(es, InOrder(|es|))
    ensures ListRead(ListFrom(es, InOrder(|es|), 0, 0), []) == Some((es, []))
    ensures Noted(Receipt([], [], 0), es, 0)
         == Receipt(StableSort(es, |es|, Canonical()), Consecutive(0, |es|), 1)
    ensures Encoded(ListFrom(es, InOrder(|es|), 0, 0)) == WithIndices(es, Consecutive(0, |es|))
  {
    AllListed(es);
    OneListRead(es, InOrder(|es|), 0, []);
    var wire := ListFrom(es, InOrder(|es|), 0, 0);
    assert wire + [] == wire;
    var sorted := StableSort(es, |es|, Canonical());
    assert [] + sorted == sorted && [] + Consecutive(0, |es|) == Consecutive(0, |es|);
    ListEncoded(es, InOrder(|es|), 0, 0);
    var all := WithIndices(es, Consecutive(0, |es|));
    assert all[0..] == all;
  }

  /** The two numberings and the encoding agree if and only if the list was sorted. */
  lemma BatchAgrees(es: seq<FileEntry>, wire: seq<Item>, r: Receipt)
    requires r == Receipt(StableSort(es, |es|, Canonical()), Consecutive(0, |es|), 1)
    requires Encoded(wire) == WithIndices(es, Consecutive(0, |es|))
    ensures SamePlaces(es, Consecutive(0, |es|), r) <==> Sorted(es)
    ensures EncodedAs(wire, r) <==> Sorted(es)
    ensures Sorted(es) ==> Shared(es, Consecutive(0, |es|), r)
  {
    SortedStays(es);
    BatchEncoded(es, r.entries);
    if SamePlaces(es, Consecutive(0, |es|), r) {
      forall k | 0 <= k < |es|
        ensures es[k] == r.entries[k]
      {
        assert SameFile(es, Consecutive(0, |es|), r, k, k);
      }
    }
    if Sorted(es) {
      PlacesShared(es, Consecutive(0, |es|), r);
    }
  }

  /**
   * A list in one piece: the receiver has the sender's entries in canonical order, in one list. Both
   * sides agree on the index of every entry, and it is the one the entry was encoded under, if and
   * only if the sender's list was sorted.
   */
  method ExchangeBatch(es: seq<FileEntry>) returns (ndx: seq<int>, wire: seq<Item>, r: Option<Receipt>)
    ensures r.Some? && r.value.lists == 1
    ensures Sorted(r.value.entries) && multiset(r.value.entries) == multiset(es)
    ensures SamePlaces(es, ndx, r.value) <==> Sorted(es)
    ensures EncodedAs(wire, r.value) <==> Sorted(es)
    ensures Sorted(es) ==> Shared(es, ndx, r.value)
  {
    ndx, wire := SendFileListBatch(es);
    r := RecvFileListBatch(wire);
    BatchReceived(es);
    CanonicalSortSorts(es);
    BatchAgrees(es, wire, r.value);
  }
}
