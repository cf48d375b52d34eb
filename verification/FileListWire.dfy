/** Incremental file lists on the wire: sending them in instalments, receiving and sorting them. */
module FileListWire {
  import opened Bytes
  import opened SortOrder
  import opened CanonicalOrder
  import opened DirectoryTree
  import opened FileIndex
  import opened Sorting

  const NDX_FLIST_EOF: int := -2
  const NDX_FLIST_OFFSET: int := -101

  /** What goes over the wire; an entry is encoded under the index it will have. */
  datatype Item = Marker(value: int) | Entry(entry: FileEntry, ndx: int) | EndOfList

  // ---- What is sent ----

  /** The list of one group, from member `k` on. */
  ghost function ListFrom(es: seq<FileEntry>, members: seq<nat>, k: nat, start: int): seq<Item>
    requires k <= |members| && Indices(es, members)
    decreases |members| - k
  {
    if k == |members| then [EndOfList]
    else [Entry(es[members[k]], start + k)] + ListFrom(es, members, k + 1, start)
  }

  ghost predicate AllIndices(es: seq<FileEntry>, groups: seq<Group>) {
    forall g :: 0 <= g < |groups| ==> Indices(es, groups[g].members)
  }

  /** Every list but the root's is announced by a marker for its directory. */
  ghost function Announced(g: nat, group: Group): seq<Item> {
    if g == 0 then [] else [Marker(NDX_FLIST_OFFSET - group.dirNdx)]
  }

  /** The stream from group `g` on, up to the marker that ends all lists. */
  ghost function StreamFrom(es: seq<FileEntry>, groups: seq<Group>, g: nat): seq<Item>
    requires g <= |groups| && AllIndices(es, groups)
    decreases |groups| - g
  {
    if g == |groups| then [Marker(NDX_FLIST_EOF)]
    else
      Announced(g, groups[g])
        + (ListFrom(es, groups[g].members, 0, StartOf(groups, g)) + StreamFrom(es, groups, g + 1))
  }

  /** Every group but the root's has the number of a directory. */
  ghost predicate Numberable(groups: seq<Group>) {
    forall g :: 1 <= g < |groups| ==> groups[g].dirNdx >= 0
  }

  lemma TimelyNumberable(es: seq<FileEntry>, groups: seq<Group>, order: seq<nat>, at: seq<nat>)
    requires AllIndices(es, groups) && Timely(es, groups, order, at)
    ensures Numberable(groups)
  {
    forall g | 1 <= g < |groups|
      ensures groups[g].dirNdx >= 0
    {
      assert OnTime(es, groups, order, at, g - 1);
    }
  }

  class IncrementalSender {
    var nextNdx: int
    var wire: seq<Item>

    constructor ()
      ensures nextNdx == 1 && wire == []
    {
      nextNdx, wire := 1, [];
    }

    method EncodeSubFlist(es: seq<FileEntry>, members: seq<nat>)
      requires Indices(es, members)
      modifies this
      ensures wire == old(wire) + ListFrom(es, members, 0, old(nextNdx))
      ensures nextNdx == old(nextNdx) + |members| + 1
    {
      var start := nextNdx;
      for pos := 0 to |members|
        invariant nextNdx == start + pos
        invariant wire + ListFrom(es, members, pos, start) == old(wire) + ListFrom(es, members, 0, start)
      {
        ghost var rest := ListFrom(es, members, pos + 1, start);
        Assoc(wire, [Entry(es[members[pos]], start + pos)], rest);
        wire := wire + [Entry(es[members[pos]], start + pos)];
        nextNdx := nextNdx + 1;
      }
      wire := wire + [EndOfList];
      nextNdx := nextNdx + 1;
    }
  }

  /** Lists not yet sent: `sent` counts all groups on the wire, the root's included. */
  class PendingSubFlists {
    const es: seq<FileEntry>
    const groups: seq<Group>
    const sender: IncrementalSender
    var cursor: nat
    var eofSent: bool
    ghost const root: Group

    ghost function All(): seq<Group> {
      [root] + groups
    }

    /** The whole stream, as it would be sent at once. */
    ghost function Whole(): seq<Item>
      requires AllIndices(es, All())
    {
      StreamFrom(es, All(), 0)
    }

    ghost predicate Valid()
      reads this, sender
    {
      && cursor <= |groups| && AllIndices(es, All())
      && (!eofSent ==> sender.wire + StreamFrom(es, All(), cursor + 1) == Whole())
      && (!eofSent ==> sender.nextNdx == StartOf(All(), cursor + 1))
      && (eofSent ==> cursor == |groups| && sender.wire == Whole())
    }

    constructor (es: seq<FileEntry>, groups: seq<Group>, sender: IncrementalSender, ghost root: Group)
      requires Indices(es, root.members) && AllIndices(es, [root] + groups)
      requires sender.wire == ListFrom(es, root.members, 0, 1) && sender.nextNdx == |root.members| + 2
      ensures Valid() && this.es == es && this.groups == groups && this.sender == sender && this.root == root
      ensures cursor == 0 && !eofSent
    {
      this.es, this.groups, this.sender, this.root := es, groups, sender, root;
      cursor, eofSent := 0, false;
      new;
      assert ([root] + groups)[0] == root;
      assert StartOf(All(), 1) == StartOf(All(), 0) + |root.members| + 1;
      assert [] + (ListFrom(es, root.members, 0, 1) + StreamFrom(es, All(), 1))
          == sender.wire + StreamFrom(es, All(), 1);
    }

    /** One more list. */
    method SendOne()
      requires Valid() && !eofSent && cursor < |groups|
      modifies this, sender
      ensures Valid() && !eofSent && cursor == old(cursor) + 1
      ensures old(sender.wire) <= sender.wire
    {
      var group := groups[cursor];
      ghost var all, g := All(), cursor + 1;
      assert all[g] == group;
      ghost var list := ListFrom(es, group.members, 0, sender.nextNdx);
      assert sender.wire + ([Marker(NDX_FLIST_OFFSET - group.dirNdx)] + (list + StreamFrom(es, all, g + 1)))
          == sender.wire + [Marker(NDX_FLIST_OFFSET - group.dirNdx)] + list + StreamFrom(es, all, g + 1);
      sender.wire := sender.wire + [Marker(NDX_FLIST_OFFSET - group.dirNdx)];
      sender.EncodeSubFlist(es, group.members);
      cursor := cursor + 1;
    }

    /**
     * Up to `count` more lists, and the end marker when none are left. What has been sent is always
     * a beginning of the whole stream, and all of it once the end marker is out.
     */
    method SendPending(count: nat)
      requires Valid()
      modifies this, sender
      ensures Valid() && old(sender.wire) <= sender.wire
      ensures cursor == if old(eofSent) then old(cursor) else Min(old(cursor) + count, |groups|)
      ensures eofSent <==> cursor == |groups|
    {
      if eofSent {
        return;
      }
      var sent := 0;
      while sent < count && cursor < |groups|
        invariant Valid() && !eofSent && sent <= count && cursor == old(cursor) + sent
        invariant old(sender.wire) <= sender.wire
      {
        SendOne();
        sent := sent + 1;
      }
      if cursor >= |groups| && !eofSent {
        sender.wire := sender.wire + [Marker(NDX_FLIST_EOF)];
        eofSent := true;
      }
    }
  }

  function Sum(counts: seq<nat>, n: nat): (s: nat)
    requires n <= |counts|
  {
    if n == 0 then 0 else Sum(counts, n - 1) + counts[n - 1]
  }

  /** Any calls at all: a prefix of the whole stream, and all of it exactly when enough was asked for. */
  method SendInstalments(p: PendingSubFlists, counts: seq<nat>)
    requires p.Valid() && p.cursor == 0 && !p.eofSent
    modifies p, p.sender
    ensures p.Valid() && p.sender.wire <= p.Whole()
    ensures p.sender.wire == p.Whole() <==> |counts| > 0 && Sum(counts, |counts|) >= |p.groups|
  {
    for k := 0 to |counts|
      invariant p.Valid() && p.cursor == Min(Sum(counts, k), |p.groups|)
      invariant p.eofSent <==> k > 0 && p.cursor == |p.groups|
    {
      p.SendPending(counts[k]);
    }
    assert StreamFrom(p.es, p.All(), p.cursor + 1) != [];
  }

  lemma HeadAndTail<T>(s: seq<T>)
    requires |s| > 0
    ensures [s[0]] + s[1..] == s
  {
  }

  /** Sends the root's list; the other lists stay pending. */
  method SendRoot(es: seq<FileEntry>, groups: seq<Group>)
    returns (sender: IncrementalSender, pending: PendingSubFlists?)
    requires AllIndices(es, groups) && |groups| > 0
    ensures fresh(sender) && (pending == null ==> sender.wire == StreamFrom(es, groups, 0))
    ensures pending != null ==>
              && fresh(pending) && pending.sender == sender && pending.Valid()
              && pending.cursor == 0 && !pending.eofSent
              && pending.es == es && pending.All() == groups
  {
    sender := new IncrementalSender();
    sender.EncodeSubFlist(es, groups[0].members);
    assert sender.wire == ListFrom(es, groups[0].members, 0, 1);
    if |groups| <= 1 {
      sender.wire := sender.wire + [Marker(NDX_FLIST_EOF)];
      assert [] + (ListFrom(es, groups[0].members, 0, 1) + [Marker(NDX_FLIST_EOF)]) == sender.wire;
      pending := null;
    } else {
      HeadAndTail(groups);
      pending := new PendingSubFlists(es, groups[1..], sender, groups[0]);
    }
  }

  /** Groups the list, numbers every entry and sends the root's list. */
  method SendFileListIncremental(es: seq<FileEntry>)
    returns (ndx: seq<int>, sender: IncrementalSender, pending: PendingSubFlists?,
             ghost groups: seq<Group>, ghost order: seq<nat>)
    ensures BreadthFirst(es, order) && Grouped(es, groups, order, |order|) && AllIndices(es, groups)
    ensures Numberable(groups)
    ensures |ndx| == |es| && |Places(groups, |groups|)| == |Flat(groups, |groups|)|
    ensures Distinct(Flat(groups, |groups|)) ==> Given(ndx, Flat(groups, |groups|), Places(groups, |groups|))
    ensures fresh(sender) && (pending == null ==> sender.wire == StreamFrom(es, groups, 0))
    ensures pending != null ==>
              && fresh(pending) && pending.sender == sender && pending.Valid()
              && pending.cursor == 0 && !pending.eofSent
              && pending.es == es && pending.All() == groups
  {
    var tree, visited, numbers := FromSortedEntries(es);
    groups, order := tree, visited;
    TimelyNumberable(es, tree, visited, numbers);
    ndx := AssignNdx(es, tree);
    sender, pending := SendRoot(es, tree);
  }

  // ---- Sorting ----

  ghost function Canonical(): (FileEntry, FileEntry) -> bool {
    (a, b) => AtMost(a, b)
  }

  lemma CanonicalPreorder()
    ensures Preorder(Canonical())
  {
    forall a, b, c
      ensures Canonical()(a, b) || Canonical()(b, a)
      ensures Canonical()(a, b) && Canonical()(b, c) ==> Canonical()(a, c)
    {
      TotalPreorder(a, b, c);
    }
  }

  method Precedes(a: FileEntry, b: FileEntry) returns (r: bool)
    ensures r == Canonical()(a, b)
  {
    var o := FNameCmp(a, b);
    r := o != Greater;
  }

  /** Which of `s` may stay before `x`. */
  method Comparisons(s: seq<FileEntry>, x: FileEntry) returns (stays: seq<bool>)
    ensures |stays| == |s| && forall k :: 0 <= k < |s| ==> stays[k] == Canonical()(s[k], x)
  {
    stays := [];
    for k := 0 to |s|
      invariant |stays| == k && forall j :: 0 <= j < k ==> stays[j] == Canonical()(s[j], x)
    {
      var stay := Precedes(s[k], x);
      stays := stays + [stay];
    }
  }

  /** `canonical_sort`: a stable sort by `f_name_cmp`. */
  method CanonicalSort(es: seq<FileEntry>) returns (r: seq<FileEntry>)
    ensures r == StableSort(es, |es|, Canonical())
  {
    r := [];
    for n := 0 to |es|
      invariant r == StableSort(es, n, Canonical())
    {
      var stays := Comparisons(r, es[n]);
      r := Insert(r, es[n], stays, Canonical());
    }
  }

  lemma CanonicalSortSorts(es: seq<FileEntry>)
    ensures Sorted(StableSort(es, |es|, Canonical()))
    ensures multiset(StableSort(es, |es|, Canonical())) == multiset(es)
  {
    CanonicalPreorder();
    SortOrders(es, |es|, Canonical());
    assert es[..|es|] == es;
    var r := StableSort(es, |es|, Canonical());
    forall i, j | 0 <= i < j < |r|
      ensures AtMost(r[i], r[j])
    {
      assert Canonical()(r[i], r[j]);
    }
  }
}
