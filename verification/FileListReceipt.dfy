/**
 * Receiving incremental file lists: each list is sorted and numbered on its own. For a sorted list
 * in which every entry has its parent, the receiver ends with every entry once, under the same
 * index as the sender gave it.
 */
module FileListReceipt {
  import opened Bytes
  import opened SortOrder
  import opened CanonicalOrder
  import opened DirectoryTree
  import opened DirectoryGroups
  import opened FileIndex
  import opened Sorting
  import opened FileListWire

  /** Entries with their indices, and the number of lists they came in. */
  datatype Receipt = Receipt(entries: seq<FileEntry>, ndx: seq<int>, lists: nat)

  /** The entries up to the end of the list, added to `got`, and what follows. */
  ghost function ListRead(s: seq<Item>, got: seq<FileEntry>): Option<(seq<FileEntry>, seq<Item>)>
  {
    if s == [] then None else
    match s[0]
    case EndOfList => Some((got, s[1..]))
    case Entry(e, _) => ListRead(s[1..], got + [e])
    case Marker(_) => None
  }

  /** A list sorted and numbered from `start`, added to what there is. */
  ghost function Noted(r: Receipt, list: seq<FileEntry>, start: int): Receipt
  {
    Added(r, StableSort(list, |list|, Canonical()), start)
  }

  ghost function Added(r: Receipt, list: seq<FileEntry>, start: int): Receipt
  {
    Receipt(r.entries + list, r.ndx + Consecutive(start, |list|), r.lists + 1)
  }

  /** All further lists, each after its marker, until the marker that ends them. */
  ghost function ListsRead(s: seq<Item>, next: int, r: Receipt): Option<Receipt>
    decreases |s|
  {
    if s == [] || !s[0].Marker? then None
    else if s[0].value == NDX_FLIST_EOF then Some(r)
    else if s[0].value > NDX_FLIST_OFFSET then None
    else
      match ListRead(s[1..], [])
      case None => None
      case Some((list, rest)) =>
        ListReadShrinks(s[1..], []);
        ListsRead(rest, next + |list| + 1, Noted(r, list, next))
  }

  ghost function FileListRead(s: seq<Item>): Option<Receipt>
  {
    match ListRead(s, [])
    case None => None
    case Some((list, rest)) => ListsRead(rest, |list| + 2, Noted(Receipt([], [], 0), list, 1))
  }

  lemma {:induction false} ListReadShrinks(s: seq<Item>, got: seq<FileEntry>)
    ensures ListRead(s, got).Some? ==> |ListRead(s, got).value.1| < |s|
  {
    if s != [] && s[0].Entry? {
      ListReadShrinks(s[1..], got + [s[0].entry]);
    }
  }

  class IncrementalReceiver {
    var nextNdx: int

    constructor ()
      ensures nextNdx == 1
    {
      nextNdx := 1;
    }

    /** One list; the next one starts after a gap of one. */
    method RecvSubFlist(s: seq<Item>) returns (r: Option<(seq<FileEntry>, seq<Item>)>)
      modifies this
      ensures r == ListRead(s, [])
      ensures r.Some? ==> nextNdx == old(nextNdx) + |r.value.0| + 1
    {
      var entries: seq<FileEntry>, rest := [], s;
      while rest != []
        invariant ListRead(rest, entries) == ListRead(s, [])
        invariant nextNdx == old(nextNdx) + |entries|
        decreases |rest|
      {
        match rest[0] {
          case Entry(e, _) =>
            nextNdx := nextNdx + 1;
            entries, rest := entries + [e], rest[1..];
          case EndOfList =>
            nextNdx := nextNdx + 1;
            return Some((entries, rest[1..]));
          case Marker(_) =>
            return None;
        }
      }
      r := None;
    }
  }

  method Assign(sorted: seq<FileEntry>, start: int, all: Receipt) returns (r: Receipt)
    ensures r == Added(all, sorted, start)
  {
    var entries, ndx := all.entries, all.ndx;
    for i := 0 to |sorted|
      invariant entries == all.entries + sorted[..i] && ndx == all.ndx + Consecutive(start, i)
    {
      assert sorted[..i + 1] == sorted[..i] + [sorted[i]];
      assert Consecutive(start, i + 1) == Consecutive(start, i) + [start + i];
      entries, ndx := entries + [sorted[i]], ndx + [start + i];
    }
    assert sorted[..|sorted|] == sorted;
    r := Receipt(entries, ndx, all.lists + 1);
  }

  method SortAndAssign(list: seq<FileEntry>, start: int, all: Receipt) returns (r: Receipt)
    ensures r == Noted(all, list, start)
  {
    var sorted := CanonicalSort(list);
    r := Assign(sorted, start, all);
  }

  lemma {:induction false} ListsReadStep(s: seq<Item>, next: int, r: Receipt, list: seq<FileEntry>,
                                         rest: seq<Item>, next': int, r': Receipt)
    requires s != [] && s[0].Marker? && s[0].value <= NDX_FLIST_OFFSET && ListRead(s[1..], []) == Some((list, rest))
    requires next' == next + |list| + 1 && r' == Noted(r, list, next)
    ensures |rest| < |s| && ListsRead(s, next, r) == ListsRead(rest, next', r')
  {
    ListReadShrinks(s[1..], []);
  }

  /** One more list after its marker. */
  method RecvNext(receiver: IncrementalReceiver, s: seq<Item>, all: Receipt) returns (r: Option<(Receipt, seq<Item>)>)
    requires s != [] && s[0].Marker? && s[0].value <= NDX_FLIST_OFFSET
    modifies receiver
    ensures r.None? ==> ListsRead(s, old(receiver.nextNdx), all) == None
    ensures r.Some? ==>
              && |r.value.1| < |s|
              && ListsRead(s, old(receiver.nextNdx), all) == ListsRead(r.value.1, receiver.nextNdx, r.value.0)
  {
    var start := receiver.nextNdx;
    var list := receiver.RecvSubFlist(s[1..]);
    if list.None? {
      return None;
    }
    var more := SortAndAssign(list.value.0, start, all);
    ListsReadStep(s, start, all, list.value.0, list.value.1, receiver.nextNdx, more);
    r := Some((more, list.value.1));
  }

  method RecvFileListIncremental(s: seq<Item>) returns (r: Option<Receipt>)
    ensures r == FileListRead(s)
  {
    var receiver := new IncrementalReceiver();
    var first := receiver.RecvSubFlist(s);
    if first.None? {
      return None;
    }
    var all := SortAndAssign(first.value.0, 1, Receipt([], [], 0));
    var rest := first.value.1;
    while rest != []
      invariant fresh(receiver) && ListsRead(rest, receiver.nextNdx, all) == FileListRead(s)
      decreases |rest|
    {
      if !rest[0].Marker? {
        return None;
      }
      if rest[0].value == NDX_FLIST_EOF {
        return Some(all);
      }
      if rest[0].value > NDX_FLIST_OFFSET {
        return None;
      }
      var more := RecvNext(receiver, rest, all);
      if more.None? {
        return None;
      }
      all, rest := more.value.0, more.value.1;
    }
    r := None;
  }

  // ---- Agreement ----

  /** The entries named by a list of positions. */
  ghost function Listed(es: seq<FileEntry>, s: seq<nat>): (r: seq<FileEntry>)
    requires Indices(es, s)
    ensures |r| == |s|
  {
    seq(|s|, k requires 0 <= k < |s| => es[s[k]])
  }

  lemma {:induction false} ListReadBack(es: seq<FileEntry>, members: seq<nat>, k: nat, start: int, rest: seq<Item>)
    requires k <= |members| && Indices(es, members)
    ensures ListRead(ListFrom(es, members, k, start) + rest, Listed(es, members)[..k])
         == Some((Listed(es, members), rest))
    decreases |members| - k
  {
    var s, got := ListFrom(es, members, k, start) + rest, Listed(es, members);
    if k == |members| {
      assert s[1..] == rest && got[..k] == got;
    } else {
      assert s[1..] == ListFrom(es, members, k + 1, start) + rest;
      assert got[..k + 1] == got[..k] + [got[k]];
      ListReadBack(es, members, k + 1, start, rest);
    }
  }

  /** A group of a sorted list is sorted, so sorting it again changes nothing. */
  lemma GroupSorted(es: seq<FileEntry>, d: Option<Name>, members: seq<nat>)
    requires Sorted(es) && members == Under(es, d, |es|)
    ensures StableSort(Listed(es, members), |members|, Canonical()) == Listed(es, members)
  {
    var list := Listed(es, members);
    UnderExactly(es, d, |es|);
    forall i, j | 0 <= i < j < |list|
      ensures Canonical()(list[i], list[j])
    {
      assert AtMost(es[members[i]], es[members[j]]);
    }
    OrderedStays(list, |list|, Canonical());
    assert list[..|list|] == list;
  }

  /** What the receiver should have after the first `g` groups. */
  ghost function ReceiptOf(es: seq<FileEntry>, groups: seq<Group>, g: nat): Receipt
    requires g <= |groups| && Indices(es, Flat(groups, g))
  {
    Receipt(Listed(es, Flat(groups, g)), Places(groups, g), g)
  }

  lemma ListedAppend(es: seq<FileEntry>, a: seq<nat>, b: seq<nat>)
    requires Indices(es, a) && Indices(es, b)
    ensures Indices(es, a + b) && Listed(es, a + b) == Listed(es, a) + Listed(es, b)
  {
  }

  lemma ReceiptNext(es: seq<FileEntry>, groups: seq<Group>, g: nat)
    requires g < |groups| && Indices(es, Flat(groups, g)) && Indices(es, groups[g].members)
    ensures Indices(es, Flat(groups, g + 1))
    ensures Added(ReceiptOf(es, groups, g), Listed(es, groups[g].members), StartOf(groups, g))
         == ReceiptOf(es, groups, g + 1)
  {
    ListedAppend(es, Flat(groups, g), groups[g].members);
  }

  lemma GroupInOrder(es: seq<FileEntry>, groups: seq<Group>, order: seq<nat>, g: nat)
    requires Sorted(es) && Indices(es, order) && Grouped(es, groups, order, |order|) && g < |groups|
    ensures Indices(es, groups[g].members)
    ensures var list := Listed(es, groups[g].members); StableSort(list, |list|, Canonical()) == list
  {
    GroupSorted(es, if g == 0 then None else Some(es[order[g - 1]].name), groups[g].members);
  }

  lemma GroupNoted(es: seq<FileEntry>, groups: seq<Group>, order: seq<nat>, g: nat)
    requires Sorted(es) && Indices(es, order) && Grouped(es, groups, order, |order|) && g < |groups|
    requires Indices(es, Flat(groups, g))
    ensures Indices(es, groups[g].members) && Indices(es, Flat(groups, g + 1))
    ensures Noted(ReceiptOf(es, groups, g), Listed(es, groups[g].members), StartOf(groups, g))
         == ReceiptOf(es, groups, g + 1)
  {
    GroupInOrder(es, groups, order, g);
    ReceiptNext(es, groups, g);
  }

  lemma OneListRead(es: seq<FileEntry>, members: seq<nat>, start: int, rest: seq<Item>)
    requires Indices(es, members)
    ensures ListRead(ListFrom(es, members, 0, start) + rest, []) == Some((Listed(es, members), rest))
  {
    ListReadBack(es, members, 0, start, rest);
    assert Listed(es, members)[..0] == [];
  }

  lemma StreamHead(es: seq<FileEntry>, groups: seq<Group>, g: nat)
    requires 1 <= g < |groups| && AllIndices(es, groups) && Numberable(groups)
    ensures var s := StreamFrom(es, groups, g);
            && s != [] && s[0].Marker? && s[0].value <= NDX_FLIST_OFFSET
            && ListRead(s[1..], []) == Some((Listed(es, groups[g].members), StreamFrom(es, groups, g + 1)))
  {
    var members, start := groups[g].members, StartOf(groups, g);
    var s, rest := StreamFrom(es, groups, g), StreamFrom(es, groups, g + 1);
    OneListRead(es, members, start, rest);
    assert s[1..] == ListFrom(es, members, 0, start) + rest;
  }

  /** What reading the rest of the stream after `g` groups gives, on top of `r`. */
  ghost function Stage(es: seq<FileEntry>, groups: seq<Group>, g: nat, r: Receipt): Option<Receipt>
    requires g <= |groups| && AllIndices(es, groups)
  {
    ListsRead(StreamFrom(es, groups, g), StartOf(groups, g), r)
  }

  lemma {:induction false} StageStep(es: seq<FileEntry>, groups: seq<Group>, g: nat, r: Receipt, r': Receipt)
    requires 1 <= g < |groups| && AllIndices(es, groups) && Numberable(groups)
    requires Noted(r, Listed(es, groups[g].members), StartOf(groups, g)) == r'
    ensures Stage(es, groups, g, r) == Stage(es, groups, g + 1, r')
  {
    StreamHead(es, groups, g);
    ListsReadStep(StreamFrom(es, groups, g), StartOf(groups, g), r, Listed(es, groups[g].members),
                  StreamFrom(es, groups, g + 1), StartOf(groups, g + 1), r');
  }

  lemma {:induction false} Stages(es: seq<FileEntry>, groups: seq<Group>, order: seq<nat>, g: nat)
    requires Sorted(es) && Indices(es, order) && Grouped(es, groups, order, |order|) && 1 <= g <= |groups|
    requires AllIndices(es, groups) && Numberable(groups) && Indices(es, Flat(groups, g))
    ensures Indices(es, Flat(groups, |groups|))
    ensures Stage(es, groups, g, ReceiptOf(es, groups, g))
         == Stage(es, groups, |groups|, ReceiptOf(es, groups, |groups|))
    decreases |groups| - g
  {
    if g < |groups| {
      GroupNoted(es, groups, order, g);
      StageStep(es, groups, g, ReceiptOf(es, groups, g), ReceiptOf(es, groups, g + 1));
      Stages(es, groups, order, g + 1);
    }
  }

  lemma {:induction false} LastStage(es: seq<FileEntry>, groups: seq<Group>)
    requires AllIndices(es, groups) && Indices(es, Flat(groups, |groups|))
    ensures Stage(es, groups, |groups|, ReceiptOf(es, groups, |groups|)) == Some(ReceiptOf(es, groups, |groups|))
  {
    assert StreamFrom(es, groups, |groups|) == [Marker(NDX_FLIST_EOF)];
  }

  /** The whole stream is received as all groups' entries at their places. */
  lemma {:induction false} WholeStreamRead(es: seq<FileEntry>, groups: seq<Group>, order: seq<nat>)
    requires Sorted(es) && Indices(es, order) && Grouped(es, groups, order, |order|)
    requires AllIndices(es, groups) && Numberable(groups)
    ensures Indices(es, Flat(groups, |groups|))
    ensures FileListRead(StreamFrom(es, groups, 0)) == Some(ReceiptOf(es, groups, |groups|))
  {
    var members, rest := groups[0].members, StreamFrom(es, groups, 1);
    OneListRead(es, members, 1, rest);
    assert StreamFrom(es, groups, 0) == ListFrom(es, members, 0, 1) + rest;
    GroupNoted(es, groups, order, 0);
    assert ReceiptOf(es, groups, 0) == Receipt([], [], 0);
    Stages(es, groups, order, 1);
    LastStage(es, groups);
  }

  // ---- The index used while encoding ----

  /** The entries of a stream in order, each with the index it was encoded under. */
  ghost function Encoded(s: seq<Item>): seq<(FileEntry, int)>
  {
    if s == [] then [] else EncodedItem(s[0]) + Encoded(s[1..])
  }

  ghost function EncodedItem(item: Item): seq<(FileEntry, int)>
  {
    match item case Entry(e, ndx) => [(e, ndx)] case _ => []
  }

  lemma {:induction false} EncodedAppend(a: seq<Item>, b: seq<Item>)
    ensures Encoded(a + b) == Encoded(a) + Encoded(b)
  {
    if a == [] {
      assert a + b == b;
    } else {
      assert (a + b)[1..] == a[1..] + b;
      EncodedAppend(a[1..], b);
    }
  }

  ghost function WithIndices(entries: seq<FileEntry>, ndx: seq<int>): (r: seq<(FileEntry, int)>)
    requires |entries| == |ndx|
    ensures |r| == |entries|
  {
    seq(|entries|, k requires 0 <= k < |entries| => (entries[k], ndx[k]))
  }

  lemma {:induction false} ListEncoded(es: seq<FileEntry>, members: seq<nat>, k: nat, start: int)
    requires k <= |members| && Indices(es, members)
    ensures Encoded(ListFrom(es, members, k, start))
         == WithIndices(Listed(es, members), Consecutive(start, |members|))[k..]
    decreases |members| - k
  {
    var all := WithIndices(Listed(es, members), Consecutive(start, |members|));
    if k < |members| {
      ListEncoded(es, members, k + 1, start);
      assert ListFrom(es, members, k, start)[1..] == ListFrom(es, members, k + 1, start);
      assert all[k..] == [all[k]] + all[k + 1..];
    } else {
      assert Encoded([EndOfList]) == EncodedItem(EndOfList) + Encoded([]);
    }
  }

  lemma NumberedAppend(a: seq<FileEntry>, x: seq<int>, b: seq<FileEntry>, y: seq<int>)
    requires |a| == |x| && |b| == |y|
    ensures WithIndices(a + b, x + y) == WithIndices(a, x) + WithIndices(b, y)
  {
  }

  /** What the groups from `g` on are encoded under continues the places of those before. */
  lemma {:induction false} StreamEncoded(es: seq<FileEntry>, groups: seq<Group>, g: nat)
    requires g <= |groups| && AllIndices(es, groups) && Indices(es, Flat(groups, g))
    ensures Indices(es, Flat(groups, |groups|))
    ensures |Places(groups, g)| == |Flat(groups, g)| && |Places(groups, |groups|)| == |Flat(groups, |groups|)|
    ensures WithIndices(Listed(es, Flat(groups, g)), Places(groups, g)) + Encoded(StreamFrom(es, groups, g))
         == WithIndices(Listed(es, Flat(groups, |groups|)), Places(groups, |groups|))
    decreases |groups| - g
  {
    PlacesLength(groups, g);
    PlacesLength(groups, |groups|);
    var done := WithIndices(Listed(es, Flat(groups, g)), Places(groups, g));
    if g == |groups| {
      assert Encoded([Marker(NDX_FLIST_EOF)]) == EncodedItem(Marker(NDX_FLIST_EOF)) + Encoded([]);
      assert done + [] == done;
    } else {
      GroupEncoded(es, groups, g);
      GroupNumbered(es, groups, g);
      StreamEncoded(es, groups, g + 1);
      var list := WithIndices(Listed(es, groups[g].members), Consecutive(StartOf(groups, g), |groups[g].members|));
      Assoc(done, list, Encoded(StreamFrom(es, groups, g + 1)));
    }
  }

  /** One group more adds its entries under its indices. */
  lemma {:induction false} GroupNumbered(es: seq<FileEntry>, groups: seq<Group>, g: nat)
    requires g < |groups| && Indices(es, groups[g].members) && Indices(es, Flat(groups, g))
    ensures Indices(es, Flat(groups, g + 1))
    ensures |Places(groups, g)| == |Flat(groups, g)| && |Places(groups, g + 1)| == |Flat(groups, g + 1)|
    ensures WithIndices(Listed(es, Flat(groups, g + 1)), Places(groups, g + 1))
         == WithIndices(Listed(es, Flat(groups, g)), Places(groups, g))
            + WithIndices(Listed(es, groups[g].members), Consecutive(StartOf(groups, g), |groups[g].members|))
  {
    PlacesLength(groups, g);
    PlacesLength(groups, g + 1);
    ListedAppend(es, Flat(groups, g), groups[g].members);
    NumberedAppend(Listed(es, Flat(groups, g)), Places(groups, g), Listed(es, groups[g].members),
                   Consecutive(StartOf(groups, g), |groups[g].members|));
  }

  lemma {:induction false} GroupEncoded(es: seq<FileEntry>, groups: seq<Group>, g: nat)
    requires g < |groups| && AllIndices(es, groups)
    ensures var members, start := groups[g].members, StartOf(groups, g);
            Encoded(StreamFrom(es, groups, g))
            == WithIndices(Listed(es, members), Consecutive(start, |members|)) + Encoded(StreamFrom(es, groups, g + 1))
  {
    var members, start := groups[g].members, StartOf(groups, g);
    var list, rest := ListFrom(es, members, 0, start), StreamFrom(es, groups, g + 1);
    EncodedAppend(Announced(g, groups[g]), list + rest);
    EncodedAppend(list, rest);
    ListEncoded(es, members, 0, start);
    var mark := Announced(g, groups[g]);
    assert Encoded(mark) == [] by {
      if g > 0 {
        assert Encoded(mark) == EncodedItem(mark[0]) + Encoded(mark[1..]);
      }
    }
    assert [] + Encoded(list + rest) == Encoded(list + rest);
  }

  /** Every entry was encoded under the index the receiver gives it. */
  ghost predicate EncodedAs(wire: seq<Item>, r: Receipt) {
    |r.entries| == |r.ndx| && Encoded(wire) == WithIndices(r.entries, r.ndx)
  }

  /** Entry `i` of the sender's list is entry `k` of the receiver's, under one index. */
  ghost predicate SameFile(es: seq<FileEntry>, ndx: seq<int>, r: Receipt, i: nat, k: nat) {
    i < |es| == |ndx| && k < |r.entries| == |r.ndx| && r.entries[k] == es[i] && r.ndx[k] == ndx[i]
  }

  ghost predicate Corresponds(flat: seq<nat>, es: seq<FileEntry>, ndx: seq<int>, r: Receipt) {
    && |flat| == |r.entries| == |r.ndx| && Distinct(flat)
    && (forall k :: 0 <= k < |flat| ==> SameFile(es, ndx, r, flat[k], k))
    && (forall i :: 0 <= i < |es| ==> i in flat)
  }

  ghost predicate Ascending(s: seq<int>) {
    && (forall k :: 0 <= k < |s| ==> s[k] >= 0)
    && (forall j, k :: 0 <= j < k < |s| ==> s[j] < s[k])
  }

  /** Incremental lists are numbered from one, so that zero is no entry's index. */
  ghost predicate FromOne(r: Receipt) {
    forall k :: 0 <= k < |r.ndx| ==> r.ndx[k] >= 1
  }

  /** Both sides have the same entries under the same distinct indices. */
  ghost predicate Shared(es: seq<FileEntry>, ndx: seq<int>, r: Receipt) {
    Ascending(r.ndx) && exists flat :: Corresponds(flat, es, ndx, r)
  }

  /**
   * The sender's numbering of one parented list, the indices it is encoded under and the receiver's
   * numbering agree entry by entry.
   */
  lemma {:induction false} IndicesAgree(es: seq<FileEntry>, groups: seq<Group>, order: seq<nat>, ndx: seq<int>)
    requires AllParented(es) && |ndx| == |es|
    requires BreadthFirst(es, order) && Grouped(es, groups, order, |order|)
    requires |Places(groups, |groups|)| == |Flat(groups, |groups|)|
    requires Distinct(Flat(groups, |groups|)) ==> Given(ndx, Flat(groups, |groups|), Places(groups, |groups|))
    ensures Indices(es, Flat(groups, |groups|))
    ensures var r := ReceiptOf(es, groups, |groups|);
            Corresponds(Flat(groups, |groups|), es, ndx, r) && Shared(es, ndx, r) && FromOne(r)
            && (AllIndices(es, groups) ==> EncodedAs(StreamFrom(es, groups, 0), r))
  {
    SentOnce(es, groups, order);
    PlacesAscend(groups, |groups|);
    if AllIndices(es, groups) {
      StreamEncoded(es, groups, 0);
      var none: seq<(FileEntry, int)> := [];
      assert none + Encoded(StreamFrom(es, groups, 0)) == Encoded(StreamFrom(es, groups, 0));
      assert WithIndices(Listed(es, []), []) == [];
    }
    assert Corresponds(Flat(groups, |groups|), es, ndx, ReceiptOf(es, groups, |groups|));
  }

  /** Shared indices are distinct on the sender's side too. */
  lemma IndicesDistinct(es: seq<FileEntry>, ndx: seq<int>, r: Receipt, i: nat, j: nat)
    requires Shared(es, ndx, r) && i < j < |es|
    ensures |ndx| == |es| && ndx[i] != ndx[j]
  {
    var flat :| Corresponds(flat, es, ndx, r);
    assert i in flat && j in flat;
    var p :| 0 <= p < |flat| && flat[p] == i;
    var q :| 0 <= q < |flat| && flat[q] == j;
    assert SameFile(es, ndx, r, flat[p], p) && SameFile(es, ndx, r, flat[q], q);
    assert p < q || q < p;
  }

  /** A file list from one side to the other, its lists sent `count` at a time. */
  method ExchangeFileList(es: seq<FileEntry>, count: nat) returns (ndx: seq<int>, wire: seq<Item>, r: Option<Receipt>)
    requires count > 0
    ensures Sorted(es) && AllParented(es) ==>
              && r.Some? && Shared(es, ndx, r.value) && FromOne(r.value) && EncodedAs(wire, r.value)
              && r.value.lists == 1 + |Directories(es)|
  {
    var sender, pending;
    ghost var groups, order;
    ndx, sender, pending, groups, order := SendFileListIncremental(es);
    if pending != null {
      while !pending.eofSent
        invariant fresh(pending) && fresh(sender) && pending.sender == sender && pending.Valid()
        invariant pending.es == es && pending.All() == groups
        decreases |pending.groups| - pending.cursor, !pending.eofSent
      {
        pending.SendPending(count);
      }
    }
    wire := sender.wire;
    r := RecvFileListIncremental(wire);
    if Sorted(es) && AllParented(es) {
      WholeStreamRead(es, groups, order);
      IndicesAgree(es, groups, order, ndx);
      OneGroupEach(es, groups, order);
    }
  }
}
