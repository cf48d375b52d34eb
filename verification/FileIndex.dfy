/**
 * File indices (NDX) of incremental file lists. The sender numbers all entries at once, the
 * encoder numbers them again while sending, the receiver numbers what it has received and sorted;
 * the three must agree on every entry.
 */
module FileIndex {
  import opened Bytes
  import opened SortOrder
  import opened DirectoryTree
  import opened DirectoryGroups

  // ---- Places ----

  function Consecutive(start: int, n: nat): (s: seq<int>)
    ensures |s| == n && forall k :: 0 <= k < n ==> s[k] == start + k
  {
    seq(n, k => start + k)
  }

  /** Index of the first entry of group `g`: lists follow each other with a gap of one. */
  ghost function StartOf(groups: seq<Group>, g: nat): int
    requires g <= |groups|
  {
    if g == 0 then 1 else StartOf(groups, g - 1) + |groups[g - 1].members| + 1
  }

  /** The entries of the first `g` groups in the order they are sent, */
  ghost function Flat(groups: seq<Group>, g: nat): seq<nat>
    requires g <= |groups|
  {
    if g == 0 then [] else Flat(groups, g - 1) + groups[g - 1].members
  }

  /** and the indices of their places. */
  ghost function Places(groups: seq<Group>, g: nat): seq<int>
    requires g <= |groups|
  {
    if g == 0 then [] else Places(groups, g - 1) + Consecutive(StartOf(groups, g - 1), |groups[g - 1].members|)
  }

  lemma {:induction false} PlacesAscend(groups: seq<Group>, g: nat)
    requires g <= |groups|
    ensures |Places(groups, g)| == |Flat(groups, g)|
    ensures forall p :: 0 <= p < |Places(groups, g)| ==> 1 <= Places(groups, g)[p] < StartOf(groups, g) - 1
    ensures forall p, q :: 0 <= p < q < |Places(groups, g)| ==> Places(groups, g)[p] < Places(groups, g)[q]
    ensures StartOf(groups, g) == 1 + g + |Flat(groups, g)|
  {
    if g > 0 {
      PlacesAscend(groups, g - 1);
    }
  }

  lemma PlacesLength(groups: seq<Group>, g: nat)
    requires g <= |groups|
    ensures |Places(groups, g)| == |Flat(groups, g)|
  {
    PlacesAscend(groups, g);
  }

  /** Member `k` of group `g` has the index one plus the entries and the groups sent before it. */
  lemma {:induction false} PlaceExactly(groups: seq<Group>, g: nat, k: nat, n: nat)
    requires g < n <= |groups| && k < |groups[g].members|
    ensures var p := |Flat(groups, g)| + k;
            && p < |Flat(groups, n)| == |Places(groups, n)|
            && Flat(groups, n)[p] == groups[g].members[k] && Places(groups, n)[p] == 1 + g + p
  {
    PlacesAscend(groups, n);
    PlacesAscend(groups, n - 1);
    if g < n - 1 {
      PlaceExactly(groups, g, k, n - 1);
    }
  }

  lemma MemberOnce(es: seq<FileEntry>, d: Option<Name>, members: seq<nat>, i: nat)
    requires members == Under(es, d, |es|) && i < |es|
    ensures Count(members, i, |members|) == if i in members then 1 else 0
  {
    CountUnder(es, d, |es|, i);
    UnderExactly(es, d, |es|);
  }

  /** An entry is listed as often as groups hold it. */
  lemma {:induction false} ListedAsHeld(es: seq<FileEntry>, groups: seq<Group>, order: seq<nat>, i: nat, g: nat)
    requires Indices(es, order) && Grouped(es, groups, order, |order|) && g <= |groups| && i < |es|
    ensures Count(Flat(groups, g), i, |Flat(groups, g)|) == Holding(groups, i, g)
  {
    if g > 0 {
      ListedAsHeld(es, groups, order, i, g - 1);
      var members := groups[g - 1].members;
      CountAppend(Flat(groups, g - 1), members, i, |members|);
      MemberOnce(es, if g == 1 then None else Some(es[order[g - 2]].name), members, i);
    }
  }

  ghost predicate Distinct(s: seq<nat>) {
    forall p, q :: 0 <= p < q < |s| ==> s[p] != s[q]
  }

  lemma {:induction false} CountZero(s: seq<nat>, x: nat, n: nat)
    requires n <= |s| && Count(s, x, n) > 0
    ensures exists p :: 0 <= p < n && s[p] == x
  {
    if s[n - 1] != x {
      CountZero(s, x, n - 1);
    }
  }

  /** If every entry is held once, the list of entries sent is a permutation of all entries. */
  lemma {:induction false} SentOnce(es: seq<FileEntry>, groups: seq<Group>, order: seq<nat>)
    requires BreadthFirst(es, order) && Grouped(es, groups, order, |order|) && AllParented(es)
    ensures Indices(es, Flat(groups, |groups|)) && Distinct(Flat(groups, |groups|))
    ensures forall i :: 0 <= i < |es| ==> i in Flat(groups, |groups|)
  {
    var flat := Flat(groups, |groups|);
    FlatIndices(es, groups, order, |groups|);
    forall i | 0 <= i < |es|
      ensures Count(flat, i, |flat|) == 1 && i in flat
    {
      HeldOnce(es, groups, order, i);
      ListedAsHeld(es, groups, order, i, |groups|);
      CountZero(flat, i, |flat|);
    }
    forall p, q | 0 <= p < q < |flat|
      ensures flat[p] != flat[q]
    {
      assert Count(flat, flat[p], |flat|) == 1;
      if flat[p] == flat[q] {
        CountTwice(flat, flat[p], |flat|, p, q);
      }
    }
  }

  lemma {:induction false} FlatIndices(es: seq<FileEntry>, groups: seq<Group>, order: seq<nat>, g: nat)
    requires Indices(es, order) && Grouped(es, groups, order, |order|) && g <= |groups|
    ensures Indices(es, Flat(groups, g))
  {
    GroupedIndices(es, groups, order, |order|);
    if g > 0 {
      FlatIndices(es, groups, order, g - 1);
    }
  }

  // ---- Eager numbering ----

  /** The entries of `flat` have been given the indices in `places`. */
  ghost predicate Given(ndx: seq<int>, flat: seq<nat>, places: seq<int>)
    requires |flat| == |places|
  {
    forall p :: 0 <= p < |flat| ==> flat[p] < |ndx| && ndx[flat[p]] == places[p]
  }

  /** Of an entry that stands in several places the last one counts. */
  method AssignGroup(ndx: array<int>, members: seq<nat>, cursor: int, ghost flat: seq<nat>, ghost places: seq<int>)
    requires |flat| == |places| && (Distinct(flat + members) ==> Given(ndx[..], flat, places))
    requires forall k :: 0 <= k < |members| ==> members[k] < ndx.Length
    modifies ndx
    ensures Distinct(flat + members) ==> Given(ndx[..], flat + members, places + Consecutive(cursor, |members|))
  {
    for pos := 0 to |members|
      invariant Distinct(flat + members) ==> Given(ndx[..], flat, places)
      invariant Distinct(flat + members) ==> forall k :: 0 <= k < pos ==> ndx[members[k]] == cursor + k
    {
      ghost var all := flat + members;
      assert Distinct(all) ==> forall p :: 0 <= p < |flat| + pos ==> all[p] != all[|flat| + pos];
      assert forall p :: 0 <= p < |flat| ==> all[p] == flat[p];
      assert forall k :: 0 <= k < |members| ==> all[|flat| + k] == members[k];
      ndx[members[pos]] := cursor + pos;
    }
  }

  lemma DistinctPrefix(groups: seq<Group>, g: nat)
    requires g < |groups| && Distinct(Flat(groups, g) + groups[g].members)
    ensures Distinct(Flat(groups, g))
  {
    var flat, all := Flat(groups, g), Flat(groups, g) + groups[g].members;
    assert forall p :: 0 <= p < |flat| ==> all[p] == flat[p];
  }

  /** The sender's indices for all entries, group by group. */
  method AssignNdx(es: seq<FileEntry>, groups: seq<Group>) returns (ndx: seq<int>)
    requires forall g :: 0 <= g < |groups| ==> Indices(es, groups[g].members)
    ensures |ndx| == |es| && |Places(groups, |groups|)| == |Flat(groups, |groups|)|
    ensures Distinct(Flat(groups, |groups|)) ==> Given(ndx, Flat(groups, |groups|), Places(groups, |groups|))
  {
    var table := new int[|es|](_ => 0);
    var cursor := 1;
    PlacesAscend(groups, 0);
    for g := 0 to |groups|
      invariant cursor == StartOf(groups, g) && fresh(table) && table.Length == |es|
      invariant |Places(groups, g)| == |Flat(groups, g)|
      invariant Distinct(Flat(groups, g)) ==> Given(table[..], Flat(groups, g), Places(groups, g))
    {
      if Distinct(Flat(groups, g + 1)) {
        DistinctPrefix(groups, g);
      }
      PlacesAscend(groups, g + 1);
      AssignGroup(table, groups[g].members, cursor, Flat(groups, g), Places(groups, g));
      cursor := cursor + |groups[g].members| + 1;
    }
    ndx := table[..];
  }

  // ---- The number of groups ----

  /** The directories that are descended into. */
  ghost function Directories(es: seq<FileEntry>): set<nat> {
    set i: nat | i < |es| && es[i].IsDir() && es[i].name != [DOT]
  }

  ghost function Elements(s: seq<nat>): set<nat> {
    set x | x in s
  }

  lemma {:induction false} DistinctSize(s: seq<nat>)
    requires Distinct(s)
    ensures |Elements(s)| == |s|
  {
    if s != [] {
      var front, last := s[..|s| - 1], s[|s| - 1];
      DistinctSize(front);
      assert Elements(s) == Elements(front) + {last};
    }
  }

  /** With sole parents every directory is descended into exactly once. */
  lemma {:induction false} OncePerDirectory(es: seq<FileEntry>, groups: seq<Group>, order: seq<nat>)
    requires AllParented(es) && BreadthFirst(es, order) && Grouped(es, groups, order, |order|)
    ensures Distinct(order) && forall i :: i in order <==> i in Directories(es)
  {
    QueuedDirs(es, order, |order|);
    forall p, q | 0 <= p < q < |order|
      ensures order[p] != order[q]
    {
      if order[p] == order[q] {
        VisitedOnce(es, groups, order, p, q);
      }
    }
    forall i: nat | i in Directories(es)
      ensures i in order
    {
      HeldOnce(es, groups, order, i);
      VisitedAsHeld(es, groups, order, i);
      CountZero(order, i, |order|);
    }
  }

  /** With sole parents there is one group for the root and one for every directory. */
  lemma {:induction false} OneGroupEach(es: seq<FileEntry>, groups: seq<Group>, order: seq<nat>)
    requires AllParented(es) && BreadthFirst(es, order) && Grouped(es, groups, order, |order|)
    ensures |groups| == 1 + |Directories(es)|
  {
    OncePerDirectory(es, groups, order);
    DistinctSize(order);
    assert Elements(order) == Directories(es);
  }
}
