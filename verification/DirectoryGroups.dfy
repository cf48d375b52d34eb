/**
 * What the grouping guarantees: exactly when every entry lies in exactly one group, and that then
 * each group is numbered by the place of its directory among the directories sent before it.
 */
module DirectoryGroups {
  import opened Bytes
  import opened SortOrder
  import opened DirectoryTree

  // ---- Counting ----

  ghost function Count(s: seq<nat>, x: nat, n: nat): nat
    requires n <= |s|
  {
    if n == 0 then 0 else Count(s, x, n - 1) + if s[n - 1] == x then 1 else 0
  }

  lemma {:induction false} CountAppend(a: seq<nat>, b: seq<nat>, x: nat, n: nat)
    requires n <= |b|
    ensures Count(a + b, x, |a| + n) == Count(a, x, |a|) + Count(b, x, n)
  {
    if n == 0 {
      CountPrefix(a, b, x, |a|);
    } else {
      CountAppend(a, b, x, n - 1);
      assert (a + b)[|a| + n - 1] == b[n - 1];
    }
  }

  lemma {:induction false} CountPrefix(a: seq<nat>, b: seq<nat>, x: nat, n: nat)
    requires n <= |a|
    ensures Count(a + b, x, n) == Count(a, x, n)
  {
    if n > 0 {
      CountPrefix(a, b, x, n - 1);
      assert (a + b)[n - 1] == a[n - 1];
    }
  }

  lemma {:induction false} CountTwice(s: seq<nat>, x: nat, n: nat, p: nat, q: nat)
    requires p < q < n <= |s| && s[p] == s[q] == x
    ensures Count(s, x, n) >= 2
  {
    if q == n - 1 {
      CountOnce(s, x, n - 1, p);
    } else {
      CountTwice(s, x, n - 1, p, q);
    }
  }

  lemma {:induction false} CountOnce(s: seq<nat>, x: nat, n: nat, p: nat)
    requires p < n <= |s| && s[p] == x
    ensures Count(s, x, n) >= 1
  {
    if p < n - 1 {
      CountOnce(s, x, n - 1, p);
    }
  }

  /** Number of groups among the first `n` that hold entry `i`. */
  ghost function Holding(groups: seq<Group>, i: nat, n: nat): nat
    requires n <= |groups|
  {
    if n == 0 then 0 else Holding(groups, i, n - 1) + if i in groups[n - 1].members then 1 else 0
  }

  /** Number of the first `n` directories in `order` with the name `d`. */
  ghost function NameCount(es: seq<FileEntry>, order: seq<nat>, d: Name, n: nat): nat
    requires n <= |order| && Indices(es, order)
  {
    if n == 0 then 0 else NameCount(es, order, d, n - 1) + if es[order[n - 1]].name == d then 1 else 0
  }

  lemma {:induction false} CountUnder(es: seq<FileEntry>, d: Option<Name>, n: nat, i: nat)
    requires n <= |es|
    ensures Count(Under(es, d, n), i, |Under(es, d, n)|) == if i < n && es[i].Dirname() == d then 1 else 0
  {
    if n > 0 {
      CountUnder(es, d, n - 1, i);
      var last := if es[n - 1].Dirname() == d then [n - 1] else [];
      CountAppend(Under(es, d, n - 1), last, i, |last|);
    }
  }

  lemma {:induction false} CountDirs(es: seq<FileEntry>, s: seq<nat>, n: nat, i: nat)
    requires n <= |s| && Indices(es, s) && i < |es|
    ensures Count(Dirs(es, s, n), i, |Dirs(es, s, n)|) == if es[i].IsDir() then Count(s, i, n) else 0
  {
    if n > 0 {
      CountDirs(es, s, n - 1, i);
      var last := if es[s[n - 1]].IsDir() then [s[n - 1]] else [];
      CountAppend(Dirs(es, s, n - 1), last, i, |last|);
    }
  }

  lemma {:induction false} CountDescended(es: seq<FileEntry>, s: seq<nat>, n: nat, i: nat)
    requires n <= |s| && Indices(es, s) && i < |es|
    ensures Count(Descended(es, s, n), i, |Descended(es, s, n)|)
         == if es[i].IsDir() && es[i].name != [DOT] then Count(s, i, n) else 0
  {
    if n > 0 {
      CountDescended(es, s, n - 1, i);
      var last := if es[s[n - 1]].IsDir() && es[s[n - 1]].name != [DOT] then [s[n - 1]] else [];
      CountAppend(Descended(es, s, n - 1), last, i, |last|);
    }
  }

  lemma CountChildDirs(es: seq<FileEntry>, name: Name, i: nat)
    requires i < |es| && es[i].IsDir()
    ensures Count(ChildDirs(es, name), i, |ChildDirs(es, name)|) == if es[i].Dirname() == Some(name) then 1 else 0
  {
    CountDirs(es, Children(es, name), |Children(es, name)|, i);
    CountUnder(es, Some(name), |es|, i);
  }

  /** A directory is spawned once by every visit to its parent. */
  lemma {:induction false} CountSpawned(es: seq<FileEntry>, order: seq<nat>, n: nat, i: nat)
    requires n <= |order| && Indices(es, order) && i < |es| && es[i].IsDir()
    ensures Count(Spawned(es, order, n), i, |Spawned(es, order, n)|)
         == match es[i].Dirname() case None => 0 case Some(d) => NameCount(es, order, d, n)
  {
    if n > 0 {
      CountSpawned(es, order, n - 1, i);
      var name := es[order[n - 1]].name;
      CountChildDirs(es, name, i);
      CountAppend(Spawned(es, order, n - 1), ChildDirs(es, name), i, |ChildDirs(es, name)|);
    }
  }

  /** An entry is held once as a member of the root and once for every visit to its parent. */
  lemma {:induction false} CountHolding(es: seq<FileEntry>, groups: seq<Group>, order: seq<nat>, pos: nat, i: nat,
                                        n: nat)
    requires Indices(es, order) && Grouped(es, groups, order, pos) && i < |es| && n <= pos
    ensures Holding(groups, i, n + 1) == match es[i].Dirname() case None => 1 case Some(d) => NameCount(es, order, d, n)
  {
    if n == 0 {
      assert i in Root(es) <==> es[i].Dirname() == None by {
        UnderExactly(es, None, |es|);
      }
    } else {
      CountHolding(es, groups, order, pos, i, n - 1);
      var name := es[order[n - 1]].name;
      assert i in Children(es, name) <==> es[i].Dirname() == Some(name) by {
        UnderExactly(es, Some(name), |es|);
      }
    }
  }

  lemma CountRoots(es: seq<FileEntry>, i: nat)
    requires i < |es| && es[i].IsDir() && es[i].name != [DOT]
    ensures var roots := Descended(es, Root(es), |Root(es)|);
            Count(roots, i, |roots|) == if es[i].Dirname() == None then 1 else 0
  {
    CountDescended(es, Root(es), |Root(es)|, i);
    CountUnder(es, None, |es|, i);
  }

  lemma {:induction false} CountSum(s: seq<nat>, a: seq<nat>, b: seq<nat>, x: nat)
    requires s == a + b
    ensures Count(s, x, |s|) == Count(a, x, |a|) + Count(b, x, |b|)
  {
    CountAppend(a, b, x, |b|);
  }

  /** A directory is visited as often as it is held, unless it is the root itself. */
  lemma {:induction false} VisitedAsHeld(es: seq<FileEntry>, groups: seq<Group>, order: seq<nat>, i: nat)
    requires BreadthFirst(es, order) && Grouped(es, groups, order, |order|)
    requires i < |es| && es[i].IsDir() && es[i].name != [DOT]
    ensures Count(order, i, |order|) == Holding(groups, i, |groups|)
  {
    CountHolding(es, groups, order, |order|, i, |order|);
    CountSum(order, Descended(es, Root(es), |Root(es)|), Spawned(es, order, |order|), i);
    CountRoots(es, i);
    CountSpawned(es, order, |order|, i);
  }

  // ---- The partition ----

  /** Directory entry `j` is called `d`. */
  ghost predicate Parent(es: seq<FileEntry>, d: Name, j: nat) {
    j < |es| && es[j].IsDir() && es[j].name == d
  }

  ghost predicate SoleParent(es: seq<FileEntry>, d: Name, j: nat) {
    Parent(es, d, j) && forall k: nat :: Parent(es, d, k) ==> k == j
  }

  /** An entry below a directory has exactly one directory entry as its parent, other than ".". */
  ghost predicate Parented(es: seq<FileEntry>, i: nat)
    requires i < |es|
  {
    match es[i].Dirname()
    case None => true
    case Some(d) => d != [DOT] && exists j: nat :: SoleParent(es, d, j)
  }

  ghost predicate AllParented(es: seq<FileEntry>) {
    forall i :: 0 <= i < |es| ==> Parented(es, i)
  }

  ghost predicate AllHeldOnce(es: seq<FileEntry>, groups: seq<Group>) {
    forall i :: 0 <= i < |es| ==> HeldOnceBy(groups, i)
  }

  ghost predicate HeldOnceBy(groups: seq<Group>, i: nat) {
    Holding(groups, i, |groups|) == 1
  }

  lemma {:induction false} SoleCount(es: seq<FileEntry>, order: seq<nat>, d: Name, j: nat, n: nat)
    requires n <= |order| && Indices(es, order) && SoleParent(es, d, j)
    requires forall k :: 0 <= k < |order| ==> es[order[k]].IsDir()
    ensures NameCount(es, order, d, n) == Count(order, j, n)
  {
    if n > 0 {
      SoleCount(es, order, d, j, n - 1);
      assert es[order[n - 1]].name == d ==> Parent(es, d, order[n - 1]);
    }
  }

  lemma {:induction false} TwoCount(es: seq<FileEntry>, order: seq<nat>, d: Name, j: nat, k: nat, n: nat)
    requires n <= |order| && Indices(es, order) && j != k && Parent(es, d, j) && Parent(es, d, k)
    ensures NameCount(es, order, d, n) >= Count(order, j, n) + Count(order, k, n)
  {
    if n > 0 {
      TwoCount(es, order, d, j, k, n - 1);
    }
  }

  lemma {:induction false} NameFound(es: seq<FileEntry>, order: seq<nat>, d: Name, n: nat)
    requires n <= |order| && Indices(es, order) && NameCount(es, order, d, n) > 0
    ensures exists p :: 0 <= p < n && es[order[p]].name == d
  {
    if es[order[n - 1]].name != d {
      NameFound(es, order, d, n - 1);
    }
  }

  /** With sole parents, an entry is held exactly once: it follows its parents down from the root. */
  lemma {:induction false} HeldOnce(es: seq<FileEntry>, groups: seq<Group>, order: seq<nat>, i: nat)
    requires BreadthFirst(es, order) && Grouped(es, groups, order, |order|) && i < |es|
    requires AllParented(es)
    ensures HeldOnceBy(groups, i)
    decreases |es[i].name|
  {
    CountHolding(es, groups, order, |order|, i, |order|);
    if es[i].Dirname().Some? {
      assert Parented(es, i);
      var d := es[i].Dirname().value;
      var j: nat :| SoleParent(es, d, j);
      HeldOnce(es, groups, order, j);
      VisitedAsHeld(es, groups, order, j);
      QueuedDirs(es, order, |order|);
      SoleCount(es, order, d, j, |order|);
    }
  }

  /** If every entry is held exactly once, every entry has a sole parent. */
  lemma {:induction false} OnceParented(es: seq<FileEntry>, groups: seq<Group>, order: seq<nat>, i: nat)
    requires BreadthFirst(es, order) && Grouped(es, groups, order, |order|) && i < |es|
    requires AllHeldOnce(es, groups)
    ensures Parented(es, i)
  {
    if es[i].Dirname().Some? {
      var d := es[i].Dirname().value;
      assert HeldOnceBy(groups, i);
      CountHolding(es, groups, order, |order|, i, |order|);
      NameFound(es, order, d, |order|);
      var p :| 0 <= p < |order| && es[order[p]].name == d;
      QueuedDirs(es, order, |order|);
      forall k: nat | Parent(es, d, k)
        ensures k == order[p]
      {
        if k != order[p] {
          assert HeldOnceBy(groups, k) && HeldOnceBy(groups, order[p]);
          TwoCount(es, order, d, order[p], k, |order|);
          VisitedAsHeld(es, groups, order, k);
          VisitedAsHeld(es, groups, order, order[p]);
          assert false;
        }
      }
      assert SoleParent(es, d, order[p]);
    }
  }

  /** The groups partition the entries exactly when every entry below the root has a sole parent. */
  lemma {:induction false} Partition(es: seq<FileEntry>, groups: seq<Group>, order: seq<nat>)
    requires BreadthFirst(es, order) && Grouped(es, groups, order, |order|)
    ensures AllHeldOnce(es, groups) <==> AllParented(es)
  {
    if AllParented(es) {
      forall i | 0 <= i < |es|
        ensures HeldOnceBy(groups, i)
      {
        HeldOnce(es, groups, order, i);
      }
    }
    if AllHeldOnce(es, groups) {
      forall i | 0 <= i < |es|
        ensures Parented(es, i)
      {
        OnceParented(es, groups, order, i);
      }
    }
  }

  /** What lies directly under "." is held by no group. */
  lemma {:induction false} UnderDotLost(es: seq<FileEntry>, groups: seq<Group>, order: seq<nat>, i: nat)
    requires BreadthFirst(es, order) && Grouped(es, groups, order, |order|) && i < |es|
    requires es[i].Dirname() == Some([DOT])
    ensures Holding(groups, i, |groups|) == 0
  {
    CountHolding(es, groups, order, |order|, i, |order|);
    QueuedDirs(es, order, |order|);
    if NameCount(es, order, [DOT], |order|) > 0 {
      NameFound(es, order, [DOT], |order|);
    }
  }

  /** The directory "." and a file "./x" in it: the file is never sent. */
  lemma DotFileLost(groups: seq<Group>, order: seq<nat>)
    requires var es := [FileEntry([DOT], Directory, 0), FileEntry([DOT, SLASH, 0x78], Regular, 0)];
             BreadthFirst(es, order) && Grouped(es, groups, order, |order|)
    ensures Holding(groups, 1, |groups|) == 0
  {
    var es := [FileEntry([DOT], Directory, 0), FileEntry([DOT, SLASH, 0x78], Regular, 0)];
    assert es[1].name[1] == SLASH && es[1].name[2] != SLASH;
    assert es[1].name[..1] == [DOT];
    UnderDotLost(es, groups, order, 1);
  }

  // ---- The numbers ----

  lemma VisitedOnce(es: seq<FileEntry>, groups: seq<Group>, order: seq<nat>, p: nat, q: nat)
    requires BreadthFirst(es, order) && Grouped(es, groups, order, |order|)
    requires AllParented(es)
    requires p < |order| && q < |order| && order[p] == order[q]
    ensures p == q
  {
    QueuedDirs(es, order, |order|);
    HeldOnce(es, groups, order, order[p]);
    VisitedAsHeld(es, groups, order, order[p]);
    if p < q {
      CountTwice(order, order[p], |order|, p, q);
    } else if q < p {
      CountTwice(order, order[p], |order|, q, p);
    }
  }

  lemma {:induction false} SentGrows(es: seq<FileEntry>, groups: seq<Group>, n: nat, m: nat)
    requires n <= m <= |groups| && forall g :: 0 <= g < |groups| ==> Indices(es, groups[g].members)
    ensures Sent(es, groups, n) <= Sent(es, groups, m)
  {
    if n < m {
      SentGrows(es, groups, n, m - 1);
    }
  }

  lemma BearsNumber(es: seq<FileEntry>, groups: seq<Group>, order: seq<nat>, at: seq<nat>, p: nat)
    requires BreadthFirst(es, order) && Grouped(es, groups, order, |order|) && p < |order|
    requires forall g :: 0 <= g < |groups| ==> Indices(es, groups[g].members)
    requires Numbered(order, Sent(es, groups, |groups|), at) && Timely(es, groups, order, at)
    requires AllParented(es)
    ensures groups[p + 1].dirNdx == at[p]
  {
    assert OnTime(es, groups, order, at, p);
    var q :| 0 <= q < |order| && q < |at| && order[q] == order[p] && at[q] == groups[p + 1].dirNdx;
    VisitedOnce(es, groups, order, p, q);
  }

  /** The number is the place of the directory among those sent before its group. */
  lemma {:induction false} NumberIsPlace(es: seq<FileEntry>, groups: seq<Group>, order: seq<nat>, at: seq<nat>, p: nat)
    requires |groups| == |order| + 1 && p < |order|
    requires forall g :: 0 <= g < |groups| ==> Indices(es, groups[g].members)
    requires Numbered(order, Sent(es, groups, |groups|), at) && Timely(es, groups, order, at)
    ensures p < |at| && at[p] < |Sent(es, groups, p + 1)| && Sent(es, groups, p + 1)[at[p]] == order[p]
  {
    assert OnTime(es, groups, order, at, p);
    SentGrows(es, groups, p + 1, |groups|);
  }

  /**
   * With sole parents, the group of a directory bears the place of that directory among the
   * directories sent in earlier groups, and the numbers increase from group to group.
   */
  lemma {:induction false} GroupNumbers(es: seq<FileEntry>, groups: seq<Group>, order: seq<nat>, at: seq<nat>, p: nat)
    requires BreadthFirst(es, order) && Grouped(es, groups, order, |order|) && p < |order|
    requires forall g :: 0 <= g < |groups| ==> Indices(es, groups[g].members)
    requires Numbered(order, Sent(es, groups, |groups|), at) && Timely(es, groups, order, at)
    requires AllParented(es)
    ensures var ndx, sent := groups[p + 1].dirNdx, Sent(es, groups, p + 1);
            && 0 <= ndx < |sent| && sent[ndx] == order[p]
            && groups[p + 1].members == Children(es, es[order[p]].name)
            && (p > 0 ==> groups[p].dirNdx < ndx)
  {
    BearsNumber(es, groups, order, at, p);
    NumberIsPlace(es, groups, order, at, p);
    if p > 0 {
      BearsNumber(es, groups, order, at, p - 1);
    }
  }
}
