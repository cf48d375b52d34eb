/**
 * The order in which directories are descended into, compared with the depth-first order: exactly
 * when the two agree, and for sorted lists exactly when they are the order of the list.
 */
module TraversalOrder {
  import opened Bytes
  import opened SortOrder
  import opened DirectoryTree
  import opened DirectoryGroups
  import opened FileIndex

  // ---- Depth ----

  function Slashes(s: seq<byte>): (n: nat) {
    if s == [] then 0 else Slashes(s[..|s| - 1]) + if s[|s| - 1] == SLASH then 1 else 0
  }

  /** The number of directories above the entry. */
  function Depth(e: FileEntry): nat {
    Slashes(e.name)
  }

  lemma {:induction false} SlashesAppend(a: seq<byte>, b: seq<byte>)
    ensures Slashes(a + b) == Slashes(a) + Slashes(b)
  {
    if b == [] {
      assert a + b == a;
    } else {
      SlashesAppend(a, b[..|b| - 1]);
      assert (a + b)[..|a + b| - 1] == a + b[..|b| - 1];
    }
  }

  lemma {:induction false} NoSlashes(s: seq<byte>)
    requires SLASH !in s
    ensures Slashes(s) == 0
  {
    if s != [] {
      NoSlashes(s[..|s| - 1]);
    }
  }

  lemma DepthStep(e: FileEntry)
    ensures match e.Dirname() case None => Depth(e) == 0 case Some(d) => Depth(e) == Slashes(d) + 1
  {
    var k := e.BaseStart();
    NoSlashes(e.Basename());
    if k == 0 {
      assert e.Basename() == e.name;
    } else {
      assert e.name == e.name[..k - 1] + ([SLASH] + e.Basename());
      SlashesAppend(e.name[..k - 1], [SLASH] + e.Basename());
      SlashesAppend([SLASH], e.Basename());
      assert [SLASH][..0] == [];
    }
  }

  // ---- Depth first ----

  /** Every directory from `from` on, each followed by all directories below it. */
  ghost function Preorder(es: seq<FileEntry>, dirs: seq<nat>, from: nat): (r: seq<nat>)
    requires Indices(es, dirs) && from <= |dirs|
    ensures Indices(es, r)
    decreases Weight(es, dirs, from)
  {
    if from == |dirs| then []
    else
      var name := es[dirs[from]].name;
      ChildrenLighter(es, name);
      [dirs[from]] + (Preorder(es, ChildDirs(es, name), 0) + Preorder(es, dirs, from + 1))
  }

  ghost function Roots(es: seq<FileEntry>): (r: seq<nat>)
    ensures Indices(es, r)
  {
    Descended(es, Root(es), |Root(es)|)
  }

  ghost function DepthFirst(es: seq<FileEntry>): (r: seq<nat>)
    ensures Indices(es, r)
  {
    Preorder(es, Roots(es), 0)
  }

  /** `x` stands before `y` in `s`. */
  ghost predicate ComesBefore(s: seq<nat>, x: nat, y: nat) {
    exists p, q :: 0 <= p < q < |s| && s[p] == x && s[q] == y
  }

  lemma BeforeWithin(a: seq<nat>, s: seq<nat>, b: seq<nat>, x: nat, y: nat)
    requires ComesBefore(s, x, y)
    ensures ComesBefore(a + (s + b), x, y) && ComesBefore(a + (b + s), x, y)
  {
    var p, q :| 0 <= p < q < |s| && s[p] == x && s[q] == y;
    var l, r := a + (s + b), a + (b + s);
    assert l[|a| + p] == x && l[|a| + q] == y;
    assert r[|a| + |b| + p] == x && r[|a| + |b| + q] == y;
  }

  lemma BeforeAcross(a: seq<nat>, s: seq<nat>, t: seq<nat>, x: nat, y: nat)
    requires x in s && y in t
    ensures ComesBefore(a + (s + t), x, y)
  {
    var p :| 0 <= p < |s| && s[p] == x;
    var q :| 0 <= q < |t| && t[q] == y;
    var l := a + (s + t);
    assert l[|a| + p] == x && l[|a| + |s| + q] == y;
  }

  lemma {:induction false} StepsInto(es: seq<FileEntry>, dirs: seq<nat>, from: nat, k: nat)
    requires Indices(es, dirs) && from <= k < |dirs|
    ensures dirs[k] in Preorder(es, dirs, from)
    decreases k - from
  {
    if from < k {
      StepsInto(es, dirs, from + 1, k);
    }
  }

  /** Everything below a directory that is met is met. */
  lemma {:induction false} MeetsChildren(es: seq<FileEntry>, dirs: seq<nat>, from: nat, x: nat, c: nat)
    requires Indices(es, dirs) && from <= |dirs| && x in Preorder(es, dirs, from)
    requires c in ChildDirs(es, es[x].name)
    ensures c in Preorder(es, dirs, from)
    decreases Weight(es, dirs, from)
  {
    var kids := ChildDirs(es, es[dirs[from]].name);
    ChildrenLighter(es, es[dirs[from]].name);
    if x == dirs[from] {
      var k :| 0 <= k < |kids| && kids[k] == c;
      StepsInto(es, kids, 0, k);
    } else if x in Preorder(es, kids, 0) {
      MeetsChildren(es, kids, 0, x, c);
    } else {
      MeetsChildren(es, dirs, from + 1, x, c);
    }
  }

  /** A directory's children are met before its later siblings. */
  lemma {:induction false} ChildBeforeSibling(es: seq<FileEntry>, dirs: seq<nat>, from: nat, k: nat, l: nat, c: nat)
    requires Indices(es, dirs) && from <= k < l < |dirs| && c in ChildDirs(es, es[dirs[k]].name)
    ensures ComesBefore(Preorder(es, dirs, from), c, dirs[l])
    decreases k - from
  {
    var kids, head := ChildDirs(es, es[dirs[from]].name), [dirs[from]];
    if from < k {
      ChildBeforeSibling(es, dirs, from + 1, k, l, c);
      BeforeWithin(head, Preorder(es, dirs, from + 1), Preorder(es, kids, 0), c, dirs[l]);
    } else {
      var m :| 0 <= m < |kids| && kids[m] == c;
      StepsInto(es, kids, 0, m);
      StepsInto(es, dirs, from + 1, l);
      BeforeAcross(head, Preorder(es, kids, 0), Preorder(es, dirs, from + 1), c, dirs[l]);
    }
  }

  /** The same, anywhere below. */
  lemma {:induction false} ChildBeforeSiblingBelow(es: seq<FileEntry>, dirs: seq<nat>, from: nat, x: nat, k: nat,
                                                   l: nat, c: nat)
    requires Indices(es, dirs) && from <= |dirs| && x in Preorder(es, dirs, from)
    requires k < l < |ChildDirs(es, es[x].name)|
    requires c in ChildDirs(es, es[ChildDirs(es, es[x].name)[k]].name)
    ensures ComesBefore(Preorder(es, dirs, from), c, ChildDirs(es, es[x].name)[l])
    decreases Weight(es, dirs, from)
  {
    var kids, head, y := ChildDirs(es, es[dirs[from]].name), [dirs[from]], ChildDirs(es, es[x].name)[l];
    ChildrenLighter(es, es[dirs[from]].name);
    if x == dirs[from] {
      ChildBeforeSibling(es, kids, 0, k, l, c);
      BeforeWithin(head, Preorder(es, kids, 0), Preorder(es, dirs, from + 1), c, y);
    } else if x in Preorder(es, kids, 0) {
      ChildBeforeSiblingBelow(es, kids, 0, x, k, l, c);
      BeforeWithin(head, Preorder(es, kids, 0), Preorder(es, dirs, from + 1), c, y);
    } else {
      ChildBeforeSiblingBelow(es, dirs, from + 1, x, k, l, c);
      BeforeWithin(head, Preorder(es, dirs, from + 1), Preorder(es, kids, 0), c, y);
    }
  }

  // ---- The directories met ----

  lemma RootsExactly(es: seq<FileEntry>, i: nat)
    ensures i in Roots(es) <==> i in Directories(es) && es[i].Dirname() == None
  {
    UnderExactly(es, None, |es|);
    InDescended(es, Root(es), |Root(es)|, i);
  }

  lemma {:induction false} InDescended(es: seq<FileEntry>, s: seq<nat>, n: nat, i: nat)
    requires n <= |s| && Indices(es, s)
    ensures i in Descended(es, s, n) <==> i in s[..n] && i in Directories(es)
  {
    if n > 0 {
      InDescended(es, s, n - 1, i);
      assert s[..n] == s[..n - 1] + [s[n - 1]];
    }
  }

  lemma {:induction false} InDirs(es: seq<FileEntry>, s: seq<nat>, n: nat, i: nat)
    requires n <= |s| && Indices(es, s)
    ensures i in Dirs(es, s, n) <==> i in s[..n] && i < |es| && es[i].IsDir()
  {
    if n > 0 {
      InDirs(es, s, n - 1, i);
      assert s[..n] == s[..n - 1] + [s[n - 1]];
    }
  }

  lemma ChildDirsExactly(es: seq<FileEntry>, name: Name, i: nat)
    ensures i in ChildDirs(es, name) <==> i in Directories(es) && es[i].Dirname() == Some(name)
  {
    var kids := Children(es, name);
    InDirs(es, kids, |kids|, i);
    UnderExactly(es, Some(name), |es|);
    assert kids[..|kids|] == kids;
    if i < |es| {
      HasSlash(es, i);
    }
  }

  ghost predicate Ascends(s: seq<nat>) {
    forall p, q :: 0 <= p < q < |s| ==> s[p] < s[q]
  }

  ghost predicate Below(s: seq<nat>, bound: nat) {
    forall k :: 0 <= k < |s| ==> s[k] < bound
  }

  lemma AscendsOn(s: seq<nat>, x: nat, more: bool)
    requires Ascends(s) && Below(s, x)
    ensures Ascends(s + if more then [x] else []) && Below(s + if more then [x] else [], x + 1)
  {
  }

  lemma {:induction false} DirsAscend(es: seq<FileEntry>, s: seq<nat>, n: nat, bound: nat)
    requires n <= |s| && Indices(es, s) && Ascends(s) && Below(s[..n], bound)
    ensures Ascends(Dirs(es, s, n)) && Below(Dirs(es, s, n), bound)
  {
    if n > 0 {
      var x := s[n - 1];
      assert s[..n][n - 1] == x;
      DirsAscend(es, s, n - 1, x);
      AscendsOn(Dirs(es, s, n - 1), x, es[x].IsDir());
    }
  }

  lemma {:induction false} DescendedAscend(es: seq<FileEntry>, s: seq<nat>, n: nat, bound: nat)
    requires n <= |s| && Indices(es, s) && Ascends(s) && Below(s[..n], bound)
    ensures Ascends(Descended(es, s, n)) && Below(Descended(es, s, n), bound)
  {
    if n > 0 {
      var x := s[n - 1];
      assert s[..n][n - 1] == x;
      DescendedAscend(es, s, n - 1, x);
      AscendsOn(Descended(es, s, n - 1), x, es[x].IsDir() && es[x].name != [DOT]);
    }
  }

  lemma SiblingsAscend(es: seq<FileEntry>, name: Name)
    ensures Ascends(Roots(es)) && Ascends(ChildDirs(es, name))
  {
    UnderExactly(es, None, |es|);
    UnderExactly(es, Some(name), |es|);
    DescendedAscend(es, Root(es), |Root(es)|, |es|);
    DirsAscend(es, Children(es, name), |Children(es, name)|, |es|);
  }

  /** Depth first meets every directory, */
  lemma {:induction false} AllMet(es: seq<FileEntry>, i: nat)
    requires AllParented(es) && i in Directories(es)
    ensures i in DepthFirst(es)
    decreases |es[i].name|
  {
    assert Parented(es, i);
    if es[i].Dirname() == None {
      RootsExactly(es, i);
      var k :| 0 <= k < |Roots(es)| && Roots(es)[k] == i;
      StepsInto(es, Roots(es), 0, k);
    } else {
      var j: nat :| SoleParent(es, es[i].Dirname().value, j);
      AllMet(es, j);
      ChildDirsExactly(es, es[j].name, i);
      MeetsChildren(es, Roots(es), 0, j, i);
    }
  }

  /** and nothing else. */
  lemma {:induction false} OnlyDirectories(es: seq<FileEntry>, dirs: seq<nat>, from: nat)
    requires Indices(es, dirs) && from <= |dirs| && forall k :: 0 <= k < |dirs| ==> dirs[k] in Directories(es)
    ensures forall k :: 0 <= k < |Preorder(es, dirs, from)| ==> Preorder(es, dirs, from)[k] in Directories(es)
    decreases Weight(es, dirs, from)
  {
    if from < |dirs| {
      var kids := ChildDirs(es, es[dirs[from]].name);
      ChildrenLighter(es, es[dirs[from]].name);
      forall k | 0 <= k < |kids|
        ensures kids[k] in Directories(es)
      {
        ChildDirsExactly(es, es[dirs[from]].name, kids[k]);
      }
      OnlyDirectories(es, kids, 0);
      OnlyDirectories(es, dirs, from + 1);
    }
  }

  // ---- Depth along the breadth-first order ----

  /** The position whose children include element `k` of what the first `n` positions spawn. */
  ghost function Spawner(es: seq<FileEntry>, order: seq<nat>, n: nat, k: nat): (p: nat)
    requires n <= |order| && Indices(es, order) && k < |Spawned(es, order, n)|
    ensures p < n && Spawned(es, order, n)[k] in ChildDirs(es, es[order[p]].name)
  {
    if k < |Spawned(es, order, n - 1)| then Spawner(es, order, n - 1, k) else n - 1
  }

  lemma {:induction false} SpawnerMonotone(es: seq<FileEntry>, order: seq<nat>, n: nat, j: nat, k: nat)
    requires n <= |order| && Indices(es, order) && j < k < |Spawned(es, order, n)|
    ensures Spawner(es, order, n, j) <= Spawner(es, order, n, k)
    ensures Spawner(es, order, n, j) == Spawner(es, order, n, k) ==>
              Spawned(es, order, n)[j] < Spawned(es, order, n)[k]
  {
    if k < |Spawned(es, order, n - 1)| {
      SpawnerMonotone(es, order, n - 1, j, k);
    } else {
      SiblingsAscend(es, es[order[n - 1]].name);
    }
  }

  /** The directory at `p` is there as a child of another. */
  ghost predicate IsChild(es: seq<FileEntry>, order: seq<nat>, p: nat) {
    && Indices(es, order) && p < |order| && 0 <= p - |Roots(es)| < |Spawned(es, order, |order|)|
    && order[p] == Spawned(es, order, |order|)[p - |Roots(es)|]
  }

  lemma {:induction false} AfterRoots(es: seq<FileEntry>, order: seq<nat>, p: nat)
    requires BreadthFirst(es, order) && |Roots(es)| <= p < |order|
    ensures IsChild(es, order, p)
  {
  }

  /** Where the parent of the directory at `p` stands in the order. */
  ghost function ParentAt(es: seq<FileEntry>, order: seq<nat>, p: nat): (q: nat)
    requires IsChild(es, order, p)
    ensures q < |order| && order[p] in ChildDirs(es, es[order[q]].name)
  {
    Spawner(es, order, |order|, p - |Roots(es)|)
  }

  lemma {:induction false} ParentsInOrder(es: seq<FileEntry>, order: seq<nat>, p: nat, q: nat)
    requires IsChild(es, order, p) && IsChild(es, order, q) && p < q
    ensures ParentAt(es, order, p) <= ParentAt(es, order, q)
    ensures ParentAt(es, order, p) == ParentAt(es, order, q) ==> order[p] < order[q]
  {
    SpawnerMonotone(es, order, |order|, p - |Roots(es)|, q - |Roots(es)|);
  }

  lemma RootDepth(es: seq<FileEntry>, order: seq<nat>, p: nat)
    requires BreadthFirst(es, order) && p < |Roots(es)|
    ensures p < |order| && order[p] == Roots(es)[p] && Depth(es[order[p]]) == 0
  {
    RootsExactly(es, order[p]);
    DepthStep(es[order[p]]);
  }

  lemma ParentDepth(es: seq<FileEntry>, order: seq<nat>, p: nat)
    requires IsChild(es, order, p)
    ensures Depth(es[order[p]]) == Depth(es[order[ParentAt(es, order, p)]]) + 1
    ensures |es[order[ParentAt(es, order, p)]].name| < |es[order[p]].name|
  {
    ChildDir(es, es[order[ParentAt(es, order, p)]].name, order[p]);
    DepthStep(es[order[p]]);
  }

  /** A breadth-first order never goes up. */
  lemma {:induction false} DepthGrows(es: seq<FileEntry>, order: seq<nat>, p: nat, q: nat)
    requires BreadthFirst(es, order) && p <= q < |order|
    ensures Depth(es[order[p]]) <= Depth(es[order[q]])
    decreases |es[order[p]].name|
  {
    if p < |Roots(es)| {
      RootDepth(es, order, p);
    } else if p < q {
      AfterRoots(es, order, p);
      AfterRoots(es, order, q);
      ParentsInOrder(es, order, p, q);
      ParentDepth(es, order, p);
      ParentDepth(es, order, q);
      DepthGrows(es, order, ParentAt(es, order, p), ParentAt(es, order, q));
    }
  }

  // ---- When the two orders agree ----

  ghost predicate HasSubdirectory(es: seq<FileEntry>, i: nat)
    requires i < |es|
  {
    ChildDirs(es, es[i].name) != []
  }

  /** Of the directories at one depth, only the last may have directories below it. */
  ghost predicate OneBranch(es: seq<FileEntry>) {
    forall i, j ::
      i in Directories(es) && j in Directories(es) && Depth(es[i]) == Depth(es[j]) && HasSubdirectory(es, i)
      ==> j <= i
  }

  /** By depth, and by place in the list at one depth. */
  ghost predicate Before(es: seq<FileEntry>, i: nat, j: nat)
    requires i < |es| && j < |es|
  {
    Depth(es[i]) < Depth(es[j]) || (Depth(es[i]) == Depth(es[j]) && i < j)
  }

  ghost predicate ByDepth(es: seq<FileEntry>, s: seq<nat>)
    requires Indices(es, s)
  {
    forall p, q :: 0 <= p < q < |s| ==> Before(es, s[p], s[q])
  }

  lemma SomeGroups(es: seq<FileEntry>, order: seq<nat>) returns (groups: seq<Group>)
    requires Indices(es, order)
    ensures Grouped(es, groups, order, |order|)
  {
    groups := [Group(-1, Root(es))]
      + seq(|order|, k requires 0 <= k < |order| => Group(0, Children(es, es[order[k]].name)));
  }

  /** A breadth-first order holds every directory exactly once. */
  lemma EachOnce(es: seq<FileEntry>, order: seq<nat>)
    requires AllParented(es) && BreadthFirst(es, order)
    ensures Distinct(order) && forall i :: i in order <==> i in Directories(es)
  {
    var groups := SomeGroups(es, order);
    OncePerDirectory(es, groups, order);
  }

  lemma DeeperLater(es: seq<FileEntry>, order: seq<nat>, i: nat, j: nat)
    requires AllParented(es) && BreadthFirst(es, order) && i in Directories(es) && j in Directories(es)
    requires Depth(es[i]) < Depth(es[j])
    ensures ComesBefore(order, i, j)
  {
    EachOnce(es, order);
    assert i in order && j in order;
    var p :| 0 <= p < |order| && order[p] == i;
    var q :| 0 <= q < |order| && order[q] == j;
    if q <= p {
      DepthGrows(es, order, q, p);
    }
  }

  lemma OneDepthInListOrder(es: seq<FileEntry>, order: seq<nat>, p: nat, q: nat)
    requires AllParented(es) && BreadthFirst(es, order) && OneBranch(es) && p < q < |order|
    requires Depth(es[order[p]]) == Depth(es[order[q]])
    ensures order[p] < order[q]
  {
    var roots := |Roots(es)|;
    if q < roots {
      RootDepth(es, order, p);
      RootDepth(es, order, q);
      SiblingsAscend(es, []);
    } else if p < roots {
      RootDepth(es, order, p);
      AfterRoots(es, order, q);
      ParentDepth(es, order, q);
    } else {
      AfterRoots(es, order, p);
      AfterRoots(es, order, q);
      ParentsInOrder(es, order, p, q);
      ParentDepth(es, order, p);
      ParentDepth(es, order, q);
      var i, j := ParentAt(es, order, p), ParentAt(es, order, q);
      EachOnce(es, order);
      assert order[i] in order && order[j] in order;
      assert HasSubdirectory(es, order[i]) && HasSubdirectory(es, order[j]);
      assert order[i] == order[j];
    }
  }

  lemma BreadthByDepth(es: seq<FileEntry>, order: seq<nat>)
    requires AllParented(es) && BreadthFirst(es, order) && OneBranch(es)
    ensures ByDepth(es, order)
  {
    forall p, q | 0 <= p < q < |order|
      ensures Before(es, order[p], order[q])
    {
      DepthGrows(es, order, p, q);
      if Depth(es[order[p]]) == Depth(es[order[q]]) {
        OneDepthInListOrder(es, order, p, q);
      }
    }
  }

  /** Directories at one depth, in the order of the list. */
  ghost predicate OneLevel(es: seq<FileEntry>, dirs: seq<nat>, depth: nat) {
    Ascends(dirs) && forall k :: 0 <= k < |dirs| ==> dirs[k] in Directories(es) && Depth(es[dirs[k]]) == depth
  }

  lemma LevelBelow(es: seq<FileEntry>, i: nat)
    requires i < |es|
    ensures OneLevel(es, ChildDirs(es, es[i].name), Depth(es[i]) + 1)
  {
    var kids := ChildDirs(es, es[i].name);
    SiblingsAscend(es, es[i].name);
    forall k | 0 <= k < |kids|
      ensures kids[k] in Directories(es) && Depth(es[kids[k]]) == Depth(es[i]) + 1
    {
      ChildDirsExactly(es, es[i].name, kids[k]);
      DepthStep(es[kids[k]]);
    }
  }

  lemma RootLevel(es: seq<FileEntry>)
    ensures OneLevel(es, Roots(es), 0)
  {
    SiblingsAscend(es, []);
    forall k | 0 <= k < |Roots(es)|
      ensures Roots(es)[k] in Directories(es) && Depth(es[Roots(es)[k]]) == 0
    {
      RootsExactly(es, Roots(es)[k]);
      DepthStep(es[Roots(es)[k]]);
    }
  }

  ghost predicate NoneBefore(es: seq<FileEntry>, s: seq<nat>, i: nat)
    requires Indices(es, s) && i < |es|
  {
    forall k :: 0 <= k < |s| ==> s[k] == i || Before(es, i, s[k])
  }

  lemma FirstOf(es: seq<FileEntry>, i: nat, j: nat, s: seq<nat>)
    requires i < |es| && j < |es| && Indices(es, s) && Before(es, i, j) && NoneBefore(es, s, j) && ByDepth(es, s)
    ensures ByDepth(es, [i] + s) && NoneBefore(es, [i] + s, i)
  {
  }

  /** Without a branch to come back from, what follows a directory is what is below it or its siblings. */
  lemma PreorderOneBranch(es: seq<FileEntry>, dirs: seq<nat>, from: nat, depth: nat)
    requires OneBranch(es) && Indices(es, dirs) && from < |dirs| && OneLevel(es, dirs, depth)
    ensures var kids := ChildDirs(es, es[dirs[from]].name);
            Preorder(es, dirs, from)
            == [dirs[from]] + if kids == [] then Preorder(es, dirs, from + 1) else Preorder(es, kids, 0)
    ensures HasSubdirectory(es, dirs[from]) ==> from + 1 == |dirs|
  {
    var kids := ChildDirs(es, es[dirs[from]].name);
    var below, more := Preorder(es, kids, 0), Preorder(es, dirs, from + 1);
    if kids != [] {
      assert HasSubdirectory(es, dirs[from]);
      assert from + 1 == |dirs|;
      assert below + more == below;
    } else {
      assert below + more == more;
    }
  }

  lemma {:induction false} PreorderByDepth(es: seq<FileEntry>, dirs: seq<nat>, from: nat, depth: nat)
    requires OneBranch(es) && Indices(es, dirs) && from <= |dirs| && OneLevel(es, dirs, depth)
    ensures ByDepth(es, Preorder(es, dirs, from))
    ensures from < |dirs| ==> NoneBefore(es, Preorder(es, dirs, from), dirs[from])
    decreases Weight(es, dirs, from)
  {
    if from < |dirs| {
      var i := dirs[from];
      var kids := ChildDirs(es, es[i].name);
      PreorderOneBranch(es, dirs, from, depth);
      if kids != [] {
        ChildrenLighter(es, es[i].name);
        LevelBelow(es, i);
        PreorderByDepth(es, kids, 0, depth + 1);
        FirstOf(es, i, kids[0], Preorder(es, kids, 0));
      } else {
        PreorderByDepth(es, dirs, from + 1, depth);
        if from + 1 < |dirs| {
          FirstOf(es, i, dirs[from + 1], Preorder(es, dirs, from + 1));
        }
      }
    }
  }

  lemma NotEmpty(s: seq<nat>)
    requires s != []
    ensures exists x :: x in s
  {
    assert s[0] in s;
  }

  lemma {:induction false} SameSequence(es: seq<FileEntry>, a: seq<nat>, b: seq<nat>)
    requires Indices(es, a) && Indices(es, b) && ByDepth(es, a) && ByDepth(es, b)
    requires forall x :: x in a <==> x in b
    ensures a == b
  {
    if a == [] {
      if b != [] {
        NotEmpty(b);
      }
    } else {
      assert a[0] in b && b != [] && b[0] in a;
      var p :| 0 <= p < |b| && b[p] == a[0];
      var q :| 0 <= q < |a| && a[q] == b[0];
      assert p == 0;
      forall x
        ensures x in a[1..] <==> x in b[1..]
      {
        TailMember(es, a, x);
        TailMember(es, b, x);
      }
      SameSequence(es, a[1..], b[1..]);
      assert a == [a[0]] + a[1..] && b == [b[0]] + b[1..];
    }
  }

  lemma TailMember(es: seq<FileEntry>, s: seq<nat>, x: nat)
    requires s != [] && Indices(es, s) && ByDepth(es, s)
    ensures x in s[1..] <==> x in s && x != s[0]
  {
    if x in s && x != s[0] {
      var p :| 0 <= p < |s| && s[p] == x;
      assert s[1..][p - 1] == x;
    }
  }

  lemma DepthFirstMeets(es: seq<FileEntry>, i: nat)
    requires AllParented(es)
    ensures i in DepthFirst(es) <==> i in Directories(es)
  {
    RootLevel(es);
    OnlyDirectories(es, Roots(es), 0);
    if i in Directories(es) {
      AllMet(es, i);
    }
  }

  lemma BranchSuffices(es: seq<FileEntry>, order: seq<nat>)
    requires AllParented(es) && BreadthFirst(es, order) && OneBranch(es)
    ensures order == DepthFirst(es)
  {
    BreadthByDepth(es, order);
    RootLevel(es);
    PreorderByDepth(es, Roots(es), 0, 0);
    EachOnce(es, order);
    forall i
      ensures i in order <==> i in DepthFirst(es)
    {
      DepthFirstMeets(es, i);
    }
    SameSequence(es, order, DepthFirst(es));
  }

  /** Two directories at one depth of which the earlier branches lead up to two siblings of that kind. */
  lemma {:induction false} BranchingSiblings(es: seq<FileEntry>, i: nat, j: nat) returns (i': nat, j': nat)
    requires AllParented(es) && i in Directories(es) && j in Directories(es) && i < j
    requires Depth(es[i]) == Depth(es[j]) && HasSubdirectory(es, i)
    ensures i' in Directories(es) && j' in Directories(es) && i' < j'
    ensures es[i'].Dirname() == es[j'].Dirname() && HasSubdirectory(es, i')
    decreases |es[i].name| + |es[j].name|
  {
    DepthStep(es[i]);
    DepthStep(es[j]);
    if es[i].Dirname() == es[j].Dirname() {
      return i, j;
    }
    assert Parented(es, i) && Parented(es, j);
    var p: nat :| SoleParent(es, es[i].Dirname().value, p);
    var q: nat :| SoleParent(es, es[j].Dirname().value, q);
    ChildDirsExactly(es, es[p].name, i);
    ChildDirsExactly(es, es[q].name, j);
    assert HasSubdirectory(es, p) && HasSubdirectory(es, q);
    if p < q {
      i', j' := BranchingSiblings(es, p, q);
    } else {
      i', j' := BranchingSiblings(es, q, p);
    }
  }

  /** Depth first goes below the first of two siblings before it comes to the second. */
  lemma SiblingWaits(es: seq<FileEntry>, i: nat, j: nat) returns (c: nat)
    requires AllParented(es) && i in Directories(es) && j in Directories(es) && i < j
    requires es[i].Dirname() == es[j].Dirname() && HasSubdirectory(es, i)
    ensures c in ChildDirs(es, es[i].name) && ComesBefore(DepthFirst(es), c, j)
  {
    c := ChildDirs(es, es[i].name)[0];
    if es[i].Dirname() == None {
      RootsExactly(es, i);
      RootsExactly(es, j);
      var k :| 0 <= k < |Roots(es)| && Roots(es)[k] == i;
      var l :| 0 <= l < |Roots(es)| && Roots(es)[l] == j;
      RootLevel(es);
      ChildBeforeSibling(es, Roots(es), 0, k, l, c);
    } else {
      var d := es[i].Dirname().value;
      assert Parented(es, i);
      var x: nat :| SoleParent(es, d, x);
      ChildDirsExactly(es, d, i);
      ChildDirsExactly(es, d, j);
      var k :| 0 <= k < |ChildDirs(es, d)| && ChildDirs(es, d)[k] == i;
      var l :| 0 <= l < |ChildDirs(es, d)| && ChildDirs(es, d)[l] == j;
      SiblingsAscend(es, d);
      AllMet(es, x);
      ChildBeforeSiblingBelow(es, Roots(es), 0, x, k, l, c);
    }
  }

  lemma BranchNeeded(es: seq<FileEntry>, order: seq<nat>, i: nat, j: nat)
    requires AllParented(es) && BreadthFirst(es, order) && order == DepthFirst(es)
    requires i in Directories(es) && j in Directories(es) && Depth(es[i]) == Depth(es[j]) && HasSubdirectory(es, i)
    ensures j <= i
  {
    if i < j {
      var i', j' := BranchingSiblings(es, i, j);
      var c := SiblingWaits(es, i', j');
      var p, q :| 0 <= p < q < |order| && order[p] == c && order[q] == j';
      DepthGrows(es, order, p, q);
      ChildDir(es, es[i'].name, c);
      DepthStep(es[c]);
      DepthStep(es[i']);
      DepthStep(es[j']);
      assert false;
    }
  }

  /**
   * Directories are descended into in depth-first order if and only if, of the directories at any
   * one depth, only the last in the list has directories below it.
   */
  lemma DepthFirstExactly(es: seq<FileEntry>, order: seq<nat>)
    requires AllParented(es) && BreadthFirst(es, order)
    ensures order == DepthFirst(es) <==> OneBranch(es)
  {
    if OneBranch(es) {
      BranchSuffices(es, order);
    }
    if order == DepthFirst(es) {
      forall i, j | i in Directories(es) && j in Directories(es) && Depth(es[i]) == Depth(es[j])
          && HasSubdirectory(es, i)
        ensures j <= i
      {
        BranchNeeded(es, order, i, j);
      }
    }
  }
}
