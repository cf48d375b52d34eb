/**
 * Traversal of sorted lists: depth first is the order of the list itself, and the groups follow it
 * exactly when no directory of the list is less deep than one before it.
 */
module SortedTraversal {
  import opened Bytes
  import opened SortOrder
  import opened CanonicalOrder
  import opened DirectoryTree
  import opened DirectoryGroups
  import opened FileIndex
  import opened TraversalOrder

  /** No directory but the root is called ".". */
  ghost predicate ProperDirectories(es: seq<FileEntry>) {
    forall i :: i in Directories(es) ==> Proper(es[i])
  }

  ghost predicate Inside(es: seq<FileEntry>, i: nat, x: nat) {
    i in Directories(es) && x in Directories(es) && es[i].name + [SLASH] <= es[x].name
  }

  lemma InsideDeeper(es: seq<FileEntry>, i: nat, x: nat)
    requires Inside(es, i, x)
    ensures Depth(es[x]) > Depth(es[i])
  {
    var a, b := es[i].name + [SLASH], es[x].name[|es[i].name| + 1..];
    assert es[x].name == a + b;
    SlashesAppend(a, b);
    SlashesAppend(es[i].name, [SLASH]);
    assert [SLASH][..0] == [];
  }

  lemma InsideTransitive(es: seq<FileEntry>, i: nat, j: nat, x: nat)
    requires Inside(es, i, j) && Inside(es, j, x)
    ensures Inside(es, i, x)
  {
    assert es[x].name[..|es[i].name| + 1] == es[j].name[..|es[i].name| + 1];
  }

  lemma ChildInside(es: seq<FileEntry>, i: nat, c: nat)
    requires i in Directories(es) && c in ChildDirs(es, es[i].name)
    ensures Inside(es, i, c)
  {
    ChildDirsExactly(es, es[i].name, c);
    var k := es[c].BaseStart();
    assert es[c].name[..k] == es[c].name[..k - 1] + [SLASH];
  }

  /** Two directories at one depth: all of the first's subtree comes before the second. */
  lemma InsideFirst(es: seq<FileEntry>, i: nat, j: nat, x: nat)
    requires Sorted(es) && ProperDirectories(es) && Inside(es, i, x) && j in Directories(es)
    requires i < j && Depth(es[i]) == Depth(es[j]) && es[i].name != es[j].name
    ensures i < x < j
  {
    InsideDeeper(es, i, x);
    DirectoryFirst(es, i, x);
    if j < x {
      SubtreeContiguous(es, es[i], i, j, x);
      assert Inside(es, i, j);
      InsideDeeper(es, i, j);
    }
  }

  lemma SoleName(es: seq<FileEntry>, i: nat, j: nat)
    requires AllParented(es) && i in Directories(es) && j in Directories(es) && i != j && HasSubdirectory(es, i)
    ensures es[i].name != es[j].name
  {
    var c := ChildDirs(es, es[i].name)[0];
    ChildDirsExactly(es, es[i].name, c);
    assert Parented(es, c);
    var k: nat :| SoleParent(es, es[i].name, k);
    assert Parent(es, es[i].name, i);
    assert es[j].name == es[i].name ==> Parent(es, es[i].name, j);
  }

  /** `x` is one of the directories from `from` on, or inside one. */
  ghost predicate Within(es: seq<FileEntry>, dirs: seq<nat>, from: nat, x: nat) {
    exists k :: from <= k < |dirs| && (x == dirs[k] || Inside(es, dirs[k], x))
  }

  ghost predicate AllWithin(es: seq<FileEntry>, dirs: seq<nat>, from: nat, s: seq<nat>) {
    forall p :: 0 <= p < |s| ==> Within(es, dirs, from, s[p])
  }

  lemma BelowInside(es: seq<FileEntry>, i: nat, x: nat)
    requires i in Directories(es) && Within(es, ChildDirs(es, es[i].name), 0, x)
    ensures Inside(es, i, x)
  {
    var kids := ChildDirs(es, es[i].name);
    var k :| 0 <= k < |kids| && (x == kids[k] || Inside(es, kids[k], x));
    ChildInside(es, i, kids[k]);
    if x != kids[k] {
      InsideTransitive(es, i, kids[k], x);
    }
  }

  lemma LaterWithin(es: seq<FileEntry>, dirs: seq<nat>, from: nat, depth: nat, x: nat, y: nat)
    requires Sorted(es) && ProperDirectories(es) && AllParented(es) && OneLevel(es, dirs, depth) && from < |dirs|
    requires Within(es, dirs, from + 1, y)
    requires x == dirs[from] || Within(es, ChildDirs(es, es[dirs[from]].name), 0, x)
    ensures x < y
  {
    var i := dirs[from];
    var k :| from + 1 <= k < |dirs| && (y == dirs[k] || Inside(es, dirs[k], y));
    if y != dirs[k] {
      InsideDeeper(es, dirs[k], y);
      DirectoryFirst(es, dirs[k], y);
    }
    if x != i {
      BelowInside(es, i, x);
      SoleName(es, i, dirs[k]);
      InsideFirst(es, i, dirs[k], x);
    }
  }

  lemma JoinAscending(i: nat, a: seq<nat>, b: seq<nat>)
    requires Ascends(a) && Ascends(b)
    requires forall p :: 0 <= p < |a| ==> i < a[p]
    requires forall q :: 0 <= q < |b| ==> i < b[q]
    requires forall p, q :: 0 <= p < |a| && 0 <= q < |b| ==> a[p] < b[q]
    ensures Ascends([i] + (a + b))
  {
  }

  lemma JoinWithin(es: seq<FileEntry>, dirs: seq<nat>, from: nat, below: seq<nat>, more: seq<nat>)
    requires from < |dirs| && dirs[from] in Directories(es)
    requires AllWithin(es, ChildDirs(es, es[dirs[from]].name), 0, below) && AllWithin(es, dirs, from + 1, more)
    ensures AllWithin(es, dirs, from, [dirs[from]] + (below + more))
  {
    var s := [dirs[from]] + (below + more);
    forall p | 0 <= p < |s|
      ensures Within(es, dirs, from, s[p])
    {
      if 1 <= p <= |below| {
        assert s[p] == below[p - 1];
        BelowInside(es, dirs[from], s[p]);
      } else if p > |below| {
        assert s[p] == more[p - 1 - |below|];
        var k :| from + 1 <= k < |dirs| && (s[p] == dirs[k] || Inside(es, dirs[k], s[p]));
      }
    }
  }

  lemma {:induction false} PreorderAscends(es: seq<FileEntry>, dirs: seq<nat>, from: nat, depth: nat)
    requires Sorted(es) && ProperDirectories(es) && AllParented(es)
    requires Indices(es, dirs) && OneLevel(es, dirs, depth) && from <= |dirs|
    ensures Ascends(Preorder(es, dirs, from)) && AllWithin(es, dirs, from, Preorder(es, dirs, from))
    decreases Weight(es, dirs, from)
  {
    if from < |dirs| {
      var i := dirs[from];
      var kids := ChildDirs(es, es[i].name);
      ChildrenLighter(es, es[i].name);
      LevelBelow(es, i);
      PreorderAscends(es, kids, 0, depth + 1);
      PreorderAscends(es, dirs, from + 1, depth);
      PreorderJoins(es, dirs, from, depth, Preorder(es, kids, 0), Preorder(es, dirs, from + 1));
    }
  }

  lemma PreorderJoins(es: seq<FileEntry>, dirs: seq<nat>, from: nat, depth: nat, below: seq<nat>, more: seq<nat>)
    requires Sorted(es) && ProperDirectories(es) && AllParented(es)
    requires Indices(es, dirs) && OneLevel(es, dirs, depth) && from < |dirs|
    requires Ascends(below) && AllWithin(es, ChildDirs(es, es[dirs[from]].name), 0, below)
    requires Ascends(more) && AllWithin(es, dirs, from + 1, more)
    ensures Ascends([dirs[from]] + (below + more)) && AllWithin(es, dirs, from, [dirs[from]] + (below + more))
  {
    var i := dirs[from];
    forall p | 0 <= p < |below|
      ensures i < below[p]
    {
      BelowInside(es, i, below[p]);
      InsideDeeper(es, i, below[p]);
      DirectoryFirst(es, i, below[p]);
    }
    forall q | 0 <= q < |more|
      ensures i < more[q]
    {
      LaterWithin(es, dirs, from, depth, i, more[q]);
    }
    forall p, q | 0 <= p < |below| && 0 <= q < |more|
      ensures below[p] < more[q]
    {
      LaterWithin(es, dirs, from, depth, below[p], more[q]);
    }
    JoinAscending(i, below, more);
    JoinWithin(es, dirs, from, below, more);
  }

  /** In a sorted list, depth first is the order of the list. */
  lemma ListIsDepthFirst(es: seq<FileEntry>)
    requires Sorted(es) && ProperDirectories(es) && AllParented(es)
    ensures Ascends(DepthFirst(es)) && forall i :: i in DepthFirst(es) <==> i in Directories(es)
  {
    RootLevel(es);
    PreorderAscends(es, Roots(es), 0, 0);
    forall i
      ensures i in DepthFirst(es) <==> i in Directories(es)
    {
      DepthFirstMeets(es, i);
    }
  }

  /** No directory of the list is less deep than one before it. */
  ghost predicate NeverUp(es: seq<FileEntry>) {
    forall i, j :: i in Directories(es) && j in Directories(es) && i < j ==> Depth(es[i]) <= Depth(es[j])
  }

  lemma NeverUpBranches(es: seq<FileEntry>)
    requires Sorted(es) && ProperDirectories(es) && AllParented(es) && NeverUp(es)
    ensures OneBranch(es)
  {
    forall i, j | i in Directories(es) && j in Directories(es) && Depth(es[i]) == Depth(es[j])
        && HasSubdirectory(es, i)
      ensures j <= i
    {
      if i < j {
        var c := ChildDirs(es, es[i].name)[0];
        ChildInside(es, i, c);
        InsideDeeper(es, i, c);
        SoleName(es, i, j);
        InsideFirst(es, i, j, c);
        assert false;
      }
    }
  }

  lemma AscendingPlaces(s: seq<nat>, i: nat, j: nat) returns (p: nat, q: nat)
    requires Ascends(s) && i in s && j in s && i < j
    ensures p < q < |s| && s[p] == i && s[q] == j
  {
    p :| 0 <= p < |s| && s[p] == i;
    q :| 0 <= q < |s| && s[q] == j;
  }

  /**
   * In a sorted list, directories are descended into in the order of the list if and only if no
   * directory of the list is less deep than one before it.
   */
  lemma InListOrder(es: seq<FileEntry>, order: seq<nat>)
    requires Sorted(es) && ProperDirectories(es) && AllParented(es) && BreadthFirst(es, order)
    ensures Ascends(order) <==> NeverUp(es)
  {
    EachOnce(es, order);
    if Ascends(order) {
      forall i, j | i in Directories(es) && j in Directories(es) && i < j
        ensures Depth(es[i]) <= Depth(es[j])
      {
        var p, q := AscendingPlaces(order, i, j);
        DepthGrows(es, order, p, q);
      }
    }
    if NeverUp(es) {
      NeverUpBranches(es);
      BranchSuffices(es, order);
      ListIsDepthFirst(es);
    }
  }

  /** Directories "a", "a/b" and "c". */
  ghost function LateList(): seq<FileEntry> {
    [FileEntry([0x61], Directory, 0), FileEntry([0x61, SLASH, 0x62], Directory, 0), FileEntry([0x63], Directory, 0)]
  }

  lemma LateNames()
    ensures var es := LateList();
            && es[0].Dirname() == None && es[1].Dirname() == Some([0x61]) && es[2].Dirname() == None
            && es[0].BaseStart() == 0 && es[1].BaseStart() == 2 && es[2].BaseStart() == 0
  {
    var es := LateList();
    assert es[0].name[0] != SLASH && es[2].name[0] != SLASH;
    assert es[1].name[1] == SLASH && es[1].name[2] != SLASH && es[1].name[0] != SLASH;
    assert es[1].BaseStart() == 2;
    assert es[1].name[..1] == [0x61];
  }

  lemma NamedKey(e: FileEntry)
    requires Named(e)
    ensures Key(e) == Typed(true, e.name + [SLASH])
  {
    assert Typed(false, []) == [];
  }

  lemma ByFirstByte(a: FileEntry, b: FileEntry)
    requires Named(a) && Named(b) && a.name != [] && b.name != [] && a.name[0] < b.name[0]
    ensures AtMost(a, b)
  {
    NamedKey(a);
    NamedKey(b);
    assert Key(a)[0] == Sym(true, a.name[0]) && Key(b)[0] == Sym(true, b.name[0]);
  }

  lemma ParentAtMost(d: FileEntry, e: FileEntry)
    requires Named(d) && Named(e) && d.name + [SLASH] <= e.name
    ensures AtMost(d, e)
  {
    SubtreeByKey(e, d);
    CompareEqual(Key(d), Key(e));
    if Key(d) != Key(e) {
      PrefixFirst(Key(d), Key(e));
    }
  }

  lemma LateNamed()
    ensures forall k :: 0 <= k < 3 ==> Named(LateList()[k])
  {
    var es := LateList();
    LateNames();
    assert es[0].Basename() == [0x61] && es[1].Basename() == [0x62] && es[2].Basename() == [0x63];
  }

  lemma LateSorted()
    ensures Sorted(LateList()) && ProperDirectories(LateList())
  {
    var es := LateList();
    LateNamed();
    ParentAtMost(es[0], es[1]);
    ByFirstByte(es[0], es[2]);
    ByFirstByte(es[1], es[2]);
  }

  lemma LateParented()
    ensures AllParented(LateList())
  {
    LateNames();
    assert SoleParent(LateList(), [0x61], 0);
  }

  lemma LateDirectories()
    ensures var es := LateList();
            && 0 in Directories(es) && 1 in Directories(es) && 2 in Directories(es)
            && Depth(es[1]) == 1 && Depth(es[2]) == 0
            && HasSubdirectory(es, 0) && forall c :: c in ChildDirs(es, es[0].name) <==> c == 1
  {
    var es := LateList();
    LateNames();
    DepthStep(es[1]);
    DepthStep(es[2]);
    NoSlashes(es[0].name);
    forall c
      ensures c in ChildDirs(es, es[0].name) <==> c == 1
    {
      ChildDirsExactly(es, es[0].name, c);
    }
    assert 1 in ChildDirs(es, es[0].name);
  }

  /** "c" is descended into before "a/b", which depth first would meet before it. */
  lemma DescendsLate(order: seq<nat>)
    requires BreadthFirst(LateList(), order)
    ensures Sorted(LateList()) && ProperDirectories(LateList()) && AllParented(LateList())
    ensures ComesBefore(order, 2, 1) && ComesBefore(DepthFirst(LateList()), 1, 2)
  {
    LateNames();
    LateSorted();
    LateParented();
    LateDirectories();
    DeeperLater(LateList(), order, 2, 1);
    var c := SiblingWaits(LateList(), 0, 2);
  }
}
