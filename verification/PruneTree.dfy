/**
 * Pruning of empty directories in an ideal file tree: paths are lists of names, the tree says which
 * paths exist and which of them are directories.
 */
module PruneTree {
  type Path = seq<nat>
  type Tree = map<Path, bool>

  /** Every path but the top has a directory above it. */
  ghost predicate WellFormed(tree: Tree) {
    forall p {:trigger Hung(tree, p)} :: p in tree ==> Hung(tree, p)
  }

  ghost predicate Hung(tree: Tree, p: Path) {
    p != [] ==> p[..|p| - 1] in tree && tree[p[..|p| - 1]]
  }

  function Children(tree: Tree, dir: Path): (c: set<Path>)
    ensures forall p :: p in c <==> p in tree && |p| == |dir| + 1 && dir <= p
  {
    set p | p in tree && |p| == |dir| + 1 && dir <= p
  }

  ghost predicate HasFile(tree: Tree, dir: Path) {
    exists p :: p in tree && dir <= p && !tree[p]
  }

  ghost predicate IsEmpty(tree: Tree, dir: Path) {
    Children(tree, dir) == {}
  }

  /** A directory that a run removes, or a dry run counts. */
  ghost predicate Target(tree: Tree, root: Path, dry: bool, d: Path) {
    d in tree && tree[d] && d != root && if dry then IsEmpty(tree, d) else !HasFile(tree, d)
  }

  /** The targets at or below `dir`. */
  ghost function Targets(tree: Tree, root: Path, dry: bool, dir: Path): (s: set<Path>)
    ensures forall d :: d in s <==> dir <= d && Target(tree, root, dry, d)
  {
    set d | d in tree && dir <= d && Target(tree, root, dry, d)
  }

  /** The targets at or below one of `dirs`. */
  ghost function TargetsOf(tree: Tree, root: Path, dry: bool, dirs: seq<Path>): (s: set<Path>)
  {
    if dirs == [] then {}
    else TargetsOf(tree, root, dry, dirs[..|dirs| - 1]) + Targets(tree, root, dry, dirs[|dirs| - 1])
  }

  ghost function Below(tree: Tree, dir: Path): set<Path>
  {
    set p | p in tree && dir < p
  }

  class FileSystem {
    var tree: Tree

    constructor (tree: Tree)
      ensures this.tree == tree
    {
      this.tree := tree;
    }

    /** The entries of a directory, each once, in any order. */
    method ReadDir(dir: Path) returns (entries: seq<Path>)
      ensures forall p :: p in entries <==> p in Children(tree, dir)
      ensures forall i, j :: 0 <= i < j < |entries| ==> entries[i] != entries[j]
    {
      var rest := Children(tree, dir);
      entries := [];
      while rest != {}
        invariant forall p :: p in Children(tree, dir) <==> p in rest || p in entries
        invariant forall p :: p in entries ==> p !in rest
        invariant forall i, j :: 0 <= i < j < |entries| ==> entries[i] != entries[j]
        decreases |rest|
      {
        var p :| p in rest;
        rest := rest - {p};
        entries := entries + [p];
      }
    }

    /** Removes a directory if it is empty. */
    method RemoveDir(dir: Path)
      modifies this
      ensures tree == if dir in old(tree) && old(tree)[dir] && Children(old(tree), dir) == {} then old(tree) - {dir}
                      else old(tree)
    {
      if dir in tree && tree[dir] && Children(tree, dir) == {} {
        tree := tree - {dir};
      }
    }
  }

  // ---- Paths ----

  lemma ChildOnTheWay(tree: Tree, dir: Path, p: Path)
    requires WellFormed(tree) && p in tree && dir < p
    ensures p[..|dir| + 1] in Children(tree, dir)
    decreases |p|
  {
    assert Hung(tree, p);
    if |p| > |dir| + 1 {
      var q := p[..|p| - 1];
      ChildOnTheWay(tree, dir, q);
      assert q[..|dir| + 1] == p[..|dir| + 1];
    } else {
      assert p[..|dir| + 1] == p;
    }
  }

  lemma SiblingsApart(a: Path, b: Path, p: Path)
    requires |a| == |b| && a <= p && b <= p
    ensures a == b
  {
    assert a == p[..|a|] && b == p[..|b|];
  }

  lemma PrefixThrough(a: Path, b: Path, p: Path)
    requires a <= b && b <= p
    ensures a <= p
  {
    assert a == b[..|a|] == p[..|a|];
  }

  lemma {:induction false} AncestorIsDir(tree: Tree, dir: Path, p: Path)
    requires WellFormed(tree) && p in tree && dir < p
    ensures dir in tree && tree[dir]
    decreases |p|
  {
    assert Hung(tree, p);
    var q := p[..|p| - 1];
    if |q| > |dir| {
      AncestorIsDir(tree, dir, q);
    } else {
      assert q == dir;
    }
  }

  /** Nothing lies below what is not a directory. */
  lemma NoTargets(tree: Tree, root: Path, dry: bool, p: Path)
    requires WellFormed(tree) && (p !in tree || !tree[p])
    ensures Targets(tree, root, dry, p) == {}
  {
    forall d | d in Targets(tree, root, dry, p)
      ensures false
    {
      assert |p| == |d| ==> p == d;
      if |p| < |d| {
        AncestorIsDir(tree, p, d);
      }
    }
  }

  lemma FileStays(tree: Tree, root: Path, dir: Path, kids: seq<Path>, f: Path)
    requires WellFormed(tree) && dir in tree && tree[dir] && f in tree && dir <= f && !tree[f]
    ensures |f| > |dir| && f[..|dir| + 1] in Children(tree - TargetsOf(tree, root, false, kids), dir)
  {
    assert dir != f;
    ChildOnTheWay(tree, dir, f);
    var c := f[..|dir| + 1];
    assert HasFile(tree, c);
    NotTarget(tree, root, kids, c);
  }

  lemma NothingStays(tree: Tree, root: Path, dir: Path, kids: seq<Path>, c: Path)
    requires root <= dir && !HasFile(tree, dir) && c in kids && c in Children(tree, dir)
    ensures c in TargetsOf(tree, root, false, kids)
  {
    assert tree[c] && !HasFile(tree, c);
    var k :| 0 <= k < |kids| && kids[k] == c;
    TargetIn(tree, root, false, kids, k, c);
  }

  /** When the directories below `dir` have been pruned, nothing is left in it exactly when there were no files. */
  lemma LeftEmpty(tree: Tree, root: Path, dir: Path, kids: seq<Path>)
    requires WellFormed(tree) && dir in tree && tree[dir] && root <= dir
    requires forall p :: p in Children(tree, dir) ==> p in kids
    ensures Children(tree - TargetsOf(tree, root, false, kids), dir) == {} <==> !HasFile(tree, dir)
  {
    if HasFile(tree, dir) {
      var f :| f in tree && dir <= f && !tree[f];
      FileStays(tree, root, dir, kids, f);
    } else {
      forall c | c in Children(tree, dir)
        ensures c in TargetsOf(tree, root, false, kids)
      {
        NothingStays(tree, root, dir, kids, c);
      }
    }
  }

  lemma {:induction false} NotTarget(tree: Tree, root: Path, kids: seq<Path>, c: Path)
    requires HasFile(tree, c)
    ensures c !in TargetsOf(tree, root, false, kids)
    decreases |kids|
  {
    if kids != [] {
      NotTarget(tree, root, kids[..|kids| - 1], c);
    }
  }

  lemma {:induction false} TargetIn(tree: Tree, root: Path, dry: bool, kids: seq<Path>, k: nat, d: Path)
    requires k < |kids| && kids[k] <= d && Target(tree, root, dry, d)
    ensures d in TargetsOf(tree, root, dry, kids)
    decreases |kids|
  {
    if k < |kids| - 1 {
      TargetIn(tree, root, dry, kids[..|kids| - 1], k, d);
    }
  }

  lemma {:induction false} TargetFrom(tree: Tree, root: Path, dry: bool, kids: seq<Path>, d: Path) returns (k: nat)
    requires d in TargetsOf(tree, root, dry, kids)
    ensures k < |kids| && kids[k] <= d && Target(tree, root, dry, d)
    decreases |kids|
  {
    if d in Targets(tree, root, dry, kids[|kids| - 1]) {
      k := |kids| - 1;
    } else {
      k := TargetFrom(tree, root, dry, kids[..|kids| - 1], d);
    }
  }

  /** Targets come in whole subtrees: what lies below one is one. */
  lemma BelowTarget(tree: Tree, root: Path, q: Path, p: Path)
    requires Target(tree, root, false, q) && p in tree && q <= p && root <= q
    ensures Target(tree, root, false, p)
  {
    if HasFile(tree, p) {
      var f :| f in tree && p <= f && !tree[f];
      PrefixThrough(q, p, f);
    }
  }

  /** The tree with the targets below some children of `dir` gone. */
  ghost function Left(tree: Tree, root: Path, dry: bool, kids: seq<Path>): Tree {
    if dry then tree else tree - TargetsOf(tree, root, dry, kids)
  }

  lemma LeftWellFormed(tree: Tree, root: Path, dry: bool, dir: Path, kids: seq<Path>)
    requires WellFormed(tree) && root <= dir && forall p :: p in kids ==> p in Children(tree, dir)
    ensures WellFormed(Left(tree, root, dry, kids))
  {
    var left := Left(tree, root, dry, kids);
    forall p | p in left
      ensures Hung(left, p)
    {
      assert Hung(tree, p);
      var q := if p == [] then p else p[..|p| - 1];
      if !dry && p != [] && q in TargetsOf(tree, root, dry, kids) {
        var k := TargetFrom(tree, root, dry, kids, q);
        assert kids[k] in kids;
        PrefixThrough(root, dir, kids[k]);
        PrefixThrough(root, kids[k], q);
        BelowTarget(tree, root, q, p);
        PrefixThrough(kids[k], q, p);
        TargetIn(tree, root, dry, kids, k, p);
      }
    }
  }

  /** Pruning below its siblings leaves a child's subtree as it was. */
  lemma SubtreeKept(tree: Tree, root: Path, dry: bool, dir: Path, kids: seq<Path>, c: Path, p: Path)
    requires forall k :: 0 <= k < |kids| ==> |kids[k]| == |c| && kids[k] != c
    requires c <= p
    ensures p in Left(tree, root, dry, kids) <==> p in tree
  {
    if p in TargetsOf(tree, root, dry, kids) {
      var k := TargetFrom(tree, root, dry, kids, p);
      SiblingsApart(kids[k], c, p);
    }
  }

  lemma SameTargets(tree: Tree, root: Path, dry: bool, dir: Path, kids: seq<Path>, c: Path)
    requires forall k :: 0 <= k < |kids| ==> |kids[k]| == |c| && kids[k] != c
    ensures Targets(Left(tree, root, dry, kids), root, dry, c) == Targets(tree, root, dry, c)
  {
    var left := Left(tree, root, dry, kids);
    forall d | c <= d
      ensures Target(left, root, dry, d) <==> Target(tree, root, dry, d)
    {
      SubtreeKept(tree, root, dry, dir, kids, c, d);
      if !dry && d in tree {
        SameFiles(tree, root, dir, kids, c, d);
      }
    }
  }

  lemma SameFiles(tree: Tree, root: Path, dir: Path, kids: seq<Path>, c: Path, d: Path)
    requires forall k :: 0 <= k < |kids| ==> |kids[k]| == |c| && kids[k] != c
    requires c <= d
    ensures HasFile(Left(tree, root, false, kids), d) <==> HasFile(tree, d)
  {
    if HasFile(tree, d) {
      var f :| f in tree && d <= f && !tree[f];
      PrefixThrough(c, d, f);
      SubtreeKept(tree, root, false, dir, kids, c, f);
      assert f in Left(tree, root, false, kids);
    }
  }

  /** One child more, whose targets are all its own. */
  lemma OneMoreChild(tree: Tree, root: Path, dry: bool, kids: seq<Path>, c: Path)
    requires forall k :: 0 <= k < |kids| ==> |kids[k]| == |c| && kids[k] != c
    ensures TargetsOf(tree, root, dry, kids + [c]) == TargetsOf(tree, root, dry, kids) + Targets(tree, root, dry, c)
    ensures TargetsOf(tree, root, dry, kids) !! Targets(tree, root, dry, c)
    ensures |TargetsOf(tree, root, dry, kids + [c])|
         == |TargetsOf(tree, root, dry, kids)| + |Targets(tree, root, dry, c)|
  {
    assert (kids + [c])[..|kids|] == kids;
    forall d | d in TargetsOf(tree, root, dry, kids) && d in Targets(tree, root, dry, c)
      ensures false
    {
      var k := TargetFrom(tree, root, dry, kids, d);
      SiblingsApart(kids[k], c, d);
    }
  }

  lemma TargetBelowChild(tree: Tree, root: Path, dry: bool, dir: Path, kids: seq<Path>, d: Path)
    requires WellFormed(tree) && forall p :: p in Children(tree, dir) ==> p in kids
    requires dir <= d && d != dir && Target(tree, root, dry, d)
    ensures d in TargetsOf(tree, root, dry, kids)
  {
    ChildOnTheWay(tree, dir, d);
    var c := d[..|dir| + 1];
    assert c in kids;
    var k :| 0 <= k < |kids| && kids[k] == c;
    TargetIn(tree, root, dry, kids, k, d);
  }

  lemma TargetBelowDir(tree: Tree, root: Path, dry: bool, dir: Path, kids: seq<Path>, d: Path)
    requires forall p :: p in kids ==> p in Children(tree, dir)
    requires d in TargetsOf(tree, root, dry, kids)
    ensures dir <= d && d != dir && Target(tree, root, dry, d)
  {
    var k := TargetFrom(tree, root, dry, kids, d);
    assert kids[k] in kids;
    PrefixThrough(dir, kids[k], d);
  }

  /** The targets at or below a directory are itself, perhaps, and those below its children. */
  lemma TargetsSplit(tree: Tree, root: Path, dry: bool, dir: Path, kids: seq<Path>)
    requires WellFormed(tree) && forall p :: p in kids <==> p in Children(tree, dir)
    ensures Targets(tree, root, dry, dir)
         == TargetsOf(tree, root, dry, kids) + if Target(tree, root, dry, dir) then {dir} else {}
    ensures dir !in TargetsOf(tree, root, dry, kids)
  {
    var all, below := Targets(tree, root, dry, dir), TargetsOf(tree, root, dry, kids);
    forall d
      ensures d in below <==> d in all && d != dir
    {
      if d in below {
        TargetBelowDir(tree, root, dry, dir, kids, d);
      }
      if d in all && d != dir {
        TargetBelowChild(tree, root, dry, dir, kids, d);
      }
    }
  }

  // ---- Pruning ----

  lemma BelowShrinks(tree: Tree, left: Tree, dir: Path, c: Path)
    requires c in Children(tree, dir) && forall p :: p in left ==> p in tree
    ensures Below(left, c) < Below(tree, dir)
  {
    forall p | p in Below(left, c)
      ensures p in Below(tree, dir)
    {
      PrefixThrough(dir, c, p);
    }
    assert c in Below(tree, dir) && c !in Below(left, c);
  }

  lemma LeftMore(tree: Tree, root: Path, dry: bool, kids: seq<Path>, c: Path)
    requires forall k :: 0 <= k < |kids| ==> |kids[k]| == |c| && kids[k] != c
    ensures var left := Left(tree, root, dry, kids);
            Left(tree, root, dry, kids + [c]) == if dry then left else left - Targets(tree, root, dry, c)
  {
    OneMoreChild(tree, root, dry, kids, c);
  }

  /** What holds when the turn of child `c` comes. */
  lemma ChildReady(tree: Tree, root: Path, dry: bool, dir: Path, kids: seq<Path>, c: Path)
    requires WellFormed(tree) && root <= dir && c in Children(tree, dir)
    requires forall k :: 0 <= k < |kids| ==> kids[k] in Children(tree, dir) && kids[k] != c
    ensures var left := Left(tree, root, dry, kids);
            && WellFormed(left) && root <= c && c in left && left[c] == tree[c]
            && Below(left, c) < Below(tree, dir)
            && Targets(left, root, dry, c) == Targets(tree, root, dry, c)
            && Left(tree, root, dry, kids + [c]) == (if dry then left else left - Targets(tree, root, dry, c))
  {
    PrefixThrough(root, dir, c);
    SubtreeKept(tree, root, dry, dir, kids, c, c);
    SameTargets(tree, root, dry, dir, kids, c);
    LeftWellFormed(tree, root, dry, dir, kids);
    LeftMore(tree, root, dry, kids, c);
    BelowShrinks(tree, Left(tree, root, dry, kids), dir, c);
  }

  /** Visits one child; afterwards the targets at or below it are counted, and gone unless this is a dry run. */
  method PruneChild(fs: FileSystem, root: Path, dir: Path, dry: bool, ghost tree: Tree, ghost kids: seq<Path>, c: Path)
    returns (n: nat)
    requires WellFormed(tree) && root <= dir && c in Children(tree, dir)
    requires forall k :: 0 <= k < |kids| ==> kids[k] in Children(tree, dir) && kids[k] != c
    requires fs.tree == Left(tree, root, dry, kids)
    modifies fs
    ensures n == |Targets(tree, root, dry, c)| && fs.tree == Left(tree, root, dry, kids + [c])
    decreases Below(tree, dir), 0
  {
    ChildReady(tree, root, dry, dir, kids, c);
    n := 0;
    if fs.tree[c] {
      n := Prune(fs, root, c, dry);
    } else {
      NoTargets(tree, root, dry, c);
    }
  }

  /** All children of a directory, in the order they are listed. */
  method PruneChildren(fs: FileSystem, root: Path, dir: Path, dry: bool, entries: seq<Path>) returns (pruned: nat)
    requires WellFormed(fs.tree) && root <= dir
    requires forall p :: p in entries <==> p in Children(fs.tree, dir)
    requires forall i, j :: 0 <= i < j < |entries| ==> entries[i] != entries[j]
    modifies fs
    ensures pruned == |TargetsOf(old(fs.tree), root, dry, entries)|
    ensures fs.tree == Left(old(fs.tree), root, dry, entries)
    decreases Below(fs.tree, dir), 1
  {
    ghost var tree := fs.tree;
    pruned := 0;
    for k := 0 to |entries|
      invariant fs.tree == Left(tree, root, dry, entries[..k])
      invariant pruned == |TargetsOf(tree, root, dry, entries[..k])|
    {
      assert entries[..k + 1] == entries[..k] + [entries[k]];
      assert entries[k] in entries;
      OneMoreChild(tree, root, dry, entries[..k], entries[k]);
      var n := PruneChild(fs, root, dir, dry, tree, entries[..k], entries[k]);
      pruned := pruned + n;
    }
    assert entries[..|entries|] == entries;
  }

  /** A visited directory is empty exactly when it is a target itself. */
  lemma EmptyIsTarget(tree: Tree, root: Path, dry: bool, dir: Path, kids: seq<Path>)
    requires WellFormed(tree) && dir in tree && tree[dir] && root <= dir && dir != root
    requires forall p :: p in kids <==> p in Children(tree, dir)
    ensures Children(Left(tree, root, dry, kids), dir) == {} <==> Target(tree, root, dry, dir)
  {
    LeftEmpty(tree, root, dir, kids);
  }

  method RemoveIfEmpty(fs: FileSystem, dir: Path, dry: bool) returns (n: nat)
    requires dir in fs.tree && fs.tree[dir]
    modifies fs
    ensures n == if Children(old(fs.tree), dir) == {} then 1 else 0
    ensures fs.tree == if n == 1 && !dry then old(fs.tree) - {dir} else old(fs.tree)
  {
    n := 0;
    var remaining := fs.ReadDir(dir);
    if |remaining| == 0 {
      assert Children(fs.tree, dir) == {};
      if !dry {
        fs.RemoveDir(dir);
      }
      n := 1;
    } else {
      assert remaining[0] in remaining;
    }
  }

  /** Prunes at and below `dir`, children first. */
  method Prune(fs: FileSystem, root: Path, dir: Path, dry: bool) returns (pruned: nat)
    requires WellFormed(fs.tree) && root <= dir
    modifies fs
    ensures pruned == |Targets(old(fs.tree), root, dry, dir)|
    ensures fs.tree == if dry then old(fs.tree) else old(fs.tree) - Targets(old(fs.tree), root, dry, dir)
    decreases Below(fs.tree, dir), 2
  {
    ghost var tree := fs.tree;
    if dir !in fs.tree || !fs.tree[dir] {
      NoTargets(tree, root, dry, dir);
      return 0;
    }
    var entries := fs.ReadDir(dir);
    pruned := PruneChildren(fs, root, dir, dry, entries);
    TargetsSplit(tree, root, dry, dir, entries);
    if dir != root {
      EmptyIsTarget(tree, root, dry, dir, entries);
      var n := RemoveIfEmpty(fs, dir, dry);
      pruned := pruned + n;
    }
  }

  /**
   * `prune_empty_dirs`: removes exactly the directories below the root that have no file below
   * them, and returns how many. A dry run changes nothing and counts the directories that are
   * empty already.
   */
  method PruneEmptyDirs(fs: FileSystem, root: Path, dry: bool) returns (pruned: nat)
    requires WellFormed(fs.tree)
    modifies fs
    ensures !dry ==> fs.tree == old(fs.tree) - Fileless(old(fs.tree), root) && pruned == |Fileless(old(fs.tree), root)|
    ensures dry ==> fs.tree == old(fs.tree) && pruned == |Hollow(old(fs.tree), root)|
  {
    TargetsAre(fs.tree, root);
    pruned := Prune(fs, root, root, dry);
  }

  /** Directories below the root without a file below them, */
  ghost function Fileless(tree: Tree, root: Path): set<Path> {
    set d | d in tree && tree[d] && root < d && !HasFile(tree, d)
  }

  /** and directories below the root with nothing in them. */
  ghost function Hollow(tree: Tree, root: Path): set<Path> {
    set d | d in tree && tree[d] && root < d && IsEmpty(tree, d)
  }

  lemma TargetsAre(tree: Tree, root: Path)
    ensures Targets(tree, root, false, root) == Fileless(tree, root)
    ensures Targets(tree, root, true, root) == Hollow(tree, root)
  {
    forall d | d in tree
      ensures root <= d && d != root <==> root < d
    {
    }
  }

  lemma HollowIsFileless(tree: Tree, root: Path)
    requires WellFormed(tree)
    ensures Hollow(tree, root) <= Fileless(tree, root)
  {
    forall d | d in Hollow(tree, root)
      ensures !HasFile(tree, d)
    {
      if HasFile(tree, d) {
        var f :| f in tree && d <= f && !tree[f];
        assert d != f;
        ChildOnTheWay(tree, d, f);
      }
    }
  }

  lemma SubsetCount<T>(a: set<T>, b: set<T>)
    requires a <= b
    ensures |a| <= |b| && (|a| == |b| <==> a == b)
  {
    assert b == a + (b - a);
  }

  /**
   * A dry run announces what a run removes exactly when no directory to be removed holds another
   * one; otherwise it announces fewer.
   */
  lemma DryRunCount(tree: Tree, root: Path)
    requires WellFormed(tree)
    ensures |Hollow(tree, root)| <= |Fileless(tree, root)|
    ensures |Hollow(tree, root)| == |Fileless(tree, root)|
       <==> forall d :: d in Fileless(tree, root) ==> IsEmpty(tree, d)
  {
    HollowIsFileless(tree, root);
    SubsetCount(Hollow(tree, root), Fileless(tree, root));
    if forall d :: d in Fileless(tree, root) ==> IsEmpty(tree, d) {
      assert Fileless(tree, root) <= Hollow(tree, root);
    }
  }

  /** A directory in a directory: a run removes both, a dry run announces one. */
  lemma DryRunDiffers()
    ensures var tree: Tree := map[[] := true, [1] := true, [1, 2] := true];
            WellFormed(tree) && Fileless(tree, []) == {[1], [1, 2]} && Hollow(tree, []) == {[1, 2]}
  {
    var tree: Tree := map[[] := true, [1] := true, [1, 2] := true];
    assert [1, 2][..1] == [1] && [1][..0] == [];
    assert [1, 2] in Children(tree, [1]);
    assert Children(tree, [1, 2]) == {};
    assert forall p :: p in tree ==> Hung(tree, p);
  }
}
