/** What the canonical order guarantees: a total preorder, parents first, subtrees contiguous, level by level. */
module CanonicalOrder {
  import opened Bytes
  import opened SortOrder

  function Flip(o: Ordering): (r: Ordering) {
    match o case Less => Greater case Equal => Equal case Greater => Less
  }

  lemma {:induction false} CompareFlip(x: seq<Sym>, y: seq<Sym>)
    ensures Compare(y, x) == Flip(Compare(x, y))
  {
    if x != [] && y != [] {
      CompareFlip(x[1..], y[1..]);
    }
  }

  lemma {:induction false} CompareEqual(x: seq<Sym>, y: seq<Sym>)
    ensures Compare(x, y) == Equal <==> x == y
  {
    if x != [] && y != [] {
      CompareEqual(x[1..], y[1..]);
      assert x == [x[0]] + x[1..] && y == [y[0]] + y[1..];
    }
  }

  lemma {:induction false} CompareTransitive(x: seq<Sym>, y: seq<Sym>, z: seq<Sym>)
    requires Compare(x, y) != Greater && Compare(y, z) != Greater
    ensures Compare(x, z) != Greater
    ensures Compare(x, z) == Equal ==> Compare(x, y) == Equal && Compare(y, z) == Equal
  {
    if x != [] && y != [] && z != []
       && CompareSym(x[0], y[0]) == Equal && CompareSym(y[0], z[0]) == Equal {
      CompareTransitive(x[1..], y[1..], z[1..]);
    }
  }

  ghost predicate AtMost(a: FileEntry, b: FileEntry) {
    Compare(Key(a), Key(b)) != Greater
  }

  /** `f_name_cmp` is a total preorder; entries tie exactly when their keys agree. */
  lemma TotalPreorder(a: FileEntry, b: FileEntry, c: FileEntry)
    ensures AtMost(a, b) || AtMost(b, a)
    ensures AtMost(a, b) && AtMost(b, c) ==> AtMost(a, c)
    ensures AtMost(a, b) && AtMost(b, a) <==> Key(a) == Key(b)
  {
    CompareFlip(Key(a), Key(b));
    CompareEqual(Key(a), Key(b));
    if AtMost(a, b) && AtMost(b, c) {
      CompareTransitive(Key(a), Key(b), Key(c));
    }
  }

  // ---- Subtrees ----

  /** `e` is the directory `d` or lies below it. */
  ghost predicate InSubtree(e: FileEntry, d: FileEntry) {
    d.name + [SLASH] <= e.name || (e.IsDir() && e.name == d.name)
  }

  /** A directory with a name of its own, as opposed to `.` or `x/.`. */
  ghost predicate Named(d: FileEntry) {
    d.IsDir() && d.Basename() != [DOT]
  }

  lemma PrefixOfTyped(p: seq<byte>, path: seq<byte>, item: seq<byte>)
    ensures Typed(true, p) <= Typed(true, path) + Typed(false, item) <==> p <= path
  {
    var k := Typed(true, path) + Typed(false, item);
    if Typed(true, p) <= k {
      assert forall i :: 0 <= i < |p| ==> k[i] == Typed(true, p)[i];
      if p != [] {
        assert k[|p| - 1] == Typed(true, p)[|p| - 1];
      }
      assert p == path[..|p|];
    }
    if p <= path {
      assert forall i :: 0 <= i < |p| ==> path[i] == p[i];
      assert k[..|p|] == Typed(true, p);
    }
  }

  /** A subtree is the entries whose key starts with the key of its directory. */
  lemma SubtreeByKey(e: FileEntry, d: FileEntry)
    requires Named(d)
    ensures InSubtree(e, d) <==> Key(d) <= Key(e)
  {
    var p := d.name + [SLASH];
    assert Key(d) == Typed(true, p) by {
      assert Typed(false, []) == [];
    }
    PrefixOfTyped(p, PathPart(e), ItemPart(e));
    PathPrefix(e, d.name);
  }

  /** What ends in a slash is a prefix of the path part if and only if it is one of the name or the closed name. */
  lemma PathPrefix(e: FileEntry, n: seq<byte>)
    ensures n + [SLASH] <= PathPart(e) <==> n + [SLASH] <= e.name || (e.IsDir() && e.name == n && e.Basename() != [DOT])
  {
    var p, k := n + [SLASH], e.BaseStart();
    if p <= e.name {
      assert e.name[|n|] == p[|n|] == SLASH;
      assert |n| < k;
      assert e.name[..|p|] == e.name[..k][..|p|];
    }
    if p <= PathPart(e) && PathPart(e) == e.name + [SLASH] && |p| <= |e.name| {
      assert (e.name + [SLASH])[..|p|] == e.name[..|p|];
    }
    if p <= PathPart(e) && PathPart(e) == e.name + [SLASH] && |p| == |e.name| + 1 {
      assert (e.name + [SLASH])[..|e.name|] == e.name;
      assert p[..|n|] == n;
    }
    if p <= PathPart(e) && PathPart(e) == e.name[..k] {
      assert e.name[..k][..|p|] == e.name[..|p|];
    }
  }

  lemma {:induction false} PrefixFirst(x: seq<Sym>, y: seq<Sym>)
    requires x <= y && x != y
    ensures Compare(x, y) == Less
  {
    if x != [] {
      assert x[1..] <= y[1..] && x[1..] != y[1..] by {
        assert y[1..][..|x| - 1] == y[..|x|][1..];
      }
      PrefixFirst(x[1..], y[1..]);
    }
  }

  /** Between two keys with a common prefix there are only keys with that prefix. */
  lemma {:induction false} PrefixConvex(p: seq<Sym>, x: seq<Sym>, y: seq<Sym>, z: seq<Sym>)
    requires p <= x && p <= z && Compare(x, y) != Greater && Compare(y, z) != Greater
    ensures p <= y
  {
    if p != [] {
      assert x[0] == p[0] == z[0];
      assert y != [] && y[0] == p[0];
      assert p[1..] <= x[1..] && p[1..] <= z[1..];
      PrefixConvex(p[1..], x[1..], y[1..], z[1..]);
      assert p == [p[0]] + p[1..] && y == [y[0]] + y[1..];
    }
  }

  /** The name has a last component, which is `.` only for the root. */
  ghost predicate Proper(e: FileEntry) {
    if e.IsDir() then e.Basename() != [DOT] || e.name == [DOT] else e.Basename() != []
  }

  /** The key of a proper entry determines its name and whether it is a directory. */
  lemma KeyInjective(a: FileEntry, b: FileEntry)
    requires Proper(a) && Proper(b) && Key(a) == Key(b)
    ensures a.name == b.name && a.IsDir() == b.IsDir()
  {
    LastOfKey(a);
    LastOfKey(b);
    assert NameOfKey(Key(a)) == NameOfKey(Key(b));
  }

  ghost function Chars(k: seq<Sym>): (s: seq<byte>)
    ensures |s| == |k|
  {
    seq(|k|, i requires 0 <= i < |k| => k[i].c)
  }

  ghost function NameOfKey(k: seq<Sym>): seq<byte>
  {
    if k == [] then [DOT] else if k[|k| - 1].path then Chars(k[..|k| - 1]) else Chars(k)
  }

  lemma CharsOfKey(p: seq<byte>, i: seq<byte>)
    ensures Chars(Typed(true, p) + Typed(false, i)) == p + i
  {
  }

  lemma ClosedKey(name: seq<byte>, k: seq<Sym>)
    requires k == Typed(true, name + [SLASH]) + Typed(false, [])
    ensures k != [] && k[|k| - 1].path && Chars(k[..|k| - 1]) == name
  {
  }

  lemma LastOfKey(e: FileEntry)
    requires Proper(e)
    ensures e.name == NameOfKey(Key(e))
    ensures e.IsDir() <==> Key(e) == [] || Key(e)[|Key(e)| - 1].path
  {
    if e.IsDir() && e.Basename() != [DOT] {
      ClosedKey(e.name, Key(e));
    } else if !e.IsDir() {
      CharsOfKey(e.name[..e.BaseStart()], e.Basename());
      assert e.name == e.name[..e.BaseStart()] + e.Basename();
    }
  }

  ghost predicate Sorted(es: seq<FileEntry>) {
    forall i, j :: 0 <= i < j < |es| ==> AtMost(es[i], es[j])
  }

  /** In a sorted list a directory comes before everything below it. */
  lemma DirectoryFirst(es: seq<FileEntry>, i: nat, j: nat)
    requires Sorted(es) && i < |es| && j < |es| && i != j
    requires Named(es[i]) && Proper(es[j]) && es[i].name + [SLASH] <= es[j].name
    ensures i < j
  {
    SubtreeByKey(es[j], es[i]);
    if Key(es[i]) == Key(es[j]) {
      KeyInjective(es[i], es[j]);
    }
    PrefixFirst(Key(es[i]), Key(es[j]));
    CompareFlip(Key(es[i]), Key(es[j]));
  }

  /** In a sorted list every subtree is contiguous. */
  lemma {:induction false} SubtreeContiguous(es: seq<FileEntry>, d: FileEntry, i: nat, j: nat, k: nat)
    requires Sorted(es) && i <= j <= k < |es| && Named(d)
    requires InSubtree(es[i], d) && InSubtree(es[k], d)
    ensures InSubtree(es[j], d)
  {
    if i < j < k {
      assert AtMost(es[i], es[j]) && AtMost(es[j], es[k]);
      SubtreeByKey(es[i], d);
      SubtreeByKey(es[j], d);
      SubtreeByKey(es[k], d);
      PrefixConvex(Key(d), Key(es[i]), Key(es[j]), Key(es[k]));
    }
  }

  // ---- The order, level by level ----

  datatype Level = FileLevel(name: seq<byte>) | DirLevel(name: seq<byte>)

  ghost predicate Closed(p: seq<byte>) {
    p == [] || p[|p| - 1] == SLASH
  }

  ghost function FirstSlash(p: seq<byte>): (i: nat)
    requires Closed(p) && p != []
    ensures i < |p| && p[i] == SLASH
    ensures forall j :: 0 <= j < i ==> p[j] != SLASH
  {
    if p[0] == SLASH then 0 else FirstSlash(p[1..]) + 1
  }

  /** The directories that a closed path goes through. */
  ghost function DirLevels(p: seq<byte>): seq<Level>
    requires Closed(p)
  {
    if p == [] then [] else var i := FirstSlash(p); [DirLevel(p[..i])] + DirLevels(p[i + 1..])
  }

  ghost function LevelsOf(path: seq<byte>, item: seq<byte>): seq<Level>
    requires Closed(path)
  {
    DirLevels(path) + if item == [] then [] else [FileLevel(item)]
  }

  /** The entry seen level by level: the directories above it, then itself. */
  ghost function Levels(e: FileEntry): seq<Level>
  {
    LevelsOf(PathPart(e), ItemPart(e))
  }

  ghost function CompareBytes(x: seq<byte>, y: seq<byte>): Ordering
  {
    if x == [] then (if y == [] then Equal else Less)
    else if y == [] then Greater
    else if x[0] != y[0] then CompareByte(x[0], y[0])
    else CompareBytes(x[1..], y[1..])
  }

  /** Files before directories, names by their bytes, directory names closed by a slash. */
  ghost function CompareLevel(a: Level, b: Level): Ordering
  {
    if a.DirLevel? != b.DirLevel? then CompareType(a.DirLevel?, b.DirLevel?)
    else if a.DirLevel? then CompareBytes(a.name + [SLASH], b.name + [SLASH])
    else CompareBytes(a.name, b.name)
  }

  ghost function CompareLevels(a: seq<Level>, b: seq<Level>): Ordering
  {
    if a == [] then (if b == [] then Equal else Less)
    else if b == [] then Greater
    else if CompareLevel(a[0], b[0]) != Equal then CompareLevel(a[0], b[0])
    else CompareLevels(a[1..], b[1..])
  }

  lemma {:induction false} BytesEqual(x: seq<byte>, y: seq<byte>)
    ensures CompareBytes(x, y) == Equal <==> x == y
  {
    if x != [] && y != [] {
      BytesEqual(x[1..], y[1..]);
      assert x == [x[0]] + x[1..] && y == [y[0]] + y[1..];
    }
  }

  lemma {:induction false} ItemsByBytes(x: seq<byte>, y: seq<byte>)
    ensures Compare(Typed(false, x), Typed(false, y)) == CompareBytes(x, y)
  {
    if x != [] && y != [] {
      ItemsByBytes(x[1..], y[1..]);
      assert Typed(false, x)[1..] == Typed(false, x[1..]);
      assert Typed(false, y)[1..] == Typed(false, y[1..]);
    }
  }

  lemma TypedStep(c: seq<byte>, x: seq<Sym>)
    ensures var k := Typed(true, c + [SLASH]) + x;
            if c == [] then k[0] == Sym(true, SLASH) && k[1..] == x
            else k[0] == Sym(true, c[0]) && k[1..] == Typed(true, c[1..] + [SLASH]) + x
  {
    if c != [] {
      assert (c + [SLASH])[1..] == c[1..] + [SLASH];
    }
  }

  /** Keys that start with closed names compare by those names first. */
  lemma {:induction false} ByFirstName(c: seq<byte>, d: seq<byte>, x: seq<Sym>, y: seq<Sym>)
    requires SLASH !in c && SLASH !in d
    ensures Compare(Typed(true, c + [SLASH]) + x, Typed(true, d + [SLASH]) + y)
         == if c == d then Compare(x, y) else CompareBytes(c + [SLASH], d + [SLASH])
  {
    TypedStep(c, x);
    TypedStep(d, y);
    if c != [] && d != [] && c[0] == d[0] {
      ByFirstName(c[1..], d[1..], x, y);
      assert c == [c[0]] + c[1..] && d == [d[0]] + d[1..];
      assert (c + [SLASH])[1..] == c[1..] + [SLASH] && (d + [SLASH])[1..] == d[1..] + [SLASH];
    }
  }

  ghost function PathKey(path: seq<byte>, item: seq<byte>): seq<Sym>
  {
    Typed(true, path) + Typed(false, item)
  }

  lemma LevelsStep(path: seq<byte>, item: seq<byte>)
    requires Closed(path) && path != []
    ensures var i := FirstSlash(path);
            LevelsOf(path, item) == [DirLevel(path[..i])] + LevelsOf(path[i + 1..], item)
  {
    var i := FirstSlash(path);
    var head, more := [DirLevel(path[..i])], DirLevels(path[i + 1..]);
    var last := if item == [] then [] else [FileLevel(item)];
    assert head + more + last == head + (more + last);
  }

  lemma PathKeyStep(path: seq<byte>, item: seq<byte>)
    requires Closed(path) && path != []
    ensures var i := FirstSlash(path);
            PathKey(path, item) == Typed(true, path[..i] + [SLASH]) + PathKey(path[i + 1..], item)
  {
    var i := FirstSlash(path);
    var head, more := path[..i] + [SLASH], path[i + 1..];
    assert path == head + more;
    TypedAppend(true, head, more);
    assert Typed(true, head) + Typed(true, more) + Typed(false, item)
        == Typed(true, head) + (Typed(true, more) + Typed(false, item));
  }

  lemma ItemsByLevel(i: seq<byte>, j: seq<byte>)
    ensures Compare(PathKey([], i), PathKey([], j)) == CompareLevels(LevelsOf([], i), LevelsOf([], j))
  {
    ItemsByBytes(i, j);
    BytesEqual(i, j);
    assert PathKey([], i) == Typed(false, i) && PathKey([], j) == Typed(false, j);
  }

  lemma SameName(c: seq<byte>, d: seq<byte>)
    ensures CompareBytes(c + [SLASH], d + [SLASH]) == Equal <==> c == d
  {
    BytesEqual(c + [SLASH], d + [SLASH]);
    assert (c + [SLASH])[..|c|] == c && (d + [SLASH])[..|d|] == d;
  }

  /** A first directory level before paths that compare alike both ways. */
  lemma {:induction false} StepByLevel(
    c: seq<byte>, d: seq<byte>, x: seq<Sym>, y: seq<Sym>, a: seq<Level>, b: seq<Level>)
    requires SLASH !in c && SLASH !in d && Compare(x, y) == CompareLevels(a, b)
    ensures Compare(Typed(true, c + [SLASH]) + x, Typed(true, d + [SLASH]) + y)
         == CompareLevels([DirLevel(c)] + a, [DirLevel(d)] + b)
  {
    ByFirstName(c, d, x, y);
    SameName(c, d);
    assert ([DirLevel(c)] + a)[1..] == a && ([DirLevel(d)] + b)[1..] == b;
  }

  /** With no directory level left on one side, its item or its end comes first. */
  lemma {:induction false} ItemBeforeLevel(i: seq<byte>, d: seq<byte>, y: seq<Sym>, b: seq<Level>)
    ensures Compare(PathKey([], i), Typed(true, d + [SLASH]) + y) == Less
    ensures Compare(Typed(true, d + [SLASH]) + y, PathKey([], i)) == Greater
    ensures CompareLevels(LevelsOf([], i), [DirLevel(d)] + b) == Less
    ensures CompareLevels([DirLevel(d)] + b, LevelsOf([], i)) == Greater
  {
    TypedStep(d, y);
    assert PathKey([], i) == Typed(false, i);
  }

  lemma {:induction false} KeysByLevel(p: seq<byte>, i: seq<byte>, q: seq<byte>, j: seq<byte>)
    requires Closed(p) && Closed(q)
    ensures Compare(PathKey(p, i), PathKey(q, j)) == CompareLevels(LevelsOf(p, i), LevelsOf(q, j))
    decreases |p|
  {
    if p == [] && q == [] {
      ItemsByLevel(i, j);
    } else if p == [] {
      var c, q' := SplitFirst(q, j);
      ItemBeforeLevel(i, c, PathKey(q', j), LevelsOf(q', j));
    } else if q == [] {
      var c, p' := SplitFirst(p, i);
      ItemBeforeLevel(j, c, PathKey(p', i), LevelsOf(p', i));
    } else {
      var c, p' := SplitFirst(p, i);
      var d, q' := SplitFirst(q, j);
      KeysByLevel(p', i, q', j);
      StepByLevel(c, d, PathKey(p', i), PathKey(q', j), LevelsOf(p', i), LevelsOf(q', j));
    }
  }

  /** The first directory of a path, and the rest of it. */
  lemma SplitFirst(path: seq<byte>, item: seq<byte>) returns (c: seq<byte>, more: seq<byte>)
    requires Closed(path) && path != []
    ensures SLASH !in c && Closed(more) && |more| < |path|
    ensures LevelsOf(path, item) == [DirLevel(c)] + LevelsOf(more, item)
    ensures PathKey(path, item) == Typed(true, c + [SLASH]) + PathKey(more, item)
  {
    c, more := path[..FirstSlash(path)], path[FirstSlash(path) + 1..];
    LevelsStep(path, item);
    PathKeyStep(path, item);
  }

  /**
   * Comparing keys is comparing the paths level by level: at the first level where they differ,
   * files come before directories and names go by their bytes, directories closed by a slash.
   */
  lemma ByLevel(a: FileEntry, b: FileEntry)
    ensures Compare(Key(a), Key(b)) == CompareLevels(Levels(a), Levels(b))
  {
    KeysByLevel(PathPart(a), ItemPart(a), PathPart(b), ItemPart(b));
  }
}
