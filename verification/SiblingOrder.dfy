/** The canonical order between entries of one directory, on the bytes of their names. */
module SiblingOrder {
  import opened Bytes
  import opened SortOrder
  import opened CanonicalOrder

  /** `x` comes first: at the first difference its byte is smaller, or it ends there. */
  ghost predicate Precedes(x: seq<byte>, y: seq<byte>) {
    exists k :: 0 <= k <= |x| && DiffersAt(x, y, k)
  }

  ghost predicate DiffersAt(x: seq<byte>, y: seq<byte>, k: nat) {
    k <= |x| && k < |y| && x[..k] == y[..k] && (k == |x| || x[k] < y[k])
  }

  lemma PrecedesStep(x: seq<byte>, y: seq<byte>)
    requires x != [] && y != [] && x[0] == y[0]
    ensures Precedes(x, y) <==> Precedes(x[1..], y[1..])
  {
    if Precedes(x, y) {
      var k :| 0 <= k <= |x| && DiffersAt(x, y, k);
      assert k > 0;
      assert x[1..][..k - 1] == x[..k][1..] && y[1..][..k - 1] == y[..k][1..];
      assert DiffersAt(x[1..], y[1..], k - 1);
    }
    if Precedes(x[1..], y[1..]) {
      var k :| 0 <= k <= |x[1..]| && DiffersAt(x[1..], y[1..], k);
      assert x[..k + 1] == [x[0]] + x[1..][..k] && y[..k + 1] == [y[0]] + y[1..][..k];
      assert DiffersAt(x, y, k + 1);
    }
  }

  lemma DiffersFirst(x: seq<byte>, y: seq<byte>, k: nat)
    requires DiffersAt(x, y, k)
    ensures k > 0 ==> x[0] == y[0]
  {
    if k > 0 {
      assert x[..k][0] == y[..k][0];
    }
  }

  lemma PrecedesFirst(x: seq<byte>, y: seq<byte>)
    requires x == [] || y == [] || x[0] != y[0]
    ensures Precedes(x, y) <==> y != [] && (x == [] || x[0] < y[0])
  {
    if y != [] && (x == [] || x[0] < y[0]) {
      assert DiffersAt(x, y, 0);
    }
    if Precedes(x, y) {
      var k :| 0 <= k <= |x| && DiffersAt(x, y, k);
      DiffersFirst(x, y, k);
    }
  }

  lemma {:induction false} CompareTyped(path: bool, x: seq<byte>, y: seq<byte>)
    ensures Compare(Typed(path, x), Typed(path, y)) == Less <==> Precedes(x, y)
  {
    if x == [] || y == [] || x[0] != y[0] {
      PrecedesFirst(x, y);
    } else {
      PrecedesStep(x, y);
      CompareTyped(path, x[1..], y[1..]);
      assert Typed(path, x)[1..] == Typed(path, x[1..]) && Typed(path, y)[1..] == Typed(path, y[1..]);
    }
  }

  lemma {:induction false} CompareAfter(p: seq<Sym>, x: seq<Sym>, y: seq<Sym>)
    ensures Compare(p + x, p + y) == Compare(x, y)
  {
    if p == [] {
      assert p + x == x && p + y == y;
    } else {
      assert (p + x)[1..] == p[1..] + x && (p + y)[1..] == p[1..] + y;
      CompareAfter(p[1..], x, y);
    }
  }

  /** What the names of a directory's entries begin with: nothing, or a path closed by a slash. */
  ghost predicate IsPrefix(dir: seq<byte>) {
    dir == [] || dir[|dir| - 1] == SLASH
  }

  lemma SplitAt(e: FileEntry, dir: seq<byte>, x: seq<byte>)
    requires e.name == dir + x && IsPrefix(dir) && SLASH !in x
    ensures e.BaseStart() == |dir| && e.Basename() == x && e.name[..|dir|] == dir
  {
    var k := e.BaseStart();
    assert forall j :: 0 <= j < |x| ==> e.name[|dir| + j] == x[j];
    assert dir != [] ==> e.name[|dir| - 1] == SLASH;
  }

  lemma FileKey(e: FileEntry, dir: seq<byte>, x: seq<byte>)
    requires e.name == dir + x && IsPrefix(dir) && SLASH !in x && !e.IsDir()
    ensures Key(e) == Typed(true, dir) + Typed(false, x)
  {
    SplitAt(e, dir, x);
  }

  lemma DirectoryKey(e: FileEntry, dir: seq<byte>, x: seq<byte>)
    requires e.name == dir + x && IsPrefix(dir) && SLASH !in x && e.IsDir() && x != [DOT]
    ensures Key(e) == Typed(true, dir) + Typed(true, x + [SLASH])
  {
    SplitAt(e, dir, x);
    assert e.name + [SLASH] == dir + (x + [SLASH]);
    TypedAppend(true, dir, x + [SLASH]);
    assert Typed(false, []) == [];
  }

  /** `a` strictly before `b`. */
  ghost predicate Before(a: FileEntry, b: FileEntry) {
    AtMost(a, b) && !AtMost(b, a)
  }

  lemma BeforeIsLess(a: FileEntry, b: FileEntry)
    ensures Before(a, b) <==> Compare(Key(a), Key(b)) == Less
  {
    CompareFlip(Key(a), Key(b));
  }

  /** Two files of one directory: by the bytes of their names. */
  lemma FilesByBytes(dir: seq<byte>, a: FileEntry, x: seq<byte>, b: FileEntry, y: seq<byte>)
    requires IsPrefix(dir) && SLASH !in x && SLASH !in y && a.name == dir + x && b.name == dir + y
    requires !a.IsDir() && !b.IsDir()
    ensures Before(a, b) <==> Precedes(x, y)
  {
    BeforeIsLess(a, b);
    FileKey(a, dir, x);
    FileKey(b, dir, y);
    CompareAfter(Typed(true, dir), Typed(false, x), Typed(false, y));
    CompareTyped(false, x, y);
  }

  /** Two directories of one directory: by the bytes of their names with a slash after them. */
  lemma DirectoriesByBytes(dir: seq<byte>, a: FileEntry, x: seq<byte>, b: FileEntry, y: seq<byte>)
    requires IsPrefix(dir) && SLASH !in x && SLASH !in y && a.name == dir + x && b.name == dir + y
    requires a.IsDir() && b.IsDir() && x != [DOT] && y != [DOT]
    ensures Before(a, b) <==> Precedes(x + [SLASH], y + [SLASH])
  {
    BeforeIsLess(a, b);
    DirectoryKey(a, dir, x);
    DirectoryKey(b, dir, y);
    CompareAfter(Typed(true, dir), Typed(true, x + [SLASH]), Typed(true, y + [SLASH]));
    CompareTyped(true, x + [SLASH], y + [SLASH]);
  }

  lemma BaseAfter(e: FileEntry, j: nat)
    requires j < |e.name| && e.name[j] == SLASH
    ensures e.BaseStart() > j
  {
  }

  lemma PathForm(b: FileEntry)
    ensures PathPart(b) == if b.IsDir() && b.Basename() != [DOT] then b.name + [SLASH] else b.name[..b.BaseStart()]
  {
  }

  lemma PrefixKept(name: seq<byte>, dir: seq<byte>, m: nat)
    requires dir <= name && |dir| <= m <= |name|
    ensures dir <= name[..m] && dir <= name + [SLASH]
  {
    assert name[..m][..|dir|] == name[..|dir|];
    assert (name + [SLASH])[..|dir|] == name[..|dir|];
  }

  lemma PathLongerBelow(b: FileEntry, dir: seq<byte>, j: nat)
    requires dir <= b.name && |dir| <= j < |b.name| && b.name[j] == SLASH
    ensures dir <= PathPart(b) && |PathPart(b)| > |dir|
  {
    BaseAfter(b, j);
    PrefixKept(b.name, dir, b.BaseStart());
    PathForm(b);
  }

  /** The path of what is in a directory beside, or is one, goes beyond `dir`. */
  lemma PathLonger(b: FileEntry, dir: seq<byte>, rest: seq<byte>)
    requires b.name == dir + rest && IsPrefix(dir) && (SLASH in rest || (b.IsDir() && rest != [DOT]))
    ensures dir <= PathPart(b) && |PathPart(b)| > |dir|
  {
    assert dir <= b.name;
    if SLASH in rest {
      var k :| 0 <= k < |rest| && rest[k] == SLASH;
      PathLongerBelow(b, dir, |dir| + k);
    } else {
      SplitAt(b, dir, rest);
      PrefixKept(b.name, dir, |b.name|);
      PathForm(b);
    }
  }

  lemma ItemBeforePath(x: seq<byte>, more: seq<byte>, item: seq<Sym>)
    requires more != []
    ensures Compare(Typed(false, x), Typed(true, more) + item) == Less
  {
    assert (Typed(true, more) + item)[0] == Sym(true, more[0]);
  }

  /** A file comes before every directory beside it, and before all that is in them. */
  lemma FilesFirst(dir: seq<byte>, a: FileEntry, x: seq<byte>, b: FileEntry, rest: seq<byte>)
    requires IsPrefix(dir) && SLASH !in x && a.name == dir + x && !a.IsDir()
    requires b.name == dir + rest && (SLASH in rest || (b.IsDir() && rest != [DOT]))
    ensures Before(a, b)
  {
    BeforeIsLess(a, b);
    FileKey(a, dir, x);
    PathLonger(b, dir, rest);
    var path, item := PathPart(b), Typed(false, ItemPart(b));
    var more := path[|dir|..];
    assert path == dir + more;
    TypedAppend(true, dir, more);
    Assoc(Typed(true, dir), Typed(true, more), item);
    CompareAfter(Typed(true, dir), Typed(false, x), Typed(true, more) + item);
    ItemBeforePath(x, more, item);
  }

  /** The directory "." comes before everything else. */
  lemma RootFirst(root: FileEntry, e: FileEntry)
    requires root.name == [DOT] && root.IsDir() && Proper(e) && e.name != [DOT]
    ensures Before(root, e)
  {
    BeforeIsLess(root, e);
    assert root.name[0] != SLASH;
    assert Key(root) == [];
    LastOfKey(e);
  }
}
