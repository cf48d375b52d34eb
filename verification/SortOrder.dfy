/**
 * The canonical order of file lists. The comparison walks two entries character by character with
 * a small state machine; it is proved equal to comparing two explicit keys, so it is a total
 * preorder in which directories precede their contents and subtrees stay together.
 */
module SortOrder {
  import opened Bytes

  const SLASH: byte := 0x2F
  const DOT: byte := 0x2E

  datatype Kind = Regular | Directory | Other

  /** An entry of a file list; `meta` stands for the metadata that plays no part in the order. */
  datatype FileEntry = FileEntry(name: seq<byte>, kind: Kind, meta: int) {
    /** Position just after the last slash, 0 when there is none. */
    function BaseStart(): (k: nat)
      ensures k <= |name|
      ensures k > 0 ==> name[k - 1] == SLASH
      ensures forall j :: k <= j < |name| ==> name[j] != SLASH
    {
      AfterLastSlash(name, |name|)
    }

    function Dirname(): (d: Option<seq<byte>>) {
      if BaseStart() == 0 then None else Some(name[..BaseStart() - 1])
    }

    function Basename(): (b: seq<byte>) {
      name[BaseStart()..]
    }

    predicate IsDir() {
      kind.Directory?
    }
  }

  function AfterLastSlash(name: seq<byte>, n: nat): (k: nat)
    requires n <= |name|
    ensures k <= n
    ensures k > 0 ==> name[k - 1] == SLASH
    ensures forall j :: k <= j < n ==> name[j] != SLASH
  {
    if n == 0 then 0 else if name[n - 1] == SLASH then n else AfterLastSlash(name, n - 1)
  }

  // ---- Keys ----

  /** A character of a key; those of directory names are typed as path, and sort after items. */
  datatype Sym = Sym(path: bool, c: byte)

  datatype Ordering = Less | Equal | Greater

  ghost function Typed(path: bool, s: seq<byte>): (k: seq<Sym>)
    ensures |k| == |s|
    ensures forall i :: 0 <= i < |s| ==> k[i] == Sym(path, s[i])
  {
    seq(|s|, i requires 0 <= i < |s| => Sym(path, s[i]))
  }

  /** Everything up to the last slash, and all of a directory's name with a slash to close it. */
  ghost function PathPart(e: FileEntry): seq<byte>
  {
    if e.IsDir() && e.Basename() != [DOT] then e.name + [SLASH] else e.name[..e.BaseStart()]
  }

  /** The last component of what is not a directory. */
  ghost function ItemPart(e: FileEntry): seq<byte>
  {
    if e.IsDir() then [] else e.Basename()
  }

  ghost function Key(e: FileEntry): seq<Sym>
  {
    Typed(true, PathPart(e)) + Typed(false, ItemPart(e))
  }

  /** What the last component contributes. */
  ghost function BaseKey(basename: seq<byte>, isDir: bool): seq<Sym>
  {
    if isDir && basename == [DOT] then []
    else Typed(isDir, if isDir then basename + [SLASH] else basename)
  }

  lemma KeyFromBase(e: FileEntry)
    ensures Key(e) == Typed(true, e.name[..e.BaseStart()]) + BaseKey(e.Basename(), e.IsDir())
  {
    var k, b := e.BaseStart(), e.Basename();
    if e.IsDir() && b != [DOT] {
      assert e.name + [SLASH] == e.name[..k] + (b + [SLASH]);
      TypedAppend(true, e.name[..k], b + [SLASH]);
      assert Typed(false, []) == [];
    }
  }

  /** The key, segment by segment as the walker meets it. */
  lemma KeyBySegments(e: FileEntry)
    ensures match e.Dirname()
            case Some(d) => d[0..] == d && Key(e) == Typed(true, d + [SLASH]) + BaseKey(e.Basename(), e.IsDir())
            case None => Key(e) == BaseKey(e.Basename(), e.IsDir())
    ensures Typed(true, [] + [SLASH]) == [Sym(true, SLASH)] && e.Basename()[0..] == e.Basename()
  {
    KeyFromBase(e);
    var k, base := e.BaseStart(), BaseKey(e.Basename(), e.IsDir());
    if k > 0 {
      Reclosed(e.name, k);
    } else {
      assert Typed(true, e.name[..0]) == [] && [] + base == base;
    }
  }

  lemma Reclosed(name: seq<byte>, k: nat)
    requires 0 < k <= |name| && name[k - 1] == SLASH
    ensures name[..k - 1] + [SLASH] == name[..k]
  {
  }

  lemma TypedAppend(path: bool, a: seq<byte>, b: seq<byte>)
    ensures Typed(path, a + b) == Typed(path, a) + Typed(path, b)
  {
  }

  function CompareByte(a: byte, b: byte): (o: Ordering)
  {
    if a < b then Less else if a == b then Equal else Greater
  }

  function CompareType(a: bool, b: bool): (o: Ordering)
  {
    if a == b then Equal else if a then Greater else Less
  }

  ghost function CompareSym(x: Sym, y: Sym): Ordering
  {
    if x.path != y.path then CompareType(x.path, y.path) else CompareByte(x.c, y.c)
  }

  /** Lexicographic order of keys, a proper prefix first. */
  ghost function Compare(x: seq<Sym>, y: seq<Sym>): Ordering
  {
    if x == [] then (if y == [] then Equal else Less)
    else if y == [] then Greater
    else if CompareSym(x[0], y[0]) != Equal then CompareSym(x[0], y[0])
    else Compare(x[1..], y[1..])
  }

  // ---- The walker ----

  datatype State = InDir | AtSlash | InBase | Trailing | Done

  ghost predicate Stands(state: State, path: bool, pos: nat, dirname: Option<seq<byte>>, basename: seq<byte>,
                         isDir: bool) {
    match state
    case InDir => dirname.Some? && pos <= |dirname.value| && path
    case AtSlash => path
    case InBase => pos <= |basename| && path == isDir && !(isDir && basename == [DOT])
    case Trailing => true
    case Done => !path
  }

  /** The characters still to be walked. */
  ghost function Ahead(state: State, path: bool, pos: nat, dirname: Option<seq<byte>>, basename: seq<byte>, isDir: bool)
    : seq<Sym>
    requires Stands(state, path, pos, dirname, basename, isDir)
  {
    match state
    case InDir => Typed(true, dirname.value[pos..] + [SLASH]) + BaseKey(basename, isDir)
    case AtSlash => [Sym(true, SLASH)] + BaseKey(basename, isDir)
    case InBase => Typed(path, if path then basename[pos..] + [SLASH] else basename[pos..])
    case Trailing => if path then [Sym(true, SLASH)] else []
    case Done => []
  }

  /** Where a walk begins. */
  function FirstState(e: FileEntry): State {
    if e.Dirname().Some? then (if e.Dirname().value == [] then AtSlash else InDir)
    else if e.IsDir() && e.Basename() == [DOT] then Trailing
    else InBase
  }

  function FirstType(e: FileEntry): bool {
    e.Dirname().Some? || (e.IsDir() && e.Basename() != [DOT])
  }

  lemma AllAhead(e: FileEntry)
    ensures Stands(FirstState(e), FirstType(e), 0, e.Dirname(), e.Basename(), e.IsDir())
    ensures Ahead(FirstState(e), FirstType(e), 0, e.Dirname(), e.Basename(), e.IsDir()) == Key(e)
  {
    KeyBySegments(e);
    match e.Dirname()
    case Some(d) =>
      if d == [] {
        assert Typed(true, d + [SLASH]) == [Sym(true, SLASH)];
      } else {
        assert d[0..] == d;
      }
    case None =>
  }

  /** The characters of one name, one fewer at each step. */
  lemma NameAhead(path: bool, name: seq<byte>, pos: nat, close: seq<byte>, more: seq<Sym>)
    requires pos < |name|
    ensures (Typed(path, name[pos..] + close) + more)[1..] == Typed(path, name[pos + 1..] + close) + more
    ensures Typed(path, name[pos..] + close) + [] == Typed(path, name[pos..] + close)
    ensures Typed(path, name[pos + 1..] + close) + [] == Typed(path, name[pos + 1..] + close)
    ensures name[pos..] + [] == name[pos..] && name[pos + 1..] + [] == name[pos + 1..]
  {
  }

  class Walker {
    const basename: seq<byte>
    const dirname: Option<seq<byte>>
    const isDir: bool
    var state: State
    var path: bool
    var pos: nat

    ghost function Rest(): seq<Sym>
      requires Valid()
      reads this
    {
      Ahead(state, path, pos, dirname, basename, isDir)
    }

    ghost predicate Valid()
      reads this
    {
      Stands(state, path, pos, dirname, basename, isDir)
    }

    constructor (e: FileEntry)
      ensures Valid() && Rest() == Key(e)
      ensures state != Trailing || !path
    {
      AllAhead(e);
      basename := e.Basename();
      dirname := e.Dirname();
      isDir := e.IsDir();
      state := FirstState(e);
      path := FirstType(e);
      pos := 0;
    }

    /** The walker looks at a character that `Advance` may pass. */
    ghost predicate Looking()
      requires Valid()
      reads this
    {
      && Rest() != []
      && (state == InDir ==> pos < |dirname.value|)
      && (state == InBase ==> pos < |basename|)
    }

    method CurrentChar() returns (c: Option<byte>)
      requires Valid() && (state != Trailing || !path)
      modifies this
      ensures Valid() && Rest() == old(Rest()) && path == old(path)
      ensures c == if Rest() == [] then None else Some(Rest()[0].c)
      ensures c.Some? ==> Looking()
    {
      while true
        invariant Valid() && Rest() == old(Rest()) && path == old(path)
        invariant state == Trailing ==> !path
        decreases match state case InDir => 4 case AtSlash => 3 case InBase => 2 case Trailing => 1 case Done => 0
      {
        match state {
          case InDir =>
            if pos < |dirname.value| {
              return Some(dirname.value[pos]);
            }
            state := AtSlash;
            pos := 0;
          case AtSlash =>
            return Some(SLASH);
          case InBase =>
            if pos < |basename| {
              return Some(basename[pos]);
            }
            state := Trailing;
            if path {
              return Some(SLASH);
            }
            path := false;
          case Trailing =>
            path := false;
            state := Done;
            return None;
          case Done =>
            return None;
        }
      }
    }

    method Advance()
      requires Valid() && Looking()
      modifies this
      ensures Valid() && Rest() == old(Rest())[1..]
      ensures state != Trailing || !path
    {
      match state {
        case InDir =>
          NameAhead(true, dirname.value, pos, [SLASH], BaseKey(basename, isDir));
          pos := pos + 1;
        case AtSlash =>
          path := isDir;
          if path && basename == [DOT] {
            path := false;
            state := Trailing;
          } else {
            state := InBase;
          }
          pos := 0;
        case InBase =>
          NameAhead(path, basename, pos, if path then [SLASH] else [], []);
          pos := pos + 1;
        case Trailing =>
          path := false;
          state := Done;
          pos := 0;
        case Done =>
      }
    }
  }

  /** Between two turns of the comparison, both walkers stand on characters of the same type. */
  ghost predicate InStep(wa: Walker, wb: Walker)
    reads wa, wb
  {
    && wa != wb && wa.Valid() && wb.Valid() && wa.path == wb.path
    && (wa.state != Trailing || !wa.path)
    && (wb.state != Trailing || !wb.path)
  }

  /** Moves both walkers past an equal character; decides if their types then differ. */
  method Pass(wa: Walker, wb: Walker) returns (o: Option<Ordering>)
    requires wa != wb && wa.Valid() && wb.Valid() && wa.Looking() && wb.Looking()
    modifies wa, wb
    ensures match o
            case Some(r) => Compare(old(wa.Rest())[1..], old(wb.Rest())[1..]) == r
            case None => InStep(wa, wb) && wa.Rest() == old(wa.Rest())[1..] && wb.Rest() == old(wb.Rest())[1..]
  {
    wa.Advance();
    wb.Advance();
    TypeOfFirst(wa);
    TypeOfFirst(wb);
    if wa.path != wb.path {
      var aMore := wa.CurrentChar();
      var bMore := wb.CurrentChar();
      if aMore.Some? || bMore.Some? {
        return Some(CompareType(wa.path, wb.path));
      }
    }
    o := None;
  }

  /** One turn of the comparison: a decision, or one equal character passed. */
  method Turn(wa: Walker, wb: Walker) returns (o: Option<Ordering>)
    requires InStep(wa, wb)
    modifies wa, wb
    ensures match o
            case Some(r) => Compare(old(wa.Rest()), old(wb.Rest())) == r
            case None =>
              && InStep(wa, wb) && old(wa.Rest()) != []
              && wa.Rest() == old(wa.Rest())[1..]
              && Compare(wa.Rest(), wb.Rest()) == Compare(old(wa.Rest()), old(wb.Rest()))
  {
    TypeOfFirst(wa);
    TypeOfFirst(wb);
    var ca := wa.CurrentChar();
    var cb := wb.CurrentChar();
    var ta, tb := wa.path, wb.path;
    match (ca, cb) {
      case (None, None) =>
        o := Some(Equal);
      case (None, Some(_)) =>
        o := Some(if ta != tb then CompareType(ta, tb) else Less);
      case (Some(_), None) =>
        o := Some(if ta != tb then CompareType(ta, tb) else Greater);
      case (Some(x), Some(y)) =>
        if x != y {
          return Some(CompareByte(x, y));
        }
        o := Pass(wa, wb);
    }
  }

  /** `f_name_cmp`: two walkers in lockstep compare the two keys. */
  method FNameCmp(a: FileEntry, b: FileEntry) returns (o: Ordering)
    ensures o == Compare(Key(a), Key(b))
  {
    var wa := new Walker(a);
    var wb := new Walker(b);
    TypeOfFirst(wa);
    TypeOfFirst(wb);
    if wa.path != wb.path {
      return CompareType(wa.path, wb.path);
    }
    while true
      invariant fresh(wa) && fresh(wb) && InStep(wa, wb)
      invariant Compare(wa.Rest(), wb.Rest()) == Compare(Key(a), Key(b))
      decreases |wa.Rest()|
    {
      var decided := Turn(wa, wb);
      if decided.Some? {
        return decided.value;
      }
    }
  }

  /** The walker's type is that of the character it will show next; an exhausted walker is an item. */
  lemma TypeOfFirst(w: Walker)
    requires w.Valid() && (w.state != Trailing || !w.path)
    ensures w.path <==> w.Rest() != [] && w.Rest()[0].path
  {
    if w.state == InDir {
      assert (w.dirname.value[w.pos..] + [SLASH]) != [];
    }
  }
}
