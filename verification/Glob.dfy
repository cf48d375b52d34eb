/** Glob patterns of filter rules: compilation into segments and backtracking match. */
module Glob {
  import opened Bytes
  import opened Languages
  import SortOrder

  const STAR: byte := 0x2A
  const QUESTION: byte := 0x3F
  const OPEN: byte := 0x5B
  const CLOSE: byte := 0x5D
  const BANG: byte := 0x21
  const CARET: byte := 0x5E
  const DASH: byte := 0x2D
  const SLASH: byte := SortOrder.SLASH

  datatype Segment = Star | DoubleStar | Question | Literal(bytes: Text) | CharClass(chars: seq<byte>, negated: bool)

  /** The texts a segment stands for. */
  ghost function LangOf(s: Segment): Language {
    match s
    case Star => iset t: Text | SLASH !in t
    case DoubleStar => iset t: Text | |t| >= 0
    case Question => iset t: Text | |t| == 1 && t[0] != SLASH
    case Literal(l) => Only(l)
    case CharClass(chars, negated) => iset t: Text | |t| == 1 && ((t[0] in chars) != negated)
  }

  ghost function LangsFrom(segs: seq<Segment>, k: nat): (l: seq<Language>)
    requires k <= |segs|
    decreases |segs| - k
  {
    if k == |segs| then [] else [LangOf(segs[k])] + LangsFrom(segs, k + 1)
  }

  // ---- Matching ----

  /** A text matches exactly when it splits into pieces, one for each segment from `k` on. */
  method MatchRecursive(segs: seq<Segment>, text: Text, k: nat) returns (r: bool)
    requires k <= |segs|
    ensures r <==> Splits(LangsFrom(segs, k), text)
    decreases |segs| - k
  {
    if k == |segs| {
      SplitsNone(text);
      return |text| == 0;
    }
    ghost var first, rest := LangOf(segs[k]), LangsFrom(segs, k + 1);
    match segs[k] {
      case Literal(l) =>
        OnlySplits(l, rest, text);
        if l <= text {
          r := MatchRecursive(segs, text[|l|..], k + 1);
        } else {
          r := false;
        }
      case Star =>
        r := MatchStar(segs, text, k);
      case DoubleStar =>
        r := MatchDoubleStar(segs, text, k);
      case Question =>
        r := MatchOne(segs, text, k, |text| > 0 && text[0] != SLASH);
      case CharClass(chars, negated) =>
        r := MatchOne(segs, text, k, |text| > 0 && ((text[0] in chars) != negated));
    }
  }

  /** A segment that takes one byte, if `fits` says that it takes this one. */
  method MatchOne(segs: seq<Segment>, text: Text, k: nat, fits: bool) returns (r: bool)
    requires k < |segs| && (forall t :: t in LangOf(segs[k]) ==> |t| == 1)
    requires fits <==> |text| > 0 && text[..1] in LangOf(segs[k])
    ensures r <==> Splits(LangsFrom(segs, k), text)
    decreases |segs| - k, 0
  {
    ghost var first, rest := LangOf(segs[k]), LangsFrom(segs, k + 1);
    OneSplits(first, rest, text);
    if fits {
      r := MatchRecursive(segs, text[1..], k + 1);
    } else {
      r := false;
    }
  }

  method MatchStar(segs: seq<Segment>, text: Text, k: nat) returns (r: bool)
    requires k < |segs| && segs[k] == Star
    ensures r <==> Splits(LangsFrom(segs, k), text)
    decreases |segs| - k, 0
  {
    ghost var first, rest := LangOf(segs[k]), LangsFrom(segs, k + 1);
    SplitsFirst(first, rest, text);
    var i := 0;
    while i <= |text|
      invariant 0 <= i <= |text| + 1
      invariant SLASH !in text[..Min(i, |text|)] || (i > 0 && SLASH !in text[..i - 1])
      invariant forall j: nat :: j < i ==> !CutAt(first, rest, text, j)
    {
      if i > 0 && text[i - 1] == SLASH {
        break;
      }
      assert i > 0 ==> text[..i] == text[..i - 1] + [text[i - 1]];
      var m := MatchRecursive(segs, text[i..], k + 1);
      if m {
        assert CutAt(first, rest, text, i);
        return true;
      }
      i := i + 1;
    }
    forall j: nat
      ensures !CutAt(first, rest, text, j)
    {
      if i <= j <= |text| {
        assert text[..j][i - 1] == SLASH;
      }
    }
    r := false;
  }

  method MatchDoubleStar(segs: seq<Segment>, text: Text, k: nat) returns (r: bool)
    requires k < |segs| && segs[k] == DoubleStar
    ensures r <==> Splits(LangsFrom(segs, k), text)
    decreases |segs| - k, 0
  {
    ghost var first, rest := LangOf(segs[k]), LangsFrom(segs, k + 1);
    SplitsFirst(first, rest, text);
    for i := 0 to |text| + 1
      invariant forall j: nat :: j < i ==> !CutAt(first, rest, text, j)
    {
      var m := MatchRecursive(segs, text[i..], k + 1);
      if m {
        assert CutAt(first, rest, text, i);
        return true;
      }
    }
    r := false;
  }

  lemma OneSplits(first: Language, rest: seq<Language>, text: Text)
    requires forall t :: t in first ==> |t| == 1
    ensures Splits([first] + rest, text) <==> |text| > 0 && text[..1] in first && Splits(rest, text[1..])
  {
    if Splits([first] + rest, text) {
      var i := SplitsCut(first, rest, text);
    }
    if |text| > 0 && text[..1] in first && Splits(rest, text[1..]) {
      CutSplits(first, rest, text, 1);
    }
  }

  // ---- The pattern, byte by byte ----

  /** Bytes listed in a class from `i` on, and the place after its closing bracket. */
  function Members(pat: Text, i: nat): (r: Option<(seq<byte>, nat)>)
    ensures r.Some? ==> i < r.value.1 <= |pat|
    decreases |pat| - i
  {
    if i >= |pat| then None
    else if pat[i] == CLOSE then Some(([], i + 1))
    else if i + 2 < |pat| && pat[i + 1] == DASH then
      (match Members(pat, i + 3)
       case None => None
       case Some((more, end)) => Some((Range(pat[i], pat[i + 2]) + more, end)))
    else
      match Members(pat, i + 1) case None => None case Some((more, end)) => Some(([pat[i]] + more, end))
  }

  function Range(lo: byte, hi: byte): (s: seq<byte>)
    ensures forall c: byte :: c in s <==> lo <= c <= hi
    decreases hi
  {
    if lo > hi then [] else if lo == hi then [hi] else Range(lo, hi - 1) + [hi]
  }

  /** `c` stands in the class itself or in one of its ranges; a range may take the closing bracket. */
  ghost predicate Listed(pat: Text, i: nat, c: byte)
    decreases |pat| - i
  {
    if i >= |pat| || pat[i] == CLOSE then false
    else if i + 2 < |pat| && pat[i + 1] == DASH then pat[i] <= c <= pat[i + 2] || Listed(pat, i + 3, c)
    else c == pat[i] || Listed(pat, i + 1, c)
  }

  lemma {:induction false} MembersListed(pat: Text, i: nat, c: byte)
    ensures Members(pat, i).Some? ==> (c in Members(pat, i).value.0 <==> Listed(pat, i, c))
    decreases |pat| - i
  {
    if i < |pat| && pat[i] != CLOSE {
      MembersListed(pat, if i + 2 < |pat| && pat[i + 1] == DASH then i + 3 else i + 1, c);
    }
  }

  /** The bytes collected are those listed, and the class ends at a bracket. */
  lemma {:induction false} ClassBytes(pat: Text, i: nat)
    ensures Members(pat, i).Some? ==>
              var (chars, end) := Members(pat, i).value;
              pat[end - 1] == 0x5D && forall c: byte :: c in chars <==> Listed(pat, i, c)
  {
    if Members(pat, i).Some? {
      ClassEnds(pat, i);
      forall c: byte
        ensures c in Members(pat, i).value.0 <==> Listed(pat, i, c)
      {
        MembersListed(pat, i, c);
      }
    }
  }

  lemma {:induction false} ClassEnds(pat: Text, i: nat)
    requires Members(pat, i).Some?
    ensures pat[Members(pat, i).value.1 - 1] == CLOSE
    decreases |pat| - i
  {
    if pat[i] != CLOSE {
      ClassEnds(pat, if i + 2 < |pat| && pat[i + 1] == DASH then i + 3 else i + 1);
    }
  }

  /** Where a class that opens at `i` lists its bytes, and whether it is negated. */
  function Inside(pat: Text, i: nat): (nat, bool)
  {
    if i + 1 < |pat| && (pat[i + 1] == BANG || pat[i + 1] == CARET) then (i + 2, true) else (i + 1, false)
  }

  /** One language for each element of the pattern from `i` on; None if a class is not closed. */
  ghost function Elements(pat: Text, i: nat): Option<seq<Language>>
    decreases |pat| - i
  {
    if i >= |pat| then Some([])
    else if pat[i] == STAR && i + 1 < |pat| && pat[i + 1] == STAR then
      // a slash after it belongs to it
      Before(LangOf(DoubleStar), Elements(pat, if i + 2 < |pat| && pat[i + 2] == SLASH then i + 3 else i + 2))
    else if pat[i] == STAR then Before(LangOf(Star), Elements(pat, i + 1))
    else if pat[i] == QUESTION then Before(LangOf(Question), Elements(pat, i + 1))
    else if pat[i] == OPEN then
      var (at, negated) := Inside(pat, i);
      match Members(pat, at)
      case None => None
      case Some((_, end)) => Before(ClassLang(pat, at, negated), Elements(pat, end))
    else Before(Only([pat[i]]), Elements(pat, i + 1))
  }

  ghost function ClassLang(pat: Text, at: nat, negated: bool): Language {
    iset t: Text | |t| == 1 && (Listed(pat, at, t[0]) != negated)
  }

  ghost function Before(l: Language, rest: Option<seq<Language>>): Option<seq<Language>> {
    match rest case None => None case Some(ls) => Some([l] + ls)
  }

  // ---- Compilation ----

  ghost function Prefixed(segs: seq<Segment>, rest: Option<seq<Segment>>): Option<seq<Segment>> {
    match rest case None => None case Some(more) => Some(segs + more)
  }

  predicate Plain(c: byte) {
    c != STAR && c != QUESTION && c != OPEN
  }

  function LiteralEnd(pat: Text, i: nat): (j: nat)
    requires i <= |pat|
    ensures i <= j <= |pat| && forall k :: i <= k < j ==> Plain(pat[k])
    ensures j < |pat| ==> !Plain(pat[j])
    decreases |pat| - i
  {
    if i < |pat| && Plain(pat[i]) then LiteralEnd(pat, i + 1) else i
  }

  /** The segment at `i` and the place after it. */
  function SegmentAt(pat: Text, i: nat): (r: Option<(Segment, nat)>)
    requires i < |pat|
    ensures r.Some? ==> i < r.value.1 <= |pat|
  {
    if pat[i] == STAR then
      if i + 1 < |pat| && pat[i + 1] == STAR then
        Some((DoubleStar, if i + 2 < |pat| && pat[i + 2] == SLASH then i + 3 else i + 2))
      else Some((Star, i + 1))
    else if pat[i] == QUESTION then Some((Question, i + 1))
    else if pat[i] == OPEN then
      match Members(pat, Inside(pat, i).0)
      case None => None
      case Some((chars, end)) => Some((CharClass(chars, Inside(pat, i).1), end))
    else Some((Literal(pat[i..LiteralEnd(pat, i)]), LiteralEnd(pat, i)))
  }

  ghost function Compiled(pat: Text, i: nat): Option<seq<Segment>>
    decreases |pat| - i
  {
    if i >= |pat| then Some([]) else
    match SegmentAt(pat, i)
    case None => None
    case Some((seg, next)) => Prefixed([seg], Compiled(pat, next))
  }

  ghost function Collected(chars: seq<byte>, rest: Option<(seq<byte>, nat)>): Option<(seq<byte>, nat)> {
    match rest case None => None case Some((more, end)) => Some((chars + more, end))
  }

  lemma CollectedNone(rest: Option<(seq<byte>, nat)>)
    ensures Collected([], rest) == rest
  {
    assert rest.Some? ==> [] + rest.value.0 == rest.value.0;
  }

  lemma CollectedTwice(a: seq<byte>, b: seq<byte>, rest: Option<(seq<byte>, nat)>)
    ensures Collected(a, Collected(b, rest)) == Collected(a + b, rest)
  {
    if rest.Some? {
      Assoc(a, b, rest.value.0);
    }
  }

  method PushRange(lo: byte, hi: byte) returns (chars: seq<byte>)
    ensures chars == Range(lo, hi)
  {
    chars := [];
    var c := lo as int;
    while c <= hi
      invariant lo <= c && (lo <= hi ==> c <= hi + 1) && (lo > hi ==> c == lo)
      invariant chars == if c == lo then [] else Range(lo, c - 1)
    {
      chars := chars + [c];
      c := c + 1;
    }
  }

  method ParseCharClass(pat: Text, start: nat) returns (r: Option<(Segment, nat)>)
    requires start < |pat| && pat[start] == OPEN
    ensures r == SegmentAt(pat, start)
    ensures var negated := start + 1 < |pat| && (pat[start + 1] == 0x21 || pat[start + 1] == 0x5E);
            r.Some? ==>
              && r.value.0.CharClass? && r.value.0.negated == negated
              && start < r.value.1 <= |pat| && pat[r.value.1 - 1] == 0x5D
              && forall c: byte :: c in r.value.0.chars <==> Listed(pat, start + (if negated then 2 else 1), c)
  {
    ClassBytes(pat, Inside(pat, start).0);
    var (at, negated) := Inside(pat, start);
    var i, chars := at, [];
    CollectedNone(Members(pat, at));
    while i < |pat| && pat[i] != CLOSE
      invariant at <= i
      invariant Members(pat, at) == Collected(chars, Members(pat, i))
      decreases |pat| - i
    {
      if i + 2 < |pat| && pat[i + 1] == DASH {
        var range := PushRange(pat[i], pat[i + 2]);
        CollectedTwice(chars, range, Members(pat, i + 3));
        chars, i := chars + range, i + 3;
      } else {
        CollectedTwice(chars, [pat[i]], Members(pat, i + 1));
        chars, i := chars + [pat[i]], i + 1;
      }
    }
    if i >= |pat| {
      return None;
    }
    assert chars + [] == chars;
    r := Some((CharClass(chars, negated), i + 1));
  }

  method NextSegment(pat: Text, i: nat) returns (r: Option<(Segment, nat)>)
    requires i < |pat|
    ensures r == SegmentAt(pat, i)
  {
    if pat[i] == STAR {
      if i + 1 < |pat| && pat[i + 1] == STAR {
        var next := i + 2;
        if next < |pat| && pat[next] == SLASH {
          next := next + 1;
        }
        return Some((DoubleStar, next));
      }
      return Some((Star, i + 1));
    }
    if pat[i] == QUESTION {
      return Some((Question, i + 1));
    }
    if pat[i] == OPEN {
      r := ParseCharClass(pat, i);
      return;
    }
    var j := i;
    while j < |pat| && Plain(pat[j])
      invariant i <= j <= |pat| && LiteralEnd(pat, i) == LiteralEnd(pat, j)
    {
      j := j + 1;
    }
    r := Some((Literal(pat[i..j]), j));
  }

  method Compile(pat: Text) returns (r: Option<seq<Segment>>)
    ensures r == Compiled(pat, 0)
  {
    var segs, i := [], 0;
    assert Compiled(pat, 0) == Prefixed([], Compiled(pat, 0)) by {
      assert Compiled(pat, 0).Some? ==> [] + Compiled(pat, 0).value == Compiled(pat, 0).value;
    }
    while i < |pat|
      invariant 0 <= i <= |pat| && Compiled(pat, 0) == Prefixed(segs, Compiled(pat, i))
      decreases |pat| - i
    {
      var next := NextSegment(pat, i);
      if next.None? {
        return None;
      }
      PrefixedTwice(segs, next.value.0, Compiled(pat, next.value.1));
      segs, i := segs + [next.value.0], next.value.1;
    }
    assert segs + [] == segs;
    r := Some(segs);
  }

  lemma PrefixedTwice(segs: seq<Segment>, seg: Segment, rest: Option<seq<Segment>>)
    ensures Prefixed(segs, Prefixed([seg], rest)) == Prefixed(segs + [seg], rest)
  {
    if rest.Some? {
      Assoc(segs, [seg], rest.value);
    }
  }

  // ---- The compiled pattern means what the pattern says ----

  /** A stretch of plain bytes is one element each. */
  lemma {:induction false} ElementsOfLiteral(pat: Text, i: nat, j: nat)
    requires i <= j <= |pat| && forall k :: i <= k < j ==> Plain(pat[k])
    ensures Elements(pat, i) == match Elements(pat, j) case None => None case Some(ls) => Some(Each(pat[i..j]) + ls)
    decreases j - i
  {
    if i == j {
      assert pat[i..j] == [];
      assert Elements(pat, j).Some? ==> [] + Elements(pat, j).value == Elements(pat, j).value;
    } else {
      ElementsOfLiteral(pat, i + 1, j);
      assert pat[i..j][0] == pat[i] && pat[i..j][1..] == pat[i + 1..j];
      if Elements(pat, j).Some? {
        Assoc([Only([pat[i]])], Each(pat[i + 1..j]), Elements(pat, j).value);
      }
    }
  }

  lemma ClassSame(pat: Text, at: nat, negated: bool)
    requires Members(pat, at).Some?
    ensures LangOf(CharClass(Members(pat, at).value.0, negated)) == ClassLang(pat, at, negated)
  {
    forall t: Text | |t| == 1
      ensures t in LangOf(CharClass(Members(pat, at).value.0, negated)) <==> t in ClassLang(pat, at, negated)
    {
      MembersListed(pat, at, t[0]);
    }
  }

  lemma LangsOfPrefixed(seg: Segment, more: seq<Segment>)
    ensures LangsFrom([seg] + more, 0) == [LangOf(seg)] + LangsFrom(more, 0)
  {
    LangsShift(seg, more, 0);
  }

  lemma {:induction false} LangsShift(seg: Segment, more: seq<Segment>, k: nat)
    requires k <= |more|
    ensures LangsFrom([seg] + more, k + 1) == LangsFrom(more, k)
    decreases |more| - k
  {
    if k < |more| {
      LangsShift(seg, more, k + 1);
      assert ([seg] + more)[k + 1] == more[k];
    }
  }

  /** The compiled pattern fails where the pattern does, and otherwise accepts the same texts. */
  lemma {:induction false} CompiledSame(pat: Text, i: nat)
    requires i <= |pat|
    ensures Compiled(pat, i).Some? <==> Elements(pat, i).Some?
    ensures Compiled(pat, i).Some? ==> Same(LangsFrom(Compiled(pat, i).value, 0), Elements(pat, i).value)
    decreases |pat| - i
  {
    if i == |pat| {
      assert forall text: Text :: SameOn([], [], text);
    } else if SegmentAt(pat, i).Some? {
      var (seg, next) := SegmentAt(pat, i).value;
      CompiledSame(pat, next);
      if seg.Literal? {
        ElementsOfLiteral(pat, i, next);
      }
      if seg.CharClass? {
        ClassSame(pat, Inside(pat, i).0, Inside(pat, i).1);
      }
      if Compiled(pat, next).Some? {
        var a, b := LangsFrom(Compiled(pat, next).value, 0), Elements(pat, next).value;
        LangsOfPrefixed(seg, Compiled(pat, next).value);
        if seg.Literal? {
          LiteralSame(seg.bytes, a, b);
        } else {
          SameAfter(LangOf(seg), a, b);
        }
      }
    }
  }

  // ---- Whole patterns ----

  datatype Pattern = Pattern(anchored: bool, dirOnly: bool, segments: seq<Segment>)

  /** The pattern without its leading and its trailing slash. */
  function Body(pattern: Text): Text {
    var rest := if |pattern| > 0 && pattern[0] == SLASH then pattern[1..] else pattern;
    if |rest| > 0 && rest[|rest| - 1] == SLASH then rest[..|rest| - 1] else rest
  }

  predicate Anchored(pattern: Text) {
    (|pattern| > 0 && pattern[0] == SLASH) || SLASH in Body(pattern)
  }

  /** A trailing slash that is not also the leading one. */
  predicate DirOnly(pattern: Text) {
    var rest := if |pattern| > 0 && pattern[0] == SLASH then pattern[1..] else pattern;
    |rest| > 0 && rest[|rest| - 1] == SLASH
  }

  /** A text as the pattern describes it. */
  ghost predicate Describes(pattern: Text, text: Text) {
    Elements(Body(pattern), 0).Some? && Splits(Elements(Body(pattern), 0).value, text)
  }

  method NewPattern(pattern: Text) returns (r: Option<Pattern>)
    ensures r.Some? <==> Elements(Body(pattern), 0).Some?
    ensures r.Some? ==>
              && r.value.anchored == Anchored(pattern) && r.value.dirOnly == DirOnly(pattern)
              && forall text: Text :: Splits(LangsFrom(r.value.segments, 0), text) <==> Describes(pattern, text)
  {
    var anchored, dirOnly, pat := false, false, pattern;
    if |pat| > 0 && pat[0] == SLASH {
      anchored, pat := true, pat[1..];
    }
    if |pat| > 0 && pat[|pat| - 1] == SLASH {
      dirOnly, pat := true, pat[..|pat| - 1];
    }
    if SLASH in pat {
      anchored := true;
    }
    var segments := Compile(pat);
    CompiledSame(pat, 0);
    if segments.None? {
      return None;
    }
    forall text: Text
      ensures Splits(LangsFrom(segments.value, 0), text) <==> Describes(pattern, text)
    {
      assert SameOn(LangsFrom(segments.value, 0), Elements(pat, 0).value, text);
    }
    r := Some(Pattern(anchored, dirOnly, segments.value));
  }

  /**
   * A compiled pattern matches a path exactly when it describes the path or, if not anchored, its
   * last component; patterns for directories match nothing else.
   */
  method Matches(ghost pattern: Text, compiled: Pattern, path: Text, isDir: bool) returns (r: bool)
    requires compiled.anchored == Anchored(pattern) && compiled.dirOnly == DirOnly(pattern)
    requires forall text: Text :: Splits(LangsFrom(compiled.segments, 0), text) <==> Describes(pattern, text)
    ensures r <==> (DirOnly(pattern) ==> isDir) &&
                   (|| Describes(pattern, path)
                    || (!Anchored(pattern) && Describes(pattern, path[SortOrder.AfterLastSlash(path, |path|)..])))
  {
    if compiled.dirOnly && !isDir {
      return false;
    }
    r := MatchRecursive(compiled.segments, path, 0);
    if compiled.anchored || r {
      return;
    }
    var start := SortOrder.AfterLastSlash(path, |path|);
    if start > 0 {
      r := MatchRecursive(compiled.segments, path[start..], 0);
    } else {
      assert path[0..] == path;
    }
  }

  /** The class "[a-]" is not closed: the bracket is taken as the end of a range. */
  lemma OpenRange()
    ensures Elements([OPEN, 0x61, DASH, CLOSE], 0) == None
  {
    var pat: Text := [OPEN, 0x61, DASH, CLOSE];
    assert Members(pat, 4) == None;
    assert Members(pat, 1) == None;
  }

  /** The class "[A-]]" closes at the second bracket and lists everything from "A" to the first. */
  lemma BracketInRange(c: byte)
    ensures var pat: Text := [OPEN, 0x41, DASH, CLOSE, CLOSE];
            && Elements(pat, 0) == Some([ClassLang(pat, 1, false)])
            && ([c] in ClassLang(pat, 1, false) <==> 0x41 <= c <= CLOSE)
  {
    var pat: Text := [OPEN, 0x41, DASH, CLOSE, CLOSE];
    assert Members(pat, 4) == Some(([], 5));
    assert Members(pat, 1).Some? && Members(pat, 1).value.1 == 5;
    assert Elements(pat, 5) == Some([]);
    assert [ClassLang(pat, 1, false)] + [] == [ClassLang(pat, 1, false)];
    assert !Listed(pat, 4, c);
  }
}
