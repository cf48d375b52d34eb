/**
 * What the bytes of a glob pattern stand for, one law for each kind of element. The laws speak of
 * patterns as texts, element by element from the front, and of what such a text describes.
 */
module GlobLaws {
  import opened Bytes
  import opened Languages
  import opened Glob

  /** The text is one that the pattern, without leading and trailing slash, stands for. */
  ghost predicate Says(pat: Text, t: Text) {
    Elements(pat, 0).Some? && Splits(Elements(pat, 0).value, t)
  }

  // ---- What follows does not depend on what came before ----

  ghost function Moved(r: Option<(seq<byte>, nat)>, n: nat): Option<(seq<byte>, nat)> {
    match r case None => None case Some((chars, end)) => Some((chars, n + end))
  }

  lemma {:induction false} MembersMoved(p: Text, q: Text, i: nat)
    requires i <= |q|
    ensures Members(p + q, |p| + i) == Moved(Members(q, i), |p|)
    decreases |q| - i
  {
    var pat, n := p + q, |p|;
    if i < |q| && q[i] != CLOSE {
      assert pat[n + i] == q[i];
      if i + 2 < |q| && q[i + 1] == DASH {
        assert pat[n + i + 1] == q[i + 1] && pat[n + i + 2] == q[i + 2];
        MembersMoved(p, q, i + 3);
      } else {
        assert i + 2 < |q| ==> pat[n + i + 1] == q[i + 1];
        MembersMoved(p, q, i + 1);
      }
    } else if i < |q| {
      assert pat[n + i] == q[i];
    }
  }

  lemma {:induction false} ListedMoved(p: Text, q: Text, i: nat, c: byte)
    requires i <= |q|
    ensures Listed(p + q, |p| + i, c) <==> Listed(q, i, c)
    decreases |q| - i
  {
    var pat, n := p + q, |p|;
    if i < |q| && q[i] != CLOSE {
      assert pat[n + i] == q[i];
      if i + 2 < |q| && q[i + 1] == DASH {
        assert pat[n + i + 1] == q[i + 1] && pat[n + i + 2] == q[i + 2];
        ListedMoved(p, q, i + 3, c);
      } else {
        assert i + 2 < |q| ==> pat[n + i + 1] == q[i + 1];
        ListedMoved(p, q, i + 1, c);
      }
    } else if i < |q| {
      assert pat[n + i] == q[i];
    }
  }

  lemma ClassMoved(p: Text, q: Text, at: nat, negated: bool)
    requires at <= |q|
    ensures ClassLang(p + q, |p| + at, negated) == ClassLang(q, at, negated)
  {
    forall t: Text | |t| == 1
      ensures t in ClassLang(p + q, |p| + at, negated) <==> t in ClassLang(q, at, negated)
    {
      ListedMoved(p, q, at, t[0]);
    }
  }

  /** A class that ends at `end`, or does not end. */
  ghost predicate EndsAt(pat: Text, at: nat, end: Option<nat>) {
    match Members(pat, at) case None => end == None case Some((_, e)) => end == Some(e)
  }

  lemma {:induction false} ClassElement(pat: Text, i: nat, at: nat, negated: bool, end: Option<nat>)
    requires i < |pat| && pat[i] == OPEN && Inside(pat, i) == (at, negated) && EndsAt(pat, at, end)
    ensures Elements(pat, i)
         == if end.None? then None else Before(ClassLang(pat, at, negated), Elements(pat, end.value))
  {
  }

  lemma {:induction false} EndMoved(p: Text, q: Text, at: nat) returns (end: Option<nat>)
    requires at <= |q|
    ensures EndsAt(q, at, end) && EndsAt(p + q, |p| + at, if end.None? then None else Some(|p| + end.value))
    ensures end.Some? ==> at < end.value <= |q|
  {
    MembersMoved(p, q, at);
    end := match Members(q, at) case None => None case Some((_, e)) => Some(e);
  }

  lemma {:induction false} InsideMoved(p: Text, q: Text, i: nat)
    requires i < |q|
    ensures Inside(p + q, |p| + i) == (|p| + Inside(q, i).0, Inside(q, i).1) && i < Inside(q, i).0 <= |q|
  {
    assert i + 1 < |q| ==> (p + q)[|p| + i + 1] == q[i + 1];
  }

  lemma {:induction false} ClassElementMoved(p: Text, q: Text, i: nat)
    requires i < |q| && q[i] == OPEN
    requires forall j: nat :: i < j <= |q| ==> Elements(p + q, |p| + j) == Elements(q, j)
    ensures Elements(p + q, |p| + i) == Elements(q, i)
  {
    var n := |p|;
    var (at, negated) := Inside(q, i);
    assert (p + q)[n + i] == q[i];
    InsideMoved(p, q, i);
    ClassMoved(p, q, at, negated);
    var end := EndMoved(p, q, at);
    ClassElement(q, i, at, negated, end);
    ClassElement(p + q, n + i, n + at, negated, if end.None? then None else Some(n + end.value));
  }

  lemma {:induction false} OtherElementMoved(p: Text, q: Text, i: nat)
    requires i < |q| && q[i] != OPEN
    requires forall j: nat :: i < j <= |q| ==> Elements(p + q, |p| + j) == Elements(q, j)
    ensures Elements(p + q, |p| + i) == Elements(q, i)
  {
    var pat, n := p + q, |p|;
    assert pat[n + i] == q[i];
    assert i + 1 < |q| ==> pat[n + i + 1] == q[i + 1];
    assert i + 2 < |q| ==> pat[n + i + 2] == q[i + 2];
    assert Elements(pat, n + (i + 1)) == Elements(q, i + 1);
    assert i + 2 <= |q| ==> Elements(pat, n + (i + 2)) == Elements(q, i + 2);
    assert i + 3 <= |q| ==> Elements(pat, n + (i + 3)) == Elements(q, i + 3);
  }

  lemma {:induction false} ElementsMoved(p: Text, q: Text, i: nat)
    requires i <= |q|
    ensures Elements(p + q, |p| + i) == Elements(q, i)
    decreases |q| - i
  {
    if i < |q| {
      forall j: nat | i < j <= |q|
        ensures Elements(p + q, |p| + j) == Elements(q, j)
      {
        ElementsMoved(p, q, j);
      }
      if q[i] == OPEN {
        ClassElementMoved(p, q, i);
      } else {
        OtherElementMoved(p, q, i);
      }
    }
  }

  lemma RestSays(p: Text, q: Text)
    ensures Elements(p + q, |p|) == Elements(q, 0)
  {
    ElementsMoved(p, q, 0);
  }

  /** A first element before the rest. */
  lemma FirstSays(pat: Text, l: Language, rest: Text, t: Text)
    requires Elements(pat, 0) == Before(l, Elements(rest, 0))
    ensures Says(pat, t) <==> exists i: nat :: i <= |t| && t[..i] in l && Says(rest, t[i..])
  {
    if Elements(rest, 0).Some? {
      var langs := Elements(rest, 0).value;
      SplitsFirst(l, langs, t);
      assert forall i: nat :: CutAt(l, langs, t, i) <==> i <= |t| && t[..i] in l && Says(rest, t[i..]);
    }
  }

  /** A first element that takes one byte. */
  lemma OneSays(pat: Text, l: Language, rest: Text, t: Text)
    requires Elements(pat, 0) == Before(l, Elements(rest, 0)) && forall x :: x in l ==> |x| == 1
    ensures Says(pat, t) <==> t != [] && [t[0]] in l && Says(rest, t[1..])
  {
    FirstSays(pat, l, rest, t);
    if t != [] {
      assert t[..1] == [t[0]];
    }
  }

  // ---- The laws ----

  /** An empty pattern stands for the empty text. */
  lemma EmptySays(t: Text)
    ensures Says([], t) <==> t == []
  {
    SplitsNone(t);
  }

  /** A byte other than "*", "?" and "[" stands for itself. */
  lemma PlainSays(c: byte, rest: Text, t: Text)
    requires c != 0x2A && c != 0x3F && c != 0x5B
    ensures Says([c] + rest, t) <==> t != [] && t[0] == c && Says(rest, t[1..])
  {
    RestSays([c], rest);
    OneSays([c] + rest, Only([c]), rest, t);
  }

  /** "?" stands for one byte that is not a slash. */
  lemma QuestionSays(rest: Text, t: Text)
    ensures Says([0x3F] + rest, t) <==> t != [] && t[0] != 0x2F && Says(rest, t[1..])
  {
    RestSays([0x3F], rest);
    OneSays([0x3F] + rest, LangOf(Question), rest, t);
  }

  /** A single "*" stands for any bytes without a slash. */
  lemma StarSays(rest: Text, t: Text)
    requires rest == [] || rest[0] != 0x2A
    ensures Says([0x2A] + rest, t) <==> exists i: nat :: i <= |t| && 0x2F !in t[..i] && Says(rest, t[i..])
  {
    var pat := [0x2A] + rest;
    assert rest != [] ==> pat[1] == rest[0];
    RestSays([0x2A], rest);
    FirstSays(pat, LangOf(Star), rest, t);
    assert forall i: nat :: i <= |t| ==> (t[..i] in LangOf(Star) <==> 0x2F !in t[..i]);
  }

  /** "**" stands for any bytes at all, and a slash after it belongs to it. */
  lemma DoubleStarSays(rest: Text, t: Text)
    ensures var after := if rest != [] && rest[0] == 0x2F then rest[1..] else rest;
            Says([0x2A, 0x2A] + rest, t) <==> exists i: nat :: i <= |t| && Says(after, t[i..])
  {
    var pat := [0x2A, 0x2A] + rest;
    if rest != [] && rest[0] == 0x2F {
      assert pat == [0x2A, 0x2A, 0x2F] + rest[1..];
      RestSays([0x2A, 0x2A, 0x2F], rest[1..]);
      FirstSays(pat, LangOf(DoubleStar), rest[1..], t);
    } else {
      assert rest != [] ==> pat[2] == rest[0];
      RestSays([0x2A, 0x2A], rest);
      FirstSays(pat, LangOf(DoubleStar), rest, t);
    }
    assert forall i: nat :: i <= |t| ==> t[..i] in LangOf(DoubleStar);
  }

  // ---- Classes ----

  /** Where the class whose bytes begin the text ends, if it does. */
  ghost predicate Closes(body: Text, end: nat) {
    end <= |body| && Members(body, 0).Some? && Members(body, 0).value.1 == end
  }

  ghost predicate Negates(c: byte) {
    c == 0x21 || c == 0x5E
  }

  ghost predicate Opens(head: Text, body: Text, negated: bool) {
    if negated then |head| == 2 && head[0] == 0x5B && Negates(head[1])
    else head == [0x5B] && (body == [] || !Negates(body[0]))
  }

  lemma OpensInside(head: Text, body: Text, negated: bool)
    requires Opens(head, body, negated)
    ensures Inside(head + body, 0) == (|head|, negated) && (head + body)[0] == OPEN
  {
    var pat := head + body;
    assert |head| == 2 ==> pat[1] == head[1];
    assert |head| == 1 && body != [] ==> pat[1] == body[0];
  }

  /** The first element of a class and what follows it. */
  lemma {:induction false} ClassFirst(head: Text, body: Text, end: nat, negated: bool)
    requires Closes(body, end) && Opens(head, body, negated)
    ensures Elements(head + body, 0) == Before(ClassLang(body, 0, negated), Elements(body[end..], 0))
  {
    OpensInside(head, body, negated);
    var e := EndMoved(head, body, 0);
    ClassElement(head + body, 0, |head|, negated, Some(|head| + end));
    ClassMoved(head, body, 0, negated);
    var front := head + body[..end];
    assert head + body == front + body[end..];
    RestSays(front, body[end..]);
  }

  /** The class after its opening: a byte it lists, or one it does not list, and then the rest. */
  lemma {:induction false} ClassSays(head: Text, body: Text, end: nat, negated: bool, t: Text)
    requires Closes(body, end) && Opens(head, body, negated)
    ensures Says(head + body, t) <==> t != [] && (Listed(body, 0, t[0]) != negated) && Says(body[end..], t[1..])
  {
    ClassFirst(head, body, end, negated);
    OneSays(head + body, ClassLang(body, 0, negated), body[end..], t);
  }

  /**
   * A leading "!" or "^" negates: with any class that closes and does not itself begin with one, the
   * negated class takes exactly the bytes that the plain one does not.
   */
  lemma NegationSays(body: Text, end: nat, t: Text)
    requires Closes(body, end) && body != [] && !Negates(body[0]) && t != [] && Says(body[end..], t[1..])
    ensures Says([0x5B] + body, t) <==> !Says([0x5B, 0x21] + body, t)
    ensures Says([0x5B, 0x21] + body, t) <==> Says([0x5B, 0x5E] + body, t)
  {
    ClassSays([0x5B], body, end, false, t);
    ClassSays([0x5B, 0x21], body, end, true, t);
    ClassSays([0x5B, 0x5E], body, end, true, t);
  }

  /** Bytes without a dash and a closing bracket are listed one by one. */
  lemma {:induction false} PlainListed(s: Text, rest: Text, c: byte)
    requires 0x2D !in s && 0x5D !in s
    ensures Closes(s + [0x5D] + rest, |s| + 1) && (Listed(s + [0x5D] + rest, 0, c) <==> c in s)
  {
    var body := s + [0x5D] + rest;
    if s == [] {
      assert body[0] == CLOSE;
    } else {
      var more := s[1..] + [0x5D] + rest;
      assert body == [s[0]] + more;
      assert |s| > 1 ==> body[1] == s[1];
      assert |s| == 1 ==> body[1] == CLOSE;
      assert s[0] in s;
      PlainListed(s[1..], rest, c);
      MembersMoved([s[0]], more, 0);
      ListedMoved([s[0]], more, 0, c);
      assert c in s <==> c == s[0] || c in s[1..];
    }
  }

  /** "[" and plain bytes and "]" stands for one of these bytes; negated, for one that is none of them. */
  lemma ListSays(s: Text, rest: Text, t: Text)
    requires 0x2D !in s && 0x5D !in s
    ensures s == [] || !Negates(s[0]) ==>
              (Says([0x5B] + (s + [0x5D] + rest), t) <==> t != [] && t[0] in s && Says(rest, t[1..]))
    ensures Says([0x5B, 0x21] + (s + [0x5D] + rest), t) <==> t != [] && t[0] !in s && Says(rest, t[1..])
    ensures Says([0x5B, 0x5E] + (s + [0x5D] + rest), t) <==> t != [] && t[0] !in s && Says(rest, t[1..])
  {
    var body := s + [0x5D] + rest;
    assert body[|s| + 1..] == rest;
    PlainListed(s, rest, if t == [] then 0 else t[0]);
    ClassSays([0x5B, 0x21], body, |s| + 1, true, t);
    ClassSays([0x5B, 0x5E], body, |s| + 1, true, t);
    if s == [] || !Negates(s[0]) {
      assert body[0] == if s == [] then CLOSE else s[0];
      ClassSays([0x5B], body, |s| + 1, false, t);
    }
  }

  /** A range lists the bytes from its first to its last, before whatever else the class lists. */
  lemma RangeListed(lo: byte, hi: byte, body: Text, end: nat, c: byte)
    requires lo != 0x5D && Closes(body, end)
    ensures Closes([lo, 0x2D, hi] + body, end + 3)
    ensures Listed([lo, 0x2D, hi] + body, 0, c) <==> lo <= c <= hi || Listed(body, 0, c)
  {
    MembersMoved([lo, 0x2D, hi], body, 0);
    ListedMoved([lo, 0x2D, hi], body, 0, c);
  }

  /** "[" a range "]" stands for one byte in that range. */
  lemma RangeSays(lo: byte, hi: byte, rest: Text, t: Text)
    requires lo != 0x5D && !Negates(lo)
    ensures Says([0x5B] + ([lo, 0x2D, hi] + ([0x5D] + rest)), t)
       <==> t != [] && lo <= t[0] <= hi && Says(rest, t[1..])
  {
    var body := [0x5D] + rest;
    assert Closes(body, 1);
    RangeListed(lo, hi, body, 1, if t == [] then 0 else t[0]);
    assert ([lo, 0x2D, hi] + body)[4..] == rest;
    ClassSays([0x5B], [lo, 0x2D, hi] + body, 4, false, t);
  }

  /** A class that is not closed makes the pattern invalid. */
  lemma UnclosedFails(body: Text)
    requires 0x5D !in body && (body == [] || !Negates(body[0]))
    ensures Elements([0x5B] + body, 0) == None
  {
    var pat := [0x5B] + body;
    assert body != [] ==> pat[1] == body[0];
    NeverCloses(body, 0);
    MembersMoved([0x5B], body, 0);
  }

  lemma {:induction false} NeverCloses(body: Text, i: nat)
    requires 0x5D !in body
    ensures Members(body, i) == None
    decreases |body| - i
  {
    if i < |body| {
      NeverCloses(body, i + 1);
      NeverCloses(body, i + 3);
    }
  }

  /** "[!a]" stands for every single byte but "a". */
  lemma NotA(t: Text)
    ensures Says([0x5B, 0x21, 0x61, 0x5D], t) <==> |t| == 1 && t[0] != 0x61
  {
    ListSays([0x61], [], t);
    assert [0x5B, 0x21] + ([0x61] + [0x5D] + []) == [0x5B, 0x21, 0x61, 0x5D];
    if t != [] {
      EmptySays(t[1..]);
    }
  }

  // ---- Whole patterns ----

  /** What the slashes at both ends of a pattern say, for a body that has none there. */
  lemma SlashesSay(body: Text)
    requires body != [] && body[0] != 0x2F && body[|body| - 1] != 0x2F
    ensures Body(body) == Body([0x2F] + body) == Body(body + [0x2F]) == Body([0x2F] + body + [0x2F]) == body
    ensures !DirOnly(body) && !DirOnly([0x2F] + body) && DirOnly(body + [0x2F]) && DirOnly([0x2F] + body + [0x2F])
    ensures Anchored([0x2F] + body) && Anchored([0x2F] + body + [0x2F])
    ensures Anchored(body) <==> 0x2F in body
    ensures Anchored(body + [0x2F]) <==> 0x2F in body
  {
    assert ([0x2F] + body)[1..] == body && (body + [0x2F])[..|body|] == body;
    assert ([0x2F] + body + [0x2F])[1..] == body + [0x2F];
  }

  /** A pattern stands for what its body stands for. */
  lemma DescribesBody(body: Text, t: Text)
    requires body != [] && body[0] != 0x2F && body[|body| - 1] != 0x2F
    ensures Describes(body, t) <==> Says(body, t)
    ensures Describes([0x2F] + body, t) <==> Says(body, t)
    ensures Describes(body + [0x2F], t) <==> Says(body, t)
    ensures Describes([0x2F] + body + [0x2F], t) <==> Says(body, t)
  {
    SlashesSay(body);
  }
}
