/** Texts that split into consecutive pieces, one for each language of a list. */
module Languages {
  import opened Bytes

  type Text = seq<byte>
  type Language = iset<Text>

  ghost predicate Pieces(langs: seq<Language>, pieces: seq<Text>, text: Text) {
    && |pieces| == |langs| && Flatten(pieces) == text
    && forall k :: 0 <= k < |langs| ==> pieces[k] in langs[k]
  }

  ghost predicate Splits(langs: seq<Language>, text: Text) {
    exists pieces: seq<Text> :: Pieces(langs, pieces, text)
  }

  lemma SplitsNone(text: Text)
    ensures Splits([], text) <==> text == []
  {
    if text == [] {
      assert Pieces([], [], text);
    }
  }

  /** The first piece ends at `i`. */
  ghost predicate CutAt(first: Language, rest: seq<Language>, text: Text, i: nat) {
    i <= |text| && text[..i] in first && Splits(rest, text[i..])
  }

  lemma CutSplits(first: Language, rest: seq<Language>, text: Text, i: nat)
    requires CutAt(first, rest, text, i)
    ensures Splits([first] + rest, text)
  {
    var more: seq<Text> :| Pieces(rest, more, text[i..]);
    var pieces := [text[..i]] + more;
    assert pieces[1..] == more && text[..i] + text[i..] == text;
    assert Pieces([first] + rest, pieces, text);
  }

  lemma SplitsCut(first: Language, rest: seq<Language>, text: Text) returns (i: nat)
    requires Splits([first] + rest, text)
    ensures CutAt(first, rest, text, i)
  {
    var langs := [first] + rest;
    var pieces: seq<Text> :| Pieces(langs, pieces, text);
    assert |pieces| == |langs| > 0;
    i := |pieces[0]|;
    assert pieces != [] && Flatten(pieces) == text;
    assert text == pieces[0] + Flatten(pieces[1..]);
    assert text[..i] == pieces[0] && text[i..] == Flatten(pieces[1..]);
    assert langs[0] == first && langs[1..] == rest;
    assert Pieces(rest, pieces[1..], text[i..]) by {
      forall k | 0 <= k < |rest|
        ensures pieces[1..][k] in rest[k]
      {
        assert pieces[k + 1] in langs[k + 1];
      }
    }
  }

  lemma SplitsFirst(first: Language, rest: seq<Language>, text: Text)
    ensures Splits([first] + rest, text) <==> exists i: nat :: CutAt(first, rest, text, i)
  {
    if Splits([first] + rest, text) {
      var i := SplitsCut(first, rest, text);
    }
    if i: nat :| CutAt(first, rest, text, i) {
      CutSplits(first, rest, text, i);
    }
  }

  // ---- Lists that accept the same texts ----

  ghost predicate SameOn(a: seq<Language>, b: seq<Language>, text: Text) {
    Splits(a, text) <==> Splits(b, text)
  }

  ghost predicate Same(a: seq<Language>, b: seq<Language>) {
    forall text: Text :: SameOn(a, b, text)
  }

  /** A common first language keeps lists the same. */
  lemma SameAfter(first: Language, a: seq<Language>, b: seq<Language>)
    requires Same(a, b)
    ensures Same([first] + a, [first] + b)
  {
    forall text: Text
      ensures SameOn([first] + a, [first] + b, text)
    {
      if Splits([first] + a, text) {
        var i := SplitsCut(first, a, text);
        assert SameOn(a, b, text[i..]);
        CutSplits(first, b, text, i);
      }
      if Splits([first] + b, text) {
        var i := SplitsCut(first, b, text);
        assert SameOn(a, b, text[i..]);
        CutSplits(first, a, text, i);
      }
    }
  }

  /** The language of one text, */
  ghost function Only(l: Text): Language {
    iset{l}
  }

  /** and one language for each of its bytes. */
  ghost function Each(l: Text): seq<Language>
  {
    if l == [] then [] else [Only([l[0]])] + Each(l[1..])
  }

  lemma {:induction false} EachSplits(l: Text, rest: seq<Language>, text: Text)
    ensures Splits(Each(l) + rest, text) <==> l <= text && Splits(rest, text[|l|..])
    decreases |l|
  {
    if l == [] {
      assert Each(l) + rest == rest && text[0..] == text;
    } else {
      var first, more := Only([l[0]]), Each(l[1..]) + rest;
      assert Each(l) + rest == [first] + more;
      if Splits([first] + more, text) {
        var i := SplitsCut(first, more, text);
        EachSplits(l[1..], rest, text[i..]);
        assert text[..i] == [l[0]];
        assert l == [l[0]] + l[1..] && text == text[..1] + text[1..];
        assert text[1..][|l| - 1..] == text[|l|..];
      }
      if l <= text && Splits(rest, text[|l|..]) {
        assert text[1..][|l| - 1..] == text[|l|..] && l[1..] <= text[1..];
        EachSplits(l[1..], rest, text[1..]);
        assert text[..1] == [l[0]];
        CutSplits(first, more, text, 1);
      }
    }
  }

  lemma OnlySplits(l: Text, rest: seq<Language>, text: Text)
    ensures Splits([Only(l)] + rest, text) <==> l <= text && Splits(rest, text[|l|..])
  {
    if Splits([Only(l)] + rest, text) {
      var i := SplitsCut(Only(l), rest, text);
    }
    if l <= text && Splits(rest, text[|l|..]) {
      assert text[..|l|] == l;
      CutSplits(Only(l), rest, text, |l|);
    }
  }

  /** A literal in one piece or byte by byte is the same. */
  lemma LiteralSame(l: Text, a: seq<Language>, b: seq<Language>)
    requires Same(a, b)
    ensures Same([Only(l)] + a, Each(l) + b)
  {
    forall text: Text
      ensures SameOn([Only(l)] + a, Each(l) + b, text)
    {
      OnlySplits(l, a, text);
      EachSplits(l, b, text);
      if l <= text {
        assert SameOn(a, b, text[|l|..]);
      }
    }
  }
}
