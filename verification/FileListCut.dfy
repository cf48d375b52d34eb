/** What a receiver of file lists refuses: other markers, and streams that end before their end marker. */
module FileListCut {
  import opened Bytes
  import opened SortOrder
  import opened CanonicalOrder
  import opened DirectoryTree
  import opened FileIndex
  import opened FileListWire
  import opened FileListReceipt

  /** Between two lists only a directory's marker or the end marker is taken. */
  lemma OtherMarkersRefused(v: int, rest: seq<Item>, next: int, r: Receipt)
    requires v > -101
    ensures ListsRead([Marker(v)] + rest, next, r) == if v == -2 then Some(r) else None
  {
  }

  lemma {:induction false} CutList(s: seq<Item>, got: seq<FileEntry>, k: nat)
    requires ListRead(s, got).Some? && k <= |s|
    ensures var (list, rest) := ListRead(s, got).value;
            && |rest| < |s|
            && if k < |s| - |rest| then ListRead(s[..k], got) == None
               else ListRead(s[..k], got) == Some((list, rest[..k - (|s| - |rest|)]))
  {
    if k > 0 {
      assert s[..k][0] == s[0] && s[..k][1..] == s[1..][..k - 1];
      if s[0].Entry? {
        CutList(s[1..], got + [s[0].entry], k - 1);
      }
    } else {
      ListReadShrinks(s, got);
    }
  }

  /** The stream ends with the end marker: everything in it was taken. */
  ghost predicate EndsWithMarker(s: seq<Item>) {
    s != [] && s[|s| - 1] == Marker(NDX_FLIST_EOF) && forall k :: 0 <= k < |s| - 1 ==> s[k] != Marker(NDX_FLIST_EOF)
  }

  lemma {:induction false} ListsReadHead(s: seq<Item>, next: int, r: Receipt)
    requires ListsRead(s, next, r).Some? && s[0] != Marker(NDX_FLIST_EOF)
    ensures s[0].Marker? && s[0].value <= NDX_FLIST_OFFSET && ListRead(s[1..], []).Some?
  {
  }

  lemma {:induction false} ListsReadNone(s: seq<Item>, next: int, r: Receipt)
    requires s == [] || (s[0] != Marker(NDX_FLIST_EOF) && ListRead(s[1..], []).None?)
    ensures ListsRead(s, next, r) == None
  {
  }

  /** The rest of a stream that ends with its marker, after some of it. */
  lemma EndsLater(s: seq<Item>, n: nat)
    requires EndsWithMarker(s) && n < |s|
    ensures EndsWithMarker(s[n..])
  {
  }

  lemma {:induction false} CutLists(s: seq<Item>, next: int, r: Receipt, k: nat)
    requires EndsWithMarker(s) && ListsRead(s, next, r).Some? && k < |s|
    ensures ListsRead(s[..k], next, r) == None
    decreases |s|
  {
    if k == 0 {
      ListsReadNone(s[..k], next, r);
    } else {
      var tail := s[1..];
      assert s[..k][0] == s[0] && s[..k][1..] == tail[..k - 1];
      ListsReadHead(s, next, r);
      var (list, rest) := ListRead(tail, []).value;
      CutList(tail, [], k - 1);
      RestOfStream(tail, []);
      var used := |tail| - |rest|;
      if k - 1 < used {
        ListsReadNone(s[..k], next, r);
      } else {
        var next', r' := next + |list| + 1, Noted(r, list, next);
        ListsReadStep(s, next, r, list, rest, next', r');
        ListsReadStep(s[..k], next, r, list, rest[..k - 1 - used], next', r');
        EndsLater(s, 1 + used);
        assert s[1 + used..] == rest;
        CutLists(rest, next', r', k - 1 - used);
      }
    }
  }

  lemma {:induction false} RestOfStream(s: seq<Item>, got: seq<FileEntry>)
    requires ListRead(s, got).Some?
    ensures var rest := ListRead(s, got).value.1; |rest| < |s| && rest == s[|s| - |rest|..]
  {
    if s[0].Entry? {
      RestOfStream(s[1..], got + [s[0].entry]);
    }
  }

  lemma {:induction false} FileListStep(s: seq<Item>, list: seq<FileEntry>, rest: seq<Item>)
    requires ListRead(s, []) == Some((list, rest))
    ensures FileListRead(s) == ListsRead(rest, |list| + 2, Noted(Receipt([], [], 0), list, 1))
  {
  }

  lemma {:induction false} FileListNone(s: seq<Item>)
    requires ListRead(s, []).None?
    ensures FileListRead(s) == None
  {
  }

  lemma {:induction false} CutInFirst(s: seq<Item>, k: nat)
    requires ListRead(s, []).Some? && k < |s| - |ListRead(s, []).value.1|
    ensures FileListRead(s[..k]) == None
  {
    CutList(s, [], k);
    FileListNone(s[..k]);
  }

  lemma {:induction false} CutAfterFirst(s: seq<Item>, k: nat, list: seq<FileEntry>, rest: seq<Item>, used: nat,
                                         next: int, r: Receipt)
    requires ListRead(s, []) == Some((list, rest)) && next == |list| + 2 && r == Noted(Receipt([], [], 0), list, 1)
    requires used + |rest| == |s| && used <= k <= |s| && ListsRead(rest[..k - used], next, r) == None
    ensures FileListRead(s[..k]) == None
  {
    CutList(s, [], k);
    assert |s| - |rest| == used;
    assert ListRead(s[..k], []) == Some((list, rest[..k - used]));
    FileListStep(s[..k], list, rest[..k - used]);
  }

  lemma {:induction false} CutRest(s: seq<Item>, k: nat, rest: seq<Item>, used: nat, next: int, r: Receipt)
    requires EndsWithMarker(s) && used <= k < |s| && rest == s[used..] && ListsRead(rest, next, r).Some?
    ensures ListsRead(rest[..k - used], next, r) == None
  {
    EndsLater(s, used);
    CutLists(rest, next, r, k - used);
  }

  /** A file list that was received is not received from any proper beginning of its stream. */
  lemma {:induction false} CutFileList(s: seq<Item>, k: nat)
    requires EndsWithMarker(s) && FileListRead(s).Some? && k < |s|
    ensures FileListRead(s[..k]) == None
  {
    if ListRead(s, []).None? {
      FileListNone(s);
    }
    var (list, rest) := ListRead(s, []).value;
    RestOfStream(s, []);
    var used, next, r := |s| - |rest|, |list| + 2, Noted(Receipt([], [], 0), list, 1);
    if k < used {
      CutInFirst(s, k);
    } else {
      FileListStep(s, list, rest);
      CutRest(s, k, rest, used, next, r);
      CutAfterFirst(s, k, list, rest, used, next, r);
    }
  }

  lemma {:induction false} ListUnmarked(es: seq<FileEntry>, members: seq<nat>, k: nat, start: int)
    requires k <= |members| && Indices(es, members)
    ensures forall i :: 0 <= i < |ListFrom(es, members, k, start)| ==> !ListFrom(es, members, k, start)[i].Marker?
    decreases |members| - k
  {
    if k < |members| {
      ListUnmarked(es, members, k + 1, start);
    }
  }

  lemma EndsAfter(a: seq<Item>, b: seq<Item>)
    requires EndsWithMarker(b) && forall i :: 0 <= i < |a| ==> a[i] != Marker(NDX_FLIST_EOF)
    ensures EndsWithMarker(a + b)
  {
  }

  lemma {:induction false} StreamEnds(es: seq<FileEntry>, groups: seq<Group>, g: nat)
    requires g <= |groups| && AllIndices(es, groups) && Numberable(groups)
    ensures EndsWithMarker(StreamFrom(es, groups, g))
    decreases |groups| - g
  {
    if g == |groups| {
      assert StreamFrom(es, groups, g) == [Marker(NDX_FLIST_EOF)];
    } else {
      var mark, list := Announced(g, groups[g]), ListFrom(es, groups[g].members, 0, StartOf(groups, g));
      var rest := StreamFrom(es, groups, g + 1);
      StreamEnds(es, groups, g + 1);
      ListUnmarked(es, groups[g].members, 0, StartOf(groups, g));
      EndsAfter(list, rest);
      EndsAfter(mark, list + rest);
    }
  }

  /** What the sender of a sorted, parented list sends cannot be received before its end has come. */
  lemma CutStream(es: seq<FileEntry>, groups: seq<Group>, order: seq<nat>, k: nat)
    requires Sorted(es) && Indices(es, order) && Grouped(es, groups, order, |order|)
    requires AllIndices(es, groups) && Numberable(groups) && k < |StreamFrom(es, groups, 0)|
    ensures FileListRead(StreamFrom(es, groups, 0)[..k]) == None
  {
    WholeStreamRead(es, groups, order);
    StreamEnds(es, groups, 0);
    CutFileList(StreamFrom(es, groups, 0), k);
  }
}
