/** Extended attributes of a file list: sets of named values, deduplicated. */
module Xattr {
  import opened Bytes
  import opened Varint
  import opened Dedup
  import opened Exchange

  datatype XattrEntry = XattrEntry(name: seq<byte>, value: seq<byte>)

  type Attributes = seq<XattrEntry>

  // ---- One attribute ----

  predicate EntryFits(e: XattrEntry) {
    |e.name| < 0x1_0000_0000 && |e.value| < 0x1_0000_0000
  }

  function WriteEntry(e: XattrEntry): seq<byte>
    requires EntryFits(e)
  {
    WriteVarint(|e.name|) + (WriteVarint(|e.value|) + (e.name + e.value))
  }

  function ReadEntry(s: seq<byte>): (r: Option<(XattrEntry, seq<byte>)>) {
    match ReadVarint(s)
    case None => None
    case Some((n, s1)) =>
      match ReadVarint(s1)
      case None => None
      case Some((v, s2)) =>
        if |s2| < n + v then None else Some((XattrEntry(s2[..n], s2[n..n + v]), s2[n + v..]))
  }

  lemma EntryRead(e: XattrEntry, rest: seq<byte>)
    requires EntryFits(e)
    ensures ReadEntry(WriteEntry(e) + rest) == Some((e, rest))
  {
    var n, v, data := WriteVarint(|e.name|), WriteVarint(|e.value|), e.name + e.value;
    Assoc(n, v + data, rest);
    Assoc(v, data, rest);
    VarintRoundTrip(|e.name|, v + (data + rest));
    VarintRoundTrip(|e.value|, data + rest);
    var s := data + rest;
    assert s[..|e.name|] == e.name && s[|e.name|..|data|] == e.value && s[|data|..] == rest;
  }

  function EntryFormat(): Format<XattrEntry> {
    Format(e => if EntryFits(e) then WriteEntry(e) else [], ReadEntry, e => e, e => EntryFits(e))
  }

  lemma EntryFaithful()
    ensures Faithful(EntryFormat())
  {
    forall e: XattrEntry, rest: seq<byte> | EntryFits(e)
      ensures EntryFormat().RoundTrips(e, rest)
    {
      EntryRead(e, rest);
    }
  }

  // ---- A set of attributes ----

  ghost predicate SetFits(xa: Attributes) {
    |xa| < 0x1_0000_0000 && forall i :: 0 <= i < |xa| ==> EntryFits(xa[i])
  }

  ghost function SetFormat(): Format<Attributes> {
    Format(xa => WriteList(EntryFormat(), xa), s => ReadList(EntryFormat(), s), xa => xa, xa => SetFits(xa))
  }

  lemma SetFaithful()
    ensures Faithful(SetFormat())
  {
    EntryFaithful();
    forall xa: Attributes, rest: seq<byte> | SetFits(xa)
      ensures SetFormat().RoundTrips(xa, rest)
    {
      ListRead(EntryFormat(), xa, rest);
      assert Normed(EntryFormat(), xa) == xa;
    }
  }

  function SetOf(x: Option<Attributes>): Attributes {
    match x case None => [] case Some(xa) => xa
  }

  /** No attributes at all are no entry. */
  function Presented(xa: Attributes): Option<Attributes> {
    if |xa| == 0 then None else Some(xa)
  }

  class XattrEncoder {
    var seen: seq<Attributes>

    constructor ()
      ensures seen == []
    {
      seen := [];
    }

    method EncodeXattrs(x: Option<Attributes>) returns (b: seq<byte>)
      requires SetFits(SetOf(x)) && |seen| < 0xFFFF_FFFF
      modifies this
      ensures b == Encoded(SetFormat(), old(seen), SetOf(x)) && seen == Seen(old(seen), SetOf(x))
    {
      var xa := SetOf(x);
      var p := FindPosition(seen, xa);
      if p.Some? {
        return WriteVarint(p.value + 1);
      }
      seen := seen + [xa];
      b := EncodeList(EntryFormat(), xa);
      b := WriteVarint(0) + b;
    }
  }

  class XattrDecoder {
    var seen: seq<Attributes>

    constructor ()
      ensures seen == []
    {
      seen := [];
    }

    method DecodeXattrs(s: seq<byte>) returns (r: Option<(Option<Attributes>, seq<byte>)>)
      modifies this
      ensures match Decoded(SetFormat(), old(seen), s)
              case None => r == None
              case Some((xa, seen', rest)) => r == Some((if xa == [] then None else Some(xa), rest)) && seen == seen'
    {
      var ndx := ReadVarint(s);
      if ndx.None? {
        return None;
      }
      if ndx.value.0 != 0 {
        var idx := ndx.value.0 - 1;
        return if idx >= |seen| then None else Some((Presented(seen[idx]), ndx.value.1));
      }
      var xa := DecodeList(EntryFormat(), ndx.value.1);
      if xa.None? {
        return None;
      }
      seen := seen + [xa.value.0];
      r := Some((Presented(xa.value.0), xa.value.1));
    }
  }

  // ---- A whole file list ----

  ghost predicate AllFit(files: seq<Option<Attributes>>) {
    |files| < 0xFFFF_FFFF && forall k :: 0 <= k < |files| ==> SetFits(SetOf(files[k]))
  }

  ghost function XattrCoding(): Coding<Option<Attributes>, seq<Attributes>, Option<Attributes>> {
    Coding((x: Option<Attributes>, seen: seq<Attributes>) =>
             if |seen| < 0xFFFF_FFFF then Encoded(SetFormat(), seen, SetOf(x)) else [],
           (x: Option<Attributes>, seen: seq<Attributes>) => Seen(seen, SetOf(x)),
           (_: Option<Attributes>, seen: seq<Attributes>, s: seq<byte>) => Presents(Decoded(SetFormat(), seen, s)),
           (x: Option<Attributes>) => Presented(SetOf(x)),
           (seen: seq<Attributes>) => seen)
  }

  ghost function Presents(r: Option<(Attributes, seq<Attributes>, seq<byte>)>)
    : Option<(Option<Attributes>, seq<Attributes>, seq<byte>)> {
    match r case None => None case Some((xa, seen, rest)) => Some((Presented(xa), seen, rest))
  }

  lemma {:induction false} SeenGrows(files: seq<Option<Attributes>>, n: nat)
    requires n <= |files|
    ensures |StateAfter(XattrCoding(), [], files, n)| <= n
  {
    if n > 0 {
      SeenGrows(files, n - 1);
    }
  }

  lemma FilePasses(x: Option<Attributes>, seen: seq<Attributes>)
    requires SetFits(SetOf(x)) && |seen| < 0xFFFF_FFFF
    ensures forall rest: seq<byte> :: XattrCoding().Comes(x, seen, rest)
  {
    SetFaithful();
    assert Normed(SetFormat(), seen) == seen && Normed(SetFormat(), Seen(seen, SetOf(x))) == Seen(seen, SetOf(x));
    forall rest: seq<byte>
      ensures XattrCoding().Comes(x, seen, rest)
    {
      OneDecoded(SetFormat(), seen, SetOf(x), rest);
    }
  }

  /**
   * The attributes of any sequence of files, encoded and decoded from fresh lists: every file gets
   * its own back, none for an empty set, and the two lists are equal.
   */
  lemma XattrsExchanged(files: seq<Option<Attributes>>, rest: seq<byte>)
    requires AllFit(files)
    ensures var c := XattrCoding();
            var r := ReadFrom(c, files, 0, [], BytesFrom(c, [], files, 0) + rest);
            && r == Some((Normal(c, files), StateAfter(c, [], files, |files|), rest))
            && |r.value.0| == |files|
            && forall k :: 0 <= k < |files| ==> r.value.0[k] == if files[k] == Some([]) then None else files[k]
  {
    var c := XattrCoding();
    forall k | 0 <= k < |files|
      ensures Passes(c, [], files, k)
    {
      SeenGrows(files, k);
      FilePasses(files[k], StateAfter(c, [], files, k));
    }
    AllRead(c, [], files, 0, rest);
    assert Normal(c, files)[0..] == Normal(c, files);
  }
}
