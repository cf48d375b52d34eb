/** Wire form of block signatures: a header of four integers, then both checksums of every block. */
module SumWire {
  import opened Bytes
  import opened Signatures

  const MAX_BLOCK_COUNT: int := 16 * 1024 * 1024
  const MAX_S2LENGTH: int := 64

  datatype Error = EndOfStream | OutOfRange | ChecksumMismatch | Undecodable
  datatype Result<+T> = Ok(value: T) | Err(error: Error)

  function WriteSumHead(h: SumHead): (b: seq<byte>)
    ensures |b| == 16
  {
    WriteInt(h.count) + WriteInt(h.blength) + WriteInt(h.s2length) + WriteInt(h.remainder)
  }

  function ReadSumHead(s: seq<byte>): (r: Result<(SumHead, seq<byte>)>)
  {
    if |s| < 16 then Err(EndOfStream)
    else
      var count := ReadInt(s).value.0;
      var blength := ReadInt(s[4..]).value.0;
      var s2length := ReadInt(s[8..]).value.0;
      var remainder := ReadInt(s[12..]).value.0;
      Ok((SumHead(count, blength, s2length, remainder), s[16..]))
  }

  lemma SumHeadRoundTrip(h: SumHead, rest: seq<byte>)
    ensures ReadSumHead(WriteSumHead(h) + rest) == Ok((h, rest))
  {
    var a, b := WriteInt(h.count), WriteInt(h.blength);
    var c, d := WriteInt(h.s2length), WriteInt(h.remainder);
    var s := WriteSumHead(h) + rest;
    assert s == a + (b + c + d + rest);
    IntRoundTrip(h.count, b + c + d + rest);
    assert s[4..] == b + (c + d + rest);
    IntRoundTrip(h.blength, c + d + rest);
    assert s[8..] == c + (d + rest);
    IntRoundTrip(h.s2length, d + rest);
    assert s[12..] == d + rest;
    IntRoundTrip(h.remainder, rest);
    assert s[16..] == rest;
  }

  /** The entries from `k` on. */
  ghost function EntryBytes(sums: seq<SumEntry>, k: nat): seq<byte>
    requires k <= |sums|
    decreases |sums| - k
  {
    if k == |sums| then [] else LittleEndian32(sums[k].sum1) + sums[k].sum2 + EntryBytes(sums, k + 1)
  }

  ghost function SumBytes(s: SumStruct): seq<byte>
  {
    WriteSumHead(s.head) + EntryBytes(s.sums, 0)
  }

  method WriteSums(s: SumStruct) returns (b: seq<byte>)
    ensures b == SumBytes(s)
  {
    b := WriteSumHead(s.head);
    for k := 0 to |s.sums|
      invariant b + EntryBytes(s.sums, k) == SumBytes(s)
    {
      var entry := LittleEndian32(s.sums[k].sum1) + s.sums[k].sum2;
      ghost var more := EntryBytes(s.sums, k + 1);
      assert b + (entry + more) == b + entry + more;
      b := b + entry;
    }
  }

  /** One entry from the front of the stream. */
  function ReadEntry(s: seq<byte>, s2: nat): (r: Option<(SumEntry, seq<byte>)>)
  {
    if |s| < 4 + s2 then None
    else Some((SumEntry(FromLittleEndian32(s[..4]), s[4..4 + s2]), s[4 + s2..]))
  }

  lemma EntryRoundTrip(e: SumEntry, rest: seq<byte>)
    ensures ReadEntry(LittleEndian32(e.sum1) + e.sum2 + rest, |e.sum2|) == Some((e, rest))
  {
    var s := LittleEndian32(e.sum1) + e.sum2 + rest;
    LittleEndian32RoundTrip(e.sum1);
    assert s[..4] == LittleEndian32(e.sum1);
    assert s[4..4 + |e.sum2|] == e.sum2;
    assert s[4 + |e.sum2|..] == rest;
  }

  /** What reading `count` entries yields. */
  ghost function ParseEntries(s: seq<byte>, count: nat, s2: nat): Option<(seq<SumEntry>, seq<byte>)>
  {
    if count == 0 then Some(([], s))
    else
      match ReadEntry(s, s2)
      case None => None
      case Some((e, rest)) => Prepended([e], ParseEntries(rest, count - 1, s2))
  }

  ghost function Prepended(es: seq<SumEntry>, r: Option<(seq<SumEntry>, seq<byte>)>): Option<(seq<SumEntry>, seq<byte>)>
  {
    match r case None => None case Some((more, rest)) => Some((es + more, rest))
  }

  method ReadEntries(s: seq<byte>, count: nat, s2: nat) returns (r: Option<(seq<SumEntry>, seq<byte>)>)
    ensures r == ParseEntries(s, count, s2)
  {
    var at, done: seq<SumEntry> := s, [];
    assert ParseEntries(s, count, s2) == Prepended(done, ParseEntries(s, count, s2)) by {
      PrependedNothing(ParseEntries(s, count, s2));
    }
    for k := 0 to count
      invariant ParseEntries(s, count, s2) == Prepended(done, ParseEntries(at, count - k, s2))
    {
      var e := ReadEntry(at, s2);
      if e.None? {
        return None;
      }
      PrependedTwice(done, [e.value.0], ParseEntries(e.value.1, count - k - 1, s2));
      done := done + [e.value.0];
      at := e.value.1;
    }
    assert done + [] == done;
    r := Some((done, at));
  }

  lemma PrependedNothing(r: Option<(seq<SumEntry>, seq<byte>)>)
    ensures Prepended([], r) == r
  {
    if r.Some? {
      assert [] + r.value.0 == r.value.0;
    }
  }

  lemma PrependedTwice(a: seq<SumEntry>, b: seq<SumEntry>, r: Option<(seq<SumEntry>, seq<byte>)>)
    ensures Prepended(a, Prepended(b, r)) == Prepended(a + b, r)
  {
    if r.Some? {
      assert a + (b + r.value.0) == a + b + r.value.0;
    }
  }

  /** What reading and validating signatures yields. */
  ghost function ParseSums(s: seq<byte>): Result<(SumStruct, seq<byte>)>
  {
    match ReadSumHead(s)
    case Err(e) => Err(e)
    case Ok((head, at)) =>
      if !(0 <= head.count <= MAX_BLOCK_COUNT && 0 <= head.s2length <= MAX_S2LENGTH) then Err(OutOfRange)
      else
        match ParseEntries(at, head.count, head.s2length)
        case None => Err(EndOfStream)
        case Some((entries, rest)) => Ok((SumStruct(head, entries), rest))
  }

  method ReadSums(s: seq<byte>) returns (r: Result<(SumStruct, seq<byte>)>)
    ensures r == ParseSums(s)
  {
    var h := ReadSumHead(s);
    if h.Err? {
      return Err(h.error);
    }
    var (head, at) := h.value;
    if head.count < 0 || head.count > MAX_BLOCK_COUNT || head.s2length < 0 || head.s2length > MAX_S2LENGTH {
      return Err(OutOfRange);
    }
    var entries := ReadEntries(at, head.count, head.s2length);
    if entries.None? {
      return Err(EndOfStream);
    }
    r := Ok((SumStruct(head, entries.value.0), entries.value.1));
  }

  /** The header counts the entries and gives the length of their strong sums. */
  ghost predicate Sized(s: SumStruct) {
    && s.head.count == |s.sums|
    && s.head.s2length >= 0
    && forall k :: 0 <= k < |s.sums| ==> |s.sums[k].sum2| == s.head.s2length
  }

  lemma {:induction false} EntriesRoundTrip(sums: seq<SumEntry>, k: nat, s2: nat, rest: seq<byte>)
    requires k <= |sums| && forall j :: 0 <= j < |sums| ==> |sums[j].sum2| == s2
    ensures ParseEntries(EntryBytes(sums, k) + rest, |sums| - k, s2) == Some((sums[k..], rest))
    decreases |sums| - k
  {
    if k == |sums| {
      assert EntryBytes(sums, k) + rest == rest;
    } else {
      EntriesRoundTrip(sums, k + 1, s2, rest);
      var more := EntryBytes(sums, k + 1);
      assert EntryBytes(sums, k) + rest == LittleEndian32(sums[k].sum1) + sums[k].sum2 + (more + rest);
      EntryRoundTrip(sums[k], more + rest);
      assert [sums[k]] + sums[k + 1..] == sums[k..];
    }
  }

  /** Signatures survive the wire unless they exceed the limits the reader enforces. */
  lemma SumsRoundTrip(s: SumStruct, rest: seq<byte>)
    requires Sized(s)
    ensures ParseSums(SumBytes(s) + rest)
         == if s.head.count <= MAX_BLOCK_COUNT && s.head.s2length <= MAX_S2LENGTH
            then Ok((s, rest)) else Err(OutOfRange)
  {
    var entries := EntryBytes(s.sums, 0);
    assert SumBytes(s) + rest == WriteSumHead(s.head) + (entries + rest);
    SumHeadRoundTrip(s.head, entries + rest);
    EntriesRoundTrip(s.sums, 0, s.head.s2length, rest);
    assert s.sums[0..] == s.sums;
  }

  lemma {:induction false} CutEntries(s: seq<byte>, count: nat, s2: nat, k: nat)
    requires ParseEntries(s, count, s2).Some? && k < |s| - |ParseEntries(s, count, s2).value.1|
    ensures ParseEntries(s[..k], count, s2) == None
  {
    if k >= 4 + s2 {
      var rest := s[4 + s2..];
      assert s[..k][4 + s2..] == rest[..k - (4 + s2)];
      CutEntries(rest, count - 1, s2, k - (4 + s2));
    }
  }

  /** Signatures that can be read cannot be read from any proper beginning of them. */
  lemma {:induction false} CutSums(s: seq<byte>, k: nat)
    requires ParseSums(s).Ok? && k < |s| - |ParseSums(s).value.1|
    ensures ParseSums(s[..k]) == Err(EndOfStream)
  {
    if k >= 16 {
      var head, at := ReadSumHead(s).value.0, s[16..];
      SameHead(s, k);
      assert s[..k][16..] == at[..k - 16];
      CutEntries(at, head.count, head.s2length, k - 16);
    }
  }

  lemma SameHead(s: seq<byte>, k: nat)
    requires 16 <= k <= |s|
    ensures ReadSumHead(s[..k]) == Ok((ReadSumHead(s).value.0, s[16..k]))
  {
    var t := s[..k];
    assert t[..4] == s[..4] && t[4..][..4] == s[4..][..4] && t[8..][..4] == s[8..][..4] && t[12..][..4] == s[12..][..4];
    assert t[16..] == s[16..k];
  }
}
