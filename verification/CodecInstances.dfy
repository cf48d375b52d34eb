/** Codecs that obey the laws: each kind of law can be met. */
module CodecInstances {
  import opened Bytes
  import opened Codecs
  import opened FlushTrailer

  // ---- Stored ----

  function Stored(): Compress {
    (_, chunk) => chunk
  }

  function Same(): seq<byte> -> seq<byte> {
    bytes => bytes
  }

  lemma {:induction false} StoredStream(chunks: seq<seq<byte>>)
    ensures StreamOf(Stored(), chunks) == Flatten(chunks)
  {
    if chunks != [] {
      var before, last := chunks[..|chunks| - 1], chunks[|chunks| - 1];
      StoredStream(before);
      FlattenOne(before, last);
      assert before + [last] == chunks;
    }
  }

  /** Stored data is a stream. */
  lemma StoredStreams()
    ensures StreamLaw(Stored(), Same())
  {
    forall chunks: seq<seq<byte>>
      ensures Restores(Stored(), Same(), chunks)
    {
      StoredStream(chunks);
    }
  }

  // ---- Escaped ----

  /** Every byte after a mark, and `end` after all. */
  function Escaped(data: seq<byte>, end: seq<byte>): (s: seq<byte>)
    ensures |s| == 2 * |data| + |end|
  {
    if data == [] then end else [1, data[0]] + Escaped(data[1..], end)
  }

  lemma EscapedHead(data: seq<byte>, end: seq<byte>, rest: seq<byte>)
    requires data != []
    ensures var s := Escaped(data, end) + rest;
            |s| >= 2 && s[0] == 1 && s[1] == data[0] && s[2..] == Escaped(data[1..], end) + rest
  {
  }

  function EncodeBlock(): seq<byte> -> seq<byte> {
    chunk => Escaped(chunk, [0])
  }

  function Unescaped(s: seq<byte>): (r: Option<seq<byte>>)
  {
    if s == [0] then Some([])
    else if |s| < 2 || s[0] != 1 then None
    else match Unescaped(s[2..]) case None => None case Some(d) => Some([s[1]] + d)
  }

  function DecodeBlock(): seq<byte> -> Option<seq<byte>> {
    s => Unescaped(s)
  }

  lemma {:induction false} BlockBack(data: seq<byte>)
    ensures Unescaped(Escaped(data, [0])) == Some(data)
  {
    if data != [] {
      EscapedHead(data, [0], []);
      assert Escaped(data, [0]) + [] == Escaped(data, [0]) && Escaped(data[1..], [0]) + [] == Escaped(data[1..], [0]);
      BlockBack(data[1..]);
      assert [data[0]] + data[1..] == data;
    }
  }

  lemma {:induction false} BlockCut(data: seq<byte>, n: nat)
    requires n < |Escaped(data, [0])|
    ensures Unescaped(Escaped(data, [0])[..n]) == None
  {
    if data != [] {
      EscapedHead(data, [0], []);
      assert Escaped(data, [0]) + [] == Escaped(data, [0]) && Escaped(data[1..], [0]) + [] == Escaped(data[1..], [0]);
      if n >= 2 {
        assert Escaped(data, [0])[..n][2..] == Escaped(data[1..], [0])[..n - 2];
        BlockCut(data[1..], n - 2);
      } else {
        assert n == 1 ==> Escaped(data, [0])[..n][0] == 1;
      }
    }
  }

  /** Escaped blocks with an end are decoded whole or not at all. */
  lemma EscapedBlocks()
    ensures BlockLaw(EncodeBlock(), DecodeBlock())
  {
    forall chunk: seq<byte>
      ensures BlockRestored(EncodeBlock(), DecodeBlock(), chunk)
    {
      BlockBack(chunk);
    }
    forall chunk: seq<byte>, n: nat
      ensures CutRefused(EncodeBlock(), DecodeBlock(), chunk, n)
    {
      if n < |EncodeBlock()(chunk)| {
        BlockCut(chunk, n);
      }
    }
  }

  // ---- Flushed ----

  const FLUSH: seq<byte> := [0] + SYNC_FLUSH_TRAILER

  function Flush(): Compress {
    (_, chunk) => Escaped(chunk, FLUSH)
  }

  function Inflate(): seq<byte> -> seq<byte> {
    s => Inflated(s)
  }

  function Inflated(s: seq<byte>): (r: seq<byte>)
  {
    if |s| >= 2 && s[0] == 1 then [s[1]] + Inflated(s[2..])
    else if |s| >= 5 && s[0] == 0 then Inflated(s[5..])
    else []
  }

  lemma {:induction false} InflatedKeeps(a: seq<byte>, b: seq<byte>)
    ensures Inflated(a) <= Inflated(a + b)
    decreases |a|
  {
    if |a| >= 2 && a[0] == 1 {
      assert (a + b)[2..] == a[2..] + b;
      InflatedKeeps(a[2..], b);
    } else if |a| >= 5 && a[0] == 0 {
      assert (a + b)[5..] == a[5..] + b;
      InflatedKeeps(a[5..], b);
    }
  }

  lemma {:induction false} InflatedChunk(data: seq<byte>, rest: seq<byte>)
    ensures Inflated(Escaped(data, FLUSH) + rest) == data + Inflated(rest)
  {
    if data == [] {
      assert (FLUSH + rest)[5..] == rest;
    } else {
      EscapedHead(data, FLUSH, rest);
      InflatedChunk(data[1..], rest);
      assert [data[0]] + (data[1..] + Inflated(rest)) == data + Inflated(rest);
    }
  }

  lemma {:induction false} InflatedStream(chunks: seq<seq<byte>>, rest: seq<byte>)
    ensures Inflated(StreamOf(Flush(), chunks) + rest) == Flatten(chunks) + Inflated(rest)
    decreases |chunks|
  {
    if chunks == [] {
      assert [] + rest == rest;
    } else {
      var before, last := chunks[..|chunks| - 1], chunks[|chunks| - 1];
      var s, e := StreamOf(Flush(), before), Escaped(last, FLUSH);
      Assoc(s, e, rest);
      InflatedStream(before, e + rest);
      InflatedChunk(last, rest);
      FlattenOne(before, last);
      assert before + [last] == chunks;
      Assoc(Flatten(before), last, Inflated(rest));
    }
  }

  lemma {:induction false} EndsFlushed(data: seq<byte>)
    ensures var s := Escaped(data, FLUSH); |s| > 4 && s[|s| - 4..] == SYNC_FLUSH_TRAILER
  {
    if data != [] {
      EndsFlushed(data[1..]);
      var s, t := Escaped(data, FLUSH), Escaped(data[1..], FLUSH);
      assert s == [1, data[0]] + t;
      assert s[|s| - 4..] == t[|t| - 4..];
    }
  }

  /** Escaped chunks that end in a flush obey the law of flushed streams. */
  lemma FlushedStreams()
    ensures FlushLaw(Flush(), Inflate())
  {
    forall a: seq<byte>, b: seq<byte>
      ensures Keeps(Inflate(), a, b)
    {
      InflatedKeeps(a, b);
    }
    forall chunks: seq<seq<byte>>
      ensures Restores(Flush(), Inflate(), chunks)
    {
      InflatedStream(chunks, []);
      assert StreamOf(Flush(), chunks) + [] == StreamOf(Flush(), chunks);
    }
    forall history: seq<seq<byte>>, chunk: seq<byte>
      ensures Flushed(Flush(), history, chunk)
    {
      EndsFlushed(chunk);
    }
  }
}
