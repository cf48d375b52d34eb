/**
 * zlib on the wire: the writer cuts the flush trailer off the last chunk before a match or the end,
 * the reader adds one to every frame. The decompressor is given what the compressor produced
 * exactly when every chunk is such a last one and fits in a frame.
 */
module FlushTrailer {
  import opened Bytes
  import opened DeltaToken
  import opened CompressedTokens
  import opened CompressedReader
  import opened Codecs

  const SYNC_FLUSH_TRAILER: seq<byte> := [0x00, 0x00, 0xFF, 0xFF]

  function Deflating(enc: Compress, all: seq<byte> -> seq<byte>): Codec {
    Codec(enc, (fed, input) => Some(Fresh(all, Flatten(fed), input)), SYNC_FLUSH_TRAILER)
  }

  /** Output, if there is any, ends in a flush: some byte and the trailer. */
  ghost predicate Flushed(enc: Compress, history: seq<seq<byte>>, chunk: seq<byte>) {
    var output := enc(history, chunk);
    output == [] || (|output| > 4 && output[|output| - 4..] == SYNC_FLUSH_TRAILER)
  }

  ghost predicate FlushLaw(enc: Compress, all: seq<byte> -> seq<byte>) {
    StreamLaw(enc, all) && forall history: seq<seq<byte>>, chunk: seq<byte> :: Flushed(enc, history, chunk)
  }

  // ---- One chunk ----

  /** The chunk's output goes out whole, in one frame without its trailer, or there is none. */
  ghost predicate Whole(enc: Compress, history: seq<seq<byte>>, send: Send) {
    send.Chunk? ==>
      var output := enc(history, send.data);
      output == [] || (send.strip && |output| <= MAX_DATA_COUNT + 4)
  }

  lemma {:induction false} CutCount(output: seq<byte>)
    ensures output == [] <==> |Cut(output)| == 0
    ensures 0 < |output| <= MAX_DATA_COUNT <==> |Cut(output)| == 1
  {
    if |output| > MAX_DATA_COUNT {
      CutCount(output[MAX_DATA_COUNT..]);
    }
  }

  /** Every frame brings a trailer of four bytes to the decompressor. */
  lemma {:induction false} GivenLength(enc: Compress, all: seq<byte> -> seq<byte>, fed: seq<seq<byte>>,
                                       frames: seq<seq<byte>>)
    requires NoneEmpty(frames)
    ensures |Flatten(FedByAll(Deflating(enc, all), fed, frames))|
         == |Flatten(fed)| + |Flatten(frames)| + 4 * |frames|
    decreases |frames|
  {
    if frames != [] {
      FlattenOne(fed, frames[0] + SYNC_FLUSH_TRAILER);
      GivenLength(enc, all, fed + [frames[0] + SYNC_FLUSH_TRAILER], frames[1..]);
    }
  }

  lemma StripTrailer(output: seq<byte>)
    requires |output| > 4 && output[|output| - 4..] == SYNC_FLUSH_TRAILER
    ensures |Strip(output, SYNC_FLUSH_TRAILER)| == |output| - 4
    ensures Strip(output, SYNC_FLUSH_TRAILER) + SYNC_FLUSH_TRAILER == output
  {
  }

  /** The decompressor is given at least as many bytes as were produced, and as many only for a whole chunk. */
  lemma ChunkGiven(enc: Compress, all: seq<byte> -> seq<byte>, at: Coder, send: Send)
    requires FlushLaw(enc, all) && send.Chunk?
    ensures var after, output := SendAfter(Deflating(enc, all), at, send), enc(at.history, send.data);
            && |Flatten(after.fed)| >= |Flatten(at.fed)| + |output|
            && (|Flatten(after.fed)| == |Flatten(at.fed)| + |output| <==> Whole(enc, at.history, send))
  {
    var output := enc(at.history, send.data);
    var out := Output(Deflating(enc, all), at.history, send.data, send.strip);
    assert Flushed(enc, at.history, send.data);
    if output != [] {
      StripTrailer(output);
    }
    CutWhole(out);
    CutCount(out);
    GivenLength(enc, all, at.fed, Cut(out));
  }

  /** A whole chunk is given to the decompressor as it was produced, and comes out as it was. */
  lemma WholeGiven(enc: Compress, all: seq<byte> -> seq<byte>, at: Coder, send: Send)
    requires FlushLaw(enc, all) && send.Chunk? && Whole(enc, at.history, send) && InStep(enc, at)
    ensures InStep(enc, SendAfter(Deflating(enc, all), at, send))
    ensures SendMeaning(Deflating(enc, all), at, send) == PlainSend(send)
  {
    var codec, output := Deflating(enc, all), enc(at.history, send.data);
    assert Flushed(enc, at.history, send.data);
    StreamNext(enc, at.history, send.data);
    ChunkFresh(enc, all, at, send.data);
    if output == [] {
      assert Flatten(at.fed) + [] == Flatten(at.fed);
      assert Fresh(all, Flatten(at.fed), []) == [];
    } else {
      StripTrailer(output);
      var frame := Strip(output, SYNC_FLUSH_TRAILER);
      FramesOne(codec, at.fed, frame);
      FlattenOne(at.fed, output);
    }
  }

  // ---- A file ----

  ghost predicate AllWhole(enc: Compress, history: seq<seq<byte>>, sends: seq<Send>)
    decreases |sends|
  {
    sends == []
    || (Whole(enc, history, sends[0])
        && AllWhole(enc, if sends[0].Chunk? then history + [sends[0].data] else history, sends[1..]))
  }

  ghost function Excess(enc: Compress, at: Coder): int {
    |Flatten(at.fed)| - |StreamOf(enc, at.history)|
  }

  lemma OneGiven(enc: Compress, all: seq<byte> -> seq<byte>, at: Coder, send: Send)
    requires FlushLaw(enc, all)
    ensures var after := SendAfter(Deflating(enc, all), at, send);
            && Excess(enc, after) >= Excess(enc, at)
            && (Excess(enc, after) == Excess(enc, at) <==> Whole(enc, at.history, send))
            && (Whole(enc, at.history, send) && InStep(enc, at) ==>
                  InStep(enc, after) && SendMeaning(Deflating(enc, all), at, send) == PlainSend(send))
  {
    if send.Chunk? {
      ChunkGiven(enc, all, at, send);
      StreamNext(enc, at.history, send.data);
      if Whole(enc, at.history, send) && InStep(enc, at) {
        WholeGiven(enc, all, at, send);
      }
    }
  }

  lemma {:induction false} AllGiven(enc: Compress, all: seq<byte> -> seq<byte>, at: Coder, sends: seq<Send>)
    requires FlushLaw(enc, all)
    ensures var end := After(Deflating(enc, all), at, sends);
            && Excess(enc, end) >= Excess(enc, at)
            && (Excess(enc, end) == Excess(enc, at) <==> AllWhole(enc, at.history, sends))
            && (AllWhole(enc, at.history, sends) && InStep(enc, at) ==>
                  InStep(enc, end) && Meaning(Deflating(enc, all), at, sends) == Plain(sends))
    decreases |sends|
  {
    if sends != [] {
      OneGiven(enc, all, at, sends[0]);
      AllGiven(enc, all, SendAfter(Deflating(enc, all), at, sends[0]), sends[1..]);
    }
  }

  // ---- The condition on the tokens ----

  ghost predicate AllStripped(sends: seq<Send>) {
    forall k :: 0 <= k < |sends| ==> (sends[k].Chunk? ==> sends[k].strip)
  }

  /** Literals fit in a chunk and do not follow each other. */
  ghost predicate Spread(tokens: seq<Token>) {
    forall k :: 0 <= k < |tokens| ==> Alone(tokens, k)
  }

  ghost predicate Alone(tokens: seq<Token>, k: nat)
    requires k < |tokens|
  {
    tokens[k].Data? && tokens[k].data != [] ==>
      |tokens[k].data| <= CHUNK_SIZE && (k + 1 < |tokens| ==> !tokens[k + 1].Data?)
  }

  lemma StrippedAppend(a: seq<Send>, b: seq<Send>)
    ensures AllStripped(a + b) <==> AllStripped(a) && AllStripped(b)
  {
    assert forall k :: 0 <= k < |a| ==> (a + b)[k] == a[k];
    assert forall k :: 0 <= k < |b| ==> (a + b)[|a| + k] == b[k];
  }

  lemma {:induction false} StrippedChunks(data: seq<byte>, strip: bool)
    ensures AllStripped(Chunks(data, strip)) <==> strip && |data| <= CHUNK_SIZE
  {
    if |data| > CHUNK_SIZE {
      assert !Chunks(data, strip)[0].strip;
    } else {
      assert Chunks(data, strip)[0] == Chunk(data, strip);
    }
  }

  ghost predicate EndsInData(tokens: seq<Token>) {
    tokens != [] && tokens[|tokens| - 1].Data? && tokens[|tokens| - 1].data != []
  }

  lemma SpreadNext(tokens: seq<Token>, t: Token)
    ensures Spread(tokens + [t])
       <==> Spread(tokens) && (t.Data? ==> |t.data| <= CHUNK_SIZE && !EndsInData(tokens))
  {
    var all, n := tokens + [t], |tokens|;
    assert forall k :: 0 <= k < n - 1 ==> (Alone(all, k) <==> Alone(tokens, k));
    assert Alone(all, n) <==> (t.Data? ==> |t.data| <= CHUNK_SIZE);
    if n > 0 {
      assert Alone(all, n - 1) <==> Alone(tokens, n - 1) && !(EndsInData(tokens) && t.Data?);
    }
    if Spread(tokens) && (t.Data? ==> |t.data| <= CHUNK_SIZE && !EndsInData(tokens)) {
      forall k | 0 <= k < |all|
        ensures Alone(all, k)
      {
        assert k < n ==> Alone(tokens, k);
      }
    }
    if Spread(all) {
      forall k | 0 <= k < n
        ensures Alone(tokens, k)
      {
        assert Alone(all, k);
      }
      assert n > 0 ==> Alone(all, n - 1);
    }
  }

  /** What the box says about the tokens put into it. */
  ghost predicate Tells(o: Outbox, tokens: seq<Token>) {
    && (AllStripped(o.sends) && |o.pending| <= CHUNK_SIZE <==> Spread(tokens))
    && (o.flush ==> !AllStripped(o.sends))
    && (o.pending != [] <==> EndsInData(tokens))
  }

  lemma TellsNext(o: Outbox, tokens: seq<Token>, t: Token)
    requires Tells(o, tokens) && !t.EndOfFile?
    ensures Tells(Put(o, t), tokens + [t])
  {
    SpreadNext(tokens, t);
    assert (tokens + [t])[|tokens|] == t;
    match t
    case Data(d) =>
      StrippedChunks(o.pending, false);
      StrippedAppend(o.sends, Chunks(o.pending, false));
    case BlockMatch(i) =>
      StrippedChunks(o.pending, true);
      StrippedAppend(o.sends, Chunks(o.pending, true));
      StrippedAppend(Posted(o, true).sends, [Hit(i)]);
  }

  lemma {:induction false} TellsAll(tokens: seq<Token>)
    requires Writable(tokens)
    ensures Tells(PutAll(tokens), tokens)
  {
    if tokens != [] {
      var n := |tokens| - 1;
      TellsAll(tokens[..n]);
      TellsNext(PutAll(tokens[..n]), tokens[..n], tokens[n]);
      assert tokens[..n] + [tokens[n]] == tokens;
    }
  }

  /** Every chunk of a file is flushed if and only if its literals fit in a chunk and do not follow each other. */
  lemma StrippedExactly(tokens: seq<Token>)
    requires Writable(tokens)
    ensures AllStripped(SendsOf(tokens)) <==> Spread(tokens)
  {
    TellsAll(tokens);
    var o := PutAll(tokens);
    StrippedChunks(o.pending, true);
    StrippedAppend(o.sends, Chunks(o.pending, true));
  }

  /** Each chunk compresses to no more than a frame and a trailer. */
  ghost predicate AllSmall(enc: Compress, history: seq<seq<byte>>, sends: seq<Send>)
    decreases |sends|
  {
    sends == []
    || (if sends[0].Hit? then AllSmall(enc, history, sends[1..])
        else |enc(history, sends[0].data)| <= MAX_DATA_COUNT + 4
             && AllSmall(enc, history + [sends[0].data], sends[1..]))
  }

  /** What is not flushed is not empty. */
  ghost predicate NoEmptyWait(sends: seq<Send>) {
    forall k :: 0 <= k < |sends| ==> (sends[k].Chunk? && !sends[k].strip ==> sends[k].data != [])
  }

  lemma {:induction false} NoEmptyChunk(data: seq<byte>, strip: bool)
    requires data != [] || strip
    ensures NoEmptyWait(Chunks(data, strip))
  {
    if |data| > CHUNK_SIZE {
      NoEmptyChunk(data[CHUNK_SIZE..], strip);
    }
  }

  lemma {:induction false} NoEmptySends(tokens: seq<Token>)
    ensures NoEmptyWait(PutAll(tokens).sends)
  {
    if tokens != [] {
      var n := |tokens| - 1;
      NoEmptySends(tokens[..n]);
      var o := PutAll(tokens[..n]);
      NoEmptyChunk(o.pending, true);
      if o.pending != [] {
        NoEmptyChunk(o.pending, false);
      }
    }
  }

  lemma SomeOutput(enc: Compress, all: seq<byte> -> seq<byte>, history: seq<seq<byte>>, chunk: seq<byte>)
    requires StreamLaw(enc, all) && chunk != []
    ensures enc(history, chunk) != []
  {
    assert Restores(enc, all, history) && Restores(enc, all, history + [chunk]);
    StreamNext(enc, history, chunk);
    FlattenOne(history, chunk);
    assert StreamOf(enc, history) + [] == StreamOf(enc, history);
  }

  lemma {:induction false} WholeBySize(enc: Compress, all: seq<byte> -> seq<byte>, history: seq<seq<byte>>,
                                       sends: seq<Send>)
    requires FlushLaw(enc, all) && NoEmptyWait(sends)
    ensures AllWhole(enc, history, sends) <==> AllStripped(sends) && AllSmall(enc, history, sends)
    decreases |sends|
  {
    if sends != [] {
      var next := if sends[0].Chunk? then history + [sends[0].data] else history;
      WholeBySize(enc, all, next, sends[1..]);
      StrippedAppend([sends[0]], sends[1..]);
      assert [sends[0]] + sends[1..] == sends;
      assert AllStripped([sends[0]]) <==> (sends[0].Chunk? ==> sends[0].strip) by {
        assert [sends[0]][0] == sends[0];
      }
      if sends[0].Chunk? && !sends[0].strip {
        SomeOutput(enc, all, history, sends[0].data);
      }
    }
  }

  /** The chunks of a file go out whole if and only if they are flushed and small. */
  lemma WholeExactly(enc: Compress, all: seq<byte> -> seq<byte>, tokens: seq<Token>)
    requires FlushLaw(enc, all) && Writable(tokens)
    ensures AllWhole(enc, [], SendsOf(tokens)) <==> Spread(tokens) && AllSmall(enc, [], SendsOf(tokens))
  {
    NoEmptySends(tokens);
    NoEmptyChunk(PutAll(tokens).pending, true);
    WholeBySize(enc, all, [], SendsOf(tokens));
    StrippedExactly(tokens);
  }

  /**
   * With a flush trailer the decompressor is given exactly what the compressor produced if and only
   * if the literals fit in a chunk, do not follow each other, and compress to no more than a frame
   * and a trailer each; then the file comes back as it was. Otherwise the decompressor is given more.
   */
  lemma TrailerExactly(enc: Compress, all: seq<byte> -> seq<byte>, tokens: seq<Token>)
    requires FlushLaw(enc, all) && Writable(tokens)
    ensures var end := After(Deflating(enc, all), Coder([], []), SendsOf(tokens));
            if Spread(tokens) && AllSmall(enc, [], SendsOf(tokens)) then
              InStep(enc, end) && FileMeaning(Deflating(enc, all), tokens) == StepsOf(tokens)
            else |Flatten(end.fed)| > |StreamOf(enc, end.history)|
  {
    AllGiven(enc, all, Coder([], []), SendsOf(tokens));
    WholeExactly(enc, all, tokens);
    PlainTokens(tokens);
  }
}
