/**
 * What the three kinds of codec do to a file: one that decodes a stream gives it back, one that
 * decodes frame by frame gives it back exactly when every chunk fits in a frame, and one with a
 * flush trailer exactly when, besides, every chunk is flushed.
 */
module Codecs {
  import opened Bytes
  import opened DeltaToken
  import opened CompressedTokens
  import opened CompressedReader

  // ---- What should come through ----

  ghost function PlainSend(send: Send): seq<Step> {
    match send case Chunk(data, _) => Literal(data) case Hit(i) => [Match(i)]
  }

  /** What was handed to the codec, as it is. */
  ghost function Plain(sends: seq<Send>): seq<Step>
  {
    if sends == [] then [] else PlainSend(sends[0]) + Plain(sends[1..])
  }

  lemma {:induction false} PlainAppend(a: seq<Send>, b: seq<Send>)
    ensures Plain(a + b) == Plain(a) + Plain(b)
  {
    if a == [] {
      assert a + b == b;
    } else {
      assert (a + b)[1..] == a[1..] + b;
      PlainAppend(a[1..], b);
      Assoc(PlainSend(a[0]), Plain(a[1..]), Plain(b));
    }
  }

  lemma PlainOne(send: Send)
    ensures Plain([send]) == PlainSend(send)
  {
    assert PlainSend(send) + [] == PlainSend(send);
  }

  lemma {:induction false} PlainChunks(data: seq<byte>, strip: bool)
    ensures Plain(Chunks(data, strip)) == Literal(data)
  {
    if |data| <= CHUNK_SIZE {
      PlainOne(Chunk(data, strip));
    } else {
      var head, more := data[..CHUNK_SIZE], data[CHUNK_SIZE..];
      PlainChunks(more, strip);
      PlainAppend([Chunk(head, false)], Chunks(more, strip));
      PlainOne(Chunk(head, false));
      LiteralAppend(head, more);
      assert head + more == data;
    }
  }

  lemma PlainPosted(o: Outbox, strip: bool)
    ensures Plain(Posted(o, strip).sends) == Plain(o.sends) + Literal(o.pending)
  {
    if o.pending == [] && !o.flush {
      assert Plain(o.sends) + [] == Plain(o.sends);
    } else {
      PlainChunks(o.pending, strip);
      PlainAppend(o.sends, Chunks(o.pending, strip));
    }
  }

  lemma PlainPut(o: Outbox, t: Token)
    requires !t.EndOfFile?
    ensures Plain(Put(o, t).sends) + Literal(Put(o, t).pending) == Plain(o.sends) + Literal(o.pending) + TokenSteps(t)
  {
    match t
    case Data(d) =>
      PlainPosted(o, false);
      assert o.pending == [] ==> Plain(o.sends) + [] == Plain(o.sends);
    case BlockMatch(i) =>
      PlainPosted(o, true);
      PlainAppend(Posted(o, true).sends, [Hit(i)]);
      PlainOne(Hit(i));
      assert Plain(Put(o, t).sends) + [] == Plain(Put(o, t).sends);
  }

  lemma {:induction false} PlainAll(tokens: seq<Token>)
    requires Writable(tokens)
    ensures Plain(PutAll(tokens).sends) + Literal(PutAll(tokens).pending) == StepsOf(tokens)
  {
    if tokens != [] {
      var n := |tokens| - 1;
      PlainAll(tokens[..n]);
      PlainPut(PutAll(tokens[..n]), tokens[n]);
    }
  }

  /** Everything a file says is handed to the codec, in order. */
  lemma PlainTokens(tokens: seq<Token>)
    requires Writable(tokens)
    ensures Plain(SendsOf(tokens)) == StepsOf(tokens)
  {
    PlainAll(tokens);
    PlainPosted(PutAll(tokens), true);
  }

  // ---- Frames ----

  ghost predicate NoneEmpty(frames: seq<seq<byte>>) {
    forall k :: 0 <= k < |frames| ==> frames[k] != []
  }

  lemma {:induction false} CutWhole(output: seq<byte>)
    ensures Flatten(Cut(output)) == output && NoneEmpty(Cut(output))
  {
    if |output| > MAX_DATA_COUNT {
      CutWhole(output[MAX_DATA_COUNT..]);
      FlattenAppend([output[..MAX_DATA_COUNT]], Cut(output[MAX_DATA_COUNT..]));
      FlattenOne([], output[..MAX_DATA_COUNT]);
      assert [] + [output[..MAX_DATA_COUNT]] == [output[..MAX_DATA_COUNT]];
      assert output[..MAX_DATA_COUNT] + output[MAX_DATA_COUNT..] == output;
    } else if output != [] {
      FlattenOne([], output);
      assert [] + [output] == [output];
    }
  }

  lemma FramesOne(codec: Codec, fed: seq<seq<byte>>, frame: seq<byte>)
    ensures FramesMeaning(codec, fed, [frame]) == FrameMeaning(codec, fed, frame)
    ensures FedByAll(codec, fed, [frame]) == FedAfter(codec, fed, frame)
  {
    assert FrameMeaning(codec, fed, frame) + [] == FrameMeaning(codec, fed, frame);
  }

  // ---- A stream ----

  type Compress = (seq<seq<byte>>, seq<byte>) -> seq<byte>

  /** The bytes for all chunks of a file. */
  ghost function StreamOf(enc: Compress, chunks: seq<seq<byte>>): seq<byte>
  {
    if chunks == [] then []
    else StreamOf(enc, chunks[..|chunks| - 1]) + enc(chunks[..|chunks| - 1], chunks[|chunks| - 1])
  }

  lemma StreamNext(enc: Compress, chunks: seq<seq<byte>>, chunk: seq<byte>)
    ensures StreamOf(enc, chunks + [chunk]) == StreamOf(enc, chunks) + enc(chunks, chunk)
  {
    var more := chunks + [chunk];
    assert more[..|more| - 1] == chunks && more[|more| - 1] == chunk;
  }

  ghost predicate Keeps(all: seq<byte> -> seq<byte>, a: seq<byte>, b: seq<byte>) {
    all(a) <= all(a + b)
  }

  ghost predicate Restores(enc: Compress, all: seq<byte> -> seq<byte>, chunks: seq<seq<byte>>) {
    all(StreamOf(enc, chunks)) == Flatten(chunks)
  }

  /** Decompression takes nothing back, and after whole chunks gives exactly those chunks. */
  ghost predicate StreamLaw(enc: Compress, all: seq<byte> -> seq<byte>) {
    && (forall a: seq<byte>, b: seq<byte> :: Keeps(all, a, b))
    && (forall chunks: seq<seq<byte>> :: Restores(enc, all, chunks))
  }

  /** What comes out for further input. */
  function Fresh(all: seq<byte> -> seq<byte>, fed: seq<byte>, input: seq<byte>): seq<byte>
  {
    var before, after := all(fed), all(fed + input);
    if |before| <= |after| then after[|before|..] else []
  }

  /** zstd: the decompressor sees one stream, `all` is what can be had from a beginning of it. */
  function Streamed(enc: Compress, all: seq<byte> -> seq<byte>): Codec {
    Codec(enc, (fed, input) => Some(Fresh(all, Flatten(fed), input)), [])
  }

  /** What comes out in two parts comes out of both together. */
  lemma FreshTwice(all: seq<byte> -> seq<byte>, fed: seq<byte>, a: seq<byte>, b: seq<byte>)
    requires Keeps(all, fed, a) && Keeps(all, fed + a, b)
    ensures Fresh(all, fed, a) + Fresh(all, fed + a, b) == Fresh(all, fed, a + b)
  {
    Assoc(fed, a, b);
  }

  lemma {:induction false} FramesStreamed(enc: Compress, all: seq<byte> -> seq<byte>, fed: seq<seq<byte>>,
                                          frames: seq<seq<byte>>)
    requires StreamLaw(enc, all) && NoneEmpty(frames)
    ensures FramesMeaning(Streamed(enc, all), fed, frames) == Literal(Fresh(all, Flatten(fed), Flatten(frames)))
    ensures Flatten(FedByAll(Streamed(enc, all), fed, frames)) == Flatten(fed) + Flatten(frames)
    decreases |frames|
  {
    if frames == [] {
      assert Flatten(fed) + [] == Flatten(fed);
    } else {
      var f, rest := frames[0], Flatten(frames[1..]);
      assert f + [] == f;
      FlattenOne(fed, f);
      FramesStreamed(enc, all, fed + [f], frames[1..]);
      assert Keeps(all, Flatten(fed), f) && Keeps(all, Flatten(fed) + f, rest);
      FreshTwice(all, Flatten(fed), f, rest);
      LiteralAppend(Fresh(all, Flatten(fed), f), Fresh(all, Flatten(fed) + f, rest));
      Assoc(Flatten(fed), f, rest);
    }
  }

  /** The decompressor has been given what the compressor produced. */
  ghost predicate InStep(enc: Compress, at: Coder) {
    Flatten(at.fed) == StreamOf(enc, at.history)
  }

  lemma ChunkFresh(enc: Compress, all: seq<byte> -> seq<byte>, at: Coder, chunk: seq<byte>)
    requires StreamLaw(enc, all) && InStep(enc, at)
    ensures Fresh(all, Flatten(at.fed), enc(at.history, chunk)) == chunk
  {
    StreamNext(enc, at.history, chunk);
    assert Restores(enc, all, at.history) && Restores(enc, all, at.history + [chunk]);
    FlattenOne(at.history, chunk);
  }

  lemma StripNothing(output: seq<byte>)
    ensures Strip(output, []) == output
  {
    assert output[..|output|] == output;
  }

  lemma ChunkStreamed(enc: Compress, all: seq<byte> -> seq<byte>, at: Coder, send: Send)
    requires StreamLaw(enc, all) && InStep(enc, at)
    ensures SendMeaning(Streamed(enc, all), at, send) == PlainSend(send)
    ensures InStep(enc, SendAfter(Streamed(enc, all), at, send))
  {
    if send.Chunk? {
      var output := enc(at.history, send.data);
      StripNothing(output);
      CutWhole(output);
      FramesStreamed(enc, all, at.fed, Cut(output));
      ChunkFresh(enc, all, at, send.data);
      StreamNext(enc, at.history, send.data);
    }
  }

  lemma {:induction false} AllStreamed(enc: Compress, all: seq<byte> -> seq<byte>, at: Coder, sends: seq<Send>)
    requires StreamLaw(enc, all) && InStep(enc, at)
    ensures Meaning(Streamed(enc, all), at, sends) == Plain(sends)
    decreases |sends|
  {
    if sends != [] {
      ChunkStreamed(enc, all, at, sends[0]);
      AllStreamed(enc, all, SendAfter(Streamed(enc, all), at, sends[0]), sends[1..]);
    }
  }

  /** Through a stream every file comes back as it was. */
  lemma StreamLossless(enc: Compress, all: seq<byte> -> seq<byte>, tokens: seq<Token>)
    requires StreamLaw(enc, all) && Writable(tokens)
    ensures FileMeaning(Streamed(enc, all), tokens) == StepsOf(tokens)
  {
    AllStreamed(enc, all, Coder([], []), SendsOf(tokens));
    PlainTokens(tokens);
  }

  // ---- Frame by frame ----

  ghost predicate BlockRestored(enc: seq<byte> -> seq<byte>, dec: seq<byte> -> Option<seq<byte>>, chunk: seq<byte>) {
    enc(chunk) != [] && dec(enc(chunk)) == Some(chunk)
  }

  ghost predicate CutRefused(enc: seq<byte> -> seq<byte>, dec: seq<byte> -> Option<seq<byte>>, chunk: seq<byte>, n: nat)
  {
    0 < n < |enc(chunk)| ==> dec(enc(chunk)[..n]) == None
  }

  /** A block is decoded whole, one that was cut off is refused, and an empty one is small. */
  ghost predicate BlockLaw(enc: seq<byte> -> seq<byte>, dec: seq<byte> -> Option<seq<byte>>) {
    && (forall chunk: seq<byte> :: BlockRestored(enc, dec, chunk))
    && (forall chunk: seq<byte>, n: nat :: CutRefused(enc, dec, chunk, n))
    && |enc([])| <= MAX_DATA_COUNT
  }

  /** lz4: every chunk is a block of its own, and so is every frame to the decompressor. */
  function Blocks(enc: seq<byte> -> seq<byte>, dec: seq<byte> -> Option<seq<byte>>): Codec {
    Codec((_, chunk) => enc(chunk), (_, input) => dec(input), [])
  }

  ghost predicate BlockFits(enc: seq<byte> -> seq<byte>, send: Send) {
    send.Chunk? ==> |enc(send.data)| <= MAX_DATA_COUNT
  }

  ghost predicate AllFit(enc: seq<byte> -> seq<byte>, sends: seq<Send>) {
    forall k :: 0 <= k < |sends| ==> BlockFits(enc, sends[k])
  }

  lemma OneBlock(enc: seq<byte> -> seq<byte>, dec: seq<byte> -> Option<seq<byte>>, at: Coder, send: Send)
    requires BlockLaw(enc, dec)
    ensures BlockFits(enc, send) ==> SendMeaning(Blocks(enc, dec), at, send) == PlainSend(send)
    ensures !BlockFits(enc, send) ==> Broken in SendMeaning(Blocks(enc, dec), at, send)
  {
    if send.Chunk? {
      var codec, output := Blocks(enc, dec), enc(send.data);
      StripNothing(output);
      assert Frames(codec, at, send) == Cut(output);
      assert BlockRestored(enc, dec, send.data);
      if BlockFits(enc, send) {
        assert Cut(output) == [output] && output + [] == output;
        FramesOne(codec, at.fed, output);
      } else {
        var first := output[..MAX_DATA_COUNT];
        assert Cut(output)[0] == first && first + [] == first;
        assert CutRefused(enc, dec, send.data, MAX_DATA_COUNT);
        assert FrameMeaning(codec, at.fed, first) == [Broken];
        assert SendMeaning(codec, at, send)[0] == Broken;
      }
    }
  }

  lemma PlainUnbroken(send: Send)
    ensures Broken !in PlainSend(send)
  {
  }

  lemma {:induction false} AllBlocks(enc: seq<byte> -> seq<byte>, dec: seq<byte> -> Option<seq<byte>>, at: Coder,
                                     sends: seq<Send>)
    requires BlockLaw(enc, dec)
    ensures Broken in Meaning(Blocks(enc, dec), at, sends) <==> !AllFit(enc, sends)
    ensures AllFit(enc, sends) ==> Meaning(Blocks(enc, dec), at, sends) == Plain(sends)
    decreases |sends|
  {
    if sends != [] {
      var next := SendAfter(Blocks(enc, dec), at, sends[0]);
      OneBlock(enc, dec, at, sends[0]);
      PlainUnbroken(sends[0]);
      AllBlocks(enc, dec, next, sends[1..]);
      assert sends == [sends[0]] + sends[1..];
      assert AllFit(enc, sends) <==> BlockFits(enc, sends[0]) && AllFit(enc, sends[1..]);
    }
  }

  /** Every chunk of the file's literal data fits in a frame once compressed. */
  ghost predicate TokensFit(enc: seq<byte> -> seq<byte>, tokens: seq<Token>) {
    forall k :: 0 <= k < |tokens| ==> TokenFits(enc, tokens[k])
  }

  ghost predicate TokenFits(enc: seq<byte> -> seq<byte>, t: Token) {
    t.Data? ==> AllFit(enc, Chunks(t.data, true))
  }

  lemma FitAppend(enc: seq<byte> -> seq<byte>, a: seq<Send>, b: seq<Send>)
    ensures AllFit(enc, a + b) <==> AllFit(enc, a) && AllFit(enc, b)
  {
    assert forall k :: 0 <= k < |a| ==> (a + b)[k] == a[k];
    assert forall k :: 0 <= k < |b| ==> (a + b)[|a| + k] == b[k];
  }

  lemma {:induction false} FitUnstripped(enc: seq<byte> -> seq<byte>, data: seq<byte>, strip: bool)
    ensures AllFit(enc, Chunks(data, strip)) <==> AllFit(enc, Chunks(data, true))
  {
    if |data| <= CHUNK_SIZE {
      assert BlockFits(enc, Chunk(data, strip)) <==> BlockFits(enc, Chunk(data, true));
      assert AllFit(enc, Chunks(data, strip)) <==> BlockFits(enc, Chunks(data, strip)[0]);
      assert AllFit(enc, Chunks(data, true)) <==> BlockFits(enc, Chunks(data, true)[0]);
    } else {
      var head, more := [Chunk(data[..CHUNK_SIZE], false)], data[CHUNK_SIZE..];
      FitUnstripped(enc, more, strip);
      FitAppend(enc, head, Chunks(more, strip));
      FitAppend(enc, head, Chunks(more, true));
    }
  }

  ghost predicate BoxFits(enc: seq<byte> -> seq<byte>, o: Outbox) {
    AllFit(enc, o.sends) && AllFit(enc, Chunks(o.pending, true))
  }

  lemma NothingFits(enc: seq<byte> -> seq<byte>)
    requires |enc([])| <= MAX_DATA_COUNT
    ensures AllFit(enc, Chunks([], true))
  {
  }

  lemma PostedFits(enc: seq<byte> -> seq<byte>, o: Outbox, strip: bool)
    requires |enc([])| <= MAX_DATA_COUNT
    ensures AllFit(enc, Posted(o, strip).sends) <==> BoxFits(enc, o)
  {
    NothingFits(enc);
    FitUnstripped(enc, o.pending, strip);
    FitAppend(enc, o.sends, Chunks(o.pending, strip));
  }

  lemma PutFits(enc: seq<byte> -> seq<byte>, o: Outbox, t: Token)
    requires |enc([])| <= MAX_DATA_COUNT
    ensures BoxFits(enc, Put(o, t)) <==> BoxFits(enc, o) && TokenFits(enc, t)
  {
    NothingFits(enc);
    match t
    case Data(d) => PostedFits(enc, o, false);
    case BlockMatch(i) =>
      PostedFits(enc, o, true);
      FitAppend(enc, Posted(o, true).sends, [Hit(i)]);
    case EndOfFile =>
  }

  lemma {:induction false} AllPutFit(enc: seq<byte> -> seq<byte>, tokens: seq<Token>)
    requires |enc([])| <= MAX_DATA_COUNT
    ensures BoxFits(enc, PutAll(tokens)) <==> TokensFit(enc, tokens)
  {
    if tokens == [] {
      NothingFits(enc);
    } else {
      var n := |tokens| - 1;
      AllPutFit(enc, tokens[..n]);
      PutFits(enc, PutAll(tokens[..n]), tokens[n]);
      assert TokensFit(enc, tokens) <==> TokensFit(enc, tokens[..n]) && TokenFits(enc, tokens[n]);
    }
  }

  /** Frame by frame, a file comes back as it was if every chunk fits in a frame; otherwise reading fails. */
  lemma BlocksLossless(enc: seq<byte> -> seq<byte>, dec: seq<byte> -> Option<seq<byte>>, tokens: seq<Token>)
    requires BlockLaw(enc, dec) && Writable(tokens)
    ensures TokensFit(enc, tokens) ==> FileMeaning(Blocks(enc, dec), tokens) == StepsOf(tokens)
    ensures Broken in FileMeaning(Blocks(enc, dec), tokens) <==> !TokensFit(enc, tokens)
  {
    AllBlocks(enc, dec, Coder([], []), SendsOf(tokens));
    PlainTokens(tokens);
    AllPutFit(enc, tokens);
    PostedFits(enc, PutAll(tokens), true);
  }
}
