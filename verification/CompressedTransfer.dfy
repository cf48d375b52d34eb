/**
 * One file over the wire in compressed tokens: for any codec an accepted file has the checksum of
 * the source, and for a codec that carries the file the transfer is as good as the plain one.
 */
module CompressedTransfer {
  import opened Bytes
  import opened DeltaToken
  import opened Signatures
  import opened Delta
  import opened Matcher
  import opened SumWire
  import opened DeltaTransfer
  import opened FileTransfer
  import opened StreamScan
  import opened Streaming
  import opened CompressedReader
  import opened CompressedWriter
  import opened Codecs
  import C = CompressedTokens

  // ---- Receiver ----

  /** What the steps of a file rebuild after `output`. */
  ghost function Build(steps: seq<C.Step>, basis: seq<byte>, b: nat, output: seq<byte>): Result<seq<byte>>
  {
    if steps == [] then Ok(output)
    else
      match steps[0]
      case Byte(x) => Build(steps[1..], basis, b, output + [x])
      case Broken => Err(Undecodable)
      case Match(i) =>
        if i < 0 || Piece(BlockMatch(i), basis, b).None? then Err(OutOfRange)
        else Build(steps[1..], basis, b, output + Piece(BlockMatch(i), basis, b).value)
  }

  lemma {:induction false} BuildLiteral(d: seq<byte>, more: seq<C.Step>, basis: seq<byte>, b: nat, output: seq<byte>)
    ensures Build(C.Literal(d) + more, basis, b, output) == Build(more, basis, b, output + d)
  {
    var steps := C.Literal(d) + more;
    if d == [] {
      assert steps == more && output + d == output;
    } else {
      assert steps[1..] == C.Literal(d[1..]) + more;
      BuildLiteral(d[1..], more, basis, b, output + [d[0]]);
      assert output + [d[0]] + d[1..] == output + d;
    }
  }

  lemma BuildMatch(i: nat, more: seq<C.Step>, basis: seq<byte>, b: nat, output: seq<byte>)
    ensures Build([C.Match(i)] + more, basis, b, output)
         == match Piece(BlockMatch(i), basis, b)
            case None => Err(OutOfRange)
            case Some(piece) => Build(more, basis, b, output + piece)
  {
    assert ([C.Match(i)] + more)[1..] == more;
  }

  lemma BuildToken(t: Token, more: seq<C.Step>, basis: seq<byte>, b: nat, output: seq<byte>)
    requires !t.EndOfFile?
    ensures Build(TokenSteps(t) + more, basis, b, output)
         == match Piece(t, basis, b)
            case None => Err(OutOfRange)
            case Some(piece) => Build(more, basis, b, output + piece)
  {
    match t
    case Data(d) => BuildLiteral(d, more, basis, b, output);
    case BlockMatch(i) => BuildMatch(i, more, basis, b, output);
  }

  /** What receiving a file yields: its steps rebuilt, and the checksum after it. */
  ghost function Rebuild(file: (seq<C.Step>, seq<byte>), basis: seq<byte>, b: nat, ctx: Context, output: seq<byte>)
    : Result<(seq<byte>, seq<byte>)>
  {
    match Build(file.0, basis, b, output)
    case Err(e) => Err(e)
    case Ok(out) => Verified(file.1, ctx, out)
  }

  /** If the stream holds a file, what is to come yields what the whole file yields. */
  ghost predicate OnCourse(reader: CompressedTokenReader, at: seq<byte>, basis: seq<byte>, b: nat, ctx: Context,
                           output: seq<byte>, whole: Result<(seq<byte>, seq<byte>)>)
    reads reader
  {
    && reader.Sane() && reader.Remaining(at).Some?
    && Rebuild(reader.Remaining(at).value, basis, b, ctx, output) == whole
  }

  /** What reception yields once this much has been read: an error, the end, or what is still to come. */
  ghost function StepYields(r: Result<(Token, seq<byte>)>, after: Option<(seq<C.Step>, seq<byte>)>, basis: seq<byte>,
                            b: nat, ctx: Context, output: seq<byte>): Result<(seq<byte>, seq<byte>)>
  {
    if r.Err? then Err(r.error)
    else if r.value.0.EndOfFile? then Verified(r.value.1, ctx, output)
    else
      var piece := Piece(r.value.0, basis, b);
      if piece.None? || after.None? then Err(OutOfRange) else Rebuild(after.value, basis, b, ctx, output + piece.value)
  }

  lemma StepTaken(before: Option<(seq<C.Step>, seq<byte>)>, r: Result<(Token, seq<byte>)>,
                  after: Option<(seq<C.Step>, seq<byte>)>, basis: seq<byte>, b: nat, ctx: Context, output: seq<byte>)
    requires before.Some? && Took(before, r, after)
    ensures Rebuild(before.value, basis, b, ctx, output) == StepYields(r, after, basis, b, ctx, output)
    ensures r.Ok? && !r.value.0.EndOfFile? ==> after.Some?
  {
    if r.Ok? && !r.value.0.EndOfFile? {
      BuildToken(r.value.0, after.value.0, basis, b, output);
    }
  }

  /** Receives the file at the beginning of any stream; a run without end is stopped by the block count. */
  method RecvFileDeltaCompressed(s: seq<byte>, basis: seq<byte>, b: nat, ctx: Context, codec: C.Codec)
    returns (r: Result<(seq<byte>, seq<byte>)>)
    ensures C.Read(codec, s, C.Start()).Some? ==> r == Rebuild(C.Read(codec, s, C.Start()).value, basis, b, ctx, [])
  {
    var reader := new CompressedTokenReader(codec);
    var count := ReceiverBlockCount(|basis|, b);
    var output: seq<byte>, at := [], s;
    ghost var file := C.Read(codec, s, C.Start());
    ghost var whole := if file.Some? then Rebuild(file.value, basis, b, ctx, []) else Err(EndOfStream);
    while true
      invariant fresh(reader) && reader.Valid()
      invariant file.Some? ==> OnCourse(reader, at, basis, b, ctx, output, whole)
      decreases |at|, if reader.phase == Running && reader.rxToken < count then count - reader.rxToken else 0
    {
      ghost var before := if file.Some? then reader.Remaining(at) else None;
      var token := reader.RecvToken(at);
      if file.Some? {
        StepTaken(before, token, if token.Ok? then reader.Remaining(token.value.1) else None, basis, b, ctx, output);
      }
      if token.Err? {
        return Err(token.error);
      }
      at := token.value.1;
      if token.value.0.EndOfFile? {
        return Verified(at, ctx, output);
      }
      var piece := Piece(token.value.0, basis, b);
      if piece.None? {
        return Err(OutOfRange);
      }
      output := output + piece.value;
    }
  }

  // ---- Sender ----

  /** The copy can be sent, and names the block it copies. */
  ghost predicate Carried(op: DiffOp, bs: nat, br: nat, basis: seq<byte>) {
    op.Copy? ==>
      && bs > 0 && 0 <= BlockIndex(op.offset, bs) < C.MAX_INDEX
      && Piece(BlockMatch(BlockIndex(op.offset, bs)), basis, br) == Some(Rebuilt(basis, op))
  }

  ghost predicate AllCarried(ops: seq<DiffOp>, bs: nat, br: nat, basis: seq<byte>) {
    forall k :: 0 <= k < |ops| ==> Carried(ops[k], bs, br, basis)
  }

  ghost predicate Indexable(op: DiffOp, b: nat) {
    op.Copy? ==> b > 0 && 0 <= BlockIndex(op.offset, b) < C.MAX_INDEX
  }

  function TokenOf(op: DiffOp, b: nat): (t: Token)
    requires Indexable(op, b)
    ensures !t.EndOfFile? && (t.BlockMatch? ==> t.index < C.MAX_INDEX)
  {
    match op
    case Literal(data) => Data(data)
    case Copy(offset, _) => BlockMatch(BlockIndex(offset, b))
  }

  ghost function TokensOf(ops: seq<DiffOp>, b: nat): (r: seq<Token>)
    requires forall k :: 0 <= k < |ops| ==> Indexable(ops[k], b)
    ensures |r| == |ops| && Writable(r)
  {
    seq(|ops|, k requires 0 <= k < |ops| => TokenOf(ops[k], b))
  }

  ghost predicate TokensAre(tokens: seq<Token>, ops: seq<DiffOp>, b: nat) {
    (forall k :: 0 <= k < |ops| ==> Indexable(ops[k], b)) && tokens == TokensOf(ops, b)
  }

  /** The tokens of the operations, the end of the file, and the checksum. */
  method SendCompressed(ops: seq<DiffOp>, b: nat, digest: seq<byte>, codec: C.Codec) returns (out: seq<byte>)
    requires forall k :: 0 <= k < |ops| ==> Indexable(ops[k], b)
    ensures C.Read(codec, out, C.Start()) == Some((FileMeaning(codec, TokensOf(ops, b)), digest))
  {
    var writer := new CompressedTokenWriter(codec);
    ghost var tokens := TokensOf(ops, b);
    out := [];
    assert tokens[..0] == [];
    for k := 0 to |ops|
      invariant fresh(writer) && writer.codec == codec
      invariant writer.Valid() && writer.Box() == PutAll(tokens[..k]) && writer.body == out
    {
      assert tokens[..k + 1][..k] == tokens[..k];
      var bytes := WriteOne(writer, TokenOf(ops[k], b));
      out := out + bytes;
    }
    assert tokens[..|ops|] == tokens;
    var end := writer.WriteEof();
    assert IsFile(codec, out + end, FileMeaning(codec, tokens), digest);
    out := out + end + digest;
  }

  // ---- What is sent is received ----

  /** Every match names a block of the basis. */
  ghost predicate MatchesIn(steps: seq<C.Step>, basis: seq<byte>, b: nat) {
    forall k :: 0 <= k < |steps| ==> MatchIn(steps[k], basis, b)
  }

  ghost predicate MatchIn(step: C.Step, basis: seq<byte>, b: nat) {
    step.Match? ==> step.i >= 0 && Piece(BlockMatch(step.i), basis, b).Some?
  }

  lemma {:induction false} BuildDecides(steps: seq<C.Step>, basis: seq<byte>, b: nat, output: seq<byte>)
    requires MatchesIn(steps, basis, b)
    ensures if C.Broken in steps then Build(steps, basis, b, output) == Err(Undecodable)
            else Build(steps, basis, b, output).Ok?
    decreases |steps|
  {
    if steps != [] && !steps[0].Broken? {
      assert MatchIn(steps[0], basis, b);
      var piece := if steps[0].Byte? then [steps[0].b] else Piece(BlockMatch(steps[0].i), basis, b).value;
      BuildDecides(steps[1..], basis, b, output + piece);
      assert steps == [steps[0]] + steps[1..];
    }
  }

  ghost predicate HitsIn(sends: seq<C.Send>, basis: seq<byte>, b: nat) {
    forall k :: 0 <= k < |sends| ==> (sends[k].Hit? ==> Piece(BlockMatch(sends[k].index), basis, b).Some?)
  }

  lemma {:induction false} FramesInside(codec: C.Codec, fed: seq<seq<byte>>, frames: seq<seq<byte>>, basis: seq<byte>,
                                        b: nat)
    ensures MatchesIn(C.FramesMeaning(codec, fed, frames), basis, b)
    decreases |frames|
  {
    if frames != [] {
      FramesInside(codec, C.FedAfter(codec, fed, frames[0]), frames[1..], basis, b);
    }
  }

  lemma {:induction false} SendsInside(codec: C.Codec, at: C.Coder, sends: seq<C.Send>, basis: seq<byte>, b: nat)
    requires HitsIn(sends, basis, b)
    ensures MatchesIn(C.Meaning(codec, at, sends), basis, b)
    decreases |sends|
  {
    if sends != [] {
      SendsInside(codec, C.SendAfter(codec, at, sends[0]), sends[1..], basis, b);
      if sends[0].Chunk? {
        FramesInside(codec, at.fed, C.Frames(codec, at, sends[0]), basis, b);
      }
    }
  }

  lemma {:induction false} ChunksHitless(data: seq<byte>, strip: bool, basis: seq<byte>, b: nat)
    ensures HitsIn(C.Chunks(data, strip), basis, b)
  {
    if |data| > C.CHUNK_SIZE {
      ChunksHitless(data[C.CHUNK_SIZE..], strip, basis, b);
    }
  }

  lemma {:induction false} PutInside(tokens: seq<Token>, basis: seq<byte>, b: nat)
    requires forall k :: 0 <= k < |tokens| ==> Piece(tokens[k], basis, b).Some?
    ensures HitsIn(PutAll(tokens).sends, basis, b)
  {
    if tokens != [] {
      var n := |tokens| - 1;
      PutInside(tokens[..n], basis, b);
      ChunksHitless(PutAll(tokens[..n]).pending, true, basis, b);
      ChunksHitless(PutAll(tokens[..n]).pending, false, basis, b);
    }
  }

  lemma FileInside(codec: C.Codec, tokens: seq<Token>, basis: seq<byte>, b: nat)
    requires forall k :: 0 <= k < |tokens| ==> Piece(tokens[k], basis, b).Some?
    ensures MatchesIn(FileMeaning(codec, tokens), basis, b)
  {
    PutInside(tokens, basis, b);
    ChunksHitless(PutAll(tokens).pending, true, basis, b);
    SendsInside(codec, C.Coder([], []), SendsOf(tokens), basis, b);
  }

  /** Tokens that come through as they are rebuild what the operations rebuild. */
  lemma {:induction false} BuildOps(ops: seq<DiffOp>, n: nat, bs: nat, br: nat, basis: seq<byte>, more: seq<C.Step>)
    requires n <= |ops| && AllCarried(ops, bs, br, basis)
    requires forall k :: 0 <= k < |ops| ==> Indexable(ops[k], bs)
    ensures Build(StepsOf(TokensOf(ops, bs)[..n]) + more, basis, br, [])
         == Build(more, basis, br, ApplyFirst(basis, ops, n))
  {
    var tokens := TokensOf(ops, bs);
    if n == 0 {
      assert StepsOf(tokens[..0]) + more == more;
    } else {
      var t := TokenOf(ops[n - 1], bs);
      assert tokens[..n] == tokens[..n - 1] + [t];
      StepsOfNext(tokens[..n - 1], t);
      Assoc(StepsOf(tokens[..n - 1]), TokenSteps(t), more);
      BuildOps(ops, n - 1, bs, br, basis, TokenSteps(t) + more);
      assert Carried(ops[n - 1], bs, br, basis);
      BuildToken(t, more, basis, br, ApplyFirst(basis, ops, n - 1));
    }
  }

  lemma BuildAll(ops: seq<DiffOp>, bs: nat, br: nat, basis: seq<byte>)
    requires AllCarried(ops, bs, br, basis) && forall k :: 0 <= k < |ops| ==> Indexable(ops[k], bs)
    ensures Build(StepsOf(TokensOf(ops, bs)), basis, br, []) == Ok(Apply(basis, ops))
  {
    BuildOps(ops, |ops|, bs, br, basis, []);
    var tokens := TokensOf(ops, bs);
    assert tokens[..|ops|] == tokens;
    assert StepsOf(tokens) + [] == StepsOf(tokens);
  }

  lemma TokensInside(ops: seq<DiffOp>, bs: nat, br: nat, basis: seq<byte>)
    requires AllCarried(ops, bs, br, basis) && forall k :: 0 <= k < |ops| ==> Indexable(ops[k], bs)
    ensures forall k :: 0 <= k < |ops| ==> Piece(TokensOf(ops, bs)[k], basis, br).Some?
  {
    forall k | 0 <= k < |ops|
      ensures Piece(TokensOf(ops, bs)[k], basis, br).Some?
    {
      assert Carried(ops[k], bs, br, basis);
    }
  }

  // ---- The transfer ----

  lemma StandingCarried(op: DiffOp, source: seq<byte>, p: nat, sums: SumStruct, basis: seq<byte>,
                        ctx: Context, b: i32, s2: i32, greedy: bool)
    requires ctx.Valid() && b > 0 && 0 <= s2 <= ctx.digestLen
    requires SignatureOf(sums, basis, ctx, b, s2) && |sums.sums| < C.MAX_INDEX
    requires Stands(op, source, p, sums, ctx, greedy)
    ensures Carried(op, sums.head.blength, ReceiverBlength(ResponseHead(sums.head)), basis)
    ensures Indexable(op, sums.head.blength)
  {
    if op.Copy? {
      var w := source[p..p + sums.head.blength];
      var i: nat :| op == CopyOf(i, sums.head) && StrongMatch(w, sums, ctx, i);
      SignedHead(sums, basis, ctx, b, s2);
      IndexOfBlock(i, b);
      SameBlockLength(i, sums.head, |basis|, b);
    }
  }

  lemma DescribedCarried(ops: seq<DiffOp>, source: seq<byte>, sums: SumStruct, basis: seq<byte>,
                         ctx: Context, b: i32, s2: i32, greedy: bool)
    requires ctx.Valid() && b > 0 && 0 <= s2 <= ctx.digestLen
    requires SignatureOf(sums, basis, ctx, b, s2) && |sums.sums| < C.MAX_INDEX
    requires Describes(ops, source, 0, sums, ctx, greedy)
    ensures AllCarried(ops, sums.head.blength, ReceiverBlength(ResponseHead(sums.head)), basis)
    ensures forall k :: 0 <= k < |ops| ==> Indexable(ops[k], sums.head.blength)
  {
    forall k | 0 <= k < |ops|
      ensures Carried(ops[k], sums.head.blength, ReceiverBlength(ResponseHead(sums.head)), basis)
      ensures Indexable(ops[k], sums.head.blength)
    {
      assert StandsAt(ops, k, source, 0, sums, ctx, greedy);
      StandingCarried(ops[k], source, SpanFirst(ops, k, sums.head.blength), sums, basis, ctx, b, s2, greedy);
    }
  }

  /** The codec gives the tokens back as they are. */
  ghost predicate Lossless(codec: C.Codec, tokens: seq<Token>) {
    FileMeaning(codec, tokens) == StepsOf(tokens)
  }

  /** What a reply through the codec is received as. */
  ghost predicate Outcome(r: Result<seq<byte>>, ops: seq<DiffOp>, tokens: seq<Token>, codec: C.Codec,
                          hashed: seq<byte>, basis: seq<byte>, ctx: Context)
  {
    && (r == Err(Undecodable) <==> C.Broken in FileMeaning(codec, tokens))
    && (r.Ok? ==> ctx.file(r.value) == ctx.file(hashed))
    && (r.Err? ==> r.error == ChecksumMismatch || r.error == Undecodable)
    && (Lossless(codec, tokens) ==>
          r == if ctx.file(hashed) == ctx.file(Apply(basis, ops)) then Ok(Apply(basis, ops)) else Err(ChecksumMismatch))
  }

  lemma {:induction false} StepsUnbroken(tokens: seq<Token>)
    ensures C.Broken !in StepsOf(tokens)
  {
    if tokens != [] {
      StepsUnbroken(tokens[..|tokens| - 1]);
    }
  }

  function FileOnly(r: Result<(seq<byte>, seq<byte>)>): Result<seq<byte>> {
    match r case Ok((file, _)) => Ok(file) case Err(e) => Err(e)
  }

  lemma ReplyOutcome(ops: seq<DiffOp>, codec: C.Codec, hashed: seq<byte>, bs: nat, br: nat, basis: seq<byte>,
                     ctx: Context, file: (seq<C.Step>, seq<byte>))
    requires ctx.Valid() && AllCarried(ops, bs, br, basis)
    requires forall k :: 0 <= k < |ops| ==> Indexable(ops[k], bs)
    requires file == (FileMeaning(codec, TokensOf(ops, bs)), ctx.file(hashed))
    ensures var received := Rebuild(file, basis, br, ctx, []);
            Outcome(FileOnly(received), ops, TokensOf(ops, bs), codec, hashed, basis, ctx)
  {
    TokensInside(ops, bs, br, basis);
    FileInside(codec, TokensOf(ops, bs), basis, br);
    BuildDecides(file.0, basis, br, []);
    BuildAll(ops, bs, br, basis);
    StepsUnbroken(TokensOf(ops, bs));
    assert ctx.file(hashed)[..ctx.digestLen] == ctx.file(hashed);
  }

  /** Delivery of operations that describe what was hashed. */
  method DeliverCompressed(ops: seq<DiffOp>, hashed: seq<byte>, sums: SumStruct, basis: seq<byte>, ctx: Context,
                           b: i32, s2: i32, codec: C.Codec, ghost greedy: bool)
    returns (r: Result<seq<byte>>, ghost tokens: seq<Token>)
    requires ctx.Valid() && b > 0 && 0 <= s2 <= ctx.digestLen
    requires SignatureOf(sums, basis, ctx, b, s2) && |sums.sums| < C.MAX_INDEX
    requires Describes(ops, hashed, 0, sums, ctx, greedy)
    ensures r.Ok? ==> ctx.file(r.value) == ctx.file(hashed)
    ensures r.Err? ==> r.error == ChecksumMismatch || r.error == Undecodable
    ensures TokensAre(tokens, ops, sums.head.blength) && Outcome(r, ops, tokens, codec, hashed, basis, ctx)
  {
    DescribedCarried(ops, hashed, sums, basis, ctx, b, s2, greedy);
    tokens := TokensOf(ops, sums.head.blength);
    var head := ResponseHead(sums.head);
    var body := SendCompressed(ops, sums.head.blength, ctx.file(hashed), codec);
    SumHeadRoundTrip(head, body);
    var h := ReadSumHead(WriteSumHead(head) + body);
    var received := RecvFileDeltaCompressed(h.value.1, basis, ReceiverBlength(h.value.0), ctx, codec);
    ReplyOutcome(ops, codec, hashed, sums.head.blength, ReceiverBlength(head), basis, ctx,
                 (FileMeaning(codec, tokens), ctx.file(hashed)));
    r := FileOnly(received);
  }

  /** The signature is within the limits of the wire. */
  ghost predicate Readable(basis: seq<byte>, b: i32, s2: i32)
    requires b > 0
  {
    basis == [] || (BlockCount(|basis|, b) <= MAX_BLOCK_COUNT && s2 <= MAX_S2LENGTH)
  }

  /** An accepted file has the checksum of what was hashed; otherwise it was that or a frame that failed. */
  ghost predicate Accounted(r: Result<seq<byte>>, hashed: seq<byte>, ctx: Context) {
    && (r.Ok? ==> ctx.file(r.value) == ctx.file(hashed))
    && (r.Err? ==> r.error == ChecksumMismatch || r.error == Undecodable)
  }

  /**
   * A file transferred in compressed tokens, through any codec. It fails to decode exactly when the
   * codec refuses a frame of the delta; an accepted file has the source's checksum; and if the
   * codec gives the delta back, the result is the source whenever no strong checksums collide.
   */
  method TransferCompressed(source: seq<byte>, basis: seq<byte>, ctx: Context, b: i32, s2: i32, codec: C.Codec)
    returns (r: Result<seq<byte>>, ghost sums: SumStruct, ghost tokens: seq<Token>)
    requires ctx.Valid() && b > 0 && 0 <= s2 <= ctx.digestLen
    requires BlockCount(|basis|, b) < 0x8000_0000
    ensures if Readable(basis, b, s2) then Accounted(r, source, ctx) else r == Err(OutOfRange)
    ensures Readable(basis, b, s2) ==>
              && SignatureOf(sums, basis, ctx, b, s2) && sums.head.blength >= 0
              && TokensAre(tokens, DeltaOf(source, sums, ctx), sums.head.blength)
              && (r == Err(Undecodable) <==> C.Broken in FileMeaning(codec, tokens))
              && (Lossless(codec, tokens) && CollisionFree(source, basis, ctx, b, s2) ==> r == Ok(source))
  {
    var read := ExchangeSums(basis, ctx, b, s2);
    if read.Err? {
      return Err(read.error), SumStruct(SumHead(0, 0, 0, 0), []), [];
    }
    sums := read.value;
    var ops := MatchBlocks(source, read.value, ctx);
    BatchDescribes(source, sums, basis, ctx, b, s2);
    r, tokens := DeliverCompressed(ops, source, read.value, basis, ctx, b, s2, codec, basis != []);
    WholeRebuilt(ops, source, sums, basis, ctx, b, s2, basis != []);
  }

  /** The same through the streaming matcher, whose chunks hold a block. */
  method TransferStreamCompressed(source: seq<byte>, basis: seq<byte>, ctx: Context, b: i32, s2: i32, chunk: nat,
                                  codec: C.Codec)
    returns (r: Result<seq<byte>>, ghost sums: SumStruct, ghost tokens: seq<Token>)
    requires ctx.Valid() && b > 0 && 0 <= s2 <= ctx.digestLen
    requires BlockCount(|basis|, b) < 0x8000_0000
    ensures var adequate := chunk > 0 && (basis == [] || b <= chunk);
            var hashed := if adequate then source else source[..Min(chunk, |source|)];
            if Readable(basis, b, s2) then Accounted(r, hashed, ctx) else r == Err(OutOfRange)
    ensures var adequate := chunk > 0 && (basis == [] || b <= chunk);
            var hashed := if adequate then source else source[..Min(chunk, |source|)];
            Readable(basis, b, s2) ==>
              && SignatureOf(sums, basis, ctx, b, s2) && sums.head.blength >= 0
              && (adequate ==>
                    && AdequateChunk(sums, chunk)
                    && TokensAre(tokens, StreamOps(source, sums, ctx, chunk), sums.head.blength))
              && (r == Err(Undecodable) <==> C.Broken in FileMeaning(codec, tokens))
              && (Lossless(codec, tokens) && (adequate ==> CollisionFree(source, basis, ctx, b, s2)) ==>
                    r == Ok(hashed))
  {
    var read := ExchangeSums(basis, ctx, b, s2);
    if read.Err? {
      return Err(read.error), SumStruct(SumHead(0, 0, 0, 0), []), [];
    }
    sums := read.value;
    var ops, hashed := StreamDelta(source, read.value, ctx, chunk);
    EffectiveSignature(sums, basis, ctx, b, s2);
    if AdequateChunk(sums, chunk) {
      StreamDescribes(source, sums, ctx, chunk);
      WholeRebuilt(ops, source, sums, basis, ctx, b, s2, false);
    } else {
      PendingDescribed(hashed, 0, |hashed|, sums, ctx, false);
      assert hashed[0..|hashed|] == hashed;
      PendingSpan(hashed, basis);
    }
    r, tokens := DeliverCompressed(ops, hashed, read.value, basis, ctx, b, s2, codec, false);
  }

  /** Through a stream compressor the transfer is as good as the plain one. */
  method TransferThroughStream(source: seq<byte>, basis: seq<byte>, ctx: Context, b: i32, s2: i32, enc: Compress,
                               all: seq<byte> -> seq<byte>)
    returns (r: Result<seq<byte>>)
    requires ctx.Valid() && b > 0 && 0 <= s2 <= ctx.digestLen && StreamLaw(enc, all)
    requires BlockCount(|basis|, b) < 0x8000_0000
    ensures if Readable(basis, b, s2) then
              && (r.Ok? ==> ctx.file(r.value) == ctx.file(source))
              && (r.Err? ==> r.error == ChecksumMismatch)
              && (CollisionFree(source, basis, ctx, b, s2) ==> r == Ok(source))
            else r == Err(OutOfRange)
  {
    ghost var sums, tokens;
    r, sums, tokens := TransferCompressed(source, basis, ctx, b, s2, Streamed(enc, all));
    if Readable(basis, b, s2) {
      StreamLossless(enc, all, tokens);
      StepsUnbroken(tokens);
    }
  }

  /** Through a block compressor too, if and only if every chunk of the delta's literals fits in a frame. */
  method TransferThroughBlocks(source: seq<byte>, basis: seq<byte>, ctx: Context, b: i32, s2: i32,
                               enc: seq<byte> -> seq<byte>, dec: seq<byte> -> Option<seq<byte>>)
    returns (r: Result<seq<byte>>, ghost sums: SumStruct, ghost tokens: seq<Token>)
    requires ctx.Valid() && b > 0 && 0 <= s2 <= ctx.digestLen && BlockLaw(enc, dec)
    requires BlockCount(|basis|, b) < 0x8000_0000
    ensures if Readable(basis, b, s2) then Accounted(r, source, ctx) else r == Err(OutOfRange)
    ensures Readable(basis, b, s2) ==>
              && SignatureOf(sums, basis, ctx, b, s2) && sums.head.blength >= 0
              && TokensAre(tokens, DeltaOf(source, sums, ctx), sums.head.blength)
              && (r == Err(Undecodable) <==> !TokensFit(enc, tokens))
              && (TokensFit(enc, tokens) && CollisionFree(source, basis, ctx, b, s2) ==> r == Ok(source))
  {
    r, sums, tokens := TransferCompressed(source, basis, ctx, b, s2, Blocks(enc, dec));
    if Readable(basis, b, s2) {
      BlocksLossless(enc, dec, tokens);
    }
  }
}
