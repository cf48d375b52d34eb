/** The whole exchange for one file, from the basis and the source to the rebuilt file. */
module FileTransfer {
  import opened Bytes
  import opened Signatures
  import opened Delta
  import opened Matcher
  import opened GreedyDelta
  import opened StreamScan
  import opened Streaming
  import opened SumWire
  import opened Tokens
  import opened DeltaTransfer

  /** Block length the receiver falls back to when the reply announces none. */
  const FALLBACK_BLOCK_LENGTH: nat := 700

  function ReceiverBlength(head: SumHead): (b: nat)
    ensures b > 0
  {
    if head.blength > 0 then head.blength else FALLBACK_BLOCK_LENGTH
  }

  /** The header the sender echoes. */
  function ResponseHead(head: SumHead): (h: SumHead) {
    if head.count == 0 then SumHead(0, 0, 0, 0) else head
  }

  lemma SignatureSized(s: SumStruct, data: seq<byte>, ctx: Context, b: i32, s2: i32)
    requires ctx.Valid() && b > 0 && 0 <= s2 <= ctx.digestLen
    requires SignatureOf(s, data, ctx, b, s2) && |s.sums| < 0x8000_0000
    ensures Sized(s)
  {
  }

  /** The generator's signatures as the sender reads them. */
  method ExchangeSums(basis: seq<byte>, ctx: Context, b: i32, s2: i32) returns (r: Result<SumStruct>)
    requires ctx.Valid() && b > 0 && 0 <= s2 <= ctx.digestLen
    requires BlockCount(|basis|, b) < 0x8000_0000
    ensures if basis == [] || (BlockCount(|basis|, b) <= MAX_BLOCK_COUNT && s2 <= MAX_S2LENGTH)
            then r.Ok? && SignatureOf(r.value, basis, ctx, b, s2)
            else r == Err(OutOfRange)
  {
    var sums := ComputeSignatures(basis, ctx, b, s2);
    var wire := WriteSums(sums);
    var read := ReadSums(wire);
    SignatureSized(sums, basis, ctx, b, s2);
    assert wire + [] == wire;
    SumsRoundTrip(sums, []);
    r := match read case Ok((s, _)) => Ok(s) case Err(e) => Err(e);
  }

  /** Whatever operations describe the source can be sent and received. */
  lemma DescribedTransported(ops: seq<DiffOp>, source: seq<byte>, sums: SumStruct, basis: seq<byte>,
                             ctx: Context, b: i32, s2: i32, greedy: bool)
    requires ctx.Valid() && b > 0 && 0 <= s2 <= ctx.digestLen
    requires SignatureOf(sums, basis, ctx, b, s2) && |sums.sums| < 0x7FFF_FFFF
    requires Describes(ops, source, 0, sums, ctx, greedy)
    ensures forall k :: 0 <= k < |ops| ==>
              Transported(ops[k], sums.head.blength, ReceiverBlength(ResponseHead(sums.head)), basis, ctx)
  {
    forall k | 0 <= k < |ops|
      ensures Transported(ops[k], sums.head.blength, ReceiverBlength(ResponseHead(sums.head)), basis, ctx)
    {
      assert StandsAt(ops, k, source, 0, sums, ctx, greedy);
      StandingTransported(ops[k], source, SpanFirst(ops, k, sums.head.blength), sums, basis, ctx, b, s2, greedy);
    }
  }

  lemma StandingTransported(op: DiffOp, source: seq<byte>, p: nat, sums: SumStruct, basis: seq<byte>,
                            ctx: Context, b: i32, s2: i32, greedy: bool)
    requires ctx.Valid() && b > 0 && 0 <= s2 <= ctx.digestLen
    requires SignatureOf(sums, basis, ctx, b, s2) && |sums.sums| < 0x7FFF_FFFF
    requires Stands(op, source, p, sums, ctx, greedy)
    ensures Transported(op, sums.head.blength, ReceiverBlength(ResponseHead(sums.head)), basis, ctx)
  {
    match op
    case Literal(data) =>
      LiteralTransported(data, sums.head.blength, ReceiverBlength(ResponseHead(sums.head)), basis, ctx);
    case Copy(_, _) =>
      var w := source[p..p + sums.head.blength];
      var i: nat :| op == CopyOf(i, sums.head) && StrongMatch(w, sums, ctx, i);
      SignedHead(sums, basis, ctx, b, s2);
      ApplicableTransported(op, sums.head, basis, ctx);
  }

  /** The sender's reply: header, tokens, end of file, checksum of the bytes it hashed. */
  method SendReply(ops: seq<DiffOp>, hashed: seq<byte>, sums: SumStruct, ctx: Context)
    returns (r: Result<seq<byte>>)
    requires sums.head.blength >= 0
    requires forall k :: 0 <= k < |ops| ==> (ops[k].Copy? ==> sums.head.blength > 0)
    ensures (forall k :: 0 <= k < |ops| ==> Sendable(ops[k], sums.head.blength)) ==>
              r == Ok(WriteSumHead(ResponseHead(sums.head)) + Reply(ops, sums.head.blength, ctx.file(hashed)))
  {
    var tokens := WriteDiffops(ops, sums.head.blength);
    if tokens.Err? {
      return Err(tokens.error);
    }
    r := Ok(WriteSumHead(ResponseHead(sums.head)) + (tokens.value + EofBytes() + ctx.file(hashed)));
  }

  /** What the receiver makes of a reply. */
  ghost function Taken(reply: seq<byte>, basis: seq<byte>, ctx: Context): Result<seq<byte>>
  {
    match ReadSumHead(reply)
    case Err(e) => Err(e)
    case Ok((head, rest)) =>
      match Receive(rest, basis, ReceiverBlength(head), ctx, [])
      case Err(e) => Err(e)
      case Ok((file, _)) => Ok(file)
  }

  method ReceiveReply(reply: seq<byte>, basis: seq<byte>, ctx: Context) returns (r: Result<seq<byte>>)
    ensures r == Taken(reply, basis, ctx)
  {
    var h := ReadSumHead(reply);
    if h.Err? {
      return Err(h.error);
    }
    var received := RecvFileDelta(h.value.1, basis, ReceiverBlength(h.value.0), ctx);
    r := match received case Ok((file, _)) => Ok(file) case Err(e) => Err(e);
  }

  /** A reply whose operations are transported is received as what they rebuild. */
  lemma ReplyRebuilds(ops: seq<DiffOp>, hashed: seq<byte>, sums: SumStruct, basis: seq<byte>, ctx: Context)
    requires ctx.Valid() && sums.head.blength >= 0
    requires forall k :: 0 <= k < |ops| ==>
               Transported(ops[k], sums.head.blength, ReceiverBlength(ResponseHead(sums.head)), basis, ctx)
    ensures var head := ResponseHead(sums.head);
            var reply := Reply(ops, sums.head.blength, ctx.file(hashed));
            && ReadSumHead(WriteSumHead(head) + reply) == Ok((head, reply))
            && Receive(reply, basis, ReceiverBlength(head), ctx, [])
               == if ctx.file(hashed) == ctx.file(Apply(basis, ops)) then Ok((Apply(basis, ops), []))
                  else Err(ChecksumMismatch)
  {
    var head := ResponseHead(sums.head);
    var reply := Reply(ops, sums.head.blength, ctx.file(hashed));
    SumHeadRoundTrip(head, reply);
    ReplyReceived(ops, sums.head.blength, ReceiverBlength(head), ctx.file(hashed), [], basis, ctx);
    assert reply + [] == reply;
  }

  /** Delivery of operations that describe the whole source. */
  method Deliver(ops: seq<DiffOp>, source: seq<byte>, sums: SumStruct, basis: seq<byte>,
                 ctx: Context, b: i32, s2: i32, ghost greedy: bool)
    returns (r: Result<seq<byte>>)
    requires ctx.Valid() && b > 0 && 0 <= s2 <= ctx.digestLen
    requires SignatureOf(sums, basis, ctx, b, s2) && |sums.sums| < 0x7FFF_FFFF
    requires Describes(ops, source, 0, sums, ctx, greedy)
    requires TotalSpan(ops, sums.head.blength) == |source|
    ensures r == if ctx.file(source) == ctx.file(Apply(basis, ops)) then Ok(Apply(basis, ops))
                 else Err(ChecksumMismatch)
  {
    DescribedTransported(ops, source, sums, basis, ctx, b, s2, greedy);
    ReplyRebuilds(ops, source, sums, basis, ctx);
    assert forall k :: 0 <= k < |ops| ==>
        Transported(ops[k], sums.head.blength, ReceiverBlength(ResponseHead(sums.head)), basis, ctx);
    var reply := SendReply(ops, source, sums, ctx);
    r := ReceiveReply(reply.value, basis, ctx);
  }

  /** Without strong collisions, operations that describe the whole source rebuild it. */
  lemma WholeRebuilt(ops: seq<DiffOp>, source: seq<byte>, sums: SumStruct, basis: seq<byte>,
                     ctx: Context, b: i32, s2: i32, greedy: bool)
    requires ctx.Valid() && b > 0 && 0 <= s2 <= ctx.digestLen
    requires SignatureOf(sums, basis, ctx, b, s2) && |sums.sums| < 0x7FFF_FFFF
    requires Describes(ops, source, 0, sums, ctx, greedy)
    requires TotalSpan(ops, sums.head.blength) == |source|
    ensures CollisionFree(source, basis, ctx, b, s2) ==> Apply(basis, ops) == source
  {
    if CollisionFree(source, basis, ctx, b, s2) {
      DescribedIsRebuilt(ops, source, 0, sums, basis, ctx, b, s2, greedy);
      assert source[0..|source|] == source;
    }
  }

  /** The batch delta of any source against any signature describes the source. */
  lemma BatchDescribes(source: seq<byte>, sums: SumStruct, basis: seq<byte>, ctx: Context, b: i32, s2: i32)
    requires ctx.Valid() && b > 0 && 0 <= s2 <= ctx.digestLen
    requires SignatureOf(sums, basis, ctx, b, s2) && |sums.sums| < 0x7FFF_FFFF
    ensures Describes(DeltaOf(source, sums, ctx), source, 0, sums, ctx, basis != [])
    ensures TotalSpan(DeltaOf(source, sums, ctx), sums.head.blength) == |source|
  {
    if basis == [] {
      PendingDescribed(source, 0, |source|, sums, ctx, false);
      assert source[0..|source|] == source;
    } else {
      SignedHead(sums, basis, ctx, b, s2);
      DeltaDescribes(source, sums, ctx);
    }
  }

  /**
   * A file transferred through the batch matcher. Within the limits of the wire, the result is the
   * source whenever no strong checksums collide; whatever collides, an accepted file has the
   * source's whole-file checksum and the only possible failure is a mismatch of that checksum.
   */
  method TransferFile(source: seq<byte>, basis: seq<byte>, ctx: Context, b: i32, s2: i32)
    returns (r: Result<seq<byte>>)
    requires ctx.Valid() && b > 0 && 0 <= s2 <= ctx.digestLen
    requires BlockCount(|basis|, b) < 0x8000_0000
    ensures if basis == [] || (BlockCount(|basis|, b) <= MAX_BLOCK_COUNT && s2 <= MAX_S2LENGTH) then
              && (r.Ok? ==> ctx.file(r.value) == ctx.file(source))
              && (r.Err? ==> r.error == ChecksumMismatch)
              && (CollisionFree(source, basis, ctx, b, s2) ==> r == Ok(source))
            else r == Err(OutOfRange)
  {
    var sums := ExchangeSums(basis, ctx, b, s2);
    if sums.Err? {
      return Err(sums.error);
    }
    var ops := MatchBlocks(source, sums.value, ctx);
    BatchDescribes(source, sums.value, basis, ctx, b, s2);
    r := Deliver(ops, source, sums.value, basis, ctx, b, s2, basis != []);
    WholeRebuilt(ops, source, sums.value, basis, ctx, b, s2, basis != []);
  }

  /**
   * The same through the streaming matcher. Chunks that hold a block transfer the source; with
   * smaller ones the receiver accepts the first chunk as if it were the file.
   */
  method TransferStream(source: seq<byte>, basis: seq<byte>, ctx: Context, b: i32, s2: i32, chunk: nat)
    returns (r: Result<seq<byte>>)
    requires ctx.Valid() && b > 0 && 0 <= s2 <= ctx.digestLen
    requires BlockCount(|basis|, b) < 0x8000_0000
    ensures var adequate := chunk > 0 && (basis == [] || b <= chunk);
            if basis != [] && (BlockCount(|basis|, b) > MAX_BLOCK_COUNT || s2 > MAX_S2LENGTH) then r == Err(OutOfRange)
            else if adequate then
              && (r.Ok? ==> ctx.file(r.value) == ctx.file(source))
              && (r.Err? ==> r.error == ChecksumMismatch)
              && (CollisionFree(source, basis, ctx, b, s2) ==> r == Ok(source))
            else
              && r == Ok(source[..Min(chunk, |source|)])
              && (r == Ok(source) <==> |source| <= chunk)
  {
    var sums := ExchangeSums(basis, ctx, b, s2);
    if sums.Err? {
      return Err(sums.error);
    }
    var ops, hashed := StreamDelta(source, sums.value, ctx, chunk);
    EffectiveSignature(sums.value, basis, ctx, b, s2);
    if AdequateChunk(sums.value, chunk) {
      StreamDescribes(source, sums.value, ctx, chunk);
      r := Deliver(ops, source, sums.value, basis, ctx, b, s2, false);
      WholeRebuilt(ops, source, sums.value, basis, ctx, b, s2, false);
    } else {
      PendingDescribed(hashed, 0, |hashed|, sums.value, ctx, false);
      assert hashed[0..|hashed|] == hashed;
      PendingSpan(hashed, basis);
      r := Deliver(ops, hashed, sums.value, basis, ctx, b, s2, false);
      FirstChunkIsAll(source, chunk);
    }
  }

  lemma FirstChunkIsAll(source: seq<byte>, chunk: nat)
    ensures source[..Min(chunk, |source|)] == source <==> |source| <= chunk
  {
    assert |source| > chunk ==> |source[..chunk]| < |source|;
  }

  lemma EffectiveSignature(s: SumStruct, data: seq<byte>, ctx: Context, b: i32, s2: i32)
    requires ctx.Valid() && b > 0 && 0 <= s2 <= ctx.digestLen
    requires SignatureOf(s, data, ctx, b, s2) && |s.sums| < 0x8000_0000
    ensures Effective(s) == s && s.head.blength == if data == [] then 0 else b
  {
  }

  /** A proper prefix accepted as the file: three bytes in chunks of two, against a basis of blocks of three. */
  method CutShort(ctx: Context, basis: seq<byte>) returns (r: Result<seq<byte>>)
    requires ctx.Valid() && |basis| == 3
    ensures r == Ok([7, 8])
  {
    r := TransferStream([7, 8, 9], basis, ctx, 3, 0, 2);
    assert [7, 8, 9][..2] == [7, 8];
  }
}
