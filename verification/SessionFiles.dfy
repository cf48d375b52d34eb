/**
 * Sessions that carry real deltas: every request holds the block signatures of the receiver's
 * basis, every answer the sender's delta against them, by the batch or the streaming matcher. The
 * receiver accepts an answer if it rebuilds a file with the announced checksum.
 */
module SessionFiles {
  import opened Bytes
  import opened Signatures
  import opened Delta
  import opened Matcher
  import opened StreamScan
  import opened SumWire
  import opened DeltaTransfer
  import opened FileTransfer
  import opened Session
  import opened SessionOutcome
  import Network

  /** The receiver's basis for a file, with the signatures the generator computed for it. */
  datatype Basis = Basis(data: seq<byte>, b: i32, s2: i32, sums: SumStruct) {
    ghost predicate Valid(ctx: Context) {
      && ctx.Valid() && b > 0 && 0 <= s2 <= ctx.digestLen
      && SignatureOf(sums, data, ctx, b, s2)
      && (data == [] || (BlockCount(|data|, b) <= MAX_BLOCK_COUNT && s2 <= MAX_S2LENGTH))
    }
  }

  /** From which size on the sender streams a source, and in which chunks. */
  datatype Sending = Sending(threshold: nat, chunk: nat)

  /** The part of a source that is sent and hashed: streamed in chunks that hold no block, only the first chunk. */
  ghost function SentPart(source: seq<byte>, sums: SumStruct, how: Sending): seq<byte>
  {
    if |source| >= how.threshold && !AdequateChunk(sums, how.chunk) then source[..Min(how.chunk, |source|)] else source
  }

  ghost function SentOps(source: seq<byte>, sums: SumStruct, ctx: Context, how: Sending): seq<DiffOp>
  {
    if |source| < how.threshold then DeltaOf(source, sums, ctx)
    else if AdequateChunk(sums, how.chunk) then StreamOps(source, sums, ctx, how.chunk)
    else Pending(SentPart(source, sums, how))
  }

  /** What the sender writes about a source, given the bytes of a request. */
  ghost function AnswerBytes(source: seq<byte>, request: seq<byte>, ctx: Context, how: Sending): seq<byte>
  {
    match ParseSums(request)
    case Err(_) => []
    case Ok((sums, _)) =>
      if sums.head.blength < 0 then [] else
      WriteSumHead(ResponseHead(sums.head))
        + DeltaTransfer.Reply(SentOps(source, sums, ctx, how), sums.head.blength, ctx.file(SentPart(source, sums, how)))
  }

  /** The file is the source if no strong checksums collide, and has its checksum whatever collides. */
  ghost predicate Delivered(r: Result<seq<byte>>, source: seq<byte>, f: Basis, ctx: Context)
    requires f.Valid(ctx)
  {
    && (r.Ok? ==> ctx.file(r.value) == ctx.file(source))
    && (r.Err? ==> r.error == ChecksumMismatch)
    && (CollisionFree(source, f.data, ctx, f.b, f.s2) ==> r == Ok(source))
  }

  /** Whole deltas are delivered, whichever matcher made them. */
  lemma WholeDelivered(ops: seq<DiffOp>, source: seq<byte>, f: Basis, ctx: Context, greedy: bool)
    requires f.Valid(ctx) && f.sums.head.blength >= 0
    requires Describes(ops, source, 0, f.sums, ctx, greedy) && TotalSpan(ops, f.sums.head.blength) == |source|
    ensures var reply := DeltaTransfer.Reply(ops, f.sums.head.blength, ctx.file(source));
            var answer := WriteSumHead(ResponseHead(f.sums.head)) + reply;
            Delivered(Taken(answer, f.data, ctx), source, f, ctx)
  {
    DescribedTransported(ops, source, f.sums, f.data, ctx, f.b, f.s2, greedy);
    ReplyRebuilds(ops, source, f.sums, f.data, ctx);
    WholeRebuilt(ops, source, f.sums, f.data, ctx, f.b, f.s2, greedy);
  }

  /** The whole source is sent unless it is streamed, in chunks that hold no block, and longer than a chunk. */
  lemma SentWhole(source: seq<byte>, sums: SumStruct, how: Sending)
    ensures SentPart(source, sums, how) == source
       <==> |source| < how.threshold || AdequateChunk(sums, how.chunk) || |source| <= how.chunk
  {
    FirstChunkIsAll(source, how.chunk);
  }

  /** What the sender sends of a source is delivered: the source, or its first chunk. */
  lemma AnswerDelivered(source: seq<byte>, f: Basis, ctx: Context, how: Sending)
    requires f.Valid(ctx)
    ensures Delivered(Taken(AnswerBytes(source, SumBytes(f.sums), ctx, how), f.data, ctx),
                      SentPart(source, f.sums, how), f, ctx)
  {
    SignatureSized(f.sums, f.data, ctx, f.b, f.s2);
    SumsRoundTrip(f.sums, []);
    assert SumBytes(f.sums) + [] == SumBytes(f.sums);
    EffectiveSignature(f.sums, f.data, ctx, f.b, f.s2);
    if |source| < how.threshold {
      BatchDescribes(source, f.sums, f.data, ctx, f.b, f.s2);
      WholeDelivered(DeltaOf(source, f.sums, ctx), source, f, ctx, f.data != []);
    } else if AdequateChunk(f.sums, how.chunk) {
      StreamDescribes(source, f.sums, ctx, how.chunk);
      WholeDelivered(StreamOps(source, f.sums, ctx, how.chunk), source, f, ctx, false);
    } else {
      var part := SentPart(source, f.sums, how);
      PendingDescribed(part, 0, |part|, f.sums, ctx, false);
      assert part[0..|part|] == part;
      WholeDelivered(Pending(part), part, f, ctx, false);
    }
  }

  /** A request carries the signatures of its basis. */
  ghost predicate Requested(action: Action, f: Basis, ctx: Context)
  {
    f.Valid(ctx) && (action.Transfer? ==> Flatten(action.request) == SumBytes(f.sums))
  }

  /**
   * Requests carry the signatures of the bases and answers the deltas of the sources, cut in any
   * way; the receiver accepts what it can rebuild.
   */
  ghost predicate Exchanges(c: Setup, bases: seq<Basis>, sources: seq<seq<byte>>, ctx: Context, how: Sending)
  {
    && |bases| == |c.actions| && |sources| == |c.senderNdx|
    && (forall i :: 0 <= i < |bases| ==> Requested(c.actions[i], bases[i], ctx))
    && (forall j: nat, request :: j < |sources| ==>
          Flatten(c.respond(j, request)) == AnswerBytes(sources[j], Flatten(request), ctx, how))
    && (forall i: nat, reply :: i < |bases| ==>
          c.accept(i, reply) == Taken(Flatten(reply), bases[i].data, ctx).Ok?)
  }

  ghost predicate Serves(c: Setup, bases: seq<Basis>, sources: seq<seq<byte>>, ctx: Context, how: Sending)
  {
    && c.Valid() && Injective(c.senderNdx) && Exchanges(c, bases, sources, ctx, how)
  }

  /** The reply for an entry that is asked for delivers the sender's file of the same index. */
  lemma ReplyDelivers(c: Setup, bases: seq<Basis>, sources: seq<seq<byte>>, ctx: Context, how: Sending, i: nat, j: nat)
    requires Serves(c, bases, sources, ctx, how) && i < |bases| && c.actions[i].Transfer?
    requires j < |sources| && c.senderNdx[j] == c.ndx[i]
    ensures bases[i].Valid(ctx)
    ensures Delivered(Taken(Flatten(ReplyTo(c, i)), bases[i].data, ctx), SentPart(sources[j], bases[i].sums, how),
                      bases[i], ctx)
  {
    assert Requested(c.actions[i], bases[i], ctx);
    OwnEntry(c, i, j);
    AnswerDelivered(sources[j], bases[i], ctx, how);
  }

  /** Without strong collisions between a file and its basis, its reply is accepted. */
  lemma CollisionFreeAccepted(c: Setup, bases: seq<Basis>, sources: seq<seq<byte>>, ctx: Context, how: Sending, i: nat,
                              j: nat)
    requires Serves(c, bases, sources, ctx, how) && i < |bases| && j < |sources| && c.senderNdx[j] == c.ndx[i]
    requires bases[i].Valid(ctx)
    requires CollisionFree(SentPart(sources[j], bases[i].sums, how), bases[i].data, ctx, bases[i].b, bases[i].s2)
    ensures Accepted(c, i)
  {
    if c.actions[i].Transfer? {
      ReplyDelivers(c, bases, sources, ctx, how, i, j);
    }
  }

  /** Event `e` brings a file that was accepted, from the sender's file of the same index. */
  ghost predicate Brings(c: Setup, bases: seq<Basis>, sources: seq<seq<byte>>, ctx: Context, how: Sending, e: Event)
    requires |sources| == |c.senderNdx| && |bases| == |c.ndx|
  {
    e.Received? ==>
      && e.entry < |bases| && bases[e.entry].Valid(ctx)
      && Taken(Flatten(e.reply), bases[e.entry].data, ctx).Ok?
      && forall j :: 0 <= j < |sources| && c.senderNdx[j] == c.ndx[e.entry] ==>
           Delivered(Taken(Flatten(e.reply), bases[e.entry].data, ctx), SentPart(sources[j], bases[e.entry].sums, how),
                     bases[e.entry], ctx)
  }

  lemma OwnBrings(c: Setup, bases: seq<Basis>, sources: seq<seq<byte>>, ctx: Context, how: Sending, e: Event)
    requires Serves(c, bases, sources, ctx, how) && Own(c, e) && (e.Received? ==> Accepted(c, e.entry))
    ensures Brings(c, bases, sources, ctx, how, e)
  {
    if e.Received? {
      assert Requested(c.actions[e.entry], bases[e.entry], ctx);
      forall j | 0 <= j < |sources| && c.senderNdx[j] == c.ndx[e.entry]
        ensures Delivered(Taken(Flatten(e.reply), bases[e.entry].data, ctx),
                          SentPart(sources[j], bases[e.entry].sums, how), bases[e.entry], ctx)
      {
        ReplyDelivers(c, bases, sources, ctx, how, e.entry, j);
      }
    }
  }

  /** At every moment of every session, each file received so far is the sender's file of its index. */
  lemma SessionDelivers(c: Setup, bases: seq<Basis>, sources: seq<seq<byte>>, ctx: Context, how: Sending,
                        taken: seq<nat>)
    requires Serves(c, bases, sources, ctx, how) && Network.Run(NetOf(c), Start(), taken).Some?
    ensures var u := Network.Run(NetOf(c), Start(), taken).value;
            && |u.locals| == 3
            && forall e :: e in LogOf(u.locals[RECEIVER]) ==> Brings(c, bases, sources, ctx, how, e)
  {
    ReceivedInOrder(c, taken);
    var log := LogOf(Network.Run(NetOf(c), Start(), taken).value.locals[RECEIVER]);
    var n := if c.pending <= 1 then Stop(c, 0) else 0;
    forall e | e in log
      ensures Brings(c, bases, sources, ctx, how, e)
    {
      assert e in Expected(c, n);
      ExpectedOwn(c, n, e);
      OwnBrings(c, bases, sources, ctx, how, e);
    }
  }
}
