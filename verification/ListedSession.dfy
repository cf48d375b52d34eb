/**
 * A session over an exchanged file list: the indices come from the two sides' own numbering, the
 * groups of the list are those the sender's loop has to send, and every file received is the
 * sender's file for the same entry.
 */
module ListedSession {
  import opened Bytes
  import opened Signatures
  import opened Delta
  import opened SortOrder
  import opened FileIndex
  import opened FileTransfer
  import opened FileListReceipt
  import opened Session
  import opened SessionCleanup
  import opened SessionOutcome
  import opened SessionFiles
  import Network

  /**
   * The sender serves the list it sent and leaves all groups but the first to its loop; the receiver
   * asks for regular files of the list it received.
   */
  ghost predicate OverList(c: Setup, es: seq<FileEntry>, ndx: seq<int>, r: Receipt) {
    && c.capacity > 0 && c.tail.Valid() && c.senderNdx == ndx && c.ndx == r.ndx && c.pending + 1 == r.lists
    && |c.actions| == |r.ndx| == |r.entries| && |c.regular| == |es| == |ndx|
    && (forall i :: 0 <= i < |es| ==> c.regular[i] == es[i].kind.Regular?)
    && (forall k :: 0 <= k < |c.actions| ==> AsksRegular(c.actions[k], r.entries[k]))
  }

  ghost predicate AsksRegular(action: Action, e: FileEntry) {
    action.Transfer? ==> e.kind.Regular?
  }

  /** Over a shared list no two entries have one index, and everything asked for is answered. */
  lemma ListServes(c: Setup, es: seq<FileEntry>, ndx: seq<int>, r: Receipt)
    requires Shared(es, ndx, r) && OverList(c, es, ndx, r)
    ensures c.Valid() && Injective(c.senderNdx)
  {
    forall i, j | 0 <= i < j < |ndx|
      ensures ndx[i] != ndx[j]
    {
      IndicesDistinct(es, ndx, r, i, j);
    }
    var flat :| Corresponds(flat, es, ndx, r);
    forall k | 0 <= k < |c.actions| && c.actions[k].Transfer?
      ensures c.ndx[k] >= 0 && exists j :: 0 <= j < |c.regular| && c.senderNdx[j] == c.ndx[k] && c.regular[j]
    {
      assert SameFile(es, ndx, r, flat[k], k) && AsksRegular(c.actions[k], r.entries[k]);
      assert c.senderNdx[flat[k]] == c.ndx[k] && c.regular[flat[k]];
    }
    SharedIndicesAnswer(c);
  }

  /** A file received for an entry was accepted, and is the source that the sender has for that same entry. */
  ghost predicate BringsOwn(es: seq<FileEntry>, r: Receipt, bases: seq<Basis>, sources: seq<seq<byte>>, ctx: Context,
                            how: Sending, e: Event)
  {
    e.Received? ==>
      e.entry < |r.entries| && e.entry < |bases| && bases[e.entry].Valid(ctx) &&
      var file := Taken(Flatten(e.reply), bases[e.entry].data, ctx);
      file.Ok? &&
      exists i :: 0 <= i < |es| && i < |sources| && es[i] == r.entries[e.entry]
        && Delivered(file, SentPart(sources[i], bases[e.entry].sums, how), bases[e.entry], ctx)
  }

  lemma EntryBrings(c: Setup, es: seq<FileEntry>, ndx: seq<int>, r: Receipt,
                    bases: seq<Basis>, sources: seq<seq<byte>>, ctx: Context, how: Sending, e: Event)
    requires Shared(es, ndx, r) && OverList(c, es, ndx, r) && Serves(c, bases, sources, ctx, how)
    requires Brings(c, bases, sources, ctx, how, e)
    ensures BringsOwn(es, r, bases, sources, ctx, how, e)
  {
    if e.Received? {
      var flat :| Corresponds(flat, es, ndx, r);
      var i := flat[e.entry];
      assert SameFile(es, ndx, r, i, e.entry);
      assert c.senderNdx[i] == c.ndx[e.entry];
      assert Delivered(Taken(Flatten(e.reply), bases[e.entry].data, ctx),
                       SentPart(sources[i], bases[e.entry].sums, how), bases[e.entry], ctx);
    }
  }

  /**
   * In every interleaving and at every moment, each file received so far is the sender's for the
   * receiver's own entry.
   */
  lemma EveryEntryDelivered(c: Setup, es: seq<FileEntry>, ndx: seq<int>, r: Receipt,
                            bases: seq<Basis>, sources: seq<seq<byte>>, ctx: Context, how: Sending, taken: seq<nat>)
    requires Shared(es, ndx, r) && OverList(c, es, ndx, r) && Exchanges(c, bases, sources, ctx, how)
    requires Network.Run(NetOf(c), Start(), taken).Some?
    ensures var u := Network.Run(NetOf(c), Start(), taken).value;
            && |u.locals| == 3
            && forall e :: e in LogOf(u.locals[RECEIVER]) ==> BringsOwn(es, r, bases, sources, ctx, how, e)
  {
    ListServes(c, es, ndx, r);
    SessionDelivers(c, bases, sources, ctx, how, taken);
    var log := LogOf(Network.Run(NetOf(c), Start(), taken).value.locals[RECEIVER]);
    forall e | e in log
      ensures BringsOwn(es, r, bases, sources, ctx, how, e)
    {
      EntryBrings(c, es, ndx, r, bases, sources, ctx, how, e);
    }
  }

  /** No strong checksums of what is sent of a file collide with those of its basis. */
  ghost predicate AllCollisionFree(c: Setup, bases: seq<Basis>, sources: seq<seq<byte>>, ctx: Context, how: Sending)
    requires |bases| == |c.ndx| && |sources| == |c.senderNdx| && ctx.Valid()
  {
    forall i, j :: 0 <= i < |bases| && 0 <= j < |sources| && c.senderNdx[j] == c.ndx[i] ==>
      CollisionFreeFor(bases[i], sources[j], ctx, how)
  }

  ghost predicate CollisionFreeFor(f: Basis, source: seq<byte>, ctx: Context, how: Sending)
    requires ctx.Valid()
  {
    f.Valid(ctx) ==> CollisionFree(SentPart(source, f.sums, how), f.data, ctx, f.b, f.s2)
  }

  lemma AllAccepted(c: Setup, es: seq<FileEntry>, ndx: seq<int>, r: Receipt,
                    bases: seq<Basis>, sources: seq<seq<byte>>, ctx: Context, how: Sending, i: nat)
    requires ctx.Valid() && Shared(es, ndx, r) && OverList(c, es, ndx, r) && Serves(c, bases, sources, ctx, how)
    requires AllCollisionFree(c, bases, sources, ctx, how) && i < |c.actions|
    ensures Accepted(c, i)
  {
    var flat :| Corresponds(flat, es, ndx, r);
    var j := flat[i];
    assert SameFile(es, ndx, r, j, i);
    assert Requested(c.actions[i], bases[i], ctx);
    assert CollisionFreeFor(bases[i], sources[j], ctx, how);
    CollisionFreeAccepted(c, bases, sources, ctx, how, i, j);
  }

  /**
   * Without strong collisions, a session over an exchanged list ends with every file asked for
   * received, in every interleaving, if and only if the list came in one piece, or in two and the
   * session is a push or its statistics happen to be aligned. An incremental list comes in one piece
   * more than it has directories to descend into.
   */
  lemma ListCompletes(c: Setup, es: seq<FileEntry>, ndx: seq<int>, r: Receipt,
                      bases: seq<Basis>, sources: seq<seq<byte>>, ctx: Context, how: Sending, push: bool, sync: bool)
    requires ctx.Valid() && Shared(es, ndx, r) && OverList(c, es, ndx, r)
    requires Exchanges(c, bases, sources, ctx, how) && Paired(c, push, sync)
    requires AllCollisionFree(c, bases, sources, ctx, how)
    ensures c.Valid()
    ensures Completes(c) <==> r.lists == 1 || (r.lists == 2 && (push || Aligned(c.tail, sync)))
    ensures r.lists == 1 + |Directories(es)| ==>
              (Completes(c) <==>
                 var n := |Directories(es)|; n == 0 || (n == 1 && (push || Aligned(c.tail, sync))))
  {
    ListServes(c, es, ndx, r);
    forall i | 0 <= i < |c.actions|
      ensures Accepted(c, i)
    {
      AllAccepted(c, es, ndx, r, bases, sources, ctx, how, i);
    }
    SessionCompletes(c, push, sync);
  }

  /** Two directories, "a" and "b": whatever is asked for, the session comes to a stop before the first request. */
  lemma TwoDirectoriesStop(c: Setup, ndx: seq<int>, r: Receipt)
    requires var es := [FileEntry([0x61], Directory, 0), FileEntry([0x62], Directory, 0)];
             Shared(es, ndx, r) && OverList(c, es, ndx, r) && r.lists == 1 + |Directories(es)|
    ensures c.Valid() && c.pending == 2 && !Completes(c)
  {
    var es := [FileEntry([0x61], Directory, 0), FileEntry([0x62], Directory, 0)];
    assert Directories(es) == {0, 1};
    ListServes(c, es, ndx, r);
    StuckStays(c);
  }
}
