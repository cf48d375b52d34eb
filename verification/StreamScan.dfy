/**
 * What the streaming matcher computes, as a function of the source, the signature and the size of
 * a chunk. Its rolling state is carried from one chunk to the next without the byte that moves the
 * window across the boundary, so it may fall behind the window.
 */
module StreamScan {
  import opened Bytes
  import opened Checksum
  import opened Signatures
  import opened Delta
  import opened Matcher

  /** Where a scan stands: without a rolling state it computes one from the window. */
  datatype Cursor = Cursor(pos: nat, lit: nat, weak: Option<Weak>)

  ghost predicate Within(data: seq<byte>, e: nat, c: Cursor) {
    c.lit <= c.pos <= e <= |data|
  }

  ghost function WeakAt(data: seq<byte>, b: nat, ctx: Context, c: Cursor): Weak
    requires c.pos + b <= |data|
  {
    match c.weak case Some(w) => w case None => WeakOf(data[c.pos..c.pos + b], ctx.charOffset)
  }

  /** The block that the state of the scan makes it find at its window. */
  ghost function Found(data: seq<byte>, sums: SumStruct, ctx: Context, c: Cursor): Option<nat>
    requires sums.head.blength > 0 && c.pos + sums.head.blength <= |data|
  {
    var b: nat := sums.head.blength;
    FindWith(data[c.pos..c.pos + b], sums, ctx, WeakAt(data, b, ctx, c).Digest())
  }

  /** The state after a turn that found nothing: it stays behind if the data end with the window. */
  ghost function Behind(data: seq<byte>, e: nat, b: nat, ctx: Context, c: Cursor): Weak
    requires c.pos + b <= e <= |data|
  {
    var weak := WeakAt(data, b, ctx, c);
    if c.pos + b == e then weak else Rolled(weak, data[c.pos], data[c.pos + b], ctx.charOffset, b % M)
  }

  /** One turn in data that is known up to `e`. */
  ghost function Next(data: seq<byte>, e: nat, sums: SumStruct, ctx: Context, c: Cursor): (n: Cursor)
    requires sums.head.blength > 0 && Within(data, e, c) && c.pos + sums.head.blength <= e
    ensures Within(data, e, n) && c.pos < n.pos
  {
    var b: nat := sums.head.blength;
    match Found(data, sums, ctx, c)
    case Some(_) => Cursor(c.pos + b, c.pos + b, None)
    case None => Cursor(c.pos + 1, c.lit, Some(Behind(data, e, b, ctx, c)))
  }

  ghost function Emitted(data: seq<byte>, sums: SumStruct, ctx: Context, c: Cursor): seq<DiffOp>
    requires sums.head.blength > 0 && c.lit <= c.pos && c.pos + sums.head.blength <= |data|
  {
    StepOps(data, sums.head, c.pos, c.lit, Found(data, sums, ctx, c))
  }

  /** The operations of all turns up to `e`, */
  ghost function ScanOps(data: seq<byte>, e: nat, sums: SumStruct, ctx: Context, c: Cursor): seq<DiffOp>
    requires sums.head.blength > 0 && Within(data, e, c)
    decreases e - c.pos
  {
    if c.pos + sums.head.blength > e then []
    else Emitted(data, sums, ctx, c) + ScanOps(data, e, sums, ctx, Next(data, e, sums, ctx, c))
  }

  /** and where they leave the scan. */
  ghost function ScanStop(data: seq<byte>, e: nat, sums: SumStruct, ctx: Context, c: Cursor): (n: Cursor)
    requires sums.head.blength > 0 && Within(data, e, c)
    ensures Within(data, e, n) && e < n.pos + sums.head.blength && c.lit <= n.lit && c.pos <= n.pos
    decreases e - c.pos
  {
    if c.pos + sums.head.blength > e then c
    else ScanStop(data, e, sums, ctx, Next(data, e, sums, ctx, c))
  }

  // ---- Chunk by chunk ----

  /** Literal bytes that the shift of the buffer would lose, and where the scan goes on. */
  ghost function Flushed(source: seq<byte>, e: nat, b: nat, c: Cursor): seq<DiffOp>
    requires b <= e <= |source|
  {
    if c.lit < e - b then [Literal(source[c.lit..e - b])] else []
  }

  ghost function Kept(e: nat, b: nat, c: Cursor): Cursor
    requires b <= e
  {
    if c.lit < e - b then c.(lit := e - b) else c
  }

  /** All operations from a scan at `c` in a buffer that was filled up to `e`. */
  ghost function Chunks(source: seq<byte>, sums: SumStruct, ctx: Context, chunk: nat, e: nat, c: Cursor): seq<DiffOp>
    requires 0 < sums.head.blength <= chunk && e <= |source| && Within(source, Min(e + chunk, |source|), c)
    decreases |source| - e, 0
  {
    if e + chunk > |source| then
      var stop := ScanStop(source, |source|, sums, ctx, c);
      ScanOps(source, |source|, sums, ctx, c) + Pending(source[stop.lit..])
    else
      var end := e + chunk;
      var stop := ScanStop(source, end, sums, ctx, c);
      ScanOps(source, end, sums, ctx, c) + After(source, sums, ctx, chunk, end, stop)
  }

  /** What follows a chunk that ended at `e` and was not the last. */
  ghost function After(source: seq<byte>, sums: SumStruct, ctx: Context, chunk: nat, e: nat, c: Cursor): seq<DiffOp>
    requires 0 < sums.head.blength <= chunk && sums.head.blength <= e && Within(source, e, c)
    requires e < c.pos + sums.head.blength
    decreases |source| - e, 1
  {
    var b: nat := sums.head.blength;
    Flushed(source, e, b, c) + Chunks(source, sums, ctx, chunk, e, Kept(e, b, c))
  }

  lemma {:induction false} ChunksNext(source: seq<byte>, sums: SumStruct, ctx: Context, chunk: nat, e: nat, c: Cursor,
                                      end: nat, stop: Cursor)
    requires 0 < sums.head.blength <= chunk && Within(source, e, c) && end == e + chunk <= |source|
    requires stop == ScanStop(source, end, sums, ctx, c)
    ensures Chunks(source, sums, ctx, chunk, e, c)
         == ScanOps(source, end, sums, ctx, c) + After(source, sums, ctx, chunk, end, stop)
  {
  }

  lemma {:induction false} ChunksLast(source: seq<byte>, sums: SumStruct, ctx: Context, chunk: nat, e: nat, c: Cursor)
    requires 0 < sums.head.blength <= chunk && Within(source, e, c) && e + chunk > |source|
    ensures var stop := ScanStop(source, |source|, sums, ctx, c);
            Chunks(source, sums, ctx, chunk, e, c)
            == ScanOps(source, |source|, sums, ctx, c) + Pending(source[stop.lit..|source|])
  {
    var stop := ScanStop(source, |source|, sums, ctx, c);
    assert source[stop.lit..] == source[stop.lit..|source|];
  }

  /** Without blocks, every chunk is one literal. */
  ghost function Pieces(source: seq<byte>, chunk: nat, e: nat): seq<DiffOp>
    requires chunk > 0 && e <= |source|
    decreases |source| - e
  {
    if e + chunk > |source| then Pending(source[e..])
    else [Literal(source[e..e + chunk])] + Pieces(source, chunk, e + chunk)
  }

  /** The signature the matcher works with: none when the header announces no blocks. */
  function Effective(sums: SumStruct): (s: SumStruct)
    ensures s.head.blength >= 0
    ensures s.head.count > 0 ==> s.head.blength > 0
    ensures s.head.count <= 0 ==> s.head.blength == 0
  {
    if sums.head.count <= 0 || sums.head.blength <= 0 then SumStruct(SumHead(0, 0, 0, 0), []) else sums
  }

  /** Chunks are not empty and hold at least one block. */
  predicate AdequateChunk(raw: SumStruct, chunk: nat) {
    chunk > 0 && Effective(raw).head.blength <= chunk
  }

  /** The operations of the streaming matcher over a whole source. */
  ghost function StreamOps(source: seq<byte>, raw: SumStruct, ctx: Context, chunk: nat): seq<DiffOp>
    requires AdequateChunk(raw, chunk)
  {
    if Effective(raw).head.count <= 0 then Pieces(source, chunk, 0)
    else Chunks(source, Effective(raw), ctx, chunk, 0, Cursor(0, 0, None))
  }

  // ---- The operations describe the source ----

  lemma {:induction false} ScanDescribed(data: seq<byte>, e: nat, sums: SumStruct, ctx: Context, c: Cursor)
    requires sums.head.blength > 0 && Within(data, e, c)
    ensures Describes(ScanOps(data, e, sums, ctx, c), data, c.lit, sums, ctx, false)
    ensures TotalSpan(ScanOps(data, e, sums, ctx, c), sums.head.blength) == ScanStop(data, e, sums, ctx, c).lit - c.lit
    decreases e - c.pos
  {
    if c.pos + sums.head.blength <= e {
      var next := Next(data, e, sums, ctx, c);
      StepDescribed(data, sums, ctx, c.pos, c.lit, Found(data, sums, ctx, c));
      ScanDescribed(data, e, sums, ctx, next);
      DescribesAppend(Emitted(data, sums, ctx, c), ScanOps(data, e, sums, ctx, next), data, c.lit, sums, ctx, false);
    }
  }

  lemma FlushDescribed(source: seq<byte>, e: nat, sums: SumStruct, ctx: Context, c: Cursor)
    requires 0 <= sums.head.blength <= e <= |source|
    ensures Describes(Flushed(source, e, sums.head.blength, c), source, c.lit, sums, ctx, false)
    ensures TotalSpan(Flushed(source, e, sums.head.blength, c), sums.head.blength)
         == Kept(e, sums.head.blength, c).lit - c.lit
  {
    if c.lit < e - sums.head.blength {
      PendingDescribed(source, c.lit, e - sums.head.blength, sums, ctx, false);
    }
  }

  lemma {:induction false} ChunksDescribed(source: seq<byte>, sums: SumStruct, ctx: Context, chunk: nat, e: nat,
                                           c: Cursor)
    requires 0 < sums.head.blength <= chunk && Within(source, e, c)
    ensures Describes(Chunks(source, sums, ctx, chunk, e, c), source, c.lit, sums, ctx, false)
    ensures TotalSpan(Chunks(source, sums, ctx, chunk, e, c), sums.head.blength) == |source| - c.lit
    decreases |source| - e
  {
    var b: nat := sums.head.blength;
    var last := e + chunk > |source|;
    var end := if last then |source| else e + chunk;
    var stop := ScanStop(source, end, sums, ctx, c);
    ScanDescribed(source, end, sums, ctx, c);
    if last {
      assert source[stop.lit..] == source[stop.lit..|source|];
      PendingDescribed(source, stop.lit, |source|, sums, ctx, false);
      Onwards(ScanOps(source, end, sums, ctx, c), Pending(source[stop.lit..]),
              source, c.lit, stop.lit, sums, ctx, false);
    } else {
      var kept := Kept(end, b, stop);
      FlushDescribed(source, end, sums, ctx, stop);
      ChunksDescribed(source, sums, ctx, chunk, end, kept);
      var rest := Chunks(source, sums, ctx, chunk, end, kept);
      Onwards(Flushed(source, end, b, stop), rest, source, stop.lit, kept.lit, sums, ctx, false);
      Onwards(ScanOps(source, end, sums, ctx, c), Flushed(source, end, b, stop) + rest,
              source, c.lit, stop.lit, sums, ctx, false);
    }
  }

  lemma {:induction false} PiecesDescribed(source: seq<byte>, chunk: nat, e: nat, sums: SumStruct, ctx: Context)
    requires chunk > 0 && e <= |source| && sums.head.blength >= 0
    ensures Describes(Pieces(source, chunk, e), source, e, sums, ctx, false)
    ensures TotalSpan(Pieces(source, chunk, e), sums.head.blength) == |source| - e
    decreases |source| - e
  {
    if e + chunk > |source| {
      assert source[e..] == source[e..|source|];
      PendingDescribed(source, e, |source|, sums, ctx, false);
    } else {
      PendingDescribed(source, e, e + chunk, sums, ctx, false);
      PiecesDescribed(source, chunk, e + chunk, sums, ctx);
      Onwards(Pending(source[e..e + chunk]), Pieces(source, chunk, e + chunk), source, e, e + chunk, sums, ctx, false);
    }
  }

  /** Whatever state the rolling sums are in, the operations describe the whole source. */
  lemma StreamDescribes(source: seq<byte>, raw: SumStruct, ctx: Context, chunk: nat)
    requires AdequateChunk(raw, chunk)
    ensures Describes(StreamOps(source, raw, ctx, chunk), source, 0, Effective(raw), ctx, false)
    ensures TotalSpan(StreamOps(source, raw, ctx, chunk), Effective(raw).head.blength) == |source|
  {
    if Effective(raw).head.count <= 0 {
      PiecesDescribed(source, chunk, 0, Effective(raw), ctx);
    } else {
      ChunksDescribed(source, Effective(raw), ctx, chunk, 0, Cursor(0, 0, None));
    }
  }

  // ---- Scanning a buffer ----

  ghost function Moved(c: Cursor, base: nat): Cursor {
    Cursor(base + c.pos, base + c.lit, c.weak)
  }

  lemma SameFound(source: seq<byte>, base: nat, e: nat, sums: SumStruct, ctx: Context, c: Cursor)
    requires sums.head.blength > 0 && base <= e <= |source| && c.pos + sums.head.blength <= e - base
    ensures var b: nat := sums.head.blength;
            && WeakAt(source[base..e], b, ctx, c) == WeakAt(source, b, ctx, Moved(c, base))
            && Found(source[base..e], sums, ctx, c) == Found(source, sums, ctx, Moved(c, base))
  {
    SliceOfSlice(source, base, e, c.pos, c.pos + sums.head.blength);
  }

  lemma SameTurn(source: seq<byte>, base: nat, e: nat, sums: SumStruct, ctx: Context, c: Cursor)
    requires sums.head.blength > 0 && base <= e <= |source| && Within(source[base..e], e - base, c)
    requires c.pos + sums.head.blength <= e - base
    ensures var view := source[base..e];
            && Within(source, e, Moved(c, base))
            && Emitted(view, sums, ctx, c) == Emitted(source, sums, ctx, Moved(c, base))
            && Moved(Next(view, e - base, sums, ctx, c), base) == Next(source, e, sums, ctx, Moved(c, base))
  {
    SameFound(source, base, e, sums, ctx, c);
    SliceOfSlice(source, base, e, c.lit, c.pos);
    SameBehind(source, base, e, sums.head.blength, ctx, c);
  }

  lemma SameBehind(source: seq<byte>, base: nat, e: nat, b: nat, ctx: Context, c: Cursor)
    requires base <= e <= |source| && 0 < b && c.pos + b <= e - base
    requires WeakAt(source[base..e], b, ctx, c) == WeakAt(source, b, ctx, Moved(c, base))
    ensures Behind(source[base..e], e - base, b, ctx, c) == Behind(source, e, b, ctx, Moved(c, base))
  {
  }

  /** Scanning a buffer is scanning the source where the buffer lies. */
  lemma {:induction false} SameScan(source: seq<byte>, base: nat, e: nat, sums: SumStruct, ctx: Context, c: Cursor)
    requires sums.head.blength > 0 && base <= e <= |source| && Within(source[base..e], e - base, c)
    ensures var view := source[base..e];
            && Within(source, e, Moved(c, base))
            && ScanOps(view, e - base, sums, ctx, c) == ScanOps(source, e, sums, ctx, Moved(c, base))
            && Moved(ScanStop(view, e - base, sums, ctx, c), base) == ScanStop(source, e, sums, ctx, Moved(c, base))
    decreases e - base - c.pos
  {
    if c.pos + sums.head.blength <= e - base {
      SameTurn(source, base, e, sums, ctx, c);
      SameScan(source, base, e, sums, ctx, Next(source[base..e], e - base, sums, ctx, c));
    }
  }

  lemma {:induction false} ViewScan(source: seq<byte>, base: nat, view: seq<byte>, e: nat, sums: SumStruct,
                                    ctx: Context, c: Cursor, moved: Cursor)
    requires sums.head.blength > 0 && e == base + |view| <= |source| && view == source[base..e]
    requires Within(view, |view|, c) && moved == Moved(c, base)
    ensures Within(source, e, moved)
    ensures ScanOps(view, |view|, sums, ctx, c) == ScanOps(source, e, sums, ctx, moved)
    ensures Moved(ScanStop(view, |view|, sums, ctx, c), base) == ScanStop(source, e, sums, ctx, moved)
  {
    SameScan(source, base, e, sums, ctx, c);
  }
}
