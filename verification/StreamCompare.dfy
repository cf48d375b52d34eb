/** The streaming and the batch matcher compared, boundary by boundary. */
module StreamCompare {
  import opened Bytes
  import opened Checksum
  import opened Signatures
  import opened Delta
  import opened Matcher
  import opened StreamScan
  import opened StreamBatch

  // ---- Where they differ ----

  lemma Cancel<T>(a: seq<T>, x: seq<T>, y: seq<T>)
    ensures a + x == a + y <==> x == y
  {
    if a + x == a + y {
      assert x == (a + x)[|a|..];
      assert y == (a + y)[|a|..];
    }
  }

  lemma DifferentCopies(i: nat, j: nat, head: SumHead)
    requires head.blength > 0 && i != j
    ensures CopyOf(i, head) != CopyOf(j, head)
  {
    var b: nat := head.blength;
    assert i * b - j * b == (i - j) * b;
    assert (i - j) * b != 0;
  }

  /** A turn that finds a block with literal bytes pending. */
  lemma TurnOps(source: seq<byte>, head: SumHead, pos: nat, lit: nat, i: nat)
    requires head.blength >= 0 && lit < pos <= |source|
    ensures StepOps(source, head, pos, lit, Some(i)) == [Literal(source[lit..pos]), CopyOf(i, head)]
  {
  }

  lemma LongerLiteral(source: seq<byte>, lit: nat, p: nat, q: nat)
    requires lit <= p < q <= |source|
    ensures Literal(source[lit..p]) != Literal(source[lit..q])
  {
    assert |source[lit..p]| < |source[lit..q]|;
  }

  lemma DifferOne(pair: seq<DiffOp>, rest: seq<DiffOp>, other: seq<DiffOp>)
    requires |pair| == 2 && other != [] && (pair[0] != other[0] || (|other| > 1 && pair[1] != other[1]))
    ensures pair + rest != other
  {
    assert (pair + rest)[0] == pair[0] && (pair + rest)[1] == pair[1];
  }

  /** A lookup that does not find what the batch scan finds shows in the operations. */
  lemma {:induction false} DifferHere(source: seq<byte>, sums: SumStruct, ctx: Context, chunk: nat, e: nat, c: Cursor)
    requires InChunk(source, sums, chunk, e, c) && c.lit < c.pos
    requires c.pos + sums.head.blength <= Min(e + chunk, |source|)
    requires Found(source, sums, ctx, c) != FindBlock(source[c.pos..c.pos + sums.head.blength], sums, ctx)
    ensures Chunks(source, sums, ctx, chunk, e, c) != Scan(source, sums, ctx, c.pos, c.lit)
  {
    var x, y := Found(source, sums, ctx, c), FindBlock(source[c.pos..c.pos + sums.head.blength], sums, ctx);
    if x.None? {
      BatchFinds(source, sums, ctx, chunk, e, c, y.value);
    } else if y.None? {
      StreamFinds(source, sums, ctx, chunk, e, c, x.value);
    } else {
      BothFind(source, sums, ctx, chunk, e, c, x.value, y.value);
    }
  }

  lemma {:induction false} BothFind(source: seq<byte>, sums: SumStruct, ctx: Context, chunk: nat, e: nat, c: Cursor,
                                    i: nat, j: nat)
    requires InChunk(source, sums, chunk, e, c) && c.lit < c.pos
    requires c.pos + sums.head.blength <= Min(e + chunk, |source|) && i != j && Found(source, sums, ctx, c) == Some(i)
    requires FindBlock(source[c.pos..c.pos + sums.head.blength], sums, ctx) == Some(j)
    ensures Chunks(source, sums, ctx, chunk, e, c) != Scan(source, sums, ctx, c.pos, c.lit)
  {
    var end := Min(e + chunk, |source|);
    var next := Next(source, end, sums, ctx, c);
    ChunksTurn(source, sums, ctx, chunk, e, c, end, next);
    ScanStep(source, sums, ctx, c.pos, c.lit, Some(j));
    TurnOps(source, sums.head, c.pos, c.lit, i);
    TurnOps(source, sums.head, c.pos, c.lit, j);
    DifferentCopies(i, j, sums.head);
    DifferOne([Literal(source[c.lit..c.pos]), CopyOf(i, sums.head)], Chunks(source, sums, ctx, chunk, e, next),
              Scan(source, sums, ctx, c.pos, c.lit));
  }

  lemma {:induction false} StreamFinds(source: seq<byte>, sums: SumStruct, ctx: Context, chunk: nat, e: nat, c: Cursor,
                                       i: nat)
    requires InChunk(source, sums, chunk, e, c) && c.lit < c.pos
    requires c.pos + sums.head.blength <= Min(e + chunk, |source|) && Found(source, sums, ctx, c) == Some(i)
    requires FindBlock(source[c.pos..c.pos + sums.head.blength], sums, ctx) == None
    ensures Chunks(source, sums, ctx, chunk, e, c) != Scan(source, sums, ctx, c.pos, c.lit)
  {
    var end := Min(e + chunk, |source|);
    var next := Next(source, end, sums, ctx, c);
    var pair := [Literal(source[c.lit..c.pos]), CopyOf(i, sums.head)];
    TurnOps(source, sums.head, c.pos, c.lit, i);
    ChunksTurn(source, sums, ctx, chunk, e, c, end, next);
    var rest := Chunks(source, sums, ctx, chunk, e, next);
    assert Chunks(source, sums, ctx, chunk, e, c) == pair + rest;
    LongerBatch(source, sums, ctx, c.pos, c.lit, pair, rest);
  }

  lemma {:induction false} LongerBatch(source: seq<byte>, sums: SumStruct, ctx: Context, pos: nat, lit: nat,
                                       pair: seq<DiffOp>, rest: seq<DiffOp>)
    requires sums.head.blength > 0 && lit < pos && pos + sums.head.blength <= |source|
    requires FindBlock(source[pos..pos + sums.head.blength], sums, ctx) == None
    requires |pair| == 2 && pair[0] == Literal(source[lit..pos])
    ensures pair + rest != Scan(source, sums, ctx, pos, lit)
  {
    ScanUnmatched(source, sums, ctx, pos, lit);
    var q := BatchFirst(source, sums, ctx, pos + 1, lit);
    LongerLiteral(source, lit, pos, q);
    DifferOne(pair, rest, Scan(source, sums, ctx, pos + 1, lit));
  }

  lemma {:induction false} BatchFinds(source: seq<byte>, sums: SumStruct, ctx: Context, chunk: nat, e: nat, c: Cursor,
                                      j: nat)
    requires InChunk(source, sums, chunk, e, c) && c.lit < c.pos
    requires c.pos + sums.head.blength <= Min(e + chunk, |source|) && Found(source, sums, ctx, c) == None
    requires FindBlock(source[c.pos..c.pos + sums.head.blength], sums, ctx) == Some(j)
    ensures Chunks(source, sums, ctx, chunk, e, c) != Scan(source, sums, ctx, c.pos, c.lit)
  {
    var next := SilentTurn(source, sums, ctx, chunk, e, c);
    ScanStep(source, sums, ctx, c.pos, c.lit, Some(j));
    TurnOps(source, sums.head, c.pos, c.lit, j);
    var q := StreamFirst(source, sums, ctx, chunk, e, next);
    if next.pos <= q {
      LongerLiteral(source, c.lit, c.pos, q);
    }
    var b := c.pos + sums.head.blength;
    DifferOne([Literal(source[c.lit..c.pos]), CopyOf(j, sums.head)], Scan(source, sums, ctx, b, b),
              Chunks(source, sums, ctx, chunk, e, c));
  }

  /** A turn that finds nothing emits nothing. */
  lemma {:induction false} SilentTurn(source: seq<byte>, sums: SumStruct, ctx: Context, chunk: nat, e: nat, c: Cursor)
    returns (next: Cursor)
    requires InChunk(source, sums, chunk, e, c) && c.pos + sums.head.blength <= Min(e + chunk, |source|)
    requires Found(source, sums, ctx, c) == None
    ensures next == Next(source, Min(e + chunk, |source|), sums, ctx, c) && next.pos == c.pos + 1 && next.lit == c.lit
    ensures Chunks(source, sums, ctx, chunk, e, c) == Chunks(source, sums, ctx, chunk, e, next)
  {
    var end := Min(e + chunk, |source|);
    next := Next(source, end, sums, ctx, c);
    ChunksTurn(source, sums, ctx, chunk, e, c, end, next);
    var rest := Chunks(source, sums, ctx, chunk, e, next);
    assert [] + rest == rest;
  }

  ghost predicate HarmlessFrom(source: seq<byte>, sums: SumStruct, ctx: Context, o: nat, from: nat, p: nat)
    requires sums.head.blength > 0 && o < from && p + sums.head.blength <= |source|
  {
    forall q: nat :: from <= q < p ==> Harmless(source, sums, ctx, o, q)
  }

  /** A stale turn where the batch scan finds nothing either. */
  lemma {:induction false} SilentStale(source: seq<byte>, sums: SumStruct, ctx: Context, chunk: nat, e: nat, c: Cursor,
                                       o: nat)
    returns (next: Cursor)
    requires InChunk(source, sums, chunk, e, c)
    requires StaleAt(source, Min(e + chunk, |source|), sums.head.blength, ctx, o, c)
    requires c.pos + sums.head.blength <= Min(e + chunk, |source|)
    requires Harmless(source, sums, ctx, o, c.pos) && NoneAt(source, sums, ctx, c.pos)
    ensures next.pos == c.pos + 1 && InChunk(source, sums, chunk, e, next)
    ensures StaleAt(source, Min(e + chunk, |source|), sums.head.blength, ctx, o, next)
    ensures Chunks(source, sums, ctx, chunk, e, c) == Chunks(source, sums, ctx, chunk, e, next)
    ensures Scan(source, sums, ctx, c.pos, c.lit) == Scan(source, sums, ctx, next.pos, next.lit)
  {
    var end := Min(e + chunk, |source|);
    NothingFound(source, end, sums, ctx, o, c);
    StaleTurn(source, end, sums, ctx, o, c);
    next := SilentTurn(source, sums, ctx, chunk, e, c);
    ScanSilent(source, sums, ctx, c.pos, c.lit);
  }

  lemma {:induction false} NothingFound(source: seq<byte>, end: nat, sums: SumStruct, ctx: Context, o: nat, c: Cursor)
    requires sums.head.blength > 0 && StaleAt(source, end, sums.head.blength, ctx, o, c)
    requires c.pos + sums.head.blength <= end
    requires Harmless(source, sums, ctx, o, c.pos) && NoneAt(source, sums, ctx, c.pos)
    ensures Found(source, sums, ctx, c) == None
  {
    StaleFound(source, end, sums, ctx, o, c);
  }

  lemma {:induction false} ScanSilent(source: seq<byte>, sums: SumStruct, ctx: Context, pos: nat, lit: nat)
    requires sums.head.blength > 0 && lit <= pos && pos + sums.head.blength <= |source|
    requires NoneAt(source, sums, ctx, pos)
    ensures Scan(source, sums, ctx, pos, lit) == Scan(source, sums, ctx, pos + 1, lit)
  {
    ScanUnmatched(source, sums, ctx, pos, lit);
  }

  lemma {:induction false} HarmDiffers(source: seq<byte>, sums: SumStruct, ctx: Context, chunk: nat, e: nat, c: Cursor,
                                       o: nat)
    requires InChunk(source, sums, chunk, e, c)
    requires StaleAt(source, Min(e + chunk, |source|), sums.head.blength, ctx, o, c)
    requires c.pos + sums.head.blength <= Min(e + chunk, |source|) && !Harmless(source, sums, ctx, o, c.pos)
    ensures Chunks(source, sums, ctx, chunk, e, c) != Scan(source, sums, ctx, c.pos, c.lit)
  {
    StaleFound(source, Min(e + chunk, |source|), sums, ctx, o, c);
    DifferHere(source, sums, ctx, chunk, e, c);
  }

  /** So does a stale state that does harm. */
  lemma {:induction false} StaleDiffers(source: seq<byte>, sums: SumStruct, ctx: Context, chunk: nat, e: nat, c: Cursor,
                                        o: nat, p: nat)
    requires InChunk(source, sums, chunk, e, c)
    requires StaleAt(source, Min(e + chunk, |source|), sums.head.blength, ctx, o, c)
    requires c.pos <= p && p + sums.head.blength <= Min(e + chunk, |source|) && Quiet(source, sums, ctx, o, p)
    requires !Harmless(source, sums, ctx, o, p) && HarmlessFrom(source, sums, ctx, o, c.pos, p)
    ensures Chunks(source, sums, ctx, chunk, e, c) != Scan(source, sums, ctx, c.pos, c.lit)
    decreases p - c.pos
  {
    if c.pos < p {
      assert Harmless(source, sums, ctx, o, c.pos) && NoneAt(source, sums, ctx, c.pos);
      var next := SilentStale(source, sums, ctx, chunk, e, c, o);
      StaleDiffers(source, sums, ctx, chunk, e, next, o, p);
    } else {
      HarmDiffers(source, sums, ctx, chunk, e, c, o);
    }
  }

  /** The first place where a stale state does harm. */
  lemma {:induction false} FirstHarm(source: seq<byte>, sums: SumStruct, ctx: Context, o: nat, p: nat)
    returns (first: nat)
    requires sums.head.blength > 0 && o < p && p + sums.head.blength <= |source|
    requires Quiet(source, sums, ctx, o, p) && !Harmless(source, sums, ctx, o, p)
    ensures o < first <= p && !Harmless(source, sums, ctx, o, first) && Quiet(source, sums, ctx, o, first)
    ensures HarmlessFrom(source, sums, ctx, o, o + 1, first)
    decreases p
  {
    if q: nat :| o < q < p && !Harmless(source, sums, ctx, o, q) {
      first := FirstHarm(source, sums, ctx, o, q);
    } else {
      first := p;
    }
  }

  /** A literal that is cut at the boundary shows as well. */
  lemma {:induction false} CutDiffers(source: seq<byte>, sums: SumStruct, ctx: Context, chunk: nat, e: nat, c: Cursor)
    requires 0 < sums.head.blength <= chunk <= e && Within(source, e, c) && e < c.pos + sums.head.blength
    requires c.lit + sums.head.blength < e
    ensures After(source, sums, ctx, chunk, e, c) != Scan(source, sums, ctx, c.pos, c.lit)
  {
    var q := AfterFirst(source, sums, ctx, chunk, e, c);
    var r := BatchFirst(source, sums, ctx, c.pos, c.lit);
    assert |source[c.lit..q]| < |source[c.lit..r]|;
  }

  // ---- From boundary to boundary ----

  /** How a stream that has agreed with the batch scan so far stands at a boundary. */
  ghost predicate Agreed(source: seq<byte>, sums: SumStruct, ctx: Context, chunk: nat, e: nat, c: Cursor) {
    && 0 < sums.head.blength <= chunk <= e <= |source|
    && (c.pos, c.lit) == Reached(source, e, sums, ctx, 0, 0)
    && (c.lit + sums.head.blength >= e ==> Arrived(source, e, sums.head.blength, ctx, c))
  }

  /** The scan of one more chunk went like the batch scan. */
  ghost predicate SameSoFar(source: seq<byte>, sums: SumStruct, ctx: Context, end: nat, c: Cursor, stop: Cursor)
    requires sums.head.blength > 0 && Within(source, end, c)
  {
    && stop == ScanStop(source, end, sums, ctx, c)
    && ScanOps(source, end, sums, ctx, c) == BatchOps(source, end, sums, ctx, c.pos, c.lit)
    && (stop.pos, stop.lit) == Reached(source, end, sums, ctx, c.pos, c.lit)
  }

  lemma {:induction false} LastChunk(source: seq<byte>, sums: SumStruct, ctx: Context, chunk: nat, e: nat, c: Cursor,
                                     stop: Cursor)
    requires 0 < sums.head.blength <= chunk && Within(source, e, c) && e + chunk > |source|
    requires SameSoFar(source, sums, ctx, |source|, c, stop)
    ensures Chunks(source, sums, ctx, chunk, e, c) == Scan(source, sums, ctx, c.pos, c.lit)
  {
    ChunksLast(source, sums, ctx, chunk, e, c);
    BatchSplits(source, |source|, sums, ctx, c.pos, c.lit);
    ScanEnd(source, sums, ctx, stop.pos, stop.lit);
    assert source[stop.lit..] == source[stop.lit..|source|];
  }

  lemma {:induction false} MoreChunks(source: seq<byte>, sums: SumStruct, ctx: Context, chunk: nat, e: nat, c: Cursor,
                                      end: nat, stop: Cursor)
    requires 0 < sums.head.blength <= chunk && Within(source, e, c) && end == e + chunk <= |source|
    requires SameSoFar(source, sums, ctx, end, c, stop)
    ensures Chunks(source, sums, ctx, chunk, e, c) == Scan(source, sums, ctx, c.pos, c.lit)
            <==> After(source, sums, ctx, chunk, end, stop) == Scan(source, sums, ctx, stop.pos, stop.lit)
  {
    ChunksNext(source, sums, ctx, chunk, e, c, end, stop);
    BatchSplits(source, end, sums, ctx, c.pos, c.lit);
    Cancel(BatchOps(source, end, sums, ctx, c.pos, c.lit),
           After(source, sums, ctx, chunk, end, stop), Scan(source, sums, ctx, stop.pos, stop.lit));
  }

  lemma TightState(source: seq<byte>, e: nat, b: nat, ctx: Context, c: Cursor)
    requires 0 < b && Arrived(source, e, b, ctx, c) && c.lit + b == e
    ensures c.pos == c.lit + 1 && c.weak == Some(WeakOf(source[c.lit..c.lit + b], ctx.charOffset))
  {
  }

  lemma {:induction false} StaleStart(source: seq<byte>, o: nat, b: nat, ctx: Context)
    requires o + 1 + b <= |source|
    ensures Stale(source, o, o + 1, b, ctx) == WeakOf(source[o..o + b], ctx.charOffset)
  {
  }

  /** Where a copy ends one block before the boundary, the state stays behind. */
  lemma {:induction false} TightIsStale(source: seq<byte>, sums: SumStruct, ctx: Context, chunk: nat, e: nat, c: Cursor)
    requires Agreed(source, sums, ctx, chunk, e, c) && c.lit + sums.head.blength == e
    ensures c.pos == c.lit + 1 && StaleAt(source, Min(e + chunk, |source|), sums.head.blength, ctx, c.lit, c)
  {
    var end, b: nat := Min(e + chunk, |source|), sums.head.blength;
    TightState(source, e, b, ctx, c);
    if c.pos + b <= end {
      StaleStart(source, c.lit, b, ctx);
      StaleWeak(source, end, b, ctx, c.lit, c);
    }
  }

  /** From a boundary that does not show, the next chunk goes like the batch scan. */
  lemma {:induction false} FineChunk(source: seq<byte>, sums: SumStruct, ctx: Context, chunk: nat, e: nat, c: Cursor,
                                     end: nat)
    returns (stop: Cursor)
    requires Agreed(source, sums, ctx, chunk, e, c) && Fine(source, sums, ctx, chunk, e)
    requires end == Min(e + chunk, |source|)
    ensures Within(source, end, c) && SameSoFar(source, sums, ctx, end, c, stop)
    ensures end == e + chunk ==> Agreed(source, sums, ctx, chunk, end, stop)
  {
    var b: nat := sums.head.blength;
    stop := ScanStop(source, end, sums, ctx, c);
    ReachedTwice(source, e, end, sums, ctx, 0, 0);
    if c.lit + b > e {
      if c.pos + b <= end {
        ScanInStep(source, end, sums, ctx, c);
      }
    } else {
      TightIsStale(source, sums, ctx, chunk, e, c);
      StaleScan(source, end, sums, ctx, c.lit, c);
    }
  }

  /** A boundary that shows makes the rest differ. */
  lemma {:induction false} ShownDiffers(source: seq<byte>, sums: SumStruct, ctx: Context, chunk: nat, e: nat, c: Cursor)
    requires Agreed(source, sums, ctx, chunk, e, c) && !Fine(source, sums, ctx, chunk, e)
    ensures After(source, sums, ctx, chunk, e, c) != Scan(source, sums, ctx, c.pos, c.lit)
  {
    var b: nat := sums.head.blength;
    if c.lit + b < e {
      CutDiffers(source, sums, ctx, chunk, e, c);
    } else {
      var o, end := c.lit, Min(e + chunk, |source|);
      var p: nat :| !HarmlessAt(source, sums, ctx, o, end, p);
      var first := FirstHarm(source, sums, ctx, o, p);
      TightIsStale(source, sums, ctx, chunk, e, c);
      StaleDiffers(source, sums, ctx, chunk, e, c, o, first);
      Cancel([], Chunks(source, sums, ctx, chunk, e, c), Scan(source, sums, ctx, c.pos, c.lit));
    }
  }

  lemma {:induction false} Compare(source: seq<byte>, sums: SumStruct, ctx: Context, chunk: nat, e: nat, c: Cursor)
    requires Agreed(source, sums, ctx, chunk, e, c)
    ensures After(source, sums, ctx, chunk, e, c) == Scan(source, sums, ctx, c.pos, c.lit)
            <==> AllFine(source, sums, ctx, chunk, e)
    decreases |source| - e
  {
    if !Fine(source, sums, ctx, chunk, e) {
      ShownDiffers(source, sums, ctx, chunk, e, c);
    } else {
      var end := Min(e + chunk, |source|);
      var stop := FineChunk(source, sums, ctx, chunk, e, c, end);
      assert [] + Chunks(source, sums, ctx, chunk, e, c) == Chunks(source, sums, ctx, chunk, e, c);
      if e + chunk > |source| {
        LastChunk(source, sums, ctx, chunk, e, c, stop);
      } else {
        MoreChunks(source, sums, ctx, chunk, e, c, end, stop);
        Compare(source, sums, ctx, chunk, end, stop);
      }
    }
  }

  // ---- The whole source ----

  /** All boundaries from `e` on. */
  ghost predicate BoundariesFine(source: seq<byte>, sums: SumStruct, ctx: Context, chunk: nat, e: nat)
    requires sums.head.blength > 0 && chunk > 0
  {
    forall k: nat :: e <= k <= |source| && k % chunk == 0 ==> Fine(source, sums, ctx, chunk, k)
  }

  lemma NextMultiple(e: nat, chunk: nat, k: nat)
    requires chunk > 0 && e % chunk == 0 && k % chunk == 0 && e < k
    ensures e + chunk <= k && (e + chunk) % chunk == 0
  {
    var i, j := e / chunk, k / chunk;
    assert e == i * chunk && k == j * chunk;
    assert j <= i ==> j * chunk <= i * chunk;
    assert (i + 1) * chunk <= j * chunk;
    assert (i + 1) * chunk == e + chunk;
    DivUnique(e + chunk, chunk, i + 1, 0);
  }

  lemma {:induction false} AllBoundaries(source: seq<byte>, sums: SumStruct, ctx: Context, chunk: nat, e: nat)
    requires sums.head.blength > 0 && chunk > 0 && e <= |source| && e % chunk == 0
    ensures AllFine(source, sums, ctx, chunk, e) <==> BoundariesFine(source, sums, ctx, chunk, e)
    decreases |source| - e
  {
    forall k: nat | e < k <= |source| && k % chunk == 0
      ensures e + chunk <= k && (e + chunk) % chunk == 0
    {
      NextMultiple(e, chunk, k);
    }
    if e + chunk <= |source| {
      DivUnique(e + chunk, chunk, e / chunk + 1, 0);
      AllBoundaries(source, sums, ctx, chunk, e + chunk);
    }
  }

  lemma {:induction false} FirstChunk(source: seq<byte>, sums: SumStruct, ctx: Context, end: nat) returns (stop: Cursor)
    requires sums.head.blength > 0 && end <= |source|
    ensures SameSoFar(source, sums, ctx, end, Cursor(0, 0, None), stop)
    ensures sums.head.blength <= end ==> Arrived(source, end, sums.head.blength, ctx, stop)
  {
    var c := Cursor(0, 0, None);
    stop := ScanStop(source, end, sums, ctx, c);
    if sums.head.blength <= end {
      ScanInStep(source, end, sums, ctx, c);
    }
  }

  lemma {:induction false} ChunksAreBatch(source: seq<byte>, sums: SumStruct, ctx: Context, chunk: nat)
    requires 0 < sums.head.blength <= chunk
    ensures Chunks(source, sums, ctx, chunk, 0, Cursor(0, 0, None)) == Scan(source, sums, ctx, 0, 0)
            <==> BoundariesFine(source, sums, ctx, chunk, chunk)
  {
    var c := Cursor(0, 0, None);
    if chunk > |source| {
      var stop := FirstChunk(source, sums, ctx, |source|);
      LastChunk(source, sums, ctx, chunk, 0, c, stop);
    } else {
      var stop := FirstChunk(source, sums, ctx, chunk);
      MoreChunks(source, sums, ctx, chunk, 0, c, chunk, stop);
      Compare(source, sums, ctx, chunk, chunk, stop);
      DivUnique(chunk, chunk, 1, 0);
      AllBoundaries(source, sums, ctx, chunk, chunk);
    }
  }

  lemma PiecesAreOne(source: seq<byte>, chunk: nat)
    requires chunk > 0
    ensures Pieces(source, chunk, 0) == Pending(source) <==> |source| <= chunk
  {
    assert source[0..] == source;
    if |source| >= chunk {
      var first := source[0..chunk];
      assert Pieces(source, chunk, 0)[0] == Literal(first);
      if |source| == chunk {
        assert source[chunk..] == [] && first == source;
      } else {
        assert |first| < |source|;
      }
    }
  }

  /**
   * The streaming matcher emits what the batch matcher does if and only if no chunk boundary shows;
   * without blocks, if and only if the source fits in one chunk.
   */
  lemma StreamIsBatch(source: seq<byte>, raw: SumStruct, ctx: Context, chunk: nat)
    requires AdequateChunk(raw, chunk)
    ensures StreamOps(source, raw, ctx, chunk) == DeltaOf(source, raw, ctx) <==>
              if Effective(raw).head.count <= 0 then |source| <= chunk
              else BoundariesFine(source, Effective(raw), ctx, chunk, chunk)
  {
    if Effective(raw).head.count <= 0 {
      PiecesAreOne(source, chunk);
    } else {
      ChunksAreBatch(source, raw, ctx, chunk);
    }
  }

  // ---- A match that is missed ----

  /** The signature of the basis 1 2 in blocks of two. */
  ghost predicate OneBlock(sums: SumStruct, ctx: Context) {
    && sums.head.count == 1 && sums.head.blength == 2 && |sums.sums| == 1
    && sums.sums[0].sum1 == Checksum1([1, 2], ctx.charOffset)
    && sums.sums[0].sum2 == Truncated(ctx.strong([1, 2]), sums.head.s2length)
  }

  lemma BlockSigned(sums: SumStruct, ctx: Context, s2: i32)
    requires ctx.Valid() && 0 <= s2 <= ctx.digestLen && SignatureOf(sums, [1, 2], ctx, 2, s2)
    ensures OneBlock(sums, ctx)
  {
    var data: seq<byte> := [1, 2];
    assert BlockCount(2, 2) == 1;
    assert data[0..2] == data;
    assert |ctx.strong(data)| == ctx.digestLen;
    assert s2 == ctx.digestLen ==> ctx.strong(data)[..s2] == ctx.strong(data);
  }

  lemma SumsOfTwo(a: byte, b: byte, off: u32)
    ensures ByteSum([a, b], off) == a + b + 2 * off
  {
    assert [a, b][..1] == [a] && [a][..0] == [];
    assert ByteSum([a], off) == ByteSum([], off) + a + off;
    assert ByteSum([a, b], off) == ByteSum([a], off) + b + off;
  }

  lemma {:induction false} WeakDiffers(off: u32)
    ensures Checksum1([0, 1], off) != Checksum1([1, 2], off)
  {
    SumsOfTwo(0, 1, off);
    SumsOfTwo(1, 2, off);
    PackHalves(ByteSum([0, 1], off), PrefixSum([0, 1], off));
    PackHalves(ByteSum([1, 2], off), PrefixSum([1, 2], off));
    TwoApart(1 + 2 * off as int);
  }

  lemma TwoApart(x: int)
    ensures x % 0x1_0000 != (x + 2) % 0x1_0000
  {
  }

  /**
   * Source 0 1 2 against basis 1 2 in chunks of two bytes, whatever the hashes: the batch matcher
   * copies the block, the streaming matcher sends it as part of a literal.
   */
  lemma MissedMatch(sums: SumStruct, ctx: Context, s2: i32)
    requires ctx.Valid() && 0 <= s2 <= ctx.digestLen && SignatureOf(sums, [1, 2], ctx, 2, s2)
    ensures DeltaOf([0, 1, 2], sums, ctx) == [Literal([0]), CopyOf(0, sums.head)]
    ensures StreamOps([0, 1, 2], sums, ctx, 2) == [Literal([0, 1, 2])]
  {
    var s: seq<byte> := [0, 1, 2];
    BlockSigned(sums, ctx, s2);
    assert s[0..2] == [0, 1] && s[1..3] == [1, 2] && s[0..1] == [0] && s[0..] == s && s[3..] == [];
    WeakDiffers(ctx.charOffset);
    var d := Checksum1([0, 1], ctx.charOffset);
    assert FindWith([0, 1], sums, ctx, d).None? && FindWith([1, 2], sums, ctx, d).None?;
    assert Agrees([1, 2], sums, ctx, Checksum1([1, 2], ctx.charOffset), 0);
    assert FindBlock([1, 2], sums, ctx) == Some(0);
    ScanUnmatched(s, sums, ctx, 0, 0);
    ScanMatched(s, sums, ctx, 1, 0, 0);
    ScanEnd(s, sums, ctx, 3, 3);
    MissedByStream(s, sums, ctx, d);
  }

  lemma {:induction false} MissedByStream(s: seq<byte>, sums: SumStruct, ctx: Context, d: u32)
    requires s == [0, 1, 2] && sums.head.blength == 2 && sums.head.count == 1 && d == Checksum1([0, 1], ctx.charOffset)
    requires FindWith([0, 1], sums, ctx, d).None? && FindWith([1, 2], sums, ctx, d).None?
    ensures StreamOps(s, sums, ctx, 2) == [Literal(s)]
  {
    assert s[0..2] == [0, 1] && s[1..3] == [1, 2] && s[0..] == s;
    var c0, w := Cursor(0, 0, None), WeakOf([0, 1], ctx.charOffset);
    var c1 := Cursor(1, 0, Some(w));
    assert Next(s, 2, sums, ctx, c0) == c1;
    StreamTurn(s, 2, sums, ctx, c0, c1);
    ChunksNext(s, sums, ctx, 2, 0, c0, 2, c1);
    assert Found(s, sums, ctx, c1).None?;
    var c2 := Next(s, 3, sums, ctx, c1);
    StreamTurn(s, 3, sums, ctx, c1, c2);
    ChunksLast(s, sums, ctx, 2, 2, c1);
    assert s[0..3] == s;
  }
}
