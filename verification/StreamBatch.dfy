/**
 * When the streaming matcher emits what the batch matcher does. At every chunk boundary the pending
 * literal is cut where the buffer is shifted, and a rolling state that is not renewed stays one
 * window behind. The two agree exactly when neither shows.
 */
module StreamBatch {
  import opened Bytes
  import opened Checksum
  import opened Signatures
  import opened Delta
  import opened Matcher
  import opened StreamScan

  // ---- The batch scan up to a boundary ----

  /** A cursor whose state, if it has one, is that of its window. */
  ghost predicate InStep(data: seq<byte>, b: nat, ctx: Context, c: Cursor) {
    c.pos + b <= |data| && c.weak.Some? ==> c.weak.value == WeakOf(data[c.pos..c.pos + b], ctx.charOffset)
  }

  /** Where the batch scan stands when it has no whole window before `e`, from `pos` and `lit` on. */
  ghost function Reached(data: seq<byte>, e: nat, sums: SumStruct, ctx: Context, pos: nat, lit: nat): (r: (nat, nat))
    requires sums.head.blength > 0 && lit <= pos <= e <= |data|
    ensures r.1 <= r.0 <= e < r.0 + sums.head.blength && lit <= r.1 && pos <= r.0
    decreases e - pos
  {
    var b: nat := sums.head.blength;
    if pos + b > e then (pos, lit)
    else
      var r := FindBlock(data[pos..pos + b], sums, ctx);
      Reached(data, e, sums, ctx, StepPos(sums.head, pos, r), StepLit(sums.head, pos, lit, r))
  }

  ghost function BatchOps(data: seq<byte>, e: nat, sums: SumStruct, ctx: Context, pos: nat, lit: nat): seq<DiffOp>
    requires sums.head.blength > 0 && lit <= pos <= e <= |data|
    decreases e - pos
  {
    var b: nat := sums.head.blength;
    if pos + b > e then []
    else
      var r := FindBlock(data[pos..pos + b], sums, ctx);
      StepOps(data, sums.head, pos, lit, r)
        + BatchOps(data, e, sums, ctx, StepPos(sums.head, pos, r), StepLit(sums.head, pos, lit, r))
  }

  lemma {:induction false} BatchTurn(data: seq<byte>, e: nat, sums: SumStruct, ctx: Context, pos: nat, lit: nat,
                                     r: Option<nat>, pos': nat, lit': nat)
    requires sums.head.blength > 0 && lit <= pos && pos + sums.head.blength <= e <= |data|
    requires r == FindBlock(data[pos..pos + sums.head.blength], sums, ctx)
    requires pos' == StepPos(sums.head, pos, r) && lit' == StepLit(sums.head, pos, lit, r)
    ensures lit' <= pos' <= e
    ensures BatchOps(data, e, sums, ctx, pos, lit)
         == StepOps(data, sums.head, pos, lit, r) + BatchOps(data, e, sums, ctx, pos', lit')
    ensures Reached(data, e, sums, ctx, pos, lit) == Reached(data, e, sums, ctx, pos', lit')
  {
    ReachedTurn(data, e, sums, ctx, pos, lit, r);
    BatchOpsTurn(data, e, sums, ctx, pos, lit, r);
  }

  lemma {:induction false} ReachedTurn(data: seq<byte>, e: nat, sums: SumStruct, ctx: Context, pos: nat, lit: nat,
                                       r: Option<nat>)
    requires sums.head.blength > 0 && lit <= pos && pos + sums.head.blength <= e <= |data|
    requires r == FindBlock(data[pos..pos + sums.head.blength], sums, ctx)
    ensures Reached(data, e, sums, ctx, pos, lit)
         == Reached(data, e, sums, ctx, StepPos(sums.head, pos, r), StepLit(sums.head, pos, lit, r))
  {
  }

  lemma {:induction false} BatchOpsTurn(data: seq<byte>, e: nat, sums: SumStruct, ctx: Context, pos: nat, lit: nat,
                                        r: Option<nat>)
    requires sums.head.blength > 0 && lit <= pos && pos + sums.head.blength <= e <= |data|
    requires r == FindBlock(data[pos..pos + sums.head.blength], sums, ctx)
    ensures BatchOps(data, e, sums, ctx, pos, lit)
         == StepOps(data, sums.head, pos, lit, r)
            + BatchOps(data, e, sums, ctx, StepPos(sums.head, pos, r), StepLit(sums.head, pos, lit, r))
  {
  }

  lemma {:induction false} StreamTurn(data: seq<byte>, e: nat, sums: SumStruct, ctx: Context, c: Cursor, next: Cursor)
    requires sums.head.blength > 0 && Within(data, e, c) && c.pos + sums.head.blength <= e
    requires next == Next(data, e, sums, ctx, c)
    ensures ScanOps(data, e, sums, ctx, c) == Emitted(data, sums, ctx, c) + ScanOps(data, e, sums, ctx, next)
    ensures ScanStop(data, e, sums, ctx, c) == ScanStop(data, e, sums, ctx, next)
  {
  }

  /** The batch scan in two parts. */
  lemma {:induction false} BatchSplits(data: seq<byte>, e: nat, sums: SumStruct, ctx: Context, pos: nat, lit: nat)
    requires sums.head.blength > 0 && lit <= pos <= e <= |data|
    ensures var r := Reached(data, e, sums, ctx, pos, lit);
            Scan(data, sums, ctx, pos, lit) == BatchOps(data, e, sums, ctx, pos, lit) + Scan(data, sums, ctx, r.0, r.1)
    decreases e - pos
  {
    var b: nat := sums.head.blength;
    var end := Reached(data, e, sums, ctx, pos, lit);
    var rest := Scan(data, sums, ctx, end.0, end.1);
    if pos + b > e {
      assert [] + rest == rest;
    } else {
      var r := FindBlock(data[pos..pos + b], sums, ctx);
      var pos', lit' := StepPos(sums.head, pos, r), StepLit(sums.head, pos, lit, r);
      ScanStep(data, sums, ctx, pos, lit, r);
      BatchTurn(data, e, sums, ctx, pos, lit, r, pos', lit');
      BatchSplits(data, e, sums, ctx, pos', lit');
      Assoc(StepOps(data, sums.head, pos, lit, r), BatchOps(data, e, sums, ctx, pos', lit'), rest);
    }
  }

  lemma {:induction false} ReachedTwice(data: seq<byte>, e: nat, e': nat, sums: SumStruct, ctx: Context, pos: nat,
                                        lit: nat)
    requires sums.head.blength > 0 && lit <= pos <= e <= e' <= |data|
    ensures var r := Reached(data, e, sums, ctx, pos, lit);
            Reached(data, e', sums, ctx, pos, lit) == Reached(data, e', sums, ctx, r.0, r.1)
    decreases e - pos
  {
    var b: nat := sums.head.blength;
    if pos + b <= e {
      var r := FindBlock(data[pos..pos + b], sums, ctx);
      ReachedTwice(data, e, e', sums, ctx, StepPos(sums.head, pos, r), StepLit(sums.head, pos, lit, r));
    }
  }

  /** Operations that take the source from `from` to `to` and end in a copy, or none. */
  ghost predicate CopiesUpTo(ops: seq<DiffOp>, b: nat, from: nat, to: nat) {
    TotalSpan(ops, b) == to - from && (if ops == [] then to == from else ops[|ops| - 1].Copy?)
  }

  lemma CopiesOn(a: seq<DiffOp>, more: seq<DiffOp>, b: nat, from: nat, mid: nat, to: nat)
    requires CopiesUpTo(a, b, from, mid) && CopiesUpTo(more, b, mid, to)
    ensures CopiesUpTo(a + more, b, from, to)
  {
    SpanAppend(a, more, |more|, b);
    assert more == [] ==> a + more == a;
  }

  lemma {:induction false} TurnCopies(data: seq<byte>, sums: SumStruct, ctx: Context, pos: nat, lit: nat,
                                      r: Option<nat>)
    requires sums.head.blength > 0 && lit <= pos && pos + sums.head.blength <= |data|
    requires r == FindBlock(data[pos..pos + sums.head.blength], sums, ctx)
    ensures CopiesUpTo(StepOps(data, sums.head, pos, lit, r), sums.head.blength, lit, StepLit(sums.head, pos, lit, r))
  {
    StepDescribed(data, sums, ctx, pos, lit, r);
  }

  /** What the batch scan has emitted up to `e` ends in a copy, and the pending bytes begin there. */
  lemma {:induction false} EndsInCopy(data: seq<byte>, e: nat, sums: SumStruct, ctx: Context, pos: nat, lit: nat)
    requires sums.head.blength > 0 && lit <= pos <= e <= |data|
    ensures CopiesUpTo(BatchOps(data, e, sums, ctx, pos, lit), sums.head.blength, lit,
                       Reached(data, e, sums, ctx, pos, lit).1)
    decreases e - pos
  {
    var b: nat := sums.head.blength;
    if pos + b <= e {
      var r := FindBlock(data[pos..pos + b], sums, ctx);
      var pos', lit' := StepPos(sums.head, pos, r), StepLit(sums.head, pos, lit, r);
      BatchTurn(data, e, sums, ctx, pos, lit, r, pos', lit');
      EndsInCopy(data, e, sums, ctx, pos', lit');
      TurnCopies(data, sums, ctx, pos, lit, r);
      CopiesOn(StepOps(data, sums.head, pos, lit, r), BatchOps(data, e, sums, ctx, pos', lit'), b, lit, lit',
               Reached(data, e, sums, ctx, pos, lit).1);
    }
  }

  // ---- In step ----

  lemma FoundInStep(data: seq<byte>, sums: SumStruct, ctx: Context, c: Cursor)
    requires sums.head.blength > 0 && c.pos + sums.head.blength <= |data| && InStep(data, sums.head.blength, ctx, c)
    ensures Found(data, sums, ctx, c) == FindBlock(data[c.pos..c.pos + sums.head.blength], sums, ctx)
  {
    var w := data[c.pos..c.pos + sums.head.blength];
    assert WeakAt(data, sums.head.blength, ctx, c).Digest() == Checksum1(w, ctx.charOffset);
  }

  /** A turn in step stays in step, while there is data to go on with. */
  lemma NextInStep(data: seq<byte>, e: nat, sums: SumStruct, ctx: Context, c: Cursor)
    requires sums.head.blength > 0 && Within(data, e, c) && c.pos + sums.head.blength <= e
    requires Next(data, e, sums, ctx, c).pos + sums.head.blength <= e && InStep(data, sums.head.blength, ctx, c)
    ensures InStep(data, sums.head.blength, ctx, Next(data, e, sums, ctx, c))
  {
    var b: nat := sums.head.blength;
    var w := data[c.pos..c.pos + b];
    if Found(data, sums, ctx, c).None? {
      SlideWindow(data, c.pos, b);
      RollsOn(w, data[c.pos + b], ctx.charOffset);
      assert w[0] == data[c.pos];
    }
  }

  /** How a scan in step arrives at `e`: right after a copy, or one byte on with the state of the window before. */
  ghost predicate Arrived(data: seq<byte>, e: nat, b: nat, ctx: Context, c: Cursor) {
    && c.pos <= e < c.pos + b <= e + b && e <= |data|
    && (c.weak.None? ==> c.lit == c.pos)
    && (c.weak.Some? ==> c.lit < c.pos == e - b + 1 && b <= e && c.weak.value == WeakOf(data[e - b..e], ctx.charOffset))
  }

  /** A scan in step is the batch scan. */
  lemma {:induction false} ScanInStep(data: seq<byte>, e: nat, sums: SumStruct, ctx: Context, c: Cursor)
    requires sums.head.blength > 0 && Within(data, e, c) && c.pos + sums.head.blength <= e
    requires InStep(data, sums.head.blength, ctx, c)
    ensures var stop, r := ScanStop(data, e, sums, ctx, c), Reached(data, e, sums, ctx, c.pos, c.lit);
            && ScanOps(data, e, sums, ctx, c) == BatchOps(data, e, sums, ctx, c.pos, c.lit)
            && stop.pos == r.0 && stop.lit == r.1 && Arrived(data, e, sums.head.blength, ctx, stop)
    decreases e - c.pos
  {
    var b: nat := sums.head.blength;
    var next := Next(data, e, sums, ctx, c);
    var r := FindBlock(data[c.pos..c.pos + b], sums, ctx);
    FoundInStep(data, sums, ctx, c);
    BatchTurn(data, e, sums, ctx, c.pos, c.lit, r, next.pos, next.lit);
    StreamTurn(data, e, sums, ctx, c, next);
    if next.pos + b <= e {
      NextInStep(data, e, sums, ctx, c);
      ScanInStep(data, e, sums, ctx, next);
    } else {
      LastInStep(data, e, sums, ctx, c);
    }
  }

  lemma LastInStep(data: seq<byte>, e: nat, sums: SumStruct, ctx: Context, c: Cursor)
    requires sums.head.blength > 0 && Within(data, e, c) && c.pos + sums.head.blength <= e
    requires InStep(data, sums.head.blength, ctx, c)
    requires Next(data, e, sums, ctx, c).pos + sums.head.blength > e
    ensures Arrived(data, e, sums.head.blength, ctx, Next(data, e, sums, ctx, c))
  {
  }

  // ---- The conditions ----

  /** Where the literal bytes begin that the batch scan has pending at `e`: the end of its last copy before. */
  ghost function Held(source: seq<byte>, sums: SumStruct, ctx: Context, e: nat): nat
    requires sums.head.blength > 0 && e <= |source|
  {
    Reached(source, e, sums, ctx, 0, 0).1
  }

  /** The rolling state at `p` when it was last in step at `o` and missed the byte that moves it to `o + 1`. */
  ghost function Stale(source: seq<byte>, o: nat, p: nat, b: nat, ctx: Context): Weak
    requires o < p && p + b <= |source|
  {
    if p == o + 1 then WeakOf(source[o..o + b], ctx.charOffset)
    else Rolled(Stale(source, o, p - 1, b, ctx), source[p - 1], source[p - 1 + b], ctx.charOffset, b % M)
  }

  /** With the stale state the window at `p` is looked up as with its own. */
  ghost predicate Harmless(source: seq<byte>, sums: SumStruct, ctx: Context, o: nat, p: nat)
    requires sums.head.blength > 0 && o < p && p + sums.head.blength <= |source|
  {
    var b: nat := sums.head.blength;
    FindWith(source[p..p + b], sums, ctx, Stale(source, o, p, b, ctx).Digest())
    == FindBlock(source[p..p + b], sums, ctx)
  }

  /** No window that starts after `o` and before `p` has a match. */
  ghost predicate Quiet(source: seq<byte>, sums: SumStruct, ctx: Context, o: nat, p: nat)
    requires sums.head.blength > 0 && p + sums.head.blength <= |source|
  {
    forall q: nat :: o < q < p ==> NoneAt(source, sums, ctx, q)
  }

  ghost predicate NoneAt(source: seq<byte>, sums: SumStruct, ctx: Context, q: nat)
    requires sums.head.blength > 0 && q + sums.head.blength <= |source|
  {
    FindBlock(source[q..q + sums.head.blength], sums, ctx).None?
  }

  lemma QuietOn(source: seq<byte>, sums: SumStruct, ctx: Context, o: nat, p: nat)
    requires sums.head.blength > 0 && p + sums.head.blength <= |source|
    requires Quiet(source, sums, ctx, o, p) && NoneAt(source, sums, ctx, p)
    ensures p + 1 + sums.head.blength <= |source| ==> Quiet(source, sums, ctx, o, p + 1)
  {
  }

  /** Up to the first match after `o`, or to `end`, the stale state does no harm. */
  ghost predicate HarmlessTo(source: seq<byte>, sums: SumStruct, ctx: Context, o: nat, end: nat)
    requires sums.head.blength > 0 && end <= |source|
  {
    forall p: nat :: HarmlessAt(source, sums, ctx, o, end, p)
  }

  ghost predicate HarmlessAt(source: seq<byte>, sums: SumStruct, ctx: Context, o: nat, end: nat, p: nat)
    requires sums.head.blength > 0 && end <= |source|
  {
    o < p && p + sums.head.blength <= end && Quiet(source, sums, ctx, o, p) ==> Harmless(source, sums, ctx, o, p)
  }

  /**
   * A chunk boundary at `e` does not show: a copy ends within the last block before it, or exactly
   * one block before it and the stale state that follows does no harm.
   */
  ghost predicate Fine(source: seq<byte>, sums: SumStruct, ctx: Context, chunk: nat, e: nat)
    requires sums.head.blength > 0 && e <= |source|
  {
    var b: nat := sums.head.blength;
    var held := Held(source, sums, ctx, e);
    held + b > e || (held + b == e && HarmlessTo(source, sums, ctx, held, Min(e + chunk, |source|)))
  }

  ghost predicate AllFine(source: seq<byte>, sums: SumStruct, ctx: Context, chunk: nat, e: nat)
    requires sums.head.blength > 0 && chunk > 0 && e <= |source|
    decreases |source| - e
  {
    Fine(source, sums, ctx, chunk, e) && (e + chunk <= |source| ==> AllFine(source, sums, ctx, chunk, e + chunk))
  }

  // ---- A stale stretch that does no harm ----

  ghost predicate StaleAt(source: seq<byte>, end: nat, b: nat, ctx: Context, o: nat, c: Cursor) {
    && o == c.lit < c.pos <= end <= |source|
    && (c.pos + b <= end ==> forall weak: Weak :: IsStale(weak, source, o, c.pos, b, ctx) ==> c.weak == Some(weak))
  }

  ghost predicate IsStale(weak: Weak, source: seq<byte>, o: nat, p: nat, b: nat, ctx: Context)
    requires o < p && p + b <= |source|
  {
    weak == Stale(source, o, p, b, ctx)
  }

  lemma StaleWeak(source: seq<byte>, end: nat, b: nat, ctx: Context, o: nat, c: Cursor)
    requires o == c.lit < c.pos && c.pos + b <= end <= |source|
    ensures StaleAt(source, end, b, ctx, o, c) <==> c.weak == Some(Stale(source, o, c.pos, b, ctx))
  {
    assert IsStale(Stale(source, o, c.pos, b, ctx), source, o, c.pos, b, ctx);
  }

  lemma {:induction false} StaleTurn(source: seq<byte>, end: nat, sums: SumStruct, ctx: Context, o: nat, c: Cursor)
    requires sums.head.blength > 0 && StaleAt(source, end, sums.head.blength, ctx, o, c)
    requires c.pos + sums.head.blength <= end
    requires Found(source, sums, ctx, c).None?
    ensures StaleAt(source, end, sums.head.blength, ctx, o, Next(source, end, sums, ctx, c))
  {
    var b: nat := sums.head.blength;
    var next := Next(source, end, sums, ctx, c);
    StaleWeak(source, end, b, ctx, o, c);
    var weak := c.weak.value;
    assert WeakAt(source, b, ctx, c) == weak;
    if c.pos + b < end {
      StaleWeak(source, end, b, ctx, o, next);
      StaleOn(source, o, c.pos, b, ctx, weak);
      assert Behind(source, end, b, ctx, c) == Rolled(weak, source[c.pos], source[c.pos + b], ctx.charOffset, b % M);
    }
  }

  lemma {:induction false} StaleOn(source: seq<byte>, o: nat, p: nat, b: nat, ctx: Context, weak: Weak)
    requires o < p && p + b < |source| && weak == Stale(source, o, p, b, ctx)
    ensures Stale(source, o, p + 1, b, ctx) == Rolled(weak, source[p], source[p + b], ctx.charOffset, b % M)
  {
  }

  /** Where the stale state does no harm, the scan finds what the batch scan finds. */
  lemma {:induction false} StaleFound(source: seq<byte>, end: nat, sums: SumStruct, ctx: Context, o: nat, c: Cursor)
    requires sums.head.blength > 0 && StaleAt(source, end, sums.head.blength, ctx, o, c)
    requires c.pos + sums.head.blength <= end
    ensures Found(source, sums, ctx, c) == FindBlock(source[c.pos..c.pos + sums.head.blength], sums, ctx)
            <==> Harmless(source, sums, ctx, o, c.pos)
  {
    StaleWeak(source, end, sums.head.blength, ctx, o, c);
  }

  /** A turn that finds what the batch scan finds is a turn of the batch scan. */
  lemma {:induction false} SameTurnAs(source: seq<byte>, end: nat, sums: SumStruct, ctx: Context, c: Cursor)
    returns (next: Cursor)
    requires sums.head.blength > 0 && Within(source, end, c) && c.pos + sums.head.blength <= end
    requires Found(source, sums, ctx, c) == FindBlock(source[c.pos..c.pos + sums.head.blength], sums, ctx)
    ensures next == Next(source, end, sums, ctx, c) && c.pos < next.pos && Within(source, end, next)
    ensures if NoneAt(source, sums, ctx, c.pos) then next.lit == c.lit
            else next.lit == next.pos == c.pos + sums.head.blength && next.weak.None?
    ensures ScanStop(source, end, sums, ctx, c) == ScanStop(source, end, sums, ctx, next)
    ensures Reached(source, end, sums, ctx, c.pos, c.lit) == Reached(source, end, sums, ctx, next.pos, next.lit)
    ensures ScanOps(source, end, sums, ctx, next) == BatchOps(source, end, sums, ctx, next.pos, next.lit) ==>
              ScanOps(source, end, sums, ctx, c) == BatchOps(source, end, sums, ctx, c.pos, c.lit)
  {
    next := Next(source, end, sums, ctx, c);
    var r := FindBlock(source[c.pos..c.pos + sums.head.blength], sums, ctx);
    NextShape(source, end, sums, ctx, c, r, next);
    BatchTurn(source, end, sums, ctx, c.pos, c.lit, r, next.pos, next.lit);
    StreamTurn(source, end, sums, ctx, c, next);
    assert Emitted(source, sums, ctx, c) == StepOps(source, sums.head, c.pos, c.lit, r);
  }

  lemma NextShape(source: seq<byte>, end: nat, sums: SumStruct, ctx: Context, c: Cursor, r: Option<nat>, next: Cursor)
    requires sums.head.blength > 0 && Within(source, end, c) && c.pos + sums.head.blength <= end
    requires Found(source, sums, ctx, c) == r && next == Next(source, end, sums, ctx, c)
    ensures next.pos == StepPos(sums.head, c.pos, r) && next.lit == StepLit(sums.head, c.pos, c.lit, r)
    ensures r.Some? ==> next.weak.None?
  {
  }

  lemma {:induction false} FoundRight(source: seq<byte>, end: nat, sums: SumStruct, ctx: Context, o: nat, c: Cursor)
    requires sums.head.blength > 0 && StaleAt(source, end, sums.head.blength, ctx, o, c)
    requires c.pos + sums.head.blength <= end
    requires Quiet(source, sums, ctx, o, c.pos) && HarmlessTo(source, sums, ctx, o, end)
    ensures Found(source, sums, ctx, c) == FindBlock(source[c.pos..c.pos + sums.head.blength], sums, ctx)
  {
    assert HarmlessAt(source, sums, ctx, o, end, c.pos);
    StaleFound(source, end, sums, ctx, o, c);
  }

  lemma {:induction false} StaleScan(source: seq<byte>, end: nat, sums: SumStruct, ctx: Context, o: nat, c: Cursor)
    requires sums.head.blength > 0 && StaleAt(source, end, sums.head.blength, ctx, o, c)
    requires c.pos + sums.head.blength <= end ==> Quiet(source, sums, ctx, o, c.pos)
    requires HarmlessTo(source, sums, ctx, o, end)
    ensures var stop, r := ScanStop(source, end, sums, ctx, c), Reached(source, end, sums, ctx, c.pos, c.lit);
            && ScanOps(source, end, sums, ctx, c) == BatchOps(source, end, sums, ctx, c.pos, c.lit)
            && stop.pos == r.0 && stop.lit == r.1
            && (stop.lit == o || Arrived(source, end, sums.head.blength, ctx, stop))
    decreases end - c.pos
  {
    var b: nat := sums.head.blength;
    if c.pos + b <= end {
      FoundRight(source, end, sums, ctx, o, c);
      var next := SameTurnAs(source, end, sums, ctx, c);
      if NoneAt(source, sums, ctx, c.pos) {
        StaleTurn(source, end, sums, ctx, o, c);
        QuietOn(source, sums, ctx, o, c.pos);
        StaleScan(source, end, sums, ctx, o, next);
      } else if next.pos + b <= end {
        ScanInStep(source, end, sums, ctx, next);
      }
    }
  }

  // ---- First operations ----

  /** The first operation of a batch scan with literal bytes pending: all of them at least. */
  lemma {:induction false} BatchFirst(source: seq<byte>, sums: SumStruct, ctx: Context, pos: nat, lit: nat)
    returns (q: nat)
    requires sums.head.blength > 0 && lit < pos <= |source|
    ensures pos <= q <= |source|
    ensures var ops := Scan(source, sums, ctx, pos, lit);
            ops != [] && ops[0] == Literal(source[lit..q])
    decreases |source| - pos
  {
    var b: nat := sums.head.blength;
    if pos + b > |source| {
      q := |source|;
      assert source[lit..] == source[lit..q];
    } else {
      var r := FindBlock(source[pos..pos + b], sums, ctx);
      ScanStep(source, sums, ctx, pos, lit, r);
      if r.Some? {
        q := pos;
      } else {
        q := BatchFirst(source, sums, ctx, pos + 1, lit);
      }
    }
  }

  ghost predicate InChunk(source: seq<byte>, sums: SumStruct, chunk: nat, e: nat, c: Cursor) {
    0 < sums.head.blength <= chunk && e <= |source| && Within(source, Min(e + chunk, |source|), c)
  }

  lemma {:induction false} ChunksTurn(source: seq<byte>, sums: SumStruct, ctx: Context, chunk: nat, e: nat, c: Cursor,
                                      end: nat, next: Cursor)
    requires InChunk(source, sums, chunk, e, c) && end == Min(e + chunk, |source|) && c.pos + sums.head.blength <= end
    requires next == Next(source, end, sums, ctx, c)
    ensures Chunks(source, sums, ctx, chunk, e, c)
         == Emitted(source, sums, ctx, c) + Chunks(source, sums, ctx, chunk, e, next)
  {
    StreamTurn(source, end, sums, ctx, c, next);
    var stop := ScanStop(source, end, sums, ctx, next);
    var rest := if e + chunk > |source| then Pending(source[stop.lit..])
                else After(source, sums, ctx, chunk, end, stop);
    Assoc(Emitted(source, sums, ctx, c), ScanOps(source, end, sums, ctx, next), rest);
  }

  lemma {:induction false} ChunksEnd(source: seq<byte>, sums: SumStruct, ctx: Context, chunk: nat, e: nat, c: Cursor)
    requires InChunk(source, sums, chunk, e, c) && c.pos + sums.head.blength > Min(e + chunk, |source|)
    ensures Chunks(source, sums, ctx, chunk, e, c)
         == if e + chunk > |source| then Pending(source[c.lit..]) else After(source, sums, ctx, chunk, e + chunk, c)
  {
    var rest := if e + chunk > |source| then Pending(source[c.lit..])
                else After(source, sums, ctx, chunk, e + chunk, c);
    assert [] + rest == rest;
  }

  /** The first operation of a stream with literal bytes pending: all of them, or a literal cut off another. */
  lemma {:induction false} StreamFirst(source: seq<byte>, sums: SumStruct, ctx: Context, chunk: nat, e: nat, c: Cursor)
    returns (q: nat)
    requires InChunk(source, sums, chunk, e, c) && c.lit < c.pos
    ensures c.lit < q <= |source|
    ensures var ops := Chunks(source, sums, ctx, chunk, e, c);
            ops != [] && ops[0] == Literal(source[c.lit..q]) && (c.pos <= q || (|ops| > 1 && ops[1].Literal?))
    decreases |source| - e, |source| - c.pos
  {
    var b: nat := sums.head.blength;
    var end := Min(e + chunk, |source|);
    if c.pos + b <= end {
      var next := Next(source, end, sums, ctx, c);
      ChunksTurn(source, sums, ctx, chunk, e, c, end, next);
      if Found(source, sums, ctx, c).Some? {
        q := c.pos;
      } else {
        q := StreamFirst(source, sums, ctx, chunk, e, next);
        var none: seq<DiffOp> := [];
        assert none + Chunks(source, sums, ctx, chunk, e, next) == Chunks(source, sums, ctx, chunk, e, next);
      }
    } else {
      ChunksEnd(source, sums, ctx, chunk, e, c);
      if e + chunk > |source| {
        q := |source|;
        assert source[c.lit..] == source[c.lit..q];
      } else {
        q := AfterFirst(source, sums, ctx, chunk, end, c);
      }
    }
  }

  lemma {:induction false} AfterFirst(source: seq<byte>, sums: SumStruct, ctx: Context, chunk: nat, e: nat, c: Cursor)
    returns (q: nat)
    requires 0 < sums.head.blength <= chunk <= e && Within(source, e, c) && e < c.pos + sums.head.blength
    requires c.lit < c.pos
    ensures c.lit < q <= |source|
    ensures c.lit + sums.head.blength < e ==> q == e - sums.head.blength
    ensures var ops := After(source, sums, ctx, chunk, e, c);
            ops != [] && ops[0] == Literal(source[c.lit..q]) && (c.pos <= q || (|ops| > 1 && ops[1].Literal?))
    decreases |source| - e, |source| + 1
  {
    var b: nat := sums.head.blength;
    var kept := Kept(e, b, c);
    var r := StreamFirst(source, sums, ctx, chunk, e, kept);
    if c.lit < e - b {
      q := e - b;
    } else {
      q := r;
      var rest := Chunks(source, sums, ctx, chunk, e, c);
      assert [] + rest == rest;
    }
  }
}
