/** What the batch delta guarantees: it tiles the source, misses no match, and copies identical files. */
module GreedyDelta {
  import opened Bytes
  import opened Checksum
  import opened Signatures
  import opened Delta
  import opened Matcher

  lemma FoundIsFirst(w: seq<byte>, sums: SumStruct, ctx: Context)
    ensures match FindBlock(w, sums, ctx)
            case Some(i) => FirstMatch(w, sums, ctx, i)
            case None => NoMatch(w, sums, ctx)
  {
    var digest := Checksum1(w, ctx.charOffset);
    assert forall i: nat :: Matches(w, sums, ctx, i) <==> Agrees(w, sums, ctx, digest, i);
  }

  lemma MatchStands(source: seq<byte>, pos: nat, i: nat, sums: SumStruct, ctx: Context)
    requires sums.head.blength >= 0 && pos + sums.head.blength <= |source|
    requires FindBlock(source[pos..pos + sums.head.blength], sums, ctx) == Some(i)
    ensures Stands(CopyOf(i, sums.head), source, pos, sums, ctx, true)
  {
    var w := source[pos..pos + sums.head.blength];
    FoundIsFirst(w, sums, ctx);
    assert NamesMatch(CopyOf(i, sums.head), w, sums, ctx, true);
  }

  /**
   * The scan describes the source from its first unsent byte to the end; every literal is free of
   * matching windows and every copy is of the first matching block.
   */
  lemma {:induction false} ScanDescribes(source: seq<byte>, sums: SumStruct, ctx: Context, pos: nat, lit: nat)
    requires sums.head.blength > 0 && lit <= pos <= |source|
    requires AllUnmatched(source, lit, pos, sums, ctx)
    ensures Describes(Scan(source, sums, ctx, pos, lit), source, lit, sums, ctx, true)
    ensures TotalSpan(Scan(source, sums, ctx, pos, lit), sums.head.blength) == |source| - lit
    decreases |source| - pos
  {
    var b: nat := sums.head.blength;
    if pos + b > |source| {
      ScanEnd(source, sums, ctx, pos, lit);
      assert source[lit..] == source[lit..|source|];
      PendingDescribed(source, lit, |source|, sums, ctx, true);
    } else {
      var next := pos + b;
      match FindBlock(source[pos..next], sums, ctx)
      case Some(i) =>
        ScanMatched(source, sums, ctx, pos, lit, i);
        ScanDescribes(source, sums, ctx, next, next);
        var rest := Scan(source, sums, ctx, next, next);
        assert Describes(rest, source, next, sums, ctx, true) && TotalSpan(rest, b) == |source| - next;
        MatchedDescribes(source, sums, ctx, pos, lit, i, next, rest);
      case None =>
        ScanUnmatched(source, sums, ctx, pos, lit);
        OneMoreUnmatched(source, sums, ctx, lit, pos);
        ScanDescribes(source, sums, ctx, pos + 1, lit);
    }
  }

  /** No window that starts from `lit` on and before `pos` has a match. */
  ghost predicate AllUnmatched(source: seq<byte>, lit: nat, pos: nat, sums: SumStruct, ctx: Context)
    requires sums.head.blength >= 0
  {
    forall p: nat :: lit <= p < pos ==> Unmatched(source, p, sums, ctx)
  }

  lemma OneMoreUnmatched(source: seq<byte>, sums: SumStruct, ctx: Context, lit: nat, pos: nat)
    requires sums.head.blength >= 0 && pos + sums.head.blength <= |source|
    requires FindBlock(source[pos..pos + sums.head.blength], sums, ctx).None?
    requires AllUnmatched(source, lit, pos, sums, ctx)
    ensures AllUnmatched(source, lit, pos + 1, sums, ctx)
  {
    FoundIsFirst(source[pos..pos + sums.head.blength], sums, ctx);
    assert Unmatched(source, pos, sums, ctx);
  }

  /** Pending bytes, a copy, and a description of the rest. */
  lemma {:induction false} MatchedDescribes(
    source: seq<byte>, sums: SumStruct, ctx: Context, pos: nat, lit: nat, i: nat, next: nat, rest: seq<DiffOp>)
    requires sums.head.blength > 0 && lit <= pos && next == pos + sums.head.blength <= |source|
    requires AllUnmatched(source, lit, pos, sums, ctx) && FindBlock(source[pos..next], sums, ctx) == Some(i)
    requires Describes(rest, source, next, sums, ctx, true) && TotalSpan(rest, sums.head.blength) == |source| - next
    ensures var ops := Pending(source[lit..pos]) + [CopyOf(i, sums.head)] + rest;
            && Describes(ops, source, lit, sums, ctx, true)
            && TotalSpan(ops, sums.head.blength) == |source| - lit
  {
    var pending, copy := Pending(source[lit..pos]), CopyOf(i, sums.head);
    PendingDescribed(source, lit, pos, sums, ctx, true);
    MatchStands(source, pos, i, sums, ctx);
    OneDescribed(copy, source, pos, sums, ctx, true);
    Onwards([copy], rest, source, pos, next, sums, ctx, true);
    Onwards(pending, [copy] + rest, source, lit, pos, sums, ctx, true);
    Assoc(pending, [copy], rest);
  }

  /** Greedy completeness and coverage of the batch delta, on every source and every signature. */
  lemma DeltaDescribes(source: seq<byte>, sums: SumStruct, ctx: Context)
    requires sums.head.count > 0 && sums.head.blength > 0
    ensures Describes(DeltaOf(source, sums, ctx), source, 0, sums, ctx, true)
    ensures TotalSpan(DeltaOf(source, sums, ctx), sums.head.blength) == |source|
  {
    ScanDescribes(source, sums, ctx, 0, 0);
  }

  // ---- Identical files ----

  ghost function LiteralFirst(ops: seq<DiffOp>, n: nat): nat
    requires n <= |ops|
  {
    if n == 0 then 0
    else LiteralFirst(ops, n - 1) + match ops[n - 1] case Literal(d) => |d| case Copy(_, _) => 0
  }

  /** Literal bytes of a delta. */
  ghost function LiteralBytes(ops: seq<DiffOp>): nat
  {
    LiteralFirst(ops, |ops|)
  }

  lemma {:induction false} LiteralAfterCopy(copy: DiffOp, ops: seq<DiffOp>, n: nat)
    requires copy.Copy? && n <= |ops|
    ensures LiteralFirst([copy] + ops, n + 1) == LiteralFirst(ops, n)
  {
    if n == 0 {
      assert LiteralFirst([copy] + ops, 0) == 0;
    } else {
      LiteralAfterCopy(copy, ops, n - 1);
      assert ([copy] + ops)[n] == ops[n - 1];
    }
  }

  lemma EntryMatches(w: seq<byte>, sums: SumStruct, ctx: Context, s2: nat, k: nat)
    requires ctx.Valid() && s2 <= ctx.digestLen && k < |sums.sums| && sums.head.s2length == s2
    requires sums.sums[k] == Entry(w, ctx, s2)
    ensures Matches(w, sums, ctx, k)
  {
    assert |ctx.strong(w)| == ctx.digestLen;
    assert ctx.strong(w)[..|ctx.strong(w)|] == ctx.strong(w);
  }

  /** A full block of the signed data itself is found. */
  lemma OwnBlockFound(data: seq<byte>, sums: SumStruct, ctx: Context, b: i32, s2: i32, k: nat, pos: nat)
    requires ctx.Valid() && b > 0 && 0 <= s2 <= ctx.digestLen && pos == k * b
    requires SignatureOf(sums, data, ctx, b, s2) && pos + b <= |data|
    ensures FindBlock(data[pos..pos + b], sums, ctx).Some?
  {
    NextBlock(|data|, b, k);
    var w := data[pos..pos + b];
    assert w == Block(data, b, k);
    assert sums.sums[k] == Entry(w, ctx, s2);
    EntryMatches(w, sums, ctx, s2, k);
    FoundIsFirst(w, sums, ctx);
  }

  lemma MatchedLiterals(data: seq<byte>, sums: SumStruct, ctx: Context, pos: nat)
    requires sums.head.blength > 0 && pos + sums.head.blength <= |data|
    requires FindBlock(data[pos..pos + sums.head.blength], sums, ctx).Some?
    ensures LiteralBytes(Scan(data, sums, ctx, pos, pos))
         == LiteralBytes(Scan(data, sums, ctx, pos + sums.head.blength, pos + sums.head.blength))
  {
    var next := pos + sums.head.blength;
    var i := FindBlock(data[pos..next], sums, ctx).value;
    ScanMatched(data, sums, ctx, pos, pos, i);
    var copy, rest := CopyOf(i, sums.head), Scan(data, sums, ctx, next, next);
    assert Pending(data[pos..pos]) + [copy] + rest == [copy] + rest;
    LiteralAfterCopy(copy, rest, |rest|);
  }

  lemma {:induction false} BlockLiterals(
    data: seq<byte>, sums: SumStruct, ctx: Context, b: i32, s2: i32, k: nat, pos: nat, next: nat)
    requires ctx.Valid() && b > 0 && 0 <= s2 <= ctx.digestLen && pos == k * b
    requires SignatureOf(sums, data, ctx, b, s2) && data != [] && next == pos + b <= |data|
    ensures next == (k + 1) * b
    ensures LiteralBytes(Scan(data, sums, ctx, pos, pos)) == LiteralBytes(Scan(data, sums, ctx, next, next))
  {
    OwnBlockFound(data, sums, ctx, b, s2, k, pos);
    MatchedLiterals(data, sums, ctx, pos);
    assert (k + 1) * b == k * b + b;
  }

  lemma {:induction false} IdenticalEnd(
    data: seq<byte>, sums: SumStruct, ctx: Context, b: i32, s2: i32, pos: nat)
    requires ctx.Valid() && b > 0 && 0 <= s2 <= ctx.digestLen && SignatureOf(sums, data, ctx, b, s2) && data != []
    requires pos <= |data| < pos + b
    ensures LiteralBytes(Scan(data, sums, ctx, pos, pos)) == (|data| - pos) % b
  {
    ScanEnd(data, sums, ctx, pos, pos);
    LiteralOfPending(data[pos..]);
    DivUnique(|data| - pos, b, 0, |data| - pos);
  }

  lemma {:induction false} IdenticalScan(
    data: seq<byte>, sums: SumStruct, ctx: Context, b: i32, s2: i32, k: nat, pos: nat)
    requires ctx.Valid() && b > 0 && 0 <= s2 <= ctx.digestLen && pos == k * b
    requires SignatureOf(sums, data, ctx, b, s2) && data != [] && pos <= |data|
    ensures LiteralBytes(Scan(data, sums, ctx, pos, pos)) == (|data| - pos) % b
    decreases |data| - pos
  {
    if pos + b > |data| {
      IdenticalEnd(data, sums, ctx, b, s2, pos);
    } else {
      var next := pos + b;
      BlockLiterals(data, sums, ctx, b, s2, k, pos, next);
      IdenticalScan(data, sums, ctx, b, s2, k + 1, next);
      ModStep(|data| - pos, b);
    }
  }

  lemma LiteralOfPending(data: seq<byte>)
    ensures LiteralBytes(Pending(data)) == |data|
  {
    if data != [] {
      assert LiteralFirst(Pending(data), 0) == 0;
    }
  }

  lemma ModStep(x: nat, b: nat)
    requires 0 < b <= x
    ensures x % b == (x - b) % b
  {
    var q, r := (x - b) / b, (x - b) % b;
    assert x == (q + 1) * b + r;
    DivUnique(x, b, q + 1, r);
  }

  /** On a file identical to its basis, only the tail shorter than a block is sent as literal bytes. */
  lemma IdenticalFiles(data: seq<byte>, sums: SumStruct, ctx: Context, b: i32, s2: i32)
    requires ctx.Valid() && b > 0 && 0 <= s2 <= ctx.digestLen
    requires SignatureOf(sums, data, ctx, b, s2) && |sums.sums| < 0x8000_0000
    ensures LiteralBytes(DeltaOf(data, sums, ctx)) == |data| % b
  {
    if data == [] {
      LiteralOfPending(data);
    } else {
      SignedHead(sums, data, ctx, b, s2);
      IdenticalScan(data, sums, ctx, b, s2, 0, 0);
    }
  }
}
