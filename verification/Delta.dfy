/** Diff operations, what they rebuild, and what a matcher may emit. */
module Delta {
  import opened Bytes
  import opened Checksum
  import opened Signatures

  datatype DiffOp = Literal(data: seq<byte>) | Copy(offset: nat, length: nat)

  function Rebuilt(basis: seq<byte>, op: DiffOp): (r: seq<byte>)
  {
    match op
    case Literal(data) => data
    case Copy(offset, length) => Region(basis, offset, length)
  }

  /** What the first `n` operations rebuild. */
  ghost function ApplyFirst(basis: seq<byte>, ops: seq<DiffOp>, n: nat): seq<byte>
    requires n <= |ops|
  {
    if n == 0 then [] else ApplyFirst(basis, ops, n - 1) + Rebuilt(basis, ops[n - 1])
  }

  /** The file that a sequence of operations describes. */
  ghost function Apply(basis: seq<byte>, ops: seq<DiffOp>): seq<byte>
  {
    ApplyFirst(basis, ops, |ops|)
  }

  method ApplyDiffops(basis: seq<byte>, ops: seq<DiffOp>) returns (output: seq<byte>)
    ensures output == Apply(basis, ops)
  {
    output := [];
    for i := 0 to |ops|
      invariant output == ApplyFirst(basis, ops, i)
    {
      output := output + Rebuilt(basis, ops[i]);
    }
  }

  /** `block_byte_length`. */
  function BlockLength(idx: nat, head: SumHead): (n: nat)
    requires head.blength >= 0
  {
    if head.count > 0 && idx == head.count - 1 && 0 < head.remainder < head.blength
    then head.remainder else head.blength
  }

  function CopyOf(i: nat, head: SumHead): (op: DiffOp)
    requires head.blength >= 0
  {
    Copy(i * head.blength, BlockLength(i, head))
  }

  /** The strong sum as compared: cut to `s2length as usize`, which never cuts beyond the digest. */
  function Truncated(strong: seq<byte>, s2length: i32): (r: seq<byte>)
  {
    if 0 <= s2length < |strong| then strong[..s2length] else strong
  }

  ghost predicate StrongMatch(w: seq<byte>, sums: SumStruct, ctx: Context, i: nat)
  {
    i < |sums.sums| && sums.sums[i].sum2 == Truncated(ctx.strong(w), sums.head.s2length)
  }

  /** Block `i` agrees with the window `w` on both checksums. */
  ghost predicate Matches(w: seq<byte>, sums: SumStruct, ctx: Context, i: nat)
  {
    StrongMatch(w, sums, ctx, i) && sums.sums[i].sum1 == Checksum1(w, ctx.charOffset)
  }

  /** Bytes of the source an operation stands for. */
  ghost function Span(op: DiffOp, b: nat): nat
  {
    match op case Literal(data) => |data| case Copy(_, _) => b
  }

  /** Bytes of the source the first `n` operations stand for. */
  ghost function SpanFirst(ops: seq<DiffOp>, n: nat, b: nat): nat
    requires n <= |ops|
  {
    if n == 0 then 0 else SpanFirst(ops, n - 1, b) + Span(ops[n - 1], b)
  }

  ghost function TotalSpan(ops: seq<DiffOp>, b: nat): nat
  {
    SpanFirst(ops, |ops|, b)
  }

  /** No block agrees on both checksums with the window at `p`, if there is a whole one. */
  ghost predicate Unmatched(source: seq<byte>, p: nat, sums: SumStruct, ctx: Context)
    requires sums.head.blength >= 0
  {
    p + sums.head.blength <= |source| ==> NoMatch(source[p..p + sums.head.blength], sums, ctx)
  }

  ghost predicate NoMatch(w: seq<byte>, sums: SumStruct, ctx: Context)
  {
    forall i: nat :: !Matches(w, sums, ctx, i)
  }

  ghost predicate FirstMatch(w: seq<byte>, sums: SumStruct, ctx: Context, i: nat)
  {
    Matches(w, sums, ctx, i) && forall k: nat :: k < i ==> !Matches(w, sums, ctx, k)
  }

  /**
   * The copy is of a block whose strong sum is that of `w`; of a greedy scan, of the first block
   * that agrees with `w` on both checksums.
   */
  ghost predicate NamesMatch(op: DiffOp, w: seq<byte>, sums: SumStruct, ctx: Context, greedy: bool)
    requires sums.head.blength >= 0
  {
    exists i: nat :: && op == CopyOf(i, sums.head) && StrongMatch(w, sums, ctx, i)
                     && (greedy ==> FirstMatch(w, sums, ctx, i))
  }

  /**
   * `op` stands for the source bytes at `at`: a literal repeats them and a copy names a match of
   * the window there. Of a greedy scan, moreover, no window that starts in a literal has a match.
   */
  ghost predicate Stands(
    op: DiffOp, source: seq<byte>, at: nat, sums: SumStruct, ctx: Context, greedy: bool)
    requires sums.head.blength >= 0
  {
    && at + Span(op, sums.head.blength) <= |source|
    && match op
       case Literal(data) =>
         && data != [] && data == source[at..at + |data|]
         && (greedy ==> forall p: nat :: at <= p < at + |data| ==> Unmatched(source, p, sums, ctx))
       case Copy(_, _) => NamesMatch(op, source[at..at + sums.head.blength], sums, ctx, greedy)
  }

  /** The operations stand, one after the other, for the source bytes from `at` on. */
  ghost predicate Describes(
    ops: seq<DiffOp>, source: seq<byte>, at: nat, sums: SumStruct, ctx: Context, greedy: bool)
    requires sums.head.blength >= 0
  {
    forall j :: 0 <= j < |ops| ==> StandsAt(ops, j, source, at, sums, ctx, greedy)
  }

  ghost predicate StandsAt(
    ops: seq<DiffOp>, j: nat, source: seq<byte>, at: nat, sums: SumStruct, ctx: Context, greedy: bool)
    requires sums.head.blength >= 0 && j < |ops|
  {
    Stands(ops[j], source, at + SpanFirst(ops, j, sums.head.blength), sums, ctx, greedy)
  }

  lemma {:induction false} SpanPrefix(a: seq<DiffOp>, c: seq<DiffOp>, n: nat, b: nat)
    requires n <= |a|
    ensures SpanFirst(a + c, n, b) == SpanFirst(a, n, b)
  {
    if n > 0 {
      SpanPrefix(a, c, n - 1, b);
    }
  }

  lemma {:induction false} SpanAppend(a: seq<DiffOp>, c: seq<DiffOp>, n: nat, b: nat)
    requires n <= |c|
    ensures SpanFirst(a + c, |a| + n, b) == TotalSpan(a, b) + SpanFirst(c, n, b)
  {
    if n == 0 {
      SpanPrefix(a, c, |a|, b);
    } else {
      SpanAppend(a, c, n - 1, b);
      assert (a + c)[|a| + n - 1] == c[n - 1];
    }
  }

  lemma DescribesAppend(
    a: seq<DiffOp>, c: seq<DiffOp>, source: seq<byte>, at: nat, sums: SumStruct, ctx: Context, greedy: bool)
    requires sums.head.blength >= 0
    requires Describes(a, source, at, sums, ctx, greedy)
    requires Describes(c, source, at + TotalSpan(a, sums.head.blength), sums, ctx, greedy)
    ensures Describes(a + c, source, at, sums, ctx, greedy)
    ensures TotalSpan(a + c, sums.head.blength)
         == TotalSpan(a, sums.head.blength) + TotalSpan(c, sums.head.blength)
  {
    forall j | 0 <= j < |a + c|
      ensures StandsAt(a + c, j, source, at, sums, ctx, greedy)
    {
      if j < |a| {
        StandsBefore(a, c, j, source, at, sums, ctx, greedy);
      } else {
        StandsAfter(a, c, j - |a|, source, at, sums, ctx, greedy);
      }
    }
    SpanAppend(a, c, |c|, sums.head.blength);
  }

  lemma StandsBefore(
    a: seq<DiffOp>, c: seq<DiffOp>, j: nat, source: seq<byte>, at: nat, sums: SumStruct, ctx: Context, greedy: bool)
    requires sums.head.blength >= 0 && j < |a| && StandsAt(a, j, source, at, sums, ctx, greedy)
    ensures StandsAt(a + c, j, source, at, sums, ctx, greedy)
  {
    SpanPrefix(a, c, j, sums.head.blength);
    assert (a + c)[j] == a[j];
  }

  lemma StandsAfter(
    a: seq<DiffOp>, c: seq<DiffOp>, j: nat, source: seq<byte>, at: nat, sums: SumStruct, ctx: Context, greedy: bool)
    requires sums.head.blength >= 0 && j < |c|
    requires StandsAt(c, j, source, at + TotalSpan(a, sums.head.blength), sums, ctx, greedy)
    ensures StandsAt(a + c, |a| + j, source, at, sums, ctx, greedy)
  {
    SpanAppend(a, c, j, sums.head.blength);
    assert (a + c)[|a| + j] == c[j];
  }

  /** Equal strong sums mean equal bytes. */
  ghost predicate Distinguished(w: seq<byte>, block: seq<byte>, ctx: Context, s2: i32)
  {
    Truncated(ctx.strong(w), s2) == Truncated(ctx.strong(block), s2) ==> w == block
  }

  /** No window of the source shares its strong sum with a different block of the basis. */
  ghost predicate CollisionFree(source: seq<byte>, basis: seq<byte>, ctx: Context, b: nat, s2: i32)
    requires b > 0
  {
    forall p: nat, q: nat, i: nat | q == p + b <= |source| && i < BlockCount(|basis|, b) ::
      Distinguished(source[p..q], Block(basis, b, i), ctx, s2)
  }

  /** Clipping to the short last block or to the end of the basis is the same. */
  lemma ClippedLength(n: nat, b: nat, i: nat)
    requires b > 0 && n > 0 && i <= (n - 1) / b
    ensures var len := if i == (n - 1) / b then Remainder(n, b) else b;
            Min(i * b + len, n) == Min(i * b + b, n)
  {
    if i == (n - 1) / b {
      LastBlockLength(n, b);
    }
  }

  lemma LastBlockLength(n: nat, b: nat)
    requires b > 0 && n > 0
    ensures n == (n - 1) / b * b + Remainder(n, b)
  {
    var q, r := (n - 1) / b, (n - 1) % b;
    assert n - 1 == q * b + r;
    if r == b - 1 {
      assert n == (q + 1) * b + 0;
      DivUnique(n, b, q + 1, 0);
    } else {
      DivUnique(n, b, q, r + 1);
    }
  }

  /** The header describes a basis of `n` bytes in blocks of `b`. */
  ghost predicate HeadOf(head: SumHead, n: nat, b: nat)
    requires b > 0
  {
    head.blength == b && head.count == BlockCount(n, b) && head.remainder == Remainder(n, b)
  }

  /** The copy of block `i` rebuilds block `i`, the short last one included. */
  lemma CopyIsBlock(basis: seq<byte>, b: nat, i: nat, head: SumHead)
    requires b > 0 && i < BlockCount(|basis|, b) && HeadOf(head, |basis|, b)
    ensures Rebuilt(basis, CopyOf(i, head)) == Block(basis, b, i)
  {
    ClippedLength(|basis|, b, i);
  }

  lemma SignedHead(sums: SumStruct, basis: seq<byte>, ctx: Context, b: i32, s2: i32)
    requires ctx.Valid() && b > 0 && 0 <= s2 <= ctx.digestLen
    requires SignatureOf(sums, basis, ctx, b, s2) && |sums.sums| < 0x8000_0000 && basis != []
    ensures HeadOf(sums.head, |basis|, b)
  {
  }

  /** Without strong collisions, a copy that names a match rebuilds the window it matched. */
  lemma CopyRebuilds(
    op: DiffOp, source: seq<byte>, p: nat, q: nat,
    sums: SumStruct, basis: seq<byte>, ctx: Context, b: i32, s2: i32, greedy: bool)
    requires ctx.Valid() && b > 0 && 0 <= s2 <= ctx.digestLen
    requires SignatureOf(sums, basis, ctx, b, s2) && |sums.sums| < 0x8000_0000
    requires CollisionFree(source, basis, ctx, b, s2)
    requires q == p + sums.head.blength <= |source| && NamesMatch(op, source[p..q], sums, ctx, greedy)
    ensures Rebuilt(basis, op) == source[p..q]
  {
    var i: nat :| op == CopyOf(i, sums.head) && StrongMatch(source[p..q], sums, ctx, i);
    SignedHead(sums, basis, ctx, b, s2);
    CopyIsBlock(basis, b, i, sums.head);
    var block := Block(basis, b, i);
    assert sums.sums[i] == Entry(block, ctx, s2);
    assert Truncated(ctx.strong(block), s2) == ctx.strong(block)[..s2];
    assert Distinguished(source[p..q], block, ctx, s2);
  }

  /** Operation `j` rebuilds the bytes it stands for. */
  ghost predicate RebuildsAt(ops: seq<DiffOp>, j: nat, source: seq<byte>, at: nat, basis: seq<byte>, b: nat)
    requires j < |ops|
  {
    var p := at + SpanFirst(ops, j, b);
    var q := p + Span(ops[j], b);
    q <= |source| && Rebuilt(basis, ops[j]) == source[p..q]
  }

  lemma Added(source: seq<byte>, at: nat, mid: nat, end: nat, built: seq<byte>, piece: seq<byte>)
    requires at <= mid <= end <= |source| && built == source[at..mid] && piece == source[mid..end]
    ensures built + piece == source[at..end]
  {
  }

  lemma {:induction false} PiecesConcatenate(
    ops: seq<DiffOp>, n: nat, source: seq<byte>, at: nat, basis: seq<byte>, b: nat)
    requires n <= |ops| && at <= |source|
    requires forall j :: 0 <= j < n ==> RebuildsAt(ops, j, source, at, basis, b)
    ensures var end := at + SpanFirst(ops, n, b);
            end <= |source| && ApplyFirst(basis, ops, n) == source[at..end]
  {
    if n > 0 {
      PiecesConcatenate(ops, n - 1, source, at, basis, b);
      assert RebuildsAt(ops, n - 1, source, at, basis, b);
      var mid := at + SpanFirst(ops, n - 1, b);
      var end := at + SpanFirst(ops, n, b);
      Added(source, at, mid, end, ApplyFirst(basis, ops, n - 1), Rebuilt(basis, ops[n - 1]));
    }
  }

  lemma StandingRebuilds(
    op: DiffOp, source: seq<byte>, p: nat,
    sums: SumStruct, basis: seq<byte>, ctx: Context, b: i32, s2: i32, greedy: bool)
    requires ctx.Valid() && b > 0 && 0 <= s2 <= ctx.digestLen
    requires SignatureOf(sums, basis, ctx, b, s2) && |sums.sums| < 0x8000_0000
    requires CollisionFree(source, basis, ctx, b, s2)
    ensures Exact(op, source, p, basis, sums, ctx, greedy)
  {
    if op.Copy? && Stands(op, source, p, sums, ctx, greedy) {
      CopyRebuilds(op, source, p, p + sums.head.blength, sums, basis, ctx, b, s2, greedy);
    }
  }

  ghost predicate Exact(
    op: DiffOp, source: seq<byte>, p: nat, basis: seq<byte>, sums: SumStruct, ctx: Context, greedy: bool)
    requires sums.head.blength >= 0
  {
    Stands(op, source, p, sums, ctx, greedy)
    ==> Rebuilt(basis, op) == source[p..p + Span(op, sums.head.blength)]
  }

  lemma ExactAt(
    ops: seq<DiffOp>, j: nat, source: seq<byte>, at: nat, basis: seq<byte>,
    sums: SumStruct, ctx: Context, greedy: bool)
    requires sums.head.blength >= 0 && j < |ops| && StandsAt(ops, j, source, at, sums, ctx, greedy)
    requires Exact(ops[j], source, at + SpanFirst(ops, j, sums.head.blength), basis, sums, ctx, greedy)
    ensures RebuildsAt(ops, j, source, at, basis, sums.head.blength)
  {
  }

  lemma {:induction false} EachRebuilds(
    ops: seq<DiffOp>, j: nat, source: seq<byte>, at: nat,
    sums: SumStruct, basis: seq<byte>, ctx: Context, b: i32, s2: i32, greedy: bool)
    requires ctx.Valid() && b > 0 && 0 <= s2 <= ctx.digestLen
    requires SignatureOf(sums, basis, ctx, b, s2) && |sums.sums| < 0x8000_0000
    requires CollisionFree(source, basis, ctx, b, s2)
    requires j < |ops| && StandsAt(ops, j, source, at, sums, ctx, greedy)
    ensures RebuildsAt(ops, j, source, at, basis, sums.head.blength)
  {
    var p := at + SpanFirst(ops, j, sums.head.blength);
    StandingRebuilds(ops[j], source, p, sums, basis, ctx, b, s2, greedy);
    ExactAt(ops, j, source, at, basis, sums, ctx, greedy);
  }

  /** Two stretches that follow one another up to the end of the source. */
  lemma {:induction false} Onwards(
    a: seq<DiffOp>, rest: seq<DiffOp>, source: seq<byte>, from: nat, mid: nat,
    sums: SumStruct, ctx: Context, greedy: bool)
    requires sums.head.blength >= 0 && from <= mid <= |source|
    requires Describes(a, source, from, sums, ctx, greedy) && TotalSpan(a, sums.head.blength) == mid - from
    requires Describes(rest, source, mid, sums, ctx, greedy) && TotalSpan(rest, sums.head.blength) == |source| - mid
    ensures Describes(a + rest, source, from, sums, ctx, greedy)
    ensures TotalSpan(a + rest, sums.head.blength) == |source| - from
  {
    DescribesAppend(a, rest, source, from, sums, ctx, greedy);
  }

  /** With no strong collision, operations that describe the source from `at` on rebuild it. */
  lemma {:induction false} DescribedIsRebuilt(
    ops: seq<DiffOp>, source: seq<byte>, at: nat,
    sums: SumStruct, basis: seq<byte>, ctx: Context, b: i32, s2: i32, greedy: bool)
    requires ctx.Valid() && b > 0 && 0 <= s2 <= ctx.digestLen
    requires SignatureOf(sums, basis, ctx, b, s2) && |sums.sums| < 0x8000_0000
    requires CollisionFree(source, basis, ctx, b, s2)
    requires at <= |source| && Describes(ops, source, at, sums, ctx, greedy)
    ensures var end := at + TotalSpan(ops, sums.head.blength);
            end <= |source| && Apply(basis, ops) == source[at..end]
  {
    forall j | 0 <= j < |ops|
      ensures RebuildsAt(ops, j, source, at, basis, sums.head.blength)
    {
      assert StandsAt(ops, j, source, at, sums, ctx, greedy);
      EachRebuilds(ops, j, source, at, sums, basis, ctx, b, s2, greedy);
    }
    PiecesConcatenate(ops, |ops|, source, at, basis, sums.head.blength);
  }
}
