/**
 * Block signatures of a basis file. The strong and the whole-file hash are parameters: nothing is
 * known about them but the length of their digests.
 */
module Signatures {
  import opened Bytes
  import opened Checksum

  datatype Context = Context(
    charOffset: u32,
    digestLen: nat,
    strong: seq<byte> -> seq<byte>,
    file: seq<byte> -> seq<byte>)
  {
    ghost predicate Valid() {
      && (forall w: seq<byte> :: |strong(w)| == digestLen)
      && (forall w: seq<byte> :: |file(w)| == digestLen)
    }
  }

  datatype SumHead = SumHead(count: i32, blength: i32, s2length: i32, remainder: i32)
  datatype SumEntry = SumEntry(sum1: u32, sum2: seq<byte>)
  datatype SumStruct = SumStruct(head: SumHead, sums: seq<SumEntry>)

  /** `length` bytes at `offset`, clipped to the data. */
  function Region(data: seq<byte>, offset: nat, length: nat): (r: seq<byte>)
  {
    if offset < |data| then data[offset..Min(offset + length, |data|)] else []
  }

  /** Block `i` of the data cut into blocks of `b` bytes, the last possibly shorter. */
  ghost function Block(data: seq<byte>, b: nat, i: nat): seq<byte>
  {
    Region(data, i * b, b)
  }

  /** Number of blocks: `len.div_ceil(blength)`. */
  function BlockCount(size: nat, b: nat): (n: nat)
    requires b > 0
    ensures size > 0 <==> n > 0
  {
    if size == 0 then 0 else (size - 1) / b + 1
  }

  /** The length of the last block: `b` when `b` divides the size. */
  function Remainder(size: nat, b: nat): (r: nat)
    requires b > 0
    ensures 0 < r <= b
  {
    if size % b == 0 then b else size % b
  }

  ghost function Entry(block: seq<byte>, ctx: Context, s2: nat): SumEntry
    requires s2 <= |ctx.strong(block)|
  {
    SumEntry(Checksum1(block, ctx.charOffset), ctx.strong(block)[..s2])
  }

  /** Each entry holds both checksums of its block. */
  ghost predicate Signed(sums: seq<SumEntry>, data: seq<byte>, ctx: Context, b: nat, s2: nat)
    requires ctx.Valid() && s2 <= ctx.digestLen
  {
    forall i :: 0 <= i < |sums| ==> sums[i] == Entry(Block(data, b, i), ctx, s2)
  }

  /**
   * What `compute_signatures` returns for block length `b` and strong-sum length `s2`: both
   * checksums of every block, counted in 32 bits.
   */
  ghost predicate SignatureOf(s: SumStruct, data: seq<byte>, ctx: Context, b: i32, s2: i32)
    requires ctx.Valid() && b > 0 && 0 <= s2 <= ctx.digestLen
  {
    if data == [] then s == SumStruct(SumHead(0, 0, 0, 0), [])
    else
      && |s.sums| == BlockCount(|data|, b)
      && Signed(s.sums, data, ctx, b, s2)
      && s.head == SumHead(ToSigned(|s.sums| % 0x1_0000_0000), b, s2, Remainder(|data|, b))
  }

  method BlockEntry(block: seq<byte>, ctx: Context, s2: nat) returns (e: SumEntry)
    requires s2 <= |ctx.strong(block)|
    ensures e == Entry(block, ctx, s2)
  {
    var sum1 := Compute1(block, ctx.charOffset);
    e := SumEntry(sum1, ctx.strong(block)[..s2]);
  }

  /** The loop of `compute_signatures`. */
  method BlockEntries(data: seq<byte>, ctx: Context, b: nat, s2: nat) returns (sums: seq<SumEntry>)
    requires ctx.Valid() && b > 0 && s2 <= ctx.digestLen && data != []
    ensures |sums| == BlockCount(|data|, b) && Signed(sums, data, ctx, b, s2)
  {
    sums := [];
    var offset := 0;
    while offset < |data|
      invariant offset == Min(|sums| * b, |data|)
      invariant |sums| <= BlockCount(|data|, b)
      invariant Signed(sums, data, ctx, b, s2)
      decreases |data| - offset
    {
      var end := Min(offset + b, |data|);
      ghost var i := |sums|;
      NextBlock(|data|, b, i);
      assert data[offset..end] == Block(data, b, i);
      var entry := BlockEntry(data[offset..end], ctx, s2);
      sums := sums + [entry];
      offset := end;
    }
    LastBlock(|data|, b, |sums|);
  }

  /** Signatures block by block; `s2` beyond the digest length would slice out of range. */
  method ComputeSignatures(data: seq<byte>, ctx: Context, b: i32, s2: i32) returns (s: SumStruct)
    requires ctx.Valid() && b > 0 && 0 <= s2 <= ctx.digestLen
    ensures SignatureOf(s, data, ctx, b, s2)
    ensures exists blocks :: Cuts(blocks, data, b) && SignsEach(s, blocks, ctx, b, s2)
  {
    if data == [] {
      s := SumStruct(SumHead(0, 0, 0, 0), []);
      SignatureMeans(s, data, ctx, b, s2);
      return;
    }
    var sums := BlockEntries(data, ctx, b, s2);
    s := SumStruct(SumHead(ToSigned(|sums| % 0x1_0000_0000), b, s2, Remainder(|data|, b)), sums);
    SignatureMeans(s, data, ctx, b, s2);
  }

  // ---- What a signature says of the data ----

  /** The data in blocks of `b` bytes, only the last of them possibly shorter. */
  ghost predicate Cuts(blocks: seq<seq<byte>>, data: seq<byte>, b: nat) {
    && Flatten(blocks) == data
    && (forall k :: 0 <= k < |blocks| ==> 0 < |blocks[k]| <= b)
    && (forall k :: 0 <= k < |blocks| - 1 ==> |blocks[k]| == b)
  }

  /** An entry for each block with both its checksums, and a header with the length of the last block. */
  ghost predicate SignsEach(s: SumStruct, blocks: seq<seq<byte>>, ctx: Context, b: i32, s2: i32)
    requires ctx.Valid() && 0 <= s2 <= ctx.digestLen
  {
    && |s.sums| == |blocks|
    && (forall k :: 0 <= k < |blocks| ==> SignsBlock(s.sums[k], blocks[k], ctx, s2))
    && (if blocks == [] then s.head == SumHead(0, 0, 0, 0)
        else
          && Unsigned(s.head.count) == |blocks| % 0x1_0000_0000 && s.head.blength == b && s.head.s2length == s2
          && s.head.remainder == |blocks[|blocks| - 1]|)
  }

  ghost predicate SignsBlock(e: SumEntry, block: seq<byte>, ctx: Context, s2: i32)
    requires ctx.Valid() && 0 <= s2 <= ctx.digestLen
  {
    && Halves(e.sum1, ByteSum(block, ctx.charOffset), PrefixSum(block, ctx.charOffset))
    && |e.sum2| == s2 && e.sum2 <= ctx.strong(block)
  }

  ghost function BlocksOf(data: seq<byte>, b: nat, n: nat): (r: seq<seq<byte>>)
    ensures |r| == n && forall k :: 0 <= k < n ==> r[k] == Block(data, b, k)
  {
    seq(n, k requires 0 <= k < n => Block(data, b, k))
  }

  lemma {:induction false} FirstBlocks(data: seq<byte>, b: nat, n: nat, at: nat)
    requires b > 0 && n <= BlockCount(|data|, b) && at == n * b
    ensures Flatten(BlocksOf(data, b, n)) == data[..Min(at, |data|)]
  {
    if n > 0 {
      BlockStarts(|data|, b, n - 1);
      var before := (n - 1) * b;
      Distribute(n, b);
      FirstBlocks(data, b, n - 1, before);
      OneBlockMore(data, b, n - 1, before);
    }
  }

  lemma Distribute(n: nat, b: nat)
    ensures n * b == (n - 1) * b + b
  {
  }

  lemma OneBlockMore(data: seq<byte>, b: nat, i: nat, at: nat)
    requires b > 0 && at == i * b < |data| && Flatten(BlocksOf(data, b, i)) == data[..at]
    ensures Flatten(BlocksOf(data, b, i + 1)) == data[..Min(at + b, |data|)]
  {
    var block := Block(data, b, i);
    assert block == data[at..Min(at + b, |data|)];
    assert BlocksOf(data, b, i + 1) == BlocksOf(data, b, i) + [block];
    FlattenOne(BlocksOf(data, b, i), block);
    Prefix(data, at, Min(at + b, |data|));
  }

  /** Every block starts within the data, */
  lemma BlockStarts(n: nat, b: nat, i: nat)
    requires b > 0 && i < BlockCount(n, b)
    ensures i * b < n
  {
    var q := (n - 1) / b;
    assert n - 1 == q * b + (n - 1) % b;
    assert (q - i) * b >= 0;
  }

  /** and the last one ends with it. */
  lemma BlocksEnd(n: nat, b: nat)
    requires b > 0 && n > 0
    ensures var last := (BlockCount(n, b) - 1) * b;
            last < n <= last + b && n - last == Remainder(n, b)
  {
    var q := (n - 1) / b;
    assert n - 1 == q * b + (n - 1) % b;
    if n - q * b == b {
      DivUnique(n, b, q + 1, 0);
    } else {
      DivUnique(n, b, q, n - q * b);
    }
  }

  lemma BlockSized(data: seq<byte>, b: nat, k: nat)
    requires b > 0 && k < BlockCount(|data|, b)
    ensures 0 < |Block(data, b, k)| <= b && (k < BlockCount(|data|, b) - 1 ==> |Block(data, b, k)| == b)
  {
    BlockStarts(|data|, b, k);
    if k < BlockCount(|data|, b) - 1 {
      BlockStarts(|data|, b, k + 1);
      assert (k + 1) * b == k * b + b;
    }
  }

  lemma CutInBlocks(data: seq<byte>, b: nat)
    requires b > 0
    ensures Cuts(BlocksOf(data, b, BlockCount(|data|, b)), data, b)
    ensures data != [] ==> |Block(data, b, BlockCount(|data|, b) - 1)| == Remainder(|data|, b)
  {
    var n := BlockCount(|data|, b);
    FirstBlocks(data, b, n, n * b);
    if data != [] {
      BlocksEnd(|data|, b);
      assert n * b == (n - 1) * b + b;
    }
    assert data[..|data|] == data;
    forall k | 0 <= k < n
      ensures 0 < |Block(data, b, k)| <= b && (k < n - 1 ==> |Block(data, b, k)| == b)
    {
      BlockSized(data, b, k);
    }
  }

  /** A signature holds both checksums of every block of its data, and the data are those blocks. */
  lemma SignatureMeans(s: SumStruct, data: seq<byte>, ctx: Context, b: i32, s2: i32)
    requires ctx.Valid() && b > 0 && 0 <= s2 <= ctx.digestLen && SignatureOf(s, data, ctx, b, s2)
    ensures exists blocks :: Cuts(blocks, data, b) && SignsEach(s, blocks, ctx, b, s2)
  {
    var n := BlockCount(|data|, b);
    var blocks := BlocksOf(data, b, n);
    CutInBlocks(data, b);
    forall k | 0 <= k < n
      ensures SignsBlock(s.sums[k], blocks[k], ctx, s2)
    {
      PackHalves(ByteSum(blocks[k], ctx.charOffset), PrefixSum(blocks[k], ctx.charOffset));
    }
    assert SignsEach(s, blocks, ctx, b, s2);
  }

  // ---- Arithmetic of block positions ----

  lemma DivLower(x: nat, b: nat, i: nat)
    requires 0 < b && i * b <= x
    ensures i <= x / b
  {
    var d := i - x / b;
    assert i * b == (x / b) * b + d * b;
    assert d >= 1 ==> d * b >= b;
  }

  /** Block `i` starts inside the data exactly when it is one of the blocks. */
  lemma NextBlock(n: nat, b: nat, i: nat)
    requires b > 0 && n > 0 && i * b < n
    ensures i + 1 <= BlockCount(n, b) && (i + 1) * b == i * b + b
  {
    DivLower(n - 1, b, i);
  }

  lemma LastBlock(n: nat, b: nat, i: nat)
    requires b > 0 && n > 0 && i <= BlockCount(n, b) && i * b >= n
    ensures i == BlockCount(n, b)
  {
    var q := (n - 1) / b;
    assert n - 1 == q * b + (n - 1) % b;
    assert i <= q ==> (q - i) * b >= 0;
  }
}
