/** One file over the wire: signatures out, tokens and a whole-file checksum back, and the rebuilt file. */
module DeltaTransfer {
  import opened Bytes
  import opened Signatures
  import opened Delta
  import opened SumWire
  import opened Tokens
  import opened DeltaToken

  // ---- Sender ----

  /** `block_index`: the index a copy is sent as, truncated to 32 bits. */
  function BlockIndex(offset: nat, b: nat): (i: i32)
    requires b > 0
  {
    ToSigned(offset / b % 0x1_0000_0000)
  }

  ghost predicate Sendable(op: DiffOp, b: nat) {
    op.Copy? ==> b > 0 && BlockIndex(op.offset, b) != 0x7FFF_FFFF
  }

  ghost function OpBytes(op: DiffOp, b: nat): seq<byte>
  {
    match op
    case Literal(data) => DataBytes(data, 0)
    case Copy(offset, _) => if Sendable(op, b) then BlockMatchBytes(BlockIndex(offset, b)).value else []
  }

  /** The tokens of the operations from `j` on. */
  ghost function OpsBytes(ops: seq<DiffOp>, j: nat, b: nat): seq<byte>
    requires j <= |ops|
    decreases |ops| - j
  {
    if j == |ops| then [] else OpBytes(ops[j], b) + OpsBytes(ops, j + 1, b)
  }

  lemma NextOpBytes(out: seq<byte>, ops: seq<DiffOp>, j: nat, b: nat)
    requires j < |ops|
    ensures out + OpsBytes(ops, j, b) == out + OpBytes(ops[j], b) + OpsBytes(ops, j + 1, b)
  {
    assert out + (OpBytes(ops[j], b) + OpsBytes(ops, j + 1, b)) == out + OpBytes(ops[j], b) + OpsBytes(ops, j + 1, b);
  }

  method WriteOp(op: DiffOp, b: nat) returns (r: Result<seq<byte>>)
    requires op.Copy? ==> b > 0
    ensures r == if Sendable(op, b) then Ok(OpBytes(op, b)) else Err(OutOfRange)
  {
    match op {
      case Literal(data) =>
        var bytes := SendData(data);
        r := Ok(bytes);
      case Copy(offset, _) =>
        r := BlockMatchBytes(BlockIndex(offset, b));
    }
  }

  ghost predicate FirstSendable(ops: seq<DiffOp>, n: nat, b: nat)
    requires n <= |ops|
  {
    forall k :: 0 <= k < n ==> Sendable(ops[k], b)
  }

  method WriteDiffops(ops: seq<DiffOp>, b: nat) returns (r: Result<seq<byte>>)
    requires forall k :: 0 <= k < |ops| ==> (ops[k].Copy? ==> b > 0)
    ensures r.Ok? <==> forall k :: 0 <= k < |ops| ==> Sendable(ops[k], b)
    ensures r.Ok? ==> r.value == OpsBytes(ops, 0, b)
  {
    var out: seq<byte> := [];
    for j := 0 to |ops|
      invariant FirstSendable(ops, j, b)
      invariant OpsBytes(ops, 0, b) == out + OpsBytes(ops, j, b)
    {
      var w := WriteOp(ops[j], b);
      if w.Err? {
        return Err(w.error);
      }
      NextOpBytes(out, ops, j, b);
      out := out + w.value;
    }
    r := Ok(out);
  }

  // ---- Receiver ----

  /** The receiver's own length of block `i`, from the size of its basis. */
  function ReceiverBlockLength(i: nat, size: nat, b: nat): (n: nat)
  {
    var count := if b > 0 && size > 0 then BlockCount(size, b) else 0;
    var remainder := if b > 0 && size > 0 && size % b != 0 then size % b else b;
    if count > 0 && i == count - 1 && 0 < remainder < b then remainder else b
  }

  function ReceiverBlockCount(size: nat, b: nat): (n: nat)
  {
    if b > 0 && size > 0 then BlockCount(size, b) else 0
  }

  /** The bytes a token adds to the file, unless it names a block the basis does not have. */
  function Piece(token: Token, basis: seq<byte>, b: nat): (r: Option<seq<byte>>)
  {
    match token
    case Data(data) => Some(data)
    case BlockMatch(i) =>
      if i >= ReceiverBlockCount(|basis|, b) then None
      else Some(Region(basis, i * b, ReceiverBlockLength(i, |basis|, b)))
    case EndOfFile => Some([])
  }

  /** What receiving tokens yields after `output` has been rebuilt. */
  ghost function Receive(s: seq<byte>, basis: seq<byte>, b: nat, ctx: Context, output: seq<byte>)
    : Result<(seq<byte>, seq<byte>)>
    decreases |s|
  {
    match RecvToken(s)
    case Err(e) => Err(e)
    case Ok((token, rest)) =>
      if token.EndOfFile? then Verified(rest, ctx, output)
      else
        match Piece(token, basis, b)
        case None => Err(OutOfRange)
        case Some(piece) => Receive(rest, basis, b, ctx, output + piece)
  }

  /** The check of the whole-file checksum that follows the tokens. */
  function Verified(s: seq<byte>, ctx: Context, output: seq<byte>): (r: Result<(seq<byte>, seq<byte>)>)
    ensures r.Ok? ==> r.value.0 == output && |s| >= ctx.digestLen && s[..ctx.digestLen] == ctx.file(output)
  {
    if |s| < ctx.digestLen then Err(EndOfStream)
    else if s[..ctx.digestLen] != ctx.file(output) then Err(ChecksumMismatch)
    else Ok((output, s[ctx.digestLen..]))
  }

  method RecvFileDelta(s: seq<byte>, basis: seq<byte>, b: nat, ctx: Context)
    returns (r: Result<(seq<byte>, seq<byte>)>)
    ensures r == Receive(s, basis, b, ctx, [])
  {
    var output: seq<byte>, at := [], s;
    while true
      invariant Receive(at, basis, b, ctx, output) == Receive(s, basis, b, ctx, [])
      decreases |at|
    {
      var token := RecvToken(at);
      if token.Err? {
        return Err(token.error);
      }
      at := token.value.1;
      if token.value.0.EndOfFile? {
        return Verified(at, ctx, output);
      }
      var piece := Piece(token.value.0, basis, b);
      if piece.None? {
        return Err(OutOfRange);
      }
      output := output + piece.value;
    }
  }

  /** The same loop writing as it goes: it keeps a byte count and a running hash instead of the file. */
  method RecvFileDeltaToWriter(s: seq<byte>, basis: seq<byte>, b: nat, ctx: Context)
    returns (r: Result<(nat, seq<byte>)>, written: seq<byte>)
    ensures match Receive(s, basis, b, ctx, [])
            case Ok((file, rest)) => r == Ok((|file|, rest)) && written == file
            case Err(e) => r == Err(e)
  {
    var at, count, hashed: seq<byte> := s, 0, [];
    written := [];
    while true
      invariant Receive(at, basis, b, ctx, written) == Receive(s, basis, b, ctx, [])
      invariant count == |written| && hashed == written
      decreases |at|
    {
      var token := RecvToken(at);
      if token.Err? {
        return Err(token.error), written;
      }
      at := token.value.1;
      if token.value.0.EndOfFile? {
        var v := Verified(at, ctx, hashed);
        return (match v case Ok((_, rest)) => Ok((count, rest)) case Err(e) => Err(e)), written;
      }
      var piece := Piece(token.value.0, basis, b);
      if piece.None? {
        return Err(OutOfRange), written;
      }
      hashed := hashed + piece.value;
      written := written + piece.value;
      count := count + |piece.value|;
    }
  }

  // ---- What is sent is received ----

  lemma ReceivePiece(s: seq<byte>, basis: seq<byte>, b: nat, ctx: Context, output: seq<byte>,
                     token: Token, rest: seq<byte>, piece: seq<byte>)
    requires RecvToken(s) == Ok((token, rest)) && !token.EndOfFile? && Piece(token, basis, b) == Some(piece)
    ensures Receive(s, basis, b, ctx, output) == Receive(rest, basis, b, ctx, output + piece)
  {
  }

  lemma {:induction false} DataReceived(data: seq<byte>, k: nat, rest: seq<byte>,
                                        basis: seq<byte>, b: nat, ctx: Context, output: seq<byte>)
    requires k <= |data|
    ensures Receive(DataBytes(data, k) + rest, basis, b, ctx, output)
         == Receive(rest, basis, b, ctx, output + data[k..])
    decreases |data| - k
  {
    if k == |data| {
      assert DataBytes(data, k) + rest == rest;
      assert output + data[k..] == output;
    } else {
      var end := Min(k + DATA_CHUNK_SIZE, |data|);
      var piece, more := data[k..end], DataBytes(data, end);
      assert DataBytes(data, k) + rest == WriteInt(|piece|) + piece + (more + rest);
      DataPieceReceived(piece, more + rest);
      ReceivePiece(DataBytes(data, k) + rest, basis, b, ctx, output, Data(piece), more + rest, piece);
      DataReceived(data, end, rest, basis, b, ctx, output + piece);
      assert output + piece + data[end..] == output + data[k..];
    }
  }

  /** Both sides compute the same length for every block. */
  lemma SameBlockLength(i: nat, head: SumHead, size: nat, b: nat)
    requires b > 0 && size > 0 && HeadOf(head, size, b)
    ensures ReceiverBlockLength(i, size, b) == BlockLength(i, head)
    ensures ReceiverBlockCount(size, b) == head.count
  {
  }

  lemma IndexOfBlock(i: nat, b: nat)
    requires b > 0 && i < 0x8000_0000
    ensures BlockIndex(i * b, b) == i
  {
    DivUnique(i * b, b, i, 0);
  }

  /** The operation is one a matcher can emit. */
  ghost predicate Applicable(op: DiffOp, head: SumHead)
    requires head.blength >= 0
  {
    op.Copy? ==> exists i: nat :: op == CopyOf(i, head) && i < head.count
  }

  lemma OpReceived(op: DiffOp, head: SumHead, rest: seq<byte>, basis: seq<byte>, ctx: Context, output: seq<byte>)
    requires head.blength > 0 && basis != [] && HeadOf(head, |basis|, head.blength)
    requires Applicable(op, head) && head.count < 0x7FFF_FFFF
    ensures Sendable(op, head.blength)
    ensures Receive(OpBytes(op, head.blength) + rest, basis, head.blength, ctx, output)
         == Receive(rest, basis, head.blength, ctx, output + Rebuilt(basis, op))
  {
    var b: nat := head.blength;
    match op
    case Literal(data) =>
      DataReceived(data, 0, rest, basis, b, ctx, output);
      assert data[0..] == data;
    case Copy(offset, _) =>
      var i: nat :| op == CopyOf(i, head) && i < head.count;
      IndexOfBlock(i, b);
      BlockMatchReceived(i, rest);
      SameBlockLength(i, head, |basis|, b);
      ReceivePiece(OpBytes(op, b) + rest, basis, b, ctx, output, BlockMatch(i), rest, Rebuilt(basis, op));
  }

  /** Sent with block length `bs` and received with `br`, the operation adds what it rebuilds. */
  ghost predicate Transported(op: DiffOp, bs: nat, br: nat, basis: seq<byte>, ctx: Context)
  {
    && Sendable(op, bs)
    && forall rest: seq<byte>, output: seq<byte> ::
         Receive(OpBytes(op, bs) + rest, basis, br, ctx, output)
         == Receive(rest, basis, br, ctx, output + Rebuilt(basis, op))
  }

  lemma ApplicableTransported(op: DiffOp, head: SumHead, basis: seq<byte>, ctx: Context)
    requires head.blength > 0 && basis != [] && HeadOf(head, |basis|, head.blength)
    requires Applicable(op, head) && head.count < 0x7FFF_FFFF
    ensures Transported(op, head.blength, head.blength, basis, ctx)
  {
    OpReceived(op, head, [], basis, ctx, []);
    forall rest: seq<byte>, output: seq<byte>
      ensures Receive(OpBytes(op, head.blength) + rest, basis, head.blength, ctx, output)
           == Receive(rest, basis, head.blength, ctx, output + Rebuilt(basis, op))
    {
      OpReceived(op, head, rest, basis, ctx, output);
    }
  }

  lemma LiteralTransported(data: seq<byte>, bs: nat, br: nat, basis: seq<byte>, ctx: Context)
    ensures Transported(Literal(data), bs, br, basis, ctx)
  {
    forall rest: seq<byte>, output: seq<byte>
      ensures Receive(OpBytes(Literal(data), bs) + rest, basis, br, ctx, output)
           == Receive(rest, basis, br, ctx, output + data)
    {
      DataReceived(data, 0, rest, basis, br, ctx, output);
      assert data[0..] == data;
    }
  }

  lemma {:induction false} OneTransported(op: DiffOp, bs: nat, br: nat, basis: seq<byte>, ctx: Context,
                                          rest: seq<byte>, output: seq<byte>)
    requires Transported(op, bs, br, basis, ctx)
    ensures Receive(OpBytes(op, bs) + rest, basis, br, ctx, output)
         == Receive(rest, basis, br, ctx, output + Rebuilt(basis, op))
  {
  }

  lemma {:induction false} OpsReceived(ops: seq<DiffOp>, j: nat, bs: nat, br: nat, rest: seq<byte>,
                                       basis: seq<byte>, ctx: Context)
    requires j <= |ops| && forall k :: 0 <= k < |ops| ==> Transported(ops[k], bs, br, basis, ctx)
    ensures Receive(OpsBytes(ops, j, bs) + rest, basis, br, ctx, ApplyFirst(basis, ops, j))
         == Receive(rest, basis, br, ctx, Apply(basis, ops))
    decreases |ops| - j
  {
    if j == |ops| {
      assert OpsBytes(ops, j, bs) + rest == rest;
    } else {
      var more := OpsBytes(ops, j + 1, bs);
      assert OpsBytes(ops, j, bs) + rest == OpBytes(ops[j], bs) + (more + rest);
      OneTransported(ops[j], bs, br, basis, ctx, more + rest, ApplyFirst(basis, ops, j));
      OpsReceived(ops, j + 1, bs, br, rest, basis, ctx);
    }
  }

  /** The reply after its header: tokens, end of file, and the checksum of the source. */
  ghost function Reply(ops: seq<DiffOp>, bs: nat, digest: seq<byte>): seq<byte>
  {
    OpsBytes(ops, 0, bs) + EofBytes() + digest
  }

  /** A reply is received as what its operations rebuild, if that has the announced checksum. */
  lemma ReplyReceived(ops: seq<DiffOp>, bs: nat, br: nat, digest: seq<byte>, rest: seq<byte>,
                      basis: seq<byte>, ctx: Context)
    requires |digest| == ctx.digestLen
    requires forall k :: 0 <= k < |ops| ==> Transported(ops[k], bs, br, basis, ctx)
    ensures Receive(Reply(ops, bs, digest) + rest, basis, br, ctx, [])
         == if digest == ctx.file(Apply(basis, ops)) then Ok((Apply(basis, ops), rest)) else Err(ChecksumMismatch)
  {
    var tail := EofBytes() + (digest + rest);
    assert Reply(ops, bs, digest) + rest == OpsBytes(ops, 0, bs) + tail;
    OpsReceived(ops, 0, bs, br, tail, basis, ctx);
    EofReceived(digest + rest);
    assert (digest + rest)[..ctx.digestLen] == digest;
    assert (digest + rest)[ctx.digestLen..] == rest;
  }

  // ---- What is refused ----

  /** The bytes of a block: none if it starts beyond the basis, otherwise up to its length or the end. */
  lemma MatchPiece(i: nat, basis: seq<byte>, b: nat)
    ensures Piece(BlockMatch(i), basis, b)
         == if b == 0 || i * b >= |basis| then None else Some(basis[i * b..Min(i * b + b, |basis|)])
  {
    if b > 0 && basis != [] {
      var n := BlockCount(|basis|, b);
      BlocksEnd(|basis|, b);
      if i < n {
        BlockStarts(|basis|, b, i);
      } else {
        Beyond(i, n, b, |basis|);
      }
    }
  }

  /**
   * A block match is taken if and only if the block starts within the basis, and then adds the basis
   * from there up to the block length or its end.
   */
  lemma {:induction false} MatchTaken(i: i32, rest: seq<byte>, basis: seq<byte>, b: nat, ctx: Context,
                                      output: seq<byte>)
    requires 0 <= i < 0x7FFF_FFFF
    ensures Receive(BlockMatchBytes(i).value + rest, basis, b, ctx, output)
         == if b == 0 || i * b >= |basis| then Err(OutOfRange)
            else Receive(rest, basis, b, ctx, output + basis[i * b..Min(i * b + b, |basis|)])
  {
    BlockMatchReceived(i, rest);
    MatchPiece(i, basis, b);
  }

  lemma Beyond(i: nat, n: nat, b: nat, size: nat)
    requires i >= n > 0 && size <= (n - 1) * b + b
    ensures i * b >= size
  {
    assert (i - n) * b >= 0;
    assert n * b == (n - 1) * b + b;
  }

  /** A token cut short is no token. */
  lemma CutToken(s: seq<byte>, k: nat)
    requires RecvToken(s).Ok? && k <= |s|
    ensures var rest := RecvToken(s).value.1;
            if k < |s| - |rest| then RecvToken(s[..k]) == Err(EndOfStream)
            else RecvToken(s[..k]) == Ok((RecvToken(s).value.0, rest[..k - (|s| - |rest|)]))
  {
    if k >= 4 {
      assert s[..k][..4] == s[..4] && s[..k][4..] == s[4..k];
      var token, after := ReadInt(s).value.0, s[4..];
      if token > 0 {
        assert s[4..k] == after[..k - 4];
        if k - 4 >= token {
          assert after[..k - 4][..token] == after[..token] && after[..k - 4][token..] == after[token..k - 4];
          assert after[token..][..k - 4 - token] == after[token..k - 4];
        }
      } else {
        assert s[4..k] == after[..k - 4];
      }
    }
  }

  /** A reply that is accepted is not accepted from any proper beginning of it. */
  lemma {:induction false} CutReply(s: seq<byte>, basis: seq<byte>, b: nat, ctx: Context, output: seq<byte>, k: nat)
    requires Receive(s, basis, b, ctx, output).Ok? && k < |s| - |Receive(s, basis, b, ctx, output).value.1|
    ensures Receive(s[..k], basis, b, ctx, output) == Err(EndOfStream)
    decreases |s|
  {
    CutToken(s, k);
    var (token, rest) := RecvToken(s).value;
    var used := |s| - |rest|;
    if k >= used && !token.EndOfFile? {
      CutReply(rest, basis, b, ctx, output + Piece(token, basis, b).value, k - used);
    }
  }
}
