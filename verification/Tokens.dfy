/** Plain delta tokens: a positive length and bytes, a negated block index, or zero at the end of a file. */
module Tokens {
  import opened Bytes
  import opened SumWire
  import opened DeltaToken

  const DATA_CHUNK_SIZE: nat := 32 * 1024
  const MAX_WIRE_ALLOC: nat := 256 * 1024 * 1024

  /** Literal data from `k` on, in pieces of at most a chunk. */
  ghost function DataBytes(data: seq<byte>, k: nat): seq<byte>
    requires k <= |data|
    decreases |data| - k
  {
    if k == |data| then []
    else
      var end := Min(k + DATA_CHUNK_SIZE, |data|);
      WriteInt(end - k) + data[k..end] + DataBytes(data, end)
  }

  method SendData(data: seq<byte>) returns (b: seq<byte>)
    ensures b == DataBytes(data, 0)
  {
    b := [];
    var k := 0;
    while k < |data|
      invariant 0 <= k <= |data|
      invariant b + DataBytes(data, k) == DataBytes(data, 0)
      decreases |data| - k
    {
      var end := Min(k + DATA_CHUNK_SIZE, |data|);
      var piece := WriteInt(end - k) + data[k..end];
      assert b + (piece + DataBytes(data, end)) == b + piece + DataBytes(data, end);
      b := b + piece;
      k := end;
    }
    assert DataBytes(data, k) == [];
  }

  /** `-(index + 1)`, or an error for the one index whose successor overflows. */
  function BlockMatchBytes(index: i32): (r: Result<seq<byte>>)
    ensures r.Err? <==> index == 0x7FFF_FFFF
  {
    if index == 0x7FFF_FFFF then Err(OutOfRange) else Ok(WriteInt(-(index as int + 1)))
  }

  function EofBytes(): (b: seq<byte>) {
    WriteInt(0)
  }

  function RecvToken(s: seq<byte>): (r: Result<(Token, seq<byte>)>)
    ensures r.Ok? ==> |r.value.1| < |s|
  {
    match ReadInt(s)
    case None => Err(EndOfStream)
    case Some((token, rest)) =>
      if token == 0 then Ok((EndOfFile, rest))
      else if token > 0 then
        if token > MAX_WIRE_ALLOC then Err(OutOfRange)
        else if token > |rest| then Err(EndOfStream)
        else Ok((Data(rest[..token]), rest[token..]))
      else Ok((BlockMatch(-(token as int + 1)), rest))
  }

  lemma DataPieceReceived(piece: seq<byte>, rest: seq<byte>)
    requires 0 < |piece| <= DATA_CHUNK_SIZE
    ensures RecvToken(WriteInt(|piece|) + piece + rest) == Ok((Data(piece), rest))
  {
    assert WriteInt(|piece|) + piece + rest == WriteInt(|piece|) + (piece + rest);
    IntRoundTrip(|piece|, piece + rest);
    assert (piece + rest)[..|piece|] == piece;
    assert (piece + rest)[|piece|..] == rest;
  }

  lemma BlockMatchReceived(index: i32, rest: seq<byte>)
    requires 0 <= index < 0x7FFF_FFFF
    ensures RecvToken(BlockMatchBytes(index).value + rest) == Ok((BlockMatch(index), rest))
  {
    IntRoundTrip(-(index as int + 1), rest);
  }

  lemma EofReceived(rest: seq<byte>)
    ensures RecvToken(EofBytes() + rest) == Ok((EndOfFile, rest))
  {
    IntRoundTrip(0, rest);
  }
}
