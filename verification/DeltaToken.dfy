/** The tokens a delta is transferred as, plain or compressed. */
module DeltaToken {
  import opened Bytes

  datatype Token = Data(data: seq<byte>) | BlockMatch(index: nat) | EndOfFile
}
