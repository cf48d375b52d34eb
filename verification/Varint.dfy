/** Variable-length integers and the delta-coded file indices of protocol 30 and later. */
module Varint {
  import opened Bytes

  // ---- varint ----

  /** One to five bytes; the leading ones of the first byte count the bytes that follow it. */
  function WriteVarint(x: u32): (b: seq<byte>)
    ensures 1 <= |b| <= 5
  {
    var le := LittleEndian32(x);
    if x < 0x80 then [x]
    else if x < 0x4000 then [0x80 + x / 0x100, le[0]]
    else if x < 0x20_0000 then [0xC0 + x / 0x1_0000, le[0], le[1]]
    else if x < 0x1000_0000 then [0xE0 + x / 0x100_0000, le[0], le[1], le[2]]
    else [0xF0] + le
  }

  /** Number of bytes after a first byte; above 4 the integer is invalid. */
  function Extra(first: byte): (n: nat) {
    if first < 0x80 then 0
    else if first < 0xC0 then 1
    else if first < 0xE0 then 2
    else if first < 0xF0 then 3
    else if first < 0xF8 then 4
    else if first < 0xFC then 5
    else 6
  }

  /** None when the stream ends inside the integer or the integer is invalid. */
  function ReadVarint(s: seq<byte>): (r: Option<(u32, seq<byte>)>)
    ensures r.Some? ==> |r.value.1| < |s|
  {
    if s == [] then None else
    var extra := Extra(s[0]);
    if extra > 4 || |s| <= extra then None else
    Some((Value(s[..extra + 1]), s[extra + 1..]))
  }

  /** The integer in one to five bytes. */
  function Value(b: seq<byte>): (x: u32)
    requires 1 <= |b| <= 5 && Extra(b[0]) == |b| - 1
  {
    match |b|
    case 1 => b[0] as int
    case 2 => b[1] as int + 0x100 * (b[0] as int % 0x40)
    case 3 => b[1] as int + 0x100 * b[2] as int + 0x1_0000 * (b[0] as int % 0x20)
    case 4 => b[1] as int + 0x100 * b[2] as int + 0x1_0000 * b[3] as int + 0x100_0000 * (b[0] as int % 0x10)
    case _ => FromLittleEndian32(b[1..])
  }

  lemma ValueWritten(x: u32)
    ensures Extra(WriteVarint(x)[0]) == |WriteVarint(x)| - 1 && Value(WriteVarint(x)) == x
  {
    FirstByte(x);
    LittleEndian32RoundTrip(x);
    Digits(x);
    if x >= 0x1000_0000 {
      assert WriteVarint(x)[1..] == LittleEndian32(x);
    }
  }

  lemma VarintRoundTrip(x: u32, rest: seq<byte>)
    ensures ReadVarint(WriteVarint(x) + rest) == Some((x, rest))
  {
    var w := WriteVarint(x);
    ValueWritten(x);
    var s := w + rest;
    assert s[|w|..] == rest && s[..|w|] == w && s[0] == w[0];
  }

  /** The first byte counts the others. */
  lemma FirstByte(x: u32)
    ensures Extra(WriteVarint(x)[0]) == |WriteVarint(x)| - 1
  {
  }

  lemma Digits(x: u32)
    ensures x / 0x100 / 0x100 == x / 0x1_0000 && x / 0x1_0000 / 0x100 == x / 0x100_0000
  {
  }

  // ---- File indices ----

  const NDX_DONE: i32 := -1

  /** The last index written or read on each side of zero. */
  datatype NdxState = NdxState(positive: int, negative: int)

  function InitialNdxState(): NdxState {
    NdxState(-1, 1)
  }

  function Magnitude(ndx: i32): (m: int) {
    if ndx < 0 then -(ndx as int) else ndx
  }

  function Previous(ndx: i32, state: NdxState): int {
    if ndx < 0 then state.negative else state.positive
  }

  function Advanced(ndx: i32, state: NdxState): NdxState {
    if ndx == NDX_DONE then state
    else if ndx < 0 then state.(negative := Magnitude(ndx))
    else state.(positive := Magnitude(ndx))
  }

  /** A difference in one byte, in two, or the magnitude itself in four. */
  function WriteDelta(magnitude: nat, previous: int): (b: seq<byte>)
    requires magnitude < 0x8000_0000
  {
    var diff := magnitude - previous;
    if 0 < diff < 0xFE then [diff]
    else if 0 <= diff <= 0x7FFF then [0xFE, diff / 0x100, diff % 0x100]
    else
      [0xFE, magnitude / 0x100_0000 + 0x80, magnitude % 0x100, magnitude / 0x100 % 0x100,
       magnitude / 0x1_0000 % 0x100]
  }

  function WriteNdx(ndx: i32, state: NdxState): (b: seq<byte>)
    requires ndx > -0x8000_0000
  {
    if ndx == NDX_DONE then [0]
    else (if ndx < 0 then [0xFF] else []) + WriteDelta(Magnitude(ndx), Previous(ndx, state))
  }

  function ReadDelta(s: seq<byte>, previous: int): (r: Option<(int, seq<byte>)>) {
    if s == [] then None
    else if s[0] != 0xFE then Some((previous + s[0] as int, s[1..]))
    else if |s| < 3 then None
    else if s[1] < 0x80 then Some((previous + 0x100 * s[1] as int + s[2] as int, s[3..]))
    else if |s| < 5 then None
    else Some((0x100_0000 * (s[1] as int - 0x80) + 0x1_0000 * s[4] as int + 0x100 * s[3] as int + s[2] as int, s[5..]))
  }

  /** The index, the state after it and the bytes after it. */
  function ReadNdx(s: seq<byte>, state: NdxState): (r: Option<(int, NdxState, seq<byte>)>) {
    if s == [] then None
    else if s[0] == 0 then Some((NDX_DONE as int, state, s[1..]))
    else if s[0] == 0xFF then
      (match ReadDelta(s[1..], state.negative)
       case None => None
       case Some((m, rest)) => Some((-m, state.(negative := m), rest)))
    else
      match ReadDelta(s, state.positive)
      case None => None
      case Some((m, rest)) => Some((m, state.(positive := m), rest))
  }

  lemma DeltaRoundTrip(magnitude: nat, previous: int, rest: seq<byte>)
    requires magnitude < 0x8000_0000
    ensures ReadDelta(WriteDelta(magnitude, previous) + rest, previous) == Some((magnitude, rest))
    ensures WriteDelta(magnitude, previous)[0] != 0 && WriteDelta(magnitude, previous)[0] != 0xFF
  {
    var w := WriteDelta(magnitude, previous);
    assert (w + rest)[|w|..] == rest;
    assert magnitude / 0x100 / 0x100 == magnitude / 0x1_0000;
    assert magnitude / 0x1_0000 / 0x100 == magnitude / 0x100_0000;
  }

  lemma NdxRoundTrip(ndx: i32, state: NdxState, rest: seq<byte>)
    requires ndx > -0x8000_0000
    ensures ReadNdx(WriteNdx(ndx, state) + rest, state) == Some((ndx as int, Advanced(ndx, state), rest))
  {
    var w := WriteNdx(ndx, state);
    if ndx == NDX_DONE {
      assert (w + rest)[1..] == rest;
    } else {
      var d := WriteDelta(Magnitude(ndx), Previous(ndx, state));
      DeltaRoundTrip(Magnitude(ndx), Previous(ndx, state), rest);
      if ndx < 0 {
        assert w + rest == [0xFF] + (d + rest);
      } else {
        assert w == d;
      }
    }
  }

  /** A stream of indices from one writer, each coded against those before it. */
  ghost function WriteNdxs(ndxs: seq<i32>, state: NdxState): seq<byte>
    requires forall k :: 0 <= k < |ndxs| ==> ndxs[k] > -0x8000_0000
  {
    if ndxs == [] then [] else WriteNdx(ndxs[0], state) + WriteNdxs(ndxs[1..], Advanced(ndxs[0], state))
  }

  ghost function ReadNdxs(s: seq<byte>, n: nat, state: NdxState): Option<(seq<int>, seq<byte>)>
  {
    if n == 0 then Some(([], s)) else
    match ReadNdx(s, state)
    case None => None
    case Some((ndx, next, rest)) =>
      match ReadNdxs(rest, n - 1, next)
      case None => None
      case Some((more, end)) => Some(([ndx] + more, end))
  }

  /** Reader and writer that start in the same state stay in step over any stream of indices. */
  lemma {:induction false} NdxsRoundTrip(ndxs: seq<i32>, state: NdxState, rest: seq<byte>)
    requires forall k :: 0 <= k < |ndxs| ==> ndxs[k] > -0x8000_0000
    ensures ReadNdxs(WriteNdxs(ndxs, state) + rest, |ndxs|, state) == Some((ndxs, rest))
  {
    if ndxs == [] {
      assert WriteNdxs(ndxs, state) + rest == rest;
    } else {
      var more := WriteNdxs(ndxs[1..], Advanced(ndxs[0], state));
      assert WriteNdxs(ndxs, state) + rest == WriteNdx(ndxs[0], state) + (more + rest);
      NdxRoundTrip(ndxs[0], state, more + rest);
      NdxsRoundTrip(ndxs[1..], Advanced(ndxs[0], state), rest);
      assert [ndxs[0]] + ndxs[1..] == ndxs;
    }
  }
}
