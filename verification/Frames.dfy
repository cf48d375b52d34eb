/** Multiplexed frames: a length in three bytes, a tag in one, then the payload. */
module Frames {
  import opened Bytes

  const MPLEX_BASE: nat := 7
  const MSG_DATA: nat := 0
  const MAX_PAYLOAD: nat := 0xFF_FFFF
  const DATA_CHUNK_SIZE: nat := 32768

  // ---- Parsing ----

  function PayloadLength(s: seq<byte>): (n: nat)
    requires |s| >= 4
  {
    s[0] as int + 0x100 * s[1] as int + 0x1_0000 * s[2] as int
  }

  /** The stream starts with a whole frame. */
  predicate WholeFrame(s: seq<byte>) {
    |s| >= 4 && |s| >= 4 + PayloadLength(s)
  }

  /** What one frame contributes to the data: its payload if it is a data frame. */
  function DataOf(s: seq<byte>): (d: seq<seq<byte>>)
    requires WholeFrame(s)
  {
    if s[3] == MPLEX_BASE + MSG_DATA then [s[4..4 + PayloadLength(s)]] else []
  }

  function AfterFrame(s: seq<byte>): (r: seq<byte>)
    requires WholeFrame(s)
    ensures |r| < |s|
  {
    s[4 + PayloadLength(s)..]
  }

  /** The payloads of all whole data frames at the start of a stream, */
  ghost function Payloads(s: seq<byte>): seq<seq<byte>>
    decreases |s|
  {
    if WholeFrame(s) then DataOf(s) + Payloads(AfterFrame(s)) else []
  }

  /** and the bytes after the last whole frame. */
  ghost function Unparsed(s: seq<byte>): seq<byte>
    decreases |s|
  {
    if WholeFrame(s) then Unparsed(AfterFrame(s)) else s
  }

  lemma FrameOfExtended(a: seq<byte>, b: seq<byte>)
    requires WholeFrame(a)
    ensures WholeFrame(a + b) && DataOf(a + b) == DataOf(a) && AfterFrame(a + b) == AfterFrame(a) + b
  {
    var n := 4 + PayloadLength(a);
    assert (a + b)[4..n] == a[4..n];
    assert (a + b)[n..] == a[n..] + b;
  }

  /** More bytes only continue what was left over. */
  lemma {:induction false} ParseExtended(a: seq<byte>, b: seq<byte>)
    ensures Payloads(a + b) == Payloads(a) + Payloads(Unparsed(a) + b)
    ensures Unparsed(a + b) == Unparsed(Unparsed(a) + b)
    decreases |a|
  {
    if WholeFrame(a) {
      FrameOfExtended(a, b);
      ParseExtended(AfterFrame(a), b);
      assert DataOf(a) + (Payloads(AfterFrame(a)) + Payloads(Unparsed(a) + b))
          == DataOf(a) + Payloads(AfterFrame(a)) + Payloads(Unparsed(a) + b);
    } else {
      assert Payloads(a) == [] && Unparsed(a) == a;
    }
  }

  lemma {:induction false} UnparsedStays(s: seq<byte>)
    ensures Payloads(Unparsed(s)) == [] && Unparsed(Unparsed(s)) == Unparsed(s)
    decreases |s|
  {
    if WholeFrame(s) {
      UnparsedStays(AfterFrame(s));
    }
  }

  // ---- Writing ----

  function Header(code: nat, length: nat): (h: seq<byte>)
    requires code + MPLEX_BASE < 0x100 && length <= MAX_PAYLOAD
    ensures |h| == 4 && PayloadLength(h) == length && h[3] == code + MPLEX_BASE
  {
    [length % 0x100, length / 0x100 % 0x100, length / 0x1_0000, code + MPLEX_BASE]
  }

  function Frame(code: nat, payload: seq<byte>): (f: seq<byte>)
    requires code + MPLEX_BASE < 0x100 && |payload| <= MAX_PAYLOAD
  {
    Header(code, |payload|) + payload
  }

  /** The length is taken in 32 bits, so payloads beyond that are framed by the low bits only. */
  method WriteMessage(wire: seq<byte>, code: nat, payload: seq<byte>) returns (r: Option<seq<byte>>)
    requires code + MPLEX_BASE < 0x100
    ensures var length := |payload| % 0x1_0000_0000;
            r == if length > MAX_PAYLOAD then None else Some(wire + (Header(code, length) + payload))
    ensures |payload| <= MAX_PAYLOAD ==> r == Some(wire + Frame(code, payload))
  {
    var length := |payload| % 0x1_0000_0000;
    if length > MAX_PAYLOAD {
      return None;
    }
    var framed := wire + Header(code, length);
    Assoc(wire, Header(code, length), payload);
    r := Some(framed + payload);
  }

  ghost function DataFrames(data: seq<byte>): seq<byte>
  {
    if data == [] then [] else
    var n := Min(DATA_CHUNK_SIZE, |data|);
    Frame(MSG_DATA, data[..n]) + DataFrames(data[n..])
  }

  method WriteData(wire: seq<byte>, data: seq<byte>) returns (r: seq<byte>)
    ensures r == wire + DataFrames(data)
  {
    r := wire;
    var rest := data;
    assert wire + DataFrames(data) == r + DataFrames(rest);
    while |rest| > 0
      invariant r + DataFrames(rest) == wire + DataFrames(data)
      decreases |rest|
    {
      var n := Min(DATA_CHUNK_SIZE, |rest|);
      var chunk := rest[..n];
      var framed := WriteMessage(r, MSG_DATA, chunk);
      Assoc(r, Frame(MSG_DATA, chunk), DataFrames(rest[n..]));
      r, rest := framed.value, rest[n..];
    }
    assert rest == [];
    assert r + [] == r;
  }

  lemma FrameParsed(code: nat, payload: seq<byte>, rest: seq<byte>)
    requires code + MPLEX_BASE < 0x100 && |payload| <= MAX_PAYLOAD
    ensures var s := Frame(code, payload) + rest;
            WholeFrame(s) && AfterFrame(s) == rest && DataOf(s) == if code == MSG_DATA then [payload] else []
  {
    var s, n := Frame(code, payload) + rest, |payload|;
    assert s[..4] == Header(code, n);
    assert PayloadLength(s) == n;
    assert s[4..4 + n] == payload && s[4 + n..] == rest;
  }

  /** What is written as data comes out as data, whatever is written around it. */
  datatype Write = Data(bytes: seq<byte>) | Control(code: nat, payload: seq<byte>)

  ghost predicate Writable(w: Write) {
    w.Control? ==> w.code != MSG_DATA && w.code + MPLEX_BASE < 0x100 && |w.payload| <= MAX_PAYLOAD
  }

  ghost function WireOf(writes: seq<Write>): seq<byte>
    requires forall k :: 0 <= k < |writes| ==> Writable(writes[k])
  {
    if writes == [] then []
    else WireOfOne(writes[0]) + WireOf(writes[1..])
  }

  ghost function WireOfOne(w: Write): seq<byte>
    requires Writable(w)
  {
    if w.Data? then DataFrames(w.bytes) else Frame(w.code, w.payload)
  }

  ghost function Written(writes: seq<Write>): seq<byte>
  {
    if writes == [] then [] else Carried(writes[0]) + Written(writes[1..])
  }

  lemma DataFrameParsed(chunk: seq<byte>, rest: seq<byte>)
    requires |chunk| <= MAX_PAYLOAD
    ensures Flatten(Payloads(Frame(MSG_DATA, chunk) + rest)) == chunk + Flatten(Payloads(rest))
    ensures Unparsed(Frame(MSG_DATA, chunk) + rest) == Unparsed(rest)
  {
    FrameParsed(MSG_DATA, chunk, rest);
    FlattenAppend([chunk], Payloads(rest));
    assert Flatten([chunk]) == chunk + Flatten([]);
  }

  lemma {:induction false} DataParsed(data: seq<byte>, rest: seq<byte>)
    ensures Flatten(Payloads(DataFrames(data) + rest)) == data + Flatten(Payloads(rest))
    ensures Unparsed(DataFrames(data) + rest) == Unparsed(rest)
    decreases |data|
  {
    if data == [] {
      assert DataFrames(data) + rest == rest;
    } else {
      var n := Min(DATA_CHUNK_SIZE, |data|);
      var chunk, more := data[..n], data[n..];
      Assoc(Frame(MSG_DATA, chunk), DataFrames(more), rest);
      DataParsed(more, rest);
      DataFrameParsed(chunk, DataFrames(more) + rest);
      assert data == chunk + more;
      Assoc(chunk, more, Flatten(Payloads(rest)));
    }
  }

  function Carried(w: Write): seq<byte> {
    if w.Data? then w.bytes else []
  }

  lemma WriteParsed(w: Write, rest: seq<byte>)
    requires Writable(w)
    ensures Flatten(Payloads(WireOfOne(w) + rest)) == Carried(w) + Flatten(Payloads(rest))
    ensures Unparsed(WireOfOne(w) + rest) == Unparsed(rest)
  {
    match w
    case Data(d) =>
      DataParsed(d, rest);
    case Control(code, p) =>
      FrameParsed(code, p, rest);
      assert [] + Payloads(rest) == Payloads(rest) && [] + Flatten(Payloads(rest)) == Flatten(Payloads(rest));
  }

  lemma {:induction false} WrittenParsed(writes: seq<Write>)
    requires forall k :: 0 <= k < |writes| ==> Writable(writes[k])
    ensures Flatten(Payloads(WireOf(writes))) == Written(writes) && Unparsed(WireOf(writes)) == []
  {
    if writes != [] {
      WrittenParsed(writes[1..]);
      WriteParsed(writes[0], WireOf(writes[1..]));
    }
  }

  /** The writer never sends an empty data frame, which a reader could mistake for the end. */
  lemma {:induction false} NoEmptyData(data: seq<byte>, rest: seq<byte>)
    requires [] !in Payloads(rest)
    ensures [] !in Payloads(DataFrames(data) + rest)
    decreases |data|
  {
    if data == [] {
      assert DataFrames(data) + rest == rest;
    } else {
      var n := Min(DATA_CHUNK_SIZE, |data|);
      Assoc(Frame(MSG_DATA, data[..n]), DataFrames(data[n..]), rest);
      NoEmptyData(data[n..], rest);
      FrameParsed(MSG_DATA, data[..n], DataFrames(data[n..]) + rest);
    }
  }

  lemma {:induction false} NoEmptyFrames(writes: seq<Write>)
    requires forall k :: 0 <= k < |writes| ==> Writable(writes[k])
    ensures [] !in Payloads(WireOf(writes))
  {
    if writes != [] {
      NoEmptyFrames(writes[1..]);
      match writes[0]
      case Data(d) => NoEmptyData(d, WireOf(writes[1..]));
      case Control(code, p) => FrameParsed(code, p, WireOf(writes[1..]));
    }
  }
}
