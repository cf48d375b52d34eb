/**
 * The compressed token stream: literal data in compressed frames, runs of consecutive block
 * matches in one unit each. This module says what a stream of units means to a reader, for any
 * codec at all.
 */
module CompressedTokens {
  import opened Bytes

  const MAX_DATA_COUNT: nat := 16383
  const CHUNK_SIZE: nat := 32768
  /** Block indices beyond this would overflow the run arithmetic. */
  const MAX_INDEX: nat := 0x8000_0000 - 65536

  /**
   * Both ends of a compressor: `enc` gives the bytes for the next chunk after the chunks compressed
   * before it, `dec` what the next input decompresses to after the inputs before it, or an error.
   * The writer cuts `trailer` off flushed chunks, the reader adds it to every frame.
   */
  datatype Codec = Codec(
    enc: (seq<seq<byte>>, seq<byte>) -> seq<byte>,
    dec: (seq<seq<byte>>, seq<byte>) -> Option<seq<byte>>,
    trailer: seq<byte>)

  // ---- Units ----

  /** `n` counts the matches of a run after its first. */
  datatype Unit =
    | Frame(data: seq<byte>)
    | Relative(r: nat, n: nat)
    | Absolute(start: nat, n: nat)
    | Finish

  ghost predicate Fits(u: Unit) {
    match u
    case Frame(data) => 1 <= |data| <= MAX_DATA_COUNT
    case Relative(r, n) => r <= 63 && n <= 0xFFFF
    case Absolute(start, n) => start < 0x8000_0000 && n <= 0xFFFF
    case Finish => true
  }

  function Count(n: nat): (b: seq<byte>)
    requires n <= 0xFFFF
  {
    [n % 0x100, n / 0x100]
  }

  ghost function UnitBytes(u: Unit): seq<byte>
    requires Fits(u)
  {
    match u
    case Frame(data) => [0x40 + |data| / 0x100, |data| % 0x100] + data
    case Relative(r, n) => if n == 0 then [0x80 + r] else [0xC0 + r] + Count(n)
    case Absolute(start, n) => if n == 0 then [0x20] + WriteInt(start) else [0x21] + WriteInt(start) + Count(n)
    case Finish => [0]
  }

  /**
   * The next unit of a stream as the reader takes it apart; None where the stream ends or makes no
   * sense: a negative block, or a run that counts no further matches.
   */
  function ReadUnit(s: seq<byte>): (r: Option<(Unit, seq<byte>)>)
    ensures r.Some? ==> |r.value.1| < |s|
  {
    if s == [] then None
    else if s[0] == 0 then Some((Finish, s[1..]))
    else if 0x40 <= s[0] < 0x80 then
      if |s| < 2 then None else
      var n := (s[0] as int - 0x40) * 0x100 + s[1] as int;
      if |s| < 2 + n then None else Some((Frame(s[2..2 + n]), s[2 + n..]))
    else if s[0] >= 0x80 then
      if s[0] < 0xC0 then Some((Relative(s[0] as int - 0x80, 0), s[1..]))
      else
        (match ReadCount(s[1..])
         case None => None
         case Some((n, rest)) => if n == 0 then None else Some((Relative(s[0] as int - 0xC0, n), rest)))
    else
      match ReadInt(s[1..])
      case None => None
      case Some((start, rest)) =>
        if start < 0 then None
        else if s[0] % 2 == 0 then Some((Absolute(start, 0), rest))
        else
          match ReadCount(rest)
          case None => None
          case Some((n, rest')) => if n == 0 then None else Some((Absolute(start, n), rest'))
  }

  function ReadCount(s: seq<byte>): (r: Option<(nat, seq<byte>)>)
    ensures r.Some? ==> |s| >= 2 && r.value.1 == s[2..]
  {
    if |s| < 2 then None else Some((s[0] as int + 0x100 * s[1] as int, s[2..]))
  }

  lemma CountRead(n: nat, rest: seq<byte>)
    requires n <= 0xFFFF
    ensures ReadCount(Count(n) + rest) == Some((n, rest))
  {
    assert (Count(n) + rest)[2..] == rest;
  }

  lemma FrameRead(data: seq<byte>, rest: seq<byte>)
    requires |data| <= MAX_DATA_COUNT
    ensures ReadUnit([0x40 + |data| / 0x100, |data| % 0x100] + data + rest) == Some((Frame(data), rest))
  {
    var s, n := [0x40 + |data| / 0x100, |data| % 0x100] + data + rest, |data|;
    assert s[2..2 + n] == data && s[2 + n..] == rest;
  }

  lemma RelativeRead(r: nat, n: nat, rest: seq<byte>)
    requires r <= 63 && n <= 0xFFFF
    ensures ReadUnit(UnitBytes(Relative(r, n)) + rest) == Some((Relative(r, n), rest))
  {
    var s := UnitBytes(Relative(r, n)) + rest;
    if n == 0 {
      assert s[1..] == rest;
    } else {
      assert s[1..] == Count(n) + rest;
      CountRead(n, rest);
    }
  }

  lemma AbsoluteRead(start: nat, n: nat, rest: seq<byte>)
    requires start < 0x8000_0000 && n <= 0xFFFF
    ensures ReadUnit(UnitBytes(Absolute(start, n)) + rest) == Some((Absolute(start, n), rest))
  {
    var s := UnitBytes(Absolute(start, n)) + rest;
    var count := if n == 0 then [] else Count(n);
    assert s[1..] == WriteInt(start) + (count + rest);
    IntRoundTrip(start, count + rest);
    if n == 0 {
      assert count + rest == rest;
    } else {
      CountRead(n, rest);
    }
  }

  lemma UnitRead(u: Unit, rest: seq<byte>)
    requires Fits(u)
    ensures ReadUnit(UnitBytes(u) + rest) == Some((u, rest))
  {
    match u
    case Frame(data) => FrameRead(data, rest);
    case Relative(r, n) => RelativeRead(r, n, rest);
    case Absolute(start, n) => AbsoluteRead(start, n, rest);
    case Finish => assert ([0] + rest)[1..] == rest;
  }

  // ---- Meaning ----

  /** A file's content in the smallest steps: a literal byte, a matched block, a frame the codec refuses. */
  datatype Step = Byte(b: byte) | Match(i: int) | Broken

  ghost function Literal(d: seq<byte>): (s: seq<Step>)
    ensures |s| == |d|
  {
    seq(|d|, k requires 0 <= k < |d| => Byte(d[k]))
  }

  /** `n` consecutive matches. */
  ghost function Matches(start: int, n: nat): (s: seq<Step>)
    ensures |s| == n
  {
    seq(n, k => Match(start + k))
  }

  lemma LiteralAppend(a: seq<byte>, b: seq<byte>)
    ensures Literal(a + b) == Literal(a) + Literal(b)
  {
  }

  /** Where a reader stands: the last match, and what the decompressor has been given of this file. */
  datatype Place = Place(token: int, fed: seq<seq<byte>>)

  ghost function Start(): Place {
    Place(0, [])
  }

  ghost function FrameMeaning(codec: Codec, fed: seq<seq<byte>>, data: seq<byte>): seq<Step>
  {
    if data == [] then []
    else match codec.dec(fed, data + codec.trailer) case None => [Broken] case Some(d) => Literal(d)
  }

  /** What the decompressor has been given after a frame; an empty one is skipped. */
  function FedAfter(codec: Codec, fed: seq<seq<byte>>, data: seq<byte>): seq<seq<byte>>
  {
    if data == [] then fed else fed + [data + codec.trailer]
  }

  ghost function UnitMeaning(codec: Codec, u: Unit, at: Place): seq<Step>
    requires !u.Finish?
  {
    match u
    case Frame(data) => FrameMeaning(codec, at.fed, data)
    case Relative(r, n) => Matches(at.token + r, n + 1)
    case Absolute(start, n) => Matches(start, n + 1)
  }

  ghost function UnitAfter(codec: Codec, u: Unit, at: Place): Place
    requires !u.Finish?
  {
    match u
    case Frame(data) => at.(fed := FedAfter(codec, at.fed, data))
    case Relative(r, n) => at.(token := at.token + r + n)
    case Absolute(start, n) => at.(token := start + n)
  }

  /** `steps` before what else is read. */
  ghost function Prepend(steps: seq<Step>, r: Option<(seq<Step>, seq<byte>)>): Option<(seq<Step>, seq<byte>)>
  {
    match r case None => None case Some((more, left)) => Some((steps + more, left))
  }

  /** The rest of a file for a reader that stands at `at`, and the bytes after it. */
  ghost function Read(codec: Codec, s: seq<byte>, at: Place): Option<(seq<Step>, seq<byte>)>
    decreases |s|
  {
    match ReadUnit(s)
    case None => None
    case Some((u, rest)) =>
      if u.Finish? then Some(([], rest))
      else Prepend(UnitMeaning(codec, u, at), Read(codec, rest, UnitAfter(codec, u, at)))
  }

  lemma PrependTwice(a: seq<Step>, b: seq<Step>, r: Option<(seq<Step>, seq<byte>)>)
    ensures Prepend(a, Prepend(b, r)) == Prepend(a + b, r)
  {
    if r.Some? {
      Assoc(a, b, r.value.0);
    }
  }

  lemma PrependNothing(r: Option<(seq<Step>, seq<byte>)>)
    ensures Prepend([], r) == r
  {
    if r.Some? {
      assert [] + r.value.0 == r.value.0;
    }
  }

  // ---- What goes through the codec ----

  /** A chunk for the compressor, with its trailer cut off or not, or a match. */
  datatype Send = Chunk(data: seq<byte>, strip: bool) | Hit(index: nat)

  /** What both ends of the codec have seen of a file. */
  datatype Coder = Coder(history: seq<seq<byte>>, fed: seq<seq<byte>>)

  function Strip(output: seq<byte>, trailer: seq<byte>): (r: seq<byte>)
    ensures r == output || r + trailer == output
  {
    var n := |output| - |trailer|;
    if n >= 0 && output[n..] == trailer then output[..n] else output
  }

  function Output(codec: Codec, history: seq<seq<byte>>, chunk: seq<byte>, strip: bool): seq<byte>
  {
    var output := codec.enc(history, chunk);
    if strip then Strip(output, codec.trailer) else output
  }

  /** Compressed bytes cut into frames. */
  ghost function Cut(output: seq<byte>): seq<seq<byte>>
  {
    if output == [] then []
    else if |output| <= MAX_DATA_COUNT then [output]
    else [output[..MAX_DATA_COUNT]] + Cut(output[MAX_DATA_COUNT..])
  }

  ghost function FramesMeaning(codec: Codec, fed: seq<seq<byte>>, frames: seq<seq<byte>>): seq<Step>
    decreases |frames|
  {
    if frames == [] then []
    else FrameMeaning(codec, fed, frames[0]) + FramesMeaning(codec, FedAfter(codec, fed, frames[0]), frames[1..])
  }

  ghost function FedByAll(codec: Codec, fed: seq<seq<byte>>, frames: seq<seq<byte>>): seq<seq<byte>>
    decreases |frames|
  {
    if frames == [] then fed else FedByAll(codec, FedAfter(codec, fed, frames[0]), frames[1..])
  }

  ghost function Frames(codec: Codec, at: Coder, send: Send): seq<seq<byte>>
    requires send.Chunk?
  {
    Cut(Output(codec, at.history, send.data, send.strip))
  }

  ghost function SendMeaning(codec: Codec, at: Coder, send: Send): seq<Step>
  {
    match send
    case Chunk(_, _) => FramesMeaning(codec, at.fed, Frames(codec, at, send))
    case Hit(i) => [Match(i)]
  }

  ghost function SendAfter(codec: Codec, at: Coder, send: Send): Coder
  {
    match send
    case Chunk(data, _) => Coder(at.history + [data], FedByAll(codec, at.fed, Frames(codec, at, send)))
    case Hit(_) => at
  }

  /** What a reader makes of everything sent from `at` on. */
  ghost function Meaning(codec: Codec, at: Coder, sends: seq<Send>): seq<Step>
    decreases |sends|
  {
    if sends == [] then []
    else SendMeaning(codec, at, sends[0]) + Meaning(codec, SendAfter(codec, at, sends[0]), sends[1..])
  }

  ghost function After(codec: Codec, at: Coder, sends: seq<Send>): Coder
    decreases |sends|
  {
    if sends == [] then at else After(codec, SendAfter(codec, at, sends[0]), sends[1..])
  }

  lemma {:induction false} MeaningAppend(codec: Codec, at: Coder, a: seq<Send>, b: seq<Send>)
    ensures Meaning(codec, at, a + b) == Meaning(codec, at, a) + Meaning(codec, After(codec, at, a), b)
    ensures After(codec, at, a + b) == After(codec, After(codec, at, a), b)
    decreases |a|
  {
    if a == [] {
      assert a + b == b;
    } else {
      var next := SendAfter(codec, at, a[0]);
      assert (a + b)[0] == a[0] && (a + b)[1..] == a[1..] + b;
      MeaningAppend(codec, next, a[1..], b);
      Assoc(SendMeaning(codec, at, a[0]), Meaning(codec, next, a[1..]), Meaning(codec, After(codec, at, a), b));
    }
  }

  lemma {:induction false} MeaningOne(codec: Codec, at: Coder, send: Send)
    ensures Meaning(codec, at, [send]) == SendMeaning(codec, at, send)
    ensures After(codec, at, [send]) == SendAfter(codec, at, send)
  {
    assert [send][1..] == [];
    assert SendMeaning(codec, at, send) + [] == SendMeaning(codec, at, send);
  }

  /** Literal data in chunks; only the last one may be stripped. */
  ghost function Chunks(data: seq<byte>, strip: bool): (r: seq<Send>)
    ensures r != []
  {
    if |data| <= CHUNK_SIZE then [Chunk(data, strip)]
    else [Chunk(data[..CHUNK_SIZE], false)] + Chunks(data[CHUNK_SIZE..], strip)
  }

  // ---- From tokens to what is sent ----

  /** A file on its way out: what was sent, the literal data held back, and whether a flush is due. */
  datatype Outbox = Outbox(sends: seq<Send>, pending: seq<byte>, flush: bool)

  ghost function EmptyBox(): Outbox {
    Outbox([], [], false)
  }

  /** The data held back goes out; not stripped if more data follow. */
  ghost function Posted(o: Outbox, strip: bool): Outbox
  {
    if o.pending == [] && !o.flush then o else Outbox(o.sends + Chunks(o.pending, strip), [], !strip)
  }

  ghost function PutData(o: Outbox, data: seq<byte>): Outbox
  {
    if o.pending == [] then o.(pending := data) else Posted(o, false).(pending := data)
  }

  ghost function PutMatch(o: Outbox, i: nat): Outbox
  {
    Outbox(Posted(o, true).sends + [Hit(i)], [], false)
  }

  /** All that is sent for the file once it is closed. */
  ghost function Sealed(o: Outbox): seq<Send>
  {
    Posted(o, true).sends
  }
}
