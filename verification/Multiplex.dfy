/**
 * The reading side of a multiplexed connection: bytes arrive in any pieces, whole frames are parsed
 * out of them, and readers with buffers of any size are served the data. The staging buffer, the
 * queue of payloads and the half-served chunk refine a plain line of chunks; on that line nothing
 * is lost, doubled or reordered, whatever the pieces and the buffers.
 */
module Multiplex {
  import opened Bytes
  import opened Frames

  /** How the transport answers a read, if it is asked: with at most `n` of the bytes it holds. */
  datatype Answer = Give(n: nat) | NotReady | Broken

  /** What a poll answers; ready with no bytes is how readers see the end of the stream. */
  datatype Poll = Ready(bytes: seq<byte>) | Pending | Failed

  // ---- The plain line ----

  /** Chunks of data to be served, the beginning of a frame, and the bytes the transport still holds. */
  datatype Line = Line(chunks: seq<seq<byte>>, unparsed: seq<byte>, ahead: seq<byte>)

  /** All data on the line, arrived or not. */
  ghost function Data(l: Line): seq<byte>
  {
    Flatten(l.chunks) + Flatten(Payloads(l.unparsed + l.ahead))
  }

  /** The next bytes come off the transport. */
  ghost function Arrive(l: Line, n: nat): Line
  {
    var k := Min(n, |l.ahead|);
    var come := l.unparsed + l.ahead[..k];
    Line(l.chunks + Payloads(come), Unparsed(come), l.ahead[k..])
  }

  /** As much of the first chunk as there is room for. */
  ghost function Served(l: Line, room: nat): (Line, Poll)
    requires l.chunks != []
  {
    var n := Min(|l.chunks[0]|, room);
    var rest := if n < |l.chunks[0]| then [l.chunks[0][n..]] else [];
    (l.(chunks := rest + l.chunks[1..]), Ready(l.chunks[0][..n]))
  }

  /** The transport is asked only when no chunk is left to serve. */
  ghost function Polled(l: Line, room: nat, answer: Answer): (Line, Poll)
  {
    if room == 0 then (l, Ready([]))
    else if l.chunks != [] then Served(l, room)
    else
      match answer
      case NotReady => (l, Pending)
      case Broken => (l, Failed)
      case Give(n) =>
        if Min(n, |l.ahead|) == 0 then (l, Ready([]))
        else if Arrive(l, n).chunks == [] then (Arrive(l, n), Pending)
        else Served(Arrive(l, n), room)
  }

  /** What can happen to a connection's reading side. */
  datatype Op = DoPoll(room: nat, answer: Answer) | DoFlush(n: nat) | DoParse | DoSplitOrJoin

  ghost function After(l: Line, op: Op): Line
  {
    match op
    case DoPoll(room, answer) => Polled(l, room, answer).0
    case DoFlush(n) => Arrive(l, n)
    case _ => l
  }

  function BytesOf(p: Poll): seq<byte> {
    match p case Ready(bytes) => bytes case _ => []
  }

  ghost function Out(l: Line, op: Op): seq<byte>
  {
    match op case DoPoll(room, answer) => BytesOf(Polled(l, room, answer).1) case _ => []
  }

  ghost function AfterAll(l: Line, ops: seq<Op>): Line
  {
    if ops == [] then l else After(AfterAll(l, ops[..|ops| - 1]), ops[|ops| - 1])
  }

  /** Everything handed out by the polls. */
  ghost function OutAll(l: Line, ops: seq<Op>): seq<byte>
  {
    if ops == [] then []
    else OutAll(l, ops[..|ops| - 1]) + Out(AfterAll(l, ops[..|ops| - 1]), ops[|ops| - 1])
  }

  // ---- Nothing is lost ----

  lemma ArriveKeeps(l: Line, n: nat)
    ensures Data(Arrive(l, n)) == Data(l)
  {
    var k := Min(n, |l.ahead|);
    var come, rest := l.unparsed + l.ahead[..k], l.ahead[k..];
    assert l.unparsed + l.ahead == come + rest;
    ParseExtended(come, rest);
    FlattenAppend(Payloads(come), Payloads(Unparsed(come) + rest));
    FlattenAppend(l.chunks, Payloads(come));
    Assoc(Flatten(l.chunks), Flatten(Payloads(come)), Flatten(Payloads(Unparsed(come) + rest)));
  }

  lemma ServedKeeps(l: Line, room: nat)
    requires l.chunks != []
    ensures BytesOf(Served(l, room).1) + Data(Served(l, room).0) == Data(l)
  {
    var first, more := l.chunks[0], l.chunks[1..];
    var n := Min(|first|, room);
    var rest := if n < |first| then [first[n..]] else [];
    assert Flatten(rest) == first[n..] by {
      assert Flatten([first[n..]]) == first[n..] + Flatten([]);
    }
    FlattenAppend(rest, more);
    assert Flatten(l.chunks) == first + Flatten(more);
    assert first == first[..n] + first[n..];
    Assoc(first[..n], first[n..], Flatten(more));
    Assoc(first[..n], first[n..] + Flatten(more), Flatten(Payloads(l.unparsed + l.ahead)));
  }

  lemma StepKeeps(l: Line, op: Op)
    ensures Out(l, op) + Data(After(l, op)) == Data(l)
  {
    match op
    case DoPoll(room, answer) =>
      if room > 0 && l.chunks != [] {
        ServedKeeps(l, room);
      } else if room > 0 && answer.Give? {
        ArriveKeeps(l, answer.n);
        if Arrive(l, answer.n).chunks != [] {
          ServedKeeps(Arrive(l, answer.n), room);
        }
      }
    case DoFlush(n) => ArriveKeeps(l, n);
    case _ =>
  }

  /** Over every run: what was handed out and what is still on the line are the data of the line. */
  lemma {:induction false} NothingLost(l: Line, ops: seq<Op>)
    ensures OutAll(l, ops) + Data(AfterAll(l, ops)) == Data(l)
  {
    if ops != [] {
      var before, op := ops[..|ops| - 1], ops[|ops| - 1];
      var mid := AfterAll(l, before);
      NothingLost(l, before);
      StepKeeps(mid, op);
      Assoc(OutAll(l, before), Out(mid, op), Data(After(mid, op)));
    }
  }

  /** What a writer framed, read by any run: the bytes handed out are a beginning of the data written. */
  lemma AllWritten(writes: seq<Write>, ops: seq<Op>)
    requires forall k :: 0 <= k < |writes| ==> Writable(writes[k])
    ensures var l := Line([], [], WireOf(writes));
            OutAll(l, ops) + Data(AfterAll(l, ops)) == Written(writes)
  {
    var l := Line([], [], WireOf(writes));
    NothingLost(l, ops);
    WrittenParsed(writes);
    assert [] + WireOf(writes) == WireOf(writes) && [] + Written(writes) == Written(writes);
  }

  // ---- Everything comes ----

  ghost function Length(chunks: seq<seq<byte>>): nat
  {
    if chunks == [] then 0 else 1 + |chunks[0]| + Length(chunks[1..])
  }

  /** What there is still to do on a line: chunks to serve, frames to parse, bytes to take. */
  ghost function Left(l: Line): nat
  {
    Length(l.chunks) + |l.unparsed| + |l.ahead|
  }

  lemma {:induction false} LengthAppend(a: seq<seq<byte>>, b: seq<seq<byte>>)
    ensures Length(a + b) == Length(a) + Length(b)
  {
    if a == [] {
      assert a + b == b;
    } else {
      assert (a + b)[1..] == a[1..] + b;
      LengthAppend(a[1..], b);
    }
  }

  /** A frame is longer than its payload counts. */
  lemma {:induction false} ParsedShorter(s: seq<byte>)
    ensures Length(Payloads(s)) + |Unparsed(s)| <= |s|
    ensures Payloads(s) != [] ==> Length(Payloads(s)) + |Unparsed(s)| < |s|
    decreases |s|
  {
    if WholeFrame(s) {
      ParsedShorter(AfterFrame(s));
      LengthAppend(DataOf(s), Payloads(AfterFrame(s)));
    }
  }

  lemma ArriveShorter(l: Line, n: nat)
    ensures Left(Arrive(l, n)) <= Left(l)
    ensures l.chunks == [] && Arrive(l, n).chunks != [] ==> Left(Arrive(l, n)) < Left(l)
    ensures |Arrive(l, n).ahead| == |l.ahead| - Min(n, |l.ahead|)
  {
    var come := l.unparsed + l.ahead[..Min(n, |l.ahead|)];
    ParsedShorter(come);
    LengthAppend(l.chunks, Payloads(come));
  }

  lemma ServedShorter(l: Line, room: nat)
    requires l.chunks != [] && room > 0
    ensures Left(Served(l, room).0) < Left(l) && Served(l, room).0.ahead == l.ahead
  {
    var n := Min(|l.chunks[0]|, room);
    var rest := if n < |l.chunks[0]| then [l.chunks[0][n..]] else [];
    LengthAppend(rest, l.chunks[1..]);
    assert Length([l.chunks[0][n..]]) == 1 + |l.chunks[0]| - n + Length([]);
  }

  /** A poll with room, answered by a transport that gives something, leaves less to do. */
  lemma PollGoesOn(l: Line, room: nat, n: nat)
    requires room > 0 && n > 0 && (l.chunks != [] || l.ahead != [])
    ensures var l' := Polled(l, room, Give(n)).0;
            Left(l') <= Left(l) && |l'.ahead| <= |l.ahead| && (Left(l') < Left(l) || |l'.ahead| < |l.ahead|)
  {
    if l.chunks != [] {
      ServedShorter(l, room);
    } else {
      ArriveShorter(l, n);
      if Arrive(l, n).chunks != [] {
        ServedShorter(Arrive(l, n), room);
      }
    }
  }

  /** The beginning of a frame alone is no data. */
  ghost predicate Settled(l: Line) {
    Payloads(l.unparsed) == []
  }

  lemma StepSettled(l: Line, op: Op)
    requires Settled(l)
    ensures Settled(After(l, op))
  {
    match op
    case DoPoll(room, Give(n)) => UnparsedStays(l.unparsed + l.ahead[..Min(n, |l.ahead|)]);
    case DoFlush(n) => UnparsedStays(l.unparsed + l.ahead[..Min(n, |l.ahead|)]);
    case _ =>
  }

  /** A poll with room that the transport answers with something, if it is asked. */
  ghost predicate Lively(op: Op) {
    op.DoPoll? && op.room > 0 && op.answer.Give? && op.answer.n > 0
  }

  ghost function LivelyIn(ops: seq<Op>): nat
  {
    if ops == [] then 0 else LivelyIn(ops[..|ops| - 1]) + if Lively(ops[|ops| - 1]) then 1 else 0
  }

  ghost function Todo(l: Line): nat {
    Left(l) + |l.ahead|
  }

  ghost predicate Emptied(l: Line) {
    l.chunks == [] && l.ahead == []
  }

  lemma StepGoesOn(l: Line, op: Op)
    requires Settled(l)
    ensures Todo(After(l, op)) <= Todo(l) && (Lively(op) && !Emptied(l) ==> Todo(After(l, op)) < Todo(l))
    ensures Emptied(l) ==> Emptied(After(l, op))
  {
    if Emptied(l) {
      assert l.unparsed + [] == l.unparsed && l.ahead[..0] == [];
    }
    match op
    case DoPoll(room, answer) =>
      if room > 0 && l.chunks != [] {
        ServedShorter(l, room);
      } else if room > 0 && answer.Give? && answer.n > 0 && l.ahead != [] {
        PollGoesOn(l, room, answer.n);
      }
    case DoFlush(n) => ArriveShorter(l, n);
    case _ =>
  }

  lemma {:induction false} RunGoesOn(l: Line, ops: seq<Op>)
    requires Settled(l)
    ensures Settled(AfterAll(l, ops))
    ensures Emptied(AfterAll(l, ops)) || Todo(AfterAll(l, ops)) + LivelyIn(ops) <= Todo(l)
  {
    if ops != [] {
      var before, op := ops[..|ops| - 1], ops[|ops| - 1];
      RunGoesOn(l, before);
      StepGoesOn(AfterAll(l, before), op);
      StepSettled(AfterAll(l, before), op);
    }
  }

  /**
   * Every run with enough polls of any room, answered by reads of any size, hands out all the data
   * there is, whatever else happens between them.
   */
  lemma AllComes(l: Line, ops: seq<Op>)
    requires Settled(l) && LivelyIn(ops) >= Todo(l)
    ensures OutAll(l, ops) == Data(l) && Emptied(AfterAll(l, ops))
  {
    var end := AfterAll(l, ops);
    RunGoesOn(l, ops);
    assert Emptied(end);
    assert end.unparsed + end.ahead == end.unparsed;
    NothingLost(l, ops);
    assert OutAll(l, ops) + [] == OutAll(l, ops);
  }

  // ---- The end is seen at the end ----

  ghost predicate NoEmptyChunk(l: Line) {
    [] !in l.chunks && [] !in Payloads(l.unparsed + l.ahead)
  }

  lemma ArriveNoEmpty(l: Line, n: nat)
    requires NoEmptyChunk(l)
    ensures NoEmptyChunk(Arrive(l, n))
  {
    var k := Min(n, |l.ahead|);
    var come, rest := l.unparsed + l.ahead[..k], l.ahead[k..];
    assert l.unparsed + l.ahead == come + rest;
    ParseExtended(come, rest);
  }

  lemma StepNoEmpty(l: Line, op: Op)
    requires NoEmptyChunk(l)
    ensures NoEmptyChunk(After(l, op))
  {
    match op
    case DoPoll(_, Give(n)) => ArriveNoEmpty(l, n);
    case DoFlush(n) => ArriveNoEmpty(l, n);
    case _ =>
  }

  lemma {:induction false} RunNoEmpty(l: Line, ops: seq<Op>)
    requires NoEmptyChunk(l)
    ensures NoEmptyChunk(AfterAll(l, ops))
  {
    if ops != [] {
      RunNoEmpty(l, ops[..|ops| - 1]);
      StepNoEmpty(AfterAll(l, ops[..|ops| - 1]), ops[|ops| - 1]);
    }
  }

  lemma ServedSome(l: Line, room: nat)
    requires l.chunks != [] && [] !in l.chunks && room > 0
    ensures Served(l, room).1 != Ready([])
  {
    assert l.chunks[0] in l.chunks;
    assert |l.chunks[0][..Min(|l.chunks[0]|, room)]| > 0;
  }

  lemma PollEnd(l: Line, room: nat, n: nat)
    requires NoEmptyChunk(l) && room > 0 && n > 0
    ensures Polled(l, room, Give(n)).1 == Ready([]) <==> l.chunks == [] && l.ahead == []
  {
    if l.chunks != [] {
      ServedSome(l, room);
    } else {
      ArriveNoEmpty(l, n);
      if Arrive(l, n).chunks != [] {
        ServedSome(Arrive(l, n), room);
      }
    }
  }

  /** After any run over what a writer framed, a poll shows the end exactly when nothing is left to come. */
  lemma EndIsEnd(writes: seq<Write>, ops: seq<Op>, room: nat, n: nat)
    requires forall k :: 0 <= k < |writes| ==> Writable(writes[k])
    requires room > 0 && n > 0
    ensures var l := AfterAll(Line([], [], WireOf(writes)), ops);
            Polled(l, room, Give(n)).1 == Ready([]) <==> l.chunks == [] && l.ahead == []
  {
    var start := Line([], [], WireOf(writes));
    var l := AfterAll(start, ops);
    NoEmptyFrames(writes);
    assert [] + WireOf(writes) == WireOf(writes);
    RunNoEmpty(start, ops);
    PollEnd(l, room, n);
  }

  // ---- The reading side ----

  /** The transport is part of the connection; `ahead` is what it has yet to give. */
  class ReadSide {
    var ahead: seq<byte>
    var staging: seq<byte>
    var readBuf: seq<seq<byte>>
    var current: Option<seq<byte>>
    var offset: nat

    ghost predicate Valid()
      reads this
    {
      current.Some? ==> offset < |current.value|
    }

    /** The plain line that the buffers stand for. */
    ghost function Now(): Line
      requires Valid()
      reads this
    {
      Line((if current.Some? then [current.value[offset..]] else []) + readBuf + Payloads(staging), Unparsed(staging),
           ahead)
    }

    constructor (ahead: seq<byte>)
      ensures Valid() && Now() == Line([], [], ahead)
    {
      this.ahead, staging, readBuf, current, offset := ahead, [], [], None, 0;
    }

    /** Splitting a connection and putting it together again move all that is buffered. */
    constructor From(other: ReadSide)
      requires other.Valid()
      ensures Valid() && Now() == other.Now()
    {
      ahead, staging, readBuf := other.ahead, other.staging, other.readBuf;
      current, offset := other.current, other.offset;
    }

    /** Moves every whole frame out of the staging buffer; what is not data is handled and dropped. */
    method ParseFrames()
      requires Valid()
      modifies this`staging, this`readBuf
      ensures Valid() && Now() == old(Now())
      ensures staging == old(Unparsed(staging)) && readBuf == old(readBuf + Payloads(staging))
      ensures Payloads(staging) == []
    {
      TakeFrames();
      UnparsedStays(old(staging));
      ghost var served := if current.Some? then [current.value[offset..]] else [];
      Assoc(served, old(readBuf), old(Payloads(staging)));
      assert served + readBuf + [] == served + readBuf;
    }

    method TakeFrames()
      modifies this`staging, this`readBuf
      ensures staging == old(Unparsed(staging)) && readBuf == old(readBuf + Payloads(staging))
    {
      while |staging| >= 4
        invariant Unparsed(staging) == old(Unparsed(staging))
        invariant readBuf + Payloads(staging) == old(readBuf + Payloads(staging))
        decreases |staging|
      {
        var length := PayloadLength(staging);
        if |staging| < 4 + length {
          break;
        }
        var payload := staging[4..4 + length];
        if staging[3] == MPLEX_BASE + MSG_DATA {
          Assoc(readBuf, [payload], Payloads(AfterFrame(staging)));
          readBuf := readBuf + [payload];
        } else {
          assert [] + Payloads(AfterFrame(staging)) == Payloads(AfterFrame(staging));
        }
        staging := staging[4 + length..];
      }
    }

    /** Bytes that the transport gives, during a poll or while the write side is being flushed. */
    method Receive(n: nat)
      requires Valid()
      modifies this`ahead, this`staging, this`readBuf
      ensures Valid() && Now() == Arrive(old(Now()), n)
      ensures Payloads(staging) == []
    {
      var k := Min(n, |ahead|);
      ghost var served := if current.Some? then [current.value[offset..]] else [];
      ParseExtended(staging, ahead[..k]);
      Assoc(served + readBuf, Payloads(staging), Payloads(Unparsed(staging) + ahead[..k]));
      staging, ahead := staging + ahead[..k], ahead[k..];
      ParseFrames();
    }

    /** Serves a chunk into a buffer with room for `room` bytes, keeping what does not fit. */
    method ServeChunk(data: seq<byte>, room: nat) returns (bytes: seq<byte>)
      requires current.None? && room > 0
      modifies this`current, this`offset
      ensures bytes == data[..Min(|data|, room)]
      ensures if room < |data| then current.Some? && offset < |current.value| && current.value[offset..] == data[room..]
              else current.None?
    {
      var n := Min(|data|, room);
      bytes := data[..n];
      if n < |data| {
        current, offset := Some(data), n;
      }
    }

    /** The next parsed chunk, if there is one. */
    method ServeNext(room: nat) returns (r: Option<seq<byte>>)
      requires Valid() && current.None? && room > 0 && Payloads(staging) == []
      modifies this`readBuf, this`current, this`offset
      ensures Valid()
      ensures if old(Now()).chunks == [] then r.None? && Now() == old(Now())
              else r.Some? && (Now(), Ready(r.value)) == Served(old(Now()), room)
    {
      assert [] + readBuf + [] == readBuf;
      if |readBuf| == 0 {
        return None;
      }
      var data := readBuf[0];
      readBuf := readBuf[1..];
      var bytes := ServeChunk(data, room);
      ghost var rest := if room < |data| then [data[room..]] else [];
      assert rest + readBuf + [] == rest + readBuf;
      r := Some(bytes);
    }

    /** What is left of the chunk being served. */
    method ServeCurrent(room: nat) returns (bytes: seq<byte>)
      requires Valid() && current.Some? && room > 0
      modifies this`current, this`offset
      ensures Valid() && old(Now()).chunks != [] && (Now(), Ready(bytes)) == Served(old(Now()), room)
    {
      var data := current.value;
      var n := Min(|data| - offset, room);
      bytes := data[offset..offset + n];
      ghost var first, more := data[offset..], readBuf + Payloads(staging);
      assert [first] + readBuf + Payloads(staging) == [first] + more;
      assert ([first] + more)[1..] == more;
      assert first[..n] == bytes && first[n..] == data[offset + n..];
      offset := offset + n;
      if offset >= |data| {
        current, offset := None, 0;
        assert [] + readBuf + Payloads(staging) == [] + more;
      } else {
        assert [data[offset..]] + readBuf + Payloads(staging) == [data[offset..]] + more;
      }
    }

    /** No data are left to serve. */
    ghost predicate Drained()
      reads this
    {
      current.None? && readBuf == [] && Payloads(staging) == []
    }

    /** The bytes that the transport hands over complete no data frame. */
    ghost predicate NothingYet(n: nat)
      reads this
    {
      Min(n, |ahead|) > 0 && Payloads(staging + ahead[..Min(n, |ahead|)]) == []
    }

    /** The data next in line, what has just arrived included. */
    ghost function Upcoming(answer: Answer): seq<byte>
      reads this
    {
      var arrived := if answer.Give? && Drained() then ahead[..Min(answer.n, |ahead|)] else [];
      var parsed := readBuf + Payloads(staging + arrived);
      if current.Some? && offset <= |current.value| then current.value[offset..]
      else if parsed != [] then parsed[0] else []
    }

    /**
     * One poll of a reader with room for `room` bytes. It fails exactly if there is room, nothing is
     * left to serve and the transport is broken; it has to wait exactly if there is room, nothing is
     * left to serve and the transport is not ready or completes no data frame; both leave all that
     * is buffered as it was. Otherwise it hands out as much of the next data as there is room for.
     */
    method PollRead(room: nat, answer: Answer) returns (p: Poll)
      requires Valid()
      modifies this
      ensures Valid() && (Now(), p) == Polled(old(Now()), room, answer)
      ensures p == Failed <==> room > 0 && old(Drained()) && answer == Broken
      ensures p == Pending <==>
                room > 0 && old(Drained()) && (answer == NotReady || (answer.Give? && old(NothingYet(answer.n))))
      ensures p.Ready? ==> p.bytes == old(Upcoming(answer))[..Min(|old(Upcoming(answer))|, room)]
      ensures room > 0 && old(Drained()) && !answer.Give? ==>
                Drained() && ahead == old(ahead) && staging == old(Unparsed(staging))
    {
      PolledPlainly(room, answer);
      if room == 0 {
        return Ready([]);
      }
      if current.Some? {
        var bytes := ServeCurrent(room);
        return Ready(bytes);
      }
      ParseFrames();
      var next := ServeNext(room);
      if next.Some? {
        return Ready(next.value);
      }
      p := ReadMore(room, answer);
    }

    /** The chunks of the plain line, seen through the buffers. */
    lemma ChunksPlainly()
      requires Valid()
      ensures Drained() <==> Now().chunks == []
      ensures current.Some? ==> Now().chunks[0] == current.value[offset..]
      ensures current.None? ==> Now().chunks == readBuf + Payloads(staging)
    {
      assert [] + readBuf == readBuf;
    }

    lemma ArrivalPlainly(n: nat)
      requires Valid() && Drained()
      ensures Arrive(Now(), n).chunks == Payloads(staging + ahead[..Min(n, |ahead|)])
    {
      var arrived := ahead[..Min(n, |ahead|)];
      ChunksPlainly();
      ParseExtended(staging, arrived);
      assert [] + Payloads(Unparsed(staging) + arrived) == Payloads(Unparsed(staging) + arrived);
    }

    lemma PolledPlainly(room: nat, answer: Answer)
      requires Valid()
      ensures var p := Polled(Now(), room, answer).1;
              && (p == Failed <==> room > 0 && Drained() && answer == Broken)
              && (p == Pending <==>
                    room > 0 && Drained() && (answer == NotReady || (answer.Give? && NothingYet(answer.n))))
              && (p.Ready? ==> p.bytes == Upcoming(answer)[..Min(|Upcoming(answer)|, room)])
    {
      ChunksPlainly();
      assert staging + [] == staging;
      if Drained() && answer.Give? {
        ArrivalPlainly(answer.n);
        assert readBuf + Payloads(staging + ahead[..Min(answer.n, |ahead|)])
            == Payloads(staging + ahead[..Min(answer.n, |ahead|)]);
      }
    }

    /** The transport's turn, when nothing parsed is left. */
    method ReadMore(room: nat, answer: Answer) returns (p: Poll)
      requires Valid() && current.None? && room > 0 && Now().chunks == []
      modifies this
      ensures !answer.Give? ==> unchanged(this)
      ensures Valid() && (Now(), p) == Polled(old(Now()), room, answer)
    {
      match answer {
        case NotReady => p := Pending;
        case Broken => p := Failed;
        case Give(n) =>
          if Min(n, |ahead|) == 0 {
            return Ready([]);
          }
          Receive(n);
          var next := ServeNext(room);
          p := if next.Some? then Ready(next.value) else Pending;
      }
    }
  }

  /** `into_split` and `from_split` move the transport and the buffers to a new owner. */
  method SplitOrJoin(r: ReadSide) returns (moved: ReadSide)
    requires r.Valid()
    ensures fresh(moved) && moved.Valid() && moved.Now() == r.Now()
  {
    moved := new ReadSide.From(r);
  }

  /** One operation on a connection; `out` is what it hands out. */
  method Perform(start: ReadSide, op: Op) returns (r: ReadSide, out: seq<byte>)
    requires start.Valid()
    modifies start
    ensures r == start || fresh(r)
    ensures r.Valid() && r.Now() == After(old(start.Now()), op) && out == Out(old(start.Now()), op)
  {
    r, out := start, [];
    match op {
      case DoPoll(room, answer) =>
        var p := r.PollRead(room, answer);
        out := BytesOf(p);
      case DoFlush(n) =>
        r.ParseFrames();
        r.Receive(n);
      case DoParse =>
        r.ParseFrames();
      case DoSplitOrJoin =>
        r := SplitOrJoin(r);
    }
  }

  /**
   * Any run of operations hands out exactly what the plain line does and leaves its state; so what
   * is handed out, what is buffered and what has not arrived are together all the data.
   */
  method AnyRun(start: ReadSide, ops: seq<Op>) returns (r: ReadSide, out: seq<byte>)
    requires start.Valid()
    modifies start
    ensures r.Valid() && r.Now() == AfterAll(old(start.Now()), ops) && out == OutAll(old(start.Now()), ops)
    ensures out + Data(r.Now()) == Data(old(start.Now()))
  {
    r, out := start, [];
    ghost var l := start.Now();
    for k := 0 to |ops|
      invariant r.Valid() && (r == start || fresh(r))
      invariant r.Now() == AfterAll(l, ops[..k]) && out == OutAll(l, ops[..k])
    {
      assert ops[..k + 1][..k] == ops[..k] && ops[..k + 1][k] == ops[k];
      var more;
      r, more := Perform(r, ops[k]);
      out := out + more;
    }
    assert ops[..|ops|] == ops;
    NothingLost(l, ops);
  }

  /** From a writer through any run of a fresh reader: handed out and still to come are all that was written. */
  method ReadWritten(writes: seq<Write>, wire: seq<byte>, ops: seq<Op>) returns (r: ReadSide, out: seq<byte>)
    requires forall k :: 0 <= k < |writes| ==> Writable(writes[k])
    requires wire == WireOf(writes)
    ensures r.Valid() && out + Data(r.Now()) == Written(writes)
    ensures out == OutAll(Line([], [], wire), ops)
  {
    var start := new ReadSide(wire);
    r, out := AnyRun(start, ops);
    AllWritten(writes, ops);
  }
}
