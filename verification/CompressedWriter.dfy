/** Writing the compressed token stream: literals are held back, runs of matches are collected. */
module CompressedWriter {
  import opened Bytes
  import opened CompressedTokens

  const NO_TOKEN: int := -1
  const DATA_ONLY: int := -2

  /** Followed by `rest`, the bytes are read as `steps` and then as `rest` is read from `at`. */
  ghost predicate ReadsOn(codec: Codec, body: seq<byte>, steps: seq<Step>, at: Place, rest: seq<byte>) {
    Read(codec, body + rest, Start()) == Prepend(steps, Read(codec, rest, at))
  }

  /** The bytes are whole units of a file that mean `steps` and leave a reader at `at`. */
  ghost predicate Holds(codec: Codec, body: seq<byte>, steps: seq<Step>, at: Place) {
    forall rest: seq<byte> :: ReadsOn(codec, body, steps, at, rest)
  }

  /** The bytes are a whole file: read as `steps`, whatever follows. */
  ghost predicate HoldsFile(codec: Codec, bytes: seq<byte>, steps: seq<Step>) {
    forall rest: seq<byte> :: IsFile(codec, bytes, steps, rest)
  }

  ghost predicate IsFile(codec: Codec, bytes: seq<byte>, steps: seq<Step>, rest: seq<byte>) {
    Read(codec, bytes + rest, Start()) == Some((steps, rest))
  }

  lemma NothingHeld(codec: Codec)
    ensures Holds(codec, [], [], Start())
  {
    forall rest: seq<byte>
      ensures ReadsOn(codec, [], [], Start(), rest)
    {
      assert [] + rest == rest;
      PrependNothing(Read(codec, rest, Start()));
    }
  }

  lemma HoldsMore(codec: Codec, body: seq<byte>, steps: seq<Step>, at: Place, bytes: seq<byte>, u: Unit)
    requires Holds(codec, body, steps, at) && Fits(u) && !u.Finish? && bytes == UnitBytes(u)
    ensures Holds(codec, body + bytes, steps + UnitMeaning(codec, u, at), UnitAfter(codec, u, at))
  {
    forall rest: seq<byte>
      ensures ReadsOn(codec, body + bytes, steps + UnitMeaning(codec, u, at), UnitAfter(codec, u, at), rest)
    {
      assert ReadsOn(codec, body, steps, at, bytes + rest);
      UnitRead(u, rest);
      Assoc(body, bytes, rest);
      PrependTwice(steps, UnitMeaning(codec, u, at), Read(codec, rest, UnitAfter(codec, u, at)));
    }
  }

  lemma HoldsAll(codec: Codec, body: seq<byte>, steps: seq<Step>, at: Place)
    requires Holds(codec, body, steps, at)
    ensures HoldsFile(codec, body + [0], steps)
  {
    forall rest: seq<byte>
      ensures IsFile(codec, body + [0], steps, rest)
    {
      assert ReadsOn(codec, body, steps, at, [0] + rest);
      UnitRead(Finish, rest);
      Assoc(body, [0], rest);
      assert steps + [] == steps;
    }
  }

  /** A run near the end of the last one is written relative to it. */
  method RunBytes(codec: Codec, last: nat, start: nat, end: nat, ghost fed: seq<seq<byte>>)
    returns (bytes: seq<byte>, ghost u: Unit)
    requires start <= end <= start + 0xFFFF && start < 0x8000_0000
    ensures Fits(u) && !u.Finish? && bytes == UnitBytes(u)
    ensures UnitMeaning(codec, u, Place(last, fed)) == Matches(start, end - start + 1)
    ensures UnitAfter(codec, u, Place(last, fed)) == Place(end, fed)
  {
    var r, n := start - last, end - start;
    if 0 <= r <= 63 {
      bytes := [(if n == 0 then 0x80 else 0xC0) + r];
      u := Relative(r, n);
    } else {
      bytes := [if n == 0 then 0x20 else 0x21] + WriteInt(start);
      u := Absolute(start, n);
    }
    if n != 0 {
      bytes := bytes + Count(n);
    }
  }

  lemma CutStep(output: seq<byte>, pos: nat, n: nat)
    requires pos < |output| && n == Min(|output| - pos, MAX_DATA_COUNT)
    ensures Cut(output[pos..]) == [output[pos..pos + n]] + Cut(output[pos + n..])
  {
    var rest := output[pos..];
    if |rest| <= MAX_DATA_COUNT {
      assert rest == output[pos..pos + n] && output[pos + n..] == [];
    } else {
      assert rest[..MAX_DATA_COUNT] == output[pos..pos + n] && rest[MAX_DATA_COUNT..] == output[pos + n..];
    }
  }

  lemma FramesStep(codec: Codec, fed: seq<seq<byte>>, frame: seq<byte>, more: seq<seq<byte>>)
    ensures FramesMeaning(codec, fed, [frame] + more)
         == FrameMeaning(codec, fed, frame) + FramesMeaning(codec, FedAfter(codec, fed, frame), more)
    ensures FedByAll(codec, fed, [frame] + more) == FedByAll(codec, FedAfter(codec, fed, frame), more)
  {
    assert ([frame] + more)[1..] == more;
  }

  lemma SendsStep(codec: Codec, at: Coder, send: Send, more: seq<Send>)
    ensures Meaning(codec, at, [send] + more)
         == SendMeaning(codec, at, send) + Meaning(codec, SendAfter(codec, at, send), more)
    ensures After(codec, at, [send] + more) == After(codec, SendAfter(codec, at, send), more)
  {
    assert ([send] + more)[1..] == more;
  }

  /** What is left to send of literal data after `offset` bytes. */
  ghost function ChunksFrom(data: seq<byte>, offset: nat, strip: bool): seq<Send>
    requires offset <= |data|
  {
    if offset == |data| then [] else Chunks(data[offset..], strip)
  }

  lemma ChunksStep(data: seq<byte>, offset: nat, end: nat, strip: bool)
    requires offset < |data| && end == Min(offset + CHUNK_SIZE, |data|)
    ensures ChunksFrom(data, offset, strip)
         == [Chunk(data[offset..end], end == |data| && strip)] + ChunksFrom(data, end, strip)
  {
    var rest := data[offset..];
    if |rest| <= CHUNK_SIZE {
      assert rest == data[offset..end];
    } else {
      assert rest[..CHUNK_SIZE] == data[offset..end] && rest[CHUNK_SIZE..] == data[end..];
    }
  }

  class CompressedTokenWriter {
    const codec: Codec
    var lastToken: int
    var runStart: int
    var lastRunEnd: int
    var flushPending: bool
    var history: seq<seq<byte>>
    var pending: seq<byte>
    /** The bytes of this file so far and what they mean, what the reader's codec has seen, what was sent. */
    ghost var body: seq<byte>
    ghost var written: seq<Step>
    ghost var fed: seq<seq<byte>>
    ghost var sends: seq<Send>

    constructor (codec: Codec)
      ensures this.codec == codec && BetweenFiles()
    {
      this.codec := codec;
      lastToken, runStart, lastRunEnd, flushPending := NO_TOKEN, 0, 0, false;
      history, pending := [], [];
      body, written, fed, sends := [], [], [], [];
      new;
      NothingHeld(codec);
    }

    ghost predicate InRun()
      reads this`lastToken, this`runStart
    {
      0 <= runStart <= lastToken < runStart + 65536 && lastToken < MAX_INDEX
    }

    /** The run being collected. */
    ghost function Run(): seq<Step>
      requires lastToken >= 0 ==> InRun()
      reads this`lastToken, this`runStart
    {
      if lastToken >= 0 then Matches(runStart, lastToken - runStart + 1) else []
    }

    /** Where a reader of the bytes stands: at the end of the last run written. */
    ghost function Here(): Place
      reads this
    {
      if lastToken == NO_TOKEN then Start() else Place(lastRunEnd, fed)
    }

    ghost predicate Indexed(token: int) {
      DATA_ONLY <= token < MAX_INDEX
    }

    ghost predicate Sound()
      reads this
    {
      && Indexed(lastToken) && (lastToken >= 0 ==> InRun()) && (lastToken != NO_TOKEN ==> lastRunEnd >= 0)
      && (lastToken == NO_TOKEN ==> sends == [] && body == [] && written == [])
      && (flushPending ==> lastToken == DATA_ONLY)
      && Holds(codec, body, written, Here())
    }

    /** The bytes mean all that was sent but for the run held back, and the codec has seen just that. */
    ghost predicate Valid()
      reads this
    {
      && Sound()
      && Meaning(codec, Coder([], []), sends) == written + Run()
      && (lastToken != NO_TOKEN ==> After(codec, Coder([], []), sends) == Coder(history, fed))
    }

    ghost function Box(): Outbox
      reads this
    {
      Outbox(sends, pending, flushPending)
    }

    ghost predicate BetweenFiles()
      reads this
    {
      Valid() && Box() == EmptyBox() && lastToken == NO_TOKEN
    }

    /** The collected run as one unit; afterwards the reader's last match is the writer's. */
    method FlushRun(ghost body': seq<byte>, ghost steps: seq<Step>) returns (out: seq<byte>)
      requires Holds(codec, body', steps, Place(lastRunEnd, fed)) && InRun() && lastRunEnd >= 0
      modifies this`lastRunEnd
      ensures Holds(codec, body' + out, steps + Matches(runStart, lastToken - runStart + 1), Place(lastRunEnd, fed))
      ensures lastRunEnd == lastToken
    {
      ghost var run;
      out, run := RunBytes(codec, lastRunEnd, runStart, lastToken, fed);
      HoldsMore(codec, body', steps, Place(lastRunEnd, fed), out, run);
      lastRunEnd := lastToken;
    }

    method PutFrame(data: seq<byte>, ghost body': seq<byte>, ghost steps: seq<Step>, ghost at: Place)
      returns (out: seq<byte>)
      requires 1 <= |data| <= MAX_DATA_COUNT && Holds(codec, body', steps, at)
      ensures Holds(codec, body' + out, steps + FrameMeaning(codec, at.fed, data),
                    Place(at.token, FedAfter(codec, at.fed, data)))
    {
      out := [0x40 + |data| / 0x100, |data| % 0x100] + data;
      HoldsMore(codec, body', steps, at, out, Frame(data));
    }

    /** Compressed bytes in frames of at most `MAX_DATA_COUNT`. */
    method SendFrames(output: seq<byte>, ghost body': seq<byte>, ghost steps: seq<Step>, ghost at: Place)
      returns (out: seq<byte>)
      requires Holds(codec, body', steps, at)
      ensures Holds(codec, body' + out, steps + FramesMeaning(codec, at.fed, Cut(output)),
                    Place(at.token, FedByAll(codec, at.fed, Cut(output))))
    {
      var pos := 0;
      out := [];
      ghost var done: seq<Step>, given := [], at.fed;
      assert body' + [] == body' && steps + [] == steps && output[0..] == output;
      assert done + FramesMeaning(codec, given, Cut(output)) == FramesMeaning(codec, given, Cut(output));
      while pos < |output|
        invariant 0 <= pos <= |output|
        invariant Holds(codec, body' + out, steps + done, Place(at.token, given))
        invariant done + FramesMeaning(codec, given, Cut(output[pos..])) == FramesMeaning(codec, at.fed, Cut(output))
        invariant FedByAll(codec, given, Cut(output[pos..])) == FedByAll(codec, at.fed, Cut(output))
      {
        var n := Min(|output| - pos, MAX_DATA_COUNT);
        var frame := output[pos..pos + n];
        var bytes := PutFrame(frame, body' + out, steps + done, Place(at.token, given));
        CutStep(output, pos, n);
        ghost var meaning, more := FrameMeaning(codec, given, frame), Cut(output[pos + n..]);
        FramesStep(codec, given, frame, more);
        Assoc(body', out, bytes);
        Assoc(steps, done, meaning);
        Assoc(done, meaning, FramesMeaning(codec, FedAfter(codec, given, frame), more));
        out, done, given := out + bytes, done + meaning, FedAfter(codec, given, frame);
        pos := pos + n;
      }
      assert output[pos..] == [] && done + [] == done;
    }

    /** One chunk through the compressor. */
    method SendChunk(chunk: seq<byte>, strip: bool, ghost body': seq<byte>, ghost steps: seq<Step>, ghost token: int)
      returns (out: seq<byte>)
      requires Holds(codec, body', steps, Place(token, fed))
      modifies this`history, this`fed
      ensures Coder(history, fed) == SendAfter(codec, old(Coder(history, fed)), Chunk(chunk, strip))
      ensures Holds(codec, body' + out, steps + SendMeaning(codec, old(Coder(history, fed)), Chunk(chunk, strip)),
                    Place(token, fed))
    {
      var output := codec.enc(history, chunk);
      if strip {
        output := Strip(output, codec.trailer);
      }
      out := SendFrames(output, body', steps, Place(token, fed));
      fed := FedByAll(codec, fed, Cut(output));
      history := history + [chunk];
    }

    /** Literal data in chunks; without data, an empty chunk to flush the compressor. */
    method CompressAndSend(data: seq<byte>, flush: bool, ghost body': seq<byte>, ghost steps: seq<Step>,
                           ghost token: int)
      returns (out: seq<byte>)
      requires Holds(codec, body', steps, Place(token, fed)) && (|data| > 0 || flushPending)
      modifies this`history, this`fed
      ensures Coder(history, fed) == After(codec, old(Coder(history, fed)), Chunks(data, flush))
      ensures Holds(codec, body' + out, steps + Meaning(codec, old(Coder(history, fed)), Chunks(data, flush)),
                    Place(token, fed))
    {
      if |data| == 0 {
        MeaningOne(codec, Coder(history, fed), Chunk(data, flush));
        out := SendChunk(data, flush, body', steps, token);
        return;
      }
      var offset := 0;
      out := [];
      ghost var done: seq<Step> := [];
      assert body' + [] == body' && steps + [] == steps && data[0..] == data;
      assert done + Meaning(codec, Coder(history, fed), Chunks(data, flush))
          == Meaning(codec, Coder(history, fed), Chunks(data, flush));
      while offset < |data|
        invariant 0 <= offset <= |data|
        invariant Holds(codec, body' + out, steps + done, Place(token, fed))
        invariant done + Meaning(codec, Coder(history, fed), ChunksFrom(data, offset, flush))
               == Meaning(codec, old(Coder(history, fed)), Chunks(data, flush))
        invariant After(codec, Coder(history, fed), ChunksFrom(data, offset, flush))
               == After(codec, old(Coder(history, fed)), Chunks(data, flush))
      {
        var end := Min(offset + CHUNK_SIZE, |data|);
        var strip := end == |data| && flush;
        ghost var at, send, more := Coder(history, fed), Chunk(data[offset..end], strip), ChunksFrom(data, end, flush);
        ChunksStep(data, offset, end, flush);
        SendsStep(codec, at, send, more);
        var bytes := SendChunk(data[offset..end], strip, body' + out, steps + done, token);
        Assoc(body', out, bytes);
        Assoc(steps, done, SendMeaning(codec, at, send));
        Assoc(done, SendMeaning(codec, at, send), Meaning(codec, Coder(history, fed), more));
        out, done := out + bytes, done + SendMeaning(codec, at, send);
        offset := end;
      }
      assert done + [] == done;
    }

    /** A new file, or the end of a run that this token does not continue. */
    method BeginToken(data: seq<byte>, token: int)
      returns (out: seq<byte>, ghost begun: seq<Step>, ghost continues: bool)
      requires Sound() && Indexed(token)
      modifies this`lastRunEnd, this`runStart, this`flushPending, this`history, this`fed
      ensures lastRunEnd >= 0 && flushPending == old(flushPending)
      ensures Coder(history, fed) == if lastToken == NO_TOKEN then Coder([], []) else old(Coder(history, fed))
      ensures Holds(codec, body + out, begun, Place(lastRunEnd, fed))
      ensures continues ==>
                && data == [] && token == lastToken + 1 && 0 <= runStart <= lastToken && token < runStart + 65536
                && begun == written && runStart == old(runStart)
      ensures !continues ==> begun == written + old(Run()) && runStart == token
    {
      out, begun, continues := [], written, false;
      assert written + [] == written && body + [] == body;
      if lastToken == NO_TOKEN {
        history, fed := [], [];
        lastRunEnd := 0;
        runStart := token;
        flushPending := false;
      } else if lastToken == DATA_ONLY {
        runStart := token;
      } else if |data| > 0 || token != lastToken + 1 || token >= runStart + 65536 {
        out := FlushRun(body, written);
        begun := written + Run();
        runStart := token;
      } else {
        continues := true;
      }
    }

    method SendLiteral(data: seq<byte>, flush: bool, ghost body': seq<byte>, ghost steps: seq<Step>)
      returns (out: seq<byte>)
      requires Holds(codec, body', steps, Place(lastRunEnd, fed))
      modifies this`history, this`fed, this`flushPending
      ensures var sent := if data == [] && !old(flushPending) then [] else Chunks(data, flush);
              && flushPending == (sent != [] && !flush)
              && Coder(history, fed) == After(codec, old(Coder(history, fed)), sent)
              && Holds(codec, body' + out, steps + Meaning(codec, old(Coder(history, fed)), sent),
                       Place(lastRunEnd, fed))
    {
      out := [];
      if |data| > 0 || flushPending {
        out := CompressAndSend(data, flush, body', steps, lastRunEnd);
        flushPending := !flush;
      } else {
        assert steps + [] == steps && body' + [] == body';
      }
    }

    /** What a token sends of the data before it. */
    ghost function Sent(data: seq<byte>, flush: bool): seq<Send>
      reads this`flushPending
    {
      if data == [] && !flushPending then [] else Chunks(data, flush)
    }

    /** The end of a run or nothing, then the literal data; the token itself is held back. */
    method Emit(data: seq<byte>, token: int, ghost sent: seq<Send>)
      returns (out: seq<byte>, ghost begun: seq<Step>, ghost continues: bool, ghost at: Coder)
      requires Sound() && Indexed(token) && sent == Sent(data, token != DATA_ONLY)
      modifies this`lastRunEnd, this`runStart, this`flushPending, this`history, this`fed, this`lastToken
      ensures lastToken == token && lastRunEnd >= 0 && flushPending == (sent != [] && token == DATA_ONLY)
      ensures at == (if old(lastToken) == NO_TOKEN then Coder([], []) else old(Coder(history, fed)))
      ensures Coder(history, fed) == After(codec, at, sent)
      ensures Holds(codec, body + out, begun + Meaning(codec, at, sent), Place(lastRunEnd, fed))
      ensures continues ==>
                && sent == [] && token == old(lastToken) + 1 && 0 <= runStart <= old(lastToken)
                && token < runStart + 65536 && begun == written && runStart == old(runStart)
      ensures !continues ==> begun == written + old(Run()) && runStart == token
    {
      out, begun, continues := BeginToken(data, token);
      at := Coder(history, fed);
      lastToken := token;
      var bytes := SendLiteral(data, token != DATA_ONLY, body + out, begun);
      Assoc(body, out, bytes);
      out := out + bytes;
    }

    method SendToken(data: seq<byte>, token: int) returns (out: seq<byte>)
      requires Valid() && Indexed(token)
      modifies this`lastRunEnd, this`runStart, this`flushPending, this`history, this`fed, this`lastToken, this`body,
               this`written, this`sends
      ensures lastToken == token && lastRunEnd >= 0 && (token >= 0 ==> InRun())
      ensures flushPending == (old(Sent(data, token != DATA_ONLY)) != [] && token == DATA_ONLY)
      ensures body == old(body) + out && Holds(codec, body, written, Place(lastRunEnd, fed))
      ensures sends == old(sends) + old(Sent(data, token != DATA_ONLY)) + TokenSends(token)
      ensures After(codec, Coder([], []), sends) == Coder(history, fed)
      ensures Meaning(codec, Coder([], []), sends) == written + Run()
    {
      ghost var run, last, sent := Run(), lastToken, Sent(data, token != DATA_ONLY);
      ghost var begun, continues, at;
      out, begun, continues, at := Emit(data, token, sent);
      AccountSends(codec, sends, at, sent, token, written + run);
      AccountRun(written, run, Meaning(codec, at, sent), last, runStart, token, continues);
      body, written, sends := body + out, begun + Meaning(codec, at, sent), sends + sent + TokenSends(token);
    }

    /** Literal data waits for the token after it; data that waited already goes first. */
    method WriteData(data: seq<byte>) returns (out: seq<byte>)
      requires Valid()
      modifies this
      ensures Valid() && Box() == PutData(old(Box()), data) && body == old(body) + out
    {
      if |pending| == 0 {
        pending := data;
        out := [];
        assert old(body) + [] == old(body);
      } else {
        var before := pending;
        pending := data;
        out := SendToken(before, DATA_ONLY);
        assert sends == old(sends) + Chunks(before, false) + [];
      }
    }

    method WriteBlockMatch(index: nat) returns (out: seq<byte>)
      requires Valid() && index < MAX_INDEX
      modifies this
      ensures Valid() && Box() == PutMatch(old(Box()), index) && body == old(body) + out
    {
      var before := pending;
      pending := [];
      out := SendToken(before, index);
      assert old(sends) + [] == old(sends);
    }

    /** At the end of a file nothing is held back: what was written is the whole file. */
    method WriteEof() returns (out: seq<byte>)
      requires Valid()
      modifies this
      ensures BetweenFiles()
      ensures HoldsFile(codec, old(body) + out, Meaning(codec, Coder([], []), Sealed(old(Box()))))
    {
      var before := pending;
      pending := [];
      out := SendToken(before, NO_TOKEN);
      assert written + [] == written;
      assert sends == Sealed(old(Box())) by {
        assert old(sends) + [] == old(sends);
        assert old(sends) + old(Sent(before, true)) + [] == old(sends) + old(Sent(before, true));
      }
      HoldsAll(codec, body, written, Place(lastRunEnd, fed));
      Assoc(old(body), out, [0]);
      out := out + [0];
      body, written, sends := [], [], [];
      NothingHeld(codec);
    }
  }

  ghost function TokenSends(token: int): seq<Send> {
    if token >= 0 then [Hit(token)] else []
  }

  lemma AccountSends(codec: Codec, sends: seq<Send>, at: Coder, sent: seq<Send>, token: int, before: seq<Step>)
    requires After(codec, Coder([], []), sends) == at && Meaning(codec, Coder([], []), sends) == before
    ensures After(codec, Coder([], []), sends + sent + TokenSends(token)) == After(codec, at, sent)
    ensures Meaning(codec, Coder([], []), sends + sent + TokenSends(token))
         == before + Meaning(codec, at, sent) + if token >= 0 then [Match(token)] else []
  {
    MeaningAppend(codec, Coder([], []), sends, sent);
    MeaningAppend(codec, Coder([], []), sends + sent, TokenSends(token));
    if token >= 0 {
      MeaningOne(codec, After(codec, at, sent), Hit(token));
    }
  }

  /** A continued run grows by the token; otherwise the run comes first, then the data, then the token. */
  lemma AccountRun(written: seq<Step>, run: seq<Step>, literal: seq<Step>, last: int, start: int, token: int,
                   continues: bool)
    requires token >= DATA_ONLY
    requires continues ==>
              literal == [] && token == last + 1 && 0 <= start <= last && run == Matches(start, last - start + 1)
    requires !continues ==> start == token
    ensures written + run + literal + (if token >= 0 then [Match(token)] else [])
         == (if continues then written else written + run) + literal
            + if token >= 0 then Matches(start, token - start + 1) else []
  {
    if continues {
      assert Matches(start, token - start + 1) == run + [Match(token)];
    } else if token >= 0 {
      assert Matches(token, 1) == [Match(token)];
    }
  }
}
