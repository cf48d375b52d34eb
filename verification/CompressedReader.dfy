/** Reading the compressed token stream, and the round trip with the writer, for any codec. */
module CompressedReader {
  import opened Bytes
  import opened DeltaToken
  import opened SumWire
  import opened CompressedTokens
  import opened CompressedWriter

  datatype Phase = Init | Idle | Running

  ghost function TokenSteps(t: Token): seq<Step> {
    match t
    case Data(d) => Literal(d)
    case BlockMatch(i) => [Match(i)]
    case EndOfFile => []
  }

  /** What is still to come of the file for a reader in this state, and the bytes after the file. */
  ghost function ToCome(codec: Codec, phase: Phase, token: int, run: int, fed: seq<seq<byte>>, input: seq<byte>)
    : Option<(seq<Step>, seq<byte>)>
    requires phase == Running ==> run >= 1
  {
    match phase
    case Init => Read(codec, input, Start())
    case Idle => Read(codec, input, Place(token, fed))
    case Running => Prepend(Matches(token + 1, run), Read(codec, input, Place(token + run, fed)))
  }

  ghost predicate BeginsBroken(s: Option<(seq<Step>, seq<byte>)>) {
    s.Some? && s.value.0 != [] && s.value.0[0] == Broken
  }

  /** A token is the next part of what was to come, or the end of it; an error is a refused frame. */
  ghost predicate Took(
    before: Option<(seq<Step>, seq<byte>)>, r: Result<(Token, seq<byte>)>, after: Option<(seq<Step>, seq<byte>)>)
  {
    match r
    case Err(e) => e == Undecodable && BeginsBroken(before)
    case Ok((t, rest)) =>
      if t.EndOfFile? then before == Some(([], rest))
      else TokenSteps(t) != [] && Prepend(TokenSteps(t), after) == before
  }

  /** The first block of a run, for a reader whose last match was `last`. */
  ghost function First(u: Unit, last: int): int
    requires !u.Frame? && !u.Finish?
  {
    if u.Relative? then last + u.r else u.start
  }

  /**
   * A match with a count of further matches, in the relative or the absolute form: its block for a
   * reader whose last match was `last`, the count, which may be zero, and what follows.
   */
  function Counted(input: seq<byte>, last: nat): (r: Option<(nat, nat, seq<byte>)>)
  {
    if input == [] then None
    else if input[0] >= 0xC0 then
      (match ReadCount(input[1..])
       case None => None
       case Some((n, rest)) => Some((last + input[0] as int - 0xC0, n, rest)))
    else if input[0] < 0x40 && input[0] % 2 == 1 then
      match ReadInt(input[1..])
      case None => None
      case Some((start, rest)) =>
        if start < 0 then None
        else match ReadCount(rest) case None => None case Some((n, rest')) => Some((start, n, rest'))
    else None
  }

  class CompressedTokenReader {
    const codec: Codec
    var rxToken: int
    var rxRun: int
    var phase: Phase
    var fed: seq<seq<byte>>

    ghost predicate Valid()
      reads this
    {
      rxToken >= 0
    }

    /** In a run there are matches left; only a run that counts none can break this. */
    ghost predicate Sane()
      reads this
    {
      Valid() && (phase == Running ==> rxRun >= 1)
    }

    ghost function Remaining(input: seq<byte>): Option<(seq<Step>, seq<byte>)>
      requires Sane()
      reads this
    {
      ToCome(codec, phase, rxToken, rxRun, fed, input)
    }

    /** The block that a relative match counts from. */
    ghost function Last(): int
      reads this
    {
      if phase == Init then 0 else rxToken
    }

    constructor (codec: Codec)
      ensures this.codec == codec && Sane() && phase == Init
    {
      this.codec := codec;
      rxToken, rxRun, phase, fed := 0, 0, Init, [];
    }

    method NextInRun(ghost input: seq<byte>) returns (t: Token)
      requires Valid() && phase == Running
      modifies this`rxToken, this`rxRun, this`phase
      ensures Valid() && t == BlockMatch(rxToken) && rxToken == old(rxToken) + 1 && rxRun == old(rxRun) - 1
      ensures phase == if rxRun == 0 then Idle else Running
      ensures old(Sane()) ==> Sane() && Prepend([Match(rxToken)], Remaining(input)) == old(Remaining(input))
    {
      if rxRun >= 1 {
        RunStep(codec, rxToken, rxRun, fed, input);
      }
      rxToken := rxToken + 1;
      rxRun := rxRun - 1;
      if rxRun == 0 {
        phase := Idle;
      }
      t := BlockMatch(rxToken);
    }

    /** A compressed frame; it may not complete any data yet, and the codec may refuse it. */
    method TakeFrame(input: seq<byte>) returns (r: Result<(seq<byte>, seq<byte>)>)
      requires Sane() && phase == Idle && input != [] && 0x40 <= input[0] < 0x80
      modifies this`fed
      ensures match r
              case Ok((d, rest)) => |rest| < |input| && Prepend(Literal(d), Remaining(rest)) == old(Remaining(input))
              case Err(e) => old(Remaining(input)).Some? ==> e == Undecodable && BeginsBroken(old(Remaining(input)))
    {
      if |input| < 2 {
        return Err(EndOfStream);
      }
      var n := (input[0] as int - 0x40) * 0x100 + input[1] as int;
      if |input| < 2 + n {
        return Err(EndOfStream);
      }
      var data, rest := input[2..2 + n], input[2 + n..];
      if n == 0 {
        return Ok(([], rest));
      }
      var decompressed := codec.dec(fed, data + codec.trailer);
      if decompressed.None? {
        return Err(Undecodable);
      }
      fed := fed + [data + codec.trailer];
      r := Ok((decompressed.value, rest));
    }

    /** The count of a run; the reader is then in the run, even if the count is zero. */
    method TakeCount(input: seq<byte>) returns (r: Option<seq<byte>>)
      modifies this`rxRun, this`phase
      ensures match ReadCount(input)
              case None => r == None && phase == old(phase)
              case Some((n, rest)) => r == Some(rest) && phase == Running && rxRun == n
    {
      if |input| < 2 {
        return None;
      }
      rxRun := input[0] as int + 0x100 * input[1] as int;
      phase := Running;
      r := Some(input[2..]);
    }

    /** A block match, the first of a run if a count follows. */
    method TakeMatch(input: seq<byte>) returns (r: Option<seq<byte>>)
      requires Sane() && phase == Idle && input != [] && input[0] != 0 && !(0x40 <= input[0] < 0x80)
      modifies this`rxToken, this`rxRun, this`phase
      ensures match ReadUnit(input)
              case Some((u, rest)) =>
                && r == Some(rest) && !u.Frame? && !u.Finish? && rxToken == First(u, old(rxToken))
                && (if u.n == 0 then phase == Idle else phase == Running && rxRun == u.n)
              case None => true
      ensures match Counted(input, old(rxToken))
              case Some((first, n, rest)) => r == Some(rest) && rxToken == first && phase == Running && rxRun == n
              case None => r.Some? ==> phase == Idle
      ensures r.Some? ==> Valid() && |r.value| < |input|
    {
      var flag, rest := input[0], input[1..];
      var counted: bool;
      if flag >= 0x80 {
        rxToken := rxToken + flag as int % 0x40;
        counted := flag >= 0xC0;
      } else {
        var start := ReadInt(rest);
        if start.None? || start.value.0 < 0 {
          return None;
        }
        rxToken := start.value.0;
        rest := start.value.1;
        counted := flag % 2 == 1;
      }
      if counted {
        r := TakeCount(rest);
      } else {
        r := Some(rest);
      }
    }

    /** The match as a part of what was to come. */
    method ReadMatch(input: seq<byte>) returns (r: Result<(Token, seq<byte>)>)
      requires Sane() && phase == Idle && input != [] && input[0] != 0 && !(0x40 <= input[0] < 0x80)
      modifies this`rxToken, this`rxRun, this`phase
      ensures r.Ok? ==> Valid() && |r.value.1| < |input|
      ensures match Counted(input, old(rxToken))
              case Some((first, n, rest)) =>
                rxToken == first && r == Ok((BlockMatch(first), rest)) && phase == Running && rxRun == n
              case None => r.Ok? ==> phase == Idle
      ensures ReadUnit(input).Some? ==> Sane() && r.Ok?
      ensures old(Remaining(input)).Some? ==> Sane() && r.Ok? && Took(old(Remaining(input)), r, Remaining(r.value.1))
    {
      ghost var last := rxToken;
      var rest := TakeMatch(input);
      if rest.None? {
        return Err(EndOfStream);
      }
      if ReadUnit(input).Some? {
        MatchTaken(codec, input, last, fed, phase, rxToken, rxRun, ReadUnit(input).value.0, rest.value);
      }
      r := Ok((BlockMatch(rxToken), rest.value));
    }

    method Reset(ghost input: seq<byte>)
      requires phase == Init
      modifies this`fed, this`phase, this`rxToken
      ensures Sane() && phase == Idle && rxToken == 0 && Remaining(input) == ToCome(codec, Init, 0, 0, [], input)
    {
      fed := [];
      phase := Idle;
      rxToken := 0;
    }

    /**
     * The next token. On a stream that holds a whole file, for a reader that is in step, tokens
     * spell out exactly what the stream means, the end comes where the file ends, and the only
     * failure is a frame that the codec refuses. In a run nothing is read, and a run is entered
     * whatever its count.
     */
    method RecvToken(input: seq<byte>) returns (r: Result<(Token, seq<byte>)>)
      requires Valid()
      modifies this
      ensures r.Ok? ==> Valid() && |r.value.1| <= |input|
      ensures r.Ok? && old(phase) != Running ==> |r.value.1| < |input|
      ensures old(Sane()) && old(Remaining(input)).Some? ==>
                && (r.Ok? ==> Sane() && (r.value.0 == EndOfFile ==> phase == Init))
                && Took(old(Remaining(input)), r, if r.Ok? then Remaining(r.value.1) else None)
      ensures old(phase) == Running ==>
                && rxToken == old(rxToken) + 1 && r == Ok((BlockMatch(rxToken), input))
                && rxRun == old(rxRun) - 1 && phase == if rxRun == 0 then Idle else Running
      ensures old(phase) != Running && Counted(input, old(Last())).Some? ==>
                var (first, n, rest) := Counted(input, old(Last())).value;
                rxToken == first && r == Ok((BlockMatch(first), rest)) && phase == Running && rxRun == n
    {
      if phase == Running {
        var t := NextInRun(input);
        return Ok((t, input));
      }
      if phase == Init {
        Reset(input);
      }
      r := RecvIdle(input);
    }

    method RecvIdle(input: seq<byte>) returns (r: Result<(Token, seq<byte>)>)
      requires Sane() && phase == Idle
      modifies this
      ensures r.Ok? ==> Valid() && |r.value.1| < |input|
      ensures old(Remaining(input)).Some? ==>
                && (r.Ok? ==> Sane() && (r.value.0 == EndOfFile ==> phase == Init))
                && Took(old(Remaining(input)), r, if r.Ok? then Remaining(r.value.1) else None)
      ensures Counted(input, old(rxToken)).Some? ==>
                var (first, n, rest) := Counted(input, old(rxToken)).value;
                rxToken == first && r == Ok((BlockMatch(first), rest)) && phase == Running && rxRun == n
    {
      var at := input;
      while at != []
        invariant Sane() && phase == Idle && |at| <= |input| && rxToken == old(rxToken)
        invariant at == input || (input != [] && 0x40 <= input[0] < 0x80)
        invariant Remaining(at) == old(Remaining(input))
        decreases |at|
      {
        if 0x40 <= at[0] < 0x80 {
          var frame := TakeFrame(at);
          if frame.Err? {
            return Err(frame.error);
          }
          at := frame.value.1;
          if |frame.value.0| > 0 {
            return Ok((Data(frame.value.0), at));
          }
          PrependNothing(Remaining(at));
        } else if at[0] == 0 {
          phase := Init;
          return Ok((EndOfFile, at[1..]));
        } else {
          r := ReadMatch(at);
          return;
        }
      }
      r := Err(EndOfStream);
    }
  }

  lemma {:induction false} ReadOne(codec: Codec, input: seq<byte>, at: Place, u: Unit, rest: seq<byte>)
    requires ReadUnit(input) == Some((u, rest)) && !u.Finish?
    ensures Read(codec, input, at) == Prepend(UnitMeaning(codec, u, at), Read(codec, rest, UnitAfter(codec, u, at)))
  {
  }

  lemma MatchMeaning(codec: Codec, u: Unit, last: nat, fed: seq<seq<byte>>)
    requires !u.Frame? && !u.Finish?
    ensures UnitMeaning(codec, u, Place(last, fed)) == Matches(First(u, last), u.n + 1)
    ensures UnitAfter(codec, u, Place(last, fed)) == Place(First(u, last) + u.n, fed)
  {
  }

  lemma {:induction false} MatchRead(codec: Codec, input: seq<byte>, last: nat, fed: seq<seq<byte>>, token: int,
                                     u: Unit, rest: seq<byte>)
    requires ReadUnit(input) == Some((u, rest)) && !u.Frame? && !u.Finish? && token == First(u, last)
    ensures Read(codec, input, Place(last, fed))
         == Prepend(Matches(token, u.n + 1), Read(codec, rest, Place(token + u.n, fed)))
  {
    ReadOne(codec, input, Place(last, fed), u, rest);
    MatchMeaning(codec, u, last, fed);
  }

  lemma {:induction false} MatchTaken(codec: Codec, input: seq<byte>, last: nat, fed: seq<seq<byte>>, phase: Phase,
                                      token: int, run: int, u: Unit, rest: seq<byte>)
    requires ReadUnit(input) == Some((u, rest)) && !u.Frame? && !u.Finish?
    requires token == First(u, last) && if u.n == 0 then phase == Idle else phase == Running && run == u.n
    ensures token >= 0 && (phase == Running ==> run >= 1)
    ensures Prepend([Match(token)], ToCome(codec, phase, token, run, fed, rest))
         == ToCome(codec, Idle, last, 0, fed, input)
  {
    MatchRead(codec, input, last, fed, token, u, rest);
    FirstOfRun(codec, phase, token, run, fed, rest, u.n);
  }

  /** The first match of a run, and the run as the reader then stands. */
  lemma {:induction false} FirstOfRun(codec: Codec, phase: Phase, token: int, run: int, fed: seq<seq<byte>>,
                                      rest: seq<byte>, n: nat)
    requires if n == 0 then phase == Idle else phase == Running && run == n
    ensures Prepend([Match(token)], ToCome(codec, phase, token, run, fed, rest))
         == Prepend(Matches(token, n + 1), Read(codec, rest, Place(token + n, fed)))
  {
    RunHead(token, n, Read(codec, rest, Place(token + n, fed)));
  }

  lemma RunHead(first: int, n: nat, more: Option<(seq<Step>, seq<byte>)>)
    ensures Prepend(Matches(first, n + 1), more) == Prepend([Match(first)], Prepend(Matches(first + 1, n), more))
    ensures n == 0 ==> Prepend(Matches(first, n + 1), more) == Prepend([Match(first)], more)
  {
    assert Matches(first, n + 1) == [Match(first)] + Matches(first + 1, n);
    PrependTwice([Match(first)], Matches(first + 1, n), more);
    if n == 0 {
      assert Matches(first, 1) == [Match(first)];
    }
  }

  lemma RunStep(codec: Codec, token: int, run: int, fed: seq<seq<byte>>, input: seq<byte>)
    requires run >= 1
    ensures Prepend([Match(token + 1)],
                    ToCome(codec, if run == 1 then Idle else Running, token + 1, run - 1, fed, input))
         == ToCome(codec, Running, token, run, fed, input)
  {
    RunHead(token + 1, run - 1, Read(codec, input, Place(token + run, fed)));
  }

  // ---- Runs ----

  /**
   * A counted match, and up to `k` further calls while the reader is in its run: it finds one block
   * after the other and reads nothing. It has left the run if and only if the count was positive
   * and there were as many calls; after a count of zero it never does.
   */
  method FollowRun(reader: CompressedTokenReader, input: seq<byte>, k: nat)
    returns (tokens: seq<Token>, left: seq<byte>)
    requires reader.Valid() && reader.phase != Running && Counted(input, reader.Last()).Some?
    modifies reader
    ensures var (first, n, rest) := Counted(input, old(reader.Last())).value;
            && left == rest && |tokens| == 1 + (if n == 0 then k else Min(k, n))
            && (forall i :: 0 <= i < |tokens| ==> tokens[i] == BlockMatch(first + i))
            && (reader.phase != Running <==> 0 < n <= k)
  {
    ghost var (first, n, rest) := Counted(input, reader.Last()).value;
    var r := reader.RecvToken(input);
    tokens, left := [r.value.0], r.value.1;
    while reader.phase == Running && |tokens| <= k
      invariant reader.Valid() && left == rest && 1 <= |tokens| <= k + 1
      invariant reader.rxToken == first + |tokens| - 1 && reader.rxRun == n - (|tokens| - 1)
      invariant n > 0 ==> |tokens| <= n + 1
      invariant reader.phase == if n > 0 && |tokens| == n + 1 then Idle else Running
      invariant forall i :: 0 <= i < |tokens| ==> tokens[i] == BlockMatch(first + i)
      decreases k + 1 - |tokens|
    {
      r := reader.RecvToken(left);
      tokens, left := tokens + [r.value.0], r.value.1;
    }
  }

  // ---- Round trip ----

  ghost function StepsOf(tokens: seq<Token>): seq<Step>
  {
    if tokens == [] then [] else StepsOf(tokens[..|tokens| - 1]) + TokenSteps(tokens[|tokens| - 1])
  }

  lemma StepsOfNext(tokens: seq<Token>, t: Token)
    ensures StepsOf(tokens + [t]) == StepsOf(tokens) + TokenSteps(t)
  {
    assert (tokens + [t])[..|tokens|] == tokens;
  }

  /** The tokens so far and what is still to come make up the file. */
  ghost predicate ReadSoFar(reader: CompressedTokenReader, tokens: seq<Token>, rest: seq<byte>, steps: seq<Step>,
                            left: seq<byte>)
    reads reader
  {
    && reader.Sane() && reader.Remaining(rest).Some? && reader.Remaining(rest).value.1 == left
    && steps == StepsOf(tokens) + reader.Remaining(rest).value.0 && Broken !in StepsOf(tokens)
  }

  lemma TokenUnbroken(t: Token)
    ensures Broken !in TokenSteps(t)
  {
  }

  lemma BrokenAhead(tokens: seq<Token>, steps: seq<Step>, more: seq<Step>)
    requires steps == StepsOf(tokens) + more && more != [] && more[0] == Broken
    ensures Broken in steps
  {
    assert steps[|StepsOf(tokens)|] == Broken;
  }

  /** The next token of a file, its end, or the frame that is refused. */
  method ReadNext(reader: CompressedTokenReader, tokens: seq<Token>, rest: seq<byte>, ghost steps: seq<Step>,
                  ghost left: seq<byte>)
    returns (r: Result<(Token, seq<byte>)>)
    requires ReadSoFar(reader, tokens, rest, steps, left)
    modifies reader
    ensures match r
            case Err(e) => e == Undecodable && Broken in steps
            case Ok((t, rest')) =>
              if t.EndOfFile? then
                rest' == left && steps == StepsOf(tokens) && Broken !in steps && reader.Sane() && reader.phase == Init
              else
                && ReadSoFar(reader, tokens + [t], rest', steps, left)
                && (|rest'| < |rest|
                    || (rest' == rest && old(reader.phase) == Running && reader.rxRun < old(reader.rxRun)))
  {
    r := reader.RecvToken(rest);
    if r.Err? {
      BrokenAhead(tokens, steps, old(reader.Remaining(rest)).value.0);
      return;
    }
    assert StepsOf(tokens) + [] == StepsOf(tokens);
    if !r.value.0.EndOfFile? {
      StepsOfNext(tokens, r.value.0);
      TokenUnbroken(r.value.0);
      Assoc(StepsOf(tokens), TokenSteps(r.value.0), reader.Remaining(r.value.1).value.0);
    }
  }

  /** All tokens of a file that the stream holds, and what follows it. */
  method ReadFile(reader: CompressedTokenReader, input: seq<byte>) returns (r: Result<(seq<Token>, seq<byte>)>)
    requires reader.Sane() && reader.Remaining(input).Some?
    modifies reader
    ensures var (steps, left) := old(reader.Remaining(input)).value;
            if Broken in steps then r == Err(Undecodable)
            else r.Ok? && StepsOf(r.value.0) == steps && r.value.1 == left && reader.Sane() && reader.phase == Init
  {
    ghost var (steps, left) := reader.Remaining(input).value;
    var tokens: seq<Token>, rest := [], input;
    assert StepsOf(tokens) + reader.Remaining(rest).value.0 == steps;
    while true
      invariant ReadSoFar(reader, tokens, rest, steps, left)
      decreases |rest|, if reader.phase == Running then reader.rxRun else 0
    {
      var next := ReadNext(reader, tokens, rest, steps, left);
      if next.Err? {
        return Err(next.error);
      }
      if next.value.0.EndOfFile? {
        return Ok((tokens, next.value.1));
      }
      tokens, rest := tokens + [next.value.0], next.value.1;
    }
  }

  /** Tokens of one file before its end, matches below the largest index. */
  ghost predicate Writable(tokens: seq<Token>) {
    forall k :: 0 <= k < |tokens| ==>
      !tokens[k].EndOfFile? && (tokens[k].BlockMatch? ==> tokens[k].index < MAX_INDEX)
  }

  ghost function Put(o: Outbox, t: Token): Outbox
  {
    match t
    case Data(d) => PutData(o, d)
    case BlockMatch(i) => PutMatch(o, i)
    case EndOfFile => o
  }

  ghost function PutAll(tokens: seq<Token>): Outbox
  {
    if tokens == [] then EmptyBox() else Put(PutAll(tokens[..|tokens| - 1]), tokens[|tokens| - 1])
  }

  /** What is handed to the codec for a file. */
  ghost function SendsOf(tokens: seq<Token>): seq<Send>
  {
    Sealed(PutAll(tokens))
  }

  /** What a reader makes of a file under this codec. */
  ghost function FileMeaning(codec: Codec, tokens: seq<Token>): seq<Step>
  {
    Meaning(codec, Coder([], []), SendsOf(tokens))
  }

  method WriteOne(writer: CompressedTokenWriter, t: Token) returns (out: seq<byte>)
    requires writer.Valid() && !t.EndOfFile? && (t.BlockMatch? ==> t.index < MAX_INDEX)
    modifies writer
    ensures writer.Valid() && writer.Box() == Put(old(writer.Box()), t) && writer.body == old(writer.body) + out
  {
    match t {
      case Data(d) => out := writer.WriteData(d);
      case BlockMatch(i) => out := writer.WriteBlockMatch(i);
    }
  }

  /** The tokens of a file and its end. */
  method WriteFile(writer: CompressedTokenWriter, tokens: seq<Token>) returns (wire: seq<byte>)
    requires writer.BetweenFiles() && Writable(tokens)
    modifies writer
    ensures writer.BetweenFiles() && HoldsFile(writer.codec, wire, FileMeaning(writer.codec, tokens))
  {
    wire := [];
    assert tokens[..0] == [];
    for k := 0 to |tokens|
      invariant writer.Valid() && writer.Box() == PutAll(tokens[..k]) && writer.body == wire
    {
      assert tokens[..k + 1][..k] == tokens[..k];
      var out := WriteOne(writer, tokens[k]);
      wire := wire + out;
    }
    assert tokens[..|tokens|] == tokens;
    var end := writer.WriteEof();
    wire := wire + end;
  }

  /**
   * A file written and read back, with anything after it, by a writer and a reader that may have
   * done other files before: under any codec the reader ends exactly where the file does, with the
   * meaning of what was handed to the codec, or fails on a frame that the codec refuses.
   */
  method RoundTrip(writer: CompressedTokenWriter, reader: CompressedTokenReader, tokens: seq<Token>, rest: seq<byte>)
    returns (r: Result<(seq<Token>, seq<byte>)>)
    requires writer.BetweenFiles() && reader.Sane() && reader.phase == Init && writer.codec == reader.codec
    requires Writable(tokens)
    modifies writer, reader
    ensures writer.BetweenFiles()
    ensures var steps := FileMeaning(writer.codec, tokens);
            if Broken in steps then r == Err(Undecodable)
            else r.Ok? && StepsOf(r.value.0) == steps && r.value.1 == rest && reader.Sane() && reader.phase == Init
  {
    var wire := WriteFile(writer, tokens);
    assert IsFile(writer.codec, wire, FileMeaning(writer.codec, tokens), rest);
    r := ReadFile(reader, wire + rest);
  }
}
