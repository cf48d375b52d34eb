/**
 * The streaming matcher: a sliding buffer over a reader that may return short reads, scanned chunk
 * by chunk. Whatever the reads, it computes the function of `StreamScan`.
 */
module Streaming {
  import opened Bytes
  import opened Checksum
  import opened Signatures
  import opened Delta
  import opened Matcher
  import opened StreamScan

  /** A file being read; each read returns an arbitrary non-empty part of what was asked for. */
  class Reader {
    const data: seq<byte>
    var at: nat

    constructor (contents: seq<byte>)
      ensures data == contents && at == 0
    {
      data, at := contents, 0;
    }

    method Read(buf: array<byte>, lo: nat, hi: nat) returns (n: nat)
      requires lo <= hi <= buf.Length && at <= |data|
      modifies this, buf
      ensures n <= hi - lo && at == old(at) + n <= |data|
      ensures n == 0 <==> lo == hi || old(at) == |data|
      ensures forall k :: 0 <= k < buf.Length ==>
                buf[k] == if lo <= k < lo + n then data[old(at) + k - lo] else old(buf[k])
    {
      if lo == hi || at == |data| {
        return 0;
      }
      var most := Min(hi - lo, |data| - at);
      n :| 1 <= n <= most;
      forall k | lo <= k < lo + n {
        buf[k] := data[at + k - lo];
      }
      at := at + n;
    }
  }

  /** The whole-file hash in progress, known by the bytes fed to it. */
  class Hasher {
    var fed: seq<byte>

    constructor ()
      ensures fed == []
    {
      fed := [];
    }

    method Update(data: seq<byte>)
      modifies this
      ensures fed == old(fed) + data
    {
      fed := fed + data;
    }
  }

  /** `read_fill`: reads until the range is full or the file ends. */
  method ReadFill(reader: Reader, buf: array<byte>, lo: nat, hi: nat) returns (total: nat)
    requires lo <= hi <= buf.Length && reader.at <= |reader.data|
    modifies reader, buf
    ensures total == Min(hi - lo, |reader.data| - old(reader.at))
    ensures reader.at == old(reader.at) + total
    ensures forall k :: 0 <= k < buf.Length ==>
              buf[k] == if lo <= k < lo + total then reader.data[old(reader.at) + k - lo] else old(buf[k])
  {
    total := 0;
    while total < hi - lo
      invariant total <= hi - lo && reader.at == old(reader.at) + total <= |reader.data|
      invariant forall k :: 0 <= k < buf.Length ==>
                  buf[k] == if lo <= k < lo + total then reader.data[old(reader.at) + k - lo] else old(buf[k])
      decreases hi - lo - total
    {
      var n := reader.Read(buf, lo + total, hi);
      if n == 0 {
        return;
      }
      total := total + n;
    }
  }

  // ---- The match loop over the buffered bytes ----

  /** The rolling state is that of the cursor, or covers its window. */
  ghost predicate Tracks(rolling: RollingChecksum, view: seq<byte>, b: nat, c: Cursor)
    reads rolling
  {
    match c.weak
    case Some(weak) => rolling.State() == weak && rolling.count == b % M
    case None => Covering(rolling, view, c.pos, b)
  }

  method StreamTurn(view: seq<byte>, sums: SumStruct, ctx: Context, table: map<u32, seq<nat>>,
                    rolling: RollingChecksum, pos: nat, lit: nat, ghost c: Cursor)
    returns (ops: seq<DiffOp>, pos': nat, lit': nat, matched: bool, ghost c': Cursor)
    requires sums.head.blength > 0 && lit <= pos && pos + sums.head.blength <= |view|
    requires Bucketed(table, sums.sums, |sums.sums|) && rolling.charOffset == ctx.charOffset
    requires pos == c.pos && lit == c.lit && Tracks(rolling, view, sums.head.blength, c)
    modifies rolling
    ensures c' == Next(view, |view|, sums, ctx, c) && pos' == c'.pos && lit' == c'.lit
    ensures ops == Emitted(view, sums, ctx, c) && (matched <==> c'.weak.None?)
    ensures Tracks(rolling, view, sums.head.blength, c')
  {
    var r;
    ghost var b: nat := sums.head.blength;
    c' := Next(view, |view|, sums, ctx, c);
    assert rolling.State() == WeakAt(view, b, ctx, c) && rolling.count == b % M;
    ops, pos', lit', r := Turn(view, sums, ctx, table, rolling, pos, lit);
    matched := r.Some?;
  }

  /** Step 4 of `process_chunk`; `stranded` tells that a match left no whole window behind. */
  method MatchView(view: seq<byte>, sums: SumStruct, ctx: Context, table: map<u32, seq<nat>>,
                   rolling: RollingChecksum, pos: nat, lit: nat, ghost c: Cursor)
    returns (ops: seq<DiffOp>, pos': nat, lit': nat, stranded: bool, ghost c': Cursor)
    requires sums.head.blength > 0 && lit <= pos <= |view|
    requires Bucketed(table, sums.sums, |sums.sums|) && rolling.charOffset == ctx.charOffset
    requires pos == c.pos && lit == c.lit && Tracks(rolling, view, sums.head.blength, c)
    modifies rolling
    ensures ops == ScanOps(view, |view|, sums, ctx, c) && c' == ScanStop(view, |view|, sums, ctx, c)
    ensures pos' == c'.pos && lit' == c'.lit && Tracks(rolling, view, sums.head.blength, c')
    ensures pos + sums.head.blength <= |view| ==> (stranded <==> c'.weak.None?)
  {
    ops, pos', lit', stranded, c' := [], pos, lit, false, c;
    while pos' + sums.head.blength <= |view|
      invariant pos' == c'.pos && lit' == c'.lit && Within(view, |view|, c')
      invariant Tracks(rolling, view, sums.head.blength, c')
      invariant pos' > pos && pos' + sums.head.blength > |view| ==> (stranded <==> c'.weak.None?)
      invariant ops + ScanOps(view, |view|, sums, ctx, c') == ScanOps(view, |view|, sums, ctx, c)
      invariant ScanStop(view, |view|, sums, ctx, c') == ScanStop(view, |view|, sums, ctx, c) && pos <= pos'
      decreases |view| - pos'
    {
      ghost var before := c';
      var emitted, matched;
      emitted, pos', lit', matched, c' := StreamTurn(view, sums, ctx, table, rolling, pos', lit', c');
      Assoc(ops, emitted, ScanOps(view, |view|, sums, ctx, c'));
      ops := ops + emitted;
      stranded := matched && pos' + sums.head.blength > |view|;
    }
    assert ops + [] == ops;
  }

  class StreamingMatcher {
    const sums: SumStruct
    const ctx: Context
    const table: map<u32, seq<nat>>
    const chunkSize: nat
    const rolling: RollingChecksum
    const buf: array<byte>
    var bufLen: nat
    var pos: nat
    var literalStart: nat
    var initialized: bool
    var exhausted: bool
    var needRollingInit: bool
    /** Where the scan stands in the source. */
    ghost var cursor: Cursor

    constructor (raw: SumStruct, context: Context, chunk: nat)
      ensures Wired() && sums == Effective(raw) && ctx == context && chunkSize == chunk
      ensures fresh(rolling) && fresh(buf) && Fresh()
    {
      sums := Effective(raw);
      ctx := context;
      var t := BuildHashTable(Effective(raw).sums);
      table := t;
      chunkSize := chunk;
      var r := new RollingChecksum(context.charOffset);
      rolling := r;
      buf := new byte[Effective(raw).head.blength + chunk](_ => 0);
      bufLen, pos, literalStart := 0, 0, 0;
      initialized, exhausted, needRollingInit := false, false, true;
      cursor := Cursor(0, 0, None);
    }

    ghost predicate Wired() {
      && sums == Effective(sums)
      && Bucketed(table, sums.sums, |sums.sums|)
      && rolling.charOffset == ctx.charOffset
      && buf.Length == sums.head.blength + chunkSize
    }

    predicate NoSums() {
      sums.head.count <= 0
    }

    ghost predicate Fresh()
      reads this
    {
      && !initialized && !exhausted && needRollingInit
      && bufLen == pos == literalStart == 0 && cursor == Cursor(0, 0, None)
    }

    /** The buffer holds the last `bufLen` bytes read. */
    ghost predicate Buffered(reader: Reader)
      reads this, buf, reader
    {
      && bufLen <= reader.at <= |reader.data| && bufLen <= buf.Length
      && forall k :: 0 <= k < bufLen ==> buf[k] == reader.data[reader.at - bufLen + k]
    }

    /** The fields place the scan in the buffer where the cursor places it in the source. */
    ghost predicate Placed(reader: Reader)
      reads this, buf, rolling, reader
    {
      && Buffered(reader) && literalStart <= pos
      && cursor.pos == reader.at - bufLen + pos && cursor.lit == reader.at - bufLen + literalStart
      && (needRollingInit <==> cursor.weak.None?)
      && (cursor.weak.Some? ==> rolling.State() == cursor.weak.value && rolling.count == sums.head.blength % M)
    }

    /** A whole window fits in a chunk, and chunks are not empty. */
    predicate Adequate() {
      chunkSize > 0 && sums.head.blength <= chunkSize
    }

    /** Reads the next chunk to the front of the buffer. */
    method FillFront(reader: Reader, hasher: Hasher)
      requires Wired() && reader.at <= |reader.data|
      modifies this`bufLen, this`exhausted, buf, reader, hasher
      ensures bufLen == Min(chunkSize, |reader.data| - old(reader.at))
      ensures reader.at == old(reader.at) + bufLen && Buffered(reader)
      ensures hasher.fed == old(hasher.fed) + reader.data[old(reader.at)..reader.at]
      ensures exhausted == (old(exhausted) || bufLen < chunkSize)
    {
      bufLen := ReadFill(reader, buf, 0, chunkSize);
      assert buf[..bufLen] == reader.data[old(reader.at)..reader.at];
      if bufLen > 0 {
        hasher.Update(buf[..bufLen]);
      }
      if bufLen < chunkSize {
        exhausted := true;
      }
    }

    /** The literal bytes before `shift` that have not been sent. */
    method FlushBefore(ghost reader: Reader, shift: nat) returns (ops: seq<DiffOp>)
      requires Wired() && Buffered(reader) && shift <= bufLen
      ensures ops == if literalStart >= shift then []
                     else [Literal(reader.data[reader.at - bufLen + literalStart..reader.at - bufLen + shift])]
    {
      ops := [];
      if literalStart < shift {
        ops := [Literal(buf[literalStart..shift])];
        ghost var base := reader.at - bufLen;
        assert buf[literalStart..shift] == reader.data[base + literalStart..base + shift];
      }
    }

    /** Keeps the last window's worth of bytes, sending what of it the shift would lose. */
    method ShiftWindow(reader: Reader) returns (ops: seq<DiffOp>)
      requires Wired() && Placed(reader) && sums.head.blength <= bufLen
      requires literalStart <= pos <= bufLen < pos + sums.head.blength
      modifies this`bufLen, this`pos, this`literalStart, this`cursor, buf
      ensures bufLen == sums.head.blength && Placed(reader) && literalStart <= pos <= bufLen
      ensures ops == Flushed(reader.data, reader.at, bufLen, old(cursor))
      ensures cursor == Kept(reader.at, bufLen, old(cursor))
    {
      var shift := bufLen - sums.head.blength;
      ops := FlushBefore(reader, shift);
      literalStart := if literalStart < shift then shift else literalStart;
      cursor := Kept(reader.at, sums.head.blength, cursor);
      forall k | 0 <= k < sums.head.blength {
        buf[k] := buf[shift + k];
      }
      bufLen := sums.head.blength;
      pos := pos - shift;
      literalStart := literalStart - shift;
    }

    /** Reads the next chunk behind the kept window. */
    method FillBehind(reader: Reader, hasher: Hasher)
      requires Wired() && Buffered(reader) && bufLen == sums.head.blength
      modifies this`bufLen, this`exhausted, buf, reader, hasher
      ensures bufLen == sums.head.blength + reader.at - old(reader.at) && Buffered(reader)
      ensures reader.at == old(reader.at) + Min(chunkSize, |reader.data| - old(reader.at))
      ensures hasher.fed == old(hasher.fed) + reader.data[old(reader.at)..reader.at]
      ensures exhausted == (old(exhausted) || reader.at - old(reader.at) < chunkSize)
    {
      var b := sums.head.blength;
      var n := ReadFill(reader, buf, b, b + chunkSize);
      assert buf[b..b + n] == reader.data[old(reader.at)..reader.at];
      if n > 0 {
        hasher.Update(buf[b..b + n]);
      }
      bufLen := b + n;
      if n < chunkSize {
        exhausted := true;
      }
    }

    /** Step 3: re-establishes the rolling state when flagged. */
    method PrepareRolling(ghost view: seq<byte>)
      requires Wired() && pos + sums.head.blength <= buf.Length && bufLen <= buf.Length && view == buf[..bufLen]
      modifies this`needRollingInit, rolling
      ensures !needRollingInit
      ensures old(needRollingInit) ==> Covering(rolling, view, pos, sums.head.blength)
      ensures !old(needRollingInit) ==> rolling.State() == old(rolling.State()) && rolling.count == old(rolling.count)
    {
      if needRollingInit {
        var window := buf[pos..pos + sums.head.blength];
        rolling.Compute(window);
        if pos + sums.head.blength <= bufLen {
          assert forall k :: 0 <= k < |window| ==> window[k] == view[pos..pos + sums.head.blength][k];
          assert window == view[pos..pos + sums.head.blength];
        }
        needRollingInit := false;
      }
    }

    /** Steps 3 and 4: the scan of the buffer is the scan of the source up to where it has been read. */
    method ScanBuffer(reader: Reader) returns (ops: seq<DiffOp>)
      requires Wired() && Placed(reader) && sums.head.blength > 0
      requires literalStart <= pos <= bufLen && pos + sums.head.blength <= buf.Length
      modifies this`pos, this`literalStart, this`needRollingInit, this`cursor, rolling
      ensures ops == ScanOps(reader.data, reader.at, sums, ctx, old(cursor))
      ensures cursor == ScanStop(reader.data, reader.at, sums, ctx, old(cursor))
      ensures cursor.pos == reader.at - bufLen + pos && cursor.lit == reader.at - bufLen + literalStart
      ensures old(pos) + sums.head.blength <= bufLen ==> Placed(reader)
    {
      var view := buf[..bufLen];
      ghost var base, c := reader.at - bufLen, Cursor(pos, literalStart, cursor.weak);
      assert view == reader.data[base..reader.at];
      ViewScan(reader.data, base, view, reader.at, sums, ctx, c, cursor);
      ops := ScanView(view, c);
      cursor := Moved(ScanStop(view, |view|, sums, ctx, c), base);
    }

    method ScanView(view: seq<byte>, ghost c: Cursor) returns (ops: seq<DiffOp>)
      requires Wired() && sums.head.blength > 0 && bufLen <= buf.Length && view == buf[..bufLen]
      requires literalStart <= pos <= bufLen && pos + sums.head.blength <= buf.Length
      requires c.pos == pos && c.lit == literalStart && (needRollingInit <==> c.weak.None?)
      requires c.weak.Some? ==> rolling.State() == c.weak.value && rolling.count == sums.head.blength % M
      modifies this`pos, this`literalStart, this`needRollingInit, rolling
      ensures ops == ScanOps(view, |view|, sums, ctx, c)
      ensures var stop := ScanStop(view, |view|, sums, ctx, c);
              && pos == stop.pos && literalStart == stop.lit
              && (old(pos) + sums.head.blength <= bufLen ==> (needRollingInit <==> stop.weak.None?))
              && (stop.weak.Some? ==> rolling.State() == stop.weak.value && rolling.count == sums.head.blength % M)
    {
      PrepareRolling(view);
      var stranded;
      ghost var stop;
      ops, pos, literalStart, stranded, stop := MatchView(view, sums, ctx, table, rolling, pos, literalStart, c);
      needRollingInit := stranded;
    }

    /** What the calls from now on will emit. */
    ghost function ToCome(reader: Reader): seq<DiffOp>
      requires Wired() && Adequate() && ((Fresh() && reader.at == 0) || Between(reader))
      reads this, buf, rolling, reader
    {
      if NoSums() then Pieces(reader.data, chunkSize, reader.at)
      else if !initialized then Chunks(reader.data, sums, ctx, chunkSize, 0, cursor)
      else After(reader.data, sums, ctx, chunkSize, reader.at, cursor)
    }

    /** Between two calls. */
    ghost predicate Between(reader: Reader)
      reads this, buf, rolling, reader
    {
      && Wired() && Adequate() && initialized && !exhausted && Buffered(reader)
      && (!NoSums() ==> Placed(reader) && sums.head.blength <= bufLen && pos <= bufLen < pos + sums.head.blength)
    }

    /** The buffer has been filled from `from` on for this call. */
    ghost predicate Filled(reader: Reader, from: nat)
      reads this, buf, rolling, reader
    {
      && Wired() && Adequate() && Placed(reader) && from <= reader.at
      && reader.at == from + Min(chunkSize, |reader.data| - from)
      && exhausted == (reader.at - from < chunkSize)
      && literalStart <= pos <= Min(bufLen, sums.head.blength)
      && cursor.pos <= from && (!exhausted ==> bufLen >= pos + sums.head.blength)
    }

    /** Step 5: what has not been sent at the end of the file. */
    method FlushRest(ghost reader: Reader) returns (ops: seq<DiffOp>)
      requires Wired() && Buffered(reader) && reader.at == |reader.data| && literalStart <= bufLen
      requires cursor.lit == reader.at - bufLen + literalStart
      ensures ops == Pending(reader.data[cursor.lit..|reader.data|])
    {
      ops := FlushBefore(reader, bufLen);
    }

    /** Steps 3 to 5 at the end of the file: scans the buffer and sends what is left. */
    method ScanLast(reader: Reader, ghost from: nat) returns (ops: seq<DiffOp>)
      requires Filled(reader, from) && !NoSums() && bufLen >= sums.head.blength && initialized && exhausted
      modifies this`pos, this`literalStart, this`needRollingInit, this`cursor, rolling
      ensures ops == Chunks(reader.data, sums, ctx, chunkSize, from, old(cursor))
    {
      ops := ScanBuffer(reader);
      ChunksLast(reader.data, sums, ctx, chunkSize, from, old(cursor));
      var rest := FlushRest(reader);
      ops := ops + rest;
    }

    /** Steps 3 and 4 before the end: scans the buffer. */
    method ScanOn(reader: Reader, ghost from: nat) returns (ops: seq<DiffOp>)
      requires Filled(reader, from) && !NoSums() && bufLen >= sums.head.blength && initialized && !exhausted
      modifies this`pos, this`literalStart, this`needRollingInit, this`cursor, rolling
      ensures Between(reader)
      ensures ops + ToCome(reader) == Chunks(reader.data, sums, ctx, chunkSize, from, old(cursor))
    {
      ops := ScanBuffer(reader);
      assert Between(reader);
      ChunksNext(reader.data, sums, ctx, chunkSize, from, old(cursor), reader.at, cursor);
    }

    /** Steps 3 to 5: scans the buffer and, at the end of the file, sends what is left. */
    method ScanAndFlush(reader: Reader, ghost from: nat) returns (ops: seq<DiffOp>)
      requires Filled(reader, from) && !NoSums() && bufLen >= sums.head.blength && initialized
      modifies this`pos, this`literalStart, this`needRollingInit, this`cursor, rolling
      ensures exhausted ==> ops == Chunks(reader.data, sums, ctx, chunkSize, from, old(cursor))
      ensures !exhausted ==> Between(reader)
      ensures !exhausted ==> ops + ToCome(reader) == Chunks(reader.data, sums, ctx, chunkSize, from, old(cursor))
    {
      if exhausted {
        ops := ScanLast(reader, from);
      } else {
        ops := ScanOn(reader, from);
      }
    }

    /** Step 1: fills the buffer, for the first call or a later one. */
    method Fill(reader: Reader, hasher: Hasher) returns (ops: seq<DiffOp>)
      requires (Wired() && Fresh() && reader.at == 0) || Between(reader)
      modifies this, buf, reader, hasher
      ensures initialized
      ensures reader.at == old(reader.at) + Min(chunkSize, |reader.data| - old(reader.at))
      ensures exhausted == (reader.at - old(reader.at) < chunkSize)
      ensures hasher.fed == old(hasher.fed) + reader.data[old(reader.at)..reader.at]
      ensures !old(initialized) || NoSums() ==> ops == [] && bufLen == reader.at - old(reader.at) && Buffered(reader)
      ensures !NoSums() && Adequate() ==> Filled(reader, old(reader.at))
      ensures !NoSums() && old(initialized) ==>
                && sums.head.blength <= bufLen && sums.head.blength <= old(reader.at)
                && ops == Flushed(reader.data, old(reader.at), sums.head.blength, old(cursor))
                && cursor == Kept(old(reader.at), sums.head.blength, old(cursor))
      ensures !old(initialized) ==> cursor == old(cursor)
    {
      ops := [];
      if !initialized || NoSums() {
        FillFront(reader, hasher);
        initialized := true;
      } else {
        ops := ShiftWindow(reader);
        FillBehind(reader, hasher);
      }
    }

    /**
     * One call of the matcher: the next operations of those to come. With a chunk smaller than a
     * block the first call ends the transfer early.
     */
    method ProcessChunk(reader: Reader, hasher: Hasher) returns (ops: seq<DiffOp>, done: bool)
      requires (Wired() && Fresh() && reader.at == 0) || Between(reader)
      modifies this, buf, rolling, reader, hasher
      ensures old(reader.at) <= reader.at <= |reader.data|
      ensures hasher.fed == old(hasher.fed) + reader.data[old(reader.at)..reader.at]
      ensures Adequate() && done ==> reader.at == |reader.data| && ops == old(ToCome(reader))
      ensures Adequate() && !done ==>
                Between(reader) && old(reader.at) < reader.at && ops + ToCome(reader) == old(ToCome(reader))
      ensures !Adequate() ==> done && reader.at == Min(chunkSize, |reader.data|)
      ensures !Adequate() ==> ops == Pending(reader.data[..reader.at])
    {
      if NoSums() {
        ops, done := SendPiece(reader, hasher);
      } else {
        ops, done := SendChunk(reader, hasher);
      }
    }

    /** A call without blocks: the chunk as it is. */
    method SendPiece(reader: Reader, hasher: Hasher) returns (ops: seq<DiffOp>, done: bool)
      requires NoSums() && ((Wired() && Fresh() && reader.at == 0) || Between(reader))
      modifies this, buf, reader, hasher
      ensures old(reader.at) <= reader.at <= |reader.data|
      ensures hasher.fed == old(hasher.fed) + reader.data[old(reader.at)..reader.at]
      ensures Adequate() && done ==> reader.at == |reader.data| && ops == Pieces(reader.data, chunkSize, old(reader.at))
      ensures Adequate() && !done ==>
                && Between(reader) && old(reader.at) < reader.at
                && ops + Pieces(reader.data, chunkSize, reader.at) == Pieces(reader.data, chunkSize, old(reader.at))
      ensures !Adequate() ==>
                done && reader.at == Min(chunkSize, |reader.data|) && ops == Pending(reader.data[..reader.at])
    {
      ghost var from := reader.at;
      ops := Fill(reader, hasher);
      if bufLen == 0 {
        done := true;
        assert Adequate() ==> reader.data[from..] == [];
      } else {
        assert buf[..bufLen] == reader.data[from..reader.at];
        ops := ops + [Literal(buf[..bufLen])];
        done := exhausted;
        assert exhausted ==> reader.data[from..reader.at] == reader.data[from..];
      }
    }

    /** A call with blocks. */
    method SendChunk(reader: Reader, hasher: Hasher) returns (ops: seq<DiffOp>, done: bool)
      requires !NoSums() && ((Wired() && Fresh() && reader.at == 0) || Between(reader))
      modifies this, buf, rolling, reader, hasher
      ensures old(reader.at) <= reader.at <= |reader.data|
      ensures hasher.fed == old(hasher.fed) + reader.data[old(reader.at)..reader.at]
      ensures Adequate() && done ==> reader.at == |reader.data| && ops == old(ToCome(reader))
      ensures Adequate() && !done ==>
                Between(reader) && old(reader.at) < reader.at && ops + ToCome(reader) == old(ToCome(reader))
      ensures !Adequate() ==>
                done && reader.at == Min(chunkSize, |reader.data|) && ops == Pending(reader.data[..reader.at])
    {
      ghost var from, first := reader.at, !initialized;
      ops := Fill(reader, hasher);
      if bufLen < sums.head.blength {
        var rest := if bufLen == 0 then [] else [Literal(buf[..bufLen])];
        assert buf[..bufLen] == reader.data[..reader.at];
        if Adequate() {
          ShortSource(reader.data, sums, ctx, chunkSize);
        }
        return rest, true;
      }
      ghost var flushed, c := ops, cursor;
      var rest := ScanAndFlush(reader, from);
      ops := ops + rest;
      done := exhausted;
      if !done {
        Assoc(flushed, rest, ToCome(reader));
      }
      assert first ==> flushed == [] && [] + rest == rest;
    }
  }

  /** A source without a whole block. */
  lemma ShortSource(source: seq<byte>, sums: SumStruct, ctx: Context, chunk: nat)
    requires |source| < sums.head.blength <= chunk
    ensures Chunks(source, sums, ctx, chunk, 0, Cursor(0, 0, None)) == Pending(source[..|source|])
  {
    assert source[0..] == source && source[..|source|] == source;
    assert [] + Pending(source) == Pending(source);
  }

  /**
   * The sender's loop over the streaming matcher, whatever short reads occur: all operations, and
   * the bytes fed to the whole-file hash.
   */
  method StreamDelta(source: seq<byte>, raw: SumStruct, ctx: Context, chunk: nat)
    returns (ops: seq<DiffOp>, hashed: seq<byte>)
    ensures AdequateChunk(raw, chunk) ==> ops == StreamOps(source, raw, ctx, chunk) && hashed == source
    ensures !AdequateChunk(raw, chunk) ==> hashed == source[..Min(chunk, |source|)] && ops == Pending(hashed)
  {
    var reader := new Reader(source);
    var hasher := new Hasher();
    var matcher := new StreamingMatcher(raw, ctx, chunk);
    ghost var adequate := AdequateChunk(raw, chunk);
    ghost var all := if adequate then StreamOps(source, raw, ctx, chunk) else [];
    if adequate {
      assert matcher.ToCome(reader) == all;
    }
    var done;
    ops, done := matcher.ProcessChunk(reader, hasher);
    while !done
      invariant fresh(matcher) && fresh(matcher.buf) && fresh(matcher.rolling) && fresh(reader) && fresh(hasher)
      invariant reader.data == source && reader.at <= |source| && hasher.fed == source[..reader.at]
      invariant matcher.Wired() && (adequate <==> matcher.Adequate())
      invariant adequate ==> Underway(matcher, reader, ops, done, all)
      invariant !adequate ==> done && reader.at == Min(chunk, |source|) && ops == Pending(hasher.fed)
      decreases !done, |source| - reader.at
    {
      ops, done := StreamMore(matcher, reader, hasher, ops, all);
    }
    hashed := hasher.fed;
    assert adequate ==> source[..reader.at] == source;
  }

  /** What was emitted and what is to come are all the operations. */
  ghost predicate Underway(matcher: StreamingMatcher, reader: Reader, ops: seq<DiffOp>, done: bool, all: seq<DiffOp>)
    requires matcher.Wired() && matcher.Adequate()
    reads matcher, matcher.buf, matcher.rolling, reader
  {
    if done then reader.at == |reader.data| && ops == all
    else matcher.Between(reader) && ops + matcher.ToCome(reader) == all
  }

  /** One more call. */
  method StreamMore(matcher: StreamingMatcher, reader: Reader, hasher: Hasher, ops: seq<DiffOp>, ghost all: seq<DiffOp>)
    returns (ops': seq<DiffOp>, done: bool)
    requires matcher.Wired() && matcher.Adequate() && Underway(matcher, reader, ops, false, all)
    requires reader.at <= |reader.data| && hasher.fed == reader.data[..reader.at]
    modifies matcher, matcher.buf, matcher.rolling, reader, hasher
    ensures old(reader.at) <= reader.at <= |reader.data| && hasher.fed == reader.data[..reader.at]
    ensures Underway(matcher, reader, ops', done, all) && (!done ==> old(reader.at) < reader.at)
  {
    ghost var read := reader.at;
    var more;
    more, done := matcher.ProcessChunk(reader, hasher);
    ops' := ops + more;
    Prefix(reader.data, read, reader.at);
    if !done {
      Assoc(ops, more, matcher.ToCome(reader));
    }
  }

  lemma PendingSpan(data: seq<byte>, basis: seq<byte>)
    ensures Apply(basis, Pending(data)) == data
  {
    if data != [] {
      assert ApplyFirst(basis, Pending(data), 0) == [];
    }
  }
}
