/** The batch matcher: a greedy scan with a rolling checksum, proved against a scan that recomputes it. */
module Matcher {
  import opened Bytes
  import opened Checksum
  import opened Signatures
  import opened Delta

  /** Block `i` has the strong sum of the window `w` and the given weak one. */
  ghost predicate Agrees(w: seq<byte>, sums: SumStruct, ctx: Context, digest: u32, i: nat)
  {
    StrongMatch(w, sums, ctx, i) && sums.sums[i].sum1 == digest
  }

  /** The least block from `from` on that agrees with the window on the strong sum and with `digest`. */
  ghost function FirstFrom(w: seq<byte>, sums: SumStruct, ctx: Context, digest: u32, from: nat): (r: Option<nat>)
    requires from <= |sums.sums|
    ensures r.Some? ==> from <= r.value && Agrees(w, sums, ctx, digest, r.value)
    ensures r.Some? ==> forall i: nat :: from <= i < r.value ==> !Agrees(w, sums, ctx, digest, i)
    ensures r.None? ==> forall i: nat :: from <= i ==> !Agrees(w, sums, ctx, digest, i)
    decreases |sums.sums| - from
  {
    if from == |sums.sums| then None
    else if Agrees(w, sums, ctx, digest, from) then Some(from)
    else FirstFrom(w, sums, ctx, digest, from + 1)
  }

  /** What is found with some digest, and with the window's own. */
  ghost function FindWith(w: seq<byte>, sums: SumStruct, ctx: Context, digest: u32): Option<nat>
  {
    FirstFrom(w, sums, ctx, digest, 0)
  }

  ghost function FindBlock(w: seq<byte>, sums: SumStruct, ctx: Context): Option<nat>
  {
    FindWith(w, sums, ctx, Checksum1(w, ctx.charOffset))
  }

  ghost function Pending(data: seq<byte>): seq<DiffOp>
  {
    if data == [] then [] else [Literal(data)]
  }

  /** The scan at `pos` with unsent literal bytes from `lit`, every window hashed afresh. */
  ghost function Scan(source: seq<byte>, sums: SumStruct, ctx: Context, pos: nat, lit: nat): seq<DiffOp>
    requires sums.head.blength > 0 && lit <= pos <= |source|
    decreases |source| - pos
  {
    var b := sums.head.blength;
    if pos + b > |source| then Pending(source[lit..])
    else
      match FindBlock(source[pos..pos + b], sums, ctx)
      case Some(i) => Pending(source[lit..pos]) + [CopyOf(i, sums.head)] + Scan(source, sums, ctx, pos + b, pos + b)
      case None => Scan(source, sums, ctx, pos + 1, lit)
  }

  /** The delta the batch matcher computes. */
  ghost function DeltaOf(source: seq<byte>, sums: SumStruct, ctx: Context): seq<DiffOp>
  {
    if sums.head.count <= 0 || sums.head.blength <= 0 then Pending(source)
    else Scan(source, sums, ctx, 0, 0)
  }

  // ---- The hash table ----

  /** Table of block indices by rolling sum: each bucket lists exactly its blocks, in order. */
  ghost predicate Bucketed(table: map<u32, seq<nat>>, sums: seq<SumEntry>, n: nat)
    requires n <= |sums|
  {
    && (forall i: nat {:trigger sums[i]} :: i < n ==> sums[i].sum1 in table && i in table[sums[i].sum1])
    && (forall d | d in table :: forall k :: 0 <= k < |table[d]| ==> table[d][k] < n && sums[table[d][k]].sum1 == d)
    && (forall d | d in table :: Ascending(table[d]))
  }

  ghost predicate Ascending(s: seq<nat>) {
    forall j, k :: 0 <= j < k < |s| ==> s[j] < s[k]
  }

  method BuildHashTable(sums: seq<SumEntry>) returns (table: map<u32, seq<nat>>)
    ensures Bucketed(table, sums, |sums|)
  {
    table := map[];
    for i := 0 to |sums|
      invariant Bucketed(table, sums, i)
    {
      var d := sums[i].sum1;
      var bucket := if d in table then table[d] else [];
      ghost var was := table;
      table := table[d := bucket + [i]];
      BucketedStep(was, table, sums, i);
    }
  }

  lemma BucketedStep(was: map<u32, seq<nat>>, table: map<u32, seq<nat>>, sums: seq<SumEntry>, i: nat)
    requires i < |sums| && Bucketed(was, sums, i)
    requires table == was[sums[i].sum1 := (if sums[i].sum1 in was then was[sums[i].sum1] else []) + [i]]
    ensures Bucketed(table, sums, i + 1)
  {
    forall j: nat | j < i + 1
      ensures sums[j].sum1 in table && j in table[sums[j].sum1]
    {
      if j < i {
        assert j in was[sums[j].sum1];
      }
    }
    forall d | d in table
      ensures Ascending(table[d])
      ensures forall k :: 0 <= k < |table[d]| ==> table[d][k] < i + 1 && sums[table[d][k]].sum1 == d
    {
      assert d in was ==> Ascending(was[d]);
    }
  }

  /** The first candidate in the bucket with the window's strong sum, as the inner loop finds it. */
  method FirstCandidate(w: seq<byte>, sums: SumStruct, ctx: Context, table: map<u32, seq<nat>>, digest: u32)
    returns (r: Option<nat>)
    requires Bucketed(table, sums.sums, |sums.sums|)
    ensures r == FindWith(w, sums, ctx, digest)
  {
    if digest in table {
      var strong := ctx.strong(w);
      var cut := Truncated(strong, sums.head.s2length);
      var candidates := table[digest];
      for k := 0 to |candidates|
        invariant forall j :: 0 <= j < k ==> !Agrees(w, sums, ctx, digest, candidates[j])
      {
        var idx := candidates[k];
        if sums.sums[idx].sum2 == cut {
          CandidateIsFirst(w, sums, ctx, digest, candidates, k);
          return Some(idx);
        }
      }
      NoCandidate(w, sums, ctx, digest, candidates);
    }
    r := None;
  }

  lemma CandidateIsFirst(w: seq<byte>, sums: SumStruct, ctx: Context, digest: u32, bucket: seq<nat>, k: nat)
    requires k < |bucket| && Agrees(w, sums, ctx, digest, bucket[k]) && Ascending(bucket)
    requires forall j :: 0 <= j < k ==> !Agrees(w, sums, ctx, digest, bucket[j])
    requires forall i: nat :: Agrees(w, sums, ctx, digest, i) ==> i in bucket
    ensures FindWith(w, sums, ctx, digest) == Some(bucket[k])
  {
    var r := FindWith(w, sums, ctx, digest);
    assert r.Some?;
    var j :| 0 <= j < |bucket| && bucket[j] == r.value;
  }

  lemma NoCandidate(w: seq<byte>, sums: SumStruct, ctx: Context, digest: u32, bucket: seq<nat>)
    requires forall j :: 0 <= j < |bucket| ==> !Agrees(w, sums, ctx, digest, bucket[j])
    requires forall i: nat :: Agrees(w, sums, ctx, digest, i) ==> i in bucket
    ensures FindWith(w, sums, ctx, digest) == None
  {
  }

  // ---- The scan ----

  lemma ScanMatched(source: seq<byte>, sums: SumStruct, ctx: Context, pos: nat, lit: nat, i: nat)
    requires sums.head.blength > 0 && lit <= pos && pos + sums.head.blength <= |source|
    requires FindBlock(source[pos..pos + sums.head.blength], sums, ctx) == Some(i)
    ensures var next := pos + sums.head.blength;
            Scan(source, sums, ctx, pos, lit)
            == Pending(source[lit..pos]) + [CopyOf(i, sums.head)] + Scan(source, sums, ctx, next, next)
  {
  }

  lemma ScanUnmatched(source: seq<byte>, sums: SumStruct, ctx: Context, pos: nat, lit: nat)
    requires sums.head.blength > 0 && lit <= pos && pos + sums.head.blength <= |source|
    requires FindBlock(source[pos..pos + sums.head.blength], sums, ctx) == None
    ensures Scan(source, sums, ctx, pos, lit) == Scan(source, sums, ctx, pos + 1, lit)
  {
  }

  /** What a turn at `pos` emits when it finds `r`, and where it goes on. */
  function StepOps(source: seq<byte>, head: SumHead, pos: nat, lit: nat, r: Option<nat>): (ops: seq<DiffOp>)
    requires head.blength >= 0 && lit <= pos <= |source|
  {
    match r
    case Some(i) => (if lit < pos then [Literal(source[lit..pos])] else []) + [CopyOf(i, head)]
    case None => []
  }

  function StepPos(head: SumHead, pos: nat, r: Option<nat>): (p: nat)
    requires head.blength >= 0
  {
    if r.Some? then pos + head.blength else pos + 1
  }

  function StepLit(head: SumHead, pos: nat, lit: nat, r: Option<nat>): (l: nat)
    requires head.blength >= 0
  {
    if r.Some? then pos + head.blength else lit
  }

  /** A turn that finds the first match is a step of the scan. */
  lemma ScanStep(source: seq<byte>, sums: SumStruct, ctx: Context, pos: nat, lit: nat, r: Option<nat>)
    requires sums.head.blength > 0 && lit <= pos && pos + sums.head.blength <= |source|
    requires FindBlock(source[pos..pos + sums.head.blength], sums, ctx) == r
    ensures Scan(source, sums, ctx, pos, lit)
         == StepOps(source, sums.head, pos, lit, r)
            + Scan(source, sums, ctx, StepPos(sums.head, pos, r), StepLit(sums.head, pos, lit, r))
  {
    match r
    case Some(i) => ScanMatched(source, sums, ctx, pos, lit, i);
    case None => ScanUnmatched(source, sums, ctx, pos, lit);
  }

  /** A turn that finds a strong match emits operations for exactly the bytes it moves past. */
  lemma StepDescribed(source: seq<byte>, sums: SumStruct, ctx: Context, pos: nat, lit: nat, r: Option<nat>)
    requires sums.head.blength >= 0 && lit <= pos && pos + sums.head.blength <= |source|
    requires r.Some? ==> StrongMatch(source[pos..pos + sums.head.blength], sums, ctx, r.value)
    ensures Describes(StepOps(source, sums.head, pos, lit, r), source, lit, sums, ctx, false)
    ensures TotalSpan(StepOps(source, sums.head, pos, lit, r), sums.head.blength)
         == StepLit(sums.head, pos, lit, r) - lit
  {
    if r.Some? {
      MatchDescribed(source, lit, pos, r.value, sums, ctx);
      assert StepOps(source, sums.head, pos, lit, r) == Pending(source[lit..pos]) + [CopyOf(r.value, sums.head)];
    }
  }

  lemma ScanEnd(source: seq<byte>, sums: SumStruct, ctx: Context, pos: nat, lit: nat)
    requires sums.head.blength > 0 && lit <= pos <= |source| < pos + sums.head.blength
    ensures Scan(source, sums, ctx, pos, lit) == Pending(source[lit..])
  {
  }

  lemma OneDescribed(op: DiffOp, source: seq<byte>, at: nat, sums: SumStruct, ctx: Context, greedy: bool)
    requires sums.head.blength >= 0 && Stands(op, source, at, sums, ctx, greedy)
    ensures Describes([op], source, at, sums, ctx, greedy)
    ensures TotalSpan([op], sums.head.blength) == Span(op, sums.head.blength)
  {
    assert SpanFirst([op], 0, sums.head.blength) == 0;
    assert SpanFirst([op], 1, sums.head.blength) == 0 + Span([op][0], sums.head.blength);
    assert StandsAt([op], 0, source, at, sums, ctx, greedy);
  }

  /** Pending literal bytes; of a greedy scan, none of whose windows matched. */
  lemma PendingDescribed(source: seq<byte>, lit: nat, pos: nat, sums: SumStruct, ctx: Context, greedy: bool)
    requires sums.head.blength >= 0 && lit <= pos <= |source|
    requires greedy ==> forall p: nat :: lit <= p < pos ==> Unmatched(source, p, sums, ctx)
    ensures Describes(Pending(source[lit..pos]), source, lit, sums, ctx, greedy)
    ensures TotalSpan(Pending(source[lit..pos]), sums.head.blength) == pos - lit
  {
    if lit < pos {
      OneDescribed(Literal(source[lit..pos]), source, lit, sums, ctx, greedy);
    }
  }

  lemma MatchDescribed(source: seq<byte>, lit: nat, pos: nat, i: nat, sums: SumStruct, ctx: Context)
    requires sums.head.blength >= 0 && lit <= pos && pos + sums.head.blength <= |source|
    requires StrongMatch(source[pos..pos + sums.head.blength], sums, ctx, i)
    ensures var ops := Pending(source[lit..pos]) + [CopyOf(i, sums.head)];
            && Describes(ops, source, lit, sums, ctx, false)
            && TotalSpan(ops, sums.head.blength) == pos + sums.head.blength - lit
  {
    PendingDescribed(source, lit, pos, sums, ctx, false);
    var copy := CopyOf(i, sums.head);
    assert NamesMatch(copy, source[pos..pos + sums.head.blength], sums, ctx, false);
    OneDescribed(copy, source, pos, sums, ctx, false);
    DescribesAppend(Pending(source[lit..pos]), [copy], source, lit, sums, ctx, false);
  }

  method FlushLiteral(source: seq<byte>, lit: nat, pos: nat) returns (ops: seq<DiffOp>)
    requires lit <= pos <= |source|
    ensures ops == Pending(source[lit..pos])
  {
    ops := if lit < pos then [Literal(source[lit..pos])] else [];
  }

  /** The rolling state covers the window at `pos`, while there is one. */
  ghost predicate Covering(rolling: RollingChecksum, source: seq<byte>, pos: nat, b: nat)
    reads rolling
  {
    pos + b <= |source| ==> rolling.Holds(source[pos..pos + b])
  }

  /** Moves the window past a matched block. */
  method Skip(rolling: RollingChecksum, source: seq<byte>, next: nat, b: nat)
    modifies rolling
    ensures Covering(rolling, source, next, b)
  {
    if next + b <= |source| {
      rolling.Compute(source[next..next + b]);
    }
  }

  /** The state after the window has moved on by one byte; without a whole window it stays behind. */
  function Slid(weak: Weak, source: seq<byte>, pos: nat, b: nat, off: u32, count: u32): Weak
    requires b > 0 && pos + b <= |source|
  {
    if pos + 1 + b > |source| then weak else Rolled(weak, source[pos], source[pos + b], off, count)
  }

  /** Moves the window by one byte. */
  method Slide(rolling: RollingChecksum, source: seq<byte>, pos: nat, b: nat)
    requires b > 0 && pos + b <= |source|
    modifies rolling
    ensures rolling.count == old(rolling.count)
    ensures rolling.State() == Slid(old(rolling.State()), source, pos, b, rolling.charOffset, rolling.count)
    ensures old(Covering(rolling, source, pos, b)) ==> Covering(rolling, source, pos + 1, b)
  {
    if pos + 1 + b <= |source| {
      SlideWindow(source, pos, b);
      RollsOn(source[pos..pos + b], source[pos + b], rolling.charOffset);
      rolling.Roll(source[pos], source[pos + b]);
    }
  }

  /**
   * One turn of a scanning loop. It finds the first block with the window's strong sum and the weak
   * one of the rolling state; while the state covers the window, the first to agree on both.
   */
  method Turn(source: seq<byte>, sums: SumStruct, ctx: Context, table: map<u32, seq<nat>>,
              rolling: RollingChecksum, pos: nat, lit: nat)
    returns (ops: seq<DiffOp>, pos': nat, lit': nat, r: Option<nat>)
    requires sums.head.blength > 0 && lit <= pos && pos + sums.head.blength <= |source|
    requires Bucketed(table, sums.sums, |sums.sums|) && rolling.charOffset == ctx.charOffset
    modifies rolling
    ensures r == FindWith(source[pos..pos + sums.head.blength], sums, ctx, old(rolling.Digest()))
    ensures r.Some? ==> Covering(rolling, source, pos', sums.head.blength)
    ensures r.None? ==> rolling.count == old(rolling.count)
    ensures r.None? ==>
              rolling.State()
              == Slid(old(rolling.State()), source, pos, sums.head.blength, ctx.charOffset, rolling.count)
    ensures old(Covering(rolling, source, pos, sums.head.blength)) ==>
              && r == FindBlock(source[pos..pos + sums.head.blength], sums, ctx)
              && Covering(rolling, source, pos', sums.head.blength)
    ensures ops == StepOps(source, sums.head, pos, lit, r)
    ensures pos' == StepPos(sums.head, pos, r) && lit' == StepLit(sums.head, pos, lit, r)
  {
    var b: nat := sums.head.blength;
    r := FirstCandidate(source[pos..pos + b], sums, ctx, table, rolling.Digest());
    ops := [];
    if r.Some? {
      if lit < pos {
        ops := [Literal(source[lit..pos])];
      }
      ops := ops + [CopyOf(r.value, sums.head)];
      pos', lit' := pos + b, pos + b;
      Skip(rolling, source, pos', b);
    } else {
      pos', lit' := pos + 1, lit;
      Slide(rolling, source, pos, b);
    }
  }

  /** A turn whose rolling state covers the window is a step of the scan. */
  method GreedyTurn(source: seq<byte>, sums: SumStruct, ctx: Context, table: map<u32, seq<nat>>,
                    rolling: RollingChecksum, pos: nat, lit: nat)
    returns (ops: seq<DiffOp>, pos': nat, lit': nat)
    requires sums.head.blength > 0 && lit <= pos && pos + sums.head.blength <= |source|
    requires Bucketed(table, sums.sums, |sums.sums|) && rolling.charOffset == ctx.charOffset
    requires Covering(rolling, source, pos, sums.head.blength)
    modifies rolling
    ensures lit' <= pos' <= |source| && pos < pos'
    ensures Covering(rolling, source, pos', sums.head.blength)
    ensures Scan(source, sums, ctx, pos, lit) == ops + Scan(source, sums, ctx, pos', lit')
  {
    var r;
    ops, pos', lit', r := Turn(source, sums, ctx, table, rolling, pos, lit);
    ScanStep(source, sums, ctx, pos, lit, r);
  }

  method MatchBlocks(source: seq<byte>, sums: SumStruct, ctx: Context) returns (ops: seq<DiffOp>)
    ensures ops == DeltaOf(source, sums, ctx)
  {
    if source == [] {
      return [];
    }
    if sums.head.count <= 0 || sums.head.blength <= 0 || |source| < sums.head.blength {
      return [Literal(source)];
    }
    var table := BuildHashTable(sums.sums);
    var rolling := new RollingChecksum(ctx.charOffset);
    var pos: nat, lit: nat := 0, 0;
    ops := [];
    Skip(rolling, source, 0, sums.head.blength);
    while pos + sums.head.blength <= |source|
      invariant lit <= pos <= |source|
      invariant Covering(rolling, source, pos, sums.head.blength)
      invariant ops + Scan(source, sums, ctx, pos, lit) == DeltaOf(source, sums, ctx)
      decreases |source| - pos
    {
      var emitted;
      emitted, pos, lit := GreedyTurn(source, sums, ctx, table, rolling, pos, lit);
      Assoc(ops, emitted, Scan(source, sums, ctx, pos, lit));
      ops := ops + emitted;
    }
    ScanEnd(source, sums, ctx, pos, lit);
    var last := FlushLiteral(source, lit, |source|);
    assert source[lit..] == source[lit..|source|];
    ops := ops + last;
  }
}
