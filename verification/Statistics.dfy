/**
 * The closing bytes of versions 30 and later: markers of one byte and five totals in compact form.
 * They show for which totals a pull whose file list came in two groups still ends.
 */
module Statistics {
  import opened Bytes
  import opened Varint
  import opened Session
  import opened SessionCleanup

  // ---- Compact 64-bit integers ----

  const MAX_TOTAL: nat := 0x400_0000_0000_0000

  /** Bytes beyond three that a total takes: each gives seven bits more. */
  function ExtraBytes(x: nat): (n: nat)
    requires x < MAX_TOTAL
    ensures n <= 5
  {
    if x < 0x80_0000 then 0
    else if x < 0x4000_0000 then 1
    else if x < 0x20_0000_0000 then 2
    else if x < 0x1000_0000_0000 then 3
    else if x < 0x8_0000_0000_0000 then 4
    else 5
  }

  function LowBytes(x: nat, n: nat): (b: seq<byte>)
    ensures |b| == n
  {
    if n == 0 then [] else [x % 0x100] + LowBytes(x / 0x100, n - 1)
  }

  function Above(x: nat, n: nat): nat {
    if n == 0 then x else Above(x / 0x100, n - 1)
  }

  /** The leading ones of the first byte count the extra bytes; below them are the highest bits. */
  function WriteTotal(x: nat): (b: seq<byte>)
    requires x < MAX_TOTAL
  {
    var n := ExtraBytes(x);
    var first := Above(x, n + 2) + [0, 0x80, 0xC0, 0xE0, 0xF0, 0xF8][n];
    [first % 0x100] + LowBytes(x, n + 2)
  }

  /** A total is read past; with six extra bytes it is invalid. */
  function SkipTotal(s: seq<byte>): Skip {
    if |s| < 3 then More
    else if Extra(s[0]) >= 6 then Bad
    else if |s| < 3 + Extra(s[0]) then More
    else Rest(s[3 + Extra(s[0])..])
  }

  function SkipTotals(s: seq<byte>, n: nat): Skip {
    if n == 0 then Rest(s)
    else match SkipTotal(s) case Rest(rest) => SkipTotals(rest, n - 1) case stop => stop
  }

  function SkipIndex(s: seq<byte>): Skip {
    match ReadNdx(s, InitialNdxState()) case None => More case Some((_, _, rest)) => Rest(rest)
  }

  function WriteTotals(sent: nat, size: nat): seq<byte>
    requires sent < MAX_TOTAL && size < MAX_TOTAL
  {
    WriteTotal(0) + (WriteTotal(sent) + (WriteTotal(size) + (WriteTotal(0) + WriteTotal(0))))
  }

  ghost function CompactTail(sent: nat, size: nat): Tail
    requires sent < MAX_TOTAL && size < MAX_TOTAL
  {
    Tail([0], WriteTotals(sent, size), SkipIndex, s => SkipTotals(s, 5))
  }

  // ---- The laws of a tail ----

  lemma FirstOfTotal(x: nat)
    requires x < MAX_TOTAL
    ensures |WriteTotal(x)| == 3 + ExtraBytes(x) && Extra(WriteTotal(x)[0]) == ExtraBytes(x)
  {
    var n := ExtraBytes(x);
    assert Above(x, n + 2) < [0x80, 0x40, 0x20, 0x10, 0x8, 0x4][n] by {
      TopBits(x, n);
    }
  }

  lemma TopBits(x: nat, n: nat)
    requires x < MAX_TOTAL && n == ExtraBytes(x)
    ensures Above(x, n + 2) < [0x80, 0x40, 0x20, 0x10, 0x8, 0x4][n]
  {
    match n
    case 0 => AboveIs(x, 2, 0x1_0000, 0x80);
    case 1 => AboveIs(x, 3, 0x100_0000, 0x40);
    case 2 => AboveIs(x, 4, 0x1_0000_0000, 0x20);
    case 3 => AboveIs(x, 5, 0x100_0000_0000, 0x10);
    case 4 => AboveIs(x, 6, 0x1_0000_0000_0000, 0x8);
    case 5 => AboveIs(x, 7, 0x100_0000_0000_0000, 0x4);
  }

  function Power256(n: nat): nat {
    if n == 0 then 1 else 0x100 * Power256(n - 1)
  }

  lemma {:induction false} AboveIs(x: nat, n: nat, unit: nat, bound: nat)
    requires unit == Power256(n) && x < unit * bound
    ensures Above(x, n) < bound
  {
    if n > 0 {
      assert Power256(n) == 0x100 * Power256(n - 1);
      assert x / 0x100 < Power256(n - 1) * bound;
      AboveIs(x / 0x100, n - 1, Power256(n - 1), bound);
    }
  }

  lemma TotalRead(x: nat, rest: seq<byte>)
    requires x < MAX_TOTAL
    ensures SkipTotal(WriteTotal(x) + rest) == Rest(rest)
  {
    FirstOfTotal(x);
    var w := WriteTotal(x);
    assert (w + rest)[0] == w[0] && (w + rest)[|w|..] == rest;
  }

  lemma TotalsRead(sent: nat, size: nat, rest: seq<byte>)
    requires sent < MAX_TOTAL && size < MAX_TOTAL
    ensures SkipTotals(WriteTotals(sent, size) + rest, 5) == Rest(rest)
  {
    var z, v, w := WriteTotal(0), WriteTotal(sent), WriteTotal(size);
    var s4 := z + rest;
    var s3, s2 := z + s4, w + (z + s4);
    var s1 := v + s2;
    assert WriteTotals(sent, size) + rest == z + s1;
    TotalRead(0, s1);
    TotalRead(sent, s2);
    TotalRead(size, s3);
    TotalRead(0, s4);
    TotalRead(0, rest);
    Unfold(z + s1, s1, 5);
    Unfold(s1, s2, 4);
    Unfold(s2, s3, 3);
    Unfold(s3, s4, 2);
    Unfold(s4, rest, 1);
  }

  lemma Unfold(s: seq<byte>, rest: seq<byte>, n: nat)
    requires n > 0 && SkipTotal(s) == Rest(rest)
    ensures SkipTotals(s, n) == SkipTotals(rest, n - 1)
  {
  }

  lemma {:induction false} TotalsContinue(s: seq<byte>, t: seq<byte>, n: nat)
    ensures SkipTotals(s, n).Rest? ==> SkipTotals(s + t, n) == Rest(SkipTotals(s, n).bytes + t)
    ensures SkipTotals(s, n).Bad? ==> SkipTotals(s + t, n).Bad?
  {
    if n > 0 {
      TotalContinues(s, t);
      if SkipTotal(s).Rest? {
        TotalsContinue(SkipTotal(s).bytes, t, n - 1);
      }
    }
  }

  lemma TotalContinues(s: seq<byte>, t: seq<byte>)
    ensures Continues(SkipTotal, s, t)
  {
    if |s| >= 3 {
      assert (s + t)[0] == s[0];
      var n := 3 + Extra(s[0]);
      if |s| >= n {
        assert (s + t)[n..] == s[n..] + t;
      }
    }
  }

  lemma IndexContinues(s: seq<byte>, t: seq<byte>)
    ensures Continues(SkipIndex, s, t)
  {
    if s != [] {
      assert (s + t)[0] == s[0] && (s + t)[1..] == s[1..] + t;
      DeltaContinues(s, t, InitialNdxState().positive);
      DeltaContinues(s[1..], t, InitialNdxState().negative);
    }
  }

  lemma DeltaContinues(s: seq<byte>, t: seq<byte>, previous: int)
    ensures ReadDelta(s, previous).Some? ==>
              ReadDelta(s + t, previous) == Some((ReadDelta(s, previous).value.0, ReadDelta(s, previous).value.1 + t))
  {
    if s != [] {
      assert (s + t)[..|s|] == s;
      assert (s + t)[1..] == s[1..] + t;
      if |s| >= 3 {
        assert (s + t)[3..] == s[3..] + t;
      }
      if |s| >= 5 {
        assert (s + t)[5..] == s[5..] + t;
      }
    }
  }

  /** The closing bytes are read as they were written. */
  lemma CompactValid(sent: nat, size: nat)
    requires sent < MAX_TOTAL && size < MAX_TOTAL
    ensures CompactTail(sent, size).Valid()
  {
    var t := CompactTail(sent, size);
    forall rest: seq<byte>
      ensures Reads(t.index, t.done, rest)
    {
      assert ([0] + rest)[1..] == rest;
    }
    forall rest: seq<byte>
      ensures Reads(t.figures, t.stats, rest)
    {
      TotalsRead(sent, size, rest);
    }
    forall s: seq<byte>, u: seq<byte>
      ensures Continues(t.index, s, u)
    {
      IndexContinues(s, u);
    }
    forall s: seq<byte>, u: seq<byte>
      ensures Continues(t.figures, s, u)
    {
      TotalsContinue(s, u, 5);
    }
    StatsBegin(sent, size);
  }

  /** The first total is always zero, so its first byte reads as the marker. */
  lemma StatsBegin(sent: nat, size: nat)
    requires sent < MAX_TOTAL && size < MAX_TOTAL
    ensures WriteTotals(sent, size) != [] && SkipIndex(WriteTotals(sent, size)) == Rest(WriteTotals(sent, size)[1..])
  {
    FirstOfTotal(0);
    assert Above(0, 2) == 0;
    assert WriteTotals(sent, size)[0] == 0;
  }

  // ---- Aligned or not ----

  lemma {:induction false} TotalsTake(s: seq<byte>, n: nat)
    ensures SkipTotals(s, n).Rest? ==> |SkipTotals(s, n).bytes| + 3 * n <= |s|
  {
    if n > 0 && SkipTotal(s).Rest? {
      TotalsTake(SkipTotal(s).bytes, n - 1);
    }
  }

  /** With less than 8 MiB sent and in all, the error-exit exchange never gets its marker. */
  lemma SmallTotals(sent: nat, size: nat)
    requires sent < 0x80_0000 && size < 0x80_0000
    ensures var t := CompactTail(sent, size);
            t.index(t.stats).Rest? && !Aligned(t, true)
  {
    var t := CompactTail(sent, size);
    StatsBegin(sent, size);
    FirstOfTotal(0);
    FirstOfTotal(sent);
    FirstOfTotal(size);
    assert |t.stats| == 15 && |Remains(t)| == 15;
    TotalsTake(Remains(t), 5);
    if t.figures(Remains(t)).Rest? {
      assert t.figures(Remains(t)).bytes == [];
    }
  }

  /** From 8 MiB up to 1 GiB sent, the bytes fall into step again if the lowest one is below 128. */
  lemma LuckyTotals(sent: nat, size: nat, sync: bool)
    requires 0x80_0000 <= sent < 0x4000_0000 && sent % 0x100 < 0x80 && size < MAX_TOTAL
    ensures var t := CompactTail(sent, size);
            t.index(t.stats).Rest? && Aligned(t, sync)
  {
    var t, v := CompactTail(sent, size), WriteTotal(sent);
    StatsBegin(sent, size);
    FirstOfTotal(sent);
    var z := WriteTotal(0);
    assert z == [0, 0, 0] by {
      assert LowBytes(0, 2) == [0, 0];
    }
    var tail := WriteTotal(size) + (z + (z + [0]));
    Realigned(v, tail, Remains(t), size);
    TailRead(size);
  }

  lemma Realigned(v: seq<byte>, tail: seq<byte>, remains: seq<byte>, size: nat)
    requires size < MAX_TOTAL && |v| == 4 && v[1] < 0x80
    requires tail == WriteTotal(size) + ([0, 0, 0] + ([0, 0, 0] + [0]))
    requires remains == ([0, 0, 0] + (v + (WriteTotal(size) + ([0, 0, 0] + [0, 0, 0]))))[1..] + [0]
    ensures SkipTotals(remains, 5) == SkipTotals(tail, 3)
  {
    assert remains == [0, 0, v[0]] + ([v[1], v[2], v[3]] + tail);
    SkipThree(0, 0, v[0], [v[1], v[2], v[3]] + tail, 5);
    SkipThree(v[1], v[2], v[3], tail, 4);
  }

  lemma TailRead(size: nat)
    requires size < MAX_TOTAL
    ensures SkipTotals(WriteTotal(size) + ([0, 0, 0] + ([0, 0, 0] + [0])), 3) == Rest([0])
  {
    TotalRead(size, [0, 0, 0] + ([0, 0, 0] + [0]));
    SkipThree(0, 0, 0, [0, 0, 0] + [0], 2);
    SkipThree(0, 0, 0, [0], 1);
  }

  lemma SkipThree(a: byte, b: byte, c: byte, rest: seq<byte>, n: nat)
    requires a < 0x80 && n > 0
    ensures SkipTotals([a, b, c] + rest, n) == SkipTotals(rest, n - 1)
  {
    assert ([a, b, c] + rest)[3..] == rest;
  }
}
