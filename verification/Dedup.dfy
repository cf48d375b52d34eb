/**
 * Deduplicated values on the wire: a value sent before is sent as its place in the list of values
 * sent, a new one in full. Encoder and decoder keep their lists in step.
 */
module Dedup {
  import opened Bytes
  import opened Varint

  /** How values are written and read; reading gives back `norm` of what was written. */
  datatype Format<!T> = Format(write: T -> seq<byte>, read: seq<byte> -> Option<(T, seq<byte>)>, norm: T -> T,
                               fits: T -> bool) {
    ghost predicate RoundTrips(x: T, rest: seq<byte>) {
      read(write(x) + rest) == Some((norm(x), rest))
    }
  }

  ghost predicate Faithful<T(!new)>(format: Format<T>) {
    forall x: T, rest: seq<byte> :: format.fits(x) ==> format.RoundTrips(x, rest)
  }

  // ---- Lists of values ----

  ghost function WriteEach<T>(format: Format<T>, xs: seq<T>, k: nat): seq<byte>
    requires k <= |xs|
    decreases |xs| - k
  {
    if k == |xs| then [] else format.write(xs[k]) + WriteEach(format, xs, k + 1)
  }

  /** `n` more values, added to `got`. */
  ghost function ReadEach<T>(format: Format<T>, s: seq<byte>, n: nat, got: seq<T>): Option<(seq<T>, seq<byte>)>
    decreases n
  {
    if n == 0 then Some((got, s)) else
    match format.read(s)
    case None => None
    case Some((x, rest)) => ReadEach(format, rest, n - 1, got + [x])
  }

  lemma {:induction false} ReadOneOfEach<T>(format: Format<T>, s: seq<byte>, n: nat, got: seq<T>)
    requires n > 0
    ensures ReadEach(format, s, n, got)
         == match format.read(s) case None => None case Some((x, rest)) => ReadEach(format, rest, n - 1, got + [x])
  {
  }

  ghost function Normed<T>(format: Format<T>, s: seq<T>): (r: seq<T>)
    ensures |r| == |s| && forall i :: 0 <= i < |s| ==> r[i] == format.norm(s[i])
  {
    seq(|s|, i requires 0 <= i < |s| => format.norm(s[i]))
  }

  lemma {:induction false} EachRead<T(!new)>(format: Format<T>, xs: seq<T>, k: nat, rest: seq<byte>)
    requires Faithful(format) && k <= |xs| && forall i :: 0 <= i < |xs| ==> format.fits(xs[i])
    ensures ReadEach(format, WriteEach(format, xs, k) + rest, |xs| - k, Normed(format, xs)[..k])
         == Some((Normed(format, xs), rest))
    decreases |xs| - k
  {
    var all := Normed(format, xs);
    if k == |xs| {
      assert all[..k] == all && [] + rest == rest;
    } else {
      Assoc(format.write(xs[k]), WriteEach(format, xs, k + 1), rest);
      assert format.RoundTrips(xs[k], WriteEach(format, xs, k + 1) + rest);
      assert all[..k + 1] == all[..k] + [all[k]];
      EachRead(format, xs, k + 1, rest);
    }
  }

  /** A list after its length, which is written in 32 bits. */
  ghost function WriteList<T>(format: Format<T>, xs: seq<T>): seq<byte>
  {
    WriteVarint(|xs| % 0x1_0000_0000) + WriteEach(format, xs, 0)
  }

  ghost function ReadList<T>(format: Format<T>, s: seq<byte>): Option<(seq<T>, seq<byte>)>
  {
    match ReadVarint(s) case None => None case Some((n, rest)) => ReadEach(format, rest, n, [])
  }

  /** Writes the length, then the values one after the other. */
  method EncodeList<T>(format: Format<T>, xs: seq<T>) returns (b: seq<byte>)
    ensures b == WriteList(format, xs)
  {
    b := WriteVarint(|xs| % 0x1_0000_0000);
    for k := 0 to |xs|
      invariant b + WriteEach(format, xs, k) == WriteList(format, xs)
    {
      Assoc(b, format.write(xs[k]), WriteEach(format, xs, k + 1));
      b := b + format.write(xs[k]);
    }
    assert b + [] == b;
  }

  /** Reads the length, then that many values; None where the bytes end before. */
  method DecodeList<T>(format: Format<T>, s: seq<byte>) returns (r: Option<(seq<T>, seq<byte>)>)
    ensures r == ReadList(format, s)
  {
    var count := ReadVarint(s);
    if count.None? {
      return None;
    }
    var n, xs, rest := count.value.0, [], count.value.1;
    for k := 0 to n
      invariant ReadList(format, s) == ReadEach(format, rest, n - k, xs)
    {
      ReadOneOfEach(format, rest, n - k, xs);
      var x := format.read(rest);
      if x.None? {
        return None;
      }
      xs, rest := xs + [x.value.0], x.value.1;
    }
    r := Some((xs, rest));
  }

  lemma {:induction false} ListRead<T(!new)>(format: Format<T>, xs: seq<T>, rest: seq<byte>)
    requires Faithful(format) && |xs| < 0x1_0000_0000 && forall i :: 0 <= i < |xs| ==> format.fits(xs[i])
    ensures ReadList(format, WriteList(format, xs) + rest) == Some((Normed(format, xs), rest))
  {
    var n, list := |xs| % 0x1_0000_0000, WriteEach(format, xs, 0);
    assert n == |xs|;
    Assoc(WriteVarint(n), list, rest);
    VarintRoundTrip(n, list + rest);
    assert Normed(format, xs)[..0] == [];
    EachRead(format, xs, 0, rest);
  }

  /** First place of `x` in the list, from `k` on. */
  function Position<T(==)>(seen: seq<T>, x: T, k: nat): (p: Option<nat>)
    requires k <= |seen|
    ensures p.None? ==> forall i :: k <= i < |seen| ==> seen[i] != x
    ensures p.Some? ==> k <= p.value < |seen| && seen[p.value] == x && forall i :: k <= i < p.value ==> seen[i] != x
    decreases |seen| - k
  {
    if k == |seen| then None else if seen[k] == x then Some(k) else Position(seen, x, k + 1)
  }

  method FindPosition<T(==)>(seen: seq<T>, x: T) returns (p: Option<nat>)
    ensures p == Position(seen, x, 0)
  {
    for k := 0 to |seen|
      invariant Position(seen, x, 0) == Position(seen, x, k)
    {
      if seen[k] == x {
        return Some(k);
      }
    }
    p := None;
  }

  // ---- One value ----

  ghost function Encoded<T>(format: Format<T>, seen: seq<T>, x: T): seq<byte>
    requires |seen| < 0xFFFF_FFFF
  {
    match Position(seen, x, 0)
    case Some(i) => WriteVarint(i + 1)
    case None => WriteVarint(0) + format.write(x)
  }

  ghost function Seen<T>(seen: seq<T>, x: T): seq<T>
  {
    if x in seen then seen else seen + [x]
  }

  /** The value, the list after it, and the bytes after it. */
  ghost function Decoded<T>(format: Format<T>, seen: seq<T>, s: seq<byte>): Option<(T, seq<T>, seq<byte>)>
  {
    match ReadVarint(s)
    case None => None
    case Some((n, rest)) =>
      if n > 0 then
        if n - 1 >= |seen| then None else Some((seen[n - 1], seen, rest))
      else
        match format.read(rest)
        case None => None
        case Some((x, rest')) => Some((x, seen + [x], rest'))
  }

  /** One value through: what comes out is `norm` of it, and the lists stay in step. */
  lemma OneDecoded<T(!new)>(format: Format<T>, seen: seq<T>, x: T, rest: seq<byte>)
    requires Faithful(format) && format.fits(x) && |seen| < 0xFFFF_FFFF
    ensures Decoded(format, Normed(format, seen), Encoded(format, seen, x) + rest)
         == Some((format.norm(x), Normed(format, Seen(seen, x)), rest))
  {
    match Position(seen, x, 0)
    case Some(i) =>
      VarintRoundTrip(i + 1, rest);
    case None =>
      Assoc(WriteVarint(0), format.write(x), rest);
      VarintRoundTrip(0, format.write(x) + rest);
      assert format.RoundTrips(x, rest);
      assert Normed(format, seen + [x]) == Normed(format, seen) + [format.norm(x)];
  }
}
