/** Bytes, fixed-width little-endian integers and the small datatypes every module shares. */
module Bytes {
  type byte = x: int | 0 <= x < 0x100
  type u16 = x: int | 0 <= x < 0x1_0000
  type u32 = x: int | 0 <= x < 0x1_0000_0000
  type i32 = x: int | -0x8000_0000 <= x < 0x8000_0000

  datatype Option<+T> = None | Some(value: T)

  /** Concatenation of a sequence of chunks. */
  function Flatten<T>(chunks: seq<seq<T>>): (s: seq<T>)
  {
    if chunks == [] then [] else chunks[0] + Flatten(chunks[1..])
  }

  lemma {:induction false} FlattenAppend<T>(a: seq<seq<T>>, b: seq<seq<T>>)
    ensures Flatten(a + b) == Flatten(a) + Flatten(b)
  {
    if a == [] {
      assert a + b == b;
    } else {
      assert (a + b)[0] == a[0] && (a + b)[1..] == a[1..] + b;
      FlattenAppend(a[1..], b);
      assert a[0] + (Flatten(a[1..]) + Flatten(b)) == a[0] + Flatten(a[1..]) + Flatten(b);
    }
  }

  lemma FlattenOne<T>(a: seq<seq<T>>, x: seq<T>)
    ensures Flatten(a + [x]) == Flatten(a) + x
  {
    FlattenAppend(a, [x]);
    assert Flatten([x]) == x + Flatten([]);
  }

  lemma Assoc<T>(a: seq<T>, b: seq<T>, c: seq<T>)
    ensures a + (b + c) == a + b + c
  {
  }

  lemma Prefix<T>(s: seq<T>, i: nat, j: nat)
    requires i <= j <= |s|
    ensures s[..i] + s[i..j] == s[..j]
  {
  }

  lemma SliceOfSlice<T>(s: seq<T>, i: nat, j: nat, p: nat, q: nat)
    requires i <= j <= |s| && p <= q <= j - i
    ensures s[i..j][p..q] == s[i + p..i + q]
  {
    forall k | 0 <= k < q - p
      ensures s[i..j][p..q][k] == s[i + p..i + q][k]
    {
      assert s[i..j][p..q][k] == s[i..j][p + k];
    }
  }

  /** The four bytes of `u32::to_le_bytes`. */
  function LittleEndian32(x: u32): (b: seq<byte>)
    ensures |b| == 4
  {
    [x % 0x100, x / 0x100 % 0x100, x / 0x1_0000 % 0x100, x / 0x100_0000]
  }

  function FromLittleEndian32(b: seq<byte>): (x: u32)
    requires |b| == 4
  {
    b[0] as int + 0x100 * b[1] as int + 0x1_0000 * b[2] as int + 0x100_0000 * b[3] as int
  }

  lemma LittleEndian32RoundTrip(x: u32)
    ensures FromLittleEndian32(LittleEndian32(x)) == x
  {
    assert x / 0x100 / 0x100 == x / 0x1_0000;
    assert x / 0x1_0000 / 0x100 == x / 0x100_0000;
  }

  /** `i32 as u32` and back. */
  function Unsigned(x: i32): (u: u32) {
    if x < 0 then x + 0x1_0000_0000 else x
  }

  function ToSigned(u: u32): (x: i32) {
    if u < 0x8000_0000 then u else u - 0x1_0000_0000
  }

  /** `varint::write_int`: four little-endian bytes. */
  function WriteInt(x: i32): (b: seq<byte>)
    ensures |b| == 4
  {
    LittleEndian32(Unsigned(x))
  }

  /** `varint::read_int`: the integer and the bytes after it, or nothing at end of stream. */
  function ReadInt(s: seq<byte>): (r: Option<(i32, seq<byte>)>)
    ensures r.Some? <==> |s| >= 4
    ensures r.Some? ==> r.value.1 == s[4..]
  {
    if |s| < 4 then None else Some((ToSigned(FromLittleEndian32(s[..4])), s[4..]))
  }

  lemma IntRoundTrip(x: i32, rest: seq<byte>)
    ensures ReadInt(WriteInt(x) + rest) == Some((x, rest))
  {
    LittleEndian32RoundTrip(Unsigned(x));
    assert (WriteInt(x) + rest)[..4] == WriteInt(x);
    assert (WriteInt(x) + rest)[4..] == rest;
  }

  function Min(a: int, b: int): (m: int)
    ensures m <= a && m <= b && (m == a || m == b)
  {
    if a < b then a else b
  }

  lemma DivUnique(x: nat, b: nat, q: int, r: nat)
    requires 0 < b && r < b && x == q * b + r
    ensures x / b == q && x % b == r
  {
    var d := x / b - q;
    assert x == (x / b) * b + x % b;
    assert d * b == r - x % b;
    assert d >= 1 ==> d * b >= b;
    assert d <= -1 ==> d * b <= -(b as int);
  }
}
