/**
 * The rolling checksum (checksum1). `s1` and `s2` are 32-bit and wrap; the model states the
 * unbounded sums they stand for and proves that sliding the window by one byte keeps them equal
 * to the sums of the new window.
 */
module Checksum {
  import opened Bytes

  const M: int := 0x1_0000_0000

  /** Sum of the bytes of `w`, each plus the per-protocol offset. */
  ghost function ByteSum(w: seq<byte>, off: u32): int
  {
    if w == [] then 0 else ByteSum(w[..|w| - 1], off) + w[|w| - 1] + off
  }

  /** Sum of `ByteSum` over every non-empty prefix of `w`. */
  ghost function PrefixSum(w: seq<byte>, off: u32): int
  {
    if w == [] then 0 else PrefixSum(w[..|w| - 1], off) + ByteSum(w, off)
  }

  /** `(s1 & 0xFFFF) | (s2 << 16)` on 32-bit words. */
  function Pack(s1: u32, s2: u32): (d: u32)
  {
    s1 % 0x1_0000 + s2 % 0x1_0000 * 0x1_0000
  }

  /** The checksum of a whole block. */
  ghost function Checksum1(w: seq<byte>, off: u32): u32
  {
    Pack(ByteSum(w, off) % M, PrefixSum(w, off) % M)
  }

  /** The low 16 bits of both sums, that of the prefix sums in the upper half. */
  ghost predicate Halves(d: u32, s1: int, s2: int) {
    d % 0x1_0000 == s1 % 0x1_0000 && d / 0x1_0000 == s2 % 0x1_0000
  }

  lemma LowHalf(x: int)
    ensures x % M % 0x1_0000 == x % 0x1_0000
  {
    assert x == x / M * M + x % M;
    assert M == 0x1_0000 * 0x1_0000;
  }

  lemma PackHalves(a: int, b: int)
    ensures Halves(Pack(a % M, b % M), a, b)
  {
    LowHalf(a);
    LowHalf(b);
  }

  function WrapAdd(a: u32, b: int): (r: u32)
    ensures r == (a + b) % M
  {
    (a + b) % M
  }

  /** Adding to a wrapped sum is wrapping the sum. */
  lemma AddWrapped(a: int, b: int)
    ensures (a % M + b) % M == (a + b) % M
    ensures (b + a % M) % M == (a + b) % M
  {
    var q := a / M;
    assert a == q * M + a % M;
    assert (a + b) == (a % M + b) + q * M;
    ModPlus(a % M + b, q);
  }

  lemma {:induction false} ModPlus(x: int, q: int)
    ensures (x + q * M) % M == x % M
    decreases if q < 0 then -q else q
  {
    if q > 0 {
      ModPlus(x, q - 1);
      assert x + q * M == x + (q - 1) * M + M;
    } else if q < 0 {
      ModPlus(x, q + 1);
      assert x + q * M + M == x + (q + 1) * M;
    }
  }

  /** The window one byte further on. */
  lemma SlideWindow(source: seq<byte>, pos: nat, b: nat)
    requires b > 0 && pos + b < |source|
    ensures source[pos + 1..pos + 1 + b] == source[pos..pos + b][1..] + [source[pos + b]]
  {
  }

  lemma SumsOfExtended(w: seq<byte>, x: byte, off: u32)
    ensures ByteSum(w + [x], off) == ByteSum(w, off) + x + off
    ensures PrefixSum(w + [x], off) == PrefixSum(w, off) + ByteSum(w, off) + x + off
  {
    assert (w + [x])[..|w|] == w;
  }

  /** One turn of the summing loop, on the wrapped sums. */
  lemma ExtendWrapped(w: seq<byte>, x: byte, off: u32)
    ensures WrapAdd(ByteSum(w, off) % M, x + off) == ByteSum(w + [x], off) % M
    ensures WrapAdd(PrefixSum(w, off) % M, ByteSum(w + [x], off) % M) == PrefixSum(w + [x], off) % M
  {
    SumsOfExtended(w, x, off);
    AddWrapped(ByteSum(w, off), x + off);
    AddWrapped(ByteSum(w + [x], off), PrefixSum(w, off) % M);
    AddWrapped(PrefixSum(w, off), ByteSum(w + [x], off));
  }

  /** Dropping the first byte takes it out of every prefix. */
  lemma {:induction false} SumsOfTail(w: seq<byte>, off: u32)
    requires w != []
    ensures ByteSum(w[1..], off) == ByteSum(w, off) - w[0] - off
    ensures PrefixSum(w[1..], off) == PrefixSum(w, off) - |w| * (w[0] + off)
  {
    var n := |w|;
    if n == 1 {
      assert w[..0] == [];
    } else {
      var front := w[..n - 1];
      SumsOfTail(front, off);
      assert w[1..] == front[1..] + [w[n - 1]];
      SumsOfExtended(front[1..], w[n - 1], off);
      assert w == front + [w[n - 1]];
      SumsOfExtended(front, w[n - 1], off);
    }
  }

  /** One step of the slide, on the unbounded sums. */
  lemma SumsOfSlide(w: seq<byte>, x: byte, off: u32)
    requires w != []
    ensures ByteSum(w[1..] + [x], off) == ByteSum(w, off) + x - w[0]
    ensures PrefixSum(w[1..] + [x], off)
         == PrefixSum(w, off) + ByteSum(w[1..] + [x], off) - |w| * (w[0] + off)
  {
    SumsOfTail(w, off);
    SumsOfExtended(w[1..], x, off);
  }

  /** Congruence of the wrapped multiplication in `roll`. */
  lemma MulWrapped(n: int, k: int)
    ensures (n % M * k) % M == (n * k) % M
  {
    var q := n / M;
    assert n == q * M + n % M;
    assert n * k == n % M * k + q * k * M;
    ModPlus(n % M * k, q * k);
  }

  method Compute1(data: seq<byte>, off: u32) returns (d: u32)
    ensures d == Checksum1(data, off)
    ensures Halves(d, ByteSum(data, off), PrefixSum(data, off))
  {
    PackHalves(ByteSum(data, off), PrefixSum(data, off));
    var s1: u32, s2: u32 := 0, 0;
    for i := 0 to |data|
      invariant s1 == ByteSum(data[..i], off) % M
      invariant s2 == PrefixSum(data[..i], off) % M
    {
      assert data[..i + 1] == data[..i] + [data[i]];
      ExtendWrapped(data[..i], data[i], off);
      s1 := WrapAdd(s1, data[i] + off);
      s2 := WrapAdd(s2, s1);
    }
    assert data[..|data|] == data;
    d := Pack(s1, s2);
  }

  /** The two sums of a rolling state. */
  datatype Weak = Weak(s1: u32, s2: u32) {
    function Digest(): (d: u32) {
      Pack(s1, s2)
    }
  }

  /** The sums of a window computed from scratch. */
  ghost function WeakOf(w: seq<byte>, off: u32): Weak
  {
    Weak(ByteSum(w, off) % M, PrefixSum(w, off) % M)
  }

  /** The update of `roll`, whatever the sums stand for. */
  function Rolled(weak: Weak, oldByte: byte, newByte: byte, off: u32, count: u32): Weak
  {
    var s1 := WrapAdd(WrapAdd(weak.s1, newByte), -(oldByte as int));
    Weak(s1, WrapAdd(WrapAdd(weak.s2, s1), -(count * (oldByte + off) % M)))
  }

  class RollingChecksum {
    var s1: u32
    var s2: u32
    var count: u32
    const charOffset: u32

    /** The state is that of a fresh computation over the window `w`. */
    ghost predicate Holds(w: seq<byte>)
      reads this
    {
      State() == WeakOf(w, charOffset) && count == |w| % M
    }

    function State(): Weak
      reads this
    {
      Weak(s1, s2)
    }

    constructor (off: u32)
      ensures charOffset == off
      ensures s1 == s2 == count == 0
    {
      charOffset := off;
      s1, s2, count := 0, 0, 0;
    }

    method Compute(data: seq<byte>)
      modifies this
      ensures Holds(data)
    {
      s1, s2 := 0, 0;
      count := |data| % M;
      for i := 0 to |data|
        invariant count == |data| % M
        invariant s1 == ByteSum(data[..i], charOffset) % M
        invariant s2 == PrefixSum(data[..i], charOffset) % M
      {
        assert data[..i + 1] == data[..i] + [data[i]];
        ExtendWrapped(data[..i], data[i], charOffset);
        s1 := WrapAdd(s1, data[i] + charOffset);
        s2 := WrapAdd(s2, s1);
      }
      assert data[..|data|] == data;
    }

    /** Slides the window by one byte. */
    method Roll(oldByte: byte, newByte: byte)
      modifies this
      ensures State() == Rolled(old(State()), oldByte, newByte, charOffset, count) && count == old(count)
    {
      s1 := WrapAdd(WrapAdd(s1, newByte), -(oldByte as int));
      s2 := WrapAdd(WrapAdd(s2, s1), -(count * (oldByte + charOffset) % M));
    }

    /** Of a state that covers a window, the halves are those of the window's sums. */
    function Digest(): (d: u32)
      reads this
      ensures forall w: seq<byte> :: Holds(w) ==> Halves(d, ByteSum(w, charOffset), PrefixSum(w, charOffset))
    {
      var d := State().Digest();
      assert forall w: seq<byte> :: Holds(w) ==> Halves(d, ByteSum(w, charOffset), PrefixSum(w, charOffset)) by {
        forall w: seq<byte> | Holds(w)
          ensures Halves(d, ByteSum(w, charOffset), PrefixSum(w, charOffset))
        {
          PackHalves(ByteSum(w, charOffset), PrefixSum(w, charOffset));
        }
      }
      d
    }
  }

  /** Rolled from a window's own sums, the sums are those of the next window. */
  lemma RollsOn(w: seq<byte>, x: byte, off: u32)
    requires w != []
    ensures Rolled(WeakOf(w, off), w[0], x, off, |w| % M) == WeakOf(w[1..] + [x], off)
  {
    RollCorrect(w, x, off, ByteSum(w, off) % M, PrefixSum(w, off) % M, |w| % M);
  }

  /** The wrapped update of `roll` computes the wrapped sums of the next window. */
  lemma RollCorrect(w: seq<byte>, x: byte, off: u32, s1: u32, s2: u32, count: u32)
    requires w != []
    requires s1 == ByteSum(w, off) % M && s2 == PrefixSum(w, off) % M && count == |w| % M
    ensures WrapAdd(WrapAdd(s1, x), -(w[0] as int)) == ByteSum(w[1..] + [x], off) % M
    ensures WrapAdd(WrapAdd(s2, WrapAdd(WrapAdd(s1, x), -(w[0] as int))), -(count * (w[0] + off) % M))
         == PrefixSum(w[1..] + [x], off) % M
  {
    var a, b, k: int := ByteSum(w, off), PrefixSum(w, off), w[0] + off;
    SumsOfSlide(w, x, off);
    SlideWrapped(a, x, w[0]);
    MulWrapped(|w|, k);
    WrapChain(b, a + x - w[0], |w| * k);
  }

  lemma SlideWrapped(a: int, x: int, y: int)
    ensures ((a % M + x) % M - y) % M == (a + x - y) % M
  {
    AddWrapped(a, x);
    AddWrapped(a + x, -y);
  }

  lemma WrapChain(b: int, a: int, p: int)
    ensures ((b % M + a % M) % M - p % M) % M == (b + a - p) % M
  {
    AddWrapped(a, b % M);
    AddWrapped(b, a);
    AddWrapped(b + a, -(p % M));
    SubWrapped(b + a, p);
  }

  lemma SubWrapped(a: int, b: int)
    ensures (a - b % M) % M == (a - b) % M
  {
    var q := b / M;
    assert b == q * M + b % M;
    assert a - b % M == (a - b) + q * M;
    ModPlus(a - b, q);
  }
}
