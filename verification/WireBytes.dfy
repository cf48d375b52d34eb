/**
 * The bytes that a peer sees. Reading back what was written fixes a format only up to a change made
 * on both sides; here each format is written out on bytes.
 */
module WireBytes {
  import opened Bytes
  import Varint
  import Frames
  import Signatures
  import SumWire
  import FileTransfer
  import Tokens
  import C = CompressedTokens
  import Statistics
  import Handshake
  import Dedup
  import Acl
  import Xattr
  import DirectoryTree
  import FileListWire

  /** Integers of four bytes, the lowest first, negative ones in two's complement. */
  lemma IntBytes(x: i32)
    ensures var b := WriteInt(x);
            && |b| == 4
            && b[0] as int + 0x100 * b[1] as int + 0x1_0000 * b[2] as int + 0x100_0000 * b[3] as int
               == if x < 0 then x as int + 0x1_0000_0000 else x as int
  {
    LittleEndian32RoundTrip(Unsigned(x));
  }

  /** Variable-length integers: the highest bits under a length mark, then the other bytes, the lowest first. */
  lemma VarintBytes()
    ensures Varint.WriteVarint(0x7F) == [0x7F] && Varint.WriteVarint(0x80) == [0x80, 0x80]
    ensures Varint.WriteVarint(0x3FFF) == [0xBF, 0xFF] && Varint.WriteVarint(0x4000) == [0xC0, 0x00, 0x40]
    ensures Varint.WriteVarint(0x12_3456) == [0xD2, 0x56, 0x34]
    ensures Varint.WriteVarint(0x0123_4567) == [0xE1, 0x67, 0x45, 0x23]
    ensures Varint.WriteVarint(0x1234_5678) == [0xF0, 0x78, 0x56, 0x34, 0x12]
  {
  }

  /** No integer takes more than four bytes after its first. */
  lemma LongVarintRefused(s: seq<byte>)
    requires s != [] && s[0] >= 0xF8
    ensures Varint.ReadVarint(s) == None
  {
  }

  /** File indices: a difference in one byte or in three, the index itself in five, negative ones after 0xFF. */
  lemma NdxBytes()
    ensures var start := Varint.InitialNdxState();
            && Varint.WriteNdx(-1, start) == [0x00]
            && Varint.WriteNdx(0, start) == [0x01] && Varint.WriteNdx(252, start) == [0xFD]
            && Varint.WriteNdx(253, start) == [0xFE, 0x00, 0xFE]
            && Varint.WriteNdx(-2, start) == [0xFF, 0x01] && Varint.WriteNdx(-101, start) == [0xFF, 0x64]
    ensures Varint.WriteNdx(1000, Varint.NdxState(5, 1)) == [0xFE, 0x03, 0xE3]
    ensures Varint.WriteNdx(0x12_3456, Varint.NdxState(0x20_0000, 1)) == [0xFE, 0x80, 0x56, 0x34, 0x12]
  {
    var start := Varint.InitialNdxState();
    assert [0xFF] + Varint.WriteDelta(2, 1) == [0xFF, 0x01];
    assert [0xFF] + Varint.WriteDelta(101, 1) == [0xFF, 0x64];
    assert [] + Varint.WriteDelta(0, -1) == [0x01] && [] + Varint.WriteDelta(252, -1) == [0xFD];
  }

  /** Data frames: three bytes of length, the lowest first, then the tag seven. */
  lemma FrameBytes(payload: seq<byte>)
    requires |payload| <= 0xFF_FFFF
    ensures Frames.Frame(0, payload)
         == [|payload| % 0x100, |payload| / 0x100 % 0x100, |payload| / 0x1_0000, 7] + payload
    ensures Frames.DataFrames([0x61]) == [0x01, 0x00, 0x00, 0x07, 0x61]
  {
    var one: seq<byte> := [0x61];
    assert one[..1] == one && one[1..] == [];
    assert Frames.DataFrames([]) == [];
  }

  /** Literal data are cut into frames of 32 KiB. */
  lemma {:induction false} FrameSizes(data: seq<byte>)
    requires |data| > 0x8000
    ensures Frames.DataFrames(data) == [0x00, 0x80, 0x00, 0x07] + data[..0x8000] + Frames.DataFrames(data[0x8000..])
  {
    var first, rest := data[..0x8000], data[0x8000..];
    assert Frames.DataFrames(data) == Frames.Frame(0, first) + Frames.DataFrames(rest);
    assert Frames.Frame(0, first) == [0x00, 0x80, 0x00, 0x07] + first;
  }

  /** The header of signatures: count, block length, length of the strong sums, length of the last block. */
  lemma SumHeadBytes(h: Signatures.SumHead)
    ensures SumWire.WriteSumHead(h)[0..4] == WriteInt(h.count) && SumWire.WriteSumHead(h)[4..8] == WriteInt(h.blength)
    ensures SumWire.WriteSumHead(h)[8..12] == WriteInt(h.s2length)
    ensures SumWire.WriteSumHead(h)[12..16] == WriteInt(h.remainder)
  {
  }

  /** The header of a reply: sixteen zeros where there are no blocks, otherwise the one received. */
  lemma ReplyHeadBytes(h: Signatures.SumHead)
    ensures var b := SumWire.WriteSumHead(FileTransfer.ResponseHead(h));
            if h.count == 0 then forall k :: 0 <= k < 16 ==> b[k] == 0 else b == SumWire.WriteSumHead(h)
  {
    assert WriteInt(0) == [0, 0, 0, 0];
  }

  /** A block: four bytes of weak sum, the lowest first, then the strong sum. */
  lemma SumEntryBytes(e: Signatures.SumEntry)
    requires e.sum1 == 0x1234_5678
    ensures SumWire.EntryBytes([e], 0) == [0x78, 0x56, 0x34, 0x12] + e.sum2
  {
    assert SumWire.EntryBytes([e], 1) == [];
  }

  /** Plain tokens: a length and the data, a block as the complement of its number, zero for the end. */
  lemma TokenBytes(i: i32)
    requires 0 <= i < 0x7FFF_FFFF
    ensures Tokens.DataBytes([0x61], 0) == [0x01, 0x00, 0x00, 0x00, 0x61]
    ensures Tokens.BlockMatchBytes(i) == SumWire.Ok(WriteInt(-1 - i as int))
    ensures Tokens.BlockMatchBytes(5) == SumWire.Ok([0xFA, 0xFF, 0xFF, 0xFF])
    ensures Tokens.EofBytes() == [0x00, 0x00, 0x00, 0x00]
  {
    assert Tokens.DataBytes([0x61], 1) == [];
  }

  /** Compressed tokens: 0x40 and a length in 14 bits; 0x80 or 0xC0 for runs near the last, 0x20 or 0x21 for others. */
  lemma UnitBytes(x: byte)
    ensures C.UnitBytes(C.Frame([x])) == [0x40, 0x01, x] && C.UnitBytes(C.Finish) == [0x00]
    ensures C.UnitBytes(C.Relative(3, 0)) == [0x83] && C.UnitBytes(C.Relative(3, 0x102)) == [0xC3, 0x02, 0x01]
    ensures C.UnitBytes(C.Absolute(70, 0)) == [0x20, 0x46, 0x00, 0x00, 0x00]
    ensures C.UnitBytes(C.Absolute(70, 0x102)) == [0x21, 0x46, 0x00, 0x00, 0x00, 0x02, 0x01]
  {
  }

  /** The closing statistics: five totals, of which the second is what was sent and the third the size of all files. */
  lemma TotalsBytes()
    ensures Statistics.WriteTotal(0x12_3456) == [0x12, 0x56, 0x34]
    ensures Statistics.WriteTotal(0x1234_5678) == [0x92, 0x78, 0x56, 0x34]
    ensures Statistics.WriteTotals(1, 2)
         == [0x00, 0x00, 0x00] + [0x00, 0x01, 0x00] + [0x00, 0x02, 0x00] + [0x00, 0x00, 0x00] + [0x00, 0x00, 0x00]
  {
    TwoLowBytes(0x3456 + 0x12_0000);
    TwoLowBytes(0);
    TwoLowBytes(1);
    TwoLowBytes(2);
    ThreeLowBytes(0x1234_5678);
  }

  lemma TwoLowBytes(x: nat)
    ensures Statistics.LowBytes(x, 2) == [x % 0x100, x / 0x100 % 0x100]
    ensures Statistics.Above(x, 2) == x / 0x100 / 0x100
  {
    assert Statistics.LowBytes(x / 0x100, 1) == [x / 0x100 % 0x100] + Statistics.LowBytes(x / 0x100 / 0x100, 0);
    assert Statistics.Above(x / 0x100, 1) == Statistics.Above(x / 0x100 / 0x100, 0);
  }

  lemma ThreeLowBytes(x: nat)
    ensures Statistics.LowBytes(x, 3) == [x % 0x100, x / 0x100 % 0x100, x / 0x100 / 0x100 % 0x100]
    ensures Statistics.Above(x, 3) == x / 0x100 / 0x100 / 0x100
  {
    TwoLowBytes(x / 0x100);
  }

  /** Strings of the handshake: a length in one byte, or in two with the highest bit set. */
  lemma VStringBytes(s: seq<byte>)
    requires |s| == 0x1234
    ensures Handshake.WriteVString([0x6D, 0x64, 0x34]) == [0x03, 0x6D, 0x64, 0x34]
    ensures Handshake.WriteVString(s) == [0x92, 0x34] + s
  {
  }

  /** A group of a directory is announced by its number below -101, the end of all lists by -2. */
  lemma GroupMarkers(g: nat, group: DirectoryTree.Group)
    requires g > 0
    ensures FileListWire.Announced(g, group) == [FileListWire.Marker(-101 - group.dirNdx)]
    ensures FileListWire.StreamFrom([], [], 0) == [FileListWire.Marker(-2)]
  {
  }

  /** A named entry of an access control list: its id, the access bits above the marks for a user and a name. */
  lemma AceBytes()
    ensures Acl.WriteAce(Acl.PosixAce(Acl.User, 300, None, 5)) == [0x81, 0x2C, 0x16]
    ensures Acl.WriteAce(Acl.PosixAce(Acl.Group, 7, Some([0x61]), 5)) == [0x07, 0x15, 0x01, 0x61]
  {
  }

  /** An access control list: marks for what it has, then owner, group, mask and others, then the named entries. */
  lemma AclBytes()
    ensures Acl.WriteAcl(Acl.AclEntries(Some(6), Some(5), Some(3), Some(4), [])) == [0x0F, 0x06, 0x05, 0x03, 0x04]
    ensures Acl.WriteAcl(Acl.AclEntries(None, Some(5), None, None, [Acl.PosixAce(Acl.User, 300, None, 5)]))
         == [0x12, 0x05, 0x01, 0x81, 0x2C, 0x16]
  {
    var e := Acl.PosixAce(Acl.User, 300, None, 5);
    var format, list := Acl.AceFormat(), [e];
    AceBytes();
    assert Dedup.WriteEach(format, list, 1) == [];
    assert Dedup.WriteEach(format, list, 0) == [0x81, 0x2C, 0x16] + [];
    assert Dedup.WriteList(format, list) == [0x01] + [0x81, 0x2C, 0x16];
    assert Dedup.WriteList(format, list) == [0x01, 0x81, 0x2C, 0x16];
  }

  /** Attributes: a new set in full after zero, lengths before name and value; a known one by its place from one. */
  lemma XattrBytes()
    ensures var e := Xattr.XattrEntry([0x61], [0x78, 0x79]);
            && Xattr.WriteEntry(e) == [0x01, 0x02, 0x61, 0x78, 0x79]
            && Dedup.Encoded(Xattr.SetFormat(), [], [e]) == [0x00, 0x01, 0x01, 0x02, 0x61, 0x78, 0x79]
            && Dedup.Encoded(Xattr.SetFormat(), [[], [e]], [e]) == [0x02]
  {
    var e := Xattr.XattrEntry([0x61], [0x78, 0x79]);
    var format, xa: Xattr.Attributes := Xattr.EntryFormat(), [e];
    var seen: seq<Xattr.Attributes> := [[], xa];
    assert Xattr.WriteEntry(e) == [0x01, 0x02, 0x61, 0x78, 0x79];
    assert Dedup.WriteEach(format, xa, 1) == [];
    assert Dedup.WriteEach(format, xa, 0) == [0x01, 0x02, 0x61, 0x78, 0x79] + [];
    assert Dedup.WriteList(format, xa) == [0x01] + [0x01, 0x02, 0x61, 0x78, 0x79];
    var none: seq<Xattr.Attributes> := [];
    assert Dedup.Position(none, xa, 0) == None;
    assert seen[0] != xa && seen[1] == xa;
    assert Dedup.Position(seen, xa, 1) == Some(1);
  }
}
