/**
 * The handshake: protocol version, compatibility flags, checksum and compression algorithms, and
 * the seed. Client and server run concurrently and must come to the same protocol, or both fail.
 */
module Handshake {
  import opened Bytes
  import opened Varint
  import opened Network

  type Text = seq<byte>

  const MIN_VERSION: nat := 27
  const MAX_VSTRING: nat := 32767

  function Ascii(s: string): (t: Text)
    ensures |t| == |s| && forall i :: 0 <= i < |s| ==> t[i] == (s[i] as int) % 0x100
  {
    seq(|s|, i requires 0 <= i < |s| => (s[i] as int) % 0x100)
  }

  const CHECKSUM_LIST: Text := Ascii("blake3 xxh128 xxh3 md5 md4 none")
  const COMPRESS_LIST: Text := Ascii("zlibx zlib none")

  datatype Checksum = NoChecksum | Md4 | Md5 | Blake3 | Xxh3 | Xxh128
  datatype Compression = NoCompression | Zlib | Zlibx | Zstd | Lz4

  function ChecksumNamed(name: Text): Option<Checksum> {
    if name == Ascii("none") then Some(NoChecksum)
    else if name == Ascii("md4") then Some(Md4)
    else if name == Ascii("md5") then Some(Md5)
    else if name == Ascii("blake3") then Some(Blake3)
    else if name == Ascii("xxh3") then Some(Xxh3)
    else if name == Ascii("xxh128") then Some(Xxh128)
    else None
  }

  function CompressionNamed(name: Text): Option<Compression> {
    if name == Ascii("none") then Some(NoCompression)
    else if name == Ascii("zlib") then Some(Zlib)
    else if name == Ascii("zlibx") then Some(Zlibx)
    else if name == Ascii("zstd") then Some(Zstd)
    else if name == Ascii("lz4") then Some(Lz4)
    else None
  }

  // ---- Length-prefixed strings ----

  function WriteVString(s: Text): (b: seq<byte>)
    requires |s| <= MAX_VSTRING
  {
    (if |s| <= 127 then [|s|] else [|s| / 0x100 + 0x80, |s| % 0x100]) + s
  }

  function ReadVString(b: seq<byte>): (r: Option<(Text, seq<byte>)>) {
    if b == [] then None
    else if b[0] < 0x80 then
      if |b| - 1 < b[0] then None else Some((b[1..1 + b[0]], b[1 + b[0]..]))
    else if |b| < 2 then None
    else
      var n := (b[0] as int - 0x80) * 0x100 + b[1] as int;
      if |b| - 2 < n then None else Some((b[2..2 + n], b[2 + n..]))
  }

  lemma VStringRoundTrip(s: Text, rest: seq<byte>)
    requires |s| <= MAX_VSTRING
    ensures ReadVString(WriteVString(s) + rest) == Some((s, rest))
  {
    var b, n := WriteVString(s) + rest, |s|;
    if n <= 127 {
      assert b[1..1 + n] == s && b[1 + n..] == rest;
    } else {
      assert b[2..2 + n] == s && b[2 + n..] == rest;
    }
  }

  // ---- Choosing an algorithm ----

  /** A name the receiver lists and this program knows. */
  ghost predicate Common<T>(name: Text, receiver: seq<Text>, parse: Text -> Option<T>) {
    name in receiver && parse(name).Some?
  }

  /** The first of the sender's names, from `k` on, that is common. */
  function NegotiateFrom<T>(sender: seq<Text>, k: nat, receiver: seq<Text>, parse: Text -> Option<T>): (r: Option<T>)
    requires k <= |sender|
    ensures match r
            case None => forall i :: k <= i < |sender| ==> !Common(sender[i], receiver, parse)
            case Some(a) =>
              exists i ::
                && k <= i < |sender| && Common(sender[i], receiver, parse) && parse(sender[i]) == Some(a)
                && forall j :: k <= j < i ==> !Common(sender[j], receiver, parse)
    decreases |sender| - k
  {
    if k == |sender| then None
    else if sender[k] in receiver && parse(sender[k]).Some? then
      assert Common(sender[k], receiver, parse);
      parse(sender[k])
    else
      assert !Common(sender[k], receiver, parse);
      NegotiateFrom(sender, k + 1, receiver, parse)
  }

  function Negotiate<T>(sender: seq<Text>, receiver: seq<Text>, parse: Text -> Option<T>): Option<T> {
    NegotiateFrom(sender, 0, receiver, parse)
  }

  // ---- Compatibility flags ----

  const INC_RECURSE: nat := 0x1
  const SYMLINK_TIMES: nat := 0x2
  const SAFE_FLIST: nat := 0x8
  const AVOID_XATTR_OPTIM: nat := 0x10
  const CHKSUM_SEED_FIX: nat := 0x20
  const INPLACE_PARTIAL_DIR: nat := 0x40
  const VARINT_FLIST_FLAGS: nat := 0x80
  const ID0_NAMES: nat := 0x100

  function Has(flags: nat, bit: nat): bool
    requires bit > 0
  {
    flags / bit % 2 == 1
  }

  function With(flags: nat, bit: nat): nat
    requires bit > 0
  {
    if Has(flags, bit) then flags else flags + bit
  }

  /** The flags of a server on a system with symbolic link times, for a client's capabilities. */
  function FlagsOf(info: string): (f: nat)
    ensures f < 0x200
  {
    INC_RECURSE + SYMLINK_TIMES
    + (if 'f' in info then SAFE_FLIST else 0)
    + (if 'x' in info then AVOID_XATTR_OPTIM else 0)
    + (if 'C' in info then CHKSUM_SEED_FIX else 0)
    + (if 'I' in info then INPLACE_PARTIAL_DIR else 0)
    + (if 'v' in info then VARINT_FLIST_FLAGS else 0)
    + (if 'u' in info then ID0_NAMES else 0)
  }

  function BitOf(ch: char): (bit: nat)
    ensures bit in {0, SAFE_FLIST, AVOID_XATTR_OPTIM, CHKSUM_SEED_FIX, INPLACE_PARTIAL_DIR, VARINT_FLIST_FLAGS,
                    ID0_NAMES}
  {
    match ch
    case 'f' => SAFE_FLIST
    case 'x' => AVOID_XATTR_OPTIM
    case 'C' => CHKSUM_SEED_FIX
    case 'I' => INPLACE_PARTIAL_DIR
    case 'v' => VARINT_FLIST_FLAGS
    case 'u' => ID0_NAMES
    case _ => 0
  }

  lemma BitAt(low: nat, bit: nat, on: bool, high: nat)
    requires low < bit
    ensures Has(low + (if on then bit else 0) + 2 * bit * high, bit) <==> on
  {
    var q := (if on then 1 else 0) + 2 * high;
    assert q * bit == (if on then bit else 0) + 2 * bit * high;
    DivUnique(low + q * bit, bit, q, low);
  }

  function One(info: string, ch: char): (n: nat) {
    if ch in info then 1 else 0
  }

  /** Each bit stands for its character. */
  lemma HasBit(info: string, ch: char)
    requires BitOf(ch) > 0
    ensures Has(FlagsOf(info), BitOf(ch)) <==> ch in info
  {
    var u, v, i := One(info, 'u'), One(info, 'v'), One(info, 'I');
    var c, x, f := One(info, 'C'), One(info, 'x'), One(info, 'f');
    assert FlagsOf(info) == 3 + 8 * f + 16 * x + 32 * c + 64 * i + 128 * v + 256 * u;
    match ch
    case 'f' => BitAt(3, SAFE_FLIST, f == 1, x + 2 * c + 4 * i + 8 * v + 16 * u);
    case 'x' => BitAt(3 + 8 * f, AVOID_XATTR_OPTIM, x == 1, c + 2 * i + 4 * v + 8 * u);
    case 'C' => BitAt(3 + 8 * f + 16 * x, CHKSUM_SEED_FIX, c == 1, i + 2 * v + 4 * u);
    case 'I' => BitAt(3 + 8 * f + 16 * x + 32 * c, INPLACE_PARTIAL_DIR, i == 1, v + 2 * u);
    case 'v' => BitAt(3 + 8 * f + 16 * x + 32 * c + 64 * i, VARINT_FLIST_FLAGS, v == 1, u);
    case 'u' => BitAt(3 + 8 * f + 16 * x + 32 * c + 64 * i + 128 * v, ID0_NAMES, u == 1, 0);
    case _ =>
  }

  lemma WithOne(seen: string, ch: char)
    ensures BitOf(ch) > 0 ==> FlagsOf(seen + [ch]) == With(FlagsOf(seen), BitOf(ch))
    ensures BitOf(ch) == 0 ==> FlagsOf(seen + [ch]) == FlagsOf(seen)
  {
    if BitOf(ch) > 0 {
      HasBit(seen, ch);
    }
  }

  method BuildCompatFlags(info: string) returns (flags: nat)
    ensures flags == FlagsOf(info)
  {
    flags := With(With(0, INC_RECURSE), SYMLINK_TIMES);
    for k := 0 to |info|
      invariant flags == FlagsOf(info[..k])
    {
      assert info[..k + 1] == info[..k] + [info[k]];
      WithOne(info[..k], info[k]);
      if BitOf(info[k]) > 0 {
        flags := With(flags, BitOf(info[k]));
      }
    }
    assert info[..|info|] == info;
  }

  // ---- The two sides ----

  const CLIENT := 0
  const SERVER := 1

  datatype Protocol = Protocol(version: nat, flags: nat, checksum: Checksum, compress: Compression, seed: i32)

  /**
   * `words` is the splitting of a list at white space; `sending` says the client is the sender. The
   * versions are the newest each side knows, 32 for both in this release.
   */
  datatype Setup = Setup(
    clientVersion: byte,
    serverVersion: byte,
    info: string,
    sending: bool,
    compressing: bool,
    checksumChoice: Option<Text>,
    compressChoice: Option<Text>,
    seed: i32,
    words: Text -> seq<Text>,
    capacity: nat)
  {
    function ChecksumList(): Text {
      match checksumChoice case Some(t) => t case None => CHECKSUM_LIST
    }

    function CompressList(): Text {
      match compressChoice case Some(t) => t case None => COMPRESS_LIST
    }

    /** Both sides put the sender's list first. */
    function Choose<T>(client: Text, server: Text, parse: Text -> Option<T>): Option<T> {
      if sending then Negotiate(words(client), words(server), parse) else Negotiate(words(server), words(client), parse)
    }

    function DefaultCompression(): Compression {
      if compressing then Zlib else NoCompression
    }
  }

  function DefaultChecksum(version: nat): Checksum {
    if version >= 30 then Md5 else Md4
  }

  datatype Local =
    | ClientStart
    | ClientVersion
    | ClientFlags(version: nat)
    | ClientSums(version: nat, flags: nat)
    | ClientSumsBack(version: nat, flags: nat)
    | ClientZips(version: nat, flags: nat, checksum: Checksum)
    | ClientZipsBack(version: nat, flags: nat, checksum: Checksum)
    | ClientSeed(version: nat, flags: nat, checksum: Checksum, compress: Compression)
    | ServerStart
    | ServerVersion(remote: nat)
    | ServerFlags(version: nat)
    | ServerSums(version: nat, flags: nat)
    | ServerSumsBack(version: nat, flags: nat, list: Text)
    | ServerZips(version: nat, flags: nat, checksum: Checksum)
    | ServerZipsBack(version: nat, flags: nat, checksum: Checksum, list: Text)
    | ServerSeed(version: nat, flags: nat, checksum: Checksum, compress: Compression)
    | Agreed(protocol: Protocol)
    | Failed

  type Item = seq<byte>

  // Client

  function ClientHearsVersion(h: Setup, m: Item): Local {
    match ReadInt(m)
    case None => Failed
    case Some((x, _)) =>
      var version := Min(h.clientVersion, Unsigned(x) % 0x100);
      if version < MIN_VERSION then Failed
      else if version >= 30 then ClientFlags(version)
      else ClientAfterFlags(h, version, 0)
  }

  function ClientAfterFlags(h: Setup, version: nat, flags: nat): Local {
    if Has(flags, VARINT_FLIST_FLAGS) then ClientSums(version, flags)
    else ClientSeed(version, flags, DefaultChecksum(version), h.DefaultCompression())
  }

  function ClientHearsFlags(h: Setup, version: nat, m: Item): Local {
    match ReadVarint(m)
    case None => Failed
    case Some((flags, _)) => ClientAfterFlags(h, version, flags)
  }

  function ClientHearsSums(h: Setup, version: nat, flags: nat, m: Item): Local {
    match ReadVString(m)
    case None => Failed
    case Some((list, _)) =>
      match h.Choose(h.ChecksumList(), list, ChecksumNamed)
      case None => Failed
      case Some(checksum) =>
        if h.compressing then ClientZips(version, flags, checksum)
        else ClientSeed(version, flags, checksum, h.DefaultCompression())
  }

  function ClientHearsZips(h: Setup, version: nat, flags: nat, checksum: Checksum, m: Item): Local {
    match ReadVString(m)
    case None => Failed
    case Some((list, _)) =>
      match h.Choose(h.CompressList(), list, CompressionNamed)
      case None => Failed
      case Some(compress) => ClientSeed(version, flags, checksum, compress)
  }

  function ClientHearsSeed(version: nat, flags: nat, checksum: Checksum, compress: Compression, m: Item): Local {
    match ReadInt(m)
    case None => Failed
    case Some((seed, _)) => Agreed(Protocol(version, flags, checksum, compress, seed))
  }

  function SendText(channel: nat, list: Text, next: Local): Act<Local, Item> {
    if |list| > MAX_VSTRING then Internal(Failed) else Act.Send(channel, WriteVString(list), next)
  }

  function ClientAct(h: Setup, l: Local): Act<Local, Item> {
    match l
    case ClientStart => Act.Send(CLIENT, WriteInt(h.clientVersion), ClientVersion)
    case ClientVersion => Act.Recv(SERVER, m => ClientHearsVersion(h, m), Failed)
    case ClientFlags(v) => Act.Recv(SERVER, m => ClientHearsFlags(h, v, m), Failed)
    case ClientSums(v, f) => SendText(CLIENT, h.ChecksumList(), ClientSumsBack(v, f))
    case ClientSumsBack(v, f) => Act.Recv(SERVER, m => ClientHearsSums(h, v, f, m), Failed)
    case ClientZips(v, f, c) => SendText(CLIENT, h.CompressList(), ClientZipsBack(v, f, c))
    case ClientZipsBack(v, f, c) => Act.Recv(SERVER, m => ClientHearsZips(h, v, f, c, m), Failed)
    case ClientSeed(v, f, c, z) => Act.Recv(SERVER, m => ClientHearsSeed(v, f, c, z, m), Failed)
    case _ => Halt
  }

  // Server

  function ServerHearsVersion(m: Item): Local {
    match ReadInt(m) case None => Failed case Some((x, _)) => ServerVersion(Unsigned(x) % 0x100)
  }

  function ServerAfterVersion(h: Setup, remote: nat): Local {
    var version := Min(h.serverVersion, remote);
    if version < MIN_VERSION then Failed
    else if version >= 30 then ServerFlags(version)
    else ServerAfterFlags(h, version, 0)
  }

  function ServerAfterFlags(h: Setup, version: nat, flags: nat): Local {
    if Has(flags, VARINT_FLIST_FLAGS) then ServerSums(version, flags)
    else ServerSeed(version, flags, DefaultChecksum(version), h.DefaultCompression())
  }

  function ServerHearsSums(version: nat, flags: nat, m: Item): Local {
    match ReadVString(m) case None => Failed case Some((list, _)) => ServerSumsBack(version, flags, list)
  }

  function ServerAfterSums(h: Setup, version: nat, flags: nat, list: Text): Local {
    match h.Choose(list, CHECKSUM_LIST, ChecksumNamed)
    case None => Failed
    case Some(checksum) =>
      if h.compressing then ServerZips(version, flags, checksum)
      else ServerSeed(version, flags, checksum, h.DefaultCompression())
  }

  function ServerHearsZips(version: nat, flags: nat, checksum: Checksum, m: Item): Local {
    match ReadVString(m) case None => Failed case Some((list, _)) => ServerZipsBack(version, flags, checksum, list)
  }

  function ServerAfterZips(h: Setup, version: nat, flags: nat, checksum: Checksum, list: Text): Local {
    match h.Choose(list, COMPRESS_LIST, CompressionNamed)
    case None => Failed
    case Some(compress) => ServerSeed(version, flags, checksum, compress)
  }

  function ServerAct(h: Setup, l: Local): Act<Local, Item> {
    match l
    case ServerStart => Act.Recv(CLIENT, m => ServerHearsVersion(m), Failed)
    case ServerVersion(remote) => Act.Send(SERVER, WriteInt(h.serverVersion), ServerAfterVersion(h, remote))
    case ServerFlags(v) => Act.Send(SERVER, WriteVarint(FlagsOf(h.info)), ServerAfterFlags(h, v, FlagsOf(h.info)))
    case ServerSums(v, f) => Act.Recv(CLIENT, m => ServerHearsSums(v, f, m), Failed)
    case ServerSumsBack(v, f, list) => SendText(SERVER, CHECKSUM_LIST, ServerAfterSums(h, v, f, list))
    case ServerZips(v, f, c) => Act.Recv(CLIENT, m => ServerHearsZips(v, f, c, m), Failed)
    case ServerZipsBack(v, f, c, list) => SendText(SERVER, COMPRESS_LIST, ServerAfterZips(h, v, f, c, list))
    case ServerSeed(v, f, c, z) => Act.Send(SERVER, WriteInt(h.seed), Agreed(Protocol(v, f, c, z, h.seed)))
    case _ => Halt
  }

  function ActOf(h: Setup, p: nat, l: Local): Act<Local, Item> {
    if p == CLIENT then ClientAct(h, l) else ServerAct(h, l)
  }

  lemma EndedHalts(h: Setup, p: nat, l: Local)
    requires l.Agreed? || l.Failed?
    ensures ActOf(h, p, l).Halt?
  {
  }

  /** Channel 0 goes from client to server, channel 1 back. */
  ghost function NetOf(h: Setup): Net<Local, Item> {
    Net((p, l) => ActOf(h, p, l),
        [Channel(CLIENT, CLIENT, SERVER, h.capacity), Channel(SERVER, SERVER, CLIENT, h.capacity)])
  }

  ghost function Both(client: Local, server: Local): State<Local, Item> {
    State([client, server], [[], []])
  }

  // ---- One run ----

  lemma ToServer(h: Setup, c: Local, s: Local, m: Item, c': Local, s': Local)
    requires h.capacity > 0 && ClientAct(h, c) == Act.Send(CLIENT, m, c')
    requires ServerAct(h, s).Recv? && ServerAct(h, s).channel == CLIENT && ServerAct(h, s).got(m) == s'
    ensures Leads(NetOf(h), Both(c, s), Both(c', s'))
  {
    Handover(NetOf(h), Both(c, s), CLIENT, SERVER, CLIENT);
    assert [c, s][0 := c'][1 := s'] == [c', s'];
  }

  lemma ToClient(h: Setup, c: Local, s: Local, m: Item, c': Local, s': Local)
    requires h.capacity > 0 && ServerAct(h, s) == Act.Send(SERVER, m, s')
    requires ClientAct(h, c).Recv? && ClientAct(h, c).channel == SERVER && ClientAct(h, c).got(m) == c'
    ensures Leads(NetOf(h), Both(c, s), Both(c', s'))
  {
    Handover(NetOf(h), Both(c, s), SERVER, CLIENT, SERVER);
    assert [c, s][1 := s'][0 := c'] == [c', s'];
  }

  /** A client that gives up closes its side, and the waiting server gives up too. */
  lemma BothGiveUp(h: Setup, c: Local, s: Local)
    requires ClientAct(h, c) == Internal(Failed)
    requires ServerAct(h, s).Recv? && ServerAct(h, s).channel == CLIENT && ServerAct(h, s).closed == Failed
    ensures Leads(NetOf(h), Both(c, s), Both(Failed, Failed))
  {
    assert [c, s][0 := Failed] == [Failed, s] && [Failed, s][1 := Failed] == [Failed, Failed];
    Onward(NetOf(h), Both(c, s), CLIENT, Both(Failed, s));
    EndedHalts(h, CLIENT, Failed);
    Onward(NetOf(h), Both(Failed, s), SERVER, Both(Failed, Failed));
    Then(NetOf(h), Both(c, s), Both(Failed, s), Both(Failed, Failed));
  }

  /** How both sides end. */
  ghost function Ending(r: Option<Protocol>): State<Local, Item> {
    match r
    case None => Both(Failed, Failed)
    case Some(p) => Both(Agreed(p), Agreed(p))
  }

  /** The protocol the two sides should agree on, from the last stage back to the first. */
  function Sealed(h: Setup, version: nat, flags: nat, checksum: Checksum, compress: Compression): Option<Protocol> {
    Some(Protocol(version, flags, checksum, compress, h.seed))
  }

  function CompressionAgreed(h: Setup, version: nat, flags: nat, checksum: Checksum): Option<Protocol> {
    if !h.compressing then Sealed(h, version, flags, checksum, NoCompression)
    else if |h.CompressList()| > MAX_VSTRING then None
    else match h.Choose(h.CompressList(), COMPRESS_LIST, CompressionNamed)
         case None => None
         case Some(compress) => Sealed(h, version, flags, checksum, compress)
  }

  function NamesAgreed(h: Setup, version: nat, flags: nat): Option<Protocol> {
    if |h.ChecksumList()| > MAX_VSTRING then None
    else match h.Choose(h.ChecksumList(), CHECKSUM_LIST, ChecksumNamed)
         case None => None
         case Some(checksum) => CompressionAgreed(h, version, flags, checksum)
  }

  function FlagsAgreed(h: Setup, version: nat, flags: nat): Option<Protocol> {
    if Has(flags, VARINT_FLIST_FLAGS) then NamesAgreed(h, version, flags)
    else Sealed(h, version, flags, DefaultChecksum(version), h.DefaultCompression())
  }

  function Outcome(h: Setup): Option<Protocol> {
    var version := Min(h.clientVersion, h.serverVersion);
    if version < MIN_VERSION then None
    else FlagsAgreed(h, version, if version >= 30 then FlagsOf(h.info) else 0)
  }

  lemma SealRun(h: Setup, v: nat, f: nat, c: Checksum, z: Compression)
    requires h.capacity > 0
    ensures Leads(NetOf(h), Both(ClientSeed(v, f, c, z), ServerSeed(v, f, c, z)), Ending(Sealed(h, v, f, c, z)))
  {
    IntRoundTrip(h.seed, []);
    assert WriteInt(h.seed) + [] == WriteInt(h.seed);
    var agreed := Agreed(Protocol(v, f, c, z, h.seed));
    ToClient(h, ClientSeed(v, f, c, z), ServerSeed(v, f, c, z), WriteInt(h.seed), agreed, agreed);
  }

  lemma ListReceived(list: Text)
    requires |list| <= MAX_VSTRING
    ensures ReadVString(WriteVString(list)) == Some((list, []))
  {
    VStringRoundTrip(list, []);
    assert WriteVString(list) + [] == WriteVString(list);
  }

  lemma CompressionRun(h: Setup, v: nat, f: nat, c: Checksum)
    requires h.capacity > 0 && h.compressing
    ensures Leads(NetOf(h), Both(ClientZips(v, f, c), ServerZips(v, f, c)), Ending(CompressionAgreed(h, v, f, c)))
  {
    var list, net, end := h.CompressList(), NetOf(h), Ending(CompressionAgreed(h, v, f, c));
    var s0 := Both(ClientZips(v, f, c), ServerZips(v, f, c));
    if |list| > MAX_VSTRING {
      BothGiveUp(h, ClientZips(v, f, c), ServerZips(v, f, c));
    } else {
      ListReceived(list);
      ListReceived(COMPRESS_LIST);
      var s1 := Both(ClientZipsBack(v, f, c), ServerZipsBack(v, f, c, list));
      ToServer(h, ClientZips(v, f, c), ServerZips(v, f, c), WriteVString(list), ClientZipsBack(v, f, c),
               ServerZipsBack(v, f, c, list));
      var c2, s2 := ClientHearsZips(h, v, f, c, WriteVString(COMPRESS_LIST)), ServerAfterZips(h, v, f, c, list);
      ToClient(h, ClientZipsBack(v, f, c), ServerZipsBack(v, f, c, list), WriteVString(COMPRESS_LIST), c2, s2);
      Then(net, s0, s1, Both(c2, s2));
      match h.Choose(list, COMPRESS_LIST, CompressionNamed) {
        case None =>
        case Some(z) =>
          SealRun(h, v, f, c, z);
          Then(net, s0, Both(c2, s2), end);
      }
    }
  }

  lemma NamesRun(h: Setup, v: nat, f: nat)
    requires h.capacity > 0
    ensures Leads(NetOf(h), Both(ClientSums(v, f), ServerSums(v, f)), Ending(NamesAgreed(h, v, f)))
  {
    var list, net, end := h.ChecksumList(), NetOf(h), Ending(NamesAgreed(h, v, f));
    var s0 := Both(ClientSums(v, f), ServerSums(v, f));
    if |list| > MAX_VSTRING {
      BothGiveUp(h, ClientSums(v, f), ServerSums(v, f));
    } else {
      ListReceived(list);
      ListReceived(CHECKSUM_LIST);
      var s1 := Both(ClientSumsBack(v, f), ServerSumsBack(v, f, list));
      ToServer(h, ClientSums(v, f), ServerSums(v, f), WriteVString(list), ClientSumsBack(v, f),
               ServerSumsBack(v, f, list));
      var c2, s2 := ClientHearsSums(h, v, f, WriteVString(CHECKSUM_LIST)), ServerAfterSums(h, v, f, list);
      ToClient(h, ClientSumsBack(v, f), ServerSumsBack(v, f, list), WriteVString(CHECKSUM_LIST), c2, s2);
      Then(net, s0, s1, Both(c2, s2));
      match h.Choose(list, CHECKSUM_LIST, ChecksumNamed) {
        case None =>
        case Some(checksum) =>
          if h.compressing {
            CompressionRun(h, v, f, checksum);
          } else {
            SealRun(h, v, f, checksum, NoCompression);
          }
          Then(net, s0, Both(c2, s2), end);
      }
    }
  }

  lemma FlagsRun(h: Setup, v: nat, f: nat)
    requires h.capacity > 0
    ensures Leads(NetOf(h), Both(ClientAfterFlags(h, v, f), ServerAfterFlags(h, v, f)), Ending(FlagsAgreed(h, v, f)))
  {
    if Has(f, VARINT_FLIST_FLAGS) {
      NamesRun(h, v, f);
    } else {
      SealRun(h, v, f, DefaultChecksum(v), h.DefaultCompression());
    }
  }

  lemma VersionReceived(v: byte)
    ensures ReadInt(WriteInt(v)).Some? && Unsigned(ReadInt(WriteInt(v)).value.0) % 0x100 == v
  {
    IntRoundTrip(v, []);
    assert WriteInt(v) + [] == WriteInt(v);
  }

  /** Both sides know each other's version. */
  lemma VersionRun(h: Setup)
    requires h.capacity > 0
    ensures Leads(NetOf(h), Both(ClientStart, ServerStart),
                  Both(ClientHearsVersion(h, WriteInt(h.serverVersion)), ServerAfterVersion(h, h.clientVersion)))
  {
    VersionReceived(h.clientVersion);
    ToServer(h, ClientStart, ServerStart, WriteInt(h.clientVersion), ClientVersion, ServerVersion(h.clientVersion));
    ToClient(h, ClientVersion, ServerVersion(h.clientVersion), WriteInt(h.serverVersion),
             ClientHearsVersion(h, WriteInt(h.serverVersion)), ServerAfterVersion(h, h.clientVersion));
    Then(NetOf(h), Both(ClientStart, ServerStart), Both(ClientVersion, ServerVersion(h.clientVersion)),
         Both(ClientHearsVersion(h, WriteInt(h.serverVersion)), ServerAfterVersion(h, h.clientVersion)));
  }

  lemma AfterVersionRun(h: Setup)
    requires h.capacity > 0
    ensures Leads(NetOf(h),
                  Both(ClientHearsVersion(h, WriteInt(h.serverVersion)), ServerAfterVersion(h, h.clientVersion)),
                  Ending(Outcome(h)))
  {
    VersionReceived(h.serverVersion);
    var v, f := Min(h.clientVersion, h.serverVersion), FlagsOf(h.info);
    if v >= 30 {
      VarintRoundTrip(f, []);
      assert WriteVarint(f) + [] == WriteVarint(f);
      ToClient(h, ClientFlags(v), ServerFlags(v), WriteVarint(f), ClientAfterFlags(h, v, f), ServerAfterFlags(h, v, f));
      FlagsRun(h, v, f);
      Then(NetOf(h), Both(ClientFlags(v), ServerFlags(v)), Both(ClientAfterFlags(h, v, f), ServerAfterFlags(h, v, f)),
           Ending(Outcome(h)));
    } else if v >= MIN_VERSION {
      FlagsRun(h, v, 0);
    }
  }

  /**
   * In every interleaving both sides come to rest in the same way: with the same protocol, or both
   * having failed. Neither ever waits for a message that is not sent.
   */
  lemma HandshakeAgrees(h: Setup) returns (n: nat)
    requires h.capacity > 0
    ensures Settles(NetOf(h), Both(ClientStart, ServerStart), Ending(Outcome(h)), n)
  {
    var start := Both(ClientStart, ServerStart);
    var known := Both(ClientHearsVersion(h, WriteInt(h.serverVersion)), ServerAfterVersion(h, h.clientVersion));
    VersionRun(h);
    AfterVersionRun(h);
    Then(NetOf(h), start, known, Ending(Outcome(h)));
    forall p: nat
      ensures Step(NetOf(h), Ending(Outcome(h)), p).None?
    {
      if p < 2 {
        EndedHalts(h, p, Ending(Outcome(h)).locals[p]);
      }
    }
    n := OneRunDecides(NetOf(h), start, Ending(Outcome(h)));
  }

  /** `a` has the first known name of `first` that is in `other` too. */
  ghost predicate Preferred<T>(first: seq<Text>, other: seq<Text>, parse: Text -> Option<T>, a: T) {
    exists i ::
      && 0 <= i < |first| && first[i] in other && parse(first[i]) == Some(a)
      && forall j :: 0 <= j < i ==> (parse(first[j]).Some? ==> first[j] !in other)
  }

  /** The sender's list decides, whichever side sends. */
  lemma SenderDecides<T>(h: Setup, client: Text, server: Text, parse: Text -> Option<T>, a: T)
    requires h.Choose(client, server, parse) == Some(a)
    ensures if h.sending then Preferred(h.words(client), h.words(server), parse, a)
            else Preferred(h.words(server), h.words(client), parse, a)
  {
    var first := if h.sending then h.words(client) else h.words(server);
    var other := if h.sending then h.words(server) else h.words(client);
    var i :| && 0 <= i < |first| && Common(first[i], other, parse) && parse(first[i]) == Some(a)
             && forall j :: 0 <= j < i ==> !Common(first[j], other, parse);
    forall j | 0 <= j < i && parse(first[j]).Some?
      ensures first[j] !in other
    {
      assert !Common(first[j], other, parse);
    }
  }

  /**
   * What is agreed: the older version; the flags of the client's capabilities; without negotiation
   * the defaults of the version; otherwise the first known name in the sender's list that the
   * receiver lists too, where the client's list is the choice of its user if there is one.
   */
  lemma AgreedProtocol(h: Setup)
    requires Outcome(h).Some?
    ensures var p := Outcome(h).value;
            && p.version == (if h.clientVersion < h.serverVersion then h.clientVersion else h.serverVersion) >= 27
            && p.seed == h.seed && (p.version < 30 ==> p.flags == 0)
            && (p.version >= 30 ==> SetExactly(p.flags, h.info))
            && (p.version < 30 || 'v' !in h.info ==>
                  && p.checksum == (if p.version >= 30 then Md5 else Md4)
                  && p.compress == (if h.compressing then Zlib else NoCompression))
            && (p.version >= 30 && 'v' in h.info ==>
                  var ours := if h.checksumChoice.Some? then h.checksumChoice.value else CHECKSUM_LIST;
                  && (h.sending ==> Preferred(h.words(ours), h.words(CHECKSUM_LIST), ChecksumNamed, p.checksum))
                  && (!h.sending ==> Preferred(h.words(CHECKSUM_LIST), h.words(ours), ChecksumNamed, p.checksum)))
            && (p.version >= 30 && 'v' in h.info && !h.compressing ==> p.compress == NoCompression)
            && (p.version >= 30 && 'v' in h.info && h.compressing ==>
                  var ours := if h.compressChoice.Some? then h.compressChoice.value else COMPRESS_LIST;
                  && (h.sending ==> Preferred(h.words(ours), h.words(COMPRESS_LIST), CompressionNamed, p.compress))
                  && (!h.sending ==> Preferred(h.words(COMPRESS_LIST), h.words(ours), CompressionNamed, p.compress)))
  {
    var p := Outcome(h).value;
    HasBit(h.info, 'v');
    FlagsSet(h.info);
    if p.version >= 30 && 'v' in h.info {
      SenderDecides(h, h.ChecksumList(), CHECKSUM_LIST, ChecksumNamed, p.checksum);
      if h.compressing {
        SenderDecides(h, h.CompressList(), COMPRESS_LIST, CompressionNamed, p.compress);
      }
    }
  }

  /** The bits of the compatibility flags, each for its capability; the lowest two are always set. */
  ghost predicate SetExactly(flags: nat, info: string) {
    && flags < 0x200 && flags % 8 == 3
    && (flags / 0x8 % 2 == 1 <==> 'f' in info) && (flags / 0x10 % 2 == 1 <==> 'x' in info)
    && (flags / 0x20 % 2 == 1 <==> 'C' in info) && (flags / 0x40 % 2 == 1 <==> 'I' in info)
    && (flags / 0x80 % 2 == 1 <==> 'v' in info) && (flags / 0x100 % 2 == 1 <==> 'u' in info)
  }

  lemma LowFlags(info: string)
    ensures FlagsOf(info) % 8 == 3
  {
    var u, v, i := One(info, 'u'), One(info, 'v'), One(info, 'I');
    var c, x, f := One(info, 'C'), One(info, 'x'), One(info, 'f');
    assert FlagsOf(info) == 3 + 8 * (f + 2 * x + 4 * c + 8 * i + 16 * v + 32 * u);
  }

  lemma FlagsSet(info: string)
    ensures SetExactly(FlagsOf(info), info)
  {
    LowFlags(info);
    HasBit(info, 'f');
    HasBit(info, 'x');
    HasBit(info, 'C');
    HasBit(info, 'I');
    HasBit(info, 'v');
    HasBit(info, 'u');
  }

  function ChecksumName(c: Checksum): string {
    match c
    case NoChecksum => "none"
    case Md4 => "md4"
    case Md5 => "md5"
    case Blake3 => "blake3"
    case Xxh3 => "xxh3"
    case Xxh128 => "xxh128"
  }

  function CompressionName(z: Compression): string {
    match z
    case NoCompression => "none"
    case Zlib => "zlib"
    case Zlibx => "zlibx"
    case Zstd => "zstd"
    case Lz4 => "lz4"
  }

  /** Each algorithm has one name, and no other text names one. */
  lemma ChecksumNames(name: Text, c: Checksum)
    ensures ChecksumNamed(name) == Some(c) <==> name == Ascii(ChecksumName(c))
  {
    Distinguish("md4", "md5", 2);
    Distinguish("none", "xxh3", 0);
    Distinguish("blake3", "xxh128", 0);
  }

  lemma CompressionNames(name: Text, z: Compression)
    ensures CompressionNamed(name) == Some(z) <==> name == Ascii(CompressionName(z))
  {
    Distinguish("none", "zlib", 0);
    Distinguish("none", "zstd", 0);
    Distinguish("zlib", "zstd", 1);
  }

  lemma Distinguish(a: string, b: string, k: nat)
    requires k < |a| && k < |b| && (a[k] as int) % 0x100 != (b[k] as int) % 0x100
    ensures Ascii(a) != Ascii(b)
  {
    assert Ascii(a)[k] != Ascii(b)[k];
  }

  /** No algorithm this program knows has a name in both lists; who is the sender does not matter. */
  ghost predicate NothingCommon<T>(h: Setup, client: Text, server: Text, parse: Text -> Option<T>) {
    forall name :: name in h.words(client) && name in h.words(server) ==> parse(name).None?
  }

  lemma NoChoice<T>(h: Setup, client: Text, server: Text, parse: Text -> Option<T>)
    ensures h.Choose(client, server, parse).None? <==> NothingCommon(h, client, server, parse)
  {
    var a, b := h.words(client), h.words(server);
    var first, other := if h.sending then a else b, if h.sending then b else a;
    if Negotiate(first, other, parse).None? {
      forall name | name in a && name in b
        ensures parse(name).None?
      {
        var i :| 0 <= i < |first| && first[i] == name;
        assert !Common(first[i], other, parse);
      }
    } else {
      var i :| 0 <= i < |first| && Common(first[i], other, parse);
      assert first[i] in a && first[i] in b && parse(first[i]).Some?;
    }
  }

  /** A client's list that cannot be sent, or has nothing in common with the server's. */
  ghost predicate Hopeless<T>(h: Setup, client: Text, server: Text, parse: Text -> Option<T>) {
    |client| > MAX_VSTRING || NothingCommon(h, client, server, parse)
  }

  /** The handshake fails exactly for too old a version or lists without a common algorithm. */
  lemma FailsExactly(h: Setup)
    ensures var version := Min(h.clientVersion, h.serverVersion);
            Outcome(h).None? <==>
              || version < MIN_VERSION
              || (version >= 30 && 'v' in h.info &&
                   (|| Hopeless(h, h.ChecksumList(), CHECKSUM_LIST, ChecksumNamed)
                    || (h.compressing && Hopeless(h, h.CompressList(), COMPRESS_LIST, CompressionNamed))))
  {
    HasBit(h.info, 'v');
    NoChoice(h, h.ChecksumList(), CHECKSUM_LIST, ChecksumNamed);
    NoChoice(h, h.CompressList(), COMPRESS_LIST, CompressionNamed);
  }
}
