/** Access control lists on the wire. */
module Acl {
  import opened Bytes
  import opened Varint
  import opened Dedup

  datatype AceKind = User | Group
  datatype PosixAce = PosixAce(kind: AceKind, id: u32, name: Option<seq<byte>>, access: u32)
  datatype AclEntries = AclEntries(userObj: Option<u32>, groupObj: Option<u32>, mask: Option<u32>, other: Option<u32>,
                                   named: seq<PosixAce>)
  datatype PosixAcl = PosixAcl(access: AclEntries, default: Option<AclEntries>)

  const EMPTY: AclEntries := AclEntries(None, None, None, None, [])

  // ---- Optional fields ----

  function WriteOpt(o: Option<u32>): seq<byte> {
    match o case None => [] case Some(x) => WriteVarint(x)
  }

  function ReadOpt(present: bool, s: seq<byte>): (r: Option<(Option<u32>, seq<byte>)>) {
    if !present then Some((None, s))
    else match ReadVarint(s) case None => None case Some((x, rest)) => Some((Some(x), rest))
  }

  lemma OptRead(o: Option<u32>, rest: seq<byte>)
    ensures ReadOpt(o.Some?, WriteOpt(o) + rest) == Some((o, rest))
  {
    match o
    case None => assert [] + rest == rest;
    case Some(x) => VarintRoundTrip(x, rest);
  }

  // ---- Named entries ----

  /** Two flag bits below the access bits; what does not fit above them is lost. */
  function AccessAndFlags(a: PosixAce): u32 {
    a.access * 4 % 0x1_0000_0000 + (if a.kind == User then 2 else 0) + (if a.name.Some? then 1 else 0)
  }

  function WriteAce(a: PosixAce): seq<byte>
    requires AceFits(a)
  {
    WriteVarint(a.id) + (WriteVarint(AccessAndFlags(a)) +
      (match a.name case None => [] case Some(name) => WriteVarint(|name|) + name))
  }

  function ReadName(present: bool, s: seq<byte>): (r: Option<(Option<seq<byte>>, seq<byte>)>) {
    if !present then Some((None, s))
    else
      match ReadVarint(s)
      case None => None
      case Some((n, rest)) => if |rest| < n then None else Some((Some(rest[..n]), rest[n..]))
  }

  function ReadAce(s: seq<byte>): (r: Option<(PosixAce, seq<byte>)>) {
    match ReadVarint(s)
    case None => None
    case Some((id, s1)) =>
      match ReadVarint(s1)
      case None => None
      case Some((bits, s2)) =>
        match ReadName(bits % 2 == 1, s2)
        case None => None
        case Some((name, s3)) => Some((PosixAce(if bits / 2 % 2 == 1 then User else Group, id, name, bits / 4), s3))
  }

  /** Access bits beyond 30 do not travel. */
  function NormAce(a: PosixAce): PosixAce {
    a.(access := a.access % 0x4000_0000)
  }

  lemma BitsRead(a: PosixAce)
    ensures var bits := AccessAndFlags(a);
            bits % 2 == 1 <==> a.name.Some?
    ensures AccessAndFlags(a) / 2 % 2 == 1 <==> a.kind == User
    ensures AccessAndFlags(a) / 4 == a.access % 0x4000_0000
  {
    ShiftedAccess(a.access);
    FlagBits(a.access % 0x4000_0000, if a.kind == User then 1 else 0, if a.name.Some? then 1 else 0);
  }

  lemma ShiftedAccess(access: u32)
    ensures access * 4 % 0x1_0000_0000 == 4 * (access % 0x4000_0000)
  {
  }

  lemma FlagBits(x: nat, user: nat, name: nat)
    requires user < 2 && name < 2
    ensures var bits := 4 * x + 2 * user + name;
            bits % 2 == name && bits / 2 % 2 == user && bits / 4 == x
  {
    assert (4 * x + 2 * user + name) / 2 == 2 * x + user;
  }

  lemma NameRead(name: Option<seq<byte>>, rest: seq<byte>)
    requires name.Some? ==> |name.value| < 0x1_0000_0000
    ensures var written := match name case None => [] case Some(n) => WriteVarint(|n|) + n;
            ReadName(name.Some?, written + rest) == Some((name, rest))
  {
    match name
    case None => assert [] + rest == rest;
    case Some(n) =>
      Assoc(WriteVarint(|n|), n, rest);
      VarintRoundTrip(|n|, n + rest);
      assert (n + rest)[..|n|] == n && (n + rest)[|n|..] == rest;
  }

  lemma AceRead(a: PosixAce, rest: seq<byte>)
    requires AceFits(a)
    ensures ReadAce(WriteAce(a) + rest) == Some((NormAce(a), rest))
  {
    var name := match a.name case None => [] case Some(n) => WriteVarint(|n|) + n;
    var bits := WriteVarint(AccessAndFlags(a));
    Assoc(WriteVarint(a.id), bits + name, rest);
    Assoc(bits, name, rest);
    VarintRoundTrip(a.id, bits + (name + rest));
    VarintRoundTrip(AccessAndFlags(a), name + rest);
    BitsRead(a);
    NameRead(a.name, rest);
  }

  predicate AceFits(a: PosixAce) {
    a.name.Some? ==> |a.name.value| < 0x1_0000_0000
  }

  function AceFormat(): Format<PosixAce> {
    Format(a => if AceFits(a) then WriteAce(a) else [], ReadAce, NormAce, a => AceFits(a))
  }

  lemma AceFaithful()
    ensures Faithful(AceFormat())
  {
    forall a: PosixAce, rest: seq<byte> | AceFits(a)
      ensures AceFormat().RoundTrips(a, rest)
    {
      AceRead(a, rest);
    }
  }

  // ---- A whole list ----

  predicate AclFits(a: AclEntries) {
    |a.named| < 0x1_0000_0000 && forall i :: 0 <= i < |a.named| ==> AceFits(a.named[i])
  }

  function Flags(a: AclEntries): byte {
    (if a.userObj.Some? then 1 else 0) + (if a.groupObj.Some? then 2 else 0) + (if a.mask.Some? then 4 else 0)
    + (if a.other.Some? then 8 else 0) + (if a.named != [] then 16 else 0)
  }

  lemma FlagsRead(a: AclEntries)
    ensures Flags(a) % 2 == 1 <==> a.userObj.Some?
    ensures Flags(a) / 2 % 2 == 1 <==> a.groupObj.Some?
    ensures Flags(a) / 4 % 2 == 1 <==> a.mask.Some?
    ensures Flags(a) / 8 % 2 == 1 <==> a.other.Some?
    ensures Flags(a) / 16 % 2 == 1 <==> a.named != []
  {
  }

  /** Two optional entries in a row. */
  function ReadPair(first: bool, second: bool, s: seq<byte>): (r: Option<(Option<u32>, Option<u32>, seq<byte>)>) {
    match ReadOpt(first, s)
    case None => None
    case Some((a, s1)) =>
      match ReadOpt(second, s1) case None => None case Some((b, s2)) => Some((a, b, s2))
  }

  lemma PairRead(a: Option<u32>, b: Option<u32>, rest: seq<byte>)
    ensures ReadPair(a.Some?, b.Some?, WriteOpt(a) + (WriteOpt(b) + rest)) == Some((a, b, rest))
  {
    OptRead(a, WriteOpt(b) + rest);
    OptRead(b, rest);
  }

  ghost function NameList(a: AclEntries): seq<byte>
  {
    if a.named == [] then [] else WriteList(AceFormat(), a.named)
  }

  ghost function ReadNameList(present: bool, s: seq<byte>): Option<(seq<PosixAce>, seq<byte>)>
  {
    if !present then Some(([], s)) else ReadList(AceFormat(), s)
  }

  ghost function NormAcl(a: AclEntries): AclEntries {
    a.(named := Normed(AceFormat(), a.named))
  }

  lemma NameListRead(a: AclEntries, rest: seq<byte>)
    requires AclFits(a)
    ensures ReadNameList(a.named != [], NameList(a) + rest) == Some((NormAcl(a).named, rest))
  {
    if a.named == [] {
      assert [] + rest == rest;
    } else {
      AceFaithful();
      ListRead(AceFormat(), a.named, rest);
    }
  }

  ghost function WriteAcl(a: AclEntries): seq<byte>
  {
    [Flags(a)] + (WriteOpt(a.userObj) + (WriteOpt(a.groupObj) + (WriteOpt(a.mask) + (WriteOpt(a.other) + NameList(a)))))
  }

  ghost function ReadAcl(s: seq<byte>): Option<(AclEntries, seq<byte>)>
  {
    if s == [] then None else
    var flags := s[0];
    match ReadPair(flags % 2 == 1, flags / 2 % 2 == 1, s[1..])
    case None => None
    case Some((userObj, groupObj, s2)) =>
      match ReadPair(flags / 4 % 2 == 1, flags / 8 % 2 == 1, s2)
      case None => None
      case Some((mask, other, s4)) =>
        match ReadNameList(flags / 16 % 2 == 1, s4)
        case None => None
        case Some((named, s5)) => Some((AclEntries(userObj, groupObj, mask, other, named), s5))
  }

  lemma Regroup(f: seq<byte>, u: seq<byte>, g: seq<byte>, m: seq<byte>, o: seq<byte>, n: seq<byte>, rest: seq<byte>)
    requires |f| == 1
    ensures (f + (u + (g + (m + (o + n)))) + rest)[1..] == u + (g + (m + (o + (n + rest))))
    ensures (f + (u + (g + (m + (o + n)))) + rest)[0] == f[0]
  {
    Assoc(o, n, rest);
    Assoc(m, o + n, rest);
    Assoc(g, m + (o + n), rest);
    Assoc(u, g + (m + (o + n)), rest);
  }

  lemma AclRead(a: AclEntries, rest: seq<byte>)
    requires AclFits(a)
    ensures ReadAcl(WriteAcl(a) + rest) == Some((NormAcl(a), rest))
  {
    var m, o, n := WriteOpt(a.mask), WriteOpt(a.other), NameList(a);
    Regroup([Flags(a)], WriteOpt(a.userObj), WriteOpt(a.groupObj), m, o, n, rest);
    FlagsRead(a);
    PairRead(a.userObj, a.groupObj, m + (o + (n + rest)));
    PairRead(a.mask, a.other, n + rest);
    NameListRead(a, rest);
  }

  ghost function AclFormat(): Format<AclEntries> {
    Format(a => WriteAcl(a), s => ReadAcl(s), a => NormAcl(a), a => AclFits(a))
  }

  lemma AclFaithful()
    ensures Faithful(AclFormat())
  {
    forall a: AclEntries, rest: seq<byte> | AclFits(a)
      ensures AclFormat().RoundTrips(a, rest)
    {
      AclRead(a, rest);
    }
  }

  /** Nothing is lost exactly when all access bits fit in 30 bits. */
  lemma NormExact(a: AclEntries)
    ensures NormAcl(a) == a <==> forall i :: 0 <= i < |a.named| ==> a.named[i].access < 0x4000_0000
  {
    assert NormAcl(a).named == a.named <==> forall i :: 0 <= i < |a.named| ==> NormAce(a.named[i]) == a.named[i];
  }

  // ---- With deduplication ----

  method WriteBody(acl: AclEntries) returns (b: seq<byte>)
    requires AclFits(acl)
    ensures b == WriteAcl(acl)
  {
    var names := [];
    if acl.named != [] {
      names := EncodeList(AceFormat(), acl.named);
    }
    b := [Flags(acl)]
       + (WriteOpt(acl.userObj) + (WriteOpt(acl.groupObj) + (WriteOpt(acl.mask) + (WriteOpt(acl.other) + names))));
  }

  method ReadBody(s: seq<byte>) returns (r: Option<(AclEntries, seq<byte>)>)
    ensures r == ReadAcl(s)
  {
    if |s| == 0 {
      return None;
    }
    var flags := s[0];
    var owners := ReadPair(flags % 2 == 1, flags / 2 % 2 == 1, s[1..]);
    if owners.None? {
      return None;
    }
    var others := ReadPair(flags / 4 % 2 == 1, flags / 8 % 2 == 1, owners.value.2);
    if others.None? {
      return None;
    }
    var named, rest := [], others.value.2;
    if flags / 16 % 2 == 1 {
      var list := DecodeList(AceFormat(), rest);
      if list.None? {
        return None;
      }
      named, rest := list.value.0, list.value.1;
    }
    r := Some((AclEntries(owners.value.0, owners.value.1, others.value.0, others.value.1, named), rest));
  }

  method EncodeOneAcl(acl: AclEntries, list: seq<AclEntries>) returns (b: seq<byte>, list': seq<AclEntries>)
    requires AclFits(acl) && |list| < 0xFFFF_FFFF
    ensures b == Encoded(AclFormat(), list, acl) && list' == Seen(list, acl)
  {
    var p := FindPosition(list, acl);
    if p.Some? {
      return WriteVarint(p.value + 1), list;
    }
    list' := list + [acl];
    b := WriteBody(acl);
    b := WriteVarint(0) + b;
  }

  method DecodeOneAcl(s: seq<byte>, list: seq<AclEntries>) returns (r: Option<(AclEntries, seq<AclEntries>, seq<byte>)>)
    ensures r == Decoded(AclFormat(), list, s)
  {
    var ndx := ReadVarint(s);
    if ndx.None? {
      return None;
    }
    if ndx.value.0 > 0 {
      var idx := ndx.value.0 - 1;
      return if idx >= |list| then None else Some((list[idx], list, ndx.value.1));
    }
    var acl := ReadBody(ndx.value.1);
    r := match acl case None => None case Some((a, rest)) => Some((a, list + [a], rest));
  }

  /** An access value of 2^30 comes back as zero. */
  lemma AccessLost(id: u32, rest: seq<byte>)
    ensures var a := PosixAce(User, id, None, 0x4000_0000);
            ReadAce(WriteAce(a) + rest) == Some((a.(access := 0), rest))
  {
    AceRead(PosixAce(User, id, None, 0x4000_0000), rest);
  }
}
