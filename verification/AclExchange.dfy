/**
 * Access control lists of a whole file list: one for every file, a default one for directories,
 * each kind deduplicated on its own.
 */
module AclExchange {
  import opened Bytes
  import opened Dedup
  import opened Exchange
  import opened Acl

  /** A file's list as far as this matters: what it has, and whether it is a directory. */
  datatype FileAcl = FileAcl(acl: Option<PosixAcl>, isDir: bool)

  datatype Lists = Lists(access: seq<AclEntries>, default: seq<AclEntries>)

  function AccessOf(acl: Option<PosixAcl>): AclEntries {
    match acl case None => EMPTY case Some(p) => p.access
  }

  function DefaultOf(acl: Option<PosixAcl>): AclEntries {
    match acl case None => EMPTY case Some(p) => match p.default case None => EMPTY case Some(d) => d
  }

  ghost predicate FileFits(f: FileAcl) {
    AclFits(AccessOf(f.acl)) && AclFits(DefaultOf(f.acl))
  }

  ghost predicate Room(lists: Lists) {
    |lists.access| < 0xFFFF_FFFF && |lists.default| < 0xFFFF_FFFF
  }

  // ---- One file ----

  ghost function FileBytes(f: FileAcl, lists: Lists): seq<byte>
    requires Room(lists)
  {
    Encoded(AclFormat(), lists.access, AccessOf(f.acl))
    + if f.isDir then Encoded(AclFormat(), lists.default, DefaultOf(f.acl)) else []
  }

  ghost function FileLists(f: FileAcl, lists: Lists): Lists
  {
    Lists(Seen(lists.access, AccessOf(f.acl)), if f.isDir then Seen(lists.default, DefaultOf(f.acl)) else lists.default)
  }

  /** An empty default list is none, and no lists at all are no entry. */
  function Joined(access: AclEntries, default: Option<AclEntries>): Option<PosixAcl> {
    var d := if default == Some(EMPTY) then None else default;
    if access == EMPTY && d.None? then None else Some(PosixAcl(access, d))
  }

  /** What a file's lists come out as. */
  ghost function Normal(f: FileAcl): Option<PosixAcl>
  {
    Joined(NormAcl(AccessOf(f.acl)), if f.isDir then Some(NormAcl(DefaultOf(f.acl))) else None)
  }

  ghost function FileRead(isDir: bool, s: seq<byte>, lists: Lists): Option<(Option<PosixAcl>, Lists, seq<byte>)>
  {
    match Decoded(AclFormat(), lists.access, s)
    case None => None
    case Some((access, accesses, s1)) =>
      if !isDir then Some((Joined(access, None), Lists(accesses, lists.default), s1))
      else
        match Decoded(AclFormat(), lists.default, s1)
        case None => None
        case Some((d, defaults, s2)) => Some((Joined(access, Some(d)), Lists(accesses, defaults), s2))
  }

  class AclEncoder {
    var accessList: seq<AclEntries>
    var defaultList: seq<AclEntries>

    ghost function State(): Lists
      reads this
    {
      Lists(accessList, defaultList)
    }

    constructor ()
      ensures State() == Lists([], [])
    {
      accessList, defaultList := [], [];
    }

    method EncodeAcl(f: FileAcl) returns (b: seq<byte>)
      requires FileFits(f) && Room(State())
      modifies this
      ensures b == FileBytes(f, old(State())) && State() == FileLists(f, old(State()))
    {
      b, accessList := EncodeOneAcl(AccessOf(f.acl), accessList);
      if f.isDir {
        var d;
        d, defaultList := EncodeOneAcl(DefaultOf(f.acl), defaultList);
        b := b + d;
      } else {
        assert b + [] == b;
      }
    }
  }

  class AclDecoder {
    var accessList: seq<AclEntries>
    var defaultList: seq<AclEntries>

    ghost function State(): Lists
      reads this
    {
      Lists(accessList, defaultList)
    }

    constructor ()
      ensures State() == Lists([], [])
    {
      accessList, defaultList := [], [];
    }

    method DecodeAcl(isDir: bool, s: seq<byte>) returns (r: Option<(Option<PosixAcl>, seq<byte>)>)
      modifies this
      ensures match FileRead(isDir, s, old(State()))
              case None => r == None
              case Some((acl, lists, rest)) => r == Some((acl, rest)) && State() == lists
    {
      var access := DecodeOneAcl(s, accessList);
      if access.None? {
        return None;
      }
      accessList := access.value.1;
      if !isDir {
        return Some((Joined(access.value.0, None), access.value.2));
      }
      var default := DecodeOneAcl(access.value.2, defaultList);
      if default.None? {
        return None;
      }
      defaultList := default.value.1;
      r := Some((Joined(access.value.0, Some(default.value.0)), default.value.2));
    }
  }

  /** The decoder's lists when the encoder's are these. */
  ghost function InStep(lists: Lists): Lists
  {
    Lists(Normed(AclFormat(), lists.access), Normed(AclFormat(), lists.default))
  }

  lemma FileDecoded(f: FileAcl, lists: Lists, rest: seq<byte>)
    requires FileFits(f) && Room(lists)
    ensures FileRead(f.isDir, FileBytes(f, lists) + rest, InStep(lists))
         == Some((Normal(f), InStep(FileLists(f, lists)), rest))
  {
    var format, access, default := AclFormat(), AccessOf(f.acl), DefaultOf(f.acl);
    AclFaithful();
    if f.isDir {
      var d := Encoded(format, lists.default, default);
      Assoc(Encoded(format, lists.access, access), d, rest);
      OneDecoded(format, lists.access, access, d + rest);
      OneDecoded(format, lists.default, default, rest);
    } else {
      Assoc(Encoded(format, lists.access, access), [], rest);
      assert [] + rest == rest;
      OneDecoded(format, lists.access, access, rest);
    }
  }

  // ---- A whole file list ----

  ghost predicate AllFit(files: seq<FileAcl>) {
    |files| < 0xFFFF_FFFF && forall k :: 0 <= k < |files| ==> FileFits(files[k])
  }

  ghost function AclCoding(): Coding<FileAcl, Lists, Option<PosixAcl>> {
    Coding((f: FileAcl, lists: Lists) => if Room(lists) then FileBytes(f, lists) else [],
           (f: FileAcl, lists: Lists) => FileLists(f, lists),
           (f: FileAcl, lists: Lists, s: seq<byte>) => FileRead(f.isDir, s, lists),
           (f: FileAcl) => Normal(f),
           (lists: Lists) => InStep(lists))
  }

  /** Each file adds at most one list of each kind. */
  lemma {:induction false} ListsGrow(files: seq<FileAcl>, n: nat)
    requires n <= |files|
    ensures var lists := StateAfter(AclCoding(), Lists([], []), files, n);
            |lists.access| <= n && |lists.default| <= n
  {
    if n > 0 {
      ListsGrow(files, n - 1);
    }
  }

  /**
   * The lists of any sequence of files, encoded and decoded from fresh lists: every file gets its
   * own back in normal form, and the decoder's lists follow the encoder's.
   */
  lemma AclsExchanged(files: seq<FileAcl>, rest: seq<byte>)
    requires AllFit(files)
    ensures var c, none := AclCoding(), Lists([], []);
            ReadFrom(c, files, 0, none, BytesFrom(c, none, files, 0) + rest)
            == Some((Exchange.Normal(c, files), InStep(StateAfter(c, none, files, |files|)), rest))
  {
    var c, none := AclCoding(), Lists([], []);
    forall k | 0 <= k < |files|
      ensures Passes(c, none, files, k)
    {
      ListsGrow(files, k);
      FilePasses(files[k], StateAfter(c, none, files, k));
    }
    AllRead(c, none, files, 0, rest);
    assert InStep(none) == none;
    assert Exchange.Normal(c, files)[0..] == Exchange.Normal(c, files);
  }

  lemma FilePasses(f: FileAcl, lists: Lists)
    requires FileFits(f) && Room(lists)
    ensures forall rest: seq<byte> :: AclCoding().Comes(f, lists, rest)
  {
    forall rest: seq<byte>
      ensures AclCoding().Comes(f, lists, rest)
    {
      FileDecoded(f, lists, rest);
    }
  }

  /** A file's lists come back unchanged exactly when they were in normal form. */
  lemma NormalExact(f: FileAcl)
    ensures Normal(f) == f.acl <==>
              match f.acl
              case None => true
              case Some(p) =>
                && NormAcl(p.access) == p.access
                && (p.default.Some? ==> f.isDir && p.default.value != EMPTY)
                && (p.default.Some? ==> NormAcl(p.default.value) == p.default.value)
                && (p.default.None? ==> p.access != EMPTY)
  {
    assert NormAcl(EMPTY) == EMPTY;
    NormEmpty(AccessOf(f.acl));
    NormEmpty(DefaultOf(f.acl));
  }

  lemma NormEmpty(a: AclEntries)
    ensures NormAcl(a) == EMPTY <==> a == EMPTY
  {
  }
}
