/**
 * Metadata of a later sub-list: the encoders go on with the values of the lists before, the decoders
 * start afresh. Exactly which files still get their own.
 */
module SubLists {
  import opened Bytes
  import opened Varint
  import opened Dedup
  import opened Exchange
  import opened Acl
  import opened AclExchange
  import opened Xattr

  // ---- One value ----

  /** The value comes out right: it is new, or the decoder has it at the place it is named by. */
  ghost predicate ComesRight<T>(format: Format<T>, base: nat, seen: seq<T>, x: T) {
    match Position(seen, x, 0)
    case None => true
    case Some(p) => base + p < |seen| && format.norm(seen[base + p]) == format.norm(x)
  }

  /** What the decoder has, when it was started afresh after the encoder's first `base` values. */
  ghost function Later<T>(format: Format<T>, base: nat, seen: seq<T>): seq<T> {
    if base <= |seen| then Normed(format, seen[base..]) else []
  }

  lemma NamedRestarted<T(!new)>(format: Format<T>, base: nat, seen: seq<T>, x: T, p: nat, rest: seq<byte>)
    requires base <= |seen| < 0xFFFF_FFFF && Position(seen, x, 0) == Some(p)
    ensures Decoded(format, Later(format, base, seen), Encoded(format, seen, x) + rest)
         == if base + p >= |seen| then None
            else Some((format.norm(seen[base + p]), Later(format, base, seen), rest))
    ensures Seen(seen, x) == seen
  {
    VarintRoundTrip(p + 1, rest);
  }

  lemma LaterNext<T>(format: Format<T>, base: nat, seen: seq<T>, x: T)
    requires base <= |seen|
    ensures Later(format, base, seen + [x]) == Later(format, base, seen) + [format.norm(x)]
  {
    assert (seen + [x])[base..] == seen[base..] + [x];
  }

  lemma NewRestarted<T(!new)>(format: Format<T>, base: nat, seen: seq<T>, x: T, rest: seq<byte>)
    requires Faithful(format) && format.fits(x) && base <= |seen| < 0xFFFF_FFFF && Position(seen, x, 0) == None
    ensures Decoded(format, Later(format, base, seen), Encoded(format, seen, x) + rest)
         == Some((format.norm(x), Later(format, base, Seen(seen, x)), rest))
  {
    Assoc(WriteVarint(0), format.write(x), rest);
    VarintRoundTrip(0, format.write(x) + rest);
    assert format.RoundTrips(x, rest);
    LaterNext(format, base, seen, x);
  }

  /**
   * One value after a restart: a new one comes through; a place beyond the fresh list is an error,
   * and any other names the value that stands `base` places further on.
   */
  lemma OneRestarted<T(!new)>(format: Format<T>, base: nat, seen: seq<T>, x: T, rest: seq<byte>)
    requires Faithful(format) && format.fits(x) && base <= |seen| < 0xFFFF_FFFF
    ensures Decoded(format, Later(format, base, seen), Encoded(format, seen, x) + rest)
         == match Position(seen, x, 0)
            case None => Some((format.norm(x), Later(format, base, Seen(seen, x)), rest))
            case Some(p) =>
              if base + p >= |seen| then None
              else Some((format.norm(seen[base + p]), Later(format, base, Seen(seen, x)), rest))
  {
    match Position(seen, x, 0)
    case Some(p) => NamedRestarted(format, base, seen, x, p, rest);
    case None => NewRestarted(format, base, seen, x, rest);
  }

  ghost predicate Distinct<T>(s: seq<T>) {
    forall i, j :: 0 <= i < j < |s| ==> s[i] != s[j]
  }

  /** Where nothing is lost, only new values come out right after a restart. */
  lemma RightExactly<T>(format: Format<T>, base: nat, seen: seq<T>, x: T)
    requires Distinct(seen) && format.norm(x) == x
    requires forall i :: 0 <= i < |seen| ==> format.norm(seen[i]) == seen[i]
    ensures ComesRight(format, base, seen, x) <==> base == 0 || x !in seen
  {
    var p := Position(seen, x, 0);
    if p.Some? && base > 0 && base + p.value < |seen| {
      assert seen[p.value] != seen[base + p.value];
    }
  }

  // ---- A list ----

  /**
   * How the decoder's state follows the encoder's, and whether a file comes through: then it gets its
   * own and the states stay in step, otherwise it gets nothing or another's.
   */
  datatype Tracking<!F, !S> = Tracking(follow: S -> S, good: (F, S) -> bool)

  ghost predicate Tells<F(!new), S(!new), A(!new)>(c: Coding<F, S, A>, t: Tracking<F, S>, f: F, s: S) {
    forall rest: seq<byte> :: TellsBefore(c, t, f, s, rest)
  }

  ghost predicate TellsBefore<F, S, A>(c: Coding<F, S, A>, t: Tracking<F, S>, f: F, s: S, rest: seq<byte>) {
    var r := c.read(f, t.follow(s), c.write(f, s) + rest);
    if t.good(f, s) then r == Some((c.norm(f), t.follow(c.next(f, s)), rest)) else r.None? || r.value.0 != c.norm(f)
  }

  ghost predicate AllGood<F, S, A>(c: Coding<F, S, A>, t: Tracking<F, S>, start: S, files: seq<F>, k: nat)
    requires k <= |files|
  {
    forall i :: k <= i < |files| ==> t.good(files[i], StateAfter(c, start, files, i))
  }

  lemma GoodNext<F, S, A>(c: Coding<F, S, A>, t: Tracking<F, S>, start: S, files: seq<F>, k: nat)
    requires k < |files|
    ensures AllGood(c, t, start, files, k)
       <==> t.good(files[k], StateAfter(c, start, files, k)) && AllGood(c, t, start, files, k + 1)
  {
  }

  lemma HeadDecides<S, A>(a: A, more: Option<(seq<A>, S, seq<byte>)>, x: A, xs: seq<A>)
    ensures var r := Prefixed(a, more);
            r.Some? && r.value.0 == [x] + xs <==> a == x && more.Some? && more.value.0 == xs
  {
    if more.Some? {
      var got := [a] + more.value.0;
      assert got[0] == a && got[1..] == more.value.0;
      assert ([x] + xs)[0] == x && ([x] + xs)[1..] == xs;
    }
  }

  /** What is read from `k` on is what the files should get. */
  ghost predicate AllOwn<F, S, A>(c: Coding<F, S, A>, files: seq<F>, k: nat, r: Option<(seq<A>, S, seq<byte>)>)
    requires k <= |files|
  {
    r.Some? && r.value.0 == Exchange.Normal(c, files)[k..]
  }

  lemma OwnNext<F, S, A>(c: Coding<F, S, A>, files: seq<F>, k: nat, a: A, more: Option<(seq<A>, S, seq<byte>)>)
    requires k < |files|
    ensures AllOwn(c, files, k, Prefixed(a, more)) <==> a == c.norm(files[k]) && AllOwn(c, files, k + 1, more)
  {
    var all := Exchange.Normal(c, files);
    assert all[k..] == [all[k]] + all[k + 1..];
    HeadDecides(a, more, all[k], all[k + 1..]);
  }

  lemma {:induction false} OwnStep<F(!new), S(!new), A(!new)>(
    c: Coding<F, S, A>, t: Tracking<F, S>, files: seq<F>, k: nat, s: S, more: seq<byte>)
    requires k < |files| && TellsBefore(c, t, files[k], s, more)
    ensures AllOwn(c, files, k, ReadFrom(c, files, k, t.follow(s), c.write(files[k], s) + more))
       <==> && t.good(files[k], s)
            && AllOwn(c, files, k + 1, ReadFrom(c, files, k + 1, t.follow(c.next(files[k], s)), more))
  {
    var r := c.read(files[k], t.follow(s), c.write(files[k], s) + more);
    if r.Some? {
      OwnNext(c, files, k, r.value.0, ReadFrom(c, files, k + 1, r.value.1, r.value.2));
    }
  }

  /** What the decoder makes of the files from `k` on. */
  ghost function Answer<F, S, A>(c: Coding<F, S, A>, t: Tracking<F, S>, start: S, files: seq<F>, k: nat,
                                 rest: seq<byte>): Option<(seq<A>, S, seq<byte>)>
    requires k <= |files|
  {
    ReadFrom(c, files, k, t.follow(StateAfter(c, start, files, k)), BytesFrom(c, start, files, k) + rest)
  }

  lemma {:induction false} AnswerStep<F(!new), S(!new), A(!new)>(
    c: Coding<F, S, A>, t: Tracking<F, S>, start: S, files: seq<F>, k: nat, rest: seq<byte>, s: S)
    requires k < |files| && s == StateAfter(c, start, files, k) && Tells(c, t, files[k], s)
    ensures AllOwn(c, files, k, Answer(c, t, start, files, k, rest))
       <==> t.good(files[k], s) && AllOwn(c, files, k + 1, Answer(c, t, start, files, k + 1, rest))
  {
    var more := BytesFrom(c, start, files, k + 1);
    assert TellsBefore(c, t, files[k], s, more + rest);
    OwnStep(c, t, files, k, s, more + rest);
    Assoc(c.write(files[k], s), more, rest);
    assert StateAfter(c, start, files, k + 1) == c.next(files[k], s);
  }

  /** All files of the list get their own if and only if each of them does when its turn comes. */
  lemma {:induction false} ReadExactly<F(!new), S(!new), A(!new)>(
    c: Coding<F, S, A>, t: Tracking<F, S>, start: S, files: seq<F>, k: nat, rest: seq<byte>)
    requires k <= |files|
    requires forall i :: 0 <= i < |files| ==> Tells(c, t, files[i], StateAfter(c, start, files, i))
    ensures AllOwn(c, files, k, Answer(c, t, start, files, k, rest)) <==> AllGood(c, t, start, files, k)
    decreases |files| - k
  {
    if k == |files| {
      assert Exchange.Normal(c, files)[k..] == [];
    } else {
      AnswerStep(c, t, start, files, k, rest, StateAfter(c, start, files, k));
      GoodNext(c, t, start, files, k);
      ReadExactly(c, t, start, files, k + 1, rest);
    }
  }

  // ---- Extended attributes ----

  /** Decoders started afresh when the encoder had `base` sets. */
  ghost function RestartedXattrs(base: nat): Tracking<Option<Attributes>, seq<Attributes>> {
    Tracking((seen: seq<Attributes>) => Later(SetFormat(), base, seen),
             (x: Option<Attributes>, seen: seq<Attributes>) => base == 0 || SetOf(x) !in seen)
  }

  lemma XattrTells(base: nat, x: Option<Attributes>, seen: seq<Attributes>)
    requires SetFits(SetOf(x)) && base <= |seen| < 0xFFFF_FFFF && Distinct(seen)
    ensures Tells(XattrCoding(), RestartedXattrs(base), x, seen)
  {
    SetFaithful();
    RightExactly(SetFormat(), base, seen, SetOf(x));
    forall rest: seq<byte>
      ensures TellsBefore(XattrCoding(), RestartedXattrs(base), x, seen, rest)
    {
      OneRestarted(SetFormat(), base, seen, SetOf(x), rest);
    }
  }

  lemma {:induction false} XattrStates(start: seq<Attributes>, files: seq<Option<Attributes>>, n: nat)
    requires n <= |files| && Distinct(start)
    ensures var seen := StateAfter(XattrCoding(), start, files, n);
            Distinct(seen) && |start| <= |seen| <= |start| + n
  {
    if n > 0 {
      XattrStates(start, files, n - 1);
    }
  }

  /** The sets of this list are new and differ from each other. */
  ghost predicate AllNew(start: seq<Attributes>, files: seq<Option<Attributes>>) {
    && (forall k :: 0 <= k < |files| ==> SetOf(files[k]) !in start)
    && (forall j, k :: 0 <= j < k < |files| ==> SetOf(files[j]) != SetOf(files[k]))
  }

  lemma {:induction false} SeenExactly(start: seq<Attributes>, files: seq<Option<Attributes>>, n: nat, xa: Attributes)
    requires n <= |files|
    ensures xa in StateAfter(XattrCoding(), start, files, n)
       <==> xa in start || exists j :: 0 <= j < n && SetOf(files[j]) == xa
  {
    if n > 0 {
      SeenExactly(start, files, n - 1, xa);
    }
  }

  lemma NewExactly(start: seq<Attributes>, files: seq<Option<Attributes>>, base: nat)
    requires base > 0
    ensures AllGood(XattrCoding(), RestartedXattrs(base), start, files, 0) <==> AllNew(start, files)
  {
    forall k | 0 <= k < |files|
      ensures SetOf(files[k]) in StateAfter(XattrCoding(), start, files, k)
         <==> SetOf(files[k]) in start || exists j :: 0 <= j < k && SetOf(files[j]) == SetOf(files[k])
    {
      SeenExactly(start, files, k, SetOf(files[k]));
    }
  }

  /**
   * The attributes of a sub-list, with the sets of `start` encoded before and a fresh decoder: every
   * file gets its own back if and only if nothing was encoded before, or the sets are all new and
   * all different.
   */
  lemma XattrsRestarted(start: seq<Attributes>, files: seq<Option<Attributes>>, rest: seq<byte>)
    requires Distinct(start) && |start| + |files| < 0xFFFF_FFFF
    requires forall k :: 0 <= k < |files| ==> SetFits(SetOf(files[k]))
    ensures var c := XattrCoding();
            AllOwn(c, files, 0, ReadFrom(c, files, 0, [], BytesFrom(c, start, files, 0) + rest))
            <==> start == [] || AllNew(start, files)
  {
    var c, base := XattrCoding(), |start|;
    forall k | 0 <= k < |files|
      ensures Tells(c, RestartedXattrs(base), files[k], StateAfter(c, start, files, k))
    {
      XattrStates(start, files, k);
      XattrTells(base, files[k], StateAfter(c, start, files, k));
    }
    ReadExactly(c, RestartedXattrs(base), start, files, 0, rest);
    assert Later(SetFormat(), base, start) == [];
    if base > 0 {
      NewExactly(start, files, base);
    }
  }

  /** A file without attributes in the first list, another one in the second: reading the second fails. */
  lemma SecondWithoutFails(rest: seq<byte>)
    ensures var c, files: seq<Option<Attributes>> := XattrCoding(), [None];
            ReadFrom(c, files, 0, [], BytesFrom(c, StateAfter(c, [], files, 1), files, 0) + rest) == None
  {
    var c, files: seq<Option<Attributes>> := XattrCoding(), [None];
    var seen := StateAfter(c, [], files, 1);
    assert StateAfter(c, [], files, 0) == [];
    assert seen == [[]];
    assert Position(seen, [], 0) == Some(0);
    SetFaithful();
    NamedRestarted(SetFormat(), 1, seen, [], 0, rest);
    assert BytesFrom(c, seen, files, 1) == [] && StateAfter(c, seen, files, 0) == seen;
    var bytes := Encoded(SetFormat(), seen, []);
    assert bytes + [] == bytes;
    assert Later(SetFormat(), 1, seen) == [];
  }

  // ---- Access control lists ----

  /** The value comes out right if and only if it is the value's own that is read. */
  lemma RightOrNot<T(!new)>(format: Format<T>, base: nat, seen: seq<T>, x: T, rest: seq<byte>)
    requires Faithful(format) && format.fits(x) && base <= |seen| < 0xFFFF_FFFF
    ensures var r := Decoded(format, Later(format, base, seen), Encoded(format, seen, x) + rest);
            && (r.Some? ==> r.value.1 == Later(format, base, Seen(seen, x)) && r.value.2 == rest)
            && (ComesRight(format, base, seen, x) <==> r.Some? && r.value.0 == format.norm(x))
  {
    OneRestarted(format, base, seen, x, rest);
  }

  /** A file gets its own lists if and only if both come out right; a file that is no directory has one. */
  lemma OwnLists(f: FileAcl, access: AclEntries, default: Option<AclEntries>)
    requires default.Some? == f.isDir
    ensures Joined(access, default) == AclExchange.Normal(f)
       <==> access == NormAcl(AccessOf(f.acl)) && (f.isDir ==> default == Some(NormAcl(DefaultOf(f.acl))))
  {
  }

  ghost predicate BothRight(base: Lists, f: FileAcl, lists: Lists) {
    && ComesRight(AclFormat(), |base.access|, lists.access, AccessOf(f.acl))
    && (f.isDir ==> ComesRight(AclFormat(), |base.default|, lists.default, DefaultOf(f.acl)))
  }

  ghost function Restarted(base: Lists, lists: Lists): Lists {
    Lists(Later(AclFormat(), |base.access|, lists.access), Later(AclFormat(), |base.default|, lists.default))
  }

  ghost predicate ReadsOwn(base: Lists, f: FileAcl, lists: Lists, rest: seq<byte>)
    requires Room(lists)
  {
    var r := FileRead(f.isDir, FileBytes(f, lists) + rest, Restarted(base, lists));
    if BothRight(base, f, lists) then r == Some((AclExchange.Normal(f), Restarted(base, FileLists(f, lists)), rest))
    else r.None? || r.value.0 != AclExchange.Normal(f)
  }

  lemma FileReads(f: FileAcl, base: Lists, lists: Lists, rest: seq<byte>)
    requires !f.isDir && FileFits(f) && Room(lists) && |base.access| <= |lists.access|
    ensures ReadsOwn(base, f, lists, rest)
  {
    AclFaithful();
    var format, access := AclFormat(), AccessOf(f.acl);
    assert Encoded(format, lists.access, access) + [] == Encoded(format, lists.access, access);
    RightOrNot(format, |base.access|, lists.access, access, rest);
    var r := Decoded(format, Later(format, |base.access|, lists.access), Encoded(format, lists.access, access) + rest);
    if r.Some? {
      OwnLists(f, r.value.0, None);
    }
  }

  lemma DirectoryReads(f: FileAcl, base: Lists, lists: Lists, rest: seq<byte>)
    requires f.isDir && FileFits(f) && Room(lists)
    requires |base.access| <= |lists.access| && |base.default| <= |lists.default|
    ensures ReadsOwn(base, f, lists, rest)
  {
    AclFaithful();
    var format, access, default := AclFormat(), AccessOf(f.acl), DefaultOf(f.acl);
    var d := Encoded(format, lists.default, default);
    Assoc(Encoded(format, lists.access, access), d, rest);
    RightOrNot(format, |base.access|, lists.access, access, d + rest);
    RightOrNot(format, |base.default|, lists.default, default, rest);
    var r := Decoded(format, Later(format, |base.access|, lists.access),
                     Encoded(format, lists.access, access) + (d + rest));
    var q := Decoded(format, Later(format, |base.default|, lists.default), d + rest);
    if r.Some? && q.Some? {
      OwnLists(f, r.value.0, Some(q.value.0));
    }
  }

  /** Decoders started afresh when the encoder had these lists. */
  ghost function RestartedAcls(base: Lists): Tracking<FileAcl, Lists> {
    Tracking((lists: Lists) => Restarted(base, lists), (f: FileAcl, lists: Lists) => BothRight(base, f, lists))
  }

  lemma AclTellsBefore(base: Lists, f: FileAcl, lists: Lists, rest: seq<byte>)
    requires FileFits(f) && Room(lists) && |base.access| <= |lists.access| && |base.default| <= |lists.default|
    ensures TellsBefore(AclCoding(), RestartedAcls(base), f, lists, rest)
  {
    if f.isDir {
      DirectoryReads(f, base, lists, rest);
    } else {
      FileReads(f, base, lists, rest);
    }
    assert ReadsOwn(base, f, lists, rest);
  }

  lemma AclTells(base: Lists, f: FileAcl, lists: Lists)
    requires FileFits(f) && Room(lists) && |base.access| <= |lists.access| && |base.default| <= |lists.default|
    ensures Tells(AclCoding(), RestartedAcls(base), f, lists)
  {
    forall rest: seq<byte>
      ensures TellsBefore(AclCoding(), RestartedAcls(base), f, lists, rest)
    {
      AclTellsBefore(base, f, lists, rest);
    }
  }

  lemma {:induction false} AclStates(start: Lists, files: seq<FileAcl>, n: nat)
    requires n <= |files|
    ensures var lists := StateAfter(AclCoding(), start, files, n);
            && |start.access| <= |lists.access| <= |start.access| + n
            && |start.default| <= |lists.default| <= |start.default| + n
  {
    if n > 0 {
      AclStates(start, files, n - 1);
    }
  }

  /**
   * The access control lists of a sub-list, with those of `start` encoded before and a fresh decoder:
   * every file gets its own back if and only if each of its lists is new, or stands, as far as it is
   * kept, also as many places further on as there were lists before.
   */
  lemma AclsRestarted(start: Lists, files: seq<FileAcl>, rest: seq<byte>)
    requires |start.access| + |files| < 0xFFFF_FFFF && |start.default| + |files| < 0xFFFF_FFFF
    requires forall k :: 0 <= k < |files| ==> FileFits(files[k])
    ensures var c := AclCoding();
            AllOwn(c, files, 0, ReadFrom(c, files, 0, Lists([], []), BytesFrom(c, start, files, 0) + rest))
            <==> AllGood(c, RestartedAcls(start), start, files, 0)
  {
    var c := AclCoding();
    forall k | 0 <= k < |files|
      ensures Tells(c, RestartedAcls(start), files[k], StateAfter(c, start, files, k))
    {
      AclStates(start, files, k);
      AclTells(start, files[k], StateAfter(c, start, files, k));
    }
    ReadExactly(c, RestartedAcls(start), start, files, 0, rest);
    assert Later(AclFormat(), |start.access|, start.access) == [];
    assert Later(AclFormat(), |start.default|, start.default) == [];
  }

  /** Nothing of the list is lost on the wire. */
  ghost predicate Kept(a: AclEntries) {
    NormAcl(a) == a
  }

  ghost predicate AllKept(s: seq<AclEntries>) {
    forall i :: 0 <= i < |s| ==> Kept(s[i])
  }

  lemma SeenKept(seen: seq<AclEntries>, a: AclEntries)
    requires Distinct(seen) && AllKept(seen) && Kept(a)
    ensures Distinct(Seen(seen, a)) && AllKept(Seen(seen, a))
  {
  }

  lemma {:induction false} KeptStates(start: Lists, files: seq<FileAcl>, n: nat)
    requires n <= |files| && Distinct(start.access) && Distinct(start.default)
    requires AllKept(start.access) && AllKept(start.default)
    requires forall k :: 0 <= k < |files| ==> Kept(AccessOf(files[k].acl)) && Kept(DefaultOf(files[k].acl))
    ensures var lists := StateAfter(AclCoding(), start, files, n);
            && Distinct(lists.access) && Distinct(lists.default) && AllKept(lists.access) && AllKept(lists.default)
  {
    if n > 0 {
      KeptStates(start, files, n - 1);
      var lists, f := StateAfter(AclCoding(), start, files, n - 1), files[n - 1];
      SeenKept(lists.access, AccessOf(f.acl));
      SeenKept(lists.default, DefaultOf(f.acl));
      assert StateAfter(AclCoding(), start, files, n) == FileLists(f, lists);
    }
  }

  lemma SeenIn(seen: seq<AclEntries>, x: AclEntries, a: AclEntries)
    ensures a in Seen(seen, x) <==> a in seen || a == x
  {
  }

  lemma {:induction false} AccessSeen(start: Lists, files: seq<FileAcl>, n: nat, a: AclEntries)
    requires n <= |files|
    ensures a in StateAfter(AclCoding(), start, files, n).access
       <==> a in start.access || exists j :: 0 <= j < n && AccessOf(files[j].acl) == a
  {
    if n > 0 {
      var lists, f := StateAfter(AclCoding(), start, files, n - 1), files[n - 1];
      AccessSeen(start, files, n - 1, a);
      SeenIn(lists.access, AccessOf(f.acl), a);
      assert StateAfter(AclCoding(), start, files, n).access == Seen(lists.access, AccessOf(f.acl));
    }
  }

  lemma {:induction false} DefaultSeen(start: Lists, files: seq<FileAcl>, n: nat, a: AclEntries)
    requires n <= |files|
    ensures a in StateAfter(AclCoding(), start, files, n).default
       <==> a in start.default || exists j :: 0 <= j < n && files[j].isDir && DefaultOf(files[j].acl) == a
  {
    if n > 0 {
      var lists, f := StateAfter(AclCoding(), start, files, n - 1), files[n - 1];
      DefaultSeen(start, files, n - 1, a);
      SeenIn(lists.default, DefaultOf(f.acl), a);
      assert StateAfter(AclCoding(), start, files, n).default
          == if f.isDir then Seen(lists.default, DefaultOf(f.acl)) else lists.default;
    }
  }

  /** The lists of file `k` are new when its turn comes. */
  ghost predicate NewAcls(start: Lists, files: seq<FileAcl>, k: nat)
    requires k < |files|
  {
    var access, default := AccessOf(files[k].acl), DefaultOf(files[k].acl);
    && (start.access == []
        || (access !in start.access && forall j :: 0 <= j < k ==> AccessOf(files[j].acl) != access))
    && (files[k].isDir ==>
          start.default == []
          || (default !in start.default
              && forall j :: 0 <= j < k && files[j].isDir ==> DefaultOf(files[j].acl) != default))
  }

  lemma NewAclsExactly(start: Lists, files: seq<FileAcl>, k: nat)
    requires k < |files| && Distinct(start.access) && Distinct(start.default)
    requires AllKept(start.access) && AllKept(start.default)
    requires forall i :: 0 <= i < |files| ==> Kept(AccessOf(files[i].acl)) && Kept(DefaultOf(files[i].acl))
    ensures BothRight(start, files[k], StateAfter(AclCoding(), start, files, k)) <==> NewAcls(start, files, k)
  {
    var lists, access, default := StateAfter(AclCoding(), start, files, k), AccessOf(files[k].acl),
        DefaultOf(files[k].acl);
    KeptStates(start, files, k);
    RightExactly(AclFormat(), |start.access|, lists.access, access);
    RightExactly(AclFormat(), |start.default|, lists.default, default);
    AccessSeen(start, files, k, access);
    DefaultSeen(start, files, k, default);
  }

  /**
   * For lists of which nothing is lost: every file gets its own back if and only if, of each kind,
   * nothing was encoded before or the lists are all new and all different.
   */
  lemma KeptAclsRestarted(start: Lists, files: seq<FileAcl>, rest: seq<byte>)
    requires |start.access| + |files| < 0xFFFF_FFFF && |start.default| + |files| < 0xFFFF_FFFF
    requires Distinct(start.access) && Distinct(start.default) && AllKept(start.access) && AllKept(start.default)
    requires forall k :: 0 <= k < |files| ==> FileFits(files[k])
    requires forall k :: 0 <= k < |files| ==> Kept(AccessOf(files[k].acl)) && Kept(DefaultOf(files[k].acl))
    ensures var c := AclCoding();
            AllOwn(c, files, 0, ReadFrom(c, files, 0, Lists([], []), BytesFrom(c, start, files, 0) + rest))
            <==> forall k :: 0 <= k < |files| ==> NewAcls(start, files, k)
  {
    AclsRestarted(start, files, rest);
    forall k | 0 <= k < |files|
      ensures RestartedAcls(start).good(files[k], StateAfter(AclCoding(), start, files, k))
         <==> NewAcls(start, files, k)
    {
      NewAclsExactly(start, files, k);
    }
  }
}
