/**
 * Metadata of all files of a list, one after the other: the encoder's state goes from file to file,
 * and the decoder's follows it.
 */
module Exchange {
  import opened Bytes

  /**
   * How one file is written and read. `norm` is what comes out of a file, `follow` the decoder's
   * state when the encoder's is given; the decoder knows the file it reads for.
   */
  datatype Coding<!F, !S, !A> = Coding(
    write: (F, S) -> seq<byte>,
    next: (F, S) -> S,
    read: (F, S, seq<byte>) -> Option<(A, S, seq<byte>)>,
    norm: F -> A,
    follow: S -> S)
  {
    ghost predicate Comes(f: F, s: S, rest: seq<byte>) {
      read(f, follow(s), write(f, s) + rest) == Some((norm(f), follow(next(f, s)), rest))
    }
  }

  ghost function StateAfter<F, S, A>(c: Coding<F, S, A>, start: S, files: seq<F>, n: nat): S
    requires n <= |files|
  {
    if n == 0 then start else c.next(files[n - 1], StateAfter(c, start, files, n - 1))
  }

  /** The bytes of the files from `k` on. */
  ghost function BytesFrom<F, S, A>(c: Coding<F, S, A>, start: S, files: seq<F>, k: nat): seq<byte>
    requires k <= |files|
    decreases |files| - k
  {
    if k == |files| then []
    else c.write(files[k], StateAfter(c, start, files, k)) + BytesFrom(c, start, files, k + 1)
  }

  /** What is read for the files from `k` on, the state after it, and the bytes left. */
  ghost function ReadFrom<F, S, A>(c: Coding<F, S, A>, files: seq<F>, k: nat, s: S, bytes: seq<byte>)
    : Option<(seq<A>, S, seq<byte>)>
    requires k <= |files|
    decreases |files| - k
  {
    if k == |files| then Some(([], s, bytes))
    else
      match c.read(files[k], s, bytes)
      case None => None
      case Some((a, s', rest)) => Prefixed(a, ReadFrom(c, files, k + 1, s', rest))
  }

  ghost function Prefixed<S, A>(a: A, more: Option<(seq<A>, S, seq<byte>)>): Option<(seq<A>, S, seq<byte>)>
  {
    match more case None => None case Some((tail, s, rest)) => Some(([a] + tail, s, rest))
  }

  ghost function Normal<F, S, A>(c: Coding<F, S, A>, files: seq<F>): (r: seq<A>)
    ensures |r| == |files| && forall k :: 0 <= k < |files| ==> r[k] == c.norm(files[k])
  {
    seq(|files|, k requires 0 <= k < |files| => c.norm(files[k]))
  }

  ghost predicate Passes<F(!new), S(!new), A(!new)>(c: Coding<F, S, A>, start: S, files: seq<F>, k: nat)
    requires k < |files|
  {
    forall rest: seq<byte> :: c.Comes(files[k], StateAfter(c, start, files, k), rest)
  }

  /** If every file comes through on its own, all come through one after the other, and the states stay in step. */
  lemma {:induction false} AllRead<F(!new), S(!new), A(!new)>(c: Coding<F, S, A>, start: S, files: seq<F>, k: nat,
                                                              rest: seq<byte>)
    requires k <= |files| && forall i :: 0 <= i < |files| ==> Passes(c, start, files, i)
    ensures ReadFrom(c, files, k, c.follow(StateAfter(c, start, files, k)), BytesFrom(c, start, files, k) + rest)
         == Some((Normal(c, files)[k..], c.follow(StateAfter(c, start, files, |files|)), rest))
    decreases |files| - k
  {
    var all := Normal(c, files);
    if k == |files| {
      assert [] + rest == rest && all[k..] == [];
    } else {
      var s, more := StateAfter(c, start, files, k), BytesFrom(c, start, files, k + 1);
      Assoc(c.write(files[k], s), more, rest);
      assert Passes(c, start, files, k);
      assert c.Comes(files[k], s, more + rest);
      AllRead(c, start, files, k + 1, rest);
      assert StateAfter(c, start, files, k + 1) == c.next(files[k], s);
      assert all[k..] == [all[k]] + all[k + 1..];
    }
  }
}
