/** Similarity of file names: the longest common subsequence, computed with two rows. */
module Lcs {
  import opened Bytes

  /** Length of the longest common subsequence of the first `i` of `a` and the first `j` of `b`. */
  function Table(a: seq<byte>, b: seq<byte>, i: nat, j: nat): (n: nat)
    requires i <= |a| && j <= |b|
  {
    if i == 0 || j == 0 then 0
    else if a[i - 1] == b[j - 1] then Table(a, b, i - 1, j - 1) + 1
    else Max(Table(a, b, i - 1, j), Table(a, b, i, j - 1))
  }

  function Max(x: nat, y: nat): (m: nat)
    ensures m >= x && m >= y && (m == x || m == y)
  {
    if x < y then y else x
  }

  // ---- What the table holds ----

  ghost predicate Increasing(s: seq<nat>, bound: nat) {
    && (forall k :: 0 <= k < |s| ==> s[k] < bound)
    && (forall j, k :: 0 <= j < k < |s| ==> s[j] < s[k])
  }

  /** Positions `p` in `a` and `q` in `b` pick out the same subsequence. */
  ghost predicate Common(a: seq<byte>, b: seq<byte>, p: seq<nat>, q: seq<nat>, i: nat, j: nat)
    requires i <= |a| && j <= |b|
  {
    && |p| == |q| && Increasing(p, i) && Increasing(q, j)
    && (forall k :: 0 <= k < |p| ==> a[p[k]] == b[q[k]])
  }

  lemma {:induction false} NoneLonger(a: seq<byte>, b: seq<byte>, p: seq<nat>, q: seq<nat>, i: nat, j: nat)
    requires i <= |a| && j <= |b| && Common(a, b, p, q, i, j)
    ensures |p| <= Table(a, b, i, j)
  {
    var n := |p|;
    if n > 0 {
      assert p[n - 1] < i && q[n - 1] < j;
      if a[i - 1] == b[j - 1] {
        NoneLonger(a, b, p[..n - 1], q[..n - 1], i - 1, j - 1);
      } else if p[n - 1] < i - 1 {
        NoneLonger(a, b, p, q, i - 1, j);
      } else {
        NoneLonger(a, b, p, q, i, j - 1);
      }
    }
  }

  lemma {:induction false} OneAsLong(a: seq<byte>, b: seq<byte>, i: nat, j: nat) returns (p: seq<nat>, q: seq<nat>)
    requires i <= |a| && j <= |b|
    ensures Common(a, b, p, q, i, j) && |p| == Table(a, b, i, j)
  {
    if i == 0 || j == 0 {
      p, q := [], [];
    } else if a[i - 1] == b[j - 1] {
      p, q := OneAsLong(a, b, i - 1, j - 1);
      p, q := p + [i - 1], q + [j - 1];
    } else if Table(a, b, i - 1, j) >= Table(a, b, i, j - 1) {
      p, q := OneAsLong(a, b, i - 1, j);
    } else {
      p, q := OneAsLong(a, b, i, j - 1);
    }
  }

  lemma {:induction false} IncreasingAbove(s: seq<nat>, bound: nat, k: nat)
    requires Increasing(s, bound) && k < |s|
    ensures k <= s[k] && s[k] + (|s| - k) <= bound
    decreases |s| - k
  {
    if k + 1 < |s| {
      IncreasingAbove(s, bound, k + 1);
    }
    IncreasingFrom(s, bound, k);
  }

  lemma {:induction false} IncreasingFrom(s: seq<nat>, bound: nat, k: nat)
    requires Increasing(s, bound) && k < |s|
    ensures k <= s[k]
  {
    if k > 0 {
      IncreasingFrom(s, bound, k - 1);
    }
  }

  /** At most the shorter length, the same both ways, and all of both only if they are equal. */
  lemma {:induction false} TableFacts(a: seq<byte>, b: seq<byte>)
    ensures Table(a, b, |a|, |b|) <= |a| && Table(a, b, |a|, |b|) <= |b|
    ensures Table(a, b, |a|, |b|) == Table(b, a, |b|, |a|)
    ensures Table(a, b, |a|, |b|) == Max(|a|, |b|) <==> a == b
  {
    var p, q := OneAsLong(a, b, |a|, |b|);
    var q', p' := OneAsLong(b, a, |b|, |a|);
    NoneLonger(a, b, p', q', |a|, |b|);
    NoneLonger(b, a, q, p, |b|, |a|);
    if |p| > 0 {
      IncreasingAbove(p, |a|, 0);
      IncreasingAbove(q, |b|, 0);
    }
    if |p| == |a| == |b| {
      forall k | 0 <= k < |a|
        ensures a[k] == b[k]
      {
        IncreasingAbove(p, |a|, k);
        IncreasingAbove(q, |b|, k);
      }
    }
    if a == b {
      var all: seq<nat> := seq(|a|, k => k);
      NoneLonger(a, b, all, all, |a|, |b|);
    }
  }

  // ---- The two rows ----

  method FillRow(a: seq<byte>, b: seq<byte>, i: nat, prev: array<nat>, curr: array<nat>)
    requires 1 <= i <= |a| && prev != curr && prev.Length == curr.Length == |b| + 1
    requires forall j :: 0 <= j <= |b| ==> prev[j] == Table(a, b, i - 1, j)
    requires curr[0] == 0
    modifies curr
    ensures forall j :: 0 <= j <= |b| ==> curr[j] == Table(a, b, i, j)
  {
    for j := 1 to |b| + 1
      invariant forall k :: 0 <= k < j ==> curr[k] == Table(a, b, i, k)
    {
      curr[j] := if a[i - 1] == b[j - 1] then prev[j - 1] + 1 else Max(prev[j], curr[j - 1]);
    }
  }

  method LongestCommonSubsequenceLen(a: seq<byte>, b: seq<byte>) returns (n: nat)
    ensures n == Table(a, b, |a|, |b|)
  {
    var prev, curr := new nat[|b| + 1](_ => 0), new nat[|b| + 1](_ => 0);
    for i := 1 to |a| + 1
      invariant fresh(prev) && fresh(curr) && prev != curr && prev.Length == curr.Length == |b| + 1
      invariant forall j :: 0 <= j <= |b| ==> prev[j] == Table(a, b, i - 1, j)
      invariant forall j :: 0 <= j <= |b| ==> curr[j] == 0
    {
      FillRow(a, b, i, prev, curr);
      prev, curr := curr, prev;
      forall j | 0 <= j < curr.Length {
        curr[j] := 0;
      }
    }
    n := prev[|b|];
  }

  /** Some common subsequence is `n` long, and none is longer. */
  ghost predicate LongestLength(a: seq<byte>, b: seq<byte>, n: nat) {
    && (exists p, q :: Common(a, b, p, q, |a|, |b|) && |p| == n)
    && (forall p, q :: Common(a, b, p, q, |a|, |b|) ==> |p| <= n)
  }

  /** The table's last entry is the length of the longest common subsequence. */
  lemma {:induction false} Longest(a: seq<byte>, b: seq<byte>)
    ensures LongestLength(a, b, Table(a, b, |a|, |b|))
  {
    var n := Table(a, b, |a|, |b|);
    var p, q := OneAsLong(a, b, |a|, |b|);
    forall p', q' | Common(a, b, p', q', |a|, |b|)
      ensures |p'| <= n
    {
      NoneLonger(a, b, p', q', |a|, |b|);
    }
    assert Common(a, b, p, q, |a|, |b|) && |p| == n;
  }

  ghost predicate IsShare(score: real, n: nat, m: nat) {
    score * m as real == n as real
  }

  method Share(n: nat, m: nat) returns (score: real)
    requires n <= m && m > 0
    ensures IsShare(score, n, m) && 0.0 <= score <= 1.0 && (score == 1.0 <==> n == m)
  {
    score := n as real / m as real;
    assert score * m as real == n as real;
  }

  lemma NoShare(m: nat)
    ensures IsShare(0.0, 0, m)
  {
  }

  /** Share of the longest common subsequence in the longer name, exact where the program rounds. */
  method FuzzyScore(a: seq<byte>, b: seq<byte>) returns (score: real)
    ensures exists n: nat :: LongestLength(a, b, n) && IsShare(score, n, Max(|a|, |b|))
    ensures 0.0 <= score <= 1.0
    ensures score == 1.0 <==> a == b && a != []
  {
    Longest(a, b);
    TableFacts(a, b);
    if |a| == 0 || |b| == 0 {
      NoShare(Max(|a|, |b|));
      return 0.0;
    }
    var n := LongestCommonSubsequenceLen(a, b);
    score := Share(n, Max(|a|, |b|));
  }
}
