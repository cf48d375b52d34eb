/**
 * Grouping of a file list by directory for incremental sending: the root group first, then one
 * group per directory, breadth first. Directories are numbered in the order they are sent.
 */
module DirectoryTree {
  import opened Bytes
  import opened SortOrder

  type Name = seq<byte>

  /** `dirNdx` numbers the directory among all directories sent, -1 for the root group. */
  datatype Group = Group(dirNdx: int, members: seq<nat>)

  // ---- Members and directories ----

  /** The entries before `n` directly under `d`, in order. */
  function Under(es: seq<FileEntry>, d: Option<Name>, n: nat): (s: seq<nat>)
    requires n <= |es|
    ensures Indices(es, s) && |s| <= n
  {
    if n == 0 then [] else Under(es, d, n - 1) + (if es[n - 1].Dirname() == d then [n - 1] else [])
  }

  lemma {:induction false} UnderExactly(es: seq<FileEntry>, d: Option<Name>, n: nat)
    requires n <= |es|
    ensures forall k :: 0 <= k < |Under(es, d, n)| ==> Under(es, d, n)[k] < n && es[Under(es, d, n)[k]].Dirname() == d
    ensures forall i :: 0 <= i < n && es[i].Dirname() == d ==> i in Under(es, d, n)
    ensures forall j, k :: 0 <= j < k < |Under(es, d, n)| ==> Under(es, d, n)[j] < Under(es, d, n)[k]
  {
    if n > 0 {
      UnderExactly(es, d, n - 1);
    }
  }

  ghost predicate Indices(es: seq<FileEntry>, s: seq<nat>) {
    forall k :: 0 <= k < |s| ==> s[k] < |es|
  }

  /** The directories among the first `n` of `s`, in order. */
  function Dirs(es: seq<FileEntry>, s: seq<nat>, n: nat): (r: seq<nat>)
    requires n <= |s| && Indices(es, s)
    ensures Indices(es, r) && |r| <= n
  {
    if n == 0 then [] else Dirs(es, s, n - 1) + (if es[s[n - 1]].IsDir() then [s[n - 1]] else [])
  }

  lemma {:induction false} DirsExactly(es: seq<FileEntry>, s: seq<nat>, n: nat)
    requires n <= |s| && Indices(es, s)
    ensures forall k :: 0 <= k < |Dirs(es, s, n)| ==> Dirs(es, s, n)[k] in s && es[Dirs(es, s, n)[k]].IsDir()
  {
    if n > 0 {
      DirsExactly(es, s, n - 1);
    }
  }

  /** The directories among the first `n` of `s` that will be descended into: not the root itself. */
  function Descended(es: seq<FileEntry>, s: seq<nat>, n: nat): (r: seq<nat>)
    requires n <= |s| && Indices(es, s)
    ensures Indices(es, r)
  {
    if n == 0 then []
    else Descended(es, s, n - 1) + (if es[s[n - 1]].IsDir() && es[s[n - 1]].name != [DOT] then [s[n - 1]] else [])
  }

  lemma {:induction false} DescendedExactly(es: seq<FileEntry>, s: seq<nat>, n: nat)
    requires n <= |s| && Indices(es, s)
    ensures forall k :: 0 <= k < |Descended(es, s, n)| ==>
              es[Descended(es, s, n)[k]].IsDir() && es[Descended(es, s, n)[k]].name != [DOT]
  {
    if n > 0 {
      DescendedExactly(es, s, n - 1);
    }
  }

  function Root(es: seq<FileEntry>): (s: seq<nat>) {
    Under(es, None, |es|)
  }

  function Children(es: seq<FileEntry>, name: Name): (s: seq<nat>) {
    Under(es, Some(name), |es|)
  }

  function ChildDirs(es: seq<FileEntry>, name: Name): (s: seq<nat>)
    ensures Indices(es, s)
  {
    Dirs(es, Children(es, name), |Children(es, name)|)
  }

  lemma ChildDir(es: seq<FileEntry>, name: Name, i: nat)
    requires i in ChildDirs(es, name)
    ensures i < |es| && es[i].Dirname() == Some(name) && es[i].IsDir()
  {
    DirsExactly(es, Children(es, name), |Children(es, name)|);
    UnderExactly(es, Some(name), |es|);
  }

  /** The child directories of the first `n` of `order`. */
  ghost function Spawned(es: seq<FileEntry>, order: seq<nat>, n: nat): seq<nat>
    requires n <= |order| && Indices(es, order)
  {
    if n == 0 then [] else Spawned(es, order, n - 1) + ChildDirs(es, es[order[n - 1]].name)
  }

  /** Directories in the order a breadth-first traversal meets them. */
  ghost predicate BreadthFirst(es: seq<FileEntry>, order: seq<nat>)
  {
    && Indices(es, order)
    && order == Descended(es, Root(es), |Root(es)|) + Spawned(es, order, |order|)
  }

  /** The directories in the first `n` groups, in the order they are sent. */
  ghost function Sent(es: seq<FileEntry>, groups: seq<Group>, n: nat): seq<nat>
    requires n <= |groups| && forall g :: 0 <= g < n ==> Indices(es, groups[g].members)
  {
    if n == 0 then []
    else Sent(es, groups, n - 1) + Dirs(es, groups[n - 1].members, |groups[n - 1].members|)
  }

  // ---- Termination: names get longer ----

  ghost function Longest(es: seq<FileEntry>, n: nat): (m: nat)
    requires n <= |es|
    ensures forall i :: 0 <= i < n ==> |es[i].name| <= m
  {
    if n == 0 then 0
    else if |es[n - 1].name| > Longest(es, n - 1) then |es[n - 1].name| else Longest(es, n - 1)
  }

  ghost function Power(b: nat, e: nat): (p: nat)
    ensures b > 0 ==> p > 0
  {
    if e == 0 then 1 else b * Power(b, e - 1)
  }

  lemma {:induction false} PowerGrows(b: nat, d: nat, e: nat)
    requires b > 0 && d <= e
    ensures Power(b, d) <= Power(b, e)
  {
    if d < e {
      PowerGrows(b, d, e - 1);
      assert b * Power(b, e - 1) >= 1 * Power(b, e - 1);
    }
  }

  ghost function Rank(es: seq<FileEntry>, name: Name): nat
  {
    var m := Longest(es, |es|);
    if |name| <= m then m - |name| else 0
  }

  /** Bound on the turns a directory of this name can still cause. */
  ghost function Turns(es: seq<FileEntry>, name: Name): (t: nat)
    ensures t > 0
  {
    Power(|es| + 1, Rank(es, name))
  }

  ghost function Weight(es: seq<FileEntry>, queue: seq<nat>, from: nat): nat
    requires from <= |queue| && Indices(es, queue)
    decreases |queue| - from
  {
    if from == |queue| then 0 else Turns(es, es[queue[from]].name) + Weight(es, queue, from + 1)
  }

  lemma {:induction false} WeightAppend(es: seq<FileEntry>, a: seq<nat>, b: seq<nat>, from: nat)
    requires Indices(es, a) && Indices(es, b) && from <= |a|
    ensures Indices(es, a + b) && Weight(es, a + b, from) == Weight(es, a, from) + Weight(es, b, 0)
    decreases |a| - from
  {
    if from == |a| {
      WeightShift(es, a, b, 0);
    } else {
      assert (a + b)[from] == a[from];
      WeightAppend(es, a, b, from + 1);
    }
  }

  lemma {:induction false} WeightShift(es: seq<FileEntry>, a: seq<nat>, b: seq<nat>, from: nat)
    requires Indices(es, a) && Indices(es, b) && from <= |b|
    ensures Indices(es, a + b) && Weight(es, a + b, |a| + from) == Weight(es, b, from)
    decreases |b| - from
  {
    if from < |b| {
      assert (a + b)[|a| + from] == b[from];
      WeightShift(es, a, b, from + 1);
    }
  }

  lemma {:induction false} WeightBound(es: seq<FileEntry>, s: seq<nat>, from: nat, cap: nat)
    requires from <= |s| && Indices(es, s)
    requires forall k :: 0 <= k < |s| ==> Turns(es, es[s[k]].name) <= cap
    ensures Weight(es, s, from) <= (|s| - from) * cap
    decreases |s| - from
  {
    if from < |s| {
      WeightBound(es, s, from + 1, cap);
      assert (|s| - from) * cap == (|s| - from - 1) * cap + cap;
    }
  }

  lemma ChildRank(es: seq<FileEntry>, name: Name, i: nat)
    requires i in ChildDirs(es, name)
    ensures i < |es| && Rank(es, es[i].name) < Rank(es, name)
  {
    ChildDir(es, name, i);
  }

  lemma Fewer(n: nat, b: nat, cap: nat)
    requires n < b && cap > 0
    ensures n * cap < b * cap
  {
  }

  /** The children of a directory weigh less than the directory. */
  lemma ChildrenLighter(es: seq<FileEntry>, name: Name)
    ensures Weight(es, ChildDirs(es, name), 0) < Turns(es, name)
  {
    var dirs, b, r := ChildDirs(es, name), |es| + 1, Rank(es, name);
    if dirs != [] {
      ChildRank(es, name, dirs[0]);
      var cap := Power(b, r - 1);
      forall k | 0 <= k < |dirs|
        ensures Turns(es, es[dirs[k]].name) <= cap
      {
        ChildRank(es, name, dirs[k]);
        PowerGrows(b, Rank(es, es[dirs[k]].name), r - 1);
      }
      WeightBound(es, dirs, 0, cap);
      Fewer(|dirs|, b, cap);
    }
  }

  lemma SpawnedPrefix(es: seq<FileEntry>, a: seq<nat>, b: seq<nat>, n: nat)
    requires Indices(es, a) && Indices(es, a + b) && n <= |a|
    ensures Spawned(es, a + b, n) == Spawned(es, a, n)
  {
    if n > 0 {
      SpawnedPrefix(es, a, b, n - 1);
    }
  }

  lemma SentPrefix(es: seq<FileEntry>, a: seq<Group>, b: seq<Group>, n: nat)
    requires n <= |a| && forall g :: 0 <= g < |a + b| ==> Indices(es, (a + b)[g].members)
    requires forall g :: 0 <= g < |a| ==> Indices(es, a[g].members)
    ensures Sent(es, a + b, n) == Sent(es, a, n)
  {
    if n > 0 {
      SentPrefix(es, a, b, n - 1);
      assert (a + b)[n - 1] == a[n - 1];
    }
  }

  // ---- The traversal ----

  /** Queued directories carry the number under which they were sent. */
  ghost predicate Numbered(queue: seq<nat>, sent: seq<nat>, at: seq<nat>)
  {
    && |at| == |queue|
    && (forall q :: 0 <= q < |at| ==> at[q] < |sent| && sent[at[q]] == queue[q])
    && (forall p, q :: 0 <= p < q < |at| ==> at[p] < at[q])
  }

  /** `ndx` is the number of some queueing of entry `i`. */
  ghost predicate NumberOf(ndx: int, i: nat, queue: seq<nat>, at: seq<nat>)
  {
    exists q :: 0 <= q < |queue| && q < |at| && queue[q] == i && at[q] == ndx
  }

  ghost predicate AllNumbered(numbers: array<int>, queue: seq<nat>, at: seq<nat>)
    reads numbers
  {
    forall p :: 0 <= p < |queue| ==> queue[p] < numbers.Length && NumberOf(numbers[queue[p]], queue[p], queue, at)
  }

  lemma ListedNext(es: seq<FileEntry>, s: seq<nat>, k: nat, sent: seq<nat>, queue: seq<nat>)
    requires k < |s| && Indices(es, s)
    ensures sent + Dirs(es, s, k + 1) == sent + Dirs(es, s, k) + (if es[s[k]].IsDir() then [s[k]] else [])
    ensures queue + Descended(es, s, k + 1)
         == queue + Descended(es, s, k) + (if es[s[k]].IsDir() && es[s[k]].name != [DOT] then [s[k]] else [])
  {
    Assoc(sent, Dirs(es, s, k), if es[s[k]].IsDir() then [s[k]] else []);
    Assoc(queue, Descended(es, s, k), if es[s[k]].IsDir() && es[s[k]].name != [DOT] then [s[k]] else []);
  }

  lemma NumberedNext(queue: seq<nat>, sent: seq<nat>, at: seq<nat>, i: nat)
    requires Numbered(queue, sent, at)
    ensures Numbered(queue, sent + [i], at) && Numbered(queue + [i], sent + [i], at + [|sent|])
  {
  }

  lemma StillNumbered(ndx: int, j: nat, queue: seq<nat>, at: seq<nat>, i: nat, n: nat)
    requires NumberOf(ndx, j, queue, at) && |queue| == |at|
    ensures NumberOf(ndx, j, queue + [i], at + [n])
  {
    var q :| 0 <= q < |queue| && q < |at| && queue[q] == j && at[q] == ndx;
    assert (queue + [i])[q] == j && (at + [n])[q] == ndx;
  }

  /** Gives directory `i` the next number and queues it. */
  method Queue(es: seq<FileEntry>, i: nat, numbers: array<int>, counter: nat, queue: seq<nat>,
               ghost sent: seq<nat>, ghost at: seq<nat>)
    returns (queue': seq<nat>, ghost at': seq<nat>)
    requires i < |es| == numbers.Length && counter == |sent|
    requires Numbered(queue, sent, at) && AllNumbered(numbers, queue, at)
    modifies numbers
    ensures queue' == queue + [i] && at' == at + [counter]
    ensures Numbered(queue', sent + [i], at') && AllNumbered(numbers, queue', at')
  {
    numbers[i] := counter;
    queue', at' := queue + [i], at + [counter];
    NumberedNext(queue, sent, at, i);
    forall p | 0 <= p < |queue'|
      ensures NumberOf(numbers[queue'[p]], queue'[p], queue', at')
    {
      if queue'[p] == i {
        assert queue'[|queue|] == i && at'[|queue|] == counter;
      } else {
        StillNumbered(numbers[queue[p]], queue[p], queue, at, i, counter);
      }
    }
  }

  ghost predicate NoDots(es: seq<FileEntry>, queue: seq<nat>) {
    forall k :: 0 <= k < |queue| ==> queue[k] < |es| && es[queue[k]].name != [DOT]
  }

  /** Entry `i` of a new group: a directory is numbered, and queued unless it is the root itself. */
  method EnqueueOne(es: seq<FileEntry>, i: nat, numbers: array<int>, counter: nat, queue: seq<nat>,
                    ghost sent: seq<nat>, ghost at: seq<nat>)
    returns (counter': nat, queue': seq<nat>, ghost sent': seq<nat>, ghost at': seq<nat>)
    requires i < |es| == numbers.Length && NoDots(es, queue)
    requires counter == |sent| && Numbered(queue, sent, at) && AllNumbered(numbers, queue, at)
    modifies numbers
    ensures sent' == sent + (if es[i].IsDir() then [i] else []) && counter' == |sent'|
    ensures queue' == queue + (if es[i].IsDir() && es[i].name != [DOT] then [i] else []) && NoDots(es, queue')
    ensures Numbered(queue', sent', at') && AllNumbered(numbers, queue', at') && at <= at'
  {
    counter', queue', sent', at' := counter, queue, sent, at;
    if es[i].IsDir() {
      if es[i].name != [DOT] {
        queue', at' := Queue(es, i, numbers, counter, queue, sent, at);
      } else {
        NumberedNext(queue, sent, at, i);
        numbers[i] := counter;
      }
      counter', sent' := counter + 1, sent + [i];
    }
  }

  /** Numbers the directories of a new group and queues those to descend into. */
  method Enqueue(es: seq<FileEntry>, members: seq<nat>, numbers: array<int>, counter: nat, queue: seq<nat>,
                 ghost sent: seq<nat>, ghost at: seq<nat>)
    returns (counter': nat, queue': seq<nat>, ghost at': seq<nat>)
    requires Indices(es, members) && NoDots(es, queue) && numbers.Length == |es|
    requires counter == |sent| && Numbered(queue, sent, at) && AllNumbered(numbers, queue, at)
    modifies numbers
    ensures queue' == queue + Descended(es, members, |members|)
    ensures counter' == |sent + Dirs(es, members, |members|)|
    ensures Numbered(queue', sent + Dirs(es, members, |members|), at') && AllNumbered(numbers, queue', at')
    ensures at <= at'
  {
    counter', queue', at' := counter, queue, at;
    ghost var sent' := sent;
    for k := 0 to |members|
      invariant sent' == sent + Dirs(es, members, k) && counter' == |sent'|
      invariant queue' == queue + Descended(es, members, k) && NoDots(es, queue')
      invariant Numbered(queue', sent', at') && AllNumbered(numbers, queue', at') && at <= at'
    {
      ListedNext(es, members, k, sent, queue);
      counter', queue', sent', at' := EnqueueOne(es, members[k], numbers, counter', queue', sent', at');
    }
  }

  /** The queue holds the root's directories and the children of those already visited. */
  ghost predicate Traversed(es: seq<FileEntry>, queue: seq<nat>, pos: nat)
  {
    && pos <= |queue| && Indices(es, queue)
    && queue == Descended(es, Root(es), |Root(es)|) + Spawned(es, queue, pos)
  }

  lemma SpawnedNext(es: seq<FileEntry>, queue: seq<nat>, pos: nat, kids: seq<nat>)
    requires pos < |queue| && Indices(es, queue) && Indices(es, kids) && kids == ChildDirs(es, es[queue[pos]].name)
    ensures Indices(es, queue + kids) && Spawned(es, queue + kids, pos + 1) == Spawned(es, queue, pos) + kids
  {
    SpawnedPrefix(es, queue, kids, pos);
    assert (queue + kids)[pos] == queue[pos];
  }

  lemma Regroup(queue: seq<nat>, roots: seq<nat>, spawned: seq<nat>, kids: seq<nat>)
    requires queue == roots + spawned
    ensures queue + kids == roots + (spawned + kids)
  {
  }

  lemma TraversedNext(es: seq<FileEntry>, queue: seq<nat>, pos: nat)
    requires Traversed(es, queue, pos) && pos < |queue|
    ensures Traversed(es, queue + ChildDirs(es, es[queue[pos]].name), pos + 1)
  {
    var kids := ChildDirs(es, es[queue[pos]].name);
    SpawnedNext(es, queue, pos, kids);
    Regroup(queue, Descended(es, Root(es), |Root(es)|), Spawned(es, queue, pos), kids);
  }

  /** The groups of the root and of the first `pos` queued directories. */
  ghost predicate Grouped(es: seq<FileEntry>, groups: seq<Group>, queue: seq<nat>, pos: nat)
    requires Indices(es, queue)
  {
    && pos <= |queue| && |groups| == pos + 1
    && groups[0] == Group(-1, Root(es))
    && (forall g :: 1 <= g < |groups| ==> groups[g].members == Children(es, es[queue[g - 1]].name))
  }

  lemma GroupedIndices(es: seq<FileEntry>, groups: seq<Group>, queue: seq<nat>, pos: nat)
    requires Indices(es, queue) && Grouped(es, groups, queue, pos)
    ensures forall g :: 0 <= g < |groups| ==> Indices(es, groups[g].members)
  {
  }

  lemma QueuedDirs(es: seq<FileEntry>, queue: seq<nat>, pos: nat)
    requires Traversed(es, queue, pos)
    ensures forall k :: 0 <= k < |queue| ==> es[queue[k]].IsDir() && es[queue[k]].name != [DOT]
  {
    SpawnedDirs(es, queue, pos);
    DescendedExactly(es, Root(es), |Root(es)|);
  }

  lemma SpawnedDirs(es: seq<FileEntry>, queue: seq<nat>, n: nat)
    requires n <= |queue| && Indices(es, queue)
    ensures Indices(es, Spawned(es, queue, n))
    ensures forall k :: 0 <= k < |Spawned(es, queue, n)| ==>
              es[Spawned(es, queue, n)[k]].IsDir() && es[Spawned(es, queue, n)[k]].name != [DOT]
  {
    if n > 0 {
      SpawnedDirs(es, queue, n - 1);
      var dirs := ChildDirs(es, es[queue[n - 1]].name);
      forall k | 0 <= k < |dirs|
        ensures es[dirs[k]].IsDir() && es[dirs[k]].name != [DOT]
      {
        ChildDir(es, es[queue[n - 1]].name, dirs[k]);
        HasSlash(es, dirs[k]);
      }
    }
  }

  lemma HasSlash(es: seq<FileEntry>, i: nat)
    requires i < |es|
    ensures es[i].Dirname().Some? ==> es[i].name != [DOT]
  {
  }

  /** Below the root no directory is called ".", so all are descended into. */
  lemma {:induction false} AllDescended(es: seq<FileEntry>, d: Name, n: nat)
    requires n <= |Children(es, d)|
    ensures Descended(es, Children(es, d), n) == Dirs(es, Children(es, d), n)
  {
    if n > 0 {
      AllDescended(es, d, n - 1);
      UnderExactly(es, Some(d), |es|);
      HasSlash(es, Children(es, d)[n - 1]);
    }
  }

  /** Every number was given before the group that bears it. */
  ghost predicate Timely(es: seq<FileEntry>, groups: seq<Group>, queue: seq<nat>, at: seq<nat>)
    requires forall g :: 0 <= g < |groups| ==> Indices(es, groups[g].members)
  {
    |groups| > 0 && forall p :: 0 <= p < |groups| - 1 ==> OnTime(es, groups, queue, at, p)
  }

  ghost predicate OnTime(es: seq<FileEntry>, groups: seq<Group>, queue: seq<nat>, at: seq<nat>, p: nat)
    requires p < |groups| - 1 && forall g :: 0 <= g < |groups| ==> Indices(es, groups[g].members)
  {
    && p < |at| && p < |queue|
    && at[p] < |Sent(es, groups, p + 1)|
    && NumberOf(groups[p + 1].dirNdx, queue[p], queue, at)
  }

  lemma SentNext(es: seq<FileEntry>, groups: seq<Group>, g: Group, n: nat)
    requires n <= |groups| && Indices(es, g.members)
    requires forall k :: 0 <= k < |groups| ==> Indices(es, groups[k].members)
    ensures forall k :: 0 <= k < |groups + [g]| ==> Indices(es, (groups + [g])[k].members)
    ensures Sent(es, groups + [g], n) == Sent(es, groups, n)
    ensures Sent(es, groups + [g], |groups| + 1) == Sent(es, groups, |groups|) + Dirs(es, g.members, |g.members|)
  {
    SentPrefix(es, groups, [g], n);
    SentPrefix(es, groups, [g], |groups|);
  }

  lemma NumberKept(ndx: int, i: nat, queue: seq<nat>, at: seq<nat>, queue': seq<nat>, at': seq<nat>)
    requires NumberOf(ndx, i, queue, at) && queue <= queue' && at <= at'
    ensures NumberOf(ndx, i, queue', at')
  {
    var q :| 0 <= q < |queue| && q < |at| && queue[q] == i && at[q] == ndx;
    assert queue'[q] == i && at'[q] == ndx;
  }

  lemma TimelyNext(es: seq<FileEntry>, groups: seq<Group>, g: Group, queue: seq<nat>, at: seq<nat>, queue': seq<nat>,
                   at': seq<nat>)
    requires forall k :: 0 <= k < |groups| ==> Indices(es, groups[k].members)
    requires Indices(es, g.members) && Timely(es, groups, queue, at) && queue <= queue' && at <= at'
    requires |groups| - 1 < |queue| && Numbered(queue, Sent(es, groups, |groups|), at)
    requires NumberOf(g.dirNdx, queue[|groups| - 1], queue, at)
    ensures forall k :: 0 <= k < |groups + [g]| ==> Indices(es, (groups + [g])[k].members)
    ensures Timely(es, groups + [g], queue', at')
  {
    SentNext(es, groups, g, 0);
    forall p | 0 <= p < |groups|
      ensures OnTime(es, groups + [g], queue', at', p)
    {
      assert p < |groups| - 1 ==> OnTime(es, groups, queue, at, p);
      SentNext(es, groups, g, p + 1);
      NumberKept((groups + [g])[p + 1].dirNdx, queue[p], queue, at, queue', at');
    }
  }

  /** The state of the traversal after `pos` directories. */
  ghost predicate Progress(es: seq<FileEntry>, groups: seq<Group>, queue: seq<nat>, pos: nat, counter: nat,
                           at: seq<nat>)
  {
    && Traversed(es, queue, pos) && Grouped(es, groups, queue, pos)
    && (forall g :: 0 <= g < |groups| ==> Indices(es, groups[g].members))
    && counter == |Sent(es, groups, |groups|)| && Numbered(queue, Sent(es, groups, |groups|), at)
    && Timely(es, groups, queue, at)
  }

  lemma ProgressStart(es: seq<FileEntry>, queue: seq<nat>, counter: nat, at: seq<nat>)
    requires queue == [] + Descended(es, Root(es), |Root(es)|)
    requires counter == |[] + Dirs(es, Root(es), |Root(es)|)|
    requires Numbered(queue, [] + Dirs(es, Root(es), |Root(es)|), at)
    ensures Progress(es, [Group(-1, Root(es))], queue, 0, counter, at)
  {
    var groups := [Group(-1, Root(es))];
    assert Sent(es, groups, 1) == [] + Dirs(es, Root(es), |Root(es)|);
    assert queue == Descended(es, Root(es), |Root(es)|) + [];
    assert Traversed(es, queue, 0) && Grouped(es, groups, queue, 0);
  }

  lemma ProgressNext(es: seq<FileEntry>, groups: seq<Group>, queue: seq<nat>, pos: nat, counter: nat, at: seq<nat>,
                     g: Group, queue': seq<nat>, counter': nat, at': seq<nat>)
    requires Progress(es, groups, queue, pos, counter, at) && pos < |queue|
    requires g.members == Children(es, es[queue[pos]].name) && NumberOf(g.dirNdx, queue[pos], queue, at)
    requires queue' == queue + ChildDirs(es, es[queue[pos]].name) && at <= at'
    requires counter' == |Sent(es, groups, |groups|) + Dirs(es, g.members, |g.members|)|
    requires Numbered(queue', Sent(es, groups, |groups|) + Dirs(es, g.members, |g.members|), at')
    ensures Progress(es, groups + [g], queue', pos + 1, counter', at')
  {
    TraversedNext(es, queue, pos);
    SentNext(es, groups, g, 0);
    TimelyNext(es, groups, g, queue, at, queue', at');
    assert Grouped(es, groups + [g], queue', pos + 1);
  }

  lemma Lighter(es: seq<FileEntry>, queue: seq<nat>, pos: nat)
    requires pos < |queue| && Indices(es, queue)
    ensures Indices(es, queue + ChildDirs(es, es[queue[pos]].name))
    ensures Weight(es, queue + ChildDirs(es, es[queue[pos]].name), pos + 1) < Weight(es, queue, pos)
  {
    var name := es[queue[pos]].name;
    ChildrenLighter(es, name);
    WeightAppend(es, queue, ChildDirs(es, name), pos + 1);
  }

  /** The group of the next queued directory. */
  method Visit(es: seq<FileEntry>, groups: seq<Group>, queue: seq<nat>, pos: nat, numbers: array<int>, counter: nat,
               ghost at: seq<nat>)
    returns (groups': seq<Group>, queue': seq<nat>, counter': nat, ghost at': seq<nat>)
    requires Progress(es, groups, queue, pos, counter, at) && pos < |queue|
    requires numbers.Length == |es| && AllNumbered(numbers, queue, at)
    modifies numbers
    ensures Progress(es, groups', queue', pos + 1, counter', at')
    ensures AllNumbered(numbers, queue', at')
    ensures Weight(es, queue', pos + 1) < Weight(es, queue, pos)
  {
    var name := es[queue[pos]].name;
    var g := Group(numbers[queue[pos]], Children(es, name));
    groups' := groups + [g];
    QueuedDirs(es, queue, pos);
    AllDescended(es, name, |g.members|);
    counter', queue', at' := Enqueue(es, g.members, numbers, counter, queue, Sent(es, groups, |groups|), at);
    ProgressNext(es, groups, queue, pos, counter, at, g, queue', counter', at');
    Lighter(es, queue, pos);
  }

  /**
   * Grouping of any list. `order` is the order in which directories are descended into, `at` the
   * numbers under which they were sent.
   */
  method FromSortedEntries(es: seq<FileEntry>)
    returns (groups: seq<Group>, ghost order: seq<nat>, ghost at: seq<nat>)
    ensures BreadthFirst(es, order) && Grouped(es, groups, order, |order|)
    ensures forall g :: 0 <= g < |groups| ==> Indices(es, groups[g].members)
    ensures Numbered(order, Sent(es, groups, |groups|), at) && Timely(es, groups, order, at)
  {
    groups := [Group(-1, Root(es))];
    var numbers := new int[|es|](_ => -1);
    var counter, queue := 0, [];
    counter, queue, at := Enqueue(es, Root(es), numbers, 0, [], [], []);
    ProgressStart(es, queue, counter, at);
    var pos := 0;
    while pos < |queue|
      invariant Progress(es, groups, queue, pos, counter, at)
      invariant fresh(numbers) && numbers.Length == |es| && AllNumbered(numbers, queue, at)
      decreases Weight(es, queue, pos)
    {
      groups, queue, counter, at := Visit(es, groups, queue, pos, numbers, counter, at);
      pos := pos + 1;
    }
    order := queue;
  }
}
