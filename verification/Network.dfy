/**
 * Networks of sequential processes over bounded first-in first-out channels. Each process is
 * deterministic; only the order in which processes take their steps is free. Such a network is
 * confluent: if one schedule brings it to rest, every schedule does, in the same state and after
 * the same number of steps. So what one run shows of a protocol holds in all interleavings.
 */
module Network {
  import opened Bytes

  /** What a process does next: it may be held up by a full or an empty channel. */
  datatype Act<!L, !M> =
    | Send(channel: nat, msg: M, next: L)
    | Recv(channel: nat, got: M -> L, closed: L)
    | Internal(next: L)
    | Halt

  /** A channel is written by `writer` and, once that has halted, by `heir`; only `reader` reads it. */
  datatype Channel = Channel(writer: nat, heir: nat, reader: nat, capacity: nat)

  datatype Net<!L, !M> = Net(act: (nat, L) -> Act<L, M>, channels: seq<Channel>)

  datatype State<L, M> = State(locals: seq<L>, queues: seq<seq<M>>)

  datatype Move<L, M> = Push(channel: nat, msg: M, next: L) | Pop(channel: nat, next: L) | Quiet(next: L)

  ghost predicate Halted<L, M>(net: Net<L, M>, s: State<L, M>, p: nat)
  {
    p < |s.locals| ==> net.act(p, s.locals[p]).Halt?
  }

  ghost predicate Writes<L, M>(net: Net<L, M>, s: State<L, M>, p: nat, c: Channel)
  {
    p == c.writer || (p == c.heir && Halted(net, s, c.writer))
  }

  /** A write to a channel nobody will read again does not wait; a read of one nobody will write ends. */
  ghost function MoveOf<L, M>(net: Net<L, M>, s: State<L, M>, p: nat): Option<Move<L, M>>
  {
    if p >= |s.locals| then None else
    match net.act(p, s.locals[p])
    case Halt => None
    case Internal(next) => Some(Quiet(next))
    case Send(k, m, next) =>
      if k >= |net.channels| || k >= |s.queues| then None else
      var c := net.channels[k];
      if Writes(net, s, p, c) && (|s.queues[k]| < c.capacity || Halted(net, s, c.reader)) then Some(Push(k, m, next))
      else None
    case Recv(k, got, closed) =>
      if k >= |net.channels| || k >= |s.queues| then None else
      var c := net.channels[k];
      if p != c.reader then None
      else if |s.queues[k]| > 0 then Some(Pop(k, got(s.queues[k][0])))
      else if Halted(net, s, c.writer) && Halted(net, s, c.heir) then Some(Quiet(closed))
      else None
  }

  ghost predicate Fits<L, M>(s: State<L, M>, p: nat, m: Move<L, M>)
  {
    && p < |s.locals|
    && (m.Push? ==> m.channel < |s.queues|)
    && (m.Pop? ==> m.channel < |s.queues| && |s.queues[m.channel]| > 0)
  }

  ghost function Moved<L, M>(s: State<L, M>, p: nat, m: Move<L, M>): State<L, M>
    requires Fits(s, p, m)
  {
    State(s.locals[p := m.next],
          match m
          case Push(k, x, _) => s.queues[k := s.queues[k] + [x]]
          case Pop(k, _) => s.queues[k := s.queues[k][1..]]
          case Quiet(_) => s.queues)
  }

  ghost function Step<L, M>(net: Net<L, M>, s: State<L, M>, p: nat): Option<State<L, M>>
  {
    match MoveOf(net, s, p)
    case None => None
    case Some(m) => Some(Moved(s, p, m))
  }

  ghost predicate AtRest<L, M>(net: Net<L, M>, s: State<L, M>)
  {
    forall p: nat :: Step(net, s, p).None?
  }

  /** Where a schedule leads; None if it asks a process to move that cannot. */
  ghost function Run<L, M>(net: Net<L, M>, s: State<L, M>, schedule: seq<nat>): Option<State<L, M>>
    decreases |schedule|
  {
    if schedule == [] then Some(s) else
    match Step(net, s, schedule[0])
    case None => None
    case Some(u) => Run(net, u, schedule[1..])
  }

  // ---- Confluence ----

  /** A process that can move still can, in the same way, after any other process has moved. */
  lemma Undisturbed<L, M>(net: Net<L, M>, s: State<L, M>, p: nat, q: nat)
    requires p != q && MoveOf(net, s, p).Some? && MoveOf(net, s, q).Some?
    ensures MoveOf(net, Step(net, s, p).value, q) == MoveOf(net, s, q)
  {
    var u := Step(net, s, p).value;
    assert u.locals[q] == s.locals[q];
    assert forall r: nat :: r != p ==> Halted(net, u, r) == Halted(net, s, r);
    match net.act(q, s.locals[q])
    case Halt =>
    case Internal(_) =>
    case Send(k, m, _) =>
      assert Writes(net, u, q, net.channels[k]);
    case Recv(k, got, _) =>
      if |s.queues[k]| > 0 {
        assert |u.queues[k]| > 0 && u.queues[k][0] == s.queues[k][0];
      } else {
        assert u.queues[k] == s.queues[k];
      }
  }

  lemma Commute<L, M>(s: State<L, M>, p: nat, m: Move<L, M>, q: nat, n: Move<L, M>)
    requires p != q && Fits(s, p, m) && Fits(s, q, n)
    requires !(m.Push? && n.Push? && m.channel == n.channel)
    requires !(m.Pop? && n.Pop? && m.channel == n.channel)
    ensures Fits(Moved(s, p, m), q, n) && Fits(Moved(s, q, n), p, m)
    ensures Moved(Moved(s, p, m), q, n) == Moved(Moved(s, q, n), p, m)
  {
    var a, b := Moved(Moved(s, p, m), q, n), Moved(Moved(s, q, n), p, m);
    assert a.locals == b.locals;
    if m.Push? && n.Pop? && m.channel == n.channel {
      var queue := s.queues[m.channel];
      assert (queue + [m.msg])[1..] == queue[1..] + [m.msg];
    }
    if m.Pop? && n.Push? && m.channel == n.channel {
      var queue := s.queues[m.channel];
      assert (queue + [n.msg])[1..] == queue[1..] + [n.msg];
    }
    assert a.queues == b.queues;
  }

  lemma Diamond<L, M>(net: Net<L, M>, s: State<L, M>, p: nat, q: nat)
    requires p != q && Step(net, s, p).Some? && Step(net, s, q).Some?
    ensures Step(net, Step(net, s, p).value, q) == Step(net, Step(net, s, q).value, p)
    ensures Step(net, Step(net, s, p).value, q).Some?
  {
    Undisturbed(net, s, p, q);
    Undisturbed(net, s, q, p);
    Commute(s, p, MoveOf(net, s, p).value, q, MoveOf(net, s, q).value);
  }

  /** The schedule without the first turn of `p`. */
  ghost function Without(schedule: seq<nat>, p: nat): (r: seq<nat>)
    ensures p in schedule ==> |r| == |schedule| - 1
  {
    if schedule == [] then []
    else if schedule[0] == p then schedule[1..]
    else [schedule[0]] + Without(schedule[1..], p)
  }

  /** A step of `p` and a run from the same state: the run takes the step too, or it can be taken after it. */
  lemma {:induction false} Strip<L, M>(net: Net<L, M>, s: State<L, M>, schedule: seq<nat>, p: nat)
    requires Run(net, s, schedule).Some? && Step(net, s, p).Some?
    ensures var u, v := Step(net, s, p).value, Run(net, s, schedule).value;
            if p in schedule then Run(net, u, Without(schedule, p)) == Some(v)
            else Step(net, v, p).Some? && Run(net, u, schedule) == Step(net, v, p)
    decreases |schedule|
  {
    if schedule != [] && schedule[0] != p {
      var q := schedule[0];
      Diamond(net, s, p, q);
      Strip(net, Step(net, s, q).value, schedule[1..], p);
      var w := Without(schedule, p);
      assert w[0] == q && w[1..] == Without(schedule[1..], p);
      assert p in schedule <==> p in schedule[1..];
    }
  }

  /** Any two runs from one state can be continued to a common state. */
  lemma {:induction false} Join<L, M>(net: Net<L, M>, s: State<L, M>, a: seq<nat>, b: seq<nat>) returns (w: State<L, M>)
    requires Run(net, s, a).Some? && Run(net, s, b).Some?
    ensures Reaches(net, Run(net, s, a).value, w) && Reaches(net, Run(net, s, b).value, w)
    decreases |a|
  {
    var v := Run(net, s, b).value;
    if a == [] {
      w := v;
      assert Run(net, v, []) == Some(w);
    } else {
      var p := a[0];
      var u := Step(net, s, p).value;
      Strip(net, s, b, p);
      if p in b {
        w := Join(net, u, a[1..], Without(b, p));
      } else {
        w := Join(net, u, a[1..], b);
        var rest :| Run(net, Step(net, v, p).value, rest) == Some(w);
        assert ([p] + rest)[1..] == rest;
        assert Run(net, v, [p] + rest) == Some(w);
      }
    }
  }

  /** Taking some process's step early leads to the same rest, one step sooner. */
  lemma {:induction false} Early<L, M>(net: Net<L, M>, s: State<L, M>, schedule: seq<nat>, p: nat)
    requires Run(net, s, schedule).Some? && AtRest(net, Run(net, s, schedule).value)
    requires Step(net, s, p).Some?
    ensures p in schedule
    ensures Run(net, Step(net, s, p).value, Without(schedule, p)) == Run(net, s, schedule)
  {
    Strip(net, s, schedule, p);
  }

  /** The rest of `schedule` after the turns in `taken` have been taken first. */
  ghost function Remainder(schedule: seq<nat>, taken: seq<nat>): seq<nat>
    decreases |taken|
  {
    if taken == [] then schedule else Remainder(Without(schedule, taken[0]), taken[1..])
  }

  /**
   * If one schedule brings the network to rest, then whatever was done so far, the network can go
   * on to that same rest, and the number of steps is the same on every way there.
   */
  lemma {:induction false} Confluent<L, M>(net: Net<L, M>, s: State<L, M>, schedule: seq<nat>, taken: seq<nat>)
    requires Run(net, s, schedule).Some? && AtRest(net, Run(net, s, schedule).value)
    requires Run(net, s, taken).Some?
    ensures Run(net, Run(net, s, taken).value, Remainder(schedule, taken)) == Run(net, s, schedule)
    ensures |taken| + |Remainder(schedule, taken)| == |schedule|
    decreases |taken|
  {
    if taken != [] {
      Early(net, s, schedule, taken[0]);
      Confluent(net, Step(net, s, taken[0]).value, Without(schedule, taken[0]), taken[1..]);
    }
  }

  /** A state is the only rest of the network, which all runs reach if they go on, in `n` steps. */
  ghost predicate Settles<L(!new), M(!new)>(net: Net<L, M>, s: State<L, M>, end: State<L, M>, n: nat)
  {
    && AtRest(net, end)
    && forall taken: seq<nat> :: Run(net, s, taken).Some? ==>
         && |taken| <= n
         && Reaches(net, Run(net, s, taken).value, end)
         && (AtRest(net, Run(net, s, taken).value) ==> Run(net, s, taken).value == end && |taken| == n)
  }

  ghost predicate Reaches<L, M>(net: Net<L, M>, s: State<L, M>, t: State<L, M>)
  {
    exists schedule :: Run(net, s, schedule) == Some(t)
  }

  /** One run to rest decides all runs. */
  lemma OneRunDecides<L(!new), M(!new)>(net: Net<L, M>, s: State<L, M>, end: State<L, M>) returns (n: nat)
    requires Leads(net, s, end) && AtRest(net, end)
    ensures Settles(net, s, end, n)
  {
    LeadsReaches(net, s, end);
    var schedule :| Run(net, s, schedule) == Some(end);
    n := |schedule|;
    forall taken: seq<nat> | Run(net, s, taken).Some?
      ensures |taken| <= n && Reaches(net, Run(net, s, taken).value, end)
      ensures AtRest(net, Run(net, s, taken).value) ==> Run(net, s, taken).value == end && |taken| == n
    {
      Confluent(net, s, schedule, taken);
      var u, rest := Run(net, s, taken).value, Remainder(schedule, taken);
      assert Run(net, u, rest) == Some(end);
      assert AtRest(net, u) ==> rest == [];
    }
  }

  // ---- Building runs ----

  ghost predicate Closed<L(!new), M(!new)>(net: Net<L, M>, states: iset<State<L, M>>)
  {
    forall u, p: nat :: u in states && Step(net, u, p).Some? ==> Step(net, u, p).value in states
  }

  /** Reachability as the least set closed under steps; easier to compose than schedules. */
  ghost predicate Leads<L(!new), M(!new)>(net: Net<L, M>, s: State<L, M>, t: State<L, M>)
  {
    forall states: iset<State<L, M>> :: Closed(net, states) && s in states ==> t in states
  }

  lemma {:induction false} RunAppend<L, M>(net: Net<L, M>, s: State<L, M>, a: seq<nat>, b: seq<nat>)
    requires Run(net, s, a).Some?
    ensures Run(net, s, a + b) == Run(net, Run(net, s, a).value, b)
    decreases |a|
  {
    if a == [] {
      assert a + b == b;
    } else {
      assert (a + b)[0] == a[0] && (a + b)[1..] == a[1..] + b;
      RunAppend(net, Step(net, s, a[0]).value, a[1..], b);
    }
  }

  lemma ReachableClosed<L(!new), M(!new)>(net: Net<L, M>, s: State<L, M>)
    ensures Closed(net, iset u | Reaches(net, s, u))
  {
    var states := iset u | Reaches(net, s, u);
    forall u, p: nat | u in states && Step(net, u, p).Some?
      ensures Step(net, u, p).value in states
    {
      var schedule :| Run(net, s, schedule) == Some(u);
      RunAppend(net, s, schedule, [p]);
      assert Run(net, Step(net, u, p).value, []) == Step(net, u, p);
      assert Run(net, u, [p]) == Step(net, u, p);
      assert Run(net, s, schedule + [p]) == Step(net, u, p);
    }
  }

  /** A run never leaves a set closed under steps. */
  lemma {:induction false} StaysIn<L(!new), M(!new)>(net: Net<L, M>, states: iset<State<L, M>>, s: State<L, M>,
                                                     schedule: seq<nat>)
    requires Closed(net, states) && s in states && Run(net, s, schedule).Some?
    ensures Run(net, s, schedule).value in states
    decreases |schedule|
  {
    if schedule != [] {
      StaysIn(net, states, Step(net, s, schedule[0]).value, schedule[1..]);
    }
  }

  /** Where a closed set of states can be entered, the only rest lies in it. */
  lemma RestIn<L(!new), M(!new)>(net: Net<L, M>, s: State<L, M>, x: State<L, M>, states: iset<State<L, M>>,
                                 end: State<L, M>, n: nat)
    requires Leads(net, s, x) && Closed(net, states) && x in states && Settles(net, s, end, n)
    ensures end in states
  {
    LeadsReaches(net, s, x);
    var schedule :| Run(net, s, schedule) == Some(x);
    assert Reaches(net, x, end);
    var rest :| Run(net, x, rest) == Some(end);
    StaysIn(net, states, x, rest);
  }

  lemma LeadsReaches<L(!new), M(!new)>(net: Net<L, M>, s: State<L, M>, t: State<L, M>)
    requires Leads(net, s, t)
    ensures Reaches(net, s, t)
  {
    ReachableClosed(net, s);
    assert Run(net, s, []) == Some(s);
    assert s in iset u | Reaches(net, s, u);
    assert t in iset u | Reaches(net, s, u);
  }

  lemma Onward<L(!new), M(!new)>(net: Net<L, M>, s: State<L, M>, p: nat, u: State<L, M>)
    requires Step(net, s, p) == Some(u)
    ensures Leads(net, s, u)
  {
  }

  lemma Then<L(!new), M(!new)>(net: Net<L, M>, s: State<L, M>, u: State<L, M>, t: State<L, M>)
    requires Leads(net, s, u) && Leads(net, u, t)
    ensures Leads(net, s, t)
  {
  }

  /** A message handed over an empty channel: sent and received at once. */
  lemma Handover<L(!new), M(!new)>(net: Net<L, M>, s: State<L, M>, p: nat, q: nat, k: nat)
    requires p < |s.locals| && q < |s.locals| && p != q && k < |net.channels| && k < |s.queues|
    requires net.act(p, s.locals[p]).Send? && net.act(p, s.locals[p]).channel == k
    requires net.act(q, s.locals[q]).Recv? && net.act(q, s.locals[q]).channel == k
    requires s.queues[k] == [] && net.channels[k].capacity > 0
    requires Writes(net, s, p, net.channels[k]) && net.channels[k].reader == q
    ensures var sent := net.act(p, s.locals[p]);
            var after := s.locals[p := sent.next][q := net.act(q, s.locals[q]).got(sent.msg)];
            Leads(net, s, State(after, s.queues))
  {
    var sent := net.act(p, s.locals[p]);
    var u := State(s.locals[p := sent.next], s.queues[k := [sent.msg]]);
    assert [] + [sent.msg] == [sent.msg];
    Onward(net, s, p, u);
    var t := State(u.locals[q := net.act(q, s.locals[q]).got(sent.msg)], s.queues);
    assert u.queues[k][1..] == s.queues[k];
    assert u.queues[k := u.queues[k][1..]] == s.queues;
    Onward(net, u, q, t);
    Then(net, s, u, t);
  }
}
