/**
 * A pull whose file list came in two groups. The receiver closes one round more than the sender
 * answers, so it reads an index off the statistics and goes on from there. Whether the session
 * still ends depends on the bytes of the statistics.
 */
module SessionCleanup {
  import opened Bytes
  import opened Network
  import opened Session
  import opened SessionRuns

  ghost predicate TwoGroups(c: Setup, sync: bool) {
    c.Valid() && Paired(c, false, sync) && c.pending == 1
  }

  /** What follows the index that was read off the statistics: their rest, then the sender's marker. */
  ghost function Remains(t: Tail): seq<byte>
    requires t.index(t.stats).Rest?
  {
    t.index(t.stats).bytes + t.done
  }

  /** Statistics and, unless the sender leaves first, a marker can still be read from what remains. */
  ghost predicate Aligned(t: Tail, sync: bool)
    requires t.index(t.stats).Rest?
  {
    var figures := t.figures(Remains(t));
    figures.Rest? && (sync ==> !t.index(figures.bytes).More?)
  }

  ghost function R(c: Setup, log: seq<Event>, k: nat, ahead: seq<byte>): Local {
    ReceiverBye(log, c.phases + 2, k, ahead)
  }

  lemma ReceiverWrites(c: Setup, s: Local, r: Local, responses: seq<Msg>, m: Msg, r': Local)
    requires c.Valid() && ReceiverAct(c, r) == Act.Send(REQUESTS, m, r')
    ensures Leads(NetOf(c), Late(s, r, [], responses), Late(s, r', [m], responses))
  {
    assert Halted(NetOf(c), Late(s, r, [], responses), GENERATOR);
    assert [Returned, s, r][2 := r'] == [Returned, s, r'];
    var none: seq<Msg> := [];
    assert none + [m] == [m] && [none, responses, none, none][0 := [m]] == [[m], responses, none, none];
    Onward(NetOf(c), Late(s, r, [], responses), RECEIVER, Late(s, r', [m], responses));
  }

  lemma SenderPops(c: Setup, s: Local, r: Local, m: Msg, responses: seq<Msg>, s': Local)
    requires SenderAct(c, s).Recv? && SenderAct(c, s).channel == REQUESTS && SenderAct(c, s).got(m) == s'
    ensures MoveOf(NetOf(c), Late(s, r, [m], responses), SENDER) == Some(Pop(REQUESTS, s'))
  {
  }

  lemma SenderReads(c: Setup, s: Local, r: Local, m: Msg, responses: seq<Msg>, s': Local)
    requires SenderAct(c, s).Recv? && SenderAct(c, s).channel == REQUESTS && SenderAct(c, s).got(m) == s'
    ensures Leads(NetOf(c), Late(s, r, [m], responses), Late(s', r, [], responses))
  {
    SenderPops(c, s, r, m, responses, s');
    var u, v, none: seq<Msg> := Late(s, r, [m], responses), Late(s', r, [], responses), [];
    assert u.locals[SENDER := s'] == v.locals;
    assert u.queues[REQUESTS][1..] == none && u.queues[REQUESTS := none] == v.queues;
    Onward(NetOf(c), u, SENDER, v);
  }

  // ---- The extra round ----

  lemma ExtraMarker(c: Setup, log: seq<Event>, sync: bool)
    requires TwoGroups(c, sync)
    ensures Leads(NetOf(c), Unanswered(c, log), Late(S(c, 1), AwaitDone(log, c.phases + 1, c.tail.stats), [Done], []))
  {
    var n, stats := c.phases + 1, c.tail.stats;
    ReceiverWrites(c, S(c, 0), Close(log, n, []), [], Done, AwaitDone(log, n, []));
    SenderWrites(c, S(c, 0), AwaitDone(log, n, []), [Done], Stats, S(c, 1));
    assert [] + stats == stats;
    ReceiverReads(c, S(c, 1), AwaitDone(log, n, []), [Done], Stats, AwaitDone(log, n, stats));
    var s0, s1 := Unanswered(c, log), Late(S(c, 0), AwaitDone(log, n, []), [Done], []);
    var s2 := Late(S(c, 1), AwaitDone(log, n, []), [Done], [Stats]);
    Then(NetOf(c), s0, s1, s2);
    Then(NetOf(c), s0, s2, Late(S(c, 1), AwaitDone(log, n, stats), [Done], []));
  }

  ghost function Unanswered(c: Setup, log: seq<Event>): State<Local, Msg> {
    Late(S(c, 0), Close(log, c.phases + 1, []), [], [])
  }

  /** The sender has written all it will write, the receiver is about to read the statistics. */
  ghost function Misled(c: Setup, log: seq<Event>): State<Local, Msg>
    requires c.tail.index(c.tail.stats).Rest?
  {
    Late(S(c, 3), R(c, log, 0, c.tail.index(c.tail.stats).bytes), [], [Done])
  }

  lemma ExtraRound(c: Setup, log: seq<Event>, sync: bool)
    requires TwoGroups(c, sync)
    ensures Leads(NetOf(c), Unanswered(c, log), Misled(c, log))
  {
    var n, ahead := c.phases + 1, c.tail.index(c.tail.stats).bytes;
    var s1 := Late(S(c, 1), AwaitDone(log, n, c.tail.stats), [Done], []);
    var s2 := Late(S(c, 1), R(c, log, 0, ahead), [Done], []);
    var s3 := Late(S(c, 2), R(c, log, 0, ahead), [Done], [Done]);
    ExtraMarker(c, log, sync);
    ReceiverAlone(c, S(c, 1), AwaitDone(log, n, c.tail.stats), [Done], [], R(c, log, 0, ahead));
    SenderWrites(c, S(c, 1), R(c, log, 0, ahead), [Done], Done, S(c, 2));
    SenderReads(c, S(c, 2), R(c, log, 0, ahead), Done, [Done], S(c, 3));
    Then(NetOf(c), Unanswered(c, log), s1, s2);
    Then(NetOf(c), Unanswered(c, log), s2, s3);
    Then(NetOf(c), Unanswered(c, log), s3, Misled(c, log));
  }

  // ---- Reading on ----

  /** Bytes still to be read: those read too far, and those of the marker if it is still under way. */
  ghost predicate Holds(c: Setup, ahead: seq<byte>, responses: seq<Msg>, all: seq<byte>) {
    (responses == [] && ahead == all) || (responses == [Done] && ahead + c.tail.done == all)
  }

  /** The last message the sender wrote is taken in. */
  lemma TakeMarker(c: Setup, s: Local, log: seq<Event>, k: nat, ahead: seq<byte>)
    requires k < |c.receiverBye| && ReceiverAct(c, R(c, log, k, ahead)).Recv?
    ensures Leads(NetOf(c), Late(s, R(c, log, k, ahead), [], [Done]),
                  Late(s, R(c, log, k, ahead + c.tail.done), [], []))
  {
    ReceiverReads(c, s, R(c, log, k, ahead), [], Done, R(c, log, k, ahead + c.tail.done));
  }

  /** The statistics are read from what remains, if they can be. */
  lemma FiguresRun(c: Setup, log: seq<Event>, sync: bool) returns (ahead: seq<byte>, responses: seq<Msg>)
    requires TwoGroups(c, sync) && c.tail.figures(Remains(c.tail)).Rest?
    ensures Holds(c, ahead, responses, c.tail.figures(Remains(c.tail)).bytes)
    ensures Leads(NetOf(c), Misled(c, log), Late(S(c, 3), R(c, log, 1, ahead), [], responses))
  {
    var t := c.tail;
    var rest, all := t.index(t.stats).bytes, Remains(t);
    assert Continues(t.figures, rest, t.done);
    if t.figures(rest).Rest? {
      ahead, responses := t.figures(rest).bytes, [Done];
      ReceiverAlone(c, S(c, 3), R(c, log, 0, rest), [], [Done], R(c, log, 1, ahead));
    } else {
      ahead, responses := t.figures(all).bytes, [];
      TakeMarker(c, S(c, 3), log, 0, rest);
      ReceiverAlone(c, S(c, 3), R(c, log, 0, all), [], [], R(c, log, 1, ahead));
      Then(NetOf(c), Misled(c, log), Late(S(c, 3), R(c, log, 0, all), [], []),
           Late(S(c, 3), R(c, log, 1, ahead), [], []));
    }
  }

  /** A marker is read from what remains, or the sender has left and none is needed. */
  lemma MarkerAfter(c: Setup, log: seq<Event>, sync: bool, ahead: seq<byte>, responses: seq<Msg>, all: seq<byte>)
    returns (ahead': seq<byte>, responses': seq<Msg>)
    requires TwoGroups(c, sync) && Holds(c, ahead, responses, all) && (sync ==> !c.tail.index(all).More?)
    ensures Leads(NetOf(c), Late(S(c, 4), R(c, log, 2, ahead), [], responses),
                  Late(S(c, 4), R(c, log, 3, ahead'), [], responses'))
  {
    var t := c.tail;
    assert Continues(t.index, ahead, t.done);
    if !t.index(ahead).More? {
      ahead', responses' := if t.index(ahead).Rest? then t.index(ahead).bytes else ahead, responses;
      ReceiverAlone(c, S(c, 4), R(c, log, 2, ahead), [], responses, R(c, log, 3, ahead'));
    } else if responses == [Done] {
      TakeMarker(c, S(c, 4), log, 2, ahead);
      ahead' := LastMarker(c, log, sync, all);
      responses' := [];
      Then(NetOf(c), Late(S(c, 4), R(c, log, 2, ahead), [], responses), Late(S(c, 4), R(c, log, 2, all), [], []),
           Late(S(c, 4), R(c, log, 3, ahead'), [], []));
    } else {
      ahead' := LastMarker(c, log, sync, all);
      responses' := [];
    }
  }

  lemma LastMarker(c: Setup, log: seq<Event>, sync: bool, all: seq<byte>) returns (ahead': seq<byte>)
    requires TwoGroups(c, sync) && (sync ==> !c.tail.index(all).More?)
    ensures Leads(NetOf(c), Late(S(c, 4), R(c, log, 2, all), [], []), Late(S(c, 4), R(c, log, 3, ahead'), [], []))
  {
    var t := c.tail;
    if t.index(all).More? {
      ahead' := all;
      var u, v := Late(S(c, 4), R(c, log, 2, all), [], []), Late(S(c, 4), R(c, log, 3, all), [], []);
      assert Halted(NetOf(c), u, SENDER);
      assert [Returned, S(c, 4), R(c, log, 2, all)][2 := R(c, log, 3, all)] == [Returned, S(c, 4), R(c, log, 3, all)];
      Onward(NetOf(c), u, RECEIVER, v);
    } else {
      ahead' := if t.index(all).Rest? then t.index(all).bytes else all;
      ReceiverAlone(c, S(c, 4), R(c, log, 2, all), [], [], R(c, log, 3, ahead'));
    }
  }

  /** The last markers; one more than the sender reads. */
  lemma LeaveRun(c: Setup, log: seq<Event>, sync: bool, ahead: seq<byte>, responses: seq<Msg>)
    requires TwoGroups(c, sync)
    ensures Leads(NetOf(c), Late(S(c, 4), R(c, log, 3, ahead), [], responses),
                  Late(S(c, |c.senderBye|), R(c, log, |c.receiverBye|, ahead), [Done], responses))
  {
    if sync {
      ReceiverToSender(c, S(c, 4), R(c, log, 3, ahead), responses, Done, R(c, log, 4, ahead), S(c, 5));
      ReceiverWrites(c, S(c, 5), R(c, log, 4, ahead), responses, Done, R(c, log, 5, ahead));
      Then(NetOf(c), Late(S(c, 4), R(c, log, 3, ahead), [], responses),
           Late(S(c, 5), R(c, log, 4, ahead), [], responses), Late(S(c, 5), R(c, log, 5, ahead), [Done], responses));
    } else {
      ReceiverWrites(c, S(c, 4), R(c, log, 3, ahead), responses, Done, R(c, log, 4, ahead));
    }
  }

  /** With aligned statistics the session ends all the same. */
  lemma AlignedRun(c: Setup, log: seq<Event>, sync: bool) returns (ahead: seq<byte>, responses: seq<Msg>)
    requires TwoGroups(c, sync) && Aligned(c.tail, sync)
    ensures Leads(NetOf(c), Unanswered(c, log),
                  Late(S(c, |c.senderBye|), R(c, log, |c.receiverBye|, ahead), [Done], responses))
  {
    var net, start := NetOf(c), Unanswered(c, log);
    ExtraRound(c, log, sync);
    var a, q := FiguresRun(c, log, sync);
    Then(net, start, Misled(c, log), Late(S(c, 3), R(c, log, 1, a), [], q));
    ReceiverToSender(c, S(c, 3), R(c, log, 1, a), q, Done, R(c, log, 2, a), S(c, 4));
    Then(net, start, Late(S(c, 3), R(c, log, 1, a), [], q), Late(S(c, 4), R(c, log, 2, a), [], q));
    ahead, responses := MarkerAfter(c, log, sync, a, q, c.tail.figures(Remains(c.tail)).bytes);
    Then(net, start, Late(S(c, 4), R(c, log, 2, a), [], q), Late(S(c, 4), R(c, log, 3, ahead), [], responses));
    LeaveRun(c, log, sync, ahead, responses);
    Then(net, start, Late(S(c, 4), R(c, log, 3, ahead), [], responses),
         Late(S(c, |c.senderBye|), R(c, log, |c.receiverBye|, ahead), [Done], responses));
  }

  // ---- Coming to nothing ----

  /** The receiver has failed, or waits in its goodbye for bytes the sender will not write. */
  ghost predicate Lost(c: Setup, u: State<Local, Msg>, log: seq<Event>, k: nat, ahead: seq<byte>) {
    && |u.locals| == 3 && |u.queues| == 4
    && u.queues[RESPONSES] == [] && u.locals[SENDER].SenderBye? && u.locals[SENDER].k >= 2
    && (u.locals[RECEIVER] == R(c, log, k, ahead) || u.locals[RECEIVER].Failed?)
  }

  lemma LostStays(c: Setup, log: seq<Event>, ahead: seq<byte>, u: State<Local, Msg>, p: nat, sync: bool)
    requires TwoGroups(c, sync) && c.tail.figures(ahead).More?
    requires Lost(c, u, log, 0, ahead) && Step(NetOf(c), u, p).Some?
    ensures Lost(c, Step(NetOf(c), u, p).value, log, 0, ahead)
  {
  }

  ghost predicate HasFailed(u: State<Local, Msg>) {
    |u.locals| == 3 && u.locals[RECEIVER].Failed?
  }

  ghost predicate Ended(u: State<Local, Msg>, k: nat) {
    |u.locals| == 3 && u.locals[RECEIVER].ReceiverBye? && u.locals[RECEIVER].k >= k
  }

  /** The receiver has failed on the statistics, waits for more of them, or waits for a marker after them. */
  ghost predicate Misaligned(c: Setup, log: seq<Event>, sync: bool, x: State<Local, Msg>)
    requires c.tail.index(c.tail.stats).Rest?
  {
    match c.tail.figures(Remains(c.tail))
    case Bad => x == Late(S(c, 3), Failed(log), [], []) || x == Late(S(c, 3), Failed(log), [], [Done])
    case More => x == Late(S(c, 3), R(c, log, 0, Remains(c.tail)), [], [])
    case Rest(all) => sync && c.tail.index(all).More? && x == Late(S(c, 4), R(c, log, 2, all), [], [])
  }

  /** Otherwise it reaches a state from which the receiver never gets to the end of its goodbye. */
  lemma MisalignedRun(c: Setup, log: seq<Event>, sync: bool)
    returns (x: State<Local, Msg>, states: iset<State<Local, Msg>>)
    requires TwoGroups(c, sync) && !Aligned(c.tail, sync)
    ensures Leads(NetOf(c), Unanswered(c, log), x) && x in states && Closed(NetOf(c), states)
    ensures Misaligned(c, log, sync, x)
    ensures forall u :: u in states ==> !Ended(u, |c.receiverBye|)
  {
    ExtraRound(c, log, sync);
    match c.tail.figures(Remains(c.tail))
    case Bad => x, states := BadRun(c, log, sync);
    case More => x, states := ShortRun(c, log, sync);
    case Rest(_) => x, states := WaitingRun(c, log, sync);
    Then(NetOf(c), Unanswered(c, log), Misled(c, log), x);
  }

  lemma BadRun(c: Setup, log: seq<Event>, sync: bool) returns (x: State<Local, Msg>, states: iset<State<Local, Msg>>)
    requires TwoGroups(c, sync) && c.tail.figures(Remains(c.tail)).Bad?
    ensures Leads(NetOf(c), Misled(c, log), x) && x in states && Closed(NetOf(c), states)
    ensures Misaligned(c, log, sync, x)
    ensures forall u :: u in states ==> !Ended(u, |c.receiverBye|)
  {
    var t := c.tail;
    var rest := t.index(t.stats).bytes;
    assert Continues(t.figures, rest, t.done);
    states := iset u | HasFailed(u);
    if t.figures(rest).Bad? {
      x := Late(S(c, 3), Failed(log), [], [Done]);
      ReceiverAlone(c, S(c, 3), R(c, log, 0, rest), [], [Done], Failed(log));
    } else {
      x := Late(S(c, 3), Failed(log), [], []);
      TakeMarker(c, S(c, 3), log, 0, rest);
      ReceiverAlone(c, S(c, 3), R(c, log, 0, Remains(t)), [], [], Failed(log));
      Then(NetOf(c), Misled(c, log), Late(S(c, 3), R(c, log, 0, Remains(t)), [], []), x);
    }
    FailedStays(c);
  }

  lemma FailedStays(c: Setup)
    ensures Closed(NetOf(c), iset u | HasFailed(u))
  {
  }

  lemma ShortRun(c: Setup, log: seq<Event>, sync: bool) returns (x: State<Local, Msg>, states: iset<State<Local, Msg>>)
    requires TwoGroups(c, sync) && c.tail.figures(Remains(c.tail)).More?
    ensures Leads(NetOf(c), Misled(c, log), x) && x in states && Closed(NetOf(c), states)
    ensures Misaligned(c, log, sync, x)
    ensures forall u :: u in states ==> !Ended(u, |c.receiverBye|)
  {
    var t := c.tail;
    var rest, all := t.index(t.stats).bytes, Remains(t);
    assert Continues(t.figures, rest, t.done);
    x := Late(S(c, 3), R(c, log, 0, all), [], []);
    TakeMarker(c, S(c, 3), log, 0, rest);
    states := iset u | Lost(c, u, log, 0, all);
    forall u, p: nat | u in states && Step(NetOf(c), u, p).Some?
      ensures Step(NetOf(c), u, p).value in states
    {
      LostStays(c, log, all, u, p, sync);
    }
  }

  lemma WaitingRun(c: Setup, log: seq<Event>, sync: bool)
    returns (x: State<Local, Msg>, states: iset<State<Local, Msg>>)
    requires TwoGroups(c, sync) && c.tail.figures(Remains(c.tail)).Rest? && !Aligned(c.tail, sync)
    ensures Leads(NetOf(c), Misled(c, log), x) && x in states && Closed(NetOf(c), states)
    ensures Misaligned(c, log, sync, x)
    ensures forall u :: u in states ==> !Ended(u, |c.receiverBye|)
  {
    var t := c.tail;
    var all := t.figures(Remains(t)).bytes;
    var a, q := FiguresRun(c, log, sync);
    x := Late(S(c, 4), R(c, log, 2, all), [], []);
    ReceiverToSender(c, S(c, 3), R(c, log, 1, a), q, Done, R(c, log, 2, a), S(c, 4));
    Then(NetOf(c), Misled(c, log), Late(S(c, 3), R(c, log, 1, a), [], q), Late(S(c, 4), R(c, log, 2, a), [], q));
    assert Continues(t.index, a, t.done);
    if q == [Done] {
      TakeMarker(c, S(c, 4), log, 2, a);
      Then(NetOf(c), Misled(c, log), Late(S(c, 4), R(c, log, 2, a), [], q), x);
    }
    WaitingRests(c, log, sync, all);
    states := iset{x};
  }

  lemma WaitingRests(c: Setup, log: seq<Event>, sync: bool, all: seq<byte>)
    requires TwoGroups(c, sync) && sync && c.tail.index(all).More?
    ensures AtRest(NetOf(c), Late(S(c, 4), R(c, log, 2, all), [], []))
  {
    forall p: nat
      ensures Step(NetOf(c), Late(S(c, 4), R(c, log, 2, all), [], []), p).None?
    {
      assert p == 0 || p == 1 || p == 2 || p > 2;
    }
  }
}
