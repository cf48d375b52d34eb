/**
 * What becomes of a session in every interleaving: when it completes, where it stops otherwise, and
 * what the receiver has done at any moment.
 */
module SessionOutcome {
  import opened Bytes
  import opened Network
  import opened Session
  import opened SessionRuns
  import opened SessionCleanup

  // ---- When a session completes ----

  /** All tasks are through, every file asked for was received, and the markers of all phases went both ways. */
  ghost predicate Finished(c: Setup, u: State<Local, Msg>)
    requires c.Valid()
  {
    && |u.locals| == 3 && u.locals[GENERATOR] == Returned
    && u.locals[SENDER] == S(c, |c.senderBye|)
    && u.locals[RECEIVER].ReceiverBye? && u.locals[RECEIVER].log == Expected(c, |c.actions|)
    && u.locals[RECEIVER].rounds == c.phases + 1 + c.cleanup && u.locals[RECEIVER].k == |c.receiverBye|
  }

  /** Every interleaving ends, and it ends so. */
  ghost predicate Completes(c: Setup)
    requires c.Valid()
  {
    exists end, n :: Finished(c, end) && Settles(NetOf(c), Start(), end, n)
  }

  lemma FinishedRests(c: Setup, u: State<Local, Msg>)
    requires c.Valid() && Finished(c, u)
    ensures AtRest(NetOf(c), u)
  {
    forall p: nat
      ensures Step(NetOf(c), u, p).None?
    {
      assert p == 0 || p == 1 || p == 2 || p > 2;
    }
  }

  lemma Reached(c: Setup, end: State<Local, Msg>)
    requires c.Valid() && Finished(c, end) && Leads(NetOf(c), Start(), end)
    ensures Completes(c)
  {
    FinishedRests(c, end);
    var n := OneRunDecides(NetOf(c), Start(), end);
  }

  /** The files are all in and all phases answered. */
  lemma AnsweredRun(c: Setup)
    requires c.Valid() && c.pending <= 1 && Stop(c, 0) == |c.actions|
    ensures Leads(NetOf(c), Start(), Answered(c, Expected(c, |c.actions|)))
  {
    var log := Expected(c, |c.actions|);
    ClosingRun(c);
    RoundsRun(c, log, 0);
    Then(NetOf(c), Start(), Closing(c), Answered(c, log));
  }

  lemma PushCompletes(c: Setup, sync: bool)
    requires c.Valid() && Paired(c, true, sync) && c.pending <= 1 && Stop(c, 0) == |c.actions|
    ensures Completes(c)
  {
    var log, n := Expected(c, |c.actions|), c.phases + 1;
    var end := Late(S(c, |c.senderBye|), ReceiverBye(log, n, |c.receiverBye|, []), [], if sync then [Done] else []);
    AnsweredRun(c);
    PushRun(c, log, n, sync);
    Then(NetOf(c), Start(), Answered(c, log), end);
    Reached(c, end);
  }

  lemma PullCompletes(c: Setup, sync: bool)
    requires c.Valid() && Paired(c, false, sync) && c.pending == 0 && Stop(c, 0) == |c.actions|
    ensures Completes(c)
  {
    var log, n := Expected(c, |c.actions|), c.phases + 1;
    var end := Late(S(c, |c.senderBye|), ReceiverBye(log, n, |c.receiverBye|, []), [], []);
    AnsweredRun(c);
    PullRun(c, log, n, sync);
    Then(NetOf(c), Start(), Answered(c, log), end);
    Reached(c, end);
  }

  lemma AlignedCompletes(c: Setup, sync: bool)
    requires TwoGroups(c, sync) && Stop(c, 0) == |c.actions| && Aligned(c.tail, sync)
    ensures Completes(c)
  {
    var log := Expected(c, |c.actions|);
    AnsweredRun(c);
    var ahead, responses := AlignedRun(c, log, sync);
    var end := Late(S(c, |c.senderBye|), R(c, log, |c.receiverBye|, ahead), [Done], responses);
    Then(NetOf(c), Start(), Answered(c, log), end);
    Reached(c, end);
  }

  // ---- When it does not ----

  lemma StuckStays(c: Setup)
    requires c.Valid() && c.pending >= 2
    ensures !Completes(c)
  {
    StuckRun(c);
    if Completes(c) {
      var end, n :| Finished(c, end) && Settles(NetOf(c), Start(), end, n);
      RestIn(NetOf(c), Start(), Stuck(c), iset{Stuck(c)}, end, n);
    }
  }

  ghost predicate HasRejected(u: State<Local, Msg>, log: seq<Event>, i: nat) {
    |u.locals| == 3 && u.locals[RECEIVER] == Rejected(log, i)
  }

  lemma RejectedStays(c: Setup, log: seq<Event>, i: nat) returns (states: iset<State<Local, Msg>>)
    ensures Closed(NetOf(c), states) && forall u :: u in states <==> HasRejected(u, log, i)
  {
    states := iset u | HasRejected(u, log, i);
  }

  lemma RejectedIncomplete(c: Setup)
    requires c.Valid() && c.pending <= 1 && Stop(c, 0) < |c.actions|
    ensures !Completes(c)
  {
    var i := Stop(c, 0);
    RejectionRun(c);
    var states := RejectedStays(c, Expected(c, i), i);
    assert HasRejected(GivenUp(c, i), Expected(c, i), i);
    if Completes(c) {
      var end, n :| Finished(c, end) && Settles(NetOf(c), Start(), end, n);
      RestIn(NetOf(c), Start(), GivenUp(c, i), states, end, n);
    }
  }

  lemma MisalignedIncomplete(c: Setup, sync: bool)
    requires TwoGroups(c, sync) && Stop(c, 0) == |c.actions| && !Aligned(c.tail, sync)
    ensures !Completes(c)
  {
    var log := Expected(c, |c.actions|);
    AnsweredRun(c);
    var x, states := MisalignedRun(c, log, sync);
    Then(NetOf(c), Start(), Answered(c, log), x);
    if Completes(c) {
      var end, n :| Finished(c, end) && Settles(NetOf(c), Start(), end, n);
      RestIn(NetOf(c), Start(), x, states, end, n);
      assert Ended(end, |c.receiverBye|);
    }
  }

  /**
   * In every interleaving the session ends with every file asked for received once and in order,
   * and the markers of all phases exchanged, if and only if every reply passes the receiver's check,
   * at most one group of the file list is left to the sender's loop, and, on a pull with such a
   * group, the statistics happen to be aligned.
   */
  lemma SessionCompletes(c: Setup, push: bool, sync: bool)
    requires c.Valid() && Paired(c, push, sync)
    ensures Completes(c) <==>
              && (forall i :: 0 <= i < |c.actions| ==> Accepted(c, i))
              && (c.pending == 0 || (c.pending == 1 && (push || Aligned(c.tail, sync))))
  {
    if c.pending >= 2 {
      StuckStays(c);
    } else if Stop(c, 0) < |c.actions| {
      RejectedIncomplete(c);
    } else if push {
      PushCompletes(c, sync);
    } else if c.pending == 0 {
      PullCompletes(c, sync);
    } else if Aligned(c.tail, sync) {
      AlignedCompletes(c, sync);
    } else {
      MisalignedIncomplete(c, sync);
    }
  }

  // ---- What has been received at any time ----

  function LogOf(l: Local): seq<Event> {
    match l
    case Idle(log) => log
    case AwaitHead(log, _) => log
    case Collect(log, _, _, _, _) => log
    case Rejected(log, _) => log
    case Close(log, _, _) => log
    case AwaitDone(log, _, _) => log
    case ReceiverBye(log, _, _, _) => log
    case Failed(log) => log
    case _ => []
  }

  /** The receiver only adds to its log. */
  lemma LogGrows(c: Setup, u: State<Local, Msg>, p: nat)
    requires |u.locals| == 3 && Step(NetOf(c), u, p).Some?
    ensures var v := Step(NetOf(c), u, p).value;
            |v.locals| == 3 && LogOf(u.locals[RECEIVER]) <= LogOf(v.locals[RECEIVER])
  {
  }

  lemma {:induction false} LogGrew(c: Setup, u: State<Local, Msg>, schedule: seq<nat>)
    requires |u.locals| == 3 && Run(NetOf(c), u, schedule).Some?
    ensures var v := Run(NetOf(c), u, schedule).value;
            |v.locals| == 3 && LogOf(u.locals[RECEIVER]) <= LogOf(v.locals[RECEIVER])
    decreases |schedule|
  {
    if schedule != [] {
      LogGrows(c, u, schedule[0]);
      LogGrew(c, Step(NetOf(c), u, schedule[0]).value, schedule[1..]);
    }
  }

  /** The receiver is past its loop: it has given up, is closing, or has failed while closing. */
  predicate Past(l: Local) {
    l.Rejected? || l.Close? || l.AwaitDone? || l.ReceiverBye? || l.Failed?
  }

  /** The entry whose reply was rejected, if one was. */
  function GaveUp(l: Local): Option<nat> {
    match l case Rejected(_, i) => Some(i) case _ => None
  }

  ghost predicate Left(u: State<Local, Msg>, log: seq<Event>, gaveUp: Option<nat>) {
    && |u.locals| == 3 && Past(u.locals[RECEIVER])
    && LogOf(u.locals[RECEIVER]) == log && GaveUp(u.locals[RECEIVER]) == gaveUp
  }

  lemma LeftStep(c: Setup, u: State<Local, Msg>, p: nat, log: seq<Event>, gaveUp: Option<nat>)
    requires Left(u, log, gaveUp) && Step(NetOf(c), u, p).Some?
    ensures Left(Step(NetOf(c), u, p).value, log, gaveUp)
  {
  }

  lemma {:induction false} LeftStays(c: Setup, u: State<Local, Msg>, schedule: seq<nat>, log: seq<Event>,
                                     gaveUp: Option<nat>)
    requires Left(u, log, gaveUp) && Run(NetOf(c), u, schedule).Some?
    ensures Left(Run(NetOf(c), u, schedule).value, log, gaveUp)
    decreases |schedule|
  {
    if schedule != [] {
      LeftStep(c, u, schedule[0], log, gaveUp);
      LeftStays(c, Step(NetOf(c), u, schedule[0]).value, schedule[1..], log, gaveUp);
    }
  }

  /** A state compared with one that is reached from it. */
  lemma Behind(c: Setup, u: State<Local, Msg>, w: State<Local, Msg>)
    requires |u.locals| == 3 && Reaches(NetOf(c), u, w)
    ensures |w.locals| == 3 && LogOf(u.locals[RECEIVER]) <= LogOf(w.locals[RECEIVER])
    ensures Past(u.locals[RECEIVER]) ==> Left(w, LogOf(u.locals[RECEIVER]), GaveUp(u.locals[RECEIVER]))
    ensures AtRest(NetOf(c), u) ==> w == u
  {
    var schedule :| Run(NetOf(c), u, schedule) == Some(w);
    LogGrew(c, u, schedule);
    if Past(u.locals[RECEIVER]) {
      LeftStays(c, u, schedule, LogOf(u.locals[RECEIVER]), GaveUp(u.locals[RECEIVER]));
    }
  }

  lemma {:induction false} ThreeTasks(c: Setup, u: State<Local, Msg>, schedule: seq<nat>)
    requires |u.locals| == 3 && Run(NetOf(c), u, schedule).Some?
    ensures |Run(NetOf(c), u, schedule).value.locals| == 3
    decreases |schedule|
  {
    if schedule != [] {
      ThreeTasks(c, Step(NetOf(c), u, schedule[0]).value, schedule[1..]);
    }
  }

  /** Any moment of any run and a state that some run reaches have a common future. */
  lemma Meet(c: Setup, taken: seq<nat>, x: State<Local, Msg>) returns (u: State<Local, Msg>, w: State<Local, Msg>)
    requires Run(NetOf(c), Start(), taken).Some? && Leads(NetOf(c), Start(), x)
    ensures u == Run(NetOf(c), Start(), taken).value && |u.locals| == 3
    ensures Reaches(NetOf(c), u, w) && Reaches(NetOf(c), x, w)
  {
    u := Run(NetOf(c), Start(), taken).value;
    ThreeTasks(c, Start(), taken);
    LeadsReaches(NetOf(c), Start(), x);
    var schedule :| Run(NetOf(c), Start(), schedule) == Some(x);
    w := Join(NetOf(c), Start(), taken, schedule);
  }

  ghost predicate InOrder(c: Setup, u: State<Local, Msg>)
    requires c.Valid()
  {
    var stop := Stop(c, 0);
    && |u.locals| == 3
    && var r := u.locals[RECEIVER];
    && LogOf(r) <= Expected(c, if c.pending <= 1 then stop else 0)
    && (Past(r) ==> c.pending <= 1 && LogOf(r) == Expected(c, stop) && GaveUp(r) == GivenUpOn(c))
    && (AtRest(NetOf(c), u) ==> Past(r) || c.pending >= 2)
  }

  ghost function GivenUpOn(c: Setup): Option<nat>
    requires c.Valid()
  {
    if Stop(c, 0) < |c.actions| then Some(Stop(c, 0)) else None
  }

  lemma NotStarted(c: Setup, taken: seq<nat>)
    requires c.Valid() && c.pending >= 2 && Run(NetOf(c), Start(), taken).Some?
    ensures InOrder(c, Run(NetOf(c), Start(), taken).value)
  {
    StuckRun(c);
    var u, w := Meet(c, taken, Stuck(c));
    Behind(c, Stuck(c), w);
    Behind(c, u, w);
  }

  lemma Overtaken(c: Setup, taken: seq<nat>, x: State<Local, Msg>)
    requires c.Valid() && c.pending <= 1 && Run(NetOf(c), Start(), taken).Some?
    requires Leads(NetOf(c), Start(), x) && Left(x, Expected(c, Stop(c, 0)), GivenUpOn(c))
    ensures InOrder(c, Run(NetOf(c), Start(), taken).value)
  {
    var u, w := Meet(c, taken, x);
    Behind(c, x, w);
    Behind(c, u, w);
  }

  /**
   * At every moment of every run: what the receiver has done is a beginning of what it should do up
   * to the first reply it rejects, all of it once it is past its loop, and it stops there exactly if
   * there is such a reply. So the k-th response it takes is the one for its k-th file, although it
   * never looks at the response's NDX. A list of three groups or more keeps it from starting.
   */
  lemma ReceivedInOrder(c: Setup, taken: seq<nat>)
    requires c.Valid() && Run(NetOf(c), Start(), taken).Some?
    ensures InOrder(c, Run(NetOf(c), Start(), taken).value)
  {
    if c.pending >= 2 {
      NotStarted(c, taken);
    } else if Stop(c, 0) < |c.actions| {
      RejectionRun(c);
      Overtaken(c, taken, GivenUp(c, Stop(c, 0)));
    } else {
      ClosingRun(c);
      Overtaken(c, taken, Closing(c));
    }
  }

  // ---- Whose file was received ----

  lemma OwnEntry(c: Setup, i: nat, j: nat)
    requires c.Valid() && i < |c.actions| && c.actions[i].Transfer? && Injective(c.senderNdx)
    requires j < |c.senderNdx| && c.senderNdx[j] == c.ndx[i]
    ensures ReplyTo(c, i) == c.respond(j, c.actions[i].request)
  {
    OwnIndex(c.senderNdx, j);
  }

  /** A file received is one asked for, answered under its own NDX and from the sender's entry of that NDX. */
  ghost predicate Own(c: Setup, e: Event)
    requires c.Valid()
  {
    e.Received? ==>
      && e.entry < |c.actions| && c.actions[e.entry].Transfer? && e.ndx == c.ndx[e.entry]
      && e.reply == ReplyTo(c, e.entry)
      && (Injective(c.senderNdx) ==>
            forall j :: 0 <= j < |c.senderNdx| && c.senderNdx[j] == e.ndx ==>
              e.reply == c.respond(j, c.actions[e.entry].request))
  }

  lemma EventsOwn(c: Setup, i: nat, e: Event)
    requires c.Valid() && i < |c.actions| && e in EventsOf(c, i)
    ensures Own(c, e) && (e.Received? ==> e.entry == i)
  {
    if c.actions[i].Transfer? && Injective(c.senderNdx) {
      forall j | 0 <= j < |c.senderNdx| && c.senderNdx[j] == c.ndx[i]
        ensures ReplyTo(c, i) == c.respond(j, c.actions[i].request)
      {
        OwnEntry(c, i, j);
      }
    }
  }

  lemma {:induction false} ExpectedOwn(c: Setup, n: nat, e: Event)
    requires c.Valid() && n <= |c.actions| && e in Expected(c, n)
    ensures Own(c, e) && (e.Received? ==> e.entry < n)
  {
    if e in Expected(c, n - 1) {
      ExpectedOwn(c, n - 1, e);
    } else {
      EventsOwn(c, n - 1, e);
    }
  }
}
