/**
 * Runs of a session: how the file list, the files, the phases and the goodbyes go when each message
 * is taken as soon as it is sent.
 */
module SessionRuns {
  import opened Network
  import opened Session

  // ---- Single steps ----

  lemma GeneratorToSender(c: Setup, g: Local, s: Local, r: Local, m: Msg, g': Local, s': Local)
    requires c.Valid()
    requires GeneratorAct(c, g) == Act.Send(REQUESTS, m, g')
    requires SenderAct(c, s).Recv? && SenderAct(c, s).channel == REQUESTS && SenderAct(c, s).got(m) == s'
    ensures Leads(NetOf(c), Calm(g, s, r), Calm(g', s', r))
  {
    Handover(NetOf(c), Calm(g, s, r), GENERATOR, SENDER, REQUESTS);
    assert [g, s, r][0 := g'][1 := s'] == [g', s', r];
  }

  lemma GeneratorToReceiver(c: Setup, g: Local, s: Local, r: Local, m: Msg, g': Local, r': Local)
    requires c.Valid()
    requires GeneratorAct(c, g) == Act.Send(ITEMS, m, g')
    requires ReceiverAct(c, r).Recv? && ReceiverAct(c, r).channel == ITEMS && ReceiverAct(c, r).got(m) == r'
    ensures Leads(NetOf(c), Calm(g, s, r), Calm(g', s, r'))
  {
    Handover(NetOf(c), Calm(g, s, r), GENERATOR, RECEIVER, ITEMS);
    assert [g, s, r][0 := g'][2 := r'] == [g', s, r'];
  }

  lemma SenderToReceiver(c: Setup, g: Local, s: Local, r: Local, m: Msg, s': Local, r': Local)
    requires c.Valid()
    requires SenderAct(c, s) == Act.Send(RESPONSES, m, s')
    requires ReceiverAct(c, r).Recv? && ReceiverAct(c, r).channel == RESPONSES && ReceiverAct(c, r).got(m) == r'
    ensures Leads(NetOf(c), Calm(g, s, r), Calm(g, s', r'))
  {
    Handover(NetOf(c), Calm(g, s, r), SENDER, RECEIVER, RESPONSES);
    assert [g, s, r][1 := s'][2 := r'] == [g, s', r'];
  }

  lemma ReceiverToGenerator(c: Setup, s: Local)
    requires c.Valid()
    ensures Leads(NetOf(c), Calm(Asleep, s, Spawning), Calm(At(0), s, Idle([])))
  {
    Handover(NetOf(c), Calm(Asleep, s, Spawning), RECEIVER, GENERATOR, SPAWN);
    assert [Asleep, s, Spawning][2 := Idle([])][0 := At(0)] == [At(0), s, Idle([])];
  }

  lemma GeneratorAlone(c: Setup, g: Local, s: Local, r: Local)
    requires GeneratorAct(c, g).Internal?
    ensures Leads(NetOf(c), Calm(g, s, r), Calm(GeneratorAct(c, g).next, s, r))
  {
    var next := GeneratorAct(c, g).next;
    assert [g, s, r][0 := next] == [next, s, r];
    Onward(NetOf(c), Calm(g, s, r), GENERATOR, Calm(next, s, r));
  }

  // ---- The file list ----

  ghost function Listed(c: Setup): State<Local, Msg> {
    Calm(At(0), Loop(0, 0, 0), Idle([]))
  }

  /** A list of one or two groups is received whole, and the generator starts. */
  lemma ListRun(c: Setup)
    requires c.Valid() && c.pending <= 1
    ensures Leads(NetOf(c), Start(), Listed(c))
  {
    var net, spawning := NetOf(c), Calm(Asleep, Loop(0, 0, 0), Spawning);
    if c.pending == 0 {
      SenderToReceiver(c, Asleep, Listing, AwaitList, Group(true), Loop(0, 0, 0), Spawning);
    } else {
      var turn := Calm(Asleep, Turn(0, 0, 1), AwaitList);
      SenderToReceiver(c, Asleep, Listing, AwaitList, Group(false), Turn(0, 0, 1), AwaitList);
      SenderToReceiver(c, Asleep, Turn(0, 0, 1), AwaitList, Group(true), Loop(0, 0, 0), Spawning);
      Then(net, Start(), turn, spawning);
    }
    ReceiverToGenerator(c, Loop(0, 0, 0));
    Then(net, Start(), spawning, Listed(c));
  }

  /** Of more groups only one follows the first; the sender waits for a request, the receiver for a group. */
  ghost function Stuck(c: Setup): State<Local, Msg>
    requires c.pending >= 2
  {
    Calm(Asleep, Loop(0, 0, c.pending - 1), AwaitList)
  }

  lemma StuckRun(c: Setup)
    requires c.Valid() && c.pending >= 2
    ensures Leads(NetOf(c), Start(), Stuck(c)) && AtRest(NetOf(c), Stuck(c))
  {
    var turn := Calm(Asleep, Turn(0, 0, c.pending), AwaitList);
    SenderToReceiver(c, Asleep, Listing, AwaitList, Group(false), Turn(0, 0, c.pending), AwaitList);
    SenderToReceiver(c, Asleep, Turn(0, 0, c.pending), AwaitList, Group(false), Loop(0, 0, c.pending - 1), AwaitList);
    Then(NetOf(c), Start(), turn, Stuck(c));
    forall p: nat
      ensures Step(NetOf(c), Stuck(c), p).None?
    {
      assert p == 0 || p == 1 || p == 2 || p > 2;
    }
  }

  // ---- The files ----

  /** The sender with the first `k` parts of the request for entry `i`. */
  ghost function Hearing(c: Setup, i: nat, k: nat): Local
    requires c.Valid() && i < |c.actions| && c.actions[i].Transfer? && k <= |c.actions[i].request| + 1
  {
    var request := c.actions[i].request;
    if k == 0 then Loop(0, 0, 0)
    else if k <= |request| then Gather(0, 0, 0, c.ndx[i], |request|, request[..k - 1])
    else Reply(0, 0, 0, c.ndx[i], ReplyTo(c, i), 0)
  }

  lemma HearsPart(c: Setup, i: nat, k: nat)
    requires c.Valid() && i < |c.actions| && c.actions[i].Transfer? && k <= |c.actions[i].request|
    ensures SenderAct(c, Hearing(c, i, k)).Recv? && SenderAct(c, Hearing(c, i, k)).channel == REQUESTS
    ensures SenderAct(c, Hearing(c, i, k)).got(Part(c.ndx[i], c.actions[i].request, k)) == Hearing(c, i, k + 1)
  {
    var request := c.actions[i].request;
    assert c.Answered(i);
    assert k > 0 ==> request[..k - 1] + [request[k - 1]] == request[..k];
    assert request[..|request|] == request;
  }

  /** The request for entry `i`, from part `k` on, into the sender. */
  lemma {:induction false} RequestParts(c: Setup, i: nat, k: nat, log: seq<Event>)
    requires c.Valid() && i < |c.actions| && c.actions[i].Transfer?
    requires k <= |c.actions[i].request|
    ensures Leads(NetOf(c), Calm(Asking(i, k), Hearing(c, i, k), Idle(log)),
                  Calm(Announcing(i), Hearing(c, i, |c.actions[i].request| + 1), Idle(log)))
    decreases |c.actions[i].request| - k
  {
    HearsPart(c, i, k);
    var request := c.actions[i].request;
    GeneratorToSender(c, Asking(i, k), Hearing(c, i, k), Idle(log), Part(c.ndx[i], request, k),
                      if k == |request| then Announcing(i) else Asking(i, k + 1), Hearing(c, i, k + 1));
    if k < |c.actions[i].request| {
      RequestParts(c, i, k + 1, log);
      Then(NetOf(c), Calm(Asking(i, k), Hearing(c, i, k), Idle(log)),
           Calm(Asking(i, k + 1), Hearing(c, i, k + 1), Idle(log)),
           Calm(Announcing(i), Hearing(c, i, |c.actions[i].request| + 1), Idle(log)));
    }
  }

  /** The receiver with the first `k` parts of the reply about entry `i`. */
  ghost function Taking(c: Setup, i: nat, k: nat, log: seq<Event>): Local
    requires c.Valid() && i < |c.actions| && c.actions[i].Transfer? && k <= |ReplyTo(c, i)| + 1
  {
    var reply := ReplyTo(c, i);
    if k == 0 then AwaitHead(log, i)
    else if k <= |reply| then Collect(log, i, c.ndx[i], |reply|, reply[..k - 1])
    else ReceiverTakes(c, log, i, c.ndx[i], reply)
  }

  lemma TakesPart(c: Setup, i: nat, k: nat, log: seq<Event>)
    requires c.Valid() && i < |c.actions| && c.actions[i].Transfer? && k <= |ReplyTo(c, i)|
    ensures ReceiverAct(c, Taking(c, i, k, log)).Recv? && ReceiverAct(c, Taking(c, i, k, log)).channel == RESPONSES
    ensures ReceiverAct(c, Taking(c, i, k, log)).got(Part(c.ndx[i], ReplyTo(c, i), k)) == Taking(c, i, k + 1, log)
  {
    var reply := ReplyTo(c, i);
    assert k > 0 ==> reply[..k - 1] + [reply[k - 1]] == reply[..k];
    assert reply[..|reply|] == reply;
  }

  ghost function Replying(c: Setup, i: nat, k: nat): Local
    requires c.Valid() && i < |c.actions| && c.actions[i].Transfer?
  {
    Reply(0, 0, 0, c.ndx[i], ReplyTo(c, i), k)
  }

  /** The reply about entry `i`, from part `k` on, into the receiver. */
  lemma {:induction false} ReplyParts(c: Setup, i: nat, k: nat, log: seq<Event>)
    requires c.Valid() && i < |c.actions| && c.actions[i].Transfer? && k <= |ReplyTo(c, i)|
    ensures Leads(NetOf(c), Calm(At(i + 1), Replying(c, i, k), Taking(c, i, k, log)),
                  Calm(At(i + 1), Loop(0, 0, 0), Taking(c, i, |ReplyTo(c, i)| + 1, log)))
    decreases |ReplyTo(c, i)| - k
  {
    var reply := ReplyTo(c, i);
    TakesPart(c, i, k, log);
    SenderToReceiver(c, At(i + 1), Replying(c, i, k), Taking(c, i, k, log), Part(c.ndx[i], reply, k),
                     if k == |reply| then Loop(0, 0, 0) else Replying(c, i, k + 1), Taking(c, i, k + 1, log));
    if k < |reply| {
      ReplyParts(c, i, k + 1, log);
      Then(NetOf(c), Calm(At(i + 1), Replying(c, i, k), Taking(c, i, k, log)),
           Calm(At(i + 1), Replying(c, i, k + 1), Taking(c, i, k + 1, log)),
           Calm(At(i + 1), Loop(0, 0, 0), Taking(c, i, |reply| + 1, log)));
    }
  }

  lemma AskingRun(c: Setup, i: nat, log: seq<Event>)
    requires c.Valid() && i < |c.actions| && c.actions[i].Transfer?
    ensures Leads(NetOf(c), Calm(At(i), Loop(0, 0, 0), Idle(log)), Calm(Asking(i, 0), Loop(0, 0, 0), Idle(log)))
  {
    GeneratorAlone(c, At(i), Loop(0, 0, 0), Idle(log));
  }

  lemma AnnouncingRun(c: Setup, i: nat, s: Local, log: seq<Event>)
    requires c.Valid()
    ensures Leads(NetOf(c), Calm(Announcing(i), s, Idle(log)), Calm(At(i + 1), s, AwaitHead(log, i)))
  {
    GeneratorToReceiver(c, Announcing(i), s, Idle(log), Expect(i), At(i + 1), AwaitHead(log, i));
  }

  /** One file: asked for, announced, sent, and taken or rejected. */
  lemma TransferRun(c: Setup, i: nat, log: seq<Event>)
    requires c.Valid() && i < |c.actions| && c.actions[i].Transfer?
    ensures Leads(NetOf(c), Calm(At(i), Loop(0, 0, 0), Idle(log)),
                  Calm(At(i + 1), Loop(0, 0, 0), ReceiverTakes(c, log, i, c.ndx[i], ReplyTo(c, i))))
  {
    var net := NetOf(c);
    var s0, s1 := Calm(At(i), Loop(0, 0, 0), Idle(log)), Calm(Asking(i, 0), Loop(0, 0, 0), Idle(log));
    var s2 := Calm(Announcing(i), Replying(c, i, 0), Idle(log));
    var s3 := Calm(At(i + 1), Replying(c, i, 0), AwaitHead(log, i));
    var s4 := Calm(At(i + 1), Loop(0, 0, 0), ReceiverTakes(c, log, i, c.ndx[i], ReplyTo(c, i)));
    AskingRun(c, i, log);
    RequestParts(c, i, 0, log);
    AnnouncingRun(c, i, Replying(c, i, 0), log);
    ReplyParts(c, i, 0, log);
    Then(net, s0, s1, s2);
    Then(net, s0, s2, s3);
    Then(net, s0, s3, s4);
  }

  ghost function Before(c: Setup, i: nat): State<Local, Msg>
    requires c.Valid() && i <= |c.actions|
  {
    Calm(At(i), Loop(0, 0, 0), Idle(Expected(c, i)))
  }

  /** An entry that needs no reply. */
  lemma LocalRun(c: Setup, i: nat, log: seq<Event>, events: seq<Event>)
    requires c.Valid() && i < |c.actions| && !c.actions[i].Transfer? && events == EventsOf(c, i)
    ensures Leads(NetOf(c), Calm(At(i), Loop(0, 0, 0), Idle(log)), Calm(At(i + 1), Loop(0, 0, 0), Idle(log + events)))
  {
    match c.actions[i]
    case Skip =>
      GeneratorAlone(c, At(i), Loop(0, 0, 0), Idle(log));
      assert log + [] == log;
    case Handle => GeneratorToReceiver(c, At(i), Loop(0, 0, 0), Idle(log), Handled(i), At(i + 1), Idle(log + events));
    case DeferLink => GeneratorToReceiver(c, At(i), Loop(0, 0, 0), Idle(log), Deferred(i), At(i + 1),
                                          Idle(log + events));
  }

  lemma EntryRun(c: Setup, i: nat)
    requires c.Valid() && i < |c.actions| && Accepted(c, i)
    ensures Leads(NetOf(c), Before(c, i), Before(c, i + 1))
  {
    if c.actions[i].Transfer? {
      TransferRun(c, i, Expected(c, i));
    } else {
      LocalRun(c, i, Expected(c, i), EventsOf(c, i));
    }
  }

  lemma {:induction false} EntriesRun(c: Setup, n: nat)
    requires c.Valid() && c.pending <= 1 && n <= |c.actions| && forall i :: 0 <= i < n ==> Accepted(c, i)
    ensures Leads(NetOf(c), Start(), Before(c, n))
  {
    if n == 0 {
      ListRun(c);
    } else {
      EntriesRun(c, n - 1);
      EntryRun(c, n - 1);
      Then(NetOf(c), Start(), Before(c, n - 1), Before(c, n));
    }
  }

  /** Where the receiver has given up on entry `i`. */
  ghost function GivenUp(c: Setup, i: nat): State<Local, Msg>
    requires c.Valid() && i < |c.actions|
  {
    Calm(At(i + 1), Loop(0, 0, 0), Rejected(Expected(c, i), i))
  }

  /** Up to the first reply that is rejected all goes well, and there the receiver stops. */
  lemma RejectionRun(c: Setup)
    requires c.Valid() && c.pending <= 1 && Stop(c, 0) < |c.actions|
    ensures Leads(NetOf(c), Start(), GivenUp(c, Stop(c, 0)))
  {
    var i := Stop(c, 0);
    EntriesRun(c, i);
    TransferRun(c, i, Expected(c, i));
    Then(NetOf(c), Start(), Before(c, i), GivenUp(c, i));
  }

  // ---- The phases ----

  /** Once the generator has returned; messages may still be under way. */
  ghost function Late(s: Local, r: Local, requests: seq<Msg>, responses: seq<Msg>): State<Local, Msg>
  {
    State([Returned, s, r], [requests, responses, [], []])
  }

  /** All files are in, and the receiver is about to close. */
  ghost function Closing(c: Setup): State<Local, Msg>
    requires c.Valid()
  {
    Late(Loop(0, 0, 0), Close(Expected(c, |c.actions|), 0, []), [], [])
  }

  lemma ClosingRun(c: Setup)
    requires c.Valid() && c.pending <= 1 && Stop(c, 0) == |c.actions|
    ensures Leads(NetOf(c), Start(), Closing(c))
  {
    var n, log := |c.actions|, Expected(c, |c.actions|);
    EntriesRun(c, n);
    GeneratorToReceiver(c, At(n), Loop(0, 0, 0), Idle(log), Finished, Returned, Close(log, 0, []));
    Then(NetOf(c), Start(), Before(c, n), Closing(c));
  }

  lemma ReceiverToSender(c: Setup, s: Local, r: Local, responses: seq<Msg>, m: Msg, r': Local, s': Local)
    requires c.Valid()
    requires ReceiverAct(c, r) == Act.Send(REQUESTS, m, r')
    requires SenderAct(c, s).Recv? && SenderAct(c, s).channel == REQUESTS && SenderAct(c, s).got(m) == s'
    ensures Leads(NetOf(c), Late(s, r, [], responses), Late(s', r', [], responses))
  {
    assert Halted(NetOf(c), Late(s, r, [], responses), GENERATOR);
    Handover(NetOf(c), Late(s, r, [], responses), RECEIVER, SENDER, REQUESTS);
    assert [Returned, s, r][2 := r'][1 := s'] == [Returned, s', r'];
  }

  lemma ReceiverAlone(c: Setup, s: Local, r: Local, requests: seq<Msg>, responses: seq<Msg>, r': Local)
    requires ReceiverAct(c, r) == Internal(r')
    ensures Leads(NetOf(c), Late(s, r, requests, responses), Late(s, r', requests, responses))
  {
    assert [Returned, s, r][2 := r'] == [Returned, s, r'];
    Onward(NetOf(c), Late(s, r, requests, responses), RECEIVER, Late(s, r', requests, responses));
  }

  ghost function SenderRound(c: Setup, r: nat): Local {
    if r > c.phases then SenderBye(r, r, 0) else Loop(r, r, 0)
  }

  lemma AnswerRun(c: Setup, log: seq<Event>, r: nat)
    requires c.Valid() && r <= c.phases
    ensures Leads(NetOf(c), Late(Answer(r + 1, r, 0), AwaitDone(log, r, []), [], []),
                  Late(SenderRound(c, r + 1), AwaitDone(log, r, c.tail.done), [], []))
  {
    assert [] + c.tail.done == c.tail.done;
    SenderToReceiver(c, Returned, Answer(r + 1, r, 0), AwaitDone(log, r, []), Done, SenderRound(c, r + 1),
                     AwaitDone(log, r, c.tail.done));
  }

  /** Round `r` of the phase exchange. */
  lemma RoundRun(c: Setup, log: seq<Event>, r: nat)
    requires c.Valid() && r <= c.phases
    ensures Leads(NetOf(c), Late(Loop(r, r, 0), Close(log, r, []), [], []),
                  Late(SenderRound(c, r + 1), AfterRound(c, log, r + 1, []), [], []))
  {
    var net, done := NetOf(c), c.tail.done;
    var s0 := Late(Loop(r, r, 0), Close(log, r, []), [], []);
    var s1 := Late(Answer(r + 1, r, 0), AwaitDone(log, r, []), [], []);
    var s2 := Late(SenderRound(c, r + 1), AwaitDone(log, r, done), [], []);
    ReceiverToSender(c, Loop(r, r, 0), Close(log, r, []), [], Done, AwaitDone(log, r, []), Answer(r + 1, r, 0));
    AnswerRun(c, log, r);
    assert done + [] == done && Reads(c.tail.index, done, []);
    ReceiverAlone(c, SenderRound(c, r + 1), AwaitDone(log, r, done), [], [], AfterRound(c, log, r + 1, []));
    Then(net, s0, s1, s2);
    Then(net, s0, s2, Late(SenderRound(c, r + 1), AfterRound(c, log, r + 1, []), [], []));
  }

  /** After `phases + 1` rounds the sender says goodbye. */
  ghost function Answered(c: Setup, log: seq<Event>): State<Local, Msg>
  {
    Late(SenderBye(c.phases + 1, c.phases + 1, 0), AfterRound(c, log, c.phases + 1, []), [], [])
  }

  lemma {:induction false} RoundsRun(c: Setup, log: seq<Event>, r: nat)
    requires c.Valid() && r <= c.phases
    ensures Leads(NetOf(c), Late(Loop(r, r, 0), Close(log, r, []), [], []), Answered(c, log))
    decreases c.phases - r
  {
    RoundRun(c, log, r);
    if r < c.phases {
      RoundsRun(c, log, r + 1);
      Then(NetOf(c), Late(Loop(r, r, 0), Close(log, r, []), [], []),
           Late(Loop(r + 1, r + 1, 0), Close(log, r + 1, []), [], []), Answered(c, log));
    }
  }

  // ---- Goodbyes ----

  lemma SenderWrites(c: Setup, s: Local, r: Local, requests: seq<Msg>, m: Msg, s': Local)
    requires c.Valid() && SenderAct(c, s) == Act.Send(RESPONSES, m, s')
    ensures Leads(NetOf(c), Late(s, r, requests, []), Late(s', r, requests, [m]))
  {
    assert [Returned, s, r][1 := s'] == [Returned, s', r];
    var none: seq<Msg> := [];
    assert none + [m] == [m] && [requests, none, none, none][1 := [m]] == [requests, [m], none, none];
    Onward(NetOf(c), Late(s, r, requests, []), SENDER, Late(s', r, requests, [m]));
  }

  lemma ReceiverReads(c: Setup, s: Local, r: Local, requests: seq<Msg>, m: Msg, r': Local)
    requires ReceiverAct(c, r).Recv? && ReceiverAct(c, r).channel == RESPONSES && ReceiverAct(c, r).got(m) == r'
    ensures Leads(NetOf(c), Late(s, r, requests, [m]), Late(s, r', requests, []))
  {
    assert [Returned, s, r][2 := r'] == [Returned, s, r'];
    var none: seq<Msg> := [];
    assert [m][1..] == none && [requests, [m], none, none][1 := none] == [requests, none, none, none];
    Onward(NetOf(c), Late(s, r, requests, [m]), RECEIVER, Late(s, r', requests, []));
  }

  ghost function S(c: Setup, k: nat): Local {
    SenderBye(c.phases + 1, c.phases + 1, k)
  }

  lemma PushRun(c: Setup, log: seq<Event>, n: nat, sync: bool)
    requires c.Valid() && Paired(c, true, sync)
    ensures Leads(NetOf(c), Late(S(c, 0), ReceiverBye(log, n, 0, []), [], []),
                  Late(S(c, |c.senderBye|), ReceiverBye(log, n, |c.receiverBye|, []), [], if sync then [Done] else []))
  {
    var net := NetOf(c);
    var r := k => ReceiverBye(log, n, k, []);
    ReceiverToSender(c, S(c, 0), r(0), [], Done, r(1), S(c, 1));
    if sync {
      SenderWrites(c, S(c, 1), r(1), [], Done, S(c, 2));
      ReceiverToSender(c, S(c, 2), r(1), [Done], Done, r(2), S(c, 3));
      Then(net, Late(S(c, 0), r(0), [], []), Late(S(c, 1), r(1), [], []), Late(S(c, 2), r(1), [], [Done]));
      Then(net, Late(S(c, 0), r(0), [], []), Late(S(c, 2), r(1), [], [Done]), Late(S(c, 3), r(2), [], [Done]));
    }
  }

  /** The statistics are written and read. */
  lemma StatsRun(c: Setup, log: seq<Event>, n: nat, sync: bool)
    requires c.Valid() && Paired(c, false, sync)
    ensures Leads(NetOf(c), Late(S(c, 0), ReceiverBye(log, n, 0, []), [], []),
                  Late(S(c, 1), ReceiverBye(log, n, 1, []), [], []))
  {
    var net, stats := NetOf(c), c.tail.stats;
    var r := k => ReceiverBye(log, n, k, []);
    SenderWrites(c, S(c, 0), r(0), [], Stats, S(c, 1));
    assert [] + stats == stats && stats + [] == stats && Reads(c.tail.figures, stats, []);
    ReceiverReads(c, S(c, 1), r(0), [], Stats, ReceiverBye(log, n, 0, stats));
    ReceiverAlone(c, S(c, 1), ReceiverBye(log, n, 0, stats), [], [], r(1));
    Then(net, Late(S(c, 0), r(0), [], []), Late(S(c, 1), r(0), [], [Stats]),
         Late(S(c, 1), ReceiverBye(log, n, 0, stats), [], []));
    Then(net, Late(S(c, 0), r(0), [], []), Late(S(c, 1), ReceiverBye(log, n, 0, stats), [], []),
         Late(S(c, 1), r(1), [], []));
  }

  /** The sender's marker crosses the receiver's. */
  lemma CrossingRun(c: Setup, log: seq<Event>, n: nat, sync: bool)
    requires c.Valid() && Paired(c, false, sync)
    ensures Leads(NetOf(c), Late(S(c, 1), ReceiverBye(log, n, 1, []), [], []),
                  Late(S(c, 3), ReceiverBye(log, n, 2, []), [], [Done]))
  {
    var r := k => ReceiverBye(log, n, k, []);
    SenderWrites(c, S(c, 1), r(1), [], Done, S(c, 2));
    ReceiverToSender(c, S(c, 2), r(1), [Done], Done, r(2), S(c, 3));
    Then(NetOf(c), Late(S(c, 1), r(1), [], []), Late(S(c, 2), r(1), [], [Done]), Late(S(c, 3), r(2), [], [Done]));
  }

  lemma MarkerRun(c: Setup, log: seq<Event>, n: nat, sync: bool)
    requires c.Valid() && Paired(c, false, sync)
    ensures Leads(NetOf(c), Late(S(c, 3), ReceiverBye(log, n, 2, []), [], [Done]),
                  Late(S(c, 3), ReceiverBye(log, n, 3, []), [], []))
  {
    var done := c.tail.done;
    var r := k => ReceiverBye(log, n, k, []);
    assert [] + done == done && done + [] == done && Reads(c.tail.index, done, []);
    ReceiverReads(c, S(c, 3), r(2), [], Done, ReceiverBye(log, n, 2, done));
    ReceiverAlone(c, S(c, 3), ReceiverBye(log, n, 2, done), [], [], r(3));
    Then(NetOf(c), Late(S(c, 3), r(2), [], [Done]), Late(S(c, 3), ReceiverBye(log, n, 2, done), [], []),
         Late(S(c, 3), r(3), [], []));
  }

  lemma PullRun(c: Setup, log: seq<Event>, n: nat, sync: bool)
    requires c.Valid() && Paired(c, false, sync)
    ensures Leads(NetOf(c), Late(S(c, 0), ReceiverBye(log, n, 0, []), [], []),
                  Late(S(c, |c.senderBye|), ReceiverBye(log, n, |c.receiverBye|, []), [], []))
  {
    var net := NetOf(c);
    var r := k => ReceiverBye(log, n, k, []);
    StatsRun(c, log, n, sync);
    CrossingRun(c, log, n, sync);
    MarkerRun(c, log, n, sync);
    Then(net, Late(S(c, 1), r(1), [], []), Late(S(c, 3), r(2), [], [Done]), Late(S(c, 3), r(3), [], []));
    ReceiverToSender(c, S(c, 3), r(3), [], Done, r(4), S(c, 4));
    Then(net, Late(S(c, 0), r(0), [], []), Late(S(c, 1), r(1), [], []), Late(S(c, 3), r(3), [], []));
    Then(net, Late(S(c, 0), r(0), [], []), Late(S(c, 3), r(3), [], []), Late(S(c, 4), r(4), [], []));
    if sync {
      ReceiverToSender(c, S(c, 4), r(4), [], Done, r(5), S(c, 5));
      Then(net, Late(S(c, 0), r(0), [], []), Late(S(c, 4), r(4), [], []), Late(S(c, 5), r(5), [], []));
    }
  }
}
