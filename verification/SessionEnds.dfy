/**
 * Where sessions come to rest. Every session does, in every interleaving, after one number of steps
 * and in one state: complete, stuck in the file list, given up on a reply, or lost in its goodbye.
 */
module SessionEnds {
  import opened Bytes
  import opened Network
  import opened Session
  import opened SessionRuns
  import opened SessionCleanup
  import opened SessionOutcome

  // ---- After a rejected reply ----

  /** The receiver has given up; requests are still read, nobody takes responses and items. */
  ghost function Alone(g: Local, s: Local, r: Local, responses: seq<Msg>, items: seq<Msg>): State<Local, Msg>
  {
    State([g, s, r], [[], responses, items, []])
  }

  lemma GeneratorOn(c: Setup, g: Local, s: Local, r: Local, responses: seq<Msg>, items: seq<Msg>)
    requires GeneratorAct(c, g).Internal?
    ensures Leads(NetOf(c), Alone(g, s, r, responses, items),
                  Alone(GeneratorAct(c, g).next, s, r, responses, items))
  {
    var next := GeneratorAct(c, g).next;
    assert [g, s, r][0 := next] == [next, s, r];
    Onward(NetOf(c), Alone(g, s, r, responses, items), GENERATOR, Alone(next, s, r, responses, items));
  }

  /** An item that nobody will take. */
  lemma ItemUnread(c: Setup, g: Local, s: Local, r: Local, responses: seq<Msg>, items: seq<Msg>, m: Msg, g': Local)
    requires r.Rejected? && GeneratorAct(c, g) == Act.Send(ITEMS, m, g')
    ensures Leads(NetOf(c), Alone(g, s, r, responses, items), Alone(g', s, r, responses, items + [m]))
  {
    var u, v := Alone(g, s, r, responses, items), Alone(g', s, r, responses, items + [m]);
    assert Halted(NetOf(c), u, RECEIVER);
    assert [g, s, r][0 := g'] == [g', s, r];
    var none: seq<Msg> := [];
    assert [none, responses, items, none][2 := items + [m]] == [none, responses, items + [m], none];
    Onward(NetOf(c), u, GENERATOR, v);
  }

  /** A part of a reply that nobody will take. */
  lemma PartUnread(c: Setup, g: Local, s: Local, r: Local, responses: seq<Msg>, items: seq<Msg>, m: Msg, s': Local)
    requires r.Rejected? && SenderAct(c, s) == Act.Send(RESPONSES, m, s')
    ensures Leads(NetOf(c), Alone(g, s, r, responses, items), Alone(g, s', r, responses + [m], items))
  {
    var u, v := Alone(g, s, r, responses, items), Alone(g, s', r, responses + [m], items);
    assert Halted(NetOf(c), u, RECEIVER);
    assert [g, s, r][1 := s'] == [g, s', r];
    var none: seq<Msg> := [];
    assert [none, responses, items, none][1 := responses + [m]] == [none, responses + [m], items, none];
    Onward(NetOf(c), u, SENDER, v);
  }

  lemma PartHeard(c: Setup, g: Local, s: Local, r: Local, responses: seq<Msg>, items: seq<Msg>, m: Msg, g': Local,
                  s': Local)
    requires c.Valid() && GeneratorAct(c, g) == Act.Send(REQUESTS, m, g')
    requires SenderAct(c, s).Recv? && SenderAct(c, s).channel == REQUESTS && SenderAct(c, s).got(m) == s'
    ensures Leads(NetOf(c), Alone(g, s, r, responses, items), Alone(g', s', r, responses, items))
  {
    Handover(NetOf(c), Alone(g, s, r, responses, items), GENERATOR, SENDER, REQUESTS);
    assert [g, s, r][0 := g'][1 := s'] == [g', s', r];
  }

  lemma {:induction false} RequestHeard(c: Setup, i: nat, k: nat, r: Local, responses: seq<Msg>, items: seq<Msg>)
    requires c.Valid() && i < |c.actions| && c.actions[i].Transfer? && k <= |c.actions[i].request|
    ensures Leads(NetOf(c), Alone(Asking(i, k), Hearing(c, i, k), r, responses, items),
                  Alone(Announcing(i), Replying(c, i, 0), r, responses, items))
    decreases |c.actions[i].request| - k
  {
    var request := c.actions[i].request;
    HearsPart(c, i, k);
    var g := if k == |request| then Announcing(i) else Asking(i, k + 1);
    PartHeard(c, Asking(i, k), Hearing(c, i, k), r, responses, items, Part(c.ndx[i], request, k), g,
              Hearing(c, i, k + 1));
    if k < |request| {
      RequestHeard(c, i, k + 1, r, responses, items);
      Then(NetOf(c), Alone(Asking(i, k), Hearing(c, i, k), r, responses, items),
           Alone(g, Hearing(c, i, k + 1), r, responses, items),
           Alone(Announcing(i), Replying(c, i, 0), r, responses, items));
    }
  }

  lemma {:induction false} ReplyUnread(c: Setup, i: nat, k: nat, g: Local, r: Local, responses: seq<Msg>,
                                       items: seq<Msg>)
    returns (responses': seq<Msg>)
    requires c.Valid() && i < |c.actions| && c.actions[i].Transfer? && k <= |ReplyTo(c, i)| && r.Rejected?
    ensures Leads(NetOf(c), Alone(g, Replying(c, i, k), r, responses, items),
                  Alone(g, Loop(0, 0, 0), r, responses', items))
    decreases |ReplyTo(c, i)| - k
  {
    var reply := ReplyTo(c, i);
    var m, s := Part(c.ndx[i], reply, k), if k == |reply| then Loop(0, 0, 0) else Replying(c, i, k + 1);
    PartUnread(c, g, Replying(c, i, k), r, responses, items, m, s);
    if k == |reply| {
      responses' := responses + [m];
    } else {
      responses' := ReplyUnread(c, i, k + 1, g, r, responses + [m], items);
      Then(NetOf(c), Alone(g, Replying(c, i, k), r, responses, items), Alone(g, s, r, responses + [m], items),
           Alone(g, Loop(0, 0, 0), r, responses', items));
    }
  }

  /** One more entry, though nobody waits for it. */
  lemma EntryUnread(c: Setup, i: nat, r: Local, responses: seq<Msg>, items: seq<Msg>)
    returns (responses': seq<Msg>, items': seq<Msg>)
    requires c.Valid() && i < |c.actions| && r.Rejected?
    ensures Leads(NetOf(c), Alone(At(i), Loop(0, 0, 0), r, responses, items),
                  Alone(At(i + 1), Loop(0, 0, 0), r, responses', items'))
  {
    responses', items' := responses, items;
    var s := Loop(0, 0, 0);
    match c.actions[i]
    case Skip =>
      GeneratorOn(c, At(i), s, r, responses, items);
    case Handle =>
      ItemUnread(c, At(i), s, r, responses, items, Handled(i), At(i + 1));
      items' := items + [Handled(i)];
    case DeferLink =>
      ItemUnread(c, At(i), s, r, responses, items, Deferred(i), At(i + 1));
      items' := items + [Deferred(i)];
    case Transfer(_) =>
      responses', items' := TransferUnread(c, i, r, responses, items);
  }

  lemma TransferUnread(c: Setup, i: nat, r: Local, responses: seq<Msg>, items: seq<Msg>)
    returns (responses': seq<Msg>, items': seq<Msg>)
    requires c.Valid() && i < |c.actions| && r.Rejected? && c.actions[i].Transfer?
    ensures Leads(NetOf(c), Alone(At(i), Loop(0, 0, 0), r, responses, items),
                  Alone(At(i + 1), Loop(0, 0, 0), r, responses', items'))
  {
    var net, s0 := NetOf(c), Alone(At(i), Loop(0, 0, 0), r, responses, items);
    GeneratorOn(c, At(i), Loop(0, 0, 0), r, responses, items);
    RequestHeard(c, i, 0, r, responses, items);
    var s2 := Alone(Announcing(i), Replying(c, i, 0), r, responses, items);
    Then(net, s0, Alone(Asking(i, 0), Loop(0, 0, 0), r, responses, items), s2);
    ItemUnread(c, Announcing(i), Replying(c, i, 0), r, responses, items, Expect(i), At(i + 1));
    items' := items + [Expect(i)];
    var s3 := Alone(At(i + 1), Replying(c, i, 0), r, responses, items');
    Then(net, s0, s2, s3);
    responses' := ReplyUnread(c, i, 0, At(i + 1), r, responses, items');
    Then(net, s0, s3, Alone(At(i + 1), Loop(0, 0, 0), r, responses', items'));
  }

  lemma {:induction false} EntriesUnread(c: Setup, i: nat, r: Local, responses: seq<Msg>, items: seq<Msg>)
    returns (responses': seq<Msg>, items': seq<Msg>)
    requires c.Valid() && i <= |c.actions| && r.Rejected?
    ensures Leads(NetOf(c), Alone(At(i), Loop(0, 0, 0), r, responses, items),
                  Alone(At(|c.actions|), Loop(0, 0, 0), r, responses', items'))
    decreases |c.actions| - i
  {
    responses', items' := responses, items;
    if i < |c.actions| {
      var q1, q2 := EntryUnread(c, i, r, responses, items);
      responses', items' := EntriesUnread(c, i + 1, r, q1, q2);
      Then(NetOf(c), Alone(At(i), Loop(0, 0, 0), r, responses, items), Alone(At(i + 1), Loop(0, 0, 0), r, q1, q2),
           Alone(At(|c.actions|), Loop(0, 0, 0), r, responses', items'));
    }
  }

  /** When the generator has returned too, the sender reads the end of the stream and fails. */
  lemma SenderFails(c: Setup, r: Local, responses: seq<Msg>, items: seq<Msg>)
    requires r.Rejected?
    ensures Leads(NetOf(c), Alone(Returned, Loop(0, 0, 0), r, responses, items),
                  Alone(Returned, Failed([]), r, responses, items))
    ensures AtRest(NetOf(c), Alone(Returned, Failed([]), r, responses, items))
  {
    var u, v := Alone(Returned, Loop(0, 0, 0), r, responses, items), Alone(Returned, Failed([]), r, responses, items);
    assert Halted(NetOf(c), u, GENERATOR) && Halted(NetOf(c), u, RECEIVER);
    assert [Returned, Loop(0, 0, 0), r][1 := Failed([])] == [Returned, Failed([]), r];
    Onward(NetOf(c), u, SENDER, v);
    forall p: nat
      ensures Step(NetOf(c), v, p).None?
    {
      assert p == 0 || p == 1 || p == 2 || p > 2;
    }
  }

  /** After a reply was rejected: generator and sender go on to the end of the list. */
  lemma RejectedRest(c: Setup) returns (end: State<Local, Msg>)
    requires c.Valid() && c.pending <= 1 && Stop(c, 0) < |c.actions|
    ensures Leads(NetOf(c), Start(), end) && AtRest(NetOf(c), end)
    ensures end.locals == [Returned, Failed([]), Rejected(Expected(c, Stop(c, 0)), Stop(c, 0))]
  {
    var i, net := Stop(c, 0), NetOf(c);
    var r := Rejected(Expected(c, i), i);
    RejectionRun(c);
    var responses, items := EntriesUnread(c, i + 1, r, [], []);
    var s1 := Alone(At(|c.actions|), Loop(0, 0, 0), r, responses, items);
    Then(net, Start(), GivenUp(c, i), s1);
    ItemUnread(c, At(|c.actions|), Loop(0, 0, 0), r, responses, items, Msg.Finished, Returned);
    var s2 := Alone(Returned, Loop(0, 0, 0), r, responses, items + [Msg.Finished]);
    Then(net, Start(), s1, s2);
    SenderFails(c, r, responses, items + [Msg.Finished]);
    end := Alone(Returned, Failed([]), r, responses, items + [Msg.Finished]);
    Then(net, Start(), s2, end);
  }

  // ---- Lost in the goodbye ----

  /** The receiver has failed: the sender's last reads find the end of the stream. */
  lemma {:induction false} SenderLeaves(c: Setup, log: seq<Event>, sync: bool, k: nat, responses: seq<Msg>)
    requires Paired(c, false, sync) && 3 <= k <= |c.senderBye|
    ensures Leads(NetOf(c), Late(S(c, k), Failed(log), [], responses),
                  Late(S(c, |c.senderBye|), Failed(log), [], responses))
    decreases |c.senderBye| - k
  {
    if k < |c.senderBye| {
      var u, v := Late(S(c, k), Failed(log), [], responses), Late(S(c, k + 1), Failed(log), [], responses);
      assert c.senderBye[k] == Read;
      assert Halted(NetOf(c), u, GENERATOR) && Halted(NetOf(c), u, RECEIVER);
      assert [Returned, S(c, k), Failed(log)][1 := S(c, k + 1)] == [Returned, S(c, k + 1), Failed(log)];
      Onward(NetOf(c), u, SENDER, v);
      SenderLeaves(c, log, sync, k + 1, responses);
      Then(NetOf(c), u, v, Late(S(c, |c.senderBye|), Failed(log), [], responses));
    }
  }

  lemma FailedRests(c: Setup, log: seq<Event>, responses: seq<Msg>)
    ensures AtRest(NetOf(c), Late(S(c, |c.senderBye|), Failed(log), [], responses))
  {
    forall p: nat
      ensures Step(NetOf(c), Late(S(c, |c.senderBye|), Failed(log), [], responses), p).None?
    {
      assert p == 0 || p == 1 || p == 2 || p > 2;
    }
  }

  /** The sender waits for a marker, the receiver for statistics. */
  lemma ShortRests(c: Setup, log: seq<Event>, sync: bool, all: seq<byte>)
    requires TwoGroups(c, sync) && c.tail.figures(all).More?
    ensures AtRest(NetOf(c), Late(S(c, 3), R(c, log, 0, all), [], []))
  {
    forall p: nat
      ensures Step(NetOf(c), Late(S(c, 3), R(c, log, 0, all), [], []), p).None?
    {
      assert p == 0 || p == 1 || p == 2 || p > 2;
    }
  }

  /** The receiver is left in its goodbye, with all files in, or has failed there; the sender has read all or waits. */
  ghost predicate LostInGoodbye(c: Setup, u: State<Local, Msg>)
    requires c.Valid()
  {
    && |u.locals| == 3 && u.locals[GENERATOR] == Returned && u.locals[SENDER].SenderBye?
    && (u.locals[RECEIVER].Failed? || u.locals[RECEIVER].ReceiverBye?)
    && LogOf(u.locals[RECEIVER]) == Expected(c, |c.actions|)
    && !Ended(u, |c.receiverBye|)
  }

  lemma MisalignedRest(c: Setup, sync: bool) returns (end: State<Local, Msg>)
    requires TwoGroups(c, sync) && Stop(c, 0) == |c.actions| && !Aligned(c.tail, sync)
    ensures Leads(NetOf(c), Start(), end) && AtRest(NetOf(c), end) && LostInGoodbye(c, end)
  {
    var log, net := Expected(c, |c.actions|), NetOf(c);
    AnsweredRun(c);
    var x, _ := MisalignedRun(c, log, sync);
    Then(net, Start(), Answered(c, log), x);
    end := x;
    match c.tail.figures(Remains(c.tail))
    case Bad =>
      SenderLeaves(c, log, sync, 3, x.queues[RESPONSES]);
      FailedRests(c, log, x.queues[RESPONSES]);
      end := Late(S(c, |c.senderBye|), Failed(log), [], x.queues[RESPONSES]);
      Then(net, Start(), x, end);
    case More => ShortRests(c, log, sync, Remains(c.tail));
    case Rest(all) => WaitingRests(c, log, sync, all);
  }

  // ---- Every session ----

  /**
   * Every session comes to rest, in every interleaving, in one state: without starting if the sender
   * keeps two groups of the file list or more; with the generator returned, the sender failed and
   * the receiver given up on the first reply it rejects; complete; or, on a pull with two groups and
   * statistics out of line, lost in the goodbye with all files received.
   */
  lemma SessionSettles(c: Setup, push: bool, sync: bool) returns (end: State<Local, Msg>, n: nat)
    requires c.Valid() && Paired(c, push, sync)
    ensures Settles(NetOf(c), Start(), end, n)
    ensures var stop := Stop(c, 0);
            if c.pending >= 2 then end == Stuck(c)
            else if stop < |c.actions| then end.locals == [Returned, Failed([]), Rejected(Expected(c, stop), stop)]
            else if c.pending == 0 || push || Aligned(c.tail, sync) then SessionOutcome.Finished(c, end)
            else LostInGoodbye(c, end)
  {
    if c.pending >= 2 {
      StuckRun(c);
      end := Stuck(c);
      n := OneRunDecides(NetOf(c), Start(), end);
    } else if Stop(c, 0) < |c.actions| {
      end := RejectedRest(c);
      n := OneRunDecides(NetOf(c), Start(), end);
    } else if c.pending == 0 || push || Aligned(c.tail, sync) {
      SessionCompletes(c, push, sync);
      end, n :| SessionOutcome.Finished(c, end) && Settles(NetOf(c), Start(), end, n);
    } else {
      end := MisalignedRest(c, sync);
      n := OneRunDecides(NetOf(c), Start(), end);
    }
  }
}
