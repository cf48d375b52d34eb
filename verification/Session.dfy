/**
 * A whole session: the file lists are sent, the generator asks for files, the sender answers, the
 * receiver takes the answers, then the phases are closed and the two sides say goodbye. The three
 * run concurrently over two wires and the channel that tells the receiver which file to expect.
 */
module Session {
  import opened Bytes
  import opened Network

  /** What the receiving side decides about one entry. */
  datatype Action = Skip | Handle | DeferLink | Transfer(request: seq<seq<byte>>)

  /**
   * Messages on the wires, cut into parts, and items on the channels between the two tasks. A group
   * of the file list is the last one if the end marker follows it.
   */
  datatype Msg =
    | Head(ndx: int, parts: nat)
    | Body(data: seq<byte>)
    | Done
    | Stats
    | Group(last: bool)
    | Go
    | Handled(entry: nat)
    | Deferred(entry: nat)
    | Expect(entry: nat)
    | Finished

  /** What the receiver task did, in order; a received file keeps the NDX it came under. */
  datatype Event = DidHandle(entry: nat) | DidDefer(entry: nat) | Received(entry: nat, ndx: int, reply: seq<seq<byte>>)

  /** A goodbye writes a marker, reads one if it can, or reads the statistics. */
  datatype Bye = Write(msg: Msg) | Read | ReadStats

  // ---- Closing bytes ----

  /** What is read off the front of some bytes: it may need more of them, or make no sense. */
  datatype Skip = More | Bad | Rest(bytes: seq<byte>)

  /** What was read from some bytes is read from more of them. */
  ghost predicate Continues(skip: seq<byte> -> Skip, s: seq<byte>, t: seq<byte>) {
    && (skip(s).Rest? ==> skip(s + t) == Rest(skip(s).bytes + t))
    && (skip(s).Bad? ==> skip(s + t).Bad?)
  }

  ghost predicate Reads(skip: seq<byte> -> Skip, written: seq<byte>, rest: seq<byte>) {
    skip(written + rest) == Rest(rest)
  }

  /** The marker and the statistics as written, and how an index and the statistics are read. */
  datatype Tail = Tail(done: seq<byte>, stats: seq<byte>, index: seq<byte> -> Skip, figures: seq<byte> -> Skip) {
    ghost predicate Valid() {
      && (forall rest: seq<byte> :: Reads(index, done, rest))
      && (forall rest: seq<byte> :: Reads(figures, stats, rest))
      && (forall s: seq<byte>, t: seq<byte> :: Continues(index, s, t))
      && (forall s: seq<byte>, t: seq<byte> :: Continues(figures, s, t))
      && index([]) == More && figures([]) == More && index(stats).Rest?
    }
  }

  /**
   * `pending` groups of the file list follow the first one, and the receiver closes `cleanup` rounds
   * more than there are phases. `accept` is the receiver's check of a reply. `ndx` numbers the
   * receiver's entries, `senderNdx` the sender's; `regular` and `respond` are about the sender's.
   */
  datatype Setup = Setup(
    actions: seq<Action>,
    ndx: seq<int>,
    senderNdx: seq<int>,
    regular: seq<bool>,
    respond: (nat, seq<seq<byte>>) -> seq<seq<byte>>,
    accept: (nat, seq<seq<byte>>) -> bool,
    pending: nat,
    phases: nat,
    cleanup: nat,
    tail: Tail,
    senderBye: seq<Bye>,
    receiverBye: seq<Bye>,
    capacity: nat)
  {
    ghost predicate Valid() {
      && |actions| == |ndx| && |senderNdx| == |regular|
      && capacity > 0 && tail.Valid()
      && (forall i :: 0 <= i < |actions| ==> Answered(i))
    }

    /** A file that will be asked for is one that the sender will send. */
    ghost predicate Answered(i: nat)
      requires i < |actions| == |ndx| && |senderNdx| == |regular|
    {
      actions[i].Transfer? ==>
        ndx[i] >= 0 && ndx[i] in NdxMap(senderNdx, |senderNdx|) && regular[NdxMap(senderNdx, |senderNdx|)[ndx[i]]]
    }
  }

  // ---- File indices ----

  /** The sender's map from NDX to entry; of entries with equal NDX the last one stays. */
  function NdxMap(ndx: seq<int>, n: nat): (m: map<int, nat>)
    requires n <= |ndx|
    ensures forall x :: x in m ==> m[x] < n && ndx[m[x]] == x && forall j :: m[x] < j < n ==> ndx[j] != x
    ensures forall i :: 0 <= i < n ==> ndx[i] in m
  {
    if n == 0 then map[] else NdxMap(ndx, n - 1)[ndx[n - 1] := n - 1]
  }

  ghost predicate Injective(ndx: seq<int>) {
    forall i, j :: 0 <= i < j < |ndx| ==> ndx[i] != ndx[j]
  }

  /** Every NDX leads back to its own entry exactly when no two entries share one. */
  lemma NdxMapInverse(ndx: seq<int>)
    ensures Injective(ndx) <==> forall i :: 0 <= i < |ndx| ==> NdxMap(ndx, |ndx|)[ndx[i]] == i
  {
  }

  /** Requests under the indices of regular files of the sender are all answered. */
  lemma SharedIndicesAnswer(c: Setup)
    requires |c.actions| == |c.ndx| && |c.senderNdx| == |c.regular| && c.capacity > 0 && c.tail.Valid()
    requires Injective(c.senderNdx)
    requires forall i :: 0 <= i < |c.actions| ==>
               (c.actions[i].Transfer? ==>
                  c.ndx[i] >= 0 && exists j :: 0 <= j < |c.regular| && c.senderNdx[j] == c.ndx[i] && c.regular[j])
    ensures c.Valid()
  {
    forall i | 0 <= i < |c.actions|
      ensures c.Answered(i)
    {
      if c.actions[i].Transfer? {
        var j :| 0 <= j < |c.regular| && c.senderNdx[j] == c.ndx[i] && c.regular[j];
        OwnIndex(c.senderNdx, j);
      }
    }
  }

  lemma OwnIndex(ndx: seq<int>, j: nat)
    requires Injective(ndx) && j < |ndx|
    ensures ndx[j] in NdxMap(ndx, |ndx|) && NdxMap(ndx, |ndx|)[ndx[j]] == j
  {
  }

  // ---- The three tasks ----

  const GENERATOR := 0
  const SENDER := 1
  const RECEIVER := 2
  const REQUESTS := 0
  const RESPONSES := 1
  const ITEMS := 2
  const SPAWN := 3
  const ITEM_BOUND := 4

  datatype Local =
    // generator: not yet spawned; next entry; writing its request; announcing it
    | Asleep
    | At(i: nat)
    | Asking(i: nat, k: nat)
    | Announcing(i: nat)
    // sender: `heard` and `answered` count the DONE markers of the loop, `left` the groups not yet sent
    | Listing
    | Turn(heard: nat, answered: nat, left: nat)
    | Loop(heard: nat, answered: nat, left: nat)
    | Gather(heard: nat, answered: nat, left: nat, ndx: int, parts: nat, got: seq<seq<byte>>)
    | Reply(heard: nat, answered: nat, left: nat, ndx: int, reply: seq<seq<byte>>, k: nat)
    | Answer(heard: nat, answered: nat, left: nat)
    | SenderBye(heard: nat, answered: nat, k: nat)
    // receiver: `log` is what it has done, `rounds` the DONE markers exchanged, `ahead` bytes read too far
    | AwaitList
    | Spawning
    | Idle(log: seq<Event>)
    | AwaitHead(log: seq<Event>, i: nat)
    | Collect(log: seq<Event>, i: nat, ndx: int, parts: nat, got: seq<seq<byte>>)
    | Rejected(log: seq<Event>, i: nat)
    | Close(log: seq<Event>, rounds: nat, ahead: seq<byte>)
    | AwaitDone(log: seq<Event>, rounds: nat, ahead: seq<byte>)
    | ReceiverBye(log: seq<Event>, rounds: nat, k: nat, ahead: seq<byte>)
    // a task that has returned, and one that has failed
    | Returned
    | Failed(log: seq<Event>)

  /** Part `k` of a message about `ndx`. */
  function Part(ndx: int, bodies: seq<seq<byte>>, k: nat): Msg
    requires k <= |bodies|
  {
    if k == 0 then Head(ndx, |bodies|) else Body(bodies[k - 1])
  }

  function GeneratorAct(c: Setup, l: Local): Act<Local, Msg> {
    match l
    case Asleep => Act.Recv(SPAWN, m => At(0), Returned)
    case At(i) =>
      if i >= |c.actions| || i >= |c.ndx| then Act.Send(ITEMS, Finished, Returned)
      else (match c.actions[i]
            case Skip => Internal(At(i + 1))
            case Handle => Act.Send(ITEMS, Handled(i), At(i + 1))
            case DeferLink => Act.Send(ITEMS, Deferred(i), At(i + 1))
            case Transfer(_) => Internal(Asking(i, 0)))
    case Asking(i, k) =>
      if i >= |c.actions| || i >= |c.ndx| || !c.actions[i].Transfer? || k > |c.actions[i].request| then Halt
      else Act.Send(REQUESTS, Part(c.ndx[i], c.actions[i].request, k),
                    if k == |c.actions[i].request| then Announcing(i) else Asking(i, k + 1))
    case Announcing(i) => Act.Send(ITEMS, Expect(i), At(i + 1))
    case _ => Halt
  }

  /** The top of the sender loop: a group that is still to be sent goes out before the next request is read. */
  function Next(heard: nat, answered: nat, left: nat): Local {
    if left > 0 then Turn(heard, answered, left) else Loop(heard, answered, 0)
  }

  /** A request is complete: the reply to it, if the loop has one for this NDX. */
  function Complete(c: Setup, heard: nat, answered: nat, left: nat, ndx: int, got: seq<seq<byte>>): Local {
    if |c.senderNdx| == |c.regular| && ndx in NdxMap(c.senderNdx, |c.senderNdx|) then
      Reply(heard, answered, left, ndx, c.respond(NdxMap(c.senderNdx, |c.senderNdx|)[ndx], got), 0)
    else Failed([])
  }

  /** The sender loop reads an NDX; unknown and non-regular entries are passed over. */
  function SenderHears(c: Setup, heard: nat, answered: nat, left: nat, m: Msg): Local {
    match m
    case Done => Answer(heard + 1, answered, left)
    case Head(ndx, parts) =>
      if ndx < -1 || |c.senderNdx| != |c.regular| || ndx !in NdxMap(c.senderNdx, |c.senderNdx|) then
        Next(heard, answered, left)
      else if !c.regular[NdxMap(c.senderNdx, |c.senderNdx|)[ndx]] then Next(heard, answered, left)
      else if parts == 0 then Complete(c, heard, answered, left, ndx, [])
      else Gather(heard, answered, left, ndx, parts, [])
    case _ => Failed([])
  }

  function SenderGathers(c: Setup, l: Local, m: Msg): Local
    requires l.Gather?
  {
    match m
    case Body(data) =>
      var got := l.got + [data];
      if |got| >= l.parts then Complete(c, l.heard, l.answered, l.left, l.ndx, got)
      else Gather(l.heard, l.answered, l.left, l.ndx, l.parts, got)
    case _ => Failed([])
  }

  /** The sender's goodbye; errors of its reads are ignored. */
  function SenderByeAct(bye: seq<Bye>, k: nat, next: Local): Act<Local, Msg> {
    if k >= |bye| then Halt
    else match bye[k]
         case Write(m) => Act.Send(RESPONSES, m, next)
         case _ => Act.Recv(REQUESTS, m => next, next)
  }

  function SenderAct(c: Setup, l: Local): Act<Local, Msg> {
    match l
    case Listing => Act.Send(RESPONSES, Group(c.pending == 0), Next(0, 0, c.pending))
    case Turn(heard, answered, left) =>
      if left == 0 then Internal(Loop(heard, answered, 0))
      else Act.Send(RESPONSES, Group(left == 1), Loop(heard, answered, left - 1))
    case Loop(heard, answered, left) =>
      Act.Recv(REQUESTS, m => SenderHears(c, heard, answered, left, m), Failed([]))
    case Gather(_, _, _, _, _, _) =>
      Act.Recv(REQUESTS, m => if l.Gather? then SenderGathers(c, l, m) else Failed([]), Failed([]))
    case Reply(heard, answered, left, ndx, reply, k) =>
      if k > |reply| then Halt
      else Act.Send(RESPONSES, Part(ndx, reply, k),
                    if k == |reply| then Next(heard, answered, left)
                    else Reply(heard, answered, left, ndx, reply, k + 1))
    case Answer(heard, answered, left) =>
      Act.Send(RESPONSES, Done,
               if heard > c.phases then SenderBye(heard, answered + 1, 0) else Next(heard, answered + 1, left))
    case SenderBye(heard, answered, k) => SenderByeAct(c.senderBye, k, SenderBye(heard, answered, k + 1))
    case _ => Halt
  }

  /** The whole file list is received before anything is asked for. */
  function ReceiverLists(m: Msg): Local {
    match m
    case Group(last) => if last then Spawning else AwaitList
    case _ => Failed([])
  }

  function ReceiverHears(log: seq<Event>, m: Msg): Local {
    match m
    case Handled(i) => Idle(log + [DidHandle(i)])
    case Deferred(i) => Idle(log + [DidDefer(i)])
    case Expect(i) => AwaitHead(log, i)
    case Finished => Close(log, 0, [])
    case _ => Failed(log)
  }

  /** A reply that fails the receiver's check ends its loop. */
  function ReceiverTakes(c: Setup, log: seq<Event>, i: nat, ndx: int, reply: seq<seq<byte>>): Local {
    if c.accept(i, reply) then Idle(log + [Received(i, ndx, reply)]) else Rejected(log, i)
  }

  /** The response's NDX is read and otherwise ignored. */
  function ReceiverHeader(c: Setup, log: seq<Event>, i: nat, m: Msg): Local {
    match m
    case Head(ndx, parts) =>
      if parts == 0 then ReceiverTakes(c, log, i, ndx, []) else Collect(log, i, ndx, parts, [])
    case _ => Failed(log)
  }

  function ReceiverCollects(c: Setup, l: Local, m: Msg): Local
    requires l.Collect?
  {
    match m
    case Body(data) =>
      var got := l.got + [data];
      if |got| >= l.parts then ReceiverTakes(c, l.log, l.i, l.ndx, got)
      else Collect(l.log, l.i, l.ndx, l.parts, got)
    case _ => Failed(l.log)
  }

  /** The bytes of a message, where markers and statistics are read as bytes. */
  function BytesOf(c: Setup, m: Msg): seq<byte> {
    match m case Done => c.tail.done case Stats => c.tail.stats case _ => []
  }

  /** The receiver reads as many messages as it needs bytes. */
  function ReceiverClosing(c: Setup, l: Local, m: Msg): Local {
    match l
    case AwaitDone(log, rounds, ahead) => AwaitDone(log, rounds, ahead + BytesOf(c, m))
    case ReceiverBye(log, rounds, k, ahead) => ReceiverBye(log, rounds, k, ahead + BytesOf(c, m))
    case _ => Failed([])
  }

  function AfterRound(c: Setup, log: seq<Event>, rounds: nat, ahead: seq<byte>): Local {
    if rounds > c.phases + c.cleanup then ReceiverBye(log, rounds, 0, ahead) else Close(log, rounds, ahead)
  }

  /** The receiver's goodbye; errors of reading markers are ignored, those of reading statistics are not. */
  function ReceiverByeAct(c: Setup, log: seq<Event>, rounds: nat, k: nat, ahead: seq<byte>): Act<Local, Msg> {
    if k >= |c.receiverBye| then Halt
    else
      var next := (rest: seq<byte>) => ReceiverBye(log, rounds, k + 1, rest);
      var more := (m: Msg) => ReceiverClosing(c, ReceiverBye(log, rounds, k, ahead), m);
      match c.receiverBye[k]
      case Write(m) => Act.Send(REQUESTS, m, next(ahead))
      case Read =>
        (match c.tail.index(ahead)
         case Rest(rest) => Internal(next(rest))
         case Bad => Internal(next(ahead))
         case More => Act.Recv(RESPONSES, more, next(ahead)))
      case ReadStats =>
        match c.tail.figures(ahead)
        case Rest(rest) => Internal(next(rest))
        case Bad => Internal(Failed(log))
        case More => Act.Recv(RESPONSES, more, Failed(log))
  }

  function ReceiverAct(c: Setup, l: Local): Act<Local, Msg> {
    match l
    case AwaitList => Act.Recv(RESPONSES, m => ReceiverLists(m), Failed([]))
    case Spawning => Act.Send(SPAWN, Go, Idle([]))
    case Idle(log) => Act.Recv(ITEMS, m => ReceiverHears(log, m), Close(log, 0, []))
    case AwaitHead(log, i) => Act.Recv(RESPONSES, m => ReceiverHeader(c, log, i, m), Failed(log))
    case Collect(log, _, _, _, _) =>
      Act.Recv(RESPONSES, m => if l.Collect? then ReceiverCollects(c, l, m) else Failed(log), Failed(log))
    case Close(log, rounds, ahead) => Act.Send(REQUESTS, Done, AwaitDone(log, rounds, ahead))
    case AwaitDone(log, rounds, ahead) =>
      (match c.tail.index(ahead)
       case Rest(rest) => Internal(AfterRound(c, log, rounds + 1, rest))
       case Bad => Internal(Failed(log))
       case More => Act.Recv(RESPONSES, m => ReceiverClosing(c, l, m), Failed(log)))
    case ReceiverBye(log, rounds, k, ahead) => ReceiverByeAct(c, log, rounds, k, ahead)
    case _ => Halt
  }

  function ActOf(c: Setup, p: nat, l: Local): Act<Local, Msg> {
    if p == GENERATOR then GeneratorAct(c, l) else if p == SENDER then SenderAct(c, l) else ReceiverAct(c, l)
  }

  /** The receiver inherits the request wire when the generator has returned. */
  ghost function NetOf(c: Setup): Net<Local, Msg> {
    Net((p, l) => ActOf(c, p, l),
        [Channel(GENERATOR, RECEIVER, SENDER, c.capacity),
         Channel(SENDER, SENDER, RECEIVER, c.capacity),
         Channel(GENERATOR, GENERATOR, RECEIVER, ITEM_BOUND),
         Channel(RECEIVER, RECEIVER, GENERATOR, 1)])
  }

  /** A state with nothing under way. */
  ghost function Calm(g: Local, s: Local, r: Local): State<Local, Msg>
  {
    State([g, s, r], [[], [], [], []])
  }

  ghost function Start(): State<Local, Msg> {
    Calm(Asleep, Listing, AwaitList)
  }

  /** What the receiver should have done about the first `n` entries. */
  ghost function Expected(c: Setup, n: nat): seq<Event>
    requires c.Valid() && n <= |c.actions|
  {
    if n == 0 then [] else Expected(c, n - 1) + EventsOf(c, n - 1)
  }

  ghost function EventsOf(c: Setup, i: nat): seq<Event>
    requires c.Valid() && i < |c.actions|
  {
    match c.actions[i]
    case Skip => []
    case Handle => [DidHandle(i)]
    case DeferLink => [DidDefer(i)]
    case Transfer(_) => [Received(i, c.ndx[i], ReplyTo(c, i))]
  }

  /** What the sender answers to the request for entry `i`. */
  ghost function ReplyTo(c: Setup, i: nat): seq<seq<byte>>
    requires c.Valid() && i < |c.actions| && c.actions[i].Transfer?
  {
    assert c.Answered(i);
    c.respond(NdxMap(c.senderNdx, |c.senderNdx|)[c.ndx[i]], c.actions[i].request)
  }

  /** The reply for entry `i`, if it is asked for, passes the receiver's check. */
  ghost predicate Accepted(c: Setup, i: nat)
    requires c.Valid() && i < |c.actions|
  {
    c.actions[i].Transfer? ==> c.accept(i, ReplyTo(c, i))
  }

  /** The first entry from `i` on whose reply is rejected, or the number of entries. */
  ghost function Stop(c: Setup, i: nat): (n: nat)
    requires c.Valid() && i <= |c.actions|
    ensures i <= n <= |c.actions| && (n < |c.actions| ==> !Accepted(c, n))
    ensures forall j :: i <= j < n ==> Accepted(c, j)
    decreases |c.actions| - i
  {
    if i == |c.actions| || !Accepted(c, i) then i else Stop(c, i + 1)
  }

  // ---- Goodbyes ----

  /** Push: the client sends, the server receives; `sync` is the error-exit exchange of version 31. */
  function PushSenderBye(sync: bool): seq<Bye> {
    if sync then [Read, Write(Done), Read] else [Read]
  }

  function PushReceiverBye(sync: bool): seq<Bye> {
    if sync then [Write(Done), Write(Done)] else [Write(Done)]
  }

  /** Pull: the server sends, statistics first; the client receives. */
  function PullSenderBye(sync: bool): seq<Bye> {
    [Write(Stats), Write(Done), Read, Read] + if sync then [Read] else []
  }

  function PullReceiverBye(sync: bool): seq<Bye> {
    [ReadStats, Write(Done), Read, Write(Done)] + if sync then [Write(Done)] else []
  }

  /** Only a client that pulls closes one more round for every further group of the file list. */
  ghost predicate Paired(c: Setup, push: bool, sync: bool) {
    if push then c.senderBye == PushSenderBye(sync) && c.receiverBye == PushReceiverBye(sync) && c.cleanup == 0
    else c.senderBye == PullSenderBye(sync) && c.receiverBye == PullReceiverBye(sync) && c.cleanup == c.pending
  }
}
