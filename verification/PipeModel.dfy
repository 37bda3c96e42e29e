/**
  What sends and reads do to the pipes and threads of a kernel, as functions on values, with a trace of what happened;
  and what holds of every run.  `P` is the type of pipes.
 */
module PipeModel {
  import opened PipeRing
  import opened Schedulers

  datatype Direction = SendOnly | ReceiveOnly | SendReceive

  datatype SendKind = SendAll | SendAvailable

  datatype Result = NoError | OutOfRange | Empty | PolarityWrong | ReceiversFull | BlockedRetry | InvalidObject

  /** A thread: its state, the object it waits for, and whether its last wait at a pipe began in a read. */
  datatype Mark = Mark(state: ThreadState, waitingOn: nat, reading: bool)

  /**
    A pipe: what it holds, the thread last blocked in a read and the message last handed to one, the thread last blocked
    in sending, the pipes it sends to, and those that wait for room in it.
   */
  datatype Cell<P> = Cell(id: nat, direction: Direction, total: nat, queue: seq<Message>, owner: Thread?,
                          handed: Message, sendingThread: Thread?, readers: seq<P>, senders: seq<P>) {
    predicate IsReceiver() { direction != SendOnly }

    predicate IsSender() { direction != ReceiveOnly }

    predicate HasRoom() { IsReceiver() && |queue| < total }
  }

  datatype World<P(==)> = World(pipes: map<P, Cell<P>>, threads: map<Thread, Mark>)

  /**
    What happened: a pipe accepted a message; it handed one to the thread noted there, which was blocked in a read of it
    or not; a thread read a message; a thread blocked, in a read or in sending.
   */
  datatype Event<P> =
    | Accepted(pipe: P, message: Message)
    | Handed(pipe: P, thread: Thread, message: Message, toReader: bool)
    | Read(pipe: P, thread: Thread, message: Message)
    | Blocked(pipe: P, thread: Thread, reading: bool)

  datatype Change<P(==)> = Change(world: World<P>, events: seq<Event<P>>)

  /** What one call gave: its result, the message a read returned, and what happened. */
  datatype Entry<P> = Entry(result: Result, message: Message, events: seq<Event<P>>)

  datatype Outcome<P(==)> = Outcome(world: World<P>, entry: Entry<P>)

  /** The calls of a run.  Pipes and threads go by their numbers. */
  datatype PipeCall =
    | SendCall(thread: nat, pipe: nat, kind: SendKind, message: Message, block: bool)
    | ReceiveCall(thread: nat, pipe: nat, max: nat, block: bool)

  // ---------------------------------------------------------------- threads

  ghost function MarkOf(t: Thread): Mark
    reads t`state, t`waitingOn, t`reading
  {
    Mark(t.state, t.waitingOn, t.reading)
  }

  ghost function WokenMark(m: Mark): Mark {
    if m.state == Waiting then Mark(Ready, 0, m.reading) else m
  }

  ghost function Awaken(ts: map<Thread, Mark>, who: set<Thread>): map<Thread, Mark> {
    map t | t in ts :: if t in who then WokenMark(ts[t]) else ts[t]
  }

  /** The thread that last blocked in a read of the pipe waits on it: in that read, or in sending. */
  ghost predicate Waits<P>(w: World<P>, p: P)
    requires p in w.pipes
  {
    var c := w.pipes[p];
    c.owner != null && c.owner in w.threads && w.threads[c.owner].waitingOn == c.id
  }

  /** It is blocked in a read. */
  ghost predicate ReaderWaits<P>(w: World<P>, p: P)
    requires p in w.pipes
  {
    Waits(w, p) && InRead(w.threads[w.pipes[p].owner])
  }

  ghost predicate InRead(m: Mark) { m.state == Waiting && m.reading }

  /** The threads that last blocked in sending at the pipes noted at this one. */
  ghost function SendersOf<P>(w: World<P>, p: P): set<Thread>
    requires p in w.pipes
  {
    set s | s in w.pipes[p].senders && s in w.pipes && w.pipes[s].sendingThread != null :: w.pipes[s].sendingThread
  }

  // ---------------------------------------------------------------- calls

  /**
    Offers a message to one pipe.  If it has room it takes the message, and if the thread noted there waits on the pipe,
    the oldest message is handed to it, and the senders noted there are woken.
   */
  ghost function Offer<P>(w: World<P>, p: P, message: Message): Change<P>
    requires p in w.pipes
  {
    var c := w.pipes[p];
    var c' := CellAfter(c, message, Waits(w, p));
    if !c.HasRoom() then Change(w, [])
    else if Waits(w, p) then
      Change(World(w.pipes[p := c'], Awaken(w.threads, SendersOf(w, p) + {c.owner})),
             [Accepted(p, message), Handed(p, c.owner, c'.handed, ReaderWaits(w, p))])
    else Change(World(w.pipes[p := c'], w.threads), [Accepted(p, message)])
  }

  /** A pipe that has taken a message, and has given the oldest one away or not. */
  ghost function CellAfter<P>(c: Cell<P>, message: Message, given: bool): Cell<P> {
    var q := c.queue + [message];
    if given then c.(queue := q[1..], owner := null, handed := q[0]) else c.(queue := q)
  }

  /** Offers a message to the first `n` of the pipes `rs`. */
  ghost function Deliver<P>(w: World<P>, rs: seq<P>, message: Message, n: nat): (r: Change<P>)
    requires n <= |rs| && forall p :: p in rs ==> p in w.pipes
    ensures r.world.pipes.Keys == w.pipes.Keys && r.world.threads.Keys == w.threads.Keys
  {
    if n == 0 then Change(w, [])
    else
      var a := Deliver(w, rs, message, n - 1);
      assert rs[n - 1] in rs;
      var b := Offer(a.world, rs[n - 1], message);
      Change(b.world, a.events + b.events)
  }

  /** The sender is noted at its receivers that are full. */
  ghost function Noted<P>(pipes: map<P, Cell<P>>, p: P): map<P, Cell<P>>
    requires p in pipes
  {
    map q | q in pipes ::
      if q in pipes[p].readers && !pipes[q].HasRoom() then pipes[q].(senders := pipes[q].senders + [p]) else pipes[q]
  }

  ghost predicate AllRoom<P>(w: World<P>, rs: seq<P>) {
    forall r :: r in rs ==> r in w.pipes && w.pipes[r].HasRoom()
  }

  /** A thread blocks at a pipe, in a read or in sending, unless it has ended or has not begun. */
  ghost function BlockAt<P>(w: World<P>, p: P, t: Thread, reading: bool): (r: Change<P>)
    requires p in w.pipes && t in w.threads
    ensures r.world.pipes == w.pipes && r.world.threads.Keys == w.threads.Keys
  {
    if CanWait(w.threads[t].state)
    then Change(World(w.pipes, w.threads[t := Mark(Waiting, w.pipes[p].id, reading)]), [Blocked(p, t, reading)])
    else Change(w, [])
  }

  ghost function SendBlocked<P>(w: World<P>, p: P, t: Thread): (r: Change<P>)
    requires p in w.pipes && t in w.threads
    ensures r.world.pipes.Keys == w.pipes.Keys && r.world.threads.Keys == w.threads.Keys
  {
    var c := w.pipes[p];
    BlockAt(World(Noted(w.pipes[p := c.(sendingThread := t)], p), w.threads), p, t, false)
  }

  ghost function Send<P>(w: World<P>, p: P, t: Thread, kind: SendKind, message: Message, block: bool): (r: Outcome<P>)
    requires p in w.pipes && t in w.threads && forall q :: q in w.pipes[p].readers ==> q in w.pipes
    ensures r.world.pipes.Keys == w.pipes.Keys && r.world.threads.Keys == w.threads.Keys
  {
    var rs := w.pipes[p].readers;
    if !w.pipes[p].IsSender() then Outcome(w, Entry(PolarityWrong, [], []))
    else if kind == SendAvailable || AllRoom(w, rs) then
      var d := Deliver(w, rs, message, |rs|);
      Outcome(d.world, Entry(NoError, [], d.events))
    else if block then
      var d := SendBlocked(w, p, t);
      Outcome(d.world, Entry(BlockedRetry, [], d.events))
    else Outcome(w, Entry(ReceiversFull, [], []))
  }

  /** The oldest message leaves the pipe, and the senders noted there are woken. */
  ghost function Taken<P>(w: World<P>, p: P): World<P>
    requires p in w.pipes && w.pipes[p].queue != []
  {
    var c := w.pipes[p];
    World(w.pipes[p := c.(queue := c.queue[1..])], Awaken(w.threads, SendersOf(w, p)))
  }

  ghost function Receive<P>(w: World<P>, p: P, t: Thread, max: nat, block: bool): (r: Outcome<P>)
    requires p in w.pipes && t in w.threads
    ensures r.world.pipes.Keys == w.pipes.Keys && r.world.threads.Keys == w.threads.Keys
  {
    var c := w.pipes[p];
    if !c.IsReceiver() then Outcome(w, Entry(PolarityWrong, [], []))
    else if c.queue != [] then
      if |c.queue[0]| > max then Outcome(w, Entry(OutOfRange, [], []))
      else Outcome(Taken(w, p), Entry(NoError, c.queue[0], [Read(p, t, c.queue[0])]))
    else if block then
      var d := BlockAt(World(w.pipes[p := c.(owner := t)], w.threads), p, t, true);
      Outcome(d.world, Entry(NoError, [], d.events))
    else Outcome(w, Entry(Empty, [], []))
  }

  /** The pipes and threads refer to each other only, and are told apart by their numbers; no ring holds too much. */
  ghost predicate WorldOk<P>(w: World<P>) {
    && (forall p :: p in w.pipes ==> CellOk(w, p))
    && (forall p, q :: p in w.pipes && q in w.pipes && w.pipes[p].id == w.pipes[q].id ==> p == q)
  }

  ghost predicate CellOk<P>(w: World<P>, p: P)
    requires p in w.pipes
  {
    var c := w.pipes[p];
    && c.id > 0 && |c.queue| <= c.total
    && (c.owner != null ==> c.owner in w.threads) && (c.sendingThread != null ==> c.sendingThread in w.threads)
    && NoRepeat(c.readers) && (forall r :: r in c.readers ==> r in w.pipes && r != p)
    && (forall s :: s in c.senders ==> s in w.pipes)
  }

  /** The numbers in calls stand for these pipes and threads. */
  ghost predicate Names<P>(w: World<P>, ps: seq<P>, pool: seq<Thread>) {
    (forall p :: p in ps ==> p in w.pipes) && (forall t :: t in pool ==> t in w.threads)
  }

  /** A call; one for a thread or pipe that is not there is refused. */
  ghost function Do<P>(w: World<P>, call: PipeCall, ps: seq<P>, pool: seq<Thread>): (r: Outcome<P>)
    requires WorldOk(w) && Names(w, ps, pool)
    ensures r.world.pipes.Keys == w.pipes.Keys && r.world.threads.Keys == w.threads.Keys
  {
    if call.thread >= |pool| || call.pipe >= |ps| then Outcome(w, Entry(InvalidObject, [], []))
    else
      var t := pool[call.thread];
      match call
      case SendCall(_, i, kind, message, block) =>
        CallOk(w, ps, pool, i);
        Send(w, ps[i], t, kind, message, block)
      case ReceiveCall(_, i, max, block) => Receive(w, ps[i], t, max, block)
  }

  // ---------------------------------------------------------------- what calls keep

  /** The same pipes and threads, with the same numbers, directions, sizes and receivers. */
  ghost predicate Alike<P>(w: World<P>, w': World<P>) {
    && w'.pipes.Keys == w.pipes.Keys && w'.threads.Keys == w.threads.Keys
    && forall p :: p in w.pipes ==> Same(w.pipes[p], w'.pipes[p])
  }

  ghost predicate Same<P>(c: Cell<P>, c': Cell<P>) {
    c'.id == c.id && c'.direction == c.direction && c'.total == c.total && c'.readers == c.readers
  }

  /** What may change in a pipe. */
  ghost predicate Still<P>(w: World<P>, c: Cell<P>, c': Cell<P>) {
    && Same(c, c') && |c'.queue| <= c'.total
    && (c'.owner != null ==> c'.owner in w.threads) && (c'.sendingThread != null ==> c'.sendingThread in w.threads)
    && (forall s :: s in c'.senders ==> s in w.pipes)
  }

  lemma StillOk<P>(w: World<P>, w': World<P>)
    requires WorldOk(w) && w'.pipes.Keys == w.pipes.Keys && w'.threads.Keys == w.threads.Keys
    requires forall p :: p in w.pipes ==> Still(w, w.pipes[p], w'.pipes[p])
    ensures WorldOk(w') && Alike(w, w')
  {
    forall q | q in w.pipes
      ensures CellOk(w', q)
    {
      assert CellOk(w, q) && Still(w, w.pipes[q], w'.pipes[q]);
    }
    hide Still;
    hide CellOk;
    assert forall p :: p in w.pipes ==> Same(w.pipes[p], w'.pipes[p]) by {
      forall p | p in w.pipes
        ensures Same(w.pipes[p], w'.pipes[p])
      {
        SameOf(w, w.pipes[p], w'.pipes[p]);
      }
    }
  }

  lemma SameOf<P>(w: World<P>, c: Cell<P>, c': Cell<P>)
    requires Still(w, c, c')
    ensures Same(c, c')
  {
  }

  /** One pipe may change, and the states of the threads. */
  lemma OneOk<P>(w: World<P>, p: P, c: Cell<P>, threads: map<Thread, Mark>)
    requires WorldOk(w) && p in w.pipes && Still(w, w.pipes[p], c) && threads.Keys == w.threads.Keys
    ensures WorldOk(World(w.pipes[p := c], threads)) && Alike(w, World(w.pipes[p := c], threads))
  {
    var w' := World(w.pipes[p := c], threads);
    forall q | q in w.pipes
      ensures Still(w, w.pipes[q], w'.pipes[q])
    {
      assert CellOk(w, q);
    }
    hide Still;
    hide WorldOk;
    StillOk(w, w');
  }

  lemma OfferOk<P>(w: World<P>, p: P, message: Message)
    requires WorldOk(w) && p in w.pipes
    ensures WorldOk(Offer(w, p, message).world) && Alike(w, Offer(w, p, message).world)
  {
    assert CellOk(w, p);
    hide WorldOk;
    var w' := Offer(w, p, message).world;
    OneOk(w, p, w'.pipes[p], w'.threads);
    assert w' == World(w.pipes[p := w'.pipes[p]], w'.threads);
  }

  /** What makes a state that after an offer. */
  lemma OfferIs<P>(w: World<P>, w': World<P>, p: P, message: Message)
    requires p in w.pipes && w.pipes[p].HasRoom()
    requires w'.pipes.Keys == w.pipes.Keys && w'.threads.Keys == w.threads.Keys
    requires forall q :: q in w.pipes && q != p ==> w'.pipes[q] == w.pipes[q]
    requires w'.pipes[p] == CellAfter(w.pipes[p], message, Waits(w, p))
    requires forall t :: t in w.threads ==>
               w'.threads[t] == if Waits(w, p) && (t == w.pipes[p].owner || t in SendersOf(w, p))
                                then WokenMark(w.threads[t]) else w.threads[t]
    ensures w' == Offer(w, p, message).world
  {
    hide Waits;
    hide ReaderWaits;
    hide SendersOf;
    hide WokenMark;
    hide CellAfter;
    assert w'.pipes == Offer(w, p, message).world.pipes;
    assert w'.threads == Offer(w, p, message).world.threads;
  }

  lemma DeliverNext<P>(w: World<P>, rs: seq<P>, message: Message, n: nat)
    requires n <= |rs| && forall p :: p in rs ==> p in w.pipes
    ensures Deliver(w, rs, message, 0) == Change(w, [])
    ensures n < |rs| ==> rs[n] in rs && rs[n] in Deliver(w, rs, message, n).world.pipes
    ensures n < |rs| ==>
              Deliver(w, rs, message, n + 1).world == Offer(Deliver(w, rs, message, n).world, rs[n], message).world
  {
  }

  lemma {:induction false} DeliverOk<P>(w: World<P>, rs: seq<P>, message: Message, n: nat)
    requires WorldOk(w) && n <= |rs| && forall p :: p in rs ==> p in w.pipes
    ensures WorldOk(Deliver(w, rs, message, n).world) && Alike(w, Deliver(w, rs, message, n).world)
  {
    hide WorldOk;
    if n > 0 {
      DeliverOk(w, rs, message, n - 1);
      assert rs[n - 1] in rs;
      OfferOk(Deliver(w, rs, message, n - 1).world, rs[n - 1], message);
    }
  }

  /** What makes a state that after a send that blocks. */
  lemma SendBlockedIs<P>(w: World<P>, w': World<P>, p: P, t: Thread)
    requires p in w.pipes && t in w.threads && p !in w.pipes[p].readers
    requires w'.pipes.Keys == w.pipes.Keys && w'.threads.Keys == w.threads.Keys
    requires w'.pipes[p] == w.pipes[p].(sendingThread := t)
    requires forall q :: q in w.pipes && q != p ==>
               w'.pipes[q] == if q in w.pipes[p].readers && !w.pipes[q].HasRoom()
                              then w.pipes[q].(senders := w.pipes[q].senders + [p]) else w.pipes[q]
    requires forall x :: x in w.threads ==>
               w'.threads[x] == if x == t && CanWait(w.threads[t].state) then Mark(Waiting, w.pipes[p].id, false)
                                else w.threads[x]
    ensures w' == SendBlocked(w, p, t).world
  {
    assert w'.pipes == SendBlocked(w, p, t).world.pipes;
    assert w'.threads == SendBlocked(w, p, t).world.threads;
  }

  lemma SendBlockedOk<P>(w: World<P>, p: P, t: Thread)
    requires WorldOk(w) && p in w.pipes && t in w.threads
    ensures WorldOk(SendBlocked(w, p, t).world) && Alike(w, SendBlocked(w, p, t).world)
  {
    var w' := SendBlocked(w, p, t).world;
    forall q | q in w.pipes
      ensures Still(w, w.pipes[q], w'.pipes[q])
    {
      assert CellOk(w, q);
    }
    hide Still;
    hide WorldOk;
    StillOk(w, w');
  }

  /** A read takes a message. */
  ghost predicate Takes<P>(c: Cell<P>, max: nat) {
    c.IsReceiver() && c.queue != [] && |c.queue[0]| <= max
  }

  /** A read blocks. */
  ghost predicate BlocksRead<P>(c: Cell<P>, block: bool) {
    c.IsReceiver() && c.queue == [] && block
  }

  /** What makes a state that after a read. */
  lemma ReceiveIs<P>(w: World<P>, w': World<P>, p: P, t: Thread, max: nat, block: bool)
    requires p in w.pipes && t in w.threads
    requires w'.pipes.Keys == w.pipes.Keys && w'.threads.Keys == w.threads.Keys
    requires forall q :: q in w.pipes && q != p ==> w'.pipes[q] == w.pipes[q]
    requires w'.pipes[p] == ReadCell(w.pipes[p], t, max, block)
    requires forall x :: x in w.threads ==>
               w'.threads[x] == ReadMark(w.threads[x], w.pipes[p], max, block, x in SendersOf(w, p), x == t)
    ensures w' == Receive(w, p, t, max, block).world
  {
    hide SendersOf;
    hide WokenMark;
    var v := Receive(w, p, t, max, block).world;
    assert w'.pipes == v.pipes;
    assert w'.threads == v.threads;
  }

  /** A pipe after a read. */
  ghost function ReadCell<P>(c: Cell<P>, t: Thread, max: nat, block: bool): Cell<P> {
    if Takes(c, max) then c.(queue := c.queue[1..]) else if BlocksRead(c, block) then c.(owner := t) else c
  }

  /** A thread after a read of the pipe: one that blocked in sending there, the one that reads, or another. */
  ghost function ReadMark<P>(m: Mark, c: Cell<P>, max: nat, block: bool, sender: bool, reader: bool): Mark {
    if Takes(c, max) then if sender then WokenMark(m) else m
    else if BlocksRead(c, block) && reader && CanWait(m.state) then Mark(Waiting, c.id, true)
    else m
  }

  lemma ReceiveOk<P>(w: World<P>, p: P, t: Thread, max: nat, block: bool)
    requires WorldOk(w) && p in w.pipes && t in w.threads
    ensures WorldOk(Receive(w, p, t, max, block).world) && Alike(w, Receive(w, p, t, max, block).world)
  {
    assert CellOk(w, p);
    hide WorldOk;
    var w' := Receive(w, p, t, max, block).world;
    OneOk(w, p, w'.pipes[p], w'.threads);
    assert w' == World(w.pipes[p := w'.pipes[p]], w'.threads);
  }

  lemma SendOk<P>(w: World<P>, p: P, t: Thread, kind: SendKind, message: Message, block: bool)
    requires WorldOk(w) && p in w.pipes && t in w.threads && forall q :: q in w.pipes[p].readers ==> q in w.pipes
    ensures WorldOk(Send(w, p, t, kind, message, block).world) && Alike(w, Send(w, p, t, kind, message, block).world)
  {
    hide WorldOk;
    hide Deliver;
    hide SendBlocked;
    hide AllRoom;
    DeliverOk(w, w.pipes[p].readers, message, |w.pipes[p].readers|);
    SendBlockedOk(w, p, t);
  }

  /** The pipe and the thread of a call are there, and so are the receivers of the pipe. */
  lemma CallOk<P>(w: World<P>, ps: seq<P>, pool: seq<Thread>, i: nat)
    requires WorldOk(w) && Names(w, ps, pool) && i < |ps|
    ensures ps[i] in w.pipes && forall q :: q in w.pipes[ps[i]].readers ==> q in w.pipes
  {
    assert ps[i] in ps && CellOk(w, ps[i]);
  }

  lemma DoOk<P>(w: World<P>, call: PipeCall, ps: seq<P>, pool: seq<Thread>)
    requires WorldOk(w) && Names(w, ps, pool)
    ensures WorldOk(Do(w, call, ps, pool).world) && Alike(w, Do(w, call, ps, pool).world)
  {
    hide WorldOk;
    hide Send;
    hide Receive;
    if call.thread < |pool| && call.pipe < |ps| {
      var t := pool[call.thread];
      match call
      case SendCall(_, i, kind, message, block) =>
        CallOk(w, ps, pool, i);
        SendOk(w, ps[i], t, kind, message, block);
      case ReceiveCall(_, i, max, block) =>
        ReceiveOk(w, ps[i], t, max, block);
    }
  }
}
