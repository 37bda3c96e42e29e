/** What holds of every run of sends and reads over the pipes of a kernel, stated on the trace of the run. */
module PipeHistory {
  import opened PipeRing
  import opened Schedulers
  import opened PipeModel

  // ---------------------------------------------------------------- runs and their traces

  /** The pipes and threads after the first `n` calls. */
  ghost function After<P>(w: World<P>, calls: seq<PipeCall>, ps: seq<P>, pool: seq<Thread>, n: nat): (r: World<P>)
    requires WorldOk(w) && Names(w, ps, pool) && n <= |calls|
    ensures WorldOk(r) && Alike(w, r) && Names(r, ps, pool)
  {
    if n == 0 then w
    else
      var v := After(w, calls, ps, pool, n - 1);
      AlikeNext(w, v, calls[n - 1], ps, pool);
      Do(v, calls[n - 1], ps, pool).world
  }

  lemma AlikeNext<P>(w: World<P>, v: World<P>, call: PipeCall, ps: seq<P>, pool: seq<Thread>)
    requires WorldOk(v) && Names(v, ps, pool) && Alike(w, v)
    ensures WorldOk(Do(v, call, ps, pool).world) && Names(Do(v, call, ps, pool).world, ps, pool)
    ensures Alike(w, Do(v, call, ps, pool).world)
  {
    hide WorldOk;
    hide Do;
    DoOk(v, call, ps, pool);
  }

  /** The trace of a run, an entry for each call. */
  ghost function Trace<P>(w: World<P>, calls: seq<PipeCall>, ps: seq<P>, pool: seq<Thread>, n: nat)
    : (r: seq<Entry<P>>)
    requires WorldOk(w) && Names(w, ps, pool) && n <= |calls|
    ensures |r| == n
  {
    if n == 0 then []
    else Trace(w, calls, ps, pool, n - 1) + [Do(After(w, calls, ps, pool, n - 1), calls[n - 1], ps, pool).entry]
  }

  lemma RunNext<P>(w: World<P>, calls: seq<PipeCall>, ps: seq<P>, pool: seq<Thread>, n: nat)
    requires WorldOk(w) && Names(w, ps, pool) && n < |calls|
    ensures var d := Do(After(w, calls, ps, pool, n), calls[n], ps, pool);
            && After(w, calls, ps, pool, n + 1) == d.world
            && Trace(w, calls, ps, pool, n + 1) == Trace(w, calls, ps, pool, n) + [d.entry]
  {
  }

  /** Entry `j` is what call `j` gave in the state that the calls before it left. */
  lemma {:induction false} TraceAt<P>(w: World<P>, calls: seq<PipeCall>, ps: seq<P>, pool: seq<Thread>, n: nat,
                                      j: nat)
    requires WorldOk(w) && Names(w, ps, pool) && j < n <= |calls|
    ensures Trace(w, calls, ps, pool, n)[j] == Do(After(w, calls, ps, pool, j), calls[j], ps, pool).entry
  {
    hide WorldOk;
    hide Do;
    hide After;
    hide Trace;
    RunNext(w, calls, ps, pool, n - 1);
    if j < n - 1 {
      TraceAt(w, calls, ps, pool, n - 1, j);
    }
  }

  /** All that happened, in order. */
  ghost function Events<P>(trace: seq<Entry<P>>): seq<Event<P>> {
    if trace == [] then [] else Events(trace[..|trace| - 1]) + trace[|trace| - 1].events
  }

  /** The messages a pipe accepted. */
  ghost function Sent<P>(events: seq<Event<P>>, p: P): seq<Message> {
    if events == [] then []
    else
      var e := events[|events| - 1];
      Sent(events[..|events| - 1], p) + if e.Accepted? && e.pipe == p then [e.message] else []
  }

  /** The messages that were read from a pipe, or handed to the thread noted there. */
  ghost function Got<P>(events: seq<Event<P>>, p: P): seq<Message> {
    if events == [] then []
    else
      var e := events[|events| - 1];
      Got(events[..|events| - 1], p) + if (e.Handed? || e.Read?) && e.pipe == p then [e.message] else []
  }

  lemma {:induction false} SentPlus<P>(a: seq<Event<P>>, b: seq<Event<P>>, p: P)
    ensures Sent(a + b, p) == Sent(a, p) + Sent(b, p)
  {
    if b == [] {
      assert a + b == a;
    } else {
      SentPlus(a, b[..|b| - 1], p);
      assert (a + b)[..|a + b| - 1] == a + b[..|b| - 1];
    }
  }

  lemma {:induction false} GotPlus<P>(a: seq<Event<P>>, b: seq<Event<P>>, p: P)
    ensures Got(a + b, p) == Got(a, p) + Got(b, p)
  {
    if b == [] {
      assert a + b == a;
    } else {
      GotPlus(a, b[..|b| - 1], p);
      assert (a + b)[..|a + b| - 1] == a + b[..|b| - 1];
    }
  }

  // ---------------------------------------------------------------- no message is lost, doubled or out of order

  /** What a pipe held and accepted is what it gave away, in that order, and what it holds. */
  ghost predicate Balanced<P>(w: World<P>, w': World<P>, events: seq<Event<P>>, p: P) {
    p in w.pipes && p in w'.pipes && w.pipes[p].queue + Sent(events, p) == Got(events, p) + w'.pipes[p].queue
  }

  lemma BalancedNext<P>(w: World<P>, v: World<P>, w': World<P>, a: seq<Event<P>>, b: seq<Event<P>>, p: P)
    requires Balanced(w, v, a, p) && Balanced(v, w', b, p)
    ensures Balanced(w, w', a + b, p)
  {
    SentPlus(a, b, p);
    GotPlus(a, b, p);
    Chain(w.pipes[p].queue, Sent(a, p), Sent(b, p), Got(a, p), v.pipes[p].queue, Got(b, p), w'.pipes[p].queue);
  }

  lemma Chain(q: seq<Message>, s: seq<Message>, s': seq<Message>, g: seq<Message>, r: seq<Message>, g': seq<Message>,
              q': seq<Message>)
    requires q + s == g + r && r + s' == g' + q'
    ensures q + (s + s') == (g + g') + q'
  {
    calc {
      q + (s + s');
      (q + s) + s';
      (g + r) + s';
      g + (r + s');
      (g + g') + q';
    }
  }

  lemma None<P>(p: P)
    ensures Sent<P>([], p) == [] && Got<P>([], p) == []
  {
  }

  lemma One<P>(e: Event<P>, p: P)
    ensures Sent([e], p) == if e.Accepted? && e.pipe == p then [e.message] else []
    ensures Got([e], p) == if (e.Handed? || e.Read?) && e.pipe == p then [e.message] else []
  {
    assert [e][..0] == [];
  }

  /** One message came, or one went, or both, or none. */
  lemma MovedBalanced<P>(w: World<P>, w': World<P>, events: seq<Event<P>>, p: P, came: seq<Message>, went: seq<Message>)
    requires p in w.pipes && p in w'.pipes && Sent(events, p) == came && Got(events, p) == went
    requires w.pipes[p].queue + came == went + w'.pipes[p].queue
    ensures Balanced(w, w', events, p)
  {
  }

  lemma Two<P>(e: Event<P>, f: Event<P>, p: P)
    ensures Sent([e, f], p) == Sent([e], p) + Sent([f], p) && Got([e, f], p) == Got([e], p) + Got([f], p)
  {
    assert [e, f] == [e] + [f];
    SentPlus([e], [f], p);
    GotPlus([e], [f], p);
  }

  lemma Queues(q: seq<Message>, m: Message)
    ensures q + [m] == [(q + [m])[0]] + (q + [m])[1..] && q + [m] == [] + (q + [m]) && q + [] == [] + q
  {
  }

  lemma OfferBalanced<P>(w: World<P>, r: P, message: Message, p: P)
    requires r in w.pipes && p in w.pipes
    ensures Balanced(w, Offer(w, r, message).world, Offer(w, r, message).events, p)
  {
    hide Waits;
    hide ReaderWaits;
    hide Awaken;
    hide SendersOf;
    hide Sent;
    hide Got;
    hide Balanced;
    var d := Offer(w, r, message);
    var c, c' := w.pipes[p], d.world.pipes[p];
    Queues(c.queue, message);
    if !w.pipes[r].HasRoom() {
      None(p);
      MovedBalanced(w, d.world, [], p, [], []);
    } else {
      One<P>(Accepted(r, message), p);
      if Waits(w, r) {
        One(d.events[1], p);
        Two(d.events[0], d.events[1], p);
      }
      if p != r {
        MovedBalanced(w, d.world, d.events, p, [], []);
      } else if Waits(w, r) {
        MovedBalanced(w, d.world, d.events, p, [message], [c'.handed]);
      } else {
        MovedBalanced(w, d.world, d.events, p, [message], []);
      }
    }
  }

  lemma {:induction false} DeliverBalanced<P>(w: World<P>, rs: seq<P>, message: Message, n: nat, p: P)
    requires n <= |rs| && p in w.pipes && forall r :: r in rs ==> r in w.pipes
    ensures Balanced(w, Deliver(w, rs, message, n).world, Deliver(w, rs, message, n).events, p)
  {
    hide Offer;
    hide Balanced;
    if n == 0 {
      Unmoved(w, w, [], p);
    } else {
      assert rs[n - 1] in rs;
      var a := Deliver(w, rs, message, n - 1);
      var b := Offer(a.world, rs[n - 1], message);
      DeliverBalanced(w, rs, message, n - 1, p);
      OfferBalanced(a.world, rs[n - 1], message, p);
      BalancedNext(w, a.world, b.world, a.events, b.events, p);
    }
  }

  /** Where a thread blocks at most, no message moves. */
  lemma Unmoved<P>(w: World<P>, w': World<P>, events: seq<Event<P>>, p: P)
    requires p in w.pipes && p in w'.pipes && w'.pipes[p].queue == w.pipes[p].queue
    requires |events| <= 1 && (events != [] ==> events[0].Blocked?)
    ensures Balanced(w, w', events, p)
  {
    None(p);
    if events != [] {
      One(events[0], p);
      assert events == [events[0]];
    }
  }

  lemma SendBalanced<P>(w: World<P>, q: P, t: Thread, kind: SendKind, message: Message, block: bool, p: P)
    requires q in w.pipes && t in w.threads && (forall r :: r in w.pipes[q].readers ==> r in w.pipes) && p in w.pipes
    ensures var d := Send(w, q, t, kind, message, block); Balanced(w, d.world, d.entry.events, p)
  {
    hide Deliver;
    hide Balanced;
    hide AllRoom;
    var d := Send(w, q, t, kind, message, block);
    if d.entry.result == NoError {
      DeliverBalanced(w, w.pipes[q].readers, message, |w.pipes[q].readers|, p);
    } else {
      Unmoved(w, d.world, d.entry.events, p);
    }
  }

  lemma ReceiveBalanced<P>(w: World<P>, q: P, t: Thread, max: nat, block: bool, p: P)
    requires q in w.pipes && t in w.threads && p in w.pipes
    ensures var d := Receive(w, q, t, max, block); Balanced(w, d.world, d.entry.events, p)
  {
    hide Awaken;
    hide SendersOf;
    hide Sent;
    hide Got;
    hide Balanced;
    var d := Receive(w, q, t, max, block);
    if d.entry.events != [] && d.entry.events[0].Read? {
      var e := d.entry.events[0];
      One(e, p);
      assert w.pipes[q].queue == [w.pipes[q].queue[0]] + w.pipes[q].queue[1..];
      assert w.pipes[p].queue + [] == w.pipes[p].queue && [] + w.pipes[p].queue == w.pipes[p].queue;
      MovedBalanced(w, d.world, [e], p, [], Got([e], p));
    } else {
      Unmoved(w, d.world, d.entry.events, p);
    }
  }

  lemma DoBalanced<P>(w: World<P>, call: PipeCall, ps: seq<P>, pool: seq<Thread>, p: P)
    requires WorldOk(w) && Names(w, ps, pool) && p in w.pipes
    ensures var d := Do(w, call, ps, pool); Balanced(w, d.world, d.entry.events, p)
  {
    hide WorldOk;
    hide Balanced;
    hide Send;
    hide Receive;
    if call.thread >= |pool| || call.pipe >= |ps| {
      Unmoved(w, w, [], p);
    } else {
      var t := pool[call.thread];
      match call
      case SendCall(_, i, kind, message, block) =>
        CallOk(w, ps, pool, i);
        SendBalanced(w, ps[i], t, kind, message, block, p);
      case ReceiveCall(_, i, max, block) =>
        ReceiveBalanced(w, ps[i], t, max, block, p);
    }
  }

  /**
    Over any run, what the readers of a pipe got is what the pipe held and accepted, in that order and once each, up to
    the messages that are still in it, which are no more than it has slots.
   */
  lemma {:induction false} RunBalanced<P>(w: World<P>, calls: seq<PipeCall>, ps: seq<P>, pool: seq<Thread>, n: nat,
                                          p: P)
    requires WorldOk(w) && Names(w, ps, pool) && n <= |calls| && p in w.pipes
    ensures var events, w' := Events(Trace(w, calls, ps, pool, n)), After(w, calls, ps, pool, n);
            && w.pipes[p].queue + Sent(events, p) == Got(events, p) + w'.pipes[p].queue
            && |w'.pipes[p].queue| <= w.pipes[p].total
  {
    RunBalances(w, calls, ps, pool, n, p);
    var w' := After(w, calls, ps, pool, n);
    assert CellOk(w', p) && Same(w.pipes[p], w'.pipes[p]);
  }

  lemma {:induction false} RunBalances<P>(w: World<P>, calls: seq<PipeCall>, ps: seq<P>, pool: seq<Thread>, n: nat,
                                          p: P)
    requires WorldOk(w) && Names(w, ps, pool) && n <= |calls| && p in w.pipes
    ensures Balanced(w, After(w, calls, ps, pool, n), Events(Trace(w, calls, ps, pool, n)), p)
  {
    hide WorldOk;
    hide Balanced;
    hide Do;
    if n == 0 {
      Unmoved(w, w, [], p);
    } else {
      RunBalances(w, calls, ps, pool, n - 1, p);
      var v := After(w, calls, ps, pool, n - 1);
      DoBalanced(v, calls[n - 1], ps, pool, p);
      EventsNext(Trace(w, calls, ps, pool, n - 1), Do(v, calls[n - 1], ps, pool).entry);
      BalancedNext(w, v, Do(v, calls[n - 1], ps, pool).world, Events(Trace(w, calls, ps, pool, n - 1)),
                   Do(v, calls[n - 1], ps, pool).entry.events, p);
    }
  }

  lemma EventsNext<P>(trace: seq<Entry<P>>, e: Entry<P>)
    ensures Events(trace + [e]) == Events(trace) + e.events
  {
    assert (trace + [e])[..|trace|] == trace;
  }

  // ---------------------------------------------------------------- no reader waits for a message that is there

  /** A thread is blocked in a read of a pipe that holds a message. */
  ghost predicate Missed<P>(w: World<P>, p: P) {
    p in w.pipes && ReaderWaits(w, p) && w.pipes[p].queue != []
  }

  ghost predicate NoneMissed<P>(w: World<P>) {
    forall p :: p in w.pipes ==> !Missed(w, p)
  }

  /** The thread is as it was, or was woken. */
  ghost predicate WokenOrNot(m: Mark, m': Mark) { m' == m || m' == WokenMark(m) }

  lemma OfferMisses<P>(w: World<P>, r: P, message: Message)
    requires WorldOk(w) && r in w.pipes && NoneMissed(w)
    ensures NoneMissed(Offer(w, r, message).world)
  {
    var w' := Offer(w, r, message).world;
    forall p | p in w'.pipes
      ensures !Missed(w', p)
    {
      assert CellOk(w, p) && !Missed(w, p);
      hide WorldOk;
      hide SendersOf;
    }
  }

  lemma {:induction false} DeliverMisses<P>(w: World<P>, rs: seq<P>, message: Message, n: nat)
    requires WorldOk(w) && n <= |rs| && (forall r :: r in rs ==> r in w.pipes) && NoneMissed(w)
    ensures NoneMissed(Deliver(w, rs, message, n).world)
  {
    hide WorldOk;
    hide NoneMissed;
    hide Offer;
    if n > 0 {
      assert rs[n - 1] in rs;
      DeliverMisses(w, rs, message, n - 1);
      DeliverOk(w, rs, message, n - 1);
      OfferMisses(Deliver(w, rs, message, n - 1).world, rs[n - 1], message);
    }
  }

  lemma SendMisses<P>(w: World<P>, q: P, t: Thread, kind: SendKind, message: Message, block: bool)
    requires WorldOk(w) && q in w.pipes && t in w.threads && forall r :: r in w.pipes[q].readers ==> r in w.pipes
    requires NoneMissed(w)
    ensures NoneMissed(Send(w, q, t, kind, message, block).world)
  {
    hide Deliver;
    hide AllRoom;
    hide WorldOk;
    hide SendBlocked;
    hide NoneMissed;
    DeliverMisses(w, w.pipes[q].readers, message, |w.pipes[q].readers|);
    BlockedMisses(w, q, t);
  }

  lemma BlockedMisses<P>(w: World<P>, q: P, t: Thread)
    requires q in w.pipes && t in w.threads && NoneMissed(w)
    ensures NoneMissed(SendBlocked(w, q, t).world)
  {
    var w' := SendBlocked(w, q, t).world;
    forall p | p in w'.pipes
      ensures !Missed(w', p)
    {
      assert !Missed(w, p);
    }
  }

  lemma ReceiveMisses<P>(w: World<P>, q: P, t: Thread, max: nat, block: bool)
    requires WorldOk(w) && q in w.pipes && t in w.threads && NoneMissed(w)
    ensures NoneMissed(Receive(w, q, t, max, block).world)
  {
    var w' := Receive(w, q, t, max, block).world;
    forall p | p in w'.pipes
      ensures !Missed(w', p)
    {
      assert CellOk(w, p) && !Missed(w, p) && (w.pipes[p].id == w.pipes[q].id ==> p == q);
      hide WorldOk;
      hide SendersOf;
    }
  }

  lemma DoMisses<P>(w: World<P>, call: PipeCall, ps: seq<P>, pool: seq<Thread>)
    requires WorldOk(w) && Names(w, ps, pool) && NoneMissed(w)
    ensures NoneMissed(Do(w, call, ps, pool).world)
  {
    hide WorldOk;
    hide NoneMissed;
    hide Send;
    hide Receive;
    if call.thread < |pool| && call.pipe < |ps| {
      var t := pool[call.thread];
      match call
      case SendCall(_, i, kind, message, block) =>
        CallOk(w, ps, pool, i);
        SendMisses(w, ps[i], t, kind, message, block);
      case ReceiveCall(_, i, max, block) =>
        ReceiveMisses(w, ps[i], t, max, block);
    }
  }

  /** Over any run, no thread noted at a pipe is left blocked in a read while the pipe holds a message. */
  lemma {:induction false} RunMisses<P>(w: World<P>, calls: seq<PipeCall>, ps: seq<P>, pool: seq<Thread>, n: nat)
    requires WorldOk(w) && Names(w, ps, pool) && n <= |calls| && NoneMissed(w)
    ensures NoneMissed(After(w, calls, ps, pool, n))
  {
    hide WorldOk;
    hide NoneMissed;
    hide Do;
    if n > 0 {
      RunMisses(w, calls, ps, pool, n - 1);
      DoMisses(After(w, calls, ps, pool, n - 1), calls[n - 1], ps, pool);
    }
  }

  // ---------------------------------------------------------------- who gets what is handed over

  /** How a thread came to wait on a pipe: in a read or in sending. */
  datatype Cause<P> = Unknown | BlockedAt(pipe: P, reading: bool)

  ghost function CauseBy<P>(before: Cause<P>, e: Event<P>, t: Thread): Cause<P> {
    match e
    case Blocked(p, x, reading) => if x == t then BlockedAt(p, reading) else before
    case _ => before
  }

  /** The last time the thread blocked at a pipe. */
  ghost function CauseOf<P>(events: seq<Event<P>>, t: Thread): Cause<P> {
    if events == [] then Unknown else CauseBy(CauseOf(events[..|events| - 1], t), events[|events| - 1], t)
  }

  lemma CauseNext<P>(events: seq<Event<P>>, e: Event<P>, t: Thread)
    ensures CauseOf(events + [e], t) == CauseBy(CauseOf(events, t), e, t)
  {
    assert (events + [e])[..|events|] == events;
  }

  /** A thread that waits on a pipe blocked there last, in a read or in sending as it says. */
  ghost predicate Explained<P>(w: World<P>, events: seq<Event<P>>) {
    forall t :: t in w.threads ==> ExplainedBy(w, w.threads[t], CauseOf(events, t))
  }

  ghost predicate ExplainedBy<P>(w: World<P>, m: Mark, cause: Cause<P>) {
    match cause
    case Unknown => forall p :: p in w.pipes ==> m.waitingOn != w.pipes[p].id
    case BlockedAt(p, reading) =>
      && p in w.pipes && (reading || w.pipes[p].IsSender())
      && (m.waitingOn == 0 || (m.waitingOn == w.pipes[p].id && m.state == Waiting && m.reading == reading))
  }

  /**
    A message is handed to a thread that blocked at that very pipe last.  It goes to a thread blocked in a read exactly
    if that was how the thread blocked; on a pipe that only receives there is no other way.
   */
  ghost predicate HandedOk<P>(w: World<P>, e: Event<P>, cause: Cause<P>) {
    e.Handed? ==>
      && e.pipe in w.pipes && cause == BlockedAt(e.pipe, e.toReader) && (e.toReader || w.pipes[e.pipe].IsSender())
  }

  ghost predicate AllHandedOk<P>(w: World<P>, events: seq<Event<P>>) {
    forall k :: 0 <= k < |events| && events[k].Handed? ==>
      HandedOk(w, events[k], CauseOf(events[..k], events[k].thread))
  }

  lemma HandedNext<P>(w: World<P>, events: seq<Event<P>>, e: Event<P>)
    requires AllHandedOk(w, events) && (e.Handed? ==> HandedOk(w, e, CauseOf(events, e.thread)))
    ensures AllHandedOk(w, events + [e])
  {
    hide HandedOk;
    var all := events + [e];
    forall k | 0 <= k < |all| && all[k].Handed?
      ensures HandedOk(w, all[k], CauseOf(all[..k], all[k].thread))
    {
      assert all[..k] == events[..k];
    }
  }

  lemma HandedAlike<P>(w: World<P>, w': World<P>, events: seq<Event<P>>)
    requires AllHandedOk(w, events) && Alike(w, w')
    ensures AllHandedOk(w', events)
  {
    forall k | 0 <= k < |events| && events[k].Handed?
      ensures HandedOk(w', events[k], CauseOf(events[..k], events[k].thread))
    {
      assert HandedOk(w, events[k], CauseOf(events[..k], events[k].thread));
      assert Same(w.pipes[events[k].pipe], w'.pipes[events[k].pipe]);
    }
  }

  /** The trace explains the state, and every hand-over is in order. */
  ghost predicate History<P>(w: World<P>, events: seq<Event<P>>) {
    Explained(w, events) && AllHandedOk(w, events)
  }

  /** An event that blocks no thread, while threads may be woken. */
  lemma QuietNext<P>(w: World<P>, w': World<P>, events: seq<Event<P>>, e: Event<P>)
    requires WorldOk(w) && History(w, events) && Alike(w, w') && !e.Blocked?
    requires forall t :: t in w.threads ==> WokenOrNot(w.threads[t], w'.threads[t])
    requires e.Handed? ==> HandedOk(w, e, CauseOf(events, e.thread))
    ensures History(w', events + [e])
  {
    HandedNext(w, events, e);
    HandedAlike(w, w', events + [e]);
    Numbered(w);
    hide WorldOk;
    hide AllHandedOk;
    hide HandedOk;
    forall t | t in w'.threads
      ensures ExplainedBy(w', w'.threads[t], CauseOf(events + [e], t))
    {
      CauseNext(events, e, t);
      StillExplained(w, w', t, CauseOf(events, t));
    }
  }

  lemma Numbered<P>(w: World<P>)
    requires WorldOk(w)
    ensures forall p :: p in w.pipes ==> w.pipes[p].id > 0
  {
    forall p | p in w.pipes
      ensures w.pipes[p].id > 0
    {
      assert CellOk(w, p);
    }
  }

  lemma StillExplained<P>(w: World<P>, w': World<P>, t: Thread, cause: Cause<P>)
    requires Alike(w, w') && t in w.threads && t in w'.threads && WokenOrNot(w.threads[t], w'.threads[t])
    requires ExplainedBy(w, w.threads[t], cause) && forall p :: p in w.pipes ==> w.pipes[p].id > 0
    ensures ExplainedBy(w', w'.threads[t], cause)
  {
    if cause.BlockedAt? {
      assert Same(w.pipes[cause.pipe], w'.pipes[cause.pipe]);
    }
  }

  /** Nothing that concerns the threads. */
  lemma SameHistory<P>(w: World<P>, w': World<P>, events: seq<Event<P>>)
    requires WorldOk(w) && History(w, events) && Alike(w, w')
    requires forall t :: t in w.threads ==> WokenOrNot(w.threads[t], w'.threads[t])
    ensures History(w', events)
  {
    HandedAlike(w, w', events);
    Numbered(w);
    hide WorldOk;
    hide AllHandedOk;
    forall t | t in w'.threads
      ensures ExplainedBy(w', w'.threads[t], CauseOf(events, t))
    {
      StillExplained(w, w', t, CauseOf(events, t));
    }
  }

  /** A thread that waits on a pipe where it is noted last blocked there. */
  lemma WaitExplained<P>(w: World<P>, events: seq<Event<P>>, p: P)
    requires WorldOk(w) && Explained(w, events) && p in w.pipes && Waits(w, p)
    ensures CauseOf(events, w.pipes[p].owner) == BlockedAt(p, ReaderWaits(w, p))
    ensures ReaderWaits(w, p) || w.pipes[p].IsSender()
  {
    var t := w.pipes[p].owner;
    assert CellOk(w, p) && ExplainedBy(w, w.threads[t], CauseOf(events, t));
  }

  /** A message that is handed over. */
  lemma GiveHistory<P>(w: World<P>, w': World<P>, p: P, message: Message, e: Event<P>, events: seq<Event<P>>)
    requires WorldOk(w) && p in w.pipes && History(w, events) && Alike(w, w') && Waits(w, p)
    requires forall t :: t in w.threads ==> WokenOrNot(w.threads[t], w'.threads[t])
    requires e.Handed? && e.pipe == p && e.thread == w.pipes[p].owner && e.toReader == ReaderWaits(w, p)
    ensures History(w', events + [Accepted(p, message), e])
  {
    assert Explained(w, events);
    WaitExplained(w, events, p);
    hide WorldOk;
    hide History;
    hide Waits;
    hide ReaderWaits;
    hide CauseOf;
    var took := Accepted(p, message);
    QuietNext(w, w, events, took);
    CauseNext(events, took, w.pipes[p].owner);
    QuietNext(w, w', events + [took], e);
    assert events + [took, e] == events + [took] + [e];
  }

  lemma OfferHistory<P>(w: World<P>, p: P, message: Message, events: seq<Event<P>>)
    requires WorldOk(w) && p in w.pipes && History(w, events)
    ensures History(Offer(w, p, message).world, events + Offer(w, p, message).events)
  {
    hide WorldOk;
    hide History;
    hide SendersOf;
    hide ReaderWaits;
    hide Alike;
    var d := Offer(w, p, message);
    OfferOk(w, p, message);
    if !w.pipes[p].HasRoom() {
      assert events + d.events == events;
    } else if Waits(w, p) {
      GiveHistory(w, d.world, p, message, d.events[1], events);
    } else {
      QuietNext(w, d.world, events, d.events[0]);
    }
  }

  lemma {:induction false} DeliverHistory<P>(w: World<P>, rs: seq<P>, message: Message, n: nat, events: seq<Event<P>>)
    requires WorldOk(w) && n <= |rs| && (forall r :: r in rs ==> r in w.pipes) && History(w, events)
    ensures History(Deliver(w, rs, message, n).world, events + Deliver(w, rs, message, n).events)
  {
    hide WorldOk;
    hide History;
    hide Offer;
    if n == 0 {
      assert events + [] == events;
    } else {
      assert rs[n - 1] in rs;
      var a := Deliver(w, rs, message, n - 1);
      DeliverHistory(w, rs, message, n - 1, events);
      DeliverOk(w, rs, message, n - 1);
      OfferHistory(a.world, rs[n - 1], message, events + a.events);
      assert events + (a.events + Offer(a.world, rs[n - 1], message).events)
             == events + a.events + Offer(a.world, rs[n - 1], message).events;
    }
  }

  lemma BlockHistory<P>(w: World<P>, p: P, t: Thread, reading: bool, events: seq<Event<P>>)
    requires WorldOk(w) && p in w.pipes && t in w.threads && History(w, events) && (reading || w.pipes[p].IsSender())
    ensures History(BlockAt(w, p, t, reading).world, events + BlockAt(w, p, t, reading).events)
  {
    var d := BlockAt(w, p, t, reading);
    hide WorldOk;
    if CanWait(w.threads[t].state) {
      HandedNext(w, events, d.events[0]);
      HandedAlike(w, d.world, events + d.events);
      hide AllHandedOk;
      forall x | x in d.world.threads
        ensures ExplainedBy(d.world, d.world.threads[x], CauseOf(events + d.events, x))
      {
        assert ExplainedBy(w, w.threads[x], CauseOf(events, x));
        CauseNext(events, d.events[0], x);
      }
    } else {
      assert events + [] == events;
    }
  }

  lemma SendHistory<P>(w: World<P>, p: P, t: Thread, kind: SendKind, message: Message, block: bool,
                       events: seq<Event<P>>)
    requires WorldOk(w) && p in w.pipes && t in w.threads && forall r :: r in w.pipes[p].readers ==> r in w.pipes
    requires History(w, events)
    ensures var d := Send(w, p, t, kind, message, block); History(d.world, events + d.entry.events)
  {
    hide Deliver;
    hide AllRoom;
    hide WorldOk;
    hide SendBlocked;
    hide History;
    assert events + [] == events;
    DeliverHistory(w, w.pipes[p].readers, message, |w.pipes[p].readers|, events);
    if w.pipes[p].IsSender() {
      BlockedHistory(w, p, t, events);
    }
  }

  lemma BlockedHistory<P>(w: World<P>, p: P, t: Thread, events: seq<Event<P>>)
    requires WorldOk(w) && p in w.pipes && t in w.threads && History(w, events) && w.pipes[p].IsSender()
    ensures History(SendBlocked(w, p, t).world, events + SendBlocked(w, p, t).events)
  {
    var c := w.pipes[p];
    var v := World(Noted(w.pipes[p := c.(sendingThread := t)], p), w.threads);
    SendBlockedOk(w, p, t);
    assert Alike(w, v);
    SameHistory(w, v, events);
    assert WorldOk(v) by {
      forall q | q in w.pipes
        ensures Still(w, w.pipes[q], v.pipes[q])
      {
        assert CellOk(w, q);
      }
      StillOk(w, v);
    }
    BlockHistory(v, p, t, false, events);
  }

  lemma ReceiveHistory<P>(w: World<P>, p: P, t: Thread, max: nat, block: bool, events: seq<Event<P>>)
    requires WorldOk(w) && p in w.pipes && t in w.threads && History(w, events)
    ensures var d := Receive(w, p, t, max, block); History(d.world, events + d.entry.events)
  {
    hide SendersOf;
    var c := w.pipes[p];
    var d := Receive(w, p, t, max, block);
    assert events + [] == events;
    ReceiveOk(w, p, t, max, block);
    if !c.IsReceiver() {
    } else if c.queue != [] {
      hide WorldOk;
      if |c.queue[0]| <= max {
        QuietNext(w, d.world, events, d.entry.events[0]);
      }
    } else if block {
      assert CellOk(w, p);
      var v := World(w.pipes[p := c.(owner := t)], w.threads);
      OneOk(w, p, c.(owner := t), w.threads);
      hide WorldOk;
      SameHistory(w, v, events);
      BlockHistory(v, p, t, true, events);
    }
  }

  lemma DoHistory<P>(w: World<P>, call: PipeCall, ps: seq<P>, pool: seq<Thread>, events: seq<Event<P>>)
    requires WorldOk(w) && Names(w, ps, pool) && History(w, events)
    ensures var d := Do(w, call, ps, pool); History(d.world, events + d.entry.events)
  {
    hide WorldOk;
    hide History;
    hide Send;
    hide Receive;
    if call.thread < |pool| && call.pipe < |ps| {
      var t := pool[call.thread];
      match call
      case SendCall(_, i, kind, message, block) =>
        CallOk(w, ps, pool, i);
        SendHistory(w, ps[i], t, kind, message, block, events);
      case ReceiveCall(_, i, max, block) =>
        ReceiveHistory(w, ps[i], t, max, block, events);
    } else {
      assert events + [] == events;
    }
  }

  lemma {:induction false} RunHistory<P>(w: World<P>, calls: seq<PipeCall>, ps: seq<P>, pool: seq<Thread>, n: nat,
                                         past: seq<Event<P>>)
    requires WorldOk(w) && Names(w, ps, pool) && n <= |calls| && History(w, past)
    ensures History(After(w, calls, ps, pool, n), past + Events(Trace(w, calls, ps, pool, n)))
  {
    hide WorldOk;
    hide History;
    hide Do;
    if n == 0 {
      assert past + [] == past;
    } else {
      RunHistory(w, calls, ps, pool, n - 1, past);
      var v, trace := After(w, calls, ps, pool, n - 1), Trace(w, calls, ps, pool, n - 1);
      var d := Do(v, calls[n - 1], ps, pool);
      DoHistory(v, calls[n - 1], ps, pool, past + Events(trace));
      EventsNext(trace, d.entry);
      assert past + (Events(trace) + d.entry.events) == past + Events(trace) + d.entry.events;
    }
  }

  /** No thread waits on a pipe. */
  ghost predicate NobodyWaits<P>(w: World<P>) {
    forall t, p :: t in w.threads && p in w.pipes ==> w.threads[t].waitingOn != w.pipes[p].id
  }

  lemma Fresh<P>(w: World<P>)
    requires NobodyWaits(w)
    ensures History<P>(w, [])
  {
  }

  lemma HandedAt<P>(w: World<P>, w': World<P>, events: seq<Event<P>>, k: nat)
    requires Alike(w, w') && History(w', events) && k < |events| && events[k].Handed?
    ensures HandedOk(w, events[k], CauseOf(events[..k], events[k].thread))
  {
    hide Explained;
    hide CauseOf;
    assert HandedOk(w', events[k], CauseOf(events[..k], events[k].thread));
    assert Same(w.pipes[events[k].pipe], w'.pipes[events[k].pipe]);
  }

  /**
    Over any run that no thread enters blocked at a pipe: each message that is handed over goes to a thread that blocked
    last at that very pipe, and to a thread blocked in a read if and only if that was in a read.  On a pipe that only
    receives it always was.
   */
  lemma RunHandsOver<P>(w: World<P>, calls: seq<PipeCall>, ps: seq<P>, pool: seq<Thread>, n: nat, k: nat)
    requires WorldOk(w) && Names(w, ps, pool) && n <= |calls| && NobodyWaits(w)
    requires k < |Events(Trace(w, calls, ps, pool, n))| && Events(Trace(w, calls, ps, pool, n))[k].Handed?
    ensures var events := Events(Trace(w, calls, ps, pool, n));
            var e := events[k];
            && e.pipe in w.pipes && CauseOf(events[..k], e.thread) == BlockedAt(e.pipe, e.toReader)
            && (!w.pipes[e.pipe].IsSender() ==> e.toReader)
  {
    hide WorldOk;
    hide History;
    hide NobodyWaits;
    hide After;
    hide Trace;
    hide CauseOf;
    hide Alike;
    var events := Events(Trace(w, calls, ps, pool, n));
    Fresh(w);
    RunHistory(w, calls, ps, pool, n, []);
    assert [] + events == events;
    HandedAt(w, After(w, calls, ps, pool, n), events, k);
  }

  // ---------------------------------------------------------------- a message for several pipes

  /** Pipe `k` gives a message to the thread noted there, when `message` is sent to `rs`. */
  ghost predicate Gives<P>(w: World<P>, rs: seq<P>, message: Message, k: nat)
    requires k < |rs| && forall r :: r in rs ==> r in w.pipes
  {
    rs[k] in rs && w.pipes[rs[k]].HasRoom() && Waits(Deliver(w, rs, message, k).world, rs[k])
  }

  lemma {:induction false} DeliverOther<P>(w: World<P>, rs: seq<P>, message: Message, n: nat, p: P)
    requires n <= |rs| && (forall r :: r in rs ==> r in w.pipes) && p in w.pipes && p !in rs[..n]
    ensures Deliver(w, rs, message, n).world.pipes[p] == w.pipes[p]
  {
    if n > 0 {
      assert rs[..n] == rs[..n - 1] + [rs[n - 1]] && rs[n - 1] in rs;
      DeliverOther(w, rs, message, n - 1, p);
      hide Waits;
      hide ReaderWaits;
      hide SendersOf;
      hide Awaken;
    }
  }

  /**
    Each pipe that has room takes the message, and gives the oldest one away if the thread noted there still waits when
    its turn comes; the others are as they were.
   */
  lemma {:induction false} DeliverAt<P>(w: World<P>, rs: seq<P>, message: Message, n: nat, k: nat)
    requires k < n <= |rs| && (forall r :: r in rs ==> r in w.pipes) && NoRepeat(rs)
    ensures rs[k] in rs
    ensures var c, c' := w.pipes[rs[k]], Deliver(w, rs, message, n).world.pipes[rs[k]];
            c' == if c.HasRoom() then CellAfter(c, message, Gives(w, rs, message, k)) else c
  {
    assert rs[k] in rs && rs[n - 1] in rs && rs[k] !in rs[..k];
    hide ReaderWaits;
    hide SendersOf;
    hide Awaken;
    if k == n - 1 {
      DeliverOther(w, rs, message, k, rs[k]);
    } else {
      DeliverAt(w, rs, message, n - 1, k);
      hide Gives;
    }
  }

  /** No thread is left waiting at a pipe that had room. */
  lemma NoneLeftWaiting<P>(w: World<P>, rs: seq<P>, message: Message, k: nat)
    requires WorldOk(w) && k < |rs| && (forall r :: r in rs ==> r in w.pipes) && NoRepeat(rs)
    requires rs[k] in rs && w.pipes[rs[k]].HasRoom()
    ensures !Waits(Deliver(w, rs, message, |rs|).world, rs[k])
  {
    DeliverAt(w, rs, message, |rs|, k);
    assert rs[k] !in rs[..k];
    DeliverOther(w, rs, message, k, rs[k]);
    assert CellOk(w, rs[k]);
    hide WorldOk;
    hide Deliver;
    hide NoRepeat;
    var t := w.pipes[rs[k]].owner;
    if t != null && !Gives(w, rs, message, k) {
      StaysAwake(w, rs, message, k, |rs|, t);
    }
  }

  lemma {:induction false} StaysAwake<P>(w: World<P>, rs: seq<P>, message: Message, k: nat, n: nat, t: Thread)
    requires k <= n <= |rs| && (forall r :: r in rs ==> r in w.pipes) && t in w.threads
    ensures var m := Deliver(w, rs, message, k).world.threads[t];
            WokenOrNot(m, Deliver(w, rs, message, n).world.threads[t])
  {
    if k < n {
      assert rs[n - 1] in rs;
      StaysAwake(w, rs, message, k, n - 1, t);
      hide Waits;
      hide ReaderWaits;
      hide SendersOf;
    }
  }

  /**
    A thread that waited at a pipe with room is passed over only if it was woken before as a sender noted at a pipe that
    gave a message to another.
   */
  lemma PassedOver<P>(w: World<P>, rs: seq<P>, message: Message, k: nat) returns (j: nat)
    requires WorldOk(w) && k < |rs| && (forall r :: r in rs ==> r in w.pipes) && NoRepeat(rs)
    requires rs[k] in rs && w.pipes[rs[k]].HasRoom() && Waits(w, rs[k]) && !Gives(w, rs, message, k)
    ensures j < k && Gives(w, rs, message, j) && rs[j] in rs && w.pipes[rs[k]].owner in SendersOf(w, rs[j])
  {
    DeliverOther(w, rs, message, k, rs[k]);
    j := FirstWake(w, rs, message, k, rs[k]);
  }

  /** Sending changes neither which pipes are noted where nor who last blocked in sending. */
  lemma {:induction false} SendersKept<P>(w: World<P>, rs: seq<P>, message: Message, n: nat, p: P)
    requires n <= |rs| && (forall r :: r in rs ==> r in w.pipes) && p in w.pipes
    ensures SendersOf(Deliver(w, rs, message, n).world, p) == SendersOf(w, p)
  {
    hide SendersOf;
    hide Offer;
    if n > 0 {
      assert rs[n - 1] in rs;
      SendersKept(w, rs, message, n - 1, p);
      OfferSenders(Deliver(w, rs, message, n - 1).world, rs[n - 1], message, p);
    }
  }

  lemma OfferSenders<P>(w: World<P>, r: P, message: Message, p: P)
    requires r in w.pipes && p in w.pipes
    ensures p in Offer(w, r, message).world.pipes && SendersOf(Offer(w, r, message).world, p) == SendersOf(w, p)
  {
    hide Waits;
    hide ReaderWaits;
    hide Awaken;
  }

  /** A message for one pipe ends a wait at another only as that of a sender. */
  lemma WokenHere<P>(w: World<P>, r: P, message: Message, p: P)
    requires WorldOk(w) && r in w.pipes && p in w.pipes && r != p
    requires Waits(w, p) && !Waits(Offer(w, r, message).world, p)
    ensures w.pipes[r].HasRoom() && Waits(w, r) && w.pipes[p].owner in SendersOf(w, r)
  {
    hide ReaderWaits;
    hide CellOk;
  }

  lemma {:induction false} FirstWake<P>(w: World<P>, rs: seq<P>, message: Message, n: nat, p: P) returns (j: nat)
    requires WorldOk(w) && n <= |rs| && (forall r :: r in rs ==> r in w.pipes) && NoRepeat(rs)
    requires p in w.pipes && p !in rs[..n] && Waits(w, p)
    requires !Waits(Deliver(w, rs, message, n).world, p)
    ensures j < n && Gives(w, rs, message, j) && rs[j] in rs && w.pipes[p].owner in SendersOf(w, rs[j])
  {
    hide WorldOk;
    hide Waits;
    hide Gives;
    hide SendersOf;
    hide Offer;
    hide NoRepeat;
    DeliverNone(w, rs, message);
    assert rs[..n] == rs[..n - 1] + [rs[n - 1]];
    if Waits(Deliver(w, rs, message, n - 1).world, p) {
      j := n - 1;
      WokenAt(w, rs, message, j, p);
    } else {
      j := FirstWake(w, rs, message, n - 1, p);
    }
  }

  lemma DeliverNone<P>(w: World<P>, rs: seq<P>, message: Message)
    requires forall r :: r in rs ==> r in w.pipes
    ensures Deliver(w, rs, message, 0).world == w
  {
  }

  /** A wait that ends when pipe `j` is offered the message. */
  lemma WokenAt<P>(w: World<P>, rs: seq<P>, message: Message, j: nat, p: P)
    requires WorldOk(w) && j < |rs| && (forall r :: r in rs ==> r in w.pipes) && NoRepeat(rs)
    requires p in w.pipes && p !in rs[..j + 1] && Waits(Deliver(w, rs, message, j).world, p)
    requires !Waits(Deliver(w, rs, message, j + 1).world, p)
    ensures Gives(w, rs, message, j) && rs[j] in rs && w.pipes[p].owner in SendersOf(w, rs[j])
  {
    hide WorldOk;
    hide Waits;
    hide SendersOf;
    hide Offer;
    hide NoRepeat;
    var v := Deliver(w, rs, message, j).world;
    Once(rs, j);
    assert rs[..j + 1] == rs[..j] + [rs[j]];
    DeliverOther(w, rs, message, j, p);
    DeliverOther(w, rs, message, j, rs[j]);
    SendersKept(w, rs, message, j, rs[j]);
    DeliverOk(w, rs, message, j);
    WokenHere(v, rs[j], message, p);
  }

  lemma Once<P>(rs: seq<P>, k: nat)
    requires NoRepeat(rs) && k < |rs|
    ensures rs[k] in rs && rs[k] !in rs[..k]
  {
  }

  /**
    A thread that blocks in a read of an empty pipe gets the next message that is sent there, which leaves the pipe as
    it was.
   */
  lemma ReaderGets<P>(w: World<P>, p: P, q: P, t: Thread, u: Thread, max: nat, kind: SendKind, message: Message)
    requires WorldOk(w) && p in w.pipes && q in w.pipes && p != q && t in w.threads && u in w.threads
    requires w.pipes[p].IsSender() && w.pipes[p].readers == [q]
    requires w.pipes[q].HasRoom() && w.pipes[q].queue == [] && CanWait(w.threads[t].state)
    ensures var r := Receive(w, q, t, max, true);
            && r.entry == Entry(NoError, [], [Blocked(q, t, true)])
            && r.world.pipes.Keys == w.pipes.Keys && r.world.pipes[p] == w.pipes[p]
            && var s := Send(r.world, p, u, kind, message, false);
               && s.entry == Entry(NoError, [], [Accepted(q, message), Handed(q, t, message, true)])
               && s.world.pipes[q].queue == [] && s.world.pipes[q].handed == message
               && s.world.threads[t].state == Ready
  {
    var v := Receive(w, q, t, max, true).world;
    assert CellOk(w, q);
    hide WorldOk;
    hide SendersOf;
    assert q in [q] && AllRoom(v, [q]);
    assert Deliver(v, [q], message, 0) == Change(v, []);
  }

  // ---------------------------------------------------------------- messages that stray

  /**
    A pipe that sends and receives forgets a thread that blocked in a read only when it hands it a message.  If that
    thread was woken otherwise and then blocks in sending at the same pipe, the next message for the pipe goes to it.
   */
  lemma Strays<P>(w: World<P>, p: P, t: Thread, message: Message, other: Message)
    requires WorldOk(w) && p in w.pipes && w.pipes[p].direction == SendReceive && w.pipes[p].owner == t
    requires t in w.threads && CanWait(w.threads[t].state)
    requires w.pipes[p].HasRoom() && !AllRoom(w, w.pipes[p].readers)
    requires forall r :: r in w.pipes[p].readers ==> r in w.pipes
    ensures var v := Send(w, p, t, SendAll, message, true);
            && v.entry == Entry(BlockedRetry, [], [Blocked(p, t, false)])
            && Offer(v.world, p, other).events
               == [Accepted(p, other), Handed(p, t, (w.pipes[p].queue + [other])[0], false)]
            && var u, q := Offer(v.world, p, other).world, w.pipes[p].queue + [other];
               && p in u.pipes && u.pipes[p].owner == null && u.pipes[p].handed == q[0] && u.pipes[p].queue == q[1..]
               && t in u.threads && u.threads[t] == Mark(Ready, 0, false)
  {
    assert CellOk(w, p);
    hide WorldOk;
    hide AllRoom;
    hide SendersOf;
  }
}
