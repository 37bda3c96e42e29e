/** When sends and reads succeed and what they move, in terms of directions, queues and numbers of slots. */
module PipeFlow {
  import opened PipeRing
  import opened Schedulers
  import opened PipeModel
  import opened PipeHistory

  /** The pipe receives, and has a slot left. */
  ghost predicate Accepts<P>(w: World<P>, p: P) {
    p in w.pipes && w.pipes[p].direction != SendOnly && |w.pipes[p].queue| < w.pipes[p].total
  }

  lemma OfferSent<P>(w: World<P>, r: P, message: Message, p: P)
    requires r in w.pipes && p in w.pipes
    ensures Sent(Offer(w, r, message).events, p) == if p == r && Accepts(w, r) then [message] else []
  {
    hide Waits;
    hide ReaderWaits;
    hide Awaken;
    hide SendersOf;
    hide Sent;
    var d := Offer(w, r, message);
    None(p);
    if w.pipes[r].HasRoom() {
      One<P>(Accepted(r, message), p);
      if Waits(w, r) {
        One(d.events[1], p);
        Two(d.events[0], d.events[1], p);
      }
    }
  }

  /**
    The oldest message of a pipe that accepts one, the new one included, is given away exactly if the thread noted there
    waits on the pipe, whatever state it is in; and that thread is made ready if it is waiting.
   */
  lemma GivenAway<P>(w: World<P>, p: P, message: Message)
    requires WorldOk(w) && p in w.pipes && Accepts(w, p)
    ensures var d, c := Offer(w, p, message), w.pipes[p];
            var q := c.queue + [message];
            if c.owner != null && w.threads[c.owner].waitingOn == c.id
            then && d.world.pipes[p].queue == q[1..] && d.world.pipes[p].handed == q[0]
                 && d.world.pipes[p].owner == null
                 && d.world.threads[c.owner].state
                    == (if w.threads[c.owner].state == Waiting then Ready else w.threads[c.owner].state)
            else d.world.pipes[p].queue == q && d.world.threads == w.threads
  {
    assert CellOk(w, p);
    hide SendersOf;
    hide ReaderWaits;
  }

  /** Each of the first `n` pipes that accepts takes the message once, and no other does. */
  lemma {:induction false} DeliverSent<P>(w: World<P>, rs: seq<P>, message: Message, n: nat, p: P)
    requires n <= |rs| && (forall r :: r in rs ==> r in w.pipes) && NoRepeat(rs) && p in w.pipes
    ensures Sent(Deliver(w, rs, message, n).events, p) == if p in rs[..n] && Accepts(w, p) then [message] else []
  {
    hide Sent;
    hide Offer;
    hide NoRepeat;
    if n == 0 {
      None(p);
    } else {
      Once(rs, n - 1);
      var a := Deliver(w, rs, message, n - 1);
      DeliverSent(w, rs, message, n - 1, p);
      DeliverOther(w, rs, message, n - 1, rs[n - 1]);
      OfferSent(a.world, rs[n - 1], message, p);
      SentPlus(a.events, Offer(a.world, rs[n - 1], message).events, p);
      assert rs[..n] == rs[..n - 1] + [rs[n - 1]];
    }
  }

  lemma RoomIs<P>(w: World<P>, rs: seq<P>)
    ensures AllRoom(w, rs) <==> forall r :: r in rs ==> Accepts(w, r)
  {
    forall r | r in rs && r in w.pipes
      ensures w.pipes[r].HasRoom() <==> Accepts(w, r)
    {
    }
  }

  /** The results of a send, and which pipes take the message. */
  lemma SendResults<P>(w: World<P>, p: P, t: Thread, kind: SendKind, message: Message, block: bool)
    requires WorldOk(w) && p in w.pipes && t in w.threads && forall r :: r in w.pipes[p].readers ==> r in w.pipes
    ensures var e := Send(w, p, t, kind, message, block).entry;
            var all := forall r :: r in w.pipes[p].readers ==> Accepts(w, r);
            && (e.result == PolarityWrong <==> w.pipes[p].direction == ReceiveOnly)
            && (w.pipes[p].direction != ReceiveOnly && kind == SendAvailable ==> e.result == NoError)
            && (w.pipes[p].direction != ReceiveOnly && kind == SendAll ==>
                  e.result == if all then NoError else if block then BlockedRetry else ReceiversFull)
            && (forall q :: q in w.pipes ==>
                  Sent(e.events, q) == if e.result == NoError && q in w.pipes[p].readers && Accepts(w, q) then [message]
                                       else [])
  {
    hide Deliver;
    hide Sent;
    hide SendBlocked;
    var rs := w.pipes[p].readers;
    RoomIs(w, rs);
    hide AllRoom;
    assert CellOk(w, p);
    hide WorldOk;
    var d := Send(w, p, t, kind, message, block);
    forall q | q in w.pipes
      ensures Sent(d.entry.events, q) == if d.entry.result == NoError && q in rs && Accepts(w, q) then [message] else []
    {
      None(q);
      if d.entry.result == NoError {
        DeliverSent(w, rs, message, |rs|, q);
        assert rs[..|rs|] == rs;
      } else {
        BlockedSends(w, p, t, q);
      }
    }
  }

  lemma BlockedSends<P>(w: World<P>, p: P, t: Thread, q: P)
    requires p in w.pipes && t in w.threads
    ensures Sent(SendBlocked(w, p, t).events, q) == []
  {
    None(q);
    One<P>(Blocked(p, t, false), q);
  }

  /** The results of a read, and the message it returns. */
  lemma ReadResults<P>(w: World<P>, p: P, t: Thread, max: nat, block: bool)
    requires p in w.pipes && t in w.threads
    ensures var c, d := w.pipes[p], Receive(w, p, t, max, block);
            && (d.entry.result == PolarityWrong <==> c.direction == SendOnly)
            && (d.entry.result == OutOfRange <==> c.direction != SendOnly && c.queue != [] && |c.queue[0]| > max)
            && (d.entry.result == Empty <==> c.direction != SendOnly && c.queue == [] && !block)
            && (if c.direction != SendOnly && c.queue != [] && |c.queue[0]| <= max
                then d.entry == Entry(NoError, c.queue[0], [Read(p, t, c.queue[0])])
                     && d.world.pipes[p].queue == c.queue[1..]
                else d.world.pipes[p].queue == c.queue)
  {
    hide Awaken;
    hide SendersOf;
  }

  // ---------------------------------------------------------------- senders that wait for room

  /** A thread that blocks in sending to a full receiver is woken by the next read from it. */
  lemma SenderGoesOn<P>(w: World<P>, p: P, r: P, t: Thread, u: Thread, message: Message, max: nat, block: bool)
    requires WorldOk(w) && p in w.pipes && t in w.threads && u in w.threads && t != u
    requires w.pipes[p].direction != ReceiveOnly && r in w.pipes[p].readers && r in w.pipes
    requires forall q :: q in w.pipes[p].readers ==> q in w.pipes
    requires w.pipes[r].direction != SendOnly && |w.pipes[r].queue| == w.pipes[r].total > 0
    requires |w.pipes[r].queue[0]| <= max && CanWait(w.threads[t].state)
    ensures var v := Send(w, p, t, SendAll, message, true);
            && v.entry == Entry(BlockedRetry, [], [Blocked(p, t, false)]) && v.world.threads[t].state == Waiting
            && r in v.world.pipes && u in v.world.threads
            && var d := Receive(v.world, r, u, max, block);
               d.entry.result == NoError && d.world.threads[t].state == Ready
  {
    hide Deliver;
    assert CellOk(w, p);
    hide WorldOk;
    assert !AllRoom(w, w.pipes[p].readers);
    hide AllRoom;
    var v := Send(w, p, t, SendAll, message, true).world;
    assert v.pipes[r].senders == w.pipes[r].senders + [p] && v.pipes[p].sendingThread == t;
    assert p in v.pipes[r].senders by {
      assert v.pipes[r].senders[|w.pipes[r].senders|] == p;
    }
    assert t in SendersOf(v, r);
    hide SendersOf;
  }

  /** A second thread that blocks in sending from the same pipe takes its place: a read wakes the second one only. */
  lemma SecondSender<P>(w: World<P>, p: P, r: P, t: Thread, u: Thread, reader: Thread, message: Message, max: nat)
    requires WorldOk(w) && p in w.pipes && t in w.threads && u in w.threads && reader in w.threads && t != u
    requires w.pipes[p].direction != ReceiveOnly && w.pipes[p].readers == [r] && r in w.pipes && r != p
    requires w.pipes[r].direction != SendOnly && |w.pipes[r].queue| == w.pipes[r].total > 0 && w.pipes[r].senders == []
    requires |w.pipes[r].queue[0]| <= max && CanWait(w.threads[t].state) && CanWait(w.threads[u].state)
    ensures var v := Send(w, p, t, SendAll, message, true).world;
            && p in v.pipes && u in v.threads && v.pipes[p].readers == [r] && r in v.pipes
            && var x := Send(v, p, u, SendAll, message, true).world;
               && r in x.pipes && reader in x.threads
               && var d := Receive(x, r, reader, max, false);
                  d.entry.result == NoError && d.world.threads[t].state == Waiting && d.world.threads[u].state == Ready
  {
    hide Send;
    hide WorldOk;
    OneBlocked(w, p, r, t, message);
    var v := Send(w, p, t, SendAll, message, true).world;
    OneBlocked(v, p, r, u, message);
    var x := Send(v, p, u, SendAll, message, true).world;
    assert SendersOf(x, r) == {u} by {
      assert x.pipes[r].senders == [p, p];
      assert x.pipes[r].senders[0] == p;
    }
    hide SendersOf;
  }

  /** A thread blocks in sending to the only receiver, which is full. */
  lemma OneBlocked<P>(w: World<P>, p: P, r: P, t: Thread, message: Message)
    requires p in w.pipes && t in w.threads && r in w.pipes && r != p && CanWait(w.threads[t].state)
    requires w.pipes[p].direction != ReceiveOnly && w.pipes[p].readers == [r]
    requires w.pipes[r].direction != SendOnly && |w.pipes[r].queue| == w.pipes[r].total
    ensures forall q :: q in w.pipes[p].readers ==> q in w.pipes
    ensures var v := Send(w, p, t, SendAll, message, true).world;
            && v.pipes.Keys == w.pipes.Keys && v.pipes[p] == w.pipes[p].(sendingThread := t)
            && v.pipes[r] == w.pipes[r].(senders := w.pipes[r].senders + [p])
            && v.threads == w.threads[t := Mark(Waiting, w.pipes[p].id, false)]
  {
    hide Deliver;
    assert r in [r];
    assert !AllRoom(w, [r]);
    hide AllRoom;
  }

  // ---------------------------------------------------------------- how many messages a pipe takes

  /** The messages `ms` sent one after the other by thread `i` on pipe `k`. */
  ghost function Sends(i: nat, k: nat, ms: seq<Message>): seq<PipeCall> {
    seq(|ms|, j requires 0 <= j < |ms| => SendCall(i, k, SendAll, ms[j], false))
  }

  /** The only receiver of the pipe receives, and no thread is noted there. */
  ghost predicate Feeds<P>(w: World<P>, p: P, r: P) {
    && p in w.pipes && r in w.pipes && p != r && w.pipes[p].direction != ReceiveOnly && w.pipes[p].readers == [r]
    && w.pipes[r].direction != SendOnly && w.pipes[r].owner == null
  }

  lemma OneSend<P>(w: World<P>, p: P, r: P, t: Thread, message: Message)
    requires WorldOk(w) && Feeds(w, p, r) && t in w.threads
    ensures (forall q :: q in w.pipes[p].readers ==> q in w.pipes)
    ensures var d := Send(w, p, t, SendAll, message, false);
            && Feeds(d.world, p, r)
            && d.entry.result == (if |w.pipes[r].queue| < w.pipes[r].total then NoError else ReceiversFull)
            && d.world.pipes[r].queue
               == (if |w.pipes[r].queue| < w.pipes[r].total then w.pipes[r].queue + [message] else w.pipes[r].queue)
  {
    hide WorldOk;
    hide SendersOf;
    hide Awaken;
    assert r in [r];
    RoomIs(w, [r]);
    hide AllRoom;
    assert Deliver(w, [r], message, 0) == Change(w, []);
  }

  /** The first `n` messages, but no more than `total`. */
  function FirstOf(ms: seq<Message>, n: nat, total: nat): (r: seq<Message>)
    requires n <= |ms|
    ensures |r| == if n <= total then n else total
  {
    ms[..if n <= total then n else total]
  }

  lemma FirstNext(ms: seq<Message>, n: nat, total: nat)
    requires 0 < n <= |ms|
    ensures var q := FirstOf(ms, n - 1, total);
            && (|q| < total <==> n - 1 < total)
            && FirstOf(ms, n, total) == if |q| < total then q + [ms[n - 1]] else q
  {
  }

  /**
    A pipe takes as many messages as it has slots and keeps them in order; every further one is refused and changes
    nothing.
   */
  lemma {:induction false} FillsUp<P>(w: World<P>, ps: seq<P>, pool: seq<Thread>, i: nat, k: nat, r: P,
                                      ms: seq<Message>, n: nat)
    requires WorldOk(w) && Names(w, ps, pool) && i < |pool| && k < |ps| && n <= |ms|
    requires Feeds(w, ps[k], r) && w.pipes[r].queue == []
    ensures var w', trace := After(w, Sends(i, k, ms), ps, pool, n), Trace(w, Sends(i, k, ms), ps, pool, n);
            var total := w.pipes[r].total;
            && Feeds(w', ps[k], r) && w'.pipes[r].queue == FirstOf(ms, n, total)
            && (forall j :: 0 <= j < n ==> trace[j].result == if j < total then NoError else ReceiversFull)
  {
    hide WorldOk;
    hide Names;
    hide Send;
    hide After;
    hide Trace;
    hide FirstOf;
    var calls := Sends(i, k, ms);
    RunStarts(w, calls, ps, pool);
    if n > 0 {
      FillsUp(w, ps, pool, i, k, r, ms, n - 1);
      var v := After(w, calls, ps, pool, n - 1);
      assert Alike(w, v);
      assert v.pipes[r].total == w.pipes[r].total by {
        assert Same(w.pipes[r], v.pipes[r]);
      }
      NamedThread(v, ps, pool, i);
      OneSend(v, ps[k], r, pool[i], ms[n - 1]);
      RunNext(w, calls, ps, pool, n - 1);
      FirstNext(ms, n, w.pipes[r].total);
    }
  }

  lemma RunStarts<P>(w: World<P>, calls: seq<PipeCall>, ps: seq<P>, pool: seq<Thread>)
    requires WorldOk(w) && Names(w, ps, pool)
    ensures After(w, calls, ps, pool, 0) == w && Trace(w, calls, ps, pool, 0) == []
  {
  }

  lemma NamedThread<P>(w: World<P>, ps: seq<P>, pool: seq<Thread>, i: nat)
    requires Names(w, ps, pool) && i < |pool|
    ensures pool[i] in w.threads
  {
  }
}
