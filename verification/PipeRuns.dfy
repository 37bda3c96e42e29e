/** Runs of sends and reads over the pipes of a kernel. */
module PipeRuns {
  import opened Words
  import opened PipeRing
  import opened Schedulers
  import opened PipeModel
  import opened PipeHistory
  import opened Pipes

  /** The pipes of a kernel, and its scheduler. */
  class PipeSystem {
    const scheduler: Scheduler
    const pipes: seq<Pipe>

    constructor (scheduler: Scheduler, pipes: seq<Pipe>)
      ensures this.scheduler == scheduler && this.pipes == pipes
    {
      this.scheduler, this.pipes := scheduler, pipes;
    }

    ghost function All(): set<Pipe> { set p | p in pipes }

    ghost function Memories(): set<array<Byte>> { set p | p in pipes :: p.memory }

    ghost predicate Valid()
      reads scheduler, scheduler.queues, scheduler.threads`priority, scheduler.threads`originalPriority, pipes,
            Memories()
    {
      Kernel(scheduler, All())
    }

    /** The pipes and threads of the kernel. */
    ghost function Now(): World<Pipe>
      reads scheduler`threads, scheduler.threads`state, scheduler.threads`waitingOn, scheduler.threads`reading
      reads pipes`queue, pipes`owner, pipes`handed, pipes`sendingThread, pipes`readers, pipes`senders
    {
      WorldOf(scheduler, All())
    }

    /** The messages of a call are no longer than the pipes have room for. */
    predicate Fitting(call: PipeCall) {
      call.SendCall? ==> |call.message| < W && forall p :: p in pipes ==> |call.message| <= p.messageSize
    }

    /** The state, the result and the message are those of the call. */
    ghost predicate DoneIs(w: World<Pipe>, call: PipeCall, pool: seq<Thread>, w': World<Pipe>, result: Result,
                           message: Message) {
      && WorldOk(w) && Names(w, pipes, pool)
      && var d := Do(w, call, pipes, pool);
      w' == d.world && result == d.entry.result && message == d.entry.message
    }

    lemma Start(pool: seq<Thread>)
      requires Valid() && forall t :: t in pool ==> t in scheduler.threads
      ensures WorldOk(Now()) && Names(Now(), pipes, pool) && Now().pipes.Keys == All() && Kernel(scheduler, All())
      ensures Now() == WorldOf(scheduler, All()) && forall p :: p in pipes ==> p in All()
    {
      hide Scheduler.Valid;
      hide Kernel;
      WorldIsOk(scheduler, All());
      WorldAt(scheduler, All());
    }

    lemma PipeIn(p: Pipe)
      requires Valid() && p in pipes
      ensures p.scheduler == scheduler && p in All() && p.memory in Memories()
      ensures forall r :: r in p.readers ==> r in pipes && r.memory in Memories()
      ensures forall k :: 0 <= k < |p.readers| ==> p.readers[k] in pipes
    {
      hide Scheduler.Valid;
      hide Pipe.Valid;
      assert p.Linked(scheduler, All());
    }

    /** One call.  Pipes and threads go by their numbers; a call for one that is not there is refused. */
    method Step(call: PipeCall, pool: seq<Thread>) returns (result: Result, message: Message)
      requires Valid() && (forall t :: t in pool ==> t in scheduler.threads) && Fitting(call)
      modifies pipes, Memories(), scheduler, scheduler.queues, scheduler.threads
      ensures Valid() && Fits(scheduler) && scheduler.threads == old(scheduler.threads)
      ensures DoneIs(old(Now()), call, pool, Now(), result, message)
    {
      hide Scheduler.Valid;
      hide Scheduler.Settled;
      hide Scheduler.OneRunning;
      hide Kernel;
      hide WorldOf;
      hide WorldOk;
      hide Names;
      hide PipeModel.Send;
      hide PipeModel.Receive;
      Start(pool);
      result, message := InvalidObject, [];
      if call.thread < |pool| && call.pipe < |pipes| {
        var t := pool[call.thread];
        var p := pipes[call.pipe];
        assert t in pool && p in pipes;
        PipeIn(p);
        match call
        case SendCall(_, i, kind, m, block) =>
          result := p.Send(t, kind, m, block, All());
        case ReceiveCall(_, i, max, block) =>
          result, message := p.Read(t, max, block, All());
      }
    }

    /** The state, the results and the trace are those of the first `n` calls. */
    ghost predicate RunIs(w: World<Pipe>, calls: seq<PipeCall>, pool: seq<Thread>, n: nat, w': World<Pipe>,
                          results: seq<(Result, Message)>, trace: seq<Entry<Pipe>>) {
      && n <= |calls| && WorldOk(w) && Names(w, pipes, pool)
      && w' == After(w, calls, pipes, pool, n) && trace == Trace(w, calls, pipes, pool, n)
      && |results| == n && forall j :: 0 <= j < n ==> results[j] == (trace[j].result, trace[j].message)
    }

    lemma RunBegins(w: World<Pipe>, calls: seq<PipeCall>, pool: seq<Thread>)
      requires WorldOk(w) && Names(w, pipes, pool)
      ensures RunIs(w, calls, pool, 0, w, [], [])
    {
    }

    lemma RunGoesOn(w: World<Pipe>, calls: seq<PipeCall>, pool: seq<Thread>, n: nat, v: World<Pipe>,
                    results: seq<(Result, Message)>, trace: seq<Entry<Pipe>>, w': World<Pipe>, result: Result,
                    message: Message)
      returns (trace': seq<Entry<Pipe>>)
      requires RunIs(w, calls, pool, n, v, results, trace) && n < |calls|
      requires DoneIs(v, calls[n], pool, w', result, message)
      ensures RunIs(w, calls, pool, n + 1, w', results + [(result, message)], trace')
    {
      hide WorldOk;
      hide Names;
      hide Do;
      hide After;
      hide Trace;
      RunNext(w, calls, pipes, pool, n);
      trace' := trace + [Do(v, calls[n], pipes, pool).entry];
    }

    /** What the trace says of a pipe: what was in it and was accepted is what was given away and what is in it. */
    ghost predicate Accounts(w: World<Pipe>, w': World<Pipe>, trace: seq<Entry<Pipe>>) {
      forall p :: p in pipes ==>
        && p in w.pipes && p in w'.pipes
        && w.pipes[p].queue + Sent(Events(trace), p) == Got(Events(trace), p) + w'.pipes[p].queue
        && |w'.pipes[p].queue| <= w.pipes[p].total
    }

    /** Every message handed over went to the thread that blocked there last, in a read if that was in a read. */
    ghost predicate HandsOver(w: World<Pipe>, events: seq<Event<Pipe>>) {
      forall k :: 0 <= k < |events| && events[k].Handed? ==>
        var e := events[k];
        && e.pipe in w.pipes && CauseOf(events[..k], e.thread) == BlockedAt(e.pipe, e.toReader)
        && (!w.pipes[e.pipe].IsSender() ==> e.toReader)
    }

    lemma RunFacts(w: World<Pipe>, calls: seq<PipeCall>, pool: seq<Thread>, w': World<Pipe>,
                   results: seq<(Result, Message)>, trace: seq<Entry<Pipe>>)
      requires RunIs(w, calls, pool, |calls|, w', results, trace) && w.pipes.Keys == All()
      ensures Accounts(w, w', trace)
      ensures NoneMissed(w) ==> NoneMissed(w')
      ensures NobodyWaits(w) ==> HandsOver(w, Events(trace))
    {
      hide WorldOk;
      hide Names;
      hide After;
      hide Trace;
      hide NoneMissed;
      hide NobodyWaits;
      hide Events;
      hide CauseOf;
      hide Sent;
      hide Got;
      forall p | p in pipes
        ensures && p in w.pipes && p in w'.pipes
                && w.pipes[p].queue + Sent(Events(trace), p) == Got(Events(trace), p) + w'.pipes[p].queue
                && |w'.pipes[p].queue| <= w.pipes[p].total
      {
        assert p in All();
        RunBalanced(w, calls, pipes, pool, |calls|, p);
      }
      if NoneMissed(w) {
        RunMisses(w, calls, pipes, pool, |calls|);
      }
      if NobodyWaits(w) {
        forall k | 0 <= k < |Events(trace)| && Events(trace)[k].Handed?
          ensures var e := Events(trace)[k];
                  && e.pipe in w.pipes && CauseOf(Events(trace)[..k], e.thread) == BlockedAt(e.pipe, e.toReader)
                  && (!w.pipes[e.pipe].IsSender() ==> e.toReader)
        {
          RunHandsOver(w, calls, pipes, pool, |calls|, k);
        }
      }
    }

    /**
      A whole run.  Its results and its trace are those of the calls in order, each in the state the calls before it
      left. So for every pipe, what was read or handed over is what was in it and what it accepted, in order and once
      each, up to what is still in it.  If no thread noted at a pipe was blocked in a read while the pipe held a
      message, none is.  If no thread waited on a pipe at first, each message handed over went to the thread that
      blocked there last, and to a reader exactly if that was in a read, as it is on pipes that only receive.
     */
    method Run(calls: seq<PipeCall>, pool: seq<Thread>)
      returns (results: seq<(Result, Message)>, ghost trace: seq<Entry<Pipe>>)
      requires Valid() && (forall t :: t in pool ==> t in scheduler.threads) && forall c :: c in calls ==> Fitting(c)
      modifies pipes, Memories(), scheduler, scheduler.queues, scheduler.threads
      ensures Valid() && RunIs(old(Now()), calls, pool, |calls|, Now(), results, trace)
      ensures Accounts(old(Now()), Now(), trace)
      ensures old(NoneMissed(Now())) ==> NoneMissed(Now())
      ensures old(NobodyWaits(Now())) ==> HandsOver(old(Now()), Events(trace))
    {
      hide *;
      Start(pool);
      ghost var w := Now();
      RunBegins(w, calls, pool);
      results, trace := [], [];
      var i := 0;
      while i < |calls|
        invariant 0 <= i <= |calls| && Valid() && scheduler.threads == old(scheduler.threads)
        invariant RunIs(w, calls, pool, i, Now(), results, trace)
      {
        assert calls[i] in calls;
        ghost var v := Now();
        var result, message := Step(calls[i], pool);
        trace := RunGoesOn(w, calls, pool, i, v, results, trace, Now(), result, message);
        results := results + [(result, message)];
        i := i + 1;
      }
      RunFacts(w, calls, pool, Now(), results, trace);
    }
  }

  /**
    A second thread that reads an empty pipe takes the place of the first: the next message goes to the second one, and
    the first goes on waiting at a pipe that does not know of it.
   */
  method SecondReader(p: Pipe, first: Thread, second: Thread, message: Message)
    requires p.Valid() && p.Known() && p.scheduler.Valid() && p.IsReceiver() && p.queue == [] && p.free > 0
             && p.senders == []
    requires first != second && first in p.scheduler.threads && second in p.scheduler.threads
    requires CanWait(first.state) && CanWait(second.state) && |message| <= p.messageSize && |message| < W
    modifies p, p.memory, p.scheduler, p.scheduler.queues, p.scheduler.threads
    ensures p.Valid() && p.queue == [] && p.handed == message && p.owner == null
    ensures first.state == Waiting && first.waitingOn == p.id && second.state == Ready
            && p.scheduler.In(second, second.priority)
  {
    hide Scheduler.Valid;
    hide Scheduler.Settled;
    hide Scheduler.OneRunning;
    hide Scheduler.In;
    hide Pipe.Valid;
    Holding(p);
    var result, none := p.Receive(first, 0, true);
    result, none := p.Receive(second, 0, true);
    Holding(p);
    p.ReceiveMessage(message);
    Holding(p);
  }

  /**
    A pipe that sends and receives still notes a thread that was woken from a read without a message.  When that thread
    blocks in sending from the pipe, the next message for the pipe is handed to it.
   */
  method Stray(p: Pipe, t: Thread, message: Message, other: Message, ghost ps: set<Pipe>)
    requires Kernel(p.scheduler, ps) && p in ps && p.direction == SendReceive && p.CanReceive() && !AllReady(p.readers)
    requires t in p.scheduler.threads && p.owner == t && CanWait(t.state)
    requires |message| < W && |other| < W && |other| <= p.messageSize
    requires forall r :: r in p.readers ==> |message| <= r.messageSize
    modifies p, p.memory, p.readers, (set r | r in p.readers :: r.memory)
    modifies p.scheduler, p.scheduler.queues, p.scheduler.threads
    ensures Kernel(p.scheduler, ps) && p.owner == null && p.handed == (old(p.queue) + [other])[0]
    ensures p.queue == (old(p.queue) + [other])[1..] && t.state == Ready && !t.reading
  {
    hide *;
    ghost var w := WorldOf(p.scheduler, ps);
    ghost var v, u := StrayWorlds(p, t, message, other, ps);
    ReadersAre(p, ps);
    var result := p.Send(t, SendAll, message, true, ps);
    SentOnly(w, p, t, message, WorldOf(p.scheduler, ps), result);
    Others(p.scheduler, ps);
    ghost var since := TakeSnapshot(p.scheduler);
    p.Take(other, ps, since);
    WorldAt(p.scheduler, ps);
    CellIs(p);
    MarkIs(t);
  }

  lemma MarkIs(t: Thread)
    ensures MarkOf(t) == Mark(t.state, t.waitingOn, t.reading)
  {
  }

  /** The states after the send that blocks, and after the message. */
  lemma StrayWorlds(p: Pipe, t: Thread, message: Message, other: Message, ps: set<Pipe>)
    returns (v: World<Pipe>, u: World<Pipe>)
    requires Kernel(p.scheduler, ps) && p in ps && p.direction == SendReceive && p.CanReceive() && !AllReady(p.readers)
    requires t in p.scheduler.threads && p.owner == t && CanWait(t.state)
    ensures var w := WorldOf(p.scheduler, ps);
            && p in w.pipes && t in w.threads && ReadersIn(w, w.pipes[p].readers)
            && v == PipeModel.Send(w, p, t, SendAll, message, true).world
    ensures p in v.pipes && u == Offer(v, p, other).world && p in u.pipes && t in u.threads
    ensures u.pipes[p].owner == null && u.pipes[p].handed == (p.queue + [other])[0]
    ensures u.pipes[p].queue == (p.queue + [other])[1..] && u.threads[t] == Mark(Ready, 0, false)
  {
    hide *;
    var w := WorldOf(p.scheduler, ps);
    WorldIsOk(p.scheduler, ps);
    WorldAt(p.scheduler, ps);
    CellIs(p);
    MarkIs(t);
    ReadersAre(p, ps);
    InReaders(w, p.readers);
    ReadyIs(p, ps);
    Members(p, ps);
    Strays(w, p, t, message, other);
    v := PipeModel.Send(w, p, t, SendAll, message, true).world;
    u := Offer(v, p, other).world;
  }

  lemma SentOnly(w: World<Pipe>, p: Pipe, t: Thread, message: Message, w': World<Pipe>, result: Result)
    requires SentIs(w, p, t, SendAll, message, true, w', result)
    ensures p in w.pipes && t in w.threads && ReadersIn(w, w.pipes[p].readers)
    ensures w' == PipeModel.Send(w, p, t, SendAll, message, true).world
  {
    hide PipeModel.Send;
  }

  lemma Holding(p: Pipe)
    requires p.Valid()
    ensures p.free + |p.queue| == p.total && p.id > 0
  {
  }

  /**
    Reading a message wakes a thread that once blocked in sending to the pipe, though by now it waits for a message
    itself.
   */
  method WokenInVain(p: Pipe, other: Pipe, t: Thread, reader: Thread, max: nat) returns (message: Message)
    requires p.Valid() && p.Known() && p.scheduler.Valid() && p.IsReceiver() && |p.queue| > 0 && |p.queue[0]| <= max
             && reader in p.scheduler.threads
    requires other != p && other.memory != p.memory && other.Valid() && other.Waits() && other.owner == t
             && other.queue == []
    requires t in p.scheduler.threads && t.state == Waiting && t in p.Senders()
    modifies p, p.scheduler, p.scheduler.queues, p.scheduler.threads
    ensures t.state == Ready && p.scheduler.In(t, t.priority) && other.queue == [] && other.owner == t && !other.Waits()
  {
    hide Scheduler.Valid;
    hide Scheduler.Settled;
    hide Scheduler.OneRunning;
    hide Scheduler.In;
    hide Stored;
    var result;
    result, message := p.Receive(reader, max, false);
  }
}
