/** Pipes: a bounded queue of messages in a ring buffer at each receiver, and sending to all receivers of a pipe. */
module Pipes {
  import opened Words
  import opened Arithmetic
  import opened PipeRing
  import opened RunQueues
  import opened Schedulers
  import opened PipeModel

  const PAGE_SIZE: int := 4096

  /** `util_memcpy` into a buffer. */
  method CopyBytes(dst: array<Byte>, at: nat, src: Message)
    requires at + |src| <= dst.Length
    modifies dst
    ensures dst[..] == Overwrite(old(dst[..]), at, src)
  {
    var i := 0;
    while i < |src|
      invariant 0 <= i <= |src|
      invariant forall k :: 0 <= k < dst.Length ==> dst[k] == if at <= k < at + i then src[k - at] else old(dst[k])
    {
      dst[at + i] := src[i];
      i := i + 1;
    }
  }

  /**
    The size of the buffer `obj_create_pipe` allocates, in 32-bit arithmetic: length and message per slot, counted up to
    whole pages.  It has room for every slot exactly if the sum does not come closer than a page to 2^32.
   */
  method BufferSize(messageSize: Word, messages: Word) returns (size: Word)
    ensures size % PAGE_SIZE == 0
    ensures var sum := messageSize * messages + messages * HEADER;
            && (sum <= size <==> sum <= W - PAGE_SIZE)
            && (sum <= W - PAGE_SIZE ==> size < sum + PAGE_SIZE)
  {
    Product(messageSize, messages);
    size := WholePages((messageSize * messages + messages * HEADER) % W);
  }

  lemma Product(x: nat, y: nat)
    ensures x * y >= 0
  {
  }

  /** Counts up to a multiple of the page size, or around to 0. */
  method WholePages(start: Word) returns (size: Word)
    ensures size % PAGE_SIZE == 0
    ensures start <= W - PAGE_SIZE ==> start <= size < start + PAGE_SIZE
    ensures start > W - PAGE_SIZE ==> size == 0
  {
    size := start;
    ghost var k := NextPage(start);
    ghost var n: int := start;
    while size % PAGE_SIZE != 0
      invariant start <= n <= PAGE_SIZE * k && size == if n == W then 0 else n
      decreases PAGE_SIZE * k - n
    {
      Peel(0, PAGE_SIZE, k);
      size := (size + 1) % W;
      n := n + 1;
    }
    OnePage(n, k);
  }

  /** The first multiple of the page size from `start` on. */
  lemma NextPage(start: Word) returns (k: nat)
    ensures start <= PAGE_SIZE * k < start + PAGE_SIZE && PAGE_SIZE * k <= W
    ensures start <= W - PAGE_SIZE <==> PAGE_SIZE * k <= W - PAGE_SIZE
  {
    var q, r := start / PAGE_SIZE, start % PAGE_SIZE;
    assert start == PAGE_SIZE * q + r;
    k := if r == 0 then q else q + 1;
  }

  lemma OnePage(n: int, k: int)
    requires n % PAGE_SIZE == 0 && PAGE_SIZE * k - PAGE_SIZE < n <= PAGE_SIZE * k
    ensures n == PAGE_SIZE * k
  {
    var q := n / PAGE_SIZE;
    assert n == PAGE_SIZE * q;
  }

  class Pipe {
    /** The pipe as an object a thread can wait for. */
    const id: nat
    const scheduler: Scheduler
    const direction: Direction
    const memory: array<Byte>
    const total: nat
    const messageSize: nat
    var free: nat
    var readPos: nat
    var writePos: nat
    var readPtr: nat
    var writePtr: nat
    /** The thread last blocked in a read, until a message is handed to it, and the message last handed over. */
    var owner: Thread?
    var handed: Message
    /** The thread last blocked in sending. */
    var sendingThread: Thread?
    /** The pipes this one sends to, and those that wait for room in this one. */
    var readers: seq<Pipe>
    var senders: seq<Pipe>

    ghost var queue: seq<Message>

    /**
      The ring holds the messages of the queue, oldest first, in slots inside the buffer; the write position is the read
      position plus the occupancy, around the ring.
     */
    ghost predicate Valid()
      reads `free, `readPos, `writePos, `readPtr, `writePtr, `queue, memory
    {
      && id > 0 && total * Stride(messageSize) <= memory.Length
      && free + |queue| == total
      && (if total == 0 then readPos == 0 && writePos == 0
         else readPos < total && writePos == Ring(readPos, |queue|, total))
      && readPtr == readPos * Stride(messageSize) && writePtr == writePos * Stride(messageSize)
      && Stored(memory[..], Stride(messageSize), total, readPos, queue)
    }

    ghost function AsCell(): Cell<Pipe>
      reads `queue, `owner, `handed, `sendingThread, `readers, `senders
    {
      Cell(id, direction, total, queue, owner, handed, sendingThread, readers, senders)
    }

    /** The pipe refers to these pipes and to threads of the scheduler only. */
    ghost predicate Linked(s: Scheduler, ps: set<Pipe>)
      reads `owner, `sendingThread, `readers, `senders, s`threads
    {
      && scheduler == s && NoRepeat(readers) && this !in readers
      && (owner != null ==> owner in s.threads) && (sendingThread != null ==> sendingThread in s.threads)
      && (forall r :: r in readers ==> r in ps) && (forall r :: r in senders ==> r in ps)
    }

    /** The scheduler knows the threads that are blocked here. */
    ghost predicate Known()
      reads `owner, `senders, senders`sendingThread, scheduler`threads
    {
      && (owner != null ==> owner in scheduler.threads)
      && (forall s :: s in senders && s.sendingThread != null ==> s.sendingThread in scheduler.threads)
    }

    /** The thread that last blocked in a read of this pipe waits on it: in that read, or in sending. */
    predicate Waits()
      reads `owner, (if owner == null then {} else {owner})`waitingOn
    {
      owner != null && owner.waitingOn == id
    }

    predicate IsReceiver() { direction != SendOnly }

    predicate IsSender() { direction != ReceiveOnly }

    /** An empty pipe with the buffer of `obj_create_pipe`. */
    constructor (id: nat, scheduler: Scheduler, direction: Direction, messageSize: nat, messages: nat,
                 memory: array<Byte>)
      requires id > 0 && messageSize % 4 == 0 && messageSize * messages + messages * HEADER <= memory.Length
      ensures Valid() && queue == [] && free == total == messages
      ensures this.id == id && this.scheduler == scheduler && this.messageSize == messageSize && this.memory == memory
      ensures this.direction == direction && owner == null && sendingThread == null && readers == [] && senders == []
    {
      this.id, this.scheduler := id, scheduler;
      this.direction, this.messageSize, this.total, this.memory := direction, messageSize, messages, memory;
      free, readPos, writePos, readPtr, writePtr := messages, 0, 0, 0, 0;
      owner, handed, sendingThread, readers, senders := null, [], null, [], [];
      queue := [];
      assert messages * (messageSize + HEADER) == messageSize * messages + messages * HEADER;
    }

    predicate CanReceive()
      reads `free
    {
      IsReceiver() && free > 0
    }

    /** Takes the oldest message off the ring. */
    method Pop()
      requires Valid() && |queue| > 0
      modifies `free, `readPos, `readPtr, `queue
      ensures Valid() && queue == old(queue)[1..]
    {
      hide Stored;
      hide Stride;
      hide Align;
      hide Ring;
      StoredPop(memory[..], Stride(messageSize), total, readPos, queue);
      NextSlot(readPos, messageSize);
      RingPop(readPos, |queue|, total);
      free := free + 1;
      if readPos + 1 == total {
        readPos := 0;
        readPtr := 0;
      } else {
        readPos := readPos + 1;
        readPtr := readPtr + (Align(messageSize, 4) + HEADER);
      }
      queue := queue[1..];
    }

    /** Makes a thread ready, if there is one and it waits. */
    method Wake(t: Thread?)
      requires scheduler.Valid() && (t != null ==> t in scheduler.threads)
      modifies scheduler.queues, scheduler.threads`state, scheduler.threads`waitingOn
      modifies scheduler`stack, scheduler`currQueue, scheduler`currPriority, scheduler`evalNew, scheduler`threads
      ensures Steady(scheduler) && forall x :: x in scheduler.threads ==>
                if x == t then Woken(scheduler, x) else Untouched(x)
      ensures t != null ==> IsQueue(t.priority) && scheduler.queues.Length == PRIORITIES
      ensures scheduler.queues[..] == if t != null && old(t.state) == Waiting
                                      then old(scheduler.queues[..])
                                           [t.priority := Joined(old(scheduler.queues[t.priority]), t)]
                                      else old(scheduler.queues[..])
    {
      hide Scheduler.Valid;
      hide Scheduler.Settled;
      hide Scheduler.OneRunning;
      hide Scheduler.In;
      hide FocusNew;
      if t != null {
        scheduler.SetReady(t);
      }
    }

    /** Makes the next thread of a line ready, if there is one and it waits. */
    method WakeNext(t: Thread?, ghost was: seq<seq<Thread>>, ghost line: seq<Thread?>, ghost n: nat)
      requires scheduler.Valid() && (t != null ==> t in scheduler.threads)
      requires Served(was, scheduler.queues[..], line, n) && n < |line| && line[n] == t
      requires t != null && t.state == Waiting ==> t !in line[..n]
      modifies scheduler.queues, scheduler.threads`state, scheduler.threads`waitingOn
      modifies scheduler`stack, scheduler`currQueue, scheduler`currPriority, scheduler`evalNew, scheduler`threads
      ensures Steady(scheduler) && forall x :: x in scheduler.threads ==>
                if x == t then Woken(scheduler, x) else Untouched(x)
      ensures Served(was, scheduler.queues[..], line, n + 1)
    {
      hide Scheduler.Valid;
      hide Scheduler.Settled;
      hide Scheduler.OneRunning;
      hide Scheduler.In;
      hide Served;
      hide Joined;
      Wake(t);
      if t != null && old(t.state) == Waiting {
        ServedNext(was, old(scheduler.queues[..]), line, n, t, t.priority);
      } else {
        ServedSame(was, old(scheduler.queues[..]), line, n);
      }
    }

    /** Wakes the threads that blocked in sending, at every pipe noted here, whatever they wait for by now. */
    method NotifySenders()
      requires scheduler.Valid() && Known()
      modifies scheduler.queues, scheduler.threads`state, scheduler.threads`waitingOn
      modifies scheduler`stack, scheduler`currQueue, scheduler`currPriority, scheduler`evalNew, scheduler`threads
      ensures Steady(scheduler) && forall t :: t in scheduler.threads ==>
                if t in Senders() then Woken(scheduler, t) else Untouched(t)
      ensures Served(old(scheduler.queues[..]), scheduler.queues[..], SendingThreads(senders), |senders|)
    {
      hide Scheduler.Valid;
      hide Scheduler.Settled;
      hide Scheduler.OneRunning;
      hide Scheduler.In;
      hide FocusNew;
      hide Served;
      hide Joined;
      hide Senders;
      hide Known;
      hide SendingThreads;
      ghost var was, line := scheduler.queues[..], SendingThreads(senders);
      SendersIs();
      ServedNone(was, line);
      var i := 0;
      ghost var up: set<Thread> := {};
      while i < |senders|
        invariant 0 <= i <= |senders| && Steady(scheduler) && SendingThreads(senders) == line
        invariant forall t: Thread :: t in up <==> t in line[..i]
        invariant forall t :: t in scheduler.threads ==> if t in up then Woken(scheduler, t) else Untouched(t)
        invariant Served(was, scheduler.queues[..], line, i)
      {
        var t := senders[i].sendingThread;
        WakeNext(t, was, line, i);
        if t != null {
          up := up + {t};
        }
        assert line[..i + 1] == line[..i] + [t];
        i := i + 1;
      }
      assert line[..i] == line;
    }

    /** The threads that last blocked in sending at these pipes. */
    static ghost function SendingThreads(ps: seq<Pipe>): (r: seq<Thread?>)
      reads ps`sendingThread
      ensures |r| == |ps| && forall i :: 0 <= i < |ps| ==> r[i] == ps[i].sendingThread
    {
      if ps == [] then [] else SendingThreads(ps[..|ps| - 1]) + [ps[|ps| - 1].sendingThread]
    }

    /** The threads that last blocked in sending at the pipes noted here. */
    ghost function Senders(): set<Thread>
      reads `senders, senders`sendingThread
    {
      set s | s in senders && s.sendingThread != null :: s.sendingThread
    }

    lemma SendersIs()
      requires Known()
      ensures forall t: Thread :: t in Senders() <==> t in SendingThreads(senders)
      ensures forall t :: t in SendingThreads(senders) && t != null ==> t in scheduler.threads
    {
      var line := SendingThreads(senders);
      forall t | t in line && t != null
        ensures t in Senders() && t in scheduler.threads
      {
        var i :| 0 <= i < |line| && line[i] == t;
        assert senders[i] in senders;
      }
      forall t | t in Senders()
        ensures t in line
      {
        var s :| s in senders && s.sendingThread == t;
        var i :| 0 <= i < |senders| && senders[i] == s;
        assert line[i] == t;
      }
    }

    /** Acknowledges the oldest message: it leaves the ring, and blocked senders may try again. */
    method Received()
      requires Valid() && |queue| > 0 && scheduler.Valid() && Known()
      modifies `free, `readPos, `readPtr, `queue
      modifies scheduler.queues, scheduler.threads`state, scheduler.threads`waitingOn
      modifies scheduler`stack, scheduler`currQueue, scheduler`currPriority, scheduler`evalNew, scheduler`threads
      ensures Valid() && queue == old(queue)[1..]
      ensures Steady(scheduler) && forall t :: t in scheduler.threads ==>
                if t in Senders() then Woken(scheduler, t) else Untouched(t)
    {
      hide Scheduler.Valid;
      hide Scheduler.Settled;
      hide Scheduler.OneRunning;
      hide Scheduler.In;
      hide Stored;
      Pop();
      NotifySenders();
    }

    /** Writes a message and its length into the next slot. */
    method PutMessage(message: Message)
      requires Valid() && free > 0 && |message| <= messageSize && |message| < W
      modifies `free, `writePos, `writePtr, `queue, memory
      ensures Valid() && queue == old(queue) + [message]
    {
      hide Stored;
      hide Stride;
      hide Align;
      hide Ring;
      hide Overwrite;
      StoredPush(memory[..], Stride(messageSize), total, readPos, queue, message);
      NextSlot(writePos, messageSize);
      RingPush(readPos, |queue|, total);
      CopyBytes(memory, writePtr, Encode(|message|));
      CopyBytes(memory, writePtr + HEADER, message);
      if writePos + 1 == total {
        writePos := 0;
        writePtr := 0;
      } else {
        writePos := writePos + 1;
        writePtr := writePtr + (Align(messageSize, 4) + HEADER);
      }
      free := free - 1;
      queue := queue + [message];
    }

    lemma Occupied()
      requires Valid()
      ensures (free < total <==> |queue| > 0) && id > 0
    {
    }

    /** The oldest message, read from its slot. */
    method FirstMessage() returns (message: Message)
      requires Valid() && |queue| > 0
      ensures message == queue[0]
    {
      StoredFirst(memory[..], Stride(messageSize), total, readPos, queue);
      var size := Decode(memory[readPtr..readPtr + HEADER]);
      message := memory[readPtr + HEADER..readPtr + HEADER + size];
    }

    /** Puts a message on the ring; if the thread noted here waits on the pipe, it gets the oldest one and goes on. */
    method ReceiveMessage(message: Message)
      requires Valid() && free > 0 && |message| <= messageSize && |message| < W && scheduler.Valid() && Known()
      modifies `free, `readPos, `readPtr, `writePos, `writePtr, `queue, `owner, `handed, memory
      modifies scheduler.queues, scheduler.threads`state, scheduler.threads`waitingOn
      modifies scheduler`stack, scheduler`currQueue, scheduler`currPriority, scheduler`evalNew, scheduler`threads
      ensures Valid() && Known() && !Waits()
      ensures var q := old(queue) + [message];
              if old(Waits()) then queue == q[1..] && owner == null && handed == q[0]
              else queue == q && owner == old(owner) && handed == old(handed)
      ensures Steady(scheduler) && forall t :: t in scheduler.threads ==>
                if old(Waits()) && (t == old(owner) || t in Senders()) then Woken(scheduler, t) else Untouched(t)
    {
      hide Scheduler.Valid;
      hide Scheduler.Settled;
      hide Scheduler.OneRunning;
      hide Scheduler.In;
      hide Stored;
      hide Valid;
      hide Senders;
      PutMessage(message);
      if Waits() {
        HandOver();
      }
    }

    /** Gives the oldest message to the thread noted here. */
    method HandOver()
      requires Valid() && |queue| > 0 && Waits() && scheduler.Valid() && Known()
      modifies `free, `readPos, `readPtr, `queue, `owner, `handed
      modifies scheduler.queues, scheduler.threads`state, scheduler.threads`waitingOn
      modifies scheduler`stack, scheduler`currQueue, scheduler`currPriority, scheduler`evalNew, scheduler`threads
      ensures Valid() && Known() && owner == null && handed == old(queue)[0] && queue == old(queue)[1..]
      ensures Steady(scheduler) && forall t :: t in scheduler.threads ==>
                if t == old(owner) || t in Senders() then Woken(scheduler, t) else Untouched(t)
    {
      hide Scheduler.Valid;
      hide Scheduler.Settled;
      hide Scheduler.OneRunning;
      hide Scheduler.In;
      hide Stored;
      hide Senders;
      hide FocusNew;
      Wake(owner);
      owner := null;
      handed := FirstMessage();
      Received();
    }

    /**
      A read by a thread: the oldest message if it is no longer than `max`.  If there is none, the thread may block
      until a message is handed to it.
     */
    method Receive(thread: Thread, max: nat, block: bool) returns (result: Result, message: Message)
      requires Valid() && scheduler.Valid() && Known() && thread in scheduler.threads
      modifies `free, `readPos, `readPtr, `queue, `owner, thread`reading
      modifies scheduler.queues, scheduler.threads`state, scheduler.threads`waitingOn
      modifies scheduler`stack, scheduler`currQueue, scheduler`currPriority, scheduler`evalNew, scheduler`threads
      ensures Valid() && Known() && scheduler.Valid() && scheduler.threads == old(scheduler.threads)
      ensures result == NoError <==> IsReceiver() && (if |old(queue)| > 0 then |old(queue)[0]| <= max else block)
      ensures result == OutOfRange <==> IsReceiver() && |old(queue)| > 0 && |old(queue)[0]| > max
      ensures result == Empty <==> IsReceiver() && |old(queue)| == 0 && !block
      ensures result == PolarityWrong <==> !IsReceiver()
      ensures if result == NoError && |old(queue)| > 0
              then message == old(queue)[0] && queue == old(queue)[1..]
              else message == [] && queue == old(queue)
      ensures owner == if result == NoError && |old(queue)| == 0 then thread else old(owner)
      ensures result == NoError && |old(queue)| == 0 ==>
                if CanWait(old(thread.state))
                    then thread.state == Waiting && Waits() && thread.reading && forall p :: !scheduler.In(thread, p)
                else Untouched(thread)
      ensures thread.reading == (old(thread.reading)
                || (result == NoError && |old(queue)| == 0 && CanWait(old(thread.state))))
      ensures forall t :: t in scheduler.threads ==>
                if result == NoError && |old(queue)| > 0 && t in Senders() then Woken(scheduler, t)
                else Untouched(t) || (result == NoError && |old(queue)| == 0 && t == thread)
      ensures old(scheduler.Settled()) ==> scheduler.Settled()
      ensures old(scheduler.OneRunning()) ==> scheduler.OneRunning()
    {
      hide Scheduler.Valid;
      hide Scheduler.Settled;
      hide Scheduler.OneRunning;
      hide Scheduler.In;
      hide Valid;
      hide Senders;
      hide FocusExit;
      Occupied();
      message := [];
      if !IsReceiver() {
        result := PolarityWrong;
      } else if free < total {
        message := FirstMessage();
        if |message| > max {
          result, message := OutOfRange, [];
        } else {
          Received();
          result := NoError;
        }
      } else if block {
        thread.reading := thread.reading || CanWait(thread.state);
        scheduler.SetWaiting(thread, id);
        owner := thread;
        result := NoError;
      } else {
        result := Empty;
      }
    }

    /** The same, in terms of the kernel. */
    method ReadHere(thread: Thread, max: nat, block: bool) returns (result: Result, message: Message)
      requires Valid() && scheduler.Valid() && Known() && thread in scheduler.threads
      modifies `free, `readPos, `readPtr, `queue, `owner, thread`reading
      modifies scheduler.queues, scheduler.threads`state, scheduler.threads`waitingOn
      modifies scheduler`stack, scheduler`currQueue, scheduler`currPriority, scheduler`evalNew, scheduler`threads
      ensures Valid() && scheduler.Valid() && Fits(scheduler)
      ensures ReadGives(old(AsCell()), max, block, result, message)
      ensures AsCell() == ReadCell(old(AsCell()), thread, max, block)
      ensures forall t :: t in scheduler.threads ==>
                MarkOf(t) == ReadMark(old(MarkOf(t)), old(AsCell()), max, block, t in old(Senders()), t == thread)
    {
      hide Scheduler.Valid;
      hide Scheduler.Settled;
      hide Scheduler.OneRunning;
      hide Scheduler.In;
      hide Valid;
      hide Senders;
      Occupied();
      result, message := Receive(thread, max, block);
    }

    /** The same, and what it does to the rings of the other pipes: nothing. */
    method ReadAmong(thread: Thread, max: nat, block: bool, ghost ps: set<Pipe>)
      returns (result: Result, message: Message)
      requires Valid() && scheduler.Valid() && Known() && thread in scheduler.threads && this in ps
      requires Apart(ps) && Rings(scheduler, ps)
      modifies `free, `readPos, `readPtr, `queue, `owner, thread`reading
      modifies scheduler.queues, scheduler.threads`state, scheduler.threads`waitingOn
      modifies scheduler`stack, scheduler`currQueue, scheduler`currPriority, scheduler`evalNew, scheduler`threads
      ensures scheduler.Valid() && Fits(scheduler) && scheduler.threads == old(scheduler.threads)
      ensures Rings(scheduler, ps) && forall p :: p in ps && p != this ==> p.AsCell() == old(p.AsCell())
      ensures ReadGives(old(AsCell()), max, block, result, message)
      ensures AsCell() == ReadCell(old(AsCell()), thread, max, block)
      ensures forall t :: t in scheduler.threads ==>
                MarkOf(t) == ReadMark(old(MarkOf(t)), old(AsCell()), max, block, t in old(Senders()), t == thread)
    {
      hide Scheduler.Valid;
      hide Scheduler.Settled;
      hide Scheduler.OneRunning;
      hide Scheduler.In;
      hide Valid;
      hide Known;
      hide Senders;
      hide AsCell;
      hide MarkOf;
      hide ReadMark;
      hide ReadCell;
      hide ReadGives;
      result, message := ReadHere(thread, max, block);
    }

    /** A read by a thread, in terms of the kernel. */
    method Read(thread: Thread, max: nat, block: bool, ghost ps: set<Pipe>) returns (result: Result, message: Message)
      requires Kernel(scheduler, ps) && this in ps && thread in scheduler.threads
      modifies `free, `readPos, `readPtr, `queue, `owner, thread`reading
      modifies scheduler.queues, scheduler.threads`state, scheduler.threads`waitingOn
      modifies scheduler`stack, scheduler`currQueue, scheduler`currPriority, scheduler`evalNew, scheduler`threads
      ensures Kernel(scheduler, ps) && Fits(scheduler)
      ensures ReceivedIs(old(WorldOf(scheduler, ps)), this, thread, max, block, WorldOf(scheduler, ps), result, message)
    {
      hide *;
      Members(this, ps);
      Others(scheduler, ps);
      WorldIsOk(scheduler, ps);
      WorldAt(scheduler, ps);
      CellIs(this);
      ghost var w := WorldOf(scheduler, ps);
      ReceiveOk(w, this, thread, max, block);
      result, message := ReadAmong(thread, max, block, ps);
      WorldAt(scheduler, ps);
      ReceiveIs(w, WorldOf(scheduler, ps), this, thread, max, block);
      ReceivedEnds(w, this, thread, max, block, result, message);
      KernelIs(scheduler, ps);
    }

    /** Whether every receiver has room; a sender that means to wait is noted at those that have not. */
    method CanSendToAll(blocking: bool) returns (all: bool)
      requires NoRepeat(readers)
      modifies readers`senders
      ensures all <==> AllReady(readers)
      ensures all <==> forall r :: r in readers ==> r.direction != SendOnly && r.free > 0
      ensures forall r :: r in readers ==> NotedAt(r, this, blocking)
    {
      hide Valid;
      hide AllReady;
      all := true;
      var i := 0;
      ReadyPrefix(readers);
      while i < |readers|
        invariant 0 <= i <= |readers|
        invariant all <==> AllReady(readers[..i])
        invariant forall k :: i <= k < |readers| ==> readers[k].senders == old(readers[k].senders)
        invariant forall k :: 0 <= k < i ==> NotedAt(readers[k], this, blocking)
      {
        var receiver := readers[i];
        var can := receiver.CanReceive();
        ReadyNext(readers, i);
        if !can && blocking {
          receiver.senders := receiver.senders + [this];
        }
        all := if !all then all else can;
        i := i + 1;
      }
      FreeIs(readers);
    }

    /** Takes a message; what that does to the threads. */
    method AcceptSince(message: Message, ghost since: Snapshot)
      requires Valid() && free > 0 && |message| <= messageSize && |message| < W && Known() && Since(scheduler, since)
      modifies `free, `readPos, `readPtr, `writePos, `writePtr, `queue, `owner, `handed, memory
      modifies scheduler.queues, scheduler.threads`state, scheduler.threads`waitingOn
      modifies scheduler`stack, scheduler`currQueue, scheduler`currPriority, scheduler`evalNew, scheduler`threads
      ensures Valid() && Since(scheduler, since) && scheduler.threads == old(scheduler.threads)
      ensures AsCell() == CellAfter(old(AsCell()), message, old(Waits()))
      ensures forall t :: t in scheduler.threads ==>
                MarkOf(t) == if old(Waits()) && (t == old(owner) || t in old(Senders())) then WokenMark(old(MarkOf(t)))
                             else old(MarkOf(t))
    {
      hide Scheduler.Valid;
      hide Scheduler.Settled;
      hide Scheduler.OneRunning;
      hide Scheduler.In;
      hide Valid;
      hide Senders;
      hide Waits;
      hide Served;
      hide Known;
      hide SendingThreads;
      hide BusyOf;
      hide Fits;
      hide InOf;
      ReceiveMessage(message);
    }

    /** Takes a message; what that does to the pipes and threads of the kernel. */
    method Accept(message: Message, ghost ps: set<Pipe>, ghost since: Snapshot)
      requires Valid() && free > 0 && |message| <= messageSize && |message| < W && Known()
      requires this in ps && Apart(ps) && Rings(scheduler, ps) && Since(scheduler, since)
      modifies `free, `readPos, `readPtr, `writePos, `writePtr, `queue, `owner, `handed, memory
      modifies scheduler.queues, scheduler.threads`state, scheduler.threads`waitingOn
      modifies scheduler`stack, scheduler`currQueue, scheduler`currPriority, scheduler`evalNew, scheduler`threads
      ensures Since(scheduler, since) && scheduler.threads == old(scheduler.threads) && Rings(scheduler, ps)
      ensures AsCell() == CellAfter(old(AsCell()), message, old(Waits()))
      ensures forall p :: p in ps && p != this ==> p.AsCell() == old(p.AsCell())
      ensures forall t :: t in scheduler.threads ==>
                MarkOf(t) == if old(Waits()) && (t == old(owner) || t in old(Senders())) then WokenMark(old(MarkOf(t)))
                             else old(MarkOf(t))
    {
      hide Scheduler.Valid;
      hide Valid;
      hide Known;
      hide Senders;
      hide Waits;
      hide Since;
      hide AsCell;
      hide MarkOf;
      hide WokenMark;
      hide CellAfter;
      AcceptSince(message, since);
    }

    /** Takes a message, if there is room. */
    method Take(message: Message, ghost ps: set<Pipe>, ghost since: Snapshot)
      requires Kernel(scheduler, ps) && this in ps && |message| <= messageSize && |message| < W
      requires Since(scheduler, since)
      modifies `free, `readPos, `readPtr, `writePos, `writePtr, `queue, `owner, `handed, memory
      modifies scheduler.queues, scheduler.threads`state, scheduler.threads`waitingOn
      modifies scheduler`stack, scheduler`currQueue, scheduler`currPriority, scheduler`evalNew, scheduler`threads
      ensures Kernel(scheduler, ps)
      ensures WorldOf(scheduler, ps) == Offer(old(WorldOf(scheduler, ps)), this, message).world
      ensures Since(scheduler, since) && scheduler.threads == old(scheduler.threads)
    {
      hide *;
      Members(this, ps);
      Others(scheduler, ps);
      WorldIsOk(scheduler, ps);
      WorldAt(scheduler, ps);
      CellIs(this);
      ghost var w := WorldOf(scheduler, ps);
      OfferOk(w, this, message);
      if !CanReceive() {
        NoOffer(w, this, message);
      } else {
        Accept(message, ps, since);
        WorldAt(scheduler, ps);
      CellIs(this);
        OfferIs(w, WorldOf(scheduler, ps), this, message);
        SinceIs(scheduler, since);
        KernelIs(scheduler, ps);
      }
    }

    /** Hands a message to every receiver that has room. */
    method Broadcast(message: Message, ghost ps: set<Pipe>, ghost since: Snapshot)
      requires Kernel(scheduler, ps) && this in ps && |message| < W && Since(scheduler, since)
      requires forall r :: r in readers ==> |message| <= r.messageSize
      modifies readers`free, readers`readPos, readers`readPtr, readers`writePos, readers`writePtr, readers`queue
      modifies readers`owner, readers`handed, set r | r in readers :: r.memory
      modifies scheduler.queues, scheduler.threads`state, scheduler.threads`waitingOn
      modifies scheduler`stack, scheduler`currQueue, scheduler`currPriority, scheduler`evalNew, scheduler`threads
      ensures Kernel(scheduler, ps) && Since(scheduler, since) && old(ReadersIn(WorldOf(scheduler, ps), readers))
      ensures WorldOf(scheduler, ps) == Deliver(old(WorldOf(scheduler, ps)), readers, message, |readers|).world
    {
      hide *;
      ReadersAre(this, ps);
      ghost var w := WorldOf(scheduler, ps);
      DeliverNext(w, readers, message, 0);
      var i := 0;
      while i < |readers|
        invariant 0 <= i <= |readers| && Kernel(scheduler, ps) && Since(scheduler, since)
        invariant scheduler.threads == old(scheduler.threads)
        invariant WorldOf(scheduler, ps) == Deliver(w, readers, message, i).world
      {
        DeliverNext(w, readers, message, i);
        readers[i].Take(message, ps, since);
        i := i + 1;
      }
    }

    method BlockHere(thread: Thread, ghost since: Snapshot)
      requires scheduler.Valid() && thread in scheduler.threads && FitsSince(scheduler, since)
      modifies `sendingThread, thread`state, thread`waitingOn, thread`reading, scheduler.queues
      modifies scheduler`stack, scheduler`currQueue, scheduler`currPriority, scheduler`evalNew
      ensures scheduler.Valid() && FitsSince(scheduler, since) && AsCell() == old(AsCell()).(sendingThread := thread)
      ensures MarkOf(thread) == if CanWait(old(MarkOf(thread).state)) then Mark(Waiting, id, false)
                                else old(MarkOf(thread))
      ensures Out(scheduler, thread)
    {
      hide Scheduler.Valid;
      hide Scheduler.Settled;
      hide Scheduler.OneRunning;
      hide Scheduler.In;
      hide FocusExit;
      sendingThread := thread;
      thread.reading := thread.reading && !CanWait(thread.state);
      scheduler.SetWaiting(thread, id);
    }

    /** The pipe has noted the sender if it has to wait for room there. */
    ghost predicate Notes(p: Pipe, c: Cell<Pipe>)
      reads p, `readers
    {
      p.AsCell() == if p in readers && !c.HasRoom() then c.(senders := c.senders + [this]) else c
    }

    /** The kernel is as it was, except that the sender is noted where it has to wait for room. */
    ghost predicate NotedState(ps: set<Pipe>, was: World<Pipe>)
      reads this, ps, (set p | p in ps :: p.memory), scheduler, scheduler.queues, scheduler.threads
    {
      && scheduler.Valid() && this in ps && this !in readers && Apart(ps) && Rings(scheduler, ps) && WorldOk(was)
      && was.pipes.Keys == ps && was.threads.Keys == scheduler.threads && was.pipes[this].readers == readers
      && (forall t :: t in scheduler.threads ==> was.threads[t] == MarkOf(t))
      && (forall p :: p in ps ==> Notes(p, was.pipes[p]))
    }

    /** Whether every receiver has room; what that does to the pipes of the kernel, `was`. */
    method NoteAll(blocking: bool, ghost ps: set<Pipe>, ghost was: World<Pipe>) returns (all: bool)
      requires NoRepeat(readers) && (forall r :: r in readers ==> r in ps) && was.pipes.Keys == ps
      requires forall p :: p in ps ==> p.AsCell() == was.pipes[p] && (p.CanReceive() <==> p.AsCell().HasRoom())
      modifies readers`senders
      ensures all <==> AllReady(readers)
      ensures forall p :: p in ps ==>
                if all || !blocking then p.AsCell() == was.pipes[p] else Notes(p, was.pipes[p])
    {
      hide NoRepeat;
      hide AllReady;
      hide AsCell;
      hide CanReceive;
      all := CanSendToAll(blocking);
      if all {
        ReadyAt(readers);
      }
      forall p | p in ps
        ensures if all || !blocking then p.AsCell() == was.pipes[p] else Notes(p, was.pipes[p])
      {
        if p in readers {
          assert NotedAt(p, this, blocking);
        }
      }
    }

    /**
      Prepares to send to all the receivers, in the kernel `was`.  Unless each has room, a sender that means to wait is
      noted at those that are full; otherwise nothing changes.
     */
    method Prepare(blocking: bool, ghost ps: set<Pipe>, ghost was: World<Pipe>) returns (all: bool)
      requires Kernel(scheduler, ps) && this in ps && was == WorldOf(scheduler, ps)
      modifies readers`senders
      ensures all <==> AllRoom(was, readers)
      ensures all || !blocking ==> Kernel(scheduler, ps) && WorldOf(scheduler, ps) == was
      ensures !all && blocking ==> NotedState(ps, was)
    {
      hide *;
      Others(scheduler, ps);
      ReadersAre(this, ps);
      Rooms(scheduler, ps);
      ReadyIs(this, ps);
      WorldIsOk(scheduler, ps);
      WorldAt(scheduler, ps);
      CellIs(this);
      all := NoteAll(blocking, ps, was);
      if all || !blocking {
        WorldIs(scheduler, ps, was);
        KernelIs(scheduler, ps);
      } else {
        NotedNow(this, ps, was);
      }
    }

    /** The thread blocks in sending; what that does to the pipes and threads of the kernel, `was`. */
    method BlockSender(thread: Thread, ghost ps: set<Pipe>, ghost was: World<Pipe>, ghost since: Snapshot)
      requires NotedState(ps, was) && FitsSince(scheduler, since) && thread in scheduler.threads
      modifies `sendingThread, thread`state, thread`waitingOn, thread`reading, scheduler.queues
      modifies scheduler`stack, scheduler`currQueue, scheduler`currPriority, scheduler`evalNew
      ensures Kernel(scheduler, ps) && WorldOf(scheduler, ps) == SendBlocked(was, this, thread).world
      ensures FitsSince(scheduler, since) && Out(scheduler, thread)
    {
      hide *;
      NotedIs(this, ps, was);
      SendBlockedOk(was, this, thread);
      NotesItself(this, was.pipes[this]);
      CellIs(this);
      BlockHere(thread, since);
      CellIs(this);
      BlockedWorld(this, ps, was, thread);
      KernelIs(scheduler, ps);
    }

    /** Sends a message to all receivers, if each has room. */
    method SendToAll(thread: Thread, message: Message, block: bool, ghost ps: set<Pipe>, ghost since: Snapshot)
      returns (result: Result)
      requires Kernel(scheduler, ps) && this in ps && thread in scheduler.threads && |message| < W && IsSender()
      requires (forall r :: r in readers ==> |message| <= r.messageSize) && Since(scheduler, since)
      modifies `sendingThread, readers`senders, thread`reading
      modifies readers`free, readers`readPos, readers`readPtr, readers`writePos, readers`writePtr, readers`queue
      modifies readers`owner, readers`handed, set r | r in readers :: r.memory
      modifies scheduler.queues, scheduler.threads`state, scheduler.threads`waitingOn
      modifies scheduler`stack, scheduler`currQueue, scheduler`currPriority, scheduler`evalNew, scheduler`threads
      ensures Kernel(scheduler, ps)
      ensures SentIs(old(WorldOf(scheduler, ps)), this, thread, SendAll, message, block, WorldOf(scheduler, ps), result)
      ensures result == BlockedRetry ==> FitsSince(scheduler, since) && Out(scheduler, thread)
      ensures result != BlockedRetry ==> Since(scheduler, since)
    {
      hide *;
      FitsIs(scheduler, since);
      SendEnds(this, ps, thread, SendAll, message, block);
      ghost var w := WorldOf(scheduler, ps);
      var all := Prepare(block, ps, w);
      if all {
        Broadcast(message, ps, since);
        result := NoError;
      } else if block {
        BlockSender(thread, ps, w, since);
        result := BlockedRetry;
      } else {
        result := ReceiversFull;
      }
    }

    /** Sends a message to the receivers that have room. */
    method SendSince(thread: Thread, kind: SendKind, message: Message, block: bool, ghost ps: set<Pipe>,
                     ghost since: Snapshot)
      returns (result: Result)
      requires Kernel(scheduler, ps) && this in ps && thread in scheduler.threads && |message| < W
      requires (forall r :: r in readers ==> |message| <= r.messageSize) && Since(scheduler, since)
      modifies `sendingThread, readers`senders, thread`reading
      modifies readers`free, readers`readPos, readers`readPtr, readers`writePos, readers`writePtr, readers`queue
      modifies readers`owner, readers`handed, set r | r in readers :: r.memory
      modifies scheduler.queues, scheduler.threads`state, scheduler.threads`waitingOn
      modifies scheduler`stack, scheduler`currQueue, scheduler`currPriority, scheduler`evalNew, scheduler`threads
      ensures Kernel(scheduler, ps) && FitsSince(scheduler, since)
      ensures SentIs(old(WorldOf(scheduler, ps)), this, thread, kind, message, block, WorldOf(scheduler, ps), result)
      ensures if result == BlockedRetry then Out(scheduler, thread) else Since(scheduler, since)
    {
      hide *;
      SendEnds(this, ps, thread, kind, message, block);
      if !IsSender() {
        result := PolarityWrong;
      } else if kind == SendAll {
        result := SendToAll(thread, message, block, ps, since);
      } else {
        Broadcast(message, ps, since);
        result := NoError;
      }
      if result != BlockedRetry {
        FitsIs(scheduler, since);
      }
    }

    /**
      Sends a message to the receivers that have room.  Sending to all is refused, or the thread blocks and is to try
      again, unless every receiver has room.
     */
    method Send(thread: Thread, kind: SendKind, message: Message, block: bool, ghost ps: set<Pipe>)
      returns (result: Result)
      requires Kernel(scheduler, ps) && this in ps && thread in scheduler.threads && |message| < W
      requires forall r :: r in readers ==> |message| <= r.messageSize
      modifies `sendingThread, readers`senders, thread`reading
      modifies readers`free, readers`readPos, readers`readPtr, readers`writePos, readers`writePtr, readers`queue
      modifies readers`owner, readers`handed, set r | r in readers :: r.memory
      modifies scheduler.queues, scheduler.threads`state, scheduler.threads`waitingOn
      modifies scheduler`stack, scheduler`currQueue, scheduler`currPriority, scheduler`evalNew, scheduler`threads
      ensures Kernel(scheduler, ps)
      ensures SentIs(old(WorldOf(scheduler, ps)), this, thread, kind, message, block, WorldOf(scheduler, ps), result)
      ensures scheduler.threads == old(scheduler.threads) && Fits(scheduler)
      ensures if result == BlockedRetry then Out(scheduler, thread) else Woke(scheduler)
    {
      hide Scheduler.Valid;
      hide Scheduler.Settled;
      hide Scheduler.OneRunning;
      hide Scheduler.In;
      hide Kernel;
      hide WorldOf;
      hide Since;
      hide InOf;
      hide SentIs;
      Others(scheduler, ps);
      ghost var start := TakeSnapshot(scheduler);
      result := SendSince(thread, kind, message, block, ps, start);
      if result != BlockedRetry {
        SinceIs(scheduler, start);
      }
    }
  }

  /** The result of a read, and the message it returns. */
  ghost predicate ReadGives(c: Cell<Pipe>, max: nat, block: bool, result: Result, message: Message) {
    && message == (if Takes(c, max) then c.queue[0] else [])
    && result == if !c.IsReceiver() then PolarityWrong
                 else if Takes(c, max) || BlocksRead(c, block) then NoError
                 else if c.queue != [] then OutOfRange else Empty
  }

  /** The state, the result and the message are those of a read. */
  ghost predicate ReceivedIs(w: World<Pipe>, p: Pipe, t: Thread, max: nat, block: bool, w': World<Pipe>,
                             result: Result, message: Message) {
    && p in w.pipes && t in w.threads
    && var d := PipeModel.Receive(w, p, t, max, block);
    w' == d.world && result == d.entry.result && message == d.entry.message
  }

  lemma ReceivedEnds(w: World<Pipe>, p: Pipe, t: Thread, max: nat, block: bool, result: Result, message: Message)
    requires p in w.pipes && t in w.threads && ReadGives(w.pipes[p], max, block, result, message)
    ensures ReceivedIs(w, p, t, max, block, PipeModel.Receive(w, p, t, max, block).world, result, message)
  {
  }

  /** The four ends of a send. */
  lemma SendCases(w: World<Pipe>, p: Pipe, t: Thread, kind: SendKind, message: Message, block: bool)
    requires p in w.pipes && t in w.threads && ReadersIn(w, w.pipes[p].readers)
    ensures var rs := w.pipes[p].readers;
            if !w.pipes[p].IsSender() then SentIs(w, p, t, kind, message, block, w, PolarityWrong)
            else if kind == SendAvailable || AllRoom(w, rs)
            then SentIs(w, p, t, kind, message, block, Deliver(w, rs, message, |rs|).world, NoError)
            else if block then SentIs(w, p, t, kind, message, block, SendBlocked(w, p, t).world, BlockedRetry)
            else SentIs(w, p, t, kind, message, block, w, ReceiversFull)
  {
  }

  lemma SendEnds(p: Pipe, ps: set<Pipe>, t: Thread, kind: SendKind, message: Message, block: bool)
    requires Kernel(p.scheduler, ps) && p in ps && t in p.scheduler.threads
    ensures var w := WorldOf(p.scheduler, ps);
            && ReadersIn(w, p.readers) && p in w.pipes && t in w.threads
            && if !p.IsSender() then SentIs(w, p, t, kind, message, block, w, PolarityWrong)
               else if kind == SendAvailable || AllRoom(w, p.readers)
               then SentIs(w, p, t, kind, message, block, Deliver(w, p.readers, message, |p.readers|).world, NoError)
               else if block then SentIs(w, p, t, kind, message, block, SendBlocked(w, p, t).world, BlockedRetry)
               else SentIs(w, p, t, kind, message, block, w, ReceiversFull)
  {
    hide *;
    var w := WorldOf(p.scheduler, ps);
    ReadersAre(p, ps);
    WorldAt(p.scheduler, ps);
    CellIs(p);
    SendCases(w, p, t, kind, message, block);
    InReaders(w, p.readers);
  }

  lemma InReaders(w: World<Pipe>, rs: seq<Pipe>)
    requires ReadersIn(w, rs)
    ensures forall r :: r in rs ==> r in w.pipes
  {
  }

  lemma FitsIs(s: Scheduler, since: Snapshot)
    requires Since(s, since)
    ensures FitsSince(s, since)
  {
    hide Scheduler.Valid;
    hide Scheduler.Settled;
    hide Scheduler.OneRunning;
  }

  /** The state and the result are those of a send. */
  ghost predicate SentIs(w: World<Pipe>, p: Pipe, t: Thread, kind: SendKind, message: Message, block: bool,
                         w': World<Pipe>, result: Result)
  {
    && p in w.pipes && t in w.threads && ReadersIn(w, w.pipes[p].readers)
    && var d := PipeModel.Send(w, p, t, kind, message, block);
    w' == d.world && result == d.entry.result && d.entry.message == []
  }

  /** No thread is lost to the scheduler, and run queues and states still fit. */
  twostate predicate Fits(s: Scheduler)
    reads s, s.queues, s.threads
  {
    && s.threads == old(s.threads)
    && (old(s.Settled()) ==> s.Settled()) && (old(s.OneRunning()) ==> s.OneRunning())
  }

  /** The thread is in no run queue, if it waits. */
  ghost predicate Out(s: Scheduler, t: Thread)
    reads s.queues, t`state
  {
    t.state == Waiting ==> forall p :: !s.In(t, p)
  }

  /** No thread has left its run queue, and those that waited and are ready now are in theirs. */
  twostate predicate Woke(s: Scheduler)
    reads s, s.queues, s.threads
  {
    && s.threads == old(s.threads) && (forall t, p :: t in s.threads && old(s.In(t, p)) ==> s.In(t, p))
    && (forall t :: t in s.threads && old(t.state) == Waiting && t.state == Ready ==> s.In(t, t.priority))
  }

  /** Threads and run queues at some time. */
  datatype Snapshot = Snapshot(marks: map<Thread, Mark>, queues: seq<seq<Thread>>, settled: bool, oneRunning: bool)

  /**
    Since then no thread has left its run queue; each thread is as it was, or it waited then and is ready and in its run
    queue now.
   */
  ghost predicate Since(s: Scheduler, since: Snapshot)
    reads s, s.queues, s.threads
  {
    && s.Valid() && since.marks.Keys == s.threads && (forall t :: t in s.threads ==> WokenFrom(s, since.marks[t], t))
    && (forall t, p :: t in s.threads && InOf(since.queues, t, p) ==> s.In(t, p))
    && (since.settled ==> s.Settled()) && (since.oneRunning ==> s.OneRunning())
  }

  /** Since then no thread was lost to the scheduler, and run queues and states still fit. */
  ghost predicate FitsSince(s: Scheduler, since: Snapshot)
    reads s, s.queues, s.threads
  {
    since.marks.Keys == s.threads && (since.settled ==> s.Settled()) && (since.oneRunning ==> s.OneRunning())
  }

  ghost predicate WokenFrom(s: Scheduler, m: Mark, t: Thread)
    reads s.queues, t
  {
    MarkOf(t) == m || (m.state == Waiting && MarkOf(t) == WokenMark(m) && s.In(t, t.priority))
  }

  ghost predicate InOf(qs: seq<seq<Thread>>, t: Thread, p: int) {
    0 <= p < |qs| && t in qs[p]
  }

  lemma SinceIs(s: Scheduler, since: Snapshot)
    requires Since(s, since)
    ensures s.Valid() && since.marks.Keys == s.threads && forall t :: t in s.threads ==> WokenFrom(s, since.marks[t], t)
    ensures forall t, p :: t in s.threads && InOf(since.queues, t, p) ==> s.In(t, p)
    ensures FitsSince(s, since)
  {
  }

  lemma TakeSnapshot(s: Scheduler) returns (now: Snapshot)
    requires s.Valid()
    ensures Since(s, now) && (now.settled <==> s.Settled()) && (now.oneRunning <==> s.OneRunning())
    ensures now.marks == (map t | t in s.threads :: MarkOf(t)) && forall t, p :: InOf(now.queues, t, p) <==> s.In(t, p)
  {
    hide Scheduler.Valid;
    hide Scheduler.Settled;
    hide Scheduler.OneRunning;
    now := Snapshot(map t | t in s.threads :: MarkOf(t), s.queues[..], s.Settled(), s.OneRunning());
  }

  ghost predicate ReadersIn(w: World<Pipe>, rs: seq<Pipe>) {
    forall r :: r in rs ==> r in w.pipes
  }

  /** The receivers of a pipe are pipes of the kernel. */
  lemma ReadersAre(p: Pipe, ps: set<Pipe>)
    requires p in ps && Kernel(p.scheduler, ps)
    ensures NoRepeat(p.readers) && p !in p.readers
    ensures forall r :: r in p.readers ==> r in ps && r.scheduler == p.scheduler
    ensures ReadersIn(WorldOf(p.scheduler, ps), p.readers)
  {
    assert p.Linked(p.scheduler, ps);
    forall r | r in p.readers
      ensures r.scheduler == p.scheduler
    {
      assert r.Linked(p.scheduler, ps);
    }
  }

  /** Every one of the pipes has room. */
  ghost predicate AllReady(ps: seq<Pipe>)
    reads ps`free
  {
    forall p :: p in ps ==> p.CanReceive()
  }

  lemma FreeIs(ps: seq<Pipe>)
    ensures AllReady(ps) <==> forall p :: p in ps ==> p.direction != SendOnly && p.free > 0
  {
    assert AllReady(ps) ==> forall p :: p in ps ==> p.CanReceive();
  }

  lemma ReadyPrefix(ps: seq<Pipe>)
    ensures AllReady(ps[..0]) && ps[..|ps|] == ps
  {
  }

  lemma ReadyAt(ps: seq<Pipe>)
    requires AllReady(ps)
    ensures forall k :: 0 <= k < |ps| ==> ps[k].CanReceive()
  {
  }

  lemma ReadyNext(ps: seq<Pipe>, i: nat)
    requires i < |ps|
    ensures AllReady(ps[..i + 1]) <==> AllReady(ps[..i]) && ps[i].CanReceive()
  {
    assert ps[..i + 1] == ps[..i] + [ps[i]];
  }

  /** The sender is noted at the receiver if it has to wait for room there. */
  twostate predicate NotedAt(p: Pipe, sender: Pipe, blocking: bool)
    reads p
  {
    var c := old(p.AsCell());
    p.AsCell() == if p.CanReceive() || !blocking then c else c.(senders := c.senders + [sender])
  }

  /** No two pipes share a buffer or a number. */
  ghost predicate Apart(ps: set<Pipe>) {
    forall p, q :: p in ps && q in ps && p != q ==> p.memory != q.memory && p.id != q.id
  }

  /** The pipes of a kernel and its scheduler are in order, and refer to each other only. */
  ghost predicate Kernel(s: Scheduler, ps: set<Pipe>)
    reads s, s.queues, s.threads`priority, s.threads`originalPriority, ps, set p | p in ps :: p.memory
  {
    s.Valid() && Apart(ps) && Rings(s, ps) && forall p :: p in ps ==> p.Linked(s, ps)
  }

  /** The rings of the pipes are in order. */
  ghost predicate Rings(s: Scheduler, ps: set<Pipe>)
    reads ps`free, ps`readPos, ps`writePos, ps`readPtr, ps`writePtr, ps`queue, set p | p in ps :: p.memory
  {
    forall p :: p in ps ==> p.scheduler == s && p.Valid()
  }

  ghost function WorldOf(s: Scheduler, ps: set<Pipe>): World<Pipe>
    reads s`threads, s.threads`state, s.threads`waitingOn, s.threads`reading
    reads ps`queue, ps`owner, ps`handed, ps`sendingThread, ps`readers, ps`senders
  {
    World(map p | p in ps :: p.AsCell(), map t | t in s.threads :: MarkOf(t))
  }

  lemma NotedIs(p: Pipe, ps: set<Pipe>, was: World<Pipe>)
    requires p.NotedState(ps, was)
    ensures p.scheduler.Valid() && p in ps && p !in p.readers && Apart(ps) && Rings(p.scheduler, ps) && WorldOk(was)
    ensures was.pipes.Keys == ps && was.threads.Keys == p.scheduler.threads && was.pipes[p].readers == p.readers
    ensures forall t :: t in p.scheduler.threads ==> was.threads[t] == MarkOf(t)
    ensures forall q :: q in ps ==> p.Notes(q, was.pipes[q])
  {
  }

  lemma NotedNow(p: Pipe, ps: set<Pipe>, was: World<Pipe>)
    requires p.scheduler.Valid() && p in ps && p !in p.readers && Apart(ps) && Rings(p.scheduler, ps) && WorldOk(was)
    requires was.pipes.Keys == ps && was.threads.Keys == p.scheduler.threads && was.pipes[p].readers == p.readers
    requires forall t :: t in p.scheduler.threads ==> was.threads[t] == MarkOf(t)
    requires forall q :: q in ps ==> p.Notes(q, was.pipes[q])
    ensures p.NotedState(ps, was)
  {
  }

  lemma NotesItself(p: Pipe, c: Cell<Pipe>)
    requires p.Notes(p, c) && p !in p.readers
    ensures p.AsCell() == c
  {
  }

  lemma CellIs(p: Pipe)
    ensures p.AsCell().readers == p.readers && (p.AsCell().IsSender() <==> p.IsSender()) && p.AsCell().id == p.id
    ensures p.AsCell().direction == p.direction && p.AsCell().owner == p.owner
    ensures p.AsCell().handed == p.handed && p.AsCell().queue == p.queue
  {
  }

  lemma WorldAt(s: Scheduler, ps: set<Pipe>)
    ensures WorldOf(s, ps).pipes.Keys == ps && WorldOf(s, ps).threads.Keys == s.threads
    ensures forall p :: p in ps ==> WorldOf(s, ps).pipes[p] == p.AsCell()
    ensures forall t :: t in s.threads ==> WorldOf(s, ps).threads[t] == MarkOf(t)
  {
  }

  lemma WorldIs(s: Scheduler, ps: set<Pipe>, w: World<Pipe>)
    requires w.pipes.Keys == ps && w.threads.Keys == s.threads
    requires forall p :: p in ps ==> p.AsCell() == w.pipes[p]
    requires forall t :: t in s.threads ==> MarkOf(t) == w.threads[t]
    ensures WorldOf(s, ps) == w
  {
    assert WorldOf(s, ps).pipes == w.pipes && WorldOf(s, ps).threads == w.threads;
  }

  lemma BlockedWorld(p: Pipe, ps: set<Pipe>, was: World<Pipe>, t: Thread)
    requires p in ps && p !in p.readers && t in p.scheduler.threads
    requires was.pipes.Keys == ps && was.threads.Keys == p.scheduler.threads && was.pipes[p].readers == p.readers
    requires p.AsCell() == was.pipes[p].(sendingThread := t)
    requires forall q :: q in ps && q != p ==> p.Notes(q, was.pipes[q])
    requires forall x :: x in p.scheduler.threads && x != t ==> MarkOf(x) == was.threads[x]
    requires MarkOf(t) == if CanWait(was.threads[t].state) then Mark(Waiting, p.id, false) else was.threads[t]
    ensures WorldOf(p.scheduler, ps) == SendBlocked(was, p, t).world
  {
    hide SendBlocked;
    SendBlockedIs(was, WorldOf(p.scheduler, ps), p, t);
  }

  lemma WorldIsOk(s: Scheduler, ps: set<Pipe>)
    requires Kernel(s, ps)
    ensures WorldOk(WorldOf(s, ps))
  {
    hide Scheduler.Valid;
    var w := WorldOf(s, ps);
    forall p | p in w.pipes
      ensures CellOk(w, p)
    {
      assert p.Linked(s, ps) && p.Valid();
      hide Stored;
    }
  }

  lemma KernelIs(s: Scheduler, ps: set<Pipe>)
    requires s.Valid() && Apart(ps) && Rings(s, ps) && WorldOk(WorldOf(s, ps))
    ensures Kernel(s, ps)
  {
    hide Scheduler.Valid;
    hide Pipe.Valid;
    var w := WorldOf(s, ps);
    forall p | p in ps
      ensures p.Linked(s, ps)
    {
      assert CellOk(w, p) && p.scheduler == s;
    }
  }

  lemma Others(s: Scheduler, ps: set<Pipe>)
    requires Kernel(s, ps)
    ensures s.Valid() && Apart(ps) && Rings(s, ps)
  {
  }

  lemma NoOffer(w: World<Pipe>, p: Pipe, message: Message)
    requires p in w.pipes && !w.pipes[p].HasRoom()
    ensures Offer(w, p, message).world == w
  {
  }

  lemma Rooms(s: Scheduler, ps: set<Pipe>)
    requires Kernel(s, ps)
    ensures forall p :: p in ps ==> (p.CanReceive() <==> p.AsCell().HasRoom())
  {
    hide Scheduler.Valid;
    hide Stored;
    forall p | p in ps
      ensures p.CanReceive() <==> p.AsCell().HasRoom()
    {
      assert p.Valid();
    }
  }

  lemma ReadyIs(p: Pipe, ps: set<Pipe>)
    requires p in ps && Kernel(p.scheduler, ps)
    ensures AllReady(p.readers) <==> AllRoom(WorldOf(p.scheduler, ps), p.readers)
  {
    hide Kernel;
    Rooms(p.scheduler, ps);
    ReadersAre(p, ps);
  }

  /** What a kernel in order says of one of its pipes. */
  lemma Members(p: Pipe, ps: set<Pipe>)
    requires p in ps && Kernel(p.scheduler, ps)
    ensures p.Valid() && p.Known() && p.scheduler.Valid() && p.id > 0
    ensures (p.CanReceive() <==> p.AsCell().HasRoom()) && (p.CanReceive() ==> p.free > 0)
    ensures p.Waits() <==> PipeModel.Waits(WorldOf(p.scheduler, ps), p)
    ensures p.Senders() == SendersOf(WorldOf(p.scheduler, ps), p)
  {
    hide Scheduler.Valid;
    hide Stored;
    forall q | q in ps
      ensures q.Linked(p.scheduler, ps)
    {
    }
  }

  /** No thread is lost to the scheduler or leaves its run queue. */
  twostate predicate Steady(s: Scheduler)
    reads s, s.queues, s.threads
  {
    && s.Valid() && s.threads == old(s.threads)
    && (forall t, p :: t in s.threads && old(s.In(t, p)) ==> s.In(t, p))
    && (old(s.Settled()) ==> s.Settled())
    && (old(s.OneRunning()) ==> s.OneRunning())
  }

  lemma NextSlot(pos: nat, messageSize: nat)
    ensures (pos + 1) * Stride(messageSize) == pos * Stride(messageSize) + Stride(messageSize)
    ensures Stride(messageSize) == Align(messageSize, 4) + HEADER && 0 * Stride(messageSize) == 0
  {
  }

  lemma RingPop(pos: nat, n: nat, total: nat)
    requires pos < total && 0 < n <= total
    ensures Ring(pos, 1, total) == if pos + 1 == total then 0 else pos + 1
    ensures Ring(Ring(pos, 1, total), n - 1, total) == Ring(pos, n, total)
  {
  }

  lemma RingPush(pos: nat, n: nat, total: nat)
    requires pos < total && n < total
    ensures var w := Ring(pos, n, total); 0 <= w < total && Ring(pos, n + 1, total) == if w + 1 == total then 0
            else w + 1
  {
  }
}
