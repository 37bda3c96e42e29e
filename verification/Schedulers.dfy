/** The scheduler: 256 run queues of threads, and the choice of the next thread to run. */
module Schedulers {
  import opened RunQueues

  datatype ThreadState = NotCreated | Ready | Running | Paused | Waiting | Terminated | Idle | System | Dead

  class Thread {
    var priority: int
    var state: ThreadState
    /** The object the thread waits for, 0 for none. */
    var waitingOn: nat
    var originalPriority: int
    var inheriting: bool
    /** Its last wait at a pipe began in a read. */
    ghost var reading: bool

    constructor (priority: int)
      ensures this.priority == priority == originalPriority && state == Ready && waitingOn == 0 && !inheriting
      ensures !reading
    {
      this.priority, originalPriority := priority, priority;
      state, waitingOn, inheriting, reading := Ready, 0, false, false;
    }
  }

  /** A thread is selected to run only in one of these states. */
  predicate Runnable(s: ThreadState) { s == Ready || s == System || s == Running }

  ghost predicate NoRepeat<T>(q: seq<T>) {
    forall i, j :: 0 <= i < j < |q| ==> q[i] != q[j]
  }

  /** The queue of priority `p`: threads of that priority, each once. */
  ghost predicate QueueOk(q: seq<Thread>, p: int)
    reads q`priority
  {
    NoRepeat(q) && forall t :: t in q ==> t.priority == p
  }

  /** `list_remove_item`. */
  function Without<T(==)>(q: seq<T>, t: T): (r: seq<T>)
    ensures t !in q ==> r == q
  {
    if q == [] then [] else if q[0] == t then q[1..] else [q[0]] + Without(q[1..], t)
  }

  lemma {:induction false} WithoutOk<T>(q: seq<T>, t: T)
    requires NoRepeat(q)
    ensures NoRepeat(Without(q, t)) && t !in Without(q, t) && forall x :: x in Without(q, t) <==> x in q && x != t
  {
    if q != [] {
      assert NoRepeat(q[1..]);
      assert q == [q[0]] + q[1..];
      assert q[0] !in q[1..];
      WithoutOk(q[1..], t);
    }
  }

  /** The others keep their order. */
  lemma {:induction false} WithoutAt<T>(q: seq<T>, t: T, k: nat)
    requires k < |q| && q[k] == t && t !in q[..k]
    ensures Without(q, t) == q[..k] + q[k + 1..]
  {
    if k == 0 {
      assert q[..0] + q[1..] == q[1..];
    } else {
      assert q[0] == q[..k][0] && q[1..][..k - 1] == q[..k][1..];
      WithoutAt(q[1..], t, k - 1);
      assert q[..k] + q[k + 1..] == [q[0]] + (q[1..][..k - 1] + q[1..][k..]);
    }
  }

  /** `list_head_to_tail`: it exchanges the first and the last item. */
  function EndsSwapped<T>(q: seq<T>): (r: seq<T>)
    ensures multiset(r) == multiset(q)
  {
    if |q| <= 1 then q
    else
      var n := |q| - 1;
      assert q == [q[0]] + q[1..n] + [q[n]];
      [q[n]] + q[1..n] + [q[0]]
  }

  lemma SwappedOk<T>(q: seq<T>)
    requires NoRepeat(q)
    ensures NoRepeat(EndsSwapped(q)) && forall x :: x in EndsSwapped(q) <==> x in q
    ensures var r, n := EndsSwapped(q), |q| - 1;
            |r| == |q| && forall k :: 0 <= k <= n ==> r[k] == if k == 0 then q[n] else if k == n then q[0] else q[k]
  {
    var r := EndsSwapped(q);
    forall x
      ensures x in r <==> x in q
    {
      assert x in r <==> x in multiset(r);
      assert x in q <==> x in multiset(q);
    }
  }

  /** A queue after `n` threads were chosen from it. */
  ghost function Rotated<T>(q: seq<T>, n: nat): seq<T> {
    if n == 0 then q else EndsSwapped(Rotated(q, n - 1))
  }

  lemma SwappedAt<T>(q: seq<T>)
    ensures var r, n := EndsSwapped(q), |q| - 1;
            |r| == |q| && forall k :: 0 <= k <= n ==> r[k] == if k == 0 then q[n] else if k == n then q[0] else q[k]
  {
  }

  lemma SwappedTwice<T>(q: seq<T>)
    ensures EndsSwapped(EndsSwapped(q)) == q
    ensures |EndsSwapped(q)| == |q| && (|q| > 0 ==> EndsSwapped(q)[0] == q[|q| - 1])
  {
    hide EndsSwapped;
    SwappedAt(q);
    SwappedAt(EndsSwapped(q));
  }

  /** Exchanging the ends gives turns to the first and the last thread of a queue and to no other. */
  lemma {:induction false} TurnsTaken<T>(q: seq<T>, n: nat)
    ensures Rotated(q, n) == if n % 2 == 0 then q else EndsSwapped(q)
  {
    hide EndsSwapped;
    if n > 0 {
      TurnsTaken(q, n - 1);
      SwappedTwice(q);
    }
  }

  ghost predicate HasTurn<T>(q: seq<T>, n: nat, x: T) {
    Rotated(q, n) != [] && Rotated(q, n)[0] == x
  }

  lemma TurnOf<T>(q: seq<T>, n: nat, x: T)
    ensures HasTurn(q, n, x) <==> |q| > 0 && x == if n % 2 == 0 then q[0] else q[|q| - 1]
  {
    hide EndsSwapped;
    TurnsTaken(q, n);
    SwappedTwice(q);
  }

  /** Every thread of a queue gets its turn exactly if the queue has at most two. */
  lemma RoundRobin<T>(q: seq<T>)
    requires NoRepeat(q)
    ensures (forall x :: x in q ==> exists n :: HasTurn(q, n, x)) <==> |q| <= 2
  {
    hide HasTurn;
    if |q| > 2 {
      forall n: nat
        ensures !HasTurn(q, n, q[1])
      {
        TurnOf(q, n, q[1]);
      }
      assert q[1] in q;
    } else {
      forall x | x in q
        ensures exists n :: HasTurn(q, n, x)
      {
        TurnOf(q, 0, x);
        TurnOf(q, 1, x);
        assert HasTurn(q, 0, x) || HasTurn(q, 1, x);
      }
    }
  }

  /** Which queues have threads. */
  function BusyOf(qs: seq<seq<Thread>>): (b: Busy)
    requires |qs| == PRIORITIES
    ensures forall p :: 0 <= p < PRIORITIES ==> b[p] == (|qs[p]| > 0)
  {
    seq(PRIORITIES, i requires 0 <= i < |qs| => |qs[i]| > 0)
  }

  lemma SwappedNone(qs: seq<seq<Thread>>, q: int)
    requires 0 <= q < |qs|
    ensures |qs[q]| == 0 ==> qs[q := EndsSwapped(qs[q])] == qs
  {
  }

  /** Exchanging the ends of a queue keeps its members. */
  lemma SwappedSame(qs: seq<seq<Thread>>, q: int)
    requires |qs| == PRIORITIES && IsQueue(q)
    ensures var qs' := qs[q := EndsSwapped(qs[q])];
            BusyOf(qs') == BusyOf(qs) && forall p :: 0 <= p < PRIORITIES ==> multiset(qs'[p]) == multiset(qs[p])
  {
    var a, b := BusyOf(qs[q := EndsSwapped(qs[q])]), BusyOf(qs);
    assert |EndsSwapped(qs[q])| == |multiset(EndsSwapped(qs[q]))| == |multiset(qs[q])|;
    assert forall i :: 0 <= i < PRIORITIES ==> a[i] == b[i];
  }

  lemma EvalOnly(f: Focus, busy: Busy, eval: bool)
    ensures InOrder(f, busy) ==> InOrder(f.(eval := eval), busy)
    ensures FocusOk(f) ==> FocusOk(f.(eval := eval))
  {
  }

  /** A thread joined queue `p`. */
  lemma BusyJoined(qs: seq<seq<Thread>>, p: int, t: Thread)
    requires |qs| == PRIORITIES && IsQueue(p)
    ensures BusyOf(qs[p := Joined(qs[p], t)]) == BusyOf(qs)[p := true]
  {
    var a, b := BusyOf(qs[p := Joined(qs[p], t)]), BusyOf(qs)[p := true];
    assert forall i :: 0 <= i < PRIORITIES ==> a[i] == b[i];
  }

  /** A thread left queue `p`. */
  lemma BusyWithout(qs: seq<seq<Thread>>, p: int, t: Thread)
    requires |qs| == PRIORITIES && IsQueue(p)
    ensures var busy := BusyOf(qs[p := Without(qs[p], t)]);
            busy == BusyOf(qs) || busy == BusyOf(qs)[p := false]
  {
    var a, b := BusyOf(qs[p := Without(qs[p], t)]), BusyOf(qs);
    assert t !in qs[p] ==> Without(qs[p], t) == qs[p];
    if a[p] {
      assert |qs[p]| > 0;
      assert forall i :: 0 <= i < PRIORITIES ==> a[i] == b[i];
      assert a == b;
    } else {
      assert forall i :: 0 <= i < PRIORITIES ==> a[i] == b[p := false][i];
      assert a == b[p := false];
    }
  }

  /** A queue with a thread at its end, unless it has it already. */
  function Joined(q: seq<Thread>, t: Thread): seq<Thread> {
    if t in q then q else q + [t]
  }

  /** The first place of an item; the length if it has none. */
  ghost function FirstAt<T>(s: seq<T>, x: T): (k: nat)
    ensures k <= |s| && (k < |s| ==> s[k] == x) && forall i :: 0 <= i < k ==> s[i] != x
  {
    if s == [] || s[0] == x then 0
    else
      assert forall i :: 0 < i < |s| ==> s[i] == s[1..][i - 1];
      1 + FirstAt(s[1..], x)
  }

  /** Only threads among the first `n` of `all` have joined the queue `was`, in the order they have there. */
  ghost predicate InTurn(was: seq<Thread>, q: seq<Thread>, all: seq<Thread?>, n: nat) {
    && was <= q
    && (forall k :: |was| <= k < |q| ==> FirstAt(all, q[k]) < n)
    && (forall j, k :: |was| <= j < k < |q| ==> FirstAt(all, q[j]) < FirstAt(all, q[k]))
  }

  /** The same of all queues: first come, first served. */
  ghost predicate Served(was: seq<seq<Thread>>, qs: seq<seq<Thread>>, all: seq<Thread?>, n: nat) {
    |qs| == |was| && forall p :: 0 <= p < |was| ==> InTurn(was[p], qs[p], all, n)
  }

  lemma ServedNone(qs: seq<seq<Thread>>, all: seq<Thread?>)
    ensures Served(qs, qs, all, 0)
  {
  }

  lemma ServedSame(was: seq<seq<Thread>>, qs: seq<seq<Thread>>, all: seq<Thread?>, n: nat)
    requires Served(was, qs, all, n)
    ensures Served(was, qs, all, n + 1)
  {
    forall p | 0 <= p < |was|
      ensures InTurn(was[p], qs[p], all, n + 1)
    {
      assert InTurn(was[p], qs[p], all, n);
    }
  }

  /** The next thread joins its queue. */
  lemma ServedNext(was: seq<seq<Thread>>, qs: seq<seq<Thread>>, all: seq<Thread?>, n: nat, t: Thread, p: int)
    requires Served(was, qs, all, n) && n < |all| && all[n] == t && t !in all[..n] && 0 <= p < |qs|
    ensures Served(was, qs[p := Joined(qs[p], t)], all, n + 1)
  {
    ServedSame(was, qs, all, n);
    assert InTurn(was[p], qs[p], all, n);
    assert forall i :: 0 <= i < n ==> all[i] in all[..n];
    hide FirstAt;
    assert InTurn(was[p], Joined(qs[p], t), all, n + 1);
  }

  lemma BusyAt(qs: seq<seq<Thread>>)
    requires |qs| == PRIORITIES
    ensures forall p :: 0 <= p < PRIORITIES ==> BusyOf(qs)[p] == (|qs[p]| > 0)
  {
  }

  lemma BusyMoved(qs: seq<seq<Thread>>, t: Thread, original: int, p: int)
    requires |qs| == PRIORITIES && IsQueue(original) && IsQueue(p) && t in qs[original]
    ensures var busy, was := BusyOf(Moved(qs, t, original, p)), BusyOf(qs);
            was[original] && (busy == was[p := true] || busy == was[original := false][p := true])
  {
    hide BusyOf;
    var rest := qs[original := Without(qs[original], t)];
    BusyAt(qs);
    BusyWithout(qs, original, t);
    BusyJoined(rest, p, t);
  }

  /** The queues after a thread left queue `original` and went to the end of queue `p`. */
  function Moved(qs: seq<seq<Thread>>, t: Thread, original: int, p: int): seq<seq<Thread>>
    requires |qs| == PRIORITIES && IsQueue(original) && IsQueue(p)
  {
    var rest := qs[original := Without(qs[original], t)];
    rest[p := Joined(rest[p], t)]
  }

  /** The states from which a thread can be made to wait. */
  predicate CanWait(s: ThreadState) {
    s == Running || s == Ready || s == Paused || s == Idle || s == Waiting || s == System
  }

  /** A thread can be made to wait unless it has not begun or has ended; it can run only in three of those states. */
  lemma StatesAre(s: ThreadState)
    ensures CanWait(s) <==> s != NotCreated && s != Terminated && s != Dead
    ensures Runnable(s) <==> CanWait(s) && s != Paused && s != Waiting && s != Idle
  {
  }

  class Scheduler {
    const queues: array<seq<Thread>>
    var stack: seq<int>
    var currQueue: int
    var currPriority: int
    var evalNew: bool
    var currThread: Thread?
    var idle: Thread
    ghost var threads: set<Thread>

    ghost function Current(): Focus
      reads `stack, `currQueue, `currPriority, `evalNew
    {
      Focus(stack, currQueue, currPriority, evalNew)
    }

    /**
      Each queue holds threads of its own priority only, each once: so no thread is in two places.  The current queue
      and the stack refer to these queues, and the idle and the current thread are known.
     */
    ghost predicate Valid()
      reads this, queues, threads`priority, threads`originalPriority
    {
      QueuesOk() && FocusOk(Current()) && idle in threads && (currThread != null ==> currThread in threads)
    }

    ghost predicate QueuesOk()
      reads `threads, queues, threads`priority, threads`originalPriority
    {
      && queues.Length == PRIORITIES
      && (forall p :: 0 <= p < PRIORITIES ==> (forall t :: t in queues[p] ==> t in threads) && QueueOk(queues[p], p))
      && (forall t :: t in threads ==> IsQueue(t.priority) && IsQueue(t.originalPriority))
    }

    /** The thread is in the queue of priority `p`. */
    ghost predicate In(t: Thread, p: int)
      reads queues
    {
      0 <= p < queues.Length && t in queues[p]
    }

    /** No thread but the current one is marked as running. */
    ghost predicate OneRunning()
      reads this, threads`state
    {
      forall t :: t in threads && t.state == Running ==> t == currThread
    }

    /** Every thread but the idle one is in a queue exactly if it can run. */
    ghost predicate Settled()
      reads this, queues, threads`state, threads`priority
    {
      forall t :: t in threads && t != idle ==> (In(t, t.priority) <==> Runnable(t.state))
    }

    /**
      Every queue with threads is on the stack, at the bottom of it queue 0, which has some; the current queue is the
      one on top.
     */
    ghost predicate Oriented()
      reads `stack, `currQueue, `currPriority, `evalNew, queues
    {
      queues.Length == PRIORITIES && InOrder(Current(), BusyOf(queues[..]))
    }

    /** The idle thread is in queue 0, and the scheduler knows where to go. */
    ghost predicate AtBottom()
      reads `stack, `currQueue, `currPriority, `evalNew, `idle, idle`priority, queues
    {
      Oriented() && idle.priority == 0 && In(idle, 0)
    }

    /** Queue 0 has threads, as it always has while the idle thread is in it. */
    ghost predicate Grounded()
      reads queues
    {
      queues.Length == PRIORITIES && |queues[0]| > 0
    }

    constructor (idle: Thread)
      requires IsQueue(idle.priority) && IsQueue(idle.originalPriority)
      ensures Valid() && Current() == Focus([0], 0, 0, false) && this.idle == idle && currThread == null
              && threads == {idle}
      ensures fresh(queues) && forall p :: 0 <= p < PRIORITIES ==> queues[p] == []
      ensures Settled() && (idle.state != Running ==> OneRunning())
    {
      queues := new seq<Thread>[PRIORITIES](i => []);
      stack, currQueue, currPriority, evalNew := [0], 0, 0, false;
      currThread, this.idle := null, idle;
      threads := {idle};
    }

    /** A thread is in no other queue than that of its priority. */
    lemma InOneQueue(t: Thread, p: int)
      requires Valid() && 0 <= p < PRIORITIES && t in queues[p]
      ensures p == t.priority && forall q :: 0 <= q < PRIORITIES && q != p ==> t !in queues[q]
    {
      assert QueueOk(queues[p], p);
      forall q | 0 <= q < PRIORITIES && q != p
        ensures t !in queues[q]
      {
        assert QueueOk(queues[q], q);
      }
    }

    /** Puts a queue on the stack above the first busy one of lower priority, unless it is met there first. */
    method InsertLower(p: int)
      requires queues.Length == PRIORITIES && IsQueue(p) && AllQueues(stack)
      requires forall q :: 0 <= q < PRIORITIES ==> QueueOk(queues[q], q)
      modifies `stack
      ensures stack == WithLower(old(stack), BusyOf(queues[..]), p, 0)
      ensures Gained(old(stack), stack, p)
      ensures p in stack <==> p in old(stack) || LowerBusy(old(stack), BusyOf(queues[..]), p)
    {
      WithLowerIs(stack, BusyOf(queues[..]), p);
      hide LowerBusy;
      hide Gained;
      var i := 0;
      while i < |stack|
        invariant 0 <= i <= |stack| && stack == old(stack)
        invariant WithLower(stack, BusyOf(queues[..]), p, 0) == WithLower(stack, BusyOf(queues[..]), p, i)
      {
        assert stack[i] in stack;
        var q := queues[stack[i]];
        if |q| > 0 {
          assert q[0] in q;
          var stackPriority := q[0].priority;
          if stackPriority == p {
            return;
          } else if stackPriority < p {
            stack := Inserted(stack, i, p);
            return;
          }
        }
        i := i + 1;
      }
    }

    /** Looks for the next queue with threads, downwards from priority `p` in 8-bit arithmetic. */
    method FindNext(p: int)
      requires queues.Length == PRIORITIES && IsQueue(p)
      modifies `stack, `currQueue, `currPriority
      ensures var q := SlowSearch(BusyOf(queues[..]), p);
              currPriority == q && currQueue == q && stack == old(stack) + [q]
    {
      var q := Down(p);
      while |queues[q]| == 0 && q != 0
        invariant IsQueue(q) && queues.Length == PRIORITIES
        invariant SlowSearch(BusyOf(queues[..]), p) == (if BusyOf(queues[..])[q] || q == 0 then q
                  else SlowSearch(BusyOf(queues[..]), q))
        decreases q
      {
        q := Down(q);
      }
      currPriority := q;
      currQueue := q;
      stack := stack + [q];
    }

    /** Adds a thread to the queue of its priority, if it is not there already. */
    method Enqueue(t: Thread)
      requires QueuesOk() && IsQueue(t.priority) && IsQueue(t.originalPriority)
      modifies queues, `threads
      ensures QueuesOk() && threads == old(threads) + {t} && In(t, t.priority)
      ensures queues[..] == old(queues[..])[t.priority := Joined(old(queues[t.priority]), t)]
      ensures forall x, p :: x in old(threads) ==> (In(x, p) <==> old(In(x, p)) || (x == t && p == t.priority))
    {
      var p := t.priority;
      if t !in queues[p] {
        queues[p] := queues[p] + [t];
      }
      threads := threads + {t};
    }

    /** Takes a thread off the queue `p`, where alone it may be. */
    method Dequeue(t: Thread, p: int)
      requires QueuesOkBut(t, p) && IsQueue(p)
      modifies queues
      ensures QueuesOk()
      ensures queues[..] == old(queues[..])[p := Without(old(queues[p]), t)]
      ensures forall x, q :: x in old(threads) ==> (In(x, q) <==> old(In(x, q)) && x != t)
    {
      WithoutOk(queues[p], t);
      queues[p] := Without(queues[p], t);
    }

    /** The queues are in order, but for a thread in queue `p` that may have another priority by now. */
    ghost predicate QueuesOkBut(t: Thread, p: int)
      reads `threads, queues, threads`priority, threads`originalPriority
    {
      && queues.Length == PRIORITIES
      && (forall q :: 0 <= q < PRIORITIES ==>
            forall x :: x in queues[q] ==> x in threads && if x == t then q == p else x.priority == q)
      && (forall q :: 0 <= q < PRIORITIES ==> NoRepeat(queues[q]))
      && (forall x :: x in threads ==> IsQueue(x.priority) && IsQueue(x.originalPriority))
    }

    lemma Known(t: Thread)
      requires QueuesOk() && t in threads
      ensures IsQueue(t.priority) && IsQueue(t.originalPriority) && queues.Length == PRIORITIES
    {
    }

    lemma OkBut(t: Thread)
      requires QueuesOk() && t in threads
      ensures QueuesOkBut(t, t.priority)
    {
    }

    /** A thread became ready: it joins the queue of its priority, and that one becomes current or goes on the stack. */
    method NotifyNew(t: Thread)
      requires Valid() && IsQueue(t.priority) && IsQueue(t.originalPriority)
      modifies `stack, `currQueue, `currPriority, `evalNew, `threads, queues
      ensures Valid() && threads == old(threads) + {t}
      ensures queues[..] == old(queues[..])[t.priority := Joined(old(queues[t.priority]), t)]
      ensures Current() == FocusNew(old(Current()), BusyOf(queues[..]), t.priority)
      ensures In(t, t.priority)
      ensures forall x, p :: x in old(threads) ==> (In(x, p) <==> old(In(x, p)) || (x == t && p == t.priority))
      ensures old(Oriented()) ==> Oriented()
    {
      hide WithLower;
      hide InOrder;
      hide BusyOf;
      ghost var f, was := Current(), queues[..];
      BusyJoined(queues[..], t.priority, t);
      Enqueue(t);
      var p := t.priority;
      BusyAt(queues[..]);
      FocusNewOk(Current(), BusyOf(queues[..]), p);
      if InOrder(f, BusyOf(was)) {
        NewInOrder(f, BusyOf(was), BusyOf(queues[..]), p);
      }
      if p > currPriority {
        evalNew := true;
        currPriority := p;
        currQueue := p;
        stack := stack + [p];
      } else if p < currPriority {
        InsertLower(p);
      }
    }

    /** A thread is ready no more: it leaves its queue, and if the current queue is empty then, another one is taken. */
    method NotifyExit(t: Thread)
      requires Valid() && t in threads
      modifies `stack, `currQueue, `currPriority, `evalNew, queues
      ensures Valid()
      ensures queues[..] == old(queues[..])[t.priority := Without(old(queues[t.priority]), t)]
      ensures Current() == if old(In(t, t.priority)) then FocusExit(old(Current()), BusyOf(queues[..]), t.priority)
              else old(Current())
      ensures forall x, p :: x in old(threads) ==> (In(x, p) <==> old(In(x, p)) && x != t)
      ensures old(Oriented()) && Grounded() ==> Oriented()
    {
      hide QueuesOkBut;
      hide FocusExit;
      hide InOrder;
      var p := t.priority;
      OkBut(t);
      Known(t);
      ghost var f, was := Current(), queues[..];
      BusyWithout(queues[..], p, t);
      var removed := t in queues[p];
      Dequeue(t, p);
      if removed {
        FocusExitOk(Current(), BusyOf(queues[..]), p);
        Refocus(p);
        if InOrder(f, BusyOf(was)) && Grounded() {
          ExitInOrder(f, BusyOf(was), BusyOf(queues[..]), p);
        }
      }
    }

    /** After a thread of priority `p` left: if the current queue is empty, goes back to the one below on the stack. */
    method Refocus(p: int)
      requires QueuesOk() && FocusOk(Current()) && IsQueue(p)
      modifies `stack, `currQueue, `currPriority, `evalNew
      ensures Current() == FocusExit(old(Current()), BusyOf(queues[..]), p)
    {
      hide SlowSearch;
      evalNew := true;
      if |queues[currQueue]| == 0 {
        Pop();
        if |stack| > 0 {
          assert stack[|stack| - 1] in stack;
          currQueue := stack[|stack| - 1];
          FrontPriority(currQueue);
          currPriority := if |queues[currQueue]| > 0 then queues[currQueue][0].priority else 0;
        } else {
          FindNext(p);
        }
      }
    }

    /** A thread has moved from priority `original` to its present one. */
    method NotifyChangePriority(t: Thread, original: int) returns (panicked: bool)
      requires QueuesOkBut(t, original) && FocusOk(Current()) && IsQueue(original) && t in threads
      requires idle in threads && (currThread != null ==> currThread in threads)
      modifies `stack, `currQueue, `currPriority, `evalNew, `threads, queues
      ensures Valid() && threads == old(threads)
      ensures queues[..] == Moved(old(queues[..]), t, original, t.priority)
      ensures forall x, p :: x in old(threads) ==> (In(x, p) <==> if x == t then p == t.priority else old(In(x, p)))
      ensures var change := FocusChange(old(Current()), BusyOf(queues[..]), t.priority, original);
              (panicked <==> change.Panicked?) && Current() == change.focus
      ensures old(Oriented() && In(t, original)) && Grounded() && !panicked ==> Oriented()
    {
      hide QueuesOkBut;
      hide FocusChange;
      hide InOrder;
      KnownBut(t, original);
      ghost var f, was := Current(), queues[..];
      Dequeue(t, original);
      Enqueue(t);
      FocusChangeOk(Current(), BusyOf(queues[..]), t.priority, original);
      panicked := Reprioritise(t.priority, original);
      if InOrder(f, BusyOf(was)) && t in was[original] && Grounded() {
        BusyMoved(was, t, original, t.priority);
        ChangeInOrder(f, BusyOf(was), BusyOf(queues[..]), t.priority, original);
      }
    }

    lemma KnownBut(t: Thread, p: int)
      requires QueuesOkBut(t, p) && t in threads
      ensures queues.Length == PRIORITIES && IsQueue(t.priority)
    {
    }

    /** Chooses the current queue after a change of priority. */
    method Reprioritise(p: int, original: int) returns (panicked: bool)
      requires QueuesOk() && FocusOk(Current()) && IsQueue(p)
      modifies `stack, `currQueue, `currPriority, `evalNew
      ensures var change := FocusChange(old(Current()), BusyOf(queues[..]), p, original);
              (panicked <==> change.Panicked?) && Current() == change.focus
    {
      hide QueuesOk;
      hide Restacked;
      hide TopTaken;
      hide Popped;
      CurrentLength();
      panicked := false;
      var drained := |queues[currQueue]| == 0;
      if drained {
        Pop();
      }
      RestackedOk(Current(), BusyOf(queues[..]), p, original);
      Restack(p, original);
      if drained {
        panicked := TakeTop(p);
      }
    }

    /** Takes the top queue off the stack and makes it current. */
    method Pop()
      requires FocusOk(Current())
      modifies `stack, `currQueue
      ensures Current() == Popped(old(Current())) && FocusOk(Current())
    {
      PoppedOk(Current());
      if |stack| > 0 {
        currQueue := stack[|stack| - 1];
        stack := stack[..|stack| - 1];
      }
    }

    /** Puts the queue `p` on the stack: on top and current for a higher priority, further down for a lower one. */
    method Restack(p: int, original: int)
      requires QueuesOk() && FocusOk(Current()) && IsQueue(p)
      modifies `stack, `currQueue, `currPriority, `evalNew
      ensures Current() == Restacked(old(Current()), BusyOf(queues[..]), p, original)
    {
      hide WithLower;
      if p > original {
        evalNew := true;
        currPriority := p;
        currQueue := p;
        stack := stack + [p];
      } else {
        InsertLower(p);
      }
    }

    /** Makes the top queue of the stack current; the kernel panics if it is empty. */
    method TakeTop(p: int) returns (panicked: bool)
      requires QueuesOk() && FocusOk(Current()) && IsQueue(p)
      modifies `stack, `currQueue, `currPriority, `evalNew
      ensures var change := TopTaken(old(Current()), BusyOf(queues[..]), p);
              (panicked <==> change.Panicked?) && Current() == change.focus
    {
      hide SlowSearch;
      panicked := false;
      if |stack| > 0 {
        assert stack[|stack| - 1] in stack;
        currQueue := stack[|stack| - 1];
        FrontPriority(currQueue);
        if |queues[currQueue]| > 0 {
          evalNew := true;
          currPriority := queues[currQueue][0].priority;
        } else {
          panicked := true;
        }
      } else {
        FindNext(p);
      }
    }

    lemma CurrentLength()
      requires QueuesOk() && FocusOk(Current())
      ensures queues.Length == PRIORITIES && 0 <= currQueue < PRIORITIES
    {
    }

    /**
      Chooses the thread to run: the first of the current queue if it can run, and the idle thread otherwise.
      `state` is that of the thread that ran until now.
     */
    method Dispatch(state: ThreadState) returns (next: Thread)
      requires Valid()
      requires state == Running ==> currThread != null && currThread.state == Running
      modifies `currThread, `evalNew, queues, threads`state
      ensures Valid() && next == currThread
      ensures next == Chosen(old(queues[currQueue]), old(currThread), idle)
      ensures old(queues[currQueue]) == [] && old(currThread != null && Runnable(currThread.state)) ==>
                next == old(currThread)
      ensures old(queues[currQueue]) == [] && old(currThread == null || !Runnable(currThread.state)) ==> next == idle
      ensures next == idle || (Runnable(old(next.state)) && Runnable(next.state))
      ensures forall t :: t in threads ==>
                (Runnable(t.state) <==> Runnable(old(t.state))) && (!Runnable(t.state) ==> t.state == old(t.state))
      ensures state == Running && (next != old(currThread) || old(evalNew)) ==> old(currThread).state == Ready
      ensures queues[..] == old(queues[..])[currQueue := EndsSwapped(old(queues[currQueue]))]
      ensures forall p :: 0 <= p < PRIORITIES ==> multiset(queues[p]) == multiset(old(queues[p]))
      ensures forall x, p :: x in threads ==> (In(x, p) <==> old(In(x, p)))
      ensures old(Oriented()) ==> Oriented()
      ensures old(Settled()) ==> Settled()
      ensures old(Settled()) && |old(queues[currQueue])| > 0 ==> next == old(queues[currQueue])[0]
      ensures old(OneRunning() && (currThread != null && currThread.state == Running ==> state == Running)) ==>
                OneRunning()
    {
      hide QueuesOk;
      hide FocusOk;
      hide In;
      hide EndsSwapped;
      hide BusyOf;
      hide InOrder;
      var previous := currThread;
      SettledFront();
      SwappedSame(queues[..], currQueue);
      ghost var f, was := Current(), queues[..];
      next := Pick();
      if previous != next || evalNew {
        evalNew := false;
        if state == Running {
          previous.state := Ready;
        }
      }
      EvalOnly(f, BusyOf(was), evalNew);
    }

    /** Makes a thread current, and marks it as running if it comes from the current queue. */
    method Pick() returns (next: Thread)
      requires Valid()
      modifies `currThread, queues, threads`state
      ensures Valid() && next == currThread
      ensures next == Chosen(old(queues[currQueue]), old(currThread), idle)
      ensures next == idle || (Runnable(old(next.state)) && next.state == Running)
      ensures forall t :: t in threads ==>
                t.state == old(t.state) || (t == next && Runnable(old(t.state)) && t.state == Running)
      ensures queues[..] == old(queues[..])[currQueue := EndsSwapped(old(queues[currQueue]))]
      ensures forall x, p :: x in threads ==> (In(x, p) <==> old(In(x, p)))
      ensures old(Settled()) ==> Settled()
    {
      hide QueuesOk;
      hide FocusOk;
      hide EndsSwapped;
      CurrentIn();
      SwappedNone(queues[..], currQueue);
      if |queues[currQueue]| > 0 {
        currThread := queues[currQueue][0];
      }
      if currThread != null {
        Reorder();
        if Runnable(currThread.state) {
          currThread.state := Running;
        } else {
          currThread := null;
        }
      }
      if currThread == null {
        currThread := idle;
      }
      next := currThread;
    }

    /** With every thread settled, the first of the current queue can run. */
    lemma SettledFront()
      requires Valid()
      ensures queues.Length == PRIORITIES && 0 <= currQueue < PRIORITIES
      ensures Settled() && |queues[currQueue]| > 0 ==>
                queues[currQueue][0] == idle || Runnable(queues[currQueue][0].state)
    {
      if |queues[currQueue]| > 0 {
        FrontPriority(currQueue);
        assert In(queues[currQueue][0], currQueue);
      }
    }

    lemma FrontPriority(p: int)
      requires QueuesOk() && IsQueue(p)
      ensures |queues[p]| > 0 ==> queues[p][0].priority == p
    {
      assert QueueOk(queues[p], p);
      assert |queues[p]| > 0 ==> queues[p][0] in queues[p];
    }

    lemma CurrentIn()
      requires Valid()
      ensures queues.Length == PRIORITIES && 0 <= currQueue < PRIORITIES && forall t :: t in queues[currQueue] ==>
                t in threads
      ensures |queues[currQueue]| > 0 ==> queues[currQueue][0] in threads
    {
      assert |queues[currQueue]| > 0 ==> queues[currQueue][0] in queues[currQueue];
    }

    /**
      The first thread of a queue if it can run; of an empty queue, the present one if it can; otherwise the idle one.
     */
    static twostate function Chosen(queue: seq<Thread>, present: Thread?, idle: Thread): Thread
    {
      if |queue| > 0 then (if Runnable(old(queue[0].state)) then queue[0] else idle)
      else if present != null && Runnable(old(present.state)) then present
      else idle
    }

    /** Reorders the current queue. */
    method Reorder()
      requires Valid()
      modifies queues
      ensures Valid()
      ensures queues[..] == old(queues[..])[currQueue := EndsSwapped(old(queues[currQueue]))]
      ensures forall p :: 0 <= p < PRIORITIES ==> multiset(queues[p]) == multiset(old(queues[p]))
      ensures forall x, p :: x in threads ==> (In(x, p) <==> old(In(x, p)))
    {
      SwappedOk(queues[currQueue]);
      queues[currQueue] := EndsSwapped(queues[currQueue]);
    }

    // ---------------------------------------------------------------- what threads ask for

    /** A thread blocks on an object. */
    method SetWaiting(t: Thread, on: nat)
      requires Valid() && t in threads
      modifies `stack, `currQueue, `currPriority, `evalNew, queues, t`state, t`waitingOn
      ensures Valid()
      ensures if CanWait(old(t.state))
              then && t.state == Waiting && t.waitingOn == on
                   && forall x, p :: x in old(threads) ==> (In(x, p) <==> old(In(x, p)) && x != t)
              else t.state == old(t.state) && t.waitingOn == old(t.waitingOn) && queues[..] == old(queues[..])
      ensures Current() == if CanWait(old(t.state)) && old(In(t, t.priority))
                           then FocusExit(old(Current()), BusyOf(queues[..]), t.priority) else old(Current())
      ensures forall x, p :: x in old(threads) && x != t ==> (In(x, p) <==> old(In(x, p)))
      ensures old(Settled()) ==> Settled()
      ensures old(Oriented()) && Grounded() ==> Oriented()
      ensures old(OneRunning()) ==> OneRunning()
    {
      hide Oriented;
      hide Grounded;
      hide QueuesOk;
      hide FocusExit;
      hide FocusNew;
      if CanWait(t.state) {
        t.state := Waiting;
        t.waitingOn := on;
        NotifyExit(t);
      }
    }

    /** A waiting thread is made ready. */
    method SetReady(t: Thread)
      requires Valid() && t in threads
      modifies `stack, `currQueue, `currPriority, `evalNew, `threads, queues, t`state, t`waitingOn
      ensures Valid() && threads == old(threads)
      ensures if old(t.state) == Waiting
              then && t.state == Ready && t.waitingOn == 0
                   && forall x, p :: x in old(threads) ==> (In(x, p) <==> old(In(x, p)) || (x == t && p == t.priority))
              else t.state == old(t.state) && t.waitingOn == old(t.waitingOn) && queues[..] == old(queues[..])
      ensures IsQueue(t.priority) && queues.Length == PRIORITIES
      ensures queues[..] == if old(t.state) == Waiting
                            then old(queues[..])[t.priority := Joined(old(queues[t.priority]), t)] else old(queues[..])
      ensures forall x, p :: x in threads && old(In(x, p)) ==> In(x, p)
      ensures Current() == if old(t.state) == Waiting then FocusNew(old(Current()), BusyOf(queues[..]), t.priority)
              else old(Current())
      ensures forall x, p :: x in old(threads) && x != t ==> (In(x, p) <==> old(In(x, p)))
      ensures old(Settled()) ==> Settled()
      ensures old(Oriented()) ==> Oriented()
      ensures old(OneRunning()) ==> OneRunning()
    {
      hide Oriented;
      hide Grounded;
      hide QueuesOk;
      hide FocusExit;
      hide FocusNew;
      Known(t);
      if t.state == Waiting {
        t.state := Ready;
        t.waitingOn := 0;
        NotifyNew(t);
      }
    }

    /** A thread ends. */
    method Exit(t: Thread) returns (ok: bool)
      requires Valid() && t in threads
      modifies `stack, `currQueue, `currPriority, `evalNew, `currThread, queues, t`state
      ensures Valid()
      ensures ok <==> old(t.state) != Terminated && old(t.state) != NotCreated
      ensures if ok
              then && t.state == Terminated
                   && forall x, p :: x in old(threads) ==> (In(x, p) <==> old(In(x, p)) && x != t)
              else t.state == old(t.state) && queues[..] == old(queues[..])
      ensures queues[..] == if ok then old(queues[..])[t.priority := Without(old(queues[t.priority]), t)]
              else old(queues[..])
      ensures currThread == if ok && old(currThread) == t then null else old(currThread)
      ensures Current() == if ok && old(In(t, t.priority))
                           then FocusExit(old(Current()), BusyOf(queues[..]), t.priority) else old(Current())
      ensures forall x, p :: x in old(threads) && x != t ==> (In(x, p) <==> old(In(x, p)))
      ensures old(Settled()) ==> Settled()
      ensures old(Oriented()) && Grounded() ==> Oriented()
      ensures old(OneRunning()) ==> OneRunning()
    {
      hide Oriented;
      hide Grounded;
      hide QueuesOk;
      hide FocusExit;
      hide FocusNew;
      ok := t.state != Terminated && t.state != NotCreated;
      if ok {
        t.state := Terminated;
        NotifyExit(t);
        if currThread == t {
          currThread := null;
        }
      }
    }

    /** Gives a thread another priority, which must not be 0. */
    method SetPriority(t: Thread, priority: int) returns (ok: bool, panicked: bool)
      requires Valid() && t in threads && IsQueue(priority)
      modifies `stack, `currQueue, `currPriority, `evalNew, `threads, queues, t`priority, t`originalPriority
      ensures Valid() && threads == old(threads)
      ensures ok <==> priority != 0
      ensures ok ==> t.priority == priority
      ensures ok ==> t.originalPriority == if t.inheriting then old(t.originalPriority) else priority
      ensures ok ==> queues[..] == Moved(old(queues[..]), t, old(t.priority), priority)
      ensures ok ==> forall x, p :: x in old(threads) ==>
                (In(x, p) <==> if x == t then p == t.priority else old(In(x, p)))
      ensures !ok ==> t.priority == old(t.priority) && t.originalPriority == old(t.originalPriority)
      ensures !ok ==> queues[..] == old(queues[..])
      ensures var change := FocusChange(old(Current()), BusyOf(queues[..]), priority, old(t.priority));
              if ok then (panicked <==> change.Panicked?) && Current() == change.focus
                  else !panicked && Current() == old(Current())
      ensures !ok && old(Oriented()) ==> Oriented()
      ensures old(Oriented() && In(t, t.priority)) && Grounded() && !panicked ==> Oriented()
      ensures forall x, p :: x in old(threads) && x != t ==> (In(x, p) <==> old(In(x, p)))
      ensures old(Settled()) ==> (Settled() <==> !ok || t == idle || Runnable(t.state))
    {
      hide FocusOk;
      hide FocusChange;
      hide Moved;
      hide BusyOf;
      hide Oriented;
      hide Grounded;
      panicked := false;
      ok := priority != 0;
      if ok {
        var original := t.priority;
        t.priority := priority;
        if !t.inheriting {
          t.originalPriority := priority;
        }
        panicked := NotifyChangePriority(t, original);
      }
    }

    /** Notes the priority of a thread that is about to inherit another one. */
    method KeepPriority(t: Thread)
      requires Valid() && t in threads
      modifies t`originalPriority, t`inheriting
      ensures Valid() && t.originalPriority == t.priority && t.inheriting
      ensures old(Oriented()) ==> Oriented()
      ensures old(Settled()) ==> Settled()
    {
      hide Oriented;
      hide Grounded;
      t.originalPriority := t.priority;
      t.inheriting := true;
    }

    /** Gives a thread its own priority back. */
    method ResetPriority(t: Thread) returns (panicked: bool)
      requires Valid() && t in threads
      modifies `stack, `currQueue, `currPriority, `evalNew, `threads, queues, t`priority, t`inheriting
      ensures Valid() && threads == old(threads)
      ensures t.priority == t.originalPriority && !t.inheriting
      ensures queues[..] == Moved(old(queues[..]), t, old(t.priority), t.priority)
      ensures forall x, p :: x in old(threads) ==> (In(x, p) <==> if x == t then p == t.priority else old(In(x, p)))
      ensures var change := FocusChange(old(Current()), BusyOf(queues[..]), t.priority, old(t.priority));
              (panicked <==> change.Panicked?) && Current() == change.focus
      ensures old(Oriented() && In(t, t.priority)) && Grounded() && !panicked ==> Oriented()
      ensures forall x, p :: x in old(threads) && x != t ==> (In(x, p) <==> old(In(x, p)))
      ensures old(Settled()) ==> (Settled() <==> t == idle || Runnable(t.state))
    {
      hide FocusOk;
      hide FocusChange;
      hide Moved;
      hide BusyOf;
      hide Oriented;
      hide Grounded;
      var original := t.priority;
      t.priority := t.originalPriority;
      t.inheriting := false;
      panicked := NotifyChangePriority(t, original);
    }

    /** A thread is created, ready to run. */
    method Create(priority: int) returns (t: Thread)
      requires Valid() && IsQueue(priority)
      modifies `stack, `currQueue, `currPriority, `evalNew, `threads, queues
      ensures Valid() && threads == old(threads) + {t} && fresh(t) && t.priority == t.originalPriority == priority
              && t.state == Ready
      ensures queues[..] == old(queues[..])[priority := old(queues[priority]) + [t]]
      ensures Current() == FocusNew(old(Current()), BusyOf(queues[..]), priority)
      ensures forall x, p :: x in old(threads) && x != t ==> (In(x, p) <==> old(In(x, p)))
      ensures old(Settled()) ==> Settled()
      ensures old(Oriented()) ==> Oriented()
      ensures old(OneRunning()) ==> OneRunning()
    {
      hide Oriented;
      hide Grounded;
      hide FocusNew;
      t := new Thread(priority);
      assert t !in queues[priority] by {
        NewIn(t, priority);
      }
      NotifyNew(t);
    }

    lemma NewIn(t: Thread, p: int)
      requires QueuesOk() && IsQueue(p) && t !in threads
      ensures queues.Length == PRIORITIES && t !in queues[p]
    {
    }

    // ---------------------------------------------------------------- runs

    /** A change of the priority of a thread that cannot run puts it into a queue all the same. */
    ghost predicate Disturbs(call: Call, pool: seq<Thread>)
      reads `idle, pool`state
    {
      match call
      case Prioritise(i, priority) => i < |pool| && 0 < priority < PRIORITIES && pool[i] != idle
          && !Runnable(pool[i].state)
      case Restore(i) => i < |pool| && pool[i] != idle && !Runnable(pool[i].state)
      case _ => false
    }

    /** A call that concerns the priority of a thread. */
    method StepPriority(call: Call, pool: seq<Thread>) returns (panicked: bool)
      requires Valid() && (forall t :: t in pool ==> t in threads) && (call.Prioritise? || call.Keep? || call.Restore?)
      modifies this, queues, threads
      ensures Valid() && unchanged(`idle) && threads == old(threads)
      ensures old(OneRunning()) ==> OneRunning()
      ensures old(Settled()) ==> (Settled() <==> !old(Disturbs(call, pool)))
      ensures idle !in pool ==> idle.priority == old(idle.priority)
      ensures idle !in pool && old(Settled() && AtBottom()) && !old(Disturbs(call, pool)) && !panicked ==> AtBottom()
      ensures panicked ==> call.Prioritise? || call.Restore?
    {
      hide Oriented;
      hide Grounded;
      hide In;
      hide QueuesOk;
      hide FocusOk;
      panicked := false;
      match call {
        case Prioritise(i, priority) =>
          if i < |pool| && priority < PRIORITIES {
            var ok;
            SettledIn(pool[i]);
            ok, panicked := SetPriority(pool[i], priority);
          }
        case Keep(i) =>
          if i < |pool| {
            KeepPriority(pool[i]);
          }
        case Restore(i) =>
          if i < |pool| {
            SettledIn(pool[i]);
            panicked := ResetPriority(pool[i]);
          }
      }
      IdleGrounds();
    }

    /** One kernel call.  Threads go by their number in `pool`; a call for a thread that is not there is skipped. */
    method Step(call: Call, pool: seq<Thread>) returns (pool': seq<Thread>, panicked: bool)
      requires Valid() && forall t :: t in pool ==> t in threads
      modifies this, queues, threads
      ensures Valid() && unchanged(`idle) && old(threads) <= threads && pool <= pool'
      ensures forall t :: t in pool' ==> t in threads
      ensures forall t :: t in threads && t !in old(threads) ==> fresh(t)
      ensures old(OneRunning()) ==> OneRunning()
      ensures old(Settled()) ==> (Settled() <==> !old(Disturbs(call, pool)))
      ensures idle !in pool ==> idle !in pool' && idle.priority == old(idle.priority)
      ensures idle !in pool && old(Settled() && AtBottom()) && !old(Disturbs(call, pool)) && !panicked ==> AtBottom()
      ensures panicked ==> call.Prioritise? || call.Restore?
    {
      hide Oriented;
      hide Grounded;
      hide In;
      hide QueuesOk;
      hide FocusOk;
      pool', panicked := pool, false;
      match call {
        case Spawn(priority) =>
          if priority < PRIORITIES {
            var t := Create(priority);
            pool' := pool + [t];
          }
        case Block(i, on) =>
          if i < |pool| {
            SetWaiting(pool[i], on);
          }
        case Wake(i) =>
          if i < |pool| {
            SetReady(pool[i]);
          }
        case End(i) =>
          if i < |pool| {
            var ok := Exit(pool[i]);
          }
        case Switch =>
          var next := Dispatch(if currThread == null then NotCreated else currThread.state);
        case _ =>
          panicked := StepPriority(call, pool);
      }
      IdleGrounds();
    }

    lemma SettledIn(t: Thread)
      requires t in threads
      ensures Settled() && t != idle && Runnable(t.state) ==> In(t, t.priority)
    {
    }

    /** The idle thread in queue 0 keeps it from running empty. */
    lemma IdleGrounds()
      requires Valid()
      ensures In(idle, 0) ==> Grounded()
    {
    }

    /**
      A whole run, up to a panic.  At its end each thread is in no queue but that of its priority, none but the current
      one is marked as running, and unless the priority of a thread that cannot run was changed, the queues hold
      exactly the threads that can.
     */
    method Run(calls: seq<Call>, pool: seq<Thread>) returns (pool': seq<Thread>, panicked: bool, ghost disturbed: bool)
      requires Valid() && OneRunning() && Settled() && forall t :: t in pool ==> t in threads
      modifies this, queues, threads
      ensures Valid() && OneRunning() && pool <= pool'
      ensures !disturbed ==> Settled()
      ensures (forall c :: c in calls ==> !c.Prioritise? && !c.Restore?) ==> !disturbed && !panicked
      ensures idle !in pool && old(AtBottom()) && !disturbed && !panicked ==> AtBottom()
    {
      hide QueuesOk;
      hide FocusOk;
      hide OneRunning;
      hide Settled;
      hide Oriented;
      hide In;
      pool', panicked, disturbed := pool, false, false;
      var i := 0;
      while i < |calls| && !panicked
        invariant 0 <= i <= |calls| && Valid() && OneRunning() && pool <= pool'
        invariant old(threads) <= threads && forall t :: t in threads && t !in old(threads) ==> fresh(t)
        invariant forall t :: t in pool' ==> t in threads
        invariant !disturbed ==> Settled()
        invariant idle == old(idle) && (idle !in pool ==> idle !in pool')
        invariant idle !in pool && old(AtBottom()) && !disturbed && !panicked ==> AtBottom()
        invariant (forall c :: c in calls ==> !c.Prioritise? && !c.Restore?) ==> !disturbed && !panicked
      {
        disturbed := disturbed || Disturbs(calls[i], pool');
        pool', panicked := Step(calls[i], pool');
        i := i + 1;
      }
    }
  }

  /** The thread was made ready and joined its run queue, if it was still waiting. */
  twostate predicate Woken(s: Scheduler, t: Thread)
    reads s, s.queues, t
  {
    if old(t.state) == Waiting then t.state == Ready && t.waitingOn == 0 && s.In(t, t.priority)
    else t.state == old(t.state) && t.waitingOn == old(t.waitingOn)
  }

  /** The thread was left alone. */
  twostate predicate Untouched(t: Thread)
    reads t
  {
    t.state == old(t.state) && t.waitingOn == old(t.waitingOn)
  }

  /** The kernel calls that concern the scheduler. */
  datatype Call =
    | Spawn(priority: nat)
    | Block(thread: nat, on: nat)
    | Wake(thread: nat)
    | End(thread: nat)
    | Prioritise(thread: nat, priority: nat)
    | Keep(thread: nat)
    | Restore(thread: nat)
    | Switch

  lemma WithoutOnly(t: Thread)
    ensures Without([t], t) == []
  {
  }

  /** With an idle thread, threads of priority 5 and 7 are made, and the first ends. */
  method BeforePanic() returns (s: Scheduler, high: Thread)
    ensures s.Valid() && fresh(s) && fresh(s.queues) && fresh(high) && high in s.threads && high.priority == 7
    ensures s.Current() == Focus([0, 5, 7], 7, 7, true)
    ensures s.queues.Length == PRIORITIES && s.queues[5] == [] && s.queues[7] == [high]
  {
    hide Scheduler.QueuesOk;
    hide Scheduler.Settled;
    hide Scheduler.OneRunning;
    hide FocusOk;
    hide FocusNew;
    hide FocusExit;
    hide FocusChange;
    hide Without;
    var idle := new Thread(0);
    s := new Scheduler(idle);
    s.Known(idle);
    var low := s.Create(5);
    Raised(Focus([0], 0, 0, false), BusyOf(s.queues[..]), 5);
    assert s.Current() == Focus([0, 5], 5, 5, true) && s.queues[5] == [low];
    high := s.Create(7);
    Raised(Focus([0, 5], 5, 5, true), BusyOf(s.queues[..]), 7);
    assert s.Current() == Focus([0, 5, 7], 7, 7, true) && s.queues[5] == [low] && s.queues[7] == [high];
    var ok := s.Exit(low);
    WithoutOnly(low);
    assert s.queues[5] == [] && s.queues[7] == [high];
    StillBusy(Focus([0, 5, 7], 7, 7, true), BusyOf(s.queues[..]), 5);
  }

  /** A panic from four calls: the second thread is then lowered to priority 6. */
  method PanicRun() returns (panicked: bool)
    ensures panicked
  {
    hide Scheduler.QueuesOk;
    hide Scheduler.Settled;
    hide Scheduler.OneRunning;
    hide FocusOk;
    hide FocusChange;
    hide Without;
    var s, high := BeforePanic();
    var ok;
    ok, panicked := s.SetPriority(high, 6);
    WithoutOnly(high);
    ghost var f, busy := Focus([0, 5, 7], 7, 7, true), BusyOf(s.queues[..]);
    assert busy[6] && !busy[7] && !busy[5];
    assert Popped(f).stack == [0, 5];
    LowerPanics(f, busy, 6, 7);
  }

  /** A scheduler with its idle thread in queue 0. */
  method Boot() returns (s: Scheduler, idle: Thread)
    ensures s.Valid() && fresh(s) && fresh(s.queues) && fresh(idle) && s.threads == {idle} && s.idle == idle
    ensures s.AtBottom() && s.Settled() && s.OneRunning() && s.currThread == null
    ensures s.Current() == Focus([0], 0, 0, false) && s.queues.Length == PRIORITIES && s.queues[0] == [idle]
    ensures forall p :: 0 < p < PRIORITIES ==> s.queues[p] == []
  {
    idle := new Thread(0);
    s := new Scheduler(idle);
    s.NotifyNew(idle);
    BusyAt(s.queues[..]);
  }

  /** A thread is made above all others. */
  method Rise(s: Scheduler, p: int) returns (t: Thread)
    requires s.Valid() && IsQueue(p) && s.currPriority < p && s.queues.Length == PRIORITIES && s.queues[p] == []
    modifies s`stack, s`currQueue, s`currPriority, s`evalNew, s`threads, s.queues
    ensures s.Valid() && fresh(t) && t.priority == p && t.state == Ready && s.threads == old(s.threads) + {t}
    ensures s.Current() == Focus(old(s.stack) + [p], p, p, true) && s.queues[p] == [t]
    ensures forall q :: 0 <= q < PRIORITIES && q != p ==> s.queues[q] == old(s.queues[q])
  {
    hide Scheduler.QueuesOk;
    hide Scheduler.Settled;
    hide Scheduler.OneRunning;
    hide Scheduler.Oriented;
    hide Scheduler.Grounded;
    hide Scheduler.In;
    hide FocusOk;
    hide FocusNew;
    ghost var f := s.Current();
    t := s.Create(p);
    Raised(f, BusyOf(s.queues[..]), p);
  }

  /** The only thread of its queue ends: the queue below it on the stack is taken if it was the current one. */
  method Leave(s: Scheduler, t: Thread)
    requires s.Valid() && t in s.threads && Runnable(t.state) && IsQueue(t.priority)
    requires s.queues.Length == PRIORITIES && s.queues[t.priority] == [t] && IsQueue(s.currQueue)
    requires if s.currQueue == t.priority then |s.stack| > 1 else s.queues[s.currQueue] != []
    modifies s`stack, s`currQueue, s`currPriority, s`evalNew, s`currThread, s.queues, t`state
    ensures s.Valid() && s.queues[t.priority] == []
    ensures forall q :: 0 <= q < PRIORITIES && q != t.priority ==> s.queues[q] == old(s.queues[q])
    ensures s.currThread == if old(s.currThread) == t then null else old(s.currThread)
    ensures if old(s.currQueue) != t.priority then s.Current() == old(s.Current()).(eval := true)
            else
              var n := |old(s.stack)|;
              var below := old(s.stack)[n - 2];
              && IsQueue(below) && s.stack == old(s.stack)[..n - 1] && s.currQueue == below
              && s.currPriority == if s.queues[below] == [] then 0 else below
  {
    hide Scheduler.QueuesOk;
    hide Scheduler.Settled;
    hide Scheduler.OneRunning;
    hide Scheduler.Oriented;
    hide Scheduler.Grounded;
    hide Scheduler.In;
    hide FocusOk;
    hide FocusExit;
    hide Without;
    ghost var f := s.Current();
    WithoutOnly(t);
    assert FocusOk(f);
    assert s.In(t, t.priority) by {
      InOnly(s, t);
    }
    var ok := s.Exit(t);
    ghost var busy := BusyOf(s.queues[..]);
    if f.queue == t.priority {
      OnStack(f, |f.stack| - 2);
      TakesBelow(f, busy, t.priority);
    } else {
      StillBusy(f, busy, t.priority);
    }
  }

  lemma OnStack(f: Focus, i: int)
    requires FocusOk(f) && 0 <= i < |f.stack|
    ensures IsQueue(f.stack[i])
  {
    assert f.stack[i] in f.stack;
  }

  /** The next thread: the first of the current queue, or the idle one if that has none. */
  method Choose(s: Scheduler) returns (next: Thread)
    requires s.Valid() && s.queues.Length == PRIORITIES && IsQueue(s.currQueue) && s.currThread == null
    requires s.queues[s.currQueue] != [] ==> Runnable(s.queues[s.currQueue][0].state)
    modifies s`currThread, s`evalNew, s.queues, s.threads`state
    ensures s.Valid() && next == if old(s.queues[s.currQueue]) == [] then s.idle else old(s.queues[s.currQueue])[0]
    ensures forall t :: t in s.threads && !Runnable(old(t.state)) ==> t.state == old(t.state)
    ensures forall t, p :: t in s.threads ==> (s.In(t, p) <==> old(s.In(t, p)))
    ensures forall t :: t in s.threads ==> (Runnable(t.state) <==> Runnable(old(t.state)))
    ensures |s.queues[s.currQueue]| == |old(s.queues[s.currQueue])|
  {
    hide Scheduler.Valid;
    hide Scheduler.Settled;
    hide Scheduler.OneRunning;
    hide Scheduler.Oriented;
    hide Scheduler.In;
    hide EndsSwapped;
    SwappedTwice(s.queues[s.currQueue]);
    next := s.Dispatch(NotCreated);
  }

  lemma InOnly(s: Scheduler, t: Thread)
    requires s.queues.Length == PRIORITIES && IsQueue(t.priority) && s.queues[t.priority] == [t]
    ensures s.In(t, t.priority)
  {
  }

  /** Threads of priority 5 and 7 are made, and the second one ends: the first one is chosen. */
  method NextRun() returns (next: Thread, five: Thread)
    ensures next == five && five.priority == 5
  {
    hide Scheduler.Valid;
    hide Scheduler.Settled;
    hide Scheduler.OneRunning;
    hide Scheduler.AtBottom;
    hide Scheduler.In;
    var s, idle := Boot();
    five := Rise(s, 5);
    var seven := Rise(s, 7);
    Leave(s, seven);
    assert s.currQueue == 5 && s.queues[5] == [five];
    next := Choose(s);
  }

  /**
    Threads of priority 3, 5 and 7 are made; the second one ends, then the third.  The scheduler goes to the empty
    queue of the second one, and the idle thread is chosen though the first one can run.
   */
  method StarveRun() returns (next: Thread, three: Thread, s: Scheduler)
    ensures s.Valid() && next == s.idle && three != next
    ensures Runnable(three.state) && three.priority == 3 && s.In(three, 3)
    ensures s.currQueue == 5 && s.queues.Length == PRIORITIES && s.queues[5] == []
  {
    hide Scheduler.Valid;
    hide Scheduler.Settled;
    hide Scheduler.OneRunning;
    hide Scheduler.AtBottom;
    hide Scheduler.In;
    var idle;
    s, idle := Boot();
    three := Rise(s, 3);
    var five := Rise(s, 5);
    var seven := Rise(s, 7);
    Leave(s, five);
    Leave(s, seven);
    assert s.currQueue == 5 && s.queues[3] == [three] && s.queues[5] == [];
    InOnly(s, three);
    next := Choose(s);
  }
}
