/** A run in which a message goes to a thread that did not ask for it. */
module PipeStrays {
  import opened PipeRing
  import opened Schedulers
  import opened PipeModel
  import opened PipeHistory

  /** Four pipes: 0 sends to 1 and receives from 3; 1 has one slot and also receives from 2. */
  ghost function Four(first: Cell<nat>, second: Cell<nat>, t: Thread, u: Thread, mark: Mark): World<nat> {
    World(map[0 := first, 1 := second, 2 := Cell(3, SendOnly, 0, [], null, [], null, [1], []),
              3 := Cell(4, SendOnly, 0, [], null, [], null, [0], [])],
          map[t := mark, u := Mark(Running, 0, false)])
  }

  ghost function First(owner: Thread?, sending: Thread?): Cell<nat> {
    Cell(1, SendReceive, 1, [], owner, [], sending, [1], [])
  }

  ghost function Second(queue: seq<Message>, senders: seq<nat>): Cell<nat> {
    Cell(2, ReceiveOnly, 1, queue, null, [], null, [], senders)
  }

  lemma FourOk(owner: Thread?, sending: Thread?, queue: seq<Message>, senders: seq<nat>, t: Thread, u: Thread,
               mark: Mark)
    requires t != u && (owner == null || owner == t) && (sending == null || sending == t) && |queue| <= 1
    requires forall s :: s in senders ==> s == 0
    ensures var w := Four(First(owner, sending), Second(queue, senders), t, u, mark);
            WorldOk(w) && Names(w, [0, 1, 2, 3], [t, u])
  {
  }

  /** Pipe 2 sends a message to pipe 1. */
  lemma Fill(first: Cell<nat>, senders: seq<nat>, t: Thread, u: Thread, mark: Mark, m: Message)
    requires t != u
    ensures Send(Four(first, Second([], senders), t, u, mark), 2, u, SendAll, m, false)
            == Outcome(Four(first, Second([m], senders), t, u, mark), Entry(NoError, [], [Accepted(1, m)]))
  {
    var w := Four(first, Second([], senders), t, u, mark);
    assert Deliver(w, [1], m, 0) == Change(w, []);
    assert [] + [m] == [m] && [] + [Accepted(1, m)] == [Accepted(1, m)];
    assert Deliver(w, [1], m, 1).world.pipes == Four(first, Second([m], senders), t, u, mark).pipes;
  }

  /** The message of pipe 1 is read, and a thread that blocked in sending from pipe 0 is woken. */
  lemma Drain(owner: Thread?, t: Thread, u: Thread, mark: Mark, senders: seq<nat>, m: Message)
    requires t != u && 0 in senders && (forall s :: s in senders ==> s == 0) && |m| <= 4
    ensures Receive(Four(First(owner, t), Second([m], senders), t, u, mark), 1, u, 4, false)
            == Outcome(Four(First(owner, t), Second([], senders), t, u, WokenMark(mark)),
                       Entry(NoError, m, [Read(1, u, m)]))
  {
    var w := Four(First(owner, t), Second([m], senders), t, u, mark);
    assert SendersOf(w, 1) == {t};
    var w' := Four(First(owner, t), Second([], senders), t, u, WokenMark(mark));
    assert [m][1..] == [];
    assert Taken(w, 1).pipes == w'.pipes;
    assert Taken(w, 1).threads == w'.threads;
  }

  lemma NotedThere(owner: Thread?, t: Thread, u: Thread, mark: Mark, senders: seq<nat>, y: Message)
    requires t != u
    ensures Noted(Four(First(owner, t), Second([y], senders), t, u, mark).pipes, 0)
            == Four(First(owner, t), Second([y], senders + [0]), t, u, mark).pipes
  {
  }

  lemma TryBlocks(owner: Thread?, sending: Thread?, t: Thread, u: Thread, mark: Mark, senders: seq<nat>, y: Message)
    requires t != u && CanWait(mark.state)
    ensures SendBlocked(Four(First(owner, sending), Second([y], senders), t, u, mark), 0, t)
            == Change(Four(First(owner, t), Second([y], senders + [0]), t, u, Mark(Waiting, 1, false)),
                      [Blocked(0, t, false)])
  {
    hide Noted;
    var w := Four(First(owner, sending), Second([y], senders), t, u, mark);
    assert w.pipes[0 := First(owner, t)] == Four(First(owner, t), Second([y], senders), t, u, mark).pipes;
    NotedThere(owner, t, u, mark, senders, y);
    assert w.threads[t := Mark(Waiting, 1, false)] == map[t := Mark(Waiting, 1, false), u := Mark(Running, 0, false)];
  }

  /** While pipe 1 is full, a thread blocks in sending from pipe 0. */
  lemma Try(owner: Thread?, sending: Thread?, t: Thread, u: Thread, mark: Mark, senders: seq<nat>, y: Message,
            m: Message)
    requires t != u && CanWait(mark.state)
    ensures Send(Four(First(owner, sending), Second([y], senders), t, u, mark), 0, t, SendAll, m, true)
            == Outcome(Four(First(owner, t), Second([y], senders + [0]), t, u, Mark(Waiting, 1, false)),
                       Entry(BlockedRetry, [], [Blocked(0, t, false)]))
  {
    hide Deliver;
    hide SendBlocked;
    var w := Four(First(owner, sending), Second([y], senders), t, u, mark);
    assert !AllRoom(w, [1]) by {
      assert 1 in [1];
    }
    TryBlocks(owner, sending, t, u, mark, senders, y);
  }

  /** A thread blocks in a read of pipe 0. */
  lemma Listen(owner: Thread?, sending: Thread?, second: Cell<nat>, t: Thread, u: Thread, mark: Mark)
    requires t != u && CanWait(mark.state)
    ensures Receive(Four(First(owner, sending), second, t, u, mark), 0, t, 4, true)
            == Outcome(Four(First(t, sending), second, t, u, Mark(Waiting, 1, true)),
                       Entry(NoError, [], [Blocked(0, t, true)]))
  {
    var w := Four(First(owner, sending), second, t, u, mark);
    var w' := Four(First(t, sending), second, t, u, Mark(Waiting, 1, true));
    var d := Receive(w, 0, t, 4, true);
    assert d.world.pipes == w'.pipes;
    assert d.world.threads == w'.threads;
  }

  /** Pipe 3 sends a message to pipe 0, where a thread blocked in sending is noted from an earlier read. */
  lemma Last(second: Cell<nat>, t: Thread, u: Thread, x: Message)
    requires t != u
    ensures var w := Four(First(t, t), second, t, u, Mark(Waiting, 1, false));
            Send(w, 3, u, SendAll, x, false).entry == Entry(NoError, [], [Accepted(0, x), Handed(0, t, x, false)])
  {
    var w := Four(First(t, t), second, t, u, Mark(Waiting, 1, false));
    assert Deliver(w, [0], x, 0) == Change(w, []);
  }

  /** The calls of the run below. */
  ghost function StrayCalls(): seq<PipeCall> {
    [SendCall(1, 2, SendAll, [1], false),
     SendCall(0, 0, SendAll, [2], true),
     ReceiveCall(1, 1, 4, false),
     ReceiveCall(0, 0, 4, true),
     SendCall(1, 2, SendAll, [3], false),
     ReceiveCall(1, 1, 4, false),
     SendCall(1, 2, SendAll, [4], false),
     SendCall(0, 0, SendAll, [2], true),
     SendCall(1, 3, SendAll, [5], false)]
  }

  /** The state after the first `n` calls. */
  ghost function StrayState(t: Thread, u: Thread, n: nat): World<nat> {
    var ready, sending, reading := Mark(Ready, 0, false), Mark(Waiting, 1, false), Mark(Waiting, 1, true);
    if n == 0 then Four(First(null, null), Second([], []), t, u, ready)
    else if n == 1 then Four(First(null, null), Second([[1]], []), t, u, ready)
    else if n == 2 then Four(First(null, t), Second([[1]], [0]), t, u, sending)
    else if n == 3 then Four(First(null, t), Second([], [0]), t, u, ready)
    else if n == 4 then Four(First(t, t), Second([], [0]), t, u, reading)
    else if n == 5 then Four(First(t, t), Second([[3]], [0]), t, u, reading)
    else if n == 6 then Four(First(t, t), Second([], [0]), t, u, WokenMark(reading))
    else if n == 7 then Four(First(t, t), Second([[4]], [0]), t, u, WokenMark(reading))
    else Four(First(t, t), Second([[4]], [0, 0]), t, u, sending)
  }

  lemma StrayOk(t: Thread, u: Thread, n: nat)
    requires t != u
    ensures WorldOk(StrayState(t, u, n)) && Names(StrayState(t, u, n), [0, 1, 2, 3], [t, u])
  {
    hide WorldOk;
    hide Names;
    hide Four;
    hide First;
    hide Second;
    var ready, sending, reading := Mark(Ready, 0, false), Mark(Waiting, 1, false), Mark(Waiting, 1, true);
    FourOk(null, null, [], [], t, u, ready);
    FourOk(null, null, [[1]], [], t, u, ready);
    FourOk(null, t, [[1]], [0], t, u, sending);
    FourOk(null, t, [], [0], t, u, ready);
    FourOk(t, t, [], [0], t, u, reading);
    FourOk(t, t, [[3]], [0], t, u, reading);
    FourOk(t, t, [], [0], t, u, WokenMark(reading));
    FourOk(t, t, [[4]], [0], t, u, WokenMark(reading));
    FourOk(t, t, [[4]], [0, 0], t, u, sending);
  }

  lemma StrayStep(t: Thread, u: Thread, n: nat)
    requires t != u && n < 8
    ensures WorldOk(StrayState(t, u, n)) && Names(StrayState(t, u, n), [0, 1, 2, 3], [t, u])
    ensures var d := Do(StrayState(t, u, n), StrayCalls()[n], [0, 1, 2, 3], [t, u]);
            && d.world == StrayState(t, u, n + 1)
            && (n == 3 ==> d.entry.events == [Blocked(0, t, true)])
            && (n == 7 ==> d.entry.events == [Blocked(0, t, false)])
  {
    hide WorldOk;
    hide Names;
    hide Four;
    hide First;
    hide Second;
    hide Send;
    hide Receive;
    StrayOk(t, u, n);
    assert [] + [0] == [0] && [0] + [0] == [0, 0];
    var ready, sending, reading := Mark(Ready, 0, false), Mark(Waiting, 1, false), Mark(Waiting, 1, true);
    match n
    case 0 => Fill(First(null, null), [], t, u, ready, [1]);
    case 1 => Try(null, null, t, u, ready, [], [1], [2]);
    case 2 => Drain(null, t, u, sending, [0], [1]);
    case 3 => Listen(null, t, Second([], [0]), t, u, ready);
    case 4 => Fill(First(t, t), [0], t, u, reading, [3]);
    case 5 => Drain(t, t, u, reading, [0], [3]);
    case 6 => Fill(First(t, t), [0], t, u, WokenMark(reading), [4]);
    case 7 => Try(t, t, t, u, WokenMark(reading), [0], [4], [2]);
  }

  lemma {:induction false} StrayAfter(t: Thread, u: Thread, n: nat)
    requires t != u && n <= 8
    ensures WorldOk(StrayState(t, u, 0)) && Names(StrayState(t, u, 0), [0, 1, 2, 3], [t, u])
    ensures After(StrayState(t, u, 0), StrayCalls(), [0, 1, 2, 3], [t, u], n) == StrayState(t, u, n)
  {
    hide WorldOk;
    hide Names;
    hide StrayState;
    hide Do;
    StrayOk(t, u, 0);
    if n > 0 {
      StrayAfter(t, u, n - 1);
      StrayStep(t, u, n - 1);
    }
  }

  /**
    A run in which a message strays: the thread blocks in a read of pipe 0 and is woken without a message, since it once
    blocked in sending to pipe 1; when it blocks in sending from pipe 0, it is handed the next message for that pipe.
   */
  lemma StrayRun(t: Thread, u: Thread)
    requires t != u
    ensures WorldOk(StrayState(t, u, 0)) && Names(StrayState(t, u, 0), [0, 1, 2, 3], [t, u])
    ensures NobodyWaits(StrayState(t, u, 0))
    ensures var trace := Trace(StrayState(t, u, 0), StrayCalls(), [0, 1, 2, 3], [t, u], 9);
            && trace[3].events == [Blocked(0, t, true)] && trace[7].events == [Blocked(0, t, false)]
            && trace[8].events == [Accepted(0, [5]), Handed(0, t, [5], false)]
  {
    hide WorldOk;
    hide Names;
    hide NobodyWaits;
    hide StrayState;
    hide Do;
    hide After;
    hide Trace;
    StrayAfter(t, u, 3);
    StrayAfter(t, u, 7);
    StrayAfter(t, u, 8);
    StrayStep(t, u, 3);
    StrayStep(t, u, 7);
    StrayEnd(t, u);
    TraceAt(StrayState(t, u, 0), StrayCalls(), [0, 1, 2, 3], [t, u], 9, 3);
    TraceAt(StrayState(t, u, 0), StrayCalls(), [0, 1, 2, 3], [t, u], 9, 7);
    TraceAt(StrayState(t, u, 0), StrayCalls(), [0, 1, 2, 3], [t, u], 9, 8);
  }

  lemma StrayEnd(t: Thread, u: Thread)
    requires t != u
    ensures NobodyWaits(StrayState(t, u, 0))
    ensures WorldOk(StrayState(t, u, 8)) && Names(StrayState(t, u, 8), [0, 1, 2, 3], [t, u])
    ensures Do(StrayState(t, u, 8), StrayCalls()[8], [0, 1, 2, 3], [t, u]).entry.events
            == [Accepted(0, [5]), Handed(0, t, [5], false)]
  {
    hide WorldOk;
    hide Names;
    hide Send;
    hide Receive;
    StrayOk(t, u, 8);
    Last(Second([[4]], [0, 0]), t, u, [5]);
  }
}
