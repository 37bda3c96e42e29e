/** Which run queue the scheduler works on: the current queue and the stack of queues to come back to. */
module RunQueues {

  const PRIORITIES: int := 256

  /** The stack of queues, the current queue and priority, and whether a switch is due.  Queues go by their priority. */
  datatype Focus = Focus(stack: seq<int>, queue: int, priority: int, eval: bool)

  predicate IsQueue(p: int) { 0 <= p < PRIORITIES }

  ghost predicate AllQueues(s: seq<int>) {
    forall p :: p in s ==> IsQueue(p)
  }

  /** Every queue the scheduler refers to is one of the 256. */
  ghost predicate FocusOk(f: Focus) {
    IsQueue(f.queue) && IsQueue(f.priority) && AllQueues(f.stack)
  }

  /** Which queues have threads. */
  type Busy = s: seq<bool> | |s| == PRIORITIES witness seq(PRIORITIES, i => false)

  predicate IsBusy(busy: Busy, p: int) { IsQueue(p) && busy[p] }

  /** `--p` for an 8-bit priority. */
  function Down(p: int): (q: int)
    requires IsQueue(p)
    ensures IsQueue(q)
  {
    if p == 0 then PRIORITIES - 1 else p - 1
  }

  /** The slow search: down from `p`, around the 8-bit wrap, to a queue with threads or to queue 0. */
  function SlowSearch(busy: Busy, p: int): (q: int)
    requires IsQueue(p)
    ensures IsQueue(q)
    decreases if p == 0 then PRIORITIES else p
  {
    var q := Down(p);
    if busy[q] || q == 0 then q else SlowSearch(busy, q)
  }

  /** The search stops at the highest busy queue below `p`, any queue counting as below 0, or else at queue 0. */
  lemma {:induction false} SlowSearchFinds(busy: Busy, p: int)
    requires IsQueue(p)
    ensures var q := SlowSearch(busy, p);
            && (busy[q] || q == 0) && (p > 0 ==> q < p)
            && (forall r :: q < r && (r < p || (p == 0 && r < PRIORITIES)) ==> !busy[r])
    decreases if p == 0 then PRIORITIES else p
  {
    var q := Down(p);
    if !busy[q] && q != 0 {
      SlowSearchFinds(busy, q);
    }
  }

  /** `list_insert`: at index 0 the item goes after the first one. */
  function Inserted(stack: seq<int>, i: int, p: int): (r: seq<int>)
    requires 0 <= i < |stack|
    ensures |r| == |stack| + 1
  {
    var k := if i == 0 then 1 else i;
    stack[..k] + [p] + stack[k..]
  }

  /** Puts queue `p` on the stack where the search from the bottom first meets a busy queue of lower priority. */
  function WithLower(stack: seq<int>, busy: Busy, p: int, i: nat): seq<int>
    decreases |stack| - i
  {
    if i >= |stack| then stack
    else if IsBusy(busy, stack[i]) && stack[i] == p then stack
    else if IsBusy(busy, stack[i]) && stack[i] < p then Inserted(stack, i, p)
    else WithLower(stack, busy, p, i + 1)
  }

  /** The stack `r` is the stack `s`, or has `p` somewhere between its entries. */
  ghost predicate Gained(s: seq<int>, r: seq<int>, p: int) {
    r == s || exists k :: 0 <= k <= |s| && r == s[..k] + [p] + s[k..]
  }

  /** A queue with threads and of lower priority than `p` is on the stack. */
  ghost predicate LowerBusy(s: seq<int>, busy: Busy, p: int) {
    exists i :: 0 <= i < |s| && IsBusy(busy, s[i]) && s[i] < p
  }

  /**
    The other entries stay, in their order, and `p` is on the stack afterwards exactly if it was there or a busy queue
    of lower priority is.
   */
  lemma WithLowerIs(stack: seq<int>, busy: Busy, p: int)
    ensures var r := WithLower(stack, busy, p, 0);
            Gained(stack, r, p) && (p in r <==> p in stack || LowerBusy(stack, busy, p))
  {
    WithLowerFrom(stack, busy, p, 0);
  }

  lemma {:induction false} WithLowerFrom(stack: seq<int>, busy: Busy, p: int, i: nat)
    requires i <= |stack| && forall j :: 0 <= j < i ==> !(IsBusy(busy, stack[j]) && stack[j] <= p)
    ensures var r := WithLower(stack, busy, p, i);
            Gained(stack, r, p) && (p in r <==> p in stack || LowerBusy(stack, busy, p))
    decreases |stack| - i
  {
    if i < |stack| {
      if IsBusy(busy, stack[i]) && stack[i] < p {
        InsertedIs(stack, i, p);
      } else if !(IsBusy(busy, stack[i]) && stack[i] == p) {
        WithLowerFrom(stack, busy, p, i + 1);
      }
    }
  }

  lemma InsertedIs(stack: seq<int>, i: int, p: int)
    requires 0 <= i < |stack|
    ensures Gained(stack, Inserted(stack, i, p), p) && p in Inserted(stack, i, p)
  {
    var k := if i == 0 then 1 else i;
    assert Inserted(stack, i, p)[k] == p;
  }

  function Popped(f: Focus): Focus {
    if |f.stack| == 0 then f else f.(stack := f.stack[..|f.stack| - 1], queue := f.stack[|f.stack| - 1])
  }

  /** A thread of priority `p` became ready. */
  function FocusNew(f: Focus, busy: Busy, p: int): Focus {
    if p > f.priority then Focus(f.stack + [p], p, p, true)
    else if p < f.priority then f.(stack := WithLower(f.stack, busy, p, 0))
    else f
  }

  /** A thread of priority `p` left its queue. */
  function FocusExit(f: Focus, busy: Busy, p: int): Focus
    requires IsQueue(p)
  {
    var g := f.(eval := true);
    if IsBusy(busy, f.queue) then g
    else
      var h := Popped(g);
      if |h.stack| > 0 then
        var top := h.stack[|h.stack| - 1];
        h.(queue := top, priority := if IsBusy(busy, top) then top else 0)
      else
        var q := SlowSearch(busy, p);
        Focus([q], q, q, true)
  }

  lemma Raised(f: Focus, busy: Busy, p: int)
    requires p > f.priority
    ensures FocusNew(f, busy, p) == Focus(f.stack + [p], p, p, true)
  {
  }

  lemma StillBusy(f: Focus, busy: Busy, p: int)
    requires IsQueue(p) && IsBusy(busy, f.queue)
    ensures FocusExit(f, busy, p) == f.(eval := true)
  {
  }

  /** The current queue ran empty: the one below it on the stack is taken. */
  lemma TakesBelow(f: Focus, busy: Busy, p: int)
    requires IsQueue(p) && !IsBusy(busy, f.queue) && |f.stack| > 1
    ensures var n := |f.stack|;
            var below := f.stack[n - 2];
            FocusExit(f, busy, p) == Focus(f.stack[..n - 1], below, if IsBusy(busy, below) then below else 0, true)
  {
  }

  datatype Change = Changed(focus: Focus) | Panicked(focus: Focus)

  /** The stack after a thread moved from priority `original` to `p`. */
  function Restacked(f: Focus, busy: Busy, p: int, original: int): Focus {
    if p > original then Focus(f.stack + [p], p, p, true) else f.(stack := WithLower(f.stack, busy, p, 0))
  }

  /** The queue on top of the stack becomes current; it must have threads. */
  function TopTaken(f: Focus, busy: Busy, p: int): Change
    requires IsQueue(p)
  {
    if |f.stack| > 0 then
      var top := f.stack[|f.stack| - 1];
      if IsBusy(busy, top) then Changed(Focus(f.stack, top, top, true)) else Panicked(f.(queue := top))
    else
      var q := SlowSearch(busy, p);
      Changed(Focus([q], q, q, f.eval))
  }

  /** A thread moved from priority `original` to `p`. */
  function FocusChange(f: Focus, busy: Busy, p: int, original: int): Change
    requires IsQueue(p)
  {
    if IsBusy(busy, f.queue) then Changed(Restacked(f, busy, p, original))
    else TopTaken(Restacked(Popped(f), busy, p, original), busy, p)
  }

  // ---------------------------------------------------------------- the focus stays on the 256 queues

  lemma {:induction false} WithLowerOk(stack: seq<int>, busy: Busy, p: int, i: nat)
    requires IsQueue(p) && AllQueues(stack)
    ensures AllQueues(WithLower(stack, busy, p, i))
    decreases |stack| - i
  {
    if i < |stack| && !(IsBusy(busy, stack[i]) && stack[i] <= p) {
      WithLowerOk(stack, busy, p, i + 1);
    }
  }

  lemma PoppedOk(f: Focus)
    requires FocusOk(f)
    ensures FocusOk(Popped(f))
  {
    if |f.stack| > 0 {
      assert f.stack[|f.stack| - 1] in f.stack;
    }
  }

  lemma FocusNewOk(f: Focus, busy: Busy, p: int)
    requires FocusOk(f) && IsQueue(p)
    ensures FocusOk(FocusNew(f, busy, p))
  {
    WithLowerOk(f.stack, busy, p, 0);
  }

  lemma FocusExitOk(f: Focus, busy: Busy, p: int)
    requires FocusOk(f) && IsQueue(p)
    ensures FocusOk(FocusExit(f, busy, p))
  {
    var h := Popped(f.(eval := true));
    PoppedOk(f.(eval := true));
    assert |h.stack| > 0 ==> h.stack[|h.stack| - 1] in h.stack;
  }

  lemma FocusChangeOk(f: Focus, busy: Busy, p: int, original: int)
    requires FocusOk(f) && IsQueue(p)
    ensures FocusOk(FocusChange(f, busy, p, original).focus)
  {
    PoppedOk(f);
    var g := if !IsBusy(busy, f.queue) then Popped(f) else f;
    RestackedOk(g, busy, p, original);
    var h := Restacked(g, busy, p, original);
    assert |h.stack| > 0 ==> h.stack[|h.stack| - 1] in h.stack;
  }

  lemma RestackedOk(f: Focus, busy: Busy, p: int, original: int)
    requires FocusOk(f) && IsQueue(p)
    ensures FocusOk(Restacked(f, busy, p, original))
  {
    WithLowerOk(f.stack, busy, p, 0);
  }

  // ---------------------------------------------------------------- the panic of a priority change

  /** Raising a priority never panics: the queue it goes to has the thread. */
  lemma RaiseIsSafe(f: Focus, busy: Busy, p: int, original: int)
    requires IsQueue(p) && busy[p] && p > original
    ensures FocusChange(f, busy, p, original).Changed?
  {
  }

  lemma {:induction false} WithLowerTop(stack: seq<int>, busy: Busy, p: int, i: nat)
    requires IsQueue(p) && busy[p] && |stack| > 0
    ensures var r := WithLower(stack, busy, p, i);
            && |r| > 0
            && (IsBusy(busy, stack[|stack| - 1]) ==> IsBusy(busy, r[|r| - 1]))
            && (!IsBusy(busy, stack[|stack| - 1]) && |stack| > 1 ==> !IsBusy(busy, r[|r| - 1]))
    decreases |stack| - i
  {
    if i < |stack| && !(IsBusy(busy, stack[i]) && stack[i] <= p) {
      WithLowerTop(stack, busy, p, i + 1);
    }
  }

  /**
    Lowering a priority panics exactly when the current queue ran empty and the queue to come back to, the one below
    it on the stack, is empty as well.  (With that queue alone on the stack, a lower busy one cannot be found.)
   */
  lemma LowerPanics(f: Focus, busy: Busy, p: int, original: int)
    requires IsQueue(p) && busy[p] && p <= original
    ensures var g := Popped(f);
            FocusChange(f, busy, p, original).Panicked? <==>
            !IsBusy(busy, f.queue) && |g.stack| > 0 && !IsBusy(busy, g.stack[|g.stack| - 1])
  {
    var g := Popped(f);
    if |g.stack| > 0 {
      WithLowerTop(g.stack, busy, p, 0);
      if |g.stack| == 1 && !IsBusy(busy, g.stack[0]) {
        assert WithLower(g.stack, busy, p, 1) == g.stack;
      }
    }
  }

  // ---------------------------------------------------------------- what every change of focus keeps

  /** The current queue is the one on top of the stack, and the current priority is its number, or 0. */
  ghost predicate OnTop(f: Focus) {
    |f.stack| > 0 && f.queue == f.stack[|f.stack| - 1] && (f.priority == f.queue || f.priority == 0)
  }

  /** Every queue with threads is on the stack, at the bottom of it queue 0, which has some. */
  ghost predicate Covers(f: Focus, busy: Busy) {
    && busy[0] && |f.stack| > 0 && f.stack[0] == 0
    && forall p :: 0 <= p < PRIORITIES && busy[p] ==> p in f.stack
  }

  ghost predicate InOrder(f: Focus, busy: Busy) { FocusOk(f) && OnTop(f) && Covers(f, busy) }

  /** The current priority is that of the threads of the current queue, and 0 if it has none. */
  ghost predicate Prioritised(f: Focus, busy: Busy) {
    f.priority == if IsBusy(busy, f.queue) then f.queue else 0
  }

  /**
    The search for the place of queue `p` ends at the first busy queue on the stack that is not above it: nothing
    happens if that is the queue itself, and otherwise `p` goes right below it, or right above the bottom.
   */
  lemma LowerAt(stack: seq<int>, busy: Busy, p: int, i: nat)
    requires i < |stack| && IsBusy(busy, stack[i]) && stack[i] <= p
    requires forall j :: 0 <= j < i ==> !(IsBusy(busy, stack[j]) && stack[j] <= p)
    ensures var k := if i == 0 then 1 else i;
            WithLower(stack, busy, p, 0) == if stack[i] == p then stack else stack[..k] + [p] + stack[k..]
  {
    LowerFrom(stack, busy, p, 0, i);
  }

  lemma {:induction false} LowerFrom(stack: seq<int>, busy: Busy, p: int, j: nat, i: nat)
    requires j <= i < |stack| && IsBusy(busy, stack[i]) && stack[i] <= p
    requires forall k :: 0 <= k < i ==> !(IsBusy(busy, stack[k]) && stack[k] <= p)
    ensures WithLower(stack, busy, p, j) == WithLower(stack, busy, p, i)
    decreases i - j
  {
    if j < i {
      LowerFrom(stack, busy, p, j + 1, i);
    }
  }

  /**
    With threads in queue 0 and that one at the bottom, a lower queue always goes right above it, whether it is on the
    stack already or not: the stack grows with every thread of lower priority that becomes ready.
   */
  lemma LowerGrows(f: Focus, busy: Busy, p: int)
    requires Covers(f, busy) && 0 < p < f.priority
    ensures FocusNew(f, busy, p) == f.(stack := [0, p] + f.stack[1..])
    ensures |FocusNew(f, busy, p).stack| == |f.stack| + 1
  {
    LowerAt(f.stack, busy, p, 0);
    assert f.stack[..1] == [0];
  }

  lemma BottomLower(stack: seq<int>, busy: Busy, p: int)
    requires |stack| > 0 && stack[0] == 0 && busy[0] && IsQueue(p)
    ensures WithLower(stack, busy, p, 0) == if p == 0 then stack else [0, p] + stack[1..]
  {
    LowerAt(stack, busy, p, 0);
    assert stack[..1] == [0];
  }

  /** A thread of priority `p` became ready. */
  lemma NewInOrder(f: Focus, was: Busy, busy: Busy, p: int)
    requires InOrder(f, was) && IsQueue(p) && busy == was[p := true]
    ensures InOrder(FocusNew(f, busy, p), busy)
    ensures Prioritised(f, was) ==> Prioritised(FocusNew(f, busy, p), busy)
    ensures p > f.priority ==> FocusNew(f, busy, p).queue == p && FocusNew(f, busy, p).eval
    ensures p <= f.priority ==> FocusNew(f, busy, p).queue == f.queue && FocusNew(f, busy, p).eval == f.eval
  {
    var g := FocusNew(f, busy, p);
    FocusNewOk(f, busy, p);
    BottomLower(f.stack, busy, p);
    hide AllQueues;
    if p < f.priority && p != 0 {
      assert f.stack == [0] + f.stack[1..];
      assert |f.stack| > 1;
      assert g.stack[|g.stack| - 1] == f.stack[|f.stack| - 1];
    }
    forall q | 0 <= q < PRIORITIES && busy[q]
      ensures q in g.stack
    {
      if p == f.priority && q == p {
        assert q == f.stack[0] || q == f.stack[|f.stack| - 1];
      }
    }
  }

  /**
    A thread of priority `p` left.  If the current queue has no threads then, the stack loses exactly its top, and the
    queue below becomes current.
   */
  lemma ExitInOrder(f: Focus, was: Busy, busy: Busy, p: int)
    requires InOrder(f, was) && IsQueue(p) && (busy == was || busy == was[p := false]) && busy[0]
    ensures var g := FocusExit(f, busy, p);
            && InOrder(g, busy) && g.eval && (Prioritised(f, was) ==> Prioritised(g, busy))
            && (IsBusy(busy, f.queue) ==> g.stack == f.stack)
            && (!IsBusy(busy, f.queue) ==>
                  |f.stack| > 1 && g.stack == f.stack[..|f.stack| - 1] && g.queue == f.stack[|f.stack| - 2])
  {
    var g := FocusExit(f, busy, p);
    FocusExitOk(f, busy, p);
    hide AllQueues;
    if !IsBusy(busy, f.queue) {
      assert f.queue != 0 && |f.stack| > 1;
      forall q | 0 <= q < PRIORITIES && busy[q]
        ensures q in g.stack
      {
        assert f.stack == g.stack + [f.queue];
      }
    }
  }

  /**
    A thread moved from priority `original`, where it was, to `p`.  Raised, its queue becomes current, whatever was;
    lowered, the current queue stays if it has threads, and otherwise the queue below it on the stack becomes current.
   */
  lemma ChangeInOrder(f: Focus, was: Busy, busy: Busy, p: int, original: int)
    requires InOrder(f, was) && IsQueue(p) && IsQueue(original) && was[original] && busy[0]
    requires busy == was[p := true] || busy == was[original := false][p := true]
    ensures var c, n := FocusChange(f, busy, p, original), |f.stack|;
            c.Changed? ==>
              && InOrder(c.focus, busy)
              && (p > original ==> c.focus.queue == p == c.focus.priority && c.focus.eval)
              && (p <= original && IsBusy(busy, f.queue) ==>
                    c.focus.queue == f.queue && c.focus.priority == f.priority && c.focus.eval == f.eval)
              && (p <= original && !IsBusy(busy, f.queue) ==>
                    && n > 1 && c.focus.priority == c.focus.queue && c.focus.eval
                    && c.focus.queue == if n == 2 && p > 0 then p else f.stack[n - 2])
  {
    FocusChangeOk(f, busy, p, original);
    hide FocusOk;
    hide Covers;
    hide Restacked;
    hide WithLower;
    if IsBusy(busy, f.queue) {
      RestackedInOrder(f, was, busy, p, original);
    } else {
      Drained(f, was, busy);
      TakenInOrder(f, was, busy, p, original);
    }
  }

  /** The current queue has threads. */
  lemma RestackedInOrder(f: Focus, was: Busy, busy: Busy, p: int, original: int)
    requires OnTop(f) && Covers(f, was) && IsQueue(p) && IsQueue(original) && was[original] && busy[0]
    requires busy == was[p := true] || busy == was[original := false][p := true]
    ensures var g := Restacked(f, busy, p, original);
            && OnTop(g) && Covers(g, busy)
            && (if p > original then g.queue == p == g.priority && g.eval
                else g.queue == f.queue && g.priority == f.priority && g.eval == f.eval)
  {
    hide WithLower;
    RestTop(f.stack, busy, p, p > original);
    assert original in f.stack;
  }

  /** The current queue has no threads: so it is not queue 0, and another one is below it. */
  lemma Drained(f: Focus, was: Busy, busy: Busy)
    requires OnTop(f) && Covers(f, was) && busy[0] && !IsBusy(busy, f.queue) && IsQueue(f.queue)
    ensures |f.stack| > 1 && Popped(f).stack == f.stack[..|f.stack| - 1] && f.stack == Popped(f).stack + [f.queue]
    ensures Popped(f).stack[0] == 0
  {
  }

  lemma TakenInOrder(f: Focus, was: Busy, busy: Busy, p: int, original: int)
    requires OnTop(f) && Covers(f, was) && IsQueue(p) && IsQueue(original) && was[original] && busy[0]
    requires busy == was[p := true] || busy == was[original := false][p := true]
    requires !IsBusy(busy, f.queue) && |f.stack| > 1 && f.stack == Popped(f).stack + [f.queue]
    requires IsQueue(f.queue) && Popped(f).stack[0] == 0
    ensures var c, n := TopTaken(Restacked(Popped(f), busy, p, original), busy, p), |f.stack|;
            c.Changed? ==>
              && OnTop(c.focus) && Covers(c.focus, busy) && c.focus.priority == c.focus.queue && c.focus.eval
              && c.focus.queue == if p > original || (n == 2 && p > 0) then p else f.stack[n - 2]
  {
    hide SlowSearch;
    hide WithLower;
    hide Covers;
    ghost var rest := Popped(f).stack;
    RestTop(rest, busy, p, p > original);
    Remain(f, was, busy, p, original, rest, Restacked(Popped(f), busy, p, original).stack);
  }

  /** The rest of the stack with queue `p` on top or further down. */
  lemma RestTop(rest: seq<int>, busy: Busy, p: int, raised: bool)
    requires |rest| > 0 && rest[0] == 0 && busy[0] && IsQueue(p)
    ensures var st := if raised then rest + [p] else WithLower(rest, busy, p, 0);
            && |st| > 0 && st[0] == 0 && p in st && (forall q :: q in rest ==> q in st)
            && st[|st| - 1] == if raised || (|rest| == 1 && p > 0) then p else rest[|rest| - 1]
  {
    BottomLower(rest, busy, p);
    assert rest == [0] + rest[1..];
    if !raised && p > 0 {
      assert ([0, p] + rest[1..])[1] == p;
    } else if !raised {
      assert rest[0] == p;
    }
  }

  /** Every queue that still has threads is on the new stack. */
  lemma Remain(f: Focus, was: Busy, busy: Busy, p: int, original: int, rest: seq<int>, st: seq<int>)
    requires Covers(f, was) && IsQueue(p) && IsQueue(original) && busy[0] && !IsBusy(busy, f.queue) && IsQueue(f.queue)
    requires busy == was[p := true] || busy == was[original := false][p := true]
    requires f.stack == rest + [f.queue] && p in st && (forall q :: q in rest ==> q in st) && |st| > 0 && st[0] == 0
    ensures forall g: Focus :: g.stack == st ==> Covers(g, busy)
  {
    forall q | 0 <= q < PRIORITIES && busy[q]
      ensures q in st
    {
      assert q == p || was[q];
      assert q != f.queue;
    }
  }
}
