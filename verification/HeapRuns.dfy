/** Runs of a program on a space: its steps, its pointers, and the blocks they do not concern. */
module HeapRuns {
  import opened Words
  import opened HeapWords
  import opened HeapTrieMem
  import opened HeapState
  import opened HeapAlloc
  import opened HeapResize

  datatype Op =
    | DoMalloc(bytes: Word)
    | DoFree(payload: Word)
    | DoRealloc(payload: Word, bytes: Word)
    | DoMemalign(alignment: Word, bytes: Word)
    | DoStore(payload: Word, a: Word, v: Word)

  /** The step concerns the block at chunk `p`. */
  predicate Touches(op: Op, p: int) {
    match op
    case DoMalloc(_) => false
    case DoFree(payload) => payload == p + 8
    case DoRealloc(payload, _) => payload == p + 8
    case DoMemalign(_, _) => false
    case DoStore(payload, _, _) => payload == p + 8
  }

  /** The pointers a program holds are those of the live blocks. */
  ghost predicate Owns(owned: set<int>, live: map<int, int>) {
    forall x :: x in owned <==> x - 8 in live
  }

  /** A live block stays live, keeps its size, and holds what it held. */
  ghost predicate Stays(m: Mem, m': Mem, live: map<int, int>, live': map<int, int>, p: int) {
    p in live ==> p in live' && live'[p] == live[p] && Kept(m, m', p, live[p])
  }

  lemma TouchIs(op: Op, p: int)
    ensures Touches(op, p) <==>
            match op
            case DoMalloc(_) => false
            case DoFree(payload) => payload == p + 8
            case DoRealloc(payload, _) => payload == p + 8
            case DoMemalign(_, _) => false
            case DoStore(payload, _, _) => payload == p + 8
  {
  }

  lemma OwnsIs(owned: set<int>, live: map<int, int>, x: int)
    requires Owns(owned, live)
    ensures x in owned <==> x - 8 in live
  {
  }

  lemma StateSize()
    ensures STATE_SIZE == 480
  {
  }

  lemma NothingMoves(m: Mem, live: map<int, int>, p: int)
    ensures Stays(m, m, live, live, p)
  {
  }

  lemma StaysTrans(m: Mem, m1: Mem, m2: Mem, live: map<int, int>, live1: map<int, int>, live2: map<int, int>, p: int)
    requires Stays(m, m1, live, live1, p) && Stays(m1, m2, live1, live2, p)
    ensures Stays(m, m2, live, live2, p)
  {
    hide Rd;
  }

  lemma Granting(m: Mem, m': Mem, owned: set<int>, live: map<int, int>, live': map<int, int>, q: int, nb: int, p: int)
    requires Owns(owned, live) && Granted(live, live', q, nb) && AllKept(m, m', live)
    ensures Owns(owned + {q + 8}, live') && Stays(m, m', live, live', p)
  {
    hide Rd;
    assert p in live ==> Kept(m, m', p, live[p]);
  }

  lemma Aligning(m: Mem, m': Mem, owned: set<int>, live: map<int, int>, live': map<int, int>, q: int, nb: int, p: int)
    requires Owns(owned, live) && GrantedAligned(live, live', q, nb) && AllKept(m, m', live)
    ensures Owns(owned + {q + 8}, live') && Stays(m, m', live, live', p)
  {
    hide Rd;
    assert p in live ==> Kept(m, m', p, live[p]);
  }

  lemma Freeing(m: Mem, m': Mem, owned: set<int>, live: map<int, int>, payload: int, p: int)
    requires Owns(owned, live) && payload != p + 8 && AllKept(m, m', live - {payload - 8})
    ensures Owns(owned - {payload}, live - {payload - 8}) && Stays(m, m', live, live - {payload - 8}, p)
  {
    hide Rd;
    var live' := live - {payload - 8};
    assert p in live' ==> Kept(m, m', p, live'[p]);
  }

  lemma Moving(m: Mem, m': Mem, owned: set<int>, live: map<int, int>, live': map<int, int>, q: int, r: int, nb: int,
               p: int)
    requires Owns(owned, live) && Moved(live, live', q, r, nb) && AllKept(m, m', live - {q}) && p != q
    ensures Owns(owned - {q + 8} + {r + 8}, live') && Stays(m, m', live, live', p)
  {
    hide Rd;
    var rest := live - {q};
    assert p in rest ==> Kept(m, m', p, rest[p]);
  }

  lemma Storing(m: Mem, m': Mem, live: map<int, int>, q: int, p: int)
    requires AllKept(m, m', live - {q}) && p != q
    ensures Stays(m, m', live, live, p)
  {
    hide Rd;
    var rest := live - {q};
    assert p in rest ==> Kept(m, m', p, rest[p]);
  }

  /** Of the blocks `live`, those without a pointer in `freed` are left. */
  ghost predicate Remaining(live: map<int, int>, left: map<int, int>, freed: seq<Word>) {
    forall p :: p in left <==> p in live && p + 8 !in freed
  }

  lemma AllRemain(live: map<int, int>, order: seq<Word>)
    ensures Remaining(live, live, order[..0])
  {
  }

  /** The pointers are those of blocks, each once. */
  ghost predicate Pointers(live: map<int, int>, order: seq<Word>) {
    && (forall i :: 0 <= i < |order| ==> order[i] != 0 && order[i] as int - 8 in live)
    && (forall i, j :: 0 <= i < j < |order| ==> order[i] != order[j])
  }

  /** Every block has a pointer among them. */
  ghost predicate AllNamed(live: map<int, int>, order: seq<Word>) {
    forall p :: p in live ==> p + 8 in order
  }

  lemma NoneRemain(live: map<int, int>, left: map<int, int>, order: seq<Word>)
    requires Remaining(live, left, order) && AllNamed(live, order)
    ensures left == map[]
  {
    assert forall p :: p !in left;
    NoBlocks(left);
  }

  /** A pointer that comes once has not been freed before. */
  lemma NotYet(live: map<int, int>, left: map<int, int>, order: seq<Word>, i: nat)
    requires i < |order| && Remaining(live, left, order[..i]) && Pointers(live, order)
    ensures order[i] != 0 && order[i] as int - 8 in left
  {
    assert order[i] !in order[..i];
    var p := order[i] as int - 8;
    assert p + 8 == order[i];
  }

  lemma OneLess(live: map<int, int>, left: map<int, int>, left': map<int, int>, order: seq<Word>, i: nat)
    requires i < |order| && Remaining(live, left, order[..i]) && left' == left - {order[i] as int - 8}
    ensures Remaining(live, left', order[..i + 1])
  {
    assert order[..i + 1] == order[..i] + [order[i]];
    forall p
      ensures p in left' <==> p in live && p + 8 !in order[..i + 1]
    {
      assert p in left' <==> p in left && p + 8 != order[i];
    }
  }

  lemma NoBlocks(live: map<int, int>)
    requires forall p :: p !in live
    ensures live == map[]
  {
    assert forall p :: p !in live.Keys;
    assert live.Keys == {};
  }
}
