/** The chunks of the segment, from the state chunk up to top, and their boundary tags. */
module HeapArena {
  import opened HeapWords
  import opened HeapTrieMem
  import opened HeapBins

  /** `prev` is the address of the chunk before, 0 for the state chunk, which comes first. */
  datatype Chunk = Chunk(size: int, inuse: bool, prev: int)

  type Arena = map<int, Chunk>

  function End(C: Arena, p: int): int
    requires p in C
  {
    p + C[p].size
  }

  /** A chunk's size and place, and its neighbours. */
  ghost predicate ShapeOk(C: Arena, p: int, msp: int, top: int)
    requires p in C
  {
    && p % 8 == 0 && C[p].size % 8 == 0 && MIN_CHUNK_SIZE <= C[p].size
    && msp <= p && End(C, p) <= top
    && (End(C, p) in C || End(C, p) == top)
    && (End(C, p) in C ==> C[End(C, p)].prev == p)
    && (if p == msp then C[p].prev == 0 else C[p].prev in C && End(C, C[p].prev) == p)
  }

  /** A free chunk lies between chunks in use, and not next to top. */
  ghost predicate FreeApart(C: Arena, p: int)
    requires p in C
  {
    !C[p].inuse ==>
      && C[p].prev in C && C[C[p].prev].inuse
      && End(C, p) in C && C[End(C, p)].inuse
  }

  ghost predicate ChunkOk(C: Arena, p: int, msp: int, top: int)
    requires p in C
  {
    ShapeOk(C, p, msp, top) && FreeApart(C, p)
  }

  ghost predicate NoOverlap(C: Arena, p: int, q: int)
    requires p in C && q in C
  {
    p < q ==> End(C, p) <= q
  }

  /** The chunks tile the segment from the state chunk up to top; `last` is the one before top. */
  ghost predicate ArenaOk(C: Arena, msp: int, top: int, last: int) {
    && msp in C && C[msp] == Chunk(STATE_SIZE, true, 0) && 0 < msp
    && last in C && End(C, last) == top && C[last].inuse
    && (forall p {:trigger ChunkOk(C, p, msp, top)} :: p in C ==> ChunkOk(C, p, msp, top))
    && (forall p, q {:trigger NoOverlap(C, p, q)} :: p in C && q in C ==> NoOverlap(C, p, q))
  }

  ghost predicate PInuse(C: Arena, p: int)
    requires p in C
  {
    C[p].prev in C ==> C[C[p].prev].inuse
  }

  /** The head word of a chunk: its size and the two in-use bits. */
  ghost function HeadWord(C: Arena, p: int): int
    requires p in C
  {
    C[p].size + (if C[p].inuse then 2 else 0) + (if PInuse(C, p) then 1 else 0)
  }

  ghost predicate TagOk(m: Mem, C: Arena, p: int)
    requires p in C
  {
    && Rd(m, p + 4) == HeadWord(C, p)
    && (!C[p].inuse ==> Rd(m, End(C, p)) == C[p].size)
  }

  ghost predicate Tags(m: Mem, C: Arena) {
    forall p {:trigger TagOk(m, C, p)} :: p in C ==> TagOk(m, C, p)
  }

  /** The top chunk, and the fake chunk after it that holds the overhead space. */
  ghost predicate TopOk(m: Mem, top: int, topsize: int, hi: int) {
    && 0 < topsize && topsize % 4 == 0 && top + topsize + TOP_FOOT_SIZE == hi
    && Rd(m, top + 4) == topsize + 1
    && Rd(m, top + topsize + 4) == TOP_FOOT_SIZE
  }

  // ---------------------------------------------------------------- arenas

  /** Replaces the chunks of [lo, e) by one. */
  ghost function Fuse(C: Arena, lo: int, e: int, inuse: bool): Arena
    requires lo in C
  {
    map q | q in C && (q <= lo || e <= q) ::
      if q == lo then Chunk(e - lo, inuse, C[lo].prev)
      else if q == e then C[q].(prev := lo)
      else C[q]
  }

  /** Cuts the chunk at `p` in two, the first of size `n`. */
  ghost function Cut(C: Arena, p: int, n: int, inuse1: bool, inuse2: bool): Arena
    requires p in C
  {
    var C' := C[p := Chunk(n, inuse1, C[p].prev)][p + n := Chunk(C[p].size - n, inuse2, p)];
    if End(C, p) in C then C'[End(C, p) := C[End(C, p)].(prev := p + n)] else C'
  }

  /** Gives the chunks from `lo` on to top. */
  ghost function Absorb(C: Arena, lo: int): Arena {
    map q | q in C && q < lo :: C[q]
  }

  /** Carves a chunk of size `n` in use off the front of top. */
  ghost function Carve(C: Arena, top: int, n: int, last: int): Arena {
    C[top := Chunk(n, true, last)]
  }

  /** A chunk boundary. */
  ghost predicate Edge(C: Arena, top: int, e: int) {
    e in C || e == top
  }

  lemma ChunkFacts(C: Arena, msp: int, top: int, last: int, p: int)
    requires ArenaOk(C, msp, top, last) && p in C
    ensures ShapeOk(C, p, msp, top) && FreeApart(C, p)
  {
    assert ChunkOk(C, p, msp, top);
  }

  /** No chunk straddles a chunk boundary. */
  lemma EdgeApart(C: Arena, msp: int, top: int, last: int, e: int, q: int)
    requires ArenaOk(C, msp, top, last) && Edge(C, top, e) && q in C && q < e
    ensures End(C, q) <= e
  {
    assert ChunkOk(C, q, msp, top);
    if e in C {
      assert NoOverlap(C, q, e);
    }
  }

  /** What a chunk in [lo, e) may become: a free chunk only between chunks in use. */
  ghost predicate Fusable(C: Arena, msp: int, top: int, lo: int, e: int, inuse: bool) {
    && lo in C && lo != msp && Edge(C, top, e) && lo < e
    && (!inuse ==> C[lo].prev in C && C[C[lo].prev].inuse && e in C && C[e].inuse)
  }

  lemma EightDiff(a: int, b: int)
    requires a % 8 == 0 && b % 8 == 0
    ensures (a - b) % 8 == 0
  {
  }

  /** The fused chunk. */
  lemma FuseSelf(C: Arena, msp: int, top: int, last: int, lo: int, e: int, inuse: bool)
    requires ArenaOk(C, msp, top, last) && Fusable(C, msp, top, lo, e, inuse)
    ensures ChunkOk(Fuse(C, lo, e, inuse), lo, msp, top)
  {
    hide ArenaOk;
    ArenaEnds(C, msp, top, last);
    ChunkFacts(C, msp, top, last, lo);
    ChunkFacts(C, msp, top, last, C[lo].prev);
    EdgeApart(C, msp, top, last, e, lo);
    var y := if e in C then e else last;
    ChunkFacts(C, msp, top, last, y);
    EightPlus(y, C[y].size);
    EightDiff(e, lo);
  }

  /** A chunk before the fused one. */
  lemma FuseLower(C: Arena, msp: int, top: int, last: int, lo: int, e: int, inuse: bool, q: int)
    requires ArenaOk(C, msp, top, last) && Fusable(C, msp, top, lo, e, inuse) && q in C && q < lo
    ensures ChunkOk(Fuse(C, lo, e, inuse), q, msp, top)
  {
    hide ArenaOk;
    ArenaEnds(C, msp, top, last);
    ChunkFacts(C, msp, top, last, lo);
    ChunkFacts(C, msp, top, last, q);
    ChunkFacts(C, msp, top, last, C[lo].prev);
    EdgeApart(C, msp, top, last, lo, q);
    if q != msp {
      ChunkFacts(C, msp, top, last, C[q].prev);
    }
  }

  /** A chunk after the fused one. */
  lemma FuseUpper(C: Arena, msp: int, top: int, last: int, lo: int, e: int, inuse: bool, q: int)
    requires ArenaOk(C, msp, top, last) && Fusable(C, msp, top, lo, e, inuse) && q in C && e <= q
    ensures ChunkOk(Fuse(C, lo, e, inuse), q, msp, top)
  {
    hide ArenaOk;
    ChunkFacts(C, msp, top, last, lo);
    ChunkFacts(C, msp, top, last, q);
    var u := C[q].prev;
    ChunkFacts(C, msp, top, last, u);
    if u < e {
      EdgeApart(C, msp, top, last, e, u);
    }
  }

  lemma FuseChunk(C: Arena, msp: int, top: int, last: int, lo: int, e: int, inuse: bool, q: int)
    requires ArenaOk(C, msp, top, last) && Fusable(C, msp, top, lo, e, inuse) && q in Fuse(C, lo, e, inuse)
    ensures ChunkOk(Fuse(C, lo, e, inuse), q, msp, top)
  {
    if q < lo {
      FuseLower(C, msp, top, last, lo, e, inuse, q);
    } else if q == lo {
      FuseSelf(C, msp, top, last, lo, e, inuse);
    } else {
      FuseUpper(C, msp, top, last, lo, e, inuse, q);
    }
  }

  lemma FuseOk(C: Arena, msp: int, top: int, last: int, lo: int, e: int, inuse: bool)
    requires ArenaOk(C, msp, top, last) && Fusable(C, msp, top, lo, e, inuse)
    ensures ArenaOk(Fuse(C, lo, e, inuse), msp, top, if e == top then lo else last)
  {
    hide ChunkOk;
    FusableFacts(C, msp, top, last, lo, e, inuse);
    var C' := Fuse(C, lo, e, inuse);
    forall p | p in C'
      ensures ChunkOk(C', p, msp, top)
    {
      FuseChunk(C, msp, top, last, lo, e, inuse, p);
    }
    forall p, q | p in C' && q in C'
      ensures NoOverlap(C', p, q)
    {
      assert NoOverlap(C, p, q);
    }
  }

  lemma FusableFacts(C: Arena, msp: int, top: int, last: int, lo: int, e: int, inuse: bool)
    requires ArenaOk(C, msp, top, last) && Fusable(C, msp, top, lo, e, inuse)
    ensures lo in C && msp < lo < e && (e == top ==> inuse) && (e != top ==> e in C && e <= last)
    ensures msp in Fuse(C, lo, e, inuse) && (e != top ==> last in Fuse(C, lo, e, inuse))
    ensures End(C, lo) <= e
  {
    ChunkFacts(C, msp, top, last, lo);
    EdgeApart(C, msp, top, last, e, lo);
    TopNotChunk(C, msp, top, last);
    if e != top {
      ChunkFacts(C, msp, top, last, e);
      assert NoOverlap(C, last, e);
    }
  }

  // ---------------------------------------------------------------- cutting

  ghost predicate Cuttable(C: Arena, msp: int, p: int, n: int, inuse1: bool, inuse2: bool) {
    && p in C && p != msp && n % 8 == 0 && MIN_CHUNK_SIZE <= n && MIN_CHUNK_SIZE <= C[p].size - n
    && (inuse1 || inuse2)
    && (!inuse1 ==> C[p].prev in C && C[C[p].prev].inuse)
    && (!inuse2 ==> End(C, p) in C && C[End(C, p)].inuse)
  }

  lemma CutHalves(C: Arena, msp: int, top: int, last: int, p: int, n: int, inuse1: bool, inuse2: bool)
    requires ArenaOk(C, msp, top, last) && Cuttable(C, msp, p, n, inuse1, inuse2)
    ensures var C' := Cut(C, p, n, inuse1, inuse2); ChunkOk(C', p, msp, top) && ChunkOk(C', p + n, msp, top)
  {
    hide ArenaOk;
    ChunkFacts(C, msp, top, last, p);
    ChunkFacts(C, msp, top, last, C[p].prev);
    CutFresh(C, msp, top, last, p, n);
    EightPlus(p, n);
    EightDiff(C[p].size, n);
  }

  lemma CutChunk(C: Arena, msp: int, top: int, last: int, p: int, n: int, inuse1: bool, inuse2: bool, q: int)
    requires ArenaOk(C, msp, top, last) && Cuttable(C, msp, p, n, inuse1, inuse2) && q in Cut(C, p, n, inuse1, inuse2)
    ensures ChunkOk(Cut(C, p, n, inuse1, inuse2), q, msp, top)
  {
    hide ArenaOk;
    if q == p || q == p + n {
      CutHalves(C, msp, top, last, p, n, inuse1, inuse2);
    } else {
      ArenaEnds(C, msp, top, last);
      ChunkFacts(C, msp, top, last, p);
      CutFresh(C, msp, top, last, p, n);
      ChunkFacts(C, msp, top, last, q);
      ChunksApart(C, msp, top, last, p, q);
    }
  }

  lemma ChunksApart(C: Arena, msp: int, top: int, last: int, p: int, q: int)
    requires ArenaOk(C, msp, top, last) && p in C && q in C
    ensures NoOverlap(C, p, q) && NoOverlap(C, q, p)
  {
  }

  lemma ArenaEnds(C: Arena, msp: int, top: int, last: int)
    requires ArenaOk(C, msp, top, last)
    ensures msp in C && C[msp] == Chunk(STATE_SIZE, true, 0) && 0 < msp && last in C && End(C, last) == top
            && C[last].inuse
  {
  }

  lemma CutFresh(C: Arena, msp: int, top: int, last: int, p: int, n: int)
    requires ArenaOk(C, msp, top, last) && p in C && 0 < n < C[p].size
    ensures p + n !in C && forall q :: q in C ==> End(C, q) != p + n
  {
    assert p + n in C ==> NoOverlap(C, p, p + n);
    forall q | q in C
      ensures End(C, q) != p + n
    {
      assert ChunkOk(C, q, msp, top);
      assert NoOverlap(C, p, q) && NoOverlap(C, q, p);
    }
  }

  lemma CutOk(C: Arena, msp: int, top: int, last: int, p: int, n: int, inuse1: bool, inuse2: bool)
    requires ArenaOk(C, msp, top, last) && Cuttable(C, msp, p, n, inuse1, inuse2)
    ensures p + n !in C
    ensures ArenaOk(Cut(C, p, n, inuse1, inuse2), msp, top, if End(C, p) == top then p + n else last)
  {
    hide ChunkOk;
    var C' := Cut(C, p, n, inuse1, inuse2);
    CutFresh(C, msp, top, last, p, n);
    CutLast(C, msp, top, last, p);
    forall q | q in C'
      ensures ChunkOk(C', q, msp, top)
    {
      CutChunk(C, msp, top, last, p, n, inuse1, inuse2, q);
    }
    forall q, r | q in C' && r in C'
      ensures NoOverlap(C', q, r)
    {
      var oq := if q == p + n then p else q;
      var or := if r == p + n then p else r;
      assert NoOverlap(C, oq, or) && NoOverlap(C, or, oq);
    }
  }

  lemma TopNotChunk(C: Arena, msp: int, top: int, last: int)
    requires ArenaOk(C, msp, top, last)
    ensures top !in C
  {
    assert top in C ==> ChunkOk(C, top, msp, top);
  }

  lemma CutLast(C: Arena, msp: int, top: int, last: int, p: int)
    requires ArenaOk(C, msp, top, last) && p in C
    ensures End(C, p) == top <==> p == last
    ensures End(C, p) != top ==> End(C, p) in C
    ensures End(C, p) in C ==> End(C, p) != msp
    ensures top !in C
  {
    assert ChunkOk(C, p, msp, top);
    assert NoOverlap(C, p, last) && NoOverlap(C, last, p);
    assert ChunkOk(C, last, msp, top);
    TopNotChunk(C, msp, top, last);
  }

  // ---------------------------------------------------------------- top

  lemma AbsorbOk(C: Arena, msp: int, top: int, last: int, lo: int)
    requires ArenaOk(C, msp, top, last) && lo in C && lo != msp && C[lo].prev in C && C[C[lo].prev].inuse
    ensures ArenaOk(Absorb(C, lo), msp, lo, C[lo].prev)
  {
    var C' := Absorb(C, lo);
    ChunkFacts(C, msp, top, last, lo);
    ChunkFacts(C, msp, top, last, C[lo].prev);
    forall q | q in C'
      ensures ChunkOk(C', q, msp, lo)
    {
      ChunkFacts(C, msp, top, last, q);
      EdgeApart(C, msp, top, last, lo, q);
      if q != msp {
        ChunkFacts(C, msp, top, last, C[q].prev);
      }
    }
    forall p, q | p in C' && q in C'
      ensures NoOverlap(C', p, q)
    {
      assert NoOverlap(C, p, q);
    }
  }

  lemma CarveOk(C: Arena, msp: int, top: int, last: int, n: int)
    requires ArenaOk(C, msp, top, last) && n % 8 == 0 && MIN_CHUNK_SIZE <= n
    ensures top !in C && ArenaOk(Carve(C, top, n, last), msp, top + n, top)
  {
    var C' := Carve(C, top, n, last);
    CutLast(C, msp, top, last, last);
    ChunkFacts(C, msp, top, last, last);
    assert top + n in C ==> ChunkOk(C, top + n, msp, top);
    forall q | q in C'
      ensures ChunkOk(C', q, msp, top + n)
    {
      if q != top {
        ChunkFacts(C, msp, top, last, q);
        CutLast(C, msp, top, last, q);
      }
    }
    forall p, q | p in C' && q in C'
      ensures NoOverlap(C', p, q)
    {
      if p != top {
        ChunkFacts(C, msp, top, last, p);
      }
      if q != top {
        ChunkFacts(C, msp, top, last, q);
      }
      if p != top && q != top {
        assert NoOverlap(C, p, q);
      }
    }
  }
}
