/** A fresh space, an emptied space, and what the statistics count. */
module HeapShape {
  import opened Words
  import opened HeapWords
  import opened HeapBinMaps
  import opened HeapTries
  import opened HeapTrieMem
  import opened HeapBins
  import opened HeapLargeBins
  import opened HeapWalk
  import opened HeapArena
  import opened HeapTags
  import opened HeapState

  // ---------------------------------------------------------------- a fresh space

  /** `align_as_chunk`. */
  function AlignAsChunk(base: int): (p: int)
    ensures base <= p < base + 8 && p % 8 == 0
  {
    if base % 8 == 0 then base else base + (8 - base % 8)
  }

  /** `memset` to zero of [lo, hi). */
  function Zeroed(m: Mem, lo: int, hi: int): Mem {
    map a | a in m :: if lo <= a < hi then 0 else m[a]
  }

  /** `init_top`. */
  function InitTop(m: Mem, p: int, psize: Word): Mem
    requires psize + 1 < W
  {
    m[p + 4 := psize + 1][p + psize + 4 := TOP_FOOT_SIZE]
  }

  /** `create_mspace_with_base` accepts a capacity, given the page size. */
  predicate CapacityAccepted(capacity: Word, page: Word) {
    STATE_SIZE + TOP_FOOT_SIZE < capacity < Sub(0, STATE_SIZE + TOP_FOOT_SIZE + page)
  }

  /** That is: it has more than the state and the foot, and leaves as much and a page of the address space. */
  lemma AcceptedWhen(capacity: Word, page: Word)
    requires page <= W - (STATE_SIZE + TOP_FOOT_SIZE)
    ensures CapacityAccepted(capacity, page) <==>
              STATE_SIZE + TOP_FOOT_SIZE < capacity && capacity + STATE_SIZE + TOP_FOOT_SIZE + page < W
  {
  }

  /** The size `init_user_mstate` gives to top. */
  function InitialTopSize(base: int, capacity: int): int {
    base + capacity - (AlignAsChunk(base) + STATE_SIZE) - TOP_FOOT_SIZE
  }

  // ---------------------------------------------------------------- which capacities make a sound top

  /** Memory as bytes, in which words may overlap. */
  type Bytes = map<int, Byte>

  function StoreWord(m: Bytes, a: int, v: Word): Bytes {
    var s := Encode(v);
    m[a := s[0]][a + 1 := s[1]][a + 2 := s[2]][a + 3 := s[3]]
  }

  ghost predicate HoldsWord(m: Bytes, a: int, v: Word) {
    a in m && a + 1 in m && a + 2 in m && a + 3 in m && [m[a], m[a + 1], m[a + 2], m[a + 3]] == Encode(v)
  }

  /** The size `init_user_mstate` gives to top, in 32-bit arithmetic. */
  function TopSize(base: Word, capacity: Word): Word {
    InitialTopSize(base, capacity) % W
  }

  /** `psize | PINUSE_BIT`. */
  function TopHead(psize: Word): Word {
    if psize % 2 == 0 then psize + 1 else psize
  }

  /** `init_top` on bytes: the head of top, then the head of the trailing chunk. */
  function InitTopBytes(m: Bytes, p: int, psize: Word): Bytes {
    StoreWord(StoreWord(m, p + 4, TopHead(psize)), (p + psize + 4) % W, TOP_FOOT_SIZE)
  }

  /** Top ends with its foot at the end of the segment, has words only, and its head was not overwritten. */
  ghost predicate SoundTop(m: Bytes, base: Word, capacity: Word) {
    var p, s := AlignAsChunk(base) + STATE_SIZE, TopSize(base, capacity);
    p + s + TOP_FOOT_SIZE == base + capacity && s % 4 == 0 && HoldsWord(InitTopBytes(m, p, s), p + 4, TopHead(s))
  }

  /**
    A capacity that passes the test makes a sound top exactly if the segment ends at a word and has room to align
    its base as well, which the test leaves out.
   */
  lemma FreshTop(m: Bytes, base: Word, capacity: Word, page: Word)
    requires CapacityAccepted(capacity, page) && base + capacity <= W
    ensures SoundTop(m, base, capacity)
            <==> (base + capacity) % 4 == 0 && STATE_SIZE + TOP_FOOT_SIZE + (AlignAsChunk(base) - base) < capacity
  {
    hide InitTopBytes;
    hide HoldsWord;
    hide TopHead;
    hide TopSize;
    var p, x := AlignAsChunk(base) + STATE_SIZE, InitialTopSize(base, capacity);
    TopMod(base, capacity);
    if x > 0 && x % 4 == 0 {
      HeadStays(m, p, x);
    }
    if x == 0 {
      HeadLost(m, p);
    }
  }

  /** The size of top is a number of words exactly if the segment ends at one. */
  lemma TopMod(base: Word, capacity: Word)
    requires base + capacity <= W && capacity > STATE_SIZE + TOP_FOOT_SIZE
    ensures var x := InitialTopSize(base, capacity);
            && -8 < x < W && (x >= 0 ==> TopSize(base, capacity) == x) && (x < 0 ==> TopSize(base, capacity) == x + W)
            && (x % 4 == 0 <==> (base + capacity) % 4 == 0)
  {
    var k := AlignAsChunk(base) / 8;
    var x := InitialTopSize(base, capacity);
    assert base + capacity == x + 4 * (2 * k + 130);
    FourShift(x, 2 * k + 130);
    Wrapped(x);
  }

  lemma FourShift(x: int, k: int)
    ensures (x + 4 * k) % 4 == x % 4
  {
  }

  lemma Wrapped(x: int)
    requires -8 < x < W
    ensures x % W == if x >= 0 then x else x + W
  {
  }

  lemma HeadStays(m: Bytes, p: int, x: Word)
    requires 0 < x && x % 4 == 0 && 0 <= p && p + x + 8 <= W
    ensures HoldsWord(InitTopBytes(m, p, x), p + 4, TopHead(x))
  {
    assert (p + x + 4) % W == p + x + 4;
  }

  lemma HeadLost(m: Bytes, p: int)
    requires 0 <= p && p + 8 <= W
    ensures !HoldsWord(InitTopBytes(m, p, 0), p + 4, TopHead(0))
  {
    assert (p + 4) % W == p + 4;
    var m' := InitTopBytes(m, p, 0);
    assert m'[p + 4] == 40 && Encode(1)[0] == 1;
  }

  /** A capacity that passes the test and leaves top empty. */
  lemma EmptyTop(m: Bytes)
    ensures CapacityAccepted(524, 4096) && TopSize(4, 524) == 0 && !SoundTop(m, 4, 524)
  {
    assert AlignAsChunk(4) == 8;
    FreshTop(m, 4, 524, 4096);
    hide SoundTop;
  }

  /** A capacity that passes the test and leaves half a word for top. */
  lemma HalfTop(m: Bytes)
    ensures CapacityAccepted(522, 4096) && TopSize(8, 522) == 2 && !SoundTop(m, 8, 522)
  {
    assert AlignAsChunk(8) == 8;
    FreshTop(m, 8, 522, 4096);
    hide SoundTop;
  }

  /** A capacity that passes the test and makes the size of top wrap around. */
  lemma WrappedTop(m: Bytes)
    ensures CapacityAccepted(523, 4096) && TopSize(1, 523) == W - 4 && !SoundTop(m, 1, 523)
  {
    assert AlignAsChunk(1) == 8;
    TopMod(1, 523);
    FreshTop(m, 1, 523, 4096);
    hide SoundTop;
  }

  const NO_BINS: Bins := Bins(map[], map[], map[], seq(32, i => 0))

  ghost function StateChunk(msp: int): Arena {
    map[msp := Chunk(STATE_SIZE, true, 0)]
  }

  lemma FreshBins(m: Mem, msp: int, hi: int)
    requires DomOk(m, msp, hi) && msp + STATE_SIZE <= hi
    requires forall i :: 0 <= i < 32 ==> Rd(m, Slot(msp, i)) == 0
    ensures BinsOk(m, 0, 0, NO_BINS, msp, hi)
  {
    forall i: nat | i < 32
      ensures !Marked(0, i)
    {
      ZeroMarked(i);
    }
  }

  lemma FreshArena(msp: int)
    requires msp % 8 == 0 && 0 < msp
    ensures ArenaOk(StateChunk(msp), msp, msp + STATE_SIZE, msp)
  {
    var C := StateChunk(msp);
    assert ChunkOk(C, msp, msp, msp + STATE_SIZE);
  }

  lemma FreshCore(m: Mem, msp: int, hi: int, topsize: int)
    requires DomOk(m, msp, hi) && msp + STATE_SIZE <= hi && topsize % 4 == 0
    requires forall i :: 0 <= i < 32 ==> Rd(m, Slot(msp, i)) == 0
    requires Rd(m, msp + 4) == STATE_SIZE + 3 && TopOk(m, msp + STATE_SIZE, topsize, hi)
    ensures Core(m, 0, 0, msp + STATE_SIZE, topsize, StateChunk(msp), msp, NO_BINS, msp, hi)
  {
    hide BinsOk;
    hide ArenaOk;
    hide DomOk;
    DomFacts(m, msp, hi);
    FreshBins(m, msp, hi);
    FreshArena(msp);
    var C := StateChunk(msp);
    assert TagOk(m, C, msp);
  }

  // ---------------------------------------------------------------- an emptied space

  /** With no block left, only the state chunk is left before top. */
  lemma OnlyState(C: Arena, msp: int, top: int, last: int)
    requires ArenaOk(C, msp, top, last) && Live(C, msp) == map[]
    ensures C == StateChunk(msp) && top == msp + STATE_SIZE && last == msp
  {
    assert last in C && C[last].inuse;
    assert last != msp ==> last in Live(C, msp);
    forall p | p in C
      ensures p == msp
    {
      ChunkFacts(C, msp, top, last, p);
      assert NoOverlap(C, msp, p);
    }
  }

  lemma EmptyMaps(m: Mem, smallmap: Word, treemap: Word, b: Bins, msp: int, hi: int)
    requires BinsOk(m, smallmap, treemap, b, msp, hi) && b.free == map[]
    ensures smallmap == 0 && treemap == 0
  {
    hide *;
    BinsParts(m, smallmap, treemap, b, msp, hi);
    TrieMemParts(m, b, msp);
    NoRings(b);
    if smallmap != 0 {
      var i := LeastMarked(smallmap);
      MapsAt(smallmap, treemap, b, i);
    }
    if treemap != 0 {
      var i := LeastMarked(treemap);
      MapsAt(smallmap, treemap, b, i);
      RootIn(b.trie, b.roots, i);
      NoTrie(b);
    }
  }

  lemma NoRings(b: Bins)
    requires Members(b) && b.free == map[]
    ensures b.rings == map[]
  {
    forall s | s in b.rings
      ensures false
    {
      RingFirst(b, s);
    }
  }

  lemma RingFirst(b: Bins, s: int)
    requires Members(b) && s in b.rings
    ensures |b.rings[s]| > 0 && b.rings[s][0] in b.free
  {
    assert RingOk(b, s);
    assert InRing(b, s, b.rings[s][0]);
  }

  lemma RootIn(t: Trie, roots: seq<int>, i: int)
    requires Wf(t, roots) && 0 <= i < 32 && roots[i] != 0
    ensures roots[i] in t
  {
    assert RootOk(t, roots[i], i);
  }

  lemma NoTrie(b: Bins)
    requires TrieKeys(b) && b.rings == map[]
    ensures b.trie == map[]
  {
    assert forall s :: s !in b.trie;
  }

  // ---------------------------------------------------------------- live blocks

  /** Live blocks are aligned, lie between the state chunk and top, and do not overlap. */
  lemma BlocksApart(C: Arena, msp: int, top: int, last: int)
    requires ArenaOk(C, msp, top, last)
    ensures var live := Live(C, msp);
            && (forall p :: p in live ==>
                 p % 8 == 0 && msp + STATE_SIZE <= p && p + live[p] <= top && 16 <= live[p] && live[p] % 8 == 0)
            && (forall p, q :: p in live && q in live && p < q ==> p + live[p] <= q)
  {
    var live := Live(C, msp);
    forall p | p in live
      ensures p % 8 == 0 && msp + STATE_SIZE <= p && p + live[p] <= top && 16 <= live[p] && live[p] % 8 == 0
    {
      ChunkFacts(C, msp, top, last, p);
      assert NoOverlap(C, msp, p);
    }
    forall p, q | p in live && q in live && p < q
      ensures p + live[p] <= q
    {
      assert NoOverlap(C, p, q);
    }
  }

  // ---------------------------------------------------------------- sums

  /** The sum of the values of a map. */
  ghost function Total(f: map<int, int>): int
    decreases |f|
  {
    if exists k :: k in f then
      var k :| k in f;
      Smaller(f, k);
      f[k] + Total(f - {k})
    else
      0
  }

  lemma Smaller(f: map<int, int>, k: int)
    requires k in f
    ensures |f - {k}| < |f|
  {
    var g := f - {k};
    assert g.Keys == f.Keys - {k};
    assert |g.Keys| == |f.Keys| - 1;
  }

  lemma {:induction false} TotalMinus(f: map<int, int>, k: int)
    requires k in f
    ensures Total(f) == f[k] + Total(f - {k})
    decreases |f|
  {
    Smaller(f, k);
    var j :| j in f && Total(f) == f[j] + Total(f - {j});
    if j != k {
      Smaller(f, j);
      TotalMinus(f - {j}, k);
      TotalMinus(f - {k}, j);
      assert f - {j} - {k} == f - {k} - {j};
    }
  }

  lemma TotalPlus(f: map<int, int>, k: int, v: int)
    requires k !in f
    ensures Total(f[k := v]) == Total(f) + v
  {
    hide Total;
    var g := f[k := v];
    TotalMinus(g, k);
    assert g - {k} == f;
  }

  lemma SizePlus(f: map<int, int>, k: int, v: int)
    requires k !in f
    ensures |f[k := v]| == |f| + 1
  {
    var g := f[k := v];
    assert g.Keys == f.Keys + {k};
    assert |g.Keys| == |f.Keys| + 1;
  }

  /** The chunks below `q` that are in use, other than the state chunk. */
  ghost function UsedBelow(C: Arena, msp: int, q: int): map<int, int> {
    map p | p in C && C[p].inuse && p != msp && p < q :: C[p].size
  }

  /** The free chunks below `q`. */
  ghost function FreeBelow(C: Arena, q: int): map<int, int> {
    map p | p in C && !C[p].inuse && p < q :: C[p].size
  }

  lemma CountStart(C: Arena, msp: int, top: int, last: int)
    requires ArenaOk(C, msp, top, last)
    ensures UsedBelow(C, msp, msp) == map[] && FreeBelow(C, msp) == map[] && msp in C
  {
    forall p | p in C
      ensures p >= msp
    {
      ChunkFacts(C, msp, top, last, p);
    }
  }

  lemma BelowStep(C: Arena, msp: int, top: int, last: int, q: int)
    requires ArenaOk(C, msp, top, last) && q in C
    ensures var e, s := End(C, q), C[q].size;
            && (e in C || e == top) && q < e <= top
            && UsedBelow(C, msp, e) == (if C[q].inuse && q != msp then UsedBelow(C, msp, q)[q := s]
               else UsedBelow(C, msp, q))
            && FreeBelow(C, e) == (if C[q].inuse then FreeBelow(C, q) else FreeBelow(C, q)[q := s])
            && q !in UsedBelow(C, msp, q) && q !in FreeBelow(C, q)
  {
    var e := End(C, q);
    ChunkFacts(C, msp, top, last, q);
    forall p | p in C && p < e
      ensures p <= q
    {
      assert NoOverlap(C, q, p);
    }
  }

  /** Passing one more chunk adds it to what it belongs to. */
  lemma CountStep(C: Arena, msp: int, top: int, last: int, q: int)
    requires ArenaOk(C, msp, top, last) && q in C
    ensures var e := End(C, q);
            && (e in C || e == top) && q < e <= top
            && Total(UsedBelow(C, msp, e)) == Total(UsedBelow(C, msp, q)) + (if C[q].inuse && q != msp then C[q].size
               else 0)
            && Total(FreeBelow(C, e)) == Total(FreeBelow(C, q)) + (if C[q].inuse then 0 else C[q].size)
            && |FreeBelow(C, e)| == |FreeBelow(C, q)| + (if C[q].inuse then 0 else 1)
  {
    hide *;
    BelowStep(C, msp, top, last, q);
    TotalPlus(UsedBelow(C, msp, q), q, C[q].size);
    TotalPlus(FreeBelow(C, q), q, C[q].size);
    SizePlus(FreeBelow(C, q), q, C[q].size);
  }

  lemma CountEnd(C: Arena, msp: int, top: int, last: int)
    requires ArenaOk(C, msp, top, last)
    ensures UsedBelow(C, msp, top) == Live(C, msp) && FreeBelow(C, top) == FreeMap(C, {})
  {
    forall p | p in C
      ensures p < top
    {
      ChunkFacts(C, msp, top, last, p);
    }
  }

  // ---------------------------------------------------------------- making a space

  lemma StateBounds(base: Word, capacity: Word, contents: Mem)
    requires 0 < base && base + capacity <= W && (base + capacity) % 4 == 0
    requires STATE_SIZE + TOP_FOOT_SIZE + (AlignAsChunk(base) - base) < capacity
    requires DomOk(contents, AlignAsChunk(base), base + capacity)
    ensures var msp, hi, ts := AlignAsChunk(base), base + capacity, InitialTopSize(base, capacity);
            && 0 < msp && 0 <= msp + STATE_SIZE < W && 0 < ts && ts + 1 < W && ts % 4 == 0
               && msp + STATE_SIZE + ts + TOP_FOOT_SIZE == hi
            && 0 <= STATE_SIZE + 3 < W && W > 0 && msp + STATE_SIZE <= hi
  {
    var msp := AlignAsChunk(base);
    var k := msp / 8;
    assert msp == 8 * k;
    var n := (base + capacity) / 4;
    assert base + capacity == 4 * n;
    assert InitialTopSize(base, capacity) == 4 * (n - 2 * k - 130);
  }

  lemma ZeroedWords(m: Mem, msp: int, hi: int)
    requires DomOk(m, msp, hi) && msp + STATE_SIZE <= hi
    ensures var m' := Zeroed(m, msp + 8, msp + 8 + STATE_SIZE);
            && DomOk(m', msp, hi) && msp + 4 in m'
            && var m1 := m'[msp + 4 := STATE_SIZE + 3];
            && Rd(m1, msp + 4) == STATE_SIZE + 3 && forall j :: 0 <= j < 32 ==> Rd(m1, Slot(msp, j)) == 0
  {
    var m' := Zeroed(m, msp + 8, msp + 8 + STATE_SIZE);
    assert forall a :: a in m' <==> a in m;
    EightFour(msp);
    WordIn(m, msp, hi, msp, 4);
  }

  /** The link words of a bin header are not slots. */
  lemma HeaderStore(m: Mem, msp: int, hi: int, i: int)
    requires DomOk(m, msp, hi) && msp + STATE_SIZE <= hi && 0 <= i < 32
    requires Header(msp, 8 * i) + 8 in m && Header(msp, 8 * i) + 12 in m && 0 <= Header(msp, 8 * i) < W
    ensures var b := Header(msp, 8 * i);
            var m' := m[b + 12 := b][b + 8 := b];
            && DomOk(m', msp, hi) && Rd(m', msp + 4) == Rd(m, msp + 4)
            && forall j :: 0 <= j < 32 ==> Rd(m', Slot(msp, j)) == Rd(m, Slot(msp, j))
  {
    var b := Header(msp, 8 * i);
    var m' := m[b + 12 := b][b + 8 := b];
    assert forall a :: a in m' <==> a in m;
  }

  lemma HeaderIndex(i: int)
    requires 0 <= i < 32
    ensures 0 <= 8 * i < MIN_LARGE_SIZE && 8 * i % 8 == 0
  {
  }

  lemma TopStores(m: Mem, msp: int, hi: int, ts: Word)
    requires DomOk(m, msp, hi) && 0 < ts && ts + 1 < W && ts % 4 == 0 && msp + STATE_SIZE + ts + TOP_FOOT_SIZE == hi
    ensures var m' := InitTop(m, msp + STATE_SIZE, ts);
            && DomOk(m', msp, hi) && TopOk(m', msp + STATE_SIZE, ts, hi) && Rd(m', msp + 4) == Rd(m, msp + 4)
            && forall j :: 0 <= j < 32 ==> Rd(m', Slot(msp, j)) == Rd(m, Slot(msp, j))
  {
    var t := msp + STATE_SIZE;
    EightPlus(msp, STATE_SIZE);
    EightFour(t);
    WordIn(m, msp, hi, t, 4);
    FourPlus(t, ts);
    WordIn(m, msp, hi, t + ts, 4);
    var m' := InitTop(m, t, ts);
    assert forall a :: a in m' <==> a in m;
  }

  lemma FourPlus(a: int, b: int)
    requires a % 4 == 0 && b % 4 == 0
    ensures (a + b) % 4 == 0
  {
  }

  lemma FreshFree(msp: int)
    ensures NO_BINS.free == FreeMap(StateChunk(msp), {0})
  {
  }

  lemma FreshLive(msp: int)
    ensures Live(StateChunk(msp), msp) == map[]
  {
  }

  lemma NoTotal(f: map<int, int>)
    requires f == map[]
    ensures Total(f) == 0 && |f| == 0
  {
  }

  lemma StateIs(C: Arena, msp: int, top: int, last: int)
    requires ArenaOk(C, msp, top, last)
    ensures msp in C && C[msp].inuse && C[msp].size == STATE_SIZE && End(C, msp) == msp + STATE_SIZE && msp <= top
            && 0 < STATE_SIZE
  {
    ChunkFacts(C, msp, top, last, msp);
  }

  lemma TopAfterState(C: Arena, msp: int, top: int, last: int)
    requires ArenaOk(C, msp, top, last)
    ensures msp < top
  {
    ChunkFacts(C, msp, top, last, msp);
  }

}
