/**
  The bins: 32 small bins, each a ring through its header, and 32 treebins, each a trie whose nodes are rings of
  equal-sized chunks.  All links live in the segment's memory; `Bins` is the structure they spell out.
 */
module HeapBins {
  import opened Words
  import opened HeapWords
  import opened HeapBinMaps
  import opened HeapRings
  import opened HeapTries
  import opened HeapTrieMem

  /**
    `free`: the binned chunks with their sizes.  `rings`: the chunks of each size, in ring order; the first one of a
    large size is the trie node.  `trie`, `roots`: the tries, by size.
   */
  datatype Bins = Bins(free: map<int, int>, rings: map<int, seq<int>>, trie: Trie, roots: seq<int>)

  /** `smallbin_at` for the bin of size `s`, in the state chunk at `msp`. */
  function Header(msp: int, s: int): int { msp + 48 + s }

  /** The segment's words are exactly those of [lo, hi). */
  ghost predicate DomOk(m: Mem, lo: int, hi: int) {
    && lo % 8 == 0
    && 0 < lo && hi <= W
    && forall a :: a in m <==> lo <= a < hi && a % 4 == 0
  }

  ghost predicate PlaceOk(p: int, s: int, msp: int, hi: int) {
    msp + STATE_SIZE <= p && p % 8 == 0 && s % 8 == 0 && MIN_CHUNK_SIZE <= s && p + s <= hi
  }

  /** The chunk at `p` of size `s` overlaps no other chunk. */
  ghost predicate Apart(free: map<int, int>, p: int, s: int) {
    forall q :: q in free && q != p ==> q + free[q] <= p || p + s <= q
  }

  ghost predicate Places(free: map<int, int>, msp: int, hi: int) {
    forall p :: p in free ==> PlaceOk(p, free[p], msp, hi) && Apart(free, p, free[p])
  }

  ghost predicate InRing(b: Bins, s: int, q: int) {
    q in b.free && b.free[q] == s
  }

  ghost predicate RingOk(b: Bins, s: int)
    requires s in b.rings
  {
    && |b.rings[s]| > 0
    && Distinct(b.rings[s])
    && forall j :: 0 <= j < |b.rings[s]| ==> InRing(b, s, b.rings[s][j])
  }

  /** Each binned chunk is in exactly one ring, that of its size. */
  ghost predicate Members(b: Bins) {
    && (forall s :: s in b.rings ==> RingOk(b, s))
    && (forall p :: p in b.free ==> b.free[p] in b.rings && p in b.rings[b.free[p]])
  }

  function Ring(b: Bins, msp: int, s: int): seq<int>
    requires s in b.rings
  {
    if s < MIN_LARGE_SIZE then [Header(msp, s)] + b.rings[s] else b.rings[s]
  }

  ghost predicate RingsLinked(m: Mem, b: Bins, msp: int) {
    forall s :: s in b.rings ==> Linked(m, Ring(b, msp, s))
  }

  /** The chunk that stands for each size in the tree. */
  function Heads(b: Bins): map<int, int> {
    map s | s in b.rings && |b.rings[s]| > 0 :: b.rings[s][0]
  }

  /** The chunks chained behind a trie node have no parent and no children. */
  ghost predicate ChainMem(m: Mem, b: Bins, s: int)
    requires s in b.rings
  {
    forall j :: 1 <= j < |b.rings[s]| ==> TreeWords(m, b.rings[s][j], 0, 0, 0, Idx(s))
  }

  ghost predicate Chains(m: Mem, b: Bins) {
    forall s :: s in b.rings && s >= MIN_LARGE_SIZE ==> ChainMem(m, b, s)
  }

  ghost predicate TrieKeys(b: Bins) {
    forall s :: s in b.trie <==> s in b.rings && s >= MIN_LARGE_SIZE
  }

  ghost predicate TrieMem(m: Mem, b: Bins, msp: int) {
    TrieKeys(b) && NodesMem(m, Heads(b), b.trie, b.roots, msp) && Chains(m, b)
  }

  ghost predicate MapsOk(smallmap: Word, treemap: Word, b: Bins) {
    && |b.roots| == 32
    && (forall i: nat :: i < 32 ==> (Marked(smallmap, i) <==> 8 * i in b.rings))
    && (forall i: nat :: i < 32 ==> (Marked(treemap, i) <==> b.roots[i] != 0))
  }

  ghost predicate BinsOk(m: Mem, smallmap: Word, treemap: Word, b: Bins, msp: int, hi: int) {
    && DomOk(m, msp, hi)
    && msp + STATE_SIZE <= hi
    && Places(b.free, msp, hi)
    && Members(b)
    && RingsLinked(m, b, msp)
    && Wf(b.trie, b.roots)
    && TrieMem(m, b, msp)
    && MapsOk(smallmap, treemap, b)
  }

  lemma BinsParts(m: Mem, smallmap: Word, treemap: Word, b: Bins, msp: int, hi: int)
    ensures BinsOk(m, smallmap, treemap, b, msp, hi) <==>
            && DomOk(m, msp, hi) && msp + STATE_SIZE <= hi && Places(b.free, msp, hi) && Members(b)
               && RingsLinked(m, b, msp)
            && Wf(b.trie, b.roots) && TrieMem(m, b, msp) && MapsOk(smallmap, treemap, b)
    ensures DomOk(m, msp, hi) ==> msp % 8 == 0
  {
  }

  /** The words that belong to the bins: the headers and slots, and the insides of binned chunks. */
  ghost predicate Owned(free: map<int, int>, msp: int, a: int) {
    || msp + 48 <= a < msp + 440
    || exists q :: q in free && q + 8 <= a < q + free[q]
  }

  /** Nothing outside the bins' own words differs. */
  ghost predicate Frame(m: Mem, m': Mem, free: map<int, int>, msp: int) {
    forall a :: !Owned(free, msp, a) ==> Rd(m', a) == Rd(m, a)
  }

  // ---------------------------------------------------------------- places and members

  lemma DomStore(m: Mem, lo: int, hi: int, a: int, v: Word)
    requires DomOk(m, lo, hi) && a in m
    ensures DomOk(m[a := v], lo, hi)
  {
  }

  lemma DomFacts(m: Mem, lo: int, hi: int)
    requires DomOk(m, lo, hi)
    ensures lo % 8 == 0 && 0 < lo && hi <= W
  {
  }

  lemma EightFour(p: int)
    requires p % 8 == 0
    ensures p % 4 == 0
  {
    var x := p / 8;
    assert p == 4 * (2 * x);
  }

  lemma FourPlus(a: int, b: int)
    requires a % 8 == 0 && b % 4 == 0
    ensures (a + b) % 4 == 0
  {
    var x, y := a / 8, b / 4;
    assert a + b == 4 * (2 * x + y);
  }

  lemma PlaceWords(m: Mem, msp: int, hi: int, p: int, s: int)
    requires DomOk(m, msp, hi) && PlaceOk(p, s, msp, hi)
    ensures 0 < p && p + s <= W && p % 8 == 0 && 16 <= s && s % 8 == 0 && msp + STATE_SIZE <= p
    ensures p in m && p + 4 in m && p + 8 in m && p + 12 in m
    ensures s >= MIN_LARGE_SIZE ==> p + 16 in m && p + 20 in m && p + 24 in m && p + 28 in m
  {
    hide DomOk;
    DomFacts(m, msp, hi);
    EightFour(p);
    WordIn(m, msp, hi, p, 0);
    WordIn(m, msp, hi, p, 4);
    WordIn(m, msp, hi, p, 8);
    WordIn(m, msp, hi, p, 12);
    if s >= MIN_LARGE_SIZE {
      WordIn(m, msp, hi, p, 16);
      WordIn(m, msp, hi, p, 20);
      WordIn(m, msp, hi, p, 24);
      WordIn(m, msp, hi, p, 28);
    }
  }

  lemma HeaderWords(m: Mem, msp: int, hi: int, s: int)
    requires DomOk(m, msp, hi) && msp + STATE_SIZE <= hi && 0 <= s < MIN_LARGE_SIZE && s % 8 == 0
    ensures var B := Header(msp, s); 0 < B < W && B % 8 == 0 && B + 8 in m && B + 12 in m && B + 12 < msp + STATE_SIZE
  {
    hide DomOk;
    DomFacts(m, msp, hi);
    HeaderMod(msp, s);
    EightFour(msp);
    FourPlus(s, 56);
    FourPlus(s, 60);
    WordIn(m, msp, hi, msp, 48 + s + 8);
    WordIn(m, msp, hi, msp, 48 + s + 12);
  }

  lemma EightPlus(a: int, b: int)
    requires a % 8 == 0 && b % 8 == 0
    ensures (a + b) % 8 == 0
  {
  }

  /** Word-aligned addresses of the segment hold words. */
  lemma WordIn(m: Mem, lo: int, hi: int, p: int, d: int)
    requires DomOk(m, lo, hi) && p % 4 == 0 && d % 4 == 0 && lo <= p + d < hi
    ensures p + d in m
  {
    var x, y := p / 4, d / 4;
    assert p + d == 4 * (x + y);
  }

  lemma FreeFacts(b: Bins, msp: int, hi: int, p: int)
    requires Places(b.free, msp, hi) && Members(b) && p in b.free
    ensures PlaceOk(p, b.free[p], msp, hi) && Apart(b.free, p, b.free[p])
    ensures b.free[p] in b.rings && p in b.rings[b.free[p]] && RingOk(b, b.free[p])
  {
  }

  lemma PlacesInsert(free: map<int, int>, msp: int, hi: int, p: int, s: int)
    requires Places(free, msp, hi) && PlaceOk(p, s, msp, hi) && Apart(free, p, s)
    ensures Places(free[p := s], msp, hi)
  {
    var free' := free[p := s];
    forall q | q in free'
      ensures PlaceOk(q, free'[q], msp, hi) && Apart(free', q, free'[q])
    {
      if q != p {
        assert PlaceOk(q, free[q], msp, hi) && Apart(free, q, free[q]);
      }
    }
  }

  lemma PlacesRemove(free: map<int, int>, msp: int, hi: int, p: int)
    requires Places(free, msp, hi)
    ensures Places(free - {p}, msp, hi)
  {
    forall q | q in free - {p}
      ensures PlaceOk(q, free[q], msp, hi) && Apart(free - {p}, q, free[q])
    {
      assert PlaceOk(q, free[q], msp, hi) && Apart(free, q, free[q]);
    }
  }

  /** Puts `p` into the ring of its size, which becomes `r`. */
  ghost function AddMember(b: Bins, p: int, s: int, r: seq<int>): Bins {
    b.(free := b.free[p := s], rings := b.rings[s := r])
  }

  lemma MembersInsert(b: Bins, p: int, s: int, r: seq<int>)
    requires Members(b) && p !in b.free && |r| > 0 && Distinct(r)
    requires forall q :: q in r <==> q == p || (s in b.rings && q in b.rings[s])
    ensures Members(AddMember(b, p, s, r))
  {
    var b' := AddMember(b, p, s, r);
    forall z | z in b'.rings
      ensures RingOk(b', z)
    {
      if z != s {
        assert RingOk(b, z);
        forall j | 0 <= j < |b'.rings[z]|
          ensures InRing(b', z, b'.rings[z][j])
        {
          assert InRing(b, z, b.rings[z][j]);
        }
      } else {
        forall j | 0 <= j < |r|
          ensures InRing(b', s, r[j])
        {
          assert r[j] in r;
          if r[j] != p {
            assert RingOk(b, s);
            var k :| 0 <= k < |b.rings[s]| && b.rings[s][k] == r[j];
            assert InRing(b, s, b.rings[s][k]);
          }
        }
      }
    }
  }

  /** Takes `p` out of its ring, which becomes `r`. */
  ghost function DropMember(b: Bins, p: int, s: int, r: seq<int>): Bins {
    b.(free := b.free - {p}, rings := if r == [] then b.rings - {s} else b.rings[s := r])
  }

  lemma MembersRemove(b: Bins, p: int, s: int, r: seq<int>)
    requires Members(b) && p in b.free && s == b.free[p] && Distinct(r)
    requires forall q :: q in r <==> q != p && q in b.rings[s]
    ensures Members(DropMember(b, p, s, r))
  {
    var b' := DropMember(b, p, s, r);
    assert RingOk(b, s);
    forall z | z in b'.rings
      ensures RingOk(b', z)
    {
      assert RingOk(b, z);
      forall j | 0 <= j < |b'.rings[z]|
        ensures InRing(b', z, b'.rings[z][j])
      {
        var q := b'.rings[z][j];
        assert q in b'.rings[z];
        assert q in b.rings[z];
        var k :| 0 <= k < |b.rings[z]| && b.rings[z][k] == q;
        assert InRing(b, z, b.rings[z][k]);
      }
    }
    forall q | q in b'.free
      ensures b'.free[q] in b'.rings && q in b'.rings[b'.free[q]]
    {
      assert q in b.rings[b.free[q]];
    }
  }

  // ---------------------------------------------------------------- frames

  /** Every ring element outside the ring of `s` keeps its links. */
  ghost predicate OtherLinks(m: Mem, m': Mem, b: Bins, msp: int, s: int) {
    && (forall q :: q in b.free && b.free[q] != s ==> SameLinks(m, m', q))
    && (forall z :: 0 <= z < MIN_LARGE_SIZE && z % 8 == 0 && z != s ==> SameLinks(m, m', Header(msp, z)))
  }

  lemma RingElem(b: Bins, msp: int, hi: int, z: int, j: int)
    requires Places(b.free, msp, hi) && Members(b) && z in b.rings && msp % 8 == 0
    requires 0 <= j < |Ring(b, msp, z)|
    ensures 16 <= z && z % 8 == 0
    ensures var q := Ring(b, msp, z)[j]; q % 8 == 0 && ((z < MIN_LARGE_SIZE && q == Header(msp, z)) || InRing(b, z, q))
  {
    hide Header;
    RingPlace(b, msp, hi, z, 0);
    HeaderMod(msp, z);
    var k := if z < MIN_LARGE_SIZE then j - 1 else j;
    if k >= 0 {
      RingPlace(b, msp, hi, z, k);
    }
    hide Members;
    hide Places;
  }

  lemma RingPlace(b: Bins, msp: int, hi: int, z: int, k: int)
    requires Places(b.free, msp, hi) && Members(b) && z in b.rings && (k == 0 || 0 <= k < |b.rings[z]|)
    ensures 0 <= k < |b.rings[z]| && 16 <= z && z % 8 == 0 && b.rings[z][k] % 8 == 0 && InRing(b, z, b.rings[z][k])
  {
    assert RingOk(b, z);
    assert InRing(b, z, b.rings[z][k]);
    assert PlaceOk(b.rings[z][k], z, msp, hi);
  }

  lemma HeaderMod(msp: int, z: int)
    requires msp % 8 == 0 && z % 8 == 0
    ensures Header(msp, z) % 8 == 0
  {
    var x, y := msp / 8, z / 8;
    assert Header(msp, z) == 8 * (x + y + 6);
  }

  lemma OtherRings(m: Mem, m': Mem, b: Bins, msp: int, hi: int, s: int)
    requires Places(b.free, msp, hi) && Members(b) && RingsLinked(m, b, msp) && msp % 8 == 0
    requires OtherLinks(m, m', b, msp, s)
    ensures forall z :: z in b.rings && z != s ==> Linked(m', Ring(b, msp, z))
  {
    forall z | z in b.rings && z != s
      ensures Linked(m', Ring(b, msp, z))
    {
      var r := Ring(b, msp, z);
      forall j | 0 <= j < |r|
        ensures SameLinks(m, m', r[j])
      {
        RingElem(b, msp, hi, z, j);
      }
      LinkedFrame(m, m', r);
    }
  }

  /** The tree words of all large chunks and all slots are kept. */
  ghost predicate TreeKept(m: Mem, m': Mem, b: Bins, msp: int) {
    && (forall q :: q in b.free && b.free[q] >= MIN_LARGE_SIZE ==> SameTree(m, m', q))
    && (forall i :: 0 <= i < 32 ==> Rd(m, Slot(msp, i)) == Rd(m', Slot(msp, i)))
  }

  /** Kept tree words spell out the same tries when the large rings start as before. */
  lemma TrieKept(m: Mem, m': Mem, b: Bins, b': Bins, msp: int)
    requires Members(b) && TrieMem(m, b, msp) && TreeKept(m, m', b, msp)
    requires Wf(b.trie, b.roots) && b'.trie == b.trie && b'.roots == b.roots
    requires forall s :: s >= MIN_LARGE_SIZE ==> (s in b'.rings <==> s in b.rings)
    requires forall s :: s >= MIN_LARGE_SIZE && s in b.rings ==> b'.rings[s] == b.rings[s]
    requires 0 !in b.rings && 0 !in b'.rings
    ensures TrieMem(m', b', msp)
  {
    hide Idx;
    hide Wf;
    hide Rd;
    hide TreeWords;
    hide NodesMem;
    HeadsAre(b, b');
    NodesKept(m, m', Heads(b), Heads(b'), b.trie, b.roots, msp);
    forall s | s in b'.rings && s >= MIN_LARGE_SIZE
      ensures ChainMem(m', b', s)
    {
      assert ChainMem(m, b, s);
      ChainKept(m, m', b, b', msp, s);
    }
  }

  lemma HeadsAre(b: Bins, b': Bins)
    requires Members(b) && TrieKeys(b)
    requires forall s :: s >= MIN_LARGE_SIZE && s in b.rings ==> s in b'.rings && b'.rings[s] == b.rings[s]
    ensures forall s :: s in b.trie ==>
              At(Heads(b'), s) == At(Heads(b), s) && At(Heads(b), s) in b.free && b.free[At(Heads(b), s)] == s
  {
    forall s | s in b.trie
      ensures At(Heads(b'), s) == At(Heads(b), s) && At(Heads(b), s) in b.free && b.free[At(Heads(b), s)] == s
    {
      assert RingOk(b, s);
      assert InRing(b, s, b.rings[s][0]);
    }
  }

  lemma ChainKept(m: Mem, m': Mem, b: Bins, b': Bins, msp: int, s: int)
    requires Members(b) && TreeKept(m, m', b, msp) && s in b.rings && s in b'.rings && b.rings[s] == b'.rings[s]
    requires s >= MIN_LARGE_SIZE && ChainMem(m, b, s)
    ensures ChainMem(m', b', s)
  {
    hide Idx;
    hide Rd;
    assert RingOk(b, s);
    forall j | 1 <= j < |b.rings[s]|
      ensures TreeWords(m', b.rings[s][j], 0, 0, 0, Idx(s))
    {
      assert InRing(b, s, b.rings[s][j]);
      assert TreeWords(m, b.rings[s][j], 0, 0, 0, Idx(s));
    }
  }
}
