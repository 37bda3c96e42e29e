/** Unlinking chunks from the treebins keeps the bins in order. */
module HeapLargeUnlink {
  import opened Words
  import opened HeapWords
  import opened HeapBinMaps
  import opened HeapRings
  import opened HeapTries
  import opened HeapTrieMem
  import opened HeapBins
  import opened HeapSmallBins
  import opened HeapLargeBins

  // ---------------------------------------------------------------- a chained chunk

  /** What `unlink_large_chunk` reads of a chunk whose ring holds others. */
  lemma LargeRing(m: Mem, b: Bins, msp: int, hi: int, p: int)
    requires DomOk(m, msp, hi) && Places(b.free, msp, hi) && Members(b) && RingsLinked(m, b, msp)
    requires p in b.free && b.free[p] >= MIN_LARGE_SIZE
    ensures var s, F, K := b.free[p], Fd(m, p), Bk(m, p);
            && s in b.rings && p in b.rings[s] && RingOk(b, s)
            && Aligned(b.rings[s]) && Linked(m, b.rings[s])
            && InRing(b, s, F) && InRing(b, s, K)
            && (K == p <==> |b.rings[s]| == 1)
            && Bk(m, F) == p && Fd(m, K) == p
  {
    FreeFacts(b, msp, hi, p);
    var s := b.free[p];
    var r := b.rings[s];
    var j := IndexOf(r, p);
    assert Ring(b, msp, s) == r;
    var i := if j == 0 then |r| - 1 else j - 1;
    assert LinkAt(m, r, j) && LinkAt(m, r, i);
    assert InRing(b, s, r[i]) && InRing(b, s, r[Next(j, |r|)]);
    forall k | 0 <= k < |r|
      ensures r[k] % 8 == 0
    {
      assert InRing(b, s, r[k]);
      assert PlaceOk(r[k], s, msp, hi);
    }
  }

  /** Which chunk of the ring stands in the tree. */
  lemma LargeEnds(m: Mem, b: Bins, msp: int, hi: int, p: int)
    requires DomOk(m, msp, hi) && Places(b.free, msp, hi) && Members(b) && RingsLinked(m, b, msp)
    requires p in b.free && b.free[p] >= MIN_LARGE_SIZE && p == b.rings[b.free[p]][0]
    ensures var r := b.rings[b.free[p]];
            |r| > 0 && Bk(m, p) == r[|r| - 1] && Fd(m, p) == r[if |r| == 1 then 0 else 1]
  {
    FreeFacts(b, msp, hi, p);
    var r := b.rings[b.free[p]];
    assert Ring(b, msp, b.free[p]) == r;
    assert LinkAt(m, r, 0) && LinkAt(m, r, |r| - 1);
  }

  lemma LargeClear(m: Mem, b: Bins, msp: int, hi: int, q: int)
    requires DomOk(m, msp, hi) && Places(b.free, msp, hi) && q in b.free && b.free[q] >= MIN_LARGE_SIZE
    ensures 0 < q < W && q % 8 == 0 && q >= msp + STATE_SIZE && q + 4 in m
    ensures q + 8 in m && q + 12 in m && q + 16 in m && q + 20 in m && q + 24 in m && q + 28 in m
  {
    assert PlaceOk(q, b.free[q], msp, hi);
    PlaceWords(m, msp, hi, q, b.free[q]);
  }

  lemma RemoveMemTree(m: Mem, b: Bins, msp: int, hi: int, s: int, F: Word, K: Word)
    requires msp % 8 == 0 && Places(b.free, msp, hi) && s >= MIN_LARGE_SIZE && InRing(b, s, F) && InRing(b, s, K)
    ensures TreeKept(m, RemoveMem(m, F, K), b, msp)
    ensures OtherLinks(m, RemoveMem(m, F, K), b, msp, s)
    ensures Frame(m, RemoveMem(m, F, K), b.free, msp)
  {
    var m' := RemoveMem(m, F, K);
    assert PlaceOk(F, s, msp, hi) && Apart(b.free, F, s);
    assert PlaceOk(K, s, msp, hi) && Apart(b.free, K, s);
    forall q | q in b.free && b.free[q] >= MIN_LARGE_SIZE
      ensures SameTree(m, m', q)
    {
      assert PlaceOk(q, b.free[q], msp, hi);
    }
    forall q | q in b.free && b.free[q] != s
      ensures SameLinks(m, m', q)
    {
      assert PlaceOk(q, b.free[q], msp, hi);
      RemoveMemWords(m, F, K, q);
    }
    forall z | 0 <= z < MIN_LARGE_SIZE && z % 8 == 0
      ensures SameLinks(m, m', Header(msp, z))
    {
      EightPlus(msp, 48 + z);
      RemoveMemWords(m, F, K, Header(msp, z));
    }
  }

  lemma ChainRemovedRings(m: Mem, b: Bins, msp: int, hi: int, p: int)
    requires DomOk(m, msp, hi) && Places(b.free, msp, hi) && Members(b) && RingsLinked(m, b, msp)
    requires p in b.free && b.free[p] >= MIN_LARGE_SIZE && |b.rings[b.free[p]]| > 1
    ensures RingsLinked(RemoveMem(m, Fd(m, p), Bk(m, p)), RingRemoved(b, p), msp)
  {
    hide Linked;
    hide DomOk;
    hide Places;
    hide Members;
    hide OtherLinks;
    hide TreeKept;
    hide Frame;
    hide Distinct;
    hide RemoveMem;
    hide Aligned;
    DomFacts(m, msp, hi);
    LargeRing(m, b, msp, hi, p);
    var s, F, K := b.free[p], Fd(m, p), Bk(m, p);
    var r := b.rings[s];
    var j := IndexOf(r, p);
    var m', b' := RemoveMem(m, F, K), RingRemoved(b, p);
    RemoveMemTree(m, b, msp, hi, s, F, K);
    OtherRings(m, m', b, msp, hi, s);
    RemoveLinked(m, r, j);
    forall z | z in b'.rings
      ensures Linked(m', Ring(b', msp, z))
    {
      if z != s {
        assert Ring(b', msp, z) == Ring(b, msp, z);
      }
    }
  }

  lemma ChainRemovedChain(m: Mem, m': Mem, b: Bins, msp: int, p: int)
    requires Members(b) && p in b.free && b.free[p] >= MIN_LARGE_SIZE && TreeKept(m, m', b, msp)
    requires p != b.rings[b.free[p]][0] && ChainMem(m, b, b.free[p])
    ensures var s, b' := b.free[p], RingRemoved(b, p);
            s in b'.rings && |b'.rings[s]| > 0 && b'.rings[s][0] == b.rings[s][0] && ChainMem(m', b', s)
  {
    hide Idx;
    hide Rd;
    var s := b.free[p];
    var r := b.rings[s];
    var j := IndexOf(r, p);
    var r' := RemoveSeq(r, j);
    assert |r'| > 0 && r'[0] == r[0];
    forall k | 1 <= k < |r'|
      ensures TreeWords(m', r'[k], 0, 0, 0, Idx(s))
    {
      var o := if k < j then k else k + 1;
      assert r'[k] == r[o];
      ChainMember(b, s, o);
      assert TreeWords(m, r[o], 0, 0, 0, Idx(s));
    }
  }

  lemma ChainRemovedIs(b: Bins, p: int)
    requires p in b.free && b.free[p] in b.rings && p in b.rings[b.free[p]] && |b.rings[b.free[p]]| > 1
    ensures var b', s := RingRemoved(b, p), b.free[p];
            && b'.free == b.free - {p} && b'.trie == b.trie && b'.roots == b.roots && b'.rings.Keys == b.rings.Keys
            && (forall z :: z in b.rings && z != s ==> b'.rings[z] == b.rings[z])
  {
  }

  lemma RingRemovedMaps(smallmap: Word, treemap: Word, b: Bins, b': Bins)
    requires MapsOk(smallmap, treemap, b) && b'.rings.Keys == b.rings.Keys && b'.roots == b.roots
    ensures MapsOk(smallmap, treemap, b')
  {
    forall i: nat | i < 32
      ensures Marked(smallmap, i) <==> 8 * i in b'.rings
    {
      assert 8 * i in b'.rings <==> 8 * i in b'.rings.Keys;
    }
  }

  /** `unlink_large_chunk` on a chunk chained behind a node. */
  lemma UnlinkChainBins(m: Mem, smallmap: Word, treemap: Word, b: Bins, msp: int, hi: int, p: int)
    requires BinsOk(m, smallmap, treemap, b, msp, hi) && p in b.free && b.free[p] >= MIN_LARGE_SIZE
    requires p != At(Heads(b), b.free[p])
    ensures var m' := RemoveMem(m, Fd(m, p), Bk(m, p));
            && BinsOk(m', smallmap, treemap, RingRemoved(b, p), msp, hi)
            && RingRemoved(b, p).free == b.free - {p}
            && Frame(m, m', b.free, msp)
  {
    hide *;
    BinsParts(m, smallmap, treemap, b, msp, hi);
    TrieMemParts(m, b, msp);
    DomFacts(m, msp, hi);
    LargeRing(m, b, msp, hi, p);
    var s, F, K := b.free[p], Fd(m, p), Bk(m, p);
    HeadIs(b, s);
    LargeClear(m, b, msp, hi, F);
    LargeClear(m, b, msp, hi, K);
    RingMore(b, p);
    var m' := RemoveMem(m, F, K);
    RemoveMemTree(m, b, msp, hi, s, F, K);
    RemoveMemDom(m, msp, hi, F, K);
    ChainRemovedRings(m, b, msp, hi, p);
    ChainOf(m, b, s);
    ChainRemovedChain(m, m', b, msp, p);
    ChainRemovedIs(b, p);
    RingChanged(m, m', b, RingRemoved(b, p), msp, hi, s);
    RemoveMembers(b, p);
    PlacesRemove(b.free, msp, hi, p);
    RingRemovedMaps(smallmap, treemap, b, RingRemoved(b, p));
    BinsParts(m', smallmap, treemap, RingRemoved(b, p), msp, hi);
  }

  lemma RingMore(b: Bins, p: int)
    requires Members(b) && p in b.free && p != b.rings[b.free[p]][0]
    ensures |b.rings[b.free[p]]| > 1
  {
  }

  // ---------------------------------------------------------------- writes to tree words only

  /** The slots and the tree words of the chunks in `S`. */
  ghost predicate TreeWord(S: set<int>, msp: int, a: int) {
    || msp + 312 <= a < msp + 440
    || exists q :: q in S && q + 16 <= a < q + 32
  }

  ghost predicate TreeOnly(m: Mem, m': Mem, S: set<int>, msp: int) {
    forall a :: !TreeWord(S, msp, a) ==> Rd(m', a) == Rd(m, a)
  }

  ghost predicate LargeSet(b: Bins, S: set<int>) {
    forall q :: q in S ==> q in b.free && b.free[q] >= MIN_LARGE_SIZE
  }

  ghost function HeadSet(b: Bins): set<int> {
    set s | s in b.trie :: At(Heads(b), s)
  }

  lemma TreeOnlyLinks(m: Mem, m': Mem, b: Bins, msp: int, hi: int, S: set<int>)
    requires msp % 8 == 0 && Places(b.free, msp, hi) && LargeSet(b, S) && TreeOnly(m, m', S, msp)
    ensures OtherLinks(m, m', b, msp, -1)
    ensures forall q :: q in b.free ==> SameLinks(m, m', q)
    ensures Frame(m, m', b.free, msp)
  {
    forall q | q in b.free
      ensures SameLinks(m, m', q)
    {
      assert PlaceOk(q, b.free[q], msp, hi) && Apart(b.free, q, b.free[q]);
      assert !TreeWord(S, msp, q + 8) && !TreeWord(S, msp, q + 12);
    }
    forall z | 0 <= z < MIN_LARGE_SIZE && z % 8 == 0
      ensures SameLinks(m, m', Header(msp, z))
    {
      forall q | q in S
        ensures q >= msp + STATE_SIZE
      {
        assert PlaceOk(q, b.free[q], msp, hi);
      }
      assert !TreeWord(S, msp, Header(msp, z) + 8) && !TreeWord(S, msp, Header(msp, z) + 12);
    }
    forall a | !Owned(b.free, msp, a)
      ensures Rd(m', a) == Rd(m, a)
    {
      assert !TreeWord(S, msp, a);
    }
  }

  /** Large chunks outside `S` keep their tree words. */
  lemma TreeOnlyOther(m: Mem, m': Mem, b: Bins, msp: int, hi: int, S: set<int>, q: int)
    requires Places(b.free, msp, hi) && LargeSet(b, S) && TreeOnly(m, m', S, msp)
    requires q in b.free && b.free[q] >= MIN_LARGE_SIZE && q !in S
    ensures SameTree(m, m', q)
  {
    assert PlaceOk(q, b.free[q], msp, hi);
    forall x | x in S
      ensures x + 256 <= q || q + 256 <= x
    {
      assert PlaceOk(x, b.free[x], msp, hi) && Apart(b.free, x, b.free[x]);
    }
    assert !TreeWord(S, msp, q + 16) && !TreeWord(S, msp, q + 20) && !TreeWord(S, msp, q + 24)
        && !TreeWord(S, msp, q + 28);
  }

  lemma HeadSetLarge(b: Bins)
    requires Members(b) && TrieKeys(b)
    ensures LargeSet(b, HeadSet(b))
  {
    forall q | q in HeadSet(b)
      ensures q in b.free && b.free[q] >= MIN_LARGE_SIZE
    {
      var s :| s in b.trie && q == At(Heads(b), s);
      HeadIs(b, s);
    }
  }

  lemma PlaceIsTreeWord(b: Bins, msp: int, x: int)
    requires Wf(b.trie, b.roots) && x in b.trie
    ensures TreeWord(HeadSet(b), msp, PlaceSlot(Heads(b), b.trie, msp, x))
  {
    hide Idx;
    hide Bit;
    hide At;
    NodeLinks(b.trie, b.roots, x);
    var u := b.trie[x].up;
    if u != 0 {
      assert At(Heads(b), u) in HeadSet(b);
    }
  }

  /** Chains whose chunks are outside `S` stay as they are. */
  lemma TreeOnlyChain(m: Mem, m': Mem, b: Bins, msp: int, hi: int, S: set<int>, s: int)
    requires Places(b.free, msp, hi) && Members(b) && LargeSet(b, S) && TreeOnly(m, m', S, msp)
    requires s in b.rings && s >= MIN_LARGE_SIZE && ChainMem(m, b, s)
    requires forall j :: 1 <= j < |b.rings[s]| ==> b.rings[s][j] !in S
    ensures ChainMem(m', b, s)
  {
    hide Idx;
    hide TreeOnly;
    hide LargeSet;
    hide Places;
    hide Rd;
    forall j | 1 <= j < |b.rings[s]|
      ensures TreeWords(m', b.rings[s][j], 0, 0, 0, Idx(s))
    {
      ChainMember(b, s, j);
      TreeOnlyOther(m, m', b, msp, hi, S, b.rings[s][j]);
      assert TreeWords(m, b.rings[s][j], 0, 0, 0, Idx(s));
    }
  }

  /** Chained chunks are not in the tree. */
  lemma ChainedNotHead(b: Bins, s: int, j: int)
    requires Members(b) && TrieKeys(b) && s in b.rings && 1 <= j < |b.rings[s]|
    ensures b.rings[s][j] !in HeadSet(b)
  {
    ChainMember(b, s, j);
    assert RingOk(b, s);
    forall z | z in b.trie
      ensures At(Heads(b), z) != b.rings[s][j]
    {
      HeadIs(b, z);
    }
  }

  // ---------------------------------------------------------------- the last chunk of a size, a leaf

  /** The bins after the only chunk `p` of size `s` left, with the tries it leaves. */
  ghost function NodeGone(b: Bins, p: int, s: int, t: Trie, roots: seq<int>): Bins {
    DropMember(b, p, s, []).(trie := t, roots := roots)
  }

  /** Taking the only chunk `p` of size `s` out of its ring. */
  lemma LastMember(b: Bins, p: int, s: int)
    requires Members(b) && p in b.free && s == b.free[p] && |b.rings[s]| == 1
    ensures Members(DropMember(b, p, s, [])) && b.rings[s] == [p] && At(Heads(b), s) == p
  {
    HeadIs(b, s);
    assert p in b.rings[s];
    MembersRemove(b, p, s, []);
  }

  lemma MembersOnly(b: Bins, b': Bins)
    requires Members(b) && b'.free == b.free && b'.rings == b.rings
    ensures Members(b')
  {
    forall s | s in b'.rings
      ensures RingOk(b', s)
    {
      assert RingOk(b, s);
      forall j | 0 <= j < |b'.rings[s]|
        ensures InRing(b', s, b'.rings[s][j])
      {
        assert InRing(b, s, b.rings[s][j]);
      }
    }
  }

  /** All other rings, when no link changes. */
  lemma OtherRingsKept(m: Mem, m': Mem, b: Bins, b': Bins, msp: int, hi: int, s: int)
    requires msp % 8 == 0 && Places(b.free, msp, hi) && Members(b) && RingsLinked(m, b, msp)
    requires OtherLinks(m, m', b, msp, -1) && b'.rings == b.rings - {s}
    ensures RingsLinked(m', b', msp)
  {
    hide Linked;
    hide OtherLinks;
    hide Places;
    hide Members;
    RingSizes(b, msp, hi);
    OtherRings(m, m', b, msp, hi, -1);
    forall z | z in b'.rings
      ensures Linked(m', Ring(b', msp, z))
    {
      assert Ring(b', msp, z) == Ring(b, msp, z);
    }
  }

  /** Chains of the other sizes, when only words of tree nodes change. */
  lemma OtherChainsKept(m: Mem, m': Mem, b: Bins, b': Bins, msp: int, hi: int, s: int)
    requires Places(b.free, msp, hi) && Members(b) && TrieKeys(b) && TreeOnly(m, m', HeadSet(b), msp)
    requires Chains(m, b) && b'.rings == b.rings - {s}
    ensures Chains(m', b')
  {
    hide Places;
    hide Members;
    hide TrieKeys;
    hide TreeOnly;
    hide HeadSet;
    hide ChainMem;
    HeadSetLarge(b);
    forall z | z in b'.rings && z >= MIN_LARGE_SIZE
      ensures ChainMem(m', b', z)
    {
      assert ChainMem(m, b, z);
      forall j | 1 <= j < |b.rings[z]|
        ensures b.rings[z][j] !in HeadSet(b)
      {
        ChainedNotHead(b, z, j);
      }
      TreeOnlyChain(m, m', b, msp, hi, HeadSet(b), z);
      ChainSame(m', b, b', z);
    }
  }

  lemma ChainSame(m: Mem, b: Bins, b': Bins, s: int)
    requires s in b.rings && s in b'.rings && b'.rings[s] == b.rings[s] && ChainMem(m, b, s)
    ensures ChainMem(m, b', s)
  {
    hide TreeWords;
    hide Idx;
  }

  lemma NodeGoneTrie(m: Mem, m': Mem, b: Bins, msp: int, hi: int, p: int, s: int, t: Trie, roots: seq<int>)
    requires Places(b.free, msp, hi) && Members(b) && TrieKeys(b) && Chains(m, b)
    requires TreeOnly(m, m', HeadSet(b), msp) && NodesMem(m', Heads(b), t, roots, msp) && Wf(t, roots)
    requires t.Keys == b.trie.Keys - {s} && s >= MIN_LARGE_SIZE
    ensures TrieMem(m', NodeGone(b, p, s, t, roots), msp)
  {
    hide Places;
    hide Members;
    hide Wf;
    hide NodesMem;
    hide TreeOnly;
    hide HeadSet;
    hide Chains;
    hide Rd;
    var b' := NodeGone(b, p, s, t, roots);
    RingSizes(b, msp, hi);
    OtherChainsKept(m, m', b, b', msp, hi, s);
    forall z
      ensures z in t <==> z in b.trie && z != s
    {
      assert z in t <==> z in t.Keys;
      assert z in b.trie <==> z in b.trie.Keys;
    }
    NodesKept(m', m', Heads(b), Heads(b'), t, roots, msp);
  }

  lemma NodeGoneBins(m: Mem, m': Mem, smallmap: Word, treemap: Word, treemap': Word, b: Bins, msp: int, hi: int,
                     p: int, s: int, t: Trie, roots: seq<int>)
    requires BinsOk(m, smallmap, treemap, b, msp, hi) && DomOk(m', msp, hi)
    requires p in b.free && s == b.free[p] && s >= MIN_LARGE_SIZE && |b.rings[s]| == 1
    requires TreeOnly(m, m', HeadSet(b), msp) && NodesMem(m', Heads(b), t, roots, msp) && Wf(t, roots)
    requires t.Keys == b.trie.Keys - {s}
    requires |roots| == 32 && forall j: nat :: j < 32 ==> (Marked(treemap', j) <==> roots[j] != 0)
    ensures var b' := NodeGone(b, p, s, t, roots);
            && BinsOk(m', smallmap, treemap', b', msp, hi)
            && b'.free == b.free - {p}
            && Frame(m, m', b.free, msp)
  {
    hide *;
    BinsParts(m, smallmap, treemap, b, msp, hi);
    TrieMemParts(m, b, msp);
    DomFacts(m, msp, hi);
    var b' := NodeGone(b, p, s, t, roots);
    NodeGoneIs(b, p, s, t, roots);
    LastMember(b, p, s);
    MembersOnly(DropMember(b, p, s, []), b');
    PlacesRemove(b.free, msp, hi, p);
    HeadSetLarge(b);
    TreeOnlyLinks(m, m', b, msp, hi, HeadSet(b));
    OtherRingsKept(m, m', b, b', msp, hi, s);
    NodeGoneTrie(m, m', b, msp, hi, p, s, t, roots);
    NodeGoneMaps(smallmap, treemap, treemap', b, p, s, t, roots);
    BinsParts(m', smallmap, treemap', b', msp, hi);
  }

  lemma NodeGoneIs(b: Bins, p: int, s: int, t: Trie, roots: seq<int>)
    ensures var b', d := NodeGone(b, p, s, t, roots), DropMember(b, p, s, []);
            && b'.free == d.free == b.free - {p} && b'.rings == d.rings == b.rings - {s}
            && b'.trie == t && b'.roots == roots
  {
  }

  lemma NodeGoneMaps(smallmap: Word, treemap: Word, treemap': Word, b: Bins, p: int, s: int, t: Trie, roots: seq<int>)
    requires MapsOk(smallmap, treemap, b) && s >= MIN_LARGE_SIZE
    requires |roots| == 32 && forall j: nat :: j < 32 ==> (Marked(treemap', j) <==> roots[j] != 0)
    ensures MapsOk(smallmap, treemap', NodeGone(b, p, s, t, roots))
  {
    hide Marked;
  }

  /** Clearing the place of `s` as `unlink_large_chunk` does, with the treemap it leaves. */
  ghost function ClearedMap(treemap: Word, roots: seq<int>, s: int): int
    requires |roots| == 32
  {
    if roots[Idx(s)] == s then (if IdxBit(Idx(s)) < W then And(treemap, Not(IdxBit(Idx(s)))) else 0) else treemap
  }

  lemma ClearedMapOk(smallmap: Word, treemap: Word, b: Bins, s: int)
    requires MapsOk(smallmap, treemap, b) && s != 0
    requires forall i :: 0 <= i < 32 && b.roots[i] == s ==> i == Idx(s)
    ensures IdxBit(Idx(s)) < W && 0 <= ClearedMap(treemap, b.roots, s) < W
    ensures forall j: nat :: j < 32 ==> (Marked(ClearedMap(treemap, b.roots, s), j) <==> DropRoots(b.roots, s)[j] != 0)
  {
    hide Idx;
    hide And;
    hide Marked;
    hide IdxBit;
    ClearBit(treemap, Idx(s), 0);
    forall j: nat | j < 32
      ensures Marked(ClearedMap(treemap, b.roots, s), j) <==> DropRoots(b.roots, s)[j] != 0
    {
      ClearBit(treemap, Idx(s), j);
    }
  }

  lemma RootIndex(t: Trie, roots: seq<int>, s: int)
    requires Wf(t, roots) && s in t
    ensures |roots| == 32 && s != 0
    ensures forall i :: 0 <= i < 32 && roots[i] == s ==> i == Idx(s)
  {
    hide Idx;
    assert NodeOk(t, roots, s);
    forall i | 0 <= i < 32 && roots[i] == s
      ensures i == Idx(s)
    {
      assert RootOk(t, roots[i], i);
    }
  }

  lemma PlaceSlotIn(m: Mem, b: Bins, msp: int, hi: int, s: int)
    requires DomOk(m, msp, hi) && msp + STATE_SIZE <= hi && Places(b.free, msp, hi) && Members(b) && TrieKeys(b)
    requires Wf(b.trie, b.roots) && s in b.trie
    ensures PlaceSlot(Heads(b), b.trie, msp, s) in m
  {
    hide Idx;
    hide Bit;
    hide DomOk;
    hide Places;
    hide Members;
    hide TrieKeys;
    hide Wf;
    hide Heads;
    hide At;
    NodeLinks(b.trie, b.roots, s);
    var n := b.trie[s];
    PlaceDom(m, b, msp, hi, if n.up == 0 then AtSlot(Idx(s)) else AtChild(n.up, Bit(s, n.level)));
  }

  /** `unlink_large_chunk` on the last chunk of its size, at a leaf. */
  lemma UnlinkLeafBins(m: Mem, smallmap: Word, treemap: Word, b: Bins, msp: int, hi: int, p: int)
    requires BinsOk(m, smallmap, treemap, b, msp, hi) && p in b.free && b.free[p] >= MIN_LARGE_SIZE
    requires |b.rings[b.free[p]]| == 1 && b.free[p] in b.trie && b.trie[b.free[p]].c0 == 0 && b.trie[b.free[p]].c1 == 0
    ensures var s := b.free[p];
            var b' := NodeGone(b, p, s, RemoveLeaf(b.trie, s), DropRoots(b.roots, s));
            var m' := m[PlaceSlot(Heads(b), b.trie, msp, s) := 0];
            && |b.roots| == 32 && 0 <= ClearedMap(treemap, b.roots, s) < W
            && BinsOk(m', smallmap, ClearedMap(treemap, b.roots, s), b', msp, hi)
            && b'.free == b.free - {p}
            && Frame(m, m', b.free, msp)
            && PlaceSlot(Heads(b), b.trie, msp, s) in m
  {
    hide *;
    BinsParts(m, smallmap, treemap, b, msp, hi);
    TrieMemParts(m, b, msp);
    DomFacts(m, msp, hi);
    var s := b.free[p];
    var a := PlaceSlot(Heads(b), b.trie, msp, s);
    HeadsFine(b, msp, hi);
    RootIndex(b.trie, b.roots, s);
    PlaceSlotIn(m, b, msp, hi, s);
    DomStore(m, msp, hi, a, 0);
    DropNodeOk(m, Heads(b), b.trie, b.roots, msp, s);
    RemoveLeafOk(b.trie, b.roots, s);
    RemoveLeafKeys(b.trie, s);
    PlaceIsTreeWord(b, msp, s);
    StoreTreeOnly(m, HeadSet(b), msp, a, 0);
    ClearedMapOk(smallmap, treemap, b, s);
    DropRootsLen(b.roots, s);
    NodeGoneBins(m, m[a := 0], smallmap, treemap, ClearedMap(treemap, b.roots, s), b, msp, hi, p, s,
                 RemoveLeaf(b.trie, s), DropRoots(b.roots, s));
  }

  lemma DropRootsLen(roots: seq<int>, s: int)
    ensures |DropRoots(roots, s)| == |roots|
  {
  }

  lemma RemoveLeafKeys(t: Trie, s: int)
    ensures RemoveLeaf(t, s).Keys == t.Keys - {s}
  {
  }

  lemma StoreTreeOnly(m: Mem, S: set<int>, msp: int, a: int, v: Word)
    requires TreeWord(S, msp, a)
    ensures TreeOnly(m, m[a := v], S, msp)
  {
    var m' := m[a := v];
    forall q | !TreeWord(S, msp, q)
      ensures Rd(m', q) == Rd(m, q)
    {
    }
  }

  // ---------------------------------------------------------------- the last chunk of a size, replaced by a leaf

  lemma RelinkTreeOnly(m: Mem, S: set<int>, msp: int, a: int, x: int, r: Word, up: Word)
    requires TreeWord(S, msp, a) && r in S
    requires Rd(m, x + 16) == 0 || Rd(m, x + 16) in S
    requires Rd(m, x + 20) == 0 || Rd(m, x + 20) in S
    ensures TreeOnly(m, RelinkMem(m, a, x, r, up), S, msp)
  {
    var m' := RelinkMem(m, a, x, r, up);
    forall q | !TreeWord(S, msp, q)
      ensures Rd(m', q) == Rd(m, q)
    {
    }
  }

  lemma RelinkDom(m: Mem, lo: int, hi: int, a: int, x: int, r: Word, up: Word)
    requires DomOk(m, lo, hi) && a in m && r + 16 in m && r + 20 in m && r + 24 in m
    requires Rd(m, x + 16) == 0 || Rd(m, x + 16) + 24 in m
    requires Rd(m, x + 20) == 0 || Rd(m, x + 20) + 24 in m
    ensures DomOk(RelinkMem(m, a, x, r, up), lo, hi)
  {
    var m' := RelinkMem(m, a, x, r, up);
    assert forall q :: q in m' <==> q in m;
  }

  lemma TreeOnlyTrans(m: Mem, m1: Mem, m2: Mem, S: set<int>, msp: int)
    requires TreeOnly(m, m1, S, msp) && TreeOnly(m1, m2, S, msp)
    ensures TreeOnly(m, m2, S, msp)
  {
  }

  /** `z` is a leaf strictly below `s`. */
  ghost predicate LeafBelow(t: Trie, s: int, z: int) {
    InSub(t, s, z) && z != s && t[z].c0 == 0 && t[z].c1 == 0
  }

  lemma LeafBelowFacts(t: Trie, roots: seq<int>, s: int, z: int)
    requires Wf(t, roots) && LeafBelow(t, s, z)
    ensures s in t && z in t && z != s && t[z].c0 == 0 && t[z].c1 == 0 && LargeSize(z) && z != 0
    ensures Idx(z) == Idx(s) && Pfx(z, t[s].level) == Pfx(s, t[s].level)
    ensures |roots| == 32 && forall i :: 0 <= i < 32 ==> roots[i] != z
    ensures t[z].up != 0 && t[s].up != z
    ensures RemoveLeaf(t, z).Keys == t.Keys - {z}
    ensures s in RemoveLeaf(t, z) && RemoveLeaf(t, z)[s].level == t[s].level && RemoveLeaf(t, z)[s].up == t[s].up
  {
    hide Idx;
    hide Pfx;
    SubSplit(t, roots, s, z);
    assert NodeOk(t, roots, z) && NodeOk(t, roots, s);
    forall i | 0 <= i < 32
      ensures roots[i] != z
    {
      assert RootOk(t, roots[i], i);
    }
  }

  ghost function SwapTrie(t: Trie, s: int, z: int): Trie
    requires s in t && z in t && s != z
  {
    Replace(RemoveLeaf(t, z), s, z)
  }

  ghost function SwapRoots(roots: seq<int>, s: int, z: int): seq<int> {
    SubstRoots(DropRoots(roots, z), s, z)
  }

  lemma SwapWf(t: Trie, roots: seq<int>, s: int, z: int)
    requires Wf(t, roots) && LeafBelow(t, s, z)
    ensures Wf(SwapTrie(t, s, z), SwapRoots(roots, s, z)) && SwapTrie(t, s, z).Keys == t.Keys - {s}
    ensures Wf(RemoveLeaf(t, z), DropRoots(roots, z))
  {
    hide Wf;
    hide Idx;
    hide Pfx;
    hide LargeSize;
    LeafBelowFacts(t, roots, s, z);
    RemoveLeafOk(t, roots, z);
    ReplaceOk(RemoveLeaf(t, z), DropRoots(roots, z), s, z);
    assert SwapTrie(t, s, z).Keys == t.Keys - {s};
  }

  lemma SwapMaps(smallmap: Word, treemap: Word, b: Bins, s: int, z: int)
    requires MapsOk(smallmap, treemap, b) && s != 0 && z != 0
    requires forall i :: 0 <= i < 32 ==> b.roots[i] != z
    ensures |SwapRoots(b.roots, s, z)| == 32
    ensures forall j: nat :: j < 32 ==> (Marked(treemap, j) <==> SwapRoots(b.roots, s, z)[j] != 0)
  {
    hide Marked;
  }

  /** After clearing the leaf's place, its chunk may take the place of `s`. */
  lemma LeafRelinkable(m: Mem, h: map<int, int>, t: Trie, roots: seq<int>, msp: int, s: int, z: int)
    requires Wf(t, roots) && HeadsOk(h, t, msp) && NodesMem(m, h, t, roots, msp) && LeafBelow(t, s, z)
    requires z in h && 0 <= h[z] < W
    ensures z in t && Relinkable(m[PlaceSlot(h, t, msp, z) := 0], h, RemoveLeaf(t, z), DropRoots(roots, z), msp, s, z,
            h[z])
  {
    hide Wf;
    hide NodesMem;
    hide Idx;
    hide Pfx;
    hide RemoveLeaf;
    hide DropRoots;
    hide PlaceSlot;
    LeafBelowFacts(t, roots, s, z);
    SwapWf(t, roots, s, z);
    DropNodeOk(m, h, t, roots, msp, z);
    LeafHeads(h, t, msp, z);
    ChildHeads(m, h, t, roots, msp, z);
    ChildPlace(h, t, roots, msp, z, z, 0);
    ChildPlace(h, t, roots, msp, z, z, 1);
    PlaceApart(h, t, roots, msp, z, z);
    IndexWord(m, h, t, roots, msp, z);
  }

  lemma IndexWord(m: Mem, h: map<int, int>, t: Trie, roots: seq<int>, msp: int, z: int)
    requires NodesMem(m, h, t, roots, msp) && z in t && z in h
    ensures Rd(m, h[z] + 28) == Idx(z)
  {
    assert NodeMem(m, h, t, msp, z);
  }

  lemma LeafHeads(h: map<int, int>, t: Trie, msp: int, z: int)
    requires HeadsOk(h, t, msp) && z in t
    ensures HeadsOk(h, RemoveLeaf(t, z), msp) && z in h && NewHead(h, RemoveLeaf(t, z), msp, h[z])
  {
    assert HeadOk(h, msp, z);
    forall s | s in RemoveLeaf(t, z) && s in h
      ensures h[s] + 32 <= h[z] || h[z] + 32 <= h[s]
    {
      assert HeadsApart(h, s, z);
    }
  }

  /** What relinking reads and writes when the leaf of size `z` takes the place of `s`. */
  lemma SwapWords(m: Mem, b: Bins, msp: int, hi: int, s: int, z: int)
    requires DomOk(m, msp, hi) && msp + STATE_SIZE <= hi && Places(b.free, msp, hi) && Members(b)
    requires TrieKeys(b) && Wf(b.trie, b.roots) && NodesMem(m, Heads(b), b.trie, b.roots, msp)
             && LeafBelow(b.trie, s, z)
    ensures var h, t := Heads(b), b.trie;
            var m1 := m[PlaceSlot(h, t, msp, z) := 0];
            && s in t && z in t && s in h && z in h && 0 < h[z] < W && 0 < h[s] < W && h[z] in HeadSet(b)
            && (Rd(m1, h[s] + 16) == 0 || Rd(m1, h[s] + 16) in HeadSet(b))
            && (Rd(m1, h[s] + 20) == 0 || Rd(m1, h[s] + 20) in HeadSet(b))
            && PlaceSlot(h, RemoveLeaf(t, z), msp, s) == PlaceSlot(h, t, msp, s)
            && TreeWord(HeadSet(b), msp, PlaceSlot(h, t, msp, s))
            && TreeWord(HeadSet(b), msp, PlaceSlot(h, t, msp, z))
            && PlaceSlot(h, t, msp, z) in m && PlaceSlot(h, t, msp, s) in m
            && Rd(m1, h[s] + 24) == Rd(m, h[s] + 24)
  {
    hide *;
    DomFacts(m, msp, hi);
    HeadsFine(b, msp, hi);
    LeafBelowFacts(b.trie, b.roots, s, z);
    PlaceIsTreeWord(b, msp, s);
    PlaceIsTreeWord(b, msp, z);
    PlaceSlotIn(m, b, msp, hi, s);
    PlaceSlotIn(m, b, msp, hi, z);
    HeadInSegment(m, b, msp, hi, s);
    HeadInSegment(m, b, msp, hi, z);
    SamePlaceSlot(Heads(b), b.trie, RemoveLeaf(b.trie, z), msp, s);
    PlaceApart(Heads(b), b.trie, b.roots, msp, z, s);
    StoreOther(m, PlaceSlot(Heads(b), b.trie, msp, z), Heads(b)[s] + 24);
    DropNodeOk(m, Heads(b), b.trie, b.roots, msp, z);
    SwapWf(b.trie, b.roots, s, z);
    LeafHeads(Heads(b), b.trie, msp, z);
    var m1 := m[PlaceSlot(Heads(b), b.trie, msp, z) := 0];
    ChildHeads(m1, Heads(b), RemoveLeaf(b.trie, z), DropRoots(b.roots, z), msp, s);
    ChildInSet(b, RemoveLeaf(b.trie, z), s, z);
  }

  lemma StoreOther(m: Mem, a: int, q: int)
    requires a != q
    ensures Rd(m[a := 0], q) == Rd(m, q)
  {
  }

  lemma SamePlaceSlot(h: map<int, int>, t: Trie, t': Trie, msp: int, s: int)
    requires s in t && s in t' && t'[s].up == t[s].up && t'[s].level == t[s].level
    ensures PlaceSlot(h, t', msp, s) == PlaceSlot(h, t, msp, s)
  {
  }

  lemma HeadInSegment(m: Mem, b: Bins, msp: int, hi: int, s: int)
    requires DomOk(m, msp, hi) && Places(b.free, msp, hi) && Members(b) && TrieKeys(b) && s in b.trie
    ensures s in Heads(b) && At(Heads(b), s) == Heads(b)[s] && 0 < Heads(b)[s] < W && Heads(b)[s] in HeadSet(b)
    ensures var q := Heads(b)[s]; q + 16 in m && q + 20 in m && q + 24 in m && q + 28 in m
    ensures InRing(b, s, Heads(b)[s]) && s in b.rings && s >= MIN_LARGE_SIZE && s != 0
  {
    HeadIs(b, s);
    assert At(Heads(b), s) in HeadSet(b);
    LargeClear(m, b, msp, hi, Heads(b)[s]);
  }

  /** The children that `s` still has after a leaf left are tree nodes. */
  lemma ChildInSet(b: Bins, t': Trie, s: int, z: int)
    requires t' == RemoveLeaf(b.trie, z) && s in t' && Members(b) && TrieKeys(b)
    requires t'[s].c0 != 0 ==> t'[s].c0 in t'
    requires t'[s].c1 != 0 ==> t'[s].c1 in t'
    requires 0 !in Heads(b)
    ensures At(Heads(b), t'[s].c0) == 0 || At(Heads(b), t'[s].c0) in HeadSet(b)
    ensures At(Heads(b), t'[s].c1) == 0 || At(Heads(b), t'[s].c1) in HeadSet(b)
  {
    hide Heads;
    hide At;
    hide Members;
    hide TrieKeys;
    AtZero(Heads(b));
  }

  lemma AtZero(h: map<int, int>)
    requires 0 !in h
    ensures At(h, 0) == 0
  {
  }

  /** The words of a chunk in the tree lie in the segment. */
  lemma SetWords(m: Mem, b: Bins, msp: int, hi: int, q: int)
    requires DomOk(m, msp, hi) && Places(b.free, msp, hi) && LargeSet(b, HeadSet(b)) && q in HeadSet(b)
    ensures q + 16 in m && q + 20 in m && q + 24 in m && q + 28 in m
  {
    LargeClear(m, b, msp, hi, q);
  }

  /** `unlink_large_chunk` on the last chunk of its size, with the leaf of size `z` taking its place. */
  lemma UnlinkSwapBins(m: Mem, smallmap: Word, treemap: Word, b: Bins, msp: int, hi: int, p: int, z: int)
    requires BinsOk(m, smallmap, treemap, b, msp, hi) && p in b.free && b.free[p] >= MIN_LARGE_SIZE
    requires |b.rings[b.free[p]]| == 1 && LeafBelow(b.trie, b.free[p], z)
    ensures var s, h, t := b.free[p], Heads(b), b.trie;
            && s in t && z in t && z in h && 0 < h[z] < W
            && var b' := NodeGone(b, p, s, SwapTrie(t, s, z), SwapRoots(b.roots, s, z));
               var m1 := m[PlaceSlot(h, t, msp, z) := 0];
               var m2 := RelinkMem(m1, PlaceSlot(h, t, msp, s), p, h[z], Rd(m, p + 24));
               && BinsOk(m2, smallmap, treemap, b', msp, hi)
               && b'.free == b.free - {p}
               && Frame(m, m2, b.free, msp)
               && PlaceSlot(h, t, msp, z) in m && PlaceSlot(h, t, msp, s) in m
  {
    hide *;
    BinsParts(m, smallmap, treemap, b, msp, hi);
    TrieMemParts(m, b, msp);
    DomFacts(m, msp, hi);
    var s, h, t := b.free[p], Heads(b), b.trie;
    LastMember(b, p, s);
    HeadsFine(b, msp, hi);
    LeafBelowFacts(t, b.roots, s, z);
    SwapWords(m, b, msp, hi, s, z);
    HeadInSegment(m, b, msp, hi, s);
    HeadInSegment(m, b, msp, hi, z);
    LeafRelinkable(m, h, t, b.roots, msp, s, z);
    var a0, a := PlaceSlot(h, t, msp, z), PlaceSlot(h, t, msp, s);
    var m1 := m[a0 := 0];
    var m2 := RelinkMem(m1, a, p, h[z], Rd(m, p + 24));
    RelinkOk(m1, h, RemoveLeaf(t, z), DropRoots(b.roots, z), msp, s, z, h[z]);
    assert h[z := h[z]] == h;
    SwapIs(t, b.roots, s, z);
    SwapWf(t, b.roots, s, z);
    SwapMaps(smallmap, treemap, b, s, z);
    DomStore(m, msp, hi, a0, 0);
    StoreTreeOnly(m, HeadSet(b), msp, a0, 0);
    RelinkTreeOnly(m1, HeadSet(b), msp, a, p, h[z], Rd(m, p + 24));
    TreeOnlyTrans(m, m1, m2, HeadSet(b), msp);
    HeadSetLarge(b);
    SwapChildWords(m, m1, b, msp, hi, a0, p);
    RelinkDom(m1, msp, hi, a, p, h[z], Rd(m, p + 24));
    NodeGoneBins(m, m2, smallmap, treemap, treemap, b, msp, hi, p, s, SwapTrie(t, s, z), SwapRoots(b.roots, s, z));
  }

  lemma SwapChildWords(m: Mem, m1: Mem, b: Bins, msp: int, hi: int, a0: int, p: int)
    requires DomOk(m, msp, hi) && Places(b.free, msp, hi) && LargeSet(b, HeadSet(b)) && a0 in m && m1 == m[a0 := 0]
    requires Rd(m1, p + 16) == 0 || Rd(m1, p + 16) in HeadSet(b)
    requires Rd(m1, p + 20) == 0 || Rd(m1, p + 20) in HeadSet(b)
    ensures Rd(m1, p + 16) == 0 || Rd(m1, p + 16) + 24 in m1
    ensures Rd(m1, p + 20) == 0 || Rd(m1, p + 20) + 24 in m1
    ensures forall q :: q in m ==> q in m1
  {
    hide DomOk;
    hide Places;
    hide LargeSet;
    hide HeadSet;
    if Rd(m1, p + 16) != 0 {
      SetWords(m, b, msp, hi, Rd(m1, p + 16));
    }
    if Rd(m1, p + 20) != 0 {
      SetWords(m, b, msp, hi, Rd(m1, p + 20));
    }
  }

  lemma SwapIs(t: Trie, roots: seq<int>, s: int, z: int)
    requires s in t && z in t && s != z && s in RemoveLeaf(t, z)
    ensures SwapTrie(t, s, z) == Replace(RemoveLeaf(t, z), s, z)
    ensures SwapRoots(roots, s, z) == SubstRoots(DropRoots(roots, z), s, z)
  {
  }

  // ---------------------------------------------------------------- the node of a size with more chunks

  /** The ring without its first chunk, starting from its last one. */
  ghost function PromoteSeq(r: seq<int>): seq<int>
    requires |r| > 1
  {
    [r[|r| - 1]] + r[1..|r| - 1]
  }

  /** The bins after `unlink_large_chunk` on a node whose last chained chunk takes its place. */
  ghost function Promoted(b: Bins, p: int, s: int): Bins
    requires s in b.rings && |b.rings[s]| > 1
  {
    DropMember(b, p, s, PromoteSeq(b.rings[s]))
  }

  lemma PromoteElems(r: seq<int>)
    requires |r| > 1 && Distinct(r)
    ensures Distinct(PromoteSeq(r)) && |PromoteSeq(r)| == |r| - 1
    ensures forall q :: q in PromoteSeq(r) <==> q != r[0] && q in r
  {
    var r', n := PromoteSeq(r), |r|;
    forall q | q in r && q != r[0]
      ensures q in r'
    {
      var k :| 0 <= k < n && r[k] == q;
      assert r'[if k == n - 1 then 0 else k] == q;
    }
    forall q | q in r'
      ensures q in r && q != r[0]
    {
      var k :| 0 <= k < |r'| && r'[k] == q;
      assert r[if k == 0 then n - 1 else k] == q;
    }
  }

  lemma PromoteLinked(m: Mem, r: seq<int>)
    requires |r| > 1 && Distinct(r) && Aligned(r) && Linked(m, r)
    ensures Linked(RemoveMem(m, Fd(m, r[0]), Bk(m, r[0])), PromoteSeq(r))
  {
    hide Linked;
    hide Distinct;
    hide Aligned;
    hide RemoveMem;
    var m1 := RemoveMem(m, Fd(m, r[0]), Bk(m, r[0]));
    RemoveLinked(m, r, 0);
    assert RemoveSeq(r, 0) == r[1..];
    RotateLinked(m1, r[1..]);
    assert [r[1..][|r| - 2]] + r[1..][..|r| - 2] == PromoteSeq(r);
  }

  lemma PromotedMembers(b: Bins, p: int, s: int)
    requires Members(b) && p in b.free && s == b.free[p] && p == b.rings[s][0] && |b.rings[s]| > 1
    ensures Members(Promoted(b, p, s))
  {
    assert RingOk(b, s);
    hide Distinct;
    PromoteElems(b.rings[s]);
    MembersRemove(b, p, s, PromoteSeq(b.rings[s]));
  }

  lemma PromotedIs(b: Bins, p: int, s: int)
    requires Members(b) && s in b.rings && |b.rings[s]| > 1
    ensures var b', r := Promoted(b, p, s), b.rings[s];
            && b'.free == b.free - {p} && b'.trie == b.trie && b'.roots == b.roots && b'.rings.Keys == b.rings.Keys
            && (forall z :: z in b.rings && z != s ==> b'.rings[z] == b.rings[z])
            && b'.rings[s] == PromoteSeq(r)
            && Heads(b') == Heads(b)[s := r[|r| - 1]]
  {
    var b', r := Promoted(b, p, s), b.rings[s];
    assert PromoteSeq(r)[0] == r[|r| - 1];
    assert b'.rings.Keys == b.rings.Keys;
    forall z | z in b.rings
      ensures z in Heads(b)
    {
      HeadIs(b, z);
    }
  }

  ghost function PromoteSet(b: Bins, R: int): set<int> {
    HeadSet(b) + {R}
  }

  lemma PromoteSetLarge(b: Bins, s: int, R: int)
    requires Members(b) && TrieKeys(b) && InRing(b, s, R) && s >= MIN_LARGE_SIZE
    ensures LargeSet(b, PromoteSet(b, R))
  {
    HeadSetLarge(b);
  }

  /** The last chained chunk may take over the node. */
  lemma PromoteRelinkable(m: Mem, m1: Mem, b: Bins, msp: int, hi: int, s: int, R: Word)
    requires DomOk(m, msp, hi) && Places(b.free, msp, hi) && Members(b) && Wf(b.trie, b.roots) && TrieMem(m, b, msp)
    requires TreeKept(m, m1, b, msp) && s in b.trie && s in b.rings && |b.rings[s]| > 1
             && R == b.rings[s][|b.rings[s]| - 1]
    ensures Relinkable(m1, Heads(b), b.trie, b.roots, msp, s, s, R)
  {
    hide Wf;
    hide NodesMem;
    hide Idx;
    hide Places;
    hide DomOk;
    hide Members;
    DomFacts(m, msp, hi);
    RingSizes(b, msp, hi);
    HeadsFine(b, msp, hi);
    HeadIs(b, s);
    var n := |b.rings[s]|;
    ChainMember(b, s, n - 1);
    ChainOf(m, b, s);
    assert TreeWords(m, b.rings[s][n - 1], 0, 0, 0, Idx(s));
    HeadsSame(m, m1, b, msp);
    ChainedHead(b, msp, hi, s, n - 1);
    NodesKept(m, m1, Heads(b), Heads(b), b.trie, b.roots, msp);
  }

  lemma HeadsSame(m: Mem, m1: Mem, b: Bins, msp: int)
    requires Members(b) && TrieKeys(b) && TreeKept(m, m1, b, msp)
    ensures forall z :: z in b.trie ==> SameTree(m, m1, At(Heads(b), z))
  {
    hide SameTree;
    forall z | z in b.trie
      ensures SameTree(m, m1, At(Heads(b), z))
    {
      HeadIs(b, z);
    }
  }

  lemma ChainedHead(b: Bins, msp: int, hi: int, s: int, j: int)
    requires Places(b.free, msp, hi) && Members(b) && TrieKeys(b) && s in b.rings && s >= MIN_LARGE_SIZE
             && 1 <= j < |b.rings[s]|
    ensures NewHead(Heads(b), b.trie, msp, b.rings[s][j])
  {
    var R, h := b.rings[s][j], Heads(b);
    ChainMember(b, s, j);
    assert PlaceOk(R, s, msp, hi) && Apart(b.free, R, s);
    forall z | z in b.trie && z in h
      ensures h[z] + 32 <= R || R + 32 <= h[z]
    {
      HeadIs(b, z);
      assert PlaceOk(h[z], z, msp, hi);
      ChainedNotHead(b, s, j);
      assert At(h, z) in HeadSet(b);
    }
  }

  lemma OtherLinksTrans(m: Mem, m1: Mem, m2: Mem, b: Bins, msp: int, s: int)
    requires OtherLinks(m, m1, b, msp, s) && OtherLinks(m1, m2, b, msp, -1)
    requires forall q :: q in b.free ==> SameLinks(m1, m2, q)
    requires s >= MIN_LARGE_SIZE
    ensures OtherLinks(m, m2, b, msp, s)
  {
    forall z | 0 <= z < MIN_LARGE_SIZE && z % 8 == 0 && z != s
      ensures SameLinks(m, m2, Header(msp, z))
    {
      assert SameLinks(m, m1, Header(msp, z));
      assert SameLinks(m1, m2, Header(msp, z));
    }
  }

  /** The ring keeps going after its node moved. */
  lemma PromotedRings(m: Mem, m1: Mem, m2: Mem, b: Bins, msp: int, hi: int, p: int, s: int)
    requires DomOk(m, msp, hi) && Places(b.free, msp, hi) && Members(b) && RingsLinked(m, b, msp)
    requires s in b.rings && s >= MIN_LARGE_SIZE && |b.rings[s]| > 1 && p == b.rings[s][0]
    requires m1 == RemoveMem(m, Fd(m, p), Bk(m, p))
    requires OtherLinks(m, m2, b, msp, s) && forall q :: q in b.free ==> SameLinks(m1, m2, q)
    ensures RingsLinked(m2, Promoted(b, p, s), msp)
  {
    hide Linked;
    hide DomOk;
    hide Places;
    hide Members;
    hide OtherLinks;
    hide RemoveMem;
    hide Distinct;
    hide Aligned;
    DomFacts(m, msp, hi);
    ChainMember(b, s, 0);
    LargeRing(m, b, msp, hi, p);
    var r, b' := b.rings[s], Promoted(b, p, s);
    var r' := PromoteSeq(r);
    PromoteLinked(m, r);
    forall j | 0 <= j < |r'|
      ensures SameLinks(m1, m2, r'[j])
    {
      var k := if j == 0 then |r| - 1 else j;
      assert r'[j] == r[k];
      ChainMember(b, s, k);
    }
    LinkedFrame(m1, m2, r');
    OtherRings(m, m2, b, msp, hi, s);
    PromotedIs(b, p, s);
    forall z | z in b'.rings
      ensures Linked(m2, Ring(b', msp, z))
    {
      assert z in b'.rings.Keys;
      if z != s {
        assert Ring(b', msp, z) == Ring(b, msp, z);
      }
    }
  }

  lemma PromotedChains(m: Mem, m1: Mem, m2: Mem, b: Bins, msp: int, hi: int, p: int, s: int, R: int)
    requires Places(b.free, msp, hi) && Members(b) && TrieKeys(b) && Chains(m, b)
    requires s in b.rings && s >= MIN_LARGE_SIZE && |b.rings[s]| > 1 && R == b.rings[s][|b.rings[s]| - 1]
    requires TreeKept(m, m1, b, msp) && TreeOnly(m1, m2, PromoteSet(b, R), msp)
    ensures Chains(m2, Promoted(b, p, s))
  {
    hide Places;
    hide Members;
    hide TrieKeys;
    hide TreeKept;
    hide TreeOnly;
    hide ChainMem;
    hide PromoteSet;
    var b', r := Promoted(b, p, s), b.rings[s];
    PromotedIs(b, p, s);
    ChainMember(b, s, |r| - 1);
    PromoteSetLarge(b, s, R);
    forall z | z in b'.rings && z >= MIN_LARGE_SIZE
      ensures ChainMem(m2, b', z)
    {
      assert z in b'.rings.Keys;
      assert ChainMem(m, b, z);
      ChainKept(m, m1, b, b, msp, z);
      if z == s {
        PromotedChain(m1, m2, b, msp, hi, p, s, R);
      } else {
        forall j | 1 <= j < |b.rings[z]|
          ensures b.rings[z][j] !in PromoteSet(b, R)
        {
          NotPromoted(b, s, z, j, R);
        }
        TreeOnlyChain(m1, m2, b, msp, hi, PromoteSet(b, R), z);
        ChainSame(m2, b, b', z);
      }
    }
  }

  lemma NotPromoted(b: Bins, s: int, z: int, j: int, R: int)
    requires Members(b) && TrieKeys(b) && z in b.rings && 1 <= j < |b.rings[z]| && s in b.rings && InRing(b, s, R)
    requires z != s || b.rings[z][j] != R
    ensures b.rings[z][j] !in PromoteSet(b, R)
  {
    ChainedNotHead(b, z, j);
    ChainMember(b, z, j);
  }

  lemma PromotedChain(m1: Mem, m2: Mem, b: Bins, msp: int, hi: int, p: int, s: int, R: int)
    requires Places(b.free, msp, hi) && Members(b) && TrieKeys(b)
    requires s in b.rings && s >= MIN_LARGE_SIZE && |b.rings[s]| > 1 && R == b.rings[s][|b.rings[s]| - 1]
    requires ChainMem(m1, b, s) && TreeOnly(m1, m2, PromoteSet(b, R), msp) && LargeSet(b, PromoteSet(b, R))
    ensures s in Promoted(b, p, s).rings && ChainMem(m2, Promoted(b, p, s), s)
  {
    hide Idx;
    hide Rd;
    hide Places;
    hide TrieKeys;
    hide TreeOnly;
    hide LargeSet;
    hide PromoteSet;
    var r := b.rings[s];
    var r' := PromoteSeq(r);
    assert RingOk(b, s);
    forall j | 1 <= j < |r'|
      ensures TreeWords(m2, r'[j], 0, 0, 0, Idx(s))
    {
      assert r'[j] == r[j];
      ChainMember(b, s, j);
      ChainMember(b, s, |r| - 1);
      NotPromoted(b, s, s, j, R);
      TreeOnlyOther(m1, m2, b, msp, hi, PromoteSet(b, R), r[j]);
      assert TreeWords(m1, r[j], 0, 0, 0, Idx(s));
    }
  }

  lemma ReplaceSame(t: Trie, roots: seq<int>, s: int)
    requires s in t
    ensures Replace(t, s, s) == t && SubstRoots(roots, s, s) == roots
  {
  }

  /** What relinking reads and writes when the last chained chunk takes over the node. */
  lemma PromoteWords(m: Mem, m1: Mem, b: Bins, msp: int, hi: int, s: int, R: Word)
    requires DomOk(m, msp, hi) && msp + STATE_SIZE <= hi && Places(b.free, msp, hi) && Members(b)
    requires Wf(b.trie, b.roots) && TrieMem(m, b, msp) && TreeKept(m, m1, b, msp) && DomOk(m1, msp, hi)
    requires s in b.trie && s in b.rings && |b.rings[s]| > 1 && R == b.rings[s][|b.rings[s]| - 1]
    ensures var h, S := Heads(b), PromoteSet(b, R);
            && s in h && 0 < h[s] < W && R in S
            && (Rd(m1, h[s] + 16) == 0 || (Rd(m1, h[s] + 16) in S && Rd(m1, h[s] + 16) + 24 in m1))
            && (Rd(m1, h[s] + 20) == 0 || (Rd(m1, h[s] + 20) in S && Rd(m1, h[s] + 20) + 24 in m1))
            && TreeWord(S, msp, PlaceSlot(h, b.trie, msp, s)) && PlaceSlot(h, b.trie, msp, s) in m1
            && R + 16 in m1 && R + 20 in m1 && R + 24 in m1
            && Rd(m1, h[s] + 24) == Rd(m, h[s] + 24)
  {
    hide *;
    DomFacts(m, msp, hi);
    TrieMemParts(m, b, msp);
    HeadsFine(b, msp, hi);
    HeadInSegment(m1, b, msp, hi, s);
    var n := |b.rings[s]|;
    ChainMember(b, s, n - 1);
    RingIs(b, s, R);
    LargeClear(m1, b, msp, hi, R);
    PlaceIsTreeWord(b, msp, s);
    PlaceSlotIn(m1, b, msp, hi, s);
    PromoteRelinkable(m, m1, b, msp, hi, s, R);
    RelinkableNodes(m1, Heads(b), b.trie, b.roots, msp, s, s, R);
    ChildHeads(m1, Heads(b), b.trie, b.roots, msp, s);
    NoHeadZero(Heads(b), b.trie, msp);
    AtZero(Heads(b));
    HeadSetIn(b, msp, R, PlaceSlot(Heads(b), b.trie, msp, s));
    HeadsSame(m, m1, b, msp);
    SameTreeUp(m, m1, Heads(b)[s]);
    if b.trie[s].c0 != 0 {
      HeadInSegment(m1, b, msp, hi, b.trie[s].c0);
    }
    if b.trie[s].c1 != 0 {
      HeadInSegment(m1, b, msp, hi, b.trie[s].c1);
    }
  }

  lemma RelinkableNodes(m: Mem, h: map<int, int>, t: Trie, roots: seq<int>, msp: int, x: int, z: int, r: Word)
    requires Relinkable(m, h, t, roots, msp, x, z, r)
    ensures NodesMem(m, h, t, roots, msp)
  {
  }

  lemma SameTreeUp(m: Mem, m1: Mem, q: int)
    requires SameTree(m, m1, q)
    ensures Rd(m1, q + 24) == Rd(m, q + 24)
  {
  }

  lemma RingIs(b: Bins, s: int, q: int)
    requires InRing(b, s, q)
    ensures q in b.free && b.free[q] == s
  {
  }

  lemma HeadSetIn(b: Bins, msp: int, R: int, a: int)
    requires TreeWord(HeadSet(b), msp, a)
    ensures TreeWord(PromoteSet(b, R), msp, a) && R in PromoteSet(b, R)
    ensures forall q :: q in HeadSet(b) ==> q in PromoteSet(b, R)
  {
    hide HeadSet;
    if !(msp + 312 <= a < msp + 440) {
      var q :| q in HeadSet(b) && q + 16 <= a < q + 32;
      assert q in PromoteSet(b, R);
    }
  }

  /** `unlink_large_chunk` on a node with chained chunks: the last of them takes its place. */
  lemma UnlinkPromoteBins(m: Mem, smallmap: Word, treemap: Word, b: Bins, msp: int, hi: int, p: int, F: Word, R: Word)
    requires BinsOk(m, smallmap, treemap, b, msp, hi) && p in b.free && b.free[p] >= MIN_LARGE_SIZE
    requires b.free[p] in b.trie && p == At(Heads(b), b.free[p]) && |b.rings[b.free[p]]| > 1 && F == Fd(m, p)
             && R == Bk(m, p)
    ensures var s, h, t := b.free[p], Heads(b), b.trie;
            var m1 := RemoveMem(m, F, R);
            var m2 := RelinkMem(m1, PlaceSlot(h, t, msp, s), p, R, Rd(m, p + 24));
            && BinsOk(m2, smallmap, treemap, Promoted(b, p, s), msp, hi)
            && Promoted(b, p, s).free == b.free - {p}
            && Frame(m, m2, b.free, msp)
            && PlaceSlot(h, t, msp, s) in m
  {
    hide *;
    BinsParts(m, smallmap, treemap, b, msp, hi);
    TrieMemParts(m, b, msp);
    DomFacts(m, msp, hi);
    var s, h, t := b.free[p], Heads(b), b.trie;
    LargeRing(m, b, msp, hi, p);
    HeadIs(b, s);
    LargeEnds(m, b, msp, hi, p);
    RingIs(b, s, F);
    RingIs(b, s, R);
    LargeClear(m, b, msp, hi, F);
    LargeClear(m, b, msp, hi, R);
    PlaceSlotIn(m, b, msp, hi, s);
    var m1 := RemoveMem(m, F, R);
    RemoveMemTree(m, b, msp, hi, s, F, R);
    RemoveMemDom(m, msp, hi, F, R);
    PromoteWords(m, m1, b, msp, hi, s, R);
    PromoteRelinkable(m, m1, b, msp, hi, s, R);
    var a := PlaceSlot(h, t, msp, s);
    var m2 := RelinkMem(m1, a, p, R, Rd(m, p + 24));
    RelinkOk(m1, h, t, b.roots, msp, s, s, R);
    ReplaceSame(t, b.roots, s);
    RelinkDom(m1, msp, hi, a, p, R, Rd(m, p + 24));
    RelinkTreeOnly(m1, PromoteSet(b, R), msp, a, p, R, Rd(m, p + 24));
    PromoteSetLarge(b, s, R);
    TreeOnlyLinks(m1, m2, b, msp, hi, PromoteSet(b, R));
    OtherLinksTrans(m, m1, m2, b, msp, s);
    FrameTrans(m, m1, m2, b.free, msp);
    PromotedRings(m, m1, m2, b, msp, hi, p, s);
    PromotedChains(m, m1, m2, b, msp, hi, p, s, R);
    PromotedMembers(b, p, s);
    PromotedIs(b, p, s);
    PromotedKeys(b, p, s);
    PlacesRemove(b.free, msp, hi, p);
    RingRemovedMaps(smallmap, treemap, b, Promoted(b, p, s));
    TrieMemParts(m2, Promoted(b, p, s), msp);
    BinsParts(m2, smallmap, treemap, Promoted(b, p, s), msp, hi);
  }

  lemma PromotedKeys(b: Bins, p: int, s: int)
    requires TrieKeys(b) && s in b.rings && |b.rings[s]| > 1
    ensures TrieKeys(Promoted(b, p, s))
  {
  }

  lemma FrameTrans(m: Mem, m1: Mem, m2: Mem, free: map<int, int>, msp: int)
    requires Frame(m, m1, free, msp) && Frame(m1, m2, free, msp)
    ensures Frame(m, m2, free, msp)
  {
    hide Owned;
  }
}
