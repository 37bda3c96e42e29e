/** What the macros that link and unlink chunks read on their way, and the memory they leave. */
module HeapMacros {
  import opened Words
  import opened HeapWords
  import opened HeapBinMaps
  import opened HeapTreeIndex
  import opened HeapRings
  import opened HeapTries
  import opened HeapTrieMem
  import opened HeapBins
  import opened HeapSmallBins
  import opened HeapLargeBins
  import opened HeapLargeUnlink
  import opened HeapWalk

  lemma TrieHas(b: Bins, s: int)
    requires TrieKeys(b) && s in b.rings && s >= MIN_LARGE_SIZE
    ensures s in b.trie
  {
  }

  /** The parent word tells a node from a chained chunk, and the index word is right for both. */
  lemma ParentTells(m: Mem, b: Bins, msp: int, hi: int, p: int)
    requires DomOk(m, msp, hi) && Places(b.free, msp, hi) && Members(b) && Wf(b.trie, b.roots) && TrieMem(m, b, msp)
    requires p in b.free && b.free[p] >= MIN_LARGE_SIZE
    ensures Rd(m, p + 24) != 0 <==> p == At(Heads(b), b.free[p])
    ensures Rd(m, p + 28) == Idx(b.free[p])
    ensures b.free[p] in b.rings && b.free[p] in b.trie
  {
    hide Wf;
    hide NodesMem;
    hide Idx;
    hide Places;
    hide DomOk;
    hide Chains;
    hide Heads;
    DomFacts(m, msp, hi);
    FreeFacts(b, msp, hi, p);
    var s := b.free[p];
    TrieHas(b, s);
    HeadIs(b, s);
    HeadsFine(b, msp, hi);
    var r := b.rings[s];
    var j := IndexOf(r, p);
    if j == 0 {
      ChildHeads(m, Heads(b), b.trie, b.roots, msp, s);
      UpNotZero(b, msp, hi, s);
      IndexWord(m, Heads(b), b.trie, b.roots, msp, s);
    } else {
      ChainOf(m, b, s);
      assert TreeWords(m, r[j], 0, 0, 0, Idx(s));
      assert RingOk(b, s);
      assert r[j] != r[0];
    }
  }

  lemma UpNotZero(b: Bins, msp: int, hi: int, s: int)
    requires Places(b.free, msp, hi) && Members(b) && TrieKeys(b) && Wf(b.trie, b.roots) && s in b.trie && msp > 0
    ensures UpWord(Heads(b), msp, b.trie[s], s) != 0
  {
    hide Idx;
    hide Heads;
    hide Members;
    NodeLinks(b.trie, b.roots, s);
    hide Wf;
    var u := b.trie[s].up;
    if u != 0 {
      HeadIs(b, u);
      FreeFacts(b, msp, hi, At(Heads(b), u));
    }
  }

  /** What `unlink_large_chunk` finds around the chunk `p` of size `s`, which is between `F` and `K` in its ring. */
  ghost predicate LargeLinks(m: Mem, b: Bins, msp: int, p: int, s: int, F: int, K: int) {
    && F + 12 in m && K + 8 in m && m[F + 12] == p && m[K + 8] == p && F >= msp && K >= msp
    && (Rd(m, p + 24) != 0 <==> p == At(Heads(b), s))
    && s in b.trie && s in b.rings && p in b.rings[s] && (K == p <==> |b.rings[s]| == 1)
  }

  lemma LargeLinksIs(m: Mem, b: Bins, msp: int, p: int, s: int, F: int, K: int)
    ensures LargeLinks(m, b, msp, p, s, F, K) <==>
            && F + 12 in m && K + 8 in m && m[F + 12] == p && m[K + 8] == p && F >= msp && K >= msp
            && (Rd(m, p + 24) != 0 <==> p == At(Heads(b), s))
            && s in b.trie && s in b.rings && p in b.rings[s] && (K == p <==> |b.rings[s]| == 1)
  {
  }

  lemma UnlinkLargeReads(m: Mem, smallmap: Word, treemap: Word, b: Bins, msp: int, hi: int, p: Word)
    requires BinsOk(m, smallmap, treemap, b, msp, hi) && p in b.free && b.free[p] >= MIN_LARGE_SIZE
    ensures p + 8 in m && p + 12 in m && p + 16 in m && p + 20 in m && p + 24 in m && p + 28 in m
    ensures m[p + 8] == Fd(m, p) && m[p + 12] == Bk(m, p) && m[p + 24] == Rd(m, p + 24) && m[p + 28] == Idx(b.free[p])
    ensures LargeLinks(m, b, msp, p, b.free[p], Fd(m, p), Bk(m, p))
  {
    hide *;
    BinsParts(m, smallmap, treemap, b, msp, hi);
    DomFacts(m, msp, hi);
    LargeRing(m, b, msp, hi, p);
    LargeClear(m, b, msp, hi, p);
    ParentTells(m, b, msp, hi, p);
    var s := b.free[p];
    RingIs(b, s, Fd(m, p));
    RingIs(b, s, Bk(m, p));
    LargeClear(m, b, msp, hi, Fd(m, p));
    LargeClear(m, b, msp, hi, Bk(m, p));
    LinkWords(m, p);
    LinkWords(m, Fd(m, p));
    LinkWords(m, Bk(m, p));
    LargeLinksIs(m, b, msp, p, s, Fd(m, p), Bk(m, p));
  }

  lemma LinkWords(m: Mem, q: int)
    requires q + 8 in m && q + 12 in m && q + 24 in m && q + 28 in m
    ensures Fd(m, q) == m[q + 8] && Bk(m, q) == m[q + 12] && Rd(m, q + 24) == m[q + 24] && Rd(m, q + 28) == m[q + 28]
    ensures STATE_SIZE > 0
  {
  }

  // ---------------------------------------------------------------- the rightmost leaf

  /** The walk to the leaf that replaces `s` stands at the node of size `z`. */
  ghost predicate Descends(t: Trie, s: int, z: int) {
    InSub(t, s, z) && z != s
  }

  lemma DescendStep(t: Trie, roots: seq<int>, s: int, z: int, c: int)
    requires Wf(t, roots) && InSub(t, s, z) && c != 0 && (c == t[z].c0 || c == t[z].c1)
    ensures Descends(t, s, c) && c in t && t[c].level < t[z].level && t[c].up == z
    ensures t[c].level == t[z].level - 1 && Bit(c, t[c].level) == if c == t[z].c0 then 0 else 1
  {
    hide Idx;
    hide Pfx;
    hide Bit;
    assert NodeOk(t, roots, z) && NodeOk(t, roots, s);
    assert Child(t[z], 0) == t[z].c0 && Child(t[z], 1) == t[z].c1;
    assert NodeOk(t, roots, c);
    PfxUp(z, c, t[z].level, t[s].level);
  }

  lemma DescendIn(t: Trie, s: int, z: int)
    requires Descends(t, s, z)
    ensures s in t && z in t && z != s && InSub(t, s, z)
    ensures t[z].c0 == 0 && t[z].c1 == 0 ==> LeafBelow(t, s, z)
  {
  }

  lemma ChildSlot(h: map<int, int>, t: Trie, msp: int, u: int, c: int, b: int)
    requires c in t && t[c].up == u && u != 0 && Bit(c, t[c].level) == b
    ensures PlaceSlot(h, t, msp, c) == At(h, u) + 16 + 4 * b
  {
  }

  lemma SelfSub(t: Trie, s: int)
    requires s in t
    ensures InSub(t, s, s)
  {
  }

  // ---------------------------------------------------------------- putting the replacement in place

  /** Which word points at the node of size `s`, as the macro finds out. */
  lemma FindPlace(m: Mem, h: map<int, int>, t: Trie, roots: seq<int>, msp: int, s: int)
    requires Wf(t, roots) && HeadsOk(h, t, msp) && NodesMem(m, h, t, roots, msp) && s in t
    ensures s in h && Rd(m, Slot(msp, Idx(s))) == h[s] <==> t[s].up == 0
    ensures t[s].up == 0 ==> PlaceSlot(h, t, msp, s) == Slot(msp, Idx(s)) && roots[Idx(s)] == s
    ensures t[s].up != 0 ==> var XP := Rd(m, h[s] + 24);
              PlaceSlot(h, t, msp, s) == (if Rd(m, XP + 16) == h[s] then XP + 16 else XP + 20) && roots[Idx(s)] != s
  {
    hide Idx;
    hide Pfx;
    hide Wf;
    hide Bit;
    NodeLinks(t, roots, s);
    HeadsInjective(h, t, msp);
    SlotHolds(m, h, t, roots, msp, Idx(s));
    RootPlace(h, t, roots, msp, s, Idx(s));
    ChildHeads(m, h, t, roots, msp, s);
    NoHeadZero(h, t, msp);
    RootTells(t, roots, s);
    var u := t[s].up;
    if u != 0 {
      ChildHeads(m, h, t, roots, msp, u);
      NodeChildren(t, roots, u);
    }
  }

  lemma NodeChildren(t: Trie, roots: seq<int>, u: int)
    requires Wf(t, roots) && u in t
    ensures t[u].c0 != 0 ==> t[u].c0 in t
    ensures t[u].c0 != 0 && t[u].c1 != 0 ==> t[u].c0 != t[u].c1
  {
    hide Idx;
    hide Pfx;
    assert NodeOk(t, roots, u);
    assert Child(t[u], 0) == t[u].c0 && Child(t[u], 1) == t[u].c1;
  }

  lemma RootTells(t: Trie, roots: seq<int>, s: int)
    requires Wf(t, roots) && s in t
    ensures |roots| == 32 && (roots[Idx(s)] == s <==> t[s].up == 0)
    ensures roots[Idx(s)] != 0 ==> roots[Idx(s)] in t
  {
    hide Idx;
    assert NodeOk(t, roots, s);
    assert RootOk(t, roots[Idx(s)], Idx(s));
  }

  lemma SlotHolds(m: Mem, h: map<int, int>, t: Trie, roots: seq<int>, msp: int, i: int)
    requires NodesMem(m, h, t, roots, msp) && 0 <= i < |roots|
    ensures Rd(m, Slot(msp, i)) == At(h, roots[i])
  {
    assert SlotMem(m, h, roots, msp, i);
  }

  lemma HeadsInjective(h: map<int, int>, t: Trie, msp: int)
    requires HeadsOk(h, t, msp)
    ensures forall s, z :: s in t && z in t && At(h, s) == At(h, z) ==> s == z
    ensures forall s :: s in t ==> s in h && At(h, s) > 0
  {
    forall s | s in t
      ensures s in h && At(h, s) > 0
    {
      assert HeadOk(h, msp, s);
    }
    forall s, z | s in t && z in t && At(h, s) == At(h, z)
      ensures s == z
    {
      assert s != z ==> HeadsApart(h, s, z);
    }
  }

  /** While the replacement is linked in, the old node's words stay readable. */
  lemma RelinkReads(m: Mem, h: map<int, int>, t: Trie, roots: seq<int>, msp: int, s: int, z: int, r: Word)
    requires Relinkable(m, h, t, roots, msp, s, z, r)
    ensures s in h && var a, X := PlaceSlot(h, t, msp, s), h[s];
            && a != X + 16 && a != X + 20 && a != X + 24 && a != X + 28
            && (X + 32 <= r || r + 32 <= X)
            && (var c0 := Rd(m, X + 16); c0 == 0 || c0 + 24 != X + 20)
  {
    hide Idx;
    hide Bit;
    hide Pfx;
    hide Wf;
    hide NodesMem;
    hide PlaceSlot;
    HeadFacts(h, t, msp, s, r);
    SelfNode(t, roots, s, s);
    ChildPlace(h, t, roots, msp, s, s, 0);
    ChildPlace(h, t, roots, msp, s, s, 1);
    PlaceApart(h, t, roots, msp, s, s);
    ChildApart(m, h, t, roots, msp, s, s, 20);
  }

  /** The two ways of writing the relinked memory. */
  lemma RelinkMemIs(m: Mem, a: int, X: int, R: Word, up: Word, m': Mem)
    requires a != X + 16 && a != X + 20 && (X + 32 <= R || R + 32 <= X)
    requires var c0 := Rd(m, X + 16); c0 == 0 || c0 + 24 != X + 20
    requires var m1 := m[a := R][R + 24 := up];
             var c0 := Rd(m1, X + 16);
             var m2 := if c0 != 0 then m1[R + 16 := c0][c0 + 24 := R] else m1;
             var c1 := Rd(m2, X + 20);
             m' == if c1 != 0 then m2[R + 20 := c1][c1 + 24 := R] else m2
    ensures m' == RelinkMem(m, a, X, R, up)
  {
  }

  // ---------------------------------------------------------------- reads and writes of the macros

  lemma RdIn(m: Mem, a: int)
    requires a in m
    ensures Rd(m, a) == m[a]
  {
  }

  /** What `insert_small_chunk` reads, and that all its words are in the segment. */
  lemma InsertSmallReads(m: Mem, smallmap: Word, treemap: Word, b: Bins, msp: int, hi: int, p: Word, s: int)
    requires BinsOk(m, smallmap, treemap, b, msp, hi) && Insertable(b, msp, hi, p, s) && s < MIN_LARGE_SIZE
    ensures 0 <= s / 8 < 32 && 8 * (s / 8) == s && 0 <= IdxBit(s / 8) && 0 <= Header(msp, s) < W
    ensures And(smallmap, IdxBit(s / 8)) != 0 <==> s in b.rings
    ensures Or(smallmap, IdxBit(s / 8)) < W
    ensures Header(msp, s) + 8 in m && p + 8 in m && p + 12 in m && SmallFirst(b, msp, s) + 12 in m
    ensures s in b.rings ==> m[Header(msp, s) + 8] == SmallFirst(b, msp, s)
    ensures s !in b.rings ==> SmallFirst(b, msp, s) == Header(msp, s)
    ensures 0 <= SmallFirst(b, msp, s) < W
  {
    InsertSmallMem(m, b, msp, hi, p, s);
    TestBit(smallmap, s / 8);
    OrWord(smallmap, s / 8);
    if s in b.rings {
      assert RingOk(b, s);
    }
  }

  /** What the small unlink macros read; their corruption checks hold. */
  lemma UnlinkSmallReads(m: Mem, smallmap: Word, treemap: Word, b: Bins, msp: int, hi: int, p: int)
    requires BinsOk(m, smallmap, treemap, b, msp, hi) && p in b.free && b.free[p] < MIN_LARGE_SIZE
    ensures var s, F, K := b.free[p], Fd(m, p), Bk(m, p);
            && 0 <= s / 8 < 32 && 8 * (s / 8) == s && 0 <= IdxBit(s / 8) < W
            && p + 8 in m && p + 12 in m && F + 12 in m && K + 8 in m && m[p + 8] == F && m[p + 12] == K
            && (F == Header(msp, s) || (F >= msp && m[F + 12] == p))
            && (K == Header(msp, s) || (K >= msp && m[K + 8] == p))
            && s in b.rings && p in b.rings[s]
  {
    FreeFacts(b, msp, hi, p);
    UnlinkSmallMem(m, b, msp, hi, p);
    var s, F, K := b.free[p], Fd(m, p), Bk(m, p);
    ClearBit(smallmap, s / 8, 0);
    assert InRing(b, s, F) ==> PlaceOk(F, s, msp, hi);
    assert InRing(b, s, K) ==> PlaceOk(K, s, msp, hi);
  }

  /** The first chunk of a marked small bin. */
  lemma FirstSmallReads(m: Mem, smallmap: Word, treemap: Word, b: Bins, msp: int, hi: int, i: nat)
    requires BinsOk(m, smallmap, treemap, b, msp, hi) && i < 32 && Marked(smallmap, i)
    ensures var B := Header(msp, 8 * i);
            && B + 8 in m && m[B + 8] in b.free && b.free[m[B + 8]] == 8 * i && Bk(m, m[B + 8]) == B
  {
    var s := 8 * i;
    RingSizes(b, msp, hi);
    var B := Header(msp, s);
    HeaderWords(m, msp, hi, s);
    SmallFirstFacts(m, b, msp, hi, s);
    SmallRingFacts(m, b, msp, hi, s);
    assert RingOk(b, s);
    var r := [B] + b.rings[s];
    assert LinkAt(m, r, 0);
  }

  /** Words outside chunk `p` are not touched by preparing its index and child words. */
  lemma PreparedReads(m: Mem, p: Word, i: Word, q: int)
    requires q in m && (q < p || p + 32 <= q)
    ensures var m1 := m[p + 28 := i][p + 16 := 0][p + 20 := 0]; q in m1 && m1[q] == m[q]
  {
  }

  lemma InsertLargeReads(m: Mem, smallmap: Word, treemap: Word, b: Bins, msp: int, hi: int, p: Word, s: Word)
    requires BinsOk(m, smallmap, treemap, b, msp, hi) && Insertable(b, msp, hi, p, s) && s >= MIN_LARGE_SIZE
    ensures p + 8 in m && p + 12 in m && p + 16 in m && p + 20 in m && p + 24 in m && p + 28 in m
    ensures LargeSize(s) && 0 <= IdxBit(TreeIndex(s)) && TreeIndex(s) == Idx(s) && 0 <= TreeIndex(s) < 32 < W
    ensures And(treemap, IdxBit(TreeIndex(s))) != 0 <==> b.roots[TreeIndex(s)] != 0
    ensures var H := Slot(msp, TreeIndex(s)); H in m && 0 < H < W && (H < p || p + 32 <= H)
    ensures |b.roots| == 32 && Wf(b.trie, b.roots)
    ensures s in b.trie <==> s in b.rings
  {
    var i := TreeIndex(s);
    InsertableFacts(m, b, msp, hi, p, s);
    SlotReads(m, smallmap, treemap, b, msp, hi, i);
    TestBit(treemap, i);
    assert PlaceOk(p, s, msp, hi);
  }

  lemma TreeClear(m: Mem, smallmap: Word, treemap: Word, b: Bins, msp: int, hi: int, p: Word, s: int, u: int)
    requires BinsOk(m, smallmap, treemap, b, msp, hi) && Insertable(b, msp, hi, p, s) && s >= MIN_LARGE_SIZE
             && u in b.trie
    ensures var T := At(Heads(b), u); T + 32 <= p || p + 32 <= T
  {
    HeadIs(b, u);
    var T := At(Heads(b), u);
    assert PlaceOk(T, u, msp, hi);
  }


  lemma NewNodeMemIs(m: Mem, p: Word, i: Word, up: Word, a: int)
    ensures NewNodeMem(m, p, i, up, a)
            == m[p + 28 := i][p + 16 := 0][p + 20 := 0][a := p][p + 24 := up][p + 8 := p][p + 12 := p]
  {
  }

  lemma ChainedMemIs(m: Mem, p: Word, i: Word, T: Word, F: Word)
    ensures ChainedMem(m, p, i, T, F) ==
            m[p + 28 := i][p + 16 := 0][p + 20 := 0][T + 8 := p][F + 12 := p][p + 8 := F][p + 12 := T][p + 24 := 0]
  {
  }

  lemma FdIs(m: Mem, p: int)
    ensures Fd(m, p) == Rd(m, p + 8) && Bk(m, p) == Rd(m, p + 12)
  {
  }

  /** A child word is null exactly when there is no child. */
  lemma NodeReads2(m: Mem, smallmap: Word, treemap: Word, b: Bins, msp: int, hi: int, u: int)
    requires BinsOk(m, smallmap, treemap, b, msp, hi) && Sized(m, b.free) && u in b.trie
    ensures At(Heads(b), b.trie[u].c0) == 0 <==> b.trie[u].c0 == 0
    ensures At(Heads(b), b.trie[u].c1) == 0 <==> b.trie[u].c1 == 0
    ensures b.trie[u].c1 != 0 ==> b.trie[u].c0 != b.trie[u].c1
    ensures u != 0
  {
    hide *;
    BinsParts(m, smallmap, treemap, b, msp, hi);
    NodeReads(m, smallmap, treemap, b, msp, hi, u);
    NodeReadIs(m, b, u);
    NodeChildren(b.trie, b.roots, u);
    NodeSize(b.trie, b.roots, u);
    if b.trie[u].c0 != 0 {
      NodeReads(m, smallmap, treemap, b, msp, hi, b.trie[u].c0);
      NodeReadIs(m, b, b.trie[u].c0);
    }
    if b.trie[u].c1 != 0 {
      NodeReads(m, smallmap, treemap, b, msp, hi, b.trie[u].c1);
      NodeReadIs(m, b, b.trie[u].c1);
    }
  }

  lemma AndWord(m: Word, b: int, i: nat)
    requires 0 <= IdxBit(i) < W && b == Not(IdxBit(i))
    ensures b >= 0 && 0 <= And(m, b) < W
  {
  }

  lemma OnlyChunk(b: Bins, msp: int, hi: int, p: int)
    requires Members(b) && p in b.free && |b.rings[b.free[p]]| == 1
    ensures p == At(Heads(b), b.free[p])
  {
    LastMember(b, p, b.free[p]);
  }

  /** The node's own words and the words that may point at it are in the segment. */
  lemma NodeWords(m: Mem, smallmap: Word, treemap: Word, b: Bins, msp: int, hi: int, X: int, m1: Mem)
    requires BinsOk(m, smallmap, treemap, b, msp, hi) && X in b.free && b.free[X] >= MIN_LARGE_SIZE
             && b.free[X] in b.trie
    requires X == At(Heads(b), b.free[X]) && DomOk(m1, msp, hi)
    ensures var s := b.free[X];
            && s in Heads(b) && Heads(b)[s] == X && X + 16 in m1 && X + 20 in m1 && X + 28 in m1 && X + 24 in m1
            && Slot(msp, Idx(s)) in m1 && 0 <= IdxBit(Idx(s)) < W
            && (b.trie[s].up != 0 ==> Rd(m, X + 24) + 16 in m1)
            && HeadsOk(Heads(b), b.trie, msp) && NodesMem(m, Heads(b), b.trie, b.roots, msp)
            && Wf(b.trie, b.roots) && |b.roots| == 32
  {
    hide *;
    BinsParts(m, smallmap, treemap, b, msp, hi);
    TrieMemParts(m, b, msp);
    DomFacts(m, msp, hi);
    var s := b.free[X];
    HeadsFine(b, msp, hi);
    HeadInSegment(m1, b, msp, hi, s);
    SlotIn(m1, msp, hi, Idx(s));
    ClearBit(treemap, Idx(s), 0);
    IdxBitPos(Idx(s));
    NodeLinks(b.trie, b.roots, s);
    ChildHeads(m, Heads(b), b.trie, b.roots, msp, s);
    UpWordIs(Heads(b), msp, b.trie[s], s);
    if b.trie[s].up != 0 {
      HeadInSegment(m1, b, msp, hi, b.trie[s].up);
    }
  }

  lemma UpWordIs(h: map<int, int>, msp: int, n: Node, s: int)
    ensures UpWord(h, msp, n, s) == if n.up == 0 then Slot(msp, Idx(s)) else At(h, n.up)
  {
  }

  lemma LeafReady(m: Mem, smallmap: Word, treemap: Word, b: Bins, msp: int, hi: int, X: int)
    requires BinsOk(m, smallmap, treemap, b, msp, hi) && X in b.free && b.free[X] >= MIN_LARGE_SIZE
             && b.free[X] in b.trie
    requires X == At(Heads(b), b.free[X])
    ensures var s := b.free[X];
            && s in Heads(b) && Heads(b)[s] == X && X + 16 in m && X + 20 in m && X + 28 in m
            && Slot(msp, Idx(s)) in m && 0 <= IdxBit(Idx(s)) < W
            && (b.trie[s].up != 0 ==> Rd(m, X + 24) + 16 in m)
            && HeadsOk(Heads(b), b.trie, msp) && NodesMem(m, Heads(b), b.trie, b.roots, msp)
            && Wf(b.trie, b.roots) && |b.roots| == 32
            && (0 <= ClearedMap(treemap, b.roots, s) < W ==>
                ClearedMap(treemap, b.roots, s) == if b.roots[Idx(s)] == s then And(treemap, Not(IdxBit(Idx(s))))
                    else treemap)
  {
    hide Wf;
    hide Idx;
    hide HeadsOk;
    hide NodesMem;
    hide And;
    BinsParts(m, smallmap, treemap, b, msp, hi);
    NodeWords(m, smallmap, treemap, b, msp, hi, X, m);
  }

  lemma SwapReady(m: Mem, smallmap: Word, treemap: Word, b: Bins, msp: int, hi: int, X: int, z: int)
    requires BinsOk(m, smallmap, treemap, b, msp, hi) && X in b.free && b.free[X] >= MIN_LARGE_SIZE
             && b.free[X] in b.trie
    requires X == At(Heads(b), b.free[X]) && LeafBelow(b.trie, b.free[X], z) && z in b.trie
    ensures var s, h, t, roots := b.free[X], Heads(b), RemoveLeaf(b.trie, z), DropRoots(b.roots, z);
            var m1 := m[PlaceSlot(h, b.trie, msp, z) := 0];
            && s in h && h[s] == X && s in t && X + 16 in m1 && X + 20 in m1 && X + 28 in m1
            && Slot(msp, Idx(s)) in m1 && 0 <= IdxBit(Idx(s)) < W
            && Rd(m1, X + 24) == Rd(m, X + 24) && Rd(m1, X + 28) == Rd(m, X + 28)
            && (t[s].up != 0 ==> Rd(m, X + 24) + 16 in m1)
            && HeadsOk(h, t, msp) && NodesMem(m1, h, t, roots, msp) && Wf(t, roots) && |roots| == 32
            && z in h && 0 <= h[z] < W && At(h, z) == h[z] && Relinkable(m1, h, t, roots, msp, s, z, h[z])
            && PlaceSlot(h, t, msp, s) == PlaceSlot(h, b.trie, msp, s)
  {
    hide *;
    BinsParts(m, smallmap, treemap, b, msp, hi);
    TrieMemParts(m, b, msp);
    DomFacts(m, msp, hi);
    var s, h := b.free[X], Heads(b);
    var a := PlaceSlot(h, b.trie, msp, z);
    LeafBelowFacts(b.trie, b.roots, s, z);
    SwapWords(m, b, msp, hi, s, z);
    DomStore(m, msp, hi, a, 0);
    NodeWords(m, smallmap, treemap, b, msp, hi, X, m[a := 0]);
    HeadInSegment(m, b, msp, hi, z);
    LeafRelinkable(m, h, b.trie, b.roots, msp, s, z);
    RelinkableParts(m[a := 0], h, RemoveLeaf(b.trie, z), DropRoots(b.roots, z), msp, s, z, h[z]);
    PlaceApart(h, b.trie, b.roots, msp, z, s);
    StoreOther(m, a, X + 24);
    StoreOther(m, a, X + 28);
  }

  lemma RelinkableParts(m: Mem, h: map<int, int>, t: Trie, roots: seq<int>, msp: int, x: int, z: int, r: Word)
    requires Relinkable(m, h, t, roots, msp, x, z, r)
    ensures NodesMem(m, h, t, roots, msp) && HeadsOk(h, t, msp) && Wf(t, roots) && |roots| == 32
  {
  }

  lemma PromoteReady(m: Mem, m1: Mem, smallmap: Word, treemap: Word, b: Bins, msp: int, hi: int, X: int, F: Word,
                     R: Word)
    requires BinsOk(m, smallmap, treemap, b, msp, hi) && X in b.free && b.free[X] >= MIN_LARGE_SIZE
             && b.free[X] in b.trie
    requires X == At(Heads(b), b.free[X]) && |b.rings[b.free[X]]| > 1 && F == Fd(m, X) && R == Bk(m, X)
             && m1 == RemoveMem(m, F, R)
    ensures var s, h := b.free[X], Heads(b);
            && s in h && h[s] == X && X + 16 in m1 && X + 20 in m1 && X + 28 in m1
            && Slot(msp, Idx(s)) in m1 && 0 <= IdxBit(Idx(s)) < W
            && Rd(m1, X + 24) == Rd(m, X + 24) && Rd(m1, X + 28) == Rd(m, X + 28)
            && (b.trie[s].up != 0 ==> Rd(m, X + 24) + 16 in m1)
            && HeadsOk(h, b.trie, msp) && NodesMem(m1, h, b.trie, b.roots, msp) && Wf(b.trie, b.roots)
               && |b.roots| == 32
            && Relinkable(m1, h, b.trie, b.roots, msp, s, s, R) && R != 0
  {
    hide *;
    BinsParts(m, smallmap, treemap, b, msp, hi);
    TrieMemParts(m, b, msp);
    DomFacts(m, msp, hi);
    var s := b.free[X];
    LargeRing(m, b, msp, hi, X);
    HeadIs(b, s);
    LargeEnds(m, b, msp, hi, X);
    RingIs(b, s, F);
    RingIs(b, s, R);
    LargeClear(m, b, msp, hi, F);
    LargeClear(m, b, msp, hi, R);
    RemoveMemTree(m, b, msp, hi, s, F, R);
    RemoveMemDom(m, msp, hi, F, R);
    NodeWords(m, smallmap, treemap, b, msp, hi, X, m1);
    PromoteRelinkable(m, m1, b, msp, hi, s, R);
    RelinkableParts(m1, Heads(b), b.trie, b.roots, msp, s, s, R);
    HeadsSame(m, m1, b, msp);
    SameTreeWords(m, m1, X);
  }

  lemma SameTreeWords(m: Mem, m1: Mem, q: int)
    requires SameTree(m, m1, q)
    ensures Rd(m1, q + 24) == Rd(m, q + 24) && Rd(m1, q + 28) == Rd(m, q + 28)
  {
  }

  lemma WordZero()
    ensures 0 < W
  {
  }

  lemma IdxBitPos(i: nat)
    ensures IdxBit(i) >= 0
  {
  }

  lemma SmallIndex(i: nat)
    requires i < 32
    ensures 8 * i < MIN_LARGE_SIZE && 8 * i / 8 == i
  {
  }

  lemma RemoveMemIs(m: Mem, F: Word, B: Word)
    ensures m[F + 12 := B][B + 8 := F] == RemoveMem(m, F, B)
  {
  }

  lemma InsertMemIs(m: Mem, m': Mem, B: Word, F: Word, p: Word)
    requires m' == m[B + 8 := p][F + 12 := p][p + 8 := F][p + 12 := B]
    ensures m' == InsertMem(m, B, F, p)
  {
  }

  lemma SmallInsertedFree(b: Bins, p: int, s: int)
    ensures SmallInserted(b, p, s).free == b.free[p := s]
  {
  }
}
