/** One step of a walk down a treebin. */
module HeapWalk {
  import opened Words
  import opened HeapWords
  import opened HeapBinMaps
  import opened HeapTreeIndex
  import opened HeapTries
  import opened HeapTrieMem
  import opened HeapBins
  import opened HeapLargeBins
  import opened HeapLargeUnlink

  /** `chunksize`: the head word without its flag bits. */
  function ChunkSize(head: Word): (s: Word)
    ensures s % 8 == 0 && s <= head
  {
    head / 8 * 8
  }

  /** The head words of the binned chunks hold their sizes. */
  ghost predicate Sized(m: Mem, free: map<int, int>) {
    forall q :: q in free ==> ChunkSize(Rd(m, q + 4)) == free[q]
  }

  /** The walk for `s` stands at the node of size `u`, at level `k`. */
  ghost predicate OnPath(t: Trie, u: int, s: int, k: nat) {
    && u in t && Idx(u) == Idx(s) && t[u].level == k && 3 <= k <= 32
    && Pfx(u, k) == Pfx(s, k)
    && (s in t ==> InSub(t, u, s))
  }

  lemma PathStart(t: Trie, roots: seq<int>, s: Word)
    requires Wf(t, roots) && s >= MIN_LARGE_SIZE && roots[Idx(s)] != 0
    ensures OnPath(t, roots[Idx(s)], s, RootLevel(Idx(s))) && Idx(s) == TreeIndex(s)
  {
    var u := roots[Idx(s)];
    assert RootOk(t, u, Idx(s));
    assert NodeOk(t, roots, u);
    SameBinPrefix(u, s);
    if s in t {
      RootHas(t, roots, s);
    }
  }

  /** The child of the node `u` at level `k` on the side of `s`. */
  function Toward(t: Trie, u: int, s: int, k: nat): int {
    if u in t && k > 0 then Child(t[u], Bit(s, k - 1)) else 0
  }

  lemma PathStep(t: Trie, roots: seq<int>, u: int, s: int, k: nat)
    requires Wf(t, roots) && LargeSize(s) && OnPath(t, u, s, k) && u != s
    ensures k > 3
    ensures var c := Toward(t, u, s, k);
            && (c != 0 ==> OnPath(t, c, s, k - 1))
            && (c == 0 ==> s !in t)
  {
    hide Idx;
    hide Pfx;
    hide RootLevel;
    DeepEnough(t, roots, u, s);
    var c := Child(t[u], Bit(s, k - 1));
    if s in t {
      SubSplit(t, roots, u, s);
    }
    if c != 0 {
      ChildPrefix(t, roots, u, Bit(s, k - 1));
      PfxStep(s, k - 1);
      PathBounds(t, roots, u, c);
    }
  }

  lemma PathBounds(t: Trie, roots: seq<int>, u: int, c: int)
    requires Wf(t, roots) && u in t && c in t && c != 0 && (c == t[u].c0 || c == t[u].c1)
    ensures Idx(c) == Idx(u) && 3 <= t[c].level
  {
    hide Idx;
    hide Pfx;
    assert NodeOk(t, roots, u) && NodeOk(t, roots, c);
    assert Child(t[u], 0) == t[u].c0 && Child(t[u], 1) == t[u].c1;
  }

  /** The words a walk reads at the node of size `u`, and what they stand for. */
  ghost predicate NodeRead(m: Mem, b: Bins, u: int)
    requires u in b.trie
  {
    var T, n := At(Heads(b), u), b.trie[u];
    && T + 4 in m && T + 8 in m && T + 16 in m && T + 20 in m && T + 24 in m
    && ChunkSize(m[T + 4]) == u && m[T + 16] == At(Heads(b), n.c0) && m[T + 20] == At(Heads(b), n.c1)
    && LargeSize(u) && (n.c0 != 0 ==> n.c0 in b.trie) && (n.c1 != 0 ==> n.c1 in b.trie) && At(Heads(b), 0) == 0
    && 0 < T < W && T in b.free && u in b.rings && b.free[T] == u
  }

  lemma NodeReadIs(m: Mem, b: Bins, u: int)
    requires u in b.trie && NodeRead(m, b, u)
    ensures var T, n := At(Heads(b), u), b.trie[u];
            && T + 4 in m && T + 8 in m && T + 16 in m && T + 20 in m && T + 24 in m
            && ChunkSize(m[T + 4]) == u && m[T + 16] == At(Heads(b), n.c0) && m[T + 20] == At(Heads(b), n.c1)
            && LargeSize(u) && (n.c0 != 0 ==> n.c0 in b.trie) && (n.c1 != 0 ==> n.c1 in b.trie) && At(Heads(b), 0) == 0
            && 0 < T < W && T in b.free && u in b.rings && b.free[T] == u
  {
  }

  lemma NodeReads(m: Mem, smallmap: Word, treemap: Word, b: Bins, msp: int, hi: int, u: int)
    requires BinsOk(m, smallmap, treemap, b, msp, hi) && Sized(m, b.free) && u in b.trie
    ensures NodeRead(m, b, u)
  {
    hide *;
    BinsParts(m, smallmap, treemap, b, msp, hi);
    TrieMemParts(m, b, msp);
    DomFacts(m, msp, hi);
    HeadsFine(b, msp, hi);
    HeadInSegment(m, b, msp, hi, u);
    RingIs(b, u, Heads(b)[u]);
    LargeClear(m, b, msp, hi, Heads(b)[u]);
    ChildHeads(m, Heads(b), b.trie, b.roots, msp, u);
    NodeSize(b.trie, b.roots, u);
    NoHeadZero(Heads(b), b.trie, msp);
    AtZero(Heads(b));
    SizedAt(m, b.free, Heads(b)[u]);
    RdMany(m, Heads(b)[u]);
    NodeReadFrom(m, b, u);
  }

  lemma NodeReadFrom(m: Mem, b: Bins, u: int)
    requires u in b.trie
    requires var T, n := At(Heads(b), u), b.trie[u];
             && T + 4 in m && T + 8 in m && T + 16 in m && T + 20 in m && T + 24 in m
             && ChunkSize(m[T + 4]) == u && m[T + 16] == At(Heads(b), n.c0) && m[T + 20] == At(Heads(b), n.c1)
             && LargeSize(u) && (n.c0 != 0 ==> n.c0 in b.trie) && (n.c1 != 0 ==> n.c1 in b.trie) && At(Heads(b), 0) == 0
             && 0 < T < W && T in b.free && u in b.rings && b.free[T] == u
    ensures NodeRead(m, b, u)
  {
  }

  lemma SizedAt(m: Mem, free: map<int, int>, q: int)
    requires Sized(m, free) && q in free
    ensures ChunkSize(Rd(m, q + 4)) == free[q]
  {
  }

  lemma RdMany(m: Mem, q: int)
    requires q + 4 in m && q + 16 in m && q + 20 in m
    ensures Rd(m, q + 4) == m[q + 4] && Rd(m, q + 16) == m[q + 16] && Rd(m, q + 20) == m[q + 20]
  {
  }

  lemma OnPathIn(t: Trie, u: int, s: int, k: nat)
    requires OnPath(t, u, s, k)
    ensures u in t && t[u].level == k && 3 <= k <= 32
  {
  }

  lemma TowardIs(t: Trie, u: int, s: int, k: nat)
    requires u in t && k > 0
    ensures Toward(t, u, s, k) == if Bit(s, k - 1) == 0 then t[u].c0 else t[u].c1
  {
  }

  lemma TopBitRange(v: Word)
    ensures 0 <= TopBit(v) <= 1
  {
  }

  lemma WalkEnds(b: Bins, u: int, s: int, k: nat)
    requires OnPath(b.trie, u, s, k) && u != s && s !in b.trie && Toward(b.trie, u, s, k) == 0
    ensures WalkEnd(b, u, s)
  {
  }

  /** Looking at the child that the top bit of the shifted size `K` selects. */
  lemma WalkStep(m: Mem, smallmap: Word, treemap: Word, b: Bins, msp: int, hi: int, u: int, s: Word, k: nat, K: Word,
                 a: int)
    requires BinsOk(m, smallmap, treemap, b, msp, hi) && Sized(m, b.free) && LargeSize(s)
    requires OnPath(b.trie, u, s, k) && u != s && k <= 32 && K == Shl(s, 32 - k)
    requires a == At(Heads(b), u) + 16 + 4 * TopBit(K)
    ensures k > 3 && 0 <= TopBit(K) <= 1 && TopBit(K) == Bit(s, k - 1) && Shl(K, 1) == Shl(s, 33 - k)
    ensures a in m && m[a] == At(Heads(b), Toward(b.trie, u, s, k))
    ensures Rd(m, a) != 0 ==> OnPath(b.trie, Toward(b.trie, u, s, k), s, k - 1)
    ensures Rd(m, a) == 0 ==> WalkEnd(b, u, s)
  {
    hide *;
    BinsParts(m, smallmap, treemap, b, msp, hi);
    var v := Toward(b.trie, u, s, k);
    OnPathIn(b.trie, u, s, k);
    NodeReads(m, smallmap, treemap, b, msp, hi, u);
    NodeReadIs(m, b, u);
    PathStep(b.trie, b.roots, u, s, k);
    TopBitIs(s, k);
    TopBitRange(K);
    TowardIs(b.trie, u, s, k);
    RdAt(m, a);
    if v != 0 {
      OnPathIn(b.trie, v, s, k - 1);
      NodeReads(m, smallmap, treemap, b, msp, hi, v);
      NodeReadIs(m, b, v);
    } else {
      WalkEnds(b, u, s, k);
    }
  }

  lemma RdAt(m: Mem, a: int)
    ensures a in m ==> Rd(m, a) == m[a]
  {
  }

  /** The slot of a treebin points at its root. */
  lemma SlotReads(m: Mem, smallmap: Word, treemap: Word, b: Bins, msp: int, hi: int, i: nat)
    requires BinsOk(m, smallmap, treemap, b, msp, hi) && i < 32
    ensures 0 < Slot(msp, i) < W && Slot(msp, i) in m && |b.roots| == 32 && m[Slot(msp, i)] == At(Heads(b), b.roots[i])
    ensures Marked(treemap, i) <==> b.roots[i] != 0
    ensures b.roots[i] != 0 ==> b.roots[i] in b.trie && Idx(b.roots[i]) == i
    ensures At(Heads(b), 0) == 0
  {
    hide *;
    BinsParts(m, smallmap, treemap, b, msp, hi);
    TrieMemParts(m, b, msp);
    DomFacts(m, msp, hi);
    HeadsFine(b, msp, hi);
    NoHeadZero(Heads(b), b.trie, msp);
    AtZero(Heads(b));
    SlotIn(m, msp, hi, i);
    SlotValue(m, Heads(b), b.trie, b.roots, msp, i);
    SlotBounds(m, msp, hi, i);
    MapsAt(smallmap, treemap, b, i);
  }

  lemma MapsAt(smallmap: Word, treemap: Word, b: Bins, i: nat)
    requires MapsOk(smallmap, treemap, b) && i < 32
    ensures |b.roots| == 32 && (Marked(treemap, i) <==> b.roots[i] != 0) && (Marked(smallmap, i) <==> 8 * i in b.rings)
  {
  }

  lemma SlotBounds(m: Mem, msp: int, hi: int, i: int)
    requires DomOk(m, msp, hi) && msp + STATE_SIZE <= hi && 0 <= i < 32
    ensures 0 < Slot(msp, i) < W
  {
  }

  lemma SlotValue(m: Mem, h: map<int, int>, t: Trie, roots: seq<int>, msp: int, i: int)
    requires NodesMem(m, h, t, roots, msp) && Wf(t, roots) && 0 <= i < 32 && Slot(msp, i) in m
    ensures |roots| == 32 && m[Slot(msp, i)] == At(h, roots[i])
    ensures roots[i] != 0 ==> roots[i] in t && Idx(roots[i]) == i
  {
    assert SlotMem(m, h, roots, msp, i);
    assert RootOk(t, roots[i], i);
  }
}
