/** The tries of the treebins as they stand in memory: child, parent and index words of the chunks in the tree. */
module HeapTrieMem {
  import opened Words
  import opened HeapWords
  import opened HeapTreeIndex
  import opened HeapTries

  const STATE_SIZE: int := 480

  /** `treebin_at`, in the state chunk at `msp`. */
  function Slot(msp: int, i: int): int { msp + 312 + 4 * i }

  /** The chunk that stands for size `s` in the tree; none for an absent size. */
  function At(h: map<int, int>, s: int): int {
    if s in h then h[s] else 0
  }

  /** The child, parent and index words of the chunk at `p`. */
  ghost predicate TreeWords(m: Mem, p: int, c0: int, c1: int, up: int, i: int) {
    Rd(m, p + 16) == c0 && Rd(m, p + 20) == c1 && Rd(m, p + 24) == up && Rd(m, p + 28) == i
  }

  function UpWord(h: map<int, int>, msp: int, n: Node, s: int): int {
    if n.up == 0 then Slot(msp, Idx(s)) else At(h, n.up)
  }

  ghost predicate NodeMem(m: Mem, h: map<int, int>, t: Trie, msp: int, s: int)
    requires s in t
  {
    TreeWords(m, At(h, s), At(h, t[s].c0), At(h, t[s].c1), UpWord(h, msp, t[s], s), Idx(s))
  }

  ghost predicate SlotMem(m: Mem, h: map<int, int>, roots: seq<int>, msp: int, i: int)
    requires 0 <= i < |roots|
  {
    Rd(m, Slot(msp, i)) == At(h, roots[i])
  }

  /** Memory spells out the tries `t`, `roots`, with `h` giving the chunk of each size. */
  ghost predicate NodesMem(m: Mem, h: map<int, int>, t: Trie, roots: seq<int>, msp: int) {
    && (forall s :: s in t ==> NodeMem(m, h, t, msp, s))
    && (forall i :: 0 <= i < |roots| ==> SlotMem(m, h, roots, msp, i))
  }

  ghost predicate HeadOk(h: map<int, int>, msp: int, s: int) {
    s in h && msp + STATE_SIZE <= h[s] && h[s] % 8 == 0
  }

  ghost predicate HeadsApart(h: map<int, int>, s: int, z: int)
    requires s in h && z in h
  {
    h[s] + 32 <= h[z] || h[z] + 32 <= h[s]
  }

  /** The tree's chunks do not overlap each other or the state chunk. */
  ghost predicate HeadsOk(h: map<int, int>, t: Trie, msp: int) {
    && 0 !in h && msp > 0 && msp % 8 == 0
    && (forall s :: s in t ==> HeadOk(h, msp, s))
    && (forall s, z :: s in t && z in t && s != z ==> HeadsApart(h, s, z))
  }

  /** The tree words of the chunk at `q` are the same in both memories. */
  ghost predicate SameTree(m: Mem, m': Mem, q: int) {
    && Rd(m, q + 16) == Rd(m', q + 16) && Rd(m, q + 20) == Rd(m', q + 20)
    && Rd(m, q + 24) == Rd(m', q + 24) && Rd(m, q + 28) == Rd(m', q + 28)
  }

  /** Nothing the tries are spelled with changes. */
  lemma NodesKept(m: Mem, m': Mem, h: map<int, int>, h': map<int, int>, t: Trie, roots: seq<int>, msp: int)
    requires Wf(t, roots) && NodesMem(m, h, t, roots, msp) && 0 !in h && 0 !in h'
    requires forall s :: s in t ==> At(h', s) == At(h, s) && SameTree(m, m', At(h, s))
    requires forall i :: 0 <= i < 32 ==> Rd(m', Slot(msp, i)) == Rd(m, Slot(msp, i))
    ensures NodesMem(m', h', t, roots, msp)
  {
    hide Idx;
    hide Rd;
    hide RootLevel;
    forall s | s in t
      ensures NodeMem(m', h', t, msp, s)
    {
      assert NodeOk(t, roots, s);
      assert NodeMem(m, h, t, msp, s);
      assert Child(t[s], 0) == t[s].c0 && Child(t[s], 1) == t[s].c1;
    }
    forall i | 0 <= i < |roots|
      ensures SlotMem(m', h', roots, msp, i)
    {
      assert RootOk(t, roots[i], i);
      assert SlotMem(m, h, roots, msp, i);
    }
  }

  /** The word that points at the node of size `s`: a slot or a child word of its parent. */
  function PlaceSlot(h: map<int, int>, t: Trie, msp: int, s: int): int
    requires s in t
  {
    if t[s].up == 0 then Slot(msp, Idx(s)) else At(h, t[s].up) + 16 + 4 * Bit(s, t[s].level)
  }

  /** A child word is the place of the child's size and of no other. */
  lemma ChildPlace(h: map<int, int>, t: Trie, roots: seq<int>, msp: int, x: int, s: int, b: int)
    requires Wf(t, roots) && HeadsOk(h, t, msp) && x in t && s in t && 0 <= b <= 1
    ensures PlaceSlot(h, t, msp, x) == At(h, s) + 16 + 4 * b <==> Child(t[s], b) == x
  {
    hide Idx;
    hide Pfx;
    hide RootLevel;
    hide LargeSize;
    assert NodeOk(t, roots, x) && NodeOk(t, roots, s);
    assert HeadOk(h, msp, s);
    var u := t[x].up;
    if u != 0 {
      assert HeadOk(h, msp, u);
      if u != s {
        assert HeadsApart(h, u, s);
      }
    }
  }

  lemma RootPlace(h: map<int, int>, t: Trie, roots: seq<int>, msp: int, x: int, i: int)
    requires Wf(t, roots) && HeadsOk(h, t, msp) && x in t && 0 <= i < 32
    ensures PlaceSlot(h, t, msp, x) == Slot(msp, i) <==> roots[i] == x
  {
    hide Idx;
    hide Pfx;
    hide RootLevel;
    assert NodeOk(t, roots, x);
    assert RootOk(t, roots[i], i);
    if t[x].up != 0 {
      assert HeadOk(h, msp, t[x].up);
    }
  }

  /** The word at the place of `x` points at it. */
  lemma PlaceHolds(m: Mem, h: map<int, int>, t: Trie, roots: seq<int>, msp: int, x: int)
    requires Wf(t, roots) && HeadsOk(h, t, msp) && NodesMem(m, h, t, roots, msp) && x in t
    ensures Rd(m, PlaceSlot(h, t, msp, x)) == h[x]
  {
    hide Idx;
    hide Bit;
    hide Wf;
    NodeLinks(t, roots, x);
    assert HeadOk(h, msp, x);
    if t[x].up == 0 {
      assert SlotMem(m, h, roots, msp, Idx(x));
    } else {
      assert NodeMem(m, h, t, msp, t[x].up);
      ChildWord(m, h, t, msp, t[x].up, Bit(x, t[x].level));
    }
  }

  lemma NodeLinks(t: Trie, roots: seq<int>, x: int)
    requires Wf(t, roots) && x in t
    ensures |roots| == 32
    ensures t[x].up == 0 ==> roots[Idx(x)] == x
    ensures t[x].up != 0 ==> t[x].up in t && Child(t[t[x].up], Bit(x, t[x].level)) == x
  {
    hide Idx;
    hide Bit;
    assert NodeOk(t, roots, x);
  }

  lemma ChildWord(m: Mem, h: map<int, int>, t: Trie, msp: int, u: int, b: int)
    requires u in t && NodeMem(m, h, t, msp, u) && 0 <= b <= 1
    ensures Rd(m, At(h, u) + 16 + 4 * b) == At(h, Child(t[u], b))
  {
    hide Idx;
  }

  /** Parent and index words are no places. */
  lemma PlaceApart(h: map<int, int>, t: Trie, roots: seq<int>, msp: int, x: int, s: int)
    requires Wf(t, roots) && HeadsOk(h, t, msp) && x in t && s in t
    ensures PlaceSlot(h, t, msp, x) != At(h, s) + 24 && PlaceSlot(h, t, msp, x) != At(h, s) + 28
  {
    hide Idx;
    hide Pfx;
    hide RootLevel;
    hide LargeSize;
    assert NodeOk(t, roots, x) && HeadOk(h, msp, s);
    var u := t[x].up;
    if u != 0 {
      assert HeadOk(h, msp, u);
      if u != s {
        assert HeadsApart(h, u, s);
      }
    }
  }

  /** Clearing the place of a leaf removes it from the tree. */
  lemma DropNodeOk(m: Mem, h: map<int, int>, t: Trie, roots: seq<int>, msp: int, x: int)
    requires Wf(t, roots) && HeadsOk(h, t, msp) && NodesMem(m, h, t, roots, msp)
    requires x in t && t[x].c0 == 0 && t[x].c1 == 0
    ensures NodesMem(m[PlaceSlot(h, t, msp, x) := 0], h, RemoveLeaf(t, x), DropRoots(roots, x), msp)
  {
    hide Idx;
    hide Pfx;
    hide Wf;
    var a := PlaceSlot(h, t, msp, x);
    var m', t', roots' := m[a := 0], RemoveLeaf(t, x), DropRoots(roots, x);
    forall s | s in t'
      ensures NodeMem(m', h, t', msp, s)
    {
      assert NodeMem(m, h, t, msp, s);
      ChildPlace(h, t, roots, msp, x, s, 0);
      ChildPlace(h, t, roots, msp, x, s, 1);
      PlaceApart(h, t, roots, msp, x, s);
    }
    assert |roots| == 32 by {
      WfRoots(t, roots);
    }
    forall i | 0 <= i < 32
      ensures SlotMem(m', h, roots', msp, i)
    {
      assert SlotMem(m, h, roots, msp, i);
      RootPlace(h, t, roots, msp, x, i);
    }
  }

  lemma WfRoots(t: Trie, roots: seq<int>)
    requires Wf(t, roots)
    ensures |roots| == 32
  {
  }

  // ---------------------------------------------------------------- adding a node

  /** The words `insert_large_chunk` sets when it makes chunk `p` a tree node, and the word that points at it. */
  function NewNodeMem(m: Mem, p: Word, i: Word, up: Word, a: int): Mem {
    m[p + 28 := i][p + 16 := 0][p + 20 := 0][a := p][p + 24 := up][p + 8 := p][p + 12 := p]
  }

  /** Chunk `p` overlaps neither the state chunk nor a chunk of the tree. */
  ghost predicate NewHead(h: map<int, int>, t: Trie, msp: int, p: int) {
    && msp + STATE_SIZE <= p && p % 8 == 0
    && forall s :: s in t && s in h ==> h[s] + 32 <= p || p + 32 <= h[s]
  }

  lemma NewNodeWords(m: Mem, p: Word, i: Word, up: Word, a: int, q: int)
    requires q + 4 <= p || p + 32 <= q
    ensures Rd(NewNodeMem(m, p, i, up, a), q) == if q == a then p else Rd(m, q)
  {
  }

  lemma NewNodeOwn(m: Mem, p: Word, i: Word, up: Word, a: int)
    requires a + 4 <= p || p + 32 <= a
    ensures TreeWords(NewNodeMem(m, p, i, up, a), p, 0, 0, up, i)
    ensures Rd(NewNodeMem(m, p, i, up, a), p + 8) == p && Rd(NewNodeMem(m, p, i, up, a), p + 12) == p
  {
  }

  lemma InsertRootMem(m: Mem, h: map<int, int>, t: Trie, roots: seq<int>, msp: int, p: Word, s: int, i: Word, a: Word)
    requires Wf(t, roots) && HeadsOk(h, t, msp) && NodesMem(m, h, t, roots, msp)
    requires NewHead(h, t, msp, p) && s !in h && s != 0 && s !in t
    requires i == Idx(s) && a == Slot(msp, i) && roots[i] == 0
    ensures NodesMem(NewNodeMem(m, p, i, a, a), h[s := p], InsertRoot(t, s), roots[i := s], msp)
  {
    hide Idx;
    var m', h', t', roots' := NewNodeMem(m, p, i, a, a), h[s := p], InsertRoot(t, s), roots[i := s];
    NewNodeOwn(m, p, i, a, a);
    forall z | z in t'
      ensures NodeMem(m', h', t', msp, z)
    {
      if z != s {
        RootOther(m, h, t, roots, msp, p, s, i, a, z);
      }
    }
    forall j | 0 <= j < 32
      ensures SlotMem(m', h', roots', msp, j)
    {
      assert SlotMem(m, h, roots, msp, j) && RootOk(t, roots[j], j);
      NewNodeWords(m, p, i, a, a, Slot(msp, j));
    }
  }

  lemma RootOther(m: Mem, h: map<int, int>, t: Trie, roots: seq<int>, msp: int, p: Word, s: int, i: Word, a: Word,
                  z: int)
    requires Wf(t, roots) && HeadsOk(h, t, msp) && NodesMem(m, h, t, roots, msp)
    requires NewHead(h, t, msp, p) && s !in h && s != 0 && s !in t && 0 <= i < 32 && a == Slot(msp, i) && z in t
    ensures NodeMem(NewNodeMem(m, p, i, a, a), h[s := p], InsertRoot(t, s), msp, z)
  {
    hide Wf;
    hide NewNodeMem;
    hide Rd;
    hide Idx;
    NeighboursNot(t, roots, z, s);
    assert NodeMem(m, h, t, msp, z) && HeadOk(h, msp, z);
    var q := h[z];
    NewNodeWords(m, p, i, a, a, q + 16);
    NewNodeWords(m, p, i, a, a, q + 20);
    NewNodeWords(m, p, i, a, a, q + 24);
    NewNodeWords(m, p, i, a, a, q + 28);
  }

  /** The neighbours of a node are nodes. */
  lemma NeighboursNot(t: Trie, roots: seq<int>, z: int, s: int)
    requires Wf(t, roots) && z in t && s !in t && s != 0
    ensures t[z].c0 != s && t[z].c1 != s && t[z].up != s
  {
    hide Idx;
    hide Pfx;
    assert NodeOk(t, roots, z);
    assert Child(t[z], 0) == t[z].c0 && Child(t[z], 1) == t[z].c1;
  }

  lemma InsertBelowMem(m: Mem, h: map<int, int>, t: Trie, roots: seq<int>, msp: int, p: Word, s: int, i: Word, u: int,
                       a: Word)
    requires Wf(t, roots) && HeadsOk(h, t, msp) && NodesMem(m, h, t, roots, msp)
    requires NewHead(h, t, msp, p) && s !in h && s != 0 && s !in t
    requires i == Idx(s) && u in t && t[u].level > 0 && 0 <= At(h, u) < W
    requires a == At(h, u) + 16 + 4 * Bit(s, t[u].level - 1)
    ensures NodesMem(NewNodeMem(m, p, i, At(h, u), a), h[s := p], InsertBelow(t, u, s), roots, msp)
  {
    hide Idx;
    hide Bit;
    hide Pfx;
    var up := At(h, u);
    var m', h', t' := NewNodeMem(m, p, i, up, a), h[s := p], InsertBelow(t, u, s);
    assert HeadOk(h, msp, u);
    NewNodeOwn(m, p, i, up, a);
    forall z | z in t'
      ensures NodeMem(m', h', t', msp, z)
    {
      if z == s {
        NeighboursUp(t, roots, u);
      } else {
        BelowOther(m, h, t, roots, msp, p, s, i, u, a, z);
      }
    }
    forall j | 0 <= j < |roots|
      ensures SlotMem(m', h', roots, msp, j)
    {
      assert SlotMem(m, h, roots, msp, j) && RootOk(t, roots[j], j);
      NewNodeWords(m, p, i, up, a, Slot(msp, j));
    }
  }

  lemma NeighboursUp(t: Trie, roots: seq<int>, u: int)
    requires Wf(t, roots) && u in t
    ensures u != 0 && LargeSize(u)
  {
    assert NodeOk(t, roots, u);
  }

  lemma BelowOther(m: Mem, h: map<int, int>, t: Trie, roots: seq<int>, msp: int, p: Word, s: int, i: Word, u: int,
                   a: Word, z: int)
    requires Wf(t, roots) && HeadsOk(h, t, msp) && NodesMem(m, h, t, roots, msp)
    requires NewHead(h, t, msp, p) && s !in h && s != 0 && s !in t
    requires i == Idx(s) && u in t && t[u].level > 0 && 0 <= At(h, u) < W
    requires a == At(h, u) + 16 + 4 * Bit(s, t[u].level - 1) && z in t
    ensures NodeMem(NewNodeMem(m, p, i, At(h, u), a), h[s := p], InsertBelow(t, u, s), msp, z)
  {
    hide Wf;
    hide NewNodeMem;
    hide Rd;
    hide Idx;
    hide Bit;
    hide Pfx;
    var up := At(h, u);
    NeighboursNot(t, roots, z, s);
    assert NodeMem(m, h, t, msp, z) && HeadOk(h, msp, z) && HeadOk(h, msp, u);
    if z != u {
      assert HeadsApart(h, z, u);
    }
    var q := h[z];
    NewNodeWords(m, p, i, up, a, q + 16);
    NewNodeWords(m, p, i, up, a, q + 20);
    NewNodeWords(m, p, i, up, a, q + 24);
    NewNodeWords(m, p, i, up, a, q + 28);
  }

  // ---------------------------------------------------------------- moving a chunk into a node's place

  /**
    The writes of `unlink_large_chunk` that give the chunk at `r` the place `a` and the children of the chunk at `x`.
   */
  function RelinkMem(m: Mem, a: int, x: int, r: Word, up: Word): Mem {
    var c0, c1 := Rd(m, x + 16), Rd(m, x + 20);
    var m1 := m[a := r][r + 24 := up];
    var m2 := if c0 != 0 then m1[r + 16 := c0][c0 + 24 := r] else m1;
    if c1 != 0 then m2[r + 20 := c1][c1 + 24 := r] else m2
  }

  /** Outside the chunk at `r`, only the place and the children's parent words change. */
  lemma RelinkWords(m: Mem, a: int, x: int, r: Word, up: Word, w: int)
    requires w < r || r + 32 <= w
    ensures var c0, c1 := Rd(m, x + 16), Rd(m, x + 20);
            Rd(RelinkMem(m, a, x, r, up), w) ==
            if w == a || (c0 != 0 && w == c0 + 24) || (c1 != 0 && w == c1 + 24) then r else Rd(m, w)
  {
  }

  lemma RelinkOwn(m: Mem, a: int, x: int, r: Word, up: Word)
    requires a < r || r + 32 <= a
    requires var c0 := Rd(m, x + 16); c0 == 0 || c0 + 24 < r || r + 32 <= c0 + 24
    requires var c1 := Rd(m, x + 20); c1 == 0 || c1 + 24 < r || r + 32 <= c1 + 24
    requires Rd(m, r + 16) == 0 && Rd(m, r + 20) == 0
    ensures TreeWords(RelinkMem(m, a, x, r, up), r, Rd(m, x + 16), Rd(m, x + 20), up, Rd(m, r + 28))
  {
  }

  /** What `RelinkOk` assumes: the chunk at `r`, of size `z`, may take the place of size `x`. */
  ghost predicate Relinkable(m: Mem, h: map<int, int>, t: Trie, roots: seq<int>, msp: int, x: int, z: int, r: Word) {
    && Wf(t, roots) && HeadsOk(h, t, msp) && NodesMem(m, h, t, roots, msp)
    && x in t && (z == x || z !in t) && z != 0 && Idx(z) == Idx(x)
    && NewHead(h, t, msp, r)
    && Rd(m, r + 16) == 0 && Rd(m, r + 20) == 0 && Rd(m, r + 28) == Idx(x)
  }

  lemma ChildHeads(m: Mem, h: map<int, int>, t: Trie, roots: seq<int>, msp: int, x: int)
    requires Wf(t, roots) && HeadsOk(h, t, msp) && NodesMem(m, h, t, roots, msp) && x in t
    ensures Rd(m, h[x] + 16) == At(h, t[x].c0) && Rd(m, h[x] + 20) == At(h, t[x].c1)
    ensures t[x].c0 != 0 ==> t[x].c0 in t && HeadOk(h, msp, t[x].c0) && t[t[x].c0].up == x
    ensures t[x].c1 != 0 ==> t[x].c1 in t && HeadOk(h, msp, t[x].c1) && t[t[x].c1].up == x
    ensures Rd(m, h[x] + 24) == UpWord(h, msp, t[x], x)
    ensures x != 0
  {
    hide Idx;
    hide Pfx;
    assert NodeOk(t, roots, x) && HeadOk(h, msp, x);
    assert NodeMem(m, h, t, msp, x);
    assert Child(t[x], 0) == t[x].c0 && Child(t[x], 1) == t[x].c1;
  }

  /** The parent words that relinking changes are those of the children of `x`. */
  lemma ParentWord(m: Mem, h: map<int, int>, t: Trie, roots: seq<int>, msp: int, x: int, s: int)
    requires Wf(t, roots) && HeadsOk(h, t, msp) && NodesMem(m, h, t, roots, msp) && x in t && s in t
    ensures var c0, c1 := Rd(m, h[x] + 16), Rd(m, h[x] + 20);
            (c0 != 0 && c0 == h[s]) || (c1 != 0 && c1 == h[s]) <==> t[s].up == x
  {
    ChildHeads(m, h, t, roots, msp, x);
    NodeLinks(t, roots, s);
    hide Wf;
    hide Idx;
    hide Bit;
    hide NodesMem;
    assert HeadOk(h, msp, s);
    if t[x].c0 != 0 && t[x].c0 != s {
      assert HeadsApart(h, t[x].c0, s);
    }
    if t[x].c1 != 0 && t[x].c1 != s {
      assert HeadsApart(h, t[x].c1, s);
    }
  }

  /** No child word or index word is the parent word of a child of `x`. */
  lemma ChildApart(m: Mem, h: map<int, int>, t: Trie, roots: seq<int>, msp: int, x: int, s: int, w: int)
    requires Wf(t, roots) && HeadsOk(h, t, msp) && NodesMem(m, h, t, roots, msp) && x in t && s in t
    requires w == 16 || w == 20 || w == 28
    ensures var c0, c1 := Rd(m, h[x] + 16), Rd(m, h[x] + 20);
            (c0 != 0 ==> h[s] + w != c0 + 24) && (c1 != 0 ==> h[s] + w != c1 + 24)
  {
    ChildHeads(m, h, t, roots, msp, x);
    hide Wf;
    hide Idx;
    hide NodesMem;
    assert HeadOk(h, msp, s);
    if t[x].c0 != 0 && t[x].c0 != s {
      assert HeadsApart(h, t[x].c0, s);
    }
    if t[x].c1 != 0 && t[x].c1 != s {
      assert HeadsApart(h, t[x].c1, s);
    }
  }

  /** The words of another node `s` after relinking. */
  lemma RelinkNode(m: Mem, h: map<int, int>, t: Trie, roots: seq<int>, msp: int, x: int, z: int, r: Word, s: int)
    requires Relinkable(m, h, t, roots, msp, x, z, r) && s in t && s != x
    ensures var m' := RelinkMem(m, PlaceSlot(h, t, msp, x), h[x], r, Rd(m, h[x] + 24));
            TreeWords(m', h[s],
                      if t[s].c0 == x then r else Rd(m, h[s] + 16),
                      if t[s].c1 == x then r else Rd(m, h[s] + 20),
                      if t[s].up == x then r else Rd(m, h[s] + 24),
                      Rd(m, h[s] + 28))
  {
    hide Wf;
    hide HeadsOk;
    hide NodesMem;
    hide NewHead;
    hide Idx;
    hide Bit;
    hide PlaceSlot;
    hide RelinkMem;
    hide Rd;
    ChildPlace(h, t, roots, msp, x, s, 0);
    ChildPlace(h, t, roots, msp, x, s, 1);
    PlaceApart(h, t, roots, msp, x, s);
    ParentWord(m, h, t, roots, msp, x, s);
    ChildApart(m, h, t, roots, msp, x, s, 16);
    ChildApart(m, h, t, roots, msp, x, s, 20);
    ChildApart(m, h, t, roots, msp, x, s, 28);
    HeadFacts(h, t, msp, s, r);
    HeadFacts(h, t, msp, x, r);
    var a, up, q := PlaceSlot(h, t, msp, x), Rd(m, h[x] + 24), h[s];
    RelinkWords(m, a, h[x], r, up, q + 16);
    RelinkWords(m, a, h[x], r, up, q + 20);
    RelinkWords(m, a, h[x], r, up, q + 24);
    RelinkWords(m, a, h[x], r, up, q + 28);
  }

  lemma HeadFacts(h: map<int, int>, t: Trie, msp: int, s: int, r: int)
    requires HeadsOk(h, t, msp) && NewHead(h, t, msp, r) && s in t
    ensures s in h && At(h, s) == h[s] && 0 < h[s] && (h[s] + 32 <= r || r + 32 <= h[s])
  {
    assert HeadOk(h, msp, s);
  }

  lemma ReplaceNode(t: Trie, roots: seq<int>, x: int, z: int, s: int)
    requires Wf(t, roots) && x in t && (z == x || z !in t) && z != 0 && s in t && s != x
    ensures s in Replace(t, x, z)
    ensures Replace(t, x, z)[s] == Node(t[s].level, Subst(t[s].up, x, z), Subst(t[s].c0, x, z), Subst(t[s].c1, x, z))
    ensures z != x ==> t[s].up != z && t[s].c0 != z && t[s].c1 != z
    ensures x != 0
  {
    if z != x {
      NeighboursNot(t, roots, s, z);
    }
    assert NodeOk(t, roots, x);
  }

  lemma RelinkOther(m: Mem, h: map<int, int>, t: Trie, roots: seq<int>, msp: int, x: int, z: int, r: Word, s: int)
    requires Relinkable(m, h, t, roots, msp, x, z, r) && s in t && s != x
    ensures var m' := RelinkMem(m, PlaceSlot(h, t, msp, x), h[x], r, Rd(m, h[x] + 24));
            && s in Replace(t, x, z)
            && NodeMem(m', h[z := r], Replace(t, x, z), msp, s)
  {
    hide Wf;
    hide HeadsOk;
    hide NewHead;
    hide Idx;
    hide PlaceSlot;
    hide RelinkMem;
    hide Rd;
    hide Replace;
    RelinkNode(m, h, t, roots, msp, x, z, r, s);
    ReplaceNode(t, roots, x, z, s);
    HeadFacts(h, t, msp, s, r);
    HeadFacts(h, t, msp, x, r);
    assert NodeMem(m, h, t, msp, s);
  }

  lemma RelinkSelf(m: Mem, h: map<int, int>, t: Trie, roots: seq<int>, msp: int, x: int, z: int, r: Word)
    requires Relinkable(m, h, t, roots, msp, x, z, r)
    ensures var m' := RelinkMem(m, PlaceSlot(h, t, msp, x), h[x], r, Rd(m, h[x] + 24));
            && z in Replace(t, x, z)
            && NodeMem(m', h[z := r], Replace(t, x, z), msp, z)
  {
    hide Wf;
    hide HeadsOk;
    hide NewHead;
    hide Idx;
    hide PlaceSlot;
    hide RelinkMem;
    hide Rd;
    hide Replace;
    hide NodesMem;
    hide HeadOk;
    ChildHeads(m, h, t, roots, msp, x);
    PlaceOutside(h, t, roots, msp, x, r);
    SelfNode(t, roots, x, z);
    HeadFacts(h, t, msp, x, r);
    if t[x].c0 != 0 {
      HeadFacts(h, t, msp, t[x].c0, r);
    }
    if t[x].c1 != 0 {
      HeadFacts(h, t, msp, t[x].c1, r);
    }
    NoHeadZero(h, t, msp);
    RelinkOwn(m, PlaceSlot(h, t, msp, x), h[x], r, Rd(m, h[x] + 24));
  }

  lemma NoHeadZero(h: map<int, int>, t: Trie, msp: int)
    requires HeadsOk(h, t, msp)
    ensures 0 !in h
  {
  }

  lemma SelfNode(t: Trie, roots: seq<int>, x: int, z: int)
    requires Wf(t, roots) && x in t && (z == x || z !in t) && z != 0
    ensures z in Replace(t, x, z) && Replace(t, x, z)[z] == t[x]
    ensures t[x].up != z && t[x].c0 != z && t[x].c1 != z
  {
    hide Idx;
    assert NodeOk(t, roots, x);
    assert Child(t[x], 0) == t[x].c0 && Child(t[x], 1) == t[x].c1;
  }

  lemma PlaceOutside(h: map<int, int>, t: Trie, roots: seq<int>, msp: int, x: int, r: int)
    requires Wf(t, roots) && HeadsOk(h, t, msp) && x in t && NewHead(h, t, msp, r)
    ensures var a := PlaceSlot(h, t, msp, x); a + 4 <= r || r + 32 <= a
  {
    NodeLinks(t, roots, x);
    hide Idx;
    hide Bit;
    hide Wf;
    if t[x].up != 0 {
      assert HeadOk(h, msp, t[x].up);
    }
  }

  lemma RelinkSlots(m: Mem, h: map<int, int>, t: Trie, roots: seq<int>, msp: int, x: int, z: int, r: Word, i: int)
    requires Relinkable(m, h, t, roots, msp, x, z, r) && 0 <= i < 32
    ensures var m' := RelinkMem(m, PlaceSlot(h, t, msp, x), h[x], r, Rd(m, h[x] + 24));
            SlotMem(m', h[z := r], SubstRoots(roots, x, z), msp, i)
  {
    hide Idx;
    hide RelinkMem;
    hide PlaceSlot;
    hide NodeOk;
    ChildHeads(m, h, t, roots, msp, x);
    RootPlace(h, t, roots, msp, x, i);
    assert SlotMem(m, h, roots, msp, i) && RootOk(t, roots[i], i);
    assert HeadOk(h, msp, x);
    var a := PlaceSlot(h, t, msp, x);
    RelinkWords(m, a, h[x], r, Rd(m, h[x] + 24), Slot(msp, i));
  }

  /** The chunk at `r` takes over the node of size `x`. */
  lemma RelinkOk(m: Mem, h: map<int, int>, t: Trie, roots: seq<int>, msp: int, x: int, z: int, r: Word)
    requires Relinkable(m, h, t, roots, msp, x, z, r)
    ensures var m' := RelinkMem(m, PlaceSlot(h, t, msp, x), h[x], r, Rd(m, h[x] + 24));
            NodesMem(m', h[z := r], Replace(t, x, z), SubstRoots(roots, x, z), msp)
  {
    hide Idx;
    hide RelinkMem;
    hide PlaceSlot;
    hide NodeMem;
    hide SlotMem;
    var t', roots', h' := Replace(t, x, z), SubstRoots(roots, x, z), h[z := r];
    var m' := RelinkMem(m, PlaceSlot(h, t, msp, x), h[x], r, Rd(m, h[x] + 24));
    forall s | s in t'
      ensures NodeMem(m', h', t', msp, s)
    {
      if s == z {
        RelinkSelf(m, h, t, roots, msp, x, z, r);
      } else {
        RelinkOther(m, h, t, roots, msp, x, z, r, s);
      }
    }
    forall i | 0 <= i < |roots'|
      ensures SlotMem(m', h', roots', msp, i)
    {
      RelinkSlots(m, h, t, roots, msp, x, z, r, i);
    }
  }
}
