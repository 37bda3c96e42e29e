/**
  The tries of the treebins, seen as a map from chunk sizes to nodes.  A node of size `s` at level `k` stands for
  the sizes that share its prefix above bit `k`; its children split that range on bit `k - 1`.
 */
module HeapTries {
  import opened Words
  import opened HeapWords
  import opened HeapTreeIndex

  /** Neighbours are named by their sizes; 0 means none. */
  datatype Node = Node(level: nat, up: int, c0: int, c1: int)

  type Trie = map<int, Node>

  function Child(n: Node, b: int): int {
    if b == 0 then n.c0 else n.c1
  }

  predicate LargeSize(s: int) {
    MIN_LARGE_SIZE <= s < W && s % 8 == 0
  }

  /** The treebin of a size, total so that invariants can mention it freely. */
  function Idx(s: int): (i: int)
    ensures 0 <= i < 32
  {
    if 0 <= s < W then TreeIndex(s) else 0
  }

  /** `s` hangs off `u` on the side its own bits choose. */
  ghost predicate ParentOk(t: Trie, u: int, s: int)
    requires u in t && s in t
  {
    && t[u].level == t[s].level + 1
    && Idx(u) == Idx(s)
    && Pfx(u, t[u].level) == Pfx(s, t[u].level)
    && Child(t[u], Bit(s, t[s].level)) == s
  }

  ghost predicate ChildOk(t: Trie, s: int, b: int)
    requires s in t
  {
    var c := Child(t[s], b);
    c != 0 ==> c in t && t[c].up == s && Bit(c, t[c].level) == b
  }

  ghost predicate NodeOk(t: Trie, roots: seq<int>, s: int)
    requires |roots| == 32 && s in t
  {
    && LargeSize(s)
    && 3 <= t[s].level <= RootLevel(Idx(s))
    && (t[s].up == 0 <==> t[s].level == RootLevel(Idx(s)))
    && (t[s].up == 0 ==> roots[Idx(s)] == s)
    && (t[s].up != 0 ==> t[s].up in t && ParentOk(t, t[s].up, s))
    && ChildOk(t, s, 0)
    && ChildOk(t, s, 1)
  }

  ghost predicate RootOk(t: Trie, r: int, i: int) {
    r != 0 ==> r in t && Idx(r) == i && t[r].up == 0
  }

  /** Every treebin is a well-formed trie. */
  ghost predicate Wf(t: Trie, roots: seq<int>) {
    && |roots| == 32
    && (forall s :: s in t ==> NodeOk(t, roots, s))
    && (forall i :: 0 <= i < 32 ==> RootOk(t, roots[i], i))
  }

  /** `s` lies in the subtree of `x`. */
  ghost predicate InSub(t: Trie, x: int, s: int) {
    && x in t && s in t
    && Idx(s) == Idx(x)
    && t[s].level <= t[x].level
    && Pfx(s, t[x].level) == Pfx(x, t[x].level)
  }

  lemma PfxStep(s: int, k: nat)
    ensures Pfx(s, k) == 2 * Pfx(s, k + 1) + Bit(s, k)
  {
  }

  /** A place in the trie holds one size. */
  lemma {:induction false} SamePlace(t: Trie, roots: seq<int>, a: int, b: int)
    requires Wf(t, roots) && a in t && b in t && Idx(a) == Idx(b) && t[a].level == t[b].level
    requires Pfx(a, t[a].level) == Pfx(b, t[a].level)
    ensures a == b
    decreases RootLevel(Idx(a)) - t[a].level
  {
    hide Idx;
    assert NodeOk(t, roots, a) && NodeOk(t, roots, b);
    if t[a].level < RootLevel(Idx(a)) {
      var u, v, k := t[a].up, t[b].up, t[a].level;
      PfxUp(a, b, k, k + 1);
      SamePlace(t, roots, u, v);
    }
  }

  /** A size of a subtree other than its root lies in the subtree of the child its bit selects. */
  lemma {:induction false} SubSplit(t: Trie, roots: seq<int>, x: int, s: int)
    requires Wf(t, roots) && InSub(t, x, s) && s != x
    ensures t[x].level > t[s].level
    ensures var c := Child(t[x], Bit(s, t[x].level - 1)); c != 0 && InSub(t, c, s)
    decreases t[x].level - t[s].level
  {
    hide Idx;
    hide Pfx;
    assert NodeOk(t, roots, x) && NodeOk(t, roots, s);
    var k, m := t[x].level, t[s].level;
    if k == m {
      SamePlace(t, roots, x, s);
    } else {
      var u := t[s].up;
      if t[u].level == k {
        SamePlace(t, roots, u, x);
      } else {
        assert NodeOk(t, roots, u);
        PfxUp(u, s, t[u].level, k);
        PfxUp(u, s, t[u].level, k - 1);
        SubSplit(t, roots, x, u);
        var c := Child(t[x], Bit(u, k - 1));
        PfxUp(u, s, t[u].level, t[c].level);
      }
    }
  }

  /** Every size of a treebin lies below its root. */
  lemma {:induction false} RootHas(t: Trie, roots: seq<int>, s: int)
    requires Wf(t, roots) && s in t
    ensures roots[Idx(s)] != 0 && InSub(t, roots[Idx(s)], s)
    decreases RootLevel(Idx(s)) - t[s].level
  {
    assert NodeOk(t, roots, s);
    if t[s].up != 0 {
      RootHas(t, roots, t[s].up);
    }
    var r := roots[Idx(s)];
    assert NodeOk(t, roots, r);
    SameBinPrefix(s, r);
  }

  /** Sizes below the left child are smaller than sizes below the right child. */
  lemma LeftBelowRight(t: Trie, roots: seq<int>, x: int, a: int, b: int)
    requires Wf(t, roots) && x in t && t[x].c0 != 0 && t[x].c1 != 0
    requires InSub(t, t[x].c0, a) && InSub(t, t[x].c1, b)
    ensures a < b
  {
    hide Wf;
    hide Idx;
    hide Pfx;
    var l, r := t[x].c0, t[x].c1;
    ChildPrefix(t, roots, x, 0);
    ChildPrefix(t, roots, x, 1);
    PfxOrder(a, b, t[l].level);
  }

  /** A child's prefix is its parent's, one bit longer. */
  lemma ChildPrefix(t: Trie, roots: seq<int>, x: int, b: int)
    requires Wf(t, roots) && x in t && 0 <= b <= 1 && Child(t[x], b) != 0
    ensures var c := Child(t[x], b);
            c in t && t[c].level + 1 == t[x].level && Pfx(c, t[c].level) == 2 * Pfx(x, t[x].level) + b
  {
    hide Idx;
    hide Pfx;
    hide RootLevel;
    assert NodeOk(t, roots, x);
    var c := Child(t[x], b);
    assert NodeOk(t, roots, c);
    PfxStep(c, t[c].level);
  }

  /** `leftmost_child`. */
  function LeftmostChild(n: Node): int {
    if n.c0 != 0 then n.c0 else n.c1
  }

  /** One step of the walk to the smallest size of a subtree. */
  lemma LeftmostStep(t: Trie, roots: seq<int>, x: int, s: int)
    requires Wf(t, roots) && InSub(t, x, s) && s != x
    ensures var c := LeftmostChild(t[x]); c != 0 && c in t && (InSub(t, c, s) || c < s)
  {
    hide Idx;
    hide Pfx;
    SubSplit(t, roots, x, s);
    assert NodeOk(t, roots, x);
    if t[x].c0 != 0 && InSub(t, t[x].c1, s) {
      assert Child(t[x], 0) == t[x].c0 && Child(t[x], 1) == t[x].c1;
      LeftBelowRight(t, roots, x, t[x].c0, s);
    }
  }

  /** Adds `s` as the only node of its treebin. */
  ghost function InsertRoot(t: Trie, s: int): Trie {
    t[s := Node(RootLevel(Idx(s)), 0, 0, 0)]
  }

  lemma InsertRootOk(t: Trie, roots: seq<int>, s: int)
    requires Wf(t, roots) && LargeSize(s) && roots[Idx(s)] == 0
    ensures s !in t && Wf(InsertRoot(t, s), roots[Idx(s) := s])
  {
    hide NodeOk;
    hide Idx;
    hide RootLevel;
    var t', roots' := InsertRoot(t, s), roots[Idx(s) := s];
    if s in t {
      RootHas(t, roots, s);
    }
    forall q | q in t'
      ensures NodeOk(t', roots', q)
    {
      InsertRootNode(t, roots, s, q);
    }
    forall i | 0 <= i < 32
      ensures RootOk(t', roots'[i], i)
    {
      assert RootOk(t, roots[i], i);
    }
  }

  lemma InsertRootNode(t: Trie, roots: seq<int>, s: int, q: int)
    requires Wf(t, roots) && LargeSize(s) && roots[Idx(s)] == 0 && s !in t && q in InsertRoot(t, s)
    ensures NodeOk(InsertRoot(t, s), roots[Idx(s) := s], q)
  {
    hide Idx;
    hide Pfx;
    if q != s {
      assert NodeOk(t, roots, q);
      RootHas(t, roots, q);
    }
  }

  function SetChild(n: Node, b: int, c: int): Node {
    if b == 0 then n.(c0 := c) else n.(c1 := c)
  }

  /** Adds `s` below `u`, on the side its bit selects. */
  ghost function InsertBelow(t: Trie, u: int, s: int): Trie
    requires u in t && t[u].level > 0
  {
    var k := t[u].level - 1;
    t[u := SetChild(t[u], Bit(s, k), s)][s := Node(k, u, 0, 0)]
  }

  /** The walk for `s` may stop at a missing child. */
  lemma InsertBelowOk(t: Trie, roots: seq<int>, u: int, s: int)
    requires Wf(t, roots) && LargeSize(s) && u in t && u != s && s !in t
    requires Idx(u) == Idx(s) && Pfx(u, t[u].level) == Pfx(s, t[u].level)
    requires t[u].level > 0 && Child(t[u], Bit(s, t[u].level - 1)) == 0
    ensures t[u].level > 3 && Wf(InsertBelow(t, u, s), roots)
  {
    hide NodeOk;
    hide Idx;
    hide Pfx;
    hide Bit;
    DeepEnough(t, roots, u, s);
    var t' := InsertBelow(t, u, s);
    forall q | q in t'
      ensures NodeOk(t', roots, q)
    {
      InsertBelowNode(t, roots, u, s, q);
    }
    forall i | 0 <= i < 32
      ensures RootOk(t', roots[i], i)
    {
      assert RootOk(t, roots[i], i);
    }
  }

  /** Two sizes that still agree at a node have a bit left to tell them apart. */
  lemma DeepEnough(t: Trie, roots: seq<int>, u: int, s: int)
    requires Wf(t, roots) && LargeSize(s) && u in t && u != s && Pfx(u, t[u].level) == Pfx(s, t[u].level)
    ensures t[u].level > 3
  {
    hide Idx;
    assert NodeOk(t, roots, u);
    if t[u].level == 3 {
      PfxThree(u, s);
    }
  }

  lemma InsertBelowNode(t: Trie, roots: seq<int>, u: int, s: int, q: int)
    requires Wf(t, roots) && LargeSize(s) && u in t && u != s && s !in t
    requires Idx(u) == Idx(s) && Pfx(u, t[u].level) == Pfx(s, t[u].level)
    requires t[u].level > 3 && Child(t[u], Bit(s, t[u].level - 1)) == 0 && q in InsertBelow(t, u, s)
    ensures NodeOk(InsertBelow(t, u, s), roots, q)
  {
    hide Idx;
    hide Pfx;
    hide Bit;
    hide RootLevel;
    var t' := InsertBelow(t, u, s);
    assert NodeOk(t, roots, u);
    if q != s {
      assert NodeOk(t, roots, q);
      InsertBelowChild(t, roots, u, s, q, 0);
      InsertBelowChild(t, roots, u, s, q, 1);
    }
  }

  lemma InsertBelowChild(t: Trie, roots: seq<int>, u: int, s: int, q: int, b: int)
    requires Wf(t, roots) && LargeSize(s) && u in t && u != s && s !in t && q in t && 0 <= b <= 1
    requires t[u].level > 3 && Child(t[u], Bit(s, t[u].level - 1)) == 0
    ensures ChildOk(InsertBelow(t, u, s), q, b)
  {
    hide Idx;
    hide Pfx;
    hide Bit;
    hide RootLevel;
    assert NodeOk(t, roots, q);
    var c := Child(t[q], b);
    assert c != 0 ==> NodeOk(t, roots, c);
  }

  function Drop(v: int, x: int): int {
    if v == x then 0 else v
  }

  /** Removes the leaf `x`. */
  ghost function RemoveLeaf(t: Trie, x: int): Trie {
    map s | s in t && s != x :: Node(t[s].level, t[s].up, Drop(t[s].c0, x), Drop(t[s].c1, x))
  }

  ghost function DropRoots(roots: seq<int>, x: int): (r: seq<int>)
    ensures |r| == |roots|
  {
    seq(|roots|, i requires 0 <= i < |roots| => Drop(roots[i], x))
  }

  lemma RemoveLeafOk(t: Trie, roots: seq<int>, x: int)
    requires Wf(t, roots) && x in t && t[x].c0 == 0 && t[x].c1 == 0
    ensures Wf(RemoveLeaf(t, x), DropRoots(roots, x))
  {
    hide Idx;
    hide Pfx;
    hide Bit;
    var t', roots' := RemoveLeaf(t, x), DropRoots(roots, x);
    assert NodeOk(t, roots, x);
    forall s | s in t'
      ensures NodeOk(t', roots', s)
    {
      assert NodeOk(t, roots, s);
      assert ChildOk(t', s, 0) && ChildOk(t', s, 1);
      assert t[s].up != x;
    }
    forall i | 0 <= i < 32
      ensures RootOk(t', roots'[i], i)
    {
      assert RootOk(t, roots[i], i);
    }
  }

  function Subst(v: int, x: int, r: int): int {
    if v == x then r else v
  }

  /** Puts the absent size `r` in the place of `x`. */
  ghost function Replace(t: Trie, x: int, r: int): Trie
    requires x in t
  {
    map s | s in t.Keys - {x} + {r} ::
      var n := t[if s == r || s !in t then x else s];
      Node(n.level, Subst(n.up, x, r), Subst(n.c0, x, r), Subst(n.c1, x, r))
  }

  ghost function SubstRoots(roots: seq<int>, x: int, r: int): (q: seq<int>)
    ensures |q| == |roots|
  {
    seq(|roots|, i requires 0 <= i < |roots| => Subst(roots[i], x, r))
  }

  lemma NodeSize(t: Trie, roots: seq<int>, x: int)
    requires Wf(t, roots) && x in t
    ensures LargeSize(x) && x != 0
  {
    assert NodeOk(t, roots, x);
  }

  /** Any size that shares `x`'s prefix may take its place. */
  lemma ReplaceOk(t: Trie, roots: seq<int>, x: int, r: int)
    requires Wf(t, roots) && x in t && r !in t && LargeSize(r)
    requires Idx(r) == Idx(x) && Pfx(r, t[x].level) == Pfx(x, t[x].level)
    ensures Wf(Replace(t, x, r), SubstRoots(roots, x, r))
  {
    hide Idx;
    hide NodeOk;
    hide Pfx;
    var t', roots' := Replace(t, x, r), SubstRoots(roots, x, r);
    NodeSize(t, roots, x);
    PfxUp(r, x, t[x].level, t[x].level + 1);
    forall s | s in t'
      ensures NodeOk(t', roots', s)
    {
      ReplaceNodeOk(t, roots, x, r, s);
    }
    forall i | 0 <= i < 32
      ensures RootOk(t', roots'[i], i)
    {
      assert RootOk(t, roots[i], i);
    }
  }

  lemma ReplaceNodeOk(t: Trie, roots: seq<int>, x: int, r: int, s: int)
    requires Wf(t, roots) && x in t && r !in t && LargeSize(r) && s in Replace(t, x, r)
    requires Idx(r) == Idx(x) && Pfx(r, t[x].level) == Pfx(x, t[x].level)
    requires Pfx(r, t[x].level + 1) == Pfx(x, t[x].level + 1) && Bit(r, t[x].level) == Bit(x, t[x].level)
    ensures NodeOk(Replace(t, x, r), SubstRoots(roots, x, r), s)
  {
    hide Idx;
    hide Pfx;
    hide Bit;
    hide RootLevel;
    var t' := Replace(t, x, r);
    assert NodeOk(t, roots, x);
    var o := if s == r then x else s;
    assert NodeOk(t, roots, o);
    ReplaceChildOk(t, roots, x, r, s, 0);
    ReplaceChildOk(t, roots, x, r, s, 1);
    hide ChildOk;
    if t[o].up != 0 {
      ReplaceParentOk(t, roots, x, r, s);
    }
    hide ParentOk;
  }

  lemma ReplaceParentOk(t: Trie, roots: seq<int>, x: int, r: int, s: int)
    requires Wf(t, roots) && x in t && r !in t && LargeSize(r) && s in Replace(t, x, r)
    requires Idx(r) == Idx(x) && Pfx(r, t[x].level) == Pfx(x, t[x].level)
    requires Pfx(r, t[x].level + 1) == Pfx(x, t[x].level + 1) && Bit(r, t[x].level) == Bit(x, t[x].level)
    requires Replace(t, x, r)[s].up != 0
    ensures var t' := Replace(t, x, r); t'[s].up in t' && ParentOk(t', t'[s].up, s)
  {
    hide Idx;
    hide Pfx;
    hide Bit;
    hide RootLevel;
    hide ChildOk;
    var o := if s == r then x else s;
    assert NodeOk(t, roots, x) && NodeOk(t, roots, o);
  }

  lemma ReplaceChildOk(t: Trie, roots: seq<int>, x: int, r: int, s: int, b: int)
    requires Wf(t, roots) && x in t && r !in t && LargeSize(r) && s in Replace(t, x, r) && 0 <= b <= 1
    requires Bit(r, t[x].level) == Bit(x, t[x].level)
    ensures ChildOk(Replace(t, x, r), s, b)
  {
    hide Idx;
    hide Pfx;
    hide Bit;
    hide RootLevel;
    var o := if s == r then x else s;
    assert NodeOk(t, roots, x) && NodeOk(t, roots, o);
    var c := Child(t[o], b);
    assert c != 0 ==> NodeOk(t, roots, c);
  }
}
