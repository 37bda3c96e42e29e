/** The search for the best fit among the treebins, on tries of sizes. */
module HeapFit {
  import opened Words
  import opened HeapWords
  import opened HeapBinMaps
  import opened HeapTreeIndex
  import opened HeapTries
  import opened HeapWalk
  import opened HeapTrieMem
  import opened HeapBins
  import opened HeapLargeBins
  import opened HeapLargeUnlink
  import opened HeapMacros
  import opened HeapAlloc

  /** The better fit of `v`, 0 for none yet, and `x`. */
  function Better(v: int, x: int, nb: int): int {
    if x >= nb && (v == 0 || x < v) then x else v
  }

  /** `v` is at least as good a fit as `s`, or a size at or below the node `x` is. */
  ghost predicate Covered(t: Trie, s: int, x: int, v: int) {
    || (v != 0 && v <= s)
    || (x != 0 && x in t && (InSub(t, x, s) || x <= s))
  }

  /** `v`, if any, is a size that fits. */
  ghost predicate Fit(t: Trie, nb: int, v: int) {
    v != 0 ==> v in t && v >= nb
  }

  /** The subtree of `r` hangs to the right of the path for `nb`, at or above level `k`. */
  ghost predicate RightOf(t: Trie, r: int, nb: int, k: nat) {
    && r in t && Idx(r) == Idx(nb) && k <= t[r].level && t[r].level >= 0
    && Pfx(nb, t[r].level) < Pfx(r, t[r].level)
  }

  /** The sizes of the treebin of `nb` that fit. */
  ghost predicate Here(t: Trie, nb: int, s: int) {
    s in t && s >= nb && Idx(s) == Idx(nb)
  }

  /** The walk for `nb` stands at `u`; `r` is the deepest right subtree it did not take, `v` the best fit so far. */
  ghost predicate Searching(t: Trie, nb: int, k: nat, u: int, r: int, v: int) {
    && OnPath(t, u, nb, k)
    && (r != 0 ==> RightOf(t, r, nb, k))
    && Fit(t, nb, v) && (v != 0 ==> Idx(v) == Idx(nb))
    && forall s :: Here(t, nb, s) ==> Covered(t, s, r, v) || InSub(t, u, s)
  }

  /** After the walk: what remains to be searched is the subtree `x`. */
  ghost predicate Searched(t: Trie, nb: int, x: int, v: int) {
    && (x != 0 ==> RightOf(t, x, nb, 0))
    && Fit(t, nb, v) && (v != 0 ==> Idx(v) == Idx(nb))
    && forall s :: Here(t, nb, s) ==> Covered(t, s, x, v)
  }

  ghost predicate AllAbove(t: Trie, x: int, nb: int) {
    forall s :: InSub(t, x, s) ==> s >= nb
  }

  /** What remains to be searched for the best fit of all is the subtree `x`. */
  ghost predicate Narrowing(t: Trie, nb: int, x: int, v: int) {
    && (x != 0 ==> x in t && (v == nb || AllAbove(t, x, nb)))
    && Fit(t, nb, v)
    && forall s :: s in t && s >= nb ==> Covered(t, s, x, v)
  }

  /** `v` is the smallest size that fits, 0 if none does. */
  ghost predicate BestFit(t: Trie, nb: int, v: int) {
    && Fit(t, nb, v)
    && forall s :: s in t && s >= nb ==> v != 0 && v <= s
  }

  // ---------------------------------------------------------------- the walk

  lemma SearchStart(t: Trie, roots: seq<int>, nb: Word)
    requires Wf(t, roots) && LargeSize(nb) && roots[Idx(nb)] != 0
    ensures Searching(t, nb, RootLevel(Idx(nb)), roots[Idx(nb)], 0, 0)
  {
    PathStart(t, roots, nb);
    forall s | Here(t, nb, s)
      ensures InSub(t, roots[Idx(nb)], s)
    {
      RootHas(t, roots, s);
    }
  }

  lemma IdxIs(nb: Word)
    ensures Idx(nb) == TreeIndex(nb)
  {
  }

  /** An exact fit ends the search. */
  lemma SearchExact(t: Trie, nb: int, k: nat, u: int, r: int, v: int)
    requires Searching(t, nb, k, u, r, v) && u == nb && nb != 0
    ensures Narrowing(t, nb, u, Better(v, u, nb)) && Better(v, u, nb) == nb
  {
  }

  /** Every size on the path is smaller than those of a subtree to the right. */
  lemma RightBigger(t: Trie, r: int, nb: int, k: nat, x: int, s: int)
    requires RightOf(t, r, nb, k) && Pfx(x, k) == Pfx(nb, k) && (InSub(t, r, s) || r <= s)
    ensures x < s
  {
    hide Idx;
    hide Pfx;
    PfxUp(x, nb, k, t[r].level);
    if InSub(t, r, s) {
      PfxOrder(x, s, t[r].level);
    } else {
      PfxOrder(x, r, t[r].level);
    }
  }

  function NextRight(t: Trie, u: int, nb: int, k: nat, r: int): int {
    if u in t && k > 0 && Bit(nb, k - 1) == 0 && t[u].c1 != 0 then t[u].c1 else r
  }

  /** One size of the treebin stays covered as the walk moves on. */
  lemma StepCovers(t: Trie, roots: seq<int>, nb: int, k: nat, u: int, r: int, v: int, s: int)
    requires Wf(t, roots) && LargeSize(nb) && Searching(t, nb, k, u, r, v) && u != nb && k > 0 && Here(t, nb, s)
    ensures var r', v', c := NextRight(t, u, nb, k, r), Better(v, u, nb), Toward(t, u, nb, k);
            Covered(t, s, r', v') || (c != 0 && InSub(t, c, s))
  {
    hide Idx;
    hide Pfx;
    hide Wf;
    hide Searching;
    var b := Bit(nb, k - 1);
    if InSub(t, u, s) {
      SearchAt(t, nb, k, u, r, v);
      if s != u {
        SubSplit(t, roots, u, s);
        if Bit(s, k - 1) != b {
          PfxStep(s, k - 1);
          PfxStep(nb, k - 1);
          assert Pfx(s, k) == Pfx(nb, k);
          if b == 1 {
            PfxOrder(s, nb, k - 1);
          }
        }
      }
    } else {
      SearchCovers(t, nb, k, u, r, v, s);
      if v == 0 || v > s {
        if NextRight(t, u, nb, k, r) != r {
          SearchAt(t, nb, k, u, r, v);
          ChildPrefix(t, roots, u, 1);
          ChildAgrees(t, roots, u, nb, k);
          RightBigger(t, r, nb, k, t[u].c1, s);
        }
      }
    }
  }

  lemma SearchAt(t: Trie, nb: int, k: nat, u: int, r: int, v: int)
    requires Searching(t, nb, k, u, r, v)
    ensures u in t && t[u].level == k && Pfx(u, k) == Pfx(nb, k) && Idx(u) == Idx(nb) && 3 <= k <= 32
    ensures r != 0 ==> RightOf(t, r, nb, k)
    ensures OnPath(t, u, nb, k) && Fit(t, nb, v) && (v != 0 ==> Idx(v) == Idx(nb))
  {
  }

  lemma SearchCovers(t: Trie, nb: int, k: nat, u: int, r: int, v: int, s: int)
    requires Searching(t, nb, k, u, r, v) && Here(t, nb, s)
    ensures Covered(t, s, r, v) || InSub(t, u, s)
    ensures r != 0 ==> RightOf(t, r, nb, k)
  {
  }

  lemma ChildAgrees(t: Trie, roots: seq<int>, u: int, nb: int, k: nat)
    requires Wf(t, roots) && u in t && t[u].level == k && k > 0 && t[u].c1 != 0 && Pfx(u, k) == Pfx(nb, k)
    ensures t[u].c1 in t && Pfx(t[u].c1, k) == Pfx(nb, k) && t[t[u].c1].level == k - 1 && Idx(t[u].c1) == Idx(u)
    ensures Pfx(t[u].c1, k - 1) == 2 * Pfx(nb, k) + 1
  {
    hide Idx;
    ChildPrefix(t, roots, u, 1);
    PfxStep(t[u].c1, k - 1);
    PathBounds(t, roots, u, t[u].c1);
  }

  /** One step of the walk down the treebin of `nb`. */
  lemma SearchStep(t: Trie, roots: seq<int>, nb: int, k: nat, u: int, r: int, v: int)
    requires Wf(t, roots) && LargeSize(nb) && Searching(t, nb, k, u, r, v) && u != nb
    ensures k > 3
    ensures var r', v', c := NextRight(t, u, nb, k, r), Better(v, u, nb), Toward(t, u, nb, k);
            if c != 0 then Searching(t, nb, k - 1, c, r', v') else Searched(t, nb, r', v')
  {
    hide Idx;
    hide Pfx;
    hide Wf;
    hide OnPath;
    hide Searching;
    SearchAt(t, nb, k, u, r, v);
    PathStep(t, roots, u, nb, k);
    var r', v', c := NextRight(t, u, nb, k, r), Better(v, u, nb), Toward(t, u, nb, k);
    forall s | Here(t, nb, s)
      ensures Covered(t, s, r', v') || (c != 0 && InSub(t, c, s))
    {
      StepCovers(t, roots, nb, k, u, r, v, s);
    }
    if r' != r {
      ChildAgrees(t, roots, u, nb, k);
      PfxStep(nb, k - 1);
    }
    if c != 0 {
      SearchIs(t, nb, k - 1, c, r', v');
    }
  }

  lemma SearchIs(t: Trie, nb: int, k: nat, u: int, r: int, v: int)
    requires OnPath(t, u, nb, k) && (r != 0 ==> RightOf(t, r, nb, k)) && Fit(t, nb, v) && (v != 0 ==> Idx(v) == Idx(nb))
    requires forall s :: Here(t, nb, s) ==> Covered(t, s, r, v) || InSub(t, u, s)
    ensures Searching(t, nb, k, u, r, v)
  {
  }

  // ---------------------------------------------------------------- the smallest of a subtree

  lemma SizeOrder(a: int, b: int)
    requires LargeSize(a) && LargeSize(b) && Idx(a) < Idx(b)
    ensures a < b
  {
    if b <= a {
      IndexMono(b, a);
    }
  }

  /** Sizes of later treebins are larger than what the walk found. */
  lemma SearchedAll(t: Trie, roots: seq<int>, nb: int, x: int, v: int)
    requires Wf(t, roots) && LargeSize(nb) && Searched(t, nb, x, v) && (x != 0 || v != 0)
    ensures Narrowing(t, nb, x, v)
  {
    hide Idx;
    hide Pfx;
    if x != 0 {
      forall s | InSub(t, x, s)
        ensures s >= nb
      {
        PfxOrder(nb, s, t[x].level);
      }
    }
    forall s | s in t && s >= nb
      ensures Covered(t, s, x, v)
    {
      assert NodeOk(t, roots, s);
      if Idx(s) != Idx(nb) {
        if Idx(s) < Idx(nb) {
          SizeOrder(s, nb);
        }
        var y := if x != 0 then x else v;
        assert NodeOk(t, roots, y);
        SizeOrder(y, s);
      } else {
        assert Here(t, nb, s);
      }
    }
  }

  /** Nothing of the treebin of `nb` fits. */
  lemma NothingHere(t: Trie, roots: seq<int>, nb: int)
    requires Wf(t, roots) && roots[Idx(nb)] == 0
    ensures Searched(t, nb, 0, 0)
  {
    forall s | Here(t, nb, s)
      ensures false
    {
      RootHas(t, roots, s);
    }
  }

  /** The treebin `i` is the first one after that of `nb`. */
  lemma NextBin(t: Trie, roots: seq<int>, nb: int, i: int)
    requires Wf(t, roots) && LargeSize(nb) && Searched(t, nb, 0, 0) && Idx(nb) < i < 32 && roots[i] != 0
    requires forall j :: Idx(nb) < j < i ==> roots[j] == 0
    ensures Narrowing(t, nb, roots[i], 0)
  {
    hide Idx;
    hide Pfx;
    var x := roots[i];
    assert RootOk(t, x, i);
    forall s | InSub(t, x, s)
      ensures s >= nb
    {
      assert NodeOk(t, roots, s);
      SizeOrder(nb, s);
    }
    forall s | s in t && s >= nb
      ensures Covered(t, s, x, 0)
    {
      NextBinCovers(t, roots, nb, i, s);
    }
  }

  lemma NextBinCovers(t: Trie, roots: seq<int>, nb: int, i: int, s: int)
    requires Wf(t, roots) && LargeSize(nb) && Searched(t, nb, 0, 0) && Idx(nb) < i < 32 && roots[i] != 0
    requires forall j :: Idx(nb) < j < i ==> roots[j] == 0
    requires s in t && s >= nb
    ensures Covered(t, s, roots[i], 0)
  {
    hide Idx;
    hide Pfx;
    assert NodeOk(t, roots, s) && RootOk(t, roots[i], i);
    assert NodeOk(t, roots, roots[i]);
    RootHas(t, roots, s);
    assert Here(t, nb, s) ==> Covered(t, s, 0, 0);
    if Idx(s) < Idx(nb) {
      SizeOrder(s, nb);
    } else if i < Idx(s) {
      SizeOrder(roots[i], s);
    }
  }

  /** No treebin after that of `nb` holds anything. */
  lemma NoNextBin(t: Trie, roots: seq<int>, nb: int)
    requires Wf(t, roots) && LargeSize(nb) && Searched(t, nb, 0, 0)
    requires forall j :: Idx(nb) < j < 32 ==> roots[j] == 0
    ensures Narrowing(t, nb, 0, 0)
  {
    hide Idx;
    hide Pfx;
    forall s | s in t && s >= nb
      ensures false
    {
      assert NodeOk(t, roots, s);
      RootHas(t, roots, s);
      assert Here(t, nb, s) ==> Covered(t, s, 0, 0);
      if Idx(s) < Idx(nb) {
        SizeOrder(s, nb);
      }
    }
  }

  /** The first treebin of all holds the smallest size. */
  lemma FirstBin(t: Trie, roots: seq<int>, nb: int, i: int)
    requires Wf(t, roots) && nb <= MIN_LARGE_SIZE && 0 <= i < 32 && roots[i] != 0
    requires forall j :: 0 <= j < i ==> roots[j] == 0
    ensures Narrowing(t, nb, roots[i], 0)
  {
    hide Idx;
    hide Pfx;
    var x := roots[i];
    assert RootOk(t, x, i);
    assert NodeOk(t, roots, x);
    forall s | s in t
      ensures s >= nb && Covered(t, s, x, 0)
    {
      assert NodeOk(t, roots, s);
      RootHas(t, roots, s);
      if i < Idx(s) {
        SizeOrder(x, s);
      }
    }
  }

  lemma SubTrans(t: Trie, roots: seq<int>, x: int, c: int, s: int)
    requires Wf(t, roots) && x in t && c != 0 && (c == t[x].c0 || c == t[x].c1) && InSub(t, c, s)
    ensures InSub(t, x, s)
  {
    hide Idx;
    hide Pfx;
    var b := if c == t[x].c0 then 0 else 1;
    assert Child(t[x], b) == c;
    ChildPrefix(t, roots, x, b);
    PathBounds(t, roots, x, c);
    PfxStep(s, t[c].level);
    PfxStep(c, t[c].level);
  }

  /** One step of the walk to the smallest size. */
  lemma NarrowStep(t: Trie, roots: seq<int>, nb: int, x: int, v: int)
    requires Wf(t, roots) && Narrowing(t, nb, x, v) && x != 0
    ensures Narrowing(t, nb, LeftmostChild(t[x]), Better(v, x, nb))
    ensures LeftmostChild(t[x]) != 0 ==> LeftmostChild(t[x]) in t && 0 < t[LeftmostChild(t[x])].level < t[x].level
    ensures t[x].level > 0
  {
    hide Idx;
    hide Pfx;
    assert NodeOk(t, roots, x);
    assert LeftmostChild(t[x]) != 0 && LeftmostChild(t[x]) in t ==> NodeOk(t, roots, LeftmostChild(t[x]));
    var c, v' := LeftmostChild(t[x]), Better(v, x, nb);
    SelfSub(t, x);
    if c != 0 {
      var b := if c == t[x].c0 then 0 else 1;
      assert Child(t[x], b) == c;
      ChildPrefix(t, roots, x, b);
      if v != nb {
        forall s | InSub(t, c, s)
          ensures s >= nb
        {
          SubTrans(t, roots, x, c, s);
        }
      }
    }
    forall s | s in t && s >= nb
      ensures Covered(t, s, c, v')
    {
      assert Covered(t, s, x, v);
      if InSub(t, x, s) && s != x {
        LeftmostStep(t, roots, x, s);
      }
    }
  }

  lemma NarrowDone(t: Trie, nb: int, v: int)
    requires Narrowing(t, nb, 0, v)
    ensures BestFit(t, nb, v)
  {
    forall s | s in t && s >= nb
      ensures v != 0 && v <= s
    {
      assert Covered(t, s, 0, v);
    }
  }

  /** Unsigned remainders order the fits; sizes that are too small come out largest. */
  lemma Remainder(x: Word, nb: Word, v: int)
    requires v == 0 || nb <= v < W
    requires nb > 0 && x > 0
    ensures var rsize := if v == 0 then Neg(nb) else v - nb;
            && (Sub(x, nb) < rsize <==> Better(v, x, nb) == x && v != x)
            && (Better(v, x, nb) == x && v != x ==> Sub(x, nb) == x - nb)
  {
  }

  // ---------------------------------------------------------------- in memory

  /** The running remainder of a search, the unsigned negation of `nb` before anything fits. */
  function Rem(v: int, nb: Word): int {
    if v == 0 then Neg(nb) else v - nb
  }

  /** What a search reads at the node `x`. */
  lemma FitReads(m: Mem, smallmap: Word, treemap: Word, b: Bins, msp: int, hi: int, nb: Word, x: int, v: int)
    requires BinsOk(m, smallmap, treemap, b, msp, hi) && Sized(m, b.free) && x in b.trie && Fit(b.trie, nb, v) && nb > 0
    ensures var T := At(Heads(b), x);
            && 0 < T < W && 0 < x < W && T + 4 in m && T + 16 in m && T + 20 in m && ChunkSize(m[T + 4]) == x
            && m[T + 16] == At(Heads(b), b.trie[x].c0) && m[T + 20] == At(Heads(b), b.trie[x].c1)
            && (m[T + 16] == 0 <==> b.trie[x].c0 == 0) && (m[T + 20] == 0 <==> b.trie[x].c1 == 0)
            && (m[T + 20] != 0 ==> m[T + 16] != m[T + 20])
    ensures 0 <= Rem(v, nb) < W
    ensures Sub(x, nb) < Rem(v, nb) <==> Better(v, x, nb) == x && v != x
    ensures Better(v, x, nb) == x && v != x ==> Sub(x, nb) == Rem(x, nb)
    ensures Better(v, x, nb) == x || Better(v, x, nb) == v
    ensures Fit(b.trie, nb, Better(v, x, nb))
  {
    hide *;
    NodeReads(m, smallmap, treemap, b, msp, hi, x);
    NodeReadIs(m, b, x);
    NodeReads2(m, smallmap, treemap, b, msp, hi, x);
    LargeIs(x);
    BinsParts(m, smallmap, treemap, b, msp, hi);
    FitWord(b.trie, b.roots, nb, v);
    Remainder(x, nb, v);
    RemIs(v, nb);
    RemIs(x, nb);
    BetterIs(v, x, nb);
    FitBetter(b.trie, nb, x, v);
    TrieHeads(m, smallmap, treemap, b, msp, hi, x);
  }

  lemma LargeIs(x: int)
    requires LargeSize(x)
    ensures 0 < x < W && x % 8 == 0 && MIN_LARGE_SIZE <= x && 16 <= x
  {
  }

  lemma RemIs(v: int, nb: Word)
    ensures Rem(v, nb) == if v == 0 then Neg(nb) else v - nb
  {
  }

  lemma BetterIs(v: int, x: int, nb: int)
    ensures Better(v, x, nb) == if x >= nb && (v == 0 || x < v) then x else v
  {
  }

  lemma FitWord(t: Trie, roots: seq<int>, nb: Word, v: int)
    requires Wf(t, roots) && Fit(t, nb, v)
    ensures v == 0 || nb <= v < W
  {
    if v != 0 {
      assert NodeOk(t, roots, v);
    }
  }

  lemma FitBetter(t: Trie, nb: int, x: int, v: int)
    requires Fit(t, nb, v) && x in t
    ensures Fit(t, nb, Better(v, x, nb))
  {
  }

  /** The two children of a node are different chunks. */
  lemma TrieHeads(m: Mem, smallmap: Word, treemap: Word, b: Bins, msp: int, hi: int, x: int)
    requires BinsOk(m, smallmap, treemap, b, msp, hi) && x in b.trie
    ensures var h := Heads(b);
            At(h, b.trie[x].c1) != 0 ==> At(h, b.trie[x].c0) != At(h, b.trie[x].c1)
  {
    hide *;
    BinsParts(m, smallmap, treemap, b, msp, hi);
    TrieMemParts(m, b, msp);
    DomFacts(m, msp, hi);
    HeadsFine(b, msp, hi);
    HeadsInjective(Heads(b), b.trie, msp);
    NodeChildren(b.trie, b.roots, x);
    NodeChild1(b.trie, b.roots, x);
    AtZero(Heads(b));
    NoHeadZero(Heads(b), b.trie, msp);
  }

  lemma NodeChild1(t: Trie, roots: seq<int>, u: int)
    requires Wf(t, roots) && u in t
    ensures t[u].c1 != 0 ==> t[u].c1 in t
  {
    hide Idx;
    hide Pfx;
    assert NodeOk(t, roots, u);
    assert Child(t[u], 1) == t[u].c1;
  }

  /** From sizes to chunks: `v` is a smallest large chunk that fits. */
  ghost predicate BestChunk(free: map<int, int>, nb: int, v: int) {
    && (v != 0 ==> v in free && free[v] >= nb && free[v] >= MIN_LARGE_SIZE)
    && forall q :: q in free && free[q] >= nb && free[q] >= MIN_LARGE_SIZE ==> v != 0 && free[v] <= free[q]
  }

  lemma BestChunkIs(m: Mem, smallmap: Word, treemap: Word, b: Bins, msp: int, hi: int, nb: Word, v: int)
    requires BinsOk(m, smallmap, treemap, b, msp, hi) && BestFit(b.trie, nb, v)
    ensures var T := At(Heads(b), v);
            BestChunk(b.free, nb, T) && (T == 0 <==> v == 0) && (v != 0 ==> 0 < T < W && T in b.free && b.free[T] == v)
  {
    hide *;
    BinsParts(m, smallmap, treemap, b, msp, hi);
    TrieMemParts(m, b, msp);
    DomFacts(m, msp, hi);
    HeadsFine(b, msp, hi);
    AtZero(Heads(b));
    NoHeadZero(Heads(b), b.trie, msp);
    if v != 0 {
      BestIn(b.trie, nb, v);
      HeadInSegment(m, b, msp, hi, v);
      RingIs(b, v, Heads(b)[v]);
      NodeSize(b.trie, b.roots, v);
    }
    BestAll(b, nb, v, At(Heads(b), v));
  }

  lemma BestIn(t: Trie, nb: int, v: int)
    requires BestFit(t, nb, v) && v != 0
    ensures v in t
  {
  }

  lemma BestAll(b: Bins, nb: int, v: int, T: int)
    requires BestFit(b.trie, nb, v) && TrieKeys(b) && Members(b) && (T == 0 <==> v == 0)
    requires v != 0 ==> T in b.free && b.free[T] == v
    ensures BestChunk(b.free, nb, T)
  {
    assert forall q :: q in b.free ==> b.free[q] in b.rings;
  }

  /** The words a step of the search reads at the node of size `u`: where it goes, and the right subtree to remember. */
  ghost predicate SearchRead(m: Mem, b: Bins, nb: Word, u: int, k: nat, r: int, K: Word)
    requires u in b.trie && k > 0
  {
    var T, a := At(Heads(b), u), At(Heads(b), u) + 16 + 4 * TopBit(K);
    && 0 <= TopBit(K) <= 1 && a in m && T + 20 in m
    && m[a] == At(Heads(b), Toward(b.trie, u, nb, k)) && (m[a] == 0 <==> Toward(b.trie, u, nb, k) == 0)
    && At(Heads(b), NextRight(b.trie, u, nb, k, r))
       == if m[T + 20] != 0 && m[T + 20] != m[a] then m[T + 20] else At(Heads(b), r)
  }

  lemma SearchReadIs(m: Mem, b: Bins, nb: Word, u: int, k: nat, r: int, K: Word)
    requires u in b.trie && k > 0 && SearchRead(m, b, nb, u, k, r, K)
    ensures var T, a := At(Heads(b), u), At(Heads(b), u) + 16 + 4 * TopBit(K);
            && 0 <= TopBit(K) <= 1 && a in m && T + 20 in m
            && m[a] == At(Heads(b), Toward(b.trie, u, nb, k)) && (m[a] == 0 <==> Toward(b.trie, u, nb, k) == 0)
            && At(Heads(b), NextRight(b.trie, u, nb, k, r))
               == if m[T + 20] != 0 && m[T + 20] != m[a] then m[T + 20] else At(Heads(b), r)
  {
  }

  lemma SearchReadFrom(m: Mem, b: Bins, nb: Word, u: int, k: nat, r: int, K: Word)
    requires u in b.trie && k > 0
    requires var T, a := At(Heads(b), u), At(Heads(b), u) + 16 + 4 * TopBit(K);
             && 0 <= TopBit(K) <= 1 && a in m && T + 20 in m
             && m[a] == At(Heads(b), Toward(b.trie, u, nb, k)) && (m[a] == 0 <==> Toward(b.trie, u, nb, k) == 0)
             && At(Heads(b), NextRight(b.trie, u, nb, k, r))
                == if m[T + 20] != 0 && m[T + 20] != m[a] then m[T + 20] else At(Heads(b), r)
    ensures SearchRead(m, b, nb, u, k, r, K)
  {
  }

  lemma SearchReads(m: Mem, smallmap: Word, treemap: Word, b: Bins, msp: int, hi: int, nb: Word, u: int, k: nat,
                    r: int, v: int, K: Word)
    requires BinsOk(m, smallmap, treemap, b, msp, hi) && Sized(m, b.free) && LargeSize(nb)
    requires Searching(b.trie, nb, k, u, r, v) && u != nb && K == Shl(nb, 32 - k) && k <= 32
    ensures k > 3 && Shl(K, 1) == Shl(nb, 33 - k) && u in b.trie && SearchRead(m, b, nb, u, k, r, K)
  {
    hide *;
    SearchAt(b.trie, nb, k, u, r, v);
    WalkStep(m, smallmap, treemap, b, msp, hi, u, nb, k, K, At(Heads(b), u) + 16 + 4 * TopBit(K));
    LargeIs(nb);
    NodeReads(m, smallmap, treemap, b, msp, hi, u);
    NodeReadIs(m, b, u);
    NodeReads2(m, smallmap, treemap, b, msp, hi, u);
    TrieHeads(m, smallmap, treemap, b, msp, hi, u);
    TowardIs(b.trie, u, nb, k);
    NextRightIs(b.trie, u, nb, k, r);
    SearchReadFrom(m, b, nb, u, k, r, K);
  }

  lemma NextRightIs(t: Trie, u: int, nb: int, k: nat, r: int)
    requires u in t && k > 0
    ensures NextRight(t, u, nb, k, r) == if Bit(nb, k - 1) == 0 && t[u].c1 != 0 then t[u].c1 else r
    ensures 0 <= Bit(nb, k - 1) <= 1
  {
  }

  lemma LeftmostIs(n: Node)
    ensures LeftmostChild(n) == if n.c0 != 0 then n.c0 else n.c1
  {
  }

  lemma NarrowIn(t: Trie, nb: int, x: int, v: int)
    requires Narrowing(t, nb, x, v)
    ensures x != 0 ==> x in t
    ensures Fit(t, nb, v)
  {
  }

  /** Zero stands for no node, and only zero does. */
  lemma NodeAt(m: Mem, smallmap: Word, treemap: Word, b: Bins, msp: int, hi: int, x: int)
    requires BinsOk(m, smallmap, treemap, b, msp, hi) && Sized(m, b.free) && (x != 0 ==> x in b.trie)
    ensures 0 <= At(Heads(b), x) < W && (At(Heads(b), x) == 0 <==> x == 0)
  {
    hide *;
    BinsParts(m, smallmap, treemap, b, msp, hi);
    TrieMemParts(m, b, msp);
    DomFacts(m, msp, hi);
    HeadsFine(b, msp, hi);
    NoHeadZero(Heads(b), b.trie, msp);
    AtZero(Heads(b));
    WordZero();
    if x != 0 {
      NodeReads(m, smallmap, treemap, b, msp, hi, x);
      NodeReadIs(m, b, x);
    }
  }

  lemma LeftMarkedAll(x: Word, i: nat)
    requires i < 32
    ensures IdxBit(i) < W && IdxBit(i) >= 0 && LeftBits(IdxBit(i)) >= 0
    ensures 0 <= And(x, LeftBits(IdxBit(i))) < W
    ensures forall j: nat :: j < 32 ==> (Marked(And(x, LeftBits(IdxBit(i))), j) <==> i < j && Marked(x, j))
  {
    forall j: nat | j < 32
      ensures IdxBit(i) < W && (Marked(And(x, LeftBits(IdxBit(i))), j) <==> i < j && Marked(x, j))
    {
      LeftMarked(x, i, j);
    }
    LeftMarked(x, i, 0);
    IdxBitPos(i);
  }

  /** The treebins between `idx` and `i` are empty when `i` is the first mark above `idx`. */
  lemma LaterRoots(smallmap: Word, treemap: Word, b: Bins, idx: nat, i: nat, leftbits: Word)
    requires MapsOk(smallmap, treemap, b) && i <= 32
    requires forall j: nat :: j < 32 ==> (Marked(leftbits, j) <==> idx < j && Marked(treemap, j))
    requires if i == 32 then leftbits == 0 else Marked(leftbits, i) && forall j: nat :: j < i ==> !Marked(leftbits, j)
    ensures forall j :: idx < j < i ==> b.roots[j] == 0
    ensures i < 32 ==> idx < i
  {
    forall j: nat | idx < j < i
      ensures b.roots[j] == 0
    {
      ZeroMarked(j);
      MapsAt(smallmap, treemap, b, j);
    }
  }

  lemma EarlierRoots(smallmap: Word, treemap: Word, b: Bins, i: nat)
    requires MapsOk(smallmap, treemap, b) && i < 32
    requires forall j: nat :: j < i ==> !Marked(treemap, j)
    ensures forall j :: 0 <= j < i ==> b.roots[j] == 0
  {
    forall j: nat | j < i
      ensures b.roots[j] == 0
    {
      MapsAt(smallmap, treemap, b, j);
    }
  }

  lemma SearchedIn(t: Trie, nb: int, x: int, vs: int)
    requires Searched(t, nb, x, vs) || (vs == nb && Narrowing(t, nb, x, vs))
    ensures (x != 0 ==> x in t) && (vs != 0 ==> vs in t)
  {
  }

  lemma FirstFit(t: Trie, nb: int, x: int)
    requires Narrowing(t, nb, x, 0) && x != 0 && nb > 0
    ensures x in t && Fit(t, nb, 0) && x >= nb
  {
    SelfSub(t, x);
  }

  lemma SomeFits(t: Trie, nb: int, x: int, vs: int)
    requires BestFit(t, nb, vs) && x in t && x >= nb
    ensures vs != 0
  {
  }

  lemma BestLarge(free: map<int, int>, nb: int, v: int)
    requires BestChunk(free, nb, v) && nb >= MIN_LARGE_SIZE
    ensures v != 0 ==> v in free && BestBinned(free, nb, v) && free[v] >= MIN_LARGE_SIZE
    ensures forall q :: q in free ==> free[q] < nb || (v != 0 && v in free && free[v] <= free[q])
  {
  }

  lemma BestOfAll(free: map<int, int>, nb: int, v: int)
    requires BestChunk(free, nb, v) && v in free && v != 0
    requires forall q :: q in free && free[q] < MIN_LARGE_SIZE ==> free[q] < nb
    ensures BestBinned(free, nb, v) && free[v] >= MIN_LARGE_SIZE
  {
  }

  /** The unsigned comparison with what the victim would leave over. */
  lemma VictimFit(dvsize: Word, nb: Word, rsize: Word)
    requires nb > 0 && nb + rsize < W
    ensures rsize < Sub(dvsize, nb) <==> dvsize < nb || nb + rsize < dvsize
  {
  }
}
