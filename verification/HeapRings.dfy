/** Circular doubly-linked lists of chunks threaded through memory by the fd and bk words. */
module HeapRings {
  import opened Words
  import opened HeapWords

  function Fd(m: Mem, p: int): Word { Rd(m, p + 8) }

  function Bk(m: Mem, p: int): Word { Rd(m, p + 12) }

  function Next(j: int, n: int): int {
    if j + 1 == n then 0 else j + 1
  }

  ghost predicate Distinct(r: seq<int>) {
    forall i, j :: 0 <= i < j < |r| ==> r[i] != r[j]
  }

  /** Element `j` of the ring and its successor point at each other. */
  ghost predicate LinkAt(m: Mem, r: seq<int>, j: int)
    requires 0 <= j < |r|
  {
    Fd(m, r[j]) == r[Next(j, |r|)] && Bk(m, r[Next(j, |r|)]) == r[j]
  }

  /** The chunks of `r` form one ring in this order. */
  ghost predicate Linked(m: Mem, r: seq<int>) {
    forall j :: 0 <= j < |r| ==> LinkAt(m, r, j)
  }

  ghost predicate Aligned(r: seq<int>) {
    forall j :: 0 <= j < |r| ==> r[j] % 8 == 0
  }

  /** The words of chunk `q` that rings use are the same in both memories. */
  ghost predicate SameLinks(m: Mem, m': Mem, q: int) {
    Fd(m, q) == Fd(m', q) && Bk(m, q) == Bk(m', q)
  }

  lemma LinkedFrame(m: Mem, m': Mem, r: seq<int>)
    requires Linked(m, r)
    requires forall j :: 0 <= j < |r| ==> SameLinks(m, m', r[j])
    ensures Linked(m', r)
  {
    forall j | 0 <= j < |r|
      ensures LinkAt(m', r, j)
    {
      assert LinkAt(m, r, j);
      assert SameLinks(m, m', r[j]) && SameLinks(m, m', r[Next(j, |r|)]);
    }
  }

  /** Links chunk `p` in right after the first element. */
  function InsertMem(m: Mem, b: Word, f: Word, p: Word): Mem {
    m[b + 8 := p][f + 12 := p][p + 8 := f][p + 12 := b]
  }

  function InsertSeq(r: seq<int>, p: int): seq<int>
    requires |r| > 0
  {
    [r[0], p] + r[1..]
  }

  lemma InsertMemWords(m: Mem, b: Word, f: Word, p: Word, q: int)
    requires b % 8 == 0 && f % 8 == 0 && p % 8 == 0 && q % 8 == 0 && p != b && p != f
    ensures var m' := InsertMem(m, b, f, p);
            && Fd(m', q) == (if q == p then f else if q == b then p else Fd(m, q))
            && Bk(m', q) == (if q == p then b else if q == f then p else Bk(m, q))
  {
  }

  lemma InsertLinked(m: Mem, r: seq<int>, p: Word, b: Word, f: Word)
    requires |r| > 0 && Distinct(r) && Aligned(r) && p % 8 == 0 && p !in r
    requires |r| > 1 ==> Linked(m, r)
    requires b == r[0] && f == r[if |r| == 1 then 0 else 1]
    ensures Linked(InsertMem(m, b, f, p), InsertSeq(r, p))
  {
    var m', r' := InsertMem(m, b, f, p), InsertSeq(r, p);
    forall j | 0 <= j < |r'|
      ensures LinkAt(m', r', j)
    {
      InsertMemWords(m, b, f, p, r'[j]);
      InsertMemWords(m, b, f, p, r'[Next(j, |r'|)]);
      if j >= 2 {
        assert r'[j] == r[j - 1] && r'[Next(j, |r'|)] == r[Next(j - 1, |r|)];
        assert LinkAt(m, r, j - 1);
      }
    }
  }

  /** Unlinks whatever stands between `k` and `f`. */
  function RemoveMem(m: Mem, f: Word, k: Word): Mem {
    m[f + 12 := k][k + 8 := f]
  }

  function RemoveSeq(r: seq<int>, j: int): seq<int>
    requires 0 <= j < |r|
  {
    r[..j] + r[j + 1..]
  }

  lemma RemoveLinked(m: Mem, r: seq<int>, j: int)
    requires |r| > 1 && Distinct(r) && Aligned(r) && Linked(m, r) && 0 <= j < |r|
    ensures Linked(RemoveMem(m, Fd(m, r[j]), Bk(m, r[j])), RemoveSeq(r, j))
  {
    var n := |r|;
    var pj := if j == 0 then n - 1 else j - 1;
    assert Next(pj, n) == j;
    var f, k := r[Next(j, n)], r[pj];
    assert LinkAt(m, r, j) && LinkAt(m, r, pj);
    var m', r' := RemoveMem(m, f, k), RemoveSeq(r, j);
    forall i | 0 <= i < |r'|
      ensures LinkAt(m', r', i)
    {
      var o := if i < j then i else i + 1;
      assert r'[i] == r[o];
      assert LinkAt(m, r, o);
    }
  }

  /** A ring may be read starting from its last element. */
  lemma RotateLinked(m: Mem, r: seq<int>)
    requires |r| > 0 && Linked(m, r)
    ensures Linked(m, [r[|r| - 1]] + r[..|r| - 1])
  {
    var n := |r|;
    var r' := [r[n - 1]] + r[..n - 1];
    forall i | 0 <= i < n
      ensures LinkAt(m, r', i)
    {
      var o := if i == 0 then n - 1 else i - 1;
      assert r'[i] == r[o] && r'[Next(i, n)] == r[Next(o, n)];
      assert LinkAt(m, r, o);
    }
  }
}
