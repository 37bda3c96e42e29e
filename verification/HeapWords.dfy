/** The word memory of one segment, and the chunk constants of the 32-bit build. */
module HeapWords {
  import opened Words

  /** The words of a segment, keyed by their word-aligned byte address. */
  type Mem = map<int, Word>

  /** The word at address `a`; invariants are stated with this total read. */
  function Rd(m: Mem, a: int): Word {
    if a in m then m[a] else 0
  }

  const MIN_CHUNK_SIZE: int := 16
  const CHUNK_OVERHEAD: int := 4
  const TOP_FOOT_SIZE: int := 40
  const MIN_REQUEST: int := 11
  const MAX_SMALL_REQUEST: int := 244
  const MIN_LARGE_SIZE: int := 256
  const MAX_REQUEST: int := 0xFFFF_FFC0
  const MAX_SIZE_T: int := 0xFFFF_FFFF

  /** 2^n. */
  function Pow2(n: nat): (r: int)
    ensures r >= 1
  {
    if n == 0 then 1 else 2 * Pow2(n - 1)
  }

  /** The prefix of `s` above bit `k`, that is `s >> k`. */
  function Pfx(s: int, k: nat): int {
    if k == 0 then s else Pfx(s, k - 1) / 2
  }

  /** Bit `k` of `s`. */
  function Bit(s: int, k: nat): (b: int)
    ensures 0 <= b <= 1
  {
    Pfx(s, k) % 2
  }

  /** Unsigned 32-bit subtraction. */
  function Sub(a: int, b: int): (r: int)
    ensures 0 <= r < W
  {
    (a - b) % W
  }

  /** Unsigned 32-bit left shift. */
  function Shl(a: int, n: nat): (r: int)
    ensures 0 <= r < W
  {
    if n == 0 then a % W else 2 * Shl(a, n - 1) % W
  }

  /** The larger prefix belongs to the larger number. */
  lemma {:induction false} PfxOrder(a: int, b: int, k: nat)
    requires Pfx(a, k) < Pfx(b, k)
    ensures a < b
  {
    if k > 0 {
      PfxOrder(a, b, k - 1);
    }
  }

  /** Equal prefixes stay equal above. */
  lemma {:induction false} PfxUp(a: int, b: int, k: nat, j: nat)
    requires Pfx(a, k) == Pfx(b, k) && k <= j
    ensures Pfx(a, j) == Pfx(b, j)
  {
    if k < j {
      PfxUp(a, b, k, j - 1);
    }
  }

  /** A smaller or equal number has a smaller or equal prefix. */
  lemma {:induction false} PfxMono(a: int, b: int, k: nat)
    requires a <= b
    ensures Pfx(a, k) <= Pfx(b, k)
  {
    if k > 0 {
      PfxMono(a, b, k - 1);
    }
  }

  /** `Pfx(s, k)` is the quotient of `s` by 2^k. */
  lemma {:induction false} PfxBounds(s: int, k: nat)
    ensures Pow2(k) * Pfx(s, k) <= s < Pow2(k) * (Pfx(s, k) + 1)
  {
    if k > 0 {
      PfxBounds(s, k - 1);
      MulHalves(Pow2(k - 1), Pfx(s, k - 1));
    }
  }

  lemma MulHalves(p: int, q: int)
    requires p >= 0
    ensures (2 * p) * (q / 2) <= p * q && p * (q + 1) <= (2 * p) * (q / 2 + 1)
  {
    var h := q / 2;
    assert (2 * p) * h == p * (2 * h) && (2 * p) * (h + 1) == p * (2 * h + 2);
    assert q == 2 * h || q == 2 * h + 1;
    assert p * (2 * h + 1) == p * (2 * h) + p;
  }

  /** Two multiples of eight that agree above bit 3 are the same size. */
  lemma PfxThree(a: int, b: int)
    requires a % 8 == 0 && b % 8 == 0 && Pfx(a, 3) == Pfx(b, 3)
    ensures a == b
  {
    PfxEight(a);
    PfxEight(b);
  }

  lemma PfxEight(a: int)
    ensures Pfx(a, 3) == a / 8
  {
    assert Pfx(a, 0) == a;
    assert Pfx(a, 1) == a / 2;
    assert Pfx(a, 2) == a / 4;
  }
}
