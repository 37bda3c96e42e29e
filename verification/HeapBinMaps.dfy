/** The 32-bit bin maps and the bit tricks that search them. */
module HeapBinMaps {
  import opened Words
  import opened HeapWords

  /** Bitwise operators on words. */
  function And(a: int, b: int): (r: int)
    requires a >= 0 && b >= 0
    ensures 0 <= r <= a && r <= b
    decreases a
  {
    if a == 0 then 0 else 2 * And(a / 2, b / 2) + (if a % 2 == 1 && b % 2 == 1 then 1 else 0)
  }

  function Or(a: int, b: int): (r: int)
    requires a >= 0 && b >= 0
    ensures a <= r <= a + b && b <= r
    decreases a
  {
    if a == 0 then b else 2 * Or(a / 2, b / 2) + (if a % 2 == 1 || b % 2 == 1 then 1 else 0)
  }

  function Not(a: int): int { W - 1 - a }

  function Neg(a: int): (r: int)
    ensures 0 <= r < W
  {
    (-a) % W
  }

  /** The bit that stands for bin `i`. */
  function IdxBit(i: nat): int { Pow2(i) }

  predicate Marked(binmap: int, i: nat)
    decreases i
  {
    if i == 0 then binmap % 2 == 1 else Marked(binmap / 2, i - 1)
  }

  function LeastBit(x: Word): int { And(x, Neg(x)) }

  function LeftBits(x: Word): int { Or(Shl(x, 1), Neg(Shl(x, 1))) }

  /**
    The halving steps: if bit `w` of `y` is set, shift right by `w` and count `w`; then go on with half the width.
   */
  function Halve(y: int, n: int, w: nat): int
    decreases w
  {
    if w == 0 then n + y
    else if Bit(y, w) == 1 then Halve(Pfx(y, w), n + w, w / 2)
    else Halve(y, n, w / 2)
  }

  /** The branch-free index of a single set bit. */
  function Bit2Idx(x: int): int { Halve(x - 1, 0, 16) }

  lemma {:induction false} AndMarked(a: int, b: int, i: nat)
    requires a >= 0 && b >= 0
    ensures Marked(And(a, b), i) <==> Marked(a, i) && Marked(b, i)
    decreases i
  {
    if a == 0 {
      ZeroMarked(i);
    } else if i > 0 {
      AndMarked(a / 2, b / 2, i - 1);
    }
  }

  lemma {:induction false} OrMarked(a: int, b: int, i: nat)
    requires a >= 0 && b >= 0
    ensures Marked(Or(a, b), i) <==> Marked(a, i) || Marked(b, i)
    decreases i
  {
    if a == 0 {
      ZeroMarked(i);
    } else if i > 0 {
      OrMarked(a / 2, b / 2, i - 1);
    }
  }

  lemma {:induction false} ZeroMarked(i: nat)
    ensures !Marked(0, i)
  {
    if i > 0 {
      ZeroMarked(i - 1);
    }
  }

  lemma {:induction false} PowMarked(i: nat, j: nat)
    ensures Marked(Pow2(i), j) <==> i == j
    decreases j
  {
    if i == 0 && j > 0 {
      ZeroMarked(j - 1);
    } else if i > 0 && j > 0 {
      PowMarked(i - 1, j - 1);
    }
  }

  /** Complementing `n` bits flips each of them. */
  lemma {:induction false} FlipMarked(a: int, n: nat, i: nat)
    requires 0 <= a < Pow2(n) && i < n
    ensures Marked(Pow2(n) - 1 - a, i) <==> !Marked(a, i)
    decreases n
  {
    var p := Pow2(n - 1);
    assert Pow2(n) == 2 * p;
    FlipHalf(p, a);
    if i > 0 {
      FlipMarked(a / 2, n - 1, i - 1);
    }
  }

  lemma FlipHalf(p: int, a: int)
    ensures (2 * p - 1 - a) / 2 == p - 1 - a / 2 && ((2 * p - 1 - a) % 2 == 1 <==> a % 2 != 1)
    ensures 0 <= a < 2 * p ==> 0 <= a / 2 < p
  {
  }

  lemma {:induction false} UpperMarked(n: nat, k: nat, j: nat)
    requires k <= n
    ensures Pow2(k) <= Pow2(n)
    ensures Marked(Pow2(n) - Pow2(k), j) <==> k <= j < n
    decreases n
  {
    if k == 0 {
      if n == 0 {
        ZeroMarked(j);
      } else if j < n {
        ZeroMarked(j);
        FlipMarked(0, n, j);
      } else {
        UpperMarked(n - 1, 0, j - 1);
        assert (Pow2(n) - 1) / 2 == Pow2(n - 1) - 1;
      }
    } else {
      UpperMarked(n - 1, k - 1, if j > 0 then j - 1 else 0);
      assert (Pow2(n) - Pow2(k)) / 2 == Pow2(n - 1) - Pow2(k - 1);
    }
  }

  lemma Pow32()
    ensures Pow2(32) == W
  {
    assert Pow2(8) == 256;
    assert Pow2(16) == 0x1_0000;
    assert Pow2(24) == 0x100_0000;
  }

  /** Marking bin `i` changes the mark of no other bin. */
  lemma MarkBit(m: Word, i: nat, j: nat)
    ensures Marked(Or(m, IdxBit(i)), j) <==> i == j || Marked(m, j)
  {
    OrMarked(m, IdxBit(i), j);
    PowMarked(i, j);
  }

  /** Bitwise or of words is a word. */
  lemma {:induction false} OrBound(a: int, b: int, n: nat)
    requires 0 <= a < Pow2(n) && 0 <= b < Pow2(n)
    ensures Or(a, b) < Pow2(n)
    decreases n
  {
    if n > 0 && a > 0 {
      OrBound(a / 2, b / 2, n - 1);
    }
  }

  lemma OrWord(m: Word, i: nat)
    requires i < 32
    ensures IdxBit(i) < W && Or(m, IdxBit(i)) < W
  {
    Pow32();
    PowOrder(i, 31);
    OrBound(m, IdxBit(i), 32);
  }

  /** Clearing bin `i` changes the mark of no other bin. */
  lemma ClearBit(m: Word, i: nat, j: nat)
    requires i < 32 && j < 32
    ensures IdxBit(i) < W
    ensures Marked(And(m, Not(IdxBit(i))), j) <==> i != j && Marked(m, j)
  {
    Pow32();
    UpperMarked(31, i, 0);
    AndMarked(m, Not(IdxBit(i)), j);
    FlipMarked(IdxBit(i), 32, j);
    PowMarked(i, j);
  }

  /** Testing a map against one bin's bit. */
  lemma {:induction false} TestBit(m: int, i: nat)
    requires m >= 0
    ensures And(m, IdxBit(i)) != 0 <==> Marked(m, i)
    decreases i
  {
    if m == 0 {
      ZeroMarked(i);
    } else if i > 0 {
      TestBit(m / 2, i - 1);
    } else {
      AndZero(m / 2);
    }
  }

  lemma {:induction false} AndZero(a: int)
    requires a >= 0
    ensures And(a, 0) == 0
    decreases a
  {
    if a > 0 {
      AndZero(a / 2);
    }
  }

  /** Shifting right moves bin `i` to bin `i - n`. */
  lemma {:induction false} ShrMarked(x: int, n: nat, j: nat)
    ensures Marked(Pfx(x, n), j) <==> Marked(x, j + n)
    decreases n
  {
    if n > 0 {
      ShrMarked(x, n - 1, j + 1);
    }
  }

  lemma ShlIdxBit(i: nat)
    requires i < 32
    ensures IdxBit(i) < W
    ensures i == 31 ==> Shl(IdxBit(i), 1) == 0 && Neg(Shl(IdxBit(i), 1)) == 0
    ensures i < 31 ==> Shl(IdxBit(i), 1) == Pow2(i + 1) && Neg(Shl(IdxBit(i), 1)) == Pow2(32) - Pow2(i + 1)
  {
    hide Pow2;
    hide Shl;
    hide Neg;
    PowStep(i);
    PowOrder(i, 31);
    PowStep(31);
    Pow32();
    ShlOne(IdxBit(i));
    NegIs(Shl(IdxBit(i), 1));
    if i < 31 {
      PowOrder(i + 1, 31);
      SmallMod(2 * IdxBit(i));
    }
  }

  lemma SmallMod(x: int)
    requires 0 <= x < W
    ensures x % W == x
  {
  }

  lemma NegIs(a: Word)
    ensures Neg(a) == if a == 0 then 0 else W - a
  {
  }

  lemma PowStep(i: nat)
    ensures Pow2(i + 1) == 2 * Pow2(i)
  {
  }

  lemma {:induction false} PowOrder(i: nat, j: nat)
    requires i <= j
    ensures Pow2(i) <= Pow2(j)
  {
    if i < j {
      PowOrder(i, j - 1);
    }
  }

  lemma ShlOne(v: Word)
    ensures Shl(v, 1) == 2 * v % W
  {
    assert Shl(v, 0) == v;
  }

  lemma OrZero()
    ensures Or(0, 0) == 0
  {
  }

  /** The bits above bin `i`. */
  lemma LeftBitsMarked(i: nat, j: nat)
    requires i < 32 && j < 32
    ensures IdxBit(i) < W
    ensures Marked(LeftBits(IdxBit(i)), j) <==> i < j
  {
    hide Or;
    hide Marked;
    hide Pow2;
    ShlIdxBit(i);
    if i == 31 {
      assert LeftBits(IdxBit(i)) == 0 by {
        OrZero();
      }
      ZeroMarked(j);
    } else {
      OrFromMarked(i + 1, j);
    }
  }

  lemma OrFromMarked(k: nat, j: nat)
    requires k < 32 && j < 32
    ensures Pow2(k) <= Pow2(32)
    ensures Marked(Or(Pow2(k), Pow2(32) - Pow2(k)), j) <==> k <= j
  {
    hide Or;
    hide Marked;
    hide Pow2;
    UpperMarked(32, k, j);
    OrMarked(Pow2(k), Pow2(32) - Pow2(k), j);
    PowMarked(k, j);
  }

  /** Masking with `LeftBits` of bin `i`'s bit keeps exactly the bins above `i`. */
  lemma LeftMarked(x: Word, i: nat, j: nat)
    requires i < 32 && j < 32
    ensures IdxBit(i) < W
    ensures Marked(And(x, LeftBits(IdxBit(i))), j) <==> i < j && Marked(x, j)
  {
    LeftBitsMarked(i, j);
    AndMarked(x, LeftBits(IdxBit(i)), j);
  }

  lemma {:induction false} AndFlip(a: int, n: nat)
    requires 0 <= a < Pow2(n)
    ensures And(a, Pow2(n) - 1 - a) == 0
    decreases n
  {
    if n > 0 {
      assert (Pow2(n) - 1 - a) / 2 == Pow2(n - 1) - 1 - a / 2;
      AndFlip(a / 2, n - 1);
    }
  }

  /** `x & -x` is the bit of the least marked bin. */
  lemma {:induction false} LeastPow(x: int, n: nat) returns (i: nat)
    requires 0 < x < Pow2(n)
    ensures i < n && And(x, Pow2(n) - x) == Pow2(i)
    ensures Marked(x, i)
    ensures forall j: nat :: j < i ==> !Marked(x, j)
    decreases n
  {
    if x % 2 == 1 {
      i := 0;
      assert (Pow2(n) - x) / 2 == Pow2(n - 1) - 1 - x / 2;
      AndFlip(x / 2, n - 1);
    } else {
      assert (Pow2(n) - x) / 2 == Pow2(n - 1) - x / 2;
      var k := LeastPow(x / 2, n - 1);
      i := k + 1;
      forall j: nat | j < i
        ensures !Marked(x, j)
      {
        if j > 0 {
          assert !Marked(x / 2, j - 1);
        }
      }
    }
  }

  lemma {:induction false} PfxOnes(i: nat, w: nat)
    ensures Pfx(Pow2(i) - 1, w) == if i > w then Pow2(i - w) - 1 else 0
    decreases w
  {
    if w > 0 {
      PfxOnes(i, w - 1);
    }
  }

  /** The halving steps count a run of `i` ones. */
  lemma {:induction false} HalveOnes(i: nat, n: int, w: nat)
    requires w == 0 || w == 1 || w == 2 || w == 4 || w == 8 || w == 16
    requires if w == 0 then i <= 1 else i <= 2 * w
    ensures Halve(Pow2(i) - 1, n, w) == n + i
    decreases w
  {
    hide Bit;
    hide Pfx;
    if w == 0 {
      assert Pow2(1) == 2;
    } else {
      OnesBit(i, w);
      HalveStep(Pow2(i) - 1, n, w);
      if i > w {
        HalveOnes(i - w, n + w, w / 2);
      } else {
        HalveOnes(i, n, w / 2);
      }
    }
  }

  lemma OnesBit(i: nat, w: nat)
    ensures Pfx(Pow2(i) - 1, w) == if i > w then Pow2(i - w) - 1 else 0
    ensures Bit(Pow2(i) - 1, w) == if i > w then 1 else 0
  {
    PfxOnes(i, w);
  }

  lemma HalveStep(y: int, n: int, w: nat)
    requires w > 0
    ensures Halve(y, n, w) == if Bit(y, w) == 1 then Halve(Pfx(y, w), n + w, w / 2) else Halve(y, n, w / 2)
  {
    hide Bit;
    hide Pfx;
  }

  lemma LeastBitIsPow(x: Word) returns (i: nat)
    requires x != 0
    ensures i < 32 && LeastBit(x) == Pow2(i)
    ensures Marked(x, i)
    ensures forall j: nat :: j < i ==> !Marked(x, j)
  {
    hide Marked;
    hide And;
    hide Pow2;
    Pow32();
    i := LeastPow(x, 32);
    assert Neg(x) == Pow2(32) - x;
  }

  /** A non-empty map has a least marked bin and the tricks find it. */
  lemma LeastMarked(x: Word) returns (i: nat)
    requires x != 0
    ensures i < 32
    ensures Bit2Idx(LeastBit(x)) == i
    ensures Marked(x, i)
    ensures forall j: nat :: j < i ==> !Marked(x, j)
  {
    i := LeastBitIsPow(x);
    HalveOnes(i, 0, 16);
  }
}
