/** The alignment arithmetic of memalign: rounding to powers of two with masks. */
module HeapAlign {
  import opened Words
  import opened HeapWords
  import opened HeapBinMaps
  import opened HeapTreeIndex
  import opened HeapSmallFit

  lemma MulSmall(a: int, d: int)
    requires -a < a * d < a
    ensures d == 0
  {
    if d >= 1 {
      MulLe(1, d, a);
    } else if d <= -1 {
      MulLe(d, -1, a);
    }
  }

  /** The remainder of a sum of a multiple and something smaller. */
  lemma ModIs(y: int, a: int, q: int)
    requires a > 0 && a * q <= y < a * (q + 1)
    ensures y % a == y - a * q
  {
    var r := y % a;
    assert y == a * (y / a) + r;
    assert a * (q + 1) == a * q + a;
    assert a * (y / a - q) == a * (y / a) - a * q;
    MulSmall(a, y / a - q);
  }

  lemma {:induction false} AndOnes(y: int, n: nat)
    requires 0 <= y < Pow2(n)
    ensures And(y, Pow2(n) - 1) == y
  {
    if n > 0 && y > 0 {
      assert (Pow2(n) - 1) / 2 == Pow2(n - 1) - 1;
      AndOnes(y / 2, n - 1);
    }
  }

  lemma EvenHalves(n: nat, k: nat)
    requires 0 < k <= n
    ensures (Pow2(n) - Pow2(k)) % 2 == 0 && (Pow2(n) - Pow2(k)) / 2 == Pow2(n - 1) - Pow2(k - 1)
  {
    assert Pow2(n) == 2 * Pow2(n - 1) && Pow2(k) == 2 * Pow2(k - 1);
  }

  /** One step of a bitwise and. */
  lemma AndStep(a: int, b: int)
    requires a > 0 && b >= 0
    ensures And(a, b) == 2 * And(a / 2, b / 2) + (if a % 2 == 1 && b % 2 == 1 then 1 else 0)
  {
  }

  lemma MulAssoc(h: int, q: int)
    ensures 2 * (h * q) == (2 * h) * q
  {
  }

  /** Masking with the negation of a power of two rounds down. */
  lemma {:induction false} AndHigh(y: int, n: nat, k: nat)
    requires 0 <= y < Pow2(n) && k <= n && Pow2(n) >= Pow2(k)
    ensures And(y, Pow2(n) - Pow2(k)) == Pow2(k) * Pfx(y, k)
  {
    hide And;
    hide Pfx;
    if y == 0 {
      ZeroPfx(k);
      AndNone(Pow2(n) - Pow2(k));
    } else if k == 0 {
      AndOnes(y, n);
      PfxNone(y);
    } else {
      EvenHalves(n, k);
      PowOrder(k - 1, n - 1);
      AndHigh(y / 2, n - 1, k - 1);
      PfxHalf(y, k);
      AndStep(y, Pow2(n) - Pow2(k));
      MulAssoc(Pow2(k - 1), Pfx(y, k));
    }
  }

  lemma AndNone(b: int)
    requires b >= 0
    ensures And(0, b) == 0
  {
  }

  lemma PfxNone(y: int)
    ensures Pfx(y, 0) == y
  {
  }

  lemma OddHalf(h: int)
    ensures (2 * h - 1) / 2 == h - 1 && (2 * h - 1) % 2 == 1
  {
  }

  /** Masking with a power of two less one gives the remainder. */
  lemma {:induction false} AndLow(y: int, k: nat)
    requires 0 <= y
    ensures And(y, Pow2(k) - 1) == y - Pow2(k) * Pfx(y, k)
  {
    hide And;
    hide Pfx;
    if y == 0 {
      ZeroPfx(k);
      AndNone(Pow2(k) - 1);
    } else if k == 0 {
      AndZero(y);
      PfxNone(y);
    } else {
      OddHalf(Pow2(k - 1));
      AndLow(y / 2, k - 1);
      PfxHalf(y, k);
      AndStep(y, Pow2(k) - 1);
      MulAssoc(Pow2(k - 1), Pfx(y, k));
    }
  }

  lemma {:induction false} PowEight(k: nat)
    requires k >= 3
    ensures Pow2(k) % 8 == 0
  {
    if k > 3 {
      PowEight(k - 1);
    } else {
      assert Pow2(3) == 8;
    }
  }

  lemma MulEight(a: int, q: int)
    requires a % 8 == 0
    ensures (a * q) % 8 == 0
  {
    var b := a / 8;
    assert a * q == 8 * (b * q);
  }

  lemma Pow31()
    ensures Pow2(31) == 0x8000_0000
  {
    Pow32();
    PowStep(31);
  }

  lemma PowWord(k: nat)
    requires 4 <= k <= 31
    ensures 16 <= Pow2(k) <= 0x8000_0000 && Pow2(k) % 8 == 0
  {
    PowEight(k);
    PowOrder(k, 31);
    PowOrder(4, k);
    Pow31();
    assert Pow2(4) == 16;
  }

  /** Rounding up to a multiple of `a`. */
  lemma RoundUp(x: int, a: int, q: int)
    requires a > 0 && a * q <= x + a - 1 < a * (q + 1)
    ensures var up := a * q; up % a == 0 && (up + a) % a == 0 && x <= up < x + a
  {
    assert a * (q + 1) == a * q + a;
    assert a * (q + 2) == a * q + 2 * a;
    ModIs(a * q, a, q);
    ModIs(a * q + a, a, q + 1);
  }

  lemma AlreadyUp(x: int, a: int, q: int)
    requires a > 0 && x <= a * q < x + a
    ensures a * q == x <==> x % a == 0
  {
    var d := x / a;
    assert x == a * d + x % a;
    if x % a == 0 {
      assert a * (q - d) == a * q - a * d;
      MulSmall(a, q - d);
    } else if a * q == x {
      assert a * (q + 1) == a * q + a;
      ModIs(x, a, q);
    }
  }

  /** The mask that tests an address for the alignment 2^k. */
  lemma AlignTest(x: Word, k: nat)
    requires 4 <= k <= 31
    ensures Pow2(k) > 0 && (And(x, Pow2(k) - 1) == 0 <==> x % Pow2(k) == 0)
  {
    hide And;
    hide Pfx;
    hide Pow2;
    PowWord(k);
    AndLow(x, k);
    PfxBounds(x, k);
    ModIs(x, Pow2(k), Pfx(x, k));
  }

  /** The mask that rounds an address up to the alignment 2^k. */
  lemma EitherUp(up: int, a: int, x: int)
    requires a > 0 && up % a == 0 && (up + a) % a == 0 && (x == up || x == up + a)
    ensures x % a == 0
  {
  }

  lemma AlignUp(x: Word, k: nat)
    requires 4 <= k <= 31 && x + Pow2(k) <= W
    ensures 16 <= Pow2(k) < W && Pow2(k) % 8 == 0
    ensures var a, up := Pow2(k), And(x + Pow2(k) - 1, Neg(Pow2(k)));
            && up % a == 0 && (up + a) % a == 0 && x <= up < x + a && up % 8 == 0 && (up == x <==> x % a == 0)
  {
    hide *;
    PowWord(k);
    WordIs();
    Pow32();
    var a, y := Pow2(k), x + Pow2(k) - 1;
    var q := Pfx(y, k);
    AndHigh(y, 32, k);
    NegIs(a);
    PfxBounds(y, k);
    RoundUp(x, a, q);
    AlreadyUp(x, a, q);
    MulEight(a, q);
  }

  lemma WordIs()
    ensures W == 0x1_0000_0000
  {
  }

  // ---------------------------------------------------------------- rounding the alignment

  lemma {:induction false} AndSelf(x: int)
    requires x >= 0
    ensures And(x, x) == x
  {
    if x > 0 {
      AndSelf(x / 2);
    }
  }

  lemma AndOdd(x: int)
    requires x > 0 && x % 2 == 1
    ensures And(x, x - 1) == x - 1
  {
    assert (x - 1) / 2 == x / 2;
    AndSelf(x / 2);
  }

  /** The test for a power of two. */
  lemma {:induction false} PowTest(x: int) returns (k: nat)
    requires x > 0 && And(x, x - 1) == 0
    ensures x == Pow2(k)
  {
    hide And;
    if x % 2 == 1 {
      AndOdd(x);
      k := 0;
    } else {
      assert (x - 1) / 2 == x / 2 - 1;
      AndStep(x, x - 1);
      var j := PowTest(x / 2);
      k := j + 1;
    }
  }

  lemma ShlNext(x: Word, n: nat)
    ensures Shl(x, n + 1) == 2 * Shl(x, n) % W
  {
  }

  /** The doubling stays a power of two until it leaves the word, and then is zero for ever. */
  lemma {:induction false} Doublings(n: nat)
    ensures Shl(16, n) == if n <= 27 then Pow2(n + 4) else 0
  {
    hide Shl;
    hide Pow2;
    PowWord(4);
    Pow31();
    if n == 0 {
      ShlZero(16);
      PowFour();
    } else {
      Doublings(n - 1);
      ShlNext(16, n - 1);
      PowStep(n + 3);
      if n <= 27 {
        PowOrder(n + 4, 31);
      }
    }
  }

  lemma PowFour()
    ensures Pow2(4) == 16
  {
  }

  /**
    The doubling loop reaches an alignment if and only if the alignment is at most 2^31; for a larger one, none of
    its values ever gets there.
   */
  lemma DoublingReaches(alignment: Word)
    ensures (exists n: nat :: alignment <= Shl(16, n)) <==> alignment <= 0x8000_0000
  {
    hide Shl;
    hide Pow2;
    Doublings(27);
    Pow31();
    assert Shl(16, 27) == 0x8000_0000;
    forall n: nat
      ensures Shl(16, n) <= 0x8000_0000
    {
      Doublings(n);
      if n <= 27 {
        PowOrder(n + 4, 31);
      }
    }
  }

  /** The alignment memalign works with: the smallest power of two that is at least 16 and the one asked for. */
  method RoundAlignment(alignment: Word) returns (a: Word, ghost k: nat)
    requires alignment <= 0x8000_0000
    ensures 4 <= k <= 31 && a == Pow2(k) && alignment <= a
    ensures forall j: nat :: 4 <= j && alignment <= Pow2(j) ==> a <= Pow2(j)
  {
    hide And;
    hide Shl;
    a := if alignment < MIN_CHUNK_SIZE then MIN_CHUNK_SIZE else alignment;
    PowFour();
    Pow31();
    if And(a, a - 1) != 0 {
      var b: Word := 16;
      k := 4;
      ShlZero(16);
      while b < a
        invariant 4 <= k <= 31 && b == Pow2(k) && b == Shl(16, k - 4) && (k == 4 || Pow2(k - 1) < a)
        decreases 31 - k
      {
        Doublings(k - 3);
        ShlStep(16, k - 4);
        LargerPow(k, a);
        b := Shl(b, 1);
        k := k + 1;
      }
      forall j: nat | 4 <= j && alignment <= Pow2(j)
        ensures b <= Pow2(j)
      {
        PowOrder(4, j);
        if j < k {
          PowOrder(j, k - 1);
        } else {
          PowOrder(k, j);
        }
      }
      a := b;
    } else {
      k := PowTest(a);
      forall j: nat | 4 <= j && alignment <= Pow2(j)
        ensures a <= Pow2(j)
      {
        PowOrder(4, j);
      }
      PowBounds(k);
    }
  }

  lemma ShlZero(x: Word)
    ensures Shl(x, 0) == x
  {
  }

  lemma ShlStep(x: Word, n: nat)
    ensures Shl(Shl(x, n), 1) == Shl(x, n + 1)
  {
    assert Shl(Shl(x, n), 0) == Shl(x, n);
  }

  lemma LargerPow(k: nat, a: int)
    requires Pow2(k) < a <= Pow2(31) && k <= 31
    ensures k < 31
  {
  }

  lemma PowBounds(k: nat)
    requires 16 <= Pow2(k) <= Pow2(31)
    ensures 4 <= k <= 31
  {
    assert Pow2(3) == 8;
    if k < 4 {
      PowOrder(k, 3);
    } else if k > 31 {
      PowLarger(k);
    }
  }

  lemma PowLarger(k: nat)
    requires k > 31
    ensures Pow2(k) > Pow2(31)
  {
    PowOrder(32, k);
    PowStep(31);
  }
}
