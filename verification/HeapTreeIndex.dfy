/** Which treebin holds a size, and how its trie reads the bits of a size. */
module HeapTreeIndex {
  import opened Words
  import opened HeapWords
  import BinMaps = HeapBinMaps

  /** `((y - c) >> 16) & w`, the borrow test of the index computation. */
  function Borrow(y: int, c: int, w: int): (r: nat)
    requires w in {2, 4, 8}
    ensures r == 0 || r == w
  {
    if Sub(y, c) / 0x1_0000 / w % 2 == 1 then w else 0
  }

  /** Position of the highest set bit of a 16-bit number, by the branch-free computation. */
  function HighBit(x: int): (k: int)
    requires 1 <= x <= 0xFFFF
    ensures 0 <= k <= 15
  {
    BorrowIs(x, 0x100, 8);
    var n := Borrow(x, 0x100, 8);
    HighNibble(if n == 8 then x * 0x100 else x, n)
  }

  /** The last two borrow tests, on a number already shifted left by `n`. */
  function HighNibble(y: int, n: nat): (k: int)
    requires 0x100 <= y <= 0xFFFF
    ensures 8 - n <= k <= 15 - n
  {
    BorrowIs(y, 0x1000, 4);
    var k1 := Borrow(y, 0x1000, 4);
    var y2 := if k1 == 4 then y * 0x10 else y;
    BorrowIs(y2, 0x4000, 2);
    var k2 := Borrow(y2, 0x4000, 2);
    var y3 := if k2 == 2 then y2 * 4 else y2;
    14 - (n + k1 + k2) + y3 / 0x8000
  }

  /** The treebin of size `s`. */
  function TreeIndex(s: Word): (i: int)
    ensures 0 <= i < 32
  {
    var x := s / 0x100;
    if x == 0 then 0
    else if x > 0xFFFF then 31
    else
      var k := HighBit(x);
      2 * k + Bit(s, k + 7)
  }

  /** The number of low bits that the trie of treebin `i` tells apart. */
  function RootLevel(i: int): (k: nat)
    requires 0 <= i < 32
    ensures 7 <= k <= 32
  {
    if i == 31 then 32 else i / 2 + 7
  }

  /** `leftshift_for_tree_index`. */
  function LeftShift(i: int): (k: nat)
    requires 0 <= i < 32
    ensures k == 32 - RootLevel(i)
  {
    if i == 31 then 0 else 31 - (i / 2 + 8 - 2)
  }

  /** The smallest size held in treebin `i`. */
  function MinSize(i: nat): int {
    Pow2(i / 2 + 8) + (if i % 2 == 1 then Pow2(i / 2 + 7) else 0)
  }

  lemma BorrowIs(y: int, c: int, w: int)
    requires w in {2, 4, 8} && 0 <= y <= 0xFFFF && 0 < c <= 0x4000
    ensures Borrow(y, c, w) == if y < c then w else 0
  {
    if y < c {
      assert Sub(y, c) == y - c + W;
      assert Sub(y, c) / 0x1_0000 == 0xFFFF;
    } else {
      assert Sub(y, c) == y - c;
      assert Sub(y, c) / 0x1_0000 == 0;
    }
  }

  lemma {:induction false} PfxOne(x: int, k: nat)
    requires Pow2(k) <= x < Pow2(k + 1)
    ensures Pfx(x, k) == 1
  {
    if k > 0 {
      PfxOne(x / 2, k - 1);
      PfxHalf(x, k);
    }
  }

  lemma {:induction false} PfxHalf(x: int, k: nat)
    requires k > 0
    ensures Pfx(x, k) == Pfx(x / 2, k - 1)
  {
    if k > 1 {
      PfxHalf(x, k - 1);
    }
  }

  lemma {:induction false} PfxAdd(s: int, a: nat, b: nat)
    ensures Pfx(Pfx(s, a), b) == Pfx(s, a + b)
    decreases b
  {
    if b > 0 {
      PfxAdd(s, a, b - 1);
    }
  }

  lemma PfxByte(s: int)
    ensures Pfx(s, 8) == s / 0x100
  {
    assert Pfx(s, 1) == s / 2;
    assert Pfx(s, 2) == s / 4;
    PfxEight(s);
    assert Pfx(s, 4) == s / 16;
    assert Pfx(s, 5) == s / 32;
    assert Pfx(s, 6) == s / 64;
    assert Pfx(s, 7) == s / 128;
  }

  lemma PowConsts()
    ensures Pow2(0) == 1 && Pow2(1) == 2 && Pow2(2) == 4 && Pow2(3) == 8 && Pow2(4) == 16 && Pow2(5) == 32
    ensures Pow2(6) == 64 && Pow2(7) == 128 && Pow2(8) == 0x100 && Pow2(9) == 0x200 && Pow2(10) == 0x400
    ensures Pow2(11) == 0x800 && Pow2(12) == 0x1000 && Pow2(13) == 0x2000 && Pow2(14) == 0x4000
    ensures Pow2(15) == 0x8000 && Pow2(16) == 0x1_0000
  {
    assert Pow2(4) == 16;
    assert Pow2(8) == 0x100;
    assert Pow2(12) == 0x1000;
  }

  /** `HighBit` is the logarithm. */
  lemma HighBitIs(x: int)
    requires 1 <= x <= 0xFFFF
    ensures Pfx(x, HighBit(x)) == 1
  {
    HighBitRange(x);
    PfxOne(x, HighBit(x));
  }

  lemma HighBitRange(x: int)
    requires 1 <= x <= 0xFFFF
    ensures Pow2(HighBit(x)) <= x < Pow2(HighBit(x) + 1)
  {
    BorrowIs(x, 0x100, 8);
    PowConsts();
    if x < 0x100 {
      HighNibbleIs(x * 0x100, 8);
    } else {
      HighNibbleIs(x, 0);
    }
    hide Pow2;
    hide Borrow;
    hide HighNibble;
  }

  lemma HighNibbleIs(y: int, n: nat)
    requires 0x100 <= y <= 0xFFFF
    ensures HighNibble(y, n) + n ==
            if y >= 0x8000 then 15 else if y >= 0x4000 then 14 else if y >= 0x2000 then 13 else if y >= 0x1000 then 12
            else if y >= 0x800 then 11 else if y >= 0x400 then 10 else if y >= 0x200 then 9 else 8
  {
    BorrowIs(y, 0x1000, 4);
    BorrowIs(if y < 0x1000 then y * 0x10 else y, 0x4000, 2);
    hide Borrow;
  }

  /** The sizes of treebin `i` are those whose prefix at the root level is the bin's own. */
  lemma IndexPrefix(s: Word)
    requires s >= MIN_LARGE_SIZE
    ensures var i := TreeIndex(s); i < 31 ==> Pfx(s, i / 2 + 7) == 2 + i % 2
    ensures TreeIndex(s) == 31 ==> Pfx(s, 22) >= 3
  {
    var x := s / 0x100;
    PfxByte(s);
    if x <= 0xFFFF {
      var k := HighBit(x);
      HighBitIs(x);
      PfxAdd(s, 8, k);
      assert Pfx(s, k + 8) == Pfx(s, k + 7) / 2;
    } else {
      PowConsts();
      assert Pow2(17) == 0x2_0000 && Pow2(18) == 0x4_0000 && Pow2(19) == 0x8_0000 && Pow2(20) == 0x10_0000;
      assert Pow2(22) == 0x40_0000;
      PfxBounds(s, 22);
    }
  }

  lemma {:induction false} PfxShrinks(s: int, j: nat, k: nat, b: int)
    requires Pfx(s, j) <= b && j <= k && b >= 0
    ensures Pfx(s, k) <= b
    ensures j < k ==> Pfx(s, k) <= b / 2
  {
    if j < k {
      PfxShrinks(s, j, k - 1, b);
    }
  }

  lemma {:induction false} PfxZero(s: int, k: nat)
    requires 0 <= s < Pow2(k)
    ensures Pfx(s, k) == 0
  {
    if k > 0 {
      PfxHalf(s, k);
      PfxZero(s / 2, k - 1);
    }
  }

  /** A larger size never lies in a lower treebin. */
  lemma IndexMono(s: Word, t: Word)
    requires MIN_LARGE_SIZE <= s <= t
    ensures TreeIndex(s) <= TreeIndex(t)
  {
    var i, j := TreeIndex(s), TreeIndex(t);
    IndexPrefix(s);
    IndexPrefix(t);
    if j < i {
      var k := if i == 31 then 22 else i / 2 + 7;
      PfxShrinks(t, j / 2 + 7, k, 2 + j % 2);
      PfxOrder(t, s, k);
      assert false;
    }
  }

  /** Sizes of one treebin agree above the root level. */
  lemma SameBinPrefix(s: Word, t: Word)
    requires MIN_LARGE_SIZE <= s && MIN_LARGE_SIZE <= t && TreeIndex(s) == TreeIndex(t)
    ensures Pfx(s, RootLevel(TreeIndex(s))) == Pfx(t, RootLevel(TreeIndex(s)))
  {
    IndexPrefix(s);
    IndexPrefix(t);
    if TreeIndex(s) == 31 {
      BinMaps.Pow32();
      PfxZero(s, 32);
      PfxZero(t, 32);
    }
  }

  /** Treebin `i` holds exactly the sizes from `MinSize(i)` up to the next bin's. */
  lemma IndexRange(s: Word)
    requires s >= MIN_LARGE_SIZE
    ensures MinSize(TreeIndex(s)) <= s
    ensures TreeIndex(s) < 31 ==> s < MinSize(TreeIndex(s) + 1)
  {
    IndexPrefix(s);
    PrefixRange(s, TreeIndex(s));
  }

  lemma PrefixRange(s: Word, i: nat)
    requires i < 32
    requires i < 31 ==> Pfx(s, i / 2 + 7) == 2 + i % 2
    requires i == 31 ==> Pfx(s, 22) >= 3
    ensures MinSize(i) <= s
    ensures i < 31 ==> s < MinSize(i + 1)
  {
    hide Pow2;
    hide Pfx;
    var k := if i < 31 then i / 2 + 7 else 22;
    var p := Pow2(k);
    PfxBounds(s, k);
    BinMaps.PowStep(k);
    BinMaps.PowStep(k + 1);
    if i == 31 {
      MulLe(3, Pfx(s, k), p);
    } else if i % 2 == 1 {
      assert (i + 1) / 2 + 8 == k + 2;
    }
  }

  /** The bit a trie walk looks at: the sign bit of the shifted size. */
  function TopBit(v: Word): int { v / 0x8000_0000 }

  lemma MulLe(a: int, b: int, c: int)
    requires a <= b && c >= 0
    ensures a * c <= b * c
  {
  }

  lemma {:induction false} PfxMinusPow(v: int, n: nat, i: nat)
    requires i <= n
    ensures Pfx(v - Pow2(n), i) == Pfx(v, i) - Pow2(n - i)
  {
    if i > 0 {
      PfxMinusPow(v, n, i - 1);
      assert Pow2(n - i + 1) == 2 * Pow2(n - i);
    }
  }

  lemma DoubleWord(v: Word)
    ensures 2 * v % W == if 2 * v >= W then 2 * v - W else 2 * v
    ensures 2 * v % W / 2 == if 2 * v >= W then v - 0x8000_0000 else v
  {
  }

  /** Doubling a word moves each bit up by one. */
  lemma DoubleBit(v: Word, j: nat)
    requires 1 <= j < 32
    ensures Bit(2 * v % W, j) == Bit(v, j - 1)
  {
    hide Pfx;
    var d := 2 * v % W;
    DoubleWord(v);
    PfxHalf(d, j);
    if 2 * v >= W {
      BinMaps.Pow32();
      assert Pow2(31) == 0x8000_0000;
      PfxMinusPow(v, 31, j - 1);
      EvenPow(Pfx(v, j - 1), 32 - j);
    }
  }

  lemma EvenPow(x: int, n: nat)
    requires n > 0
    ensures (x - Pow2(n)) % 2 == x % 2
  {
    var y := Pow2(n - 1);
    assert Pow2(n) == 2 * y;
  }

  lemma {:induction false} ShlBit(s: Word, n: nat, j: nat)
    requires n <= j < 32
    ensures Bit(Shl(s, n), j) == Bit(s, j - n)
    decreases n
  {
    if n > 0 {
      DoubleBit(Shl(s, n - 1), j);
      ShlBit(s, n - 1, j - 1);
    }
  }

  lemma TopIsBit(v: Word)
    ensures TopBit(v) == Bit(v, 31)
  {
    BinMaps.Pow32();
    assert Pow2(31) == 0x8000_0000;
    if v < 0x8000_0000 {
      PfxZero(v, 31);
    } else {
      PfxOne(v, 31);
    }
  }

  /** Reading a size left-shifted to level `k` from the top gives its bit below `k`. */
  lemma TopBitIs(s: Word, k: nat)
    requires 1 <= k <= 32
    ensures TopBit(Shl(s, 32 - k)) == Bit(s, k - 1)
    ensures Shl(Shl(s, 32 - k), 1) == Shl(s, 33 - k)
  {
    TopIsBit(Shl(s, 32 - k));
    ShlBit(s, 32 - k, 31);
    assert Shl(Shl(s, 32 - k), 0) == Shl(s, 32 - k);
  }
}
