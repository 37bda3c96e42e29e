/** Quotients and remainders of sums. */
module Arithmetic {

  lemma MulGe(w: int, d: int)
    requires w > 0
    ensures d >= 1 ==> w * d >= w
    ensures d <= -1 ==> w * d <= -w
  {
  }

  /** Peels the lowest field `f`, `width` values wide, off a sum of fields. */
  lemma Peel(f: int, width: int, rest: int)
    requires 0 <= f < width
    ensures (f + width * rest) / width == rest && (f + width * rest) % width == f
  {
    var d := f + width * rest;
    assert d == width * (d / width) + d % width;
    assert width * (d / width - rest) == width * (d / width) - width * rest;
    MulGe(width, d / width - rest);
  }
}
