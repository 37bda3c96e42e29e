/** Reading a 64-bit counter through two 32-bit registers while it runs. */
module SystemTimers {
  import opened Words

  const W64: int := W * W

  /** The counter at the instant of each register read; it never runs backwards and never wraps. */
  ghost predicate Counter(ticks: nat -> int) {
    && (forall k: nat :: 0 <= ticks(k) < W64)
    && (forall j: nat, k: nat :: j <= k ==> ticks(j) <= ticks(k))
  }

  function Upper(t: int): int { t / W }

  function Lower(t: int): int { t % W }

  lemma UpperMono(a: int, b: int)
    requires 0 <= a <= b < W64
    ensures 0 <= Upper(a) <= Upper(b) < W
  {
    assert a == W * Upper(a) + Lower(a) && b == W * Upper(b) + Lower(b);
  }

  /** Of the three reads from number `n` on, the two of the high word agree. */
  ghost predicate Agrees(ticks: nat -> int, n: nat) {
    Upper(ticks(n)) == Upper(ticks(n + 2))
  }

  /** The first `k` rounds of three reads from number `first` on did not agree. */
  ghost predicate NoneAgreed(ticks: nat -> int, first: nat, k: nat) {
    forall j: nat :: j < k ==> !Agrees(ticks, first + 3 * j)
  }

  lemma NoneYet(ticks: nat -> int, first: nat, k: nat)
    requires NoneAgreed(ticks, first, k) && !Agrees(ticks, first + 3 * k)
    ensures NoneAgreed(ticks, first, k + 1)
  {
  }

  lemma Later(ticks: nat -> int, j: nat, k: nat)
    requires Counter(ticks) && j <= k
    ensures 0 <= ticks(j) <= ticks(k) < W64 && 0 <= Upper(ticks(j)) <= Upper(ticks(k)) < W
  {
    UpperMono(ticks(j), ticks(k));
  }

  /**
    High word, low word and high word are read until the two reads of the high word agree, so that the last two belong
    together: the time is 1000 times the counter at the last read of the low word, as far as 64 bits reach.  `first` is
    the number of register reads made before, `next` that of those made after; the low word was read last but one.
   */
  method GetTime(ticks: nat -> int, first: nat) returns (time: int, next: nat, ghost rounds: nat)
    requires Counter(ticks)
    ensures next == first + 3 * rounds + 3 && NoneAgreed(ticks, first, rounds) && Agrees(ticks, first + 3 * rounds)
    ensures time == ticks(next - 2) * 1000 % W64
  {
    hide Counter;
    hide NoneAgreed;
    hide Upper;
    hide Lower;
    var n := first;
    rounds := 0;
    var upper1 := Upper(ticks(n));
    var lower := Lower(ticks(n + 1));
    var upper2 := Upper(ticks(n + 2));
    Later(ticks, n, n + 2);
    NoneBefore(ticks, first);
    while upper1 != upper2
      invariant n == first + 3 * rounds && NoneAgreed(ticks, first, rounds)
      invariant upper1 == Upper(ticks(n)) && lower == Lower(ticks(n + 1)) && upper2 == Upper(ticks(n + 2))
      invariant 0 <= upper1 <= upper2 < W
      decreases W - upper1
    {
      NoneYet(ticks, first, rounds);
      Later(ticks, n + 2, n + 3);
      n, rounds := n + 3, rounds + 1;
      upper1 := Upper(ticks(n));
      lower := Lower(ticks(n + 1));
      upper2 := Upper(ticks(n + 2));
      Later(ticks, n, n + 2);
    }
    Later(ticks, n, n + 1);
    Later(ticks, n + 1, n + 2);
    next := n + 3;
    var timer := upper1 * W % W64;
    timer := (timer + lower) % W64;
    Together(ticks(n + 1));
    time := timer * 1000 % W64;
  }

  lemma NoneBefore(ticks: nat -> int, first: nat)
    ensures NoneAgreed(ticks, first, 0)
  {
  }

  lemma UpperFits(u: int)
    requires 0 <= u < W
    ensures 0 <= u * W <= W64 - W && u * W % W64 == u * W
  {
    assert u * W <= (W - 1) * W;
  }

  lemma Together(t: int)
    requires 0 <= t < W64
    ensures (Upper(t) * W % W64 + Lower(t)) % W64 == t
  {
    UpperMono(0, t);
    UpperFits(Upper(t));
    assert Upper(t) * W + Lower(t) == t;
  }

  /**
    Of two readings, with other reads of the registers between them, the later one is not smaller, if 1000 times the
    counter still fits in 64 bits at the end.
   */
  method NeverBackwards(ticks: nat -> int, first: nat, others: nat) returns (time1: int, time2: int, next: nat)
    requires Counter(ticks)
    ensures next >= first + 6 + others
    ensures ticks(next) * 1000 < W64 ==> ticks(first) * 1000 <= time1 <= time2 <= ticks(next) * 1000
  {
    hide Counter;
    hide Agrees;
    hide NoneAgreed;
    ghost var rounds;
    time1, next, rounds := GetTime(ticks, first);
    ghost var one := next - 2;
    time2, next, rounds := GetTime(ticks, next + others);
    Later(ticks, first, one);
    Later(ticks, one, next - 2);
    Later(ticks, next - 2, next);
    if ticks(next) * 1000 < W64 {
      Fits(ticks(one), ticks(next));
      Fits(ticks(next - 2), ticks(next));
    }
  }

  lemma Fits(t: int, end: int)
    requires 0 <= t <= end && end * 1000 < W64
    ensures t * 1000 % W64 == t * 1000
  {
  }
}
