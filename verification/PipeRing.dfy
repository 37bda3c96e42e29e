/** The bytes of a pipe's ring buffer: length-prefixed messages in slots of equal size. */
module PipeRing {
  import opened Words
  import opened Arithmetic

  type Message = seq<Byte>

  const HEADER: int := 4

  /** `align`. */
  function Align(a: nat, b: nat): (r: nat)
    requires b > 0
    ensures a <= r < a + b && r % b == 0
  {
    if a % b == 0 then a
    else
      AlignUp(a, b);
      a + (b - a % b)
  }

  lemma AlignUp(a: nat, b: nat)
    requires b > 0
    ensures (a + (b - a % b)) % b == 0
  {
    var q := a / b;
    assert a + (b - a % b) == b * (q + 1);
    Peel(0, b, q + 1);
  }

  // ---------------------------------------------------------------- slots

  function Stride(messageSize: nat): (s: nat)
    ensures s >= messageSize + HEADER
  {
    Align(messageSize, 4) + HEADER
  }

  function Overwrite(mem: Message, at: nat, b: Message): (r: Message)
    requires at + |b| <= |mem|
    ensures |r| == |mem|
  {
    mem[..at] + b + mem[at + |b|..]
  }

  /** The slot at offset `off` holds the message. */
  ghost predicate Holds(mem: Message, off: nat, m: Message) {
    && off + HEADER + |m| <= |mem|
    && Decode(mem[off..off + HEADER]) == |m|
    && mem[off + HEADER..off + HEADER + |m|] == m
  }

  /** Position `k` after `pos` in a ring of `total`. */
  function Ring(pos: nat, k: nat, total: nat): int {
    if pos + k >= total then pos + k - total else pos + k
  }

  /** The messages of the queue lie in the slots from `pos` on. */
  ghost predicate Stored(mem: Message, stride: nat, total: nat, pos: nat, queue: seq<Message>) {
    && |queue| <= total
    && (forall k :: 0 <= k < |queue| ==> 0 <= Ring(pos, k, total) < total)
    && (forall k :: 0 <= k < |queue| ==>
         |queue[k]| + HEADER <= stride && Holds(mem, Ring(pos, k, total) * stride, queue[k]))
  }

  lemma SlotBounds(stride: nat, total: nat, k: nat)
    requires k < total
    ensures k * stride + stride <= total * stride
  {
    var d := total - k - 1;
    assert (k + 1 + d) * stride == k * stride + stride + d * stride;
  }

  /** Two slots do not overlap. */
  lemma SlotsApart(stride: nat, i: nat, j: nat)
    requires i != j
    ensures i * stride + stride <= j * stride || j * stride + stride <= i * stride
  {
    if i < j {
      SlotBounds(stride, j, i);
    } else {
      SlotBounds(stride, i, j);
    }
  }

  /** Writing a message into one slot leaves a message in another alone. */
  lemma HoldsElsewhere(mem: Message, off: nat, m: Message, at: nat, b: Message)
    requires Holds(mem, off, m) && at + |b| <= |mem| && (off + HEADER + |m| <= at || at + |b| <= off)
    ensures Holds(Overwrite(mem, at, b), off, m)
  {
    var r := Overwrite(mem, at, b);
    assert r[off..off + HEADER] == mem[off..off + HEADER];
    assert r[off + HEADER..off + HEADER + |m|] == mem[off + HEADER..off + HEADER + |m|];
  }

  /** A message written with its length is held. */
  lemma HoldsWritten(mem: Message, off: nat, m: Message)
    requires off + HEADER + |m| <= |mem| && |m| < W
    ensures Holds(Overwrite(Overwrite(mem, off, Encode(|m|)), off + HEADER, m), off, m)
  {
    DecodeEncode(|m|);
    var r := Overwrite(Overwrite(mem, off, Encode(|m|)), off + HEADER, m);
    assert r[off..off + HEADER] == Encode(|m|);
    assert r[off + HEADER..off + HEADER + |m|] == m;
  }

  /** Writing the next message extends the queue. */
  lemma StoredPush(mem: Message, stride: nat, total: nat, pos: nat, queue: seq<Message>, m: Message)
    requires Stored(mem, stride, total, pos, queue) && pos < total && |queue| < total && |m| + HEADER <= stride
             && |m| < W
    requires total * stride <= |mem|
    ensures 0 <= Ring(pos, |queue|, total) < total
    ensures var off := Ring(pos, |queue|, total) * stride;
            && off + stride <= |mem|
            && Stored(Overwrite(Overwrite(mem, off, Encode(|m|)), off + HEADER, m), stride, total, pos, queue + [m])
  {
    hide Holds;
    hide Overwrite;
    var n := |queue|;
    var i := Ring(pos, n, total);
    SlotBounds(stride, total, i);
    var off := i * stride;
    var mem1 := Overwrite(mem, off, Encode(|m|));
    var mem2 := Overwrite(mem1, off + HEADER, m);
    HoldsWritten(mem, off, m);
    var queue' := queue + [m];
    forall k | 0 <= k < |queue'|
      ensures 0 <= Ring(pos, k, total) < total && |queue'[k]| + HEADER <= stride
              && Holds(mem2, Ring(pos, k, total) * stride, queue'[k])
    {
      if k < n {
        assert queue'[k] == queue[k];
        SlotsApart(stride, i, Ring(pos, k, total));
        PushKeeps(mem, stride, Ring(pos, k, total) * stride, queue[k], off, m);
      }
    }
  }

  lemma PushKeeps(mem: Message, stride: nat, there: nat, q: Message, here: nat, m: Message)
    requires here + stride <= there || there + stride <= here
    requires Holds(mem, there, q) && |q| + HEADER <= stride && |m| + HEADER <= stride && here + stride <= |mem|
             && |m| < W
    ensures Holds(Overwrite(Overwrite(mem, here, Encode(|m|)), here + HEADER, m), there, q)
  {
    hide Holds;
    hide Overwrite;
    HoldsElsewhere(mem, there, q, here, Encode(|m|));
    HoldsElsewhere(Overwrite(mem, here, Encode(|m|)), there, q, here + HEADER, m);
  }

  /** Taking the first message off moves the queue's start to the next slot. */
  lemma StoredPop(mem: Message, stride: nat, total: nat, pos: nat, queue: seq<Message>)
    requires Stored(mem, stride, total, pos, queue) && pos < total && |queue| > 0
    ensures Stored(mem, stride, total, Ring(pos, 1, total), queue[1..])
  {
    hide Holds;
    forall k | 0 <= k < |queue| - 1
      ensures Ring(Ring(pos, 1, total), k, total) == Ring(pos, k + 1, total)
    {
    }
  }

  /** What the first slot says. */
  lemma StoredFirst(mem: Message, stride: nat, total: nat, pos: nat, queue: seq<Message>)
    requires Stored(mem, stride, total, pos, queue) && pos < total && |queue| > 0
    ensures Holds(mem, pos * stride, queue[0])
  {
    assert Ring(pos, 0, total) == pos;
  }
}
