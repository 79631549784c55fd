/**
 The 12-bit sequence-number arithmetic of the receive path, and what it means for the
 unbounded ("unwrapped") numbers that the rest of the reorder model is written in.
 */
module SequenceNumbers {

  const MODULO := 0x1000

  type SeqNum = s: int | 0 <= s < MODULO

  /** The 12-bit number that is on the air for unwrapped number `u`. */
  function Wrap(u: int): SeqNum {
    u % MODULO
  }

  /** `seq_less`: masking with 0xfff is reduction modulo 4096, also for negative differences. */
  predicate SeqLess(a: int, b: int) {
    (a - b) % MODULO > MODULO / 2
  }

  function SeqInc(a: int): SeqNum {
    (a + 1) % MODULO
  }

  function SeqSub(a: int, b: int): SeqNum {
    (a - b) % MODULO
  }

  /** The unwrapped number a received 12-bit number stands for when the window starts at `head`. */
  function Unwrap(head: int, s: SeqNum): int {
    var ahead := (s - head) % MODULO;
    if ahead <= MODULO / 2 then head + ahead else head + ahead - MODULO
  }

  // ---- Remainders ----

  lemma MultipleAtLeast(k: int, d: nat)
    requires k >= 1
    ensures k * d >= d
  {
  }

  /** A multiple of `d` strictly between `-d` and `d` is zero. */
  lemma SmallMultiple(k: int, d: nat)
    requires 0 < k * d + d && k * d < d
    ensures k == 0
  {
    if k >= 1 {
      MultipleAtLeast(k, d);
    } else if k <= -1 {
      MultipleAtLeast(-k, d);
    }
  }

  /** The remainder is characterised by any decomposition of the dividend. */
  lemma RemainderUnique(x: int, d: nat, q: int, r: int)
    requires d > 0 && x == q * d + r && 0 <= r < d
    ensures x % d == r
  {
    var p, t := x / d, x % d;
    assert x == p * d + t;
    assert (q - p) * d == q * d - p * d;
    SmallMultiple(q - p, d);
  }

  // ---- What the 12-bit comparisons mean ----

  lemma WrapDifference(u: int, v: int)
    ensures (Wrap(u) - v) % MODULO == (u - v) % MODULO
    ensures (v - Wrap(u)) % MODULO == (v - u) % MODULO
  {
    var q := u / MODULO;
    assert u == q * MODULO + Wrap(u);
    RemainderUnique(u - v, MODULO, q + (Wrap(u) - v) / MODULO, (Wrap(u) - v) % MODULO);
    RemainderUnique(v - u, MODULO, (v - Wrap(u)) / MODULO - q, (v - Wrap(u)) % MODULO);
  }

  lemma NearRemainder(x: int)
    requires -MODULO <= x < MODULO
    ensures x % MODULO == if x < 0 then x + MODULO else x
  {
    RemainderUnique(x, MODULO, if x < 0 then -1 else 0, if x < 0 then x + MODULO else x);
  }

  /** Reading a 12-bit number back gives the nearest number that has it, and `seq_less` against
      the head tells exactly whether that number lies behind the head. */
  lemma UnwrapIsNearest(head: int, s: SeqNum)
    ensures Wrap(Unwrap(head, s)) == s
    ensures -MODULO / 2 < Unwrap(head, s) - head <= MODULO / 2
    ensures SeqLess(s, Wrap(head)) <==> Unwrap(head, s) < head
  {
    var ahead := (s - head) % MODULO;
    WrapDifference(head, s);
    assert s - head == ((s - head) / MODULO) * MODULO + ahead;
    RemainderUnique(head + ahead, MODULO, -((s - head) / MODULO), s);
    RemainderUnique(head + ahead - MODULO, MODULO, -((s - head) / MODULO) - 1, s);
  }

  /** `seq_less` decides the true order of two numbers exactly as long as they are less than half
      the number space apart; at a distance of exactly half it answers "no" both ways. */
  lemma SeqLessIsOrder(u: int, v: int)
    requires -MODULO / 2 <= u - v <= MODULO / 2
    ensures (SeqLess(Wrap(u), Wrap(v)) <==> u < v) <==> v - u != MODULO / 2
    ensures v - u == MODULO / 2 ==> !SeqLess(Wrap(u), Wrap(v)) && !SeqLess(Wrap(v), Wrap(u))
  {
    WrapDifference(u, Wrap(v));
    WrapDifference(v, u);
    NearRemainder(u - v);
    NearRemainder(v - u);
  }

  /** `seq_less(head, to)` holds exactly when `to` lies 1 to 2047 numbers ahead of the head. */
  lemma SeqLessAhead(head: int, to: SeqNum)
    ensures SeqLess(Wrap(head), to) <==> 1 <= (to - head) % MODULO <= MODULO / 2 - 1
  {
    WrapDifference(head, to);
    var d := (to - head) % MODULO;
    assert to - head == ((to - head) / MODULO) * MODULO + d;
    RemainderUnique(head - to, MODULO, if d == 0 then -((to - head) / MODULO) else -((to - head) / MODULO) - 1,
                    if d == 0 then 0 else MODULO - d);
  }

  lemma WrapNext(u: int)
    ensures SeqInc(Wrap(u)) == Wrap(u + 1)
  {
    WrapDifference(u, -1);
  }

  // ---- Slot arithmetic: the ring index of a number, for a ring of `size` slots ----

  function SlotOf(u: int, ssn: int, size: nat): (i: nat)
    requires size > 0
    ensures i < size
  {
    (u - ssn) % size
  }

  lemma SlotPeriodic(u: int, ssn: int, size: nat)
    requires size > 0
    ensures SlotOf(u + size, ssn, size) == SlotOf(u, ssn, size)
  {
    var x := u - ssn;
    assert x == (x / size) * size + x % size;
    assert x + size == (x / size + 1) * size + x % size;
    RemainderUnique(x + size, size, x / size + 1, x % size);
  }

  lemma SlotNext(u: int, ssn: int, size: nat)
    requires size > 0
    ensures SlotOf(u + 1, ssn, size) == (SlotOf(u, ssn, size) + 1) % size
  {
    var x := u - ssn;
    assert x == (x / size) * size + x % size;
    if x % size + 1 < size {
      RemainderUnique(x + 1, size, x / size, x % size + 1);
      RemainderUnique(x % size + 1, size, 0, x % size + 1);
    } else {
      assert x + 1 == (x / size + 1) * size;
      RemainderUnique(x + 1, size, x / size + 1, 0);
      RemainderUnique(size, size, 1, 0);
    }
  }

  /** Numbers less than `size` apart never share a slot. */
  lemma SlotDistinct(u: int, v: int, ssn: int, size: nat)
    requires size > 0 && u < v < u + size
    ensures SlotOf(u, ssn, size) != SlotOf(v, ssn, size)
  {
    var x, y := u - ssn, v - ssn;
    var p, q := x / size, y / size;
    assert x == p * size + x % size;
    assert y == q * size + y % size;
    if x % size == y % size {
      assert (q - p) * size == q * size - p * size;
      SmallMultiple(q - p, size);
    }
  }

  /** The number of the window starting at `head` that lives in slot `i`. */
  function NumberAt(i: nat, head: int, ssn: int, size: nat): (u: int)
    requires size > 0
    ensures head <= u < head + size
  {
    head + (i + ssn - head) % size
  }

  lemma NumberAtSlot(i: nat, head: int, ssn: int, size: nat)
    requires i < size
    ensures SlotOf(NumberAt(i, head, ssn, size), ssn, size) == i
  {
    var y := i + ssn - head;
    assert y == (y / size) * size + y % size;
    assert NumberAt(i, head, ssn, size) - ssn == i - (y / size) * size;
    assert i - (y / size) * size == (-(y / size)) * size + i;
    RemainderUnique(NumberAt(i, head, ssn, size) - ssn, size, -(y / size), i);
  }

  /** The index computed by the driver from the 12-bit numbers. */
  function RingIndex(s: int, ssn: int, size: nat): (i: nat)
    requires size > 0
    ensures i < size
  {
    SeqSub(s, ssn) % size
  }

  predicate Divides4096(size: nat) {
    size > 0 && MODULO % size == 0
  }

  /** When the ring size divides 4096, going through the 12-bit numbers changes nothing. */
  lemma RingIndexIsSlot(u: int, ssn: int, size: nat)
    requires Divides4096(size)
    ensures RingIndex(Wrap(u), ssn, size) == SlotOf(u, ssn, size)
  {
    var k := MODULO / size;
    assert MODULO == k * size;
    WrapDifference(u, ssn);
    var x := u - ssn;
    var y := x % MODULO;
    var q := x / MODULO;
    assert y == (y / size) * size + y % size;
    assert x == q * MODULO + y;
    assert q * MODULO == (q * k) * size by {
      assert q * (k * size) == (q * k) * size;
    }
    assert x == (q * k + y / size) * size + y % size;
    RemainderUnique(x, size, q * k + y / size, y % size);
  }

  /** No two numbers of a `size`-wide window starting at `head` share a ring index. */
  ghost predicate WindowFits(head: int, ssn: int, size: nat)
    requires size > 0
  {
    forall u, v | head <= u < v < head + size ::
      RingIndex(Wrap(u), ssn, size) != RingIndex(Wrap(v), ssn, size)
  }

  /** Slots never collide, wherever the window stands, if and only if the ring size divides 4096. */
  lemma NoCollisionIffDivides(ssn: int, size: nat)
    requires 2 <= size <= MODULO
    ensures (forall head :: WindowFits(head, ssn, size)) <==> Divides4096(size)
  {
    if Divides4096(size) {
      forall head
        ensures WindowFits(head, ssn, size)
      {
        forall u, v | head <= u < v < head + size
          ensures RingIndex(Wrap(u), ssn, size) != RingIndex(Wrap(v), ssn, size)
        {
          RingIndexIsSlot(u, ssn, size);
          RingIndexIsSlot(v, ssn, size);
          SlotDistinct(u, v, ssn, size);
        }
      }
    } else {
      CollisionAtWrap(ssn, size);
      assert !WindowFits(ssn + MODULO - 1, ssn, size);
    }
  }

  /** The colliding pair: the last number before the wrap and one of the first `size - 1` after it. */
  lemma CollisionAtWrap(ssn: int, size: nat)
    requires 2 <= size <= MODULO && !Divides4096(size)
    ensures !WindowFits(ssn + MODULO - 1, ssn, size)
  {
    var head := ssn + MODULO - 1;
    var r := (MODULO - 1) % size;
    assert MODULO - 1 == ((MODULO - 1) / size) * size + r;
    if r == size - 1 {
      assert MODULO == ((MODULO - 1) / size + 1) * size;
      RemainderUnique(MODULO, size, (MODULO - 1) / size + 1, 0);
      assert false;
    }
    var v := ssn + MODULO + r;
    WrapDifference(head, ssn);
    WrapDifference(v, ssn);
    RemainderUnique(MODULO + r, MODULO, 1, r);
    NearRemainder(MODULO - 1);
    RemainderUnique(r, size, 0, r);
    assert RingIndex(Wrap(head), ssn, size) == RingIndex(Wrap(v), ssn, size);
  }
}
