/** What several parts share. */
module Common {

  datatype Option<T> = None | Some(value: T)

  /** System ticks are 32-bit and wrap. */
  const TICK_MODULO := 0x1_0000_0000

  /** `time_after(a, b)`: the 32-bit difference b - a is negative. */
  predicate TimeAfter(a: int, b: int) {
    (b - a) % TICK_MODULO >= TICK_MODULO / 2
  }

  /** The 32-bit difference of two readings is that of the times they stand for. */
  lemma TickDifference(a: int, b: int)
    ensures (b % TICK_MODULO - a % TICK_MODULO) % TICK_MODULO == (b - a) % TICK_MODULO
  {
    var q := b / TICK_MODULO - a / TICK_MODULO;
    assert b - a == q * TICK_MODULO + (b % TICK_MODULO - a % TICK_MODULO);
  }

  lemma TickSum(a: int, d: int)
    ensures (a % TICK_MODULO + d) % TICK_MODULO == (a + d) % TICK_MODULO
  {
    assert a + d == (a / TICK_MODULO) * TICK_MODULO + (a % TICK_MODULO + d);
  }

  /** On a clock that does not wrap, for times at most half a turn apart, `time_after` is the order. */
  lemma TimeAfterMeaning(a: int, b: int)
    requires -TICK_MODULO / 2 < a - b <= TICK_MODULO / 2
    ensures TimeAfter(a % TICK_MODULO, b % TICK_MODULO) <==> a > b
  {
    TickDifference(a, b);
  }

  lemma TickMultiple(x: int, q: int)
    ensures (x + q * TICK_MODULO) % TICK_MODULO == x % TICK_MODULO
  {
  }

  /** The same, for a deadline that is not reduced to 32 bits. */
  lemma DeadlineMeaning(t: int, s: int, wait: int)
    requires -TICK_MODULO / 2 < t - (s + wait) <= TICK_MODULO / 2
    ensures TimeAfter(t % TICK_MODULO, s % TICK_MODULO + wait) <==> t > s + wait
  {
    var q := s / TICK_MODULO - t / TICK_MODULO;
    var x := s % TICK_MODULO + wait - t % TICK_MODULO;
    assert s + wait - t == x + q * TICK_MODULO;
    TickMultiple(x, q);
  }
}
