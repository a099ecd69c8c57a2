/** 32-bit tick arithmetic: what the unsigned comparisons of timer.c mean for true, unbounded times. */
module Ticks {

  const TICK_MOD: int := 0x1_0000_0000
  const TICK_MAX: int := 0xFFFF_FFFF   // RT_TICK_MAX
  const HALF: int := TICK_MAX / 2      // the bound used by every comparison

  /** The rt_tick_t value of an unbounded time. */
  function Wrap(t: int): (r: int)
    ensures 0 <= r < TICK_MOD
  {
    t % TICK_MOD
  }

  /** Unsigned 32-bit subtraction. */
  function Sub(a: int, b: int): (r: int)
    ensures 0 <= r < TICK_MOD
  {
    (a - b) % TICK_MOD
  }

  lemma SubWrap(a: int, b: int)
    ensures Sub(Wrap(a), Wrap(b)) == Wrap(a - b)
  {
    var qa, qb := a / TICK_MOD, b / TICK_MOD;
    assert a - b == (Wrap(a) - Wrap(b)) + (qa - qb) * TICK_MOD;
    ModShift(Wrap(a) - Wrap(b), qa - qb);
  }

  lemma ModShift(x: int, q: int)
    ensures (x + q * TICK_MOD) % TICK_MOD == x % TICK_MOD
  {
    var y := x + q * TICK_MOD;
    assert y == (x / TICK_MOD + q) * TICK_MOD + x % TICK_MOD;
    ModUnique(y, x / TICK_MOD + q, x % TICK_MOD);
  }

  lemma ModUnique(y: int, q: int, r: int)
    requires y == q * TICK_MOD + r && 0 <= r < TICK_MOD
    ensures y % TICK_MOD == r
  {
    assert y == (y / TICK_MOD) * TICK_MOD + y % TICK_MOD;
    assert (y / TICK_MOD - q) * TICK_MOD == r - y % TICK_MOD;
  }

  /** "a is later than b", as rt_timer_start tests it, gives the right answer exactly when the true
      distance a - b lies in [HALF - 2^32, HALF): the window in which timers may be compared. */
  lemma LaterExact(a: int, b: int)
    requires -TICK_MOD < a - b < TICK_MOD
    ensures (Sub(Wrap(a), Wrap(b)) == 0) <==> a == b
    ensures (Sub(Wrap(a), Wrap(b)) != 0 && Sub(Wrap(a), Wrap(b)) < HALF <==> a > b)
            <==> HALF - TICK_MOD <= a - b < HALF
  {
    SubWrap(a, b);
    if a >= b { ModUnique(a - b, 0, a - b); } else { ModUnique(a - b, -1, a - b + TICK_MOD); }
  }

  /** The comparison of rt_timer_start: a is later than b, by their 32-bit images. */
  predicate Later(a: int, b: int) {
    Sub(Wrap(a), Wrap(b)) != 0 && Sub(Wrap(a), Wrap(b)) < HALF
  }

  /** It tells the truth. */
  predicate Truthful(a: int, b: int) {
    Later(a, b) <==> a > b
  }

  /** "deadline d has been reached at time t", as rt_timer_check tests it. */
  lemma ExpiredExact(t: int, d: int)
    requires -TICK_MOD < t - d < TICK_MOD
    ensures (Sub(Wrap(t), Wrap(d)) < HALF <==> d <= t) <==> HALF - TICK_MOD <= t - d < HALF
  {
    SubWrap(t, d);
    if t >= d { ModUnique(t - d, 0, t - d); } else { ModUnique(t - d, -1, t - d + TICK_MOD); }
  }

  lemma WrapAdd(t: int, k: int)
    ensures (Wrap(t) + k) % TICK_MOD == Wrap(t + k)
  {
    assert t + k == (Wrap(t) + k) + (t / TICK_MOD) * TICK_MOD;
    ModShift(Wrap(t) + k, t / TICK_MOD);
  }
}
