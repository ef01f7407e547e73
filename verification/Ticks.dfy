/** The 32-bit millisecond clock (`system_tick_t`) and its comparison across wrap-around. */
module Ticks {
  const TICK_MODULUS: nat := 0x1_0000_0000
  const HALF_RANGE: nat := 0x8000_0000

  type Tick = t: nat | t < TICK_MODULUS

  /** The reading a 32-bit clock shows at true time `t`. */
  function ToTick(t: nat): Tick {
    t % TICK_MODULUS
  }

  /** Unsigned 32-bit addition. */
  function AddTick(a: Tick, b: nat): Tick {
    (a + b) % TICK_MODULUS
  }

  /** Unsigned 32-bit subtraction. */
  function SubTick(a: Tick, b: Tick): Tick {
    (a - b) % TICK_MODULUS
  }

  /** `time_has_passed`: the two branches of the source, whose bounds are not symmetric. */
  predicate TimeHasPassed(now: Tick, tick: Tick) {
    if now >= tick then now - tick <= 0x7FFF_FFFF else tick - now >= 0x8000_0000
  }

  lemma AddTickOfTrueTime(t: nat, d: nat)
    ensures AddTick(ToTick(t), d) == ToTick(t + d)
  {
  }

  /** Below 2^32 the wrapped distance is the true one. */
  lemma TrueDistance(from: nat, to: nat)
    requires from <= to < from + TICK_MODULUS
    ensures SubTick(ToTick(to), ToTick(from)) == to - from
  {
    assert SubTick(ToTick(to), ToTick(from)) == (to - from) % TICK_MODULUS;
  }

  /** The comparison decides by the wrapped distance, except that at a distance of exactly
      2^31 the answer depends on which reading is the larger one. */
  lemma TimeHasPassedExactly(now: Tick, tick: Tick)
    ensures TimeHasPassed(now, tick) <==>
            SubTick(now, tick) < HALF_RANGE || (SubTick(now, tick) == HALF_RANGE && now < tick)
  {
    if now >= tick {
      assert SubTick(now, tick) == now - tick;
    } else {
      assert SubTick(now, tick) == now - tick + TICK_MODULUS;
    }
  }

  /** For true times less than 2^31 apart the wrapped comparison is the true one. */
  lemma TimeHasPassedIsTrueOrder(now: nat, deadline: nat)
    requires -(HALF_RANGE as int) < now - deadline < HALF_RANGE
    ensures TimeHasPassed(ToTick(now), ToTick(deadline)) <==> now >= deadline
  {
    TimeHasPassedExactly(ToTick(now), ToTick(deadline));
    var d := now - deadline;
    assert SubTick(ToTick(now), ToTick(deadline)) == d % TICK_MODULUS;
    assert d % TICK_MODULUS == if d >= 0 then d else d + TICK_MODULUS;
  }
}
