/** The FreeRTOS tick counter (TickType_t, 32 bits wide) and the
    millisecond-to-tick conversion pdMS_TO_TICKS. */
module Ticks {
  import opened Types

  /** TickType_t: an unsigned 32-bit counter that wraps to 0. */
  type Tick = uint32

  /** configTICK_RATE_HZ: one tick per millisecond. */
  const TICK_RATE_HZ: nat := 1000

  /** `now - start` computed in TickType_t: unsigned subtraction modulo 2^32. */
  function Elapsed(now: Tick, start: Tick): (d: Tick)
    ensures Advance(start, d) == now
    ensures start <= now ==> d == now - start
    ensures now < start ==> d == now + UINT32_LIMIT - start
  {
    (now - start) % UINT32_LIMIT
  }

  /** The tick counter `d` ticks after `t`, wrapping around at 2^32. */
  function Advance(t: Tick, d: nat): (r: Tick)
    ensures t + d < UINT32_LIMIT ==> r == t + d
    ensures UINT32_LIMIT <= t + d < 2 * UINT32_LIMIT ==> r == t + d - UINT32_LIMIT
  {
    (t + d) % UINT32_LIMIT
  }

  /** Subtracting the start from a later counter recovers the number of ticks
      in between, also across a wrap-around of the counter. */
  lemma ElapsedAfterAdvance(t: Tick, d: Tick)
    ensures Elapsed(Advance(t, d), t) == d
  {
  }

  /** pdMS_TO_TICKS(ms): ms * configTICK_RATE_HZ / 1000, computed in 64 bits
      and truncated to TickType_t. */
  function MsToTicks(ms: uint32): (t: Tick)
    ensures t == ms
  {
    MsToTicksIdentity(ms);
    (ms * TICK_RATE_HZ / 1000) % UINT32_LIMIT
  }

  /** At one tick per millisecond the conversion loses nothing. */
  lemma MsToTicksIdentity(ms: uint32)
    ensures (ms * TICK_RATE_HZ / 1000) % UINT32_LIMIT == ms
  {
  }
}
