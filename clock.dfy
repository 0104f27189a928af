/** The free-running 32-bit microsecond counter the pad reads once per loop,
    and the wrap-safe unsigned difference the source uses for every timer. */
module Clock {

  /** 2^32: the counter, and every unsigned difference of two of its readings,
      lives modulo this value. */
  const Modulus: int := 0x1_0000_0000

  /** A reading of the counter, or a duration held in a 32-bit unsigned field. */
  type U32 = x: int | 0 <= x < Modulus

  /** `(uint32_t)(now - since)`: the time elapsed since `since`, correct across
      one counter overflow. */
  function Elapsed(now: U32, since: U32): (d: U32)
    ensures since <= now ==> d == now - since
    ensures now < since ==> d == Modulus - since + now
  {
    (now - since) % Modulus
  }

  /** The reading `d` microseconds after `since`, wrapped like the counter. */
  function Later(since: U32, d: nat): (r: U32)
    ensures d < Modulus - since ==> r == since + d
  {
    (since + d) % Modulus
  }

  /** Wrap-safety: however the counter overflows in between, the elapsed time
      from `since` to a reading `d` microseconds later is `d`, for any span
      shorter than the counter's period. */
  lemma ElapsedAfterLater(since: U32, d: nat)
    requires d < Modulus
    ensures Elapsed(Later(since, d), since) == d
  {
    if since + d < Modulus {
      assert Later(since, d) == since + d;
    } else {
      assert Later(since, d) == since + d - Modulus;
    }
  }
}
