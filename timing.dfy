/** The firmware's clock: `millis()` is a 32-bit unsigned millisecond counter
    that wraps around to 0 after 2^32 ms, and both interval gates of the loop
    compare an unsigned difference `now - since` against a period. */
module Timing {

  const MODULUS: int := 0x1_0000_0000

  /** An `unsigned long` / `uint32_t` of the ESP8266. */
  newtype u32 = x: int | 0 <= x < 0x1_0000_0000

  /** What `millis()` reads when `t` milliseconds have really elapsed since boot. */
  function Wrap(t: nat): (r: u32)
    ensures t < MODULUS ==> r as int == t
  {
    (t % MODULUS) as u32
  }

  /** The unsigned 32-bit subtraction `now - since`. */
  function Elapsed(now: u32, since: u32): (r: u32)
    ensures since <= now ==> r as int == now as int - since as int
    ensures now < since ==> r as int == now as int - since as int + MODULUS
  {
    ((now as int - since as int) % MODULUS) as u32
  }

  /** The gate `Elapsed(now, since) >= period`. */
  predicate GateOpen(now: u32, since: u32, period: u32)
  {
    Elapsed(now, since) >= period
  }

  /** The wrap-around subtraction gives the true elapsed time whenever less
      than 2^32 ms have passed, even when the counter wrapped in between. */
  lemma ElapsedAcrossWrap(start: nat, now: nat)
    requires start <= now < start + MODULUS
    ensures Elapsed(Wrap(now), Wrap(start)) as int == now - start
  {
  }

  /** So each gate opens exactly when the true elapsed time reaches its period. */
  lemma GateOpenAcrossWrap(start: nat, now: nat, period: u32)
    requires start <= now < start + MODULUS
    ensures GateOpen(Wrap(now), Wrap(start), period) <==> now - start >= period as int
  {
    ElapsedAcrossWrap(start, now);
  }
}
