/**
 * Time driver (src/drv_tiempo.c): converts the hardware tick counter to micro- and
 * milliseconds and programs the periodic hardware tick that drives the alarm service.
 * The tick counter itself is read by the caller and passed in.
 */
module Timing {
  import opened Events

  const U64_MODULUS: int := 0x1_0000_0000_0000_0000

  /** `(uint32_t)ms * (ticks_per_us * 1000u)`: both products are taken modulo 2^32. */
  function PeriodTicks(ms: u32, ticksPerUs: u32): u32
  {
    (ms * ((ticksPerUs * 1000) % U32_MODULUS)) % U32_MODULUS
  }

  lemma {:induction false} ModOfShifted(x: int, k: int)
    ensures (x - U32_MODULUS * k) % U32_MODULUS == x % U32_MODULUS
  {
  }

  /** The programmed period is ms * ticks_per_us * 1000 reduced modulo 2^32, as if the product
      had been taken in one step. */
  lemma {:induction false} PeriodTicksIsProductMod(ms: u32, ticksPerUs: u32)
    ensures PeriodTicks(ms, ticksPerUs) == (ms * ticksPerUs * 1000) % U32_MODULUS
  {
    var a := ticksPerUs * 1000;
    var q := a / U32_MODULUS;
    var m := a % U32_MODULUS;
    assert a == U32_MODULUS * q + m;
    MulDistributes(ms, a, U32_MODULUS * q);
    MulCommutes(ms, U32_MODULUS, q);
    assert ms * m == ms * a - U32_MODULUS * (ms * q);
    ModOfShifted(ms * a, ms * q);
    assert ms * ticksPerUs * 1000 == ms * a;
  }

  lemma {:induction false} MulDistributes(x: int, y: int, z: int)
    ensures x * (y - z) == x * y - x * z
  {
  }

  lemma {:induction false} MulCommutes(x: int, y: int, z: int)
    ensures x * (y * z) == y * (x * z)
  {
  }

  lemma {:induction false} MulMonotone(a: int, b: int, c: nat)
    ensures a <= b ==> a * c <= b * c
  {
    if a <= b {
      assert b * c - a * c == (b - a) * c;
    }
  }

  /** Cancelling a positive factor: a * c < b * c implies a < b. */
  lemma {:induction false} LessFromProducts(a: int, b: int, c: nat)
    requires c > 0 && a * c < b * c
    ensures a < b
  {
    MulMonotone(b, a, c);
  }

  class TimeDriver {
    var started: bool          // s_iniciado
    var ticksPerUs: u32        // s_hal_info.ticks_per_us
    var parameter: u32         // s_parametro: the event id forwarded on every tick
    var hasCallback: bool      // s_funcion != NULL
    var halRegistered: bool    // the periodic callback has been handed to the hardware timer
    var halPeriod: u32         // the period, in ticks, handed to the hardware timer
    var forwarded: seq<Notice> // every (event, aux) pair passed to the stored callback

    /** The static initial state: not started, no callback. */
    constructor ()
      ensures !started && !hasCallback && !halRegistered && parameter == 0 && forwarded == []
    {
      started, ticksPerUs, parameter := false, 0, 0;
      hasCallback, halRegistered, halPeriod := false, false, 0;
      forwarded := [];
    }

    /** `drv_tiempo_iniciar`: the hardware layer reports its ticks per microsecond. */
    method Iniciar(halTicksPerUs: u32) returns (ok: bool)
      modifies this
      ensures ok && started && ticksPerUs == halTicksPerUs
      ensures parameter == old(parameter) && hasCallback == old(hasCallback) && forwarded == old(forwarded)
      ensures halRegistered == old(halRegistered) && halPeriod == old(halPeriod)
    {
      ticksPerUs := halTicksPerUs;
      started := true;
      ok := true;
    }

    /** `drv_tiempo_actual_us` for a 64-bit tick reading: 0 before start or with a zero rate,
        otherwise the whole microseconds elapsed. */
    function ActualUs(ticks: nat): (us: nat)
      reads this
      requires ticks < U64_MODULUS
      ensures !started || ticksPerUs == 0 ==> us == 0
      ensures started && ticksPerUs > 0 ==> us * ticksPerUs <= ticks < (us + 1) * ticksPerUs
    {
      if !started then 0
      else if ticksPerUs == 0 then 0
      else ticks / ticksPerUs
    }

    /** `drv_tiempo_actual_ms`: the whole milliseconds in `ActualUs`. */
    function ActualMs(ticks: nat): (ms: nat)
      reads this
      requires ticks < U64_MODULUS
      ensures ms * 1000 <= ActualUs(ticks) < (ms + 1) * 1000
    {
      ActualUs(ticks) / 1000
    }

    /** Both clocks are monotone in the tick reading. */
    lemma {:induction false} ClocksMonotone(t1: nat, t2: nat)
      requires t1 <= t2 < U64_MODULUS
      ensures ActualUs(t1) <= ActualUs(t2)
      ensures ActualMs(t1) <= ActualMs(t2)
    {
      var u1, u2 := ActualUs(t1), ActualUs(t2);
      if started && ticksPerUs > 0 {
        LessFromProducts(u1, u2 + 1, ticksPerUs);
      }
      LessFromProducts(ActualMs(t1), ActualMs(t2) + 1, 1000);
    }

    /** `drv_tiempo_periodico_ms`: nothing before start or without a callback; otherwise stores the
        event id and the callback and programs the hardware period in ticks. */
    method PeriodicoMs(ms: u32, callbackPresent: bool, eventId: u32)
      modifies this
      ensures !old(started) || !callbackPresent ==> unchanged(this)
      ensures old(started) && callbackPresent ==>
        parameter == eventId && hasCallback && halRegistered &&
        halPeriod == (ms * ticksPerUs * 1000) % U32_MODULUS
      ensures started == old(started) && ticksPerUs == old(ticksPerUs) && forwarded == old(forwarded)
    {
      if !started || !callbackPresent {
        return;
      }
      var periodInTicks := PeriodTicks(ms, ticksPerUs);
      PeriodTicksIsProductMod(ms, ticksPerUs);
      parameter := eventId;
      hasCallback := true;
      halPeriod, halRegistered := periodInTicks, true;
    }

    /** `drv_funcion_callback_app`, run on every hardware period: forwards (stored event id, 0). */
    method CallbackApp()
      modifies this
      ensures forwarded == old(forwarded) + (if hasCallback then [Notice(parameter, 0)] else [])
      ensures started == old(started) && ticksPerUs == old(ticksPerUs) && parameter == old(parameter)
      ensures hasCallback == old(hasCallback) && halRegistered == old(halRegistered) && halPeriod == old(halPeriod)
    {
      if hasCallback {
        forwarded := forwarded + [Notice(parameter, 0)];
      }
    }
  }
}
