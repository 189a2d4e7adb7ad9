/** Event kinds and records shared by the run-time (src/rt_evento_t.h). */
module Events {

  /** Unsigned 32-bit value, as `uint32_t` in the source. */
  type u32 = x: int | 0 <= x < 0x1_0000_0000

  /** Unsigned 8-bit value, as `uint8_t` in the source. */
  type u8 = x: int | 0 <= x < 0x100

  const U32_MODULUS: int := 0x1_0000_0000

  // The event enumeration EVENTO_T.
  const EV_VOID: u32 := 0
  const EV_T_PERIODICO: u32 := 1
  const EV_PULSAR_BOTON: u32 := 2
  const EV_INACTIVIDAD: u32 := 3
  const EV_BOTON_TIMER: u32 := 4
  const EV_USUARIO_1: u32 := 5
  const EV_JUEGO_NUEVO_LED: u32 := 6
  const EV_JUEGO_TIMEOUT: u32 := 7
  const EV_SOLTAR_BOTON: u32 := 8

  /** Number of event kinds (EVENT_TYPES); a kind at or above it is not a member of the enumeration. */
  const EVENT_TYPES: nat := 9

  /** A queued event: its kind, its payload and the timestamp taken when it was queued. */
  datatype Event = Event(kind: u32, aux: u32, ts: nat)

  /** A (kind, aux) pair handed to the enqueue callback `rt_FIFO_encolar`. */
  datatype Notice = Notice(kind: u32, aux: u32)

  datatype Option<T> = None | Some(value: T)
}
