/**
 * The machine types the firmware is written against: Arduino's `byte` and
 * `unsigned long` (32 bits on the boards this firmware targets), the
 * wrap-around difference of two `millis()` readings, and the UID record
 * the card reader driver fills in.
 */
module Platform {

  newtype byte = x: int | 0 <= x < 0x100

  /** Arduino's `unsigned long`, the type of `millis()`. */
  newtype u32 = x: int | 0 <= x < 0x1_0000_0000

  const U32_LIMIT: int := 0x1_0000_0000

  /**
   * `now - since` on two `unsigned long` values: the subtraction wraps
   * modulo 2^32, so a reading taken after `millis()` rolled over still gives
   * the elapsed time since `since`.
   */
  function Elapsed(now: u32, since: u32): (r: u32)
    ensures r as int == if since <= now then now as int - since as int
                        else now as int - since as int + U32_LIMIT
    ensures (since as int + r as int) % U32_LIMIT == now as int
  {
    ((now as int - since as int) % U32_LIMIT) as u32
  }

  datatype Option<T> = None | Some(value: T)

  /** `MFRC522::Uid::uidByte`: a fixed buffer of ten bytes. */
  type UidBuffer = s: seq<byte> | |s| == 10 witness [0, 0, 0, 0, 0, 0, 0, 0, 0, 0]

  /** `MFRC522::Uid`: how many bytes of the buffer the card filled, and the buffer. */
  datatype Uid = Uid(size: byte, uidByte: UidBuffer)
}
