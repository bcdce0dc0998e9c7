/** Types shared by all components: bytes, identifiers, instants, optional values. */
module Basics {

  type byte = bv8

  /** A UUID is 16 bytes; uuid.FromBytes and MarshalBinary copy them. */
  type Guid = g: seq<byte> | |g| == 16 witness seq(16, _ => 0)

  datatype Option<+T> = None | Some(value: T)

  datatype Result<+T, +E> = Ok(value: T) | Err(error: E)

  /** Instants and durations in nanoseconds. */
  type Time = int

  const SECOND: Time := 1_000_000_000
  const MINUTE: Time := 60 * SECOND

  /** The zero time.Time, the start of year 1, counted from 1970. */
  const ZERO_TIME: Time := -62_135_596_800 * SECOND

  function Abs(x: int): nat {
    if x < 0 then -x else x
  }
}
