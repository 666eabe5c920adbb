/**
 Shared types of the traffic analyser: the parsed packet record, the
 bounds of the C++ integer types it uses, and an Option type for
 operations that can fail.
 */
module Packets {

  /** Bounds of a 32-bit C++ `int`. */
  const IntMin: int := -0x8000_0000
  const IntMax: int := 0x7FFF_FFFF

  /** Bounds of a 64-bit C++ `long long`. */
  const LongMin: int := -0x8000_0000_0000_0000
  const LongMax: int := 0x7FFF_FFFF_FFFF_FFFF

  /** The values a C++ `int` can hold. */
  type Int32 = x: int | IntMin <= x <= IntMax

  /** One parsed line of the traffic log (the `Packet` struct). */
  datatype Packet = Packet(
    timestamp: string,
    srcIP: string,
    destIP: string,
    protocol: string,
    packetSize: Int32)

  /** Some(v) for a successful operation, None for one that fails. */
  datatype Option<+T> = None | Some(value: T) {

    predicate IsFailure() {
      None?
    }

    function PropagateFailure<U>(): Option<U>
      requires None?
    {
      None
    }

    function Extract(): T
      requires Some?
    {
      value
    }
  }
}
