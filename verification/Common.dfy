/** Values shared by every component of the SwordFS model. */
module Common {

  datatype Option<+T> = None | Some(value: T)

  /** The status classes of the source that callers branch on. */
  datatype Status =
    | Ok
    | InvalidArgument
    | Malformed
    | NotFound
    | AlreadyExists
    | WouldBlock
    | NoLocks
    | Unavailable
    | Busy
    | IOError
    | OutcomeUnknown
    | NotSupported
    | NotPermitted
    | NoData
    | OutOfRange

  datatype Result<+T> = Success(value: T) | Failure(error: Status)

  const UINT32_MAX: nat := 0xFFFF_FFFF
  const INT32_MAX: nat := 0x7FFF_FFFF
  const UINT64_MAX: nat := 0xFFFF_FFFF_FFFF_FFFF
  const INT64_MAX: nat := 0x7FFF_FFFF_FFFF_FFFF

  type u32 = x: int | 0 <= x <= UINT32_MAX
  type byte = x: int | 0 <= x < 256

  function Min(a: int, b: int): int { if a < b then a else b }

  function Max(a: int, b: int): int { if a < b then b else a }
}
