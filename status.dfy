/**
 * NTSTATUS codes as the signed 32-bit values the native calls return, and the
 * rule by which both variable-length queries grow their buffer.
 */
module NtStatus {

  type i32 = x: int | -0x8000_0000 <= x < 0x8000_0000

  const Success: i32 := 0
  /** 0xC0000004 read as a signed 32-bit value. */
  const InfoLengthMismatch: i32 := 0xC000_0004 - 0x1_0000_0000
  /** 0x80000005 read as a signed 32-bit value. */
  const BufferOverflow: i32 := 0x8000_0005 - 0x1_0000_0000

  /** Buffer length of the first system handle table query. */
  const InitialTableLength: int := 0x1_0000
  /** Buffer length of the first object name query. */
  const InitialNameLength: int := 0x1000

  /** Statuses on which the system handle table query is retried with a larger buffer. */
  predicate IsTableRetry(status: int)
  {
    status == InfoLengthMismatch
  }

  /** Statuses on which the object name query is retried with a larger buffer. */
  predicate IsNameRetry(status: int)
  {
    status == BufferOverflow || status == InfoLengthMismatch
  }

  /** The next buffer length after a too-small reply that reported needed bytes: max(2 * len, needed). */
  function Grow(len: int, needed: int): (next: int)
    requires len > 0
    ensures next >= needed && next >= 2 * len && next > len
    ensures next == 2 * len || next == needed
  {
    if 2 * len >= needed then 2 * len else needed
  }
}
