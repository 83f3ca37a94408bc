/** The counted UTF-16 string (UNICODE_STRING) that an object name query returns. */
module UnicodeStrings {
  import opened Bytes
  import opened Outcomes

  /** An object name: UTF-16 code units, compared ordinally. */
  type Name = seq<u16>

  /**
   * Length and MaximumLength are in bytes. The Buffer pointer is None when
   * null, otherwise Some(units): the code units stored from that address on.
   */
  datatype UnicodeString = UnicodeString(length: u16, maximumLength: u16, buffer: Option<seq<u16>>)

  /** The memory behind a non-null Buffer holds at least the Length / 2 code units that are read. */
  predicate Readable(us: UnicodeString)
  {
    us.buffer.Some? ==> |us.buffer.value| >= us.length / 2
  }

  /** The name a UNICODE_STRING holds; None ("no name") for a null buffer or a zero length. */
  function DecodeName(us: UnicodeString): (name: Option<Name>)
    requires Readable(us)
    ensures name.None? <==> us.buffer.None? || us.length == 0
    ensures name.Some? ==> |name.value| == us.length / 2 && name.value == us.buffer.value[..|name.value|]
  {
    if us.buffer.None? || us.length == 0 then None
    else Some(us.buffer.value[..us.length / 2])
  }
}
