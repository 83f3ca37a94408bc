/**
 * The extended system handle table as NtQuerySystemInformation writes it on x64:
 * a 16-byte header (NumberOfHandles, Reserved) followed by NumberOfHandles
 * 40-byte SYSTEM_HANDLE_TABLE_ENTRY_INFO_EX records, all little-endian.
 */
module HandleTable {
  import opened Bytes

  /** One SYSTEM_HANDLE_TABLE_ENTRY_INFO_EX record. Pointer-sized fields are kept as their 64-bit pattern. */
  datatype Record = Record(
    objectAddress: u64,               // kernel address of the object; identifies it, never dereferenced
    uniqueProcessId: u64,        // owning process id
    handleValue: u64,            // handle value, meaningful only inside the owning process
    grantedAccess: u32,
    creatorBackTraceIndex: u16,
    objectTypeIndex: u16,
    handleAttributes: u32,
    reserved: u32)

  /** A handle as the operating system knows it: a value inside one owning process. */
  datatype Slot = Slot(pid: int, handle: int)

  function SlotOf(r: Record): (s: Slot)
  {
    Slot(r.uniqueProcessId, r.handleValue)
  }

  const HeaderSize: nat := 16
  const EntrySize: nat := 40
  /** NumberOfHandles is read as a signed 64-bit value; a table holds fewer entries than this. */
  const MaxCount: nat := 0x8000_0000_0000_0000

  /** Offset of record i: right after the header, records packed back to back. */
  function EntryOffset(i: nat): (r: nat)
    ensures r >= HeaderSize && r - HeaderSize == EntrySize * i
  {
    HeaderSize + EntrySize * i
  }

  function EncodeRecord(r: Record): (b: seq<byte>)
    ensures |b| == EntrySize
  {
    ToLittleEndian(r.objectAddress, 8) + ToLittleEndian(r.uniqueProcessId, 8) + ToLittleEndian(r.handleValue, 8)
    + ToLittleEndian(r.grantedAccess, 4) + ToLittleEndian(r.creatorBackTraceIndex, 2)
    + ToLittleEndian(r.objectTypeIndex, 2) + ToLittleEndian(r.handleAttributes, 4) + ToLittleEndian(r.reserved, 4)
  }

  /** Reads the fields of one record from its 40 bytes, at their x64 offsets. */
  function DecodeRecord(b: seq<byte>): (r: Record)
    requires |b| == EntrySize
  {
    PowersOf256();
    Record(LittleEndian(b[0..8]), LittleEndian(b[8..16]), LittleEndian(b[16..24]),
           LittleEndian(b[24..28]), LittleEndian(b[28..30]), LittleEndian(b[30..32]),
           LittleEndian(b[32..36]), LittleEndian(b[36..40]))
  }

  lemma RecordRoundTrip(r: Record)
    ensures DecodeRecord(EncodeRecord(r)) == r
  {
    var p0, p1, p2 := ToLittleEndian(r.objectAddress, 8), ToLittleEndian(r.uniqueProcessId, 8), ToLittleEndian(r.handleValue, 8);
    var p3, p4 := ToLittleEndian(r.grantedAccess, 4), ToLittleEndian(r.creatorBackTraceIndex, 2);
    var p5, p6, p7 := ToLittleEndian(r.objectTypeIndex, 2), ToLittleEndian(r.handleAttributes, 4), ToLittleEndian(r.reserved, 4);
    var b := EncodeRecord(r);
    assert b == p0 + p1 + p2 + p3 + p4 + p5 + p6 + p7;
    ReadWritten(r.objectAddress, 8);
    ReadWritten(r.uniqueProcessId, 8);
    ReadWritten(r.handleValue, 8);
    ReadWritten(r.grantedAccess, 4);
    ReadWritten(r.creatorBackTraceIndex, 2);
    ReadWritten(r.objectTypeIndex, 2);
    ReadWritten(r.handleAttributes, 4);
    ReadWritten(r.reserved, 4);
    assert b[0..8] == p0 && b[8..16] == p1 && b[16..24] == p2;
    assert b[24..28] == p3 && b[28..30] == p4 && b[30..32] == p5;
    assert b[32..36] == p6 && b[36..40] == p7;
  }

  /** The NumberOfHandles field of the header. */
  function Count(data: seq<byte>): (n: nat)
    requires |data| >= HeaderSize
  {
    LittleEndian(data[..8])
  }

  /**
   * A buffer the positional decoder may read: a header whose count is a
   * non-negative signed 64-bit value, and room for that many records.
   */
  predicate WellFormed(data: seq<byte>)
  {
    |data| >= HeaderSize && Count(data) < MaxCount && EntryOffset(Count(data)) <= |data|
  }

  /** The bytes of record i of a well-formed buffer. */
  function EntryBytes(data: seq<byte>, i: nat): (b: seq<byte>)
    requires WellFormed(data) && i < Count(data)
    ensures |b| == EntrySize
  {
    data[EntryOffset(i)..EntryOffset(i) + EntrySize]
  }

  /** The records of a well-formed buffer, decoded positionally, in order and without filtering. */
  function DecodeTable(data: seq<byte>): (t: seq<Record>)
    requires WellFormed(data)
    ensures |t| == Count(data)
    ensures forall i :: 0 <= i < |t| ==> t[i] == DecodeRecord(EntryBytes(data, i))
  {
    seq(Count(data), i requires 0 <= i < Count(data) => DecodeRecord(EntryBytes(data, i)))
  }

  function EncodeRecords(rs: seq<Record>): (b: seq<byte>)
    ensures |b| == EntrySize * |rs|
  {
    if rs == [] then [] else EncodeRecord(rs[0]) + EncodeRecords(rs[1..])
  }

  lemma {:induction false} EncodedRecordAt(rs: seq<Record>, i: nat)
    requires i < |rs|
    ensures EncodeRecords(rs)[EntrySize * i..EntrySize * i + EntrySize] == EncodeRecord(rs[i])
  {
    var b := EncodeRecords(rs);
    if i == 0 {
      assert b[..EntrySize] == EncodeRecord(rs[0]);
    } else {
      EncodedRecordAt(rs[1..], i - 1);
      var tail := EncodeRecords(rs[1..]);
      assert b == EncodeRecord(rs[0]) + tail;
      assert b[EntrySize * i..EntrySize * i + EntrySize] == tail[EntrySize * (i - 1)..EntrySize * (i - 1) + EntrySize];
    }
  }

  /** The buffer the kernel fills for a table holding the records rs (Reserved written as zero). */
  function EncodeTable(rs: seq<Record>): (data: seq<byte>)
    requires |rs| < MaxCount
    ensures WellFormed(data) && Count(data) == |rs| && |data| == EntryOffset(|rs|)
  {
    PowersOf256();
    var data := ToLittleEndian(|rs|, 8) + ToLittleEndian(0, 8) + EncodeRecords(rs);
    ReadWritten(|rs|, 8);
    assert data[..8] == ToLittleEndian(|rs|, 8);
    data
  }

  /** Decoding the buffer the kernel wrote for a table gives back that table. */
  lemma TableRoundTrip(rs: seq<Record>)
    requires |rs| < MaxCount
    ensures DecodeTable(EncodeTable(rs)) == rs
  {
    var data := EncodeTable(rs);
    var t := DecodeTable(data);
    forall i | 0 <= i < |rs|
      ensures t[i] == rs[i]
    {
      EncodedRecordAt(rs, i);
      assert EntryBytes(data, i) == EncodeRecords(rs)[EntrySize * i..EntrySize * i + EntrySize];
      RecordRoundTrip(rs[i]);
    }
  }

  /**
   * Fills a fresh array with the records of a well-formed buffer, one record per
   * step, record i read from offset HeaderSize + i * EntrySize.
   */
  method DecodeHandleTable(data: seq<byte>) returns (entries: array<Record>)
    requires WellFormed(data)
    ensures fresh(entries)
    ensures entries[..] == DecodeTable(data)
  {
    var count := Count(data);
    entries := new Record[count];
    for i := 0 to count
      invariant forall j :: 0 <= j < i ==> entries[j] == DecodeRecord(EntryBytes(data, j))
    {
      var offset := EntryOffset(i);
      entries[i] := DecodeRecord(data[offset..offset + EntrySize]);
    }
  }
}
