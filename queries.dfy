/**
 * The two variable-length kernel queries of the handle closer: the system-wide
 * handle table (GetAllSystemHandles) and the name of one object
 * (QueryObjectName). Both allocate a buffer, query, and on a too-small status
 * free it and retry with max(2 * len, needed) bytes.
 */
module Queries {
  import opened Bytes
  import opened Outcomes
  import opened NtStatus
  import opened HandleTable
  import opened UnicodeStrings
  import opened Os

  /** Bytes the encoded table of records occupies: the least buffer length that is not too small. */
  function TableSize(records: seq<Record>): (size: nat)
    requires |records| < MaxCount
  {
    |EncodeTable(records)|
  }

  /**
   * The outcome of the table query retry loop entered with a len-byte buffer:
   * the decoded table on success, the status on any error that is not
   * STATUS_INFO_LENGTH_MISMATCH.
   */
  function TableQuery(o: Oracle, records: seq<Record>, len: int): (r: Outcome<seq<Record>>)
    requires |records| < MaxCount && len > 0
    decreases if TableSize(records) > len then TableSize(records) - len else 0
  {
    var reply := SystemInformation(o, records, len);
    if reply.status == Success then Ok(DecodeTable(reply.data))
    else if IsTableRetry(reply.status) then TableQuery(o, records, Grow(len, reply.needed))
    else Fatal(reply.status)
  }

  /** A status on which the table query gives up: neither success nor the too-small code. */
  predicate IsTableFatal(status: int)
  {
    status != Success && !IsTableRetry(status)
  }

  /** Whatever the query returns on success is exactly the kernel's current handle table. */
  lemma {:induction false} TableQueryOk(o: Oracle, records: seq<Record>, len: int)
    requires |records| < MaxCount && len > 0
    ensures TableQuery(o, records, len).Ok? ==> TableQuery(o, records, len).value == records
    decreases if TableSize(records) > len then TableSize(records) - len else 0
  {
    var reply := SystemInformation(o, records, len);
    if reply.status == Success {
      TableRoundTrip(records);
    } else if IsTableRetry(reply.status) {
      TableQueryOk(o, records, Grow(len, reply.needed));
    }
  }

  /**
   * Growth-retry correctness: when no buffer length from len on meets an error,
   * the too-small replies lead to a buffer that fits and the query yields the table.
   */
  lemma {:induction false} TableQuerySucceeds(o: Oracle, records: seq<Record>, len: int)
    requires |records| < MaxCount && len > 0
    requires forall n :: n >= len ==> !IsTableFatal(o.tableFault(n))
    ensures TableQuery(o, records, len) == Ok(records)
    decreases if TableSize(records) > len then TableSize(records) - len else 0
  {
    TableQueryOk(o, records, len);
    var reply := SystemInformation(o, records, len);
    if IsTableRetry(reply.status) {
      TableQuerySucceeds(o, records, Grow(len, reply.needed));
    }
  }

  /** A failed query reports an error status that the kernel gave for some buffer length from len on. */
  lemma {:induction false} TableQueryFails(o: Oracle, records: seq<Record>, len: int)
    requires |records| < MaxCount && len > 0
    ensures TableQuery(o, records, len).Fatal? ==>
      var s := TableQuery(o, records, len).status;
      IsTableFatal(s) && exists n :: n >= len && o.tableFault(n) == s
    decreases if TableSize(records) > len then TableSize(records) - len else 0
  {
    var reply := SystemInformation(o, records, len);
    if IsTableRetry(reply.status) {
      TableQueryFails(o, records, Grow(len, reply.needed));
    }
  }

  /**
   * The outcome of the name query retry loop entered with a len-byte buffer: the
   * decoded name on success, None on any error other than STATUS_BUFFER_OVERFLOW
   * and STATUS_INFO_LENGTH_MISMATCH.
   */
  function NameQuery(o: Oracle, obj: u64, len: int): (name: Option<Name>)
    requires o.Valid() && len > 0
    decreases if o.nameSize(obj) > len then o.nameSize(obj) - len else 0
  {
    var reply := NameInformation(o, obj, len);
    if reply.status == Success then DecodeName(reply.info)
    else if IsNameRetry(reply.status) then NameQuery(o, obj, Grow(len, reply.needed))
    else None
  }

  predicate IsNameFatal(status: int)
  {
    status != Success && !IsNameRetry(status)
  }

  /** Any name the query returns is the one the object's name information holds. */
  lemma {:induction false} NameQuerySound(o: Oracle, obj: u64, len: int)
    requires o.Valid() && len > 0
    ensures NameQuery(o, obj, len).Some? ==> NameQuery(o, obj, len) == DecodeName(o.names(obj))
    decreases if o.nameSize(obj) > len then o.nameSize(obj) - len else 0
  {
    var reply := NameInformation(o, obj, len);
    if IsNameRetry(reply.status) && reply.status != Success {
      NameQuerySound(o, obj, Grow(len, reply.needed));
    }
  }

  /** Growth-retry correctness: without errors the query yields the decoded name information. */
  lemma {:induction false} NameQueryComplete(o: Oracle, obj: u64, len: int)
    requires o.Valid() && len > 0
    requires forall n :: n >= len ==> !IsNameFatal(o.nameFault(obj, n))
    ensures NameQuery(o, obj, len) == DecodeName(o.names(obj))
    decreases if o.nameSize(obj) > len then o.nameSize(obj) - len else 0
  {
    var reply := NameInformation(o, obj, len);
    if reply.status != Success {
      NameQueryComplete(o, obj, Grow(len, reply.needed));
    }
  }

  /**
   * GetAllSystemHandles: the retry loop over NtQuerySystemInformation, then the
   * positional decode of the table. Every block allocated is freed.
   */
  method GetAllSystemHandles(k: Kernel) returns (r: Outcome<array<Record>>)
    requires k.Valid()
    modifies k`blocks, k`nextBlock, k`tableQueries
    ensures k.Valid() && k.blocks == old(k.blocks)
    ensures k.tableQueries > old(k.tableQueries)
    ensures r.Ok? ==> fresh(r.value)
    ensures match TableQuery(k.oracle, k.records, InitialTableLength)
      case Ok(t) => r.Ok? && r.value[..] == t
      case Fatal(s) => r == Fatal(s)
  {
    var len := InitialTableLength;
    while true
      invariant k.Valid() && k.blocks == old(k.blocks)
      invariant k.tableQueries >= old(k.tableQueries)
      invariant len > 0
      invariant TableQuery(k.oracle, k.records, len) == TableQuery(k.oracle, k.records, InitialTableLength)
      invariant len != InitialTableLength ==> k.tableQueries > old(k.tableQueries)
      decreases if TableSize(k.records) > len then TableSize(k.records) - len else 0
    {
      var buffer := k.AllocHGlobal(len);
      var status, needed, data := k.NtQuerySystemInformation(buffer, len);
      if status == Success {
        var entries := DecodeHandleTable(data);
        k.FreeHGlobal(buffer);
        return Ok(entries);
      }
      k.FreeHGlobal(buffer);
      if IsTableRetry(status) {
        len := Grow(len, needed);
      } else {
        return Fatal(status);
      }
    }
  }

  /**
   * QueryObjectName: the retry loop over NtQueryObject on a local handle, then the
   * decode of the UNICODE_STRING. Every block allocated is freed.
   */
  method QueryObjectName(k: Kernel, handle: int) returns (name: Option<Name>)
    requires k.Valid() && handle in k.local && k.local[handle].ObjectRef?
    modifies k`blocks, k`nextBlock
    ensures k.Valid() && k.blocks == old(k.blocks)
    ensures name == NameQuery(k.oracle, k.local[handle].objectAddress, InitialNameLength)
  {
    var len := InitialNameLength;
    ghost var obj := k.local[handle].objectAddress;
    while true
      invariant k.Valid() && k.blocks == old(k.blocks)
      invariant len > 0
      invariant NameQuery(k.oracle, obj, len) == NameQuery(k.oracle, obj, InitialNameLength)
      decreases if k.oracle.nameSize(obj) > len then k.oracle.nameSize(obj) - len else 0
    {
      var buffer := k.AllocHGlobal(len);
      var status, needed, info := k.NtQueryObject(handle, buffer, len);
      if status == Success {
        name := DecodeName(info);
        k.FreeHGlobal(buffer);
        return;
      }
      k.FreeHGlobal(buffer);
      if IsNameRetry(status) {
        len := Grow(len, needed);
      } else {
        return None;
      }
    }
  }
}
