/**
 * A scripted stand-in for the operating system calls the handle closer makes:
 * OpenProcess, DuplicateHandle, CloseHandle, AllocHGlobal / FreeHGlobal,
 * NtQuerySystemInformation and NtQueryObject. What the real kernel decides
 * (who may be opened, which duplications fail, object names, query errors)
 * is fixed in advance by an Oracle; what the calls change (the system-wide
 * handle table, the caller's own handles, its allocations) is the state of a
 * Kernel object.
 */
module Os {
  import opened Bytes
  import opened Outcomes
  import opened NtStatus
  import opened HandleTable
  import opened Slots
  import opened UnicodeStrings

  /** What a handle in the caller's own process refers to. */
  datatype Ref = ProcessRef(pid: int) | ObjectRef(objectAddress: u64)

  /** The two DuplicateHandle options the handle closer passes: DUPLICATE_SAME_ACCESS and DUPLICATE_CLOSE_SOURCE. */
  datatype DuplicateOption = SameAccess | CloseSource

  /** The decisions the kernel makes that the caller cannot influence. */
  datatype Oracle = Oracle(
    openable: set<int>,            // pids OpenProcess(PROCESS_DUP_HANDLE | PROCESS_QUERY_LIMITED_INFORMATION) succeeds for
    dupDenied: set<Slot>,          // live handles that cannot be duplicated with DUPLICATE_SAME_ACCESS
    closeFails: set<Slot>,         // live handles whose DUPLICATE_CLOSE_SOURCE call reports failure
    noByProduct: set<Slot>,        // handles whose successful DUPLICATE_CLOSE_SOURCE call returns no local handle
    tableFault: int -> i32,        // error met by a table query with an n-byte buffer (Success: none)
    tableNeeded: int -> i32,       // ReturnLength reported by a table query with an n-byte buffer
    nameFault: (u64, int) -> i32,  // error met by a name query on an object with an n-byte buffer (Success: none)
    nameNeeded: (u64, int) -> i32, // ReturnLength reported by a name query on an object with an n-byte buffer
    nameSize: u64 -> int,          // bytes the name information of an object occupies
    names: u64 -> UnicodeString)   // the name information of an object
  {
    ghost predicate Valid()
    {
      forall obj: u64 :: Readable(names(obj))
    }
  }

  datatype TableReply = TableReply(status: i32, needed: int, data: seq<byte>)

  /**
   * What NtQuerySystemInformation(SystemExtendedHandleInformation) reports for an
   * len-byte buffer: a scripted error, or STATUS_INFO_LENGTH_MISMATCH when the
   * table does not fit, or success with the encoded table. A scripted fault that
   * is itself the too-small code counts as no fault.
   */
  function SystemInformation(o: Oracle, records: seq<Record>, len: int): (reply: TableReply)
    requires |records| < MaxCount
  {
    var fault := o.tableFault(len);
    if fault != Success && !IsTableRetry(fault) then TableReply(fault, o.tableNeeded(len), [])
    else if len < |EncodeTable(records)| then TableReply(InfoLengthMismatch, o.tableNeeded(len), [])
    else TableReply(Success, |EncodeTable(records)|, EncodeTable(records))
  }

  datatype NameReply = NameReply(status: i32, needed: int, info: UnicodeString)

  const NoInformation := UnicodeString(0, 0, None)

  /**
   * What NtQueryObject(ObjectNameInformation) reports for an object and an
   * len-byte buffer: a scripted error, or a too-small code when the name
   * information does not fit (STATUS_BUFFER_OVERFLOW when the script says so,
   * STATUS_INFO_LENGTH_MISMATCH otherwise), or success with the name information.
   */
  function NameInformation(o: Oracle, obj: u64, len: int): (reply: NameReply)
  {
    var fault := o.nameFault(obj, len);
    if fault != Success && !IsNameRetry(fault) then NameReply(fault, o.nameNeeded(obj, len), NoInformation)
    else if len < o.nameSize(obj) then
      NameReply(if fault == BufferOverflow then BufferOverflow else InfoLengthMismatch, o.nameNeeded(obj, len), NoInformation)
    else NameReply(Success, o.nameSize(obj), o.names(obj))
  }

  class Kernel {
    const oracle: Oracle
    /** Every open handle of every process, in the order the table query lists them. */
    var records: seq<Record>
    /** The caller's own handle table; handle value 0 is never used. */
    var local: map<int, Ref>
    var nextHandle: int
    /** Blocks allocated with AllocHGlobal and not yet freed. */
    var blocks: set<int>
    var nextBlock: int
    /** Every pid passed to OpenProcess, in call order. */
    ghost var openLog: seq<int>
    /** Every remote handle passed to DuplicateHandle, in call order. */
    ghost var duplicateLog: seq<Slot>
    /** How many system handle table queries were issued. */
    ghost var tableQueries: nat

    ghost predicate Valid()
      reads this
    {
      && oracle.Valid() && Distinct(records) && |records| < MaxCount
      && 0 < nextHandle && (forall h :: h in local ==> 0 < h < nextHandle)
      && 0 < nextBlock && (forall b :: b in blocks ==> 0 < b < nextBlock)
    }

    constructor (oracle: Oracle, records: seq<Record>)
      requires oracle.Valid() && Distinct(records) && |records| < MaxCount
      ensures Valid()
      ensures this.oracle == oracle && this.records == records && local == map[] && blocks == {}
      ensures openLog == [] && duplicateLog == [] && tableQueries == 0
    {
      this.oracle := oracle;
      this.records := records;
      local, nextHandle := map[], 1;
      blocks, nextBlock := {}, 1;
      openLog, duplicateLog, tableQueries := [], [], 0;
    }

    /** OpenProcess: a new handle to process pid, or 0 when the process cannot be opened. */
    method OpenProcess(pid: int) returns (h: int)
      requires Valid()
      modifies this`local, this`nextHandle, this`openLog
      ensures Valid()
      ensures h != 0 <==> pid in oracle.openable
      ensures h != 0 ==> h !in old(local) && local == old(local)[h := ProcessRef(pid)]
      ensures h == 0 ==> local == old(local)
      ensures openLog == old(openLog) + [pid]
    {
      openLog := openLog + [pid];
      if pid in oracle.openable {
        h := nextHandle;
        local := local[h := ProcessRef(pid)];
        nextHandle := nextHandle + 1;
      } else {
        h := 0;
      }
    }

    /**
     * DuplicateHandle from the process behind hProcess into the caller's own
     * process. With SameAccess it succeeds for a live handle the script does not
     * deny and yields a new local handle to the same object. With CloseSource it
     * closes the source handle whatever it reports, succeeds for a live handle
     * the script does not fail, and yields a local handle unless the script says
     * it returns none.
     */
    method DuplicateHandle(hProcess: int, handleValue: u64, option: DuplicateOption) returns (ok: bool, target: int)
      requires Valid() && hProcess in local && local[hProcess].ProcessRef?
      modifies this`records, this`local, this`nextHandle, this`duplicateLog
      ensures Valid()
      ensures duplicateLog == old(duplicateLog) + [Slot(old(local[hProcess].pid), handleValue)]
      ensures option.SameAccess? ==> records == old(records)
      ensures option.CloseSource? ==> records == Without(old(records), {Slot(old(local[hProcess].pid), handleValue)})
      ensures ok <==> (Find(old(records), Slot(old(local[hProcess].pid), handleValue)).Some? &&
        if option.SameAccess?
        then Slot(old(local[hProcess].pid), handleValue) !in oracle.dupDenied
        else Slot(old(local[hProcess].pid), handleValue) !in oracle.closeFails)
      ensures target == 0 <==> !ok || (option.CloseSource? && Slot(old(local[hProcess].pid), handleValue) in oracle.noByProduct)
      ensures target == 0 ==> local == old(local)
      ensures target != 0 ==> (target !in old(local) &&
        local == old(local)[target := ObjectRef(Find(old(records), Slot(old(local[hProcess].pid), handleValue)).value)])
    {
      var s := Slot(local[hProcess].pid, handleValue);
      duplicateLog := duplicateLog + [s];
      var found := Find(records, s);
      if option.SameAccess? {
        ok := found.Some? && s !in oracle.dupDenied;
      } else {
        ok := found.Some? && s !in oracle.closeFails;
        records := Without(records, {s});
        WithoutDistinct(old(records), {s});
      }
      if ok && !(option.CloseSource? && s in oracle.noByProduct) {
        target := nextHandle;
        local := local[target := ObjectRef(found.value)];
        nextHandle := nextHandle + 1;
      } else {
        target := 0;
      }
    }

    /** CloseHandle on one of the caller's own handles. */
    method CloseHandle(h: int)
      requires Valid() && h in local
      modifies this`local
      ensures Valid()
      ensures local == old(local) - {h}
    {
      local := local - {h};
    }

    /** Marshal.AllocHGlobal: a new block of unmanaged memory (its size is not tracked). */
    method AllocHGlobal(len: int) returns (block: int)
      requires Valid()
      modifies this`blocks, this`nextBlock
      ensures Valid()
      ensures block != 0 && block !in old(blocks) && blocks == old(blocks) + {block}
    {
      block := nextBlock;
      blocks := blocks + {block};
      nextBlock := nextBlock + 1;
    }

    /** Marshal.FreeHGlobal on a block that is still allocated. */
    method FreeHGlobal(block: int)
      requires Valid() && block in blocks
      modifies this`blocks
      ensures Valid()
      ensures blocks == old(blocks) - {block}
    {
      blocks := blocks - {block};
    }

    /** NtQuerySystemInformation(SystemExtendedHandleInformation) into an allocated len-byte block. */
    method NtQuerySystemInformation(buffer: int, len: int) returns (status: i32, needed: int, data: seq<byte>)
      requires Valid() && buffer in blocks
      modifies this`tableQueries
      ensures Valid()
      ensures TableReply(status, needed, data) == SystemInformation(oracle, records, len)
      ensures tableQueries == old(tableQueries) + 1
    {
      var reply := SystemInformation(oracle, records, len);
      status, needed, data := reply.status, reply.needed, reply.data;
      tableQueries := tableQueries + 1;
    }

    /** NtQueryObject(ObjectNameInformation) on a local handle, into an allocated len-byte block. */
    method NtQueryObject(handle: int, buffer: int, len: int) returns (status: i32, needed: int, info: UnicodeString)
      requires Valid() && handle in local && local[handle].ObjectRef? && buffer in blocks
      ensures NameReply(status, needed, info) == NameInformation(oracle, local[handle].objectAddress, len)
    {
      var reply := NameInformation(oracle, local[handle].objectAddress, len);
      status, needed, info := reply.status, reply.needed, reply.info;
    }
  }
}
