# D2R handle closer: the handle scan, in Dafny

The program closes one named kernel object that another process holds open. That process is
`D2R.exe`, and the object is the event `\Sessions\1\BaseNamedObjects\DiabloII Check For Other Instances`.
Closing it defeats the other process's single-instance check. This project models the part of
`HandleKiller` that does the work, and proves what it promises:

- **`GetAllSystemHandles`** takes a snapshot of every open handle on the system with
  `NtQuerySystemInformation(SystemExtendedHandleInformation)`. The buffer starts at 64 KiB. It grows
  to `max(2 * len, needed)` on `STATUS_INFO_LENGTH_MISMATCH`. Any other error is fatal. On success the
  buffer is decoded positionally into `NumberOfHandles` records.
- **`QueryObjectName`** asks `NtQueryObject(ObjectNameInformation)` for the name behind a handle. It
  uses the same growth rule from 4 KiB, also on `STATUS_BUFFER_OVERFLOW`. Any other error gives
  "no name". The counted UTF-16 `UNICODE_STRING` is then decoded.
- **`CloseNamedEventHandlesInProcess`** returns 0 at once when no target process runs. Otherwise it
  takes the snapshot and handles each entry owned by a target pid in turn:
  - open the owner;
  - duplicate the handle locally and read its name;
  - compare the name ordinally with the path;
  - on a match, close the handle in its owner with `DUPLICATE_CLOSE_SOURCE`.

  It counts the closes that succeed and closes every handle it obtained.

The operating system is a scripted stand-in, in module `Os`:

- An `Oracle` value fixes what the kernel decides: which processes open, which duplications fail,
  which errors the queries meet, and the name information of each object.
- A `Kernel` object holds what the calls change:
  - the system-wide handle table (`records`, in enumeration order);
  - the caller's own handle table (`local`);
  - its unmanaged allocations (`blocks`);
  - ghost logs of the pids opened, the handles duplicated and the table queries issued.

The memory layout is the x64 one: a 16-byte header and 40-byte little-endian records. Status codes
are the signed 32-bit values the native calls return.

Modules, in dependency order:

- `Outcomes`: `Option` and `Outcome`.
- `Bytes`: fixed-width integers and little-endian encoding.
- `HandleTable`: the record layout, and the table encoding and decoding.
- `Slots`: lookup and removal in the live table.
- `NtStatus`: status codes and the growth rule.
- `UnicodeStrings`: the counted-string decode.
- `Os`: the oracle and the kernel.
- `Queries`: the two retry loops and the functions that specify them.
- `HandleKiller`: the scan.

Two modelling choices follow the Win32 documentation rather than the program:

- `DuplicateHandle` with `DUPLICATE_CLOSE_SOURCE` closes the source handle whatever status it
  reports. So a matched handle leaves the table even when its close is not counted.
- A table or name query reports a too-small status only when the buffer really is smaller than the
  data. That is what bounds the retry loops: each retry at least doubles the length, and the size of
  the data stays fixed because no other process changes the system during a scan (see "## Left out").

## Model

| member | source | states |
|---|---|---|
| `Bytes.LittleEndian` | Program.cs:157-168 | the value read from n little-endian bytes fits in n bytes |
| `Bytes.ReadWritten` | Program.cs:157-168 | reading back an n-byte little-endian field gives the value written |
| `Bytes.WriteRead` | Program.cs:157-168 | writing back a value read from bytes gives those bytes |
| `HandleTable.RecordRoundTrip` | Program.cs:157-168 | decoding the 40-byte x64 layout of SYSTEM_HANDLE_TABLE_ENTRY_INFO_EX recovers every field of the record |
| `HandleTable.EncodeTable` | Program.cs:170-176 | the kernel's buffer is a header whose count is the number of records, then the records; it is well formed for the decoder |
| `HandleTable.DecodeTable` | Program.cs:279-290 | the decoded table has exactly NumberOfHandles entries, and entry i is read from offset 16 + 40 * i, in order and without filtering |
| `HandleTable.TableRoundTrip` | Program.cs:279-291 | decoding the buffer the kernel writes for a table returns that table unchanged |
| `HandleTable.DecodeHandleTable` | Program.cs:282-290 | the counted for loop fills a newly allocated array with exactly the positionally decoded records |
| `NtStatus.Grow` | Program.cs:269-274 | the retry length max(2 * len, needed) is at least needed, at least twice the old length, and hence larger |
| `UnicodeStrings.DecodeName` | Program.cs:326-330 | a null buffer or a zero Length gives no name; otherwise the name is exactly the first Length / 2 code units |
| `Queries.TableQueryOk` | Program.cs:259-291 | whenever the table query loop succeeds, it returns exactly the kernel's handle table |
| `Queries.TableQuerySucceeds` | Program.cs:259-277 | if no buffer length meets an error, the too-small replies lead to a buffer that fits, and the loop returns the table |
| `Queries.TableQueryFails` | Program.cs:262-276 | a failed table query reports a status that is neither success nor STATUS_INFO_LENGTH_MISMATCH and that the kernel actually returned |
| `Queries.GetAllSystemHandles` | Program.cs:252-297 | the loop retries on STATUS_INFO_LENGTH_MISMATCH with the grown length, returns the decoded table in a newly allocated array on success and the status on any other error, and frees every block it allocates |
| `Queries.NameQuerySound` | Program.cs:306-330 | any name the name query returns is the decoded name information of the object |
| `Queries.NameQueryComplete` | Program.cs:306-324 | if no buffer length meets an error, the retries on STATUS_BUFFER_OVERFLOW and STATUS_INFO_LENGTH_MISMATCH end in success and the loop returns the decoded name |
| `Queries.QueryObjectName` | Program.cs:299-336 | the loop returns the specified name outcome (null on any error that is not too-small) and frees every block it allocates |
| `HandleKiller.ResolveObjectName` | Program.cs:212-227 | the local duplicate is closed again; a failed duplication gives no name, otherwise the name is the object's resolved name |
| `HandleKiller.CloseEntry` | Program.cs:206-246 | the process handle and every local handle are closed on every path; the result is true exactly when the owner opens, the handle duplicates, the name is non-empty and ordinally equal to the path, and the close-source duplication succeeds |
| `HandleKiller.ScanEntry` | Program.cs:200-204 | an entry whose owner is not a target is neither opened nor duplicated; otherwise it is handled by CloseEntry |
| `HandleKiller.ScanTurn` | Program.cs:200-247 | one iteration of the foreach adds one to the count exactly when the entry is closed, and opens the owner exactly when it is a target |
| `HandleKiller.CloseMatchingEntries` | Program.cs:198-249 | the count is the number of closed entries, the matched handles leave the table, and exactly the target entries' owners are opened, in table order |
| `HandleKiller.CloseNamedEventHandlesInProcess` | Program.cs:186-250 | with no target pid: 0 and no table query; on a table query error: that status; otherwise the table is queried and the result is the exact count of closed entries; the duplication log only grows, and only with entries of target pids, so a non-target entry is never duplicated; the caller's handles and allocations return to their initial state |
| `HandleKiller.TargetedMembers` | Program.cs:200-204 | the entries the scan opens owners for are exactly those whose owner pid is a target pid |
| `HandleKiller.MatchedMembers` | Program.cs:219-233 | the close-source duplication is issued for exactly the entries that match |
| `HandleKiller.ClosedMembers` | Program.cs:229-240 | an entry is counted exactly when its owner is a target and can be opened, its handle can be duplicated, its resolved name is non-null, non-empty and ordinally equal to the path, and its close-source duplication succeeds |
| `HandleKiller.CountBounds` | Program.cs:229-241 | the count is at most the number of issued close-source duplications, which is at most the number of target entries |
| `HandleKiller.ClosedConcat` | Program.cs:200-247 | each entry is judged on its own: the closes of a split table are the closes of each part |
| `HandleKiller.AllClosedCounted` | Program.cs:232-240 | no deduplication: when every entry closes, all of them are counted, even entries that refer to the same object |
| `HandleKiller.NoTargetNoAction` | Program.cs:200-204 | with no target pid, no entry is targeted or matched |
| `HandleKiller.EmptyPathClosesNothing` | Program.cs:229-230 | an empty path matches nothing, because empty names are skipped |
| `HandleKiller.SecondScanMatchesNothing` | Program.cs:232-240 | idempotence: once a scan's matched handles are gone, a second scan of the remaining table matches nothing |

## Left out

- The tray shell is not modelled: `Program.Main`, `TrayContext`, the menu, the toggle, the balloon notification and the 3-second timer. They only invoke the scan and display its count.
- Process lookup by name is not modelled: `Process.GetProcessesByName` and `Path.GetFileNameWithoutExtension`. The scan takes the set of target pids as a parameter.
- `Process.GetCurrentProcess().Handle` is not modelled. The duplicates land in the caller's handle table, `Kernel.local`. This table is kept apart from the system-wide table, so a target pid equal to the caller's own pid is not modelled.
- The native calls are the scripted `Os.Kernel` methods, not their real semantics. A name query that never returns is not modelled.
- Raw memory is not modelled. `Marshal.AllocHGlobal` / `FreeHGlobal` are tracked only as a set of live blocks. The buffer holds no bytes before the query writes it. The table query returns its bytes as a sequence. The name query returns the `UNICODE_STRING` value rather than bytes holding it, and a non-null `Buffer` pointer is the sequence of code units it points to.
- Allocation failure (`OutOfMemoryException`) and the other runtime exceptions are not modelled.
- `HandleTable.DecodeTable`: requires a well-formed buffer. The program reads the header count and the records without checking the buffer length. The kernel always writes a well-formed table, and a negative count (it is read as a signed 64-bit value) would throw.
- `HandleTable.DecodeHandleTable`: does not model the `checked` conversion of the record offset to `int`. The offset lies inside a buffer whose length is an `int`, so it cannot overflow.
- `NtStatus.Grow`: uses unbounded integers. The program computes `len * 2` in 32-bit arithmetic, which would wrap for buffers of 1 GiB or more.
- `HandleKiller.CloseNamedEventHandlesInProcess`: uses unbounded integers for the count, so it does not model a 32-bit wrap of `closedCount`. The `(int)` conversion of `UniqueProcessId` is taken as the identity, since process ids fit in 31 bits.
- The system is frozen while a scan runs. Only the scan's own close-source duplications change the handle table, and the `Oracle` fixes every kernel decision for the whole scan: which pids can be opened, which duplications fail, and each object's name and query errors. Nothing can change between the snapshot and the handling of an entry, so the model cannot express:
  - a target process that exits part-way through the scan;
  - a handle that is closed, or whose value is reused for another object, between the snapshot, the name query and the close-source duplication;
  - a handle table that grows between two retries of the table query.
- `HandleKiller.ResolveObjectName`: requires the snapshot entry's handle to be still live and to refer to the snapshot's object. The scan establishes this only because the table is frozen.
- `HandleKiller.CloseEntry`: has the same liveness requirement. So "counted exactly when the snapshot object's name matches" (`HandleKiller.ClosedMembers`) holds only in the frozen world.
- `Queries.GetAllSystemHandles`: is proved to terminate under two assumptions about the kernel: it reports "too small" only for a buffer that really is too small, and the table stays the same across retries. The program itself has no retry bound.
- `Queries.QueryObjectName`: is proved to terminate under the same "too small" assumption, with each object's name size fixed across retries.
