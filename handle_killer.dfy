/**
 * CloseNamedEventHandlesInProcess: walk the system-wide handle table, and for
 * every handle owned by a target process whose object name is exactly the
 * given path, close it inside its owner with a DUPLICATE_CLOSE_SOURCE
 * duplication. Returns how many such closes succeeded.
 */
module HandleKiller {
  import opened Bytes
  import opened Outcomes
  import opened NtStatus
  import opened HandleTable
  import opened Slots
  import opened UnicodeStrings
  import opened Os
  import opened Queries

  /** The name test of the scan: not null, not empty, and ordinally equal to the path. */
  predicate IsExactName(name: Option<Name>, exactObjectName: Name)
  {
    name.Some? && name.value != [] && name.value == exactObjectName
  }

  /** The name the scan resolves for the object an entry refers to. */
  function ResolvedName(o: Oracle, e: Record): (name: Option<Name>)
    requires o.Valid()
  {
    NameQuery(o, e.objectAddress, InitialNameLength)
  }

  /**
   * The scan issues the close-source duplication for entry e: its owner is a
   * target, the owner can be opened, the handle can be duplicated locally, and
   * its name passes the test.
   */
  predicate Matches(o: Oracle, pids: set<int>, exactObjectName: Name, e: Record)
    requires o.Valid()
  {
    && e.uniqueProcessId in pids
    && e.uniqueProcessId in o.openable
    && SlotOf(e) !in o.dupDenied
    && IsExactName(ResolvedName(o, e), exactObjectName)
  }

  /** The close-source duplication for entry e is issued and reports success. */
  predicate Closes(o: Oracle, pids: set<int>, exactObjectName: Name, e: Record)
    requires o.Valid()
  {
    Matches(o, pids, exactObjectName, e) && SlotOf(e) !in o.closeFails
  }

  /** The entries owned by a target process, in table order. */
  function Targeted(pids: set<int>, es: seq<Record>): (targeted: seq<Record>)
  {
    if es == [] then []
    else
      var last := es[|es| - 1];
      Targeted(pids, es[..|es| - 1]) + if last.uniqueProcessId in pids then [last] else []
  }

  /** The entries whose close-source duplication is issued, in table order. */
  function Matched(o: Oracle, pids: set<int>, exactObjectName: Name, es: seq<Record>): (matched: seq<Record>)
    requires o.Valid()
  {
    if es == [] then []
    else
      var last := es[|es| - 1];
      Matched(o, pids, exactObjectName, es[..|es| - 1])
      + if Matches(o, pids, exactObjectName, last) then [last] else []
  }

  /** The entries the scan closes and counts, in table order. */
  function Closed(o: Oracle, pids: set<int>, exactObjectName: Name, es: seq<Record>): (closed: seq<Record>)
    requires o.Valid()
  {
    if es == [] then []
    else
      var last := es[|es| - 1];
      Closed(o, pids, exactObjectName, es[..|es| - 1])
      + if Closes(o, pids, exactObjectName, last) then [last] else []
  }

  /** The owning pids of the entries, in order. */
  function Owners(es: seq<Record>): (pids: seq<int>)
    ensures |pids| == |es| && forall i :: 0 <= i < |es| ==> pids[i] == es[i].uniqueProcessId
  {
    if es == [] then [] else Owners(es[..|es| - 1]) + [es[|es| - 1].uniqueProcessId]
  }

  /** The scan opens exactly the owners of the target entries, and nothing else. */
  lemma {:induction false} TargetedMembers(pids: set<int>, es: seq<Record>)
    ensures forall e :: e in Targeted(pids, es) <==> e in es && e.uniqueProcessId in pids
  {
    if es != [] {
      TargetedMembers(pids, es[..|es| - 1]);
      assert es == es[..|es| - 1] + [es[|es| - 1]];
    }
  }

  /** The close-source duplication is issued for exactly the matching entries. */
  lemma {:induction false} MatchedMembers(o: Oracle, pids: set<int>, exactObjectName: Name, es: seq<Record>)
    requires o.Valid()
    ensures forall e :: e in Matched(o, pids, exactObjectName, es) <==> e in es && Matches(o, pids, exactObjectName, e)
  {
    if es != [] {
      MatchedMembers(o, pids, exactObjectName, es[..|es| - 1]);
      assert es == es[..|es| - 1] + [es[|es| - 1]];
    }
  }

  /**
   * The counted entries are exactly those owned by a target that can be opened,
   * whose handle can be duplicated, whose resolved name is non-empty and
   * ordinally equal to the path, and whose close-source duplication succeeds.
   */
  lemma {:induction false} ClosedMembers(o: Oracle, pids: set<int>, exactObjectName: Name, es: seq<Record>)
    requires o.Valid()
    ensures forall e :: e in Closed(o, pids, exactObjectName, es) <==>
      && e in es && e.uniqueProcessId in pids && e.uniqueProcessId in o.openable
      && SlotOf(e) !in o.dupDenied
      && ResolvedName(o, e) == Some(exactObjectName) && exactObjectName != []
      && SlotOf(e) !in o.closeFails
  {
    if es != [] {
      ClosedMembers(o, pids, exactObjectName, es[..|es| - 1]);
      assert es == es[..|es| - 1] + [es[|es| - 1]];
    }
  }

  /** The count never exceeds the number of issued close-source duplications, nor those the number of target entries. */
  lemma {:induction false} CountBounds(o: Oracle, pids: set<int>, exactObjectName: Name, es: seq<Record>)
    requires o.Valid()
    ensures |Closed(o, pids, exactObjectName, es)| <= |Matched(o, pids, exactObjectName, es)|
    ensures |Matched(o, pids, exactObjectName, es)| <= |Targeted(pids, es)| <= |es|
  {
    if es != [] {
      CountBounds(o, pids, exactObjectName, es[..|es| - 1]);
    }
  }

  lemma OwnersAppend(es: seq<Record>, e: Record)
    ensures Owners(es + [e]) == Owners(es) + [e.uniqueProcessId]
  {
    assert (es + [e])[..|es|] == es;
  }

  /** Each entry is judged on its own: the closes over two parts of a table are the closes of each part. */
  lemma {:induction false} ClosedConcat(o: Oracle, pids: set<int>, exactObjectName: Name, a: seq<Record>, b: seq<Record>)
    requires o.Valid()
    ensures Closed(o, pids, exactObjectName, a + b) == Closed(o, pids, exactObjectName, a) + Closed(o, pids, exactObjectName, b)
  {
    if b != [] {
      var ab := a + b;
      assert ab[..|ab| - 1] == a + b[..|b| - 1];
      assert ab[|ab| - 1] == b[|b| - 1];
      ClosedConcat(o, pids, exactObjectName, a, b[..|b| - 1]);
    } else {
      assert a + b == a;
    }
  }

  /**
   * No deduplication: every entry in the table whose handle closes is counted,
   * however many of them refer to the same object.
   */
  lemma {:induction false} AllClosedCounted(o: Oracle, pids: set<int>, exactObjectName: Name, es: seq<Record>)
    requires o.Valid()
    requires forall e :: e in es ==> Closes(o, pids, exactObjectName, e)
    ensures |Closed(o, pids, exactObjectName, es)| == |es|
  {
    if es != [] {
      AllClosedCounted(o, pids, exactObjectName, es[..|es| - 1]);
    }
  }

  /** Without a running target process nothing is opened, duplicated or closed. */
  lemma {:induction false} NoTargetNoAction(o: Oracle, exactObjectName: Name, es: seq<Record>)
    requires o.Valid()
    ensures Targeted({}, es) == [] && Matched(o, {}, exactObjectName, es) == []
  {
    if es != [] {
      NoTargetNoAction(o, exactObjectName, es[..|es| - 1]);
    }
  }

  /** A table in which no entry matches has no match. */
  lemma {:induction false} NoneMatched(o: Oracle, pids: set<int>, exactObjectName: Name, es: seq<Record>)
    requires o.Valid()
    requires forall e :: e in es ==> !Matches(o, pids, exactObjectName, e)
    ensures Matched(o, pids, exactObjectName, es) == []
  {
    if es != [] {
      NoneMatched(o, pids, exactObjectName, es[..|es| - 1]);
    }
  }

  /** An empty path matches no name, since empty names are skipped. */
  lemma EmptyPathClosesNothing(o: Oracle, pids: set<int>, es: seq<Record>)
    requires o.Valid()
    ensures Matched(o, pids, [], es) == []
  {
    NoneMatched(o, pids, [], es);
  }

  /**
   * Idempotence: once the matched handles are gone from the table, a second scan
   * of what remains matches nothing.
   */
  lemma SecondScanMatchesNothing(o: Oracle, pids: set<int>, exactObjectName: Name, rs: seq<Record>)
    requires o.Valid()
    ensures Matched(o, pids, exactObjectName,
                    Without(rs, SlotSet(Matched(o, pids, exactObjectName, rs)))) == []
  {
    var first := Matched(o, pids, exactObjectName, rs);
    var rest := Without(rs, SlotSet(first));
    MatchedMembers(o, pids, exactObjectName, rs);
    forall e | e in rest
      ensures !Matches(o, pids, exactObjectName, e)
    {
      assert e in first ==> SlotOf(e) in SlotSet(first);
    }
    NoneMatched(o, pids, exactObjectName, rest);
  }

  /** How the scan's sets of entries grow by one entry. */
  lemma ScanStep(o: Oracle, pids: set<int>, exactObjectName: Name, table: seq<Record>, i: nat)
    requires o.Valid() && i < |table|
    ensures Targeted(pids, table[..i + 1]) ==
      Targeted(pids, table[..i]) + if table[i].uniqueProcessId in pids then [table[i]] else []
    ensures Matched(o, pids, exactObjectName, table[..i + 1]) ==
      Matched(o, pids, exactObjectName, table[..i]) + if Matches(o, pids, exactObjectName, table[i]) then [table[i]] else []
    ensures Closed(o, pids, exactObjectName, table[..i + 1]) ==
      Closed(o, pids, exactObjectName, table[..i]) + if Closes(o, pids, exactObjectName, table[i]) then [table[i]] else []
  {
    assert table[..i + 1][..i] == table[..i];
  }

  /**
   * What one turn of the scan adds to the count and to the owners opened.
   */
  lemma TurnAccounting(o: Oracle, pids: set<int>, exactObjectName: Name, table: seq<Record>, i: nat)
    requires o.Valid() && i < |table|
    ensures |Closed(o, pids, exactObjectName, table[..i + 1])| ==
      |Closed(o, pids, exactObjectName, table[..i])| + if Closes(o, pids, exactObjectName, table[i]) then 1 else 0
    ensures Owners(Targeted(pids, table[..i + 1])) ==
      Owners(Targeted(pids, table[..i])) + if table[i].uniqueProcessId in pids then [table[i].uniqueProcessId] else []
  {
    ScanStep(o, pids, exactObjectName, table, i);
    if table[i].uniqueProcessId in pids {
      OwnersAppend(Targeted(pids, table[..i]), table[i]);
    } else {
      assert Targeted(pids, table[..i]) + [] == Targeted(pids, table[..i]);
    }
  }

  /** The handles left after entry i: those left before it, less entry i's when it matched. */
  lemma RemainingStep(o: Oracle, pids: set<int>, exactObjectName: Name, table: seq<Record>, i: nat)
    requires o.Valid() && i < |table|
    ensures var before := Without(table, SlotSet(Matched(o, pids, exactObjectName, table[..i])));
      Without(table, SlotSet(Matched(o, pids, exactObjectName, table[..i + 1]))) ==
      if Matches(o, pids, exactObjectName, table[i]) then Without(before, {SlotOf(table[i])}) else before
  {
    ScanStep(o, pids, exactObjectName, table, i);
    var done := Matched(o, pids, exactObjectName, table[..i]);
    if Matches(o, pids, exactObjectName, table[i]) {
      WithoutWithout(table, SlotSet(done), {SlotOf(table[i])});
      SlotSetAppend(done, table[i]);
    } else {
      assert done + [] == done;
    }
  }

  /**
   * When the scan reaches entry i, its handle is still live: the handles closed so
   * far belong to earlier entries, and no earlier entry shares its slot.
   */
  lemma LiveAtTurn(table: seq<Record>, done: seq<Record>, i: nat)
    requires Distinct(table) && i < |table|
    requires forall e :: e in done ==> e in table[..i]
    ensures Find(Without(table, SlotSet(done)), SlotOf(table[i])) == Some(table[i].objectAddress)
  {
    SlotNotBefore(table, i);
    FindWithout(table, SlotSet(done), SlotOf(table[i]));
    FindAt(table, i);
  }

  /**
   * The name of the object behind entry h, through an open handle to its owner:
   * duplicate the handle into the caller's process, query the duplicate's name,
   * close the duplicate. A failed duplication gives no name.
   */
  method ResolveObjectName(k: Kernel, hProcess: int, h: Record) returns (name: Option<Name>)
    requires k.Valid() && hProcess in k.local && k.local[hProcess] == ProcessRef(h.uniqueProcessId)
    requires Find(k.records, SlotOf(h)) == Some(h.objectAddress)
    modifies k
    ensures k.Valid()
    ensures k.local == old(k.local) && k.blocks == old(k.blocks) && k.records == old(k.records)
    ensures k.tableQueries == old(k.tableQueries) && k.openLog == old(k.openLog)
    ensures k.duplicateLog == old(k.duplicateLog) + [SlotOf(h)]
    ensures name == if SlotOf(h) in k.oracle.dupDenied then None else ResolvedName(k.oracle, h)
  {
    var duplicated, localHandle := k.DuplicateHandle(hProcess, h.handleValue, SameAccess);
    if !duplicated {
      return None;
    }
    name := QueryObjectName(k, localHandle);
    if localHandle != 0 {
      k.CloseHandle(localHandle);
    }
  }

  /**
   * One entry owned by a target process: open the owner, resolve the name, and
   * on a match close the handle in the owner. Every handle obtained is closed.
   */
  method CloseEntry(k: Kernel, pids: set<int>, exactObjectName: Name, h: Record) returns (closed: bool)
    requires k.Valid() && h.uniqueProcessId in pids
    requires Find(k.records, SlotOf(h)) == Some(h.objectAddress)
    modifies k
    ensures k.Valid()
    ensures k.local == old(k.local) && k.blocks == old(k.blocks) && k.tableQueries == old(k.tableQueries)
    ensures closed == Closes(k.oracle, pids, exactObjectName, h)
    ensures k.records == if Matches(k.oracle, pids, exactObjectName, h)
                         then Without(old(k.records), {SlotOf(h)}) else old(k.records)
    ensures k.openLog == old(k.openLog) + [h.uniqueProcessId]
    ensures old(k.duplicateLog) <= k.duplicateLog
    ensures forall i :: |old(k.duplicateLog)| <= i < |k.duplicateLog| ==> k.duplicateLog[i] == SlotOf(h)
  {
    closed := false;
    var hProcess := k.OpenProcess(h.uniqueProcessId);
    if hProcess == 0 {
      return;
    }
    var name := ResolveObjectName(k, hProcess, h);
    if name.Some? && name.value != [] && name.value == exactObjectName {
      var ok, dummy := k.DuplicateHandle(hProcess, h.handleValue, CloseSource);
      if ok {
        if dummy != 0 {
          k.CloseHandle(dummy);
        }
        closed := true;
      }
    }
    if hProcess != 0 {
      k.CloseHandle(hProcess);
    }
  }

  /**
   * One turn of the scan over the snapshot table: entry i is skipped unless its
   * owner is a target, and otherwise handled by CloseEntry.
   */
  method ScanEntry(k: Kernel, pids: set<int>, exactObjectName: Name, ghost table: seq<Record>, ghost i: nat, h: Record)
    returns (closed: bool)
    requires k.Valid() && Distinct(table) && i < |table| && h == table[i]
    requires k.records == Without(table, SlotSet(Matched(k.oracle, pids, exactObjectName, table[..i])))
    modifies k
    ensures k.Valid()
    ensures k.local == old(k.local) && k.blocks == old(k.blocks) && k.tableQueries == old(k.tableQueries)
    ensures k.records == Without(table, SlotSet(Matched(k.oracle, pids, exactObjectName, table[..i + 1])))
    ensures closed == Closes(k.oracle, pids, exactObjectName, h)
    ensures k.openLog == old(k.openLog) + if h.uniqueProcessId in pids then [h.uniqueProcessId] else []
    ensures old(k.duplicateLog) <= k.duplicateLog
    ensures forall j :: |old(k.duplicateLog)| <= j < |k.duplicateLog| ==> k.duplicateLog[j].pid in pids
  {
    ScanStep(k.oracle, pids, exactObjectName, table, i);
    ghost var done := Matched(k.oracle, pids, exactObjectName, table[..i]);
    if h.uniqueProcessId !in pids {
      assert !Matches(k.oracle, pids, exactObjectName, h);
      assert Matched(k.oracle, pids, exactObjectName, table[..i + 1]) == done;
      return false;
    }
    MatchedMembers(k.oracle, pids, exactObjectName, table[..i]);
    LiveAtTurn(table, done, i);
    RemainingStep(k.oracle, pids, exactObjectName, table, i);
    closed := CloseEntry(k, pids, exactObjectName, h);
  }

  /**
   * One turn of the scan, stated as the loop's invariant at i and at i + 1: the
   * count and the owners opened cover one more entry of the snapshot.
   */
  method ScanTurn(k: Kernel, pids: set<int>, exactObjectName: Name, ghost table: seq<Record>, ghost i: nat,
                  ghost log: seq<int>, count: int, h: Record)
    returns (count': int)
    requires k.Valid() && Distinct(table) && i < |table| && h == table[i]
    requires k.records == Without(table, SlotSet(Matched(k.oracle, pids, exactObjectName, table[..i])))
    requires count == |Closed(k.oracle, pids, exactObjectName, table[..i])|
    requires k.openLog == log + Owners(Targeted(pids, table[..i]))
    modifies k
    ensures k.Valid()
    ensures k.local == old(k.local) && k.blocks == old(k.blocks) && k.tableQueries == old(k.tableQueries)
    ensures k.records == Without(table, SlotSet(Matched(k.oracle, pids, exactObjectName, table[..i + 1])))
    ensures count' == |Closed(k.oracle, pids, exactObjectName, table[..i + 1])|
    ensures k.openLog == log + Owners(Targeted(pids, table[..i + 1]))
    ensures old(k.duplicateLog) <= k.duplicateLog
    ensures forall j :: |old(k.duplicateLog)| <= j < |k.duplicateLog| ==> k.duplicateLog[j].pid in pids
  {
    TurnAccounting(k.oracle, pids, exactObjectName, table, i);
    var closed := ScanEntry(k, pids, exactObjectName, table, i, h);
    count' := if closed then count + 1 else count;
  }

  /**
   * The foreach over the snapshot: every entry in turn, counting the handles
   * closed in their owners.
   */
  method CloseMatchingEntries(k: Kernel, handles: array<Record>, pids: set<int>, exactObjectName: Name)
    returns (closedCount: int)
    requires k.Valid() && handles[..] == k.records
    modifies k
    ensures k.Valid()
    ensures k.local == old(k.local) && k.blocks == old(k.blocks) && k.tableQueries == old(k.tableQueries)
    ensures closedCount == |Closed(k.oracle, pids, exactObjectName, old(k.records))|
    ensures k.records == Without(old(k.records), SlotSet(Matched(k.oracle, pids, exactObjectName, old(k.records))))
    ensures k.openLog == old(k.openLog) + Owners(Targeted(pids, old(k.records)))
    ensures old(k.duplicateLog) <= k.duplicateLog
    ensures forall j :: |old(k.duplicateLog)| <= j < |k.duplicateLog| ==> k.duplicateLog[j].pid in pids
  {
    ghost var table := k.records;
    closedCount := 0;
    var i := 0;
    WithoutNothing(table);
    assert SlotSet(Matched(k.oracle, pids, exactObjectName, table[..0])) == {};
    while i < handles.Length
      invariant 0 <= i <= handles.Length && handles[..] == table && Distinct(table)
      invariant k.Valid() && k.local == old(k.local) && k.blocks == old(k.blocks) && k.tableQueries == old(k.tableQueries)
      invariant k.records == Without(table, SlotSet(Matched(k.oracle, pids, exactObjectName, table[..i])))
      invariant closedCount == |Closed(k.oracle, pids, exactObjectName, table[..i])|
      invariant k.openLog == old(k.openLog) + Owners(Targeted(pids, table[..i]))
      invariant old(k.duplicateLog) <= k.duplicateLog
      invariant forall j :: |old(k.duplicateLog)| <= j < |k.duplicateLog| ==> k.duplicateLog[j].pid in pids
    {
      closedCount := ScanTurn(k, pids, exactObjectName, table, i, old(k.openLog), closedCount, handles[i]);
      i := i + 1;
    }
    assert table[..i] == table;
  }

  /**
   * CloseNamedEventHandlesInProcess, for the pids of the processes running under
   * the target name. Ok(n) counts the handles closed; Fatal(s) is the error of
   * the system handle table query.
   */
  method CloseNamedEventHandlesInProcess(k: Kernel, pids: set<int>, exactObjectName: Name) returns (r: Outcome<int>)
    requires k.Valid()
    modifies k
    ensures k.Valid()
    ensures k.local == old(k.local) && k.blocks == old(k.blocks)
    ensures pids == {} ==> (r == Ok(0) && k.tableQueries == old(k.tableQueries)
      && k.records == old(k.records) && k.openLog == old(k.openLog) && k.duplicateLog == old(k.duplicateLog))
    ensures pids != {} ==> match TableQuery(k.oracle, old(k.records), InitialTableLength)
      case Fatal(s) =>
        r == Fatal(s) && k.records == old(k.records) && k.openLog == old(k.openLog) && k.duplicateLog == old(k.duplicateLog)
      case Ok(_) =>
        && r == Ok(|Closed(k.oracle, pids, exactObjectName, old(k.records))|)
        && k.records == Without(old(k.records), SlotSet(Matched(k.oracle, pids, exactObjectName, old(k.records))))
        && k.openLog == old(k.openLog) + Owners(Targeted(pids, old(k.records)))
    ensures old(k.records) == [] ==> k.openLog == old(k.openLog)
    ensures pids != {} ==> k.tableQueries > old(k.tableQueries)
    ensures old(k.duplicateLog) <= k.duplicateLog
    ensures forall i :: |old(k.duplicateLog)| <= i < |k.duplicateLog| ==> k.duplicateLog[i].pid in pids
  {
    if pids == {} {
      return Ok(0);
    }
    var query := GetAllSystemHandles(k);
    if query.Fatal? {
      return Fatal(query.status);
    }
    var handles := query.value;
    TableQueryOk(k.oracle, k.records, InitialTableLength);
    if handles.Length == 0 {
      return Ok(0);
    }
    var closedCount := CloseMatchingEntries(k, handles, pids, exactObjectName);
    return Ok(closedCount);
  }
}
