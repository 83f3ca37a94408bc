/** The live handle table as an ordered list of records: lookup and removal by slot. */
module Slots {
  import opened Bytes
  import opened Outcomes
  import opened HandleTable

  /** The slots the records in rs occupy. */
  function SlotSet(rs: seq<Record>): (slots: set<Slot>)
  {
    set r | r in rs :: SlotOf(r)
  }

  lemma SlotSetAppend(rs: seq<Record>, r: Record)
    ensures SlotSet(rs + [r]) == SlotSet(rs) + {SlotOf(r)}
  {
    assert r in rs + [r];
    forall x | x in SlotSet(rs)
      ensures x in SlotSet(rs + [r])
    {
      var y :| y in rs && SlotOf(y) == x;
      assert y in rs + [r];
    }
  }

  /** No two records occupy the same slot: a process never holds one handle value twice. */
  predicate Distinct(rs: seq<Record>)
  {
    rs == [] || (SlotOf(rs[0]) !in SlotSet(rs[1..]) && Distinct(rs[1..]))
  }

  /** The object a live slot refers to, if the slot is live. */
  function Find(rs: seq<Record>, s: Slot): (r: Option<u64>)
    ensures r.Some? <==> s in SlotSet(rs)
  {
    if rs == [] then None
    else if SlotOf(rs[0]) == s then Some(rs[0].objectAddress)
    else Find(rs[1..], s)
  }

  /** The records whose slots are not in gone, in their original order. */
  function Without(rs: seq<Record>, gone: set<Slot>): (r: seq<Record>)
    ensures forall x :: x in r <==> x in rs && SlotOf(x) !in gone
    ensures |r| <= |rs|
  {
    if rs == [] then []
    else if SlotOf(rs[0]) in gone then Without(rs[1..], gone)
    else [rs[0]] + Without(rs[1..], gone)
  }

  lemma {:induction false} WithoutNothing(rs: seq<Record>)
    ensures Without(rs, {}) == rs
  {
    if rs != [] {
      WithoutNothing(rs[1..]);
      assert rs == [rs[0]] + rs[1..];
    }
  }

  /** Removing records keeps the remaining slots distinct. */
  lemma {:induction false} WithoutDistinct(rs: seq<Record>, gone: set<Slot>)
    requires Distinct(rs)
    ensures Distinct(Without(rs, gone))
  {
    if rs != [] {
      WithoutDistinct(rs[1..], gone);
      var rest := Without(rs[1..], gone);
      if SlotOf(rs[0]) !in gone {
        assert Without(rs, gone)[1..] == rest;
      }
    }
  }

  /** Removing one set of slots and then another is removing both. */
  lemma {:induction false} WithoutWithout(rs: seq<Record>, a: set<Slot>, b: set<Slot>)
    ensures Without(Without(rs, a), b) == Without(rs, a + b)
  {
    if rs != [] {
      WithoutWithout(rs[1..], a, b);
      if SlotOf(rs[0]) !in a {
        assert Without(rs, a)[1..] == Without(rs[1..], a);
      }
    }
  }

  /** Removing other slots does not change what a slot refers to. */
  lemma {:induction false} FindWithout(rs: seq<Record>, gone: set<Slot>, s: Slot)
    requires s !in gone
    ensures Find(Without(rs, gone), s) == Find(rs, s)
  {
    if rs != [] {
      FindWithout(rs[1..], gone, s);
      if SlotOf(rs[0]) !in gone {
        assert Without(rs, gone)[1..] == Without(rs[1..], gone);
      }
    }
  }

  /** In a table without duplicate slots, the slot of record i refers to the object of record i. */
  lemma {:induction false} FindAt(rs: seq<Record>, i: nat)
    requires Distinct(rs) && i < |rs|
    ensures Find(rs, SlotOf(rs[i])) == Some(rs[i].objectAddress)
  {
    if i > 0 {
      assert rs[i] == rs[1..][i - 1];
      FindAt(rs[1..], i - 1);
    }
  }

  /** In a table without duplicate slots, no record before i shares the slot of record i. */
  lemma {:induction false} SlotNotBefore(rs: seq<Record>, i: nat)
    requires Distinct(rs) && i < |rs|
    ensures SlotOf(rs[i]) !in SlotSet(rs[..i])
  {
    if i > 0 {
      SlotNotBefore(rs[1..], i - 1);
      assert rs[1..][i - 1] == rs[i];
      assert rs[..i] == [rs[0]] + rs[1..][..i - 1];
      assert rs[i] in rs[1..];
    }
  }
}
