/**
 The ordered set of timers (`TimerContainer`), kept as the sorted sequence that
 iterating it yields.  Addresses stand for the pointers; the null pointer is 0.
 */
module TimerContainer {
  import opened Wrappers

  type Address = nat

  datatype Entry = Entry(time: int, address: Address)

  /** `TimePoint::FOREVER` */
  const FOREVER: int := 0x7fff_ffff_ffff_fffe

  /** The order of pairs. */
  predicate Less(a: Entry, b: Entry) {
    a.time < b.time || (a.time == b.time && a.address < b.address)
  }

  predicate IsSorted(s: seq<Entry>) {
    forall j, k :: 0 <= j < k < |s| ==> Less(s[j], s[k])
  }

  /** The number of entries less than `e`, which is where `e` is or belongs. */
  function LowerBound(s: seq<Entry>, e: Entry): (n: nat)
    requires IsSorted(s)
    ensures n <= |s|
    ensures forall k :: 0 <= k < n ==> Less(s[k], e)
    ensures forall k :: n <= k < |s| ==> !Less(s[k], e)
  {
    if s == [] || !Less(s[0], e) then 0 else 1 + LowerBound(s[1..], e)
  }

  function Inserted(s: seq<Entry>, e: Entry): (r: seq<Entry>)
    requires IsSorted(s)
    ensures IsSorted(r)
    ensures forall x :: x in r <==> x in s || x == e
  {
    var n := LowerBound(s, e);
    if n < |s| && s[n] == e then s else s[..n] + [e] + s[n..]
  }

  function Removed(s: seq<Entry>, e: Entry): (r: seq<Entry>)
    requires IsSorted(s)
    ensures IsSorted(r)
    ensures forall x :: x in r <==> x in s && x != e
  {
    var n := LowerBound(s, e);
    if n < |s| && s[n] == e then s[..n] + s[n + 1..] else s
  }

  lemma InsertingIntoNone(e: Entry)
    ensures Inserted([], e) == [e]
  {
  }

  lemma RemovingAbsent(s: seq<Entry>, e: Entry)
    requires IsSorted(s) && e !in s
    ensures Removed(s, e) == s
  {
  }

  function Earliest(s: seq<Entry>): int {
    if s == [] then FOREVER else s[0].time
  }

  /** The number of entries due at or before `time`. */
  function DueCount(s: seq<Entry>, time: int): (n: nat)
    requires IsSorted(s)
    ensures n <= |s|
    ensures forall k :: 0 <= k < n ==> s[k].time <= time
    ensures forall k :: n <= k < |s| ==> s[k].time > time
  {
    LowerBound(s, Entry(time + 1, 0))
  }

  lemma EarliestIsLeast(s: seq<Entry>, e: Entry)
    requires IsSorted(s) && e in s
    ensures Earliest(s) <= e.time && exists x :: x in s && x.time == Earliest(s)
  {
    var k :| 0 <= k < |s| && s[k] == e;
    assert k > 0 ==> Less(s[0], s[k]);
    assert s[0] in s;
  }

  lemma EmptyHasNoElements(s: seq<Entry>)
    ensures s == [] <==> forall x :: x !in s
  {
    if s != [] { assert s[0] in s; }
  }

  /** A sorted sequence is told by its elements. */
  lemma {:induction false} SortedIsUnique(s: seq<Entry>, t: seq<Entry>)
    requires IsSorted(s) && IsSorted(t) && forall x :: x in s <==> x in t
    ensures s == t
  {
    EmptyHasNoElements(s);
    EmptyHasNoElements(t);
    if s != [] && t != [] {
      var s1, t1 := s[1..], t[1..];
      assert s == [s[0]] + s1 && t == [t[0]] + t1;
      assert s[0] in t && t[0] in s;
      assert forall x :: x in s1 ==> Less(s[0], x);
      assert forall x :: x in t1 ==> Less(t[0], x);
      forall x ensures x in s1 <==> x in t1 { assert x in s <==> x in t; }
      SortedIsUnique(s1, t1);
    }
  }

  /** What is taken out is exactly what is due, in order, and the rest is due later. */
  lemma DueAreTakenInOrder(s: seq<Entry>, time: int, e: Entry)
    requires IsSorted(s)
    ensures
      var due, rest := s[..DueCount(s, time)], s[DueCount(s, time)..];
      && IsSorted(due) && IsSorted(rest)
      && (e in due <==> e in s && e.time <= time)
      && (e in rest <==> e in s && e.time > time)
      && Earliest(rest) > Min(time, FOREVER - 1)
  {
    var n := DueCount(s, time);
    if e in s {
      var k :| 0 <= k < |s| && s[k] == e;
      assert k < n ==> s[..n][k] == e;
      assert k >= n ==> s[n..][k - n] == e;
    }
  }

  // ---------------------------------------------------------------- the class

  class TimerContainer {
    var timers: seq<Entry>

    predicate Valid()
      reads this
    {
      IsSorted(timers)
    }

    constructor ()
      ensures Valid() && timers == []
    {
      timers := [];
    }

    method GetEarliestExpirationTimePoint() returns (time: int)
      requires Valid()
      ensures time == Earliest(timers)
      ensures forall e :: e in timers ==> time <= e.time
      ensures if timers == [] then time == FOREVER else exists e :: e in timers && e.time == time
    {
      time := if timers == [] then FOREVER else timers[0].time;
      forall e | e in timers ensures time <= e.time { EarliestIsLeast(timers, e); }
    }

    method InsertOne(e: Entry)
      requires Valid()
      modifies this
      ensures Valid() && forall x :: x in timers <==> x in old(timers) || x == e
    {
      timers := Inserted(timers, e);
    }

    /** `erase` of one entry. */
    method RemoveOne(e: Entry) returns (removed: bool)
      requires Valid()
      modifies this
      ensures Valid() && forall x :: x in timers <==> x in old(timers) && x != e
      ensures (removed <==> e in old(timers)) && (removed <==> timers != old(timers))
    {
      removed := e in timers;
      if !removed { RemovingAbsent(timers, e); }
      ghost var before := timers;
      timers := Removed(timers, e);
      assert e !in timers;
    }

    method MoveOutBeforeOrAt(time: int) returns (due: seq<Entry>)
      requires Valid()
      modifies this
      ensures Valid()
      ensures due == old(timers)[..DueCount(old(timers), time)] && timers == old(timers)[DueCount(old(timers), time)..]
      ensures forall e :: e in due <==> e in old(timers) && e.time <= time
      ensures forall e :: e in timers <==> e in old(timers) && e.time > time
    {
      ghost var before := timers;
      var end := DueCount(timers, time);
      due := [];
      for k := 0 to end
        invariant timers == before && due == before[..k]
      {
        due := due + [timers[k]];
      }
      timers := timers[end..];
      forall e ensures e in due <==> e in before && e.time <= time { DueAreTakenInOrder(before, time, e); }
      forall e ensures e in timers <==> e in before && e.time > time { DueAreTakenInOrder(before, time, e); }
    }
  }
}
