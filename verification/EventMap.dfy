/**
 * The event scheduler: a multimap from time to event word, kept as the sequence an iterator over it
 * visits. Times are 32 bits and wrap.
 */
module EventMaps {
  import opened EventData

  const TIME := 0x1_0000_0000

  datatype Entry = Entry(time: nat, data: bv32)

  /** The ways entries are picked out below. */
  datatype Test = Grouped(group: nat) | Named(id: bv32) | Due(now: nat) | Ready(now: nat, mask: bv32) | At(time: nat)

  predicate Holds(t: Test, e: Entry) {
    match t
    case Grouped(group) => InGroup(e.data, group)
    case Named(id) => EventId(e.data) == id
    case Due(now) => e.time <= now
    case Ready(now, mask) => e.time <= now && Eligible(e.data, mask)
    case At(time) => e.time == time
  }

  /** The entries for which the test gives the wanted answer, in order. */
  function Select(s: seq<Entry>, t: Test, want: bool): seq<Entry> {
    if s == [] then []
    else if Holds(t, s[0]) == want then [s[0]] + Select(s[1..], t, want)
    else Select(s[1..], t, want)
  }

  ghost predicate Sorted(s: seq<Entry>) {
    forall i, j :: 0 <= i < j < |s| ==> s[i].time <= s[j].time
  }

  /** Insertion into the multimap: after every entry that is not later. */
  function Insert(s: seq<Entry>, e: Entry): seq<Entry> {
    if s == [] || e.time < s[0].time then [e] + s else [s[0]] + Insert(s[1..], e)
  }

  function InsertAll(s: seq<Entry>, more: seq<Entry>): seq<Entry>
    decreases |more|
  {
    if more == [] then s else InsertAll(Insert(s, more[0]), more[1..])
  }

  function Later(s: seq<Entry>, delay: nat): seq<Entry> {
    if s == [] then [] else [Entry((s[0].time + delay) % TIME, s[0].data)] + Later(s[1..], delay)
  }

  // ---------------------------------------------------------------- selection

  lemma {:induction false} SelectAppend(a: seq<Entry>, b: seq<Entry>, t: Test, want: bool)
    ensures Select(a + b, t, want) == Select(a, t, want) + Select(b, t, want)
  {
    hide Holds;
    if a == [] {
      assert a + b == b;
    } else {
      assert (a + b)[0] == a[0] && (a + b)[1..] == a[1..] + b;
      SelectAppend(a[1..], b, t, want);
    }
  }

  /** Every entry is on exactly one side of a test. */
  lemma {:induction false} SelectSplits(s: seq<Entry>, t: Test)
    ensures multiset(s) == multiset(Select(s, t, true)) + multiset(Select(s, t, false))
  {
    hide Holds;
    if s != [] {
      SelectSplits(s[1..], t);
      assert s == [s[0]] + s[1..];
    }
  }

  lemma {:induction false} SelectMembers(s: seq<Entry>, t: Test, want: bool)
    ensures forall i :: 0 <= i < |Select(s, t, want)| ==> Select(s, t, want)[i] in s && Holds(t, Select(s, t, want)[i]) == want
  {
    hide Holds;
    if s != [] {
      SelectMembers(s[1..], t, want);
    }
  }

  lemma {:induction false} SelectSorted(s: seq<Entry>, t: Test, want: bool)
    requires Sorted(s)
    ensures Sorted(Select(s, t, want))
  {
    hide Holds;
    if s != [] {
      SelectSorted(s[1..], t, want);
      SelectMembers(s[1..], t, want);
    }
  }

  /** Where no entry gives the wanted answer nothing is selected; where all do, everything is. */
  lemma {:induction false} SelectAll(s: seq<Entry>, t: Test, want: bool)
    requires forall i :: 0 <= i < |s| ==> Holds(t, s[i]) == want
    ensures Select(s, t, want) == s && Select(s, t, !want) == []
  {
    hide Holds;
    if s != [] {
      assert forall i :: 0 <= i < |s[1..]| ==> s[1..][i] == s[i + 1];
      SelectAll(s[1..], t, want);
    }
  }

  lemma SelectTwice(s: seq<Entry>, t: Test, want: bool)
    ensures Select(Select(s, t, want), t, want) == Select(s, t, want)
  {
    hide Holds;
    SelectMembers(s, t, want);
    SelectAll(Select(s, t, want), t, want);
  }

  // ---------------------------------------------------------------- insertion

  lemma {:induction false} InsertNotEarlier(s: seq<Entry>, e: Entry, time: nat)
    requires time <= e.time && forall i :: 0 <= i < |s| ==> time <= s[i].time
    ensures forall i :: 0 <= i < |Insert(s, e)| ==> time <= Insert(s, e)[i].time
  {
    if s == [] || e.time < s[0].time {
    } else {
      InsertNotEarlier(s[1..], e, time);
    }
  }

  lemma {:induction false} InsertSorted(s: seq<Entry>, e: Entry)
    requires Sorted(s)
    ensures Sorted(Insert(s, e))
  {
    if s == [] || e.time < s[0].time {
    } else {
      InsertSorted(s[1..], e);
      InsertNotEarlier(s[1..], e, s[0].time);
    }
  }

  lemma {:induction false} InsertAdds(s: seq<Entry>, e: Entry)
    ensures multiset(Insert(s, e)) == multiset(s) + multiset{e}
  {
    if s == [] || e.time < s[0].time {
    } else {
      InsertAdds(s[1..], e);
      assert s == [s[0]] + s[1..];
    }
  }

  /** Insertion only adds the entry where it is selected, and last among entries of the same time. */
  lemma {:induction false} InsertSelects(s: seq<Entry>, e: Entry, t: Test, want: bool)
    ensures Holds(t, e) != want ==> Select(Insert(s, e), t, want) == Select(s, t, want)
    ensures Holds(t, e) == want && Sorted(s) ==> Select(Insert(s, e), t, want) == Insert(Select(s, t, want), e)
  {
    hide Holds;
    if s == [] || e.time < s[0].time {
      assert Insert(s, e)[1..] == s;
      SelectMembers(s, t, want);
      assert Sorted(s) && Select(s, t, want) != [] ==> e.time < Select(s, t, want)[0].time;
    } else {
      assert Insert(s, e)[1..] == Insert(s[1..], e);
      InsertSelects(s[1..], e, t, want);
      if Holds(t, s[0]) == want {
        assert Select(s, t, want)[0] == s[0] && Select(s, t, want)[1..] == Select(s[1..], t, want);
      }
    }
  }

  /** Among entries due at the same time the order is that of insertion. */
  lemma TiesKeepInsertionOrder(s: seq<Entry>, e: Entry, time: nat)
    requires Sorted(s)
    ensures Select(Insert(s, e), At(time), true) ==
            Select(s, At(time), true) + (if e.time == time then [e] else [])
  {
    InsertSelects(s, e, At(time), true);
    SelectMembers(s, At(time), true);
    InsertLast(Select(s, At(time), true), e);
  }

  lemma {:induction false} InsertLast(s: seq<Entry>, e: Entry)
    ensures (forall i :: 0 <= i < |s| ==> s[i].time <= e.time) ==> Insert(s, e) == s + [e]
  {
    if s != [] {
      InsertLast(s[1..], e);
      assert s + [e] == [s[0]] + (s[1..] + [e]);
    }
  }

  lemma {:induction false} InsertAllSorted(s: seq<Entry>, more: seq<Entry>)
    requires Sorted(s)
    ensures Sorted(InsertAll(s, more))
    ensures multiset(InsertAll(s, more)) == multiset(s) + multiset(more)
    decreases |more|
  {
    if more != [] {
      InsertSorted(s, more[0]);
      InsertAdds(s, more[0]);
      InsertAllSorted(Insert(s, more[0]), more[1..]);
      assert more == [more[0]] + more[1..];
    }
  }

  /** Inserting only entries on one side of a test leaves the other side alone. */
  lemma {:induction false} InsertAllOnto(s: seq<Entry>, more: seq<Entry>, t: Test, want: bool)
    requires Sorted(s)
    requires forall i :: 0 <= i < |more| ==> Holds(t, more[i]) != want
    ensures Select(InsertAll(s, more), t, want) == Select(s, t, want)
    ensures Select(InsertAll(s, more), t, !want) == InsertAll(Select(s, t, !want), more)
    decreases |more|
  {
    hide Holds;
    if more != [] {
      InsertSelects(s, more[0], t, want);
      InsertSelects(s, more[0], t, !want);
      InsertSorted(s, more[0]);
      InsertAllOnto(Insert(s, more[0]), more[1..], t, want);
    }
  }

  /** Inserting a sorted list into an empty multimap gives that list. */
  lemma {:induction false} InsertAllInOrder(s: seq<Entry>, more: seq<Entry>)
    requires Sorted(s + more)
    ensures InsertAll(s, more) == s + more
    decreases |more|
  {
    if more == [] {
      assert s + more == s;
    } else {
      InsertLast(s, more[0]);
      assert forall i :: 0 <= i < |s| ==> (s + more)[i] == s[i];
      assert (s + more)[|s|] == more[0];
      assert (s + [more[0]]) + more[1..] == s + more;
      InsertAllInOrder(s + [more[0]], more[1..]);
    }
  }

  // ---------------------------------------------------------------- execution

  predicate Stale(e: Entry, now: nat, mask: bv32) {
    e.time <= now && !Eligible(e.data, mask)
  }

  /** What is left after discarding the due events of inactive phases at the front. */
  function Fresh(s: seq<Entry>, now: nat, mask: bv32): seq<Entry> {
    if s != [] && Stale(s[0], now, mask) then Fresh(s[1..], now, mask) else s
  }

  /** The state after one execution: the event word, if any, and the remaining entries. */
  lemma {:induction false} ExecuteStep(s: seq<Entry>, now: nat, mask: bv32)
    requires Sorted(s)
    ensures var ready, rest := Select(s, Ready(now, mask), true), Fresh(s, now, mask);
            && Sorted(rest)
            && (rest == [] || rest[0].time > now <==> ready == [])
            && (ready == [] ==> rest == Select(s, Due(now), false))
            && (ready != [] ==>
                  && rest[0] == ready[0]
                  && Select(rest[1..], Ready(now, mask), true) == ready[1..]
                  && Select(rest[1..], Due(now), false) == Select(s, Due(now), false))
  {
    hide Eligible;
    if s == [] {
    } else if Stale(s[0], now, mask) {
      ExecuteStep(s[1..], now, mask);
    } else if s[0].time > now {
      SelectAll(s, Due(now), false);
      SelectAll(s, Ready(now, mask), false);
    }
  }

  function Ids(s: seq<Entry>): seq<bv32> {
    if s == [] then [] else [EventId(s[0].data)] + Ids(s[1..])
  }

  /** The ids a drain returns: it stops at an event whose id is 0. */
  function UntilZero(ids: seq<bv32>): seq<bv32> {
    if ids == [] || ids[0] == 0 then [] else [ids[0]] + UntilZero(ids[1..])
  }

  /** A drain returns every ready event exactly when none of them has id 0. */
  lemma {:induction false} UntilZeroIff(ids: seq<bv32>)
    ensures UntilZero(ids) <= ids
    ensures UntilZero(ids) == ids <==> 0 !in ids
  {
    if ids != [] && ids[0] != 0 {
      UntilZeroIff(ids[1..]);
      assert ids == [ids[0]] + ids[1..];
    }
  }

  /** The ids of the first |ids| entries, none of them 0. */
  ghost predicate Drained(all: seq<Entry>, ids: seq<bv32>) {
    |ids| <= |all| && ids == Ids(all[..|ids|]) && 0 !in ids
  }

  lemma {:induction false} IdsSplit(a: seq<Entry>, b: seq<Entry>)
    ensures Ids(a + b) == Ids(a) + Ids(b) && |Ids(a)| == |a|
  {
    hide EventId;
    if a == [] {
      assert a + b == b;
    } else {
      assert (a + b)[0] == a[0] && (a + b)[1..] == a[1..] + b;
      IdsSplit(a[1..], b);
    }
  }

  lemma {:induction false} UntilZeroOf(a: seq<bv32>, b: seq<bv32>)
    requires 0 !in a
    ensures UntilZero(a + b) == a + UntilZero(b)
  {
    if a == [] {
      assert a + b == b;
    } else {
      assert (a + b)[0] == a[0] && (a + b)[1..] == a[1..] + b;
      UntilZeroOf(a[1..], b);
    }
  }

  lemma DrainStarts(all: seq<Entry>)
    ensures Drained(all, []) && all[0..] == all
  {
    assert all[..0] == [];
  }

  lemma DrainStep(all: seq<Entry>, ids: seq<bv32>)
    requires Drained(all, ids) && |ids| < |all| && EventId(all[|ids|].data) != 0
    ensures Drained(all, ids + [EventId(all[|ids|].data)])
  {
    hide EventId;
    var n := |ids|;
    IdsSplit(all[..n], [all[n]]);
    assert all[..n + 1] == all[..n] + [all[n]];
    assert Ids([all[n]]) == [EventId(all[n].data)];
  }

  lemma DrainEnds(all: seq<Entry>, ids: seq<bv32>)
    requires Drained(all, ids) && all[|ids|..] == []
    ensures ids == Ids(all) == UntilZero(Ids(all)) && 0 !in Ids(all)
  {
    hide EventId;
    assert all == all[..|ids|];
    UntilZeroIff(ids);
  }

  /** The next entry has id 0: the drain returns what it has. */
  lemma DrainStops(all: seq<Entry>, ids: seq<bv32>)
    requires Drained(all, ids) && |ids| < |all| && EventId(all[|ids|].data) == 0
    ensures ids == UntilZero(Ids(all)) && ids != Ids(all) && 0 in Ids(all)
  {
    hide EventId;
    var n := |ids|;
    assert all == all[..n] + all[n..];
    IdsSplit(all[..n], all[n..]);
    var rest := Ids(all[n..]);
    assert rest[0] == 0;
    UntilZeroOf(ids, rest);
    assert ids + [] == ids;
    assert Ids(all)[n] == rest[0];
  }

  // ---------------------------------------------------------------- erasing and delaying

  lemma SortedTail(s: seq<Entry>)
    requires Sorted(s) && s != []
    ensures Sorted(s[1..])
  {
  }

  lemma EmptyIsSorted()
    ensures Sorted([])
  {
  }

  /** The first `i` entries have been kept, the rest is still to be looked at. */
  ghost predicate Removal(was: seq<Entry>, s: seq<Entry>, i: nat, t: Test) {
    i <= |s| && Sorted(s) && Select(was, t, false) == s[..i] + Select(s[i..], t, false)
  }

  lemma RemovalStarts(s: seq<Entry>, t: Test)
    requires Sorted(s)
    ensures Removal(s, s, 0, t)
  {
    assert s[..0] == [] && s[0..] == s;
  }

  lemma RemovalSorted(was: seq<Entry>, s: seq<Entry>, i: nat, t: Test)
    requires Removal(was, s, i, t)
    ensures i <= |s| && Sorted(s)
  {
  }

  lemma LaterHead(into: seq<Entry>, e: Entry, s: seq<Entry>, delay: nat)
    ensures InsertAll(into, Later([e] + s, delay)) ==
            InsertAll(Insert(into, Entry((e.time + delay) % TIME, e.data)), Later(s, delay))
  {
    assert ([e] + s)[1..] == s;
    assert Later([e] + s, delay)[1..] == Later(s, delay);
  }

  lemma NothingLater(into: seq<Entry>, t: Test, delay: nat)
    ensures InsertAll(into, Later(Select([], t, true), delay)) == into
  {
  }

  lemma SortedWithout(s: seq<Entry>, i: nat)
    requires Sorted(s) && i < |s|
    ensures Sorted(s[..i] + s[i + 1..])
  {
  }

  lemma SelectHead(s: seq<Entry>, i: nat, t: Test, want: bool)
    requires i < |s|
    ensures Select(s[i..], t, want) ==
            if Holds(t, s[i]) == want then [s[i]] + Select(s[i + 1..], t, want) else Select(s[i + 1..], t, want)
  {
    hide Holds;
    assert s[i..][1..] == s[i + 1..];
  }

  lemma RemovalStep(was: seq<Entry>, s: seq<Entry>, i: nat, t: Test)
    requires Removal(was, s, i, t) && i < |s|
    ensures Holds(t, s[i]) ==> Removal(was, s[..i] + s[i + 1..], i, t)
    ensures !Holds(t, s[i]) ==> Removal(was, s, i + 1, t)
    ensures Select(s[i..], t, true) ==
            if Holds(t, s[i]) then [s[i]] + Select(s[i + 1..], t, true) else Select(s[i + 1..], t, true)
  {
    hide Holds, Sorted, Select;
    SelectHead(s, i, t, false);
    SelectHead(s, i, t, true);
    if Holds(t, s[i]) {
      SortedWithout(s, i);
      var r := s[..i] + s[i + 1..];
      assert r[..i] == s[..i] && r[i..] == s[i + 1..];
    } else {
      assert s[..i + 1] == s[..i] + [s[i]];
    }
  }

  lemma RemovalEnds(was: seq<Entry>, s: seq<Entry>, t: Test)
    requires Removal(was, s, |s|, t)
    ensures s == Select(was, t, false)
  {
    assert s[..|s|] == s && s[|s|..] == [];
  }

  lemma {:induction false} LaterHolds(s: seq<Entry>, delay: nat, group: nat)
    requires forall i :: 0 <= i < |s| ==> Holds(Grouped(group), s[i])
    ensures |Later(s, delay)| == |s|
    ensures forall i :: 0 <= i < |s| ==>
              Later(s, delay)[i] == Entry((s[i].time + delay) % TIME, s[i].data) && Holds(Grouped(group), Later(s, delay)[i])
  {
    hide InGroup;
    if s != [] {
      LaterHolds(s[1..], delay, group);
    }
  }

  /** Putting the delayed events back: they are found again, and the others are as they were. */
  lemma PutBack(s: seq<Entry>, group: nat, delay: nat)
    requires Sorted(s)
    ensures var t := Grouped(group);
            var delayed := InsertAll([], Later(Select(s, t, true), delay));
            var r := InsertAll(Select(s, t, false), delayed);
            && Sorted(r)
            && Select(r, t, false) == Select(s, t, false)
            && Select(r, t, true) == delayed
  {
    hide InGroup, Holds;
    var t := Grouped(group);
    var moved := Later(Select(s, t, true), delay);
    var delayed := InsertAll([], moved);
    var rest := Select(s, t, false);
    SelectMembers(s, t, true);
    LaterHolds(Select(s, t, true), delay, group);
    InsertAllSorted([], moved);
    SelectSorted(s, t, false);
    InsertAllSorted(rest, delayed);
    forall i | 0 <= i < |delayed| ensures Holds(t, delayed[i]) {
      assert delayed[i] in multiset(delayed);
      assert delayed[i] in multiset(moved);
    }
    InsertAllOnto(rest, delayed, t, false);
    SelectMembers(s, t, false);
    SelectAll(rest, t, false);
    assert [] + delayed == delayed;
    InsertAllInOrder([], delayed);
  }

  /** Delayed events keep their order as long as none of their times wraps around. */
  lemma DelayKeepsOrder(s: seq<Entry>, group: nat, delay: nat)
    requires Sorted(s)
    requires var picked := Select(s, Grouped(group), true);
             forall i :: 0 <= i < |picked| ==> picked[i].time + delay < TIME
    ensures var moved := Later(Select(s, Grouped(group), true), delay);
            InsertAll([], moved) == moved
  {
    hide InGroup, Holds, Select;
    var picked := Select(s, Grouped(group), true);
    SelectSorted(s, Grouped(group), true);
    LaterSorted(picked, delay);
    var moved := Later(picked, delay);
    assert [] + moved == moved;
    hide Sorted;
    InsertAllInOrder([], moved);
  }

  lemma {:induction false} LaterSorted(s: seq<Entry>, delay: nat)
    requires Sorted(s) && forall i :: 0 <= i < |s| ==> s[i].time + delay < TIME
    ensures Sorted(Later(s, delay)) && |Later(s, delay)| == |s|
    ensures forall i :: 0 <= i < |s| ==> Later(s, delay)[i].time == s[i].time + delay
  {
    if s != [] {
      LaterSorted(s[1..], delay);
    }
  }

  /** Delaying keeps the events and their number; each time grows by the delay, less 2^32 if it would exceed 32 bits. */
  lemma {:induction false} DelayedTimes(s: seq<Entry>, delay: nat)
    requires delay < TIME && forall i :: 0 <= i < |s| ==> s[i].time < TIME
    ensures |Later(s, delay)| == |s|
    ensures forall i :: 0 <= i < |s| ==>
              && Later(s, delay)[i].data == s[i].data
              && Later(s, delay)[i].time == s[i].time + delay - if s[i].time + delay < 0x1_0000_0000 then 0 else 0x1_0000_0000
  {
    if s != [] {
      DelayedTimes(s[1..], delay);
      Wraps(s[0].time + delay);
    }
  }

  lemma Wraps(t: nat)
    requires t < 2 * TIME
    ensures t % TIME == t - if t < 0x1_0000_0000 then 0 else 0x1_0000_0000
  {
  }

  // ---------------------------------------------------------------- the object

  class EventMap {
    var time: nat
    var phase: bv32
    var lastEvent: bv32
    var entries: seq<Entry>

    ghost predicate Valid()
      reads this
    {
      time < TIME && Sorted(entries)
    }

    constructor ()
      ensures Valid() && time == 0 && phase == 0 && lastEvent == 0 && entries == []
    {
      time, phase, lastEvent, entries := 0, 0, 0, [];
    }

    method Reset()
      modifies this
      ensures Valid() && time == 0 && phase == 0 && entries == [] && lastEvent == old(lastEvent)
    {
      time, phase, entries := 0, 0, [];
    }

    method Update(elapsed: nat)
      requires Valid() && elapsed < TIME
      modifies this`time
      ensures Valid() && time == (old(time) + elapsed) % TIME
    {
      time := (time + elapsed) % TIME;
    }

    /** Phases above 8 leave the mask as it is. */
    method SetPhase(p: nat)
      requires p < 256
      modifies this`phase
      ensures phase == if p == 0 then 0 else if p <= 8 then High(PhaseBit(p)) else old(phase)
    {
      if p == 0 {
        phase := 0;
      } else if p <= 8 {
        phase := High(PhaseBit(p));
      }
    }

    method ScheduleEvent(id: bv32, delay: nat, group: nat, phaseOfEvent: nat)
      requires Valid() && delay < TIME
      modifies this`entries
      ensures Valid()
      ensures entries == Insert(old(entries), Entry((time + delay) % TIME, Data(id, group, phaseOfEvent)))
    {
      hide Or, GroupBit, PhaseBit, Bit, Insert, Sorted;
      BitsOf(group, phaseOfEvent);
      OrNothing(id);
      OrNothing(Or(id, GroupBit(group)));
      var data := id;
      if 1 <= group <= 8 {
        data := Or(data, Bit(group + 15));
      }
      if 1 <= phaseOfEvent <= 8 {
        data := Or(data, Bit(phaseOfEvent + 23));
      }
      Put(Entry((time + delay) % TIME, data));
    }

    method Put(e: Entry)
      requires Valid()
      modifies this`entries
      ensures Valid() && entries == Insert(old(entries), e)
    {
      InsertSorted(entries, e);
      entries := Insert(entries, e);
    }

    /** Schedules the event executed last once more, with its group and phase. */
    method Repeat(delay: nat)
      requires Valid() && delay < TIME
      modifies this`entries
      ensures Valid() && entries == Insert(old(entries), Entry((time + delay) % TIME, lastEvent))
    {
      Put(Entry((time + delay) % TIME, lastEvent));
    }

    /**
     * Returns the id of the first due event of an active phase and removes it, with the due events
     * of inactive phases before it. Without one, 0, and exactly the future events stay.
     */
    method ExecuteEvent() returns (id: bv32)
      requires Valid()
      modifies this`entries, this`lastEvent
      ensures Valid()
      ensures var ready := Select(old(entries), Ready(time, phase), true);
              if ready == [] then
                id == 0 && entries == Select(old(entries), Due(time), false) && lastEvent == old(lastEvent)
              else
                && id == EventId(ready[0].data) && lastEvent == ready[0].data
                && Select(entries, Ready(time, phase), true) == ready[1..]
                && Select(entries, Due(time), false) == Select(old(entries), Due(time), false)
                && |entries| < |old(entries)|
    {
      hide Eligible, EventId, Select, Sorted;
      ExecuteStep(entries, time, phase);
      while entries != []
        invariant Fresh(entries, time, phase) == Fresh(old(entries), time, phase)
        invariant |entries| <= |old(entries)| && lastEvent == old(lastEvent)
      {
        var first := entries[0];
        if first.time > time {
          return 0;
        } else if !Eligible(first.data, phase) {
          entries := entries[1..];
        } else {
          id, lastEvent := EventId(first.data), first.data;
          entries := entries[1..];
          SortedTail(Fresh(old(entries), time, phase));
          return;
        }
      }
      return 0;
    }

    /**
     * Executing until 0 comes back returns the ids of the due events of active phases in order of
     * time, and leaves exactly the future events, if and only if none of these ids is 0. An event
     * with id 0 ends the drain early: it is removed, and the ready events behind it stay.
     */
    method Drain() returns (ids: seq<bv32>)
      requires Valid()
      modifies this`entries, this`lastEvent
      ensures Valid()
      ensures var ready := Select(old(entries), Ready(time, phase), true);
              && ids == UntilZero(Ids(ready))
              && (ids == Ids(ready) <==> 0 !in Ids(ready))
              && (0 !in Ids(ready) ==> entries == Select(old(entries), Due(time), false))
              && (0 in Ids(ready) ==>
                    |ids| < |ready| && Select(entries, Ready(time, phase), true) == ready[|ids| + 1..])
              && Select(entries, Due(time), false) == Select(old(entries), Due(time), false)
    {
      hide Sorted, EventId, Select, Holds, UntilZero, Ids;
      ids := [];
      ghost var all := Select(entries, Ready(time, phase), true);
      ghost var future := Select(entries, Due(time), false);
      DrainStarts(all);
      while true
        invariant Valid() && Select(entries, Due(time), false) == future
        invariant Drained(all, ids) && Select(entries, Ready(time, phase), true) == all[|ids|..]
        decreases |entries|
      {
        ghost var before := entries;
        var id := ExecuteEvent();
        if id == 0 {
          if all[|ids|..] == [] {
            DrainEnds(all, ids);
            SelectTwice(before, Due(time), false);
          } else {
            DrainStops(all, ids);
            assert all[|ids|..][1..] == all[|ids| + 1..];
          }
          return;
        }
        DrainStep(all, ids);
        assert all[|ids|..][1..] == all[|ids| + 1..];
        ids := ids + [id];
      }
    }

    /** Moves the clock back, never below 0. */
    method DelayAll(delay: nat)
      requires Valid()
      modifies this`time
      ensures Valid() && time == if delay < old(time) then old(time) - delay else 0
    {
      time := if delay < time then time - delay else 0;
    }

    /**
     * Delays the events of one group. The others keep their times and order; the delayed ones are
     * the same events, each with the delay added to its time.
     */
    method DelayEvents(delay: nat, group: nat)
      requires Valid() && delay < TIME
      modifies this`entries
      ensures Valid()
      ensures group == 0 || group > 8 ==> entries == old(entries)
      ensures 1 <= group <= 8 ==>
                var t := Grouped(group);
                && Select(entries, t, false) == Select(old(entries), t, false)
                && Select(entries, t, true) == InsertAll([], Later(Select(old(entries), t, true), delay))
    {
      if group == 0 || group > 8 || entries == [] {
        return;
      }
      hide Sorted, InGroup, Holds;
      PutBack(entries, group, delay);
      var delayed := TakeOut(delay, Grouped(group));
      entries := InsertAll(entries, delayed);
    }

    /** The loop that moves the events of the group, delayed, into a multimap of their own. */
    method TakeOut(delay: nat, t: Test) returns (delayed: seq<Entry>)
      requires Valid() && delay < TIME
      modifies this`entries
      ensures Valid() && entries == Select(old(entries), t, false)
      ensures delayed == InsertAll([], Later(Select(old(entries), t, true), delay))
    {
      hide Sorted, Holds, Removal, Select, Insert, InsertAll, Later;
      delayed := [];
      var i := 0;
      EmptyIsSorted();
      RemovalStarts(entries, t);
      assert entries[0..] == entries;
      while i < |entries|
        invariant 0 <= i <= |entries| && Valid() && Sorted(delayed)
        invariant Removal(old(entries), entries, i, t)
        invariant InsertAll([], Later(Select(old(entries), t, true), delay)) ==
                  InsertAll(delayed, Later(Select(entries[i..], t, true), delay))
        decreases |entries| - i
      {
        RemovalStep(old(entries), entries, i, t);
        if Holds(t, entries[i]) {
          var moved := Entry((entries[i].time + delay) % TIME, entries[i].data);
          LaterHead(delayed, entries[i], Select(entries[i + 1..], t, true), delay);
          InsertSorted(delayed, moved);
          delayed := Insert(delayed, moved);
          RemovalSorted(old(entries), entries[..i] + entries[i + 1..], i, t);
          assert (entries[..i] + entries[i + 1..])[i..] == entries[i + 1..];
          entries := entries[..i] + entries[i + 1..];
        } else {
          i := i + 1;
        }
      }
      RemovalEnds(old(entries), entries, t);
      NothingLater(delayed, t, delay);
      assert entries[i..] == [];
    }

    /** Removes exactly the events of the group. */
    method CancelEventGroup(group: nat)
      requires Valid()
      modifies this`entries
      ensures Valid()
      ensures entries == if 1 <= group <= 8 then Select(old(entries), Grouped(group), false) else old(entries)
    {
      if group == 0 || group > 8 || entries == [] {
        return;
      }
      Erase(Grouped(group));
    }

    /** Removes exactly the events with the id. */
    method CancelEvent(id: bv32)
      requires Valid()
      modifies this`entries
      ensures Valid() && entries == Select(old(entries), Named(id), false)
    {
      if entries == [] {
        return;
      }
      Erase(Named(id));
    }

    /** The erasing loop over the multimap. */
    method Erase(t: Test)
      requires Valid()
      modifies this`entries
      ensures Valid() && entries == Select(old(entries), t, false)
    {
      hide Sorted, Holds, Removal, Select;
      var i := 0;
      RemovalStarts(entries, t);
      while i < |entries|
        invariant 0 <= i <= |entries| && Valid()
        invariant Removal(old(entries), entries, i, t)
        decreases |entries| - i
      {
        RemovalStep(old(entries), entries, i, t);
        if Holds(t, entries[i]) {
          RemovalSorted(old(entries), entries[..i] + entries[i + 1..], i, t);
          entries := entries[..i] + entries[i + 1..];
        } else {
          i := i + 1;
        }
      }
      RemovalEnds(old(entries), entries, t);
    }
  }
}
