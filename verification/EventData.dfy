/** The 32-bit event word: id in bits 0-15, one bit per group in 16-23, one bit per phase in 24-31. */
module EventData {

  function Bit(k: nat): bv32
    requires k < 32
  {
    (1 as bv32) << k
  }

  function Or(a: bv32, b: bv32): bv32 { a | b }

  function And(a: bv32, b: bv32): bv32 { a & b }

  /** The byte of the phases. */
  function High(x: bv32): bv32 { x >> 24 }

  function GroupBit(group: nat): bv32 {
    if 1 <= group <= 8 then Bit(group + 15) else 0
  }

  function PhaseBit(phase: nat): bv32 {
    if 1 <= phase <= 8 then Bit(phase + 23) else 0
  }

  /** The word a scheduled event is stored as. Groups and phases outside 1..8 are ignored. */
  function Data(id: bv32, group: nat, phase: nat): bv32 {
    Or(Or(id, GroupBit(group)), PhaseBit(phase))
  }

  lemma OrNothing(x: bv32)
    ensures Or(x, 0) == x
  {
  }

  lemma BitsOf(group: nat, phase: nat)
    ensures GroupBit(group) == if 1 <= group <= 8 then Bit(group + 15) else 0
    ensures PhaseBit(phase) == if 1 <= phase <= 8 then Bit(phase + 23) else 0
  {
  }

  function EventId(data: bv32): bv32 {
    And(data, 0xFFFF)
  }

  predicate InGroup(data: bv32, group: nat) {
    And(data, GroupBit(group)) != 0
  }

  /** Whether the event may occur while the phases of `mask` are active. */
  predicate Eligible(data: bv32, mask: bv32) {
    mask == 0 || And(data, 0xFF000000) == 0 || And(High(data), mask) != 0
  }

  // ---------------------------------------------------------------- what the bits mean

  ghost predicate GroupWord(w: bv32) {
    w == 0 || w == 0x10000 || w == 0x20000 || w == 0x40000 || w == 0x80000
    || w == 0x100000 || w == 0x200000 || w == 0x400000 || w == 0x800000
  }

  ghost predicate PhaseWord(w: bv32) {
    w == 0 || w == 0x1000000 || w == 0x2000000 || w == 0x4000000 || w == 0x8000000
    || w == 0x10000000 || w == 0x20000000 || w == 0x40000000 || w == 0x80000000
  }

  lemma IdPart(id: bv32, g: bv32, p: bv32)
    requires id <= 0xFFFF && GroupWord(g) && PhaseWord(p)
    ensures And(Or(Or(id, g), p), 0xFFFF) == id
  {
  }

  /** A group bit of a word comes from the group or from the id. */
  lemma GroupPart(id: bv32, g: bv32, p: bv32, probe: bv32)
    requires PhaseWord(p) && GroupWord(probe)
    ensures And(Or(Or(id, g), p), probe) == Or(And(g, probe), And(id, probe))
  {
  }

  lemma HighByte(id: bv32, g: bv32, p: bv32)
    requires GroupWord(g)
    ensures High(Or(Or(id, g), p)) == Or(High(id), High(p))
  {
  }

  lemma HighByteIsEmpty(data: bv32)
    ensures And(data, 0xFF000000) == 0 <==> High(data) == 0
  {
  }

  lemma OrIsZero(x: bv32, y: bv32)
    ensures Or(x, y) == 0 <==> x == 0 && y == 0
  {
  }

  lemma MeetsOne(x: bv32, y: bv32, mask: bv32)
    requires And(x, mask) != 0
    ensures And(Or(x, y), mask) != 0 && And(Or(y, x), mask) != 0
  {
  }

  lemma MeetsNone(x: bv32, y: bv32, mask: bv32)
    requires And(x, mask) == 0 && And(y, mask) == 0
    ensures And(Or(x, y), mask) == 0
  {
  }

  lemma MeetsEither(x: bv32, y: bv32, mask: bv32)
    ensures And(Or(x, y), mask) != 0 <==> And(x, mask) != 0 || And(y, mask) != 0
  {
    hide And, Or;
    if And(x, mask) != 0 {
      MeetsOne(x, y, mask);
    } else if And(y, mask) != 0 {
      MeetsOne(y, x, mask);
    } else {
      MeetsNone(x, y, mask);
    }
  }

  lemma OneHot(g: bv32, probe: bv32)
    requires GroupWord(g) && GroupWord(probe)
    ensures And(g, probe) != 0 <==> g == probe && g != 0
  {
  }

  lemma GroupBits(group: nat)
    ensures GroupWord(GroupBit(group))
    ensures GroupBit(group) == 0 <==> !(1 <= group <= 8)
  {
  }

  lemma PhaseBits(phase: nat)
    ensures PhaseWord(PhaseBit(phase))
    ensures PhaseBit(phase) == 0 <==> !(1 <= phase <= 8)
  {
  }

  lemma DistinctGroups(a: nat, b: nat)
    requires 1 <= a <= 8 && 1 <= b <= 8 && GroupBit(a) == GroupBit(b)
    ensures a == b
  {
  }

  lemma LowHalf(x: bv32)
    ensures And(x, 0xFFFF) <= 0xFFFF
  {
  }

  /** An event is executed under the id it was scheduled with exactly when the id has at most 16 bits. */
  lemma IdSurvivesIff(id: bv32, group: nat, phase: nat)
    ensures EventId(Data(id, group, phase)) == id <==> id <= 0xFFFF
  {
    hide Or, And, High, GroupWord, PhaseWord, GroupBit, PhaseBit;
    if id <= 0xFFFF {
      GroupBits(group);
      PhaseBits(phase);
      IdPart(id, GroupBit(group), PhaseBit(phase));
    } else {
      LowHalf(Data(id, group, phase));
    }
  }

  /** An event is in the group it was scheduled with, and in those whose bits its id has. */
  lemma GroupIff(id: bv32, group: nat, phase: nat, probe: nat)
    requires 1 <= probe <= 8
    ensures InGroup(Data(id, group, phase), probe) <==> group == probe || And(id, GroupBit(probe)) != 0
  {
    hide Or, And, High, GroupWord, PhaseWord, GroupBit, PhaseBit;
    GroupBits(group);
    GroupBits(probe);
    PhaseBits(phase);
    GroupPart(id, GroupBit(group), PhaseBit(phase), GroupBit(probe));
    OrIsZero(And(GroupBit(group), GroupBit(probe)), And(id, GroupBit(probe)));
    OneHot(GroupBit(group), GroupBit(probe));
    if 1 <= group <= 8 && GroupBit(group) == GroupBit(probe) {
      DistinctGroups(group, probe);
    }
  }

  /** The bits of x under `field` are among those of w. */
  predicate Within(x: bv32, field: bv32, w: bv32) {
    Or(And(x, field), w) == w
  }

  predicate Outside(id: bv32, g: bv32, w: bv32) {
    w != g && And(id, w) != 0
  }

  lemma SomeGroupOutside(id: bv32, g: bv32) returns (w: bv32)
    requires GroupWord(g) && !Within(id, 0xFF0000, g)
    ensures GroupWord(w) && w != 0 && Outside(id, g, w)
  {
    w := if Outside(id, g, 0x10000) then 0x10000
         else if Outside(id, g, 0x20000) then 0x20000
         else if Outside(id, g, 0x40000) then 0x40000
         else if Outside(id, g, 0x80000) then 0x80000
         else if Outside(id, g, 0x100000) then 0x100000
         else if Outside(id, g, 0x200000) then 0x200000
         else if Outside(id, g, 0x400000) then 0x400000
         else 0x800000;
  }

  lemma InsideMeans(id: bv32, g: bv32, probe: bv32)
    requires GroupWord(g) && GroupWord(probe) && probe != g && Within(id, 0xFF0000, g)
    ensures And(id, probe) == 0
  {
  }

  lemma GroupOfWord(w: bv32) returns (group: nat)
    requires GroupWord(w) && w != 0
    ensures 1 <= group <= 8 && GroupBit(group) == w
  {
    group := if w == 0x10000 then 1 else if w == 0x20000 then 2 else if w == 0x40000 then 3 else if w == 0x80000 then 4
             else if w == 0x100000 then 5 else if w == 0x200000 then 6 else if w == 0x400000 then 7 else 8;
  }

  /** An event is in exactly its own group if and only if its id has no bit of another one. */
  lemma OwnGroupIff(id: bv32, group: nat, phase: nat)
    ensures (forall probe | 1 <= probe <= 8 :: InGroup(Data(id, group, phase), probe) <==> group == probe)
       <==> Within(id, 0xFF0000, GroupBit(group))
  {
    hide Or, And, High, Data, InGroup, GroupWord, PhaseWord, GroupBit, PhaseBit, Within;
    GroupBits(group);
    if Within(id, 0xFF0000, GroupBit(group)) {
      forall probe | 1 <= probe <= 8 ensures InGroup(Data(id, group, phase), probe) <==> group == probe {
        OneGroup(id, group, phase, probe);
      }
    } else {
      var w := SomeGroupOutside(id, GroupBit(group));
      var probe := GroupOfWord(w);
      GroupIff(id, group, phase, probe);
      assert InGroup(Data(id, group, phase), probe) && group != probe;
    }
  }

  lemma OneGroup(id: bv32, group: nat, phase: nat, probe: nat)
    requires 1 <= probe <= 8 && Within(id, 0xFF0000, GroupBit(group))
    ensures InGroup(Data(id, group, phase), probe) <==> group == probe
  {
    hide Or, And, High, Data, InGroup, GroupWord, PhaseWord, GroupBit, PhaseBit, Within;
    GroupIff(id, group, phase, probe);
    GroupBits(group);
    GroupBits(probe);
    if GroupBit(group) == GroupBit(probe) {
      DistinctGroups(group, probe);
    } else {
      InsideMeans(id, GroupBit(group), GroupBit(probe));
    }
  }

  /** An id with bit 16 set puts an event without a group into group 1. */
  lemma SpillsIntoGroup()
    ensures InGroup(Data(0x10001, 0, 0), 1)
  {
    GroupIff(0x10001, 0, 0, 1);
  }

  /**
   * With phases active, an event may occur exactly if it has no phase bit at all, its own phase is
   * active, or the high byte of its id names an active phase.
   */
  lemma EligibleIff(id: bv32, group: nat, phase: nat, mask: bv32)
    ensures Eligible(Data(id, group, phase), mask) <==>
            || mask == 0
            || (!(1 <= phase <= 8) && High(id) == 0)
            || And(High(PhaseBit(phase)), mask) != 0
            || And(High(id), mask) != 0
  {
    hide Or, And, High, GroupWord, PhaseWord, GroupBit, PhaseBit;
    var p := PhaseBit(phase);
    GroupBits(group);
    PhaseBits(phase);
    PhaseIsHigh(p);
    HighByte(id, GroupBit(group), p);
    HighByteIsEmpty(Data(id, group, phase));
    OrIsZero(High(id), High(p));
    MeetsEither(High(id), High(p), mask);
  }

  lemma PhaseIsHigh(p: bv32)
    requires PhaseWord(p)
    ensures High(p) == 0 <==> p == 0
  {
  }

  /** The words of the eight phases, and of the eight groups. */
  lemma BitTable()
    ensures PhaseBit(1) == 0x1000000 && PhaseBit(2) == 0x2000000 && PhaseBit(3) == 0x4000000 && PhaseBit(4) == 0x8000000
    ensures PhaseBit(5) == 0x10000000 && PhaseBit(6) == 0x20000000 && PhaseBit(7) == 0x40000000 && PhaseBit(8) == 0x80000000
    ensures GroupBit(1) == 0x10000 && GroupBit(2) == 0x20000 && GroupBit(3) == 0x40000 && GroupBit(4) == 0x80000
    ensures GroupBit(5) == 0x100000 && GroupBit(6) == 0x200000 && GroupBit(7) == 0x400000 && GroupBit(8) == 0x800000
  {
  }

  lemma OneHotPhase(p: bv32, q: bv32)
    requires PhaseWord(p) && PhaseWord(q) && p != 0 && q != 0
    ensures And(High(p), High(q)) != 0 <==> p == q
  {
  }

  lemma DistinctPhases(a: nat, b: nat)
    requires 1 <= a <= 8 && 1 <= b <= 8 && PhaseBit(a) == PhaseBit(b)
    ensures a == b
  {
    BitTable();
    hide PhaseBit, GroupBit;
  }

  /** The bits of two phases meet exactly if they are the same phase. */
  lemma PhasesMeetIff(a: nat, b: nat)
    requires 1 <= a <= 8 && 1 <= b <= 8
    ensures And(High(PhaseBit(a)), High(PhaseBit(b))) != 0 <==> a == b
  {
    hide And, High, PhaseBit, PhaseWord;
    PhaseBits(a);
    PhaseBits(b);
    OneHotPhase(PhaseBit(a), PhaseBit(b));
    if PhaseBit(a) == PhaseBit(b) {
      DistinctPhases(a, b);
    }
  }

  /**
   * What phases are for: while one phase is active, an event scheduled for a phase is executed if
   * that is the active one, and discarded otherwise.
   */
  lemma OnlyItsPhase(id: bv32, group: nat, phase: nat, active: nat)
    requires id <= 0xFFFF && 1 <= phase <= 8 && 1 <= active <= 8
    ensures Eligible(Data(id, group, phase), High(PhaseBit(active))) <==> phase == active
  {
    hide Or, And, High, PhaseBit, GroupBit, Data, Eligible, PhaseWord;
    EligibleIff(id, group, phase, High(PhaseBit(active)));
    PhasesMeetIff(phase, active);
    ShortId(id);
    NoBits(High(PhaseBit(active)));
    PhaseBits(active);
    PhaseIsHigh(PhaseBit(active));
  }

  lemma ShortId(id: bv32)
    requires id <= 0xFFFF
    ensures High(id) == 0
  {
  }

  /** What scheduling for a phase promises while the phases of `mask` are active. */
  predicate MayOccur(phase: nat, mask: bv32) {
    mask == 0 || !(1 <= phase <= 8) || And(High(PhaseBit(phase)), mask) != 0
  }

  /** The phases in the high byte of the id make no difference to an event of that phase. */
  predicate PhaseSafe(id: bv32, phase: nat) {
    if 1 <= phase <= 8 then Within(High(id), 0xFF, High(PhaseBit(phase))) else High(id) == 0 || High(id) == 0xFF
  }

  lemma OutsidePhases(h: bv32, p: bv32)
    requires h <= 0xFF && !Within(h, 0xFF, p)
    ensures var mask := h & !p; mask != 0 && mask <= 0xFF && And(h, mask) != 0 && And(p, mask) == 0
  {
  }

  lemma InsidePhases(h: bv32, p: bv32, mask: bv32)
    requires h <= 0xFF && Within(h, 0xFF, p) && And(h, mask) != 0
    ensures And(p, mask) != 0
  {
  }

  lemma MissedPhases(h: bv32)
    requires h <= 0xFF && h != 0xFF
    ensures var mask := 0xFF & !h; mask != 0 && mask <= 0xFF && And(h, mask) == 0
  {
  }

  lemma AllPhases(mask: bv32)
    requires mask <= 0xFF && mask != 0
    ensures And(0xFF, mask) != 0
  {
  }

  lemma ByteOf(id: bv32)
    ensures High(id) <= 0xFF
  {
  }

  lemma NoBits(mask: bv32)
    ensures And(0, mask) == 0 && High(0) == 0
  {
  }

  /**
   * An event occurs exactly as scheduled, whatever phases are active, if and only if the high byte
   * of its id names no phase but its own; without a phase of its own, none or all eight.
   */
  lemma OwnPhaseIff(id: bv32, group: nat, phase: nat)
    ensures (forall mask: bv32 | mask <= 0xFF :: Eligible(Data(id, group, phase), mask) <==> MayOccur(phase, mask))
       <==> PhaseSafe(id, phase)
  {
    hide Data, Eligible, And, High, Or, PhaseBit, Within, MayOccur, PhaseSafe;
    if PhaseSafe(id, phase) {
      forall mask: bv32 | mask <= 0xFF ensures Eligible(Data(id, group, phase), mask) <==> MayOccur(phase, mask) {
        SafePhase(id, group, phase, mask);
      }
    } else {
      var mask := UnsafePhase(id, group, phase);
      assert !(Eligible(Data(id, group, phase), mask) <==> MayOccur(phase, mask));
    }
  }

  lemma SafePhase(id: bv32, group: nat, phase: nat, mask: bv32)
    requires mask <= 0xFF && PhaseSafe(id, phase)
    ensures Eligible(Data(id, group, phase), mask) <==> MayOccur(phase, mask)
  {
    hide Data, Eligible, And, High, Or, PhaseBit, Within, PhaseWord;
    EligibleIff(id, group, phase, mask);
    ByteOf(id);
    if 1 <= phase <= 8 {
      if And(High(id), mask) != 0 {
        InsidePhases(High(id), High(PhaseBit(phase)), mask);
      }
    } else if High(id) == 0xFF && mask != 0 {
      AllPhases(mask);
    }
  }

  lemma UnsafePhase(id: bv32, group: nat, phase: nat) returns (mask: bv32)
    requires !PhaseSafe(id, phase)
    ensures mask <= 0xFF && !(Eligible(Data(id, group, phase), mask) <==> MayOccur(phase, mask))
  {
    hide Data, Eligible, And, High, Or, PhaseBit, Within, PhaseWord;
    ByteOf(id);
    if 1 <= phase <= 8 {
      mask := High(id) & !High(PhaseBit(phase));
      OutsidePhases(High(id), High(PhaseBit(phase)));
    } else {
      mask := 0xFF & !High(id);
      MissedPhases(High(id));
      PhaseBits(phase);
      NoBits(mask);
    }
    EligibleIff(id, group, phase, mask);
  }
}
