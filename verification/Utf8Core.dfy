/**
 * Single characters of dep/utf8cpp: decoding (core.h), encoding (checked.h append) and the
 * unchecked decoder, against the grammar of section 4 of RFC 3629.
 */
module Utf8Core {

  datatype Error = NotEnoughRoom | InvalidLead | IncompleteSequence | OverlongSequence | InvalidCodePoint

  datatype Validated = Valid(cp: bv32, len: nat) | Invalid(err: Error)

  // ---------------------------------------------------------------- core.h

  predicate IsTrail(b: bv8) {
    b >> 6 == 0x2
  }

  predicate IsCodePointValid(cp: bv32) {
    cp <= 0x10ffff && !(0xd800 <= cp <= 0xdfff)
  }

  function SequenceLength(lead: bv8): (n: nat)
    ensures n <= 4
  {
    if lead < 0x80 then 1
    else if lead >> 5 == 0x6 then 2
    else if lead >> 4 == 0xe then 3
    else if lead >> 3 == 0x1e then 4
    else 0
  }

  predicate IsOverlong(cp: bv32, len: nat) {
    if cp < 0x80 then len != 1
    else if cp < 0x800 then len != 2
    else if cp < 0x10000 then len != 3
    else false
  }

  function Sequence2(b0: bv8, b1: bv8): bv32 {
    (((b0 as bv32) << 6) & 0x7ff) + ((b1 as bv32) & 0x3f)
  }

  function Sequence3(b0: bv8, b1: bv8, b2: bv8): bv32 {
    ((((b0 as bv32) << 12) & 0xffff) + (((b1 as bv32) << 6) & 0xfff)) + ((b2 as bv32) & 0x3f)
  }

  function Sequence4(b0: bv8, b1: bv8, b2: bv8, b3: bv8): bv32 {
    (((((b0 as bv32) << 18) & 0x1fffff) + (((b1 as bv32) << 12) & 0x3ffff)) + (((b2 as bv32) << 6) & 0xfff))
    + ((b3 as bv32) & 0x3f)
  }

  /** The security checks on a decoded code point. */
  function Checked(cp: bv32, len: nat): Validated {
    if !IsCodePointValid(cp) then Invalid(InvalidCodePoint)
    else if IsOverlong(cp, len) then Invalid(OverlongSequence)
    else Valid(cp, len)
  }

  /** increase_safely, repeated: the first error among the trail octets s[i..n]. */
  function TrailError(s: seq<bv8>, i: nat, n: nat): Validated
    requires i <= n && i <= |s|
    decreases n - i
  {
    if i == n then Valid(0, n)
    else if i == |s| then Invalid(NotEnoughRoom)
    else if !IsTrail(s[i]) then Invalid(IncompleteSequence)
    else TrailError(s, i + 1, n)
  }

  /** validate_next at the start of s. */
  function ValidateNext(s: seq<bv8>): Validated
    requires s != []
  {
    var len := SequenceLength(s[0]);
    if len == 0 then Invalid(InvalidLead)
    else
      var trails := TrailError(s, 1, len);
      if trails.Invalid? then trails
      else
        TrailsPresent(s, 1, len);
        Checked(Raw(s, len), len)
  }

  /** The code point read from the first len octets, before any check. */
  function Raw(s: seq<bv8>, len: nat): bv32
    requires 1 <= len <= 4 && len <= |s|
  {
    if len == 1 then s[0] as bv32
    else if len == 2 then Sequence2(s[0], s[1])
    else if len == 3 then Sequence3(s[0], s[1], s[2])
    else Sequence4(s[0], s[1], s[2], s[3])
  }

  lemma {:induction false} TrailsPresent(s: seq<bv8>, i: nat, n: nat)
    requires i <= n && i <= |s|
    ensures TrailError(s, i, n).Valid? <==> n <= |s| && forall j | i <= j < n :: IsTrail(s[j])
    ensures TrailError(s, i, n) == Invalid(NotEnoughRoom) <==> |s| < n && forall j | i <= j < |s| :: IsTrail(s[j])
    ensures TrailError(s, i, n).Valid? || TrailError(s, i, n) == Invalid(NotEnoughRoom)
         || TrailError(s, i, n) == Invalid(IncompleteSequence)
    decreases n - i
  {
    if i < n && i < |s| && IsTrail(s[i]) {
      TrailsPresent(s, i + 1, n);
    }
  }

  // ---------------------------------------------------------------- checked.h append

  function Byte(x: bv32): bv8 {
    (x & 0xff) as bv8
  }

  /** The octets append writes for a code point below 0x110000. */
  function EncodeChar(cp: bv32): (r: seq<bv8>)
    ensures 1 <= |r| <= 4
  {
    if cp < 0x80 then [Byte(cp)]
    else if cp < 0x800 then [Byte((cp >> 6) | 0xc0), Byte((cp & 0x3f) | 0x80)]
    else if cp < 0x10000 then
      [Byte((cp >> 12) | 0xe0), Byte(((cp >> 6) & 0x3f) | 0x80), Byte((cp & 0x3f) | 0x80)]
    else
      [Byte((cp >> 18) | 0xf0), Byte(((cp >> 12) & 0x3f) | 0x80), Byte(((cp >> 6) & 0x3f) | 0x80), Byte((cp & 0x3f) | 0x80)]
  }

  // ---------------------------------------------------------------- the grammar of RFC 3629, section 4

  predicate Tail(b: bv8) {
    0x80 <= b <= 0xbf
  }

  predicate Utf8Char1(b0: bv8) {
    b0 <= 0x7f
  }

  predicate Utf8Char2(b0: bv8, b1: bv8) {
    0xc2 <= b0 <= 0xdf && Tail(b1)
  }

  predicate Utf8Char3(b0: bv8, b1: bv8, b2: bv8) {
    || (b0 == 0xe0 && 0xa0 <= b1 <= 0xbf && Tail(b2))
    || (0xe1 <= b0 <= 0xec && Tail(b1) && Tail(b2))
    || (b0 == 0xed && 0x80 <= b1 <= 0x9f && Tail(b2))
    || (0xee <= b0 <= 0xef && Tail(b1) && Tail(b2))
  }

  predicate Utf8Char4(b0: bv8, b1: bv8, b2: bv8, b3: bv8) {
    || (b0 == 0xf0 && 0x90 <= b1 <= 0xbf && Tail(b2) && Tail(b3))
    || (0xf1 <= b0 <= 0xf3 && Tail(b1) && Tail(b2) && Tail(b3))
    || (b0 == 0xf4 && 0x80 <= b1 <= 0x8f && Tail(b2) && Tail(b3))
  }

  /** The length of the UTF8-char that s starts with, 0 if there is none. */
  function CharLen(s: seq<bv8>): (n: nat)
    ensures n <= 4 && n <= |s|
  {
    if |s| >= 1 && Utf8Char1(s[0]) then 1
    else if |s| >= 2 && Utf8Char2(s[0], s[1]) then 2
    else if |s| >= 3 && Utf8Char3(s[0], s[1], s[2]) then 3
    else if |s| >= 4 && Utf8Char4(s[0], s[1], s[2], s[3]) then 4
    else 0
  }

  // ---------------------------------------------------------------- the decoder accepts the grammar

  lemma OneByte(b0: bv8)
    ensures Utf8Char1(b0) <==> SequenceLength(b0) == 1
    ensures SequenceLength(b0) == 1 ==> Checked(b0 as bv32, 1).Valid?
  {
  }

  lemma TwoBytes(b0: bv8, b1: bv8)
    ensures Utf8Char2(b0, b1) ==> SequenceLength(b0) == 2 && IsTrail(b1)
    ensures SequenceLength(b0) == 2 && IsTrail(b1) ==>
              (Checked(Sequence2(b0, b1), 2).Valid? <==> Utf8Char2(b0, b1))
  {
  }

  lemma ThreeBytes(b0: bv8, b1: bv8, b2: bv8)
    ensures Utf8Char3(b0, b1, b2) ==> SequenceLength(b0) == 3 && IsTrail(b1) && IsTrail(b2)
    ensures SequenceLength(b0) == 3 && IsTrail(b1) && IsTrail(b2) ==>
              (Checked(Sequence3(b0, b1, b2), 3).Valid? <==> Utf8Char3(b0, b1, b2))
  {
  }

  lemma FourBytes(b0: bv8, b1: bv8, b2: bv8, b3: bv8)
    ensures Utf8Char4(b0, b1, b2, b3) ==> SequenceLength(b0) == 4 && IsTrail(b1) && IsTrail(b2) && IsTrail(b3)
    ensures SequenceLength(b0) == 4 && IsTrail(b1) && IsTrail(b2) && IsTrail(b3) ==>
              (Checked(Sequence4(b0, b1, b2, b3), 4).Valid? <==> Utf8Char4(b0, b1, b2, b3))
  {
  }

  /** validate_next accepts exactly the UTF8-char of the grammar, with the grammar's length. */
  lemma AcceptsGrammar(s: seq<bv8>)
    requires s != []
    ensures ValidateNext(s).Valid? <==> CharLen(s) > 0
    ensures ValidateNext(s).Valid? ==> ValidateNext(s).len == CharLen(s) && ValidateNext(s).cp == Raw(s, CharLen(s))
    ensures CharLen(s) > 0 ==> CharLen(s) == SequenceLength(s[0])
  {
    var len := SequenceLength(s[0]);
    if len > 0 {
      TrailsPresent(s, 1, len);
    }
    OneByte(s[0]);
    if |s| >= 2 { TwoBytes(s[0], s[1]); }
    if |s| >= 3 { ThreeBytes(s[0], s[1], s[2]); }
    if |s| >= 4 { FourBytes(s[0], s[1], s[2], s[3]); }
    hide IsTrail, SequenceLength, Utf8Char1, Utf8Char2, Utf8Char3, Utf8Char4, Sequence2, Sequence3, Sequence4,
      IsCodePointValid, IsOverlong, TrailError;
  }

  /** Only the character's own octets matter. */
  lemma CharLenLocal(s: seq<bv8>, t: seq<bv8>)
    requires CharLen(s) > 0 && CharLen(s) <= |t| && s[..CharLen(s)] == t[..CharLen(s)]
    ensures CharLen(t) == CharLen(s) && Raw(t, CharLen(t)) == Raw(s, CharLen(s))
  {
    var n := CharLen(s);
    assert forall i | 0 <= i < n :: t[i] == t[..n][i] == s[..n][i] == s[i];
    LeadDecides(s);
    LeadDecides(t);
    hide Utf8Char1, Utf8Char2, Utf8Char3, Utf8Char4, Sequence2, Sequence3, Sequence4;
  }

  /** The four rules of the grammar exclude each other by the lead octet. */
  lemma LeadDecides(s: seq<bv8>)
    ensures |s| >= 2 ==> !(Utf8Char1(s[0]) && Utf8Char2(s[0], s[1]))
    ensures |s| >= 3 && Utf8Char3(s[0], s[1], s[2]) ==> !Utf8Char1(s[0]) && !Utf8Char2(s[0], s[1])
    ensures |s| >= 4 && Utf8Char4(s[0], s[1], s[2], s[3]) ==>
              !Utf8Char1(s[0]) && !Utf8Char2(s[0], s[1]) && !Utf8Char3(s[0], s[1], s[2])
  {
  }

  /** A character starts with an octet that is not a trail octet; the rest of it is trail octets. */
  lemma CharShape(s: seq<bv8>)
    requires CharLen(s) > 0
    ensures !IsTrail(s[0]) && forall i | 1 <= i < CharLen(s) :: IsTrail(s[i])
  {
    AcceptsGrammar(s);
    TrailsPresent(s, 1, SequenceLength(s[0]));
    LeadIsNotTrail(s[0]);
    hide IsTrail, SequenceLength, TrailError;
  }

  lemma LeadIsNotTrail(b: bv8)
    ensures SequenceLength(b) > 0 ==> !IsTrail(b)
    ensures IsTrail(b) ==> SequenceLength(b) == 0
  {
  }

  /** What an octet adds to the number, by the table in section 3 of RFC 3629. */
  function Part(b: bv8, base: bv32, weight: bv32): bv32 {
    ((b as bv32) - base) * weight
  }

  function Table2(b0: bv8, b1: bv8): bv32 {
    Part(b0, 0xc0, 0x40) + Part(b1, 0x80, 1)
  }

  function Table3(b0: bv8, b1: bv8, b2: bv8): bv32 {
    Part(b0, 0xe0, 0x1000) + Part(b1, 0x80, 0x40) + Part(b2, 0x80, 1)
  }

  function Table4(b0: bv8, b1: bv8, b2: bv8, b3: bv8): bv32 {
    Part(b0, 0xf0, 0x40000) + Part(b1, 0x80, 0x1000) + Part(b2, 0x80, 0x40) + Part(b3, 0x80, 1)
  }

  lemma LeadParts(b: bv8)
    ensures 0xc0 <= b <= 0xdf ==> ((b as bv32) << 6) & 0x7ff == Part(b, 0xc0, 0x40)
    ensures 0xe0 <= b <= 0xef ==> ((b as bv32) << 12) & 0xffff == Part(b, 0xe0, 0x1000)
    ensures 0xf0 <= b <= 0xf7 ==> ((b as bv32) << 18) & 0x1fffff == Part(b, 0xf0, 0x40000)
  {
  }

  lemma TailParts(b: bv8)
    requires Tail(b)
    ensures (b as bv32) & 0x3f == Part(b, 0x80, 1)
    ensures ((b as bv32) << 6) & 0xfff == Part(b, 0x80, 0x40)
    ensures ((b as bv32) << 12) & 0x3ffff == Part(b, 0x80, 0x1000)
  {
  }

  /** A UTF8-char is decoded to the number the table gives for it. */
  lemma PointByTable(s: seq<bv8>)
    requires CharLen(s) > 0
    ensures CharLen(s) == 1 ==> Raw(s, 1) == s[0] as bv32
    ensures CharLen(s) == 2 ==> Raw(s, 2) == Table2(s[0], s[1])
    ensures CharLen(s) == 3 ==> Raw(s, 3) == Table3(s[0], s[1], s[2])
    ensures CharLen(s) == 4 ==> Raw(s, 4) == Table4(s[0], s[1], s[2], s[3])
  {
    hide Sequence2, Sequence3, Sequence4, Utf8Char1, Utf8Char2, Utf8Char3, Utf8Char4, Table2, Table3, Table4;
    var n := CharLen(s);
    if n == 2 { TableTwo(s[0], s[1]); }
    if n == 3 { TableThree(s[0], s[1], s[2]); }
    if n == 4 { TableFour(s[0], s[1], s[2], s[3]); }
  }

  lemma TableTwo(b0: bv8, b1: bv8)
    requires Utf8Char2(b0, b1)
    ensures Sequence2(b0, b1) == Table2(b0, b1)
  {
    hide Part;
    LeadParts(b0);
    TailParts(b1);
  }

  lemma TableThree(b0: bv8, b1: bv8, b2: bv8)
    requires Utf8Char3(b0, b1, b2)
    ensures Sequence3(b0, b1, b2) == Table3(b0, b1, b2)
  {
    hide Part;
    LeadParts(b0);
    TailParts(b1);
    TailParts(b2);
  }

  lemma TableFour(b0: bv8, b1: bv8, b2: bv8, b3: bv8)
    requires Utf8Char4(b0, b1, b2, b3)
    ensures Sequence4(b0, b1, b2, b3) == Table4(b0, b1, b2, b3)
  {
    hide Part;
    LeadParts(b0);
    TailParts(b1);
    TailParts(b2);
    TailParts(b3);
  }

  // ---------------------------------------------------------------- what is wrong with a sequence that is no character

  /** How many octets a lead octet announces, by its range; 0 for an octet that starts nothing. */
  function Announced(b: bv8): nat {
    if b <= 0x7f then 1
    else if 0xc0 <= b <= 0xdf then 2
    else if 0xe0 <= b <= 0xef then 3
    else if 0xf0 <= b <= 0xf7 then 4
    else 0
  }

  /** The text ends before the announced octets, and only trail octets follow the lead octet. */
  predicate CutOff(s: seq<bv8>)
    requires s != []
  {
    Announced(s[0]) > |s| && forall i | 1 <= i < |s| :: Tail(s[i])
  }

  /** Among the announced octets one is not a trail octet. */
  predicate Broken(s: seq<bv8>)
    requires s != []
  {
    exists i | 1 <= i < |s| :: i < Announced(s[0]) && !Tail(s[i])
  }

  /** A complete sequence for a surrogate, in three octets or overlong in four, or for a number above 0x10ffff. */
  predicate NoCodePoint(s: seq<bv8>) {
    || (|s| >= 3 && s[0] == 0xed && 0xa0 <= s[1] <= 0xbf && Tail(s[2]))
    || (|s| >= 4 && s[0] == 0xf0 && s[1] == 0x8d && 0xa0 <= s[2] <= 0xbf && Tail(s[3]))
    || (|s| >= 4 && ((s[0] == 0xf4 && 0x90 <= s[1] <= 0xbf) || (0xf5 <= s[0] <= 0xf7 && Tail(s[1]))) && Tail(s[2]) && Tail(s[3]))
  }

  lemma Ranges(b: bv8)
    ensures SequenceLength(b) == Announced(b) && (IsTrail(b) <==> Tail(b))
  {
  }

  lemma TwoChecked(b0: bv8, b1: bv8)
    requires Announced(b0) == 2 && Tail(b1)
    ensures Checked(Sequence2(b0, b1), 2) != Invalid(InvalidCodePoint)
    ensures Checked(Sequence2(b0, b1), 2).Valid? || Checked(Sequence2(b0, b1), 2) == Invalid(OverlongSequence)
  {
  }

  lemma ThreeChecked(b0: bv8, b1: bv8, b2: bv8)
    requires Announced(b0) == 3 && Tail(b1) && Tail(b2)
    ensures Checked(Sequence3(b0, b1, b2), 3) == Invalid(InvalidCodePoint) <==> b0 == 0xed && 0xa0 <= b1
  {
  }

  lemma FourChecked(b0: bv8, b1: bv8, b2: bv8, b3: bv8)
    requires Announced(b0) == 4 && Tail(b1) && Tail(b2) && Tail(b3)
    ensures Checked(Sequence4(b0, b1, b2, b3), 4) == Invalid(InvalidCodePoint) <==>
            || (b0 == 0xf0 && b1 == 0x8d && 0xa0 <= b2)
            || (b0 == 0xf4 && 0x90 <= b1)
            || 0xf5 <= b0
  {
  }

  lemma ShapeOfLead(b: bv8)
    ensures b == 0xed ==> Announced(b) == 3
    ensures b == 0xf0 || 0xf4 <= b <= 0xf7 ==> Announced(b) == 4
    ensures Announced(b) == 4 ==> b <= 0xf7
    ensures Announced(b) == 1 ==> Checked(b as bv32, 1).Valid?
    ensures Announced(b) == 2 || Announced(b) == 1 ==> b < 0xed
    ensures Announced(b) == 3 ==> b < 0xf0
  {
  }

  lemma AllTrails(s: seq<bv8>)
    ensures forall i | 0 <= i < |s| :: IsTrail(s[i]) <==> Tail(s[i])
  {
    hide IsTrail, Tail;
    forall i | 0 <= i < |s| ensures IsTrail(s[i]) <==> Tail(s[i]) {
      Ranges(s[i]);
    }
  }

  /** The checks on a complete sequence, by its octets. */
  lemma CheckedByShape(s: seq<bv8>, n: nat)
    requires 1 <= n <= |s| && n == Announced(s[0]) && n <= 4 && forall i | 1 <= i < n :: Tail(s[i])
    ensures Checked(Raw(s, n), n) == Invalid(InvalidCodePoint) <==> NoCodePoint(s)
    ensures Checked(Raw(s, n), n).Valid? || Checked(Raw(s, n), n).err.InvalidCodePoint? || Checked(Raw(s, n), n).err.OverlongSequence?
  {
    ShapeOfLead(s[0]);
    if n == 2 { TwoChecked(s[0], s[1]); }
    if n == 3 { ThreeChecked(s[0], s[1], s[2]); }
    if n == 4 { FourChecked(s[0], s[1], s[2], s[3]); }
    hide Announced, Sequence2, Sequence3, Sequence4, IsCodePointValid, IsOverlong;
  }

  /** Which error validate_next reports, by the octets alone. */
  lemma ErrorByShape(s: seq<bv8>)
    requires s != [] && CharLen(s) == 0
    ensures ValidateNext(s).Invalid?
    ensures ValidateNext(s).err == InvalidLead <==> Announced(s[0]) == 0
    ensures ValidateNext(s).err == NotEnoughRoom <==> CutOff(s)
    ensures ValidateNext(s).err == IncompleteSequence <==> Broken(s)
    ensures ValidateNext(s).err == InvalidCodePoint <==> NoCodePoint(s)
  {
    hide IsTrail, SequenceLength, Announced, CharLen, Checked, Raw, TrailError, Tail;
    AcceptsGrammar(s);
    AllTrails(s);
    Ranges(s[0]);
    ShapeOfLead(s[0]);
    var n := Announced(s[0]);
    if n > 0 {
      TrailsPresent(s, 1, n);
      FirstError(s, 1, n);
      if n <= |s| && forall i | 1 <= i < n :: Tail(s[i]) {
        CheckedByShape(s, n);
      }
    }
    NoCodePointIsComplete(s);
  }

  lemma NoCodePointIsComplete(s: seq<bv8>)
    ensures NoCodePoint(s) ==> s != [] && 3 <= Announced(s[0]) <= |s| && forall i | 1 <= i < Announced(s[0]) :: Tail(s[i])
  {
  }

  lemma {:induction false} FirstError(s: seq<bv8>, i: nat, n: nat)
    requires i <= n && i <= |s|
    ensures TrailError(s, i, n) == Invalid(IncompleteSequence) <==> exists j | i <= j < |s| :: j < n && !IsTrail(s[j])
    decreases n - i
  {
    hide IsTrail;
    if i < n && i < |s| && IsTrail(s[i]) {
      FirstError(s, i + 1, n);
    }
  }

  // ---------------------------------------------------------------- encode and decode are inverse

  lemma Encode2(cp: bv32)
    requires 0x80 <= cp < 0x800
    ensures var b0, b1 := Byte((cp >> 6) | 0xc0), Byte((cp & 0x3f) | 0x80);
            Utf8Char2(b0, b1) && Sequence2(b0, b1) == cp
  {
  }

  lemma Encode3(cp: bv32)
    requires 0x800 <= cp < 0x10000 && IsCodePointValid(cp)
    ensures var b0, b1, b2 := Byte((cp >> 12) | 0xe0), Byte(((cp >> 6) & 0x3f) | 0x80), Byte((cp & 0x3f) | 0x80);
            Utf8Char3(b0, b1, b2) && Sequence3(b0, b1, b2) == cp
  {
  }

  lemma Encode4(cp: bv32)
    requires 0x10000 <= cp < 0x110000
    ensures var b0, b1, b2, b3 := Byte((cp >> 18) | 0xf0), Byte(((cp >> 12) & 0x3f) | 0x80),
                                  Byte(((cp >> 6) & 0x3f) | 0x80), Byte((cp & 0x3f) | 0x80);
            Utf8Char4(b0, b1, b2, b3) && Sequence4(b0, b1, b2, b3) == cp
  {
  }

  lemma Encode1(cp: bv32)
    requires cp < 0x80
    ensures Utf8Char1(Byte(cp)) && Byte(cp) as bv32 == cp
  {
  }

  lemma EncodedParts(cp: bv32)
    requires IsCodePointValid(cp)
    ensures var r := EncodeChar(cp); CharLen(r) == |r| && Raw(r, |r|) == cp
  {
    LeadDecides(EncodeChar(cp));
    if cp < 0x80 {
      Encode1(cp);
    } else if cp < 0x800 {
      Encode2(cp);
    } else if cp < 0x10000 {
      Encode3(cp);
    } else {
      InRange(cp);
      Encode4(cp);
    }
    hide Byte, IsCodePointValid, Utf8Char1, Utf8Char2, Utf8Char3, Utf8Char4, Sequence2, Sequence3, Sequence4;
  }

  lemma InRange(cp: bv32)
    requires IsCodePointValid(cp)
    ensures cp < 0x110000
  {
  }

  /** What append writes is read back, whatever follows it. */
  lemma {:induction false} DecodeEncoded(cp: bv32, rest: seq<bv8>)
    requires IsCodePointValid(cp)
    ensures ValidateNext(EncodeChar(cp) + rest) == Valid(cp, |EncodeChar(cp)|)
  {
    hide EncodeChar, IsCodePointValid, ValidateNext, CharLen, Raw;
    var r := EncodeChar(cp);
    EncodedParts(cp);
    assert (r + rest)[..|r|] == r == r[..|r|];
    CharLenLocal(r, r + rest);
    AcceptsGrammar(r + rest);
  }

  lemma Decode1(b0: bv8)
    requires Utf8Char1(b0)
    ensures EncodeChar(b0 as bv32) == [b0] && IsCodePointValid(b0 as bv32)
  {
  }

  lemma Decode2(b0: bv8, b1: bv8)
    requires Utf8Char2(b0, b1)
    ensures EncodeChar(Sequence2(b0, b1)) == [b0, b1] && IsCodePointValid(Sequence2(b0, b1))
  {
  }

  lemma Octets3(b0: bv8, b1: bv8, b2: bv8)
    requires Utf8Char3(b0, b1, b2)
    ensures var cp := Sequence3(b0, b1, b2);
            && 0x800 <= cp < 0x10000 && IsCodePointValid(cp)
            && Byte((cp >> 12) | 0xe0) == b0 && Byte(((cp >> 6) & 0x3f) | 0x80) == b1 && Byte((cp & 0x3f) | 0x80) == b2
  {
  }

  lemma Octets4(b0: bv8, b1: bv8, b2: bv8, b3: bv8)
    requires Utf8Char4(b0, b1, b2, b3)
    ensures var cp := Sequence4(b0, b1, b2, b3);
            && 0x10000 <= cp && IsCodePointValid(cp)
            && Byte((cp >> 18) | 0xf0) == b0 && Byte(((cp >> 12) & 0x3f) | 0x80) == b1
            && Byte(((cp >> 6) & 0x3f) | 0x80) == b2 && Byte((cp & 0x3f) | 0x80) == b3
  {
  }

  lemma Decode3(b0: bv8, b1: bv8, b2: bv8)
    requires Utf8Char3(b0, b1, b2)
    ensures EncodeChar(Sequence3(b0, b1, b2)) == [b0, b1, b2] && IsCodePointValid(Sequence3(b0, b1, b2))
  {
    hide Byte, Sequence3, IsCodePointValid, Utf8Char3;
    Octets3(b0, b1, b2);
  }

  lemma Decode4(b0: bv8, b1: bv8, b2: bv8, b3: bv8)
    requires Utf8Char4(b0, b1, b2, b3)
    ensures EncodeChar(Sequence4(b0, b1, b2, b3)) == [b0, b1, b2, b3] && IsCodePointValid(Sequence4(b0, b1, b2, b3))
  {
    hide Byte, Sequence4, IsCodePointValid, Utf8Char4;
    Octets4(b0, b1, b2, b3);
  }

  /** An accepted character is exactly what append writes for its code point. */
  lemma {:induction false} EncodeDecoded(s: seq<bv8>)
    requires s != [] && ValidateNext(s).Valid?
    ensures var v := ValidateNext(s);
            v.len <= |s| && IsCodePointValid(v.cp) && EncodeChar(v.cp) == s[..v.len]
  {
    AcceptsGrammar(s);
    var n := CharLen(s);
    if n == 1 {
      Decode1(s[0]);
    } else if n == 2 {
      Decode2(s[0], s[1]);
    } else if n == 3 {
      Decode3(s[0], s[1], s[2]);
    } else {
      Decode4(s[0], s[1], s[2], s[3]);
    }
    hide EncodeChar, IsCodePointValid, ValidateNext, Utf8Char1, Utf8Char2, Utf8Char3, Utf8Char4, Sequence2, Sequence3, Sequence4;
  }

  // ---------------------------------------------------------------- unchecked.h next

  /** The code point and the octets consumed; it reads past the end unless the lead's octets are there. */
  function UncheckedNext(s: seq<bv8>): (bv32, nat)
    requires s != [] && SequenceLength(s[0]) <= |s|
  {
    var len := SequenceLength(s[0]);
    if len == 0 then (s[0] as bv32, 1) else (Raw(s, len), len)
  }

  /** On an accepted character the unchecked decoder agrees with the checked one. */
  lemma UncheckedAgrees(s: seq<bv8>)
    requires CharLen(s) > 0
    ensures SequenceLength(s[0]) <= |s|
    ensures Valid(UncheckedNext(s).0, UncheckedNext(s).1) == ValidateNext(s)
  {
    hide CharLen, Raw, SequenceLength;
    AcceptsGrammar(s);
  }
}
