/**
 * Single UTF-16 characters: the bit fields of RFC 2781 and the offset arithmetic modulo 2^32 by
 * which dep/utf8cpp computes them.
 */
module Utf16Core {
  import opened Utf8Core

  predicate IsLeadSurrogate(u: bv32) {
    0xd800 <= u <= 0xdbff
  }

  predicate IsTrailSurrogate(u: bv32) {
    0xdc00 <= u <= 0xdfff
  }

  function Wide(w: bv16): bv32 {
    w as bv32
  }

  function Word(x: bv32): bv16 {
    (x & 0xffff) as bv16
  }

  // ---------------------------------------------------------------- sections 2.1 and 2.2 of RFC 2781

  function FromPair(w1: bv16, w2: bv16): bv32 {
    (((Wide(w1) & 0x3ff) << 10) | (Wide(w2) & 0x3ff)) + 0x10000
  }

  function High(cp: bv32): bv16 {
    Word(0xd800 | ((cp - 0x10000) >> 10))
  }

  function Low(cp: bv32): bv16 {
    Word(0xdc00 | ((cp - 0x10000) & 0x3ff))
  }

  function Encode16(cp: bv32): seq<bv16> {
    if cp <= 0xffff then [Word(cp)] else [High(cp), Low(cp)]
  }

  // ---------------------------------------------------------------- core.h and checked.h

  const LEAD_OFFSET: bv32 := 0xd800 - (0x10000 >> 10)
  const SURROGATE_OFFSET: bv32 := 0x10000 - (0xd800 << 10) - 0xdc00

  function Combine(lead: bv32, trail: bv32): bv32 {
    (lead << 10) + trail + SURROGATE_OFFSET
  }

  function LeadOf(cp: bv32): bv16 {
    Word((cp >> 10) + LEAD_OFFSET)
  }

  function TrailOf(cp: bv32): bv16 {
    Word((cp & 0x3ff) + 0xdc00)
  }

  // ---------------------------------------------------------------- they agree and are inverse

  lemma PairIsValid(w1: bv16, w2: bv16)
    requires IsLeadSurrogate(Wide(w1)) && IsTrailSurrogate(Wide(w2))
    ensures Combine(Wide(w1), Wide(w2)) == FromPair(w1, w2)
    ensures IsCodePointValid(FromPair(w1, w2)) && !(FromPair(w1, w2) <= 0xffff)
  {
  }

  lemma PairWords(w1: bv16, w2: bv16)
    requires IsLeadSurrogate(Wide(w1)) && IsTrailSurrogate(Wide(w2))
    ensures High(FromPair(w1, w2)) == w1 && Low(FromPair(w1, w2)) == w2
  {
  }

  /** The number a pair stands for: 0x400 for each lead surrogate from 0xd800 on, and one for each trail surrogate from 0xdc00 on. */
  lemma PairByTable(w1: bv16, w2: bv16)
    requires 0xd800 <= w1 <= 0xdbff && 0xdc00 <= w2 <= 0xdfff
    ensures FromPair(w1, w2) == 0x10000 + 0x400 * (Wide(w1) - 0xd800) + (Wide(w2) - 0xdc00)
  {
  }

  lemma SingleWord(w: bv16)
    requires !IsLeadSurrogate(Wide(w)) && !IsTrailSurrogate(Wide(w))
    ensures IsCodePointValid(Wide(w)) && Wide(w) <= 0xffff && Word(Wide(w)) == w
  {
  }

  lemma EncodedPair(cp: bv32)
    requires IsCodePointValid(cp) && !(cp <= 0xffff)
    ensures IsLeadSurrogate(Wide(High(cp))) && IsTrailSurrogate(Wide(Low(cp)))
  {
  }

  lemma PairDecodes(cp: bv32)
    requires IsCodePointValid(cp) && !(cp <= 0xffff)
    ensures FromPair(High(cp), Low(cp)) == cp
  {
  }

  lemma SourceWords(cp: bv32)
    requires IsCodePointValid(cp) && !(cp <= 0xffff)
    ensures LeadOf(cp) == High(cp) && TrailOf(cp) == Low(cp)
  {
  }

  lemma EncodedSingle(cp: bv32)
    requires IsCodePointValid(cp) && cp <= 0xffff
    ensures Wide(Word(cp)) == cp && !IsLeadSurrogate(cp) && !IsTrailSurrogate(cp)
  {
  }

  lemma NotBoth(u: bv32)
    ensures !(IsLeadSurrogate(u) && IsTrailSurrogate(u))
  {
  }
}
