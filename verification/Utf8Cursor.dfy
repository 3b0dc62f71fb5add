/**
 * Moving over a string one character at a time: prior of checked.h, and next, prior, distance and
 * the transcoders of unchecked.h.
 */
module Utf8Cursor {
  import opened Results
  import opened Utf8Core
  import opened Utf16Core
  import opened Utf8

  /** The character ending at index `at` starts at index a. */
  ghost predicate EndsCharAt(s: seq<bv8>, a: nat, at: nat) {
    a < at <= |s| && CharLen(s[a..at]) == at - a
  }

  /** The last octet before `at` and from `start` on that is not a trail octet. */
  ghost predicate LastLead(s: seq<bv8>, start: nat, at: nat, p: nat) {
    start <= p < at <= |s| && !IsTrail(s[p]) && forall i | p < i < at :: IsTrail(s[i])
  }

  lemma CharIsLastLead(s: seq<bv8>, a: nat, at: nat, start: nat)
    requires EndsCharAt(s, a, at) && start <= a
    ensures LastLead(s, start, at, a)
    ensures Next(s[a..at]) == Success((Raw(s[a..at], at - a), at - a))
  {
    hide CharLen, Raw, IsTrail, ValidateNext;
    var c := s[a..at];
    CharShape(c);
    AcceptsGrammar(c);
    assert s[a] == c[0];
    assert forall i | a < i < at :: s[i] == c[i - a];
  }

  /** prior: the code point before index `at`, and the index it starts at; on an exception, where the iterator was left. */
  method Prior(s: seq<bv8>, at: nat, start: nat) returns (r: Result<bv32, Exn>, it: nat)
    requires start <= at <= |s|
    ensures at == start ==> r == Failure(NotEnoughRoomExn) && it == at
    ensures at > start && (forall i | start <= i < at :: IsTrail(s[i])) ==> r == Failure(InvalidUtf8Exn(s[start])) && it == start
    ensures forall p: nat | LastLead(s, start, at, p) ::
              it == p && (if Next(s[p..at]).Success? then r == Success(Next(s[p..at]).value.0) else r == Failure(Next(s[p..at]).error))
  {
    hide IsTrail, ValidateNext;
    it := at;
    if it == start {
      return Failure(NotEnoughRoomExn), it;
    }
    it := it - 1;
    while IsTrail(s[it])
      invariant start <= it < at && forall i | it < i < at :: IsTrail(s[i])
      decreases it
    {
      if it == start {
        return Failure(InvalidUtf8Exn(s[it])), it;
      }
      it := it - 1;
    }
    var v := Next(s[it..at]);
    r := if v.Success? then Success(v.value.0) else Failure(v.error);
  }

  /** prior undoes next at every character boundary: it returns the character's code point and start. */
  method PriorAtBoundary(s: seq<bv8>, at: nat, start: nat, ghost a: nat) returns (r: Result<bv32, Exn>, it: nat)
    requires start <= a && EndsCharAt(s, a, at)
    ensures r == Success(Raw(s[a..at], at - a)) && it == a
    ensures Next(s[a..]) == Success((Raw(s[a..at], at - a), at - a))
  {
    hide CharLen, Raw, IsTrail, ValidateNext;
    CharIsLastLead(s, a, at, start);
    NextReaches(s, a, at);
    r, it := Prior(s, at, start);
  }

  lemma NextReaches(s: seq<bv8>, a: nat, at: nat)
    requires EndsCharAt(s, a, at)
    ensures CharLen(s[a..]) == at - a && Next(s[a..]) == Success((Raw(s[a..at], at - a), at - a))
  {
    hide CharLen, Raw, ValidateNext;
    assert s[a..][..at - a] == s[a..at][..at - a];
    CharLenLocal(s[a..at], s[a..]);
    AcceptsGrammar(s[a..]);
  }

  /** Every index that next() reaches is such a boundary. */
  lemma NextEndsChar(s: seq<bv8>, a: nat)
    requires a < |s| && CharLen(s[a..]) > 0
    ensures EndsCharAt(s, a, a + CharLen(s[a..]))
  {
    hide CharLen, Raw;
    OneChar(s, a);
  }

  // ---------------------------------------------------------------- unchecked.h, whose callers supply valid text

  method UncheckedPrior(s: seq<bv8>, at: nat, ghost a: nat) returns (cp: bv32, it: nat)
    requires EndsCharAt(s, a, at)
    ensures it == a && cp == Raw(s[a..at], at - a)
  {
    hide CharLen, Raw, IsTrail, SequenceLength, UncheckedNext;
    CharIsLastLead(s, a, at, a);
    NextReaches(s, a, at);
    it := at - 1;
    while IsTrail(s[it])
      invariant a <= it < at && forall i | it < i < at :: IsTrail(s[i])
      decreases it
    {
      it := it - 1;
    }
    UncheckedAgrees(s[it..]);
    var v := UncheckedNext(s[it..]);
    cp := v.0;
  }

  /** Where the checked next succeeds, the unchecked next returns the same code point and position. */
  lemma UncheckedStep(s: seq<bv8>, i: nat)
    requires i < |s| && IsUtf8(s[i..])
    ensures SequenceLength(s[i]) <= |s| - i
    ensures Next(s[i..]) == Success(UncheckedNext(s[i..]))
    ensures var v := UncheckedNext(s[i..]);
            && 0 < v.1 <= |s| - i && IsUtf8(s[i + v.1..]) && Points(s[i..]) == [v.0] + Points(s[i + v.1..])
            && IsCodePointValid(v.0)
  {
    hide CharLen, Raw, ValidateNext, SequenceLength, IsCodePointValid, UncheckedNext;
    NextStep(s, i);
    UncheckedAgrees(s[i..]);
    NextIsValid(s[i..]);
  }

  method UncheckedDistance(s: seq<bv8>) returns (dist: nat)
    requires IsUtf8(s)
    ensures dist == |Points(s)|
  {
    hide CharLen, Raw, Next, SequenceLength, UncheckedNext, IsCodePointValid;
    var i := 0;
    dist := 0;
    while i < |s|
      invariant i <= |s| && IsUtf8(s[i..])
      invariant |Points(s)| == dist + |Points(s[i..])|
    {
      UncheckedStep(s, i);
      var v := UncheckedNext(s[i..]);
      i := i + v.1;
      dist := dist + 1;
    }
  }

  method UncheckedUtf8to32(s: seq<bv8>) returns (out: seq<bv32>)
    requires IsUtf8(s)
    ensures out == Points(s)
  {
    hide CharLen, Raw, Next, SequenceLength, UncheckedNext, IsCodePointValid;
    var i := 0;
    out := [];
    while i < |s|
      invariant i <= |s| && IsUtf8(s[i..])
      invariant Points(s) == out + Points(s[i..])
    {
      UncheckedStep(s, i);
      var v := UncheckedNext(s[i..]);
      out := out + [v.0];
      i := i + v.1;
    }
    assert out + [] == out;
  }

  method UncheckedUtf8to16(s: seq<bv8>) returns (out: seq<bv16>)
    requires IsUtf8(s)
    ensures out == Encode16All(Points(s))
  {
    hide CharLen, Raw, Next, SequenceLength, UncheckedNext, IsCodePointValid, Encode16;
    var i := 0;
    out := [];
    while i < |s|
      invariant i <= |s| && IsUtf8(s[i..])
      invariant Encode16All(Points(s)) == out + Encode16All(Points(s[i..]))
    {
      UncheckedStep(s, i);
      var v := UncheckedNext(s[i..]);
      out := PutUtf16(v.0, out);
      i := i + v.1;
    }
    assert out + [] == out;
  }
}
