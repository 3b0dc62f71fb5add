/** replace_invalid of dep/utf8cpp/utf8/checked.h. */
module Utf8Repair {
  import opened Results
  import opened Utf8Core
  import opened Utf8

  function Prepend(head: seq<bv8>, r: Result<seq<bv8>, Exn>): Result<seq<bv8>, Exn> {
    match r
    case Success(v) => Success(head + v)
    case Failure(e) => Failure(e)
  }

  function TrailRun(s: seq<bv8>): (n: nat)
    ensures n <= |s| && forall i | 0 <= i < n :: IsTrail(s[i])
    ensures n < |s| ==> !IsTrail(s[n])
  {
    if s == [] || !IsTrail(s[0]) then 0 else 1 + TrailRun(s[1..])
  }

  /** How many octets one replacement stands for. */
  function BadLength(s: seq<bv8>): (n: nat)
    requires s != []
    ensures 1 <= n <= |s| && forall i | 1 <= i < n :: IsTrail(s[i])
  {
    if ValidateNext(s) == Invalid(InvalidLead) then 1 else 1 + TrailRun(s[1..])
  }

  ghost function Repair(s: seq<bv8>, replacement: bv32): Result<seq<bv8>, Exn>
    decreases |s|
  {
    if s == [] then Success([])
    else if CharLen(s) > 0 then Prepend(s[..CharLen(s)], Repair(s[CharLen(s)..], replacement))
    else if ValidateNext(s) == Invalid(NotEnoughRoom) then Failure(NotEnoughRoomExn)
    else if !IsCodePointValid(replacement) then Failure(InvalidCodePointExn(replacement))
    else Prepend(EncodeChar(replacement), Repair(s[BadLength(s)..], replacement))
  }

  method CopyOctets(s: seq<bv8>, from: nat, upTo: nat, out: seq<bv8>) returns (r: seq<bv8>)
    requires from <= upTo <= |s|
    ensures r == out + s[from..upTo]
  {
    r := out;
    var it := from;
    assert s[from..from] == [] && out + [] == out;
    while it != upTo
      invariant from <= it <= upTo && r == out + s[from..it]
      decreases upTo - it
    {
      r := r + [s[it]];
      it := it + 1;
    }
  }

  method SkipTrails(s: seq<bv8>, from: nat) returns (start: nat)
    requires from <= |s|
    ensures start == from + TrailRun(s[from..])
  {
    hide IsTrail;
    start := from;
    TrailRunFrom(s, start);
    while start < |s| && IsTrail(s[start])
      invariant from <= start <= |s|
      invariant start + TrailRun(s[start..]) == from + TrailRun(s[from..])
    {
      TrailRunFrom(s, start);
      start := start + 1;
    }
    TrailRunFrom(s, start);
  }

  lemma RepairUnfolds(t: seq<bv8>, replacement: bv32)
    requires t != []
    ensures var v, a, whole := ValidateNext(t), Append(replacement), Repair(t, replacement);
            if v.Valid? then 0 < v.len <= |t| && whole == Prepend(t[..v.len], Repair(t[v.len..], replacement))
            else if v.err.NotEnoughRoom? then whole == Failure(NotEnoughRoomExn)
            else if a.Failure? then whole == Failure(a.error)
            else whole == Prepend(a.value, Repair(t[BadLength(t)..], replacement))
  {
    hide CharLen, ValidateNext, EncodeChar, IsCodePointValid, BadLength, Prepend;
    AcceptsGrammar(t);
  }

  /** One turn of the loop of replace_invalid at index i, with `out` written so far. */
  lemma RepairStep(s: seq<bv8>, i: nat, replacement: bv32, out: seq<bv8>)
    requires i < |s|
    ensures var t, whole := s[i..], Prepend(out, Repair(s[i..], replacement));
            match ValidateNext(t)
            case Valid(_, n) =>
              0 < n <= |s| - i && whole == Prepend(out + s[i..i + n], Repair(s[i + n..], replacement))
            case Invalid(NotEnoughRoom) => whole == Failure(NotEnoughRoomExn)
            case Invalid(_) =>
              match Append(replacement)
              case Failure(e) => whole == Failure(e)
              case Success(mark) => whole == Prepend(out + mark, Repair(s[i + BadLength(t)..], replacement))
  {
    hide CharLen, ValidateNext, EncodeChar, IsCodePointValid, BadLength, Repair;
    var t := s[i..];
    RepairUnfolds(t, replacement);
    var v := ValidateNext(t);
    var n := if v.Valid? then v.len else BadLength(t);
    assert t[n..] == s[i + n..] && t[..n] == s[i..i + n];
    Prepended(out, t[..n], Repair(t[n..], replacement));
    Prepended(out, EncodeChar(replacement), Repair(t[n..], replacement));
  }

  method ReplaceInvalid(s: seq<bv8>, replacement: bv32) returns (r: Result<seq<bv8>, Exn>)
    ensures r == Repair(s, replacement)
  {
    hide ValidateNext, Append, IsTrail, TrailRun, Repair;
    var start, out := 0, [];
    PrependNothing(Repair(s, replacement));
    assert s[start..] == s;
    while start < |s|
      invariant start <= |s|
      invariant Repair(s, replacement) == Prepend(out, Repair(s[start..], replacement))
    {
      var sequenceStart := start;
      RepairStep(s, start, replacement, out);
      match ValidateNext(s[start..]) {
        case Valid(_, n) =>
          start := start + n;
          out := CopyOctets(s, sequenceStart, start, out);
        case Invalid(err) =>
          if err == NotEnoughRoom {
            return Failure(NotEnoughRoomExn);
          }
          var mark := Append(replacement);
          if mark.Failure? {
            return Failure(mark.error);
          }
          out := out + mark.value;
          start := start + 1;
          assert s[sequenceStart..][1..] == s[start..];
          if err != InvalidLead {
            start := SkipTrails(s, start);
          }
      }
    }
    RepairNothing(replacement);
    assert s[start..] == [] && out + [] == out;
    return Success(out);
  }

  lemma RepairNothing(replacement: bv32)
    ensures Repair([], replacement) == Success([])
  {
  }

  lemma TrailRunFrom(s: seq<bv8>, i: nat)
    requires i <= |s|
    ensures TrailRun(s[i..]) == if i < |s| && IsTrail(s[i]) then 1 + TrailRun(s[i + 1..]) else 0
  {
    hide IsTrail;
    if i < |s| {
      assert s[i..][1..] == s[i + 1..];
    }
  }

  lemma PrependNothing(r: Result<seq<bv8>, Exn>)
    ensures Prepend([], r) == r
  {
    if r.Success? {
      assert [] + r.value == r.value;
    }
  }

  lemma Prepended(a: seq<bv8>, b: seq<bv8>, r: Result<seq<bv8>, Exn>)
    ensures Prepend(a, Prepend(b, r)) == Prepend(a + b, r)
  {
    if r.Success? {
      assert a + (b + r.value) == (a + b) + r.value;
    }
  }

  /** Whatever the input, a result that is returned is valid UTF-8. */
  lemma {:induction false} RepairedIsValid(s: seq<bv8>, replacement: bv32)
    requires Repair(s, replacement).Success?
    ensures IsUtf8(Repair(s, replacement).value)
    decreases |s|
  {
    hide CharLen, ValidateNext, EncodeChar, IsCodePointValid, BadLength, Raw;
    if s != [] {
      if CharLen(s) > 0 {
        var n := CharLen(s);
        RepairedIsValid(s[n..], replacement);
        assert s[0..] == s && s[0..n] == s[..n];
        OneChar(s, 0);
        SplitUtf8(s[..n], Repair(s[n..], replacement).value);
      } else {
        RepairedIsValid(s[BadLength(s)..], replacement);
        EncodedIsUtf8(replacement);
        SplitUtf8(EncodeChar(replacement), Repair(s[BadLength(s)..], replacement).value);
      }
    }
  }

  lemma EncodedIsUtf8(cp: bv32)
    requires IsCodePointValid(cp)
    ensures IsUtf8(EncodeChar(cp))
  {
    hide IsCodePointValid, EncodeChar, CharLen, Raw;
    EncodedParts(cp);
    var r := EncodeChar(cp);
    assert r[|r|..] == [];
  }

  /** Valid text passes through unchanged, so repairing twice is repairing once. */
  lemma {:induction false} RepairKeepsValid(s: seq<bv8>, replacement: bv32)
    requires IsUtf8(s)
    ensures Repair(s, replacement) == Success(s)
    decreases |s|
  {
    hide CharLen, ValidateNext, EncodeChar, IsCodePointValid;
    if s != [] {
      var n := CharLen(s);
      RepairKeepsValid(s[n..], replacement);
      assert s == s[..n] + s[n..];
    }
  }

  lemma {:induction false} RepairIsIdempotent(s: seq<bv8>, replacement: bv32, again: bv32)
    requires Repair(s, replacement).Success?
    ensures Repair(Repair(s, replacement).value, again) == Repair(s, replacement)
  {
    RepairedIsValid(s, replacement);
    RepairKeepsValid(Repair(s, replacement).value, again);
  }

  // ---------------------------------------------------------------- one mark per broken sequence

  lemma TrailRunIs(s: seq<bv8>, n: nat)
    requires n <= |s| && (forall i | 0 <= i < n :: Tail(s[i])) && (n == |s| || !Tail(s[n]))
    ensures TrailRun(s) == n
  {
    hide IsTrail, Tail;
    AllTrails(s);
    var m := TrailRun(s);
    assert m < |s| ==> !IsTrail(s[m]);
    assert n < |s| ==> !IsTrail(s[n]);
  }

  /**
   * Text that does not start with a character, and is not cut off, gets one mark: for a single octet
   * if that starts nothing, else for the lead octet and all n - 1 trail octets behind it.
   */
  lemma OneMarkPerSequence(s: seq<bv8>, replacement: bv32, n: nat)
    requires s != [] && CharLen(s) == 0 && !CutOff(s) && IsCodePointValid(replacement)
    requires 1 <= n <= |s|
    requires if Announced(s[0]) == 0 then n == 1
             else (forall i | 1 <= i < n :: Tail(s[i])) && (n == |s| || !Tail(s[n]))
    ensures Repair(s, replacement) == Prepend(EncodeChar(replacement), Repair(s[n..], replacement))
  {
    hide CharLen, ValidateNext, EncodeChar, IsCodePointValid, Announced, CutOff, NoCodePoint, Broken, TrailRun, Tail;
    ErrorByShape(s);
    if Announced(s[0]) > 0 {
      assert forall i | 0 <= i < |s| - 1 :: s[1..][i] == s[i + 1];
      TrailRunIs(s[1..], n - 1);
    }
  }

  // ---------------------------------------------------------------- when it throws

  /** At p a lead octet announces more octets than are left, and only trail octets follow it. */
  ghost predicate CutOffAt(s: seq<bv8>, p: nat) {
    p < |s| && SequenceLength(s[p]) > |s| - p && forall i | p < i < |s| :: IsTrail(s[i])
  }

  ghost predicate TruncatedTail(s: seq<bv8>) {
    exists p: nat :: CutOffAt(s, p)
  }

  lemma CutOffHere(s: seq<bv8>)
    requires s != []
    ensures CutOffAt(s, 0) <==> ValidateNext(s) == Invalid(NotEnoughRoom)
  {
    var len := SequenceLength(s[0]);
    if len > 0 {
      TrailsPresent(s, 1, len);
    }
    hide IsTrail, SequenceLength, TrailError, Raw, IsCodePointValid, IsOverlong;
  }

  /** Skipping a first octet and the trail octets after it does not change whether the tail is cut off. */
  lemma SkipKeepsTail(s: seq<bv8>, n: nat)
    requires 1 <= n <= |s| && (forall i | 1 <= i < n :: IsTrail(s[i])) && !CutOffAt(s, 0)
    ensures TruncatedTail(s) <==> TruncatedTail(s[n..])
  {
    hide IsTrail, SequenceLength;
    var t := s[n..];
    if p: nat :| CutOffAt(s, p) {
      LeadIsNotTrail(s[p]);
      assert CutOffAt(t, p - n) by {
        assert forall i | p - n < i < |t| :: t[i] == s[i + n];
      }
    }
    if q: nat :| CutOffAt(t, q) {
      assert CutOffAt(s, q + n) by {
        assert forall i | q + n < i < |s| :: s[i] == t[i - n];
      }
    }
  }

  /** With a valid replacement, replace_invalid throws exactly on a string that is cut off in its last sequence. */
  lemma {:induction false} RepairThrowsIff(s: seq<bv8>, replacement: bv32)
    requires IsCodePointValid(replacement)
    ensures Repair(s, replacement).Failure? <==> TruncatedTail(s)
    ensures Repair(s, replacement).Failure? ==> Repair(s, replacement).error == NotEnoughRoomExn
    decreases |s|
  {
    hide CharLen, ValidateNext, EncodeChar, IsCodePointValid, IsTrail, SequenceLength, BadLength, CutOffAt;
    if s != [] {
      CutOffHere(s);
      AcceptsGrammar(s);
      if CharLen(s) > 0 {
        var n := CharLen(s);
        CharShape(s);
        SkipKeepsTail(s, n);
        RepairThrowsIff(s[n..], replacement);
      } else if ValidateNext(s) != Invalid(NotEnoughRoom) {
        SkipKeepsTail(s, BadLength(s));
        RepairThrowsIff(s[BadLength(s)..], replacement);
      }
    } else {
      NothingCutOff();
    }
  }

  lemma NothingCutOff()
    ensures !TruncatedTail([])
  {
  }
}
