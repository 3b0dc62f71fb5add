/**
 * Whole strings in dep/utf8cpp: validation, the transcoders of checked.h and unchecked.h, and the
 * repair of invalid text. The loops advance an index where the source advances an iterator.
 */
module Utf8 {
  import opened Results
  import opened Utf8Core
  import opened Utf16Core

  datatype Exn =
    | NotEnoughRoomExn
    | InvalidUtf8Exn(octet: bv8)
    | InvalidCodePointExn(cp: bv32)
    | InvalidUtf16Exn(word: bv16)

  // ---------------------------------------------------------------- valid UTF-8 and what it means

  /** UTF8-octets = *( UTF8-char ), section 4 of RFC 3629. */
  ghost predicate IsUtf8(s: seq<bv8>)
    decreases |s|
  {
    s == [] || (CharLen(s) > 0 && IsUtf8(s[CharLen(s)..]))
  }

  /** The code points of a valid string. */
  ghost function Points(s: seq<bv8>): seq<bv32>
    requires IsUtf8(s)
    decreases |s|
  {
    if s == [] then [] else [Raw(s, CharLen(s))] + Points(s[CharLen(s)..])
  }

  ghost predicate AllValid(cps: seq<bv32>) {
    forall i | 0 <= i < |cps| :: IsCodePointValid(cps[i])
  }

  ghost function EncodeAll(cps: seq<bv32>): seq<bv8> {
    if cps == [] then [] else EncodeChar(cps[0]) + EncodeAll(cps[1..])
  }

  lemma {:induction false} SplitUtf8(a: seq<bv8>, b: seq<bv8>)
    requires IsUtf8(a)
    ensures IsUtf8(a + b) <==> IsUtf8(b)
    ensures IsUtf8(b) ==> Points(a + b) == Points(a) + Points(b)
    decreases |a|
  {
    hide CharLen, Raw;
    if a == [] {
      assert a + b == b;
    } else {
      var n := CharLen(a);
      assert (a + b)[..n] == a[..n];
      CharLenLocal(a, a + b);
      assert (a + b)[n..] == a[n..] + b;
      SplitUtf8(a[n..], b);
    }
  }

  lemma {:induction false} EncodeAllSplit(a: seq<bv32>, b: seq<bv32>)
    ensures EncodeAll(a + b) == EncodeAll(a) + EncodeAll(b)
  {
    hide EncodeChar;
    if a == [] {
      assert a + b == b;
    } else {
      assert (a + b)[1..] == a[1..] + b;
      EncodeAllSplit(a[1..], b);
    }
  }

  /** Decoding what was encoded gives back every sequence of valid code points. */
  lemma {:induction false} DecodeEncodedAll(cps: seq<bv32>)
    requires AllValid(cps)
    ensures IsUtf8(EncodeAll(cps)) && Points(EncodeAll(cps)) == cps
  {
    hide EncodeChar, CharLen, Raw, ValidateNext, IsCodePointValid;
    if cps != [] {
      var head, rest := EncodeChar(cps[0]), EncodeAll(cps[1..]);
      DecodeEncodedAll(cps[1..]);
      DecodeEncoded(cps[0], rest);
      AcceptsGrammar(head + rest);
      assert (head + rest)[|head|..] == rest;
    }
  }

  lemma OneMore(cp: bv32, rest: seq<bv32>)
    requires IsCodePointValid(cp) && AllValid(rest)
    ensures AllValid([cp] + rest) && EncodeAll([cp] + rest) == EncodeChar(cp) + EncodeAll(rest)
  {
    hide EncodeChar, IsCodePointValid;
    assert ([cp] + rest)[1..] == rest;
  }

  /** Encoding what was decoded gives back every valid string. */
  lemma {:induction false} EncodeDecodedAll(s: seq<bv8>)
    requires IsUtf8(s)
    ensures AllValid(Points(s)) && EncodeAll(Points(s)) == s
    decreases |s|
  {
    hide EncodeChar, CharLen, Raw, ValidateNext, IsCodePointValid, AllValid, EncodeAll;
    NothingEncoded();
    if s != [] {
      var n := CharLen(s);
      FirstChar(s);
      EncodeDecodedAll(s[n..]);
      OneMore(Raw(s, n), Points(s[n..]));
      assert s == s[..n] + s[n..];
    }
  }

  lemma NothingEncoded()
    ensures AllValid([]) && EncodeAll([]) == []
  {
  }

  lemma FirstChar(s: seq<bv8>)
    requires CharLen(s) > 0
    ensures CharLen(s) <= |s| && IsCodePointValid(Raw(s, CharLen(s))) && EncodeChar(Raw(s, CharLen(s))) == s[..CharLen(s)]
  {
    hide EncodeChar, CharLen, Raw, ValidateNext, IsCodePointValid;
    AcceptsGrammar(s);
    EncodeDecoded(s);
  }

  /** The grammar describes exactly the encodings of valid code points. */
  lemma ValidMeansEncoded(s: seq<bv8>)
    ensures IsUtf8(s) <==> exists cps :: AllValid(cps) && EncodeAll(cps) == s
  {
    if IsUtf8(s) {
      EncodeDecodedAll(s);
    }
    if cps :| AllValid(cps) && EncodeAll(cps) == s {
      DecodeEncodedAll(cps);
    }
  }

  // ---------------------------------------------------------------- checked.h next and the loops over it

  function Next(s: seq<bv8>): Result<(bv32, nat), Exn>
    requires s != []
  {
    match ValidateNext(s)
    case Valid(cp, len) => Success((cp, len))
    case Invalid(NotEnoughRoom) => Failure(NotEnoughRoomExn)
    case Invalid(InvalidCodePoint) => Failure(InvalidCodePointExn(0))
    case Invalid(_) => Failure(InvalidUtf8Exn(s[0]))
  }

  /** What next() throws, by the octets alone. */
  lemma NextThrows(s: seq<bv8>)
    requires s != [] && CharLen(s) == 0
    ensures Next(s) == Failure(
              if CutOff(s) then NotEnoughRoomExn else if NoCodePoint(s) then InvalidCodePointExn(0) else InvalidUtf8Exn(s[0]))
  {
    hide ValidateNext, CharLen, CutOff, NoCodePoint, Broken;
    ErrorByShape(s);
  }

  /** What next() throws at the first place where the string is not valid. */
  ghost function Fault(s: seq<bv8>): Exn
    requires !IsUtf8(s)
    decreases |s|
  {
    if CharLen(s) == 0 then FaultHere(s) else Fault(s[CharLen(s)..])
  }

  ghost function FaultHere(s: seq<bv8>): Exn
    requires s != [] && CharLen(s) == 0
  {
    AcceptsGrammar(s);
    Next(s).error
  }

  /** The exception of the loops over next(): at the end of the longest valid prefix, by the octets that stand there. */
  lemma {:induction false} FaultByShape(s: seq<bv8>) returns (p: nat)
    requires !IsUtf8(s)
    ensures p < |s| && IsUtf8(s[..p]) && CharLen(s[p..]) == 0
    ensures Fault(s) == if CutOff(s[p..]) then NotEnoughRoomExn
                        else if NoCodePoint(s[p..]) then InvalidCodePointExn(0) else InvalidUtf8Exn(s[p])
    decreases |s|
  {
    hide CharLen, Raw, Next, CutOff, NoCodePoint;
    if CharLen(s) == 0 {
      p := 0;
      NextThrows(s);
      assert s[0..] == s && s[..0] == [];
    } else {
      var n := CharLen(s);
      var q := FaultByShape(s[n..]);
      p := n + q;
      assert s[p..] == s[n..][q..] && s[..p] == s[..n] + s[n..][..q];
      assert s[0..] == s && s[0..n] == s[..n];
      OneChar(s, 0);
      SplitUtf8(s[..n], s[n..][..q]);
    }
  }

  /** One turn of a loop over next() at index i. */
  lemma NextStep(s: seq<bv8>, i: nat)
    requires i < |s|
    ensures Next(s[i..]).Success? <==> CharLen(s[i..]) > 0
    ensures match Next(s[i..])
            case Success((cp, n)) =>
              && n == CharLen(s[i..]) && 0 < n <= |s| - i && cp == Raw(s[i..], n)
              && (IsUtf8(s[i..]) <==> IsUtf8(s[i + n..]))
              && (IsUtf8(s[i..]) ==> Points(s[i..]) == [cp] + Points(s[i + n..]))
              && (!IsUtf8(s[i..]) ==> Fault(s[i..]) == Fault(s[i + n..]))
            case Failure(e) => !IsUtf8(s[i..]) && Fault(s[i..]) == e
  {
    hide CharLen, Raw, ValidateNext;
    var t := s[i..];
    AcceptsGrammar(t);
    var n := CharLen(t);
    assert t[n..] == s[i + n..];
  }

  method FindInvalid(s: seq<bv8>) returns (p: nat)
    ensures p <= |s| && IsUtf8(s[..p])
    ensures p < |s| ==> CharLen(s[p..]) == 0
    ensures p == |s| <==> IsUtf8(s)
  {
    hide CharLen, Raw, Next;
    p := 0;
    while p < |s|
      invariant p <= |s| && IsUtf8(s[..p])
      invariant IsUtf8(s) <==> IsUtf8(s[p..])
    {
      NextStep(s, p);
      var v := Next(s[p..]);
      if v.Failure? {
        return;
      }
      ghost var q := p + v.value.1;
      assert s[..q] == s[..p] + s[p..q];
      OneChar(s, p);
      SplitUtf8(s[..p], s[p..q]);
      p := p + v.value.1;
    }
    assert s[..p] == s;
  }

  lemma OneChar(s: seq<bv8>, i: nat)
    requires i < |s| && CharLen(s[i..]) > 0
    ensures IsUtf8(s[i..i + CharLen(s[i..])])
    ensures Points(s[i..i + CharLen(s[i..])]) == [Raw(s[i..], CharLen(s[i..]))]
    ensures CharLen(s[i..i + CharLen(s[i..])]) == CharLen(s[i..])
  {
    hide CharLen, Raw;
    var n := CharLen(s[i..]);
    var c := s[i..i + n];
    assert s[i..][..n] == c[..n];
    CharLenLocal(s[i..], c);
    assert c[n..] == [];
  }

  method Utf8to32(s: seq<bv8>) returns (r: Result<seq<bv32>, Exn>)
    ensures r == if IsUtf8(s) then Success(Points(s)) else Failure(Fault(s))
  {
    hide CharLen, Raw, Next;
    var i, out := 0, [];
    while i < |s|
      invariant i <= |s|
      invariant IsUtf8(s) <==> IsUtf8(s[i..])
      invariant IsUtf8(s) ==> Points(s) == out + Points(s[i..])
      invariant !IsUtf8(s) ==> Fault(s) == Fault(s[i..])
    {
      NextStep(s, i);
      var v := Next(s[i..]);
      if v.Failure? {
        return Failure(v.error);
      }
      out := out + [v.value.0];
      i := i + v.value.1;
    }
    assert out + [] == out;
    return Success(out);
  }

  method Distance(s: seq<bv8>) returns (r: Result<nat, Exn>)
    ensures r == if IsUtf8(s) then Success(|Points(s)|) else Failure(Fault(s))
  {
    hide CharLen, Raw, Next;
    var i, dist := 0, 0;
    while i < |s|
      invariant i <= |s|
      invariant IsUtf8(s) <==> IsUtf8(s[i..])
      invariant IsUtf8(s) ==> |Points(s)| == dist + |Points(s[i..])|
      invariant !IsUtf8(s) ==> Fault(s) == Fault(s[i..])
    {
      NextStep(s, i);
      var v := Next(s[i..]);
      if v.Failure? {
        return Failure(v.error);
      }
      i := i + v.value.1;
      dist := dist + 1;
    }
    return Success(dist);
  }

  function Append(cp: bv32): Result<seq<bv8>, Exn> {
    if IsCodePointValid(cp) then Success(EncodeChar(cp)) else Failure(InvalidCodePointExn(cp))
  }

  method Utf32to8(cps: seq<bv32>) returns (r: Result<seq<bv8>, Exn>)
    ensures AllValid(cps) ==> r == Success(EncodeAll(cps))
    ensures !AllValid(cps) ==> exists i | 0 <= i < |cps| ::
              AllValid(cps[..i]) && !IsCodePointValid(cps[i]) && r == Failure(InvalidCodePointExn(cps[i]))
  {
    hide EncodeChar, IsCodePointValid;
    var i, out := 0, [];
    while i < |cps|
      invariant i <= |cps|
      invariant AllValid(cps[..i]) && out == EncodeAll(cps[..i])
    {
      var a := Append(cps[i]);
      if a.Failure? {
        return Failure(a.error);
      }
      assert cps[..i + 1] == cps[..i] + [cps[i]];
      EncodeAllSplit(cps[..i], [cps[i]]);
      assert EncodeAll([cps[i]]) == a.value + EncodeAll([]);
      out := out + a.value;
      i := i + 1;
    }
    assert cps[..i] == cps;
    return Success(out);
  }

  // ---------------------------------------------------------------- UTF-16

  ghost predicate StartsPair(u: seq<bv16>) {
    |u| >= 2 && IsLeadSurrogate(Wide(u[0])) && IsTrailSurrogate(Wide(u[1]))
  }

  ghost predicate StartsSingle(u: seq<bv16>) {
    |u| >= 1 && !IsLeadSurrogate(Wide(u[0])) && !IsTrailSurrogate(Wide(u[0]))
  }

  /** Every surrogate is part of a pair. */
  ghost predicate IsUtf16(u: seq<bv16>) {
    u == [] || (StartsSingle(u) && IsUtf16(u[1..])) || (StartsPair(u) && IsUtf16(u[2..]))
  }

  ghost function Points16(u: seq<bv16>): seq<bv32>
    requires IsUtf16(u)
  {
    if u == [] then []
    else if StartsSingle(u) then [Wide(u[0])] + Points16(u[1..])
    else [FromPair(u[0], u[1])] + Points16(u[2..])
  }

  ghost function Encode16All(cps: seq<bv32>): seq<bv16> {
    if cps == [] then [] else Encode16(cps[0]) + Encode16All(cps[1..])
  }

  /** The word named by the exception: a lone trail surrogate, the word after a lead surrogate, or a final lead. */
  ghost function Fault16(u: seq<bv16>): Exn
    requires !IsUtf16(u)
  {
    if StartsSingle(u) then Fault16(u[1..])
    else if StartsPair(u) then Fault16(u[2..])
    else InvalidUtf16Exn(if IsLeadSurrogate(Wide(u[0])) && |u| >= 2 then u[1] else u[0])
  }

  /** The word named by the exception, by where the first unpaired surrogate stands. */
  lemma {:induction false} Fault16ByShape(u: seq<bv16>) returns (p: nat)
    requires !IsUtf16(u)
    ensures p < |u| && IsUtf16(u[..p]) && 0xd800 <= u[p] <= 0xdfff
    ensures u[p] <= 0xdbff && p + 1 < |u| ==> !(0xdc00 <= u[p + 1] <= 0xdfff)
    ensures Fault16(u) == InvalidUtf16Exn(if u[p] <= 0xdbff && p + 1 < |u| then u[p + 1] else u[p])
  {
    if StartsSingle(u) {
      var q := Fault16ByShape(u[1..]);
      p := q + 1;
      assert u[..p][1..] == u[1..][..q];
      OneWordMore(u, p);
    } else if StartsPair(u) {
      var q := Fault16ByShape(u[2..]);
      p := q + 2;
      assert u[..p][2..] == u[2..][..q];
      OneWordMore(u, p);
    } else {
      p := 0;
      WordRanges(u[0]);
      if |u| >= 2 {
        WordRanges(u[1]);
      }
    }
  }

  lemma WordRanges(w: bv16)
    ensures IsLeadSurrogate(Wide(w)) <==> 0xd800 <= w <= 0xdbff
    ensures IsTrailSurrogate(Wide(w)) <==> 0xdc00 <= w <= 0xdfff
  {
  }

  lemma OneWordMore(u: seq<bv16>, p: nat)
    requires p <= |u|
    requires (1 <= p && StartsSingle(u) && IsUtf16(u[..p][1..])) || (2 <= p && StartsPair(u) && IsUtf16(u[..p][2..]))
    ensures IsUtf16(u[..p])
  {
    hide IsLeadSurrogate, IsTrailSurrogate, Wide;
  }

  lemma {:induction false} DecodeEncoded16(cps: seq<bv32>)
    requires AllValid(cps)
    ensures IsUtf16(Encode16All(cps)) && Points16(Encode16All(cps)) == cps
  {
    hide IsCodePointValid, IsLeadSurrogate, IsTrailSurrogate, FromPair, Word, High, Low;
    if cps != [] {
      var cp, u := cps[0], Encode16All(cps);
      DecodeEncoded16(cps[1..]);
      if cp <= 0xffff {
        EncodedSingle(cp);
        assert u[1..] == Encode16All(cps[1..]);
      } else {
        EncodedPair(cp);
        PairDecodes(cp);
        NotBoth(Wide(High(cp)));
        assert u[2..] == Encode16All(cps[1..]);
      }
    }
  }

  lemma SingleFacts(u: seq<bv16>)
    requires StartsSingle(u)
    ensures !StartsPair(u) && IsCodePointValid(Wide(u[0])) && Encode16(Wide(u[0])) == [u[0]]
  {
    hide IsCodePointValid, IsLeadSurrogate, IsTrailSurrogate, Wide, Word, High, Low;
    SingleWord(u[0]);
  }

  lemma PairFacts(u: seq<bv16>)
    requires StartsPair(u)
    ensures |u| >= 2 && !StartsSingle(u) && IsCodePointValid(FromPair(u[0], u[1])) && Encode16(FromPair(u[0], u[1])) == [u[0], u[1]]
    ensures FromPair(u[0], u[1]) == Combine(Wide(u[0]), Wide(u[1]))
  {
    hide IsCodePointValid, IsLeadSurrogate, IsTrailSurrogate, Wide, Word, High, Low, FromPair, Combine;
    PairIsValid(u[0], u[1]);
    PairWords(u[0], u[1]);
  }

  lemma {:induction false} EncodeDecoded16(u: seq<bv16>)
    requires IsUtf16(u)
    ensures AllValid(Points16(u)) && Encode16All(Points16(u)) == u
  {
    hide IsCodePointValid, StartsSingle, StartsPair, FromPair, Encode16, Wide;
    if u != [] {
      var cps := Points16(u);
      if StartsSingle(u) {
        SingleFacts(u);
        EncodeDecoded16(u[1..]);
        assert cps[1..] == Points16(u[1..]);
      } else {
        PairFacts(u);
        EncodeDecoded16(u[2..]);
        assert cps[1..] == Points16(u[2..]);
        assert u == [u[0], u[1]] + u[2..];
      }
    }
  }

  /** The body of utf8to16's loop: a surrogate pair, or the code point itself. */
  method PutUtf16(cp: bv32, out: seq<bv16>) returns (r: seq<bv16>)
    requires IsCodePointValid(cp)
    ensures r == out + Encode16(cp)
  {
    hide IsCodePointValid, Word, High, Low, LeadOf, TrailOf;
    if cp <= 0xffff {
      r := out + [Word(cp)];
    } else {
      SourceWords(cp);
      r := out + [LeadOf(cp)];
      r := r + [TrailOf(cp)];
    }
  }

  method Utf8to16(s: seq<bv8>) returns (r: Result<seq<bv16>, Exn>)
    ensures r == if IsUtf8(s) then Success(Encode16All(Points(s))) else Failure(Fault(s))
  {
    hide CharLen, Raw, Next, IsCodePointValid, Encode16;
    var i, out := 0, [];
    while i < |s|
      invariant i <= |s|
      invariant IsUtf8(s) <==> IsUtf8(s[i..])
      invariant IsUtf8(s) ==> Encode16All(Points(s)) == out + Encode16All(Points(s[i..]))
      invariant !IsUtf8(s) ==> Fault(s) == Fault(s[i..])
    {
      NextStep(s, i);
      var v := Next(s[i..]);
      if v.Failure? {
        return Failure(v.error);
      }
      var cp := v.value.0;
      NextIsValid(s[i..]);
      out := PutUtf16(cp, out);
      i := i + v.value.1;
    }
    assert out + [] == out;
    return Success(out);
  }

  lemma NextIsValid(s: seq<bv8>)
    requires s != [] && Next(s).Success?
    ensures IsCodePointValid(Next(s).value.0)
  {
    hide IsCodePointValid, ValidateNext;
    EncodeDecoded(s);
  }

  /** One turn of the loop of utf16to8 at index i. */
  lemma Step16(u: seq<bv16>, i: nat)
    requires i < |u|
    ensures StartsSingle(u[i..]) ==>
              && (IsUtf16(u[i..]) <==> IsUtf16(u[i + 1..]))
              && (IsUtf16(u[i..]) ==> Points16(u[i..]) == [Wide(u[i])] + Points16(u[i + 1..]))
              && (!IsUtf16(u[i..]) ==> Fault16(u[i..]) == Fault16(u[i + 1..]))
    ensures StartsPair(u[i..]) ==>
              && (IsUtf16(u[i..]) <==> IsUtf16(u[i + 2..]))
              && (IsUtf16(u[i..]) ==> Points16(u[i..]) == [Combine(Wide(u[i]), Wide(u[i + 1]))] + Points16(u[i + 2..]))
              && (!IsUtf16(u[i..]) ==> Fault16(u[i..]) == Fault16(u[i + 2..]))
    ensures !StartsSingle(u[i..]) && !StartsPair(u[i..]) ==> !IsUtf16(u[i..])
  {
    hide StartsSingle, FromPair, Wide, Combine, IsLeadSurrogate, IsTrailSurrogate;
    var t := u[i..];
    assert t[1..] == u[i + 1..];
    if StartsPair(t) {
      PairFacts(t);
      assert t[2..] == u[i + 2..];
    } else if StartsSingle(t) {
      SingleFacts(t);
    }
  }

  method Utf16to8(u: seq<bv16>) returns (r: Result<seq<bv8>, Exn>)
    ensures r == if IsUtf16(u) then Success(EncodeAll(Points16(u))) else Failure(Fault16(u))
  {
    hide EncodeChar, IsCodePointValid, IsLeadSurrogate, IsTrailSurrogate, Combine, Wide, IsUtf16, Points16;
    var i, out := 0, [];
    while i < |u|
      invariant i <= |u|
      invariant IsUtf16(u) <==> IsUtf16(u[i..])
      invariant IsUtf16(u) ==> EncodeAll(Points16(u)) == out + EncodeAll(Points16(u[i..]))
      invariant !IsUtf16(u) ==> Fault16(u) == Fault16(u[i..])
    {
      Step16(u, i);
      var cp := Wide(u[i]);
      i := i + 1;
      NotBoth(cp);
      if IsLeadSurrogate(cp) {
        if i < |u| {
          var trail := Wide(u[i]);
          i := i + 1;
          if IsTrailSurrogate(trail) {
            cp := Combine(cp, trail);
          } else {
            return Failure(InvalidUtf16Exn(u[i - 1]));
          }
        } else {
          return Failure(InvalidUtf16Exn(u[i - 1]));
        }
      } else if IsTrailSurrogate(cp) {
        return Failure(InvalidUtf16Exn(u[i - 1]));
      }
      out := out + EncodeChar(cp);
    }
    assert u[i..] == [] && out + [] == out;
    NothingLeft();
    return Success(out);
  }

  lemma NothingLeft()
    ensures IsUtf16([]) && Points16([]) == []
  {
  }

  /** UTF-8 to UTF-16 and back is the identity on valid UTF-8. */
  lemma {:induction false} Utf8Through16(s: seq<bv8>)
    requires IsUtf8(s)
    ensures var u := Encode16All(Points(s)); IsUtf16(u) && EncodeAll(Points16(u)) == s
  {
    EncodeDecodedAll(s);
    DecodeEncoded16(Points(s));
  }

  /** UTF-16 to UTF-8 and back is the identity on well-formed UTF-16. */
  lemma {:induction false} Utf16Through8(u: seq<bv16>)
    requires IsUtf16(u)
    ensures var s := EncodeAll(Points16(u)); IsUtf8(s) && Encode16All(Points(s)) == u
  {
    EncodeDecoded16(u);
    DecodeEncodedAll(Points16(u));
  }
}
