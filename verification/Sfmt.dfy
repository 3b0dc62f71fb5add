/**
 * The SFMT generator of dep/SFMT/SFMT.h with the shifts, mask and parity vector of MEXP 11213.
 * A 128-bit word is four 32-bit lanes, lane 0 the least significant. The state size N and the
 * feedback position M stay parameters.
 */
module Sfmt {

  datatype Word = Word(x0: bv32, x1: bv32, x2: bv32, x3: bv32)

  // the settings of the configured exponent; the generator object takes any such settings
  const SFMT_N := 88
  const SFMT_M := 68
  const SFMT_MASK := Word(0xeffff7fb, 0xffffffef, 0xdfdfbfff, 0x7fffdbfd)
  const SFMT_PARITY := Word(1, 0, 0xe8148000, 0xd0c7afa3)

  function Lane(w: Word, i: nat): bv32
    requires i < 4
  {
    if i == 0 then w.x0 else if i == 1 then w.x1 else if i == 2 then w.x2 else w.x3
  }

  function SetLane(w: Word, i: nat, y: bv32): Word
    requires i < 4
  {
    if i == 0 then w.(x0 := y) else if i == 1 then w.(x1 := y) else if i == 2 then w.(x2 := y) else w.(x3 := y)
  }

  /**
   * One lane of sfmt_recursion. The two 24-bit shifts of whole words move bits across lanes:
   * `below` is the lane under a (0 for lane 0), `above` the lane over c (0 for lane 3).
   */
  function RecLane(a: bv32, below: bv32, b: bv32, c: bv32, above: bv32, d: bv32, mask: bv32): bv32 {
    ((a ^ ((a << 24) | (below >> 8))) ^ ((c >> 24) | (above << 8))) ^ (((b >> 7) & mask) ^ (d << 14))
  }

  function Recursion(a: Word, b: Word, c: Word, d: Word, mask: Word): Word {
    Word(RecLane(a.x0, 0, b.x0, c.x0, c.x1, d.x0, mask.x0),
         RecLane(a.x1, a.x0, b.x1, c.x1, c.x2, d.x1, mask.x1),
         RecLane(a.x2, a.x1, b.x2, c.x2, c.x3, d.x2, mask.x2),
         RecLane(a.x3, a.x2, b.x3, c.x3, 0, d.x3, mask.x3))
  }

  // ---------------------------------------------------------------- the recurrence

  ghost predicate Shape(o: seq<Word>, m: nat) {
    1 <= m < |o|
  }

  /** The infinite recurrence W[i+N] = rec(W[i], W[i+M], W[i+N-2], W[i+N-1]) started from o. */
  ghost function W(o: seq<Word>, m: nat, mask: Word, k: nat): Word
    requires Shape(o, m)
  {
    var n := |o|;
    if k < n then o[k]
    else Recursion(W(o, m, mask, k - n), W(o, m, mask, k - n + m), W(o, m, mask, k - 2), W(o, m, mask, k - 1), mask)
  }

  /** N consecutive words of the recurrence. */
  ghost function Window(o: seq<Word>, m: nat, mask: Word, b: nat): (s: seq<Word>)
    requires Shape(o, m)
    ensures |s| == |o|
  {
    seq(|o|, i requires 0 <= i < |o| => W(o, m, mask, b + i))
  }

  lemma NextWord(o: seq<Word>, m: nat, mask: Word, k: nat)
    requires Shape(o, m) && |o| <= k
    ensures W(o, m, mask, k)
         == Recursion(W(o, m, mask, k - |o|), W(o, m, mask, k - |o| + m), W(o, m, mask, k - 2), W(o, m, mask, k - 1), mask)
  {
  }

  /**
   * Mid-refill: of the words in s, the first i are new and the rest old; r1 and r2 are the two
   * words of the recurrence before the next one.
   */
  ghost predicate Progress(s: seq<Word>, o: seq<Word>, m: nat, mask: Word, b: nat, i: nat, r1: Word, r2: Word)
    requires Shape(o, m)
  {
    && |s| == |o| && i <= |o|
    && (forall j | 0 <= j < i :: s[j] == W(o, m, mask, b + |o| + j))
    && (forall j | i <= j < |o| :: s[j] == W(o, m, mask, b + j))
    && r1 == W(o, m, mask, b + |o| + i - 2) && r2 == W(o, m, mask, b + |o| + i - 1)
  }

  /** One turn of either loop of Generate; far is the index of the third word it reads. */
  lemma {:induction false} ProgressStep(s: seq<Word>, o: seq<Word>, m: nat, mask: Word, b: nat, i: nat, far: nat, r1: Word, r2: Word)
    requires Shape(o, m) && Progress(s, o, m, mask, b, i, r1, r2) && i < |o|
    requires far == if i < |o| - m then i + m else i + m - |o|
    ensures var r := Recursion(s[i], s[far], r1, r2, mask);
            Progress(s[i := r], o, m, mask, b, i + 1, r2, r)
  {
    hide Recursion, W;
    NextWord(o, m, mask, b + |o| + i);
    assert s[i] == W(o, m, mask, b + i);
    assert s[far] == W(o, m, mask, b + i + m);
  }

  lemma WindowStart(o: seq<Word>, m: nat, mask: Word)
    requires Shape(o, m)
    ensures Window(o, m, mask, 0) == o
  {
    var w := Window(o, m, mask, 0);
    forall i | 0 <= i < |o| ensures w[i] == o[i] {
      assert w[i] == W(o, m, mask, i);
    }
  }

  lemma ProgressEnds(s: seq<Word>, o: seq<Word>, m: nat, mask: Word, b: nat, r1: Word, r2: Word)
    requires Shape(o, m)
    ensures s == Window(o, m, mask, b) && r1 == s[|o| - 2] && r2 == s[|o| - 1] ==> Progress(s, o, m, mask, b, 0, r1, r2)
    ensures Progress(s, o, m, mask, b, |o|, r1, r2) ==> s == Window(o, m, mask, b + |o|)
  {
    hide W;
  }

  // ---------------------------------------------------------------- no state is lost

  function UndoLane(r: bv32, below: bv32, b: bv32, c: bv32, above: bv32, d: bv32, mask: bv32): bv32 {
    var z := ((r ^ (((b >> 7) & mask) ^ (d << 14))) ^ ((c >> 24) | (above << 8))) ^ (below >> 8);
    z ^ (z << 24)
  }

  /** The first operand of Recursion, from its result and the other three. */
  function Undo(r: Word, b: Word, c: Word, d: Word, mask: Word): Word {
    var y0 := UndoLane(r.x0, 0, b.x0, c.x0, c.x1, d.x0, mask.x0);
    var y1 := UndoLane(r.x1, y0, b.x1, c.x1, c.x2, d.x1, mask.x1);
    var y2 := UndoLane(r.x2, y1, b.x2, c.x2, c.x3, d.x2, mask.x2);
    Word(y0, y1, y2, UndoLane(r.x3, y2, b.x3, c.x3, 0, d.x3, mask.x3))
  }

  lemma RecLaneIs(a: bv32, below: bv32, b: bv32, c: bv32, above: bv32, d: bv32, mask: bv32)
    ensures RecLane(a, below, b, c, above, d, mask)
         == ((a ^ ((a << 24) | (below >> 8))) ^ ((c >> 24) | (above << 8))) ^ (((b >> 7) & mask) ^ (d << 14))
  {
  }

  lemma UndoLaneOf(a: bv32, below: bv32, b: bv32, c: bv32, above: bv32, d: bv32, mask: bv32)
    ensures UndoLane(((a ^ ((a << 24) | (below >> 8))) ^ ((c >> 24) | (above << 8))) ^ (((b >> 7) & mask) ^ (d << 14)),
                     below, b, c, above, d, mask) == a
  {
  }

  lemma UndoRecLane(a: bv32, below: bv32, b: bv32, c: bv32, above: bv32, d: bv32, mask: bv32)
    ensures UndoLane(RecLane(a, below, b, c, above, d, mask), below, b, c, above, d, mask) == a
  {
    hide RecLane, UndoLane;
    RecLaneIs(a, below, b, c, above, d, mask);
    UndoLaneOf(a, below, b, c, above, d, mask);
  }

  /** Every old word is recovered from the new one: Recursion is invertible in its first operand. */
  lemma UndoRecursion(a: Word, b: Word, c: Word, d: Word, mask: Word)
    ensures Undo(Recursion(a, b, c, d, mask), b, c, d, mask) == a
  {
    hide RecLane, UndoLane;
    UndoRecLane(a.x0, 0, b.x0, c.x0, c.x1, d.x0, mask.x0);
    UndoRecLane(a.x1, a.x0, b.x1, c.x1, c.x2, d.x1, mask.x1);
    UndoRecLane(a.x2, a.x1, b.x2, c.x2, c.x3, d.x2, mask.x2);
    UndoRecLane(a.x3, a.x2, b.x3, c.x3, 0, d.x3, mask.x3);
  }

  /** The window one position earlier, computed from a window alone. */
  function Previous(w: seq<Word>, m: nat, mask: Word): (p: seq<Word>)
    requires 3 <= |w| && 1 <= m < |w|
    ensures |p| == |w|
  {
    var n := |w|;
    [Undo(w[n - 1], w[m - 1], w[n - 3], w[n - 2], mask)] + w[..n - 1]
  }

  function Rewind(w: seq<Word>, m: nat, mask: Word, k: nat): (p: seq<Word>)
    requires 3 <= |w| && 1 <= m < |w|
    ensures |p| == |w|
    decreases k
  {
    if k == 0 then w else Rewind(Previous(w, m, mask), m, mask, k - 1)
  }

  lemma PreviousWindow(o: seq<Word>, m: nat, mask: Word, b: nat)
    requires Shape(o, m) && 3 <= |o|
    ensures Previous(Window(o, m, mask, b + 1), m, mask) == Window(o, m, mask, b)
  {
    hide Recursion, Undo, W;
    var n := |o|;
    var w := Window(o, m, mask, b + 1);
    NextWord(o, m, mask, b + n);
    UndoRecursion(W(o, m, mask, b), W(o, m, mask, b + m), W(o, m, mask, b + n - 2), W(o, m, mask, b + n - 1), mask);
    assert w[n - 1] == W(o, m, mask, b + n);
    assert w[m - 1] == W(o, m, mask, b + m);
    assert w[n - 3] == W(o, m, mask, b + n - 2);
    assert w[n - 2] == W(o, m, mask, b + n - 1);
  }

  /** From the words after any number of steps, all earlier words are computed back. */
  lemma {:induction false} RewindRecovers(o: seq<Word>, m: nat, mask: Word, b: nat, k: nat)
    requires Shape(o, m) && 3 <= |o|
    ensures Rewind(Window(o, m, mask, b + k), m, mask, k) == Window(o, m, mask, b)
  {
    hide Recursion, Undo, Previous;
    if k > 0 {
      PreviousWindow(o, m, mask, b + k - 1);
      RewindRecovers(o, m, mask, b, k - 1);
    }
  }

  /** Two states that agree after `refills` calls of Generate were the same state all along. */
  lemma StatesNeverMerge(o: seq<Word>, o': seq<Word>, m: nat, mask: Word, refills: nat)
    requires Shape(o, m) && |o'| == |o| && 3 <= |o|
    requires Window(o, m, mask, refills * |o|) == Window(o', m, mask, refills * |o|)
    ensures o == o'
  {
    hide Recursion, Undo, Previous, Rewind;
    var k := refills * |o|;
    RewindRecovers(o, m, mask, 0, k);
    RewindRecovers(o', m, mask, 0, k);
    WindowStart(o, m, mask);
    WindowStart(o', m, mask);
  }

  /**
   * N = 2 really is different: the third operand is then the word being replaced, and two
   * distinct states are sent to the same one.
   */
  lemma TwoWordStatesCanMerge(mask: Word)
    ensures exists o: seq<Word>, o': seq<Word> ::
              |o| == 2 && |o'| == 2 && o != o' && Window(o, 1, mask, 2) == Window(o', 1, mask, 2)
  {
    var zero, v := Word(0, 0, 0, 0), Word(0x0000ff00, 0x000000ff, 0x00ff0000, 0x0000ff00);
    var o, o' := [v, zero], [zero, zero];
    ZeroSteps(mask);
    hide Recursion;
    assert W(o, 1, mask, 2) == zero;
    assert W(o', 1, mask, 2) == zero;
    assert W(o, 1, mask, 3) == zero;
    assert W(o', 1, mask, 3) == zero;
    assert Window(o, 1, mask, 2) == Window(o', 1, mask, 2);
  }

  lemma ZeroSteps(mask: Word)
    ensures var zero, v := Word(0, 0, 0, 0), Word(0x0000ff00, 0x000000ff, 0x00ff0000, 0x0000ff00);
            Recursion(v, zero, v, zero, mask) == zero && Recursion(zero, zero, zero, zero, mask) == zero
  {
  }

  // ---------------------------------------------------------------- the recursion on 128 bits

  function Join(x0: bv32, x1: bv32, x2: bv32, x3: bv32): bv128 {
    (x0 as bv128) | ((x1 as bv128) << 32) | ((x2 as bv128) << 64) | ((x3 as bv128) << 96)
  }

  /** The 128-bit number a word is. */
  function Whole(w: Word): bv128 {
    Join(w.x0, w.x1, w.x2, w.x3)
  }

  /** Bits 32 i to 32 i + 31. */
  function Bits32(x: bv128, i: nat): bv32
    requires i < 4
  {
    if i == 0 then (x & 0xffff_ffff) as bv32
    else if i == 1 then ((x >> 32) & 0xffff_ffff) as bv32
    else if i == 2 then ((x >> 64) & 0xffff_ffff) as bv32
    else ((x >> 96) & 0xffff_ffff) as bv32
  }

  /** Lane i of a word is its i-th 32 bits, the least significant first. */
  lemma LaneOfWhole(w: Word, i: nat)
    requires i < 4
    ensures Lane(w, i) == Bits32(Whole(w), i)
  {
    hide Bits32, Whole;
    if i == 0 { LaneZero(w); } else if i == 1 { LaneOne(w); } else if i == 2 { LaneTwo(w); } else { LaneThree(w); }
  }

  lemma LaneZero(w: Word)
    ensures w.x0 == Bits32(Whole(w), 0)
  {
  }

  lemma LaneOne(w: Word)
    ensures w.x1 == Bits32(Whole(w), 1)
  {
  }

  lemma LaneTwo(w: Word)
    ensures w.x2 == Bits32(Whole(w), 2)
  {
  }

  lemma LaneThree(w: Word)
    ensures w.x3 == Bits32(Whole(w), 3)
  {
  }

  function Xor128(a: bv128, b: bv128): bv128 { a ^ b }

  function And128(a: bv128, b: bv128): bv128 { a & b }

  function ThreeBytesUp(a: bv128): bv128 { a << 24 }

  function ThreeBytesDown(a: bv128): bv128 { a >> 24 }

  /** The lanes of the two whole-word shifts, and each lane shifted on its own. */
  function BytesUp(w: Word): Word {
    Word(w.x0 << 24, (w.x1 << 24) | (w.x0 >> 8), (w.x2 << 24) | (w.x1 >> 8), (w.x3 << 24) | (w.x2 >> 8))
  }

  function BytesDown(w: Word): Word {
    Word((w.x0 >> 24) | (w.x1 << 8), (w.x1 >> 24) | (w.x2 << 8), (w.x2 >> 24) | (w.x3 << 8), w.x3 >> 24)
  }

  function LanesRight(w: Word): Word {
    Word(w.x0 >> 7, w.x1 >> 7, w.x2 >> 7, w.x3 >> 7)
  }

  function LanesLeft(w: Word): Word {
    Word(w.x0 << 14, w.x1 << 14, w.x2 << 14, w.x3 << 14)
  }

  function Masked(w: Word, mask: Word): Word {
    Word(w.x0 & mask.x0, w.x1 & mask.x1, w.x2 & mask.x2, w.x3 & mask.x3)
  }

  lemma JoinUp(x0: bv32, x1: bv32, x2: bv32, x3: bv32)
    ensures Join(x0 << 24, (x1 << 24) | (x0 >> 8), (x2 << 24) | (x1 >> 8), (x3 << 24) | (x2 >> 8))
         == ThreeBytesUp(Join(x0, x1, x2, x3))
  {
  }

  lemma JoinDown(x0: bv32, x1: bv32, x2: bv32, x3: bv32)
    ensures Join((x0 >> 24) | (x1 << 8), (x1 >> 24) | (x2 << 8), (x2 >> 24) | (x3 << 8), x3 >> 24)
         == ThreeBytesDown(Join(x0, x1, x2, x3))
  {
  }

  lemma JoinXor(a0: bv32, a1: bv32, a2: bv32, a3: bv32, b0: bv32, b1: bv32, b2: bv32, b3: bv32)
    ensures Join(X(a0, b0), X(a1, b1), X(a2, b2), X(a3, b3)) == Xor128(Join(a0, a1, a2, a3), Join(b0, b1, b2, b3))
  {
  }

  lemma JoinAnd(a0: bv32, a1: bv32, a2: bv32, a3: bv32, b0: bv32, b1: bv32, b2: bv32, b3: bv32)
    ensures Join(a0 & b0, a1 & b1, a2 & b2, a3 & b3) == And128(Join(a0, a1, a2, a3), Join(b0, b1, b2, b3))
  {
  }

  lemma XThree(a: bv32, u: bv32, e: bv32)
    ensures X(X(a, u), e) == (a ^ u) ^ e
  {
  }

  lemma XOnto(x: bv32, y: bv32, k: bv32, l: bv32)
    requires x == y
    ensures X(x, X(k, l)) == y ^ (k ^ l)
  {
  }

  lemma XLane(a: bv32, u: bv32, e: bv32, k: bv32, l: bv32)
    ensures X(X(X(a, u), e), X(k, l)) == ((a ^ u) ^ e) ^ (k ^ l)
  {
    hide X;
    XThree(a, u, e);
    XOnto(X(X(a, u), e), (a ^ u) ^ e, k, l);
  }

  lemma LaneIs(a: bv32, below: bv32, b: bv32, c: bv32, above: bv32, d: bv32, mask: bv32,
               u: bv32, e: bv32, k: bv32, l: bv32)
    requires u == (a << 24) | (below >> 8) && e == (c >> 24) | (above << 8) && k == (b >> 7) & mask && l == d << 14
    ensures RecLane(a, below, b, c, above, d, mask) == X(X(X(a, u), e), X(k, l))
  {
    hide RecLane, X;
    RecLaneIs(a, below, b, c, above, d, mask);
    XLane(a, u, e, k, l);
  }

  /** Five words combined lane by lane are combined as 128-bit numbers. */
  lemma Combined(a: Word, u: Word, e: Word, k: Word, l: Word)
    ensures Whole(Word(X(X(X(a.x0, u.x0), e.x0), X(k.x0, l.x0)), X(X(X(a.x1, u.x1), e.x1), X(k.x1, l.x1)),
                       X(X(X(a.x2, u.x2), e.x2), X(k.x2, l.x2)), X(X(X(a.x3, u.x3), e.x3), X(k.x3, l.x3))))
         == Xor128(Xor128(Xor128(Whole(a), Whole(u)), Whole(e)), Xor128(Whole(k), Whole(l)))
  {
    hide Join, X, Xor128;
    JoinXor(a.x0, a.x1, a.x2, a.x3, u.x0, u.x1, u.x2, u.x3);
    JoinXor(X(a.x0, u.x0), X(a.x1, u.x1), X(a.x2, u.x2), X(a.x3, u.x3), e.x0, e.x1, e.x2, e.x3);
    JoinXor(k.x0, k.x1, k.x2, k.x3, l.x0, l.x1, l.x2, l.x3);
    JoinXor(X(X(a.x0, u.x0), e.x0), X(X(a.x1, u.x1), e.x1), X(X(a.x2, u.x2), e.x2), X(X(a.x3, u.x3), e.x3),
            X(k.x0, l.x0), X(k.x1, l.x1), X(k.x2, l.x2), X(k.x3, l.x3));
  }

  lemma Lane0(a: Word, b: Word, c: Word, d: Word, mask: Word)
    ensures RecLane(a.x0, 0, b.x0, c.x0, c.x1, d.x0, mask.x0) ==
            X(X(X(a.x0, BytesUp(a).x0), BytesDown(c).x0), X(Masked(LanesRight(b), mask).x0, LanesLeft(d).x0))
  {
    hide RecLane, X;
    LaneIs(a.x0, 0, b.x0, c.x0, c.x1, d.x0, mask.x0,
           BytesUp(a).x0, BytesDown(c).x0, Masked(LanesRight(b), mask).x0, LanesLeft(d).x0);
  }

  lemma Lane1(a: Word, b: Word, c: Word, d: Word, mask: Word)
    ensures RecLane(a.x1, a.x0, b.x1, c.x1, c.x2, d.x1, mask.x1) ==
            X(X(X(a.x1, BytesUp(a).x1), BytesDown(c).x1), X(Masked(LanesRight(b), mask).x1, LanesLeft(d).x1))
  {
    hide RecLane, X;
    LaneIs(a.x1, a.x0, b.x1, c.x1, c.x2, d.x1, mask.x1,
           BytesUp(a).x1, BytesDown(c).x1, Masked(LanesRight(b), mask).x1, LanesLeft(d).x1);
  }

  lemma Lane2(a: Word, b: Word, c: Word, d: Word, mask: Word)
    ensures RecLane(a.x2, a.x1, b.x2, c.x2, c.x3, d.x2, mask.x2) ==
            X(X(X(a.x2, BytesUp(a).x2), BytesDown(c).x2), X(Masked(LanesRight(b), mask).x2, LanesLeft(d).x2))
  {
    hide RecLane, X;
    LaneIs(a.x2, a.x1, b.x2, c.x2, c.x3, d.x2, mask.x2,
           BytesUp(a).x2, BytesDown(c).x2, Masked(LanesRight(b), mask).x2, LanesLeft(d).x2);
  }

  lemma Lane3(a: Word, b: Word, c: Word, d: Word, mask: Word)
    ensures RecLane(a.x3, a.x2, b.x3, c.x3, 0, d.x3, mask.x3) ==
            X(X(X(a.x3, BytesUp(a).x3), BytesDown(c).x3), X(Masked(LanesRight(b), mask).x3, LanesLeft(d).x3))
  {
    hide RecLane, X;
    LaneIs(a.x3, a.x2, b.x3, c.x3, 0, d.x3, mask.x3,
           BytesUp(a).x3, BytesDown(c).x3, Masked(LanesRight(b), mask).x3, LanesLeft(d).x3);
  }

  lemma WholeUp(w: Word)
    ensures Whole(BytesUp(w)) == ThreeBytesUp(Whole(w))
  {
    hide Join, ThreeBytesUp;
    JoinUp(w.x0, w.x1, w.x2, w.x3);
  }

  lemma WholeDown(w: Word)
    ensures Whole(BytesDown(w)) == ThreeBytesDown(Whole(w))
  {
    hide Join, ThreeBytesDown;
    JoinDown(w.x0, w.x1, w.x2, w.x3);
  }

  lemma WholeMasked(w: Word, mask: Word)
    ensures Whole(Masked(w, mask)) == And128(Whole(w), Whole(mask))
  {
    hide Join, And128;
    JoinAnd(w.x0, w.x1, w.x2, w.x3, mask.x0, mask.x1, mask.x2, mask.x3);
  }

  /**
   * The four lane formulas are the 128-bit operations of the code: a, a shifted left by three
   * bytes, c shifted right by three bytes, and the masked and shifted lanes of b and d, all xored.
   */
  lemma RecursionOn128Bits(a: Word, b: Word, c: Word, d: Word, mask: Word)
    ensures Whole(Recursion(a, b, c, d, mask)) ==
            Xor128(Xor128(Xor128(Whole(a), ThreeBytesUp(Whole(a))), ThreeBytesDown(Whole(c))),
                   Xor128(And128(Whole(LanesRight(b)), Whole(mask)), Whole(LanesLeft(d))))
  {
    hide RecLane, X, Whole, Xor128, And128, ThreeBytesUp, ThreeBytesDown, BytesUp, BytesDown, LanesRight, LanesLeft, Masked;
    Lane0(a, b, c, d, mask);
    Lane1(a, b, c, d, mask);
    Lane2(a, b, c, d, mask);
    Lane3(a, b, c, d, mask);
    Combined(a, BytesUp(a), BytesDown(c), Masked(LanesRight(b), mask), LanesLeft(d));
    WholeUp(a);
    WholeDown(c);
    WholeMasked(LanesRight(b), mask);
  }

  // ---------------------------------------------------------------- seeding and period certification

  /** The i-th 32-bit word RandomInit writes for a seed. */
  ghost function SeedLane(seed: bv32, i: nat): bv32 {
    if i == 0 then seed
    else NextSeed(SeedLane(seed, i - 1), i)
  }

  function NextSeed(y: bv32, i: nat): bv32 {
    1812433253 * (y ^ (y >> 30)) + (i % 0x1_0000_0000) as bv32
  }

  ghost predicate IsSeeded(s: seq<Word>, seed: bv32) {
    SeededUpTo(s, seed, 4 * |s|)
  }

  ghost predicate SeededUpTo(s: seq<Word>, seed: bv32, n: nat) {
    n <= 4 * |s| && forall i | 0 <= i < n :: Lane(s[i / 4], i % 4) == SeedLane(seed, i)
  }

  lemma NothingSeeded(s: seq<Word>, seed: bv32)
    ensures SeededUpTo(s, seed, 0)
  {
  }

  lemma SeedOneMore(s: seq<Word>, seed: bv32, i: nat)
    requires i < 4 * |s| && SeededUpTo(s, seed, i)
    ensures SeededUpTo(s[i / 4 := SetLane(s[i / 4], i % 4, SeedLane(seed, i))], seed, i + 1)
  {
    hide SeedLane;
    var s' := s[i / 4 := SetLane(s[i / 4], i % 4, SeedLane(seed, i))];
    forall k | 0 <= k < i + 1
      ensures Lane(s'[k / 4], k % 4) == SeedLane(seed, k)
    {
      if k < i {
        assert Lane(s[k / 4], k % 4) == SeedLane(seed, k);
      }
    }
  }

  /**
   * How a lane of a seeded state follows from the one before it: it exceeds the multiple 1812433253
   * of that lane, xored with its own two top bits, by its index modulo 2^32.
   */
  ghost predicate Follows(before: bv32, lane: bv32, i: nat) {
    lane - 1812433253 * (before ^ (before >> 30)) == (i % 0x1_0000_0000) as bv32
  }

  /** The step undone: the index taken off, and the product with the odd factor by that with its inverse. */
  ghost predicate Undoes(lane: bv32, i: nat, twisted: bv32) {
    2520285293 * (lane - (i % 0x1_0000_0000) as bv32) == twisted
  }

  lemma SeedStep(y: bv32, i: nat)
    ensures var lane := 1812433253 * (y ^ (y >> 30)) + (i % 0x1_0000_0000) as bv32;
            Follows(y, lane, i) && Undoes(lane, i, y ^ (y >> 30))
  {
  }

  lemma SeedFollows(y: bv32, i: nat)
    ensures Follows(y, NextSeed(y, i), i) && Undoes(NextSeed(y, i), i, y ^ (y >> 30))
  {
    hide Follows, Undoes;
    SeedStep(y, i);
  }

  /** What the seeding promises about the state: lane 0 is the seed, and each lane follows from the one before it. */
  lemma SeededLanes(s: seq<Word>, seed: bv32)
    requires s != [] && IsSeeded(s, seed)
    ensures Lane(s[0], 0) == seed
    ensures forall i, k | 0 <= k && 0 < i < 4 * |s| && k == i - 1 :: Follows(Lane(s[k / 4], k % 4), Lane(s[i / 4], i % 4), i)
  {
    hide Lane, NextSeed, Follows, Undoes;
    assert Lane(s[0 / 4], 0 % 4) == SeedLane(seed, 0);
    forall i, k | 0 <= k && 0 < i < 4 * |s| && k == i - 1
      ensures Follows(Lane(s[k / 4], k % 4), Lane(s[i / 4], i % 4), i)
    {
      assert Lane(s[k / 4], k % 4) == SeedLane(seed, k);
      SeedFollows(SeedLane(seed, k), i);
    }
  }

  lemma UndoneOnce(lane: bv32, i: nat, a: bv32, b: bv32)
    requires Undoes(lane, i, a) && Undoes(lane, i, b)
    ensures a == b
  {
  }

  lemma Untwist(y: bv32, z: bv32)
    requires y ^ (y >> 30) == z ^ (z >> 30)
    ensures y == z
  {
  }

  lemma Untwisted(lane: bv32, i: nat, y: bv32, z: bv32)
    requires Undoes(lane, i, y ^ (y >> 30)) && Undoes(lane, i, z ^ (z >> 30))
    ensures y == z
  {
    hide *;
    UndoneOnce(lane, i, y ^ (y >> 30), z ^ (z >> 30));
    Untwist(y, z);
  }

  lemma SeedStepInjective(y: bv32, z: bv32, i: nat)
    requires NextSeed(y, i) == NextSeed(z, i)
    ensures y == z
  {
    hide *;
    SeedFollows(y, i);
    SeedFollows(z, i);
    Untwisted(NextSeed(y, i), i, y, z);
  }

  lemma {:induction false} SeedLanesDiffer(a: bv32, b: bv32, i: nat)
    requires a != b
    ensures SeedLane(a, i) != SeedLane(b, i)
  {
    hide NextSeed;
    if i > 0 {
      SeedLanesDiffer(a, b, i - 1);
      if SeedLane(a, i) == SeedLane(b, i) {
        SeedStepInjective(SeedLane(a, i - 1), SeedLane(b, i - 1), i);
      }
    }
  }

  /** Two different seeds fill every lane of the state differently. */
  lemma SeedsDifferEverywhere(s: seq<Word>, t: seq<Word>, a: bv32, b: bv32)
    requires |s| == |t| && a != b && IsSeeded(s, a) && IsSeeded(t, b)
    ensures forall i | 0 <= i < 4 * |s| :: Lane(s[i / 4], i % 4) != Lane(t[i / 4], i % 4)
  {
    hide Lane, SeedLane;
    forall i | 0 <= i < 4 * |s| ensures Lane(s[i / 4], i % 4) != Lane(t[i / 4], i % 4) {
      assert Lane(s[i / 4], i % 4) == SeedLane(a, i) && Lane(t[i / 4], i % 4) == SeedLane(b, i);
      SeedLanesDiffer(a, b, i);
    }
  }

  /** How many bits of x are set. */
  ghost function Ones(x: bv32): nat {
    if x == 0 then 0 else 1 + Ones(ClearLowest(x))
  }

  function ClearLowest(x: bv32): bv32 {
    x & (x - 1)
  }

  // the five steps by which Init2 folds the parity of temp into bit 0
  function S16(t: bv32): bv32 { t ^ (t >> 16) }
  function S8(t: bv32): bv32 { t ^ (t >> 8) }
  function S4(t: bv32): bv32 { t ^ (t >> 4) }
  function S2(t: bv32): bv32 { t ^ (t >> 2) }
  function S1(t: bv32): bv32 { t ^ (t >> 1) }

  function Fold(t: bv32): bv32 {
    S1(S2(S4(S8(S16(t)))))
  }

  // exclusive or under a name, so that the proofs below can keep it closed
  function X(a: bv32, b: bv32): bv32 { a ^ b }

  function And(p: bv32, x: bv32): bv32 { p & x }

  lemma StepsAre(t: bv32)
    ensures S16(t) == t ^ (t >> 16) && S8(t) == t ^ (t >> 8) && S4(t) == t ^ (t >> 4)
    ensures S2(t) == t ^ (t >> 2) && S1(t) == t ^ (t >> 1)
  {
  }

  lemma StepsOfXor(a: bv32, b: bv32)
    ensures S16(a ^ b) == X(a ^ (a >> 16), b ^ (b >> 16)) && S8(a ^ b) == X(a ^ (a >> 8), b ^ (b >> 8))
    ensures S4(a ^ b) == X(a ^ (a >> 4), b ^ (b >> 4)) && S2(a ^ b) == X(a ^ (a >> 2), b ^ (b >> 2))
    ensures S1(a ^ b) == X(a ^ (a >> 1), b ^ (b >> 1))
  {
  }

  lemma XIs(a: bv32, b: bv32)
    ensures X(a, b) == a ^ b
  {
  }

  lemma StepsLinear(a: bv32, b: bv32)
    ensures S16(X(a, b)) == X(S16(a), S16(b)) && S8(X(a, b)) == X(S8(a), S8(b))
    ensures S4(X(a, b)) == X(S4(a), S4(b)) && S2(X(a, b)) == X(S2(a), S2(b)) && S1(X(a, b)) == X(S1(a), S1(b))
  {
    hide S16, S8, S4, S2, S1, X;
    XIs(a, b);
    StepsAre(a);
    StepsAre(b);
    StepsOfXor(a, b);
  }

  lemma {:induction false} FoldLinear(a: bv32, b: bv32)
    ensures Fold(X(a, b)) == X(Fold(a), Fold(b))
  {
    hide S16, S8, S4, S2, S1, X;
    StepsLinear(a, b);
    StepsLinear(S16(a), S16(b));
    StepsLinear(S8(S16(a)), S8(S16(b)));
    StepsLinear(S4(S8(S16(a))), S4(S8(S16(b))));
    StepsLinear(S2(S4(S8(S16(a)))), S2(S4(S8(S16(b)))));
  }

  ghost predicate IsBit(j: bv32) {
    j != 0 && j & (j - 1) == 0
  }

  ghost predicate Odd(t: bv32) {
    Fold(t) & 1 == 1
  }

  lemma FoldOfBit(j: bv32)
    requires IsBit(j)
    ensures Odd(j)
  {
  }

  lemma OddFlips(a: bv32, b: bv32)
    requires b & 1 == 1
    ensures X(a, b) & 1 == 1 <==> !(a & 1 == 1)
  {
  }

  lemma FlipFold(t: bv32, j: bv32)
    requires IsBit(j)
    ensures Odd(X(t, j)) <==> !Odd(t)
  {
    hide Fold, IsBit, X;
    FoldOfBit(j);
    FoldLinear(t, j);
    OddFlips(Fold(t), Fold(j));
  }

  lemma LowestBit(x: bv32)
    requires x != 0
    ensures IsBit(x & -x) && ClearLowest(x) == X(x, x & -x)
  {
  }

  lemma {:induction false} FoldIsParity(x: bv32)
    ensures Odd(x) <==> Ones(x) % 2 == 1
    decreases Ones(x)
  {
    hide Fold, Odd, IsBit, X, ClearLowest;
    if x == 0 {
      NothingIsEven();
    } else {
      LowestBit(x);
      FlipFold(x, x & -x);
      FoldIsParity(ClearLowest(x));
    }
  }

  lemma NothingIsEven()
    ensures !Odd(0)
  {
  }

  function Check(parity: Word, w: Word): bv32 {
    X(X(X(X(0, And(parity.x0, w.x0)), And(parity.x1, w.x1)), And(parity.x2, w.x2)), And(parity.x3, w.x3))
  }

  /** A state word meets the period certification: an odd number of the checked bits is set. */
  ghost predicate Certified(parity: Word, w: Word) {
    Ones(Check(parity, w)) % 2 == 1
  }

  ghost predicate ClearBelow(p: bv32, j: bv32) {
    p & (j - 1) == 0
  }

  /** The lowest set bit of the parity vector: bit j of lane i. */
  ghost predicate ParityBit(parity: Word, i: nat, j: bv32) {
    && i < 4 && (forall k | 0 <= k < i :: Lane(parity, k) == 0)
    && IsBit(j) && And(Lane(parity, i), j) != 0 && ClearBelow(Lane(parity, i), j)
  }

  /** w with one bit flipped: the one at the lowest set bit of the parity vector. */
  ghost predicate OneBitApart(parity: Word, w: Word, w': Word) {
    exists i: nat, j: bv32 :: ParityBit(parity, i, j) && w' == SetLane(w, i, X(Lane(w, i), j))
  }

  lemma FlippedIsApart(parity: Word, w: Word, i: nat, j: bv32)
    requires ParityBit(parity, i, j)
    ensures OneBitApart(parity, w, SetLane(w, i, X(Lane(w, i), j)))
  {
  }

  lemma CertifiedIs(parity: Word, w: Word)
    ensures Certified(parity, w) <==> Odd(Check(parity, w))
  {
    hide Odd, Check;
    FoldIsParity(Check(parity, w));
  }

  lemma MaskedFlip(p: bv32, x: bv32, j: bv32)
    requires IsBit(j) && And(p, j) != 0
    ensures And(p, X(x, j)) == X(And(p, x), j)
  {
  }

  lemma XorMoves(a: bv32, b: bv32, j: bv32)
    ensures X(a ^ j, b) == X(a ^ b, j) && X(a, b ^ j) == X(a ^ b, j)
  {
  }

  lemma FlipMovesOut(a: bv32, b: bv32, j: bv32)
    ensures X(X(a, j), b) == X(X(a, b), j) && X(a, X(b, j)) == X(X(a, b), j)
  {
    hide X;
    XIs(a, j);
    XIs(b, j);
    XIs(a, b);
    XorMoves(a, b, j);
  }

  /** A flip in any one of the four folded operands flips the result. */
  lemma FlipCheck(t: bv32, a: bv32, b: bv32, c: bv32, d: bv32, j: bv32, i: nat)
    ensures i == 0 ==> X(X(X(X(t, X(a, j)), b), c), d) == X(X(X(X(X(t, a), b), c), d), j)
    ensures i == 1 ==> X(X(X(X(t, a), X(b, j)), c), d) == X(X(X(X(X(t, a), b), c), d), j)
    ensures i == 2 ==> X(X(X(X(t, a), b), X(c, j)), d) == X(X(X(X(X(t, a), b), c), d), j)
    ensures i == 3 ==> X(X(X(X(t, a), b), c), X(d, j)) == X(X(X(X(X(t, a), b), c), d), j)
  {
    hide X;
    if i == 0 {
      FlipMovesOut(t, a, j);
      FlipMovesOut(X(t, a), b, j);
      FlipMovesOut(X(X(t, a), b), c, j);
      FlipMovesOut(X(X(X(t, a), b), c), d, j);
    } else if i == 1 {
      FlipMovesOut(X(t, a), b, j);
      FlipMovesOut(X(X(t, a), b), c, j);
      FlipMovesOut(X(X(X(t, a), b), c), d, j);
    } else if i == 2 {
      FlipMovesOut(X(X(t, a), b), c, j);
      FlipMovesOut(X(X(X(t, a), b), c), d, j);
    } else {
      FlipMovesOut(X(X(X(t, a), b), c), d, j);
    }
  }

  lemma FlippedLane(parity: Word, w: Word, i: nat, j: bv32)
    requires i < 4 && And(Lane(parity, i), X(Lane(w, i), j)) == X(And(Lane(parity, i), Lane(w, i)), j)
    ensures Check(parity, SetLane(w, i, X(Lane(w, i), j))) == X(Check(parity, w), j)
  {
    hide X, And;
    FlipCheck(0, And(parity.x0, w.x0), And(parity.x1, w.x1), And(parity.x2, w.x2), And(parity.x3, w.x3), j, i);
  }

  /** Flipping a bit that the parity vector checks turns a failed certification into a passed one. */
  lemma FlipCertifies(parity: Word, w: Word, i: nat, j: bv32)
    requires i < 4 && IsBit(j) && And(Lane(parity, i), j) != 0 && !Certified(parity, w)
    ensures Certified(parity, SetLane(w, i, X(Lane(w, i), j)))
  {
    hide Fold, Odd, X, And, IsBit, Ones, Certified;
    CertifiedIs(parity, w);
    CertifiedIs(parity, SetLane(w, i, X(Lane(w, i), j)));
    MaskedFlip(Lane(parity, i), Lane(w, i), j);
    FlippedLane(parity, w, i, j);
    FlipFold(Check(parity, w), j);
  }

  lemma SomeLaneSet(p: Word)
    requires p != Word(0, 0, 0, 0)
    ensures exists k: nat :: k < 4 && Lane(p, k) != 0
  {
    assert Lane(p, 0) != 0 || Lane(p, 1) != 0 || Lane(p, 2) != 0 || Lane(p, 3) != 0;
  }

  lemma FirstBit(p: bv32)
    ensures IsBit(1) && ClearBelow(p, 1)
  {
  }

  /** One more bit of p found clear by the search for a set bit, so the search cannot run out. */
  lemma NextBit(p: bv32, j: bv32)
    requires p != 0 && IsBit(j) && ClearBelow(p, j) && And(p, j) == 0
    ensures IsBit(j << 1) && ClearBelow(p, j << 1) && 0xffff_ffff - (j << 1) < 0xffff_ffff - j
  {
  }

  // ---------------------------------------------------------------- range reduction

  const TWO32 := 0x1_0000_0000

  /** What URandom makes of a 32-bit draw. */
  function Reduce(draw: int, min: int, max: int): int {
    if max == min then min
    else if max < min then 0
    else
      var interval := (max - min + 1) % TWO32;
      (Scale(draw, interval) + min) % TWO32
  }

  /** Multiply and shift. */
  function Scale(draw: int, interval: int): int {
    draw * interval / TWO32
  }

  lemma ScaleBound(draw: int, interval: int)
    requires 0 <= draw < TWO32 && 0 <= interval
    ensures if interval == 0 then Scale(draw, interval) == 0 else 0 <= Scale(draw, interval) < interval
  {
    MulMonotone(0, draw, interval);
    MulMonotone(draw, TWO32 - 1, interval);
  }

  lemma SmallModulo(x: int)
    requires 0 <= x < TWO32
    ensures x % TWO32 == x
  {
  }

  lemma {:induction false} ReduceInRange(draw: int, min: int, max: int)
    requires 0 <= draw < TWO32 && 0 <= min <= max < TWO32
    ensures min <= Reduce(draw, min, max) <= max
    ensures max - min + 1 < TWO32 && min < max ==> Reduce(draw, min, max) == min + Scale(draw, max - min + 1)
    ensures max - min + 1 == TWO32 ==> Reduce(draw, min, max) == 0
  {
    if min < max {
      var interval := (max - min + 1) % TWO32;
      ScaleBound(draw, interval);
      hide Scale;
      if max - min + 1 < TWO32 {
        SmallModulo(max - min + 1);
      }
      SmallModulo(Scale(draw, interval) + min);
    }
  }

  /** The draws that URandom maps to `value`. */
  ghost function DrawsFor(min: int, max: int, value: int): set<int> {
    set draw | 0 <= draw < TWO32 && Reduce(draw, min, max) == value
  }

  function CeilDiv(a: nat, n: nat): nat
    requires n > 0
  {
    (a + n - 1) / n
  }

  /** Products under a name, so that the proofs below can keep them closed. */
  function Mul(x: int, n: int): (r: int)
    ensures 0 <= x && 0 <= n ==> 0 <= r
  {
    x * n
  }

  lemma MulAdd(x: int, y: int, n: int)
    ensures Mul(x + y, n) == Mul(x, n) + Mul(y, n)
    ensures Mul(1, n) == n && Mul(0, n) == 0
  {
  }

  lemma MulMonotone(x: int, y: int, n: nat)
    requires x <= y
    ensures Mul(x, n) <= Mul(y, n)
  {
  }

  lemma DivMod(a: nat, n: nat)
    requires 0 < n
    ensures a == Mul(a / n, n) + a % n && 0 <= a % n < n
  {
  }

  /** A quotient is known by the remainder it leaves. */
  lemma QuotientUnique(a: nat, n: nat, c: nat, s: nat)
    requires 0 < n && s < n && a == Mul(c, n) + s
    ensures a / n == c && a % n == s
  {
    hide Mul;
    var q := a / n;
    DivMod(a, n);
    if q < c {
      MulMonotone(q + 1, c, n);
      MulAdd(q, 1, n);
    } else if c < q {
      MulMonotone(c + 1, q, n);
      MulAdd(c, 1, n);
    }
  }

  lemma CeilDivBound(a: nat, n: nat, r: nat)
    requires n > 0
    ensures a <= Mul(r, n) <==> CeilDiv(a, n) <= r
  {
    hide Mul;
    var c := CeilDiv(a, n);
    DivMod(a + n - 1, n);
    if c <= r {
      MulMonotone(c, r, n);
    } else {
      MulMonotone(r + 1, c, n);
      MulAdd(r, 1, n);
    }
  }

  lemma QuotientIs(x: nat, v: nat)
    ensures x / TWO32 == v <==> v * TWO32 <= x < (v + 1) * TWO32
  {
  }

  ghost predicate Between(lo: int, r: int, hi: int) {
    lo <= r < hi
  }

  lemma IntervalSize(s: set<int>, lo: int, hi: int)
    requires lo <= hi && forall r :: r in s <==> Between(lo, r, hi)
    ensures |s| == hi - lo
    decreases hi - lo
  {
    if lo == hi {
      assert forall r :: r in s ==> Between(lo, r, hi);
      assert forall r :: r !in s;
    } else {
      assert Between(lo, lo, hi);
      forall r: int
        ensures r in s - {lo} <==> Between(lo + 1, r, hi)
      {
        assert r in s <==> Between(lo, r, hi);
      }
      IntervalSize(s - {lo}, lo + 1, hi);
    }
  }

  lemma CeilDivIs(total: nat, n: nat)
    requires 0 < n
    ensures CeilDiv(total, n) == if total % n == 0 then total / n else total / n + 1
  {
    hide Mul;
    var q, t := total / n, total % n;
    DivMod(total, n);
    if t == 0 {
      QuotientUnique(total + n - 1, n, q, n - 1);
    } else {
      MulAdd(q, 1, n);
      QuotientUnique(total + n - 1, n, q + 1, t - 1);
    }
  }

  /** Where the draws for the v-th value of a range of n begin. */
  function Start(v: nat, n: nat): nat
    requires n > 0
  {
    CeilDiv(Mul(v, TWO32), n)
  }

  /** How much larger than 2^32 / n the v-th value's share is. */
  function Extra(v: nat, n: nat): int
    requires n > 0
  {
    Start(v + 1, n) - Start(v, n) - TWO32 / n
  }

  lemma Carry(b: nat, total: nat, n: nat, c: nat, s: nat, q: nat, t: nat)
    requires b == Mul(c, n) + s && total == Mul(q, n) + t && s < n && t < n
    ensures (b + total) / n == if s + t < n then c + q else c + q + 1
  {
    hide Mul;
    MulAdd(c, q, n);
    if s + t < n {
      QuotientUnique(b + total, n, c + q, s + t);
    } else {
      MulAdd(c + q, 1, n);
      QuotientUnique(b + total, n, c + q + 1, s + t - n);
    }
  }

  /** Adding total to a numerator raises the rounded-up quotient by total / n, or by one more if there is a rest. */
  lemma CeilDivStep(a: nat, total: nat, n: nat)
    requires 0 < n
    ensures 0 <= CeilDiv(a + total, n) - CeilDiv(a, n) - total / n <= if total % n == 0 then 0 else 1
  {
    hide Mul;
    var b := a + n - 1;
    DivMod(b, n);
    DivMod(total, n);
    Carry(b, total, n, b / n, b % n, total / n, total % n);
    assert a + total + n - 1 == b + total;
  }

  lemma ExtraBound(v: nat, n: nat)
    requires 0 < n
    ensures 0 <= Extra(v, n) <= if TWO32 % n == 0 then 0 else 1
  {
    MulAdd(v, 1, TWO32);
    hide Mul, CeilDiv;
    CeilDivStep(Mul(v, TWO32), TWO32, n);
  }

  lemma StartBound(v: nat, n: nat)
    requires v < n
    ensures Start(v + 1, n) <= TWO32
  {
    MulMonotone(v + 1, n, TWO32);
    MulCommutes(n, TWO32);
    hide Mul, CeilDiv;
    CeilDivBound(Mul(v + 1, TWO32), n, TWO32);
  }

  lemma MulCommutes(x: int, n: int)
    ensures Mul(x, n) == Mul(n, x)
  {
  }

  /** The draws for the v-th value are those from its start to the start of the next. */
  lemma DrawnBetween(min: int, max: int, v: nat, draw: int)
    requires 0 <= min < max < TWO32 && max - min + 1 < TWO32 && v <= max - min
    ensures draw in DrawsFor(min, max, min + v) <==> Between(Start(v, max - min + 1), draw, Start(v + 1, max - min + 1))
  {
    var n := max - min + 1;
    StartBound(v, n);
    if 0 <= draw < TWO32 {
      ReduceInRange(draw, min, max);
      ScaleIs(draw, n, v);
      hide Mul, CeilDiv;
      CeilDivBound(Mul(v, TWO32), n, draw);
      CeilDivBound(Mul(v + 1, TWO32), n, draw);
    }
  }

  lemma ScaleIs(draw: nat, n: nat, v: nat)
    ensures Scale(draw, n) == v <==> Mul(v, TWO32) <= Mul(draw, n) < Mul(v + 1, TWO32)
  {
    QuotientIs(Mul(draw, n), v);
  }

  /** How many draws a value has: its share, rounded down or up. */
  lemma DrawCount(min: int, max: int, v: nat)
    requires 0 <= min < max < TWO32 && max - min + 1 < TWO32 && v <= max - min
    ensures |DrawsFor(min, max, min + v)| == TWO32 / (max - min + 1) + Extra(v, max - min + 1)
  {
    hide DrawsFor, Start;
    var n := max - min + 1;
    var draws, lo, hi := DrawsFor(min, max, min + v), Start(v, n), Start(v + 1, n);
    forall draw: int
      ensures draw in draws <==> Between(lo, draw, hi)
    {
      DrawnBetween(min, max, v, draw);
    }
    ExtraBound(v, n);
    ShareIsPositive(n);
    IntervalSize(draws, lo, hi);
  }

  lemma ShareIsPositive(n: nat)
    requires 0 < n <= TWO32
    ensures TWO32 / n >= 1
  {
    hide Mul;
    DivMod(TWO32, n);
    if TWO32 / n < 1 {
      MulAdd(0, 0, n);
    }
  }

  /**
   * "Slightly inaccurate if (max-min+1) is not a power of 2", made exact: each value is hit by
   * floor(2^32/n) or ceil(2^32/n) of the 2^32 draws.
   */
  lemma {:induction false} RangeBias(min: int, max: int, value: int)
    requires 0 <= min < max < TWO32 && max - min + 1 < TWO32 && min <= value <= max
    ensures var n := max - min + 1;
            |DrawsFor(min, max, value)| == TWO32 / n || |DrawsFor(min, max, value)| == CeilDiv(TWO32, n)
  {
    hide DrawsFor, Extra, CeilDiv;
    var n := max - min + 1;
    DrawCount(min, max, value - min);
    ExtraBound(value - min, n);
    CeilDivIs(TWO32, n);
  }

  /** The value gets one draw more than 2^32 / n. */
  ghost predicate IsFavoured(min: int, max: int, value: int)
    requires min <= max
  {
    |DrawsFor(min, max, value)| == TWO32 / (max - min + 1) + 1
  }

  /** Those among the first k values of the range. */
  ghost function Favoured(min: int, max: int, k: nat): set<int>
    requires min <= max
  {
    set value | min <= value < min + k && IsFavoured(min, max, value)
  }

  lemma {:induction false} FavouredCount(min: int, max: int, k: nat)
    requires 0 <= min < max < TWO32 && max - min + 1 < TWO32 && k <= max - min + 1
    ensures var n := max - min + 1; Start(k, n) == Mul(k, TWO32 / n) + |Favoured(min, max, k)|
  {
    hide DrawsFor, Start, Mul;
    var n := max - min + 1;
    if k == 0 {
      StartsAtZero(n);
      assert Favoured(min, max, 0) == {};
    } else {
      var before, last := Favoured(min, max, k - 1), min + k - 1;
      FavouredCount(min, max, k - 1);
      DrawCount(min, max, k - 1);
      ExtraBound(k - 1, n);
      MulAdd(k - 1, 1, TWO32 / n);
      assert last !in before;
      assert IsFavoured(min, max, last) <==> Extra(k - 1, n) == 1;
      hide IsFavoured, Extra;
      assert Favoured(min, max, k) == if Extra(k - 1, n) == 1 then before + {last} else before;
    }
  }

  lemma StartsAtZero(n: nat)
    requires n > 0
    ensures Start(0, n) == 0 && Mul(0, TWO32 / n) == 0
  {
  }

  /** Exactly 2^32 mod n of the values get the larger count. */
  lemma FavouredValues(min: int, max: int)
    requires 0 <= min < max < TWO32 && max - min + 1 < TWO32
    ensures |Favoured(min, max, max - min + 1)| == TWO32 % (max - min + 1)
  {
    hide Favoured, Mul, CeilDiv;
    var n := max - min + 1;
    FavouredCount(min, max, n);
    MulCommutes(n, TWO32);
    CeilDivBound(Mul(n, TWO32), n, TWO32);
    CeilDivBound(Mul(n, TWO32), n, TWO32 - 1);
    MulAdd(TWO32 - 1, 1, n);
    MulCommutes(n, TWO32 / n);
    DivMod(TWO32, n);
  }

  lemma EveryValueDrawn(min: int, max: int, value: int)
    requires 0 <= min < max < TWO32 && max - min + 1 < TWO32 && min <= value <= max
    ensures DrawsFor(min, max, value) != {}
  {
    hide DrawsFor, Extra;
    DrawCount(min, max, value - min);
    ExtraBound(value - min, max - min + 1);
    ShareIsPositive(max - min + 1);
  }

  /** The 32-bit interval wraps to 0 for the full range, and only then are values unreachable. */
  lemma {:induction false} FullRangeCollapses(min: int, max: int)
    requires 0 <= min < max < TWO32
    ensures (forall value | min <= value <= max :: DrawsFor(min, max, value) != {}) <==> max - min + 1 < TWO32
  {
    if max - min + 1 < TWO32 {
      forall value | min <= value <= max
        ensures DrawsFor(min, max, value) != {}
      {
        EveryValueDrawn(min, max, value);
      }
    } else {
      assert forall draw: int :: Reduce(draw, min, max) == 0;
      assert DrawsFor(min, max, max) == {};
    }
  }

  // ---------------------------------------------------------------- the configured settings

  /** The configured sizes are large enough for the refill to lose no state. */
  lemma ConfiguredStatesNeverMerge(o: seq<Word>, o': seq<Word>, refills: nat)
    requires |o| == SFMT_N && |o'| == SFMT_N
    requires Window(o, SFMT_M, SFMT_MASK, refills * SFMT_N) == Window(o', SFMT_M, SFMT_MASK, refills * SFMT_N)
    ensures o == o'
  {
    hide Window;
    StatesNeverMerge(o, o', SFMT_M, SFMT_MASK, refills);
  }

  /** The generator the code builds: the configured settings, and the time as the seed. */
  method Configured(seed: bv32) returns (g: SFMTRand)
    ensures fresh(g) && g.Valid() && g.n == SFMT_N && g.m == SFMT_M
    ensures g.maskinit == SFMT_MASK && g.parityvec == SFMT_PARITY
    ensures exists raw :: IsSeeded(raw, seed) && g.StartsFrom(raw)
  {
    g := new SFMTRand(seed, SFMT_N, SFMT_M, SFMT_MASK, SFMT_PARITY);
  }

  // ---------------------------------------------------------------- the generator object

  class SFMTRand {
    // SFMT_N, SFMT_M, SFMT_MASK and SFMT_PARITY
    const n: nat
    const m: nat
    const maskinit: Word
    const parityvec: Word

    var mask: Word
    const state: array<Word>
    var ix: nat
    // the certified state the run started from, the position of state[0] in its recurrence,
    // and the number of BRandom calls since
    ghost var origin: seq<Word>
    ghost var base: nat
    ghost var drawn: nat

    ghost predicate Configured() {
      1 <= m < n && parityvec != Word(0, 0, 0, 0) && state.Length == n
    }

    ghost predicate Filled()
      reads this, state
    {
      && Configured() && |origin| == n
      && state[..] == Window(origin, m, mask, base)
    }

    ghost predicate Valid()
      reads this, state
    {
      Filled() && n <= base && ix <= 4 * n && drawn == 4 * (base - n) + ix
    }

    /** The run starts from raw, except for at most one bit of word 0 that makes it certified. */
    ghost predicate StartsFrom(raw: seq<Word>)
      reads this
    {
      && drawn == 0 && |raw| == |origin| == n && n > 0
      && mask == maskinit
      && Certified(parityvec, origin[0])
      && (if Certified(parityvec, raw[0]) then origin == raw
          else OneBitApart(parityvec, raw[0], origin[0]) && origin == raw[0 := origin[0]])
    }

    constructor (seed: bv32, n: nat, m: nat, maskinit: Word, parityvec: Word)
      requires 1 <= m < n && parityvec != Word(0, 0, 0, 0)
      ensures Valid() && fresh(state)
      ensures this.n == n && this.m == m && this.maskinit == maskinit && this.parityvec == parityvec
      ensures exists raw :: IsSeeded(raw, seed) && StartsFrom(raw)
    {
      this.n, this.m, this.maskinit, this.parityvec := n, m, maskinit, parityvec;
      mask := maskinit;
      state := new Word[n](_ => Word(0, 0, 0, 0));
      ix, origin, base, drawn := 0, [], 0, 0;
      new;
      RandomInit(seed);
    }

    method RandomInit(seed: bv32)
      requires Configured()
      modifies this, state
      ensures Valid()
      ensures exists raw :: IsSeeded(raw, seed) && StartsFrom(raw)
    {
      hide NextSeed, SeededUpTo, SetLane, StartsFrom;
      var y := seed;
      assert SeededUpTo(state[..], seed, 0) by {
        NothingSeeded(state[..], seed);
      }
      SeedOneMore(state[..], seed, 0);
      state[0] := SetLane(state[0], 0, y);
      var i := 1;
      while i < 4 * n
        invariant 1 <= i <= 4 * n
        invariant y == SeedLane(seed, i - 1)
        invariant SeededUpTo(state[..], seed, i)
      {
        SeedOneMore(state[..], seed, i);
        y := NextSeed(y, i);
        state[i / 4] := SetLane(state[i / 4], i % 4, y);
        i := i + 1;
      }
      ghost var raw := state[..];
      assert IsSeeded(raw, seed);
      Init2();
    }

    method Init2()
      requires Configured()
      modifies this, state
      ensures Valid() && StartsFrom(old(state[..]))
    {
      hide Fold, X, And, Recursion, Certified, OneBitApart, W;
      mask := maskinit;
      var temp: bv32 := 0;
      var i := 0;
      while i < 4
        invariant 0 <= i <= 4
        invariant i == 0 ==> temp == 0
        invariant i == 1 ==> temp == X(0, And(parityvec.x0, state[0].x0))
        invariant i == 2 ==> temp == X(X(0, And(parityvec.x0, state[0].x0)), And(parityvec.x1, state[0].x1))
        invariant i == 3 ==>
          temp == X(X(X(0, And(parityvec.x0, state[0].x0)), And(parityvec.x1, state[0].x1)), And(parityvec.x2, state[0].x2))
        invariant i == 4 ==> temp == Check(parityvec, state[0])
      {
        temp := X(temp, And(Lane(parityvec, i), Lane(state[0], i)));
        i := i + 1;
      }
      CertifiedIs(parityvec, state[0]);
      if !(Fold(temp) & 1 == 1) {
        FlipOneBit();
      }
      origin, base := state[..], 0;
      WindowStart(origin, m, mask);
      drawn := 0;
      Generate();
    }

    /** Init2's search for a bit of the parity vector, and the flip of that bit in word 0. */
    method FlipOneBit()
      requires Configured() && !Certified(parityvec, state[0])
      modifies state
      ensures Certified(parityvec, state[0]) && OneBitApart(parityvec, old(state[0]), state[0])
      ensures state[..] == old(state[..])[0 := state[0]]
    {
      hide Certified, IsBit, X, And, ClearBelow, OneBitApart, SetLane;
      SomeLaneSet(parityvec);
      var i := 0;
      while i < 4
        invariant 0 <= i
        invariant i <= 4 ==> state[..] == old(state[..]) && forall k | 0 <= k < i :: Lane(parityvec, k) == 0
        invariant 4 < i ==> Certified(parityvec, state[0]) && OneBitApart(parityvec, old(state[0]), state[0])
        invariant state[..] == old(state[..])[0 := state[0]]
      {
        if Lane(parityvec, i) != 0 {
          var j: bv32 := 1;
          FirstBit(Lane(parityvec, i));
          while j != 0
            invariant i < 4 && Lane(parityvec, i) != 0
            invariant IsBit(j) && ClearBelow(Lane(parityvec, i), j)
            invariant state[..] == old(state[..])
            decreases 0xffff_ffff - j
          {
            if And(Lane(parityvec, i), j) != 0 {
              FlipCertifies(parityvec, state[0], i, j);
              FlippedIsApart(parityvec, state[0], i, j);
              state[0] := SetLane(state[0], i, X(Lane(state[0], i), j));
              i := 5;
              break;
            }
            NextBit(Lane(parityvec, i), j);
            j := j << 1;
          }
        }
        i := i + 1;
      }
    }

    /** The in-place refill: N more words of the recurrence replace the previous N. */
    method Generate()
      requires Filled()
      modifies state, this`ix, this`base
      ensures Filled() && base == old(base) + n && ix == 0
    {
      hide Recursion, W, Window, Progress;
      var i := 0;
      var r1, r2 := state[n - 2], state[n - 1];
      ProgressEnds(state[..], origin, m, mask, base, r1, r2);
      while i < n - m
        invariant 0 <= i <= n - m
        invariant Progress(state[..], origin, m, mask, base, i, r1, r2)
        modifies state
      {
        var r := Recursion(state[i], state[i + m], r1, r2, mask);
        ProgressStep(state[..], origin, m, mask, base, i, i + m, r1, r2);
        state[i] := r;
        r1, r2 := r2, r;
        i := i + 1;
      }
      while i < n
        invariant n - m <= i <= n
        invariant Progress(state[..], origin, m, mask, base, i, r1, r2)
        modifies state
      {
        var r := Recursion(state[i], state[i + m - n], r1, r2, mask);
        ProgressStep(state[..], origin, m, mask, base, i, i + m - n, r1, r2);
        state[i] := r;
        r1, r2 := r2, r;
        i := i + 1;
      }
      ProgressEnds(state[..], origin, m, mask, base, r1, r2);
      ix := 0;
      base := base + n;
    }

    /** The k-th draw is lane k mod 4 of W[N + k/4], across all refills. */
    method BRandom() returns (y: bv32)
      requires Valid()
      modifies state, this`ix, this`base, this`drawn
      ensures Valid() && drawn == old(drawn) + 1
      ensures y == Lane(W(origin, m, mask, n + old(drawn) / 4), old(drawn) % 4)
    {
      hide Recursion;
      if ix >= 4 * n {
        Generate();
      }
      y := Lane(state[ix / 4], ix % 4);
      assert state[ix / 4] == Window(origin, m, mask, base)[ix / 4];
      assert base + ix / 4 == n + drawn / 4;
      ix := ix + 1;
      drawn := drawn + 1;
    }

    method URandom(min: int, max: int) returns (r: int)
      requires Valid() && 0 <= min < TWO32 && 0 <= max < TWO32
      modifies state, this`ix, this`base, this`drawn
      ensures Valid()
      ensures drawn == if min < max then old(drawn) + 1 else old(drawn)
      ensures r == Reduce(Lane(W(origin, m, mask, n + old(drawn) / 4), old(drawn) % 4) as int, min, max)
      ensures min <= max ==> min <= r <= max
      ensures max < min ==> r == 0
    {
      if max <= min {
        if max == min {
          return min;
        } else {
          return 0;
        }
      }
      var interval := (max - min + 1) % TWO32;
      var draw := BRandom();
      var longran := (draw as int) * interval;
      var iran := longran / TWO32;
      r := (iran + min) % TWO32;
      ReduceInRange(draw as int, min, max);
    }
  }
}
