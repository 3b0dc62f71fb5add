/** Serialised values as ByteBuffer lays them out, and reading them back by type. */
module Serial {
  import opened Bytes

  type Width = w: nat | w == 1 || w == 2 || w == 4 || w == 8 witness 1

  type UInt64 = n: nat | n < 0x1_0000_0000_0000_0000

  datatype Value =
    | UInt(width: Width, number: nat)
    | SInt(width: Width, signed: int)
    | Text(chars: seq<Byte>)
    | Guid(guid: UInt64)
    | Vec(items: seq<Value>)

  /** The type a value is read back as. */
  datatype Shape = UIntShape(width: Width) | SIntShape(width: Width) | TextShape | GuidShape | VecShape(element: Shape)

  /** Values of a type: integers in range, NUL-free text, vectors with a 32-bit count. */
  ghost predicate Fits(v: Value, shape: Shape)
    decreases shape
  {
    match shape
    case UIntShape(w) => v.UInt? && v.width == w && v.number < Pow256(w)
    case SIntShape(w) => v.SInt? && v.width == w && 0 - Pow256(w) <= 2 * v.signed < Pow256(w)
    case TextShape => v.Text? && 0 !in v.chars
    case GuidShape => v.Guid?
    case VecShape(e) => v.Vec? && |v.items| < Pow256(4) && forall i :: 0 <= i < |v.items| ==> Fits(v.items[i], e)
  }

  // ---------------------------------------------------------------- writing

  function Pow2(n: nat): (r: nat)
    ensures r > 0
  {
    if n == 0 then 1 else 2 * Pow2(n - 1)
  }

  /** One bit per byte, set where the byte is not zero. */
  function MaskOf(s: seq<Byte>): (r: nat)
    ensures r < Pow2(|s|)
  {
    if s == [] then 0 else (if s[0] != 0 then 1 else 0) + 2 * MaskOf(s[1..])
  }

  function NonZero(s: seq<Byte>): seq<Byte> {
    if s == [] then [] else if s[0] != 0 then [s[0]] + NonZero(s[1..]) else NonZero(s[1..])
  }

  function PackedGuid(guid: nat): seq<Byte> {
    assert Pow2(8) == 256 by { assert Pow2(4) == 16; }
    [MaskOf(ToLE(guid, 8))] + NonZero(ToLE(guid, 8))
  }

  function Encode(v: Value): seq<Byte>
    decreases v
  {
    match v
    case UInt(w, n) => ToLE(n, w)
    case SInt(w, n) => ToLE(n % Pow256(w), w)
    case Text(chars) => chars + [0]
    case Guid(g) => PackedGuid(g)
    case Vec(items) => ToLE(|items|, 4) + EncodeAll(items)
  }

  function EncodeAll(vs: seq<Value>): seq<Byte>
    decreases vs
  {
    if vs == [] then [] else Encode(vs[0]) + EncodeAll(vs[1..])
  }

  // ---------------------------------------------------------------- reading

  /** Every failed read is a position beyond the end of the buffer. */
  datatype Read<+T> = Got(value: T, next: nat) | PositionError

  predicate BitSet(mask: nat, i: nat) {
    if i == 0 then mask % 2 == 1 else BitSet(mask / 2, i - 1)
  }

  /** Bytes i to 7 of a packed GUID: read where the mask has a bit, zero elsewhere. */
  function Unpack(mask: nat, i: nat, s: seq<Byte>, pos: nat): (r: Read<seq<Byte>>)
    requires i <= 8
    ensures r.Got? ==> |r.value| == 8 - i
    decreases 8 - i
  {
    if i == 8 then Got([], pos)
    else if BitSet(mask, i) then
      if pos + 1 > |s| then PositionError
      else
        var rest := Unpack(mask, i + 1, s, pos + 1);
        if rest.Got? then Got([s[pos]] + rest.value, rest.next) else PositionError
    else
      var rest := Unpack(mask, i + 1, s, pos);
      if rest.Got? then Got([0] + rest.value, rest.next) else PositionError
  }

  /** Text ends after a NUL or at the end of the buffer. */
  function DecodeText(s: seq<Byte>, pos: nat): (r: Read<seq<Byte>>)
    ensures r.Got?
    decreases |s| - pos
  {
    if pos >= |s| then Got([], pos)
    else if s[pos] == 0 then Got([], pos + 1)
    else
      var rest := DecodeText(s, pos + 1);
      Got([s[pos]] + rest.value, rest.next)
  }

  lemma EightBytes()
    ensures Pow256(8) == 0x1_0000_0000_0000_0000
  {
    assert Pow256(2) == 65536;
    assert Pow256(4) == 0x1_0000_0000;
    assert Pow256(6) == 0x1_0000_0000_0000;
  }

  function UInt64Of(s: seq<Byte>): UInt64
    requires |s| == 8
  {
    EightBytes();
    FromLEBound(s);
    FromLE(s)
  }

  function Signed(n: nat, w: nat): int {
    if 2 * n < Pow256(w) then n else n - Pow256(w)
  }

  function Decode(shape: Shape, s: seq<Byte>, pos: nat): Read<Value>
    decreases shape, 0
  {
    match shape
    case UIntShape(w) =>
      if pos + w > |s| then PositionError else Got(UInt(w, FromLE(s[pos..pos + w])), pos + w)
    case SIntShape(w) =>
      if pos + w > |s| then PositionError else Got(SInt(w, Signed(FromLE(s[pos..pos + w]), w)), pos + w)
    case TextShape =>
      var t := DecodeText(s, pos);
      Got(Text(t.value), t.next)
    case GuidShape =>
      if pos + 1 > |s| then PositionError
      else
        var g := Unpack(s[pos], 0, s, pos + 1);
        if g.Got? then Got(Guid(UInt64Of(g.value)), g.next) else PositionError
    case VecShape(e) =>
      if pos + 4 > |s| then PositionError
      else
        var items := DecodeItems(e, FromLE(s[pos..pos + 4]), s, pos + 4);
        if items.Got? then Got(Vec(items.value), items.next) else PositionError
  }

  function DecodeItems(e: Shape, count: nat, s: seq<Byte>, pos: nat): Read<seq<Value>>
    decreases e, 1, count
  {
    if count == 0 then Got([], pos)
    else
      var first := Decode(e, s, pos);
      if first.PositionError? then PositionError
      else
        var rest := DecodeItems(e, count - 1, s, first.next);
        if rest.Got? then Got([first.value] + rest.value, rest.next) else PositionError
  }

  /** One value after the other, each read as its type. */
  function DecodeEach(shapes: seq<Shape>, s: seq<Byte>, pos: nat): Read<seq<Value>>
    decreases |shapes|
  {
    if shapes == [] then Got([], pos)
    else
      var first := Decode(shapes[0], s, pos);
      if first.PositionError? then PositionError
      else
        var rest := DecodeEach(shapes[1..], s, first.next);
        if rest.Got? then Got([first.value] + rest.value, rest.next) else PositionError
  }

  // ---------------------------------------------------------------- bytes of single values

  /** A signed number is written like the unsigned one it is congruent to: in two's complement. */
  lemma SignedBytes(w: Width, n: int)
    requires 0 - Pow256(w) <= 2 * n < Pow256(w)
    ensures Encode(SInt(w, n)) == Encode(UInt(w, if n < 0 then Pow256(w) + n else n))
  {
    SignedReadsBack(n, Pow256(w));
  }

  /** Text without a NUL up to the end of the buffer is read to the end. */
  lemma {:induction false} TextToTheEnd(s: seq<Byte>, pos: nat)
    requires pos <= |s| && 0 !in s[pos..]
    ensures DecodeText(s, pos) == Got(s[pos..], |s|)
    decreases |s| - pos
  {
    if pos < |s| {
      assert s[pos..] == [s[pos]] + s[pos + 1..] && s[pos] in s[pos..];
      TextToTheEnd(s, pos + 1);
    } else {
      assert s[pos..] == [];
    }
  }

  // ---------------------------------------------------------------- packed GUIDs

  /**
   * A packed GUID, byte by byte: bit i of the first byte says whether byte i of the GUID is not zero,
   * and then it follows behind the non-zero bytes below it.
   */
  lemma PackedLayout(guid: UInt64, i: nat)
    requires i < 8
    ensures var bytes, code := ToLE(guid, 8), PackedGuid(guid);
            && (BitSet(code[0], i) <==> bytes[i] != 0)
            && (bytes[i] != 0 ==> 1 + |NonZero(bytes[..i])| < |code| && code[1 + |NonZero(bytes[..i])|] == bytes[i])
  {
    hide MaskOf, BitSet, Pow2, ToLE;
    var bytes := ToLE(guid, 8);
    MaskBits(bytes, i);
    if bytes[i] != 0 {
      NonZeroAt(bytes, i);
    }
  }

  /** How many of the bits from the i-th to the seventh are set. */
  function BitsFrom(mask: nat, i: nat): nat
    requires i <= 8
    decreases 8 - i
  {
    if i == 8 then 0 else (if BitSet(mask, i) then 1 else 0) + BitsFrom(mask, i + 1)
  }

  lemma {:induction false} UnpackFailsIff(mask: nat, i: nat, s: seq<Byte>, pos: nat)
    requires i <= 8 && pos <= |s|
    ensures Unpack(mask, i, s, pos) == PositionError <==> pos + BitsFrom(mask, i) > |s|
    decreases 8 - i
  {
    hide BitSet, Unpack;
    if i < 8 {
      UnpackFailsNext(mask, i, s, pos);
      if !BitSet(mask, i) {
        UnpackFailsIff(mask, i + 1, s, pos);
      } else if pos < |s| {
        UnpackFailsIff(mask, i + 1, s, pos + 1);
      }
    } else {
      UnpackNothing(mask, s, pos);
    }
  }

  lemma UnpackFailsNext(mask: nat, i: nat, s: seq<Byte>, pos: nat)
    requires i < 8 && pos <= |s|
    ensures Unpack(mask, i, s, pos).PositionError? <==>
            if BitSet(mask, i) then pos == |s| || Unpack(mask, i + 1, s, pos + 1).PositionError?
            else Unpack(mask, i + 1, s, pos).PositionError?
  {
    hide BitSet;
  }

  lemma UnpackNothing(mask: nat, s: seq<Byte>, pos: nat)
    ensures Unpack(mask, 8, s, pos).Got?
  {
  }

  /** A read fails exactly if bytes are missing: of the number's width, or one for each bit of a packed GUID's mask. */
  lemma ReadFailsIff(shape: Shape, s: seq<Byte>, pos: nat)
    requires pos <= |s|
    ensures shape.UIntShape? || shape.SIntShape? ==> (Decode(shape, s, pos) == PositionError <==> |s| - pos < shape.width)
    ensures shape.TextShape? ==> Decode(shape, s, pos).Got?
    ensures shape.GuidShape? ==>
              (Decode(shape, s, pos) == PositionError <==> pos == |s| || |s| - pos < 1 + BitsFrom(s[pos], 0))
  {
    hide Unpack, BitsFrom, DecodeText, FromLE;
    if pos < |s| {
      UnpackFailsIff(s[pos], 0, s, pos + 1);
    }
  }

  lemma {:induction false} NonZeroAt(s: seq<Byte>, i: nat)
    requires i < |s| && s[i] != 0
    ensures |NonZero(s[..i])| < |NonZero(s)| && NonZero(s)[|NonZero(s[..i])|] == s[i]
  {
    if i > 0 {
      NonZeroAt(s[1..], i - 1);
      assert s[..i][0] == s[0] && s[..i][1..] == s[1..][..i - 1];
    }
  }

  lemma {:induction false} MaskBits(s: seq<Byte>, i: nat)
    requires i < |s|
    ensures BitSet(MaskOf(s), i) <==> s[i] != 0
  {
    HalfMask(MaskOf(s[1..]), s[0] != 0);
    if i > 0 {
      MaskBits(s[1..], i - 1);
    }
  }

  lemma HalfMask(rest: nat, low: bool)
    ensures var mask := (if low then 1 else 0) + 2 * rest; mask / 2 == rest && (mask % 2 == 1 <==> low)
  {
  }

  lemma {:induction false} NonZeroTail(s: seq<Byte>, i: nat)
    requires i < |s|
    ensures NonZero(s[i..]) == if s[i] != 0 then [s[i]] + NonZero(s[i + 1..]) else NonZero(s[i + 1..])
  {
    assert s[i..][1..] == s[i + 1..];
  }

  /** `code` stands in the buffer at `pos`. */
  ghost predicate StandsAt(s: seq<Byte>, pos: nat, code: seq<Byte>) {
    pos + |code| <= |s| && s[pos..pos + |code|] == code
  }

  lemma SplitAt(s: seq<Byte>, pos: nat, a: seq<Byte>, b: seq<Byte>)
    requires StandsAt(s, pos, a + b)
    ensures StandsAt(s, pos, a) && StandsAt(s, pos + |a|, b)
  {
    var both := s[pos..pos + |a + b|];
    assert s[pos..pos + |a|] == both[..|a|] == a;
    assert s[pos + |a|..pos + |a| + |b|] == both[|a|..] == b;
  }

  /** Unpacking the mask and the non-zero bytes restores the eight bytes. */
  lemma {:induction false} UnpackPacked(bytes: seq<Byte>, i: nat, s: seq<Byte>, pos: nat)
    requires |bytes| == 8 && i <= 8
    requires StandsAt(s, pos, NonZero(bytes[i..]))
    ensures Unpack(MaskOf(bytes), i, s, pos) == Got(bytes[i..], pos + |NonZero(bytes[i..])|)
    decreases 8 - i
  {
    hide MaskOf, BitSet, Pow2;
    if i < 8 {
      MaskBits(bytes, i);
      NonZeroTail(bytes, i);
      hide NonZero;
      assert bytes[i..] == [bytes[i]] + bytes[i + 1..];
      if bytes[i] != 0 {
        SplitAt(s, pos, [bytes[i]], NonZero(bytes[i + 1..]));
        UnpackPacked(bytes, i + 1, s, pos + 1);
      } else {
        UnpackPacked(bytes, i + 1, s, pos);
      }
    }
  }

  function CountNonZero(s: seq<Byte>): nat {
    if s == [] then 0 else (if s[0] != 0 then 1 else 0) + CountNonZero(s[1..])
  }

  lemma {:induction false} NonZeroLength(s: seq<Byte>)
    ensures |NonZero(s)| == CountNonZero(s)
  {
    if s != [] {
      NonZeroLength(s[1..]);
    }
  }

  /** A packed GUID takes one byte and one more for each of its non-zero bytes. */
  lemma PackedGuidLength(guid: nat)
    ensures |PackedGuid(guid)| == 1 + CountNonZero(ToLE(guid, 8))
  {
    NonZeroLength(ToLE(guid, 8));
  }

  // ---------------------------------------------------------------- round trip

  lemma {:induction false} TextReadsBack(chars: seq<Byte>, s: seq<Byte>, pos: nat)
    requires 0 !in chars && StandsAt(s, pos, chars + [0])
    ensures DecodeText(s, pos) == Got(chars, pos + |chars| + 1)
    decreases |chars|
  {
    var code := chars + [0];
    assert code[0] == s[pos..pos + |code|][0] == s[pos];
    if chars == [] {
      assert s[pos] == 0;
    } else {
      assert s[pos] == chars[0] && chars[0] in chars;
      assert code == [chars[0]] + (chars[1..] + [0]) && chars == [chars[0]] + chars[1..];
      SplitAt(s, pos, [chars[0]], chars[1..] + [0]);
      TextReadsBack(chars[1..], s, pos + 1);
    }
  }

  lemma Multiples(p: nat, a: int, b: int)
    requires a < b
    ensures p * a + p <= p * b
  {
    assert p * b == p * a + p + p * (b - a - 1);
  }

  /** There is one way to write a number as a multiple of `p` and a remainder. */
  lemma RemainderIs(n: int, p: nat, q: int, r: nat)
    requires r < p && n == p * q + r
    ensures n % p == r
  {
    var d := n / p;
    assert n == p * d + n % p;
    if d < q {
      Multiples(p, d, q);
    } else if q < d {
      Multiples(p, q, d);
    }
  }

  lemma SignedReadsBack(n: int, p: nat)
    requires p > 0 && 0 - p <= 2 * n < p
    ensures n % p == if n < 0 then n + p else n
  {
    if n < 0 {
      RemainderIs(n, p, -1, n + p);
    } else {
      RemainderIs(n, p, 0, n);
    }
  }

  lemma {:induction false} IntReadsBack(n: nat, w: nat, s: seq<Byte>, pos: nat)
    requires n < Pow256(w) && StandsAt(s, pos, ToLE(n, w))
    ensures pos + w <= |s| && FromLE(s[pos..pos + w]) == n
  {
    FromToLE(n, w);
  }

  /** A value that fits its type reads back equal, wherever in the buffer it stands. */
  lemma {:induction false} ReadsBack(v: Value, shape: Shape, s: seq<Byte>, pos: nat)
    requires Fits(v, shape) && StandsAt(s, pos, Encode(v))
    ensures Decode(shape, s, pos) == Got(v, pos + |Encode(v)|)
    decreases shape, 0
  {
    hide StandsAt, ToLE, FromLE, DecodeText, NonZero, MaskOf, Unpack, Pow2;
    match shape
    case UIntShape(w) => IntReadsBack(v.number, w, s, pos);
    case SIntShape(w) =>
      SignedReadsBack(v.signed, Pow256(w));
      IntReadsBack(v.signed % Pow256(w), w, s, pos);
    case TextShape => TextReadsBack(v.chars, s, pos);
    case GuidShape => GuidReadsBack(v.guid, s, pos);
    case VecShape(e) =>
      var head := ToLE(|v.items|, 4);
      SplitAt(s, pos, head, EncodeAll(v.items));
      IntReadsBack(|v.items|, 4, s, pos);
      ItemsReadBack(v.items, e, s, pos + 4);
  }

  lemma GuidReadsBack(guid: UInt64, s: seq<Byte>, pos: nat)
    requires StandsAt(s, pos, PackedGuid(guid))
    ensures Decode(GuidShape, s, pos) == Got(Guid(guid), pos + |PackedGuid(guid)|)
  {
    hide MaskOf, NonZero, Pow256, Pow2, ToLE, FromLE, BitSet;
    var bytes := ToLE(guid, 8);
    var code := PackedGuid(guid);
    assert s[pos] == s[pos..pos + |code|][0] == MaskOf(bytes);
    SplitAt(s, pos, [code[0]], code[1..]);
    assert code[1..] == NonZero(bytes) && bytes[0..] == bytes;
    assert [code[0]] + code[1..] == code;
    UnpackPacked(bytes, 0, s, pos + 1);
    EightBytes();
    FromToLE(guid, 8);
  }

  lemma {:induction false} ItemsReadBack(vs: seq<Value>, e: Shape, s: seq<Byte>, pos: nat)
    requires forall i :: 0 <= i < |vs| ==> Fits(vs[i], e)
    requires StandsAt(s, pos, EncodeAll(vs))
    ensures DecodeItems(e, |vs|, s, pos) == Got(vs, pos + |EncodeAll(vs)|)
    decreases e, 1, |vs|
  {
    hide StandsAt, Decode, Encode, Fits;
    if vs != [] {
      SplitAt(s, pos, Encode(vs[0]), EncodeAll(vs[1..]));
      ReadsBack(vs[0], e, s, pos);
      ItemsReadBack(vs[1..], e, s, pos + |Encode(vs[0])|);
      assert [vs[0]] + vs[1..] == vs;
    }
  }

  /**
   * Any sequence of values written one after the other reads back equal and in order, and the
   * reading position ends where the writing one did.
   */
  lemma {:induction false} SequenceReadsBack(vs: seq<Value>, shapes: seq<Shape>, s: seq<Byte>, pos: nat)
    requires |vs| == |shapes| && forall i :: 0 <= i < |vs| ==> Fits(vs[i], shapes[i])
    requires StandsAt(s, pos, EncodeAll(vs))
    ensures DecodeEach(shapes, s, pos) == Got(vs, pos + |EncodeAll(vs)|)
    decreases |vs|
  {
    hide StandsAt, Decode, Encode, Fits;
    if vs != [] {
      SplitAt(s, pos, Encode(vs[0]), EncodeAll(vs[1..]));
      ReadsBack(vs[0], shapes[0], s, pos);
      SequenceReadsBack(vs[1..], shapes[1..], s, pos + |Encode(vs[0])|);
      assert [vs[0]] + vs[1..] == vs;
    }
  }

  /** Text reads back exactly when it holds no NUL. */
  lemma TextReadsBackIff(chars: seq<Byte>)
    ensures Decode(TextShape, Encode(Text(chars)), 0) == Got(Text(chars), |chars| + 1) <==> 0 !in chars
  {
    if 0 !in chars {
      assert (chars + [0])[0..0 + |chars| + 1] == chars + [0];
      TextReadsBack(chars, chars + [0], 0);
    } else {
      TextHasNoNul(chars + [0], 0);
    }
  }

  lemma {:induction false} TextHasNoNul(s: seq<Byte>, pos: nat)
    ensures 0 !in DecodeText(s, pos).value
    decreases |s| - pos
  {
    if pos < |s| && s[pos] != 0 {
      TextHasNoNul(s, pos + 1);
    }
  }
}
