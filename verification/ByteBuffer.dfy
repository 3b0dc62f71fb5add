/** The byte buffer: a read position, a write position and the storage they move over. */
module ByteBuffers {
  import opened Bytes
  import opened Serial

  const SIZE_LIMIT := 10000000

  /** An empty source is an exception; a buffer at the limit is a failed assertion. */
  datatype Outcome = Done | SourceError | TooLarge

  /** Storage after writing at `w`: extended with zeros if too short, overwritten otherwise. */
  function Written(s: seq<Byte>, w: nat, src: seq<Byte>): (r: seq<Byte>)
    ensures |r| == if |s| < w + |src| then w + |src| else |s|
  {
    var room := if |s| < w + |src| then s + seq(w + |src| - |s|, _ => 0) else s;
    room[..w] + src + room[w + |src|..]
  }

  /** Two writes in a row are one write of both. */
  lemma WrittenTwice(s: seq<Byte>, w: nat, a: seq<Byte>, b: seq<Byte>)
    requires a != [] || w <= |s|
    ensures Written(Written(s, w, a), w + |a|, b) == Written(s, w, a + b)
  {
    var one, both := Written(Written(s, w, a), w + |a|, b), Written(s, w, a + b);
    assert |one| == |both|;
    forall k | 0 <= k < |one| ensures one[k] == both[k] {
    }
  }

  /** A write changes the bytes it covers and no others; a gap before it is filled with zeros. */
  lemma WrittenBytes(s: seq<Byte>, w: nat, src: seq<Byte>, k: nat)
    requires k < |Written(s, w, src)|
    ensures Written(s, w, src)[k] == if w <= k < w + |src| then src[k - w] else if k < |s| then s[k] else 0
  {
  }

  lemma WrittenAtEnd(s: seq<Byte>, src: seq<Byte>)
    ensures Written(s, |s|, src) == s + src
  {
  }

  // ---------------------------------------------------------------- values that take several appends

  /** The size of a buffer once `k` bytes have been written at `w`. */
  function Reach(n: nat, w: nat, k: nat): nat {
    if k > 0 && n < w + k then w + k else n
  }

  /** How much of a value has been written when the last of its appends starts. */
  function LastStart(v: Value): nat
    decreases v
  {
    match v
    case Text(chars) => |chars|
    case Vec(items) => if items == [] then 0 else 4 + LastStarts(items)
    case _ => 0
  }

  function LastStarts(vs: seq<Value>): nat
    decreases vs
  {
    if vs == [] then 0 else |EncodeAll(vs[..|vs| - 1])| + LastStart(vs[|vs| - 1])
  }

  /**
   * Writing `code`, whose last append starts at `last`: it fails exactly if the buffer has grown to
   * the limit by then, and leaves it grown no further than all of `code` reaches.
   */
  ghost predicate Puts(s: seq<Byte>, w: nat, code: seq<Byte>, last: nat, t: seq<Byte>, v: nat, o: Outcome) {
    && o == (if Reach(|s|, w, last) < SIZE_LIMIT then Done else TooLarge)
    && (o.Done? ==> t == Written(s, w, code) && v == w + |code|)
    && (o.TooLarge? ==> SIZE_LIMIT <= |t| <= |Written(s, w, code)|)
  }

  lemma PutsThen(s: seq<Byte>, w: nat, a: seq<Byte>, b: seq<Byte>, last: nat, t: seq<Byte>, v: nat, o: Outcome)
    requires a != [] || w <= |s|
    requires Puts(Written(s, w, a), w + |a|, b, last, t, v, o)
    ensures Puts(s, w, a + b, |a| + last, t, v, o)
  {
    WrittenTwice(s, w, a, b);
  }

  lemma PutsStopped(s: seq<Byte>, w: nat, a: seq<Byte>, k: nat, all: seq<Byte>, last: nat, t: seq<Byte>, v: nat,
      o: Outcome)
    requires Puts(s, w, a, k, t, v, o) && !o.Done? && |a| <= |all| && k <= last
    ensures Puts(s, w, all, last, t, v, o)
  {
  }

  lemma {:induction false} LastStartBound(v: Value)
    ensures LastStart(v) <= |Encode(v)|
    decreases v
  {
    if v.Vec? && v.items != [] {
      var n := |v.items| - 1;
      LastStartBound(v.items[n]);
      EncodeAllAppend(v.items, n);
      assert v.items[..n + 1] == v.items;
    }
  }

  lemma LastStartsAppend(vs: seq<Value>, i: nat)
    requires i < |vs|
    ensures LastStarts(vs[..i + 1]) == |EncodeAll(vs[..i])| + LastStart(vs[i])
  {
    hide Encode, EncodeAll;
    assert vs[..i + 1][..i] == vs[..i];
  }

  lemma LastStartsPrefix(vs: seq<Value>, i: nat)
    requires i < |vs|
    ensures LastStarts(vs[..i + 1]) <= LastStarts(vs)
  {
    hide Encode, EncodeAll, LastStarts;
    var n := |vs| - 1;
    assert vs[..n + 1] == vs;
    if i < n {
      LastStartBound(vs[i]);
      EncodeAllAppend(vs, i);
      LastStartsAppend(vs, i);
      LastStartsAppend(vs, n);
      assert vs[..n][..i + 1] == vs[..i + 1];
      EncodeAllPrefix(vs[..n], i + 1);
    }
  }

  // ---------------------------------------------------------------- facts about the packing loops

  lemma {:induction false} PackOneMore(a: seq<Byte>, b: Byte)
    ensures MaskOf(a + [b]) == if b != 0 then MaskOf(a) + Pow2(|a|) else MaskOf(a)
    ensures NonZero(a + [b]) == if b != 0 then NonZero(a) + [b] else NonZero(a)
  {
    if a == [] {
      assert a + [b] == [b];
    } else {
      assert (a + [b])[0] == a[0] && (a + [b])[1..] == a[1..] + [b];
      PackOneMore(a[1..], b);
    }
  }

  lemma {:induction false} PackNoMore(a: seq<Byte>, n: nat)
    ensures MaskOf(a + ToLE(0, n)) == MaskOf(a) && NonZero(a + ToLE(0, n)) == NonZero(a)
  {
    if a == [] {
      NoneLeft(n);
      assert a + ToLE(0, n) == ToLE(0, n);
    } else {
      assert (a + ToLE(0, n))[0] == a[0] && (a + ToLE(0, n))[1..] == a[1..] + ToLE(0, n);
      PackNoMore(a[1..], n);
    }
  }

  lemma {:induction false} NoneLeft(n: nat)
    ensures MaskOf(ToLE(0, n)) == 0 && NonZero(ToLE(0, n)) == []
  {
    if n > 0 {
      NoneLeft(n - 1);
    }
  }

  /** A byte moved up by `i` byte positions. */
  function Shifted(b: Byte, i: nat): nat {
    Pow256(i) * b
  }

  lemma {:induction false} FromLEAppend(a: seq<Byte>, b: Byte)
    ensures FromLE(a + [b]) == FromLE(a) + Shifted(b, |a|)
  {
    if a == [] {
      assert a + [b] == [b];
    } else {
      assert (a + [b])[0] == a[0] && (a + [b])[1..] == a[1..] + [b];
      FromLEAppend(a[1..], b);
      Times256(Pow256(|a| - 1), b);
    }
  }

  lemma Times256(x: nat, y: nat)
    ensures 256 * (x * y) == (256 * x) * y
  {
  }

  /** Where the packing loop stands: the bytes `done` are packed, `guid` holds the others. */
  ghost predicate Packing(whole: nat, guid: nat, done: seq<Byte>, mask: nat, packed: seq<Byte>) {
    && |done| <= 8 && guid < Pow256(8 - |done|)
    && ToLE(whole, 8) == done + ToLE(guid, 8 - |done|)
    && mask == MaskOf(done) && packed == NonZero(done)
  }

  lemma PackingStarts(whole: UInt64)
    ensures Packing(whole, whole, [], 0, [])
  {
    EightBytes();
    assert [] + ToLE(whole, 8) == ToLE(whole, 8);
  }

  lemma LowByteFirst(v: nat, n: nat, low: Byte, rest: nat)
    requires v != 0 && v < Pow256(n) && v == 256 * rest + low
    ensures n > 0 && ToLE(v, n) == [low] + ToLE(rest, n - 1) && rest < Pow256(n - 1)
  {
    hide ToLE;
    Bytes.SplitByte(v, rest, low);
    Bytes.LowByteFirst(v, n);
  }

  lemma NextByte(whole: nat, guid: nat, low: Byte, rest: nat, done: seq<Byte>, mask: nat, packed: seq<Byte>)
    requires Packing(whole, guid, done, mask, packed) && guid != 0 && guid == 256 * rest + low
    ensures |done| < 8 && rest < Pow256(8 - |done + [low]|)
    ensures ToLE(whole, 8) == (done + [low]) + ToLE(rest, 8 - |done + [low]|)
  {
    hide ToLE, Pow256, Pow2, MaskOf, NonZero;
    var n := 8 - |done|;
    LowByteFirst(guid, n, low, rest);
    assert done + ([low] + ToLE(rest, n - 1)) == (done + [low]) + ToLE(rest, n - 1);
  }

  lemma PackingStep(whole: nat, guid: nat, low: Byte, rest: nat, done: seq<Byte>, mask: nat, packed: seq<Byte>)
    requires Packing(whole, guid, done, mask, packed) && guid != 0 && guid == 256 * rest + low
    ensures low != 0 ==> Packing(whole, rest, done + [low], mask + Pow2(|done|), packed + [low])
    ensures low == 0 ==> Packing(whole, rest, done + [low], mask, packed)
  {
    hide ToLE, Pow256, Pow2, MaskOf, NonZero, Packing;
    NextByte(whole, guid, low, rest, done, mask, packed);
    PackOneMore(done, low);
    PackedSoFar(whole, guid, done, mask, packed);
    var more := done + [low];
    assert |more| == |done| + 1;
    if low != 0 {
      PackingHolds(whole, rest, more, mask + Pow2(|done|), packed + [low]);
    } else {
      PackingHolds(whole, rest, more, mask, packed);
    }
  }

  lemma PackedSoFar(whole: nat, guid: nat, done: seq<Byte>, mask: nat, packed: seq<Byte>)
    requires Packing(whole, guid, done, mask, packed)
    ensures mask == MaskOf(done) && packed == NonZero(done)
  {
  }

  lemma PackingHolds(whole: nat, guid: nat, done: seq<Byte>, mask: nat, packed: seq<Byte>)
    requires |done| <= 8 && guid < Pow256(8 - |done|) && ToLE(whole, 8) == done + ToLE(guid, 8 - |done|)
    requires mask == MaskOf(done) && packed == NonZero(done)
    ensures Packing(whole, guid, done, mask, packed)
  {
  }

  lemma PackingEnds(whole: nat, done: seq<Byte>, mask: nat, packed: seq<Byte>)
    requires Packing(whole, 0, done, mask, packed)
    ensures mask < 256 && PackedGuid(whole) == [mask] + packed
  {
    hide ToLE, MaskOf, NonZero, Pow2, Pow256;
    PackNoMore(done, 8 - |done|);
    assert PackedGuid(whole)[0] == MaskOf(ToLE(whole, 8));
  }

  // ---------------------------------------------------------------- the object

  class ByteBuffer {
    var rpos: nat
    var wpos: nat
    var storage: seq<Byte>

    constructor ()
      ensures rpos == 0 && wpos == 0 && storage == []
    {
      rpos, wpos, storage := 0, 0, [];
    }

    method Clear()
      modifies this
      ensures rpos == 0 && wpos == 0 && storage == []
    {
      rpos, wpos, storage := 0, 0, [];
    }

    method Append(src: seq<Byte>) returns (o: Outcome)
      modifies this`wpos, this`storage
      ensures o == if src == [] then SourceError else if old(|storage|) >= SIZE_LIMIT then TooLarge else Done
      ensures if o.Done? then storage == Written(old(storage), old(wpos), src) && wpos == old(wpos) + |src|
              else storage == old(storage) && wpos == old(wpos)
    {
      if src == [] {
        return SourceError;
      }
      if |storage| >= SIZE_LIMIT {
        return TooLarge;
      }
      if |storage| < wpos + |src| {
        storage := storage + seq(wpos + |src| - |storage|, _ => 0);
      }
      storage := storage[..wpos] + src + storage[wpos + |src|..];
      wpos := wpos + |src|;
      return Done;
    }

    /** Writes a value at the write position, in one append or several. */
    method Put(v: Value) returns (o: Outcome)
      modifies this`wpos, this`storage
      ensures Puts(old(storage), old(wpos), Encode(v), LastStart(v), storage, wpos, o)
      decreases v
    {
      hide Written, Pow256, ToLE, PackedGuid, LastStarts;
      match v
      case UInt(w, n) => o := Append(ToLE(n, w));
      case SInt(w, n) => o := Append(ToLE(n % Pow256(w), w));
      case Text(chars) => o := PutText(chars);
      case Guid(g) => o := AppendPackGuid(g);
      case Vec(items) => o := PutVector(items);
    }

    method PutText(chars: seq<Byte>) returns (o: Outcome)
      modifies this`wpos, this`storage
      ensures Puts(old(storage), old(wpos), chars + [0], |chars|, storage, wpos, o)
    {
      hide Written;
      ghost var s, w := storage, wpos;
      assert chars == [] ==> chars + [0] == [0];
      if chars != [] {
        o := Append(chars);
        if !o.Done? {
          PutsStopped(s, w, chars, 0, chars + [0], |chars|, storage, wpos, o);
          return;
        }
      }
      o := Append([0]);
      if chars != [] {
        PutsThen(s, w, chars, [0], 0, storage, wpos, o);
      }
    }

    method PutVector(items: seq<Value>) returns (o: Outcome)
      modifies this`wpos, this`storage
      ensures Puts(old(storage), old(wpos), Encode(Vec(items)), LastStart(Vec(items)), storage, wpos, o)
      decreases items
    {
      hide Written, ToLE, Puts, EncodeAll, LastStarts, Reach;
      ghost var s, w := storage, wpos;
      var count := ToLE(|items|, 4);
      o := AppendSome(count);
      ghost var all := count + EncodeAll(items);
      if !o.Done? {
        PutsStopped(s, w, count, 0, all, LastStart(Vec(items)), storage, wpos, o);
        return;
      }
      NoneEncoded(items, count);
      var i := 0;
      while i < |items|
        invariant 0 <= i <= |items| && o.Done?
        invariant Puts(s, w, count + EncodeAll(items[..i]), if i == 0 then 0 else 4 + LastStarts(items[..i]), storage, wpos, o)
      {
        ghost var sofar, item := count + EncodeAll(items[..i]), Encode(items[i]);
        PutsDone(s, w, sofar, if i == 0 then 0 else 4 + LastStarts(items[..i]), storage, wpos);
        EncodeAllAppend(items, i);
        LastStartsAppend(items, i);
        assert sofar + item == count + EncodeAll(items[..i + 1]);
        o := Put(items[i]);
        PutsThen(s, w, sofar, item, LastStart(items[i]), storage, wpos, o);
        if !o.Done? {
          EncodeAllPrefix(items, i + 1);
          LastStartsPrefix(items, i);
          PutsStopped(s, w, sofar + item, 4 + LastStarts(items[..i + 1]), all, 4 + LastStarts(items), storage, wpos, o);
          return;
        }
        i := i + 1;
      }
      assert items[..i] == items;
    }

    method AppendSome(src: seq<Byte>) returns (o: Outcome)
      requires src != []
      modifies this`wpos, this`storage
      ensures Puts(old(storage), old(wpos), src, 0, storage, wpos, o)
    {
      hide Written;
      o := Append(src);
    }

    method AppendPackGuid(whole: UInt64) returns (o: Outcome)
      modifies this`wpos, this`storage
      ensures Puts(old(storage), old(wpos), PackedGuid(whole), 0, storage, wpos, o)
    {
      hide Packing, PackedGuid, Pow2, Puts;
      var guid: nat := whole;
      var mask: nat, packed: seq<Byte>, i := 0, [], 0;
      ghost var done: seq<Byte> := [];
      PackingStarts(whole);
      while guid != 0
        invariant Packing(whole, guid, done, mask, packed) && |done| == i
        invariant storage == old(storage) && wpos == old(wpos)
        decreases guid
      {
        PackingStep(whole, guid, guid % 256, guid / 256, done, mask, packed);
        done := done + [guid % 256];
        if guid % 256 != 0 {
          mask, packed := mask + Pow2(i), packed + [guid % 256];
        }
        guid, i := guid / 256, i + 1;
      }
      PackingEnds(whole, done, mask, packed);
      o := AppendSome([mask] + packed);
    }

    /** Reads a value of the given type at the read position. */
    method Get(shape: Shape) returns (r: Read<Value>)
      modifies this`rpos
      ensures r == Decode(shape, storage, old(rpos))
      ensures r.Got? ==> rpos == r.next
      decreases shape, 0
    {
      match shape
      case UIntShape(w) =>
        if rpos + w > |storage| {
          return PositionError;
        }
        rpos := rpos + w;
        return Got(UInt(w, FromLE(storage[rpos - w..rpos])), rpos);
      case SIntShape(w) =>
        if rpos + w > |storage| {
          return PositionError;
        }
        rpos := rpos + w;
        return Got(SInt(w, Signed(FromLE(storage[rpos - w..rpos]), w)), rpos);
      case TextShape =>
        var chars := ReadText();
        return Got(Text(chars), rpos);
      case GuidShape =>
        r := ReadPackGuid();
      case VecShape(e) =>
        r := GetVector(e);
    }

    method ReadText() returns (chars: seq<Byte>)
      modifies this`rpos
      ensures DecodeText(storage, old(rpos)) == Got(chars, rpos)
    {
      chars := [];
      assert forall all: seq<Byte> :: [] + all == all;
      while rpos < |storage|
        invariant var rest := DecodeText(storage, rpos);
                  DecodeText(storage, old(rpos)) == Got(chars + rest.value, rest.next)
        decreases |storage| - rpos
      {
        ghost var rest := DecodeText(storage, rpos);
        var c := storage[rpos];
        rpos := rpos + 1;
        if c == 0 {
          assert chars + rest.value == chars;
          return;
        }
        assert chars + rest.value == (chars + [c]) + DecodeText(storage, rpos).value;
        chars := chars + [c];
      }
      assert chars + [] == chars;
    }

    method ReadPackGuid() returns (r: Read<Value>)
      modifies this`rpos
      ensures r == Decode(GuidShape, storage, old(rpos))
      ensures r.Got? ==> rpos == r.next
    {
      hide Unpack;
      if rpos + 1 > |storage| {
        return PositionError;
      }
      rpos := rpos + 1;
      var g := ReadMasked(storage[rpos - 1]);
      return if g.Got? then Got(Guid(g.value), g.next) else PositionError;
    }

    /** The bytes named by the mask, put together lowest first. */
    method ReadMasked(mask: Byte) returns (r: Read<UInt64>)
      modifies this`rpos
      ensures var u := Unpack(mask, 0, storage, old(rpos));
              r == if u.Got? then Got(UInt64Of(u.value), u.next) else PositionError
      ensures r.Got? ==> rpos == r.next
    {
      hide BitSet, Pow256, FromLE, Shifted;
      var guid: nat, i := 0, 0;
      ghost var bytes: seq<Byte> := [];
      ghost var all := Unpack(mask, 0, storage, rpos);
      NoBytes();
      PrefixedByNothing(all);
      while i < 8
        invariant i <= 8 && |bytes| == i && guid == FromLE(bytes)
        invariant all == Prefixed(bytes, Unpack(mask, i, storage, rpos))
      {
        var byte: Byte := 0;
        ghost var pos := rpos;
        if BitSet(mask, i) {
          if rpos + 1 > |storage| {
            return PositionError;
          }
          byte := storage[rpos];
          rpos := rpos + 1;
          guid := guid + Shifted(byte, i);
        } else {
          ShiftedZero(i);
        }
        FromLEAppend(bytes, byte);
        UnpackOneMore(mask, i, storage, pos, bytes, byte, rpos);
        bytes, i := bytes + [byte], i + 1;
      }
      assert bytes + [] == bytes;
      EightBytes();
      FromLEBound(bytes);
      return Got(guid, rpos);
    }

    method GetVector(e: Shape) returns (r: Read<Value>)
      modifies this`rpos
      ensures r == Decode(VecShape(e), storage, old(rpos))
      ensures r.Got? ==> rpos == r.next
      decreases e, 2
    {
      hide DecodeItems, FromLE;
      if rpos + 4 > |storage| {
        return PositionError;
      }
      rpos := rpos + 4;
      var items := GetItems(e, FromLE(storage[rpos - 4..rpos]));
      return if items.Got? then Got(Vec(items.value), items.next) else PositionError;
    }

    method GetItems(e: Shape, count: nat) returns (r: Read<seq<Value>>)
      modifies this`rpos
      ensures r == DecodeItems(e, count, storage, old(rpos))
      ensures r.Got? ==> rpos == r.next
      decreases e, 1
    {
      hide Decode, Prefixed;
      var items: seq<Value>, left: nat := [], count;
      ghost var all := DecodeItems(e, count, storage, rpos);
      PrefixedByNothing(all);
      while left > 0
        invariant left <= count
        invariant all == Prefixed(items, DecodeItems(e, left, storage, rpos))
      {
        NextItem(e, left, storage, rpos, items);
        var item := Get(e);
        if item.PositionError? {
          return PositionError;
        }
        items, left := items + [item.value], left - 1;
      }
      NoItems(items, e, storage, rpos);
      return Got(items, rpos);
    }
  }

  /** Unpacking one byte more: `before` has been unpacked already. */
  lemma UnpackOneMore(mask: nat, i: nat, s: seq<Byte>, pos: nat, before: seq<Byte>, byte: Byte, next: nat)
    requires i < 8 && if BitSet(mask, i) then pos < |s| && byte == s[pos] && next == pos + 1 else byte == 0 && next == pos
    ensures Prefixed(before, Unpack(mask, i, s, pos)) == Prefixed(before + [byte], Unpack(mask, i + 1, s, next))
  {
    hide BitSet;
    var after := Unpack(mask, i + 1, s, next);
    if after.Got? {
      assert before + ([byte] + after.value) == (before + [byte]) + after.value;
    }
  }

  function Prefixed<T>(before: seq<T>, r: Read<seq<T>>): Read<seq<T>> {
    if r.Got? then Got(before + r.value, r.next) else PositionError
  }

  lemma NextItem(e: Shape, left: nat, s: seq<Byte>, pos: nat, items: seq<Value>)
    requires left > 0
    ensures var item, all := Decode(e, s, pos), Prefixed(items, DecodeItems(e, left, s, pos));
            all == if item.Got? then Prefixed(items + [item.value], DecodeItems(e, left - 1, s, item.next)) else PositionError
  {
    hide Decode;
    var item := Decode(e, s, pos);
    if item.Got? {
      var rest := DecodeItems(e, left - 1, s, item.next);
      assert rest.Got? ==> items + ([item.value] + rest.value) == (items + [item.value]) + rest.value;
    }
  }

  lemma NoItems(items: seq<Value>, e: Shape, s: seq<Byte>, pos: nat)
    ensures Prefixed(items, DecodeItems(e, 0, s, pos)) == Got(items, pos)
  {
    assert items + [] == items;
  }

  lemma PrefixedByNothing<T>(r: Read<seq<T>>)
    ensures Prefixed([], r) == r
  {
    assert r.Got? ==> [] + r.value == r.value;
  }

  lemma ShiftedZero(i: nat)
    ensures Shifted(0, i) == 0
  {
  }

  lemma NoBytes()
    ensures FromLE([]) == 0
  {
  }

  lemma {:induction false} EncodeAllSplit(a: seq<Value>, b: seq<Value>)
    ensures EncodeAll(a + b) == EncodeAll(a) + EncodeAll(b)
  {
    hide Encode;
    if a == [] {
      assert a + b == b;
    } else {
      assert (a + b)[0] == a[0] && (a + b)[1..] == a[1..] + b;
      EncodeAllSplit(a[1..], b);
    }
  }

  lemma EncodeAllAppend(vs: seq<Value>, i: nat)
    requires i < |vs|
    ensures EncodeAll(vs[..i + 1]) == EncodeAll(vs[..i]) + Encode(vs[i])
  {
    hide Encode;
    assert vs[..i + 1] == vs[..i] + [vs[i]];
    EncodeAllSplit(vs[..i], [vs[i]]);
    assert EncodeAll([vs[i]]) == Encode(vs[i]) + EncodeAll([]);
  }

  lemma EncodeAllPrefix(vs: seq<Value>, i: nat)
    requires i <= |vs|
    ensures |EncodeAll(vs[..i])| <= |EncodeAll(vs)|
  {
    assert vs == vs[..i] + vs[i..];
    EncodeAllSplit(vs[..i], vs[i..]);
  }

  lemma PutsDone(s: seq<Byte>, w: nat, code: seq<Byte>, last: nat, t: seq<Byte>, v: nat)
    requires Puts(s, w, code, last, t, v, Done)
    ensures t == Written(s, w, code) && v == w + |code|
  {
  }

  lemma NoneEncoded(items: seq<Value>, count: seq<Byte>)
    ensures count + EncodeAll(items[..0]) == count
  {
  }

  lemma PutsNothing()
    ensures Puts([], 0, EncodeAll([]), LastStarts([]), [], 0, Done)
  {
  }

  lemma PutsToEmpty(code: seq<Byte>, last: nat, t: seq<Byte>, v: nat, o: Outcome)
    requires Puts([], 0, code, last, t, v, o)
    ensures o == if last < SIZE_LIMIT then Done else TooLarge
    ensures o.Done? ==> t == code && v == |code|
  {
  }

  /**
   * A fresh buffer: values that fit their types are all written exactly if the last append of the
   * last one starts below the size limit. They then read back equal and in order, and the read
   * position meets the write position.
   */
  method WriteThenRead(vs: seq<Value>, shapes: seq<Shape>) returns (b: ByteBuffer, o: Outcome, read: seq<Value>)
    requires |vs| == |shapes| && forall i :: 0 <= i < |vs| ==> Fits(vs[i], shapes[i])
    ensures fresh(b) && o == if LastStarts(vs) < SIZE_LIMIT then Done else TooLarge
    ensures o.Done? ==> read == vs && b.rpos == b.wpos == |b.storage| && b.storage == EncodeAll(vs)
  {
    hide Encode, Fits, Decode, Puts, LastStarts, EncodeAll, Written;
    b := new ByteBuffer();
    read := [];
    o := Done;
    assert vs[..0] == [];
    PutsNothing();
    var i := 0;
    while i < |vs|
      invariant 0 <= i <= |vs| && b.rpos == 0 && o.Done?
      invariant Puts([], 0, EncodeAll(vs[..i]), LastStarts(vs[..i]), b.storage, b.wpos, o)
      modifies b
    {
      ghost var sofar := EncodeAll(vs[..i]);
      PutsDone([], 0, sofar, LastStarts(vs[..i]), b.storage, b.wpos);
      EncodeAllAppend(vs, i);
      LastStartsAppend(vs, i);
      o := b.Put(vs[i]);
      PutsThen([], 0, sofar, Encode(vs[i]), LastStart(vs[i]), b.storage, b.wpos, o);
      if !o.Done? {
        PutsToEmpty(EncodeAll(vs[..i + 1]), LastStarts(vs[..i + 1]), b.storage, b.wpos, o);
        LastStartsPrefix(vs, i);
        return;
      }
      i := i + 1;
    }
    PutsToEmpty(EncodeAll(vs[..i]), LastStarts(vs[..i]), b.storage, b.wpos, o);
    assert vs[..i] == vs;
    read := ReadEach(b, vs, shapes);
  }

  /** Reads values of the given types one by one. */
  method ReadEach(b: ByteBuffer, ghost vs: seq<Value>, shapes: seq<Shape>) returns (read: seq<Value>)
    requires |vs| == |shapes| && forall i :: 0 <= i < |vs| ==> Fits(vs[i], shapes[i])
    requires b.rpos == 0 && b.storage == EncodeAll(vs)
    modifies b`rpos
    ensures read == vs && b.rpos == |b.storage|
  {
    hide Encode, Fits, Decode;
    SequenceReadsBack(vs, shapes, b.storage, 0);
    read := [];
    var i := 0;
    while i < |shapes|
      invariant 0 <= i <= |shapes| && b.storage == EncodeAll(vs)
      invariant var rest := DecodeEach(shapes[i..], b.storage, b.rpos);
                rest.Got? && read + rest.value == vs && rest.next == |b.storage|
      modifies b`rpos
    {
      ghost var rest := DecodeEach(shapes[i..], b.storage, b.rpos);
      assert shapes[i..][1..] == shapes[i + 1..];
      var r := b.Get(shapes[i]);
      read := read + [r.value];
      assert rest.value == [r.value] + rest.value[1..];
      i := i + 1;
    }
    assert shapes[i..] == [];
    assert read + [] == read;
  }
}
