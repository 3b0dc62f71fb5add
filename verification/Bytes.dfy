/** Little-endian integers, as the network code and ByteBuffer lay them out. */
module Bytes {

  type Byte = x: int | 0 <= x < 256

  function Pow256(n: nat): (r: nat)
    ensures r > 0
  {
    if n == 0 then 1 else 256 * Pow256(n - 1)
  }

  function ToLE(v: nat, width: nat): (r: seq<Byte>)
    ensures |r| == width
  {
    if width == 0 then [] else [v % 256] + ToLE(v / 256, width - 1)
  }

  function FromLE(s: seq<Byte>): nat {
    if s == [] then 0 else s[0] + 256 * FromLE(s[1..])
  }

  function DividedBy256(v: nat, k: nat): nat {
    if k == 0 then v else DividedBy256(v / 256, k - 1)
  }

  /** Byte k of a number is its remainder modulo 256 after k divisions by 256: the lowest byte comes first. */
  lemma {:induction false} LowestFirst(v: nat, width: nat, k: nat)
    requires k < width
    ensures ToLE(v, width)[k] == DividedBy256(v, k) % 256
  {
    if k > 0 {
      LowestFirst(v / 256, width - 1, k - 1);
    }
  }

  function Number32(b0: nat, b1: nat, b2: nat, b3: nat): nat {
    b0 + 0x100 * b1 + 0x1_0000 * b2 + 0x100_0000 * b3
  }

  /** Four bytes as a number. */
  lemma Word32(s: seq<Byte>)
    requires |s| == 4
    ensures FromLE(s) == Number32(s[0], s[1], s[2], s[3])
  {
    assert FromLE(s[3..]) == s[3] + 256 * FromLE(s[3..][1..]);
    assert s[2..][1..] == s[3..] && s[1..][1..] == s[2..];
    assert FromLE(s[2..]) == s[2] + 256 * FromLE(s[3..]);
    assert FromLE(s[1..]) == s[1] + 256 * FromLE(s[2..]);
  }

  /** Reading back what was written gives the value, provided it fits. */
  lemma {:induction false} FromToLE(v: nat, width: nat)
    requires v < Pow256(width)
    ensures FromLE(ToLE(v, width)) == v
  {
    if width > 0 {
      FromToLE(v / 256, width - 1);
      assert ToLE(v, width)[1..] == ToLE(v / 256, width - 1);
    }
  }

  lemma {:induction false} FromLEBound(s: seq<Byte>)
    ensures FromLE(s) < Pow256(|s|)
  {
    if s != [] {
      FromLEBound(s[1..]);
    }
  }

  /** Writing what was read gives the bytes back. */
  lemma {:induction false} ToFromLE(s: seq<Byte>)
    ensures ToLE(FromLE(s), |s|) == s
  {
    if s != [] {
      var rest := FromLE(s[1..]);
      ToFromLE(s[1..]);
      SplitByte(FromLE(s), rest, s[0]);
      LowByteFirst(FromLE(s), |s|);
      hide ToLE, FromLE;
      assert s == [s[0]] + s[1..];
    }
  }

  lemma LowByteFirst(v: nat, width: nat)
    requires width > 0
    ensures ToLE(v, width) == [v % 256] + ToLE(v / 256, width - 1)
  {
  }

  /** Two 16-bit words, the low one first, are laid out as the 32-bit word they make up. */
  lemma {:induction false} Halves(v: nat)
    ensures ToLE(v, 4) == ToLE(v % 65536, 2) + ToLE(v / 65536, 2)
  {
    var v1 := v / 256;
    var v2 := v1 / 256;
    var low := 256 * (v1 % 256) + v % 256;
    assert v == 65536 * v2 + low;
    SplitWord(v, v2, low);
    assert ToLE(v, 4) == [v % 256] + ToLE(v1, 3);
    assert ToLE(v1, 3) == [v1 % 256] + ToLE(v2, 2);
    SplitByte(low, v1 % 256, v % 256);
    TwoBytes(low);
  }

  lemma SplitWord(v: nat, high: nat, low: nat)
    requires v == 65536 * high + low && low < 65536
    ensures v / 65536 == high && v % 65536 == low
  {
  }

  lemma SplitByte(v: nat, high: nat, low: nat)
    requires v == 256 * high + low && low < 256
    ensures v / 256 == high && v % 256 == low
  {
  }

  lemma TwoBytes(v: nat)
    ensures ToLE(v, 2) == [v % 256, v / 256 % 256]
  {
    assert ToLE(v, 2) == [v % 256] + ToLE(v / 256, 1);
    assert ToLE(v / 256, 1) == [v / 256 % 256] + ToLE(v / 256 / 256, 0);
  }
}
