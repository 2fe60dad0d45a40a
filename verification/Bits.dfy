/**
 Bit strings, the bit buffer that segments and codewords are built in, and the packing of bits
 into bytes.
 */
module Bits {
  import opened Gf256

  type uint8 = n: nat | n < 256
  type uint32 = n: nat | n < 0x1_0000_0000

  function Exp2(n: nat): (r: nat)
    ensures r > 0
  {
    if n == 0 then 1 else 2 * Exp2(n - 1)
  }

  /** The low-order bits of val, most significant first. */
  function BitsOf(val: nat, len: nat): (bits: seq<bool>)
    ensures |bits| == len
  {
    if len == 0 then [] else BitsOf(val / 2, len - 1) + [val % 2 == 1]
  }

  /** The number a bit string denotes. */
  function Value(bits: seq<bool>): nat {
    if bits == [] then 0 else 2 * Value(bits[..|bits| - 1]) + if bits[|bits| - 1] then 1 else 0
  }

  function ZeroBits(n: nat): (bits: seq<bool>)
    ensures |bits| == n
  {
    seq(n, i => false)
  }

  lemma {:induction false} ValueBound(bits: seq<bool>)
    ensures Value(bits) < Exp2(|bits|)
  {
    if bits != [] {
      ValueBound(bits[..|bits| - 1]);
    }
  }

  /** Reading back the bits of a number that fits gives the number. */
  lemma {:induction false} ValueOfBits(val: nat, len: nat)
    requires val < Exp2(len)
    ensures Value(BitsOf(val, len)) == val
  {
    if len > 0 {
      ValueOfBits(val / 2, len - 1);
      assert BitsOf(val, len)[..len - 1] == BitsOf(val / 2, len - 1);
    }
  }

  lemma {:induction false} BitsOfValue(bits: seq<bool>)
    ensures BitsOf(Value(bits), |bits|) == bits
  {
    if bits != [] {
      BitsOfValue(bits[..|bits| - 1]);
    }
  }

  lemma {:induction false} BitsOfZero(len: nat)
    ensures BitsOf(0, len) == ZeroBits(len)
  {
    if len > 0 {
      BitsOfZero(len - 1);
    }
  }

  /** The bit at distance i from the right is (val >> i) & 1. */
  lemma {:induction false} BitAt(val: nat, len: nat, i: nat)
    requires i < len
    ensures BitsOf(val, len)[len - 1 - i] == ((val / Exp2(i)) % 2 == 1)
  {
    if i > 0 {
      BitAt(val / 2, len - 1, i - 1);
      DivideTwice(val, Exp2(i - 1));
    }
  }

  lemma DivideTwice(a: nat, b: nat)
    requires b > 0
    ensures a / 2 / b == a / (2 * b)
  {
    var q, r := a / 2 / b, a / 2 % b;
    assert a / 2 == b * q + r;
    var s := 2 * r + a % 2;
    assert a == (2 * b) * q + s && 0 <= s < 2 * b;
    QuotientIs(a, 2 * b, q, s);
  }

  lemma QuotientIs(a: nat, b: nat, q: nat, r: nat)
    requires 0 <= r < b && a == b * q + r
    ensures a / b == q
  {
    var d := a / b - q;
    assert b * d == r - a % b;
    MultipleBounds(b, d);
  }

  lemma MultipleBounds(b: int, d: int)
    requires b > 0
    ensures d >= 1 ==> b * d >= b
    ensures d <= -1 ==> b * d <= -b
  {
  }

  /** An appendable sequence of bits. */
  class BitBuffer {
    var bits: seq<bool>

    constructor ()
      ensures bits == []
    {
      bits := [];
    }

    /** Appends the low-order bits of val; rejects a length above 31 and a value that does not fit. */
    method AppendBits(val: uint32, len: int) returns (ok: bool)
      modifies this
      ensures ok <==> 0 <= len <= 31 && val < Exp2(len)
      ensures bits == if ok then old(bits) + BitsOf(val, len) else old(bits)
    {
      if len < 0 || len > 31 {
        return false;
      }
      FitsIff(val, Exp2(len));
      if val / Exp2(len) != 0 {
        return false;
      }
      var i := len - 1;
      while i >= 0
        invariant -1 <= i < len
        invariant bits == old(bits) + BitsOf(val, len)[..len - 1 - i]
      {
        BitAt(val, len, i);
        bits := bits + [(val / Exp2(i)) % 2 == 1];
        i := i - 1;
      }
      ok := true;
    }

    method Insert(more: seq<bool>)
      modifies this
      ensures bits == old(bits) + more
    {
      bits := bits + more;
    }
  }

  lemma FitsIff(a: nat, b: nat)
    requires b > 0
    ensures a / b == 0 <==> a < b
  {
  }

  // ----- bytes

  function BitList(b: Byte): (bits: seq<bool>)
    ensures |bits| == 8
  {
    [b.b7, b.b6, b.b5, b.b4, b.b3, b.b2, b.b1, b.b0]
  }

  function ByteOf(bits: seq<bool>): Byte
    requires |bits| == 8
  {
    Byte(bits[0], bits[1], bits[2], bits[3], bits[4], bits[5], bits[6], bits[7])
  }

  function ToNat(b: Byte): nat {
    Value(BitList(b))
  }

  /** The bits of a sequence of bytes, most significant bit of each byte first. */
  function Unpack(bytes: seq<Byte>): (bits: seq<bool>)
    ensures |bits| == 8 * |bytes|
  {
    if bytes == [] then [] else Unpack(bytes[..|bytes| - 1]) + BitList(bytes[|bytes| - 1])
  }

  /** b with bit k from the left or-ed with `bit`. */
  function OrBit(b: Byte, k: nat, bit: bool): Byte
    requires k < 8
  {
    ByteOf(BitList(b)[k := BitList(b)[k] || bit])
  }

  lemma {:induction false} UnpackAt(bytes: seq<Byte>, i: nat)
    requires i < 8 * |bytes|
    ensures Unpack(bytes)[i] == BitList(bytes[i / 8])[i % 8]
  {
    var n := |bytes| - 1;
    if i < 8 * n {
      UnpackAt(bytes[..n], i);
    } else {
      assert i / 8 == n && i % 8 == i - 8 * n;
    }
  }

  lemma UnpackInjective(a: seq<Byte>, b: seq<Byte>)
    requires Unpack(a) == Unpack(b)
    ensures a == b
  {
    if a != [] {
      var n := |a| - 1;
      assert Unpack(a)[..8 * n] == Unpack(a[..n]) && Unpack(b)[..8 * n] == Unpack(b[..n]);
      UnpackInjective(a[..n], b[..n]);
      BitListInjective(a[n], b[n], Unpack(a)[8 * n..]);
    }
  }

  lemma BitListInjective(a: Byte, b: Byte, bits: seq<bool>)
    requires BitList(a) == bits == BitList(b)
    ensures a == b
  {
    assert a.b7 == bits[0] && a.b6 == bits[1] && a.b5 == bits[2] && a.b4 == bits[3];
    assert a.b3 == bits[4] && a.b2 == bits[5] && a.b1 == bits[6] && a.b0 == bits[7];
  }

  lemma BitListOfByte(bits: seq<bool>)
    requires |bits| == 8
    ensures BitList(ByteOf(bits)) == bits
  {
  }

  lemma OrBitAt(b: Byte, k: nat, bit: bool, j: nat)
    requires k < 8 && j < 8
    ensures BitList(OrBit(b, k, bit))[j] == (BitList(b)[j] || (j == k && bit))
  {
    BitListOfByte(BitList(b)[k := BitList(b)[k] || bit]);
    hide BitList, ByteOf;
  }

  /** Packing bits into bytes, as the encoder does it one bit at a time. */
  method PackBits(bits: seq<bool>) returns (bytes: seq<Byte>)
    requires |bits| % 8 == 0
    ensures Unpack(bytes) == bits
  {
    bytes := seq(|bits| / 8, i => ZERO);
    var i := 0;
    while i < |bits|
      invariant 0 <= i <= |bits| && |bytes| == |bits| / 8
      invariant forall k :: 0 <= k < i ==> BitList(bytes[k / 8])[k % 8] == bits[k]
      invariant forall k :: i <= k < |bits| ==> !BitList(bytes[k / 8])[k % 8]
    {
      var before := bytes;
      bytes := bytes[i / 8 := OrBit(bytes[i / 8], i % 8, bits[i])];
      forall k | 0 <= k < |bits|
        ensures BitList(bytes[k / 8])[k % 8] == if k == i then bits[k] else BitList(before[k / 8])[k % 8]
      {
        if k / 8 == i / 8 {
          OrBitAt(before[i / 8], i % 8, bits[i], k % 8);
        }
      }
      i := i + 1;
    }
    forall k | 0 <= k < |bits|
      ensures Unpack(bytes)[k] == bits[k]
    {
      UnpackAt(bytes, k);
    }
  }

  /** The bytes that a sequence of bits unpacks from. */
  function Packed(bits: seq<bool>): (bytes: seq<Byte>)
    requires |bits| % 8 == 0
    ensures |bytes| == |bits| / 8
  {
    if bits == [] then [] else
    var n := |bits| - 8;
    Packed(bits[..n]) + [ByteOf(bits[n..])]
  }

  lemma {:induction false} UnpackPacked(bits: seq<bool>)
    requires |bits| % 8 == 0
    ensures Unpack(Packed(bits)) == bits
  {
    hide ByteOf, BitList;
    if bits != [] {
      var n := |bits| - 8;
      UnpackPacked(bits[..n]);
      BitListOfByte(bits[n..]);
      assert Packed(bits)[..|Packed(bits)| - 1] == Packed(bits[..n]);
    }
  }

  lemma BitListShifted(b: Byte)
    ensures BitList(ShiftRight(b)) == [false] + BitList(b)[..7]
  {
  }

  lemma {:induction false} BitListShr(b: Byte, k: nat, j: nat)
    requires j < 8
    ensures BitList(Shr(b, k))[j] == (j >= k && BitList(b)[j - k])
  {
    hide BitList, ShiftRight;
    if k > 0 {
      BitListShifted(Shr(b, k - 1));
      if j > 0 {
        BitListShr(b, k - 1, j - 1);
      }
    }
  }

  /** getBit(b, i) is the bit at distance i from the right of the byte's list of bits. */
  lemma GetBit(b: Byte, i: nat)
    requires i < 8
    ensures Bit(b, i) == BitList(b)[7 - i]
  {
    hide Shr;
    BitListShr(b, i, 7);
  }
}
