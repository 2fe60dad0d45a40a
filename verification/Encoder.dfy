/**
 From segments to data codewords: choosing the version and the error correction level, and laying
 out the bit stream.
 */
module Encoder {
  import opened Gf256
  import opened Bits
  import opened Segments
  import opened QrTables
  import opened Wrappers

  datatype EncodeError = InvalidValue | TooLong

  /** The data codewords, with the parameters they were laid out for. */
  datatype Encoding = Encoding(version: int, ecl: Ecc, dataCodewords: seq<Byte>)

  /** Mode indicator, character count, payload. */
  function SegmentBits(seg: Segment, ver: int): (bits: seq<bool>)
    requires ValidVersion(ver)
    ensures |bits| == 4 + NumCharCountBits(seg.mode, ver) + |seg.data|
  {
    BitsOf(ModeBits(seg.mode), 4) + BitsOf(seg.numChars, NumCharCountBits(seg.mode, ver)) + seg.data
  }

  function StreamBits(segs: seq<Segment>, ver: int): seq<bool>
    requires ValidVersion(ver)
  {
    if segs == [] then [] else StreamBits(segs[..|segs| - 1], ver) + SegmentBits(segs[|segs| - 1], ver)
  }

  /** Every segment's length fits its character count field. */
  predicate CountsFit(segs: seq<Segment>, ver: int)
    requires ValidVersion(ver)
  {
    forall i :: 0 <= i < |segs| ==> segs[i].numChars < Exp2(NumCharCountBits(segs[i].mode, ver))
  }

  /** The length of the bit stream, or -1 when it has none that is an int. */
  function TotalBits(segs: seq<Segment>, ver: int): int
    requires ValidVersion(ver)
  {
    if CountsFit(segs, ver) && |StreamBits(segs, ver)| <= INT_MAX then |StreamBits(segs, ver)| else -1
  }

  predicate Fits(segs: seq<Segment>, ver: int, ecl: Ecc)
    requires ValidVersion(ver)
  {
    0 <= TotalBits(segs, ver) <= 8 * NumDataCodewords(ver, ecl)
  }

  lemma {:induction false} StreamGrows(segs: seq<Segment>, ver: int, k: nat)
    requires ValidVersion(ver) && k <= |segs|
    ensures |StreamBits(segs[..k], ver)| <= |StreamBits(segs, ver)|
  {
    var n := |segs| - 1;
    if k == |segs| {
      assert segs[..k] == segs;
    } else {
      assert segs[..n][..k] == segs[..k];
      StreamGrows(segs[..n], ver, k);
    }
  }

  lemma CountWidth(mode: Mode, ver: int)
    requires ValidVersion(ver)
    ensures NumCharCountBits(mode, ver) <= 16
  {
  }

  method GetTotalBits(segs: seq<Segment>, version: int) returns (result: int)
    requires ValidVersion(version)
    ensures result == TotalBits(segs, version)
  {
    hide Exp2, BitsOf, NumBitsCharCount;
    result := 0;
    var k := 0;
    while k < |segs|
      invariant 0 <= k <= |segs|
      invariant CountsFit(segs[..k], version)
      invariant result == |StreamBits(segs[..k], version)| <= INT_MAX
    {
      var seg := segs[k];
      assert segs[..k + 1][..k] == segs[..k] && segs[..k + 1][k] == seg;
      StreamGrows(segs, version, k + 1);
      CountWidth(seg.mode, version);
      var ccbits := NumCharCountBits(seg.mode, version);
      if seg.numChars >= Exp2(ccbits) {
        return -1;
      }
      if 4 + ccbits > INT_MAX - result {
        return -1;
      }
      result := result + 4 + ccbits;
      if |seg.data| > INT_MAX - result {
        return -1;
      }
      result := result + |seg.data|;
      k := k + 1;
    }
    assert segs[..k] == segs;
  }

  // ----- padding

  function Min(a: int, b: int): int {
    if a < b then a else b
  }

  const PAD_FIRST := Byte(true, true, true, false, true, true, false, false)   // 0xEC
  const PAD_SECOND := Byte(false, false, false, true, false, false, false, true)  // 0x11

  /** n pad bytes, alternately 0xEC and 0x11. */
  function PadBits(n: nat): (bits: seq<bool>)
    ensures |bits| == 8 * n
  {
    if n == 0 then [] else PadBits(n - 1) + BitList(if n % 2 == 1 then PAD_FIRST else PAD_SECOND)
  }

  lemma WholeBytes(a: nat, b: nat)
    requires a % 8 == 0 && b % 8 == 0 && a <= b
    ensures b == a + 8 * ((b - a) / 8)
  {
  }

  /** A terminator of up to four zero bits, and zero bits up to a byte boundary. */
  function Terminated(bits: seq<bool>, capacity: nat): (r: seq<bool>)
    requires |bits| <= capacity && capacity % 8 == 0
    ensures |bits| <= |r| <= capacity && |r| % 8 == 0 && r[..|bits|] == bits
    ensures forall i :: |bits| <= i < |r| ==> !r[i]
    ensures |r| >= Min(|bits| + 4, capacity)
  {
    var t := bits + ZeroBits(Min(4, capacity - |bits|));
    t + ZeroBits((8 - |t| % 8) % 8)
  }

  /** The bit stream filled up to the capacity. */
  function Padded(bits: seq<bool>, capacity: nat): (r: seq<bool>)
    requires |bits| <= capacity && capacity % 8 == 0
    ensures |r| == capacity
  {
    var t := Terminated(bits, capacity);
    WholeBytes(|t|, capacity);
    t + PadBits((capacity - |t|) / 8)
  }

  lemma PadToggle()
    ensures Xor(PAD_FIRST, Xor(PAD_FIRST, PAD_SECOND)) == PAD_SECOND
    ensures Xor(PAD_SECOND, Xor(PAD_FIRST, PAD_SECOND)) == PAD_FIRST
  {
  }

  lemma ByteNumber(b: Byte)
    ensures ToNat(b) < Exp2(8) == 256 && BitsOf(ToNat(b), 8) == BitList(b)
  {
    ValueBound(BitList(b));
    BitsOfValue(BitList(b));
    Widths();
  }

  method AppendSegment(bb: BitBuffer, seg: Segment, version: int)
    requires ValidVersion(version) && seg.numChars < Exp2(NumCharCountBits(seg.mode, version))
    modifies bb
    ensures bb.bits == old(bb.bits) + SegmentBits(seg, version)
  {
    hide Exp2, BitsOf, NumBitsCharCount;
    Widths();
    CountWidth(seg.mode, version);
    CountFitsWord(NumCharCountBits(seg.mode, version), seg.numChars);
    var ok := bb.AppendBits(ModeBits(seg.mode), 4);
    assert ok;
    ok := bb.AppendBits(seg.numChars, NumCharCountBits(seg.mode, version));
    assert ok;
    bb.Insert(seg.data);
  }

  /** Concatenates the segments. */
  method AppendSegments(bb: BitBuffer, segs: seq<Segment>, version: int)
    requires ValidVersion(version) && CountsFit(segs, version) && bb.bits == []
    modifies bb
    ensures bb.bits == StreamBits(segs, version)
  {
    hide Exp2, SegmentBits, NumBitsCharCount, NumCharCountBits;
    var k := 0;
    while k < |segs|
      invariant 0 <= k <= |segs|
      invariant bb.bits == StreamBits(segs[..k], version)
    {
      assert segs[..k + 1][..k] == segs[..k] && segs[..k + 1][k] == segs[k];
      AppendSegment(bb, segs[k], version);
      k := k + 1;
    }
    assert segs[..k] == segs;
  }

  /** Adds the terminator, the padding to a byte boundary, and the pad bytes. */
  method AppendPadding(bb: BitBuffer, capacity: nat)
    requires capacity % 8 == 0 && |bb.bits| <= capacity
    modifies bb
    ensures bb.bits == Padded(old(bb.bits), capacity)
  {
    hide Terminated, PadBits;
    AppendTerminator(bb, capacity);
    AppendPadBytes(bb, capacity);
  }

  method AppendPadBytes(bb: BitBuffer, capacity: nat)
    requires capacity % 8 == 0 && |bb.bits| % 8 == 0 && |bb.bits| <= capacity
    modifies bb
    ensures bb.bits == old(bb.bits) + PadBits((capacity - |old(bb.bits)|) / 8)
  {
    hide Exp2, BitsOf, BitList, ToNat, Xor, Value;
    ghost var terminated := bb.bits;
    var padByte := PAD_FIRST;
    ghost var n, total := 0, (capacity - |terminated|) / 8;
    WholeBytes(|terminated|, capacity);
    while |bb.bits| < capacity
      invariant 0 <= n <= total && |bb.bits| == |terminated| + 8 * n
      invariant bb.bits == terminated + PadBits(n)
      invariant padByte == if n % 2 == 0 then PAD_FIRST else PAD_SECOND
      decreases capacity - |bb.bits|
    {
      ByteNumber(padByte);
      var ok := bb.AppendBits(ToNat(padByte), 8);
      assert ok;
      PadToggle();
      padByte := Xor(padByte, Xor(PAD_FIRST, PAD_SECOND));
      n := n + 1;
      assert PadBits(n) == PadBits(n - 1) + BitList(if n % 2 == 1 then PAD_FIRST else PAD_SECOND);
    }
  }

  method AppendTerminator(bb: BitBuffer, capacity: nat)
    requires capacity % 8 == 0 && |bb.bits| <= capacity
    modifies bb
    ensures bb.bits == Terminated(old(bb.bits), capacity)
  {
    hide Exp2, BitsOf;
    AppendZeros(Min(4, capacity - |bb.bits|));
    var ok := bb.AppendBits(0, Min(4, capacity - |bb.bits|));
    assert ok;
    AppendZeros((8 - |bb.bits| % 8) % 8);
    ok := bb.AppendBits(0, (8 - |bb.bits| % 8) % 8);
    assert ok;
    assert |bb.bits| % 8 == 0;
  }

  lemma CountFitsWord(width: nat, n: nat)
    requires width <= 16 && n < Exp2(width)
    ensures n < 0x1_0000_0000
  {
    assert Exp2(16) == 65536 by {
      assert Exp2(16) == Exp2(8) * 256;
    }
    Exp2Monotone(width, 16);
  }

  lemma {:induction false} Exp2Monotone(a: nat, b: nat)
    requires a <= b
    ensures Exp2(a) <= Exp2(b)
    decreases b
  {
    if a < b {
      Exp2Monotone(a, b - 1);
    }
  }

  lemma AppendZeros(n: nat)
    requires n <= 8
    ensures 0 < Exp2(n) && BitsOf(0, n) == ZeroBits(n)
  {
    BitsOfZero(n);
  }

  // ----- choosing the version and the level

  function Rank(ecl: Ecc): nat {
    match ecl
    case LOW => 0
    case MEDIUM => 1
    case QUARTILE => 2
    case HIGH => 3
  }

  predicate ValidArguments(minVersion: int, maxVersion: int, mask: int) {
    MIN_VERSION <= minVersion <= maxVersion <= MAX_VERSION && -1 <= mask <= 7
  }

  /** The least version of the range that holds the segments at the requested level, and at that
      version the requested level or, when boosting, the highest level that still fits. */
  ghost predicate BestChoice(segs: seq<Segment>, ecl: Ecc, minVersion: int, maxVersion: int, boostEcl: bool,
                             version: int, level: Ecc)
    requires 1 <= minVersion && maxVersion <= 40
  {
    && minVersion <= version <= maxVersion
    && Fits(segs, version, ecl) && Fits(segs, version, level)
    && (forall v :: minVersion <= v < version ==> !Fits(segs, v, ecl))
    && Rank(level) >= Rank(ecl)
    && (!boostEcl ==> level == ecl)
    && (boostEcl ==> forall e: Ecc :: Rank(e) > Rank(level) ==> !Fits(segs, version, e))
  }

  method BoostLevel(segs: seq<Segment>, version: int, ecl: Ecc, dataUsedBits: int, boostEcl: bool) returns (level: Ecc)
    requires ValidVersion(version) && Fits(segs, version, ecl) && dataUsedBits == TotalBits(segs, version)
    ensures Fits(segs, version, level) && Rank(level) >= Rank(ecl)
    ensures !boostEcl ==> level == ecl
    ensures boostEcl ==> forall e: Ecc :: Rank(e) > Rank(level) ==> !Fits(segs, version, e)
  {
    hide NumDataCodewords, TotalBits;
    level := ecl;
    var levels := [MEDIUM, QUARTILE, HIGH];
    var i := 0;
    while i < |levels|
      invariant 0 <= i <= 3 && Fits(segs, version, level)
      invariant Rank(level) >= Rank(ecl) || i < Rank(ecl)
      invariant !boostEcl ==> level == ecl
      invariant boostEcl ==> forall e: Ecc :: Rank(level) < Rank(e) <= i ==> !Fits(segs, version, e)
    {
      var newEcl := levels[i];
      assert Rank(newEcl) == i + 1;
      assert forall e: Ecc :: Rank(e) == i + 1 ==> e == newEcl;
      if boostEcl && dataUsedBits <= NumDataCodewords(version, newEcl) * 8 {
        level := newEcl;
      }
      i := i + 1;
    }
  }

  /** The data codewords have exactly the capacity of the symbol, and their bits are the stream of
      the segments, padded. */
  predicate HoldsStream(segs: seq<Segment>, e: Encoding) {
    && ValidVersion(e.version)
    && CountsFit(segs, e.version)
    && |e.dataCodewords| == NumDataCodewords(e.version, e.ecl)
    && |StreamBits(segs, e.version)| <= 8 * |e.dataCodewords|
    && Unpack(e.dataCodewords) == Padded(StreamBits(segs, e.version), 8 * |e.dataCodewords|)
  }

  method EncodeSegments(segs: seq<Segment>, ecl: Ecc, minVersion: int, maxVersion: int, mask: int, boostEcl: bool)
    returns (r: Result<Encoding, EncodeError>)
    ensures !ValidArguments(minVersion, maxVersion, mask) ==> r == Failure(InvalidValue)
    ensures ValidArguments(minVersion, maxVersion, mask) ==>
              (r == Failure(TooLong) <==> forall v :: minVersion <= v <= maxVersion ==> !Fits(segs, v, ecl))
    ensures ValidArguments(minVersion, maxVersion, mask) && r.Failure? ==> r.error == TooLong
    ensures r.Success? ==>
              && ValidArguments(minVersion, maxVersion, mask)
              && BestChoice(segs, ecl, minVersion, maxVersion, boostEcl, r.value.version, r.value.ecl)
              && HoldsStream(segs, r.value)
  {
    hide NumDataCodewords, StreamBits, Padded, CountsFit, Unpack;
    if !(MIN_VERSION <= minVersion <= maxVersion <= MAX_VERSION) || mask < -1 || mask > 7 {
      return Failure(InvalidValue);
    }
    var version := minVersion;
    var dataUsedBits := GetTotalBits(segs, version);
    while !(dataUsedBits != -1 && dataUsedBits <= NumDataCodewords(version, ecl) * 8)
      invariant minVersion <= version <= maxVersion
      invariant dataUsedBits == TotalBits(segs, version)
      invariant forall v :: minVersion <= v < version ==> !Fits(segs, v, ecl)
      decreases maxVersion - version
    {
      if version >= maxVersion {
        return Failure(TooLong);
      }
      version := version + 1;
      dataUsedBits := GetTotalBits(segs, version);
    }
    assert dataUsedBits != -1;
    var level := BoostLevel(segs, version, ecl, dataUsedBits, boostEcl);
    var dataCapacityBits := NumDataCodewords(version, level) * 8;
    var bb := new BitBuffer();
    AppendSegments(bb, segs, version);
    assert |bb.bits| == dataUsedBits;
    assert |bb.bits| <= dataCapacityBits;
    AppendPadding(bb, dataCapacityBits);
    var dataCodewords := PackBits(bb.bits);
    r := Success(Encoding(version, level, dataCodewords));
  }
}
