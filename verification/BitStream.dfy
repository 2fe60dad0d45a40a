/**
 Reading a bit stream back: the parser a QR Code reader runs on the data codewords, and the proof
 that it recovers what was encoded.
 */
module BitStream {
  import opened Bits
  import opened Segments
  import opened QrTables
  import opened Encoder
  import opened Wrappers

  function ModeOf(modeBits: nat): Option<Mode> {
    if modeBits == 1 then Some(NUMERIC)
    else if modeBits == 2 then Some(ALPHANUMERIC)
    else if modeBits == 4 then Some(BYTE)
    else if modeBits == 7 then Some(ECI)
    else None
  }

  /** The length of a payload of n characters that starts the given bits. */
  function PayloadLen(mode: Mode, n: nat, bits: seq<bool>): Option<nat> {
    match mode
    case NUMERIC => Some(NumericLen(n))
    case ALPHANUMERIC => Some(AlphanumericLen(n))
    case BYTE => Some(8 * n)
    case KANJI => None
    case ECI =>
      if |bits| >= 1 && !bits[0] then Some(8)
      else if |bits| >= 2 && bits[0] && !bits[1] then Some(16)
      else if |bits| >= 3 && bits[0] && bits[1] && !bits[2] then Some(24)
      else None
  }

  function DecodeDesignator(bits: seq<bool>): nat
    requires |bits| == 8 || |bits| == 16 || |bits| == 24
  {
    if |bits| == 8 then Value(bits) else if |bits| == 16 then Value(bits[2..]) else Value(bits[3..])
  }

  function DecodePayload(mode: Mode, n: nat, bits: seq<bool>): Option<Payload>
    requires PayloadLen(mode, n, bits) == Some(|bits|)
  {
    match mode
    case NUMERIC =>
      (match DecodeNumeric(bits, n)
       case None => None
       case Some(text) => Some(Digits(text)))
    case ALPHANUMERIC =>
      (match DecodeAlphanumeric(bits, n)
       case None => None
       case Some(text) => Some(Alphanumeric(text)))
    case BYTE => Some(Bytes(DecodeBytes(bits)))
    case ECI => Some(Designator(DecodeDesignator(bits)))
  }

  /** Reads (mode, count, payload) until a zero mode or fewer than four bits are left. */
  function Parse(bits: seq<bool>, ver: int): Option<seq<Payload>>
    requires ValidVersion(ver)
    decreases |bits|
  {
    if |bits| < 4 || Value(bits[..4]) == 0 then Some([]) else
    match ModeOf(Value(bits[..4]))
    case None => None
    case Some(mode) =>
      var width := 4 + NumCharCountBits(mode, ver);
      if |bits| < width then None else
      var n := Value(bits[4..width]);
      match PayloadLen(mode, n, bits[width..])
      case None => None
      case Some(len) =>
        if |bits| < width + len || PayloadLen(mode, n, bits[width..width + len]) != Some(len) then None else
        match DecodePayload(mode, n, bits[width..width + len])
        case None => None
        case Some(p) =>
          match Parse(bits[width + len..], ver)
          case None => None
          case Some(rest) => Some([p] + rest)
  }

  function SegmentsOf(ps: seq<Payload>): (segs: seq<Segment>)
    requires forall i :: 0 <= i < |ps| ==> ValidPayload(ps[i])
    ensures |segs| == |ps|
  {
    seq(|ps|, i requires 0 <= i < |ps| => SegmentOf(ps[i]))
  }

  /** Bits at which the parser stops. */
  predicate StopsAt(tail: seq<bool>) {
    |tail| < 4 || Value(tail[..4]) == 0
  }

  // ----- one segment

  lemma DesignatorRoundTrip(v: nat, rest: seq<bool>)
    requires v < 1000000
    ensures var bits := DesignatorBits(v);
            && PayloadLen(ECI, 0, bits + rest) == Some(|bits|) == PayloadLen(ECI, 0, bits)
            && DecodeDesignator(bits) == v
  {
    Widths();
    hide Exp2, BitsOf, Value;
    var bits := DesignatorBits(v);
    if v < 128 {
      ValueOfBits(v, 8);
      LeadingZero(v, 8);
    } else if v < 16384 {
      Prefixes();
      ValueOfBits(v, 14);
      assert bits[2..] == BitsOf(v, 14);
    } else {
      Prefixes();
      ValueOfBits(v, 21);
      assert bits[3..] == BitsOf(v, 21);
    }
  }

  lemma Prefixes()
    ensures BitsOf(2, 2) == [true, false] && BitsOf(6, 3) == [true, true, false]
  {
    assert BitsOf(0, 0) == [];
    assert BitsOf(1, 1) == [true];
    assert BitsOf(3, 2) == [true, true];
  }

  lemma LeadingZero(v: nat, len: nat)
    requires len == 8 && v < 128
    ensures !BitsOf(v, len)[0]
  {
    BitAt(v, 8, 7);
    assert Exp2(7) == 128;
  }

  lemma PayloadRoundTrip(p: Payload, rest: seq<bool>)
    requires ValidPayload(p)
    ensures var s := SegmentOf(p);
            && PayloadLen(s.mode, s.numChars, s.data + rest) == Some(|s.data|)
            && PayloadLen(s.mode, s.numChars, s.data) == Some(|s.data|)
            && DecodePayload(s.mode, s.numChars, s.data) == Some(p)
  {
    match p
    case Digits(text) =>
      NumericRoundTrip(text);
    case Alphanumeric(text) =>
      AlphanumericRoundTrip(text);
    case Bytes(data) =>
      BytesRoundTrip(data);
    case Designator(v) =>
      DesignatorRoundTrip(v, rest);
  }

  lemma ModeRoundTrip(p: Payload)
    requires ValidPayload(p)
    ensures var m := SegmentOf(p).mode;
            0 < ModeBits(m) < 16 && ModeOf(ModeBits(m)) == Some(m)
  {
  }

  lemma ParseStep(bits: seq<bool>, ver: int, mode: Mode, n: nat, len: nat, p: Payload)
    requires ValidVersion(ver)
    requires |bits| >= 4 + NumCharCountBits(mode, ver) + len
    requires Value(bits[..4]) != 0 && ModeOf(Value(bits[..4])) == Some(mode)
    requires Value(bits[4..4 + NumCharCountBits(mode, ver)]) == n
    requires PayloadLen(mode, n, bits[4 + NumCharCountBits(mode, ver)..]) == Some(len)
    requires var w := 4 + NumCharCountBits(mode, ver);
             PayloadLen(mode, n, bits[w..w + len]) == Some(len) && DecodePayload(mode, n, bits[w..w + len]) == Some(p)
    ensures Parse(bits, ver)
         == match Parse(bits[4 + NumCharCountBits(mode, ver) + len..], ver)
            case None => None
            case Some(ps) => Some([p] + ps)
  {
    hide Value, ModeOf, PayloadLen, DecodePayload, NumBitsCharCount;
  }

  lemma Slices(a: seq<bool>, b: seq<bool>, c: seq<bool>, d: seq<bool>)
    requires |a| == 4
    ensures var bits, w := a + b + c + d, 4 + |b|;
            && bits[..4] == a && bits[4..w] == b && bits[w..] == c + d
            && bits[w..w + |c|] == c && bits[w + |c|..] == d
  {
  }

  /** Parsing a segment yields its payload and goes on behind it. */
  lemma ParseSegment(p: Payload, ver: int, rest: seq<bool>)
    requires ValidVersion(ver) && ValidPayload(p)
    requires SegmentOf(p).numChars < Exp2(NumCharCountBits(SegmentOf(p).mode, ver))
    ensures Parse(SegmentBits(SegmentOf(p), ver) + rest, ver)
         == match Parse(rest, ver)
            case None => None
            case Some(ps) => Some([p] + ps)
  {
    var s := SegmentOf(p);
    ModeRoundTrip(p);
    PayloadRoundTrip(p, rest);
    Widths();
    hide Exp2, BitsOf, Value, SegmentOf, DecodePayload, PayloadLen, ModeOf, ModeBits, NumBitsCharCount, Parse;
    hide NumCharCountBits;
    var cc := NumCharCountBits(s.mode, ver);
    var bits := SegmentBits(s, ver) + rest;
    ValueOfBits(ModeBits(s.mode), 4);
    ValueOfBits(s.numChars, cc);
    Slices(BitsOf(ModeBits(s.mode), 4), BitsOf(s.numChars, cc), s.data, rest);
    ParseStep(bits, ver, s.mode, s.numChars, |s.data|, p);
  }

  // ----- the whole stream

  lemma StreamSnoc(segs: seq<Segment>, seg: Segment, ver: int)
    requires ValidVersion(ver)
    ensures StreamBits(segs + [seg], ver) == StreamBits(segs, ver) + SegmentBits(seg, ver)
  {
    hide SegmentBits;
    assert (segs + [seg])[..|segs|] == segs;
  }

  lemma StreamEmpty(ver: int)
    requires ValidVersion(ver)
    ensures StreamBits([], ver) == []
  {
  }

  lemma {:induction false} StreamCons(seg: Segment, segs: seq<Segment>, ver: int)
    requires ValidVersion(ver)
    ensures StreamBits([seg] + segs, ver) == SegmentBits(seg, ver) + StreamBits(segs, ver)
  {
    hide SegmentBits, StreamBits, NumCharCountBits, NumBitsCharCount;
    if segs == [] {
      assert [seg] + segs == [] + [seg];
      StreamSnoc([], seg, ver);
      StreamEmpty(ver);
    } else {
      var n := |segs| - 1;
      StreamCons(seg, segs[..n], ver);
      assert [seg] + segs == ([seg] + segs[..n]) + [segs[n]];
      StreamSnoc([seg] + segs[..n], segs[n], ver);
      assert segs == segs[..n] + [segs[n]];
      StreamSnoc(segs[..n], segs[n], ver);
    }
  }

  lemma {:induction false} ParseStream(ps: seq<Payload>, ver: int, tail: seq<bool>)
    requires ValidVersion(ver)
    requires forall i :: 0 <= i < |ps| ==> ValidPayload(ps[i])
    requires CountsFit(SegmentsOf(ps), ver)
    requires StopsAt(tail)
    ensures Parse(StreamBits(SegmentsOf(ps), ver) + tail, ver) == Some(ps)
  {
    hide SegmentOf, SegmentBits, Exp2, NumBitsCharCount, Value, Parse;
    var segs := SegmentsOf(ps);
    if ps == [] {
      assert StreamBits(segs, ver) + tail == tail;
      ParseStops(tail, ver);
    } else {
      hide StreamBits;
      var p, more := ps[0], ps[1..];
      assert segs == [SegmentOf(p)] + SegmentsOf(more);
      StreamCons(SegmentOf(p), SegmentsOf(more), ver);
      CountsFitTail(SegmentOf(p), SegmentsOf(more), ver);
      ParseStream(more, ver, tail);
      var rest := StreamBits(SegmentsOf(more), ver) + tail;
      ParseSegment(p, ver, rest);
      assert StreamBits(segs, ver) + tail == SegmentBits(SegmentOf(p), ver) + rest;
      assert ps == [p] + more;
    }
  }

  lemma CountsFitTail(seg: Segment, segs: seq<Segment>, ver: int)
    requires ValidVersion(ver) && CountsFit([seg] + segs, ver)
    ensures seg.numChars < Exp2(NumCharCountBits(seg.mode, ver)) && CountsFit(segs, ver)
  {
    hide NumBitsCharCount, Exp2;
    var all := [seg] + segs;
    assert all[0] == seg;
    forall i | 0 <= i < |segs|
      ensures segs[i].numChars < Exp2(NumCharCountBits(segs[i].mode, ver))
    {
      assert all[i + 1] == segs[i];
    }
  }

  lemma ParseStops(tail: seq<bool>, ver: int)
    requires ValidVersion(ver) && StopsAt(tail)
    ensures Parse(tail, ver) == Some([])
  {
  }

  lemma ValueOfZeros(bits: seq<bool>)
    requires forall i :: 0 <= i < |bits| ==> !bits[i]
    ensures Value(bits) == 0
  {
    if bits != [] {
      ValueOfZeros(bits[..|bits| - 1]);
    }
  }

  /** What follows the segments stops the parser: a zero mode, or fewer than four bits. */
  lemma PaddingStops(stream: seq<bool>, capacity: nat)
    requires |stream| <= capacity && capacity % 8 == 0
    ensures Padded(stream, capacity)[..|stream|] == stream
    ensures StopsAt(Padded(stream, capacity)[|stream|..])
  {
    hide Value;
    var t, p := Terminated(stream, capacity), Padded(stream, capacity);
    var tail := p[|stream|..];
    assert p[..|stream|] == t[..|stream|];
    if |tail| >= 4 {
      assert |t| >= |stream| + 4;
      forall i | 0 <= i < 4
        ensures !tail[..4][i]
      {
        assert tail[..4][i] == t[|stream| + i];
      }
      ValueOfZeros(tail[..4]);
    }
  }

  /** Bit-stream round trip: the data codewords of segments made by the factories parse back to
      exactly what the segments were made from. */
  lemma CodewordsRoundTrip(ps: seq<Payload>, e: Encoding)
    requires forall i :: 0 <= i < |ps| ==> ValidPayload(ps[i])
    requires HoldsStream(SegmentsOf(ps), e)
    ensures Parse(Unpack(e.dataCodewords), e.version) == Some(ps)
  {
    hide Padded, Parse, StopsAt, CountsFit, StreamBits, Unpack, NumDataCodewords;
    var stream, capacity := StreamBits(SegmentsOf(ps), e.version), 8 * |e.dataCodewords|;
    PaddingStops(stream, capacity);
    var p := Padded(stream, capacity);
    assert p == stream + p[|stream|..];
    ParseStream(ps, e.version, p[|stream|..]);
  }

  /** Text round trip: the segment chosen for a text decodes to the code units of that text. */
  lemma TextRoundTrip(text: string, e: Encoding)
    requires IsCString(text) && text != [] && ValidPayload(PayloadOf(text))
    requires HoldsStream([SegmentOf(PayloadOf(text))], e)
    ensures Parse(Unpack(e.dataCodewords), e.version) == Some([PayloadOf(text)])
    ensures PayloadUnits(PayloadOf(text)) == CodeUnits(text)
  {
    hide SegmentOf, Parse, HoldsStream, Unpack;
    assert SegmentsOf([PayloadOf(text)]) == [SegmentOf(PayloadOf(text))];
    CodewordsRoundTrip([PayloadOf(text)], e);
  }
}
