/**
 The encoder from end to end: text or bytes in, a finished symbol out, and what a reader gets from it.
 */
module QrEncode {
  import opened BchCode
  import opened Bits
  import opened BitStream
  import opened Encoder
  import opened FunctionPatterns
  import opened Gf256
  import opened Grids
  import opened Masking
  import opened QrSymbol
  import opened QrTables
  import opened Reader
  import opened Segments
  import opened Wrappers

  ghost predicate AllValid(ps: seq<Payload>) {
    forall i :: 0 <= i < |ps| ==> ValidPayload(ps[i])
  }

  /** Whoever looks at nothing but the modules gets the payloads. */
  ghost predicate Shows(qr: QrCode, ps: seq<Payload>)
    reads qr.modules
  {
    qr.modules.Length0 == qr.modules.Length1 && DecodeSymbol(Contents(qr.modules)) == Some(ps)
  }

  /** The symbol carries the codewords over the function patterns of its version and level, under the mask
      asked for, or for -1 under the first of those with the least penalty. */
  ghost predicate Carried(qr: QrCode, data: seq<Byte>, codewords: seq<Byte>, mask: int)
    reads qr`mask, qr.modules
  {
    && ValidVersion(qr.version) && 0 <= qr.mask <= 7 && qr.modules.Length0 == qr.modules.Length1
    && var start := FunctionSheet(qr.version, qr.errorCorrectionLevel);
       Finished(start.modules, start.marked, Contents(qr.modules), qr.version, qr.errorCorrectionLevel, data, codewords,
                qr.mask, mask, FormatWords(qr.errorCorrectionLevel))
  }

  ghost predicate Holds(qr: QrCode, data: seq<Byte>, mask: int)
    reads qr`mask, qr.modules
  {
    exists codewords :: Carried(qr, data, codewords, mask)
  }

  /** The symbol holds the padded stream of the segments. */
  ghost predicate MadeOf(qr: QrCode, segs: seq<Segment>, mask: int)
    reads qr`mask, qr.modules
  {
    exists data :: HoldsStream(segs, Encoding(qr.version, qr.errorCorrectionLevel, data)) && Holds(qr, data, mask)
  }

  /** The version and the level are the best choice for the segments, and the mask is the one asked for, or
      the best. */
  ghost predicate MadeBest(qr: QrCode, segs: seq<Segment>, ecl: Ecc, minVersion: int, maxVersion: int, mask: int,
                           boostEcl: bool)
    requires 1 <= minVersion && maxVersion <= 40
    reads qr`mask, qr.modules
  {
    && BestChoice(segs, ecl, minVersion, maxVersion, boostEcl, qr.version, qr.errorCorrectionLevel)
    && MadeOf(qr, segs, mask)
  }

  /** The same for payloads, any version, boosting and the automatic choice of the mask. */
  ghost predicate MadeFor(qr: QrCode, ps: seq<Payload>, ecl: Ecc)
    reads qr`mask, qr.modules
  {
    AllValid(ps) && MadeBest(qr, SegmentsOf(ps), ecl, 1, 40, -1, true)
  }

  lemma HeldIsValid(e: Encoding, ps: seq<Payload>)
    requires AllValid(ps) && HoldsStream(SegmentsOf(ps), e)
    ensures ValidVersion(e.version) && |e.dataCodewords| == NumDataCodewords(e.version, e.ecl)
  {
    hide NumDataCodewords, Unpack, Encoder.Padded, StreamBits, CountsFit;
  }

  /** The constructor, from the data codewords on. */
  method MakeSymbol(e: Encoding, mask: int, ghost ps: seq<Payload>) returns (qr: QrCode)
    requires -1 <= mask <= 7 && AllValid(ps) && HoldsStream(SegmentsOf(ps), e)
    ensures fresh(qr) && qr.Valid() && qr.version == e.version && qr.errorCorrectionLevel == e.ecl
    ensures 0 <= qr.mask <= 7 && (mask >= 0 ==> qr.mask == mask)
    ensures Holds(qr, e.dataCodewords, mask)
    ensures Shows(qr, ps)
  {
    hide NumDataCodewords, Contents, DecodeSymbol, Finished, HoldsStream, FunctionSheet, FormatWord, FormatCellsMarked,
         Genuine, SegmentOf;
    HeldIsValid(e, ps);
    var made;
    ghost var codewords;
    made, codewords := MakeQrCode(e.version, e.ecl, e.dataCodewords, mask);
    qr := made.value;
    ghost var s := Symbol(e.version, e.ecl, qr.mask, Contents(qr.isFunction), Contents(qr.modules));
    MadeIsGenuine(s, e.dataCodewords, codewords, mask);
    assert Carried(qr, e.dataCodewords, codewords, mask);
    DecodeRoundTrip(ps, s, e, codewords, FunctionSheet(e.version, e.ecl).modules, mask);
  }

  lemma MadeIsGenuine(s: Symbol, data: seq<Byte>, codewords: seq<Byte>, msk: int)
    requires ValidVersion(s.version) && 0 <= s.mask <= 7
    requires var start := FunctionSheet(s.version, s.ecl);
             && s.marked == start.marked
             && Finished(start.modules, start.marked, s.modules, s.version, s.ecl, data, codewords, s.mask, msk,
                         FormatWords(s.ecl))
    ensures Genuine(s, data, codewords, FunctionSheet(s.version, s.ecl).modules, msk)
  {
    hide Finished, FunctionSheet, FormatWord, FormatCellsMarked;
    TimingAndFormatMarked(s.version, s.ecl);
  }

  /** The payloads fit no version of the range at the level. */
  ghost predicate TooMuch(ps: seq<Payload>, ecl: Ecc, minVersion: int, maxVersion: int)
    requires 1 <= minVersion && maxVersion <= 40
  {
    AllValid(ps) && forall v :: minVersion <= v <= maxVersion ==> !Fits(SegmentsOf(ps), v, ecl)
  }

  /** Segments made by the factories, as a symbol. */
  method EncodeToSymbol(segs: seq<Segment>, ecl: Ecc, minVersion: int, maxVersion: int, mask: int, boostEcl: bool,
      ghost ps: seq<Payload>) returns (r: Result<QrCode, EncodeError>)
    requires AllValid(ps) && segs == SegmentsOf(ps)
    ensures r.Failure? && r.error == InvalidValue <==> !ValidArguments(minVersion, maxVersion, mask)
    ensures ValidArguments(minVersion, maxVersion, mask) ==> (r.Failure? <==> TooMuch(ps, ecl, minVersion, maxVersion))
    ensures r.Success? ==>
              var qr := r.value;
              && fresh(qr) && qr.Valid() && (mask >= 0 ==> qr.mask == mask)
              && MadeBest(qr, segs, ecl, minVersion, maxVersion, mask, boostEcl)
              && Shows(qr, ps)
  {
    hide Shows, HoldsStream, Fits, SegmentOf, Holds, BestChoice;
    var e := EncodeSegments(segs, ecl, minVersion, maxVersion, mask, boostEcl);
    match e
    case Failure(error) =>
      r := Failure(error);
    case Success(encoding) =>
      var qr := MakeSymbol(encoding, mask, ps);
      r := Success(qr);
  }

  /** What the segments of a text stand for: one payload, or none for the empty text. */
  function TextPayloads(text: string): seq<Payload>
    requires IsCString(text)
  {
    if text == [] then [] else [PayloadOf(text)]
  }

  /** The characters that payloads stand for. */
  function Units(ps: seq<Payload>): seq<uint8>
    requires forall i :: 0 <= i < |ps| ==> (ps[i].Digits? ==> IsCString(ps[i].digits))
    requires forall i :: 0 <= i < |ps| ==> (ps[i].Alphanumeric? ==> IsCString(ps[i].text))
  {
    if ps == [] then [] else Units(ps[..|ps| - 1]) + PayloadUnits(ps[|ps| - 1])
  }

  /** The payloads of a text stand for the characters of the text. */
  lemma TextUnits(text: string)
    requires IsCString(text)
    ensures Units(TextPayloads(text)) == CodeUnits(text)
  {
    var ps := TextPayloads(text);
    if text != [] {
      assert ps[..0] == [] && Units(ps[..0]) == [];
    }
  }

  lemma InvalidAlone(p: Payload)
    requires !ValidPayload(p)
    ensures !AllValid([p])
  {
    assert [p][0] == p;
  }

  datatype TextError = DataTooLong | FitsNoVersion

  /** Text in, a symbol out; a reader of the symbol gets the characters of the text. */
  method EncodeText(text: string, ecl: Ecc) returns (r: Result<QrCode, TextError>)
    requires IsCString(text)
    ensures r.Failure? && r.error == TextError.DataTooLong <==> !ValidPayload(PayloadOf(text))
    ensures r.Failure? && r.error == FitsNoVersion <==> TooMuch(TextPayloads(text), ecl, 1, 40)
    ensures r.Success? ==>
              && fresh(r.value) && r.value.Valid() && Shows(r.value, TextPayloads(text))
              && MadeFor(r.value, TextPayloads(text), ecl)
  {
    hide Shows, SegmentOf, Fits, PayloadOf, BestChoice, MadeOf;
    var segs := MakeSegments(text);
    if segs.Failure? {
      InvalidAlone(PayloadOf(text));
      return Failure(TextError.DataTooLong);
    }
    assert segs.value == SegmentsOf(TextPayloads(text));
    var made := EncodeToSymbol(segs.value, ecl, MIN_VERSION, MAX_VERSION, -1, true, TextPayloads(text));
    match made
    case Success(qr) => r := Success(qr);
    case Failure(_) => r := Failure(FitsNoVersion);
  }

  /** Bytes in, a symbol out; a reader of the symbol gets the bytes. */
  method EncodeBinary(data: seq<uint8>, ecl: Ecc) returns (r: Result<QrCode, TextError>)
    ensures r.Failure? && r.error == TextError.DataTooLong <==> |data| > INT_MAX
    ensures r.Failure? && r.error == FitsNoVersion <==> TooMuch([Bytes(data)], ecl, 1, 40)
    ensures r.Success? ==>
              && fresh(r.value) && r.value.Valid() && Shows(r.value, [Bytes(data)])
              && MadeFor(r.value, [Bytes(data)], ecl)
  {
    hide Shows, SegmentOf, Fits, BestChoice, MadeOf;
    var seg := MakeBytes(data);
    if seg.Failure? {
      InvalidAlone(Bytes(data));
      return Failure(TextError.DataTooLong);
    }
    assert [seg.value] == SegmentsOf([Bytes(data)]);
    var made := EncodeToSymbol([seg.value], ecl, MIN_VERSION, MAX_VERSION, -1, true, [Bytes(data)]);
    match made
    case Success(qr) => r := Success(qr);
    case Failure(_) => r := Failure(FitsNoVersion);
  }
}
