/**
 Segments of a QR Code: the factories that turn text, bytes and ECI designators into bits, and the
 decoding of each kind of payload.
 */
module Segments {
  import opened Bits
  import opened Wrappers

  const INT_MAX := 0x7FFF_FFFF

  /** What a C string can hold: 8-bit characters other than the terminator. */
  predicate IsCString(text: string) {
    forall i :: 0 <= i < |text| ==> 0 < text[i] as int < 256
  }

  datatype Mode = NUMERIC | ALPHANUMERIC | BYTE | KANJI | ECI

  function ModeBits(mode: Mode): uint32 {
    match mode
    case NUMERIC => 1
    case ALPHANUMERIC => 2
    case BYTE => 4
    case KANJI => 8
    case ECI => 7
  }

  function NumBitsCharCount(mode: Mode): (row: seq<nat>)
    ensures |row| == 3
  {
    match mode
    case NUMERIC => [10, 12, 14]
    case ALPHANUMERIC => [9, 11, 13]
    case BYTE => [8, 16, 16]
    case KANJI => [8, 10, 12]
    case ECI => [0, 0, 0]
  }

  /** The width of the character count field. */
  function NumCharCountBits(mode: Mode, ver: nat): nat
    requires 1 <= ver <= 40
  {
    NumBitsCharCount(mode)[(ver + 7) / 17]
  }

  datatype Segment = Segment(mode: Mode, numChars: nat, data: seq<bool>)

  datatype Error = NonNumericCharacter | UnencodableCharacter | DataTooLong | EciOutOfRange

  /** What a segment made by one of the factories stands for. */
  datatype Payload =
    | Digits(digits: string)
    | Alphanumeric(text: string)
    | Bytes(bytes: seq<uint8>)
    | Designator(assignVal: nat)

  /** The characters of alphanumeric mode; each stands for its index. */
  function Charset(): (s: string)
    ensures |s| == 45
  {
    "0123456789" + "ABCDEFGHIJKLMNOPQRSTUVWXYZ" + " $%*+-./:"
  }

  /** The index of the first occurrence of c. */
  function StrChr(s: string, c: char): (r: Option<nat>)
    ensures r.Some? ==> r.value < |s| && s[r.value] == c && c !in s[..r.value]
    ensures r.None? ==> c !in s
  {
    if s == [] then None
    else if s[0] == c then Some(0)
    else match StrChr(s[1..], c)
      case None => None
      case Some(k) => assert s[..k + 1] == [s[0]] + s[1..][..k]; Some(k + 1)
  }

  predicate IsDigit(c: char) {
    '0' <= c <= '9'
  }

  predicate AllNumeric(text: string) {
    forall i :: 0 <= i < |text| ==> IsDigit(text[i])
  }

  predicate AllAlphanumeric(text: string) {
    forall i :: 0 <= i < |text| ==> text[i] in Charset()
  }

  function DigitValue(c: char): (v: nat)
    requires IsDigit(c)
    ensures v < 10
  {
    c as int - '0' as int
  }

  function DigitChar(v: nat): (c: char)
    requires v < 10
    ensures IsDigit(c) && DigitValue(c) == v
  {
    ('0' as int + v) as char
  }

  function CharValue(c: char): (v: nat)
    requires c in Charset()
    ensures v < 45 && Charset()[v] == c
  {
    StrChr(Charset(), c).value
  }

  // ----- the bits of each kind of payload

  function NumericLen(n: nat): nat {
    10 * (n / 3) + if n % 3 == 0 then 0 else if n % 3 == 1 then 4 else 7
  }

  function AlphanumericLen(n: nat): nat {
    11 * (n / 2) + 6 * (n % 2)
  }

  /** The number a string of digits denotes. */
  function DigitsValue(text: string): nat
    requires AllNumeric(text)
  {
    if text == [] then 0 else 10 * DigitsValue(text[..|text| - 1]) + DigitValue(text[|text| - 1])
  }

  /** Three digits to ten bits, with four or seven bits for one or two digits left over. */
  function NumericBits(text: string): (bits: seq<bool>)
    requires AllNumeric(text)
    ensures |bits| == NumericLen(|text|)
  {
    if |text| == 0 then []
    else if |text| < 3 then BitsOf(DigitsValue(text), 3 * |text| + 1)
    else BitsOf(DigitsValue(text[..3]), 10) + NumericBits(text[3..])
  }

  /** Two characters to eleven bits, with six bits for a character left over. */
  function AlphanumericBits(text: string): (bits: seq<bool>)
    requires AllAlphanumeric(text)
    ensures |bits| == AlphanumericLen(|text|)
  {
    if |text| == 0 then []
    else if |text| == 1 then BitsOf(CharValue(text[0]), 6)
    else BitsOf(45 * CharValue(text[0]) + CharValue(text[1]), 11) + AlphanumericBits(text[2..])
  }

  function ByteBits(data: seq<uint8>): (bits: seq<bool>)
    ensures |bits| == 8 * |data|
  {
    if data == [] then [] else BitsOf(data[0], 8) + ByteBits(data[1..])
  }

  /** One, two or three bytes, told apart by their leading bits. */
  function DesignatorBits(v: nat): seq<bool> {
    if v < 128 then BitsOf(v, 8)
    else if v < 16384 then BitsOf(2, 2) + BitsOf(v, 14)
    else BitsOf(6, 3) + BitsOf(v, 21)
  }

  predicate ValidPayload(p: Payload) {
    match p
    case Digits(text) => AllNumeric(text)
    case Alphanumeric(text) => AllAlphanumeric(text)
    case Bytes(data) => |data| <= INT_MAX
    case Designator(v) => v < 1000000
  }

  /** The segment a factory makes. */
  function SegmentOf(p: Payload): Segment
    requires ValidPayload(p)
  {
    match p
    case Digits(text) => Segment(NUMERIC, |text|, NumericBits(text))
    case Alphanumeric(text) => Segment(ALPHANUMERIC, |text|, AlphanumericBits(text))
    case Bytes(data) => Segment(BYTE, |data|, ByteBits(data))
    case Designator(v) => Segment(ECI, 0, DesignatorBits(v))
  }

  lemma SegmentsMade(p: Payload)
    ensures p.Digits? && AllNumeric(p.digits) ==> SegmentOf(p) == Segment(NUMERIC, |p.digits|, NumericBits(p.digits))
    ensures p.Alphanumeric? && AllAlphanumeric(p.text) ==>
              SegmentOf(p) == Segment(ALPHANUMERIC, |p.text|, AlphanumericBits(p.text))
    ensures p.Bytes? && |p.bytes| <= INT_MAX ==> SegmentOf(p) == Segment(BYTE, |p.bytes|, ByteBits(p.bytes))
  {
  }

  // ----- the factories

  lemma Widths()
    ensures Exp2(2) == 4 && Exp2(3) == 8 && Exp2(4) == 16 && Exp2(6) == 64 && Exp2(7) == 128 && Exp2(8) == 256
    ensures Exp2(10) == 1024 && Exp2(11) == 2048 && Exp2(14) == 16384 && Exp2(21) == 2097152
  {
    assert Exp2(14) == Exp2(11) * 8;
    assert Exp2(21) == Exp2(14) * 128;
  }

  lemma ByteBitsStep(data: seq<uint8>, i: nat)
    requires i <= |data|
    ensures i < |data| ==> ByteBits(data[i..]) == BitsOf(data[i], 8) + ByteBits(data[i + 1..])
    ensures i == |data| ==> ByteBits(data[i..]) == []
  {
    hide BitsOf;
    if i < |data| {
      assert data[i..][1..] == data[i + 1..];
    }
  }

  method MakeBytes(data: seq<uint8>) returns (r: Result<Segment, Error>)
    ensures r == if |data| <= INT_MAX then Success(SegmentOf(Bytes(data))) else Failure(DataTooLong)
  {
    hide Exp2, BitsOf, ByteBits, SegmentOf;
    SegmentsMade(Bytes(data));
    Widths();
    if |data| > INT_MAX {
      return Failure(DataTooLong);
    }
    var bb := new BitBuffer();
    var i := 0;
    assert data[0..] == data;
    while i < |data|
      invariant 0 <= i <= |data|
      invariant bb.bits + ByteBits(data[i..]) == ByteBits(data)
    {
      ByteBitsStep(data, i);
      var ok := bb.AppendBits(data[i], 8);
      assert ok;
      i := i + 1;
    }
    ByteBitsStep(data, i);
    assert bb.bits + [] == bb.bits;
    r := Success(Segment(BYTE, |data|, bb.bits));
  }

  lemma {:induction false} DigitsBound(text: string)
    requires AllNumeric(text) && |text| <= 3
    ensures DigitsValue(text) < if |text| == 0 then 1 else if |text| == 1 then 10 else if |text| == 2 then 100 else 1000
  {
    if text != [] {
      DigitsBound(text[..|text| - 1]);
    }
  }

  lemma NumericGroup(text: string, g: nat)
    requires AllNumeric(text) && g <= |text|
    ensures g + 3 <= |text| ==>
              DigitsValue(text[g..g + 3]) < 1000 &&
              NumericBits(text[g..]) == BitsOf(DigitsValue(text[g..g + 3]), 10) + NumericBits(text[g + 3..])
    ensures g == |text| ==> NumericBits(text[g..]) == []
    ensures g + 1 == |text| ==>
              DigitsValue(text[g..]) < 10 && NumericBits(text[g..]) == BitsOf(DigitsValue(text[g..]), 4)
    ensures g + 2 == |text| ==>
              DigitsValue(text[g..]) < 100 && NumericBits(text[g..]) == BitsOf(DigitsValue(text[g..]), 7)
  {
    hide BitsOf;
    if g + 3 <= |text| {
      DigitsBound(text[g..g + 3]);
      assert text[g..][..3] == text[g..g + 3] && text[g..][3..] == text[g + 3..];
    } else {
      DigitsBound(text[g..]);
    }
  }

  lemma DigitsSnoc(text: string, g: nat, k: nat)
    requires g <= k < |text| && AllNumeric(text[..k]) && IsDigit(text[k])
    ensures AllNumeric(text[..k + 1]) && AllNumeric(text[g..k]) && AllNumeric(text[g..k + 1])
    ensures DigitsValue(text[g..k + 1]) == 10 * DigitsValue(text[g..k]) + DigitValue(text[k])
  {
    assert text[..k + 1] == text[..k] + [text[k]];
    assert text[g..k + 1] == text[..k + 1][g..];
    assert text[g..k] == text[..k][g..];
    assert text[g..k + 1][..k - g] == text[g..k];
  }

  /** The first n characters are digits; those from g on are being accumulated, and the bits of the others
      have been appended. */
  ghost predicate NumericState(text: string, bits: seq<bool>, g: nat, n: nat, accumData: nat) {
    && g <= n <= |text| && n - g < 3
    && AllNumeric(text[..n]) && AllNumeric(text[g..n]) && accumData == DigitsValue(text[g..n])
    && (AllNumeric(text) ==> bits + NumericBits(text[g..]) == NumericBits(text))
  }

  lemma NumericStart(text: string)
    ensures NumericState(text, [], 0, 0, 0)
  {
    hide NumericBits;
    assert text[0..] == text;
    if AllNumeric(text) {
      assert [] + NumericBits(text) == NumericBits(text);
    }
  }

  /** A full group of three digits. */
  lemma NumericGroupDone(text: string, bits: seq<bool>, g: nat, accumData: nat)
    requires NumericState(text, bits, g, g + 2, accumData) && g + 2 < |text| && IsDigit(text[g + 2])
    ensures 10 * accumData + DigitValue(text[g + 2]) < 1000
    ensures NumericState(text, bits + BitsOf(10 * accumData + DigitValue(text[g + 2]), 10), g + 3, g + 3, 0)
  {
    hide BitsOf, NumericBits, DigitsValue, DigitValue;
    DigitsSnoc(text, g, g + 2);
    DigitsBound(text[g..g + 3]);
    DigitsEmpty(text[g + 3..g + 3]);
    if AllNumeric(text) {
      NumericGroup(text, g);
      var v := BitsOf(DigitsValue(text[g..g + 3]), 10);
      assert bits + (v + NumericBits(text[g + 3..])) == bits + v + NumericBits(text[g + 3..]);
    }
  }

  /** The body of the source's loop for a digit; g is the start of the group being accumulated. */
  method AddDigit(bb: BitBuffer, text: string, charCount: nat, accumData: nat, accumCount: nat, ghost g: nat)
      returns (accumData': nat, accumCount': nat, ghost g': nat)
    requires NumericState(text, bb.bits, g, charCount, accumData) && accumCount == charCount - g
    requires charCount < |text| && IsDigit(text[charCount])
    modifies bb
    ensures NumericState(text, bb.bits, g', charCount + 1, accumData') && accumCount' == charCount + 1 - g'
  {
    hide Exp2, BitsOf, NumericBits, DigitsValue;
    Widths();
    var c := text[charCount];
    DigitsSnoc(text, g, charCount);
    accumData', accumCount', g' := accumData * 10 + (c as int - '0' as int), accumCount + 1, g;
    if accumCount' == 3 {
      NumericGroupDone(text, bb.bits, g, accumData);
      var ok := bb.AppendBits(accumData', 10);
      assert ok;
      accumData', accumCount', g' := 0, 0, g + 3;
    }
  }

  method MakeNumeric(text: string) returns (r: Result<Segment, Error>)
    ensures r == if AllNumeric(text) then Success(SegmentOf(Digits(text))) else Failure(NonNumericCharacter)
  {
    hide Exp2, BitsOf, NumericBits, DigitsValue, SegmentOf, NumericState;
    SegmentsMade(Digits(text));
    Widths();
    NumericStart(text);
    var bb := new BitBuffer();
    var accumData, accumCount, charCount := 0, 0, 0;
    ghost var g := 0;
    while charCount < |text|
      invariant 0 <= g <= charCount <= |text| && accumCount == charCount - g < 3 && accumData >= 0
      invariant NumericState(text, bb.bits, g, charCount, accumData)
      decreases |text| - charCount
    {
      var c := text[charCount];
      if c < '0' || c > '9' {
        return Failure(NonNumericCharacter);
      }
      accumData, accumCount, g := AddDigit(bb, text, charCount, accumData, accumCount, g);
      NumericBounds(text, bb.bits, g, charCount + 1, accumData);
      charCount := charCount + 1;
    }
    NumericEnd(text, bb.bits, g, accumData);
    if accumCount > 0 {
      var ok := bb.AppendBits(accumData, accumCount * 3 + 1);
      assert ok;
    }
    r := Success(Segment(NUMERIC, charCount, bb.bits));
  }

  lemma NumericBounds(text: string, bits: seq<bool>, g: nat, n: nat, accumData: nat)
    requires NumericState(text, bits, g, n, accumData)
    ensures g <= n <= |text| && n - g < 3
  {
    hide NumericBits, DigitsValue;
  }

  /** At the end of the text, one or two digits may be left over. */
  lemma NumericEnd(text: string, bits: seq<bool>, g: nat, accumData: nat)
    requires NumericState(text, bits, g, |text|, accumData)
    ensures AllNumeric(text) && |text| - g < 3
    ensures |text| - g == 0 ==> bits == NumericBits(text)
    ensures |text| - g == 1 ==> accumData < 10 && bits + BitsOf(accumData, 4) == NumericBits(text)
    ensures |text| - g == 2 ==> accumData < 100 && bits + BitsOf(accumData, 7) == NumericBits(text)
  {
    hide BitsOf, NumericBits, DigitsValue;
    assert text[..|text|] == text && text[g..|text|] == text[g..];
    NumericGroup(text, g);
    assert bits + [] == bits;
  }

  lemma DigitsEmpty(text: string)
    requires text == []
    ensures DigitsValue(text) == 0
  {
  }

  lemma AlphanumericGroup(text: string, g: nat)
    requires AllAlphanumeric(text) && g <= |text|
    ensures g + 2 <= |text| ==>
              AlphanumericBits(text[g..]) ==
              BitsOf(45 * CharValue(text[g]) + CharValue(text[g + 1]), 11) + AlphanumericBits(text[g + 2..])
    ensures g == |text| ==> AlphanumericBits(text[g..]) == []
    ensures g + 1 == |text| ==> AlphanumericBits(text[g..]) == BitsOf(CharValue(text[g]), 6)
  {
    hide BitsOf, CharValue, Charset;
    if g + 2 <= |text| {
      assert text[g..][2..] == text[g + 2..];
    }
  }

  lemma CharValueIs(c: char)
    requires c in Charset()
    ensures StrChr(Charset(), c) == Some(CharValue(c))
  {
    hide Charset, StrChr;
  }

  /** The first n characters are in the set; the one from g on, if any, is being accumulated, and the bits of
      the others have been appended. */
  ghost predicate AlphanumericState(text: string, bits: seq<bool>, g: nat, n: nat, accumData: nat) {
    && g <= n <= |text| && n - g < 2 && AllAlphanumeric(text[..n])
    && (n == g ==> accumData == 0) && (n > g ==> text[g] in Charset() && accumData == CharValue(text[g]))
    && (AllAlphanumeric(text) ==> bits + AlphanumericBits(text[g..]) == AlphanumericBits(text))
  }

  lemma AlphanumericStart(text: string)
    ensures AlphanumericState(text, [], 0, 0, 0)
  {
    hide AlphanumericBits, Charset, CharValue;
    assert text[0..] == text;
    if AllAlphanumeric(text) {
      assert [] + AlphanumericBits(text) == AlphanumericBits(text);
    }
  }

  lemma OneMoreCharacter(text: string, bits: seq<bool>, g: nat)
    requires g < |text| && text[g] in Charset() && AlphanumericState(text, bits, g, g, 0)
    ensures AlphanumericState(text, bits, g, g + 1, CharValue(text[g]))
  {
    hide AlphanumericBits, Charset, CharValue;
  }

  lemma PairDone(text: string, bits: seq<bool>, g: nat, accumData: nat)
    requires g + 1 < |text| && text[g + 1] in Charset() && AlphanumericState(text, bits, g, g + 1, accumData)
    ensures accumData * 45 + CharValue(text[g + 1]) < 2048
    ensures AlphanumericState(text, bits + BitsOf(accumData * 45 + CharValue(text[g + 1]), 11), g + 2, g + 2, 0)
  {
    hide AlphanumericBits, BitsOf, Charset, CharValue;
    if AllAlphanumeric(text) {
      AlphanumericGroup(text, g);
      var v := BitsOf(45 * CharValue(text[g]) + CharValue(text[g + 1]), 11);
      assert bits + (v + AlphanumericBits(text[g + 2..])) == bits + v + AlphanumericBits(text[g + 2..]);
    }
  }

  lemma AlphanumericBounds(text: string, bits: seq<bool>, g: nat, n: nat, accumData: nat)
    requires AlphanumericState(text, bits, g, n, accumData)
    ensures g <= n <= |text| && n - g < 2
  {
    hide AlphanumericBits, Charset, CharValue;
  }

  /** At the end of the text, one character may be left over. */
  lemma AlphanumericEnd(text: string, bits: seq<bool>, g: nat, accumData: nat)
    requires AlphanumericState(text, bits, g, |text|, accumData)
    ensures AllAlphanumeric(text)
    ensures g == |text| ==> bits == AlphanumericBits(text)
    ensures g < |text| ==> accumData < 45 && bits + BitsOf(accumData, 6) == AlphanumericBits(text)
  {
    hide AlphanumericBits, BitsOf, Charset, CharValue;
    assert text[..|text|] == text;
    AlphanumericGroup(text, g);
    assert bits + [] == bits;
  }

  /** The body of the source's loop for a character of the set. */
  method AddCharacter(bb: BitBuffer, text: string, charCount: nat, accumData: nat, accumCount: nat, value: nat,
                      ghost g: nat)
      returns (accumData': nat, accumCount': nat, ghost g': nat)
    requires AlphanumericState(text, bb.bits, g, charCount, accumData) && accumCount == charCount - g
    requires charCount < |text| && text[charCount] in Charset() && value == CharValue(text[charCount])
    modifies bb
    ensures AlphanumericState(text, bb.bits, g', charCount + 1, accumData') && accumCount' == charCount + 1 - g'
  {
    hide Exp2, BitsOf, AlphanumericBits, Charset, CharValue, AlphanumericState;
    Widths();
    AlphanumericBounds(text, bb.bits, g, charCount, accumData);
    accumData', accumCount', g' := accumData * 45 + value, accumCount + 1, g;
    if accumCount' == 2 {
      PairDone(text, bb.bits, g, accumData);
      var ok := bb.AppendBits(accumData', 11);
      assert ok;
      accumData', accumCount', g' := 0, 0, g + 2;
    } else {
      NothingAccumulated(text, bb.bits, g, accumData);
      OneMoreCharacter(text, bb.bits, g);
    }
  }

  lemma NothingAccumulated(text: string, bits: seq<bool>, g: nat, accumData: nat)
    requires AlphanumericState(text, bits, g, g, accumData)
    ensures accumData == 0
  {
    hide AlphanumericBits, Charset, CharValue;
  }

  method MakeAlphanumeric(text: string) returns (r: Result<Segment, Error>)
    ensures r == if AllAlphanumeric(text) then Success(SegmentOf(Alphanumeric(text))) else Failure(UnencodableCharacter)
  {
    hide Exp2, BitsOf, AlphanumericBits, Charset, StrChr, CharValue, SegmentOf, AlphanumericState;
    SegmentsMade(Alphanumeric(text));
    Widths();
    AlphanumericStart(text);
    var bb := new BitBuffer();
    var accumData, accumCount, charCount := 0, 0, 0;
    ghost var g := 0;
    while charCount < |text|
      invariant 0 <= g <= charCount <= |text| && accumCount == charCount - g < 2 && accumData >= 0
      invariant AlphanumericState(text, bb.bits, g, charCount, accumData)
      decreases |text| - charCount
    {
      var temp := StrChr(Charset(), text[charCount]);
      if temp == None {
        return Failure(UnencodableCharacter);
      }
      CharValueIs(text[charCount]);
      accumData, accumCount, g := AddCharacter(bb, text, charCount, accumData, accumCount, temp.value, g);
      AlphanumericBounds(text, bb.bits, g, charCount + 1, accumData);
      charCount := charCount + 1;
    }
    AlphanumericEnd(text, bb.bits, g, accumData);
    if accumCount > 0 {
      var ok := bb.AppendBits(accumData, 6);
      assert ok;
    }
    r := Success(Segment(ALPHANUMERIC, charCount, bb.bits));
  }

  method MakeEci(assignVal: int) returns (r: Result<Segment, Error>)
    ensures r == if 0 <= assignVal < 1000000 then Success(SegmentOf(Designator(assignVal))) else Failure(EciOutOfRange)
  {
    hide Exp2, BitsOf;
    Widths();
    var bb := new BitBuffer();
    var ok;
    if assignVal < 0 {
      return Failure(EciOutOfRange);
    } else if assignVal < 128 {
      ok := bb.AppendBits(assignVal, 8);
      assert ok;
    } else if assignVal < 16384 {
      ok := bb.AppendBits(2, 2);
      assert ok;
      ok := bb.AppendBits(assignVal, 14);
      assert ok;
    } else if assignVal < 1000000 {
      ok := bb.AppendBits(6, 3);
      assert ok;
      ok := bb.AppendBits(assignVal, 21);
      assert ok;
    } else {
      return Failure(EciOutOfRange);
    }
    assert bb.bits == DesignatorBits(assignVal);
    r := Success(Segment(ECI, 0, bb.bits));
  }

  method IsNumeric(text: string) returns (b: bool)
    ensures b <==> AllNumeric(text)
  {
    var i := 0;
    while i < |text|
      invariant 0 <= i <= |text| && AllNumeric(text[..i])
    {
      if text[i] < '0' || text[i] > '9' {
        return false;
      }
      i := i + 1;
    }
    assert text[..i] == text;
    b := true;
  }

  method IsAlphanumeric(text: string) returns (b: bool)
    ensures b <==> AllAlphanumeric(text)
  {
    var i := 0;
    hide Charset, StrChr;
    while i < |text|
      invariant 0 <= i <= |text| && AllAlphanumeric(text[..i])
    {
      if StrChr(Charset(), text[i]) == None {
        return false;
      }
      i := i + 1;
    }
    assert text[..i] == text;
    b := true;
  }

  function CodeUnits(text: string): (data: seq<uint8>)
    requires IsCString(text)
    ensures |data| == |text|
  {
    seq(|text|, i requires 0 <= i < |text| => text[i] as int)
  }

  /** The payload the encoder chooses for a text. */
  function PayloadOf(text: string): Payload
    requires IsCString(text)
  {
    if AllNumeric(text) then Digits(text)
    else if AllAlphanumeric(text) then Alphanumeric(text)
    else Bytes(CodeUnits(text))
  }

  /** Of all payloads that stand for the characters of a text, it takes the fewest bits. */
  lemma PayloadIsNarrowest(text: string, p: Payload)
    requires IsCString(text) && ValidPayload(p)
    requires p == Digits(text) || p == Alphanumeric(text) || p == Bytes(CodeUnits(text))
    ensures ValidPayload(PayloadOf(text)) && |SegmentOf(PayloadOf(text)).data| <= |SegmentOf(p).data|
  {
    hide NumericBits, AlphanumericBits, ByteBits, Charset;
    if AllNumeric(text) {
      DigitsInCharset(text);
    }
  }

  lemma DigitsInCharset(text: string)
    requires AllNumeric(text)
    ensures AllAlphanumeric(text)
  {
    forall i | 0 <= i < |text|
      ensures text[i] in Charset()
    {
      DigitAt(DigitValue(text[i]));
    }
  }

  lemma DigitAt(v: nat)
    requires v < 10
    ensures Charset()[v] == DigitChar(v)
  {
  }

  method MakeSegments(text: string) returns (r: Result<seq<Segment>, Error>)
    requires IsCString(text)
    ensures r.Success? <==> ValidPayload(PayloadOf(text))
    ensures r.Success? ==> r.value == if text == [] then [] else [SegmentOf(PayloadOf(text))]
    ensures r.Failure? ==> |text| > INT_MAX && r.error == DataTooLong
  {
    if text == [] {
      return Success([]);
    }
    var numeric := IsNumeric(text);
    var alphanumeric := IsAlphanumeric(text);
    var segment;
    hide SegmentOf, Charset;
    if numeric {
      segment := MakeNumeric(text);
    } else if alphanumeric {
      segment := MakeAlphanumeric(text);
    } else {
      var bytes: seq<uint8> := [];
      var i := 0;
      while i < |text|
        invariant 0 <= i <= |text|
        invariant bytes == CodeUnits(text)[..i]
      {
        bytes := bytes + [text[i] as int];
        i := i + 1;
      }
      assert bytes == CodeUnits(text);
      segment := MakeBytes(bytes);
    }
    match segment
    case Success(s) => r := Success([s]);
    case Failure(e) => r := Failure(e);
  }

  // ----- decoding

  function ThreeChars(v: nat): (s: string)
    requires v < 1000
    ensures |s| == 3
  {
    [DigitChar(v / 100), DigitChar(v / 10 % 10), DigitChar(v % 10)]
  }

  function DecodeNumeric(bits: seq<bool>, n: nat): Option<string>
    requires |bits| == NumericLen(n)
  {
    if n == 0 then Some([])
    else if n == 1 then
      var v := Value(bits);
      if v >= 10 then None else Some([DigitChar(v)])
    else if n == 2 then
      var v := Value(bits);
      if v >= 100 then None else Some([DigitChar(v / 10), DigitChar(v % 10)])
    else
      var v := Value(bits[..10]);
      if v >= 1000 then None else
      match DecodeNumeric(bits[10..], n - 3)
      case None => None
      case Some(rest) => Some(ThreeChars(v) + rest)
  }

  function DecodeAlphanumeric(bits: seq<bool>, n: nat): Option<string>
    requires |bits| == AlphanumericLen(n)
  {
    if n == 0 then Some([])
    else if n == 1 then
      var v := Value(bits);
      if v >= 45 then None else Some([Charset()[v]])
    else
      var v := Value(bits[..11]);
      if v >= 2025 then None else
      match DecodeAlphanumeric(bits[11..], n - 2)
      case None => None
      case Some(rest) => Some([Charset()[v / 45], Charset()[v % 45]] + rest)
  }

  function DecodeBytes(bits: seq<bool>): (data: seq<uint8>)
    requires |bits| % 8 == 0
  {
    if bits == [] then [] else
    ValueBound(bits[..8]);
    assert Exp2(8) == 256;
    [Value(bits[..8])] + DecodeBytes(bits[8..])
  }

  lemma DigitsSplit(text: string)
    requires AllNumeric(text) && 1 <= |text| <= 3
    ensures |text| == 1 ==> DigitsValue(text) == DigitValue(text[0])
    ensures |text| == 2 ==> DigitsValue(text) == 10 * DigitValue(text[0]) + DigitValue(text[1])
    ensures |text| == 3 ==>
              DigitsValue(text) == 100 * DigitValue(text[0]) + 10 * DigitValue(text[1]) + DigitValue(text[2])
  {
    var n := |text|;
    assert DigitsValue(text) == 10 * DigitsValue(text[..n - 1]) + DigitValue(text[n - 1]);
    if n > 1 {
      assert text[..n - 1][..n - 2] == text[..n - 2];
    }
    if n > 2 {
      assert text[..1][..0] == [];
    }
  }

  lemma {:induction false} NumericRoundTrip(text: string)
    requires AllNumeric(text)
    ensures DecodeNumeric(NumericBits(text), |text|) == Some(text)
  {
    hide Exp2, BitsOf, Value, NumericBits, DigitsValue;
    Widths();
    NumericGroup(text, 0);
    assert text[0..] == text;
    if |text| == 0 {
      assert DecodeNumeric([], 0) == Some([]);
    } else if |text| <= 2 {
      DigitsSplit(text);
      ValueOfBits(DigitsValue(text), 3 * |text| + 1);
      assert text == if |text| == 1 then [text[0]] else [text[0], text[1]];
    } else {
      NumericRoundTrip(text[3..]);
      NumericStep(text[0..3], text[3..], NumericBits(text[3..]));
      assert text == text[0..3] + text[3..];
    }
  }

  lemma ThreeDigits(a: nat, b: nat, c: nat)
    requires a < 10 && b < 10 && c < 10
    ensures var v := 100 * a + 10 * b + c; v < 1000 && v / 100 == a && v / 10 % 10 == b && v % 10 == c
  {
    var v := 100 * a + 10 * b + c;
    assert v / 10 == 10 * a + b;
  }

  lemma DigitCharOfValue(c: char)
    requires IsDigit(c)
    ensures DigitChar(DigitValue(c)) == c
  {
  }

  lemma HeadDigits(head: string)
    requires AllNumeric(head) && |head| == 3
    ensures var v := DigitsValue(head);
            v < 1000 && ThreeChars(v) == head
  {
    DigitsSplit(head);
    hide DigitsValue, DigitValue, DigitChar;
    var a, b, c := head[0], head[1], head[2];
    ThreeDigits(DigitValue(a), DigitValue(b), DigitValue(c));
    DigitCharOfValue(a);
    DigitCharOfValue(b);
    DigitCharOfValue(c);
  }

  lemma NumericLenStep(n: nat)
    requires n >= 3
    ensures NumericLen(n) == 10 + NumericLen(n - 3)
  {
  }

  lemma DecodeNumericStep(bits: seq<bool>, n: nat, v: nat, rest: string)
    requires n >= 3 && |bits| == NumericLen(n) && |bits[10..]| == NumericLen(n - 3)
    requires v == Value(bits[..10]) < 1000 && DecodeNumeric(bits[10..], n - 3) == Some(rest)
    ensures DecodeNumeric(bits, n) == Some(ThreeChars(v) + rest)
  {
    hide ThreeChars;
  }

  lemma NumericStep(head: string, tail: string, rest: seq<bool>)
    requires AllNumeric(head) && |head| == 3 && |rest| == NumericLen(|tail|)
    requires DecodeNumeric(rest, |tail|) == Some(tail)
    ensures var bits := BitsOf(DigitsValue(head), 10) + rest;
            |bits| == NumericLen(|tail| + 3) && DecodeNumeric(bits, |tail| + 3) == Some(head + tail)
  {
    hide Exp2, BitsOf, Value, DigitsValue, ThreeChars, DecodeNumeric, NumericLen, AllNumeric;
    Widths();
    NumericLenStep(|tail| + 3);
    HeadDigits(head);
    var v := DigitsValue(head);
    var bits := BitsOf(v, 10) + rest;
    ValueOfBits(v, 10);
    assert bits[..10] == BitsOf(v, 10) && bits[10..] == rest;
    DecodeNumericStep(bits, |tail| + 3, v, tail);
  }

  lemma AlphanumericDecodes(text: string, bits: seq<bool>)
    requires |text| >= 2 && AllAlphanumeric(text) && bits == AlphanumericBits(text)
    ensures |bits| >= 11 && Value(bits[..11]) == 45 * CharValue(text[0]) + CharValue(text[1])
    ensures bits[11..] == AlphanumericBits(text[2..])
  {
    hide Exp2, BitsOf, Value, Charset, CharValue;
    Widths();
    AlphanumericGroup(text, 0);
    assert text[0..] == text;
    var v := 45 * CharValue(text[0]) + CharValue(text[1]);
    ValueOfBits(v, 11);
    assert bits[..11] == BitsOf(v, 11);
  }

  lemma {:induction false} AlphanumericRoundTrip(text: string)
    requires AllAlphanumeric(text)
    ensures DecodeAlphanumeric(AlphanumericBits(text), |text|) == Some(text)
  {
    hide Exp2, BitsOf, Value, Charset, CharValue, AlphanumericBits;
    Widths();
    AlphanumericGroup(text, 0);
    assert text[0..] == text;
    if |text| == 1 {
      ValueOfBits(CharValue(text[0]), 6);
      assert text == [text[0]];
    } else if |text| >= 2 {
      AlphanumericDecodes(text, AlphanumericBits(text));
      AlphanumericRoundTrip(text[2..]);
      assert text == [text[0], text[1]] + text[2..];
    }
  }

  lemma {:induction false} BytesRoundTrip(data: seq<uint8>)
    ensures DecodeBytes(ByteBits(data)) == data
  {
    hide Exp2, BitsOf, Value;
    Widths();
    if data != [] {
      ValueOfBits(data[0], 8);
      BytesRoundTrip(data[1..]);
      var bits := ByteBits(data);
      assert bits[..8] == BitsOf(data[0], 8) && bits[8..] == ByteBits(data[1..]);
    }
  }

  /** The code units a payload stands for. */
  function PayloadUnits(p: Payload): seq<uint8>
    requires p.Digits? ==> IsCString(p.digits)
    requires p.Alphanumeric? ==> IsCString(p.text)
  {
    match p
    case Digits(text) => CodeUnits(text)
    case Alphanumeric(text) => CodeUnits(text)
    case Bytes(data) => data
    case Designator(_) => []
  }
}
