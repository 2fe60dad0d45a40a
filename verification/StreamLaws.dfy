/**
 The numbers in the bit stream: the values of characters, the widths of the count field and the pad bytes,
 and the examples that ISO/IEC 18004 works out in section 7.4.
 */
module StreamLaws {
  import opened Bits
  import opened Encoder
  import opened QrTables
  import opened Segments

  // ----- characters

  /** The punctuation of alphanumeric mode, in the order of its values. */
  function SymbolRank(c: char): nat {
    if c == ' ' then 0 else if c == '$' then 1 else if c == '%' then 2 else if c == '*' then 3 else if c == '+' then 4
    else if c == '-' then 5 else if c == '.' then 6 else if c == '/' then 7 else if c == ':' then 8 else 9
  }

  /** The values by kind of character; 45 for one that has none. */
  function RankOf(c: char): nat {
    if '0' <= c <= '9' then c as int - '0' as int
    else if 'A' <= c <= 'Z' then 10 + (c as int - 'A' as int)
    else 36 + SymbolRank(c)
  }

  lemma DigitsInCharset(v: nat)
    requires v < 10
    ensures Charset()[v] as int == '0' as int + v
  {
  }

  lemma FirstLettersInCharset(v: nat)
    requires 10 <= v < 23
    ensures Charset()[v] as int == 'A' as int + v - 10
  {
  }

  lemma LastLettersInCharset(v: nat)
    requires 23 <= v < 36
    ensures Charset()[v] as int == 'A' as int + v - 10
  {
  }

  lemma SymbolsInCharset(v: nat)
    requires 36 <= v < 45
    ensures 36 + SymbolRank(Charset()[v]) == v && !('0' <= Charset()[v] <= '9') && !('A' <= Charset()[v] <= 'Z')
  {
  }

  lemma RankAt(v: nat)
    requires v < 45
    ensures RankOf(Charset()[v]) == v
  {
    hide Charset, SymbolRank;
    if v < 10 {
      DigitsInCharset(v);
    } else if v < 23 {
      FirstLettersInCharset(v);
    } else if v < 36 {
      LastLettersInCharset(v);
    } else {
      SymbolsInCharset(v);
    }
  }

  lemma RankInjective(c: char, d: char)
    requires RankOf(c) == RankOf(d) < 45
    ensures c == d
  {
  }

  /** Digits are worth 0 to 9, letters 10 to 35, and the nine symbols 36 to 44; no other character is in
      the set. */
  lemma CharValueIs(c: char)
    ensures c in Charset() <==> RankOf(c) < 45
    ensures c in Charset() ==> CharValue(c) == RankOf(c)
  {
    hide Charset, RankOf, StrChr;
    if RankOf(c) < 45 {
      RankAt(RankOf(c));
      RankInjective(c, Charset()[RankOf(c)]);
      assert Charset()[RankOf(c)] in Charset();
    }
    if c in Charset() {
      RankAt(CharValue(c));
    }
  }

  // ----- count fields

  /** By mode, and by whether the version is up to 9, up to 26, or above. */
  function WidthFor(mode: Mode, ver: int): nat {
    match mode
    case NUMERIC => if ver <= 9 then 10 else if ver <= 26 then 12 else 14
    case ALPHANUMERIC => if ver <= 9 then 9 else if ver <= 26 then 11 else 13
    case BYTE => if ver <= 9 then 8 else 16
    case KANJI => if ver <= 9 then 8 else if ver <= 26 then 10 else 12
    case ECI => 0
  }

  /** The width of the count field changes at versions 10 and 27. */
  lemma CountWidths(mode: Mode, ver: int)
    requires ValidVersion(ver)
    ensures NumCharCountBits(mode, ver) == WidthFor(mode, ver)
  {
    assert (ver + 7) / 17 == if ver <= 9 then 0 else if ver <= 26 then 1 else 2;
  }

  // ----- padding

  /** The terminator and the zeros behind it end at the first byte boundary where four bits fit, or at the
      end. */
  lemma TerminatorIsLeast(bits: seq<bool>, capacity: nat)
    requires |bits| <= capacity && capacity % 8 == 0
    ensures var r := Terminated(bits, capacity);
            |r| % 8 == 0 && Min(|bits| + 4, capacity) <= |r| < Min(|bits| + 4, capacity) + 8
  {
  }

  lemma PadNumbers()
    ensures ToNat(PAD_FIRST) == 0xEC && ToNat(PAD_SECOND) == 0x11
  {
    hide BitList, Value;
    Widths();
    FirstPad();
    SecondPad();
    ValueOfBits(0xEC, 8);
    ValueOfBits(0x11, 8);
  }

  lemma FirstPad()
    ensures BitList(PAD_FIRST) == BitsOf(0xEC, 8)
  {
  }

  lemma SecondPad()
    ensures BitList(PAD_SECOND) == BitsOf(0x11, 8)
  {
  }

  /** Pad byte k is 0xEC for an even k and 0x11 for an odd one. */
  lemma {:induction false} PadByteIs(n: nat, k: nat)
    requires k < n
    ensures Value(PadBits(n)[8 * k..8 * k + 8]) == if k % 2 == 0 then 0xEC else 0x11
  {
    hide Value, BitList;
    if k < n - 1 {
      PadByteIs(n - 1, k);
      assert PadBits(n)[8 * k..8 * k + 8] == PadBits(n - 1)[8 * k..8 * k + 8];
    } else {
      PadNumbers();
      LastPad(n);
    }
  }

  lemma LastPad(n: nat)
    requires n > 0
    ensures Value(PadBits(n)[8 * n - 8..8 * n]) == ToNat(if n % 2 == 1 then PAD_FIRST else PAD_SECOND)
  {
    hide Value, BitList;
    assert PadBits(n)[8 * n - 8..8 * n] == BitList(if n % 2 == 1 then PAD_FIRST else PAD_SECOND);
  }

  // ----- examples

  lemma OneSegment(seg: Segment, ver: int)
    requires ValidVersion(ver)
    ensures StreamBits([seg], ver) == SegmentBits(seg, ver)
  {
    assert [seg][..0] == [] && StreamBits([], ver) == [];
  }

  lemma TwoDigits(text: string)
    requires |text| == 2 && AllNumeric(text)
    ensures DigitsValue(text) == 10 * DigitValue(text[0]) + DigitValue(text[1])
  {
    assert text[..1][..0] == [];
    assert DigitsValue(text[..1]) == DigitValue(text[0]);
  }

  lemma ThreeDigits(text: string)
    requires |text| == 3 && AllNumeric(text)
    ensures DigitsValue(text) == 100 * DigitValue(text[0]) + 10 * DigitValue(text[1]) + DigitValue(text[2])
  {
    TwoDigits(text[..2]);
  }

  lemma OneDigit(text: string)
    requires |text| == 1 && AllNumeric(text)
    ensures DigitsValue(text) == DigitValue(text[0])
  {
    assert text[..0] == [];
  }

  /** Three digits make a number of ten bits. */
  lemma NumericGroup(text: string)
    requires |text| >= 3 && AllNumeric(text)
    ensures NumericBits(text)
         == BitsOf(100 * DigitValue(text[0]) + 10 * DigitValue(text[1]) + DigitValue(text[2]), 10)
          + NumericBits(text[3..])
  {
    hide BitsOf, DigitValue, DigitsValue;
    ThreeDigits(text[..3]);
  }

  /** Two left over make one of seven bits, and one left over one of four. */
  lemma NumericRest(text: string)
    requires 1 <= |text| <= 2 && AllNumeric(text)
    ensures |text| == 1 ==> NumericBits(text) == BitsOf(DigitValue(text[0]), 4)
    ensures |text| == 2 ==> NumericBits(text) == BitsOf(10 * DigitValue(text[0]) + DigitValue(text[1]), 7)
  {
    hide BitsOf, DigitValue, DigitsValue;
    if |text| == 1 {
      OneDigit(text);
    } else {
      TwoDigits(text);
    }
  }

  /** Eight digits in version 1: groups of three, three and two. */
  lemma NumericExample(text: string)
    requires text == "01234567"
    ensures AllNumeric(text)
    ensures StreamBits([SegmentOf(Digits(text))], 1)
         == BitsOf(1, 4) + BitsOf(8, 10) + BitsOf(12, 10) + BitsOf(345, 10) + BitsOf(67, 7)
  {
    hide BitsOf, StreamBits, NumericBits;
    OneSegment(SegmentOf(Digits(text)), 1);
    var rest, last := text[3..], text[6..];
    assert rest[3..] == last;
    NumericGroup(text);
    NumericGroup(rest);
    NumericRest(last);
  }

  /** Five characters in version 1: two pairs and one left over. */
  lemma AlphanumericExample(text: string)
    requires text == "AC-42"
    ensures AllAlphanumeric(text)
    ensures StreamBits([SegmentOf(Alphanumeric(text))], 1)
         == BitsOf(2, 4) + BitsOf(5, 9) + BitsOf(462, 11) + BitsOf(1849, 11) + BitsOf(2, 6)
  {
    hide BitsOf, StreamBits, Charset, CharValue;
    forall i | 0 <= i < |text|
      ensures text[i] in Charset() && CharValue(text[i]) == RankOf(text[i])
    {
      CharValueIs(text[i]);
    }
    OneSegment(SegmentOf(Alphanumeric(text)), 1);
    assert text[2..] == "-42" && "-42"[2..] == "2";
    assert text[2] == '-' && text[3] == '4' && text[4] == '2';
    assert AlphanumericBits("2") == BitsOf(2, 6);
    assert AlphanumericBits("-42") == BitsOf(1849, 11) + AlphanumericBits("2");
  }

  /** An ECI designator and a byte segment in version 1. */
  lemma EciExample(bytes: seq<uint8>)
    requires bytes == [0xA1, 0xA2]
    ensures StreamBits([SegmentOf(Designator(9)), SegmentOf(Bytes(bytes))], 1)
         == BitsOf(7, 4) + BitsOf(9, 8) + BitsOf(4, 4) + BitsOf(2, 8) + BitsOf(0xA1, 8) + BitsOf(0xA2, 8)
  {
    hide BitsOf, StreamBits;
    var a, b := SegmentOf(Designator(9)), SegmentOf(Bytes(bytes));
    OneSegment(a, 1);
    TwoSegments(a, b, 1);
    assert bytes[1..] == [0xA2] && bytes[1..][1..] == [];
    assert ByteBits(bytes[1..]) == BitsOf(0xA2, 8);
    assert BitsOf(0, 0) == [];
  }

  lemma TwoSegments(a: Segment, b: Segment, ver: int)
    requires ValidVersion(ver)
    ensures StreamBits([a, b], ver) == StreamBits([a], ver) + SegmentBits(b, ver)
  {
    assert [a, b][..1] == [a];
  }
}
