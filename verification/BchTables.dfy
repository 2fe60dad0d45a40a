/**
 The format and version words as numbers: those of the tables in annexes C and D of ISO/IEC 18004.
 */
module BchTables {
  import opened BchCode
  import opened BchDistance
  import opened Bits
  import opened QrTables

  /** The number that five bits stand for, the lowest first. */
  function Number(a: bool, b: bool, c: bool, d: bool, e: bool): nat {
    Ones(a) + 2 * Ones(b) + 4 * Ones(c) + 8 * Ones(d) + 16 * Ones(e)
  }

  function FiveValue(w: seq<bool>, n: nat): nat
    requires n + 5 <= |w|
  {
    Number(w[n], w[n + 1], w[n + 2], w[n + 3], w[n + 4])
  }

  function FifteenValue(w: seq<bool>): nat
    requires |w| >= 15
  {
    FiveValue(w, 0) + 0x20 * FiveValue(w, 5) + 0x400 * FiveValue(w, 10)
  }

  function LowCode(mask: nat): nat {
    if mask == 0 then 0x77C4 else if mask == 1 then 0x72F3 else if mask == 2 then 0x7DAA else
    if mask == 3 then 0x789D else if mask == 4 then 0x662F else if mask == 5 then 0x6318 else
    if mask == 6 then 0x6C41 else 0x6976
  }

  function MediumCode(mask: nat): nat {
    if mask == 0 then 0x5412 else if mask == 1 then 0x5125 else if mask == 2 then 0x5E7C else
    if mask == 3 then 0x5B4B else if mask == 4 then 0x45F9 else if mask == 5 then 0x40CE else
    if mask == 6 then 0x4F97 else 0x4AA0
  }

  function QuartileCode(mask: nat): nat {
    if mask == 0 then 0x355F else if mask == 1 then 0x3068 else if mask == 2 then 0x3F31 else
    if mask == 3 then 0x3A06 else if mask == 4 then 0x24B4 else if mask == 5 then 0x2183 else
    if mask == 6 then 0x2EDA else 0x2BED
  }

  function HighCode(mask: nat): nat {
    if mask == 0 then 0x1689 else if mask == 1 then 0x13BE else if mask == 2 then 0x1CE7 else
    if mask == 3 then 0x19D0 else if mask == 4 then 0x0762 else if mask == 5 then 0x0255 else
    if mask == 6 then 0x0D0C else 0x083B
  }

  function FormatCode(ecl: Ecc, mask: nat): nat {
    match ecl
    case LOW => LowCode(mask)
    case MEDIUM => MediumCode(mask)
    case QUARTILE => QuartileCode(mask)
    case HIGH => HighCode(mask)
  }

  lemma FormatWordBits(ecl: Ecc, mask: nat, a: bool, b: bool, c: bool, d: bool, e: bool)
    requires mask < 8 && LowBits(FormatData(ecl, mask), 5) == [a, b, c, d, e]
    ensures FormatWord(ecl, mask) == XorBits(FormatRegister(a, b, c, d, e, 10) + [a, b, c, d, e], FORMAT_PATTERN)
  {
    hide FormatWord, XorBits, CheckBits, LowBits, FormatRegister;
    FormatWordIsCode(ecl, mask);
    FormatTurns(a, b, c, d, e, 10);
  }

  function FormatLow(a: bool, b: bool, c: bool, d: bool, e: bool): nat {
    Number((a != c) != e, !((((a != b) != c) != d) != e), (a != b) != d, (b != c) != e, !((a != d) != e))
  }

  function FormatMiddle(a: bool, b: bool, c: bool, d: bool, e: bool): nat {
    Number((a != b) != c, (b != c) != d, (c != d) != e, (a != c) != d, (b != d) != e)
  }

  function FormatHigh(a: bool, b: bool, c: bool, d: bool, e: bool): nat {
    Number(!a, b, !c, d, !e)
  }

  /** Its number, from the bits of its data. */
  function FormatValue(a: bool, b: bool, c: bool, d: bool, e: bool): nat {
    FormatLow(a, b, c, d, e) + 0x20 * FormatMiddle(a, b, c, d, e) + 0x400 * FormatHigh(a, b, c, d, e)
  }

  lemma PatternLow(w: seq<bool>)
    requires |w| == 15
    ensures FiveValue(XorBits(w, FORMAT_PATTERN), 0) == Number(w[0], !w[1], w[2], w[3], !w[4])
  {
    hide Number;
  }

  lemma PatternMiddle(w: seq<bool>)
    requires |w| == 15
    ensures FiveValue(XorBits(w, FORMAT_PATTERN), 5) == Number(w[5], w[6], w[7], w[8], w[9])
  {
    hide Number;
  }

  lemma PatternHigh(w: seq<bool>)
    requires |w| == 15
    ensures FiveValue(XorBits(w, FORMAT_PATTERN), 10) == Number(!w[10], w[11], !w[12], w[13], !w[14])
  {
    hide Number;
  }

  lemma FormatLowIs(a: bool, b: bool, c: bool, d: bool, e: bool)
    ensures FiveValue(XorBits(FormatRegister(a, b, c, d, e, 10) + [a, b, c, d, e], FORMAT_PATTERN), 0)
         == FormatLow(a, b, c, d, e)
  {
    hide XorBits, Number;
    PatternLow(FormatRegister(a, b, c, d, e, 10) + [a, b, c, d, e]);
  }

  lemma FormatMiddleIs(a: bool, b: bool, c: bool, d: bool, e: bool)
    ensures FiveValue(XorBits(FormatRegister(a, b, c, d, e, 10) + [a, b, c, d, e], FORMAT_PATTERN), 5)
         == FormatMiddle(a, b, c, d, e)
  {
    hide XorBits, Number;
    PatternMiddle(FormatRegister(a, b, c, d, e, 10) + [a, b, c, d, e]);
  }

  lemma FormatHighIs(a: bool, b: bool, c: bool, d: bool, e: bool)
    ensures FiveValue(XorBits(FormatRegister(a, b, c, d, e, 10) + [a, b, c, d, e], FORMAT_PATTERN), 10)
         == FormatHigh(a, b, c, d, e)
  {
    hide XorBits, Number;
    PatternHigh(FormatRegister(a, b, c, d, e, 10) + [a, b, c, d, e]);
  }

  lemma FormatValueIs(a: bool, b: bool, c: bool, d: bool, e: bool)
    ensures FifteenValue(XorBits(FormatRegister(a, b, c, d, e, 10) + [a, b, c, d, e], FORMAT_PATTERN))
         == FormatValue(a, b, c, d, e)
  {
    hide XorBits, FiveValue, FormatLow, FormatMiddle, FormatHigh, FormatRegister;
    FormatLowIs(a, b, c, d, e);
    FormatMiddleIs(a, b, c, d, e);
    FormatHighIs(a, b, c, d, e);
  }

  lemma LowBitsNext(val: nat, len: nat)
    requires len > 0
    ensures LowBits(val, len) == [val % 2 == 1] + LowBits(val / 2, len - 1)
  {
  }

  lemma FiveBits(val: nat, a: bool, b: bool, c: bool, d: bool, e: bool)
    requires val == Number(a, b, c, d, e)
    ensures LowBits(val, 5) == [a, b, c, d, e]
  {
    hide LowBits;
    LowBitsNext(val, 5);
    LowBitsNext(val / 2, 4);
    LowBitsNext(val / 4, 3);
    LowBitsNext(val / 8, 2);
    LowBitsNext(val / 16, 1);
  }

  lemma LowWords(mask: nat, a: bool, b: bool, c: bool)
    requires mask == Ones(a) + 2 * Ones(b) + 4 * Ones(c)
    ensures FormatValue(a, b, c, true, false) == LowCode(mask)
  {
  }

  lemma MediumWords(mask: nat, a: bool, b: bool, c: bool)
    requires mask == Ones(a) + 2 * Ones(b) + 4 * Ones(c)
    ensures FormatValue(a, b, c, false, false) == MediumCode(mask)
  {
  }

  lemma QuartileWords(mask: nat, a: bool, b: bool, c: bool)
    requires mask == Ones(a) + 2 * Ones(b) + 4 * Ones(c)
    ensures FormatValue(a, b, c, true, true) == QuartileCode(mask)
  {
  }

  lemma HighWords(mask: nat, a: bool, b: bool, c: bool)
    requires mask == Ones(a) + 2 * Ones(b) + 4 * Ones(c)
    ensures FormatValue(a, b, c, false, true) == HighCode(mask)
  {
  }

  lemma FormatWordValue(ecl: Ecc, mask: nat, a: bool, b: bool, c: bool, d: bool, e: bool)
    requires mask < 8 && mask == Ones(a) + 2 * Ones(b) + 4 * Ones(c) && EccFormatBits(ecl) == Ones(d) + 2 * Ones(e)
    ensures FifteenValue(FormatWord(ecl, mask)) == FormatValue(a, b, c, d, e)
  {
    hide FormatWord, XorBits, LowBits, FormatRegister, FifteenValue, FormatValue;
    FiveBits(FormatData(ecl, mask), a, b, c, d, e);
    FormatWordBits(ecl, mask, a, b, c, d, e);
    FormatValueIs(a, b, c, d, e);
  }

  /** Every format word is the one of the standard's table. */
  lemma FormatWordIs(ecl: Ecc, mask: nat)
    requires mask < 8
    ensures FifteenValue(FormatWord(ecl, mask)) == FormatCode(ecl, mask)
  {
    hide FormatWord, FifteenValue, FormatValue;
    var a, b, c := mask % 2 == 1, mask / 2 % 2 == 1, mask / 4 == 1;
    match ecl
    case LOW =>
      FormatWordValue(ecl, mask, a, b, c, true, false);
      LowWords(mask, a, b, c);
    case MEDIUM =>
      FormatWordValue(ecl, mask, a, b, c, false, false);
      MediumWords(mask, a, b, c);
    case QUARTILE =>
      FormatWordValue(ecl, mask, a, b, c, true, true);
      QuartileWords(mask, a, b, c);
    case HIGH =>
      FormatWordValue(ecl, mask, a, b, c, false, true);
      HighWords(mask, a, b, c);
  }

  /** The codes of versions 7 to 40. */
  function VersionCode(ver: nat): nat {
    if ver == 7 then 0x07C94 else if ver == 8 then 0x085BC else if ver == 9 then 0x09A99 else
    if ver == 10 then 0x0A4D3 else if ver == 11 then 0x0BBF6 else if ver == 12 then 0x0C762 else
    if ver == 13 then 0x0D847 else if ver == 14 then 0x0E60D else if ver == 15 then 0x0F928 else
    if ver == 16 then 0x10B78 else if ver == 17 then 0x1145D else if ver == 18 then 0x12A17 else
    if ver == 19 then 0x13532 else if ver == 20 then 0x149A6 else if ver == 21 then 0x15683 else
    if ver == 22 then 0x168C9 else if ver == 23 then 0x177EC else if ver == 24 then 0x18EC4 else
    if ver == 25 then 0x191E1 else if ver == 26 then 0x1AFAB else if ver == 27 then 0x1B08E else
    if ver == 28 then 0x1CC1A else if ver == 29 then 0x1D33F else if ver == 30 then 0x1ED75 else
    if ver == 31 then 0x1F250 else if ver == 32 then 0x209D5 else if ver == 33 then 0x216F0 else
    if ver == 34 then 0x228BA else if ver == 35 then 0x2379F else if ver == 36 then 0x24B0B else
    if ver == 37 then 0x2542E else if ver == 38 then 0x26A64 else if ver == 39 then 0x27541 else 0x28C69
  }

  lemma VersionWordBits(ver: nat, a: bool, b: bool, c: bool, d: bool, e: bool, f: bool)
    requires ver < 64 && LowBits(ver, 6) == [a, b, c, d, e, f]
    ensures VersionWord(ver) == VersionRegister(a, b, c, d, e, f, 12) + [a, b, c, d, e, f]
  {
    hide CheckWord, CheckBits, LowBits, VersionRegister;
    assert Exp2(6) == 64;
    WordIsCode(ver, 6, VERSION_GENERATOR);
    VersionTurns(a, b, c, d, e, f, 12);
  }

  function VersionPart0(a: bool, b: bool, c: bool, d: bool, e: bool, f: bool): nat {
    Number((a != b) != f, b != c, (((a != b) != c) != d) != f, ((b != c) != d) != e, ((c != d) != e) != f)
  }

  function VersionPart1(a: bool, b: bool, c: bool, d: bool, e: bool, f: bool): nat {
    Number(((a != b) != d) != e, ((b != c) != e) != f, (c != d) != f, (((a != b) != d) != e) != f, (a != c) != e)
  }

  function VersionPart2(a: bool, b: bool, c: bool, d: bool, e: bool, f: bool): nat {
    Number(a != d, (a != e) != f, a, b, c)
  }

  function VersionValue(a: bool, b: bool, c: bool, d: bool, e: bool, f: bool): nat {
    VersionPart0(a, b, c, d, e, f) + 0x20 * VersionPart1(a, b, c, d, e, f) + 0x400 * VersionPart2(a, b, c, d, e, f)
    + 0x8000 * Number(d, e, f, false, false)
  }

  function EighteenValue(w: seq<bool>): nat
    requires |w| >= 18
  {
    FifteenValue(w) + 0x8000 * Number(w[15], w[16], w[17], false, false)
  }

  lemma VersionPart0Is(a: bool, b: bool, c: bool, d: bool, e: bool, f: bool)
    ensures FiveValue(VersionRegister(a, b, c, d, e, f, 12) + [a, b, c, d, e, f], 0) == VersionPart0(a, b, c, d, e, f)
  {
    hide Number;
  }

  lemma VersionPart1Is(a: bool, b: bool, c: bool, d: bool, e: bool, f: bool)
    ensures FiveValue(VersionRegister(a, b, c, d, e, f, 12) + [a, b, c, d, e, f], 5) == VersionPart1(a, b, c, d, e, f)
  {
    hide Number;
  }

  lemma VersionPart2Is(a: bool, b: bool, c: bool, d: bool, e: bool, f: bool)
    ensures FiveValue(VersionRegister(a, b, c, d, e, f, 12) + [a, b, c, d, e, f], 10) == VersionPart2(a, b, c, d, e, f)
  {
    hide Number;
  }

  lemma VersionValueIs(a: bool, b: bool, c: bool, d: bool, e: bool, f: bool)
    ensures EighteenValue(VersionRegister(a, b, c, d, e, f, 12) + [a, b, c, d, e, f]) == VersionValue(a, b, c, d, e, f)
  {
    hide FiveValue, VersionPart0, VersionPart1, VersionPart2, VersionRegister, Number;
    VersionPart0Is(a, b, c, d, e, f);
    VersionPart1Is(a, b, c, d, e, f);
    VersionPart2Is(a, b, c, d, e, f);
  }

  lemma VersionCodeIs(ver: nat, a: bool, b: bool, c: bool, d: bool, e: bool, f: bool)
    requires ver == Ones(a) + 2 * Number(b, c, d, e, f) && 7 <= ver <= 40
    ensures VersionValue(a, b, c, d, e, f) == VersionCode(ver)
  {
  }

  lemma BitsOfVersion(ver: nat) returns (a: bool, b: bool, c: bool, d: bool, e: bool, f: bool)
    requires ver < 64
    ensures ver == Ones(a) + 2 * Number(b, c, d, e, f)
  {
    hide Number, Ones;
    var q := Half(ver);
    a := ver % 2 == 1;
    b, c, d, e, f := BitsOfFive(q);
  }

  lemma BitsOfFive(val: nat) returns (a: bool, b: bool, c: bool, d: bool, e: bool)
    requires val < 32
    ensures val == Number(a, b, c, d, e)
  {
    var q1 := Half(val);
    var q2 := Half(q1);
    var q3 := Half(q2);
    var q4 := Half(q3);
    a, b, c, d, e := val % 2 == 1, q1 % 2 == 1, q2 % 2 == 1, q3 % 2 == 1, q4 == 1;
  }

  lemma Half(val: nat) returns (q: nat)
    ensures q == val / 2 && val == Ones(val % 2 == 1) + 2 * q
  {
    q := val / 2;
  }

  /** Every version word is the one of the standard's table. */
  lemma VersionWordIs(ver: nat)
    requires 7 <= ver <= 40
    ensures EighteenValue(VersionWord(ver)) == VersionCode(ver)
  {
    hide VersionWord, EighteenValue, VersionValue, VersionCode, VersionRegister, LowBits;
    var a, b, c, d, e, f := BitsOfVersion(ver);
    SixBits(ver, a, b, c, d, e, f);
    VersionWordBits(ver, a, b, c, d, e, f);
    VersionValueIs(a, b, c, d, e, f);
    VersionCodeIs(ver, a, b, c, d, e, f);
  }

  lemma SixBits(val: nat, a: bool, b: bool, c: bool, d: bool, e: bool, f: bool)
    requires val == Ones(a) + 2 * Number(b, c, d, e, f)
    ensures LowBits(val, 6) == [a, b, c, d, e, f]
  {
    hide LowBits;
    LowBitsNext(val, 6);
    FiveBits(val / 2, b, c, d, e, f);
  }
}
