/**
 The constants of ISO/IEC 18004 the encoder works from: the error correction tables and the number
 of modules available for codewords.
 */
module QrTables {

  /** The error correction levels, in the order of the source's enumeration. */
  datatype Ecc = LOW | MEDIUM | QUARTILE | HIGH

  const MIN_VERSION := 1
  const MAX_VERSION := 40

  /** The entry of one of ten columns, and the illegal value of the tables' column 0 outside them. */
  function Pick(k: int, c0: int, c1: int, c2: int, c3: int, c4: int, c5: int, c6: int, c7: int, c8: int, c9: int): int {
    if k < 5 then
      if k == 0 then c0 else if k == 1 then c1 else if k == 2 then c2 else if k == 3 then c3
      else if k == 4 then c4 else -1
    else
      if k == 5 then c5 else if k == 6 then c6 else if k == 7 then c7 else if k == 8 then c8
      else if k == 9 then c9 else -1
  }

  function EccRowLow(ver: int): int {
    if ver <= 10 then Pick(ver - 1, 7, 10, 15, 20, 26, 18, 20, 24, 30, 18)
    else if ver <= 20 then Pick(ver - 11, 20, 24, 26, 30, 22, 24, 28, 30, 28, 28)
    else if ver <= 30 then Pick(ver - 21, 28, 28, 30, 30, 26, 28, 30, 30, 30, 30)
    else Pick(ver - 31, 30, 30, 30, 30, 30, 30, 30, 30, 30, 30)
  }

  function EccRowMedium(ver: int): int {
    if ver <= 10 then Pick(ver - 1, 10, 16, 26, 18, 24, 16, 18, 22, 22, 26)
    else if ver <= 20 then Pick(ver - 11, 30, 22, 22, 24, 24, 28, 28, 26, 26, 26)
    else if ver <= 30 then Pick(ver - 21, 26, 28, 28, 28, 28, 28, 28, 28, 28, 28)
    else Pick(ver - 31, 28, 28, 28, 28, 28, 28, 28, 28, 28, 28)
  }

  function EccRowQuartile(ver: int): int {
    if ver <= 10 then Pick(ver - 1, 13, 22, 18, 26, 18, 24, 18, 22, 20, 24)
    else if ver <= 20 then Pick(ver - 11, 28, 26, 24, 20, 30, 24, 28, 28, 26, 30)
    else if ver <= 30 then Pick(ver - 21, 28, 30, 30, 30, 30, 28, 30, 30, 30, 30)
    else Pick(ver - 31, 30, 30, 30, 30, 30, 30, 30, 30, 30, 30)
  }

  function EccRowHigh(ver: int): int {
    if ver <= 10 then Pick(ver - 1, 17, 28, 22, 16, 22, 28, 26, 26, 24, 28)
    else if ver <= 20 then Pick(ver - 11, 24, 28, 22, 24, 24, 30, 28, 28, 26, 28)
    else if ver <= 30 then Pick(ver - 21, 30, 24, 30, 30, 30, 30, 30, 30, 30, 30)
    else Pick(ver - 31, 30, 30, 30, 30, 30, 30, 30, 30, 30, 30)
  }

  function BlocksRowLow(ver: int): int {
    if ver <= 10 then Pick(ver - 1, 1, 1, 1, 1, 1, 2, 2, 2, 2, 4)
    else if ver <= 20 then Pick(ver - 11, 4, 4, 4, 4, 6, 6, 6, 6, 7, 8)
    else if ver <= 30 then Pick(ver - 21, 8, 9, 9, 10, 12, 12, 12, 13, 14, 15)
    else Pick(ver - 31, 16, 17, 18, 19, 19, 20, 21, 22, 24, 25)
  }

  function BlocksRowMedium(ver: int): int {
    if ver <= 10 then Pick(ver - 1, 1, 1, 1, 2, 2, 4, 4, 4, 5, 5)
    else if ver <= 20 then Pick(ver - 11, 5, 8, 9, 9, 10, 10, 11, 13, 14, 16)
    else if ver <= 30 then Pick(ver - 21, 17, 17, 18, 20, 21, 23, 25, 26, 28, 29)
    else Pick(ver - 31, 31, 33, 35, 37, 38, 40, 43, 45, 47, 49)
  }

  function BlocksRowQuartile(ver: int): int {
    if ver <= 10 then Pick(ver - 1, 1, 1, 2, 2, 4, 4, 6, 6, 8, 8)
    else if ver <= 20 then Pick(ver - 11, 8, 10, 12, 16, 12, 17, 16, 18, 21, 20)
    else if ver <= 30 then Pick(ver - 21, 23, 23, 25, 27, 29, 34, 34, 35, 38, 40)
    else Pick(ver - 31, 43, 45, 48, 51, 53, 56, 59, 62, 65, 68)
  }

  function BlocksRowHigh(ver: int): int {
    if ver <= 10 then Pick(ver - 1, 1, 1, 2, 4, 4, 4, 5, 6, 8, 8)
    else if ver <= 20 then Pick(ver - 11, 11, 11, 16, 16, 18, 16, 19, 21, 25, 25)
    else if ver <= 30 then Pick(ver - 21, 25, 34, 30, 32, 35, 37, 40, 42, 45, 48)
    else Pick(ver - 31, 51, 54, 57, 60, 63, 66, 70, 74, 77, 81)
  }

  /** The parity bytes of each block. */
  function BlockEccLen(ver: int, ecl: Ecc): int {
    match ecl
    case LOW => EccRowLow(ver)
    case MEDIUM => EccRowMedium(ver)
    case QUARTILE => EccRowQuartile(ver)
    case HIGH => EccRowHigh(ver)
  }

  /** The number of blocks. */
  function NumBlocks(ver: int, ecl: Ecc): int {
    match ecl
    case LOW => BlocksRowLow(ver)
    case MEDIUM => BlocksRowMedium(ver)
    case QUARTILE => BlocksRowQuartile(ver)
    case HIGH => BlocksRowHigh(ver)
  }

  predicate ValidVersion(ver: int) {
    MIN_VERSION <= ver <= MAX_VERSION
  }

  /** The modules of a symbol that are left for codewords. */
  function RawDataModules(ver: int): int {
    var all := (16 * ver + 128) * ver + 64;
    if ver < 2 then all else
    var numAlign := ver / 7 + 2;
    var data := all - ((25 * numAlign - 10) * numAlign - 55);
    if ver >= 7 then data - 36 else data
  }

  function RawCodewords(ver: int): int {
    RawDataModules(ver) / 8
  }

  function NumDataCodewords(ver: int, ecl: Ecc): int {
    RawCodewords(ver) - BlockEccLen(ver, ecl) * NumBlocks(ver, ecl)
  }

  /** Every block holds at least one data byte, and no block is longer than 255 bytes. */
  predicate ConsistentBlocks(numBlocks: int, eccLen: int, rawCodewords: int) {
    numBlocks > 0 && eccLen > 0 && rawCodewords >= numBlocks * (eccLen + 1) && rawCodewords < 255 * numBlocks
  }

  /** The percentage of wrong codewords that a level is for. */
  function Tolerance(ecl: Ecc): int {
    match ecl
    case LOW => 7
    case MEDIUM => 15
    case QUARTILE => 25
    case HIGH => 30
  }

  /** Half of the parity is at least the level's share of all codewords, and less than the next level's. */
  predicate Tolerates(parity: int, rawCodewords: int, ecl: Ecc) {
    && 50 * parity >= Tolerance(ecl) * rawCodewords
    && match ecl
       case LOW => 50 * parity < Tolerance(MEDIUM) * rawCodewords
       case MEDIUM => 50 * parity < Tolerance(QUARTILE) * rawCodewords
       case QUARTILE => 50 * parity < Tolerance(HIGH) * rawCodewords
       case HIGH => true
  }

  predicate EntryOk(ver: int, ecl: Ecc) {
    && ConsistentBlocks(NumBlocks(ver, ecl), BlockEccLen(ver, ecl), RawCodewords(ver))
    && Tolerates(BlockEccLen(ver, ecl) * NumBlocks(ver, ecl), RawCodewords(ver), ecl)
  }

  ghost predicate AllOk(first: int, last: int, ecl: Ecc) {
    forall ver :: first <= ver <= last ==> EntryOk(ver, ecl)
  }

  /** An entry by its numbers: blocks, parity bytes of each, and all codewords. */
  lemma Entry(ver: int, ecl: Ecc, numBlocks: int, eccLen: int, rawCodewords: int)
    requires NumBlocks(ver, ecl) == numBlocks && BlockEccLen(ver, ecl) == eccLen && RawCodewords(ver) == rawCodewords
    requires ConsistentBlocks(numBlocks, eccLen, rawCodewords) && Tolerates(eccLen * numBlocks, rawCodewords, ecl)
    ensures EntryOk(ver, ecl)
  {
  }

  lemma LowSmall()
    ensures AllOk(1, 20, LOW)
  {
    hide EntryOk;
    Entry(1, LOW, 1, 7, 26); Entry(2, LOW, 1, 10, 44);
    Entry(3, LOW, 1, 15, 70); Entry(4, LOW, 1, 20, 100);
    Entry(5, LOW, 1, 26, 134); Entry(6, LOW, 2, 18, 172);
    Entry(7, LOW, 2, 20, 196); Entry(8, LOW, 2, 24, 242);
    Entry(9, LOW, 2, 30, 292); Entry(10, LOW, 4, 18, 346);
    Entry(11, LOW, 4, 20, 404); Entry(12, LOW, 4, 24, 466);
    Entry(13, LOW, 4, 26, 532); Entry(14, LOW, 4, 30, 581);
    Entry(15, LOW, 6, 22, 655); Entry(16, LOW, 6, 24, 733);
    Entry(17, LOW, 6, 28, 815); Entry(18, LOW, 6, 30, 901);
    Entry(19, LOW, 7, 28, 991); Entry(20, LOW, 8, 28, 1085);
  }

  lemma LowLarge()
    ensures AllOk(21, 40, LOW)
  {
    hide EntryOk;
    Entry(21, LOW, 8, 28, 1156); Entry(22, LOW, 9, 28, 1258);
    Entry(23, LOW, 9, 30, 1364); Entry(24, LOW, 10, 30, 1474);
    Entry(25, LOW, 12, 26, 1588); Entry(26, LOW, 12, 28, 1706);
    Entry(27, LOW, 12, 30, 1828); Entry(28, LOW, 13, 30, 1921);
    Entry(29, LOW, 14, 30, 2051); Entry(30, LOW, 15, 30, 2185);
    Entry(31, LOW, 16, 30, 2323); Entry(32, LOW, 17, 30, 2465);
    Entry(33, LOW, 18, 30, 2611); Entry(34, LOW, 19, 30, 2761);
    Entry(35, LOW, 19, 30, 2876); Entry(36, LOW, 20, 30, 3034);
    Entry(37, LOW, 21, 30, 3196); Entry(38, LOW, 22, 30, 3362);
    Entry(39, LOW, 24, 30, 3532); Entry(40, LOW, 25, 30, 3706);
  }

  lemma MediumSmall()
    ensures AllOk(1, 20, MEDIUM)
  {
    hide EntryOk;
    Entry(1, MEDIUM, 1, 10, 26); Entry(2, MEDIUM, 1, 16, 44);
    Entry(3, MEDIUM, 1, 26, 70); Entry(4, MEDIUM, 2, 18, 100);
    Entry(5, MEDIUM, 2, 24, 134); Entry(6, MEDIUM, 4, 16, 172);
    Entry(7, MEDIUM, 4, 18, 196); Entry(8, MEDIUM, 4, 22, 242);
    Entry(9, MEDIUM, 5, 22, 292); Entry(10, MEDIUM, 5, 26, 346);
    Entry(11, MEDIUM, 5, 30, 404); Entry(12, MEDIUM, 8, 22, 466);
    Entry(13, MEDIUM, 9, 22, 532); Entry(14, MEDIUM, 9, 24, 581);
    Entry(15, MEDIUM, 10, 24, 655); Entry(16, MEDIUM, 10, 28, 733);
    Entry(17, MEDIUM, 11, 28, 815); Entry(18, MEDIUM, 13, 26, 901);
    Entry(19, MEDIUM, 14, 26, 991); Entry(20, MEDIUM, 16, 26, 1085);
  }

  lemma MediumLarge()
    ensures AllOk(21, 40, MEDIUM)
  {
    hide EntryOk;
    Entry(21, MEDIUM, 17, 26, 1156); Entry(22, MEDIUM, 17, 28, 1258);
    Entry(23, MEDIUM, 18, 28, 1364); Entry(24, MEDIUM, 20, 28, 1474);
    Entry(25, MEDIUM, 21, 28, 1588); Entry(26, MEDIUM, 23, 28, 1706);
    Entry(27, MEDIUM, 25, 28, 1828); Entry(28, MEDIUM, 26, 28, 1921);
    Entry(29, MEDIUM, 28, 28, 2051); Entry(30, MEDIUM, 29, 28, 2185);
    Entry(31, MEDIUM, 31, 28, 2323); Entry(32, MEDIUM, 33, 28, 2465);
    Entry(33, MEDIUM, 35, 28, 2611); Entry(34, MEDIUM, 37, 28, 2761);
    Entry(35, MEDIUM, 38, 28, 2876); Entry(36, MEDIUM, 40, 28, 3034);
    Entry(37, MEDIUM, 43, 28, 3196); Entry(38, MEDIUM, 45, 28, 3362);
    Entry(39, MEDIUM, 47, 28, 3532); Entry(40, MEDIUM, 49, 28, 3706);
  }

  lemma QuartileSmall()
    ensures AllOk(1, 20, QUARTILE)
  {
    hide EntryOk;
    Entry(1, QUARTILE, 1, 13, 26); Entry(2, QUARTILE, 1, 22, 44);
    Entry(3, QUARTILE, 2, 18, 70); Entry(4, QUARTILE, 2, 26, 100);
    Entry(5, QUARTILE, 4, 18, 134); Entry(6, QUARTILE, 4, 24, 172);
    Entry(7, QUARTILE, 6, 18, 196); Entry(8, QUARTILE, 6, 22, 242);
    Entry(9, QUARTILE, 8, 20, 292); Entry(10, QUARTILE, 8, 24, 346);
    Entry(11, QUARTILE, 8, 28, 404); Entry(12, QUARTILE, 10, 26, 466);
    Entry(13, QUARTILE, 12, 24, 532); Entry(14, QUARTILE, 16, 20, 581);
    Entry(15, QUARTILE, 12, 30, 655); Entry(16, QUARTILE, 17, 24, 733);
    Entry(17, QUARTILE, 16, 28, 815); Entry(18, QUARTILE, 18, 28, 901);
    Entry(19, QUARTILE, 21, 26, 991); Entry(20, QUARTILE, 20, 30, 1085);
  }

  lemma QuartileLarge()
    ensures AllOk(21, 40, QUARTILE)
  {
    hide EntryOk;
    Entry(21, QUARTILE, 23, 28, 1156); Entry(22, QUARTILE, 23, 30, 1258);
    Entry(23, QUARTILE, 25, 30, 1364); Entry(24, QUARTILE, 27, 30, 1474);
    Entry(25, QUARTILE, 29, 30, 1588); Entry(26, QUARTILE, 34, 28, 1706);
    Entry(27, QUARTILE, 34, 30, 1828); Entry(28, QUARTILE, 35, 30, 1921);
    Entry(29, QUARTILE, 38, 30, 2051); Entry(30, QUARTILE, 40, 30, 2185);
    Entry(31, QUARTILE, 43, 30, 2323); Entry(32, QUARTILE, 45, 30, 2465);
    Entry(33, QUARTILE, 48, 30, 2611); Entry(34, QUARTILE, 51, 30, 2761);
    Entry(35, QUARTILE, 53, 30, 2876); Entry(36, QUARTILE, 56, 30, 3034);
    Entry(37, QUARTILE, 59, 30, 3196); Entry(38, QUARTILE, 62, 30, 3362);
    Entry(39, QUARTILE, 65, 30, 3532); Entry(40, QUARTILE, 68, 30, 3706);
  }

  lemma HighSmall()
    ensures AllOk(1, 20, HIGH)
  {
    hide EntryOk;
    Entry(1, HIGH, 1, 17, 26); Entry(2, HIGH, 1, 28, 44);
    Entry(3, HIGH, 2, 22, 70); Entry(4, HIGH, 4, 16, 100);
    Entry(5, HIGH, 4, 22, 134); Entry(6, HIGH, 4, 28, 172);
    Entry(7, HIGH, 5, 26, 196); Entry(8, HIGH, 6, 26, 242);
    Entry(9, HIGH, 8, 24, 292); Entry(10, HIGH, 8, 28, 346);
    Entry(11, HIGH, 11, 24, 404); Entry(12, HIGH, 11, 28, 466);
    Entry(13, HIGH, 16, 22, 532); Entry(14, HIGH, 16, 24, 581);
    Entry(15, HIGH, 18, 24, 655); Entry(16, HIGH, 16, 30, 733);
    Entry(17, HIGH, 19, 28, 815); Entry(18, HIGH, 21, 28, 901);
    Entry(19, HIGH, 25, 26, 991); Entry(20, HIGH, 25, 28, 1085);
  }

  lemma HighLarge()
    ensures AllOk(21, 40, HIGH)
  {
    hide EntryOk;
    Entry(21, HIGH, 25, 30, 1156); Entry(22, HIGH, 34, 24, 1258);
    Entry(23, HIGH, 30, 30, 1364); Entry(24, HIGH, 32, 30, 1474);
    Entry(25, HIGH, 35, 30, 1588); Entry(26, HIGH, 37, 30, 1706);
    Entry(27, HIGH, 40, 30, 1828); Entry(28, HIGH, 42, 30, 1921);
    Entry(29, HIGH, 45, 30, 2051); Entry(30, HIGH, 48, 30, 2185);
    Entry(31, HIGH, 51, 30, 2323); Entry(32, HIGH, 54, 30, 2465);
    Entry(33, HIGH, 57, 30, 2611); Entry(34, HIGH, 60, 30, 2761);
    Entry(35, HIGH, 63, 30, 2876); Entry(36, HIGH, 66, 30, 3034);
    Entry(37, HIGH, 70, 30, 3196); Entry(38, HIGH, 74, 30, 3362);
    Entry(39, HIGH, 77, 30, 3532); Entry(40, HIGH, 81, 30, 3706);
  }

  /** The table entries of every version and level give consistent blocks, with parity for the level's share
      of wrong codewords. */
  lemma TablesConsistent(ver: int, ecl: Ecc)
    requires ValidVersion(ver)
    ensures ConsistentBlocks(NumBlocks(ver, ecl), BlockEccLen(ver, ecl), RawCodewords(ver))
    ensures Tolerates(BlockEccLen(ver, ecl) * NumBlocks(ver, ecl), RawCodewords(ver), ecl)
    ensures 0 < NumDataCodewords(ver, ecl)
  {
    hide NumBlocks, BlockEccLen, RawDataModules, ConsistentBlocks, Tolerates;
    match ecl {
      case LOW => LowSmall(); LowLarge();
      case MEDIUM => MediumSmall(); MediumLarge();
      case QUARTILE => QuartileSmall(); QuartileLarge();
      case HIGH => HighSmall(); HighLarge();
    }
    assert EntryOk(ver, ecl);
    DataCodewordsPositive(NumBlocks(ver, ecl), BlockEccLen(ver, ecl), RawCodewords(ver));
  }

  /** A higher level leaves less room for data, in every version. */
  lemma LevelsOrdered(ver: int)
    requires ValidVersion(ver)
    ensures NumDataCodewords(ver, LOW) > NumDataCodewords(ver, MEDIUM) > NumDataCodewords(ver, QUARTILE)
    ensures NumDataCodewords(ver, QUARTILE) > NumDataCodewords(ver, HIGH) > 0
  {
    hide NumBlocks, BlockEccLen, RawDataModules, ConsistentBlocks;
    TablesConsistent(ver, LOW);
    TablesConsistent(ver, MEDIUM);
    TablesConsistent(ver, QUARTILE);
    TablesConsistent(ver, HIGH);
  }

  lemma DataCodewordsPositive(n: int, e: int, raw: int)
    requires ConsistentBlocks(n, e, raw)
    ensures raw - e * n > 0
  {
    assert n * (e + 1) == e * n + n;
  }

  lemma AllModulesMonotone(ver: int, more: int)
    requires 0 <= ver <= more
    ensures (16 * ver + 128) * ver <= (16 * more + 128) * more
  {
    assert (16 * more + 128) * more - (16 * ver + 128) * ver == (more - ver) * (16 * (more + ver) + 128);
  }

  lemma PatternsOfAlign(a: int)
    requires 2 <= a <= 7
    ensures 25 <= (25 * a - 10) * a - 55 <= 1100 && (a == 2 ==> (25 * a - 10) * a - 55 == 25)
  {
    assert a == 2 || a == 3 || a == 4 || a == 5 || a == 6 || a == 7;
  }

  /** The range check at the end of the computation cannot fail. */
  lemma RawModulesRange(ver: int)
    requires ValidVersion(ver)
    ensures 208 <= RawDataModules(ver) <= 29648
  {
    if ver >= 2 {
      PatternsOfAlign(ver / 7 + 2);
      AllModulesMonotone(2, ver);
      if ver >= 7 {
        AllModulesMonotone(7, ver);
      }
      if ver < 40 {
        AllModulesMonotone(ver, 39);
      }
    }
  }
}
