/**
 Reading a finished symbol: unmask, follow the scan, deinterleave, parse.
 */
module Reader {
  import opened BchCode
  import opened FunctionPatterns
  import opened Gf256
  import opened Bits
  import opened Grids
  import opened Zigzag
  import opened Placement
  import opened Masking
  import opened QrTables
  import opened Interleave
  import opened ReedSolomon
  import opened ReedSolomonDistance
  import opened QrSymbol
  import opened Segments
  import opened Encoder
  import opened BitStream
  import opened Wrappers

  /** Function modules do not take bits, so what they hold does not matter to the reader. */
  lemma ReadIgnoresMarked(g: Grid, h: Grid, marked: Grid, n: int)
    requires ValidSize(n) && Square(marked, n) && Square(g, n) && Square(h, n)
    requires forall p :: InGrid(p, n) && !Get(marked, n, p) ==> Get(g, n, p) == Get(h, n, p)
    ensures ReadBits(g, marked, n) == ReadBits(h, marked, n)
  {
    DataModulesAreUnmarked(marked, n);
    hide DataModules;
    var modules := DataModules(marked, n);
    forall k | 0 <= k < |modules|
      ensures ReadBits(g, marked, n)[k] == ReadBits(h, marked, n)[k]
    {
      assert modules[k] in modules;
    }
  }

  /** What a reader is given: the modules, and which version, level and mask they were made with. */
  datatype Symbol = Symbol(version: int, ecl: Ecc, mask: int, marked: Grid, modules: Grid)

  predicate Readable(s: Symbol) {
    var n := s.version * 4 + 17;
    ValidVersion(s.version) && 0 <= s.mask <= 7 && Square(s.marked, n) && Square(s.modules, n)
  }

  /** The bits a reader collects: the mask taken off, the free modules in scan order. */
  function ScanBits(s: Symbol): seq<bool>
    requires Readable(s)
  {
    var n := s.version * 4 + 17;
    ReadBits(Masked(s.modules, s.marked, n, s.mask), s.marked, n)
  }

  /** The symbol was made by the encoder from the given data codewords. */
  ghost predicate MadeFrom(s: Symbol, data: seq<Byte>, codewords: seq<Byte>, patterns: Grid, msk: int,
      words: seq<seq<bool>>) {
    && ValidVersion(s.version) && 0 <= s.mask <= 7
    && |words| == 8 && (forall m :: 0 <= m < 8 ==> |words[m]| == 15)
    && Finished(patterns, s.marked, s.modules, s.version, s.ecl, data, codewords, s.mask, msk, words)
    && FormatCellsMarked(s.marked, s.version * 4 + 17)
  }

  lemma FormatKeepsData(base: Grid, marked: Grid, n: int, word: seq<bool>)
    requires Square(base, n) && Square(marked, n) && n >= 21 && |word| == 15 && FormatCellsMarked(marked, n)
    ensures forall p :: InGrid(p, n) && !Get(marked, n, p) ==> Get(WithFormat(base, n, word), n, p) == Get(base, n, p)
  {
    hide FormatCellsMarked, IsFormatCell, FormatColor;
    forall p | InGrid(p, n) && !Get(marked, n, p)
      ensures Get(WithFormat(base, n, word), n, p) == Get(base, n, p)
    {
      if IsFormatCell(n, p) {
        FormatCellMarked(marked, n, p);
      }
    }
  }

  lemma BaseReads(patterns: Grid, base: Grid, g: Grid, marked: Grid, n: int, bits: seq<bool>)
    requires ValidSize(n) && Square(patterns, n) && Square(base, n) && Square(g, n) && Square(marked, n)
    requires PlacedIn(patterns, base, n, DataModules(marked, n), bits)
    requires forall p :: InGrid(p, n) && !Get(marked, n, p) ==> Get(g, n, p) == Get(base, n, p)
    ensures bits <= ReadBits(g, marked, n)
  {
    hide DataModules, ReadBits, PlacedIn, Get;
    ReadIgnoresMarked(g, base, marked, n);
    ReadBack(patterns, base, marked, n, bits);
  }

  lemma UnmaskedReads(patterns: Grid, final: Grid, marked: Grid, n: int, mask: int, msk: int, words: seq<seq<bool>>,
      bits: seq<bool>)
    requires ValidSize(n) && n >= 21 && 0 <= mask <= 7 && |words| == 8 && forall m :: 0 <= m < 8 ==> |words[m]| == 15
    requires Carries(patterns, marked, final, n, bits, mask, msk, words) && FormatCellsMarked(marked, n)
    ensures bits <= ReadBits(Masked(final, marked, n, mask), marked, n)
  {
    hide DataModules, ReadBits, FormatCellsMarked, PlacedIn, Masked, WithFormat, Trial, BestMask, Get;
    var base :| Square(base, n) && PlacedIn(patterns, base, n, DataModules(marked, n), bits)
                && final == Trial(base, marked, n, mask, words);
    hide Carries;
    TrialRound(base, base, marked, n, mask, words, words[mask]);
    FormatKeepsData(base, marked, n, words[mask]);
    BaseReads(patterns, base, WithFormat(base, n, words[mask]), marked, n, bits);
  }

  /** Unmasking a finished symbol and following the scan gives the codewords. */
  lemma CodewordsRead(s: Symbol, data: seq<Byte>, codewords: seq<Byte>, patterns: Grid, msk: int, words: seq<seq<bool>>)
    requires MadeFrom(s, data, codewords, patterns, msk, words)
    ensures Readable(s) && |codewords| == RawCodewords(s.version) && Unpack(codewords) <= ScanBits(s)
  {
    hide MadeFrom, Finished, Carries, FormatCellsMarked, RawCodewords, NumDataCodewords, Interleaved, ConsistentBlocks,
         DataModules, ReadBits, Masked, Unpack, NumBlocks, BlockEccLen;
    FinishedLength(s, data, codewords, patterns, msk, words);
    FinishedCarries(s, data, codewords, patterns, msk, words);
    UnmaskedReads(patterns, s.modules, s.marked, s.version * 4 + 17, s.mask, msk, words, Unpack(codewords));
  }

  lemma FinishedCarries(s: Symbol, data: seq<Byte>, codewords: seq<Byte>, patterns: Grid, msk: int,
      words: seq<seq<bool>>)
    requires MadeFrom(s, data, codewords, patterns, msk, words)
    ensures SymbolCarries(s, Unpack(codewords), patterns, msk, words)
  {
    hide DataModules, BestMask, Interleaved, NumBlocks, BlockEccLen, RawDataModules, Trial, PlacedIn, FormatCellsMarked,
         ConsistentBlocks, Unpack;
  }

  ghost predicate SymbolCarries(s: Symbol, bits: seq<bool>, patterns: Grid, msk: int, words: seq<seq<bool>>) {
    && Readable(s) && |words| == 8 && (forall m :: 0 <= m < 8 ==> |words[m]| == 15)
    && Carries(patterns, s.marked, s.modules, s.version * 4 + 17, bits, s.mask, msk, words)
    && FormatCellsMarked(s.marked, s.version * 4 + 17)
  }

  lemma FinishedLength(s: Symbol, data: seq<Byte>, codewords: seq<Byte>, patterns: Grid, msk: int,
      words: seq<seq<bool>>)
    requires MadeFrom(s, data, codewords, patterns, msk, words)
    ensures |codewords| == RawCodewords(s.version)
    ensures Square(s.modules, s.version * 4 + 17) && Square(s.marked, s.version * 4 + 17)
    ensures |data| == NumDataCodewords(s.version, s.ecl)
    ensures LayoutOf(s.version, s.ecl).Valid() && |data| == LayoutDataLen(LayoutOf(s.version, s.ecl))
    ensures Interleaved(LayoutOf(s.version, s.ecl), data, codewords)
  {
    hide DataModules, BestMask, Interleaved, NumBlocks, BlockEccLen, RawDataModules, Trial, PlacedIn, FormatCellsMarked,
         ConsistentBlocks;
    InterleavedLength(s.version, s.ecl, data, codewords);
  }

  function LayoutDataLen(l: Layout): int {
    l.rawCodewords - l.eccLen * l.numBlocks
  }

  /** The codewords a reader assembles, without the parity. */
  function ReadData(s: Symbol, read: seq<Byte>): seq<Byte> {
    var l := LayoutOf(s.version, s.ecl);
    if l.Valid() then Deinterleave(l, read, l.numBlocks) else []
  }

  /** The whole encoder, inverted: whatever payloads the segments were made from, a reader that knows
      the symbol's version, level and mask gets them back. */
  lemma SymbolRoundTrip(ps: seq<Payload>, s: Symbol, e: Encoding, codewords: seq<Byte>, patterns: Grid, msk: int,
                        words: seq<seq<bool>>, read: seq<Byte>)
    requires forall i :: 0 <= i < |ps| ==> ValidPayload(ps[i])
    requires HoldsStream(SegmentsOf(ps), e) && e.version == s.version && e.ecl == s.ecl
    requires MadeFrom(s, e.dataCodewords, codewords, patterns, msk, words)
    requires Readable(s) && |read| == RawCodewords(s.version) && Unpack(read) <= ScanBits(s)
    ensures ReadData(s, read) == e.dataCodewords
    ensures Parse(Unpack(ReadData(s, read)), e.version) == Some(ps)
  {
    hide MadeFrom, Readable, ScanBits, Interleaved, HoldsStream, Parse, Unpack, Deinterleave, NumBlocks, BlockEccLen,
         RawDataModules, ConsistentBlocks, NumDataCodewords;
    CodewordsRead(s, e.dataCodewords, codewords, patterns, msk, words);
    UnpackInjective(read, codewords);
    FinishedLength(s, e.dataCodewords, codewords, patterns, msk, words);
    AllDataRecovered(LayoutOf(s.version, s.ecl), e.dataCodewords, codewords);
    CodewordsRoundTrip(ps, e);
  }

  lemma AllDataRecovered(l: Layout, data: seq<Byte>, codewords: seq<Byte>)
    requires l.Valid() && |data| == LayoutDataLen(l) && Interleaved(l, data, codewords)
    ensures Deinterleave(l, codewords, l.numBlocks) == data
  {
    hide Interleaved;
    DataRecovered(l, data, codewords, l.numBlocks);
  }

  /** Error correction: if a block of a symbol is read with no more than half as many wrong bytes as it
      has parity bytes, its codeword is closer to what was read than that of any other data. */
  lemma BlockCorrectable(l: Layout, data: seq<Byte>, codewords: seq<Byte>, j: int, received: seq<Byte>,
                         other: seq<Byte>)
    requires l.Valid() && |data| == LayoutDataLen(l) && Interleaved(l, data, codewords)
    requires 0 <= j < l.numBlocks
    requires var sent := CollectData(l, codewords, j) + CollectParity(l, codewords, j);
             && |received| == |sent| && |other| == l.DataLen(j) && other != CollectData(l, codewords, j)
             && |Differences(received, sent)| <= l.eccLen / 2
    ensures var sent := CollectData(l, codewords, j) + CollectParity(l, codewords, j);
            |Codeword(other, l.eccLen)| == |received| &&
            |Differences(received, sent)| < |Differences(received, Codeword(other, l.eccLen))|
  {
    hide Interleaved, Remainder, Divisor, CollectParity;
    LayoutBounds(l);
    BlocksRecovered(l, data, codewords, j);
    UniqueNearestCodeword(received, CollectData(l, codewords, j), other, l.eccLen);
  }

  // ----- reading a symbol that one knows nothing about

  /** Where the first copy of the format information has bit i. */
  function FormatPos(i: int): Pos
    requires 0 <= i < 15
  {
    if i <= 5 then Pos(8, i) else if i == 6 then Pos(8, 7) else if i == 7 then Pos(8, 8) else if i == 8 then Pos(7, 8)
    else Pos(14 - i, 8)
  }

  function ReadWord(g: Grid, n: int): (word: seq<bool>)
    requires Square(g, n) && n >= 21
    ensures |word| == 15
  {
    seq(15, i requires 0 <= i < 15 => Get(g, n, FormatPos(i)))
  }

  lemma WordRead(g: Grid, n: int, word: seq<bool>)
    requires Square(g, n) && n >= 21 && |word| == 15
    ensures ReadWord(WithFormat(g, n, word), n) == word
  {
    forall i | 0 <= i < 15
      ensures ReadWord(WithFormat(g, n, word), n)[i] == word[i]
    {
      assert FormatIndex(n, FormatPos(i)) == i;
    }
  }

  /** A symbol as its modules show it: the version is in its size, the level and the mask are in the
      format information, and those determine the function modules. */
  function SymbolIn(g: Grid): Option<Symbol> {
    var n := |g|;
    if !Square(g, n) || n % 4 != 1 || n < 21 || n > 177 then None else
    var format := ReadFormat(ReadWord(g, n));
    Some(Symbol((n - 17) / 4, format.ecl, format.mask, FunctionSheet((n - 17) / 4, format.ecl).marked, g))
  }

  lemma TrialShowsFormat(base: Grid, marked: Grid, n: int, mask: int, ecl: Ecc)
    requires Square(base, n) && Square(marked, n) && n >= 21 && 0 <= mask <= 7
    ensures ReadFormat(ReadWord(Trial(base, marked, n, mask, FormatWords(ecl)), n)) == Format(ecl, mask)
  {
    hide FormatWord, ReadFormat, ReadWord, Masked, WithFormat;
    WordRead(Masked(base, marked, n, mask), n, FormatWord(ecl, mask));
    FormatRoundTrip(ecl, mask);
  }

  /** The symbol was made with the function patterns and format words of its version and level. */
  ghost predicate Genuine(s: Symbol, data: seq<Byte>, codewords: seq<Byte>, patterns: Grid, msk: int) {
    && ValidVersion(s.version) && s.marked == FunctionSheet(s.version, s.ecl).marked
    && MadeFrom(s, data, codewords, patterns, msk, FormatWords(s.ecl))
  }

  /** A finished symbol shows its version, level and mask. */
  lemma SymbolShown(s: Symbol, data: seq<Byte>, codewords: seq<Byte>, patterns: Grid, msk: int)
    requires Genuine(s, data, codewords, patterns, msk)
    ensures SymbolIn(s.modules) == Some(s)
  {
    hide FormatWord, FormatWords, ReadFormat, ReadWord, Trial, DataModules, BestMask, PlacedIn, FunctionSheet,
         FormatCellsMarked, Interleaved, NumBlocks, BlockEccLen, RawDataModules, ConsistentBlocks, Unpack, Get;
    var n, words := s.version * 4 + 17, FormatWords(s.ecl);
    var base :| Square(base, n) && s.modules == Trial(base, s.marked, n, s.mask, words);
    TrialShowsFormat(base, s.marked, n, s.mask, s.ecl);
  }

  /** The first n bytes of a sequence of bits. */
  function FirstBytes(bits: seq<bool>, n: int): seq<Byte> {
    if 0 <= 8 * n <= |bits| then Packed(bits[..8 * n]) else []
  }

  function ReadSymbol(s: Symbol): Option<seq<Payload>>
    requires Readable(s)
  {
    Parse(Unpack(ReadData(s, FirstBytes(ScanBits(s), RawCodewords(s.version)))), s.version)
  }

  /** What a reader gets from a grid of modules. */
  function DecodeSymbol(g: Grid): Option<seq<Payload>> {
    match SymbolIn(g)
    case None => None
    case Some(s) => if Readable(s) then ReadSymbol(s) else None
  }

  /** The encoder inverted, from nothing but the modules of a symbol. */
  lemma DecodeRoundTrip(ps: seq<Payload>, s: Symbol, e: Encoding, codewords: seq<Byte>, patterns: Grid, msk: int)
    requires forall i :: 0 <= i < |ps| ==> ValidPayload(ps[i])
    requires HoldsStream(SegmentsOf(ps), e) && e.version == s.version && e.ecl == s.ecl
    requires Genuine(s, e.dataCodewords, codewords, patterns, msk)
    ensures DecodeSymbol(s.modules) == Some(ps)
  {
    hide SymbolIn, MadeFrom, FormatWords, ScanBits, Readable, Unpack, Parse, ReadData, RawCodewords,
         HoldsStream, FunctionSheet;
    SymbolShown(s, e.dataCodewords, codewords, patterns, msk);
    CodewordsRead(s, e.dataCodewords, codewords, patterns, msk, FormatWords(s.ecl));
    var bits, n := ScanBits(s), RawCodewords(s.version);
    UnpackPacked(bits[..8 * n]);
    SymbolRoundTrip(ps, s, e, codewords, patterns, msk, FormatWords(s.ecl), FirstBytes(bits, n));
  }
}
