/**
 The function patterns as the standard shows them: pictures of the finder and alignment patterns, the table
 of alignment positions, and the places of format and version bits; and that a finished symbol shows them.
 */
module PatternPictures {
  import opened BchCode
  import opened Bits
  import opened FunctionPatterns
  import opened Gf256
  import opened Grids
  import opened Interleave
  import opened Masking
  import opened Placement
  import opened QrSymbol
  import opened QrTables
  import opened Reader
  import opened Wrappers
  import opened Zigzag

  // ----- pictures

  /** The finder pattern with the separator around it; # is black. */
  function FinderPicture(): (rows: seq<string>)
    ensures |rows| == 9 && forall j :: 0 <= j < 9 ==> |rows[j]| == 9
  {
    [
      ".........",
      ".#######.",
      ".#.....#.",
      ".#.###.#.",
      ".#.###.#.",
      ".#.###.#.",
      ".#.....#.",
      ".#######.",
      "........."
    ]
  }

  function AlignmentPicture(): (rows: seq<string>)
    ensures |rows| == 5 && forall j :: 0 <= j < 5 ==> |rows[j]| == 5
  {
    [
      "#####",
      "#...#",
      "#.#.#",
      "#...#",
      "#####"
    ]
  }

  lemma FinderTop(j: int, i: int)
    requires 0 <= j < 3 && 0 <= i < 9
    ensures FinderPicture()[j][i] == '#' <==>
              Distance(Pos(4, 4), Pos(i, j)) != 2 && Distance(Pos(4, 4), Pos(i, j)) != 4
  {
    if j == 0 {
      assert FinderPicture()[0] == ".........";
      assert i == 0 || i == 1 || i == 2 || i == 3 || i == 4 || i == 5 || i == 6 || i == 7 || i == 8;
    } else if j == 1 {
      assert FinderPicture()[1] == ".#######.";
      assert i == 0 || i == 1 || i == 2 || i == 3 || i == 4 || i == 5 || i == 6 || i == 7 || i == 8;
    } else if j == 2 {
      assert FinderPicture()[2] == ".#.....#.";
      assert i == 0 || i == 1 || i == 2 || i == 3 || i == 4 || i == 5 || i == 6 || i == 7 || i == 8;
    }
  }

  lemma FinderMiddle(j: int, i: int)
    requires 3 <= j < 6 && 0 <= i < 9
    ensures FinderPicture()[j][i] == '#' <==>
              Distance(Pos(4, 4), Pos(i, j)) != 2 && Distance(Pos(4, 4), Pos(i, j)) != 4
  {
    if j == 3 {
      assert FinderPicture()[3] == ".#.###.#.";
      assert i == 0 || i == 1 || i == 2 || i == 3 || i == 4 || i == 5 || i == 6 || i == 7 || i == 8;
    } else if j == 4 {
      assert FinderPicture()[4] == ".#.###.#.";
      assert i == 0 || i == 1 || i == 2 || i == 3 || i == 4 || i == 5 || i == 6 || i == 7 || i == 8;
    } else if j == 5 {
      assert FinderPicture()[5] == ".#.###.#.";
      assert i == 0 || i == 1 || i == 2 || i == 3 || i == 4 || i == 5 || i == 6 || i == 7 || i == 8;
    }
  }

  lemma FinderBottom(j: int, i: int)
    requires 6 <= j < 9 && 0 <= i < 9
    ensures FinderPicture()[j][i] == '#' <==>
              Distance(Pos(4, 4), Pos(i, j)) != 2 && Distance(Pos(4, 4), Pos(i, j)) != 4
  {
    if j == 6 {
      assert FinderPicture()[6] == ".#.....#.";
      assert i == 0 || i == 1 || i == 2 || i == 3 || i == 4 || i == 5 || i == 6 || i == 7 || i == 8;
    } else if j == 7 {
      assert FinderPicture()[7] == ".#######.";
      assert i == 0 || i == 1 || i == 2 || i == 3 || i == 4 || i == 5 || i == 6 || i == 7 || i == 8;
    } else if j == 8 {
      assert FinderPicture()[8] == ".........";
      assert i == 0 || i == 1 || i == 2 || i == 3 || i == 4 || i == 5 || i == 6 || i == 7 || i == 8;
    }
  }

  lemma AlignmentRowIs(j: int, i: int)
    requires 0 <= j < 5 && 0 <= i < 5
    ensures AlignmentPicture()[j][i] == '#' <==> Distance(Pos(2, 2), Pos(i, j)) != 1
  {
    if j == 0 {
      assert AlignmentPicture()[0] == "#####";
      assert i == 0 || i == 1 || i == 2 || i == 3 || i == 4;
    } else if j == 1 {
      assert AlignmentPicture()[1] == "#...#";
      assert i == 0 || i == 1 || i == 2 || i == 3 || i == 4;
    } else if j == 2 {
      assert AlignmentPicture()[2] == "#.#.#";
      assert i == 0 || i == 1 || i == 2 || i == 3 || i == 4;
    } else if j == 3 {
      assert AlignmentPicture()[3] == "#...#";
      assert i == 0 || i == 1 || i == 2 || i == 3 || i == 4;
    } else if j == 4 {
      assert AlignmentPicture()[4] == "#####";
      assert i == 0 || i == 1 || i == 2 || i == 3 || i == 4;
    }
  }

  /** A finder pattern is its picture around the centre, and nothing else. */
  lemma FinderAsPictured(c: Pos, n: int, p: Pos)
    requires n >= 21 && InGrid(p, n)
    ensures Distance(c, p) > 4 ==> Ink(Finder(c), n, p) == None
    ensures Distance(c, p) <= 4 ==> Ink(Finder(c), n, p) == Some(FinderPicture()[p.y - c.y + 4][p.x - c.x + 4] == '#')
  {
    hide FinderPicture;
    if Distance(c, p) <= 4 {
      var j, i := p.y - c.y + 4, p.x - c.x + 4;
      if j < 3 {
        FinderTop(j, i);
      } else if j < 6 {
        FinderMiddle(j, i);
      } else {
        FinderBottom(j, i);
      }
    }
  }

  /** An alignment pattern likewise. */
  lemma AlignmentAsPictured(c: Pos, n: int, p: Pos)
    requires n >= 21 && InGrid(p, n)
    ensures Distance(c, p) > 2 ==> Ink(Alignment(c), n, p) == None
    ensures Distance(c, p) <= 2 ==>
              Ink(Alignment(c), n, p) == Some(AlignmentPicture()[p.y - c.y + 2][p.x - c.x + 2] == '#')
  {
    hide AlignmentPicture;
    if Distance(c, p) <= 2 {
      AlignmentRowIs(p.y - c.y + 2, p.x - c.x + 2);
    }
  }

  /** Both timing patterns are black in the modules next to the upper left finder, and alternate from there. */
  lemma TimingAlternates(n: int, k: int)
    requires n >= 21 && 0 <= k < n - 1
    ensures Ink(Timing, n, Pos(6, 8)) == Some(true) && Ink(Timing, n, Pos(8, 6)) == Some(true)
    ensures Ink(Timing, n, Pos(6, k)).Some? && Ink(Timing, n, Pos(k, 6)).Some?
    ensures Ink(Timing, n, Pos(6, k + 1)) == Some(!Ink(Timing, n, Pos(6, k)).value)
    ensures Ink(Timing, n, Pos(k + 1, 6)) == Some(!Ink(Timing, n, Pos(k, 6)).value)
  {
  }

  // ----- alignment positions

  /** Annex E of ISO/IEC 18004, by the number of positions. */
  function AlignmentTable(ver: int): seq<int> {
    if ver <= 6 then TableFrom2(ver) else if ver <= 13 then TableFrom7(ver) else if ver <= 20 then TableFrom14(ver)
    else if ver <= 27 then TableFrom21(ver) else if ver <= 34 then TableFrom28(ver) else TableFrom35(ver)
  }

  function TableFrom2(ver: int): seq<int> {
    if ver == 2 then [6, 18]
    else if ver == 3 then [6, 22]
    else if ver == 4 then [6, 26]
    else if ver == 5 then [6, 30]
    else if ver == 6 then [6, 34]
    else []
  }

  function TableFrom7(ver: int): seq<int> {
    if ver == 7 then [6, 22, 38]
    else if ver == 8 then [6, 24, 42]
    else if ver == 9 then [6, 26, 46]
    else if ver == 10 then [6, 28, 50]
    else if ver == 11 then [6, 30, 54]
    else if ver == 12 then [6, 32, 58]
    else if ver == 13 then [6, 34, 62]
    else []
  }

  function TableFrom14(ver: int): seq<int> {
    if ver == 14 then [6, 26, 46, 66]
    else if ver == 15 then [6, 26, 48, 70]
    else if ver == 16 then [6, 26, 50, 74]
    else if ver == 17 then [6, 30, 54, 78]
    else if ver == 18 then [6, 30, 56, 82]
    else if ver == 19 then [6, 30, 58, 86]
    else if ver == 20 then [6, 34, 62, 90]
    else []
  }

  function TableFrom21(ver: int): seq<int> {
    if ver == 21 then [6, 28, 50, 72, 94]
    else if ver == 22 then [6, 26, 50, 74, 98]
    else if ver == 23 then [6, 30, 54, 78, 102]
    else if ver == 24 then [6, 28, 54, 80, 106]
    else if ver == 25 then [6, 32, 58, 84, 110]
    else if ver == 26 then [6, 30, 58, 86, 114]
    else if ver == 27 then [6, 34, 62, 90, 118]
    else []
  }

  function TableFrom28(ver: int): seq<int> {
    if ver == 28 then [6, 26, 50, 74, 98, 122]
    else if ver == 29 then [6, 30, 54, 78, 102, 126]
    else if ver == 30 then [6, 26, 52, 78, 104, 130]
    else if ver == 31 then [6, 30, 56, 82, 108, 134]
    else if ver == 32 then [6, 34, 60, 86, 112, 138]
    else if ver == 33 then [6, 30, 58, 86, 114, 142]
    else if ver == 34 then [6, 34, 62, 90, 118, 146]
    else []
  }

  function TableFrom35(ver: int): seq<int> {
    if ver == 35 then [6, 30, 54, 78, 102, 126, 150]
    else if ver == 36 then [6, 24, 50, 76, 102, 128, 154]
    else if ver == 37 then [6, 28, 54, 80, 106, 132, 158]
    else if ver == 38 then [6, 32, 58, 84, 110, 136, 162]
    else if ver == 39 then [6, 26, 54, 82, 110, 138, 166]
    else if ver == 40 then [6, 30, 58, 86, 114, 142, 170]
    else []
  }

  lemma PositionsFrom2(ver: int)
    requires 2 <= ver <= 6
    ensures AlignmentPositions(ver) == TableFrom2(ver)
  {
    var pos, step := AlignmentPositions(ver), AlignStep(ver);
    if ver == 2 {
      assert step == 12;
    } else if ver == 3 {
      assert step == 16;
    } else if ver == 4 {
      assert step == 20;
    } else if ver == 5 {
      assert step == 24;
    } else if ver == 6 {
      assert step == 28;
    }
  }

  lemma PositionsFrom7(ver: int)
    requires 7 <= ver <= 13
    ensures AlignmentPositions(ver) == TableFrom7(ver)
  {
    var pos, step := AlignmentPositions(ver), AlignStep(ver);
    if ver == 7 {
      assert step == 16;
    } else if ver == 8 {
      assert step == 18;
    } else if ver == 9 {
      assert step == 20;
    } else if ver == 10 {
      assert step == 22;
    } else if ver == 11 {
      assert step == 24;
    } else if ver == 12 {
      assert step == 26;
    } else if ver == 13 {
      assert step == 28;
    }
  }

  lemma PositionsFrom14(ver: int)
    requires 14 <= ver <= 20
    ensures AlignmentPositions(ver) == TableFrom14(ver)
  {
    var pos, step := AlignmentPositions(ver), AlignStep(ver);
    if ver == 14 {
      assert step == 20;
    } else if ver == 15 {
      assert step == 22;
    } else if ver == 16 {
      assert step == 24;
    } else if ver == 17 {
      assert step == 24;
    } else if ver == 18 {
      assert step == 26;
    } else if ver == 19 {
      assert step == 28;
    } else if ver == 20 {
      assert step == 28;
    }
  }

  lemma PositionsFrom21(ver: int)
    requires 21 <= ver <= 27
    ensures AlignmentPositions(ver) == TableFrom21(ver)
  {
    var pos, step := AlignmentPositions(ver), AlignStep(ver);
    if ver == 21 {
      assert step == 22;
    } else if ver == 22 {
      assert step == 24;
    } else if ver == 23 {
      assert step == 24;
    } else if ver == 24 {
      assert step == 26;
    } else if ver == 25 {
      assert step == 26;
    } else if ver == 26 {
      assert step == 28;
    } else if ver == 27 {
      assert step == 28;
    }
  }

  lemma PositionsFrom28(ver: int)
    requires 28 <= ver <= 34
    ensures AlignmentPositions(ver) == TableFrom28(ver)
  {
    var pos, step := AlignmentPositions(ver), AlignStep(ver);
    if ver == 28 {
      assert step == 24;
    } else if ver == 29 {
      assert step == 24;
    } else if ver == 30 {
      assert step == 26;
    } else if ver == 31 {
      assert step == 26;
    } else if ver == 32 {
      assert step == 26;
    } else if ver == 33 {
      assert step == 28;
    } else if ver == 34 {
      assert step == 28;
    }
  }

  lemma PositionsFrom35(ver: int)
    requires 35 <= ver <= 40
    ensures AlignmentPositions(ver) == TableFrom35(ver)
  {
    var pos, step := AlignmentPositions(ver), AlignStep(ver);
    if ver == 35 {
      assert step == 24;
    } else if ver == 36 {
      assert step == 26;
    } else if ver == 37 {
      assert step == 26;
    } else if ver == 38 {
      assert step == 26;
    } else if ver == 39 {
      assert step == 28;
    } else if ver == 40 {
      assert step == 28;
    }
  }

  /** The positions computed are those of the table. */
  lemma PositionsAre(ver: int)
    requires ValidVersion(ver)
    ensures AlignmentPositions(ver) == AlignmentTable(ver)
  {
    hide AlignmentPositions, TableFrom2, TableFrom7, TableFrom14, TableFrom21, TableFrom28, TableFrom35;
    if ver == 1 {
      NoPositions();
      NoTable();
    } else if ver <= 6 {
      PositionsFrom2(ver);
    } else if ver <= 13 {
      PositionsFrom7(ver);
    } else if ver <= 20 {
      PositionsFrom14(ver);
    } else if ver <= 27 {
      PositionsFrom21(ver);
    } else if ver <= 34 {
      PositionsFrom28(ver);
    } else {
      PositionsFrom35(ver);
    }
  }

  lemma NoTable()
    ensures TableFrom2(1) == []
  {
  }

  // ----- format and version bits

  /** Bit i of the format word in the second copy. */
  function SecondFormatPos(n: int, i: int): Pos {
    if i < 8 then Pos(n - 1 - i, 8) else Pos(8, n - 15 + i)
  }

  /** Bit i of the format word is drawn in two places, and there are no others. */
  lemma FormatCopies(n: int, p: Pos, i: int)
    requires n >= 21 && InGrid(p, n) && 0 <= i < 15
    ensures FormatIndex(n, p) == i <==> p == FormatPos(i) || p == SecondFormatPos(n, i)
    ensures IsFormatCell(n, p) && FormatIndex(n, p) < 0 <==> p == Pos(8, n - 8)
  {
  }

  /** The cell of bit k of the version word: above the lower left finder, or mirrored. */
  predicate IsVersionCell(n: int, p: Pos, k: int) {
    p == Pos(n - 11 + k % 3, k / 3) || p == Pos(k / 3, n - 11 + k % 3)
  }

  /** Bit k of the version word is drawn above the lower left finder and, mirrored, beside the upper right
      one. */
  lemma VersionCopies(n: int, p: Pos, k: int)
    requires n >= 45 && InGrid(p, n) && 0 <= k < 18
    ensures VersionIndex(n, p) == k <==> IsVersionCell(n, p, k)
  {
  }

  // ----- in a finished symbol

  lemma BaseShows(patterns: Grid, marked: Grid, base: Grid, n: int, bits: seq<bool>, p: Pos)
    requires ValidSize(n) && Square(patterns, n) && Square(marked, n) && Square(base, n) && InGrid(p, n)
    requires PlacedIn(patterns, base, n, DataModules(marked, n), bits) && Get(marked, n, p)
    ensures Get(base, n, p) == Get(patterns, n, p)
  {
    hide DataModules;
    DataModulesAreUnmarked(marked, n);
    assert p !in DataModules(marked, n);
  }

  lemma TrialShows(base: Grid, marked: Grid, n: int, mask: int, words: seq<seq<bool>>, p: Pos)
    requires Square(base, n) && Square(marked, n) && 0 <= mask <= 7 && n >= 21 && |words| == 8 && |words[mask]| == 15
    requires InGrid(p, n) && Get(marked, n, p) && !IsFormatCell(n, p)
    ensures Get(Trial(base, marked, n, mask, words), n, p) == Get(base, n, p)
  {
    hide IsFormatCell, Inverts;
  }

  /** Data, mask and format information leave the function patterns as they were drawn. */
  lemma PatternsShown(s: Symbol, data: seq<Byte>, codewords: seq<Byte>, patterns: Grid, msk: int, p: Pos)
    requires Genuine(s, data, codewords, patterns, msk) && InGrid(p, s.version * 4 + 17)
    requires Get(s.marked, s.version * 4 + 17, p) && !IsFormatCell(s.version * 4 + 17, p)
    ensures Square(patterns, s.version * 4 + 17) && Square(s.modules, s.version * 4 + 17)
    ensures Get(s.modules, s.version * 4 + 17, p) == Get(patterns, s.version * 4 + 17, p)
  {
    hide FormatWord, FormatWords, Trial, DataModules, BestMask, PlacedIn, FunctionSheet, FormatCellsMarked, Interleaved,
         NumBlocks, BlockEccLen, RawDataModules, ConsistentBlocks, Unpack, Get, IsFormatCell;
    var n, words := s.version * 4 + 17, FormatWords(s.ecl);
    var base :| Square(base, n) && PlacedIn(patterns, base, n, DataModules(s.marked, n), Unpack(codewords))
                && MaskedAs(base, s.marked, s.modules, n, s.mask, msk, words);
    BaseShows(patterns, s.marked, base, n, Unpack(codewords), p);
    TrialShows(base, s.marked, n, s.mask, words, p);
  }

  /** The grid has the colour at the module. */
  ghost predicate Shows(g: Grid, n: int, p: Pos, black: bool) {
    Square(g, n) && InGrid(p, n) && Get(g, n, p) == black
  }

  lemma VersionDrawn(ver: int, ecl: Ecc, p: Pos, k: int)
    requires ValidVersion(ver) && ver >= 7 && 0 <= k < 18 && IsVersionCell(ver * 4 + 17, p, k)
    ensures Shows(FunctionSheet(ver, ecl).marked, ver * 4 + 17, p, true) && !IsFormatCell(ver * 4 + 17, p)
    ensures Shows(FunctionSheet(ver, ecl).modules, ver * 4 + 17, p, VersionWord(ver)[k])
  {
    hide VersionWord, FormatWord, AlignmentPositions, AlignmentLayers, DrawAll, VersionIndex;
    var n := ver * 4 + 17;
    VersionCopies(n, p, k);
    var layers := FunctionLayers(ver, ecl);
    var before := layers[..|layers| - 1];
    assert layers == before + [VersionInfo(VersionWord(ver))];
    DrawAllSnoc(Blank(n), n, before, VersionInfo(VersionWord(ver)));
  }

  /** From version 7 on, a finished symbol shows its version word twice. */
  lemma VersionShown(s: Symbol, data: seq<Byte>, codewords: seq<Byte>, msk: int, p: Pos, k: int)
    requires ValidVersion(s.version) && Genuine(s, data, codewords, FunctionSheet(s.version, s.ecl).modules, msk)
    requires s.version >= 7 && 0 <= k < 18 && IsVersionCell(s.version * 4 + 17, p, k)
    ensures Shows(s.modules, s.version * 4 + 17, p, VersionWord(s.version)[k])
  {
    hide Genuine, FunctionSheet, VersionWord, IsVersionCell, IsFormatCell, Get;
    GenuineParts(s, data, codewords, FunctionSheet(s.version, s.ecl).modules, msk);
    VersionDrawn(s.version, s.ecl, p, k);
    PatternsShown(s, data, codewords, FunctionSheet(s.version, s.ecl).modules, msk, p);
  }

  lemma GenuineParts(s: Symbol, data: seq<Byte>, codewords: seq<Byte>, patterns: Grid, msk: int)
    requires Genuine(s, data, codewords, patterns, msk)
    ensures ValidVersion(s.version) && s.marked == FunctionSheet(s.version, s.ecl).marked
  {
    hide MadeFrom, FunctionSheet;
  }

  lemma WordShows(g: Grid, n: int, word: seq<bool>, i: int)
    requires Square(g, n) && n >= 21 && |word| == 15 && 0 <= i < 15
    ensures Shows(WithFormat(g, n, word), n, FormatPos(i), word[i])
    ensures Shows(WithFormat(g, n, word), n, SecondFormatPos(n, i), word[i])
    ensures Shows(WithFormat(g, n, word), n, Pos(8, n - 8), true)
  {
    FormatCopies(n, FormatPos(i), i);
    FormatCopies(n, SecondFormatPos(n, i), i);
    FormatCopies(n, Pos(8, n - 8), i);
  }

  ghost predicate ShowsFormat(g: Grid, n: int, word: seq<bool>, i: int)
    requires |word| == 15 && 0 <= i < 15
  {
    && Shows(g, n, FormatPos(i), word[i]) && Shows(g, n, SecondFormatPos(n, i), word[i])
    && Shows(g, n, Pos(8, n - 8), true)
  }

  lemma TrialShowsWord(base: Grid, marked: Grid, n: int, mask: int, ecl: Ecc, i: int)
    requires Square(base, n) && Square(marked, n) && n >= 21 && 0 <= mask <= 7 && 0 <= i < 15
    ensures ShowsFormat(Trial(base, marked, n, mask, FormatWords(ecl)), n, FormatWord(ecl, mask), i)
  {
    hide FormatWord, Masked, WithFormat, Shows, FormatPos, SecondFormatPos;
    WordShows(Masked(base, marked, n, mask), n, FormatWord(ecl, mask), i);
  }

  /** A finished symbol shows the format word of its level and mask in both places, and the black module. */
  lemma FormatShown(s: Symbol, data: seq<Byte>, codewords: seq<Byte>, patterns: Grid, msk: int, i: int)
    requires Genuine(s, data, codewords, patterns, msk) && 0 <= i < 15
    ensures 0 <= s.mask <= 7 && ShowsFormat(s.modules, s.version * 4 + 17, FormatWord(s.ecl, s.mask), i)
  {
    hide FormatWord, FormatWords, Trial, DataModules, BestMask, PlacedIn, FunctionSheet, FormatCellsMarked, ShowsFormat,
         Interleaved, NumBlocks, BlockEccLen, RawDataModules, ConsistentBlocks, Unpack, Get;
    var n, words := s.version * 4 + 17, FormatWords(s.ecl);
    var base :| Square(base, n) && s.modules == Trial(base, s.marked, n, s.mask, words);
    TrialShowsWord(base, s.marked, n, s.mask, s.ecl, i);
  }
}
