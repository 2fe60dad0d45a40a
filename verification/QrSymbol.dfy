/**
 The symbol under construction: the module grid and the grid of function modules, drawn on in place.
 */
module QrSymbol {
  import opened BchCode
  import opened Gf256
  import opened Bits
  import opened Grids
  import opened FunctionPatterns
  import opened Zigzag
  import opened Placement
  import opened Masking
  import opened PatternRoom
  import opened Penalty
  import opened PenaltyBound
  import opened QrTables
  import opened Interleave
  import opened Wrappers

  datatype SymbolError = VersionOutOfRange | InvalidCodewords | MaskOutOfRange

  const LONG_MAX := 0x7FFF_FFFF

  class QrCode {
    const version: int
    const size: int
    const errorCorrectionLevel: Ecc
    const modules: array2<bool>
    const isFunction: array2<bool>
    var mask: int

    ghost predicate Shaped() {
      ValidVersion(version) && size == version * 4 + 17 && Buffers(modules, isFunction, size)
    }

    /** The function patterns have been drawn, or at least the format cells. */
    ghost predicate Valid()
      reads modules, isFunction
    {
      Shaped() && FormatCellsMarked(Contents(isFunction), size)
    }

    ghost function Now(): (s: Sheet)
      requires Shaped()
      reads modules, isFunction
      ensures SheetOf(s, size)
    {
      Sheet(Contents(modules), Contents(isFunction))
    }

    /** A white symbol without function modules. */
    constructor (version: int, ecl: Ecc)
      requires ValidVersion(version)
      ensures Shaped() && fresh(modules) && fresh(isFunction)
      ensures this.version == version && this.errorCorrectionLevel == ecl && Now() == Blank(size)
    {
      var n := version * 4 + 17;
      this.version := version;
      this.size := n;
      this.errorCorrectionLevel := ecl;
      this.mask := 0;
      this.modules := new bool[n, n]((y, x) => false);
      this.isFunction := new bool[n, n]((y, x) => false);
      new;
      SheetsEqual(Now(), Blank(n), n);
    }

    method SetFunctionModule(x: int, y: int, isBlack: bool)
      requires Buffers(modules, isFunction, size) && InGrid(Pos(x, y), size)
      modifies modules, isFunction
      ensures Contents(modules) == Put(old(Contents(modules)), size, Pos(x, y), isBlack)
      ensures Contents(isFunction) == Put(old(Contents(isFunction)), size, Pos(x, y), true)
    {
      ghost var g, f := Contents(modules), Contents(isFunction);
      modules[y, x] := isBlack;
      isFunction[y, x] := true;
      GridsEqual(Contents(modules), Put(g, size, Pos(x, y), isBlack), size);
      GridsEqual(Contents(isFunction), Put(f, size, Pos(x, y), true), size);
    }

    /** Draws the codewords; refuses a sequence of the wrong length, and one that does not find enough
        modules. */
    method DrawCodewords(data: seq<Byte>) returns (r: Outcome<SymbolError>)
      requires Valid()
      modifies modules
      ensures Valid() && Contents(isFunction) == old(Contents(isFunction))
      ensures |data| != RawCodewords(version) ==>
                r == Fail(InvalidCodewords) && Contents(modules) == old(Contents(modules))
      ensures |data| == RawCodewords(version) ==>
                (r.Pass? <==> 8 * |data| <= |DataModules(Contents(isFunction), size)|)
      ensures r.Pass? ==>
                PlacedIn(old(Contents(modules)), Contents(modules), size,
                         DataModules(Contents(isFunction), size), Unpack(data))
    {
      if |data| != RawCodewords(version) {
        return Fail(InvalidCodewords);
      }
      var i := PlaceCodewords(modules, isFunction, size, data);
      if i != |data| * 8 {
        return Fail(InvalidCodewords);
      }
      assert Unpack(data)[..i] == Unpack(data);
      r := Pass;
    }

    /** Xors the mask pattern onto the modules that are not function modules. */
    method ApplyMask(msk: int) returns (r: Outcome<SymbolError>)
      requires Valid()
      modifies modules
      ensures Valid() && Contents(isFunction) == old(Contents(isFunction))
      ensures r == if 0 <= msk <= 7 then Pass else Fail(MaskOutOfRange)
      ensures Contents(modules)
           == if 0 <= msk <= 7 then Masked(old(Contents(modules)), Contents(isFunction), size, msk)
              else old(Contents(modules))
    {
      hide Inverts, FormatCellsMarked;
      if msk < 0 || msk > 7 {
        return Fail(MaskOutOfRange);
      }
      ghost var g, f := Contents(modules), Contents(isFunction);
      var y := 0;
      while y < size
        invariant 0 <= y <= size && Contents(isFunction) == f
        invariant forall p :: InGrid(p, size) ==>
                                modules[p.y, p.x] ==
                                  if p.y < y then Get(Masked(g, f, size, msk), size, p) else Get(g, size, p)
      {
        var x := 0;
        while x < size
          invariant 0 <= x <= size && Contents(isFunction) == f
          invariant forall p :: InGrid(p, size) ==>
                                  var done := p.y < y || (p.y == y && p.x < x);
                                  modules[p.y, p.x] == Get(if done then Masked(g, f, size, msk) else g, size, p)
        {
          assert Get(f, size, Pos(x, y)) == isFunction[y, x];
          assert modules[Pos(x, y).y, Pos(x, y).x] == Get(g, size, Pos(x, y));
          var invert := Inverts(msk, x, y);
          modules[y, x] := modules[y, x] != (invert && !isFunction[y, x]);
          x := x + 1;
        }
        y := y + 1;
      }
      GridsEqual(Contents(modules), Masked(g, f, size, msk), size);
      r := Pass;
    }

    // ----- function patterns

    /** Colours one module as a layer has it. */
    method InkCell(x: int, y: int, color: bool, ghost l: Layer, ghost before: Sheet, ghost done: set<Pos>)
      requires Shaped() && InGrid(Pos(x, y), size) && WellFormed(l) && Ink(l, size, Pos(x, y)) == Some(color)
      requires SheetOf(before, size) && Inked(before, Now(), size, l, done)
      modifies modules, isFunction
      ensures Inked(before, Now(), size, l, done + {Pos(x, y)})
    {
      hide Ink;
      ghost var now := Now();
      SetFunctionModule(x, y, color);
      InkedStep(before, now, Now(), size, l, done, Pos(x, y));
    }

    /** Draws both timing patterns. */
    method DrawTiming()
      requires Shaped()
      modifies modules, isFunction
      ensures Now() == Draw(old(Now()), size, Timing)
    {
      hide Contents, Inked, Draw;
      ghost var before, done: set<Pos> := Now(), {};
      NothingInked(before, size, Timing);
      var i := 0;
      while i < size
        invariant 0 <= i <= size
        invariant Inked(before, Now(), size, Timing, done)
        invariant forall k :: 0 <= k < i ==> Pos(6, k) in done && Pos(k, 6) in done
      {
        InkCell(6, i, i % 2 == 0, Timing, before, done);
        done := done + {Pos(6, i)};
        InkCell(i, 6, i % 2 == 0, Timing, before, done);
        done := done + {Pos(i, 6)};
        i := i + 1;
      }
      forall p | InGrid(p, size) && Ink(Timing, size, p).Some?
        ensures p in done
      {
        assert p == Pos(p.x, p.y);
      }
      AllInked(before, Now(), size, Timing, done);
    }

    method DrawFinderPattern(x: int, y: int)
      requires Shaped()
      modifies modules, isFunction
      ensures Now() == Draw(old(Now()), size, Finder(Pos(x, y)))
    {
      hide Contents, Inked, Draw;
      ghost var l := Finder(Pos(x, y));
      ghost var before, done: set<Pos> := Now(), {};
      NothingInked(before, size, l);
      var dy := -4;
      while dy <= 4
        invariant -4 <= dy <= 5
        invariant Inked(before, Now(), size, l, done)
        invariant forall p :: InGrid(p, size) && Distance(Pos(x, y), p) <= 4 && p.y < y + dy ==> p in done
      {
        var dx := -4;
        while dx <= 4
          invariant -4 <= dx <= 5
          invariant Inked(before, Now(), size, l, done)
          invariant forall p :: InGrid(p, size) && Distance(Pos(x, y), p) <= 4 ==>
                      (p.y < y + dy || (p.y == y + dy && p.x < x + dx)) ==> p in done
        {
          var ax, ay := Abs(dx), Abs(dy);
          var dist := if ax < ay then ay else ax;
          var xx, yy := x + dx, y + dy;
          if 0 <= xx < size && 0 <= yy < size {
            InkCell(xx, yy, dist != 2 && dist != 4, l, before, done);
            done := done + {Pos(xx, yy)};
          }
          dx := dx + 1;
        }
        dy := dy + 1;
      }
      AllInked(before, Now(), size, l, done);
    }

    method DrawAlignmentPattern(x: int, y: int)
      requires Shaped() && 2 <= x < size - 2 && 2 <= y < size - 2
      modifies modules, isFunction
      ensures Now() == Draw(old(Now()), size, Alignment(Pos(x, y)))
    {
      hide Contents, Inked, Draw;
      ghost var l := Alignment(Pos(x, y));
      ghost var before, done: set<Pos> := Now(), {};
      NothingInked(before, size, l);
      var dy := -2;
      while dy <= 2
        invariant -2 <= dy <= 3
        invariant Inked(before, Now(), size, l, done)
        invariant forall p :: InGrid(p, size) && Distance(Pos(x, y), p) <= 2 && p.y < y + dy ==> p in done
      {
        var dx := -2;
        while dx <= 2
          invariant -2 <= dx <= 3
          invariant Inked(before, Now(), size, l, done)
          invariant forall p :: InGrid(p, size) && Distance(Pos(x, y), p) <= 2 ==>
                      (p.y < y + dy || (p.y == y + dy && p.x < x + dx)) ==> p in done
        {
          var ax, ay := Abs(dx), Abs(dy);
          InkCell(x + dx, y + dy, (if ax < ay then ay else ax) != 1, l, before, done);
          done := done + {Pos(x + dx, y + dy)};
          dx := dx + 1;
        }
        dy := dy + 1;
      }
      AllInked(before, Now(), size, l, done);
    }

    /** The coordinates of the alignment patterns, from the last to the first. */
    method GetAlignmentPatternPositions() returns (result: seq<int>)
      requires Shaped()
      ensures result == AlignmentPositions(version)
    {
      if version == 1 {
        return [];
      }
      var numAlign := version / 7 + 2;
      var step := if version == 32 then 26 else (version * 4 + numAlign * 2 + 1) / (numAlign * 2 - 2) * 2;
      assert step == AlignStep(version);
      hide AlignStep;
      result := [];
      var i, pos := 0, size - 7;
      while i < numAlign - 1
        invariant 0 <= i <= numAlign - 1 && |result| == i && pos == size - 7 - step * i
        invariant forall k :: 0 <= k < i ==> result[k] == size - 7 - step * (i - 1 - k)
      {
        result := [pos] + result;
        i, pos := i + 1, pos - step;
      }
      result := [6] + result;
      assert forall k :: 0 <= k < |result| ==> result[k] == AlignmentPositions(version)[k];
    }

    /** The part of the format copy around the top left finder that is in column 8 above the corner. */
    method DrawFirstColumn(bits: seq<bool>, ghost before: Sheet) returns (ghost done: set<Pos>)
      requires Shaped() && |bits| == 15 && before == Now()
      modifies modules, isFunction
      ensures Inked(before, Now(), size, FormatInfo(bits), done) && forall k :: 0 <= k <= 5 ==> Pos(8, k) in done
    {
      hide Contents, Inked;
      done := {};
      NothingInked(before, size, FormatInfo(bits));
      var i := 0;
      while i <= 5
        invariant 0 <= i <= 6
        invariant Inked(before, Now(), size, FormatInfo(bits), done)
        invariant forall k :: 0 <= k < i ==> Pos(8, k) in done
      {
        InkCell(8, i, bits[i], FormatInfo(bits), before, done);
        done := done + {Pos(8, i)};
        i := i + 1;
      }
    }

    /** The part in row 8 before the corner. */
    method DrawFirstRow(bits: seq<bool>, ghost before: Sheet, ghost first: set<Pos>) returns (ghost done: set<Pos>)
      requires Shaped() && |bits| == 15 && SheetOf(before, size)
      requires Inked(before, Now(), size, FormatInfo(bits), first)
      modifies modules, isFunction
      ensures Inked(before, Now(), size, FormatInfo(bits), done) && first <= done
      ensures forall k :: 0 <= k <= 5 ==> Pos(k, 8) in done
    {
      hide Contents, Inked;
      done := first;
      var i := 9;
      while i < 15
        invariant 9 <= i <= 15
        invariant Inked(before, Now(), size, FormatInfo(bits), done) && first <= done
        invariant forall k :: 14 - i < k <= 5 ==> Pos(k, 8) in done
      {
        InkCell(14 - i, 8, bits[i], FormatInfo(bits), before, done);
        done := done + {Pos(14 - i, 8)};
        i := i + 1;
      }
    }

    /** The copy around the top left finder. */
    method DrawFirstCopy(bits: seq<bool>, ghost before: Sheet) returns (ghost done: set<Pos>)
      requires Shaped() && |bits| == 15 && before == Now()
      modifies modules, isFunction
      ensures Inked(before, Now(), size, FormatInfo(bits), done) && FirstCopy(done)
    {
      hide Contents, Inked;
      done := DrawFirstColumn(bits, before);
      InkCell(8, 7, bits[6], FormatInfo(bits), before, done);
      done := done + {Pos(8, 7)};
      InkCell(8, 8, bits[7], FormatInfo(bits), before, done);
      done := done + {Pos(8, 8)};
      InkCell(7, 8, bits[8], FormatInfo(bits), before, done);
      done := done + {Pos(7, 8)};
      done := DrawFirstRow(bits, before, done);
    }

    /** The copy split between the other two finders, and the black module beside it. */
    method DrawSecondCopy(bits: seq<bool>, ghost before: Sheet, ghost first: set<Pos>) returns (ghost done: set<Pos>)
      requires Shaped() && |bits| == 15 && SheetOf(before, size)
      requires Inked(before, Now(), size, FormatInfo(bits), first)
      modifies modules, isFunction
      ensures Inked(before, Now(), size, FormatInfo(bits), done) && first <= done && SecondCopy(size, done)
    {
      hide Contents, Inked;
      done := first;
      var i := 0;
      while i < 8
        invariant 0 <= i <= 8
        invariant Inked(before, Now(), size, FormatInfo(bits), done) && first <= done
        invariant forall k :: size - 1 - i < k < size ==> Pos(k, 8) in done
      {
        InkCell(size - 1 - i, 8, bits[i], FormatInfo(bits), before, done);
        done := done + {Pos(size - 1 - i, 8)};
        i := i + 1;
      }
      ghost var row := done;
      while i < 15
        invariant 8 <= i <= 15
        invariant Inked(before, Now(), size, FormatInfo(bits), done) && first <= row <= done
        invariant forall k :: size - 7 <= k < size - 15 + i ==> Pos(8, k) in done
      {
        InkCell(8, size - 15 + i, bits[i], FormatInfo(bits), before, done);
        done := done + {Pos(8, size - 15 + i)};
        i := i + 1;
      }
      InkCell(8, size - 8, true, FormatInfo(bits), before, done);
      done := done + {Pos(8, size - 8)};
    }

    /** Draws both copies of the format information. */
    method DrawFormatBits(msk: int)
      requires Shaped() && 0 <= msk <= 7
      modifies modules, isFunction
      ensures Now() == Draw(old(Now()), size, FormatInfo(FormatWord(errorCorrectionLevel, msk)))
      ensures old(Valid()) ==>
                && Valid() && Contents(isFunction) == old(Contents(isFunction))
                && Contents(modules) == WithFormat(old(Contents(modules)), size, FormatWord(errorCorrectionLevel, msk))
    {
      hide FormatCellsMarked, Contents, Inked, FormatWord, Draw;
      var bits := ComputeFormatBits(errorCorrectionLevel, msk);
      assert |bits| == 15;
      ghost var before := Now();
      ghost var first := DrawFirstCopy(bits, before);
      ghost var done := DrawSecondCopy(bits, before, first);
      FormatCellsDone(size, bits, done);
      AllInked(before, Now(), size, FormatInfo(bits), done);
      FormatLayerIs(before, size, bits);
    }

    /** Draws both copies of the version information, from version 7 on. */
    method DrawVersion()
      requires Shaped()
      modifies modules, isFunction
      ensures Now() == if version < 7 then old(Now()) else Draw(old(Now()), size, VersionInfo(VersionWord(version)))
    {
      hide Contents, Inked, Draw, VersionWord, Ink;
      if version < 7 {
        return;
      }
      var bits := ComputeVersionBits(version);
      ghost var l := VersionInfo(bits);
      ghost var before, done: set<Pos> := Now(), {};
      NothingInked(before, size, l);
      var i := 0;
      while i < 18
        invariant 0 <= i <= 18
        invariant Inked(before, Now(), size, l, done)
        invariant VersionCells(size, done, i)
      {
        var a, b := size - 11 + i % 3, i / 3;
        VersionCell(size, bits, i);
        InkCell(a, b, bits[i], l, before, done);
        done := done + {Pos(a, b)};
        InkCell(b, a, bits[i], l, before, done);
        done := done + {Pos(b, a)};
        i := i + 1;
      }
      VersionCellsDone(size, bits, done);
      AllInked(before, Now(), size, l, done);
    }

    /** An alignment pattern over what has been drawn. */
    method DrawNextAlignment(x: int, y: int, ghost start: Sheet, ghost layers: seq<Layer>)
        returns (ghost layers': seq<Layer>)
      requires Shaped() && 2 <= x < size - 2 && 2 <= y < size - 2
      requires SheetOf(start, size) && (forall k :: 0 <= k < |layers| ==> WellFormed(layers[k]))
      requires Now() == DrawAll(start, size, layers)
      modifies modules, isFunction
      ensures layers' == layers + [Alignment(Pos(x, y))]
      ensures Now() == DrawAll(start, size, layers')
    {
      hide Contents, Draw, DrawAll, Ink;
      ghost var l := Alignment(Pos(x, y));
      DrawAlignmentPattern(x, y);
      DrawAllSnoc(start, size, layers, l);
      layers' := layers + [l];
    }

    /** One row of alignment patterns, but those in the corners with finders. */
    method DrawAlignmentRow(alignPatPos: seq<int>, i: nat, ghost start: Sheet, ghost layers: seq<Layer>)
        returns (ghost layers': seq<Layer>)
      requires Shaped() && i < |alignPatPos| && forall k :: 0 <= k < |alignPatPos| ==> 2 <= alignPatPos[k] < size - 2
      requires SheetOf(start, size) && (forall k :: 0 <= k < |layers| ==> WellFormed(layers[k]))
      requires Now() == DrawAll(start, size, layers)
      modifies modules, isFunction
      ensures layers' == layers + AlignmentRow(alignPatPos, i, |alignPatPos|)
      ensures Now() == DrawAll(start, size, layers')
    {
      hide Contents, Draw, DrawAll, Ink;
      var numAlign := |alignPatPos|;
      layers' := layers;
      assert layers + [] == layers;
      var j := 0;
      while j < numAlign
        invariant 0 <= j <= numAlign
        invariant layers' == layers + AlignmentRow(alignPatPos, i, j)
        invariant Now() == DrawAll(start, size, layers')
      {
        if !((i == 0 && j == 0) || (i == 0 && j == numAlign - 1) || (i == numAlign - 1 && j == 0)) {
          layers' := DrawNextAlignment(alignPatPos[i], alignPatPos[j], start, layers');
        }
        j := j + 1;
      }
    }

    /** All alignment patterns. */
    method DrawAlignmentPatterns(ghost start: Sheet, ghost layers: seq<Layer>) returns (ghost layers': seq<Layer>)
      requires Shaped() && SheetOf(start, size) && forall k :: 0 <= k < |layers| ==> WellFormed(layers[k])
      requires Now() == DrawAll(start, size, layers)
      modifies modules, isFunction
      ensures var pos := AlignmentPositions(version); layers' == layers + AlignmentLayers(pos, |pos|)
      ensures Now() == DrawAll(start, size, layers')
    {
      hide Contents, Draw, DrawAll, AlignmentPositions, AlignmentRow, Ink;
      var alignPatPos := GetAlignmentPatternPositions();
      PositionsInGrid(version);
      layers' := layers;
      assert layers + [] == layers;
      var i := 0;
      while i < |alignPatPos|
        invariant 0 <= i <= |alignPatPos|
        invariant layers' == layers + AlignmentLayers(alignPatPos, i)
        invariant Now() == DrawAll(start, size, layers')
      {
        layers' := DrawAlignmentRow(alignPatPos, i, start, layers');
        i := i + 1;
      }
    }

    method DrawTimingAndFinders(ghost start: Sheet) returns (ghost layers: seq<Layer>)
      requires Shaped() && Now() == start
      modifies modules, isFunction
      ensures layers == [Timing, Finder(Pos(3, 3)), Finder(Pos(size - 4, 3)), Finder(Pos(3, size - 4))]
      ensures Now() == DrawAll(start, size, layers)
    {
      hide Contents, Draw, DrawAll, Ink;
      DrawTiming();
      DrawFinderPattern(3, 3);
      DrawFinderPattern(size - 4, 3);
      DrawFinderPattern(3, size - 4);
      layers := FirstLayers(start, size);
    }

    /** The configuration data, over what has been drawn. */
    method DrawFormatAndVersion(ghost start: Sheet, ghost layers: seq<Layer>)
      requires Shaped() && SheetOf(start, size) && forall k :: 0 <= k < |layers| ==> WellFormed(layers[k])
      requires Now() == DrawAll(start, size, layers)
      modifies modules, isFunction
      ensures var format := FormatInfo(FormatWord(errorCorrectionLevel, 0));
              var more := if version >= 7 then [VersionInfo(VersionWord(version))] else [];
              Now() == DrawAll(start, size, layers + [format] + more)
    {
      hide Contents, Draw, DrawAll, Ink, FormatWord, VersionWord;
      DrawFormatBits(0);
      ghost var format := FormatInfo(FormatWord(errorCorrectionLevel, 0));
      DrawAllSnoc(start, size, layers, format);
      DrawVersion();
      if version >= 7 {
        DrawAllSnoc(start, size, layers + [format], VersionInfo(VersionWord(version)));
      } else {
        assert layers + [format] + [] == layers + [format];
      }
    }

    /** Draws all function patterns. */
    method DrawFunctionPatterns()
      requires Shaped() && Now() == Blank(size)
      modifies modules, isFunction
      ensures Now() == FunctionSheet(version, errorCorrectionLevel)
    {
      hide Contents, Draw, DrawAll, AlignmentLayers, AlignmentPositions, Ink, FormatWord, VersionWord;
      ghost var start := Now();
      ghost var layers := DrawTimingAndFinders(start);
      layers := DrawAlignmentPatterns(start, layers);
      DrawFormatAndVersion(start, layers);
    }

    method GetPenaltyScore() returns (result: int)
      requires Valid()
      ensures result == Score(Contents(modules), size)
    {
      hide LineCost, FormatCellsMarked, LeastStep;
      ghost var g := Contents(modules);
      result := 0;
      var y := 0;
      while y < size
        invariant 0 <= y <= size && result == RowsCost(g, size, y)
      {
        var line := seq(size, x requires 0 <= x < size reads modules => modules[y, x]);
        assert line == Row(g, size, y);
        var cost := LinePenalty(line, size);
        result := result + cost;
        y := y + 1;
      }
      var x := 0;
      while x < size
        invariant 0 <= x <= size && result == RowsCost(g, size, size) + ColumnsCost(g, size, x)
      {
        var line := seq(size, k requires 0 <= k < size reads modules => modules[k, x]);
        assert line == Column(g, size, x);
        var cost := LinePenalty(line, size);
        result := result + cost;
        x := x + 1;
      }
      var blocks := CountBlocks();
      result := result + blocks * PENALTY_N2;
      var black := CountBlack();
      var total := size * size;
      OddSquare(size);
      LeastStepIs(black, total);
      var k := (Abs(black * 20 - total * 10) + total - 1) / total - 1;
      result := result + k * PENALTY_N4;
    }

    /** The 2x2 blocks of one colour. */
    method CountBlocks() returns (count: nat)
      requires Valid()
      ensures count == Blocks(Contents(modules), size, size - 1)
    {
      ghost var g := Contents(modules);
      count := 0;
      var y := 0;
      while y < size - 1
        invariant 0 <= y <= size - 1 && count == Blocks(g, size, y)
      {
        var x := 0;
        while x < size - 1
          invariant 0 <= x <= size - 1 && count == Blocks(g, size, y) + BlocksInRow(g, size, y, x)
        {
          var color := modules[y, x];
          if color == modules[y, x + 1] && color == modules[y + 1, x] && color == modules[y + 1, x + 1] {
            count := count + 1;
          }
          x := x + 1;
        }
        y := y + 1;
      }
    }

    /** The black modules. */
    method CountBlack() returns (black: nat)
      requires Valid()
      ensures black == BlackCount(Contents(modules), size, size)
    {
      ghost var g := Contents(modules);
      black := 0;
      var y := 0;
      while y < size
        invariant 0 <= y <= size && black == BlackCount(g, size, y)
      {
        var x := 0;
        while x < size
          invariant 0 <= x <= size && black == BlackCount(g, size, y) + BlackInLine(g[y], x)
        {
          assert g[y][x] == modules[y, x];
          if modules[y, x] {
            black := black + 1;
          }
          x := x + 1;
        }
        y := y + 1;
      }
    }

    /** Applies one mask with its format information, scores the grid, and takes the mask off again. */
    method TryMask(i: int, ghost base: Grid, ghost word: seq<bool>, ghost words: seq<seq<bool>>) returns (penalty: int)
      requires Valid() && 0 <= i < 8 && Square(base, size) && WordsOf(words, errorCorrectionLevel)
      requires Contents(modules) == base || Formatted(base, Contents(modules), size, word)
      modifies modules, isFunction
      ensures Valid() && Contents(isFunction) == old(Contents(isFunction))
      ensures Scored(base, Contents(isFunction), size, i, words, penalty)
      ensures Formatted(base, Contents(modules), size, words[i])
    {
      hide FormatCellsMarked, Masked, WithFormat, Score, Contents, FormatWord;
      TrialRound(base, Contents(modules), Contents(isFunction), size, i, words,
                 if |word| == 15 then word else words[i]);
      var masked := ApplyMask(i);
      DrawFormatBits(i);
      penalty := GetPenaltyScore();
      var unmasked := ApplyMask(i);
    }

    /** Tries all masks: the first of those with the least penalty over the complete grids. */
    method ChooseMask(ghost words: seq<seq<bool>>) returns (chosen: int, ghost word: seq<bool>)
      requires Valid() && WordsOf(words, errorCorrectionLevel)
      modifies modules, isFunction
      ensures Valid() && Contents(isFunction) == old(Contents(isFunction))
      ensures |word| == 15 && Contents(modules) == WithFormat(old(Contents(modules)), size, word)
      ensures 0 <= chosen <= 7 && BestMask(old(Contents(modules)), Contents(isFunction), size, words, chosen)
    {
      hide FormatCellsMarked, Masked, WithFormat, Score, Contents, Trial, FormatWord;
      ghost var base, f := Contents(modules), Contents(isFunction);
      var minPenalty := LONG_MAX;
      chosen := -1;
      word := words[0];
      var i := 0;
      while i < 8
        invariant 0 <= i <= 8 && Valid() && Contents(isFunction) == f
        invariant |word| == 15 && (i == 0 || Contents(modules) == WithFormat(base, size, word))
        invariant i == 0 ==> Contents(modules) == base && chosen == -1 && minPenalty == LONG_MAX
        invariant i > 0 ==> 0 <= chosen < i && minPenalty == Score(Trial(base, f, size, chosen, words), size)
        invariant i > 0 ==> LeastAmong(base, f, size, words, chosen, i)
      {
        var penalty := TryMask(i, base, word, words);
        word := words[i];
        ScoreBound(Trial(base, f, size, i, words), size);
        if penalty < minPenalty {
          chosen := i;
          minPenalty := penalty;
        }
        i := i + 1;
      }
    }

    /** The masking step of the constructor: a given mask, or for -1 the best one. Some mask is always
        found. */
    method DoMasking(msk: int, ghost words: seq<seq<bool>>)
      requires Valid() && WordsOf(words, errorCorrectionLevel) && -1 <= msk <= 7
      modifies this`mask, modules, isFunction
      ensures Valid() && Contents(isFunction) == old(Contents(isFunction))
      ensures MaskedAs(old(Contents(modules)), Contents(isFunction), Contents(modules), size, mask, msk, words)
    {
      hide FormatCellsMarked, Masked, WithFormat, Score, Contents, Trial, FormatWord, BestMask;
      ghost var base, f := Contents(modules), Contents(isFunction);
      var chosen := msk;
      ghost var word := words[0];
      if msk == -1 {
        chosen, word := ChooseMask(words);
      }
      assert 0 <= chosen <= 7;
      TrialRound(base, Contents(modules), f, size, chosen, words, word);
      mask := chosen;
      var masked := ApplyMask(chosen);
      DrawFormatBits(chosen);
    }

    /** The constructor on a white symbol: function patterns, parity and interleaving, placement, masking. */
    method Build(dataCodewords: seq<Byte>, msk: int) returns (r: Outcome<SymbolError>, ghost codewords: seq<Byte>)
      requires Shaped() && Now() == Blank(size) && -1 <= msk <= 7
      modifies this`mask, modules, isFunction
      ensures Valid() && Contents(isFunction) == FunctionSheet(version, errorCorrectionLevel).marked
      ensures r == if |dataCodewords| == NumDataCodewords(version, errorCorrectionLevel)
                   then Pass else Fail(InvalidCodewords)
      ensures r.Pass? ==> 0 <= mask <= 7 && (msk >= 0 ==> mask == msk)
      ensures r.Pass? ==>
                var start := FunctionSheet(version, errorCorrectionLevel);
                Finished(start.modules, start.marked, Contents(modules), version, errorCorrectionLevel, dataCodewords,
                         codewords, mask, msk, FormatWords(errorCorrectionLevel))
    {
      hide FormatCellsMarked, Masked, WithFormat, Score, Contents, Trial, DataModules, PlacedIn, RawCodewords,
           NumDataCodewords, Interleaved, FunctionSheet, FormatWord;
      codewords := [];
      DrawFunctionPatterns();
      TimingAndFormatMarked(version, errorCorrectionLevel);
      RoomForCodewords(version, errorCorrectionLevel);
      var all := AddEccAndInterleave(version, errorCorrectionLevel, dataCodewords);
      if all.Failure? {
        r := Fail(InvalidCodewords);
        return;
      }
      codewords := all.value;
      InterleavedLength(version, errorCorrectionLevel, dataCodewords, codewords);
      r := DrawCodewords(all.value);
      DoMasking(msk, FormatWords(errorCorrectionLevel));
    }
  }

  /** The whole constructor, with its checks of the arguments. */
  method MakeQrCode(ver: int, ecl: Ecc, dataCodewords: seq<Byte>, msk: int)
      returns (r: Result<QrCode, SymbolError>, ghost codewords: seq<Byte>)
    ensures r.Failure? ==>
              r.error == if !ValidVersion(ver) then VersionOutOfRange
                         else if !(-1 <= msk <= 7) then MaskOutOfRange
                         else InvalidCodewords
    ensures r.Success? <==> ValidVersion(ver) && -1 <= msk <= 7 && |dataCodewords| == NumDataCodewords(ver, ecl)
    ensures r.Success? ==>
              var qr, start := r.value, FunctionSheet(ver, ecl);
              && fresh(qr) && fresh(qr.modules) && fresh(qr.isFunction)
              && qr.Valid() && qr.version == ver && qr.errorCorrectionLevel == ecl
              && 0 <= qr.mask <= 7 && (msk >= 0 ==> qr.mask == msk) && Contents(qr.isFunction) == start.marked
              && Finished(start.modules, start.marked, Contents(qr.modules), ver, ecl, dataCodewords,
                          codewords, qr.mask,
                          msk, FormatWords(ecl))
  {
    hide FormatCellsMarked, Contents, FunctionSheet, Finished, NumDataCodewords;
    codewords := [];
    if ver < MIN_VERSION || ver > MAX_VERSION {
      return Failure(VersionOutOfRange), codewords;
    }
    if msk < -1 || msk > 7 {
      return Failure(MaskOutOfRange), codewords;
    }
    var qr := new QrCode(ver, ecl);
    var built;
    built, codewords := qr.Build(dataCodewords, msk);
    match built
    case Pass => r := Success(qr);
    case Fail(e) => r := Failure(e);
  }

  /** The base grid with format information over it. */
  ghost predicate Formatted(base: Grid, g: Grid, n: int, word: seq<bool>) {
    n >= 21 && Square(base, n) && |word| == 15 && g == WithFormat(base, n, word)
  }

  /** The score of one mask, over the complete grid. */
  ghost predicate Scored(base: Grid, marked: Grid, n: int, mask: int, words: seq<seq<bool>>, penalty: int) {
    && n >= 21 && n % 2 == 1 && Square(base, n) && Square(marked, n)
    && 0 <= mask < |words| == 8 && |words[mask]| == 15
    && penalty == Score(Trial(base, marked, n, mask, words), n)
  }

  /** Of the masks below k, `mask` is the first with the least penalty. */
  ghost predicate LeastAmong(base: Grid, marked: Grid, n: int, words: seq<seq<bool>>, mask: int, k: int)
    requires Square(base, n) && Square(marked, n) && n >= 21 && n % 2 == 1
    requires |words| == 8 && (forall m :: 0 <= m < 8 ==> |words[m]| == 15) && 0 <= mask < k <= 8
  {
    forall m :: 0 <= m < k ==>
                  var p, q := Score(Trial(base, marked, n, mask, words), n), Score(Trial(base, marked, n, m, words), n);
                  p <= q && (m < mask ==> p < q)
  }

  ghost predicate BestMask(base: Grid, marked: Grid, n: int, words: seq<seq<bool>>, mask: int)
    requires Square(base, n) && Square(marked, n) && n >= 21 && n % 2 == 1
    requires |words| == 8 && (forall m :: 0 <= m < 8 ==> |words[m]| == 15) && 0 <= mask <= 7
  {
    LeastAmong(base, marked, n, words, mask, 8)
  }

  /** The grid is the trial of its mask: the given one, or for -1 the best. */
  ghost predicate MaskedAs(base: Grid, marked: Grid, final: Grid, n: int, mask: int, msk: int, words: seq<seq<bool>>) {
    && n >= 21 && n % 2 == 1 && Square(base, n) && Square(marked, n)
    && |words| == 8 && (forall m :: 0 <= m < 8 ==> |words[m]| == 15)
    && 0 <= mask <= 7 && (msk >= 0 ==> mask == msk)
    && final == Trial(base, marked, n, mask, words)
    && (msk == -1 ==> BestMask(base, marked, n, words, mask))
  }

  lemma InterleavedLength(ver: int, ecl: Ecc, data: seq<Byte>, codewords: seq<Byte>)
    requires LayoutOf(ver, ecl).Valid() && |data| == NumDataCodewords(ver, ecl)
    requires Interleaved(LayoutOf(ver, ecl), data, codewords)
    ensures |codewords| == RawCodewords(ver)
  {
    hide NumBlocks, BlockEccLen, RawDataModules;
  }

  /** The given bits lie along the scan of the patterns' free modules, and the grid is the trial of
      its mask over that; a mask chosen automatically is the best one. */
  ghost predicate Carries(patterns: Grid, marked: Grid, final: Grid, n: int, bits: seq<bool>, mask: int, msk: int,
                          words: seq<seq<bool>>)
    requires ValidSize(n) && n >= 21
    requires |words| == 8 && (forall m :: 0 <= m < 8 ==> |words[m]| == 15) && 0 <= mask <= 7
  {
    && Square(patterns, n) && Square(marked, n) && Square(final, n)
    && exists base :: Square(base, n)
                      && PlacedIn(patterns, base, n, DataModules(marked, n), bits)
                      && MaskedAs(base, marked, final, n, mask, msk, words)
  }

  /** A finished symbol carries the interleaved codewords of its data. */
  ghost predicate Finished(patterns: Grid, marked: Grid, final: Grid, ver: int, ecl: Ecc, data: seq<Byte>,
                           codewords: seq<Byte>, mask: int, msk: int, words: seq<seq<bool>>)
    requires ValidVersion(ver) && |words| == 8 && (forall m :: 0 <= m < 8 ==> |words[m]| == 15) && 0 <= mask <= 7
  {
    && |data| == NumDataCodewords(ver, ecl)
    && LayoutOf(ver, ecl).Valid() && Interleaved(LayoutOf(ver, ecl), data, codewords)
    && Carries(patterns, marked, final, ver * 4 + 17, Unpack(codewords), mask, msk, words)
  }
}
