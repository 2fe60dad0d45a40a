/**
 The function patterns of a symbol as layers of ink, drawn one over the other.
 */
module FunctionPatterns {
  import opened BchCode
  import opened Grids
  import opened Masking
  import opened QrTables
  import opened Wrappers

  // ----- layers

  datatype Layer =
    | Timing
    | Finder(center: Pos)
    | Alignment(center: Pos)
    | FormatInfo(word: seq<bool>)
    | VersionInfo(word: seq<bool>)

  predicate WellFormed(l: Layer) {
    (l.FormatInfo? ==> |l.word| == 15) && (l.VersionInfo? ==> |l.word| == 18)
  }

  /** The Chebyshev distance. */
  function Distance(c: Pos, p: Pos): nat {
    var dx, dy := Abs(p.x - c.x), Abs(p.y - c.y);
    if dx < dy then dy else dx
  }

  /** The version bit at a module: three by six of them above the lower left finder, and mirrored. */
  function VersionIndex(n: int, p: Pos): int {
    if n - 11 <= p.x < n - 8 && 0 <= p.y < 6 then 3 * p.y + p.x - (n - 11)
    else if n - 11 <= p.y < n - 8 && 0 <= p.x < 6 then 3 * p.x + p.y - (n - 11)
    else -1
  }

  /** The colour a layer gives a module, if it covers it. */
  function Ink(l: Layer, n: int, p: Pos): Option<bool>
    requires WellFormed(l) && n >= 21 && InGrid(p, n)
  {
    match l
    case Timing => if p.x == 6 then Some(p.y % 2 == 0) else if p.y == 6 then Some(p.x % 2 == 0) else None
    case Finder(c) => if Distance(c, p) <= 4 then Some(Distance(c, p) != 2 && Distance(c, p) != 4) else None
    case Alignment(c) => if Distance(c, p) <= 2 then Some(Distance(c, p) != 1) else None
    case FormatInfo(word) => if IsFormatCell(n, p) then Some(FormatColor(n, word, p)) else None
    case VersionInfo(word) => if VersionIndex(n, p) >= 0 then Some(word[VersionIndex(n, p)]) else None
  }

  /** The modules, and those of them that belong to function patterns. */
  datatype Sheet = Sheet(modules: Grid, marked: Grid)

  predicate SheetOf(s: Sheet, n: int) {
    Square(s.modules, n) && Square(s.marked, n)
  }

  function Draw(s: Sheet, n: int, l: Layer): (r: Sheet)
    requires SheetOf(s, n) && WellFormed(l) && n >= 21
    ensures SheetOf(r, n)
    ensures forall p :: InGrid(p, n) ==>
              Get(r.modules, n, p) == (if Ink(l, n, p).Some? then Ink(l, n, p).value else Get(s.modules, n, p))
    ensures forall p :: InGrid(p, n) ==> Get(r.marked, n, p) == (Get(s.marked, n, p) || Ink(l, n, p).Some?)
  {
    Sheet(
      seq(n, y requires 0 <= y < n => seq(n, x requires 0 <= x < n =>
        if Ink(l, n, Pos(x, y)).Some? then Ink(l, n, Pos(x, y)).value else s.modules[y][x])),
      seq(n, y requires 0 <= y < n => seq(n, x requires 0 <= x < n => s.marked[y][x] || Ink(l, n, Pos(x, y)).Some?)))
  }

  lemma SheetsEqual(s: Sheet, t: Sheet, n: int)
    requires SheetOf(s, n) && SheetOf(t, n)
    requires forall p :: InGrid(p, n) ==>
               Get(s.modules, n, p) == Get(t.modules, n, p) && Get(s.marked, n, p) == Get(t.marked, n, p)
    ensures s == t
  {
    GridsEqual(s.modules, t.modules, n);
    GridsEqual(s.marked, t.marked, n);
  }

  function Blank(n: nat): (s: Sheet)
    ensures SheetOf(s, n)
    ensures forall p :: InGrid(p, n) ==> !Get(s.modules, n, p) && !Get(s.marked, n, p)
  {
    var white := seq(n, y => seq(n, x => false));
    Sheet(white, white)
  }

  /** Draws the layers one over the other. */
  function DrawAll(s: Sheet, n: int, layers: seq<Layer>): (r: Sheet)
    requires SheetOf(s, n) && n >= 21 && forall i :: 0 <= i < |layers| ==> WellFormed(layers[i])
    ensures SheetOf(r, n)
  {
    if layers == [] then s else Draw(DrawAll(s, n, layers[..|layers| - 1]), n, layers[|layers| - 1])
  }

  lemma DrawAllSnoc(s: Sheet, n: int, layers: seq<Layer>, l: Layer)
    requires SheetOf(s, n) && n >= 21 && WellFormed(l) && forall i :: 0 <= i < |layers| ==> WellFormed(layers[i])
    ensures DrawAll(s, n, layers + [l]) == Draw(DrawAll(s, n, layers), n, l)
  {
    hide Draw;
    assert (layers + [l])[..|layers|] == layers;
  }

  /** What has ink of some layer is marked. */
  lemma {:induction false} MarkedIff(s: Sheet, n: int, layers: seq<Layer>, p: Pos)
    requires SheetOf(s, n) && n >= 21 && (forall i :: 0 <= i < |layers| ==> WellFormed(layers[i])) && InGrid(p, n)
    ensures Get(DrawAll(s, n, layers).marked, n, p)
       <==> Get(s.marked, n, p) || exists i :: 0 <= i < |layers| && Ink(layers[i], n, p).Some?
  {
    hide Ink, Get;
    if layers != [] {
      MarkedIff(s, n, layers[..|layers| - 1], p);
    }
  }

  // ----- alignment patterns

  function NumAlign(ver: int): int {
    ver / 7 + 2
  }

  function AlignStep(ver: int): int
    requires ver >= 2
  {
    if ver == 32 then 26 else (ver * 4 + NumAlign(ver) * 2 + 1) / (NumAlign(ver) * 2 - 2) * 2
  }

  /** The coordinates of the centres, in ascending order. */
  function AlignmentPositions(ver: int): (pos: seq<int>)
    requires ValidVersion(ver)
    ensures ver >= 2 ==> |pos| == NumAlign(ver) && pos[0] == 6
  {
    if ver == 1 then [] else
    var a := NumAlign(ver);
    [6] + seq(a - 1, k requires 0 <= k < a - 1 => ver * 4 + 10 - AlignStep(ver) * (a - 2 - k))
  }

  predicate LowestFits(ver: int) {
    ver >= 2 ==> 18 <= ver * 4 + 10 - AlignStep(ver) * (NumAlign(ver) - 2) && AlignStep(ver) >= 12
  }

  lemma LowestFitsAll(ver: int)
    requires ValidVersion(ver)
    ensures LowestFits(ver)
  {
    if ver >= 2 && ver != 32 {
      var a, q := NumAlign(ver), (ver * 4 + NumAlign(ver) * 2 + 1) / (NumAlign(ver) * 2 - 2);
      StepBound(ver, a, q);
    }
  }

  /** The steps leave at least twelve modules for the gap after the first position. */
  lemma StepBound(ver: int, a: int, q: int)
    requires 2 <= ver <= 40 && a == ver / 7 + 2 && q == (ver * 4 + a * 2 + 1) / (a * 2 - 2)
    ensures q >= 6 && q * 2 * (a - 2) <= ver * 4 - 8
  {
    if a == 2 {
    } else if a == 3 {
      assert q == (ver * 4 + 7) / 4;
    } else if a == 4 {
      assert q == (ver * 4 + 9) / 6;
    } else if a == 5 {
      assert q == (ver * 4 + 11) / 8;
    } else if a == 6 {
      assert q == (ver * 4 + 13) / 10;
    } else {
      assert a == 7 && q == (ver * 4 + 15) / 12;
    }
  }

  /** Twelve or more modules between neighbours, from 6 to seven from the end. */
  ghost predicate Spaced(pos: seq<int>, n: int) {
    && |pos| >= 2 && pos[0] == 6 && pos[|pos| - 1] == n - 7
    && forall i, j :: 0 <= i < j < |pos| ==> pos[i] + 12 <= pos[j]
  }

  lemma PositionsSpaced(ver: int)
    requires ValidVersion(ver) && ver >= 2
    ensures Spaced(AlignmentPositions(ver), ver * 4 + 17)
  {
    LowestFitsAll(ver);
    var pos, a, step := AlignmentPositions(ver), NumAlign(ver), AlignStep(ver);
    hide AlignStep, AlignmentPositions;
    forall i, j | 0 <= i < j < |pos|
      ensures pos[i] + 12 <= pos[j]
    {
      PositionAt(ver, j);
      if i == 0 {
        StepsMonotone(step, a - 1 - j, a - 2);
      } else {
        PositionAt(ver, i);
        StepsApart(step, a - 1 - j, a - 1 - i);
      }
    }
    PositionAt(ver, a - 1);
  }

  lemma PositionAt(ver: int, k: int)
    requires ValidVersion(ver) && ver >= 2 && 0 < k < NumAlign(ver)
    ensures AlignmentPositions(ver)[k] == ver * 4 + 10 - AlignStep(ver) * (NumAlign(ver) - 1 - k)
  {
    hide AlignStep;
  }

  lemma StepsApart(step: int, j: int, k: int)
    requires step >= 12 && j < k
    ensures step * j + 12 <= step * k
  {
    assert step * k == step * j + step * (k - j);
    StepsMonotone(step, 1, k - j);
  }

  /** All alignment patterns lie in the grid. */
  lemma PositionsInGrid(ver: int)
    requires ValidVersion(ver)
    ensures var pos := AlignmentPositions(ver); forall i :: 0 <= i < |pos| ==> 6 <= pos[i] <= ver * 4 + 10
  {
    hide AlignmentPositions;
    if ver >= 2 {
      PositionsSpaced(ver);
    } else {
      NoPositions();
    }
  }

  lemma NoPositions()
    ensures AlignmentPositions(1) == []
  {
  }

  lemma StepsMonotone(step: int, j: int, k: int)
    requires step > 0 && 0 <= j <= k
    ensures 0 <= step * j <= step * k
  {
    assert step * k == step * j + step * (k - j);
  }

  /** The three corners with finder patterns. */
  predicate IsCorner(a: int, i: int, j: int) {
    (i == 0 && j == 0) || (i == 0 && j == a - 1) || (i == a - 1 && j == 0)
  }

  /** The patterns of one row of positions, up to a column. */
  function AlignmentRow(pos: seq<int>, i: nat, j: nat): (layers: seq<Layer>)
    requires i < |pos| && j <= |pos|
    ensures forall k :: 0 <= k < |layers| ==> layers[k].Alignment?
  {
    if j == 0 then []
    else AlignmentRow(pos, i, j - 1) + if IsCorner(|pos|, i, j - 1) then [] else [Alignment(Pos(pos[i], pos[j - 1]))]
  }

  function AlignmentLayers(pos: seq<int>, i: nat): (layers: seq<Layer>)
    requires i <= |pos|
    ensures forall k :: 0 <= k < |layers| ==> layers[k].Alignment?
  {
    if i == 0 then [] else AlignmentLayers(pos, i - 1) + AlignmentRow(pos, i - 1, |pos|)
  }

  // ----- all function patterns

  /** The layers of a version and level in the order they are drawn; the format information is that of
      mask 0, to be overwritten. */
  function FunctionLayers(ver: int, ecl: Ecc): (layers: seq<Layer>)
    requires ValidVersion(ver)
    ensures forall k :: 0 <= k < |layers| ==> WellFormed(layers[k])
  {
    var n, pos := ver * 4 + 17, AlignmentPositions(ver);
    [Timing, Finder(Pos(3, 3)), Finder(Pos(n - 4, 3)), Finder(Pos(3, n - 4))]
    + AlignmentLayers(pos, |pos|)
    + [FormatInfo(FormatWord(ecl, 0))]
    + if ver >= 7 then [VersionInfo(VersionWord(ver))] else []
  }

  function FunctionSheet(ver: int, ecl: Ecc): (s: Sheet)
    requires ValidVersion(ver)
    ensures SheetOf(s, ver * 4 + 17)
  {
    DrawAll(Blank(ver * 4 + 17), ver * 4 + 17, FunctionLayers(ver, ecl))
  }

  lemma FunctionMarkedIff(ver: int, ecl: Ecc, p: Pos)
    requires ValidVersion(ver) && InGrid(p, ver * 4 + 17)
    ensures Get(FunctionSheet(ver, ecl).marked, ver * 4 + 17, p)
       <==> exists i :: 0 <= i < |FunctionLayers(ver, ecl)| && Ink(FunctionLayers(ver, ecl)[i], ver * 4 + 17, p).Some?
  {
    hide Ink, FunctionLayers;
    MarkedIff(Blank(ver * 4 + 17), ver * 4 + 17, FunctionLayers(ver, ecl), p);
  }

  /** The vertical timing pattern fills column 6, and the format cells are function modules. */
  lemma TimingAndFormatMarked(ver: int, ecl: Ecc)
    requires ValidVersion(ver)
    ensures var n, marked := ver * 4 + 17, FunctionSheet(ver, ecl).marked;
            (forall y :: 0 <= y < n ==> marked[y][6]) && FormatCellsMarked(marked, n)
  {
    hide FunctionSheet, IsFormatCell, FormatColor, FormatWord, VersionWord;
    var n, marked, layers := ver * 4 + 17, FunctionSheet(ver, ecl).marked, FunctionLayers(ver, ecl);
    var f := 4 + |AlignmentLayers(AlignmentPositions(ver), |AlignmentPositions(ver)|)|;
    assert layers[0] == Timing && layers[f] == FormatInfo(FormatWord(ecl, 0));
    hide FunctionLayers;
    forall y | 0 <= y < n
      ensures marked[y][6]
    {
      FunctionMarkedIff(ver, ecl, Pos(6, y));
      assert Ink(layers[0], n, Pos(6, y)).Some?;
      assert Get(marked, n, Pos(6, y));
    }
    forall x, y | 0 <= x < n && 0 <= y < n && IsFormatCell(n, Pos(x, y))
      ensures marked[y][x]
    {
      FunctionMarkedIff(ver, ecl, Pos(x, y));
      assert Ink(layers[f], n, Pos(x, y)).Some?;
      assert Get(marked, n, Pos(x, y));
    }
  }

  // ----- drawing a layer module by module

  /** The modules in `done` have the ink of the layer, and nothing else has changed. */
  ghost predicate Inked(before: Sheet, now: Sheet, n: int, l: Layer, done: set<Pos>) {
    && SheetOf(before, n) && SheetOf(now, n) && WellFormed(l) && n >= 21
    && (forall p :: p in done ==> InGrid(p, n) && Ink(l, n, p).Some?)
    && (forall p :: InGrid(p, n) ==>
          Get(now.modules, n, p) == if p in done then Ink(l, n, p).value else Get(before.modules, n, p))
    && forall p :: InGrid(p, n) ==> Get(now.marked, n, p) == (p in done || Get(before.marked, n, p))
  }

  lemma NothingInked(before: Sheet, n: int, l: Layer)
    requires SheetOf(before, n) && WellFormed(l) && n >= 21
    ensures Inked(before, before, n, l, {})
  {
  }

  lemma InkedStep(before: Sheet, now: Sheet, next: Sheet, n: int, l: Layer, done: set<Pos>, p: Pos)
    requires Inked(before, now, n, l, done) && InGrid(p, n) && Ink(l, n, p).Some?
    requires next.modules == Put(now.modules, n, p, Ink(l, n, p).value) && next.marked == Put(now.marked, n, p, true)
    ensures Inked(before, next, n, l, done + {p})
  {
    hide Ink;
  }

  /** When all modules that the layer covers have been drawn, the layer has. */
  lemma AllInked(before: Sheet, now: Sheet, n: int, l: Layer, done: set<Pos>)
    requires Inked(before, now, n, l, done)
    requires forall p :: InGrid(p, n) && Ink(l, n, p).Some? ==> p in done
    ensures now == Draw(before, n, l)
  {
    hide Ink;
    SheetsEqual(now, Draw(before, n, l), n);
  }

  predicate FirstCopy(done: set<Pos>) {
    (forall k :: 0 <= k <= 5 ==> Pos(8, k) in done && Pos(k, 8) in done) && {Pos(8, 7), Pos(8, 8), Pos(7, 8)} <= done
  }

  predicate SecondCopy(n: int, done: set<Pos>) {
    forall k :: n - 8 <= k < n ==> Pos(k, 8) in done && Pos(8, k) in done
  }

  lemma FormatCellsDone(n: int, word: seq<bool>, done: set<Pos>)
    requires n >= 21 && |word| == 15 && FirstCopy(done) && SecondCopy(n, done)
    ensures forall p :: InGrid(p, n) && Ink(FormatInfo(word), n, p).Some? ==> p in done
  {
    forall p | InGrid(p, n) && IsFormatCell(n, p)
      ensures p in done
    {
      assert p == Pos(p.x, p.y);
      assert p == Pos(8, p.y) || p == Pos(p.x, 8);
    }
  }

  /** Drawing format information overwrites the format cells; they stay marked if they were. */
  lemma FormatLayerIs(s: Sheet, n: int, word: seq<bool>)
    requires SheetOf(s, n) && n >= 21 && |word| == 15
    ensures Draw(s, n, FormatInfo(word)).modules == WithFormat(s.modules, n, word)
    ensures FormatCellsMarked(s.marked, n) ==> Draw(s, n, FormatInfo(word)).marked == s.marked
  {
    hide IsFormatCell, FormatColor, FormatCellsMarked;
    var t := Draw(s, n, FormatInfo(word));
    GridsEqual(t.modules, WithFormat(s.modules, n, word), n);
    if FormatCellsMarked(s.marked, n) {
      forall p | InGrid(p, n)
        ensures Get(t.marked, n, p) == Get(s.marked, n, p)
      {
        if IsFormatCell(n, p) {
          FormatCellMarked(s.marked, n, p);
        }
      }
      GridsEqual(t.marked, s.marked, n);
    }
  }

  /** Where the version information has bit i. */
  lemma VersionCell(n: int, word: seq<bool>, i: int)
    requires n >= 40 && 0 <= i < 18 && |word| == 18
    ensures var a, b := n - 11 + i % 3, i / 3;
            && InGrid(Pos(a, b), n) && InGrid(Pos(b, a), n)
            && Ink(VersionInfo(word), n, Pos(a, b)) == Some(word[i]) == Ink(VersionInfo(word), n, Pos(b, a))
  {
    var a, b := n - 11 + i % 3, i / 3;
    assert VersionIndex(n, Pos(a, b)) == i == VersionIndex(n, Pos(b, a));
  }

  predicate VersionCells(n: int, done: set<Pos>, k: int) {
    forall i :: 0 <= i < k ==> Pos(n - 11 + i % 3, i / 3) in done && Pos(i / 3, n - 11 + i % 3) in done
  }

  lemma VersionCellsDone(n: int, word: seq<bool>, done: set<Pos>)
    requires n >= 40 && |word| == 18 && VersionCells(n, done, 18)
    ensures forall p :: InGrid(p, n) && Ink(VersionInfo(word), n, p).Some? ==> p in done
  {
    forall p | InGrid(p, n) && VersionIndex(n, p) >= 0
      ensures p in done
    {
      var i := VersionIndex(n, p);
      assert p == Pos(p.x, p.y);
      assert i < 18 && (p == Pos(n - 11 + i % 3, i / 3) || p == Pos(i / 3, n - 11 + i % 3));
    }
  }

  /** The first four layers, drawn. */
  lemma FirstLayers(start: Sheet, n: int) returns (layers: seq<Layer>)
    requires SheetOf(start, n) && n >= 21
    ensures layers == [Timing, Finder(Pos(3, 3)), Finder(Pos(n - 4, 3)), Finder(Pos(3, n - 4))]
    ensures DrawAll(start, n, layers)
         == Draw(Draw(Draw(Draw(start, n, Timing), n, Finder(Pos(3, 3))), n, Finder(Pos(n - 4, 3))),
                n, Finder(Pos(3, n - 4)))
  {
    hide Draw;
    layers := [];
    DrawAllSnoc(start, n, layers, Timing);
    layers := layers + [Timing];
    DrawAllSnoc(start, n, layers, Finder(Pos(3, 3)));
    layers := layers + [Finder(Pos(3, 3))];
    DrawAllSnoc(start, n, layers, Finder(Pos(n - 4, 3)));
    layers := layers + [Finder(Pos(n - 4, 3))];
    DrawAllSnoc(start, n, layers, Finder(Pos(3, n - 4)));
    layers := layers + [Finder(Pos(3, n - 4))];
  }
}
