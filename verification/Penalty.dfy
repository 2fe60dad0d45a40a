/**
 The penalty score of a grid, as ISO/IEC 18004 section 7.8.3 defines it, and the single pass over a
 line that computes a line's share of it.
 */
module Penalty {
  import opened Grids
  import opened FinderScan

  const PENALTY_N1 := 3
  const PENALTY_N2 := 3
  const PENALTY_N3 := 40
  const PENALTY_N4 := 10

  // ----- definition

  /** Whether a maximal run of equal modules begins at p. */
  predicate RunStart(line: seq<bool>, p: nat)
    requires p < |line|
  {
    p == 0 || line[p - 1] != line[p]
  }

  /** How far the modules from p on have the colour of p. */
  function RunLength(line: seq<bool>, p: nat): (n: nat)
    requires p < |line|
    ensures 0 < n <= |line| - p
    ensures forall i :: p <= i < p + n ==> line[i] == line[p]
    ensures p + n < |line| ==> line[p + n] != line[p]
    decreases |line| - p
  {
    if p + 1 < |line| && line[p + 1] == line[p] then 1 + RunLength(line, p + 1) else 1
  }

  /** A maximal run of five or more modules costs its length less two. */
  function RunCost(n: nat): nat {
    if n >= 5 then n - 2 else 0
  }

  /** The cost of the maximal runs that begin before `limit`. */
  function RunsBefore(line: seq<bool>, limit: nat): nat
    requires limit <= |line|
  {
    if limit == 0 then 0
    else RunsBefore(line, limit - 1) + if RunStart(line, limit - 1) then RunCost(RunLength(line, limit - 1)) else 0
  }

  ghost function LineCost(line: seq<bool>): nat {
    RunsBefore(line, |line|) + PENALTY_N3 * FinderPatterns(line)
  }

  function Row(g: Grid, n: nat, y: nat): (line: seq<bool>)
    requires Square(g, n) && y < n
    ensures |line| == n
  {
    g[y]
  }

  function Column(g: Grid, n: nat, x: nat): (line: seq<bool>)
    requires Square(g, n) && x < n
    ensures |line| == n
  {
    seq(n, y requires 0 <= y < n => g[y][x])
  }

  ghost function RowsCost(g: Grid, n: nat, k: nat): nat
    requires Square(g, n) && k <= n
  {
    if k == 0 then 0 else RowsCost(g, n, k - 1) + LineCost(Row(g, n, k - 1))
  }

  ghost function ColumnsCost(g: Grid, n: nat, k: nat): nat
    requires Square(g, n) && k <= n
  {
    if k == 0 then 0 else ColumnsCost(g, n, k - 1) + LineCost(Column(g, n, k - 1))
  }

  /** Four modules of one colour with their top left at (x, y). */
  predicate Monochrome(g: Grid, n: nat, x: nat, y: nat)
    requires Square(g, n) && x + 1 < n && y + 1 < n
  {
    g[y][x] == g[y][x + 1] == g[y + 1][x] == g[y + 1][x + 1]
  }

  function BlocksInRow(g: Grid, n: nat, y: nat, k: nat): nat
    requires Square(g, n) && y + 1 < n && k < n
  {
    if k == 0 then 0 else BlocksInRow(g, n, y, k - 1) + if Monochrome(g, n, k - 1, y) then 1 else 0
  }

  function Blocks(g: Grid, n: nat, k: nat): nat
    requires Square(g, n) && k < n
  {
    if k == 0 then 0 else Blocks(g, n, k - 1) + BlocksInRow(g, n, k - 1, n - 1)
  }

  function BlackInLine(line: seq<bool>, k: nat): (b: nat)
    requires k <= |line|
    ensures b <= k
  {
    if k == 0 then 0 else BlackInLine(line, k - 1) + if line[k - 1] then 1 else 0
  }

  function BlackCount(g: Grid, n: nat, k: nat): nat
    requires Square(g, n) && k <= n
  {
    if k == 0 then 0 else BlackCount(g, n, k - 1) + BlackInLine(g[k - 1], n)
  }

  /** (45 - 5k)% <= black / total <= (55 + 5k)% */
  predicate Balanced(black: nat, total: nat, k: int) {
    (45 - 5 * k) * total <= 100 * black <= (55 + 5 * k) * total
  }

  predicate LeastBalance(black: nat, total: nat, k: int) {
    k >= 0 && Balanced(black, total, k) && forall j :: 0 <= j < k ==> !Balanced(black, total, j)
  }

  /** The deviation from an even balance, in steps of five percent. */
  function BalanceStep(black: nat, total: nat): int
    requires total > 0
  {
    (Abs(black * 20 - total * 10) + total - 1) / total - 1
  }

  // ----- the balance step

  lemma CeilingDivision(a: nat, t: nat)
    requires t > 0 && a > 0
    ensures var q := (a + t - 1) / t; q >= 1 && (q - 1) * t < a <= q * t
  {
    var q, r := (a + t - 1) / t, (a + t - 1) % t;
    assert a + t - 1 == t * q + r;
    assert t * q == q * t && (q - 1) * t == q * t - t;
    assert q >= 1;
  }

  lemma MulMonotone(j: int, k: int, t: nat)
    requires j <= k
    ensures j * t <= k * t
  {
    assert k * t - j * t == (k - j) * t;
  }

  lemma BalancedIff(black: nat, total: nat, k: int)
    ensures Balanced(black, total, k) <==> Abs(black * 20 - total * 10) <= (k + 1) * total
  {
    assert (45 - 5 * k) * total == 50 * total - 5 * ((k + 1) * total);
    assert (55 + 5 * k) * total == 50 * total + 5 * ((k + 1) * total);
  }

  /** The formula gives the least k, and that k is not negative, because an odd total cannot be half
      black. */
  lemma BalanceStepIsLeast(black: nat, total: nat)
    requires total % 2 == 1
    ensures LeastBalance(black, total, BalanceStep(black, total))
  {
    hide Balanced;
    var a, k := Abs(black * 20 - total * 10), BalanceStep(black, total);
    assert a > 0;
    CeilingDivision(a, total);
    BalancedIff(black, total, k);
    forall j | 0 <= j < k
      ensures !Balanced(black, total, j)
    {
      BalancedIff(black, total, j);
      MulMonotone(j + 1, k, total);
    }
  }

  lemma LeastBalanceUnique(black: nat, total: nat, j: int, k: int)
    requires LeastBalance(black, total, j) && LeastBalance(black, total, k)
    ensures j == k
  {
    hide Balanced;
  }

  /** The least k >= 0 such that black / total is within 5k + 5 percent of one half. */
  ghost function LeastStep(black: nat, total: nat): (k: int)
    requires total % 2 == 1
    ensures LeastBalance(black, total, k)
  {
    BalanceStepIsLeast(black, total);
    var k :| LeastBalance(black, total, k);
    k
  }

  /** The source's formula finds it. */
  lemma LeastStepIs(black: nat, total: nat)
    requires total % 2 == 1
    ensures LeastStep(black, total) == BalanceStep(black, total)
  {
    hide LeastBalance, BalanceStep;
    BalanceStepIsLeast(black, total);
    LeastBalanceUnique(black, total, LeastStep(black, total), BalanceStep(black, total));
  }

  lemma OddSquare(n: nat)
    requires n % 2 == 1
    ensures n * n % 2 == 1
  {
    var m := n / 2;
    assert n == 2 * m + 1;
    assert n * n == 2 * (m * n) + n;
  }

  // ----- the score

  ghost function Score(g: Grid, n: nat): int
    requires Square(g, n) && n % 2 == 1
  {
    OddSquare(n);
    RowsCost(g, n, n) + ColumnsCost(g, n, n) + PENALTY_N2 * Blocks(g, n, n - 1)
    + PENALTY_N4 * LeastStep(BlackCount(g, n, n), n * n)
  }

  // ----- the single pass

  /** A line of a grid with border `size`, and what the pass has seen of it: the run of colour
      `color` that began `run` modules before x. */
  predicate PassState(line: seq<bool>, size: int, x: int, color: bool, run: int, h: History) {
    && 0 <= run <= x <= |line| == size
    && (forall i :: x - run <= i < x ==> line[i] == color)
    && (if h[0] == 0 then run == x && !color && h == [0, 0, 0, 0, 0, 0, 0]
        else h[0] > 0 && Black(line, x - run - 1) != color && Describes(line, size, h, 0, x - run, !color))
  }

  /** What finderPenaltyAddHistory makes of the history. */
  function AddHistory(h: History, size: int, run: int): History {
    Push(h, if h[0] == 0 then run + size else run)
  }

  method FinderPenaltyCountPatterns(h: History, ghost line: seq<bool>, ghost e: int, size: int) returns (count: int)
    requires |line| == size && WhiteRunEnded(line, size, h, e, e - h[0])
    ensures count == PatternsAt(line, e - h[0])
  {
    hide Describes, All, Black, PatternsAt;
    CountIsPatternsAt(line, size, h, e, e - h[0]);
    var n := h[1];
    assert n <= size * 3 by {
      BlackRunInLine(line, size, h, e - h[0]);
    }
    var core := n > 0 && h[2] == n && h[3] == n * 3 && h[4] == n && h[5] == n;
    count := (if core && h[0] >= n * 4 && h[6] >= n then 1 else 0)
           + (if core && h[6] >= n * 4 && h[0] >= n then 1 else 0);
  }

  lemma BlackRunInLine(line: seq<bool>, border: int, h: History, c: int)
    requires Describes(line, border, h, 1, c, true) && border == |line|
    ensures h[1] <= |line|
  {
    if h[1] > 0 {
      NextRun(line, border, h, 1, c, true);
      ColorAt(line, true, c - h[1], c, c - h[1]);
      ColorAt(line, true, c - h[1], c, c - 1);
    }
  }

  /** Where the current run began, counting the border into the run that touches it. */
  function RunBegin(size: int, x: int, run: int, h: History): int {
    if h[0] == 0 then -size else x - run
  }

  lemma CurrentRun(line: seq<bool>, size: int, x: int, color: bool, run: int, h: History, e: int)
    requires PassState(line, size, x, color, run, h)
    requires x <= e && (x < e ==> x == size && !color)
    ensures All(line, color, RunBegin(size, x, run, h), e)
  {
    hide Describes;
  }

  lemma EmptyHistory(line: seq<bool>, size: int, g: History)
    requires g[1..] == [0, 0, 0, 0, 0, 0]
    ensures Describes(line, size, g, 1, -size, true)
  {
    assert forall j :: 1 <= j < 7 ==> g[j] == g[1..][j - 1];
  }

  lemma HistoryShifted(line: seq<bool>, size: int, x: int, color: bool, run: int, h: History, top: int)
    requires PassState(line, size, x, color, run, h)
    ensures Describes(line, size, Push(h, top), 1, RunBegin(size, x, run, h), !color)
  {
    hide All, Black;
    if h[0] == 0 {
      EmptyHistory(line, size, Push(h, top));
    } else {
      hide Describes;
      PushShifts(line, size, h, top, 0, x - run, !color);
    }
  }

  lemma FrontRun(line: seq<bool>, border: int, g: History, e: int, color: bool)
    requires g[0] > 0 && e - g[0] >= -border && All(line, color, e - g[0], e)
    requires e - g[0] > -border ==> Black(line, e - g[0] - 1) != color
    requires Describes(line, border, g, 1, e - g[0], !color)
    ensures Describes(line, border, g, 0, e, color)
  {
  }

  /** Ending the run at e keeps the history in step with the line. */
  lemma RunEnds(line: seq<bool>, size: int, x: int, color: bool, run: int, h: History, e: int)
    requires PassState(line, size, x, color, run, h)
    requires x <= e && (x < e ==> x == size && !color) && e > RunBegin(size, x, run, h)
    ensures var g := AddHistory(h, size, run + e - x);
            && g[0] == e - RunBegin(size, x, run, h)
            && Describes(line, size, g, 0, e, color)
            && Describes(line, size, g, 1, RunBegin(size, x, run, h), !color)
  {
    hide Describes, All, Black;
    var top := if h[0] == 0 then run + e - x + size else run + e - x;
    CurrentRun(line, size, x, color, run, h, e);
    HistoryShifted(line, size, x, color, run, h, top);
    FrontRun(line, size, Push(h, top), e, color);
  }

  /** The end of a white run meets the condition for counting patterns. */
  lemma WhiteRunEnds(line: seq<bool>, size: int, x: int, run: int, h: History, e: int)
    requires PassState(line, size, x, false, run, h)
    requires x <= e && (x < e ==> x == size) && e > RunBegin(size, x, run, h)
    requires Black(line, e) || e >= 2 * size
    ensures var g := AddHistory(h, size, run + e - x);
            WhiteRunEnded(line, size, g, e, RunBegin(size, x, run, h)) && g[0] == e - RunBegin(size, x, run, h)
  {
    hide Describes, All, Black;
    RunEnds(line, size, x, false, run, h, e);
    CurrentRun(line, size, x, false, run, h, e);
  }

  lemma RunCostOf(line: seq<bool>, start: nat, e: nat)
    requires start < e <= |line|
    requires RunStart(line, start) && (forall i :: start <= i < e ==> line[i] == line[start])
    requires e < |line| ==> line[e] != line[start]
    ensures RunsBefore(line, e) == RunsBefore(line, start) + RunCost(e - start)
  {
    LengthOf(line, start, start, e);
    NoRunsInside(line, start + 1, e);
  }

  lemma {:induction false} LengthOf(line: seq<bool>, start: nat, p: nat, e: nat)
    requires start <= p < e <= |line|
    requires (forall i :: start <= i < e ==> line[i] == line[start])
    requires e < |line| ==> line[e] != line[start]
    ensures RunLength(line, p) == e - p
    decreases e - p
  {
    if p + 1 < e {
      LengthOf(line, start, p + 1, e);
    }
  }

  lemma {:induction false} NoRunsInside(line: seq<bool>, start: nat, e: nat)
    requires 0 < start <= e <= |line|
    requires forall i :: start <= i < e ==> line[i] == line[i - 1]
    ensures RunsBefore(line, e) == RunsBefore(line, start)
    decreases e
  {
    if start < e {
      NoRunsInside(line, start, e - 1);
    }
  }

  /** The patterns that end in the current run: those counted when a white run ends, none in a black
      one. */
  lemma PatternsAdvance(line: seq<bool>, size: int, x: int, color: bool, run: int, h: History, limit: nat)
    requires PassState(line, size, x, color, run, h) && size > 0
    requires limit == x || (limit == size + 1 && x == size && !color)
    requires limit > x - run || h[0] == 0
    ensures PatternsBefore(line, limit)
         == PatternsBefore(line, x - run) + if color then 0 else PatternsAt(line, RunBegin(size, x, run, h))
  {
    hide Describes, PatternsAt;
    var b := x - run;
    if color {
      NoPatternsBetween(line, b, limit);
    } else if h[0] == 0 {
      NoPatternsBetween(line, 0, limit);
      NoPatternAt(line, -size);
    } else {
      NoPatternsBetween(line, b + 1, limit);
    }
  }

  /** Whether the current run has begun where its colour did. */
  predicate RunBegun(line: seq<bool>, x: int, color: bool, run: int)
    requires 0 <= run <= x <= |line|
  {
    run > 0 ==> line[x - run] == color && (x - run == 0 || line[x - run - 1] != color)
  }

  method FinderPenaltyTerminateAndCount(currentRunColor: bool, currentRunLength: int, runHistory: History, size: int,
                                        ghost line: seq<bool>) returns (count: int)
    requires PassState(line, size, size, currentRunColor, currentRunLength, runHistory)
    requires size > 0 && (currentRunLength > 0 || runHistory[0] == 0)
    ensures count == FinderPatterns(line) - PatternsBefore(line, size - currentRunLength)
  {
    hide Describes, All, PatternsAt, PatternsBefore;
    var h, run := runHistory, currentRunLength;
    if currentRunColor {
      RunEnds(line, size, size, true, run, h, size);
      PatternsAdvance(line, size, size, true, run, h, size);
      h := AddHistory(h, size, run);
      run := 0;
    }
    WhiteRunEnds(line, size, size, run, h, 2 * size);
    PatternsAdvance(line, size, size, false, run, h, size + 1);
    run := run + size;
    h := AddHistory(h, size, run);
    count := FinderPenaltyCountPatterns(h, line, 2 * size, size);
  }

  /** A change of colour at x: the finished run enters the history, and after a white run the
      patterns are counted. */
  method EndRun(line: seq<bool>, size: int, x: int, runColor: bool, runX: int, runHistory: History)
    returns (h: History, count: int)
    requires PassState(line, size, x, runColor, runX, runHistory) && 0 <= x < size && line[x] != runColor
    requires runHistory[0] > 0 ==> runX > 0
    ensures PassState(line, size, x + 1, line[x], 1, h)
    ensures count == PatternsBefore(line, x) - PatternsBefore(line, x - runX)
  {
    hide Describes, All, PatternsAt, PatternsBefore;
    PatternsAdvance(line, size, x, runColor, runX, runHistory, x);
    RunEnds(line, size, x, runColor, runX, runHistory, x);
    h := AddHistory(runHistory, size, runX);
    count := 0;
    if !runColor {
      WhiteRunEnds(line, size, x, runX, runHistory, x);
      count := FinderPenaltyCountPatterns(h, line, x, size);
    }
    EndColor(line, size, h, x, runColor);
  }

  lemma EndColor(line: seq<bool>, size: int, h: History, x: int, color: bool)
    requires Describes(line, size, h, 0, x, color) && h[0] > 0 && x - h[0] >= -size
    ensures Black(line, x - 1) == color
  {
  }

  /** The pass over one line that getPenaltyScore makes for every row and every column. */
  method LinePenalty(line: seq<bool>, size: int) returns (result: int)
    requires |line| == size > 0
    ensures result == LineCost(line)
  {
    hide Describes, All, PatternsAt, PatternsBefore, RunLength;
    result := 0;
    var runColor, runX := false, 0;
    var runHistory: History := [0, 0, 0, 0, 0, 0, 0];
    ghost var runs, finders := 0, 0;
    PatternsBeforeZero(line);
    var x := 0;
    while x < size
      invariant 0 <= x <= size
      invariant PassState(line, size, x, runColor, runX, runHistory) && RunBegun(line, x, runColor, runX)
      invariant x > 0 ==> runX > 0
      invariant runHistory[0] > 0 ==> runX > 0
      invariant runs == RunsBefore(line, x - runX) + RunCost(runX)
      invariant finders == PatternsBefore(line, x - runX)
      invariant result == runs + PENALTY_N3 * finders
    {
      if line[x] == runColor {
        runX := runX + 1;
        if runX == 5 {
          result := result + PENALTY_N1;
        } else if runX > 5 {
          result := result + 1;
        }
        runs := RunsBefore(line, x + 1 - runX) + RunCost(runX);
      } else {
        if runX > 0 {
          RunCostOf(line, x - runX, x);
        }
        var count;
        runHistory, count := EndRun(line, size, x, runColor, runX, runHistory);
        result := result + count * PENALTY_N3;
        runs, finders := RunsBefore(line, x), finders + count;
        runColor := line[x];
        runX := 1;
      }
      x := x + 1;
    }
    RunCostOf(line, x - runX, x);
    var count := FinderPenaltyTerminateAndCount(runColor, runX, runHistory, size, line);
    result := result + count * PENALTY_N3;
  }

  lemma PatternsBeforeZero(line: seq<bool>)
    ensures PatternsBefore(line, 0) == 0
  {
  }
}
