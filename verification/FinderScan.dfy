/**
 Finder-like patterns in a line of modules: the definition over the line bordered by unlimited
 white, and the run history by which one pass over the line counts them.
 */
module FinderScan {

  /** The colour at any position of the line, bordered by white on both sides. */
  function Black(line: seq<bool>, i: int): bool {
    0 <= i < |line| && line[i]
  }

  predicate All(line: seq<bool>, color: bool, start: int, limit: int) {
    forall i :: start <= i < limit ==> Black(line, i) == color
  }

  /** A 1:1:3:1:1 core of unit n that ends just before c, and is not part of longer black runs. */
  predicate Core(line: seq<bool>, c: int, n: int) {
    && n > 0
    && !Black(line, c)
    && All(line, true, c - n, c)
    && All(line, false, c - 2 * n, c - n)
    && All(line, true, c - 5 * n, c - 2 * n)
    && All(line, false, c - 6 * n, c - 5 * n)
    && All(line, true, c - 7 * n, c - 6 * n)
    && !Black(line, c - 7 * n - 1)
  }

  /** The core has at least four units of white after it and one before it. */
  predicate WideAfter(line: seq<bool>, c: int, n: int) {
    Core(line, c, n) && All(line, false, c, c + 4 * n) && All(line, false, c - 8 * n, c - 7 * n)
  }

  /** The core has at least four units of white before it and one after it. */
  predicate WideBefore(line: seq<bool>, c: int, n: int) {
    Core(line, c, n) && All(line, false, c, c + n) && All(line, false, c - 11 * n, c - 7 * n)
  }

  /** The patterns whose core ends just before c: (core, side) pairs. */
  ghost function PatternsAt(line: seq<bool>, c: int): (k: nat)
    ensures k <= 2
  {
    (if exists n: int :: WideAfter(line, c, n) then 1 else 0)
    + (if exists n: int :: WideBefore(line, c, n) then 1 else 0)
  }

  ghost function PatternsBefore(line: seq<bool>, limit: nat): nat {
    if limit == 0 then 0 else PatternsBefore(line, limit - 1) + PatternsAt(line, limit - 1)
  }

  /** All finder-like patterns of the line. */
  ghost function FinderPatterns(line: seq<bool>): nat {
    PatternsBefore(line, |line| + 1)
  }

  // ----- the definition as a set of patterns

  datatype Pattern = Pattern(end: int, unit: int, wideAfter: bool)

  predicate IsPattern(line: seq<bool>, p: Pattern) {
    if p.wideAfter then WideAfter(line, p.end, p.unit) else WideBefore(line, p.end, p.unit)
  }

  lemma CoreInLine(line: seq<bool>, c: int, n: int)
    requires Core(line, c, n)
    ensures 7 * n <= c <= |line| && n > 0
  {
    assert Black(line, c - 1) && Black(line, c - 7 * n);
  }

  /** The end of a core determines its unit. */
  lemma UnitUnique(line: seq<bool>, c: int, n: int, m: int)
    requires Core(line, c, n) && Core(line, c, m)
    ensures n == m
  {
    assert !Black(line, c - n - 1) && !Black(line, c - m - 1);
  }

  /** The patterns of the line that end before `to`, as a set. */
  ghost function PatternSet(line: seq<bool>, limit: nat): set<Pattern> {
    set c, n, s | 0 <= c < limit && 0 < n <= |line| && s in {true, false} && IsPattern(line, Pattern(c, n, s))
      :: Pattern(c, n, s)
  }

  lemma InPatternSet(line: seq<bool>, limit: nat)
    ensures forall p: Pattern :: p in PatternSet(line, limit) <==> 0 <= p.end < limit && IsPattern(line, p)
  {
    forall p: Pattern | 0 <= p.end < limit && IsPattern(line, p)
      ensures p in PatternSet(line, limit)
    {
      CoreInLine(line, p.end, p.unit);
      assert p == Pattern(p.end, p.unit, p.wideAfter);
    }
  }

  lemma DisjointSizes(s: set<Pattern>, a: set<Pattern>, b: set<Pattern>)
    requires s !! a && s !! b && a !! b
    ensures |s + a + b| == |s| + |a| + |b|
  {
  }

  /** The count is the number of distinct patterns. */
  lemma {:induction false} CountIsCardinality(line: seq<bool>, limit: nat)
    ensures PatternsBefore(line, limit) == |PatternSet(line, limit)|
  {
    hide PatternSet, IsPattern, WideAfter, WideBefore;
    if limit > 0 {
      CountIsCardinality(line, limit - 1);
      InPatternSet(line, limit);
      InPatternSet(line, limit - 1);
      var a := PatternSetAt(line, limit - 1, true);
      var b := PatternSetAt(line, limit - 1, false);
      SplitByEnd(line, limit - 1, PatternSet(line, limit), PatternSet(line, limit - 1), a, b);
    } else {
      InPatternSet(line, 0);
      assert PatternSet(line, 0) == {};
    }
  }

  lemma SplitByEnd(line: seq<bool>, last: nat, all: set<Pattern>, before: set<Pattern>, a: set<Pattern>,
      b: set<Pattern>)
    requires forall p: Pattern :: p in all <==> 0 <= p.end < last + 1 && IsPattern(line, p)
    requires forall p: Pattern :: p in before <==> 0 <= p.end < last && IsPattern(line, p)
    requires forall p: Pattern :: p in a <==> p.end == last && p.wideAfter && IsPattern(line, p)
    requires forall p: Pattern :: p in b <==> p.end == last && !p.wideAfter && IsPattern(line, p)
    ensures |all| == |before| + |a| + |b|
  {
    hide IsPattern;
    assert all == before + a + b;
    DisjointSizes(before, a, b);
  }

  lemma PatternSetAt(line: seq<bool>, c: nat, side: bool) returns (s: set<Pattern>)
    ensures forall p: Pattern :: p in s <==> p.end == c && p.wideAfter == side && IsPattern(line, p)
    ensures side ==> |s| == if exists n: int :: WideAfter(line, c, n) then 1 else 0
    ensures !side ==> |s| == if exists n: int :: WideBefore(line, c, n) then 1 else 0
  {
    if n: int :| if side then WideAfter(line, c, n) else WideBefore(line, c, n) {
      s := {Pattern(c, n, side)};
      CoreInLine(line, c, n);
      forall p: Pattern | p.end == c && p.wideAfter == side && IsPattern(line, p)
        ensures p in s
      {
        UnitUnique(line, c, n, p.unit);
      }
    } else {
      s := {};
    }
  }

  // ----- the run history

  type History = h: seq<int> | |h| == 7 witness [0, 0, 0, 0, 0, 0, 0]

  /** Entries k.. of the history describe the maximal runs that end at e, the first of them of the
      given colour, back to a border of `border` white modules before the line; zeros stand for runs
      before the border. */
  predicate Describes(line: seq<bool>, border: int, h: History, k: nat, e: int, color: bool)
    requires k <= 7
    decreases 7 - k
  {
    k == 7 || (
      && h[k] >= 0
      && (h[k] == 0 ==> e == -border && color && forall j :: k <= j < 7 ==> h[j] == 0)
      && (h[k] > 0 ==>
            && e - h[k] >= -border
            && All(line, color, e - h[k], e)
            && (e - h[k] > -border ==> Black(line, e - h[k] - 1) != color)
            && Describes(line, border, h, k + 1, e - h[k], !color)))
  }

  /** Pushing a run onto the front. */
  function Push(h: History, run: int): History {
    [run] + h[..6]
  }

  lemma {:induction false} PushShifts(line: seq<bool>, border: int, h: History, run: int, k: nat, e: int, color: bool)
    requires k <= 6 && Describes(line, border, h, k, e, color)
    ensures Describes(line, border, Push(h, run), k + 1, e, color)
    decreases 7 - k
  {
    hide All, Black;
    var g := Push(h, run);
    assert forall j :: 1 <= j < 7 ==> g[j] == h[j - 1];
    if k < 6 && h[k] > 0 {
      PushShifts(line, border, h, run, k + 1, e - h[k], !color);
    }
  }

  lemma RunUnique(line: seq<bool>, border: int, e: int, color: bool, m: int, n: int)
    requires m > 0 && n > 0 && All(line, color, e - m, e) && All(line, color, e - n, e)
    requires Black(line, e - n - 1) != color
    requires e - m > -border ==> Black(line, e - m - 1) != color
    requires e - m >= -border && e - n > -border
    ensures m == n
  {
  }

  /** The first five runs behind the trailing white are those of a core of unit n. */
  predicate CoreRuns(h: History, n: int) {
    n > 0 && h[1] == n && h[2] == n && h[3] == n * 3 && h[4] == n && h[5] == n
  }

  /** What finderPenaltyCountPatterns computes from the history. */
  function CountPatterns(h: History): (k: int)
    ensures 0 <= k <= 2
  {
    var n := h[1];
    var core := CoreRuns(h, n);
    (if core && h[0] >= n * 4 && h[6] >= n then 1 else 0) + (if core && h[6] >= n * 4 && h[0] >= n then 1 else 0)
  }

  /** The history after a white run that started at c and ends at e. */
  predicate WhiteRunEnded(line: seq<bool>, border: int, h: History, e: int, c: int) {
    && border >= |line|
    && c == e - h[0] && h[0] > 0 && c >= -border
    && All(line, false, c, e)
    && (Black(line, e) || e >= |line| + border)
    && (c > -border ==> Black(line, c - 1))
    && Describes(line, border, h, 1, c, true)
  }

  lemma NextRun(line: seq<bool>, border: int, h: History, k: nat, e: int, color: bool)
    requires k < 7 && Describes(line, border, h, k, e, color) && h[k] > 0
    ensures e - h[k] >= -border && All(line, color, e - h[k], e)
    ensures e - h[k] > -border ==> Black(line, e - h[k] - 1) != color
    ensures Describes(line, border, h, k + 1, e - h[k], !color)
  {
  }

  /** A run of nonzero length of which a maximal run of length n is known. */
  lemma NextRunIs(line: seq<bool>, border: int, h: History, k: nat, e: int, color: bool, n: int)
    requires k < 7 && Describes(line, border, h, k, e, color)
    requires n > 0 && e - n > -border && All(line, color, e - n, e) && Black(line, e - n - 1) != color
    ensures h[k] == n && Describes(line, border, h, k + 1, e - n, !color)
  {
    hide Describes;
    FirstRun(line, border, h, k, e, color);
    NextRun(line, border, h, k, e, color);
    RunUnique(line, border, e, color, h[k], n);
  }

  lemma FirstRun(line: seq<bool>, border: int, h: History, k: nat, e: int, color: bool)
    requires k < 7 && Describes(line, border, h, k, e, color) && e > -border
    ensures h[k] > 0
  {
  }

  lemma ColorAt(line: seq<bool>, color: bool, start: int, limit: int, i: int)
    requires All(line, color, start, limit) && start <= i < limit
    ensures Black(line, i) == color
  {
  }

  lemma HistoryShowsCore(line: seq<bool>, border: int, h: History, e: int, c: int, n: int)
    requires WhiteRunEnded(line, border, h, e, c) && CoreRuns(h, n)
    ensures Core(line, c, n)
    ensures Describes(line, border, h, 6, c - 7 * n, false)
  {
    hide Describes, All;
    NextRun(line, border, h, 1, c, true);
    NextRun(line, border, h, 2, c - n, false);
    NextRun(line, border, h, 3, c - 2 * n, true);
    NextRun(line, border, h, 4, c - 5 * n, false);
    NextRun(line, border, h, 5, c - 6 * n, true);
    ColorAt(line, true, c - 7 * n, c - 6 * n, c - 7 * n);
    ColorAt(line, false, c, e, c);
  }

  lemma CoreShowsInHistory(line: seq<bool>, border: int, h: History, e: int, c: int, n: int)
    requires WhiteRunEnded(line, border, h, e, c) && Core(line, c, n)
    ensures CoreRuns(h, n)
  {
    hide Describes, All, Black;
    CoreInLine(line, c, n);
    ColorAt(line, false, c - 2 * n, c - n, c - n - 1);
    NextRunIs(line, border, h, 1, c, true, n);
    ColorAt(line, true, c - 5 * n, c - 2 * n, c - 2 * n - 1);
    NextRunIs(line, border, h, 2, c - n, false, n);
    ColorAt(line, false, c - 6 * n, c - 5 * n, c - 5 * n - 1);
    NextRunIs(line, border, h, 3, c - 2 * n, true, 3 * n);
    ColorAt(line, true, c - 7 * n, c - 6 * n, c - 6 * n - 1);
    NextRunIs(line, border, h, 4, c - 5 * n, false, n);
    NextRunIs(line, border, h, 5, c - 6 * n, true, n);
  }

  /** Around a core, the history's outer white runs are as long as the white next to it. */
  lemma SidesMatch(line: seq<bool>, border: int, h: History, e: int, c: int, n: int, m: int)
    requires WhiteRunEnded(line, border, h, e, c) && Core(line, c, n)
    requires Describes(line, border, h, 6, c - 7 * n, false)
    requires 0 < m <= 4 * n
    ensures h[0] >= m <==> All(line, false, c, c + m)
    ensures h[6] >= m <==> All(line, false, c - 7 * n - m, c - 7 * n)
  {
    CoreInLine(line, c, n);
    if h[0] < m {
      assert Black(line, e);
    }
    if h[6] < m {
      assert c - 7 * n - h[6] > -border;
      assert Black(line, c - 7 * n - h[6] - 1);
    }
  }

  /** The count taken from the history when a white run ends is the number of patterns whose core
      ends where that run began. */
  lemma CountIsPatternsAt(line: seq<bool>, border: int, h: History, e: int, c: int)
    requires WhiteRunEnded(line, border, h, e, c)
    ensures CountPatterns(h) == PatternsAt(line, c)
  {
    hide Describes;
    var n := h[1];
    if CoreRuns(h, n) {
      HistoryShowsCore(line, border, h, e, c, n);
      SidesMatch(line, border, h, e, c, n, n);
      SidesMatch(line, border, h, e, c, n, 4 * n);
      forall m | Core(line, c, m)
        ensures m == n
      {
        UnitUnique(line, c, n, m);
      }
      assert CountPatterns(h) == (if WideAfter(line, c, n) then 1 else 0) + (if WideBefore(line, c, n) then 1 else 0);
    } else {
      forall m
        ensures !Core(line, c, m)
      {
        if Core(line, c, m) {
          CoreShowsInHistory(line, border, h, e, c, m);
        }
      }
    }
  }

  lemma CoreEnds(line: seq<bool>, c: int, n: int)
    requires Core(line, c, n)
    ensures Black(line, c - 1) && !Black(line, c)
  {
  }

  /** No pattern's core ends at a black module, or behind a white one. */
  lemma NoPatternAt(line: seq<bool>, c: int)
    requires Black(line, c) || !Black(line, c - 1)
    ensures PatternsAt(line, c) == 0
  {
    forall n
      ensures !Core(line, c, n)
    {
      if Core(line, c, n) {
        CoreEnds(line, c, n);
      }
    }
  }

  /** A range that starts no white run adds nothing. */
  lemma {:induction false} NoPatternsBetween(line: seq<bool>, start: nat, limit: nat)
    requires start <= limit
    requires forall c :: start <= c < limit ==> Black(line, c) || !Black(line, c - 1)
    ensures PatternsBefore(line, limit) == PatternsBefore(line, start)
    decreases limit
  {
    if start < limit {
      NoPatternAt(line, limit - 1);
      NoPatternsBetween(line, start, limit - 1);
    }
  }
}
