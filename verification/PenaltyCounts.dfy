/**
 The counts in the penalty score as sizes of sets of modules.
 */
module PenaltyCounts {
  import opened FinderScan
  import opened Grids
  import opened Penalty

  ghost function BlackUpTo(g: Grid, n: nat, y: nat, x: nat): set<Pos>
    requires Square(g, n) && y <= n && x <= n
  {
    set i, j | 0 <= i < n && 0 <= j < n && (j < y || (j == y && i < x)) && g[j][i] :: Pos(i, j)
  }

  lemma InBlack(g: Grid, n: nat, y: nat, x: nat)
    requires Square(g, n) && y <= n && x <= n
    ensures forall p ::
              p in BlackUpTo(g, n, y, x) <==> InGrid(p, n) && (p.y < y || (p.y == y && p.x < x)) && g[p.y][p.x]
  {
    forall p | InGrid(p, n) && (p.y < y || (p.y == y && p.x < x)) && g[p.y][p.x]
      ensures p in BlackUpTo(g, n, y, x)
    {
      assert p == Pos(p.x, p.y);
    }
  }

  lemma {:induction false} BlackInRow(g: Grid, n: nat, y: nat, x: nat)
    requires Square(g, n) && y < n && x <= n
    ensures |BlackUpTo(g, n, y, x)| == |BlackUpTo(g, n, y, 0)| + BlackInLine(g[y], x)
  {
    hide BlackUpTo;
    if x > 0 {
      BlackInRow(g, n, y, x - 1);
      InBlack(g, n, y, x);
      InBlack(g, n, y, x - 1);
      assert BlackUpTo(g, n, y, x) == BlackUpTo(g, n, y, x - 1) + if g[y][x - 1] then {Pos(x - 1, y)} else {};
    }
  }

  lemma {:induction false} BlackInRows(g: Grid, n: nat, y: nat)
    requires Square(g, n) && y <= n
    ensures |BlackUpTo(g, n, y, 0)| == BlackCount(g, n, y)
  {
    hide BlackUpTo;
    InBlack(g, n, y, 0);
    if y > 0 {
      BlackInRows(g, n, y - 1);
      BlackInRow(g, n, y - 1, n);
      InBlack(g, n, y - 1, n);
      assert BlackUpTo(g, n, y, 0) == BlackUpTo(g, n, y - 1, n);
    } else {
      assert BlackUpTo(g, n, 0, 0) == {};
    }
  }

  /** The black modules of the whole grid. */
  lemma BlackCardinality(g: Grid, n: nat)
    requires Square(g, n)
    ensures BlackCount(g, n, n) == |set i, j | 0 <= i < n && 0 <= j < n && g[j][i] :: Pos(i, j)|
  {
    BlackInRows(g, n, n);
    assert BlackUpTo(g, n, n, 0) == set i, j | 0 <= i < n && 0 <= j < n && g[j][i] :: Pos(i, j);
  }

  // ----- blocks of one colour

  /** The module and its neighbours to the right, below, and to the right below, are of one colour. */
  predicate OneColor(g: Grid, n: nat, i: int, j: int)
    requires Square(g, n)
  {
    && 0 <= i < n - 1 && 0 <= j < n - 1
    && g[j][i + 1] == g[j][i] && g[j + 1][i] == g[j][i] && g[j + 1][i + 1] == g[j][i]
  }

  ghost function BlocksUpTo(g: Grid, n: nat, y: nat, x: nat): set<Pos>
    requires Square(g, n) && y < n && x < n
  {
    set i, j | 0 <= i < n && 0 <= j < n && (j < y || (j == y && i < x)) && OneColor(g, n, i, j) :: Pos(i, j)
  }

  lemma InBlocks(g: Grid, n: nat, y: nat, x: nat)
    requires Square(g, n) && y < n && x < n
    ensures forall p ::
              p in BlocksUpTo(g, n, y, x) <==> (p.y < y || (p.y == y && p.x < x)) && OneColor(g, n, p.x, p.y)
  {
    forall p: Pos | (p.y < y || (p.y == y && p.x < x)) && OneColor(g, n, p.x, p.y)
      ensures p in BlocksUpTo(g, n, y, x)
    {
      assert p == Pos(p.x, p.y);
    }
  }

  lemma {:induction false} BlocksAlong(g: Grid, n: nat, y: nat, x: nat)
    requires Square(g, n) && y + 1 < n && x < n
    ensures |BlocksUpTo(g, n, y, x)| == |BlocksUpTo(g, n, y, 0)| + BlocksInRow(g, n, y, x)
  {
    hide BlocksUpTo;
    if x > 0 {
      BlocksAlong(g, n, y, x - 1);
      InBlocks(g, n, y, x);
      InBlocks(g, n, y, x - 1);
      assert Monochrome(g, n, x - 1, y) <==> OneColor(g, n, x - 1, y);
      hide OneColor, Monochrome;
      assert BlocksUpTo(g, n, y, x)
          == BlocksUpTo(g, n, y, x - 1) + if OneColor(g, n, x - 1, y) then {Pos(x - 1, y)} else {};
    }
  }

  lemma {:induction false} BlocksDown(g: Grid, n: nat, y: nat)
    requires Square(g, n) && y < n
    ensures |BlocksUpTo(g, n, y, 0)| == Blocks(g, n, y)
  {
    hide BlocksUpTo;
    InBlocks(g, n, y, 0);
    if y > 0 {
      BlocksDown(g, n, y - 1);
      BlocksAlong(g, n, y - 1, n - 1);
      InBlocks(g, n, y - 1, n - 1);
      assert BlocksUpTo(g, n, y, 0) == BlocksUpTo(g, n, y - 1, n - 1);
    } else {
      assert BlocksUpTo(g, n, 0, 0) == {};
    }
  }

  /** The 2x2 blocks of one colour in the whole grid. */
  lemma BlocksCardinality(g: Grid, n: nat)
    requires Square(g, n) && n > 0
    ensures Blocks(g, n, n - 1) == |set i, j | 0 <= i < n && 0 <= j < n && OneColor(g, n, i, j) :: Pos(i, j)|
  {
    BlocksDown(g, n, n - 1);
    assert BlocksUpTo(g, n, n - 1, 0) == set i, j | 0 <= i < n && 0 <= j < n && OneColor(g, n, i, j) :: Pos(i, j);
  }

  // ----- the score

  /** A line costs its runs, and 40 for each pattern in it. */
  lemma LineCostIs(line: seq<bool>)
    ensures LineCost(line) == RunsBefore(line, |line|) + 40 * |PatternSet(line, |line| + 1)|
  {
    hide RunsBefore;
    CountIsCardinality(line, |line| + 1);
  }

  /** The score of a grid of odd size: its lines, 3 for each block of one colour, and 10 for each step by which
      its share of black modules is off balance. */
  lemma ScoreIs(g: Grid, n: nat) returns (k: int)
    requires Square(g, n) && n % 2 == 1
    ensures LeastBalance(|set i, j | 0 <= i < n && 0 <= j < n && g[j][i] :: Pos(i, j)|, n * n, k)
    ensures Score(g, n) == RowsCost(g, n, n) + ColumnsCost(g, n, n)
                         + 3 * |set i, j | 0 <= i < n && 0 <= j < n && OneColor(g, n, i, j) :: Pos(i, j)| + 10 * k
  {
    hide LeastBalance, LeastStep, Blocks, BlackCount, RowsCost, ColumnsCost;
    BlackCardinality(g, n);
    BlocksCardinality(g, n);
    OddSquare(n);
    k := LeastStep(BlackCount(g, n, n), n * n);
  }
}
