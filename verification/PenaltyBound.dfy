/**
 An upper bound on the penalty score, so that the automatic choice of a mask always finds one.
 */
module PenaltyBound {
  import opened Grids
  import opened FinderScan
  import opened Penalty

  lemma {:induction false} RunsBound(line: seq<bool>, limit: nat)
    requires limit <= |line|
    ensures RunsBefore(line, limit) <= limit * |line|
  {
    if limit > 0 {
      RunsBound(line, limit - 1);
      assert (limit - 1) * |line| + |line| == limit * |line|;
    }
  }

  lemma {:induction false} PatternsBound(line: seq<bool>, limit: nat)
    ensures PatternsBefore(line, limit) <= 2 * limit
  {
    hide PatternsAt;
    if limit > 0 {
      PatternsBound(line, limit - 1);
    }
  }

  lemma LineBound(line: seq<bool>)
    requires |line| <= 177
    ensures LineCost(line) <= 177 * 177 + 80 * 178
  {
    RunsBound(line, |line|);
    PatternsBound(line, |line| + 1);
    MulMonotone(|line|, 177, |line|);
    MulMonotone(|line|, 177, 177);
    assert |line| * |line| <= 177 * 177;
  }

  lemma {:induction false} LinesBound(g: Grid, n: nat, k: nat)
    requires Square(g, n) && k <= n <= 177
    ensures RowsCost(g, n, k) <= k * 45569 && ColumnsCost(g, n, k) <= k * 45569
  {
    hide LineCost;
    if k > 0 {
      LinesBound(g, n, k - 1);
      LineBound(Row(g, n, k - 1));
      LineBound(Column(g, n, k - 1));
    }
  }

  lemma {:induction false} BlocksInRowBound(g: Grid, n: nat, y: nat, k: nat)
    requires Square(g, n) && y + 1 < n && k < n
    ensures BlocksInRow(g, n, y, k) <= k
  {
    if k > 0 {
      BlocksInRowBound(g, n, y, k - 1);
    }
  }

  lemma {:induction false} BlocksBound(g: Grid, n: nat, k: nat)
    requires Square(g, n) && k < n <= 177
    ensures Blocks(g, n, k) <= k * 177
  {
    if k > 0 {
      BlocksBound(g, n, k - 1);
      BlocksInRowBound(g, n, k - 1, n - 1);
    }
  }

  lemma {:induction false} BlackBound(g: Grid, n: nat, k: nat)
    requires Square(g, n) && k <= n
    ensures BlackCount(g, n, k) <= k * n
  {
    if k > 0 {
      BlackBound(g, n, k - 1);
      assert (k - 1) * n + n == k * n;
    }
  }

  lemma BalanceBound(black: nat, total: nat)
    requires 0 < total && black <= total
    ensures BalanceStep(black, total) <= 10
  {
    var a := Abs(black * 20 - total * 10) + total - 1;
    assert a < 12 * total;
    var q := a / total;
    assert a == total * q + a % total;
    if q >= 12 {
      MulMonotone(12, q, total);
    }
  }

  /** The score of any symbol fits a 32-bit long. */
  lemma ScoreBound(g: Grid, n: nat)
    requires Square(g, n) && n % 2 == 1 && n <= 177
    ensures Score(g, n) < 0x7FFF_FFFF
  {
    hide RowsCost, ColumnsCost, Blocks, BlackCount, BalanceStep, LeastStep;
    OddSquare(n);
    LeastStepIs(BlackCount(g, n, n), n * n);
    LinesBound(g, n, n);
    BlocksBound(g, n, n - 1);
    BlackBound(g, n, n);
    assert n * n > 0;
    BalanceBound(BlackCount(g, n, n), n * n);
  }
}
