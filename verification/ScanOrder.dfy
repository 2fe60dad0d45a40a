/**
 The order in which the zigzag scan visits the modules.
 */
module ScanOrder {
  import opened Grids
  import opened Zigzag

  lemma {:induction false} PairScanAt(size: int, right: int, vert: int, v: int, j: int)
    requires 0 <= vert <= v < size && 0 <= j <= 1
    ensures |PairScan(size, right, vert)| == 2 * (size - vert)
    ensures PairScan(size, right, vert)[2 * (v - vert) + j] == Cell(size, right, v, j)
    decreases size - vert
  {
    hide Cell;
    if vert + 1 < size {
      PairScanAt(size, right, vert + 1, if v > vert then v else vert + 1, j);
    } else {
      assert PairScan(size, right, size) == [];
    }
  }

  /** The right-hand column of a pair, counted from the right; column 6 is skipped. */
  function PairColumn(n: int, pair: int): int {
    if n - 1 - 2 * pair > 6 then n - 1 - 2 * pair else n - 2 - 2 * pair
  }

  /** The same before column 6 is looked at. */
  function PairStart(n: int, pair: int): int {
    if n - 1 - 2 * pair >= 6 then n - 1 - 2 * pair else n - 2 - 2 * pair
  }

  lemma {:induction false} ScanSuffix(n: int, pair: nat)
    requires ValidSize(n) && 2 * pair <= n - 1
    ensures 2 * n * pair <= |Scan(n)| && Scan(n)[2 * n * pair..] == ScanFrom(n, PairStart(n, pair))
  {
    hide PairScan, ScanFrom;
    if pair > 0 {
      ScanSuffix(n, pair - 1);
      ScanStep(n, PairStart(n, pair - 1));
      PairScanAt(n, PairColumn(n, pair - 1), 0, 0, 0);
      var first := PairScan(n, PairColumn(n, pair - 1), 0);
      assert 2 * n * pair == 2 * n * (pair - 1) + 2 * n;
      assert Scan(n)[2 * n * (pair - 1)..] == first + ScanFrom(n, PairStart(n, pair));
      assert Scan(n)[2 * n * pair..] == (first + ScanFrom(n, PairStart(n, pair)))[2 * n..];
    } else {
      assert Scan(n)[0..] == Scan(n);
    }
  }

  lemma ScanLength(n: int)
    requires ValidSize(n)
    ensures |Scan(n)| == 2 * n * ((n - 1) / 2)
  {
    hide Scan;
    var pairs := (n - 1) / 2;
    ScanSuffix(n, pairs);
    assert ScanFrom(n, PairStart(n, pairs)) == [];
  }

  /** Step v, right or left, of a pair of columns. */
  lemma ScanAt(n: int, pair: nat, v: nat, j: nat)
    requires ValidSize(n) && 2 * pair < n - 1 && v < n && j <= 1
    ensures 2 * n * pair + 2 * v + j < |Scan(n)|
    ensures Scan(n)[2 * n * pair + 2 * v + j]
         == Pos(PairColumn(n, pair) - j, if (n / 2 - pair) % 2 == 0 then n - 1 - v else v)
  {
    hide Scan, ScanFrom, PairScan;
    ScanSuffix(n, pair);
    ScanStep(n, PairStart(n, pair));
    PairScanAt(n, PairColumn(n, pair), 0, v, j);
    assert Scan(n)[2 * n * pair..][2 * v + j] == Cell(n, PairColumn(n, pair), v, j);
  }

  lemma DivisionParts(k: nat, w: nat, m: nat)
    requires w > 0 && k < w * m
    ensures k == w * (k / w) + k % w && k / w < m
  {
    Product(w, m, if k / w >= m then k / w else m);
  }

  /** A step of the scan by its pair of columns, its row and its side. */
  lemma StepParts(n: nat, m: nat, k: nat) returns (pair: nat, v: nat, j: nat)
    requires n > 0 && k < 2 * n * m
    ensures pair < m && v < n && j <= 1 && k == 2 * (n * pair + v) + j && pair == k / (2 * n)
  {
    DivisionParts(k, 2 * n, m);
    pair := k / (2 * n);
    v, j := k % (2 * n) / 2, k % 2;
    Twice(n, pair);
    Halves(n * pair, k % (2 * n), k);
  }

  lemma Twice(n: int, a: int)
    ensures 2 * n * a == 2 * (n * a)
  {
  }

  lemma Halves(a: int, r: int, k: int)
    requires k == 2 * a + r
    ensures r == 2 * (r / 2) + k % 2
  {
  }

  /** The module at a side of a row of a pair, with the direction of the pair: up in the first pair. */
  lemma ScanAtParts(n: int, pair: nat, v: nat, j: nat)
    requires ValidSize(n) && n % 4 == 1 && 2 * pair < n - 1 && v < n && j <= 1
    ensures 2 * (n * pair + v) + j < |Scan(n)|
    ensures Scan(n)[2 * (n * pair + v) + j] == Pos(PairColumn(n, pair) - j, if pair % 2 == 0 then n - 1 - v else v)
  {
    hide Scan, PairColumn;
    Twice(n, pair);
    ScanAt(n, pair, v, j);
    Parity(n, pair);
  }

  lemma Parity(n: int, pair: int)
    requires n % 4 == 1
    ensures (n / 2 - pair) % 2 == 0 <==> pair % 2 == 0
  {
  }

  lemma OddSide(a: int, j: nat)
    requires j <= 1
    ensures (2 * a + j) % 2 == j
  {
  }

  /** Step k of the scan: pair, row and side, and the module there. */
  lemma StepAt(n: int, k: nat) returns (pair: nat, v: nat)
    requires ValidSize(n) && n % 4 == 1 && k < |Scan(n)|
    ensures 2 * pair < n - 1 && v < n && pair == k / (2 * n) && k == 2 * (n * pair + v) + k % 2
    ensures Scan(n)[k] == Pos(PairColumn(n, pair) - k % 2, if pair % 2 == 0 then n - 1 - v else v)
  {
    hide Scan, PairColumn;
    ScanLength(n);
    var j;
    pair, v, j := StepParts(n, (n - 1) / 2, k);
    OddSide(n * pair + v, j);
    ScanAtParts(n, pair, v, j);
  }

  lemma RightStep(n: int, k: nat)
    requires ValidSize(n) && n % 4 == 1 && k < |Scan(n)| && k % 2 == 1
    ensures Scan(n)[k] == Pos(Scan(n)[k - 1].x - 1, Scan(n)[k - 1].y)
  {
    hide Scan, PairColumn;
    var pair, v := StepAt(n, k);
    ScanAtParts(n, pair, v, 0);
  }

  lemma RowStep(n: int, k: nat)
    requires ValidSize(n) && n % 4 == 1 && 2 <= k < |Scan(n)| && k % 2 == 0
    ensures var p, up := Scan(n)[k - 2], (k - 2) / (2 * n) % 2 == 0;
            Scan(n)[k] == if up && p.y > 0 then Pos(p.x, p.y - 1)
                          else if !up && p.y < n - 1 then Pos(p.x, p.y + 1)
                          else Pos(p.x - (if p.x == 8 then 3 else 2), p.y)
  {
    hide Scan, PairColumn;
    var pair, v := StepAt(n, k);
    var pair', v' := StepAt(n, k - 2);
    Below(n * pair + v, n * pair' + v', k);
    StepsFollow(n, pair, v, pair', v');
    RowFollows(n, pair, v, pair', v');
  }

  lemma Below(a: int, b: int, k: int)
    requires k % 2 == 0 && k == 2 * a + k % 2 && k - 2 == 2 * b + (k - 2) % 2
    ensures a == b + 1
  {
  }

  lemma RowFollows(n: int, pair: nat, v: nat, pair': nat, v': nat)
    requires n % 4 == 1 && v < n && 2 * pair < n - 1
    requires if v > 0 then pair' == pair && v' == v - 1 else pair' == pair - 1 && v' == n - 1
    ensures var p := Pos(PairColumn(n, pair'), if pair' % 2 == 0 then n - 1 - v' else v');
            Pos(PairColumn(n, pair), if pair % 2 == 0 then n - 1 - v else v) ==
            if pair' % 2 == 0 && p.y > 0 then Pos(p.x, p.y - 1)
            else if pair' % 2 != 0 && p.y < n - 1 then Pos(p.x, p.y + 1)
            else Pos(p.x - (if p.x == 8 then 3 else 2), p.y)
  {
    hide PairColumn;
    if v == 0 {
      ColumnsFollow(n, pair');
    }
  }

  lemma ColumnsFollow(n: int, pair: nat)
    requires n % 4 == 1 && 2 * pair < n - 3
    ensures PairColumn(n, pair + 1) == PairColumn(n, pair) - if PairColumn(n, pair) == 8 then 3 else 2
  {
  }

  lemma StepsFollow(n: int, pair: nat, v: nat, pair': nat, v': nat)
    requires n > 0 && v < n && v' < n && n * pair + v == n * pair' + v' + 1
    ensures if v > 0 then pair' == pair && v' == v - 1 else pair' == pair - 1 && v' == n - 1
  {
    var d := pair - pair';
    assert n * d == v' + 1 - v;
    if d >= 2 {
      Product(n, 2, d);
    } else if d < 0 {
      Product(n, d, -1);
    }
  }

  lemma Product(n: int, a: int, b: int)
    requires n > 0 && a <= b
    ensures n * a <= n * b
  {
    assert n * b - n * a == n * (b - a);
  }

  /** The scan begins in the bottom right corner. Every step with an odd index is to the left neighbour
      of the step before it. Every other step goes one row on from the last such step, in the direction
      of its pair of columns: up in the first pair, and the other way in each following one; at the edge
      it stays in the row and goes two columns to the left, or three where column 6 is skipped. */
  lemma ScanWalk(n: int, k: nat)
    requires ValidSize(n) && n % 4 == 1 && k < |Scan(n)|
    ensures k == 0 ==> Scan(n)[k] == Pos(n - 1, n - 1)
    ensures k % 2 == 1 ==> Scan(n)[k] == Pos(Scan(n)[k - 1].x - 1, Scan(n)[k - 1].y)
    ensures k % 2 == 0 && k > 0 ==>
              var p, up := Scan(n)[k - 2], (k - 2) / (2 * n) % 2 == 0;
              Scan(n)[k] == if up && p.y > 0 then Pos(p.x, p.y - 1)
                            else if !up && p.y < n - 1 then Pos(p.x, p.y + 1)
                            else Pos(p.x - (if p.x == 8 then 3 else 2), p.y)
  {
    hide Scan;
    if k % 2 == 1 {
      RightStep(n, k);
    } else if k > 0 {
      RowStep(n, k);
    } else {
      ScanAtParts(n, 0, 0, 0);
    }
  }

  // ----- the modules that take bits come in that order

  /** Of two unmarked modules, the one that is scanned first takes a bit first. */
  lemma {:induction false} OpenInOrder(marked: Grid, n: int, order: seq<Pos>, a: nat, b: nat) returns (i: nat, j: nat)
    requires Square(marked, n) && forall p :: p in order ==> InGrid(p, n)
    requires a < b < |order| && !Get(marked, n, order[a]) && !Get(marked, n, order[b])
    ensures i < j < |Open(marked, n, order)|
    ensures Open(marked, n, order)[i] == order[a] && Open(marked, n, order)[j] == order[b]
  {
    var m := |order| - 1;
    if b < m {
      i, j := OpenInOrder(marked, n, order[..m], a, b);
    } else {
      i := OpenAt(marked, n, order[..m], a);
      j := |Open(marked, n, order[..m])|;
    }
  }

  lemma {:induction false} OpenAt(marked: Grid, n: int, order: seq<Pos>, a: nat) returns (i: nat)
    requires Square(marked, n) && forall p :: p in order ==> InGrid(p, n)
    requires a < |order| && !Get(marked, n, order[a])
    ensures i < |Open(marked, n, order)| && Open(marked, n, order)[i] == order[a]
  {
    var m := |order| - 1;
    if a < m {
      i := OpenAt(marked, n, order[..m], a);
    } else {
      i := |Open(marked, n, order[..m])|;
    }
  }
}
