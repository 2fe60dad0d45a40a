/**
 The zigzag scan that visits the modules of a symbol two columns at a time, skipping the vertical
 timing column, and the placement of codeword bits along it.
 */
module Zigzag {
  import opened Grids

  /** The module at one step of the scan of the column pair (right - 1, right). */
  function Cell(size: int, right: int, vert: int, j: int): Pos {
    var upward := (right + 1) / 2 % 2 == 0;
    Pos(right - j, if upward then size - 1 - vert else vert)
  }

  /** The rest of a column pair, from the given step on. */
  function PairScan(size: int, right: int, vert: int): seq<Pos>
    decreases size - vert
  {
    if vert >= size then []
    else [Cell(size, right, vert, 0), Cell(size, right, vert, 1)] + PairScan(size, right, vert + 1)
  }

  /** The rest of the scan, from the given right-hand column on. */
  function ScanFrom(size: int, right: int): seq<Pos>
    decreases right
  {
    if right < 1 then [] else
    var r := if right == 6 then 5 else right;
    PairScan(size, r, 0) + ScanFrom(size, r - 2)
  }

  function Scan(size: int): seq<Pos> {
    ScanFrom(size, size - 1)
  }

  predicate ValidSize(size: int) {
    size >= 7 && size % 2 == 1
  }

  /** The right-hand columns the scan passes through. */
  predicate ScanColumn(size: int, right: int) {
    right < size && if right >= 6 then right % 2 == 0 else right >= -1 && right % 2 == 1
  }

  predicate NoDuplicates(s: seq<Pos>) {
    forall i, j :: 0 <= i < j < |s| ==> s[i] != s[j]
  }

  // ----- every column but column 6 is visited once

  /** A row that a scan of a column pair has still to come to. */
  predicate RowAhead(size: int, right: int, vert: int, y: int) {
    if (right + 1) / 2 % 2 == 0 then 0 <= y < size - vert else vert <= y < size
  }

  lemma {:induction false} PairScanCells(size: int, right: int, vert: int)
    requires 0 <= vert <= size
    ensures var s := PairScan(size, right, vert);
            NoDuplicates(s) &&
            forall p :: p in s <==> (p.x == right || p.x == right - 1) && RowAhead(size, right, vert, p.y)
    decreases size - vert
  {
    hide NoDuplicates;
    if vert < size {
      var a, b, rest := Cell(size, right, vert, 0), Cell(size, right, vert, 1), PairScan(size, right, vert + 1);
      PairScanCells(size, right, vert + 1);
      TwoBefore(a, b, rest);
    } else {
      NoneTwice();
    }
  }

  lemma TwoBefore(a: Pos, b: Pos, rest: seq<Pos>)
    requires NoDuplicates(rest) && a != b && a !in rest && b !in rest
    ensures NoDuplicates([a, b] + rest)
  {
    var s := [a, b] + rest;
    forall i, j | 0 <= i < j < |s|
      ensures s[i] != s[j]
    {
      assert j >= 2 ==> s[j] == rest[j - 2] && s[j] in rest;
      assert i >= 2 ==> s[i] == rest[i - 2];
    }
  }

  lemma NoneTwice()
    ensures NoDuplicates([])
  {
  }

  lemma WholePair(size: int, right: int)
    requires size > 0
    ensures NoDuplicates(PairScan(size, right, 0))
    ensures forall p :: p in PairScan(size, right, 0) <==> (p.x == right || p.x == right - 1) && 0 <= p.y < size
  {
    hide PairScan, NoDuplicates;
    PairScanCells(size, right, 0);
  }

  lemma {:induction false} ScanCells(size: int, right: int)
    requires ValidSize(size) && ScanColumn(size, right)
    ensures var s := ScanFrom(size, right);
            && NoDuplicates(s)
            && forall p :: p in s <==> 0 <= p.x <= right && p.x != 6 && 0 <= p.y < size
    decreases right
  {
    hide PairScan, ScanFrom, NoDuplicates;
    if right >= 1 {
      ScanStep(size, right);
      var r := if right == 6 then 5 else right;
      WholePair(size, r);
      ScanCells(size, r - 2);
      Concatenation(PairScan(size, r, 0), ScanFrom(size, r - 2));
    } else {
      NothingLeft(size, right);
    }
  }

  lemma NothingLeft(size: int, right: int)
    requires right < 1
    ensures ScanFrom(size, right) == [] && NoDuplicates([])
  {
  }

  lemma ScanStep(size: int, right: int)
    requires right >= 1
    ensures var r := if right == 6 then 5 else right;
            ScanFrom(size, right) == PairScan(size, r, 0) + ScanFrom(size, r - 2)
  {
    hide PairScan;
  }

  lemma Concatenation(a: seq<Pos>, b: seq<Pos>)
    requires NoDuplicates(a) && NoDuplicates(b) && forall p :: p in a ==> p !in b
    ensures NoDuplicates(a + b)
    ensures forall p :: p in a + b <==> p in a || p in b
  {
    var s := a + b;
    forall i, j | 0 <= i < j < |s|
      ensures s[i] != s[j]
    {
      if i >= |a| {
        assert s[i] == b[i - |a|] && s[j] == b[j - |a|];
      } else if j >= |a| {
        assert s[i] in a && s[j] == b[j - |a|];
      }
    }
  }

  /** The scan visits every module outside column 6 exactly once, and none in column 6. */
  lemma ScanIsBijection(size: int)
    requires ValidSize(size)
    ensures NoDuplicates(Scan(size))
    ensures forall p :: p in Scan(size) <==> InGrid(p, size) && p.x != 6
  {
    ScanCells(size, size - 1);
  }

  // ----- the modules that take bits

  /** The unmarked modules among the given positions, in order. */
  function Open(marked: Grid, n: int, order: seq<Pos>): (open: seq<Pos>)
    requires Square(marked, n) && forall p :: p in order ==> InGrid(p, n)
  {
    if order == [] then [] else
    var rest := Open(marked, n, order[..|order| - 1]);
    if Get(marked, n, order[|order| - 1]) then rest else rest + [order[|order| - 1]]
  }

  /** The modules that take codeword bits. */
  function DataModules(marked: Grid, n: int): seq<Pos>
    requires ValidSize(n) && Square(marked, n)
  {
    ScanIsBijection(n);
    Open(marked, n, Scan(n))
  }

  lemma {:induction false} OpenMembers(marked: Grid, n: int, order: seq<Pos>)
    requires Square(marked, n) && (forall p :: p in order ==> InGrid(p, n)) && NoDuplicates(order)
    ensures var open := Open(marked, n, order);
            NoDuplicates(open) && forall p :: p in open <==> p in order && !Get(marked, n, p)
  {
    if order != [] {
      var last, before := order[|order| - 1], order[..|order| - 1];
      OpenMembers(marked, n, before);
      assert order == before + [last];
      assert last !in before;
    }
  }

  /** With column 6 marked, the modules that take bits are exactly the unmarked ones, each once. */
  lemma DataModulesAreUnmarked(marked: Grid, n: int)
    requires ValidSize(n) && Square(marked, n)
    ensures NoDuplicates(DataModules(marked, n))
    ensures forall p :: p in DataModules(marked, n) <==> InGrid(p, n) && p.x != 6 && !Get(marked, n, p)
    ensures (forall y :: 0 <= y < n ==> marked[y][6]) ==>
              forall p :: p in DataModules(marked, n) <==> InGrid(p, n) && !Get(marked, n, p)
  {
    ScanIsBijection(n);
    OpenMembers(marked, n, Scan(n));
    if forall y :: 0 <= y < n ==> marked[y][6] {
      forall p | InGrid(p, n) && p.x == 6
        ensures Get(marked, n, p)
      {
        assert marked[p.y][6];
      }
    }
  }

  lemma {:induction false} OpenPrefix(marked: Grid, n: int, order: seq<Pos>, k: nat)
    requires Square(marked, n) && (forall p :: p in order ==> InGrid(p, n)) && k <= |order|
    ensures Open(marked, n, order[..k]) <= Open(marked, n, order)
  {
    if k == |order| {
      assert order[..k] == order;
    } else {
      var before := order[..|order| - 1];
      assert before[..k] == order[..k];
      OpenPrefix(marked, n, before, k);
    }
  }

  /** `after` is `before` with bit k of `bits` in the k-th of the given modules and nothing else
      changed. */
  ghost predicate Placed(before: Grid, after: Grid, n: int, modules: seq<Pos>, bits: seq<bool>)
    requires Square(before, n) && Square(after, n)
    requires forall p :: p in modules ==> InGrid(p, n)
  {
    && |bits| <= |modules|
    && (forall k :: 0 <= k < |bits| ==> Get(after, n, modules[k]) == bits[k])
    && forall p :: InGrid(p, n) && p !in modules[..|bits|] ==> Get(after, n, p) == Get(before, n, p)
  }

  /** What a reader collects from the modules that take bits. */
  function ReadBits(g: Grid, marked: Grid, n: int): (bits: seq<bool>)
    requires ValidSize(n) && Square(marked, n) && Square(g, n)
    ensures |bits| == |DataModules(marked, n)|
  {
    DataModulesAreUnmarked(marked, n);
    var modules := DataModules(marked, n);
    seq(|modules|, k requires 0 <= k < |modules| => Get(g, n, modules[k]))
  }
}
