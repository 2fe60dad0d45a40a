/**
 The modules that the function patterns cover, and that they leave exactly the number of modules the
 formula for the codewords says.
 */
module PatternRoom {
  import opened FunctionPatterns
  import opened Grids
  import opened Masking
  import opened QrTables
  import opened Zigzag

  // ----- sets of modules

  ghost function Rect(x0: int, y0: int, w: nat, h: nat): set<Pos> {
    set x, y | x0 <= x < x0 + w && y0 <= y < y0 + h :: Pos(x, y)
  }

  lemma InRect(x0: int, y0: int, w: nat, h: nat)
    ensures forall p :: p in Rect(x0, y0, w, h) <==> x0 <= p.x < x0 + w && y0 <= p.y < y0 + h
  {
    forall p: Pos | x0 <= p.x < x0 + w && y0 <= p.y < y0 + h
      ensures p in Rect(x0, y0, w, h)
    {
      assert p == Pos(p.x, p.y);
    }
  }

  lemma {:induction false} ColumnSize(x0: int, y0: int, h: nat)
    ensures |Rect(x0, y0, 1, h)| == h
  {
    hide Rect;
    InRect(x0, y0, 1, h);
    if h > 0 {
      ColumnSize(x0, y0, h - 1);
      InRect(x0, y0, 1, h - 1);
      assert Rect(x0, y0, 1, h) == Rect(x0, y0, 1, h - 1) + {Pos(x0, y0 + h - 1)};
    } else {
      InRect(x0, y0, 1, 0);
      assert Rect(x0, y0, 1, 0) == {};
    }
  }

  lemma LastColumn(x0: int, y0: int, w: nat, h: nat)
    requires w > 0
    ensures var a, b := Rect(x0, y0, w - 1, h), Rect(x0 + w - 1, y0, 1, h); Rect(x0, y0, w, h) == a + b && a !! b
  {
    hide Rect;
    InRect(x0, y0, w, h);
    InRect(x0, y0, w - 1, h);
    InRect(x0 + w - 1, y0, 1, h);
  }

  lemma {:induction false} RectSize(x0: int, y0: int, w: nat, h: nat)
    ensures |Rect(x0, y0, w, h)| == w * h
  {
    hide Rect;
    if w > 0 {
      RectSize(x0, y0, w - 1, h);
      ColumnSize(x0 + w - 1, y0, h);
      LastColumn(x0, y0, w, h);
      assert (w - 1) * h + h == w * h;
    } else {
      InRect(x0, y0, 0, h);
      assert Rect(x0, y0, 0, h) == {};
    }
  }

  lemma DisjointSize(a: set<Pos>, b: set<Pos>)
    requires a !! b
    ensures |a + b| == |a| + |b|
  {
  }

  /** Two rectangles side by side, or one over the other. */
  lemma TwoRects(x0: int, y0: int, w: nat, h: nat, x1: int, y1: int, w1: nat, h1: nat)
    requires x0 + w <= x1 || x1 + w1 <= x0 || y0 + h <= y1 || y1 + h1 <= y0
    ensures |Rect(x0, y0, w, h) + Rect(x1, y1, w1, h1)| == w * h + w1 * h1
  {
    hide Rect;
    InRect(x0, y0, w, h);
    InRect(x1, y1, w1, h1);
    RectSize(x0, y0, w, h);
    RectSize(x1, y1, w1, h1);
    DisjointSize(Rect(x0, y0, w, h), Rect(x1, y1, w1, h1));
  }

  /** A rectangle beside a set. */
  lemma OneMoreRect(s: set<Pos>, x: int, y: int, w: nat, h: nat)
    requires forall p :: p in s ==> !(x <= p.x < x + w && y <= p.y < y + h)
    ensures |s + Rect(x, y, w, h)| == |s| + w * h
  {
    hide Rect;
    InRect(x, y, w, h);
    RectSize(x, y, w, h);
    DisjointSize(s, Rect(x, y, w, h));
  }

  // ----- what the layers cover

  /** The timing patterns between the finders. */
  ghost function TimingSet(n: nat): set<Pos>
    requires n >= 21
  {
    Rect(6, 8, 1, n - 16) + Rect(8, 6, n - 16, 1)
  }

  ghost function FinderSet(n: nat): set<Pos>
    requires n >= 21
  {
    Rect(0, 0, 8, 8) + Rect(n - 8, 0, 8, 8) + Rect(0, n - 8, 8, 8)
  }

  ghost function FormatSet(n: nat): set<Pos>
    requires n >= 21
  {
    Rect(8, 0, 1, 6) + Rect(8, 7, 1, 2) + Rect(7, 8, 1, 1) + Rect(0, 8, 6, 1)
    + Rect(n - 8, 8, 8, 1) + Rect(8, n - 8, 1, 8)
  }

  ghost function VersionSet(n: nat): set<Pos>
    requires n >= 21
  {
    Rect(n - 11, 0, 3, 6) + Rect(0, n - 11, 6, 3)
  }

  /** An alignment pattern, without what lies on the timing lines. */
  ghost function AlignmentSet(c: Pos): set<Pos> {
    if c.x == 6 then Rect(c.x - 2, c.y - 2, 2, 5) + Rect(c.x + 1, c.y - 2, 2, 5)
    else if c.y == 6 then Rect(c.x - 2, c.y - 2, 5, 2) + Rect(c.x - 2, c.y + 1, 5, 2)
    else Rect(c.x - 2, c.y - 2, 5, 5)
  }

  function AlignmentCost(c: Pos): nat {
    if c.x == 6 || c.y == 6 then 20 else 25
  }

  lemma TimingSize(n: nat)
    requires n >= 21
    ensures |TimingSet(n)| == 2 * (n - 16)
  {
    hide Rect;
    TwoRects(6, 8, 1, n - 16, 8, 6, n - 16, 1);
  }

  lemma FinderSize(n: nat)
    requires n >= 21
    ensures |FinderSet(n)| == 192
  {
    hide Rect;
    InRect(0, 0, 8, 8);
    InRect(n - 8, 0, 8, 8);
    TwoRects(0, 0, 8, 8, n - 8, 0, 8, 8);
    OneMoreRect(Rect(0, 0, 8, 8) + Rect(n - 8, 0, 8, 8), 0, n - 8, 8, 8);
  }

  lemma FormatSize(n: nat)
    requires n >= 21
    ensures |FormatSet(n)| == 31
  {
    hide Rect;
    InRect(8, 0, 1, 6);
    InRect(8, 7, 1, 2);
    InRect(7, 8, 1, 1);
    InRect(0, 8, 6, 1);
    InRect(n - 8, 8, 8, 1);
    TwoRects(8, 0, 1, 6, 8, 7, 1, 2);
    var a := Rect(8, 0, 1, 6) + Rect(8, 7, 1, 2);
    OneMoreRect(a, 7, 8, 1, 1);
    OneMoreRect(a + Rect(7, 8, 1, 1), 0, 8, 6, 1);
    OneMoreRect(a + Rect(7, 8, 1, 1) + Rect(0, 8, 6, 1), n - 8, 8, 8, 1);
    OneMoreRect(a + Rect(7, 8, 1, 1) + Rect(0, 8, 6, 1) + Rect(n - 8, 8, 8, 1), 8, n - 8, 1, 8);
  }

  lemma VersionSize(n: nat)
    requires n >= 21
    ensures |VersionSet(n)| == 36
  {
    hide Rect;
    TwoRects(n - 11, 0, 3, 6, 0, n - 11, 6, 3);
  }

  lemma AlignmentSize(c: Pos)
    ensures |AlignmentSet(c)| == AlignmentCost(c)
  {
    hide Rect;
    if c.x == 6 {
      TwoRects(c.x - 2, c.y - 2, 2, 5, c.x + 1, c.y - 2, 2, 5);
    } else if c.y == 6 {
      TwoRects(c.x - 2, c.y - 2, 5, 2, c.x - 2, c.y + 1, 5, 2);
    } else {
      RectSize(c.x - 2, c.y - 2, 5, 5);
    }
  }

  // ----- membership

  predicate OnAlignment(c: Pos, p: Pos) {
    Distance(c, p) <= 2 && (c.x == 6 ==> p.x != 6) && (c.x != 6 && c.y == 6 ==> p.y != 6)
  }

  lemma InAlignment(c: Pos)
    ensures forall p :: p in AlignmentSet(c) <==> OnAlignment(c, p)
  {
    hide Rect;
    InRect(c.x - 2, c.y - 2, 2, 5);
    InRect(c.x + 1, c.y - 2, 2, 5);
    InRect(c.x - 2, c.y - 2, 5, 2);
    InRect(c.x - 2, c.y + 1, 5, 2);
    InRect(c.x - 2, c.y - 2, 5, 5);
  }

  predicate OnTiming(n: int, p: Pos) {
    (p.x == 6 && 8 <= p.y < n - 8) || (p.y == 6 && 8 <= p.x < n - 8)
  }

  predicate OnFinder(n: int, p: Pos) {
    (0 <= p.x < 8 && 0 <= p.y < 8) || (n - 8 <= p.x < n && 0 <= p.y < 8) || (0 <= p.x < 8 && n - 8 <= p.y < n)
  }

  predicate OnVersion(n: int, p: Pos) {
    (n - 11 <= p.x < n - 8 && 0 <= p.y < 6) || (0 <= p.x < 6 && n - 11 <= p.y < n - 8)
  }

  lemma AllRects(n: int)
    requires n >= 21
    ensures forall p :: p in TimingSet(n) <==> OnTiming(n, p)
    ensures forall p :: p in FinderSet(n) <==> OnFinder(n, p)
    ensures forall p :: p in VersionSet(n) <==> OnVersion(n, p)
  {
    hide Rect;
    InRect(6, 8, 1, n - 16);
    InRect(8, 6, n - 16, 1);
    InRect(0, 0, 8, 8);
    InRect(n - 8, 0, 8, 8);
    InRect(0, n - 8, 8, 8);
    InRect(n - 11, 0, 3, 6);
    InRect(0, n - 11, 6, 3);
  }

  lemma InFormat(n: int)
    requires n >= 21
    ensures forall p :: p in FormatSet(n) <==> InGrid(p, n) && IsFormatCell(n, p)
  {
    hide Rect;
    InRect(8, 0, 1, 6);
    InRect(8, 7, 1, 2);
    InRect(7, 8, 1, 1);
    InRect(0, 8, 6, 1);
    InRect(n - 8, 8, 8, 1);
    InRect(8, n - 8, 1, 8);
  }

  // ----- all alignment patterns

  ghost function AlignmentsSet(layers: seq<Layer>): set<Pos>
    requires forall k :: 0 <= k < |layers| ==> layers[k].Alignment?
  {
    if layers == [] then {} else AlignmentsSet(layers[..|layers| - 1]) + AlignmentSet(layers[|layers| - 1].center)
  }

  lemma {:induction false} InAlignments(layers: seq<Layer>, p: Pos)
    requires forall k :: 0 <= k < |layers| ==> layers[k].Alignment?
    ensures p in AlignmentsSet(layers) <==> exists k :: 0 <= k < |layers| && p in AlignmentSet(layers[k].center)
  {
    hide AlignmentSet;
    if layers != [] {
      var before := layers[..|layers| - 1];
      InAlignments(before, p);
      assert forall k :: 0 <= k < |before| ==> before[k] == layers[k];
    }
  }

  lemma {:induction false} SetConcat(a: seq<Layer>, b: seq<Layer>)
    requires forall k :: 0 <= k < |a| ==> a[k].Alignment?
    requires forall k :: 0 <= k < |b| ==> b[k].Alignment?
    ensures AlignmentsSet(a + b) == AlignmentsSet(a) + AlignmentsSet(b)
    decreases |b|
  {
    hide AlignmentSet;
    if b == [] {
      assert a + b == a;
    } else {
      assert (a + b)[..|a + b| - 1] == a + b[..|b| - 1];
      SetConcat(a, b[..|b| - 1]);
    }
  }

  /** The centre at a place of the grid of positions that has no finder. */
  ghost predicate CenterOf(pos: seq<int>, i: int, j: int, c: Pos) {
    0 <= i < |pos| && 0 <= j < |pos| && !IsCorner(|pos|, i, j) && c == Pos(pos[i], pos[j])
  }

  lemma {:induction false} RowCenter(pos: seq<int>, i: nat, j: nat, k: nat) returns (j': nat)
    requires i < |pos| && j <= |pos| && k < |AlignmentRow(pos, i, j)|
    ensures j' < j && CenterOf(pos, i, j', AlignmentRow(pos, i, j)[k].center)
  {
    if k < |AlignmentRow(pos, i, j - 1)| {
      j' := RowCenter(pos, i, j - 1, k);
    } else {
      j' := j - 1;
    }
  }

  lemma {:induction false} LayerCenter(pos: seq<int>, i: nat, k: nat) returns (i': nat, j': nat)
    requires i <= |pos| && k < |AlignmentLayers(pos, i)|
    ensures i' < i && CenterOf(pos, i', j', AlignmentLayers(pos, i)[k].center)
  {
    hide AlignmentRow, CenterOf;
    var before := AlignmentLayers(pos, i - 1);
    if k < |before| {
      i', j' := LayerCenter(pos, i - 1, k);
    } else {
      i' := i - 1;
      j' := RowCenter(pos, i - 1, |pos|, k - |before|);
    }
  }

  /** Patterns at different places have no cell in common. */
  lemma CentersApart(pos: seq<int>, n: int, i: int, j: int, c: Pos, i': int, j': int, c': Pos, p: Pos)
    requires Spaced(pos, n) && CenterOf(pos, i, j, c) && CenterOf(pos, i', j', c') && (i != i' || j != j')
    requires OnAlignment(c, p)
    ensures !OnAlignment(c', p)
  {
    hide IsCorner;
    if i != i' {
      assert pos[i] + 12 <= pos[i'] || pos[i'] + 12 <= pos[i];
    } else {
      assert pos[j] + 12 <= pos[j'] || pos[j'] + 12 <= pos[j];
    }
  }

  /** What the first j patterns of row i cover, in steps of five modules. */
  function RowLimit(a: int, i: int, j: int): int {
    if i == 0 then (if j <= 1 then 0 else if j < a then 4 * (j - 1) else 4 * (a - 2))
    else if j == 0 then 0
    else (if i == a - 1 then 0 else 4) + 5 * (j - 1)
  }

  lemma RowNew(pos: seq<int>, n: int, i: nat, j: nat, c: Pos)
    requires Spaced(pos, n) && i < |pos| && j < |pos| && CenterOf(pos, i, j, c)
    ensures AlignmentsSet(AlignmentRow(pos, i, j)) !! AlignmentSet(c)
  {
    hide AlignmentSet, AlignmentRow, AlignmentsSet, CenterOf, OnAlignment, Spaced;
    var row := AlignmentRow(pos, i, j);
    InAlignment(c);
    forall p | p in AlignmentsSet(row)
      ensures p !in AlignmentSet(c)
    {
      InAlignments(row, p);
      var k :| 0 <= k < |row| && p in AlignmentSet(row[k].center);
      var j' := RowCenter(pos, i, j, k);
      InAlignment(row[k].center);
      CentersApart(pos, n, i, j', row[k].center, i, j, c, p);
    }
  }

  lemma {:induction false} RowSize(pos: seq<int>, n: int, i: nat, j: nat)
    requires Spaced(pos, n) && i < |pos| && j <= |pos|
    ensures |AlignmentsSet(AlignmentRow(pos, i, j))| == 5 * RowLimit(|pos|, i, j)
  {
    hide AlignmentSet;
    if j > 0 {
      RowSize(pos, n, i, j - 1);
      var row, c := AlignmentRow(pos, i, j - 1), Pos(pos[i], pos[j - 1]);
      if !IsCorner(|pos|, i, j - 1) {
        assert (row + [Alignment(c)])[..|row|] == row;
        RowNew(pos, n, i, j - 1, c);
        DisjointSize(AlignmentsSet(row), AlignmentSet(c));
        AlignmentSize(c);
        assert j - 1 > 0 ==> pos[0] + 12 <= pos[j - 1];
        assert i > 0 ==> pos[0] + 12 <= pos[i];
      } else {
        assert row + [] == row;
      }
    }
  }

  /** The same for the first i rows. */
  function RowsLimit(a: int, i: int): int {
    if i <= 0 then 0
    else if i < a then 4 * (a - 2) + (i - 1) * (5 * a - 1)
    else 4 * (a - 2) + (a - 2) * (5 * a - 1) + 5 * (a - 1)
  }

  lemma RowsLimitNext(a: int, i: int)
    requires a >= 2 && 0 < i <= a
    ensures RowsLimit(a, i) == RowsLimit(a, i - 1) + RowLimit(a, i - 1, a)
  {
    assert (i - 1) * (5 * a - 1) == (i - 2) * (5 * a - 1) + (5 * a - 1);
  }

  lemma RowIsNew(pos: seq<int>, n: int, i: nat)
    requires Spaced(pos, n) && i < |pos|
    ensures AlignmentsSet(AlignmentLayers(pos, i)) !! AlignmentsSet(AlignmentRow(pos, i, |pos|))
  {
    hide AlignmentSet, AlignmentRow, AlignmentLayers, AlignmentsSet, CenterOf, OnAlignment, Spaced;
    var above, row := AlignmentLayers(pos, i), AlignmentRow(pos, i, |pos|);
    forall p | p in AlignmentsSet(above)
      ensures p !in AlignmentsSet(row)
    {
      InAlignments(above, p);
      InAlignments(row, p);
      var k :| 0 <= k < |above| && p in AlignmentSet(above[k].center);
      var i', j' := LayerCenter(pos, i, k);
      InAlignment(above[k].center);
      forall m | 0 <= m < |row|
        ensures p !in AlignmentSet(row[m].center)
      {
        var j := RowCenter(pos, i, |pos|, m);
        InAlignment(row[m].center);
        CentersApart(pos, n, i', j', above[k].center, i, j, row[m].center, p);
      }
    }
  }

  lemma {:induction false} LayersSize(pos: seq<int>, n: int, i: nat)
    requires Spaced(pos, n) && i <= |pos|
    ensures |AlignmentsSet(AlignmentLayers(pos, i))| == 5 * RowsLimit(|pos|, i)
  {
    hide AlignmentsSet, AlignmentRow, RowsLimit, RowLimit, Spaced;
    assert |pos| >= 2 by { SpacedLength(pos, n); }
    if i > 0 {
      LayersSize(pos, n, i - 1);
      RowSize(pos, n, i - 1, |pos|);
      RowIsNew(pos, n, i - 1);
      var above, row := AlignmentLayers(pos, i - 1), AlignmentRow(pos, i - 1, |pos|);
      SetConcat(above, row);
      DisjointSize(AlignmentsSet(above), AlignmentsSet(row));
      RowsLimitNext(|pos|, i);
    } else {
      NoLayers(|pos|);
    }
  }

  lemma SpacedLength(pos: seq<int>, n: int)
    requires Spaced(pos, n)
    ensures |pos| >= 2
  {
  }

  lemma NoLayers(a: int)
    ensures AlignmentsSet([]) == {} && RowsLimit(a, 0) == 0
  {
  }

  // ----- the sum

  /** All but the alignment patterns. */
  ghost function Frame(ver: int): set<Pos>
    requires ValidVersion(ver)
  {
    var n := ver * 4 + 17;
    TimingSet(n) + FinderSet(n) + FormatSet(n) + if ver >= 7 then VersionSet(n) else {}
  }

  ghost function AlignmentCells(ver: int): set<Pos>
    requires ValidVersion(ver)
  {
    AlignmentsSet(AlignmentLayers(AlignmentPositions(ver), |AlignmentPositions(ver)|))
  }

  ghost function Cover(ver: int): set<Pos>
    requires ValidVersion(ver)
  {
    Frame(ver) + AlignmentCells(ver)
  }

  lemma OneKindOnly(n: int, p: Pos)
    requires n >= 21 && InGrid(p, n)
    ensures OnTiming(n, p) ==> !OnFinder(n, p) && !IsFormatCell(n, p) && !OnVersion(n, p)
    ensures OnFinder(n, p) ==> !IsFormatCell(n, p) && !OnVersion(n, p)
    ensures IsFormatCell(n, p) ==> !OnVersion(n, p)
  {
  }

  lemma KindsApart(n: int)
    requires n >= 21
    ensures TimingSet(n) !! FinderSet(n) && (TimingSet(n) + FinderSet(n)) !! FormatSet(n)
    ensures (TimingSet(n) + FinderSet(n) + FormatSet(n)) !! VersionSet(n)
  {
    hide TimingSet, FinderSet, FormatSet, VersionSet, IsFormatCell, OnFinder;
    AllRects(n);
    InFormat(n);
    forall p | InGrid(p, n)
      ensures OnTiming(n, p) ==> !OnFinder(n, p) && !IsFormatCell(n, p) && !OnVersion(n, p)
      ensures OnFinder(n, p) ==> !IsFormatCell(n, p) && !OnVersion(n, p)
      ensures IsFormatCell(n, p) ==> !OnVersion(n, p)
    {
      OneKindOnly(n, p);
    }
  }

  lemma FrameSize(ver: int)
    requires ValidVersion(ver)
    ensures |Frame(ver)| == 2 * (ver * 4 + 1) + 192 + 31 + if ver >= 7 then 36 else 0
  {
    hide TimingSet, FinderSet, FormatSet, VersionSet;
    var n := ver * 4 + 17;
    KindsApart(n);
    TimingSize(n);
    FinderSize(n);
    FormatSize(n);
    VersionSize(n);
    var three := TimingSet(n) + FinderSet(n) + FormatSet(n);
    DisjointSize(TimingSet(n), FinderSet(n));
    DisjointSize(TimingSet(n) + FinderSet(n), FormatSet(n));
    DisjointSize(three, VersionSet(n));
    assert ver < 7 ==> Frame(ver) == three;
  }

  /** Alignment patterns stay clear of everything else, but for the timing lines. */
  lemma CenterClear(pos: seq<int>, n: int, i: int, j: int, c: Pos, p: Pos)
    requires Spaced(pos, n) && CenterOf(pos, i, j, c) && OnAlignment(c, p) && n >= 21
    ensures InGrid(p, n) && !OnTiming(n, p) && !OnFinder(n, p) && !IsFormatCell(n, p) && !OnVersion(n, p)
  {
    assert i > 0 ==> pos[0] + 12 <= pos[i];
    assert j > 0 ==> pos[0] + 12 <= pos[j];
    assert i < |pos| - 1 ==> pos[i] + 12 <= n - 7;
    assert j < |pos| - 1 ==> pos[j] + 12 <= n - 7;
  }

  lemma AlignmentCell(ver: int, p: Pos) returns (k: nat, i: nat, j: nat)
    requires ValidVersion(ver) && p in AlignmentCells(ver)
    ensures var pos := AlignmentPositions(ver); var al := AlignmentLayers(pos, |pos|);
            ver >= 2 && k < |al| && CenterOf(pos, i, j, al[k].center) && OnAlignment(al[k].center, p)
  {
    hide AlignmentSet, AlignmentLayers, AlignmentsSet, AlignmentPositions, CenterOf, OnAlignment;
    var pos := AlignmentPositions(ver);
    var al := AlignmentLayers(pos, |pos|);
    InAlignments(al, p);
    k :| k < |al| && p in AlignmentSet(al[k].center);
    InAlignment(al[k].center);
    i, j := LayerCenter(pos, |pos|, k);
    if ver < 2 {
      NoPositions();
    }
  }

  lemma AlignmentsClear(ver: int, p: Pos)
    requires ValidVersion(ver) && p in AlignmentCells(ver)
    ensures InGrid(p, ver * 4 + 17) && p !in Frame(ver)
  {
    hide AlignmentLayers, AlignmentPositions, CenterOf, OnAlignment, Spaced, AlignmentCells, TimingSet, FinderSet,
         FormatSet, VersionSet, OnTiming, OnFinder, OnVersion, IsFormatCell;
    var n, pos := ver * 4 + 17, AlignmentPositions(ver);
    var k, i, j := AlignmentCell(ver, p);
    PositionsSpaced(ver);
    CenterClear(pos, n, i, j, AlignmentLayers(pos, |pos|)[k].center, p);
    AllRects(n);
    InFormat(n);
  }

  /** The function patterns cover exactly what the formula for the modules left leaves out. */
  lemma CoverSize(ver: int)
    requires ValidVersion(ver)
    ensures |Cover(ver)| == (ver * 4 + 17) * (ver * 4 + 17) - RawDataModules(ver)
  {
    hide Frame, AlignmentCells, RawDataModules, AlignmentLimit;
    forall p | p in AlignmentCells(ver)
      ensures p !in Frame(ver)
    {
      AlignmentsClear(ver, p);
    }
    DisjointSize(Frame(ver), AlignmentCells(ver));
    FrameSize(ver);
    AlignmentTotal(ver);
    ModulesLeft(ver);
  }

  function AlignmentLimit(ver: int): int {
    if ver < 2 then 0 else 5 * RowsLimit(NumAlign(ver), NumAlign(ver))
  }

  lemma AlignmentTotal(ver: int)
    requires ValidVersion(ver)
    ensures |AlignmentCells(ver)| == AlignmentLimit(ver)
  {
    hide RowsLimit, AlignmentPositions, AlignmentsSet, Spaced;
    if ver >= 2 {
      PositionsSpaced(ver);
      PositionsLength(ver);
      LayersSize(AlignmentPositions(ver), ver * 4 + 17, |AlignmentPositions(ver)|);
    } else {
      NoPositions();
      NoLayers(0);
    }
  }

  lemma PositionsLength(ver: int)
    requires ValidVersion(ver) && ver >= 2
    ensures |AlignmentPositions(ver)| == NumAlign(ver)
  {
    hide AlignStep;
  }

  /** The formula for the modules left is the whole grid less all of these. */
  lemma ModulesLeft(ver: int)
    requires ValidVersion(ver)
    ensures var n := ver * 4 + 17;
            RawDataModules(ver) == n * n
            - (2 * (n - 16) + 192 + 31 + (if ver >= 7 then 36 else 0) + AlignmentLimit(ver))
  {
    var n, a := ver * 4 + 17, NumAlign(ver);
    Expanded(ver, a);
  }

  /** Both formulas multiplied out. */
  lemma Expanded(ver: int, a: int)
    ensures var n := ver * 4 + 17; n * n == 16 * (ver * ver) + 136 * ver + 289
    ensures (16 * ver + 128) * ver == 16 * (ver * ver) + 128 * ver
    ensures (25 * a - 10) * a == 25 * (a * a) - 10 * a
    ensures (a - 2) * (5 * a - 1) == 5 * (a * a) - 11 * a + 2
  {
    var n := ver * 4 + 17;
    assert n * n == 16 * (ver * ver) + 136 * ver + 289;
  }

  // ----- marked is covered

  /** The cells of a layer are in the cover, apart from what others of the layers cover. */
  lemma InkCovered(l: Layer, n: int, p: Pos)
    requires WellFormed(l) && n >= 21 && InGrid(p, n) && Ink(l, n, p).Some?
    ensures l == Timing ==> OnTiming(n, p) || OnFinder(n, p)
    ensures l in {Finder(Pos(3, 3)), Finder(Pos(n - 4, 3)), Finder(Pos(3, n - 4))} ==> OnFinder(n, p)
    ensures l.FormatInfo? ==> IsFormatCell(n, p)
    ensures l.VersionInfo? ==> OnVersion(n, p)
    ensures l.Alignment? ==> OnAlignment(l.center, p) || Ink(Timing, n, p).Some?
  {
    hide IsFormatCell;
  }

  ghost predicate InFrame(ver: int, p: Pos) {
    var n := ver * 4 + 17;
    OnTiming(n, p) || OnFinder(n, p) || (InGrid(p, n) && IsFormatCell(n, p)) || (ver >= 7 && OnVersion(n, p))
  }

  lemma FrameIs(ver: int, p: Pos)
    requires ValidVersion(ver)
    ensures p in Frame(ver) <==> InFrame(ver, p)
  {
    hide TimingSet, FinderSet, FormatSet, VersionSet, OnTiming, OnFinder, OnVersion, IsFormatCell;
    AllRects(ver * 4 + 17);
    InFormat(ver * 4 + 17);
  }

  lemma MarkedCovered(ver: int, ecl: Ecc, p: Pos)
    requires ValidVersion(ver) && InGrid(p, ver * 4 + 17) && Get(FunctionSheet(ver, ecl).marked, ver * 4 + 17, p)
    ensures p in Cover(ver)
  {
    hide FunctionSheet, Frame, AlignmentSet, AlignmentsSet, AlignmentLayers, AlignmentPositions, BchCode.FormatWord,
         BchCode.VersionWord, OnAlignment, OnTiming, OnFinder, OnVersion, IsFormatCell, Ink;
    var n, layers := ver * 4 + 17, FunctionLayers(ver, ecl);
    FunctionMarkedIff(ver, ecl, p);
    FrameIs(ver, p);
    var i :| 0 <= i < |layers| && Ink(layers[i], n, p).Some?;
    InkCovered(layers[i], n, p);
    if layers[i].Alignment? {
      if OnAlignment(layers[i].center, p) {
        var pos := AlignmentPositions(ver);
        var al := AlignmentLayers(pos, |pos|);
        assert layers[i] == al[i - 4];
        InAlignment(al[i - 4].center);
        InAlignments(al, p);
      } else {
        InkCovered(Timing, n, p);
      }
    }
  }

  lemma InkOfFrame(n: int, p: Pos, format: seq<bool>, version: seq<bool>)
    requires n >= 21 && InGrid(p, n) && |format| == 15 && |version| == 18
    ensures OnTiming(n, p) ==> Ink(Timing, n, p).Some?
    ensures OnFinder(n, p) ==>
              || Ink(Finder(Pos(3, 3)), n, p).Some? || Ink(Finder(Pos(n - 4, 3)), n, p).Some?
              || Ink(Finder(Pos(3, n - 4)), n, p).Some?
    ensures IsFormatCell(n, p) ==> Ink(FormatInfo(format), n, p).Some?
    ensures OnVersion(n, p) ==> Ink(VersionInfo(version), n, p).Some?
  {
    hide IsFormatCell;
  }

  lemma FrameMarked(ver: int, ecl: Ecc, p: Pos)
    requires ValidVersion(ver) && InFrame(ver, p)
    ensures InGrid(p, ver * 4 + 17) && Get(FunctionSheet(ver, ecl).marked, ver * 4 + 17, p)
  {
    hide FunctionSheet, AlignmentLayers, AlignmentPositions, BchCode.FormatWord, BchCode.VersionWord, IsFormatCell, Ink;
    var n, layers := ver * 4 + 17, FunctionLayers(ver, ecl);
    var f := 4 + |AlignmentLayers(AlignmentPositions(ver), |AlignmentPositions(ver)|)|;
    FunctionMarkedIff(ver, ecl, p);
    InkOfFrame(n, p, BchCode.FormatWord(ecl, 0), BchCode.VersionWord(ver));
    assert layers[0] == Timing && layers[1] == Finder(Pos(3, 3)) && layers[2] == Finder(Pos(n - 4, 3));
    assert layers[3] == Finder(Pos(3, n - 4)) && layers[f] == FormatInfo(BchCode.FormatWord(ecl, 0));
    assert ver >= 7 ==> layers[f + 1] == VersionInfo(BchCode.VersionWord(ver));
  }

  lemma AlignmentMarked(ver: int, ecl: Ecc, p: Pos)
    requires ValidVersion(ver) && p in AlignmentCells(ver)
    ensures InGrid(p, ver * 4 + 17) && Get(FunctionSheet(ver, ecl).marked, ver * 4 + 17, p)
  {
    hide FunctionSheet, AlignmentLayers, AlignmentPositions, BchCode.FormatWord, BchCode.VersionWord, Frame, CenterOf,
         AlignmentCells;
    var layers, pos := FunctionLayers(ver, ecl), AlignmentPositions(ver);
    AlignmentsClear(ver, p);
    FunctionMarkedIff(ver, ecl, p);
    var k, i, j := AlignmentCell(ver, p);
    assert layers[4 + k] == AlignmentLayers(pos, |pos|)[k];
  }

  /** A module belongs to a function pattern exactly when it is covered. */
  lemma MarkedIffCovered(ver: int, ecl: Ecc, p: Pos)
    requires ValidVersion(ver)
    ensures p in Cover(ver) <==> InGrid(p, ver * 4 + 17) && Get(FunctionSheet(ver, ecl).marked, ver * 4 + 17, p)
  {
    hide FunctionSheet, Frame, AlignmentCells, InFrame;
    if p in Cover(ver) {
      FrameIs(ver, p);
      if p in Frame(ver) {
        FrameMarked(ver, ecl, p);
      } else {
        AlignmentMarked(ver, ecl, p);
      }
    } else if InGrid(p, ver * 4 + 17) && Get(FunctionSheet(ver, ecl).marked, ver * 4 + 17, p) {
      MarkedCovered(ver, ecl, p);
    }
  }

  // ----- room for the codewords

  lemma {:induction false} SeqSize(s: seq<Pos>)
    requires NoDuplicates(s)
    ensures |set p | p in s| == |s|
  {
    if s != [] {
      var before, last := s[..|s| - 1], s[|s| - 1];
      SeqSize(before);
      assert (set p | p in s) == (set p | p in before) + {last};
      assert last !in before;
    } else {
      assert (set p | p in s) == {};
    }
  }

  /** The modules left for the codewords, in the order of the scan. */
  ghost function FreeModules(ver: int, ecl: Ecc): seq<Pos>
    requires ValidVersion(ver)
  {
    hide FunctionSheet;
    DataModules(FunctionSheet(ver, ecl).marked, ver * 4 + 17)
  }

  lemma FreeOnce(ver: int, ecl: Ecc)
    requires ValidVersion(ver)
    ensures NoDuplicates(FreeModules(ver, ecl))
  {
    hide FunctionSheet, DataModules, NoDuplicates;
    TimingAndFormatMarked(ver, ecl);
    DataModulesAreUnmarked(FunctionSheet(ver, ecl).marked, ver * 4 + 17);
  }

  lemma FreeIffNotCovered(ver: int, ecl: Ecc, p: Pos)
    requires ValidVersion(ver)
    ensures p in FreeModules(ver, ecl) <==> InGrid(p, ver * 4 + 17) && p !in Cover(ver)
    ensures p in Cover(ver) ==> InGrid(p, ver * 4 + 17)
  {
    hide FunctionSheet, Cover, DataModules, NoDuplicates;
    TimingAndFormatMarked(ver, ecl);
    DataModulesAreUnmarked(FunctionSheet(ver, ecl).marked, ver * 4 + 17);
    MarkedIffCovered(ver, ecl, p);
  }

  /** What is not covered is free. */
  lemma FreeSize(ver: int, ecl: Ecc, free: set<Pos>)
    requires ValidVersion(ver) && free == set p | p in FreeModules(ver, ecl)
    ensures |free| == RawDataModules(ver)
  {
    hide FreeModules, Cover, Rect, RawDataModules;
    var n := ver * 4 + 17;
    InRect(0, 0, n, n);
    forall p
      ensures p in Rect(0, 0, n, n) <==> p in free + Cover(ver)
      ensures !(p in free && p in Cover(ver))
    {
      FreeIffNotCovered(ver, ecl, p);
    }
    assert Rect(0, 0, n, n) == free + Cover(ver);
    RectSize(0, 0, n, n);
    DisjointSize(free, Cover(ver));
    CoverSize(ver);
  }

  /** The number of modules left for the codewords is what the formula says; after the codewords at most
      seven of them are left over. */
  lemma RoomForCodewords(ver: int, ecl: Ecc)
    requires ValidVersion(ver)
    ensures |FreeModules(ver, ecl)| == RawDataModules(ver)
    ensures 0 <= |FreeModules(ver, ecl)| - 8 * RawCodewords(ver) <= 7
  {
    hide FreeModules, RawDataModules, NoDuplicates;
    FreeOnce(ver, ecl);
    SeqSize(FreeModules(ver, ecl));
    FreeSize(ver, ecl, set p | p in FreeModules(ver, ecl));
  }
}
