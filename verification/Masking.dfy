/**
 The eight mask patterns, the cells of the format information, and how the two combine.
 */
module Masking {
  import opened Grids

  /** Whether mask pattern `mask` inverts the module at (x, y). */
  function Inverts(mask: int, x: nat, y: nat): bool
    requires 0 <= mask <= 7
  {
    match mask
    case 0 => (x + y) % 2 == 0
    case 1 => y % 2 == 0
    case 2 => x % 3 == 0
    case 3 => (x + y) % 3 == 0
    case 4 => (x / 3 + y / 2) % 2 == 0
    case 5 => x * y % 2 + x * y % 3 == 0
    case 6 => (x * y % 2 + x * y % 3) % 2 == 0
    case _ => ((x + y) % 2 + x * y % 3) % 2 == 0
  }

  /** The grid with the modules that are not marked xored with the mask. */
  function Masked(g: Grid, marked: Grid, n: int, mask: int): (r: Grid)
    requires Square(g, n) && Square(marked, n) && 0 <= mask <= 7
    ensures Square(r, n)
    ensures forall p :: InGrid(p, n) ==>
                          Get(r, n, p) == (Get(g, n, p) != (Inverts(mask, p.x, p.y) && !Get(marked, n, p)))
  {
    seq(n, y requires 0 <= y < n => seq(n, x requires 0 <= x < n =>
      g[y][x] != (Inverts(mask, x, y) && !marked[y][x])))
  }

  /** The bit of the 15-bit format word that goes to (x, y): the first copy runs down column 8 and
      left along row 8 around the top left finder, the second copy is split between the other two. */
  function FormatIndex(n: int, p: Pos): int {
    if p.x == 8 && 0 <= p.y <= 5 then p.y
    else if p.x == 8 && p.y == 7 then 6
    else if p.x == 8 && p.y == 8 then 7
    else if p.x == 7 && p.y == 8 then 8
    else if p.y == 8 && 0 <= p.x <= 5 then 14 - p.x
    else if p.y == 8 && n - 8 <= p.x < n then n - 1 - p.x
    else if p.x == 8 && n - 7 <= p.y < n then p.y - n + 15
    else -1
  }

  predicate IsFormatCell(n: int, p: Pos) {
    FormatIndex(n, p) >= 0 || (p.x == 8 && p.y == n - 8)
  }

  /** The colour of a format cell; the one beside the second copy is always black. */
  function FormatColor(n: int, word: seq<bool>, p: Pos): bool
    requires |word| == 15 && n >= 21 && InGrid(p, n)
  {
    if FormatIndex(n, p) >= 0 then word[FormatIndex(n, p)] else true
  }

  function WithFormat(g: Grid, n: int, word: seq<bool>): (r: Grid)
    requires Square(g, n) && |word| == 15 && n >= 21
    ensures Square(r, n)
    ensures forall p :: InGrid(p, n) ==>
                          Get(r, n, p) == if IsFormatCell(n, p) then FormatColor(n, word, p) else Get(g, n, p)
  {
    seq(n, y requires 0 <= y < n => seq(n, x requires 0 <= x < n =>
      if IsFormatCell(n, Pos(x, y)) then FormatColor(n, word, Pos(x, y)) else g[y][x]))
  }

  predicate FormatCellsMarked(marked: Grid, n: int)
    requires Square(marked, n)
  {
    forall y :: 0 <= y < n ==> forall x :: 0 <= x < n ==> IsFormatCell(n, Pos(x, y)) ==> marked[y][x]
  }

  lemma FormatCellMarked(marked: Grid, n: int, p: Pos)
    requires Square(marked, n) && FormatCellsMarked(marked, n) && InGrid(p, n) && IsFormatCell(n, p)
    ensures Get(marked, n, p)
  {
  }

  // ----- masks

  /** Applying a mask twice restores the grid. */
  lemma MaskInvolution(g: Grid, marked: Grid, n: int, mask: int)
    requires Square(g, n) && Square(marked, n) && 0 <= mask <= 7
    ensures Masked(Masked(g, marked, n, mask), marked, n, mask) == g
  {
    hide Inverts;
    GridsEqual(Masked(Masked(g, marked, n, mask), marked, n, mask), g, n);
  }

  /** A mask never touches a function module. */
  lemma MaskKeepsFunctionModules(g: Grid, marked: Grid, n: int, mask: int, p: Pos)
    requires Square(g, n) && Square(marked, n) && 0 <= mask <= 7
    requires InGrid(p, n) && Get(marked, n, p)
    ensures Get(Masked(g, marked, n, mask), n, p) == Get(g, n, p)
  {
    hide Inverts;
  }

  /** The complete grid of one mask: data modules masked, format information for that mask. */
  function Trial(g: Grid, marked: Grid, n: int, mask: int, words: seq<seq<bool>>): (r: Grid)
    requires Square(g, n) && Square(marked, n) && 0 <= mask <= 7 && n >= 21
    requires |words| == 8 && |words[mask]| == 15
    ensures Square(r, n)
  {
    WithFormat(Masked(g, marked, n, mask), n, words[mask])
  }

  lemma FormatOverwrites(g: Grid, n: int, word: seq<bool>, word': seq<bool>)
    requires Square(g, n) && |word| == 15 == |word'| && n >= 21
    ensures WithFormat(WithFormat(g, n, word), n, word') == WithFormat(g, n, word')
  {
    hide IsFormatCell, FormatColor;
    GridsEqual(WithFormat(WithFormat(g, n, word), n, word'), WithFormat(g, n, word'), n);
  }

  /** Masks and format information do not interfere when the format cells are function modules. */
  lemma FormatCommutes(g: Grid, marked: Grid, n: int, mask: int, word: seq<bool>)
    requires Square(g, n) && Square(marked, n) && 0 <= mask <= 7 && n >= 21 && |word| == 15
    requires FormatCellsMarked(marked, n)
    ensures Masked(WithFormat(g, n, word), marked, n, mask) == WithFormat(Masked(g, marked, n, mask), n, word)
  {
    hide IsFormatCell, FormatColor, Inverts;
    var a, b := Masked(WithFormat(g, n, word), marked, n, mask), WithFormat(Masked(g, marked, n, mask), n, word);
    forall p | InGrid(p, n)
      ensures Get(a, n, p) == Get(b, n, p)
    {
      if IsFormatCell(n, p) {
        FormatCellMarked(marked, n, p);
      }
    }
    GridsEqual(a, b, n);
  }

  /** What one round of the trial loop does to a grid whose format cells hold anything: the trial of
      that mask, and after unmasking the original data modules. */
  lemma TrialRound(g: Grid, start: Grid, marked: Grid, n: int, mask: int, words: seq<seq<bool>>, word: seq<bool>)
    requires Square(g, n) && Square(start, n) && Square(marked, n) && 0 <= mask <= 7 && n >= 21
    requires FormatCellsMarked(marked, n)
    requires |words| == 8 && |words[mask]| == 15 && |word| == 15
    requires start == g || start == WithFormat(g, n, word)
    ensures WithFormat(Masked(start, marked, n, mask), n, words[mask]) == Trial(g, marked, n, mask, words)
    ensures Masked(Trial(g, marked, n, mask, words), marked, n, mask) == WithFormat(g, n, words[mask])
  {
    hide Masked, WithFormat;
    var w := words[mask];
    if start != g {
      FormatCommutes(g, marked, n, mask, word);
      FormatOverwrites(Masked(g, marked, n, mask), n, word, w);
    }
    FormatCommutes(Masked(g, marked, n, mask), marked, n, mask, w);
    MaskInvolution(g, marked, n, mask);
  }
}
