/**
 Square grids of modules: the value a two-dimensional buffer holds, g[y][x].
 */
module Grids {

  type Grid = seq<seq<bool>>

  datatype Pos = Pos(x: int, y: int)

  function Abs(a: int): nat {
    if a < 0 then -a else a
  }

  predicate Square(g: Grid, n: int) {
    |g| == n && forall y :: 0 <= y < n ==> |g[y]| == n
  }

  predicate InGrid(p: Pos, n: int) {
    0 <= p.x < n && 0 <= p.y < n
  }

  function Get(g: Grid, n: int, p: Pos): bool
    requires Square(g, n) && InGrid(p, n)
  {
    g[p.y][p.x]
  }

  /** The contents of a buffer. */
  ghost function Contents(a: array2<bool>): (g: Grid)
    requires a.Length0 == a.Length1
    reads a
    ensures Square(g, a.Length0)
    ensures forall p :: InGrid(p, a.Length0) ==> Get(g, a.Length0, p) == a[p.y, p.x]
  {
    seq(a.Length0, y requires 0 <= y < a.Length0 reads a =>
      seq(a.Length1, x requires 0 <= x < a.Length1 reads a => a[y, x]))
  }

  /** The grid with one module changed. */
  function Put(g: Grid, n: int, p: Pos, color: bool): (r: Grid)
    requires Square(g, n) && InGrid(p, n)
    ensures Square(r, n)
    ensures forall q :: InGrid(q, n) ==> Get(r, n, q) == if q == p then color else Get(g, n, q)
  {
    g[p.y := g[p.y][p.x := color]]
  }

  lemma GridsEqual(g: Grid, h: Grid, n: int)
    requires Square(g, n) && Square(h, n)
    requires forall p :: InGrid(p, n) ==> Get(g, n, p) == Get(h, n, p)
    ensures g == h
  {
    forall y | 0 <= y < n
      ensures g[y] == h[y]
    {
      forall x | 0 <= x < n
        ensures g[y][x] == h[y][x]
      {
        assert Get(g, n, Pos(x, y)) == Get(h, n, Pos(x, y));
      }
    }
  }
}
