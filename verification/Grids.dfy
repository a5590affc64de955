/** Square grids of modules, indexed by row and then column as in the source. */
module Grids {
  type Grid = seq<seq<bool>>

  datatype Cell = Cell(x: nat, y: nat)

  ghost predicate Square(g: Grid, size: nat) {
    |g| == size && forall y | 0 <= y < size :: |g[y]| == size
  }

  predicate Inside(c: Cell, size: nat) {
    c.x < size && c.y < size
  }

  function Get(g: Grid, c: Cell): bool
    requires Square(g, |g|) && Inside(c, |g|)
  {
    g[c.y][c.x]
  }

  function Set(g: Grid, c: Cell, b: bool): (r: Grid)
    requires Square(g, |g|) && Inside(c, |g|)
    ensures Square(r, |g|)
    ensures forall d | Inside(d, |g|) :: Get(r, d) == if d == c then b else Get(g, d)
  {
    g[c.y := g[c.y][c.x := b]]
  }

  /** A grid given cell by cell. */
  function Build(size: nat, f: Cell -> bool): (g: Grid)
    ensures Square(g, size)
    ensures forall c | Inside(c, size) :: Get(g, c) == f(c)
  {
    seq(size, y requires 0 <= y < size => seq(size, x requires 0 <= x < size => f(Cell(x, y))))
  }

  lemma SameGrid(g: Grid, h: Grid, size: nat)
    requires Square(g, size) && Square(h, size)
    requires forall c | Inside(c, size) :: Get(g, c) == Get(h, c)
    ensures g == h
  {
    forall y | 0 <= y < size
      ensures g[y] == h[y]
    {
      forall x | 0 <= x < size
        ensures g[y][x] == h[y][x]
      {
        assert Get(g, Cell(x, y)) == Get(h, Cell(x, y));
      }
    }
  }
}
