/** The zigzag scan that places the codewords on the grid, and the scan that reads them back. */
module Zigzag {
  import opened Basics
  import opened Grids

  // ---------- the order of the scan ----------

  /** Index of the right column of the pair that starts at right: the timing column 6 is skipped. */
  function Adjusted(right: int): int {
    if right == 6 then 5 else right
  }

  /** Row visited at step vert in the column pair that ends at right. */
  function RowAt(size: nat, right: nat, vert: nat): nat
    requires vert < size
  {
    var upward := (right + 1) / 2 % 2 == 0;
    if upward then size - 1 - vert else vert
  }

  /** Cells of a column pair from step vert on. */
  function PairFrom(size: nat, right: nat, vert: nat): seq<Cell>
    requires 1 <= right < size && vert <= size
    decreases size - vert
  {
    if vert == size then []
    else
      var y := RowAt(size, right, vert);
      [Cell(right, y), Cell(right - 1, y)] + PairFrom(size, right, vert + 1)
  }

  /** Cells visited from the column pair at right on. */
  function ScanFrom(size: nat, right: int): seq<Cell>
    requires right < size
    decreases right
  {
    if right < 1 then []
    else PairFrom(size, Adjusted(right), 0) + ScanFrom(size, Adjusted(right) - 2)
  }

  function Scan(size: nat): seq<Cell> {
    ScanFrom(size, size - 1)
  }

  lemma {:induction false} PairCells(size: nat, right: nat, vert: nat)
    requires 1 <= right < size && vert <= size
    ensures forall c :: c in PairFrom(size, right, vert) <==> InPair(size, right, vert, c)
    ensures Distinct(PairFrom(size, right, vert))
    decreases size - vert
  {
    if vert < size {
      PairCells(size, right, vert + 1);
      var y := RowAt(size, right, vert);
      var pair, rest := [Cell(right, y), Cell(right - 1, y)], PairFrom(size, right, vert + 1);
      forall c: Cell
        ensures c in pair + rest <==> InPair(size, right, vert, c)
      {
        assert c in pair + rest <==> c in pair || c in rest;
        assert c in pair <==> c == pair[0] || c == pair[1];
      }
      DistinctConcat(pair, rest);
    }
  }

  /** The cell belongs to the column pair and its row comes up at step vert or later; reading a
      column upwards or downwards is its own inverse. */
  predicate InPair(size: nat, right: nat, vert: nat, c: Cell) {
    (c.x == right || c.x + 1 == right) && c.y < size && RowAt(size, right, c.y) >= vert
  }

  /** Values that the right column index takes. */
  predicate OnChain(right: int) {
    right == -1 || (right % 2 == 1 && 1 <= right <= 5) || (right % 2 == 0 && right >= 6)
  }

  lemma ScanNext(size: nat, right: int)
    requires 1 <= right < size && OnChain(right)
    ensures OnChain(Adjusted(right) - 2) && 1 <= Adjusted(right)
    ensures ScanFrom(size, right) == PairFrom(size, Adjusted(right), 0) + ScanFrom(size, Adjusted(right) - 2)
  {}

  lemma ScanOver(size: nat, right: int)
    requires right < size && right < 1
    ensures ScanFrom(size, right) == []
  {}

  lemma PairCovers(size: nat, right: nat, c: Cell)
    requires 1 <= right < size
    ensures InPair(size, right, 0, c) <==> (c.x == right || c.x + 1 == right) && c.y < size
  {}

  lemma {:induction false} ScanCells(size: nat, right: int)
    requires right < size && OnChain(right)
    ensures forall c :: c in ScanFrom(size, right) <==> c.x <= right && c.x != 6 && c.y < size
    ensures Distinct(ScanFrom(size, right))
    decreases right
  {
    hide ScanFrom, PairFrom, InPair, Distinct;
    if right < 1 {
      ScanOver(size, right);
      DistinctNone<Cell>();
    } else {
      var r := Adjusted(right);
      var pair, rest := PairFrom(size, r, 0), ScanFrom(size, r - 2);
      ScanNext(size, right);
      PairCells(size, r, 0);
      ScanCells(size, r - 2);
      forall c: Cell
        ensures c in pair + rest <==> c.x <= right && c.x != 6 && c.y < size
        ensures c in pair ==> c !in rest
      {
        assert c in pair + rest <==> c in pair || c in rest;
        PairCovers(size, r, c);
      }
      DistinctConcat(pair, rest);
    }
  }

  /** For every version's size, the scan visits each cell outside the timing column exactly once,
      and no other cell. */
  lemma ScanBijective(size: nat)
    requires size >= 7 && size % 2 == 1
    ensures Distinct(Scan(size))
    ensures forall c :: c in Scan(size) <==> Inside(c, size) && c.x != 6
  {
    ScanCells(size, size - 1);
  }

  // ---------- the order of the scan in closed form ----------

  lemma {:induction false} PairAt(size: nat, right: nat, vert: nat, v: nat, j: nat)
    requires 1 <= right < size && vert <= v < size && j < 2
    ensures var k := 2 * (v - vert) + j; var pair := PairFrom(size, right, vert);
      |pair| == 2 * (size - vert) && pair[k] == Cell(right - j, RowAt(size, right, v))
    decreases size - vert
  {
    hide RowAt;
    PairLength(size, right, vert);
    if vert < v {
      PairAt(size, right, vert + 1, v, j);
    }
  }

  lemma {:induction false} PairLength(size: nat, right: nat, vert: nat)
    requires 1 <= right < size && vert <= size
    ensures |PairFrom(size, right, vert)| == 2 * (size - vert)
    decreases size - vert
  {
    if vert < size {
      PairLength(size, right, vert + 1);
    }
  }

  /** The even number that stands for a column pair: both 6 and 5 stand for the pair left of the timing column. */
  function Even(right: int): int {
    if right % 2 == 0 then right else right + 1
  }

  lemma ChainStep(right: int)
    requires OnChain(right) && right >= 1
    ensures var e := Even(right);
      e >= 2 && Adjusted(right) == (if e <= 6 then e - 1 else e) && Even(Adjusted(right) - 2) == e - 2
  {}

  /** Pair p from column right on, step v, module j. */
  lemma {:induction false} ScanFromAt(size: nat, right: int, p: nat, v: nat, j: nat)
    requires right < size && OnChain(right) && v < size && j < 2 && 2 * p + 2 <= Even(right)
    ensures var k, e := 2 * size * p + 2 * v + j, Even(right) - 2 * p; var r := if e <= 6 then e - 1 else e;
      && 0 <= k < |ScanFrom(size, right)| && 1 <= r < size
      && ScanFrom(size, right)[k] == Cell(r - j, RowAt(size, r, v))
    decreases p
  {
    hide ScanFrom, PairFrom, OnChain, RowAt;
    AtLeastOne(right);
    ChainStep(right);
    ScanNext(size, right);
    var r := Adjusted(right);
    PairAt(size, r, 0, v, j);
    if p > 0 {
      ScanFromAt(size, r - 2, p - 1, v, j);
      assert 2 * size * p == 2 * size * (p - 1) + 2 * size;
    }
  }

  lemma AtLeastOne(right: int)
    requires OnChain(right) && Even(right) >= 2
    ensures right >= 1
  {}

  lemma RowDirection(size: nat, s: nat, e: nat, p: nat, v: nat)
    requires size == 4 * s + 1 && e == 4 * s - 2 * p && e >= 2 && v < size
    ensures RowAt(size, if e <= 6 then e - 1 else e, v) == if p % 2 == 0 then size - 1 - v else v
  {
    var r := if e <= 6 then e - 1 else e;
    var h := 2 * s - p;
    assert e == 2 * h;
    HalfOf(h);
    SameParity(s, p);
    assert (r + 1) / 2 == h;
  }

  lemma HalfOf(h: nat)
    ensures 2 * h / 2 == h && (2 * h + 1) / 2 == h
  {}

  lemma SameParity(s: nat, p: nat)
    requires p <= 2 * s
    ensures (2 * s - p) % 2 == p % 2
  {}

  /** Where visit number k = 2 size p + 2 v + j of the scan goes, for the sizes of QR symbols: pairs of columns from
      the right, upwards first and then in turn, the right module of each row before the left one, past the timing
      column. */
  lemma ScanOrder(size: nat, p: nat, v: nat, j: nat, k: nat)
    requires size % 4 == 1 && size >= 21 && v < size && j < 2 && 2 * p + 3 <= size && k == 2 * size * p + 2 * v + j
    ensures var c := size - 1 - 2 * p;
      && k < |Scan(size)| && Scan(size)[k].x == (if c <= 6 then c - 1 else c) - j
      && Scan(size)[k].y == if p % 2 == 0 then size - 1 - v else v
  {
    hide ScanFrom, RowAt;
    var s := size / 4;
    assert size == 4 * s + 1 && Even(size - 1) == size - 1;
    ScanFromAt(size, size - 1, p, v, j);
    RowDirection(size, s, size - 1 - 2 * p, p, v);
  }

  // ---------- writing and reading along a list of cells ----------

  /** Writes bits to the cells that are not function modules, in order, while bits are left. */
  function Place(g: Grid, f: Grid, cells: seq<Cell>, bits: seq<bool>): (r: Grid)
    requires Fits(g, f, cells)
    ensures Square(r, |g|)
    decreases |cells|
  {
    if cells == [] then g
    else if Get(f, cells[0]) || bits == [] then Place(g, f, cells[1..], bits)
    else Place(Set(g, cells[0], bits[0]), f, cells[1..], bits[1..])
  }

  ghost predicate Fits(g: Grid, f: Grid, cells: seq<Cell>) {
    Square(g, |g|) && Square(f, |g|) && forall i | 0 <= i < |cells| :: Inside(cells[i], |g|)
  }

  /** The modules at the free cells, in order. */
  function Read(g: Grid, f: Grid, cells: seq<Cell>): seq<bool>
    requires Fits(g, f, cells)
  {
    if cells == [] then []
    else (if Get(f, cells[0]) then [] else [Get(g, cells[0])]) + Read(g, f, cells[1..])
  }

  /** Cells that are not visited, and function modules, keep their colour. */
  lemma {:induction false} PlaceKeeps(g: Grid, f: Grid, cells: seq<Cell>, bits: seq<bool>, c: Cell)
    requires Fits(g, f, cells) && Inside(c, |g|) && (c !in cells || Get(f, c))
    ensures Get(Place(g, f, cells, bits), c) == Get(g, c)
    decreases |cells|
  {
    if cells == [] {
    } else if Get(f, cells[0]) || bits == [] {
      PlaceKeeps(g, f, cells[1..], bits, c);
    } else {
      PlaceKeeps(Set(g, cells[0], bits[0]), f, cells[1..], bits[1..], c);
    }
  }

  lemma {:induction false} ReadUnchanged(g: Grid, h: Grid, f: Grid, cells: seq<Cell>)
    requires Fits(g, f, cells) && Fits(h, f, cells) && |g| == |h|
    requires forall i | 0 <= i < |cells| && !Get(f, cells[i]) :: Get(g, cells[i]) == Get(h, cells[i])
    ensures Read(g, f, cells) == Read(h, f, cells)
  {
    if cells != [] {
      ReadUnchanged(g, h, f, cells[1..]);
    }
  }

  lemma NothingRead(g: Grid, f: Grid, cells: seq<Cell>, bits: seq<bool>)
    requires Fits(g, f, cells) && cells == []
    ensures Read(g, f, cells) == [] && Place(g, f, cells, bits) == g
  {}

  lemma SetElsewhere(g: Grid, c: Cell, b: bool)
    requires Square(g, |g|) && Inside(c, |g|)
    ensures Get(Set(g, c, b), c) == b && forall d | Inside(d, |g|) && d != c :: Get(Set(g, c, b), d) == Get(g, d)
  {}

  lemma PlaceNext(g: Grid, f: Grid, cells: seq<Cell>, bits: seq<bool>)
    requires Fits(g, f, cells) && cells != []
    ensures Place(g, f, cells, bits) ==
            if Get(f, cells[0]) || bits == [] then Place(g, f, cells[1..], bits)
            else Place(Set(g, cells[0], bits[0]), f, cells[1..], bits[1..])
  {}

  lemma ReadNext(g: Grid, f: Grid, cells: seq<Cell>)
    requires Fits(g, f, cells) && cells != []
    ensures Read(g, f, cells) == (if Get(f, cells[0]) then [] else [Get(g, cells[0])]) + Read(g, f, cells[1..])
  {}

  /** Reading in the same order gives the bits back; the free cells that are left over (the
      remainder bits) still hold what they held. */
  lemma {:induction false} PlaceRead(g: Grid, f: Grid, cells: seq<Cell>, bits: seq<bool>)
    requires Fits(g, f, cells) && Distinct(cells) && |bits| <= |Read(g, f, cells)|
    ensures Read(Place(g, f, cells, bits), f, cells) == bits + Read(g, f, cells)[|bits|..]
    decreases |cells|
  {
    hide Place, Read, Set, Get;
    if cells == [] {
      NothingRead(g, f, cells, bits);
    } else {
      var c, rest := cells[0], cells[1..];
      assert c !in rest;
      PlaceNext(g, f, cells, bits);
      ReadNext(g, f, cells);
      ReadNext(Place(g, f, cells, bits), f, cells);
      if Get(f, c) {
        PlaceRead(g, f, rest, bits);
      } else if bits == [] {
        PlaceRead(g, f, rest, bits);
        PlaceKeeps(g, f, rest, bits, c);
      } else {
        var h := Set(g, c, bits[0]);
        SetElsewhere(g, c, bits[0]);
        ReadUnchanged(g, h, f, rest);
        PlaceRead(h, f, rest, bits[1..]);
        PlaceKeeps(h, f, rest, bits[1..], c);
        assert Read(g, f, cells)[|bits|..] == Read(g, f, rest)[|bits| - 1..];
        assert bits == [bits[0]] + bits[1..];
      }
    }
  }

  /** Bits left over when n bits are placed on the cells. */
  function Unplaced(f: Grid, cells: seq<Cell>, n: nat): nat
    requires Fits(f, f, cells)
  {
    if cells == [] then n
    else if Get(f, cells[0]) || n == 0 then Unplaced(f, cells[1..], n)
    else Unplaced(f, cells[1..], n - 1)
  }

  /** All bits find a place exactly when there are enough free cells. */
  lemma {:induction false} UnplacedZero(g: Grid, f: Grid, cells: seq<Cell>, n: nat)
    requires Fits(g, f, cells) && |f| == |g|
    ensures Unplaced(f, cells, n) == 0 <==> n <= |Read(g, f, cells)|
    decreases |cells|
  {
    if cells != [] {
      UnplacedZero(g, f, cells[1..], n);
      if n > 0 {
        UnplacedZero(g, f, cells[1..], n - 1);
      }
    }
  }

  /** One visit of the scan to a cell that takes no bit. */
  lemma PlaceSkip(g: Grid, f: Grid, c: Cell, rest: seq<Cell>, bits: seq<bool>)
    requires Fits(g, f, [c] + rest) && Inside(c, |g|) && (Get(f, c) || bits == [])
    ensures Fits(g, f, rest)
    ensures Place(g, f, [c] + rest, bits) == Place(g, f, rest, bits)
    ensures Unplaced(f, [c] + rest, |bits|) == Unplaced(f, rest, |bits|)
  {
    FitsRest(g, f, c, rest);
  }

  /** One visit of the scan to a free cell while bits are left. */
  lemma PlaceBit(g: Grid, f: Grid, c: Cell, rest: seq<Cell>, bits: seq<bool>)
    requires Fits(g, f, [c] + rest) && Inside(c, |g|) && !Get(f, c) && bits != []
    ensures Fits(g, f, rest)
    ensures Place(g, f, [c] + rest, bits) == Place(Set(g, c, bits[0]), f, rest, bits[1..])
    ensures Unplaced(f, [c] + rest, |bits|) == Unplaced(f, rest, |bits| - 1)
  {
    FitsRest(g, f, c, rest);
  }

  lemma FitsRest(g: Grid, f: Grid, c: Cell, rest: seq<Cell>)
    requires Fits(g, f, [c] + rest)
    ensures Fits(g, f, rest) && ([c] + rest)[0] == c && ([c] + rest)[1..] == rest
  {
    var cells := [c] + rest;
    forall i | 0 <= i < |rest| ensures Inside(rest[i], |g|) {
      assert cells[i + 1] == rest[i];
    }
  }

  lemma ScanInside(size: nat)
    requires size >= 7 && size % 2 == 1
    ensures forall i | 0 <= i < |Scan(size)| :: Inside(Scan(size)[i], size)
  {
    ScanBijective(size);
    forall i | 0 <= i < |Scan(size)| ensures Inside(Scan(size)[i], size) {
      assert Scan(size)[i] in Scan(size);
    }
  }
}
