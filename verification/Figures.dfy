/** What a finished symbol looks like, in the figures and tables of ISO/IEC 18004: mask tiles, finder, timing and
    alignment patterns, and where the format and version words stand. */
module Figures {
  import opened Basics
  import opened Counting
  import opened DataStream
  import opened GaloisField
  import opened Grids
  import opened Interleave
  import opened Masking
  import opened Patterns
  import opened Symbol
  import opened Tables
  import opened Zigzag

  // ---------- masks ----------

  /** The tile that mask m repeats over the symbol; # marks the modules it inverts. */
  function Tile(m: nat): (t: seq<string>)
    requires m < 8
    ensures t != [] && t[0] != [] && forall i | 0 <= i < |t| :: |t[i]| == |t[0]|
  {
    match m
    case 0 => ["#.", ".#"]
    case 1 => ["#", "."]
    case 2 => ["#.."]
    case 3 => ["#..", "..#", ".#."]
    case 4 => ["###...", "###...", "...###", "...###"]
    case 5 => ["######", "#.....", "#..#..", "#.#.#.", "#..#..", "#....."]
    case 6 => ["######", "###...", "##.##.", "#.#.#.", "#.##.#", "#...##"]
    case _ => ["#.#.#.", "...###", "#...##", ".#.#.#", "###...", ".###.."]
  }

  lemma ProductRests(x: nat, y: nat)
    ensures x * y % 2 == (x % 6) * (y % 6) % 2 && x * y % 3 == (x % 6) * (y % 6) % 3
  {
    var a, r, b, s := x / 6, x % 6, y / 6, y % 6;
    assert x * y == 6 * (6 * (a * b) + a * s + b * r) + r * s;
    SixTimes(6 * (a * b) + a * s + b * r, r * s, x * y);
  }

  lemma SixTimes(k: nat, d: nat, n: nat)
    requires n == 6 * k + d
    ensures n % 2 == d % 2 && n % 3 == d % 3
  {
    var h, t := d / 2, d / 3;
    assert n == 2 * (3 * k + h) + d % 2;
    assert n == 3 * (2 * k + t) + d % 3;
  }

  lemma SumOfHalves(x: nat, y: nat)
    ensures (x + y) % 2 == (x % 2 + y % 2) % 2
  {
    var a, b := x / 2, y / 2;
    assert x + y == 2 * (a + b) + (x % 2 + y % 2);
  }

  lemma SumOfSixths(x: nat, y: nat)
    ensures (x + y) % 2 == (x % 6 + y % 6) % 2
  {
    var a, b := x / 6, y / 6;
    SixTimes(a + b, x % 6 + y % 6, x + y);
  }

  lemma SumOfThirds(x: nat, y: nat)
    ensures (x + y) % 3 == (x % 3 + y % 3) % 3
  {
    var a, b := x / 3, y / 3;
    assert x + y == 3 * (a + b) + (x % 3 + y % 3);
  }

  lemma ThirdsAndHalves(x: nat, y: nat)
    ensures (x / 3 + y / 2) % 2 == (x % 6 / 3 + y % 4 / 2) % 2
  {
    assert x / 3 == 2 * (x / 6) + x % 6 / 3;
    assert y / 2 == 2 * (y / 4) + y % 4 / 2;
  }

  lemma SumTiles(x: nat, y: nat)
    requires x < 3 && y < 3
    ensures x < 2 && y < 2 ==> ((x + y) % 2 == 0 <==> ["#.", ".#"][y][x] == '#')
    ensures (x + y) % 3 == 0 <==> ["#..", "..#", ".#."][y][x] == '#'
  {}

  lemma BrickTile(x: nat, y: nat)
    requires x < 6 && y < 4
    ensures (x / 3 + y / 2) % 2 == 0 <==> ["###...", "###...", "...###", "...###"][y][x] == '#'
  {}

  lemma FifthTile(x: nat, y: nat)
    requires x < 6 && y < 6
    ensures x * y % 2 + x * y % 3 == 0 <==>
      ["######", "#.....", "#..#..", "#.#.#.", "#..#..", "#....."][y][x] == '#'
  {
    if x == 0 {} else if x == 1 {} else if x == 2 {} else if x == 3 {} else if x == 4 {} else { assert x == 5; }
  }

  lemma SixthTile(x: nat, y: nat)
    requires x < 6 && y < 6
    ensures (x * y % 2 + x * y % 3) % 2 == 0 <==>
      ["######", "###...", "##.##.", "#.#.#.", "#.##.#", "#...##"][y][x] == '#'
  {
    if x == 0 {} else if x == 1 {} else if x == 2 {} else if x == 3 {} else if x == 4 {} else { assert x == 5; }
  }

  lemma SeventhTile(x: nat, y: nat)
    requires x < 6 && y < 6
    ensures ((x + y) % 2 + x * y % 3) % 2 == 0 <==>
      ["#.#.#.", "...###", "#...##", ".#.#.#", "###...", ".###.."][y][x] == '#'
  {
    if x == 0 {} else if x == 1 {} else if x == 2 {} else if x == 3 {} else if x == 4 {} else { assert x == 5; }
  }

  lemma LowMask(m: nat, x: nat, y: nat)
    requires m < 4
    ensures Inverts(m, x, y) <==> Tile(m)[y % |Tile(m)|][x % |Tile(m)[0]|] == '#'
  {
    match m
    case 0 =>
      SumOfHalves(x, y);
      SumTiles(x % 2, y % 2);
    case 3 =>
      SumOfThirds(x, y);
      SumTiles(x % 3, y % 3);
    case _ =>
  }

  lemma FourthMask(x: nat, y: nat)
    ensures |Tile(4)| == 4 && |Tile(4)[0]| == 6 && (Inverts(4, x, y) <==> Tile(4)[y % 4][x % 6] == '#')
  {
    ThirdsAndHalves(x, y);
    BrickTile(x % 6, y % 4);
  }

  lemma FifthMask(x: nat, y: nat)
    ensures |Tile(5)| == 6 && |Tile(5)[0]| == 6 && (Inverts(5, x, y) <==> Tile(5)[y % 6][x % 6] == '#')
  {
    ProductRests(x, y);
    FifthTile(x % 6, y % 6);
  }

  lemma SixthMask(x: nat, y: nat)
    ensures |Tile(6)| == 6 && |Tile(6)[0]| == 6 && (Inverts(6, x, y) <==> Tile(6)[y % 6][x % 6] == '#')
  {
    ProductRests(x, y);
    SixthTile(x % 6, y % 6);
  }

  lemma SeventhMask(x: nat, y: nat)
    ensures |Tile(7)| == 6 && |Tile(7)[0]| == 6 && (Inverts(7, x, y) <==> Tile(7)[y % 6][x % 6] == '#')
  {
    ProductRests(x, y);
    SumOfSixths(x, y);
    SeventhTile(x % 6, y % 6);
  }

  /** Each mask inverts the modules marked on its tile, repeated over the symbol. */
  lemma MaskTiles(m: nat, x: nat, y: nat)
    requires m < 8
    ensures Inverts(m, x, y) <==> Tile(m)[y % |Tile(m)|][x % |Tile(m)[0]|] == '#'
  {
    hide Inverts, Tile;
    match m
    case 4 => FourthMask(x, y);
    case 5 => FifthMask(x, y);
    case 6 => SixthMask(x, y);
    case 7 => SeventhMask(x, y);
    case _ => LowMask(m, x, y);
  }

  // ---------- drawing ----------

  /** A cell that is drawn keeps a colour on which its shape and all later ones agree. */
  lemma {:induction false} DrawnLast(g: Grid, ss: seq<Shape>, k: nat, c: Cell, b: bool)
    requires Square(g, |g|) && AllShapes(ss, |g|) && Inside(c, |g|) && k < |ss| && ss[k].Covers(|g|, c)
    requires forall j | k <= j < |ss| && ss[j].Covers(|g|, c) :: ss[j].Colour(|g|, c) == b
    ensures Get(DrawAll(g, ss), c) == b
  {
    hide Shape.Covers, Shape.Colour, Shape.Valid, Draw, Get;
    var n := |ss| - 1;
    if k < n {
      DrawnLast(g, ss[..n], k, c, b);
    }
  }

  /** The finished symbol that the constructor builds. */
  ghost function Final(version: nat, ecl: Ecc, data: seq<Byte>, m: nat): (r: Grid)
    requires 1 <= version <= 40 && |data| == DataCodewords(version, ecl) && m < 8
    ensures Square(r, SizeOf(version)) && SizeOf(version) >= 21
  {
    Finished(Unmasked(version, ecl, data), FunctionMap(version), ecl, m)
  }

  /** Codewords and masks leave the function patterns as they were drawn. */
  lemma FunctionKept(version: nat, ecl: Ecc, data: seq<Byte>, m: nat, c: Cell)
    requires 1 <= version <= 40 && |data| == DataCodewords(version, ecl) && m < 8
    requires Inside(c, SizeOf(version)) && Get(FunctionMap(version), c) && FormatIndex(SizeOf(version), c) < 0
    ensures Get(Final(version, ecl, data, m), c) == Get(BaseGrid(version, ecl), c)
  {
    hide FunctionMap, BaseGrid, Scan, SizeOf, FormatWord, AllCodewords, DataCodewords, LayoutOf, Unpack, Place, Get,
      FormatIndex;
    var base := BaseGrid(version, ecl);
    ScanFits(version, base);
    var bits := Unpack(AllCodewords(data, LayoutOf(version, ecl)));
    PlaceKeeps(base, FunctionMap(version), Scan(SizeOf(version)), bits, c);
  }

  /** The module is in the grid and has the colour. */
  ghost predicate Shows(g: Grid, c: Cell, b: bool) {
    Square(g, |g|) && Inside(c, |g|) && Get(g, c) == b
  }

  lemma ShapeCount(version: nat, ecl: Ecc)
    requires 1 <= version <= 40
    ensures |FunctionShapes(version, ecl)| ==
      5 + |AlignRows(AlignPositions(version), NumAlign(version))| + if version < 7 then 0 else 1
  {
    hide FormatWord, VersionWord, AlignRows, AlignPositions, NumAlign, SizeOf;
  }

  /** The shapes that are drawn, by their place in the list. */
  lemma ShapeAt(version: nat, ecl: Ecc, k: nat)
    requires 1 <= version <= 40 && k < |FunctionShapes(version, ecl)|
    ensures var ss, rows := FunctionShapes(version, ecl), AlignRows(AlignPositions(version), NumAlign(version));
      && |ss| >= 5 + |rows|
      && (k == 0 ==> ss[k] == Timing) && (k == 1 ==> ss[k] == Finder(3, 3))
      && (k == 2 ==> ss[k] == Finder(SizeOf(version) - 4, 3)) && (k == 3 ==> ss[k] == Finder(3, SizeOf(version) - 4))
      && (4 <= k < 4 + |rows| ==> ss[k] == rows[k - 4]) && (k == 4 + |rows| ==> ss[k] == Format(FormatWord(ecl, 0)))
      && (k == 5 + |rows| ==> version >= 7 && ss[k] == VersionInfo(VersionWord(version)))
  {
    hide FormatWord, VersionWord, AlignRows, AlignPositions, NumAlign, SizeOf;
  }

  /** Corners of the array of alignment patterns, where finders stand. */
  predicate Corner(i: nat, j: nat, last: nat) {
    (i == 0 && j == 0) || (i == 0 && j == last) || (i == last && j == 0)
  }

  lemma {:induction false} RowForm(p: seq<nat>, i: nat, n: nat, k: nat) returns (j: nat)
    requires i < |p| && n <= |p| && k < |AlignRow(p, i, n)|
    ensures j < n && !Corner(i, j, |p| - 1) && AlignRow(p, i, n)[k] == Alignment(p[i], p[j])
  {
    if k < |AlignRow(p, i, n - 1)| {
      j := RowForm(p, i, n - 1, k);
    } else {
      j := n - 1;
    }
  }

  lemma {:induction false} RowsForm(p: seq<nat>, m: nat, k: nat) returns (i: nat, j: nat)
    requires m <= |p| && k < |AlignRows(p, m)|
    ensures i < |p| && j < |p| && !Corner(i, j, |p| - 1) && AlignRows(p, m)[k] == Alignment(p[i], p[j])
  {
    hide AlignRow;
    if k < |AlignRows(p, m - 1)| {
      i, j := RowsForm(p, m - 1, k);
    } else {
      i := m - 1;
      j := RowForm(p, m - 1, |p|, k - |AlignRows(p, m - 1)|);
    }
  }

  lemma {:induction false} RowHas(p: seq<nat>, i: nat, n: nat, j: nat) returns (k: nat)
    requires i < |p| && j < n <= |p| && !Corner(i, j, |p| - 1)
    ensures k < |AlignRow(p, i, n)| && AlignRow(p, i, n)[k] == Alignment(p[i], p[j])
  {
    if j < n - 1 {
      k := RowHas(p, i, n - 1, j);
    } else {
      k := |AlignRow(p, i, n - 1)|;
    }
  }

  lemma {:induction false} RowsHave(p: seq<nat>, m: nat, i: nat, j: nat) returns (k: nat)
    requires i < m <= |p| && j < |p| && !Corner(i, j, |p| - 1)
    ensures k < |AlignRows(p, m)| && AlignRows(p, m)[k] == Alignment(p[i], p[j])
  {
    hide AlignRow;
    if i < m - 1 {
      k := RowsHave(p, m - 1, i, j);
    } else {
      var l := RowHas(p, i, |p|, j);
      k := |AlignRows(p, m - 1)| + l;
    }
  }

  /** Where the shape covers the cell, it gives it the colour. */
  ghost predicate Agrees(s: Shape, size: nat, c: Cell, b: bool)
    requires Inside(c, size)
  {
    s.Valid(size) && s.Covers(size, c) ==> s.Colour(size, c) == b
  }

  /** All alignment patterns that cover the cell give it the colour. */
  ghost predicate AlignmentsAgree(p: seq<nat>, size: nat, c: Cell, b: bool)
    requires Inside(c, size)
  {
    forall i, j | 0 <= i < |p| && 0 <= j < |p| && !Corner(i, j, |p| - 1) :: Agrees(Alignment(p[i], p[j]), size, c, b)
  }

  /** A module under shape k, which no later shape draws in another colour, has that colour in the finished symbol. */
  lemma Figure(version: nat, ecl: Ecc, data: seq<Byte>, m: nat, c: Cell, k: nat, b: bool)
    requires 1 <= version <= 40 && |data| == DataCodewords(version, ecl) && m < 8 && Inside(c, SizeOf(version))
    requires FormatIndex(SizeOf(version), c) < 0 && (version >= 7 ==> VersionIndex(SizeOf(version), c) < 0)
    requires k < |FunctionShapes(version, ecl)| && FunctionShapes(version, ecl)[k].Covers(SizeOf(version), c)
    requires forall f | 0 <= f < 4 && k <= f :: Agrees(FunctionShapes(version, ecl)[f], SizeOf(version), c, b)
    requires AlignmentsAgree(AlignPositions(version), SizeOf(version), c, b)
    ensures Shows(Final(version, ecl, data, m), c, b)
  {
    hide Shape.Covers, Shape.Colour, FunctionShapes, AlignRows, AlignPositions, SizeOf, Final, MarkAll, Get,
      FormatIndex, VersionIndex, Corner, DataCodewords, DrawAll;
    var size, ss, p := SizeOf(version), FunctionShapes(version, ecl), AlignPositions(version);
    ShapeCount(version, ecl);
    forall j | k <= j < |ss| && ss[j].Covers(size, c)
      ensures ss[j].Colour(size, c) == b
    {
      ShapeAt(version, ecl, j);
      var rows := AlignRows(p, NumAlign(version));
      if j < 4 {
        assert Agrees(ss[j], size, c, b);
      } else if j < 4 + |rows| {
        var x, y := RowsForm(p, |p|, j - 4);
        assert Agrees(Alignment(p[x], p[y]), size, c, b);
      } else if j == 4 + |rows| {
        NoFormat(size, FormatWord(ecl, 0), c);
        assert false;
      } else {
        NoVersion(size, VersionWord(version), c);
        assert false;
      }
    }
    DrawnLast(Blank(size), ss, k, c, b);
    MarkAllCovers(Blank(size), ss, c);
    FunctionMapAnyLevel(version, ecl);
    FunctionKept(version, ecl, data, m, c);
  }

  lemma NoFormat(size: nat, w: seq<bool>, c: Cell)
    requires FormatIndex(size, c) < 0
    ensures !Format(w).Covers(size, c)
  {}

  lemma NoVersion(size: nat, w: seq<bool>, c: Cell)
    requires VersionIndex(size, c) < 0
    ensures !VersionInfo(w).Covers(size, c)
  {}

  /** The figure is dark in column x of row y. */
  predicate Dark(figure: seq<string>, x: int, y: int) {
    0 <= y < |figure| && 0 <= x < |figure[y]| && figure[y][x] == '#'
  }

  // ---------- finders ----------

  /** A finder with its light border. */
  const FINDER := [
    "#######.",
    "#.....#.",
    "#.###.#.",
    "#.###.#.",
    "#.###.#.",
    "#.....#.",
    "#######.",
    "........"
  ]

  lemma FinderRings(x: nat, y: nat)
    requires x < 8 && y < 8
    ensures var d := Max(Abs(x - 3), Abs(y - 3)); d <= 4 && (d != 2 && d != 4 <==> Dark(FINDER, x, y))
  {
    if y == 0 {} else if y == 1 {} else if y == 2 {} else if y == 3 {}
    else if y == 4 {} else if y == 5 {} else if y == 6 {} else { assert y == 7; }
  }

  /** A cell in one of the three corners: k-1 says which, x and y count from the corner. */
  function CornerCell(k: nat, size: nat, x: nat, y: nat): Cell
    requires 1 <= k <= 3 && x < size && y < size
  {
    if k == 1 then Cell(x, y) else if k == 2 then Cell(size - 1 - x, y) else Cell(x, size - 1 - y)
  }

  lemma CornerFinder(k: nat, size: nat, x: nat, y: nat, s: Shape)
    requires 1 <= k <= 3 && size >= 21 && x < 8 && y < 8
    requires s == if k == 1 then Finder(3, 3) else if k == 2 then Finder(size - 4, 3) else Finder(3, size - 4)
    ensures var c := CornerCell(k, size, x, y);
      Inside(c, size) && s.Covers(size, c) && s.Colour(size, c) == Dark(FINDER, x, y)
  {
    FinderRings(x, y);
  }

  lemma CornerFree(k: nat, size: nat, x: nat, y: nat, p: seq<nat>, b: bool)
    requires 1 <= k <= 3 && size >= 21 && x < 8 && y < 8 && Spaced(p, size)
    ensures var c := CornerCell(k, size, x, y);
      && Inside(c, size) && FormatIndex(size, c) < 0 && (size >= 45 ==> VersionIndex(size, c) < 0)
      && AlignmentsAgree(p, size, c, b)
      && (k <= 1 ==> !Finder(size - 4, 3).Covers(size, c)) && (k <= 2 ==> !Finder(3, size - 4).Covers(size, c))
  {}

  /** The three corners of every finished symbol show finders. */
  lemma FinderFigure(version: nat, ecl: Ecc, data: seq<Byte>, m: nat, k: nat, x: nat, y: nat)
    requires 1 <= version <= 40 && |data| == DataCodewords(version, ecl) && m < 8 && 1 <= k <= 3 && x < 8 && y < 8
    ensures SizeOf(version) >= 21
    ensures Shows(Final(version, ecl, data, m), CornerCell(k, SizeOf(version), x, y), Dark(FINDER, x, y))
  {
    hide Shape.Covers, Shape.Colour, FunctionShapes, AlignRows, AlignPositions, SizeOf, Final, Get, FormatIndex,
      VersionIndex, DataCodewords, CornerCell, AlignmentsAgree, Spaced, Shows, Dark;
    var size, ss, p := SizeOf(version), FunctionShapes(version, ecl), AlignPositions(version);
    ShapeCount(version, ecl);
    OddSize(version);
    SevenSize(version);
    AlignSpaced(version);
    var c, b := CornerCell(k, size, x, y), Dark(FINDER, x, y);
    ShapeAt(version, ecl, 0);
    ShapeAt(version, ecl, 1);
    ShapeAt(version, ecl, 2);
    ShapeAt(version, ecl, 3);
    CornerFinder(k, size, x, y, ss[k]);
    CornerFree(k, size, x, y, p, b);
    Figure(version, ecl, data, m, c, k, b);
  }

  lemma SevenSize(version: nat)
    ensures version >= 7 <==> SizeOf(version) >= 45
  {}

  // ---------- alignment patterns ----------

  const ALIGNMENT := [
    "#####",
    "#...#",
    "#.#.#",
    "#...#",
    "#####"
  ]

  /** Centres of the alignment patterns of each version, as tabulated in annex E of the standard. */
  function Centres(version: nat): seq<nat>
    requires 1 <= version <= 40
  {
    match version
    case 1 => []
    case 2 => [6, 18]
    case 3 => [6, 22]
    case 4 => [6, 26]
    case 5 => [6, 30]
    case 6 => [6, 34]
    case 7 => [6, 22, 38]
    case 8 => [6, 24, 42]
    case 9 => [6, 26, 46]
    case 10 => [6, 28, 50]
    case 11 => [6, 30, 54]
    case 12 => [6, 32, 58]
    case 13 => [6, 34, 62]
    case 14 => [6, 26, 46, 66]
    case 15 => [6, 26, 48, 70]
    case 16 => [6, 26, 50, 74]
    case 17 => [6, 30, 54, 78]
    case 18 => [6, 30, 56, 82]
    case 19 => [6, 30, 58, 86]
    case 20 => [6, 34, 62, 90]
    case 21 => [6, 28, 50, 72, 94]
    case 22 => [6, 26, 50, 74, 98]
    case 23 => [6, 30, 54, 78, 102]
    case 24 => [6, 28, 54, 80, 106]
    case 25 => [6, 32, 58, 84, 110]
    case 26 => [6, 30, 58, 86, 114]
    case 27 => [6, 34, 62, 90, 118]
    case 28 => [6, 26, 50, 74, 98, 122]
    case 29 => [6, 30, 54, 78, 102, 126]
    case 30 => [6, 26, 52, 78, 104, 130]
    case 31 => [6, 30, 56, 82, 108, 134]
    case 32 => [6, 34, 60, 86, 112, 138]
    case 33 => [6, 30, 58, 86, 114, 142]
    case 34 => [6, 34, 62, 90, 118, 146]
    case 35 => [6, 30, 54, 78, 102, 126, 150]
    case 36 => [6, 24, 50, 76, 102, 128, 154]
    case 37 => [6, 28, 54, 80, 106, 132, 158]
    case 38 => [6, 32, 58, 84, 110, 136, 162]
    case 39 => [6, 26, 54, 82, 110, 138, 166]
    case _ => [6, 30, 58, 86, 114, 142, 170]
  }

  lemma NoCentres()
    ensures AlignPositions(1) == Centres(1)
  {}

  /** Number and distance of the centres give them all. */
  lemma CentreSteps(version: nat, n: nat, step: nat)
    requires 2 <= version <= 40 && n == NumAlign(version) && step == AlignStep(version)
    ensures |AlignPositions(version)| == n
    ensures forall i | 0 <= i < n ::
      AlignPositions(version)[i] == if i == 0 then 6 else 4 * version + 10 - (n - 1 - i) * step
  {
    hide AlignStep, NumAlign;
  }

  lemma TwoCentres(version: nat)
    requires 2 <= version <= 6
    ensures AlignPositions(version) == Centres(version)
  {
    hide AlignPositions;
    CentreSteps(version, 2, AlignStep(version));
  }

  lemma ThreeSteps(version: nat)
    requires 7 <= version <= 13
    ensures NumAlign(version) == 3 && AlignStep(version) == 2 * version + 2
  {}

  lemma ThreeCentres(version: nat)
    requires 7 <= version <= 13
    ensures AlignPositions(version) == Centres(version)
  {
    hide AlignPositions, AlignStep, NumAlign;
    ThreeSteps(version);
    CentreSteps(version, 3, AlignStep(version));
  }

  lemma FourSteps(version: nat)
    requires 14 <= version <= 20
    ensures NumAlign(version) == 4
    ensures AlignStep(version) == [20, 22, 24, 24, 26, 28, 28][version - 14]
  {}

  lemma FourCentres(version: nat)
    requires 14 <= version <= 20
    ensures AlignPositions(version) == Centres(version)
  {
    hide AlignPositions, AlignStep, NumAlign;
    FourSteps(version);
    CentreSteps(version, 4, AlignStep(version));
  }

  lemma FiveSteps(version: nat)
    requires 21 <= version <= 27
    ensures NumAlign(version) == 5
    ensures AlignStep(version) == [22, 24, 24, 26, 26, 28, 28][version - 21]
  {}

  lemma FiveCentres(version: nat)
    requires 21 <= version <= 27
    ensures AlignPositions(version) == Centres(version)
  {
    hide AlignPositions, AlignStep, NumAlign;
    FiveSteps(version);
    CentreSteps(version, 5, AlignStep(version));
  }

  lemma SixSteps(version: nat)
    requires 28 <= version <= 34
    ensures NumAlign(version) == 6
    ensures AlignStep(version) == [24, 24, 26, 26, 26, 28, 28][version - 28]
  {}

  lemma SixCentres(version: nat)
    requires 28 <= version <= 34
    ensures AlignPositions(version) == Centres(version)
  {
    hide AlignPositions, AlignStep, NumAlign;
    SixSteps(version);
    CentreSteps(version, 6, AlignStep(version));
  }

  lemma SevenSteps(version: nat)
    requires 35 <= version <= 40
    ensures NumAlign(version) == 7
    ensures AlignStep(version) == [24, 26, 26, 26, 28, 28][version - 35]
  {}

  lemma SevenCentres(version: nat)
    requires 35 <= version <= 40
    ensures AlignPositions(version) == Centres(version)
  {
    hide AlignPositions, AlignStep, NumAlign;
    SevenSteps(version);
    CentreSteps(version, 7, AlignStep(version));
  }

  /** The positions computed for each version are the tabulated ones. */
  lemma CentresTabulated(version: nat)
    requires 1 <= version <= 40
    ensures AlignPositions(version) == Centres(version)
  {
    hide AlignPositions, Centres;
    if version == 1 {
      NoCentres();
    } else if version < 7 {
      TwoCentres(version);
    } else if version < 14 {
      ThreeCentres(version);
    } else if version < 21 {
      FourCentres(version);
    } else if version < 28 {
      FiveCentres(version);
    } else if version < 35 {
      SixCentres(version);
    } else {
      SevenCentres(version);
    }
  }

  lemma AlignmentRings(x: nat, y: nat)
    requires x < 5 && y < 5
    ensures var d := Max(Abs(x - 2), Abs(y - 2)); d <= 2 && (d != 1 <==> Dark(ALIGNMENT, x, y))
  {}

  lemma AlignmentFree(p: seq<nat>, i: nat, j: nat, size: nat, x: nat, y: nat, c: Cell, b: bool)
    requires size >= 21 && Spaced(p, size) && i < |p| && j < |p| && !Corner(i, j, |p| - 1) && x < 5 && y < 5
    requires c == Cell(p[i] - 2 + x, p[j] - 2 + y) && b == Dark(ALIGNMENT, x, y)
    ensures Inside(c, size) && FormatIndex(size, c) < 0 && (size >= 45 ==> VersionIndex(size, c) < 0)
    ensures Alignment(p[i], p[j]).Covers(size, c) && AlignmentsAgree(p, size, c, b)
  {
    hide Dark;
    AlignmentRings(x, y);
    forall s, t | 0 <= s < |p| && 0 <= t < |p| && !Corner(s, t, |p| - 1)
      ensures Agrees(Alignment(p[s], p[t]), size, c, b)
    {
      assert s < i ==> p[s] + 5 <= p[i];
      assert i < s ==> p[i] + 5 <= p[s];
      assert t < j ==> p[t] + 5 <= p[j];
      assert j < t ==> p[j] + 5 <= p[t];
    }
  }

  /** Every pair of tabulated centres, except in the finders' corners, shows an alignment pattern. */
  lemma AlignmentFigure(version: nat, ecl: Ecc, data: seq<Byte>, m: nat, i: nat, j: nat, x: nat, y: nat, c: Cell)
    requires 1 <= version <= 40 && |data| == DataCodewords(version, ecl) && m < 8 && x < 5 && y < 5
    requires i < NumAlign(version) && j < NumAlign(version) && !Corner(i, j, NumAlign(version) - 1)
    requires c == Cell(AlignPositions(version)[i] - 2 + x, AlignPositions(version)[j] - 2 + y)
    ensures Shows(Final(version, ecl, data, m), c, Dark(ALIGNMENT, x, y))
  {
    hide Shape.Covers, Shape.Colour, FunctionShapes, AlignRows, AlignPositions, SizeOf, Final, Get, FormatIndex,
      VersionIndex, DataCodewords, AlignmentsAgree, Spaced, Shows, Dark, Corner;
    var size, ss, p := SizeOf(version), FunctionShapes(version, ecl), AlignPositions(version);
    ShapeCount(version, ecl);
    OddSize(version);
    SevenSize(version);
    AlignSpaced(version);
    AlignmentFree(p, i, j, size, x, y, c, Dark(ALIGNMENT, x, y));
    var k := RowsHave(p, |p|, i, j);
    ShapeAt(version, ecl, 4 + k);
    Figure(version, ecl, data, m, c, 4 + k, Dark(ALIGNMENT, x, y));
  }

  // ---------- timing ----------

  lemma EvenPositions(version: nat, i: nat)
    requires 1 <= version <= 40 && i < NumAlign(version)
    ensures AlignPositions(version)[i] % 2 == 0
  {
    hide AlignPositions, Centres;
    CentresTabulated(version);
    EvenCentres(version, i);
  }

  lemma EvenCentres(version: nat, i: nat)
    requires 1 <= version <= 40 && i < |Centres(version)|
    ensures Centres(version)[i] % 2 == 0
  {}

  /** The cell at place k of the timing row or column. */
  function TimingCell(k: nat, across: bool): Cell {
    if across then Cell(k, 6) else Cell(6, k)
  }

  lemma TimingFree(p: seq<nat>, size: nat, k: nat, across: bool)
    requires size >= 21 && Spaced(p, size) && (forall i | 0 <= i < |p| :: p[i] % 2 == 0) && 8 <= k && k + 9 <= size
    ensures var c, b := TimingCell(k, across), k % 2 == 0;
      && Inside(c, size) && FormatIndex(size, c) < 0 && VersionIndex(size, c) < 0
      && Agrees(Timing, size, c, b) && Timing.Covers(size, c) && !Finder(3, 3).Covers(size, c)
      && !Finder(size - 4, 3).Covers(size, c) && !Finder(3, size - 4).Covers(size, c)
      && AlignmentsAgree(p, size, c, b)
  {
    var c, b := TimingCell(k, across), k % 2 == 0;
    forall s, t | 0 <= s < |p| && 0 <= t < |p| && !Corner(s, t, |p| - 1)
      ensures Agrees(Alignment(p[s], p[t]), size, c, b)
    {
      OnTiming(p[s], p[t], size, k, across);
    }
  }

  /** An alignment pattern on a timing line shows the same colours. */
  lemma OnTiming(x: nat, y: nat, size: nat, k: nat, across: bool)
    requires x % 2 == 0 && y % 2 == 0 && k < size && size >= 21 && (x == 6 || x >= 11) && (y == 6 || y >= 11)
    ensures Agrees(Alignment(x, y), size, TimingCell(k, across), k % 2 == 0)
  {}

  /** Between the finders the timing row and column alternate, dark at even places. */
  lemma TimingFigure(version: nat, ecl: Ecc, data: seq<Byte>, m: nat, k: nat, across: bool)
    requires 1 <= version <= 40 && |data| == DataCodewords(version, ecl) && m < 8 && 8 <= k && k + 9 <= SizeOf(version)
    ensures Shows(Final(version, ecl, data, m), TimingCell(k, across), k % 2 == 0)
  {
    hide Shape.Covers, Shape.Colour, FunctionShapes, AlignRows, AlignPositions, SizeOf, Final, Get, FormatIndex,
      VersionIndex, DataCodewords, AlignmentsAgree, Spaced, Shows, TimingCell, NumAlign;
    var size, ss, p := SizeOf(version), FunctionShapes(version, ecl), AlignPositions(version);
    ShapeCount(version, ecl);
    OddSize(version);
    AlignSpaced(version);
    forall i | 0 <= i < |p|
      ensures p[i] % 2 == 0
    {
      EvenPositions(version, i);
    }
    ShapeAt(version, ecl, 0);
    ShapeAt(version, ecl, 1);
    ShapeAt(version, ecl, 2);
    ShapeAt(version, ecl, 3);
    TimingFree(p, size, k, across);
    Figure(version, ecl, data, m, TimingCell(k, across), 0, k % 2 == 0);
  }

  // ---------- format and version words ----------

  /** The cells of the first copy of the format word, least significant bit first. */
  const FIRST_COPY := [
    Cell(8, 0), Cell(8, 1), Cell(8, 2), Cell(8, 3), Cell(8, 4), Cell(8, 5), Cell(8, 7), Cell(8, 8),
    Cell(7, 8), Cell(5, 8), Cell(4, 8), Cell(3, 8), Cell(2, 8), Cell(1, 8), Cell(0, 8)
  ]

  /** And of the second. */
  function SecondCopy(size: nat): (cells: seq<Cell>)
    requires size >= 21
    ensures |cells| == 15
  {
    [
      Cell(size - 1, 8), Cell(size - 2, 8), Cell(size - 3, 8), Cell(size - 4, 8),
      Cell(size - 5, 8), Cell(size - 6, 8), Cell(size - 7, 8), Cell(size - 8, 8),
      Cell(8, size - 7), Cell(8, size - 6), Cell(8, size - 5), Cell(8, size - 4),
      Cell(8, size - 3), Cell(8, size - 2), Cell(8, size - 1)
    ]
  }

  lemma CopyCells(size: nat, i: nat)
    requires size >= 21 && i < 15
    ensures Inside(FIRST_COPY[i], size) && FormatIndex(size, FIRST_COPY[i]) == i
    ensures Inside(SecondCopy(size)[i], size) && FormatIndex(size, SecondCopy(size)[i]) == i
  {}

  /** Both copies carry the whole word, and the module above the second copy's column is dark. */
  lemma FormatFigure(g: Grid, f: Grid, ecl: Ecc, m: nat, i: nat)
    requires Square(g, |g|) && Square(f, |g|) && |g| >= 21 && m < 8 && i < 15
    ensures Shows(Finished(g, f, ecl, m), FIRST_COPY[i], FormatWord(ecl, m)[14 - i])
    ensures Shows(Finished(g, f, ecl, m), SecondCopy(|g|)[i], FormatWord(ecl, m)[14 - i])
    ensures Shows(Finished(g, f, ecl, m), Cell(8, |g| - 8), true)
  {
    hide FormatWord, Masked, FormatIndex, SecondCopy, Shape.Covers, Shape.Colour;
    CopyCells(|g|, i);
    DarkCell(|g|);
    FormatCell(FormatWord(ecl, m), |g|, FIRST_COPY[i], i);
    FormatCell(FormatWord(ecl, m), |g|, SecondCopy(|g|)[i], i);
    FormatCell(FormatWord(ecl, m), |g|, Cell(8, |g| - 8), 15);
  }

  lemma DarkCell(size: nat)
    requires size >= 21
    ensures FormatIndex(size, Cell(8, size - 8)) == 15
  {}

  /** From version 7 on both copies carry the version word, three to a line. */
  lemma VersionFigure(version: nat, ecl: Ecc, data: seq<Byte>, m: nat, a: nat, b: nat)
    requires 7 <= version <= 40 && |data| == DataCodewords(version, ecl) && m < 8 && a < 3 && b < 6
    ensures SizeOf(version) >= 45
    ensures Shows(Final(version, ecl, data, m), Cell(SizeOf(version) - 11 + a, b), VersionWord(version)[17 - 3 * b - a])
    ensures Shows(Final(version, ecl, data, m), Cell(b, SizeOf(version) - 11 + a), VersionWord(version)[17 - 3 * b - a])
  {
    hide Shape.Covers, Shape.Colour, FunctionShapes, AlignRows, AlignPositions, SizeOf, Final, Get, FormatIndex,
      VersionWord, DataCodewords, Shows, NumAlign;
    var size, ss := SizeOf(version), FunctionShapes(version, ecl);
    OddSize(version);
    SevenSize(version);
    ShapeCount(version, ecl);
    ShapeAt(version, ecl, |ss| - 1);
    VersionCell(VersionWord(version), size, 3 * b + a);
    VersionPlaces(size, a, b);
    LastShape(version, ecl, data, m, Cell(size - 11 + a, b));
    LastShape(version, ecl, data, m, Cell(b, size - 11 + a));
  }

  lemma VersionPlaces(size: nat, a: nat, b: nat)
    requires size >= 45 && a < 3 && b < 6
    ensures (3 * b + a) / 3 == b && (3 * b + a) % 3 == a && 3 * b + a < 18
    ensures FormatIndex(size, Cell(size - 11 + a, b)) < 0 && FormatIndex(size, Cell(b, size - 11 + a)) < 0
  {}

  /** Nothing is drawn over the last shape. */
  lemma LastShape(version: nat, ecl: Ecc, data: seq<Byte>, m: nat, c: Cell)
    requires 1 <= version <= 40 && |data| == DataCodewords(version, ecl) && m < 8 && Inside(c, SizeOf(version))
    requires FunctionShapes(version, ecl) != []
    requires var ss := FunctionShapes(version, ecl); ss[|ss| - 1].Covers(SizeOf(version), c)
    requires FormatIndex(SizeOf(version), c) < 0
    ensures var ss := FunctionShapes(version, ecl);
      Shows(Final(version, ecl, data, m), c, ss[|ss| - 1].Colour(SizeOf(version), c))
  {
    hide Shape.Covers, Shape.Colour, FunctionShapes, SizeOf, Final, MarkAll, Get, FormatIndex, DataCodewords, DrawAll;
    var size, ss := SizeOf(version), FunctionShapes(version, ecl);
    DrawnLast(Blank(size), ss, |ss| - 1, c, ss[|ss| - 1].Colour(size, c));
    MarkAllCovers(Blank(size), ss, c);
    FunctionMapAnyLevel(version, ecl);
    FunctionKept(version, ecl, data, m, c);
  }
}
