/** A QR symbol under construction: the grid of modules, the map of function modules, and the
    routines that draw on them. */
module Symbol {
  import opened Basics
  import opened BitStream
  import opened Counting
  import opened GaloisField
  import opened DataStream
  import opened Grids
  import opened Interleave
  import opened Masking
  import opened Patterns
  import opened Penalty
  import opened Tables
  import opened Wrappers
  import opened Zigzag

  class QrCode {
    var version: nat
    var size: nat
    var errorCorrectionLevel: Ecc
    var mask: nat
    var modules: Grid
    var isFunction: Grid

    ghost predicate Valid()
      reads this
    {
      && 1 <= version <= 40 && size == SizeOf(version)
      && Square(modules, size) && Square(isFunction, size)
    }

    method SetFunctionModule(x: nat, y: nat, isBlack: bool)
      requires Valid() && x < size && y < size
      modifies this`modules, this`isFunction
      ensures Valid()
      ensures modules == Set(old(modules), Cell(x, y), isBlack)
      ensures isFunction == Set(old(isFunction), Cell(x, y), true)
    {
      modules := modules[y := modules[y][x := isBlack]];
      isFunction := isFunction[y := isFunction[y][x := true]];
    }

    /** The shape s has been drawn on top of the grids g and f. */
    ghost predicate Drawn(g: Grid, f: Grid, s: Shape)
      reads this
      requires Square(g, size) && Square(f, size) && s.Valid(size)
    {
      modules == Draw(g, s) && isFunction == Mark(f, s)
    }

    /** The cells that satisfy done have been drawn on top of the grids g and f. */
    ghost predicate PartDrawn(g: Grid, f: Grid, s: Shape, done: Cell -> bool)
      reads this
      requires Valid() && Square(g, size) && Square(f, size) && s.Valid(size)
    {
      forall c | Inside(c, size) ::
        if s.Covers(size, c) && done(c) then Get(modules, c) == s.Colour(size, c) && Get(isFunction, c)
        else Get(modules, c) == Get(g, c) && Get(isFunction, c) == Get(f, c)
    }

    method DrawTiming()
      requires Valid()
      modifies this`modules, this`isFunction
      ensures Valid() && Drawn(old(modules), old(isFunction), Timing)
    {
      ghost var g, f := modules, isFunction;
      for i := 0 to size
        invariant Valid()
        invariant PartDrawn(g, f, Timing, (c: Cell) => if c.x == 6 then c.y < i else c.x < i)
      {
        SetFunctionModule(6, i, i % 2 == 0);
        SetFunctionModule(i, 6, i % 2 == 0);
      }
      SameGrid(modules, Draw(g, Timing), size);
      SameGrid(isFunction, Mark(f, Timing), size);
    }

    method DrawFinderPattern(x: nat, y: nat)
      requires Valid() && x < size && y < size
      modifies this`modules, this`isFunction
      ensures Valid() && Drawn(old(modules), old(isFunction), Finder(x, y))
    {
      hide Draw, Mark, Set, BoxDrawn, Shape.Covers, Shape.Colour;
      ghost var g, f, s := modules, isFunction, Finder(x, y);
      assert BoxDrawn(modules, isFunction, g, f, s, y - 4, x - 4) by { BoxStart(g, f, s, x, y, 4); }
      for dy := -4 to 5
        invariant Valid()
        invariant BoxDrawn(modules, isFunction, g, f, s, y + dy, x - 4)
      {
        for dx := -4 to 5
          invariant Valid()
          invariant BoxDrawn(modules, isFunction, g, f, s, y + dy, x + dx)
        {
          BoxNext(modules, isFunction, g, f, s, x, y, 4, dy, dx);
          var dist := Max(Abs(dx), Abs(dy));
          var xx, yy := x + dx, y + dy;
          if 0 <= xx < size && 0 <= yy < size {
            SetFunctionModule(xx, yy, dist != 2 && dist != 4);
          }
        }
        BoxNextRow(modules, isFunction, g, f, s, x, y, 4, dy);
      }
      BoxEnd(modules, isFunction, g, f, s, x, y, 4);
    }

    method DrawAlignmentPattern(x: nat, y: nat)
      requires Valid() && Alignment(x, y).Valid(size)
      modifies this`modules, this`isFunction
      ensures Valid() && Drawn(old(modules), old(isFunction), Alignment(x, y))
    {
      hide Draw, Mark, Set, BoxDrawn, Shape.Covers, Shape.Colour;
      ghost var g, f, s := modules, isFunction, Alignment(x, y);
      assert BoxDrawn(modules, isFunction, g, f, s, y - 2, x - 2) by { BoxStart(g, f, s, x, y, 2); }
      for dy := -2 to 3
        invariant Valid()
        invariant BoxDrawn(modules, isFunction, g, f, s, y + dy, x - 2)
      {
        for dx := -2 to 3
          invariant Valid()
          invariant BoxDrawn(modules, isFunction, g, f, s, y + dy, x + dx)
        {
          BoxNext(modules, isFunction, g, f, s, x, y, 2, dy, dx);
          SetFunctionModule(x + dx, y + dy, Max(Abs(dx), Abs(dy)) != 1);
        }
        BoxNextRow(modules, isFunction, g, f, s, x, y, 2, dy);
      }
      BoxEnd(modules, isFunction, g, f, s, x, y, 2);
    }

    /** Draws both copies of the format information for a mask. */
    method DrawFormatBits(msk: nat)
      requires Valid() && msk < 8
      modifies this`modules, this`isFunction
      ensures Valid() && Drawn(old(modules), old(isFunction), Format(FormatWord(errorCorrectionLevel, msk)))
    {
      hide Draw, Mark, CellsDrawn, FormatWord, Shape.Covers;
      var bits := FormatBitsOf(errorCorrectionLevel, msk);
      ghost var g, f, s := modules, isFunction, Format(bits);
      assert CellsDrawn(modules, isFunction, g, f, s, {}) by { CellsStart(g, f, s); }
      ghost var first := DrawFirstCopy(bits, g, f);
      ghost var second := DrawSecondCopy(bits, g, f, first);
      FormatCells(bits, size, second);
      CellsEnd(modules, isFunction, g, f, s, second);
    }

    /** Draws the module of format bit i at (x, y); index 15 stands for the fixed black module. */
    method DrawFormatModule(x: nat, y: nat, i: nat, bits: seq<bool>, ghost g: Grid, ghost f: Grid,
                            ghost done: set<Cell>)
      requires Valid() && |bits| == 15 && Square(g, size) && Square(f, size)
      requires Inside(Cell(x, y), size) && FormatIndex(size, Cell(x, y)) == i
      requires CellsDrawn(modules, isFunction, g, f, Format(bits), done)
      modifies this`modules, this`isFunction
      ensures Valid() && CellsDrawn(modules, isFunction, g, f, Format(bits), done + {Cell(x, y)})
    {
      hide Set, CellsDrawn, Shape.Covers, Shape.Colour;
      FormatCell(bits, size, Cell(x, y), i);
      CellsNext(modules, isFunction, g, f, Format(bits), done, Cell(x, y));
      SetFunctionModule(x, y, i == 15 || bits[14 - i]);
    }

    /** The copy around the top left finder. */
    method DrawFirstCopy(bits: seq<bool>, ghost g: Grid, ghost f: Grid) returns (ghost done: set<Cell>)
      requires Valid() && |bits| == 15 && Square(g, size) && Square(f, size)
      requires CellsDrawn(modules, isFunction, g, f, Format(bits), {})
      modifies this`modules, this`isFunction
      ensures Valid() && CellsDrawn(modules, isFunction, g, f, Format(bits), done)
      ensures Cell(8, 7) in done && Cell(8, 8) in done && Cell(7, 8) in done
      ensures forall k: nat | k < 6 :: Cell(8, k) in done && Cell(k, 8) in done
    {
      hide Set, CellsDrawn, Shape.Covers, Shape.Colour;
      ghost var s := Format(bits);
      done := {};
      for i := 0 to 6
        invariant Valid() && CellsDrawn(modules, isFunction, g, f, s, done)
        invariant forall k: nat | k < i :: Cell(8, k) in done
      {
        DrawFormatModule(8, i, i, bits, g, f, done);
        done := done + {Cell(8, i)};
      }
      DrawFormatModule(8, 7, 6, bits, g, f, done);
      done := done + {Cell(8, 7)};
      DrawFormatModule(8, 8, 7, bits, g, f, done);
      done := done + {Cell(8, 8)};
      DrawFormatModule(7, 8, 8, bits, g, f, done);
      done := done + {Cell(7, 8)};
      ghost var corner := done;
      for i := 9 to 15
        invariant Valid() && CellsDrawn(modules, isFunction, g, f, s, done) && corner <= done
        invariant forall k: nat | 14 - i < k <= 5 :: Cell(k, 8) in done
      {
        DrawFormatModule(14 - i, 8, i, bits, g, f, done);
        done := done + {Cell(14 - i, 8)};
      }
    }

    /** The copy beside the other two finders, and the module that is always black. */
    method DrawSecondCopy(bits: seq<bool>, ghost g: Grid, ghost f: Grid, ghost first: set<Cell>)
      returns (ghost done: set<Cell>)
      requires Valid() && |bits| == 15 && Square(g, size) && Square(f, size)
      requires CellsDrawn(modules, isFunction, g, f, Format(bits), first)
      modifies this`modules, this`isFunction
      ensures Valid() && CellsDrawn(modules, isFunction, g, f, Format(bits), done) && first <= done
      ensures forall k: nat | size - 8 <= k < size :: Cell(k, 8) in done && Cell(8, k) in done
    {
      hide Set, CellsDrawn, Shape.Covers, Shape.Colour;
      ghost var s := Format(bits);
      done := first;
      for i := 0 to 8
        invariant Valid() && CellsDrawn(modules, isFunction, g, f, s, done) && first <= done
        invariant forall k: nat | size - 1 - i < k < size :: Cell(k, 8) in done
      {
        DrawFormatModule(size - 1 - i, 8, i, bits, g, f, done);
        done := done + {Cell(size - 1 - i, 8)};
      }
      ghost var right := done;
      for i := 8 to 15
        invariant Valid() && CellsDrawn(modules, isFunction, g, f, s, done) && right <= done
        invariant forall k: nat | size - 7 <= k < size - 15 + i :: Cell(8, k) in done
      {
        DrawFormatModule(8, size - 15 + i, i, bits, g, f, done);
        done := done + {Cell(8, size - 15 + i)};
      }
      DrawFormatModule(8, size - 8, 15, bits, g, f, done);
      done := done + {Cell(8, size - 8)};
    }

    /** Draws both copies of the version information, from version 7 on. */
    method DrawVersion()
      requires Valid()
      modifies this`modules, this`isFunction
      ensures Valid()
      ensures if version < 7 then modules == old(modules) && isFunction == old(isFunction)
              else Drawn(old(modules), old(isFunction), VersionInfo(VersionWord(version)))
    {
      hide VersionWord, Draw, Mark, Set, CellsDrawn, Shape.Covers, Shape.Colour;
      if version < 7 {
        return;
      }
      var bits := VersionBitsOf(version);
      ghost var g, f, s := modules, isFunction, VersionInfo(bits);
      ghost var done: set<Cell> := {};
      assert CellsDrawn(modules, isFunction, g, f, s, done) by { CellsStart(g, f, s); }
      for i := 0 to 18
        invariant Valid() && CellsDrawn(modules, isFunction, g, f, s, done)
        invariant forall k: nat | k < i :: VersionPair(size, k) <= done
      {
        var a := size - 11 + i % 3;
        var b := i / 3;
        VersionCell(bits, size, i);
        CellsNext(modules, isFunction, g, f, s, done, Cell(a, b));
        SetFunctionModule(a, b, bits[17 - i]);
        CellsNext(modules, isFunction, g, f, s, done + {Cell(a, b)}, Cell(b, a));
        SetFunctionModule(b, a, bits[17 - i]);
        done := done + {Cell(a, b)} + {Cell(b, a)};
      }
      VersionCells(bits, size, done);
      CellsEnd(modules, isFunction, g, f, s, done);
    }

    method GetAlignmentPatternPositions() returns (result: seq<nat>)
      requires Valid()
      ensures result == AlignPositions(version)
    {
      hide AlignStep;
      if version == 1 {
        return [];
      }
      var numAlign := version / 7 + 2;
      var step := AlignStep(version);
      ghost var p := AlignPositions(version);
      result := [];
      var pos: int := size - 7;
      for i := 0 to numAlign - 1
        invariant pos == size - 7 - i * step
        invariant result == p[numAlign - i..]
      {
        assert AlignPosition(version, numAlign - 1 - i) == pos;
        assert p[numAlign - 1 - i] == pos;
        result := [pos] + result;
        assert (i + 1) * step == i * step + step;
        pos := pos - step;
      }
      assert p[0] == 6;
      result := [6] + result;
    }

    /** The shapes ss, in order, have been drawn on top of the grids g and f. */
    ghost predicate DrawnAll(g: Grid, f: Grid, ss: seq<Shape>)
      reads this
      requires Square(g, size) && Square(f, size)
    {
      AllShapes(ss, size) && modules == DrawAll(g, ss) && isFunction == MarkAll(f, ss)
    }

    /** Draws and marks all function modules. */
    method DrawFunctionPatterns()
      requires Valid()
      modifies this`modules, this`isFunction
      ensures Valid() && DrawnAll(old(modules), old(isFunction), FunctionShapes(version, errorCorrectionLevel))
    {
      hide Draw, Mark, DrawAll, MarkAll, FormatWord, VersionWord, FixedShapes;
      ghost var g, f := modules, isFunction;
      ghost var ss := DrawTimingAndFinders();
      ss := DrawAlignmentPatterns(g, f, ss);
      FixedShapesAre(version, ss);
      DrawFormatBits(0);
      DrawnOneMore(g, f, ss, Format(FormatWord(errorCorrectionLevel, 0)));
      ss := ss + [Format(FormatWord(errorCorrectionLevel, 0))];
      assert DrawnAll(g, f, ss);
      DrawVersion();
      if version >= 7 {
        DrawnOneMore(g, f, ss, VersionInfo(VersionWord(version)));
        ss := ss + [VersionInfo(VersionWord(version))];
      }
      assert ss == FunctionShapes(version, errorCorrectionLevel);
    }

    /** Draws the timing patterns, then the three finders over them. */
    method DrawTimingAndFinders() returns (ghost ss: seq<Shape>)
      requires Valid()
      modifies this`modules, this`isFunction
      ensures Valid() && DrawnAll(old(modules), old(isFunction), ss)
      ensures ss == [Timing, Finder(3, 3), Finder(size - 4, 3), Finder(3, size - 4)]
    {
      hide Draw, Mark, DrawAll, MarkAll;
      ghost var g, f := modules, isFunction;
      DrawnNone(g, f);
      ss := [];
      DrawTiming();
      DrawnOneMore(g, f, ss, Timing);
      ss := ss + [Timing];
      DrawFinderPattern(3, 3);
      DrawnOneMore(g, f, ss, Finder(3, 3));
      ss := ss + [Finder(3, 3)];
      DrawFinderPattern(size - 4, 3);
      DrawnOneMore(g, f, ss, Finder(size - 4, 3));
      ss := ss + [Finder(size - 4, 3)];
      DrawFinderPattern(3, size - 4);
      DrawnOneMore(g, f, ss, Finder(3, size - 4));
      ss := ss + [Finder(3, size - 4)];
    }

    /** Draws the alignment patterns except where the three finders are. */
    method DrawAlignmentPatterns(ghost g: Grid, ghost f: Grid, ghost before: seq<Shape>) returns (ghost ss: seq<Shape>)
      requires Valid() && Square(g, size) && Square(f, size) && DrawnAll(g, f, before)
      modifies this`modules, this`isFunction
      ensures Valid() && DrawnAll(g, f, ss)
      ensures var p := AlignPositions(version); ss == before + AlignRows(p, |p|)
    {
      hide Draw, Mark, DrawAll, MarkAll, AlignAt, AlignPosition, NumAlign, AlignPositions, AlignRow, AlignRows;
      var alignPatPos := GetAlignmentPatternPositions();
      var numAlign := |alignPatPos|;
      ss := before;
      AlignRowsStart(alignPatPos);
      for i := 0 to numAlign
        invariant Valid() && DrawnAll(g, f, ss) && ss == before + AlignRows(alignPatPos, i)
      {
        ghost var rows := ss;
        AlignRowsNext(alignPatPos, i);
        for j := 0 to numAlign
          invariant Valid() && DrawnAll(g, f, ss) && ss == rows + AlignRow(alignPatPos, i, j)
        {
          AlignRowNext(alignPatPos, i, j);
          if !((i == 0 && j == 0) || (i == 0 && j == numAlign - 1) || (i == numAlign - 1 && j == 0)) {
            var x, y := alignPatPos[i], alignPatPos[j];
            assert x == AlignAt(version, i) && y == AlignAt(version, j);
            DrawAlignmentPattern(x, y);
            DrawnOneMore(g, f, ss, Alignment(x, y));
            ss := ss + [Alignment(x, y)];
          }
        }
      }
    }

    /** Places the codewords along the zigzag scan; fails when they do not all find a free module. */
    method DrawCodewords(data: seq<Byte>) returns (r: Result<()>)
      requires Valid()
      modifies this`modules
      ensures Valid()
      ensures |data| != RawCodewords(version) ==> r == Fail(InvalidArgument) && modules == old(modules)
      ensures |data| == RawCodewords(version) ==> Placed(old(modules), data, r)
    {
      hide Scan, RawDataModules, RawCodewords, Place, Unplaced, Read, ScanFrom, PairFrom, SizeOf, Fits, Placing,
        OnChain;
      if |data| != RawCodewords(version) {
        return Fail(InvalidArgument);
      }
      ghost var g, bits := modules, Unpack(data);
      PlacingStart(data);
      ghost var rest := Scan(size);
      ScanStarts(version);
      var i := 0;
      var right: int := size - 1;
      while right >= 1
        invariant Valid() && right < size && OnChain(right)
        invariant rest == ScanFrom(size, right)
        invariant Placing(g, Scan(size), bits, rest, i)
      {
        ScanNext(size, right);
        if right == 6 {
          right := 5;
        }
        rest := ScanFrom(size, right - 2);
        i := DrawPair(right, data, i, g, Scan(size), rest);
        right := right - 2;
      }
      ScanOver(size, right);
      PlacingEnd(g, data, i);
      if i != |data| * 8 {
        return Fail(LogicError);
      }
      return Ok(());
    }

    lemma PlacingStart(data: seq<Byte>)
      requires Valid()
      ensures Placing(modules, Scan(size), Unpack(data), Scan(size), 0)
    {
      hide Scan, Place, Unplaced;
      OddSize(version);
      ScanInside(size);
      assert Unpack(data)[0..] == Unpack(data);
    }

    lemma PlacingEnd(g: Grid, data: seq<Byte>, i: nat)
      requires Valid() && Placing(g, Scan(size), Unpack(data), [], i)
      ensures Placed(g, data, if i == 8 * |data| then Ok(()) else Fail(LogicError))
    {
      hide Scan, Read;
      var bits := Unpack(data);
      UnplacedZero(g, isFunction, Scan(size), |bits|);
      PlaceDone(modules, isFunction, [], bits[i..]);
    }

    /** The whole effect of DrawCodewords: the bits along the scan, and success exactly when they
        all fit. */
    ghost predicate Placed(before: Grid, data: seq<Byte>, r: Result<()>)
      reads this
    {
      && Fits(before, isFunction, Scan(size))
      && r == (if 8 * |data| <= |Read(before, isFunction, Scan(size))| then Ok(()) else Fail(LogicError))
      && modules == Place(before, isFunction, Scan(size), Unpack(data))
    }

    /** Visits one pair of columns. */
    method DrawPair(right: nat, data: seq<Byte>, start: nat, ghost g: Grid, ghost cells: seq<Cell>,
                    ghost later: seq<Cell>)
      returns (i: nat)
      requires Valid() && 1 <= right < size
      requires Placing(g, cells, Unpack(data), PairFrom(size, right, 0) + later, start)
      modifies this`modules
      ensures Valid() && Placing(g, cells, Unpack(data), later, i)
    {
      hide PairFrom, Placing;
      i := start;
      ghost var bits := Unpack(data);
      for vert := 0 to size
        invariant Valid() && Placing(g, cells, bits, PairFrom(size, right, vert) + later, i)
      {
        PairNext(size, right, vert);
        ghost var y0 := RowAt(size, right, vert);
        ghost var below := PairFrom(size, right, vert + 1) + later;
        ghost var pair := [Cell(right, y0), Cell(right - 1, y0)];
        assert PairFrom(size, right, vert) + later == pair + below;
        for j := 0 to 2
          invariant Valid() && Placing(g, cells, bits, pair[j..] + below, i)
        {
          var x := right - j;
          var upward := (right + 1) / 2 % 2 == 0;
          var y := if upward then size - 1 - vert else vert;
          assert pair[j..] + below == [Cell(x, y)] + (pair[j + 1..] + below);
          i := PlaceModule(x, y, data, i, g, cells, pair[j + 1..] + below);
        }
        assert pair[2..] + below == below;
      }
      PairDone(size, right);
      assert [] + later == later;
    }

    /** Visits one cell: a free module takes the next bit while there is one. */
    method PlaceModule(x: nat, y: nat, data: seq<Byte>, i: nat, ghost g: Grid, ghost cells: seq<Cell>,
                       ghost rest: seq<Cell>)
      returns (next: nat)
      requires Valid() && Inside(Cell(x, y), size)
      requires Placing(g, cells, Unpack(data), [Cell(x, y)] + rest, i)
      modifies this`modules
      ensures Valid() && Placing(g, cells, Unpack(data), rest, next)
    {
      hide Place, Unplaced, BitAt, Fits;
      ghost var c, bits := Cell(x, y), Unpack(data);
      if !isFunction[y][x] && i < |data| * 8 {
        PlaceBit(modules, isFunction, c, rest, bits[i..]);
        assert bits[i..][0] == BitAt(data[i / 8], i % 8) && bits[i..][1..] == bits[i + 1..];
        FitsAfterSet(modules, isFunction, rest, c, BitAt(data[i / 8], i % 8));
        modules := modules[y := modules[y][x := BitAt(data[i / 8], i % 8)]];
        next := i + 1;
      } else {
        PlaceSkip(modules, isFunction, c, rest, bits[i..]);
        next := i;
      }
    }

    /** Placing the bits from i on along rest completes placing all bits along all cells. */
    ghost predicate Placing(g: Grid, cells: seq<Cell>, bits: seq<bool>, rest: seq<Cell>, i: nat)
      reads this
    {
      && i <= |bits| && Fits(g, isFunction, cells) && Fits(modules, isFunction, rest) && |modules| == |g|
      && Place(modules, isFunction, rest, bits[i..]) == Place(g, isFunction, cells, bits)
      && Unplaced(isFunction, rest, |bits| - i) == Unplaced(isFunction, cells, |bits|)
    }

    /** Inverts the codeword modules that the mask pattern selects. */
    method ApplyMask(msk: int) returns (r: Result<()>)
      requires Valid()
      modifies this`modules
      ensures Valid() && r == if 0 <= msk <= 7 then Ok(()) else Fail(DomainError)
      ensures modules == if r.Ok? then Masked(old(modules), isFunction, msk) else old(modules)
    {
      hide Inverts, Masked;
      if msk < 0 || msk > 7 {
        return Fail(DomainError);
      }
      ghost var g := modules;
      for y := 0 to size
        invariant Valid() && MaskedUpTo(g, msk, y, 0)
      {
        for x := 0 to size
          invariant Valid() && MaskedUpTo(g, msk, y, x)
        {
          var invert := Inverts(msk, x, y);
          MaskModule(x, y, invert && !isFunction[y][x]);
        }
      }
      SameGrid(modules, Masked(g, isFunction, msk), size);
      r := Ok(());
    }

    method MaskModule(x: nat, y: nat, invert: bool)
      requires Valid() && x < size && y < size
      modifies this`modules
      ensures Valid() && modules == Set(old(modules), Cell(x, y), old(modules)[y][x] != invert)
    {
      modules := modules[y := modules[y][x := modules[y][x] != invert]];
    }

    /** The rows above y, and row y left of x, are masked. */
    ghost predicate MaskedUpTo(g: Grid, msk: nat, y: nat, x: nat)
      reads this
      requires Valid() && Square(g, size) && msk < 8
    {
      forall c | Inside(c, size) :: Get(modules, c) ==
        if c.y < y || (c.y == y && c.x < x) then Get(g, c) != (Inverts(msk, c.x, c.y) && !Get(isFunction, c))
        else Get(g, c)
    }

    constructor (ver: nat, ecl: Ecc)
      requires 1 <= ver <= 40
      ensures Valid() && version == ver && errorCorrectionLevel == ecl
      ensures modules == Blank(size) && isFunction == Blank(size)
    {
      version, size, errorCorrectionLevel, mask := ver, SizeOf(ver), ecl, 0;
      modules, isFunction := Blank(SizeOf(ver)), Blank(SizeOf(ver));
    }

    /** Tries all eight masks and returns the lowest-numbered one of least penalty.  On return the
        codeword modules are as they were; only the format modules differ. */
    method ChooseMask() returns (msk: int)
      requires Valid() && AllFormatsMarked()
      modifies this`modules, this`isFunction
      ensures Valid() && isFunction == old(isFunction)
      ensures 0 <= msk < 8 && IsBest(old(modules), isFunction, errorCorrectionLevel, msk, 8)
      ensures exists w :: |w| == 15 && modules == Draw(old(modules), Format(w))
    {
      hide Masked, Draw, Mark, Marked, FormatWord, PenaltyScore, Finished, IsBest, SizeOf;
      OddSize(version);
      ghost var g, f, ecl := modules, isFunction, errorCorrectionLevel;
      var minPenalty := 0x7FFF_FFFF;
      msk := -1;
      ghost var w: seq<bool> := [];
      for i := 0 to 8
        invariant Valid() && isFunction == f && AllFormatsMarked()
        invariant i == 0 ==> modules == g && msk == -1 && minPenalty == 0x7FFF_FFFF
        invariant i > 0 ==> 0 <= msk < i && IsBest(g, f, ecl, msk, i) && minPenalty == Score(g, f, ecl, msk)
        invariant i > 0 ==> |w| == 15 && modules == Draw(g, Format(w))
      {
        ghost var next := FormatWord(ecl, i);
        if i == 0 {
          FirstTrial(g, f, ecl);
        } else {
          TrialRestores(g, f, ecl, w, i);
        }
        var applied := ApplyMask(i);
        DrawFormatBits(i);
        RemarkFormat(f, next);
        assert modules == Finished(g, f, ecl, i) && isFunction == f;
        var penalty := GetPenaltyScore(modules);
        ScoreBound(modules);
        BestNext(g, f, ecl, if i == 0 then 0 else msk, i);
        if penalty < minPenalty {
          msk := i;
          minPenalty := penalty;
        }
        applied := ApplyMask(i);
        w := next;
      }
    }

    ghost predicate AllFormatsMarked()
      reads this
    {
      Square(isFunction, |isFunction|) && forall w | |w| == 15 :: Marked(isFunction, Format(w))
    }

    /** Builds the symbol for the data codewords, with the given mask or, for -1, the best one. */
    static method Create(ver: int, ecl: Ecc, dataCodewords: seq<Byte>, msk: int) returns (r: Result<QrCode>)
      ensures r.Fail? ==> CreateError(ver, ecl, |dataCodewords|, msk) == Some(r.error)
      ensures r.Ok? ==> CreateError(ver, ecl, |dataCodewords|, msk) == None
      ensures r.Ok? ==> fresh(r.value) && r.value.IsSymbol(ver, ecl, dataCodewords, msk)
    {
      hide FunctionMap, FunctionShapes, DrawAll, MarkAll, RawDataModules, Place, Read, Draw, Masked, FormatWord, Scan,
        Finished;
      hide Layout.Valid, Layout.Offset, AllCodewords, Parameters, SizeOf, IsBest, Marked;
      if ver < MIN_VERSION || ver > MAX_VERSION {
        return Fail(DomainError);
      }
      if msk < -1 || msk > 7 {
        return Fail(DomainError);
      }
      var q := new QrCode(ver, ecl);
      q.DrawFunctionPatterns();
      FunctionMapAnyLevel(ver, ecl);
      var l := LayoutOf(ver, ecl);
      var allCodewords := AddEccAndInterleave(dataCodewords, l);
      if allCodewords.Fail? {
        return Fail(allCodewords.error);
      }
      var drawn := q.DrawCodewords(allCodewords.value);
      FreeModulesExact(ver, BaseGrid(ver, ecl));
      assert drawn.Ok?;   // the codewords have the right number and find enough free modules
      FormatsMarked(ver);
      q.SettleMask(msk);
      q.isFunction := [];
      r := Ok(q);
    }

    /** Settles the mask, the given one or for -1 the best, and finishes the symbol with it. */
    method SettleMask(msk: int)
      requires Valid() && AllFormatsMarked() && -1 <= msk <= 7
      modifies this`modules, this`isFunction, this`mask
      ensures Valid() && mask < 8 && modules == Finished(old(modules), old(isFunction), errorCorrectionLevel, mask)
      ensures if msk == -1 then IsBest(old(modules), old(isFunction), errorCorrectionLevel, mask, 8) else mask == msk
    {
      hide Draw, Masked, FormatWord, Mark, Marked, SizeOf, IsBest, Finished;
      var chosen := msk;
      ghost var g, f, ecl := modules, isFunction, errorCorrectionLevel;
      OddSize(version);
      if msk == -1 {
        chosen := ChooseMask();
      }
      mask := chosen;
      var applied := ApplyMask(chosen);
      DrawFormatBits(chosen);
      FinishTrial(g, f, ecl, chosen);
    }

    /** What Create promises about its result: the grid is the one that the mask recorded gives,
        and the mask is the one asked for or the best of the eight. */
    ghost predicate IsSymbol(ver: int, ecl: Ecc, data: seq<Byte>, msk: int)
      reads this
    {
      && 1 <= ver <= 40 && |data| == DataCodewords(ver, ecl)
      && version == ver && size == SizeOf(ver) && errorCorrectionLevel == ecl && mask < 8
      && modules == Finished(Unmasked(ver, ecl, data), FunctionMap(ver), ecl, mask)
      && (if msk == -1 then IsBest(Unmasked(ver, ecl, data), FunctionMap(ver), ecl, mask, 8) else mask == msk)
    }
  }

  // ---------- boxes drawn row by row ----------

  /** On top of g and f, the cells of s above row, and those of row left of col, have been drawn. */
  ghost predicate BoxDrawn(m: Grid, fn: Grid, g: Grid, f: Grid, s: Shape, row: int, col: int)
    requires Square(m, |m|) && Square(fn, |m|) && Square(g, |m|) && Square(f, |m|) && s.Valid(|m|)
  {
    forall c | Inside(c, |m|) ::
      if s.Covers(|m|, c) && (c.y < row || (c.y == row && c.x < col))
      then Get(m, c) == s.Colour(|m|, c) && Get(fn, c)
      else Get(m, c) == Get(g, c) && Get(fn, c) == Get(f, c)
  }

  /** The boxes of the source: the shape is the square of the given radius around (x, y). */
  ghost predicate IsBox(s: Shape, x: nat, y: nat, radius: nat) {
    (s == Finder(x, y) && radius == 4) || (s == Alignment(x, y) && radius == 2)
  }

  lemma BoxStart(g: Grid, f: Grid, s: Shape, x: nat, y: nat, radius: nat)
    requires Square(g, |g|) && Square(f, |g|) && s.Valid(|g|) && IsBox(s, x, y, radius)
    ensures BoxDrawn(g, f, g, f, s, y - radius, x - radius)
  {}

  lemma BoxNext(m: Grid, fn: Grid, g: Grid, f: Grid, s: Shape, x: nat, y: nat, radius: nat, dy: int, dx: int)
    requires Square(m, |m|) && Square(fn, |m|) && Square(g, |m|) && Square(f, |m|) && s.Valid(|m|)
    requires IsBox(s, x, y, radius) && 0 - radius <= dy <= radius && 0 - radius <= dx <= radius
    requires BoxDrawn(m, fn, g, f, s, y + dy, x + dx)
    ensures if 0 <= x + dx < |m| && 0 <= y + dy < |m| then
              var c := Cell(x + dx, y + dy);
              var d := Max(Abs(dx), Abs(dy));
              var b := if s.Finder? then d != 2 && d != 4 else d != 1;
              BoxDrawn(Set(m, c, b), Set(fn, c, true), g, f, s, y + dy, x + dx + 1)
            else BoxDrawn(m, fn, g, f, s, y + dy, x + dx + 1)
  {
    hide Set;
    if 0 <= x + dx < |m| && 0 <= y + dy < |m| {
      var c := Cell(x + dx, y + dy);
      assert Distance(c, x, y) == Max(Abs(dx), Abs(dy));
      assert s.Covers(|m|, c);
    }
  }

  lemma BoxNextRow(m: Grid, fn: Grid, g: Grid, f: Grid, s: Shape, x: nat, y: nat, radius: nat, dy: int)
    requires Square(m, |m|) && Square(fn, |m|) && Square(g, |m|) && Square(f, |m|) && s.Valid(|m|)
    requires IsBox(s, x, y, radius) && BoxDrawn(m, fn, g, f, s, y + dy, x + radius + 1)
    ensures BoxDrawn(m, fn, g, f, s, y + dy + 1, x - radius)
  {
    forall c | Inside(c, |m|) && s.Covers(|m|, c)
      ensures x - radius <= c.x < x + radius + 1
    {
      assert Distance(c, x, y) <= radius;
    }
    hide Shape.Covers, Shape.Colour;
  }

  lemma BoxEnd(m: Grid, fn: Grid, g: Grid, f: Grid, s: Shape, x: nat, y: nat, radius: nat)
    requires Square(m, |m|) && Square(fn, |m|) && Square(g, |m|) && Square(f, |m|) && s.Valid(|m|)
    requires IsBox(s, x, y, radius) && BoxDrawn(m, fn, g, f, s, y + radius + 1, x - radius)
    ensures m == Draw(g, s) && fn == Mark(f, s)
  {
    hide Draw, Mark;
    forall c | Inside(c, |m|) && s.Covers(|m|, c)
      ensures c.y < y + radius + 1
    {
      assert Distance(c, x, y) <= radius;
    }
    hide Shape.Covers, Shape.Colour;
    SameGrid(m, Draw(g, s), |m|);
    SameGrid(fn, Mark(f, s), |m|);
  }

  // ---------- shapes drawn cell by cell ----------

  /** On top of g and f, the cells in done have been drawn in the colours of s. */
  ghost predicate CellsDrawn(m: Grid, fn: Grid, g: Grid, f: Grid, s: Shape, done: set<Cell>)
    requires Square(m, |m|) && Square(fn, |m|) && Square(g, |m|) && Square(f, |m|) && s.Valid(|m|)
  {
    forall c | Inside(c, |m|) ::
      if c in done then s.Covers(|m|, c) && Get(m, c) == s.Colour(|m|, c) && Get(fn, c)
      else Get(m, c) == Get(g, c) && Get(fn, c) == Get(f, c)
  }

  lemma CellsStart(g: Grid, f: Grid, s: Shape)
    requires Square(g, |g|) && Square(f, |g|) && s.Valid(|g|)
    ensures CellsDrawn(g, f, g, f, s, {})
  {}

  lemma CellsNext(m: Grid, fn: Grid, g: Grid, f: Grid, s: Shape, done: set<Cell>, c: Cell)
    requires Square(m, |m|) && Square(fn, |m|) && Square(g, |m|) && Square(f, |m|) && s.Valid(|m|)
    requires CellsDrawn(m, fn, g, f, s, done) && Inside(c, |m|) && s.Covers(|m|, c)
    ensures CellsDrawn(Set(m, c, s.Colour(|m|, c)), Set(fn, c, true), g, f, s, done + {c})
  {
    hide Set, Shape.Covers, Shape.Colour;
  }

  lemma CellsEnd(m: Grid, fn: Grid, g: Grid, f: Grid, s: Shape, done: set<Cell>)
    requires Square(m, |m|) && Square(fn, |m|) && Square(g, |m|) && Square(f, |m|) && s.Valid(|m|)
    requires CellsDrawn(m, fn, g, f, s, done) && forall c | Inside(c, |m|) && s.Covers(|m|, c) :: c in done
    ensures m == Draw(g, s) && fn == Mark(f, s)
  {
    hide Draw, Mark, Shape.Covers, Shape.Colour;
    SameGrid(m, Draw(g, s), |m|);
    SameGrid(fn, Mark(f, s), |m|);
  }

  method FormatBitsOf(ecl: Ecc, msk: nat) returns (bits: seq<bool>)
    requires msk < 8
    ensures bits == FormatWord(ecl, msk)
  {
    hide ToBits, BchStep;
    var data := ToBits(ecl.FormatBits() * 8 + msk, 5);
    var rem := ToBits(0, 5) + data;
    for i := 0 to 10
      invariant |rem| == 10 && rem == Bch(ToBits(0, 5) + data, ToBits(0x137, 10), i)
    {
      rem := BchStep(rem, ToBits(0x137, 10));
    }
    bits := XorBits(data + rem, ToBits(0x5412, 15));
  }

  method VersionBitsOf(version: nat) returns (bits: seq<bool>)
    ensures bits == VersionWord(version)
  {
    hide ToBits, BchStep;
    var data := ToBits(version, 6);
    var rem := ToBits(0, 6) + data;
    for i := 0 to 12
      invariant |rem| == 12 && rem == Bch(ToBits(0, 6) + data, ToBits(0xF25, 12), i)
    {
      rem := BchStep(rem, ToBits(0xF25, 12));
    }
    bits := data + rem;
  }

  lemma FormatCell(w: seq<bool>, size: nat, c: Cell, i: nat)
    requires |w| == 15 && size >= 21 && Inside(c, size) && FormatIndex(size, c) == i
    ensures Format(w).Covers(size, c) && Format(w).Colour(size, c) == (i == 15 || w[14 - i])
  {}

  lemma FormatCells(w: seq<bool>, size: nat, done: set<Cell>)
    requires |w| == 15 && size >= 21
    requires forall k: nat | k < 6 :: Cell(8, k) in done && Cell(k, 8) in done
    requires Cell(8, 7) in done && Cell(8, 8) in done && Cell(7, 8) in done
    requires forall k: nat | size - 8 <= k < size :: Cell(k, 8) in done && Cell(8, k) in done
    ensures forall c | Inside(c, size) && Format(w).Covers(size, c) :: c in done
  {
    forall c | Inside(c, size) && Format(w).Covers(size, c)
      ensures c in done
    {
      assert c == Cell(c.x, c.y);
    }
  }

  /** The two cells of version bit k. */
  ghost function VersionPair(size: nat, k: nat): set<Cell>
    requires size >= 45
  {
    {Cell(size - 11 + k % 3, k / 3), Cell(k / 3, size - 11 + k % 3)}
  }

  lemma VersionCell(w: seq<bool>, size: nat, i: nat)
    requires |w| == 18 && size >= 45 && i < 18
    ensures var a, b := size - 11 + i % 3, i / 3;
      && Inside(Cell(a, b), size) && Inside(Cell(b, a), size)
      && VersionInfo(w).Covers(size, Cell(a, b)) && VersionInfo(w).Colour(size, Cell(a, b)) == w[17 - i]
      && VersionInfo(w).Covers(size, Cell(b, a)) && VersionInfo(w).Colour(size, Cell(b, a)) == w[17 - i]
  {}

  lemma VersionCells(w: seq<bool>, size: nat, done: set<Cell>)
    requires |w| == 18 && size >= 45
    requires forall k: nat | k < 18 :: VersionPair(size, k) <= done
    ensures forall c | Inside(c, size) && VersionInfo(w).Covers(size, c) :: c in done
  {
    forall c | Inside(c, size) && VersionInfo(w).Covers(size, c)
      ensures c in done
    {
      var k: nat := VersionIndex(size, c);
      assert VersionPair(size, k) <= done;
      assert c in VersionPair(size, k);
    }
  }

  lemma FixedShapesAre(version: nat, ss: seq<Shape>)
    requires 1 <= version <= 40
    requires var size, p := SizeOf(version), AlignPositions(version);
      ss == [Timing, Finder(3, 3), Finder(size - 4, 3), Finder(3, size - 4)] + AlignRows(p, |p|)
    ensures ss == FixedShapes(version)
  {}

  lemma AlignRowsStart(p: seq<nat>)
    ensures AlignRows(p, 0) == []
  {}

  lemma AlignRowsNext(p: seq<nat>, m: nat)
    requires m < |p|
    ensures AlignRows(p, m + 1) == AlignRows(p, m) + AlignRow(p, m, |p|) && AlignRow(p, m, 0) == []
  {}

  lemma AlignRowNext(p: seq<nat>, i: nat, j: nat)
    requires i < |p| && j < |p|
    ensures var last := |p| - 1;
      AlignRow(p, i, j + 1) == AlignRow(p, i, j) +
        if (i == 0 && j == 0) || (i == 0 && j == last) || (i == last && j == 0) then [] else [Alignment(p[i], p[j])]
  {}

  lemma DrawnNone(g: Grid, f: Grid)
    requires Square(g, |g|) && Square(f, |g|)
    ensures DrawAll(g, []) == g && MarkAll(f, []) == f
  {}

  lemma DrawnOneMore(g: Grid, f: Grid, ss: seq<Shape>, s: Shape)
    requires Square(g, |g|) && Square(f, |g|) && AllShapes(ss, |g|) && s.Valid(|g|)
    ensures AllShapes(ss + [s], |g|)
    ensures DrawAll(g, ss + [s]) == Draw(DrawAll(g, ss), s)
    ensures MarkAll(f, ss + [s]) == Mark(MarkAll(f, ss), s)
  {
    assert (ss + [s])[..|ss|] == ss;
  }

  // ---------- the scan, pair by pair ----------

  lemma ScanStarts(version: nat)
    ensures var size := SizeOf(version); Scan(size) == ScanFrom(size, size - 1) && OnChain(size - 1)
  {
    hide SizeOf, OnChain, Scan, ScanFrom;
    OddSize(version);
    ChainStart(SizeOf(version));
  }

  lemma ChainStart(size: nat)
    requires size % 2 == 1 && size >= 17
    ensures Scan(size) == ScanFrom(size, size - 1) && OnChain(size - 1)
  {
    hide ScanFrom;
  }

  lemma PairDone(size: nat, right: nat)
    requires 1 <= right < size
    ensures PairFrom(size, right, size) == []
  {}

  lemma PlaceDone(g: Grid, f: Grid, cells: seq<Cell>, bits: seq<bool>)
    requires Fits(g, f, cells) && cells == []
    ensures Square(g, |g|) && Place(g, f, cells, bits) == g && Unplaced(f, cells, |bits|) == |bits|
  {}

  lemma FitsAfterSet(g: Grid, f: Grid, cells: seq<Cell>, c: Cell, b: bool)
    requires Fits(g, f, cells) && Square(g, |g|) && Inside(c, |g|)
    ensures Fits(Set(g, c, b), f, cells)
  {}

  lemma PairNext(size: nat, right: nat, vert: nat)
    requires 1 <= right < size && vert < size
    ensures var y := RowAt(size, right, vert); var pair := PairFrom(size, right, vert);
      && |pair| >= 2 && pair[..2] == [Cell(right, y), Cell(right - 1, y)]
      && pair == pair[..2] + PairFrom(size, right, vert + 1)
  {}

  // ---------- trials ----------

  /** Before the first trial no format word has been drawn by the search itself. */
  lemma FirstTrial(g: Grid, f: Grid, ecl: Ecc)
    requires Square(g, |g|) && Square(f, |g|) && |g| >= 21
    requires forall w | |w| == 15 :: Marked(f, Format(w))
    ensures Draw(Masked(g, f, 0), Format(FormatWord(ecl, 0))) == Finished(g, f, ecl, 0)
    ensures Masked(Finished(g, f, ecl, 0), f, 0) == Draw(g, Format(FormatWord(ecl, 0)))
  {
    hide Masked, Draw, FormatWord, Marked;
    MaskDrawCommute(Masked(g, f, 0), f, 0, Format(FormatWord(ecl, 0)));
    MaskTwice(g, f, 0);
  }

  lemma RemarkFormat(f: Grid, w: seq<bool>)
    requires Marked(f, Format(w))
    ensures Mark(f, Format(w)) == f
  {
    hide Mark, Shape.Covers;
    SameGrid(Mark(f, Format(w)), f, |f|);
  }

  /** Extending the search by one mask. */
  lemma BestNext(g: Grid, f: Grid, ecl: Ecc, m: nat, n: nat)
    requires Square(g, |g|) && Square(f, |g|) && |g| >= 21 && n < 8
    requires n > 0 ==> IsBest(g, f, ecl, m, n)
    ensures n == 0 ==> IsBest(g, f, ecl, 0, 1)
    ensures n > 0 ==> IsBest(g, f, ecl, if Score(g, f, ecl, n) < Score(g, f, ecl, m) then n else m, n + 1)
  {
    hide Score;
  }

  // ---------- whole symbols ----------

  function LayoutOf(version: nat, ecl: Ecc): (l: Layout)
    requires 1 <= version <= 40
    ensures l.Valid() && 1 <= l.ecc <= 255 && l.raw == RawCodewords(version)
    ensures l.raw / l.blocks < 255 && l.Offset(l.blocks) == DataCodewords(version, ecl) == l.raw - l.ecc * l.blocks
  {
    var p := Parameters(version, ecl);
    var l := Layout(RawCodewords(version), p.blocks, p.ecc);
    LayoutValid(RawDataModules(version), p);
    LengthsAddUp(l);
    l
  }

  lemma LayoutValid(raw: int, p: Level)
    requires p.Fits(raw)
    ensures var l := Layout(raw / 8, p.blocks, p.ecc); l.Valid() && l.raw / l.blocks < 255
  {
    var n, b := raw / 8, p.blocks;
    var q := n / b;
    assert n == b * q + n % b;
    assert b * (p.ecc + 1) <= n;
    assert b * (q - p.ecc) == b * q + b - b * (p.ecc + 1);
    PositiveFactor(b, q - p.ecc);
    assert b * (255 - q) == 255 * b - b * q;
    PositiveFactor(b, 255 - q);
  }

  /** The function patterns on a blank symbol. */
  function BaseGrid(version: nat, ecl: Ecc): (g: Grid)
    requires 1 <= version <= 40
    ensures Square(g, SizeOf(version))
  {
    DrawAll(Blank(SizeOf(version)), FunctionShapes(version, ecl))
  }

  /** The symbol with its codewords placed, before masking. */
  function Unmasked(version: nat, ecl: Ecc, data: seq<Byte>): (g: Grid)
    requires 1 <= version <= 40 && |data| == DataCodewords(version, ecl)
    ensures Square(g, SizeOf(version)) && SizeOf(version) >= 21
  {
    var base := BaseGrid(version, ecl);
    ScanFits(version, base);
    Place(base, FunctionMap(version), Scan(SizeOf(version)), Unpack(AllCodewords(data, LayoutOf(version, ecl))))
  }

  /** The exception that building a symbol ends in, if any. */
  function CreateError(ver: int, ecl: Ecc, dataLength: nat, msk: int): Option<Error> {
    if ver < 1 || ver > 40 || msk < -1 || msk > 7 then Some(DomainError)
    else if dataLength != DataCodewords(ver, ecl) then Some(InvalidArgument)
    else None
  }

  lemma FormatsMarked(version: nat)
    requires 1 <= version <= 40
    ensures forall w | |w| == 15 :: Marked(FunctionMap(version), Format(w))
  {
    hide FunctionMap, SizeOf, Shape.Covers;
    var f := FunctionMap(version);
    forall w | |w| == 15
      ensures Marked(f, Format(w))
    {
      forall c | Inside(c, |f|) && Format(w).Covers(|f|, c)
        ensures Get(f, c)
      {
        FormatIsFunction(version, w, c);
      }
    }
  }

  /** The final mask and format make the same symbol whether or not trials went before. */
  lemma FinishTrial(g: Grid, f: Grid, ecl: Ecc, m: nat)
    requires Square(g, |g|) && Square(f, |g|) && |g| >= 21 && m < 8
    requires forall w | |w| == 15 :: Marked(f, Format(w))
    ensures Draw(Masked(g, f, m), Format(FormatWord(ecl, m))) == Finished(g, f, ecl, m)
    ensures forall v | |v| == 15 ::
        Draw(Masked(Draw(g, Format(v)), f, m), Format(FormatWord(ecl, m))) == Finished(g, f, ecl, m)
  {
    hide Masked, Draw, FormatWord, Marked;
    forall v | |v| == 15
      ensures Draw(Masked(Draw(g, Format(v)), f, m), Format(FormatWord(ecl, m))) == Finished(g, f, ecl, m)
    {
      TrialRestores(g, f, ecl, v, m);
    }
  }

  /** The symbol built with the mask chosen automatically has the least penalty among the eight explicit ones, is the
      lowest-numbered of those, and is that symbol module for module. */
  lemma AutomaticMaskIsBest(a: QrCode, b: QrCode, ver: int, ecl: Ecc, data: seq<Byte>, m: nat)
    requires m < 8 && a.IsSymbol(ver, ecl, data, -1) && b.IsSymbol(ver, ecl, data, m)
    ensures Square(a.modules, |a.modules|) && Square(b.modules, |b.modules|)
    ensures PenaltyScore(a.modules) <= PenaltyScore(b.modules)
    ensures m < a.mask ==> PenaltyScore(a.modules) < PenaltyScore(b.modules)
    ensures m == a.mask ==> a.modules == b.modules
  {
    hide Finished, Unmasked, FunctionMap, PenaltyScore, RawCodewords, DataCodewords, SizeOf;
    var g, f := Unmasked(ver, ecl, data), FunctionMap(ver);
    assert b.modules == Finished(g, f, ecl, m);
    assert Score(g, f, ecl, m) == PenaltyScore(b.modules) && Score(g, f, ecl, a.mask) == PenaltyScore(a.modules);
  }
}
