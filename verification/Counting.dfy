/** Counting the modules that the function patterns leave free: there are always enough for the codewords. */
module Counting {
  import opened Basics
  import opened Grids
  import opened Patterns
  import opened Tables
  import opened Zigzag

  // ---------- the length of the scan ----------

  /** Columns from right leftwards, without the timing column. */
  function Columns(right: int): nat {
    if right < 0 then 0 else if right >= 6 then right else right + 1
  }

  lemma {:induction false} ScanLength(size: nat, right: int)
    requires right < size && OnChain(right)
    ensures |ScanFrom(size, right)| == size * Columns(right)
    decreases right
  {
    hide ScanFrom, PairFrom, OnChain;
    if right < 1 {
      ChainEnd(right);
      ScanOver(size, right);
    } else {
      ScanNext(size, right);
      var r := Adjusted(right);
      PairLength(size, r, 0);
      ScanLength(size, r - 2);
      ColumnsNext(right);
      assert size * Columns(right) == size * (Columns(r - 2) + 2) == size * Columns(r - 2) + 2 * size;
    }
  }

  lemma ChainEnd(right: int)
    requires OnChain(right) && right < 1
    ensures Columns(right) == 0
  {}

  lemma ColumnsNext(right: int)
    requires OnChain(right) && right >= 1
    ensures Columns(right) == Columns(Adjusted(right) - 2) + 2
  {}

  // ---------- free cells ----------

  ghost function Occupied(f: Grid, cells: seq<Cell>): set<Cell>
    requires Fits(f, f, cells)
  {
    set i | 0 <= i < |cells| && Get(f, cells[i]) :: cells[i]
  }

  /** Every cell of the list is free or occupied. */
  lemma {:induction false} ReadCount(f: Grid, cells: seq<Cell>)
    requires Fits(f, f, cells) && Distinct(cells)
    ensures |cells| == |Read(f, f, cells)| + |Occupied(f, cells)|
  {
    hide Get;
    if cells != [] {
      var c, rest := cells[0], cells[1..];
      ReadCount(f, rest);
      OccupiedNext(f, cells);
    }
  }

  lemma OccupiedNext(f: Grid, cells: seq<Cell>)
    requires Fits(f, f, cells) && Distinct(cells) && cells != []
    ensures Fits(f, f, cells[1..])
    ensures |Occupied(f, cells)| == |Occupied(f, cells[1..])| + if Get(f, cells[0]) then 1 else 0
  {
    hide Get;
    var c, rest := cells[0], cells[1..];
    assert forall i | 0 <= i < |rest| :: rest[i] == cells[i + 1];
    assert c !in Occupied(f, rest);
    if Get(f, c) {
      assert Occupied(f, cells) == {c} + Occupied(f, rest) by {
        assert forall d | d in Occupied(f, rest) :: d in Occupied(f, cells);
      }
    } else {
      assert Occupied(f, cells) == Occupied(f, rest);
    }
  }

  /** How many cells are free does not depend on their colours. */
  lemma {:induction false} ReadLength(g: Grid, h: Grid, f: Grid, cells: seq<Cell>)
    requires Fits(g, f, cells) && Fits(h, f, cells)
    ensures |Read(g, f, cells)| == |Read(h, f, cells)|
  {
    if cells != [] {
      ReadLength(g, h, f, cells[1..]);
    }
  }

  // ---------- rectangles ----------

  datatype Rect = Rect(x: nat, y: nat, w: nat, h: nat) {
    predicate Has(c: Cell) {
      x <= c.x < x + w && y <= c.y < y + h
    }

    ghost function Cells(): set<Cell> {
      set i, j | x <= i < x + w && y <= j < y + h :: Cell(i, j)
    }
  }

  lemma {:induction false} ColumnSize(x: nat, y: nat, h: nat)
    ensures |Rect(x, y, 1, h).Cells()| == h
  {
    if h == 0 {
      assert Rect(x, y, 1, h).Cells() == {};
    } else {
      ColumnSize(x, y, h - 1);
      assert Rect(x, y, 1, h).Cells() == Rect(x, y, 1, h - 1).Cells() + {Cell(x, y + h - 1)};
    }
  }

  lemma LastColumn(x: nat, y: nat, w: nat, h: nat)
    requires w > 0
    ensures |Rect(x, y, w, h).Cells()| == |Rect(x, y, w - 1, h).Cells()| + |Rect(x + w - 1, y, 1, h).Cells()|
  {
    var a, b := Rect(x, y, w - 1, h).Cells(), Rect(x + w - 1, y, 1, h).Cells();
    assert Rect(x, y, w, h).Cells() == a + b && a !! b;
  }

  lemma {:induction false} RectSize(x: nat, y: nat, w: nat, h: nat)
    ensures |Rect(x, y, w, h).Cells()| == w * h
  {
    if w == 0 {
      assert Rect(x, y, w, h).Cells() == {};
    } else {
      RectSize(x, y, w - 1, h);
      ColumnSize(x + w - 1, y, h);
      LastColumn(x, y, w, h);
      assert w * h == (w - 1) * h + h;
    }
  }

  function Area(rs: seq<Rect>): nat {
    if rs == [] then 0 else Area(rs[..|rs| - 1]) + rs[|rs| - 1].w * rs[|rs| - 1].h
  }

  ghost predicate Covered(rs: seq<Rect>, c: Cell) {
    exists i | 0 <= i < |rs| :: rs[i].Has(c)
  }

  /** Cells covered by rectangles are at most as many as their areas add up to. */
  lemma {:induction false} CoveredAtMost(s: set<Cell>, rs: seq<Rect>)
    requires forall c | c in s :: Covered(rs, c)
    ensures |s| <= Area(rs)
  {
    if rs == [] {
      assert s == {};
    } else {
      var n := |rs| - 1;
      var r := rs[n];
      var inside := set c | c in s && r.Has(c);
      forall c | c in s - inside
        ensures Covered(rs[..n], c)
      {
        var i :| 0 <= i < |rs| && rs[i].Has(c);
        assert rs[..n][i].Has(c);
      }
      CoveredAtMost(s - inside, rs[..n]);
      RectSize(r.x, r.y, r.w, r.h);
      SubsetSize(inside, r.Cells());
      assert s == inside + (s - inside);
    }
  }

  lemma {:induction false} AreaJoin(a: seq<Rect>, b: seq<Rect>)
    ensures Area(a + b) == Area(a) + Area(b)
  {
    if b == [] {
      assert a + b == a;
    } else {
      AreaJoin(a, b[..|b| - 1]);
      assert (a + b)[..|a + b| - 1] == a + b[..|b| - 1];
    }
  }

  lemma CoveredJoin(a: seq<Rect>, b: seq<Rect>, c: Cell)
    requires Covered(a, c) || Covered(b, c)
    ensures Covered(a + b, c)
  {
    if Covered(a, c) {
      var i :| 0 <= i < |a| && a[i].Has(c);
      assert (a + b)[i].Has(c);
    } else {
      var i :| 0 <= i < |b| && b[i].Has(c);
      assert (a + b)[|a| + i].Has(c);
    }
  }

  // ---------- the function patterns outside the timing column, as rectangles ----------

  /** Finders, timing row and format modules. */
  function FixedRects(size: nat): seq<Rect>
    requires size >= 21
  {
    [Rect(0, 0, 6, 8), Rect(7, 0, 1, 8), Rect(0, size - 8, 6, 8), Rect(7, size - 8, 1, 8), Rect(size - 8, 0, 8, 8),
     Rect(8, 6, size - 16, 1)] +
    [Rect(8, 0, 1, 6), Rect(8, 7, 1, 2), Rect(0, 8, 6, 1), Rect(7, 8, 1, 1),
     Rect(size - 8, 8, 8, 1), Rect(8, size - 8, 1, 8)]
  }

  /** An alignment pattern, without its part in the timing column or row. */
  function PatternRects(p: seq<nat>, i: nat, j: nat): seq<Rect>
    requires i < |p| && j < |p| && p[i] >= 2 && p[j] >= 2
  {
    var last := |p| - 1;
    if (i == 0 && j == 0) || (i == 0 && j == last) || (i == last && j == 0) then []
    else if i == 0 then [Rect(4, p[j] - 2, 2, 5), Rect(7, p[j] - 2, 2, 5)]
    else if j == 0 then [Rect(p[i] - 2, 4, 5, 2), Rect(p[i] - 2, 7, 5, 2)]
    else [Rect(p[i] - 2, p[j] - 2, 5, 5)]
  }

  ghost predicate Positions(p: seq<nat>) {
    (p != [] ==> p[0] == 6) && forall k | 0 <= k < |p| :: p[k] >= 2
  }

  function RowRects(p: seq<nat>, i: nat, n: nat): seq<Rect>
    requires i < |p| && n <= |p| && Positions(p)
  {
    if n == 0 then [] else RowRects(p, i, n - 1) + PatternRects(p, i, n - 1)
  }

  function AlignRects(p: seq<nat>, m: nat): seq<Rect>
    requires m <= |p| && Positions(p)
  {
    if m == 0 then [] else AlignRects(p, m - 1) + RowRects(p, m - 1, |p|)
  }

  function VersionRects(size: nat): seq<Rect>
    requires size >= 21
  {
    [Rect(size - 11, 0, 3, 6), Rect(0, size - 11, 6, 3)]
  }

  // ---------- areas ----------

  lemma AreaOne(r: Rect)
    ensures Area([r]) == r.w * r.h
  {
    assert [r][..0] == [];
  }

  lemma AreaTwo(r: Rect, s: Rect)
    ensures Area([r, s]) == r.w * r.h + s.w * s.h
  {
    assert [r, s] == [r] + [s];
    AreaJoin([r], [s]);
    AreaOne(r);
    AreaOne(s);
  }

  lemma FixedArea(size: nat)
    requires size >= 21
    ensures Area(FixedRects(size)) == size + 191
  {
    hide Area;
    var a, b, c := [Rect(0, 0, 6, 8), Rect(7, 0, 1, 8)], [Rect(0, size - 8, 6, 8), Rect(7, size - 8, 1, 8)],
                   [Rect(size - 8, 0, 8, 8), Rect(8, 6, size - 16, 1)];
    var d, e, f := [Rect(8, 0, 1, 6), Rect(8, 7, 1, 2)], [Rect(0, 8, 6, 1), Rect(7, 8, 1, 1)],
                   [Rect(size - 8, 8, 8, 1), Rect(8, size - 8, 1, 8)];
    AreaTwo(a[0], a[1]);
    AreaTwo(b[0], b[1]);
    AreaTwo(c[0], c[1]);
    AreaTwo(d[0], d[1]);
    AreaTwo(e[0], e[1]);
    AreaTwo(f[0], f[1]);
    AreaJoin(a, b);
    AreaJoin(a + b, c);
    AreaJoin(a + b + c, d);
    AreaJoin(a + b + c + d, e);
    AreaJoin(a + b + c + d + e, f);
    assert FixedRects(size) == a + b + c + d + e + f;
  }

  lemma PatternArea(p: seq<nat>, i: nat, j: nat)
    requires i < |p| && j < |p| && p[i] >= 2 && p[j] >= 2
    ensures var last := |p| - 1;
      Area(PatternRects(p, i, j)) ==
      if (i == 0 && j == 0) || (i == 0 && j == last) || (i == last && j == 0) then 0
      else if i == 0 || j == 0 then 20 else 25
  {
    var r := PatternRects(p, i, j);
    hide Area;
    if |r| == 2 {
      AreaTwo(r[0], r[1]);
      assert r == [r[0], r[1]];
    } else if |r| == 1 {
      AreaOne(r[0]);
      assert r == [r[0]];
    } else {
      AreaNone(r);
    }
  }

  lemma AreaNone(rs: seq<Rect>)
    requires rs == []
    ensures Area(rs) == 0
  {}

  /** Area of the first n patterns of row i. */
  function RowArea(count: nat, i: nat, n: nat): int {
    if n == 0 then 0
    else if i == 0 then (if n < count then 20 * (n - 1) else 20 * (n - 2))
    else (if i == count - 1 then 0 else 20) + 25 * (n - 1)
  }

  lemma {:induction false} RowAreaIs(p: seq<nat>, i: nat, n: nat)
    requires i < |p| && n <= |p| && Positions(p) && |p| >= 2
    ensures Area(RowRects(p, i, n)) == RowArea(|p|, i, n)
  {
    hide Area, PatternRects;
    if n == 0 {
      AreaNone(RowRects(p, i, n));
    } else {
      RowAreaIs(p, i, n - 1);
      PatternArea(p, i, n - 1);
      AreaJoin(RowRects(p, i, n - 1), PatternRects(p, i, n - 1));
    }
  }

  lemma {:induction false} AlignArea(p: seq<nat>, m: nat)
    requires m <= |p| && Positions(p) && |p| >= 2
    ensures var n := |p|;
      Area(AlignRects(p, m)) ==
      if m == 0 then 0
      else if m < n then 20 * (n - 2) + (m - 1) * (20 + 25 * (n - 1))
      else 20 * (n - 2) + (n - 2) * (20 + 25 * (n - 1)) + 25 * (n - 1)
  {
    hide Area, RowRects;
    if m == 0 {
      AreaNone(AlignRects(p, m));
    } else {
      AlignArea(p, m - 1);
      RowAreaIs(p, m - 1, |p|);
      AreaJoin(AlignRects(p, m - 1), RowRects(p, m - 1, |p|));
    }
  }

  // ---------- coverage ----------

  lemma TimingCovered(size: nat, c: Cell)
    requires size >= 21 && Inside(c, size) && c.x != 6 && c.y == 6
    ensures Covered(FixedRects(size), c)
  {
    var rs := FixedRects(size);
    var i := if c.x < 6 then 0 else if c.x == 7 then 1 else if c.x < size - 8 then 5 else 4;
    assert rs[i].Has(c);
  }

  lemma FindersCovered(size: nat, c: Cell)
    requires size >= 21 && Inside(c, size) && c.x != 6
    requires Finder(3, 3).Covers(size, c) || Finder(size - 4, 3).Covers(size, c) || Finder(3, size - 4).Covers(size, c)
    ensures Covered(FixedRects(size), c)
  {
    var rs := FixedRects(size);
    var i := if Finder(size - 4, 3).Covers(size, c) then 4
             else if Finder(3, 3).Covers(size, c) then (if c.x < 6 then 0 else 1) else (if c.x < 6 then 2 else 3);
    assert rs[i].Has(c);
  }

  lemma FormatCovered(size: nat, w: seq<bool>, c: Cell)
    requires size >= 21 && Inside(c, size) && Format(w).Covers(size, c)
    ensures Covered(FixedRects(size), c)
  {
    var rs := FixedRects(size);
    var i := if c.x == 8 && c.y <= 5 then 6 else if c.x == 8 && c.y <= 8 then 7 else if c.y == 8 && c.x <= 5 then 8
             else if c == Cell(7, 8) then 9 else if c.y == 8 then 10 else 11;
    assert rs[i].Has(c);
  }

  lemma VersionCovered(size: nat, w: seq<bool>, c: Cell)
    requires size >= 21 && Inside(c, size) && VersionInfo(w).Covers(size, c)
    ensures Covered(VersionRects(size), c)
  {
    var rs := VersionRects(size);
    assert rs[if c.y <= 5 && size <= c.x + 11 then 0 else 1].Has(c);
  }

  lemma PatternCovered(p: seq<nat>, i: nat, j: nat, size: nat, c: Cell)
    requires i < |p| && j < |p| && Positions(p) && c.x != 6 && c.y != 6 && Alignment(p[i], p[j]).Covers(size, c)
    requires PatternRects(p, i, j) != []
    ensures Covered(PatternRects(p, i, j), c)
  {
    var rs := PatternRects(p, i, j);
    var k := if i == 0 then (if c.x < 6 then 0 else 1) else if j == 0 then (if c.y < 6 then 0 else 1) else 0;
    assert rs[k].Has(c);
  }

  lemma {:induction false} RowCovered(p: seq<nat>, i: nat, n: nat, k: nat, size: nat, c: Cell)
    requires i < |p| && n <= |p| && Positions(p) && c.x != 6 && c.y != 6
    requires k < |AlignRow(p, i, n)| && AlignRow(p, i, n)[k].Covers(size, c)
    ensures Covered(RowRects(p, i, n), c)
  {
    hide Shape.Covers, Covered;
    if n > 0 {
      var less := AlignRow(p, i, n - 1);
      if k < |less| {
        RowCovered(p, i, n - 1, k, size, c);
      } else {
        PatternCovered(p, i, n - 1, size, c);
      }
      CoveredJoin(RowRects(p, i, n - 1), PatternRects(p, i, n - 1), c);
    }
  }

  lemma {:induction false} AlignCovered(p: seq<nat>, m: nat, k: nat, size: nat, c: Cell)
    requires m <= |p| && Positions(p) && c.x != 6 && c.y != 6
    requires k < |AlignRows(p, m)| && AlignRows(p, m)[k].Covers(size, c)
    ensures Covered(AlignRects(p, m), c)
  {
    hide Shape.Covers, Covered, RowRects, AlignRow;
    if m > 0 {
      var less := AlignRows(p, m - 1);
      if k < |less| {
        AlignCovered(p, m - 1, k, size, c);
      } else {
        RowCovered(p, m - 1, |p|, k - |less|, size, c);
      }
      CoveredJoin(AlignRects(p, m - 1), RowRects(p, m - 1, |p|), c);
    }
  }

  lemma PositionsRight(version: nat)
    requires 1 <= version <= 40
    ensures Positions(AlignPositions(version))
  {
    var p := AlignPositions(version);
    assert p != [] ==> p[0] == AlignAt(version, 0);
  }

  ghost function FunctionRects(version: nat): seq<Rect>
    requires 1 <= version <= 40
  {
    var size, p := SizeOf(version), AlignPositions(version);
    PositionsRight(version);
    FixedRects(size) + AlignRects(p, |p|) + if version < 7 then [] else VersionRects(size)
  }

  /** Every function module outside the timing column lies in one of the rectangles. */
  lemma FunctionCovered(version: nat, c: Cell)
    requires 1 <= version <= 40 && Inside(c, SizeOf(version)) && c.x != 6 && Get(FunctionMap(version), c)
    ensures Covered(FunctionRects(version), c)
  {
    hide Shape.Covers, Covered, AlignRects, AlignRows, FixedRects, VersionRects, FormatWord, VersionWord, MarkAll,
      Positions;
    var size, p, ss := SizeOf(version), AlignPositions(version), FunctionShapes(version, Low);
    PositionsRight(version);
    MarkAllCovers(Blank(size), ss, c);
    var k :| 0 <= k < |ss| && ss[k].Covers(size, c);
    ShapeCovered(version, k, c);
    var a, b, v := FixedRects(size), AlignRects(p, |p|), if version < 7 then [] else VersionRects(size);
    if Covered(v, c) {
      CoveredJoin(a + b, v, c);
    } else {
      CoveredJoin(a, b, c);
      CoveredJoin(a + b, v, c);
    }
  }

  lemma ShapeCovered(version: nat, k: nat, c: Cell)
    requires 1 <= version <= 40 && Inside(c, SizeOf(version)) && c.x != 6
    requires k < |FunctionShapes(version, Low)| && FunctionShapes(version, Low)[k].Covers(SizeOf(version), c)
    requires Positions(AlignPositions(version))
    ensures var size, p := SizeOf(version), AlignPositions(version);
      || Covered(FixedRects(size), c) || Covered(AlignRects(p, |p|), c)
      || Covered(if version < 7 then [] else VersionRects(size), c)
  {
    hide Shape.Covers, Covered, AlignRects, AlignRows, FixedRects, VersionRects, FormatWord, VersionWord, Positions;
    var size, p, ss := SizeOf(version), AlignPositions(version), FunctionShapes(version, Low);
    var rows := AlignRows(p, |p|);
    if c.y == 6 {
      TimingCovered(size, c);
    } else if k == 0 {
      TimingNotElsewhere(size, c);
    } else if k < 4 {
      FindersCovered(size, c);
    } else if k < 4 + |rows| {
      assert ss[k] == rows[k - 4];
      AlignCovered(p, |p|, k - 4, size, c);
    } else if k == 4 + |rows| {
      FormatCovered(size, FormatWord(Low, 0), c);
    } else {
      VersionCovered(size, VersionWord(version), c);
    }
  }

  lemma TimingNotElsewhere(size: nat, c: Cell)
    requires c.x != 6 && c.y != 6
    ensures !Timing.Covers(size, c)
  {}

  /** The areas add up to all cells of the scan but the raw data modules. */
  lemma FunctionArea(version: nat)
    requires 1 <= version <= 40
    ensures Area(FunctionRects(version)) == SizeOf(version) * (SizeOf(version) - 1) - RawDataModules(version)
  {
    hide Area, AlignRects, FixedRects, VersionRects, Positions, AlignPositions, RawDataModules, SizeOf;
    var size, p := SizeOf(version), AlignPositions(version);
    OddSize(version);
    RawModules(version);
    PositionsRight(version);
    FixedArea(size);
    VersionArea(size);
    var a, b, v := FixedRects(size), AlignRects(p, |p|), if version < 7 then [] else VersionRects(size);
    AreaJoin(a, b);
    AreaJoin(a + b, v);
    AreaNone([]);
    NoPatterns(p);
    if version > 1 {
      AlignArea(p, |p|);
      AlignTotal(|p|);
    }
  }

  lemma RawModules(version: nat)
    requires 1 <= version <= 40
    ensures var size, n := SizeOf(version), NumAlign(version);
      RawDataModules(version) == size * (size - 1) - (size + 191) -
        (if version == 1 then 0 else (25 * n - 10) * n - 55) - if version < 7 then 0 else 36
  {
    var size := SizeOf(version);
    assert size * (size - 1) == 16 * version * version + 132 * version + 272;
  }

  lemma NoPatterns(p: seq<nat>)
    requires Positions(p)
    ensures p == [] ==> Area(AlignRects(p, |p|)) == 0
  {}

  lemma VersionArea(size: nat)
    requires size >= 21
    ensures Area(VersionRects(size)) == 36
  {
    AreaTwo(Rect(size - 11, 0, 3, 6), Rect(0, size - 11, 6, 3));
  }

  lemma AlignTotal(n: int)
    ensures 20 * (n - 2) + (n - 2) * (20 + 25 * (n - 1)) + 25 * (n - 1) == (25 * n - 10) * n - 55
  {}

  lemma ScanFits(version: nat, g: Grid)
    requires 1 <= version <= 40 && Square(g, SizeOf(version))
    ensures Fits(g, FunctionMap(version), Scan(SizeOf(version)))
  {
    hide FunctionMap, Scan, SizeOf;
    OddSize(version);
    ScanInside(SizeOf(version));
  }

  // ---------- the rectangles do not overlap ----------

  predicate Separate(r: Rect, s: Rect) {
    r.x + r.w <= s.x || s.x + s.w <= r.x || r.y + r.h <= s.y || s.y + s.h <= r.y
  }

  ghost predicate AllSeparate(a: seq<Rect>, b: seq<Rect>) {
    forall i, j | 0 <= i < |a| && 0 <= j < |b| :: Separate(a[i], b[j])
  }

  ghost predicate Apart(rs: seq<Rect>) {
    forall i, j | 0 <= i < j < |rs| :: Separate(rs[i], rs[j])
  }

  lemma ApartJoin(a: seq<Rect>, b: seq<Rect>)
    requires Apart(a) && Apart(b) && AllSeparate(a, b)
    ensures Apart(a + b)
  {
    hide Separate;
  }

  lemma SeparateCells(r: Rect, s: Rect)
    requires Separate(r, s)
    ensures r.Cells() !! s.Cells()
  {}

  /** A set that contains rectangles which do not overlap has at least as many cells as their areas add up to. */
  lemma {:induction false} ApartAtLeast(s: set<Cell>, rs: seq<Rect>)
    requires Apart(rs) && forall i | 0 <= i < |rs| :: rs[i].Cells() <= s
    ensures |s| >= Area(rs)
  {
    if rs != [] {
      var n := |rs| - 1;
      var r := rs[n];
      hide Separate, Rect.Cells;
      var less := s - r.Cells();
      forall i | 0 <= i < n
        ensures rs[..n][i].Cells() <= less
      {
        SeparateCells(rs[i], r);
      }
      ApartAtLeast(less, rs[..n]);
      RectSize(r.x, r.y, r.w, r.h);
      assert |less| == |s| - |r.Cells()|;
    }
  }

  lemma FixedApart(size: nat)
    requires size >= 21
    ensures Apart(FixedRects(size))
  {}

  lemma FixedVersionSeparate(size: nat)
    requires size >= 45
    ensures AllSeparate(FixedRects(size), VersionRects(size)) && Apart(VersionRects(size))
  {}

  /** Where the parts of alignment patterns lie: below the top left corner at the left edge, beside it at the top edge,
      or inside. */
  predicate Zone(r: Rect, size: nat) {
    || (4 <= r.x && r.x + r.w <= 9 && 9 <= r.y && r.y + r.h + 11 <= size)
    || (9 <= r.x && r.x + r.w + 11 <= size && 4 <= r.y && r.y + r.h <= 9 && (r.y + r.h <= 6 || r.y >= 7))
    || (9 <= r.x && 9 <= r.y)
  }

  lemma ZoneSeparate(size: nat, r: Rect)
    requires size >= 21 && Zone(r, size)
    ensures AllSeparate(FixedRects(size), [r])
    ensures size >= 45 ==> AllSeparate([r], VersionRects(size))
  {}

  /** The positions keep their distance from each other and from the corners. */
  ghost predicate Spaced(p: seq<nat>, size: nat) {
    && Positions(p) && (forall i, k | 0 <= i < k < |p| :: p[i] + 5 <= p[k])
    && (forall k | 1 <= k < |p| :: p[k] >= 11) && (forall k | 1 <= k < |p| - 1 :: p[k] + 14 <= size)
    && (forall k | 0 <= k < |p| :: p[k] + 2 < size)
  }

  lemma StepBounds(version: nat)
    requires 2 <= version <= 40
    ensures var n, step := NumAlign(version), AlignStep(version);
      2 <= n <= 7 && (n > 2 ==> step >= 7 && (n - 2) * step + 18 <= SizeOf(version))
  {
    var n := NumAlign(version);
    if n == 2 {} else if n == 3 {} else if n == 4 {} else if n == 5 {} else if n == 6 {} else { assert n == 7; }
  }

  /** Positions that go down from the far end in equal steps. */
  lemma StepsApart(n: nat, step: nat, size: nat, i: nat, k: nat)
    requires 1 <= i < k < n && step >= 7
    ensures size - 7 - (n - 1 - i) * step + 5 <= size - 7 - (n - 1 - k) * step
  {
    MulAtMost(n - 1 - k, n - 2 - i, step);
    assert (n - 1 - i) * step == (n - 2 - i) * step + step;
  }

  lemma StepsInside(n: nat, step: nat, size: nat, k: nat)
    requires 1 <= k < n && size >= 21 && (n > 2 ==> step >= 7 && (n - 2) * step + 18 <= size)
    ensures var q := size - 7 - (n - 1 - k) * step; q >= 11 && q + 2 < size && (k < n - 1 ==> q + 14 <= size)
  {
    if k < n - 1 {
      MulAtMost(n - 1 - k, n - 2, step);
      assert (n - 1 - k) * step == (n - 2 - k) * step + step;
      MulAtMost(0, n - 2 - k, step);
    }
  }

  lemma AlignSpaced(version: nat)
    requires 1 <= version <= 40
    ensures Spaced(AlignPositions(version), SizeOf(version))
  {
    hide AlignStep, NumAlign, SizeOf;
    var p, size := AlignPositions(version), SizeOf(version);
    OddSize(version);
    PositionsRight(version);
    if version == 1 {
      NoneInFirst();
    } else {
      StepBounds(version);
      var n, step := NumAlign(version), AlignStep(version);
      forall k | 1 <= k < n
        ensures p[k] == size - 7 - (n - 1 - k) * step && p[k] >= 11 && p[k] + 2 < size
        ensures k < n - 1 ==> p[k] + 14 <= size
      {
        assert p[k] == AlignAt(version, k);
        StepsInside(n, step, size, k);
      }
      forall i, k | 1 <= i < k < n
        ensures p[i] + 5 <= p[k]
      {
        StepsApart(n, step, size, i, k);
      }
    }
  }

  lemma NoneInFirst()
    ensures NumAlign(1) == 0
  {}

  /** The rectangle belongs to the pattern at position i across and one of the first n down. */
  ghost predicate InRow(r: Rect, p: seq<nat>, i: nat, n: nat, size: nat)
    requires i < |p| && n <= |p|
  {
    Zone(r, size) && p[i] <= r.x + 2 && r.x + r.w <= p[i] + 3 && n > 0 && r.y + r.h <= p[n - 1] + 3
  }

  lemma PatternShape(p: seq<nat>, i: nat, j: nat, size: nat)
    requires Spaced(p, size) && i < |p| && j < |p|
    ensures var rs := PatternRects(p, i, j);
      Apart(rs) && forall k | 0 <= k < |rs| :: InRow(rs[k], p, i, j + 1, size) && p[j] <= rs[k].y + 2
  {}

  lemma {:induction false} RowShape(p: seq<nat>, i: nat, n: nat, size: nat)
    requires Spaced(p, size) && i < |p| && n <= |p|
    ensures var rs := RowRects(p, i, n); Apart(rs) && forall k | 0 <= k < |rs| :: InRow(rs[k], p, i, n, size)
  {
    hide PatternRects, Zone;
    if n > 0 {
      RowShape(p, i, n - 1, size);
      PatternShape(p, i, n - 1, size);
      ApartJoin(RowRects(p, i, n - 1), PatternRects(p, i, n - 1));
    }
  }

  lemma {:induction false} AlignShape(p: seq<nat>, m: nat, size: nat)
    requires Spaced(p, size) && m <= |p|
    ensures var rs := AlignRects(p, m);
      Apart(rs) && forall k | 0 <= k < |rs| :: Zone(rs[k], size) && m > 0 && rs[k].x + rs[k].w <= p[m - 1] + 3
  {
    hide RowRects, Zone;
    if m > 0 {
      AlignShape(p, m - 1, size);
      RowShape(p, m - 1, |p|, size);
      ApartJoin(AlignRects(p, m - 1), RowRects(p, m - 1, |p|));
    }
  }

  lemma FunctionRectsApart(version: nat)
    requires 1 <= version <= 40
    ensures Apart(FunctionRects(version))
  {
    hide Apart, Separate, AlignRects, FixedRects, VersionRects, Positions, AlignPositions, Zone;
    var size, p := SizeOf(version), AlignPositions(version);
    OddSize(version);
    PositionsRight(version);
    AlignSpaced(version);
    hide Spaced;
    AlignShape(p, |p|, size);
    FixedApart(size);
    var a, b, v := FixedRects(size), AlignRects(p, |p|), if version < 7 then [] else VersionRects(size);
    forall k | 0 <= k < |b|
      ensures AllSeparate(a, [b[k]]) && (version >= 7 ==> AllSeparate([b[k]], v))
    {
      ZoneSeparate(size, b[k]);
    }
    SeparateFromEach(a, b);
    ApartJoin(a, b);
    if version < 7 {
      assert a + b + v == a + b;
    } else {
      FixedVersionSeparate(size);
      SeparateEach(b, v);
      SeparateJoin(a, b, v);
      ApartJoin(a + b, v);
    }
  }

  lemma SeparateFromEach(a: seq<Rect>, b: seq<Rect>)
    requires forall k | 0 <= k < |b| :: AllSeparate(a, [b[k]])
    ensures AllSeparate(a, b)
  {
    hide Separate;
    forall i, j | 0 <= i < |a| && 0 <= j < |b|
      ensures Separate(a[i], b[j])
    {
      assert Separate(a[i], [b[j]][0]);
    }
  }

  lemma SeparateEach(a: seq<Rect>, b: seq<Rect>)
    requires forall k | 0 <= k < |a| :: AllSeparate([a[k]], b)
    ensures AllSeparate(a, b)
  {
    hide Separate;
    forall i, j | 0 <= i < |a| && 0 <= j < |b|
      ensures Separate(a[i], b[j])
    {
      assert Separate([a[i]][0], b[j]);
    }
  }

  lemma SeparateJoin(a: seq<Rect>, b: seq<Rect>, c: seq<Rect>)
    requires AllSeparate(a, c) && AllSeparate(b, c)
    ensures AllSeparate(a + b, c)
  {
    hide Separate;
  }

  // ---------- the rectangles hold function modules only ----------

  lemma CoveredSplit(a: seq<Rect>, b: seq<Rect>, c: Cell)
    requires Covered(a + b, c)
    ensures Covered(a, c) || Covered(b, c)
  {
    var i :| 0 <= i < |a + b| && (a + b)[i].Has(c);
    if i < |a| {
      assert a[i].Has(c);
    } else {
      assert b[i - |a|].Has(c);
    }
  }

  lemma FixedIsFunction(size: nat, w: seq<bool>, c: Cell)
    requires size >= 21 && Covered(FixedRects(size), c)
    ensures Inside(c, size) && c.x != 6
    ensures Timing.Covers(size, c) || Finder(3, 3).Covers(size, c) || Finder(size - 4, 3).Covers(size, c)
         || Finder(3, size - 4).Covers(size, c) || Format(w).Covers(size, c)
  {}

  lemma VersionIsFunction(size: nat, w: seq<bool>, c: Cell)
    requires size >= 21 && Covered(VersionRects(size), c)
    ensures Inside(c, size) && c.x != 6 && VersionInfo(w).Covers(size, c)
  {}

  lemma PatternIsFunction(p: seq<nat>, i: nat, j: nat, size: nat, c: Cell)
    requires Spaced(p, size) && i < |p| && j < |p| && Covered(PatternRects(p, i, j), c)
    ensures Inside(c, size) && c.x != 6 && Alignment(p[i], p[j]).Covers(size, c)
  {}

  lemma {:induction false} RowIsFunction(p: seq<nat>, i: nat, n: nat, size: nat, c: Cell) returns (k: nat)
    requires Spaced(p, size) && i < |p| && n <= |p| && Covered(RowRects(p, i, n), c)
    ensures Inside(c, size) && c.x != 6 && k < |AlignRow(p, i, n)| && AlignRow(p, i, n)[k].Covers(size, c)
  {
    hide Shape.Covers, Covered, Spaced, Positions;
    SpacedPositions(p, size);
    NotInNone(c);
    CoveredSplit(RowRects(p, i, n - 1), PatternRects(p, i, n - 1), c);
    if Covered(RowRects(p, i, n - 1), c) {
      k := RowIsFunction(p, i, n - 1, size, c);
    } else {
      PatternIsFunction(p, i, n - 1, size, c);
      k := |AlignRow(p, i, n)| - 1;
    }
  }

  lemma SpacedPositions(p: seq<nat>, size: nat)
    requires Spaced(p, size)
    ensures Positions(p)
  {}

  lemma NotInNone(c: Cell)
    ensures !Covered([], c)
  {}

  lemma {:induction false} AlignIsFunction(p: seq<nat>, m: nat, size: nat, c: Cell) returns (k: nat)
    requires Spaced(p, size) && m <= |p| && Covered(AlignRects(p, m), c)
    ensures Inside(c, size) && c.x != 6 && k < |AlignRows(p, m)| && AlignRows(p, m)[k].Covers(size, c)
  {
    hide Shape.Covers, Covered, Spaced, Positions, RowRects, AlignRow;
    SpacedPositions(p, size);
    NotInNone(c);
    CoveredSplit(AlignRects(p, m - 1), RowRects(p, m - 1, |p|), c);
    if Covered(AlignRects(p, m - 1), c) {
      k := AlignIsFunction(p, m - 1, size, c);
    } else {
      var j := RowIsFunction(p, m - 1, |p|, size, c);
      k := |AlignRows(p, m - 1)| + j;
    }
  }

  /** Conversely, the rectangles hold nothing but function modules outside the timing column. */
  lemma CoveredIsFunction(version: nat, c: Cell)
    requires 1 <= version <= 40 && Covered(FunctionRects(version), c)
    ensures Inside(c, SizeOf(version)) && c.x != 6 && Get(FunctionMap(version), c)
  {
    hide Shape.Covers, Covered, AlignRects, AlignRows, FixedRects, VersionRects, FormatWord, VersionWord, MarkAll,
      Positions;
    var size, p, ss := SizeOf(version), AlignPositions(version), FunctionShapes(version, Low);
    OddSize(version);
    PositionsRight(version);
    AlignSpaced(version);
    hide Spaced;
    var a, b, v := FixedRects(size), AlignRects(p, |p|), if version < 7 then [] else VersionRects(size);
    var rows := AlignRows(p, |p|);
    assert ss[4 + |rows|] == Format(FormatWord(Low, 0));
    CoveredSplit(a + b, v, c);
    NotInNone(c);
    if Covered(v, c) {
      VersionIsFunction(size, VersionWord(version), c);
      assert ss[5 + |rows|].Covers(size, c);
    } else {
      CoveredSplit(a, b, c);
      if Covered(a, c) {
        FixedIsFunction(size, FormatWord(Low, 0), c);
        assert ss[0].Covers(size, c) || ss[1].Covers(size, c) || ss[2].Covers(size, c) || ss[3].Covers(size, c)
            || ss[4 + |rows|].Covers(size, c);
      } else {
        var k := AlignIsFunction(p, |p|, size, c);
        assert ss[4 + k] == rows[k];
      }
    }
    MarkAllCovers(Blank(size), ss, c);
  }

  // ---------- the count ----------

  /** The function modules on the scan are as many as the rectangles have cells. */
  lemma OccupiedExact(version: nat)
    requires 1 <= version <= 40 && Fits(FunctionMap(version), FunctionMap(version), Scan(SizeOf(version)))
    ensures |Occupied(FunctionMap(version), Scan(SizeOf(version)))| == Area(FunctionRects(version))
  {
    hide FunctionMap, Scan, SizeOf, Area, FunctionRects, Distinct, Fits, Covered, Apart, Occupied;
    var size, f, rs := SizeOf(version), FunctionMap(version), FunctionRects(version);
    OddSize(version);
    ScanBijective(size);
    var taken := Occupied(f, Scan(size));
    forall c | c in taken
      ensures Covered(rs, c)
    {
      OccupiedMeans(f, Scan(size), c);
      FunctionCovered(version, c);
    }
    CoveredAtMost(taken, rs);
    forall i | 0 <= i < |rs|
      ensures rs[i].Cells() <= taken
    {
      forall c | c in rs[i].Cells()
        ensures c in taken
      {
        CellsCovered(rs, i, c);
        CoveredIsFunction(version, c);
        OccupiedHas(f, Scan(size), c);
      }
    }
    FunctionRectsApart(version);
    ApartAtLeast(taken, rs);
  }

  lemma CellsCovered(rs: seq<Rect>, i: nat, c: Cell)
    requires i < |rs| && c in rs[i].Cells()
    ensures Covered(rs, c)
  {
    assert rs[i].Has(c);
  }

  lemma OccupiedMeans(f: Grid, cells: seq<Cell>, c: Cell)
    requires Fits(f, f, cells) && c in Occupied(f, cells)
    ensures c in cells && Inside(c, |f|) && Get(f, c)
  {}

  lemma OccupiedHas(f: Grid, cells: seq<Cell>, c: Cell)
    requires Fits(f, f, cells) && c in cells && Inside(c, |f|) && Get(f, c)
    ensures c in Occupied(f, cells)
  {
    var i :| 0 <= i < |cells| && cells[i] == c;
  }

  /** On any grid of a version, the scan finds exactly as many free modules as there are raw data modules: the codewords
      find room, and fewer than eight remainder bits are left. */
  lemma FreeModulesExact(version: nat, g: Grid)
    requires 1 <= version <= 40 && Square(g, SizeOf(version))
    ensures Fits(g, FunctionMap(version), Scan(SizeOf(version)))
    ensures |Read(g, FunctionMap(version), Scan(SizeOf(version)))| == RawDataModules(version)
    ensures 0 <= RawDataModules(version) - 8 * RawCodewords(version) < 8
  {
    hide FunctionMap, Scan, SizeOf, RawDataModules, Area, FunctionRects, Distinct, Fits, Occupied;
    var size, f := SizeOf(version), FunctionMap(version);
    OddSize(version);
    ScanFits(version, g);
    ScanFits(version, f);
    ScanBijective(size);
    ScanSize(size);
    ReadLength(g, f, f, Scan(size));
    ReadCount(f, Scan(size));
    OccupiedExact(version);
    FunctionArea(version);
  }

  lemma ScanSize(size: nat)
    requires size >= 21 && size % 2 == 1
    ensures |Scan(size)| == size * (size - 1)
  {
    hide ScanFrom;
    ScanLength(size, size - 1);
  }
}
