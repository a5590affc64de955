/** Function patterns: the modules that carry no data.  Each drawing routine of the source is a
    shape, that is, the set of cells it covers and the colours it gives them. */
module Patterns {
  import opened Basics
  import opened BitStream
  import opened Grids
  import opened Tables

  function SizeOf(version: nat): nat {
    version * 4 + 17
  }

  lemma OddSize(version: nat)
    ensures SizeOf(version) % 2 == 1 && SizeOf(version) >= 17
    ensures 1 <= version <= 40 ==> 21 <= SizeOf(version) <= 177
  {
    OddDouble(2 * version + 8);
  }

  lemma OddDouble(k: nat)
    ensures (2 * k + 1) % 2 == 1
  {}

  /** words are written most significant bit first. */
  datatype Shape =
    | Timing
    | Finder(x: nat, y: nat)
    | Alignment(x: nat, y: nat)
    | Format(word: seq<bool>)
    | VersionInfo(word: seq<bool>)
  {
    ghost predicate Valid(size: nat) {
      match this
      case Format(w) => |w| == 15 && size >= 21
      case VersionInfo(w) => |w| == 18 && size >= 21
      case Alignment(x, y) => 2 <= x && x + 2 < size && 2 <= y && y + 2 < size
      case _ => true
    }

    predicate Covers(size: nat, c: Cell) {
      match this
      case Timing => c.x == 6 || c.y == 6
      case Finder(x, y) => Distance(c, x, y) <= 4
      case Alignment(x, y) => Distance(c, x, y) <= 2
      case Format(_) => FormatIndex(size, c) >= 0
      case VersionInfo(_) => VersionIndex(size, c) >= 0
    }

    predicate Colour(size: nat, c: Cell)
      requires Valid(size) && Covers(size, c) && Inside(c, size)
    {
      match this
      case Timing => if c.x == 6 then c.y % 2 == 0 else c.x % 2 == 0
      case Finder(x, y) => Distance(c, x, y) != 2 && Distance(c, x, y) != 4
      case Alignment(x, y) => Distance(c, x, y) != 1
      case Format(w) => var i := FormatIndex(size, c); i == 15 || w[14 - i]
      case VersionInfo(w) => w[17 - VersionIndex(size, c)]
    }
  }

  /** Chebyshev distance. */
  function Distance(c: Cell, x: nat, y: nat): nat {
    Max(Abs(c.x - x), Abs(c.y - y))
  }

  /** Which format bit a cell holds: 0 to 14, or 15 for the module that is always black, or -1. */
  function FormatIndex(size: nat, c: Cell): (i: int)
    ensures -1 <= i <= 15 || size < 21 || !Inside(c, size)
  {
    if c.x == 8 && c.y <= 5 then c.y
    else if c == Cell(8, 7) then 6
    else if c == Cell(8, 8) then 7
    else if c == Cell(7, 8) then 8
    else if c.y == 8 && c.x <= 5 then 14 - c.x
    else if c.y == 8 && c.x + 8 >= size then size - 1 - c.x
    else if c.x == 8 && c.y + 7 >= size then c.y + 15 - size
    else if c.x == 8 && c.y + 8 == size then 15
    else -1
  }

  /** Which version bit a cell holds, or -1. */
  function VersionIndex(size: nat, c: Cell): (i: int)
    ensures -1 <= i <= 17
  {
    if c.y <= 5 && size <= c.x + 11 && c.x + 9 <= size then c.y * 3 + (c.x + 11 - size)
    else if c.x <= 5 && size <= c.y + 11 && c.y + 9 <= size then c.x * 3 + (c.y + 11 - size)
    else -1
  }

  // ---------- drawing shapes ----------

  function Draw(g: Grid, s: Shape): (r: Grid)
    requires Square(g, |g|) && s.Valid(|g|)
    ensures Square(r, |g|)
    ensures forall c | Inside(c, |g|) :: Get(r, c) == if s.Covers(|g|, c) then s.Colour(|g|, c) else Get(g, c)
  {
    Build(|g|, c => if Inside(c, |g|) && s.Covers(|g|, c) then s.Colour(|g|, c) else Inside(c, |g|) && Get(g, c))
  }

  function Mark(f: Grid, s: Shape): (r: Grid)
    requires Square(f, |f|)
    ensures Square(r, |f|)
    ensures forall c | Inside(c, |f|) :: Get(r, c) == (s.Covers(|f|, c) || Get(f, c))
  {
    Build(|f|, c => Inside(c, |f|) && (s.Covers(|f|, c) || Get(f, c)))
  }

  ghost predicate AllShapes(ss: seq<Shape>, size: nat) {
    forall i | 0 <= i < |ss| :: ss[i].Valid(size)
  }

  function DrawAll(g: Grid, ss: seq<Shape>): (r: Grid)
    requires Square(g, |g|) && AllShapes(ss, |g|)
    ensures Square(r, |g|)
  {
    if ss == [] then g else Draw(DrawAll(g, ss[..|ss| - 1]), ss[|ss| - 1])
  }

  function MarkAll(f: Grid, ss: seq<Shape>): (r: Grid)
    requires Square(f, |f|)
    ensures Square(r, |f|)
  {
    if ss == [] then f else Mark(MarkAll(f, ss[..|ss| - 1]), ss[|ss| - 1])
  }

  /** Every cell of every shape is marked. */
  lemma {:induction false} MarkAllCovers(f: Grid, ss: seq<Shape>, c: Cell)
    requires Square(f, |f|) && Inside(c, |f|)
    ensures Get(MarkAll(f, ss), c) <==> Get(f, c) || exists i :: 0 <= i < |ss| && ss[i].Covers(|f|, c)
  {
    hide Shape.Covers, Mark;
    if ss != [] {
      var n := |ss| - 1;
      MarkAllCovers(f, ss[..n], c);
      if Get(MarkAll(f, ss[..n]), c) && !Get(f, c) {
        var i :| 0 <= i < n && ss[..n][i].Covers(|f|, c);
        assert ss[i].Covers(|f|, c);
      }
      if i :| 0 <= i < |ss| && ss[i].Covers(|f|, c) {
        if i < n { assert ss[..n][i].Covers(|f|, c); }
      }
    }
  }

  // ---------- format and version words ----------

  /** One step of rem = (rem << 1) ^ ((rem >> w-1) * poly) on a register of w bits; the top bit of
      poly cancels the bit shifted out, so poly is given without it. */
  function BchStep(rem: seq<bool>, poly: seq<bool>): (r: seq<bool>)
    requires |rem| == |poly| > 0
    ensures |r| == |rem|
  {
    var shifted := rem[1..] + [false];
    if rem[0] then XorBits(shifted, poly) else shifted
  }

  function Bch(rem: seq<bool>, poly: seq<bool>, n: nat): (r: seq<bool>)
    requires |rem| == |poly| > 0
    ensures |r| == |rem|
  {
    if n == 0 then rem else BchStep(Bch(rem, poly, n - 1), poly)
  }

  /** The fifteen format bits: level and mask, their check bits, and the fixed pattern 0x5412. */
  function FormatWord(ecl: Ecc, mask: nat): (w: seq<bool>)
    requires mask < 8
    ensures |w| == 15
  {
    var data := ToBits(ecl.FormatBits() * 8 + mask, 5);
    XorBits(data + Bch(ToBits(0, 5) + data, ToBits(0x137, 10), 10), ToBits(0x5412, 15))
  }

  function VersionWord(version: nat): (w: seq<bool>)
    ensures |w| == 18
  {
    var data := ToBits(version, 6);
    data + Bch(ToBits(0, 6) + data, ToBits(0xF25, 12), 12)
  }

  // ---------- the function patterns of a version ----------

  function NumAlign(version: nat): nat {
    if version == 1 then 0 else version / 7 + 2
  }

  function AlignStep(version: nat): nat
    requires version > 1
  {
    if version == 32 then 26 else (version * 4 + NumAlign(version) * 2 + 1) / (NumAlign(version) * 2 - 2) * 2
  }

  /** Position i of the alignment patterns, from the left. */
  function AlignPosition(version: nat, i: nat): int
    requires 1 <= version && i < NumAlign(version)
  {
    if i == 0 then 6 else SizeOf(version) - 7 - (NumAlign(version) - 1 - i) * AlignStep(version)
  }

  /** Patterns stay inside the symbol. */
  lemma AlignInside(version: nat, i: nat)
    requires 1 <= version <= 40 && i < NumAlign(version)
    ensures 2 <= AlignPosition(version, i) && AlignPosition(version, i) + 2 < SizeOf(version)
  {
    if i > 0 {
      var n, step := NumAlign(version), AlignStep(version);
      assert (n - 2) * step <= SizeOf(version) - 9 by {
        if n == 2 {} else if n == 3 {} else if n == 4 {} else if n == 5 {} else if n == 6 {} else { assert n == 7; }
      }
      MulAtMost(n - 1 - i, n - 2, step);
    }
  }

  lemma MulAtMost(a: nat, b: nat, c: nat)
    requires a <= b
    ensures a * c <= b * c
  {}

  function AlignAt(version: nat, i: nat): (p: nat)
    requires 1 <= version <= 40 && i < NumAlign(version)
    ensures p == AlignPosition(version, i) && 2 <= p && p + 2 < SizeOf(version)
  {
    AlignInside(version, i);
    AlignPosition(version, i)
  }

  function AlignPositions(version: nat): (p: seq<nat>)
    requires 1 <= version <= 40
    ensures |p| == NumAlign(version)
    ensures forall i | 0 <= i < |p| :: p[i] == AlignAt(version, i)
  {
    seq(NumAlign(version), i requires 0 <= i < NumAlign(version) => AlignAt(version, i))
  }

  /** Row i of the alignment patterns up to column n; three corners hold finders instead. */
  function AlignRow(p: seq<nat>, i: nat, n: nat): (ss: seq<Shape>)
    requires i < |p| && n <= |p|
  {
    if n == 0 then []
    else
      var j, last := n - 1, |p| - 1;
      AlignRow(p, i, j) +
      if (i == 0 && j == 0) || (i == 0 && j == last) || (i == last && j == 0) then [] else [Alignment(p[i], p[j])]
  }

  function AlignRows(p: seq<nat>, m: nat): (ss: seq<Shape>)
    requires m <= |p|
  {
    if m == 0 then [] else AlignRows(p, m - 1) + AlignRow(p, m - 1, |p|)
  }

  lemma {:induction false} AlignRowValid(p: seq<nat>, i: nat, n: nat, size: nat)
    requires i < |p| && n <= |p| && forall k | 0 <= k < |p| :: 2 <= p[k] && p[k] + 2 < size
    ensures AllShapes(AlignRow(p, i, n), size)
  {
    if n > 0 {
      AlignRowValid(p, i, n - 1, size);
    }
  }

  lemma {:induction false} AlignRowsValid(p: seq<nat>, m: nat, size: nat)
    requires m <= |p| && forall k | 0 <= k < |p| :: 2 <= p[k] && p[k] + 2 < size
    ensures AllShapes(AlignRows(p, m), size)
  {
    if m > 0 {
      AlignRowsValid(p, m - 1, size);
      AlignRowValid(p, m - 1, |p|, size);
    }
  }

  /** The shapes drawn before the format and version information. */
  function FixedShapes(version: nat): (ss: seq<Shape>)
    requires 1 <= version <= 40
    ensures AllShapes(ss, SizeOf(version))
  {
    var size, p := SizeOf(version), AlignPositions(version);
    AlignRowsValid(p, |p|, size);
    [Timing, Finder(3, 3), Finder(size - 4, 3), Finder(3, size - 4)] + AlignRows(p, |p|)
  }

  /** All function patterns, in drawing order. */
  function FunctionShapes(version: nat, ecl: Ecc): (ss: seq<Shape>)
    requires 1 <= version <= 40
    ensures AllShapes(ss, SizeOf(version))
  {
    FixedShapes(version) + [Format(FormatWord(ecl, 0))] +
    if version < 7 then [] else [VersionInfo(VersionWord(version))]
  }

  function Blank(size: nat): (g: Grid)
    ensures Square(g, size)
  {
    Build(size, c => false)
  }

  /** The modules that the function patterns of a version occupy, whatever the level. */
  function FunctionMap(version: nat): (f: Grid)
    requires 1 <= version <= 40
    ensures Square(f, SizeOf(version))
  {
    MarkAll(Blank(SizeOf(version)), FunctionShapes(version, Low))
  }

  lemma FunctionMapAnyLevel(version: nat, ecl: Ecc)
    requires 1 <= version <= 40
    ensures MarkAll(Blank(SizeOf(version)), FunctionShapes(version, ecl)) == FunctionMap(version)
  {
    hide FormatWord, VersionWord, Shape.Covers, FixedShapes, Blank, MarkAll, SizeOf;
    var size := SizeOf(version);
    var a, b := FunctionShapes(version, ecl), FunctionShapes(version, Low);
    var m1, m2 := MarkAll(Blank(size), a), MarkAll(Blank(size), b);
    forall c | Inside(c, size)
      ensures Get(m1, c) == Get(m2, c)
    {
      MarkAllCovers(Blank(size), a, c);
      MarkAllCovers(Blank(size), b, c);
      SameCover(FormatWord(ecl, 0), FormatWord(Low, 0), size, c);
      assert forall i | 0 <= i < |a| :: a[i].Covers(size, c) == b[i].Covers(size, c);
    }
    SameGrid(m1, m2, size);
  }

  lemma SameCover(v: seq<bool>, w: seq<bool>, size: nat, c: Cell)
    ensures Format(v).Covers(size, c) == Format(w).Covers(size, c)
  {}

  /** Format modules are function modules, so drawing them never touches a codeword, and masking
      never touches them. */
  lemma FormatIsFunction(version: nat, w: seq<bool>, c: Cell)
    requires 1 <= version <= 40 && Inside(c, SizeOf(version)) && Format(w).Covers(SizeOf(version), c)
    ensures Get(FunctionMap(version), c)
  {
    hide FormatWord, Shape.Covers, FixedShapes, Blank;
    var size, ss := SizeOf(version), FunctionShapes(version, Low);
    var i := |FixedShapes(version)|;
    SameCover(w, FormatWord(Low, 0), size, c);
    assert ss[i].Covers(size, c);
    MarkAllCovers(Blank(size), ss, c);
  }

  /** The timing column, which the zigzag scan skips, carries no data. */
  lemma TimingIsFunction(version: nat, c: Cell)
    requires 1 <= version <= 40 && Inside(c, SizeOf(version)) && (c.x == 6 || c.y == 6)
    ensures Get(FunctionMap(version), c)
  {
    hide FormatWord, Blank, AlignRows, VersionWord;
    var size, ss := SizeOf(version), FunctionShapes(version, Low);
    assert ss[0] == Timing && ss[0].Covers(size, c);
    MarkAllCovers(Blank(size), ss, c);
  }
}
