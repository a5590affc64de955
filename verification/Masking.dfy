/** Data masks and the choice between them. */
module Masking {
  import opened Grids
  import opened Patterns
  import opened Penalty
  import opened Tables

  /** Mask pattern m inverts the module at (x, y). */
  predicate Inverts(m: nat, x: nat, y: nat)
    requires m < 8
  {
    match m
    case 0 => (x + y) % 2 == 0
    case 1 => y % 2 == 0
    case 2 => x % 3 == 0
    case 3 => (x + y) % 3 == 0
    case 4 => (x / 3 + y / 2) % 2 == 0
    case 5 => x * y % 2 + x * y % 3 == 0
    case 6 => (x * y % 2 + x * y % 3) % 2 == 0
    case _ => ((x + y) % 2 + x * y % 3) % 2 == 0
  }

  /** The modules that are not function modules, inverted where the pattern says so. */
  function Masked(g: Grid, f: Grid, m: nat): (r: Grid)
    requires Square(g, |g|) && Square(f, |g|) && m < 8
    ensures Square(r, |g|)
    ensures forall c | Inside(c, |g|) :: Get(r, c) == (Get(g, c) != (Inverts(m, c.x, c.y) && !Get(f, c)))
  {
    Build(|g|, c => Inside(c, |g|) && Get(g, c) != (Inverts(m, c.x, c.y) && !Get(f, c)))
  }

  /** Masking twice with one pattern changes nothing. */
  lemma MaskTwice(g: Grid, f: Grid, m: nat)
    requires Square(g, |g|) && Square(f, |g|) && m < 8
    ensures Masked(Masked(g, f, m), f, m) == g
  {
    hide Inverts, Masked;
    SameGrid(Masked(Masked(g, f, m), f, m), g, |g|);
  }

  /** f marks every module that the shape covers. */
  ghost predicate Marked(f: Grid, s: Shape) {
    Square(f, |f|) && forall c | Inside(c, |f|) && s.Covers(|f|, c) :: Get(f, c)
  }

  /** Drawing marked modules and masking do not disturb each other. */
  lemma MaskDrawCommute(g: Grid, f: Grid, m: nat, s: Shape)
    requires Square(g, |g|) && |f| == |g| && Marked(f, s) && s.Valid(|g|) && m < 8
    ensures Masked(Draw(g, s), f, m) == Draw(Masked(g, f, m), s)
  {
    hide Inverts, Masked, Draw, Shape.Covers, Shape.Colour;
    SameGrid(Masked(Draw(g, s), f, m), Draw(Masked(g, f, m), s), |g|);
  }

  /** A later format word replaces an earlier one. */
  lemma RedrawFormat(g: Grid, v: seq<bool>, w: seq<bool>)
    requires Square(g, |g|) && Format(v).Valid(|g|) && Format(w).Valid(|g|)
    ensures Draw(Draw(g, Format(v)), Format(w)) == Draw(g, Format(w))
  {
    hide Draw, Shape.Covers, Shape.Colour;
    forall c | Inside(c, |g|)
      ensures Get(Draw(Draw(g, Format(v)), Format(w)), c) == Get(Draw(g, Format(w)), c)
    {
      SameCover(v, w, |g|, c);
    }
    SameGrid(Draw(Draw(g, Format(v)), Format(w)), Draw(g, Format(w)), |g|);
  }

  // ---------- trial masks ----------

  /** The symbol with its codewords placed and no mask applied, finished with mask m. */
  function Finished(g: Grid, f: Grid, ecl: Ecc, m: nat): (r: Grid)
    requires Square(g, |g|) && Square(f, |g|) && |g| >= 21 && m < 8
    ensures Square(r, |g|)
  {
    Draw(Masked(g, f, m), Format(FormatWord(ecl, m)))
  }

  /** A trial leaves only the format modules changed: applying mask m to a symbol that still shows
      another mask's format gives exactly the symbol finished with m, and undoing the mask gives
      the unmasked symbol with m's format. */
  lemma TrialRestores(g: Grid, f: Grid, ecl: Ecc, v: seq<bool>, m: nat)
    requires Square(g, |g|) && Square(f, |g|) && |g| >= 21 && m < 8 && |v| == 15
    requires forall w | |w| == 15 :: Marked(f, Format(w))
    ensures Draw(Masked(Draw(g, Format(v)), f, m), Format(FormatWord(ecl, m))) == Finished(g, f, ecl, m)
    ensures Masked(Finished(g, f, ecl, m), f, m) == Draw(g, Format(FormatWord(ecl, m)))
  {
    hide Masked, Draw, FormatWord, Marked;
    var w := FormatWord(ecl, m);
    MaskDrawCommute(g, f, m, Format(v));
    RedrawFormat(Masked(g, f, m), v, w);
    MaskDrawCommute(Masked(g, f, m), f, m, Format(w));
    MaskTwice(g, f, m);
  }

  function Score(g: Grid, f: Grid, ecl: Ecc, m: nat): int
    requires Square(g, |g|) && Square(f, |g|) && |g| >= 21 && m < 8
  {
    PenaltyScore(Finished(g, f, ecl, m))
  }

  /** m is the lowest-numbered of the first n masks whose finished symbol has the least penalty. */
  ghost predicate IsBest(g: Grid, f: Grid, ecl: Ecc, m: nat, n: nat)
    requires Square(g, |g|) && Square(f, |g|) && |g| >= 21
  {
    && m < n <= 8
    && (forall j | 0 <= j < n :: Score(g, f, ecl, m) <= Score(g, f, ecl, j))
    && (forall j | 0 <= j < m :: Score(g, f, ecl, m) < Score(g, f, ecl, j))
  }
}
