/** The penalty score in terms of modules alone: windows of five, patterns of stretches, blocks and black modules are
    counted on the grid, without runs or histories. */
module PenaltyMeaning {
  import opened Basics
  import opened Grids
  import opened Penalty

  // ---------- five in a row ----------

  /** The five modules that end at i have one colour. */
  predicate FiveEnd(line: seq<bool>, i: nat)
    requires i < |line|
  {
    i >= 4 && line[i - 4] == line[i - 3] == line[i - 2] == line[i - 1] == line[i]
  }

  /** They are the first five of their stretch. */
  predicate FirstFive(line: seq<bool>, i: nat)
    requires i < |line|
  {
    FiveEnd(line, i) && (i == 4 || line[i - 5] != line[i])
  }

  /** Three points for the first five modules of a stretch and one for every further module. */
  function FivesTo(line: seq<bool>, n: nat): nat
    requires n <= |line|
  {
    if n == 0 then 0
    else FivesTo(line, n - 1) + if FirstFive(line, n - 1) then 3 else if FiveEnd(line, n - 1) then 1 else 0
  }

  /** The last run is the longest stretch of one colour at the end of the line. */
  lemma {:induction false} TrailingRun(line: seq<bool>)
    ensures var r := Runs(line); var n := r[|r| - 1];
      && n <= |line| && (forall i | |line| - n <= i < |line| :: line[i] == Black(|r| - 1))
      && (n < |line| ==> n > 0 && line[|line| - n - 1] != Black(|r| - 1))
  {
    if line != [] {
      var m := |line| - 1;
      TrailingRun(line[..m]);
      hide Runs;
      RunsNext(line, m);
      assert line[..m + 1] == line;
    }
  }

  lemma {:induction false} RunCostsMean(line: seq<bool>, n: nat)
    requires n <= |line|
    ensures RunCosts(Runs(line[..n])) == FivesTo(line, n)
  {
    hide Runs, RunCosts, FiveEnd, FirstFive;
    if n == 0 {
      NothingCosts(line[..0]);
    } else {
      RunCostsMean(line, n - 1);
      CostsNext(line, n - 1);
      FifthModule(line, n - 1);
    }
  }

  /** A run pays three points when it reaches five modules, and one for each module after that. */
  lemma CostsNext(line: seq<bool>, i: nat)
    requires i < |line|
    ensures var r := Runs(line[..i]); var same := line[i] == Black(|r| - 1);
      RunCosts(Runs(line[..i + 1])) ==
      RunCosts(r) + if same && r[|r| - 1] == 4 then 3 else if same && r[|r| - 1] >= 4 then 1 else 0
  {
    hide Runs, RunCosts;
    var r := Runs(line[..i]);
    var k := |r| - 1;
    RunsNext(line, i);
    CostsLast(r);
    CostsLast(Runs(line[..i + 1]));
    if line[i] == Black(k) {
      assert r[k := r[k] + 1][..k] == r[..k];
    } else {
      assert (r + [1])[..k + 1] == r;
    }
  }

  /** Module i ends five of a colour exactly if it joins a run of at least four. */
  lemma FifthModule(line: seq<bool>, i: nat)
    requires i < |line|
    ensures var r := Runs(line[..i]); var same := line[i] == Black(|r| - 1);
      && FiveEnd(line, i) == (same && r[|r| - 1] >= 4)
      && FirstFive(line, i) == (same && r[|r| - 1] == 4)
  {
    hide Runs;
    TrailingRun(line[..i]);
    var r := Runs(line[..i]);
    var n := r[|r| - 1];
    assert forall j | i - n <= j < i :: line[j] == line[..i][j] == Black(|r| - 1);
    assert n < i ==> line[i - n - 1] == line[..i][i - n - 1];
  }

  lemma NothingCosts(line: seq<bool>)
    requires line == []
    ensures RunCosts(Runs(line)) == 0
  {
    assert [0][..0] == [];
  }

  lemma CostsLast(runs: seq<nat>)
    requires runs != []
    ensures RunCosts(runs) == RunCosts(runs[..|runs| - 1]) + RunCost(runs[|runs| - 1])
  {}

  // ---------- finder-like patterns ----------

  /** The modules from a up to b have one colour. */
  ghost predicate Stretch(line: seq<bool>, a: int, b: int, colour: bool) {
    0 <= a <= b <= |line| && forall i | a <= i < b :: line[i] == colour
  }

  /** From s on: dark, light, dark, light, dark in the proportions 1:1:3:1:1, n modules to the unit, with lead light
      modules in front and tail light modules behind. */
  ghost predicate FinderAt(line: seq<bool>, s: nat, n: nat, lead: nat, tail: nat) {
    && n > 0 && Stretch(line, s - lead, s, false)
    && Stretch(line, s, s + n, true) && Stretch(line, s + n, s + 2 * n, false)
    && Stretch(line, s + 2 * n, s + 5 * n, true) && Stretch(line, s + 5 * n, s + 6 * n, false)
    && Stretch(line, s + 6 * n, s + 7 * n, true) && Stretch(line, s + 7 * n, s + 7 * n + tail, false)
  }

  /** Modules before run k. */
  function Before(runs: seq<nat>, k: nat): nat
    requires k <= |runs|
  {
    if k == 0 then 0 else Before(runs, k - 1) + runs[k - 1]
  }

  lemma {:induction false} ExpandSplit(runs: seq<nat>, k: nat)
    requires k <= |runs|
    ensures |Expand(runs[..k], false)| == Before(runs, k) <= |Expand(runs, false)|
    ensures Expand(runs, false)[..Before(runs, k)] == Expand(runs[..k], false)
  {
    hide Expand;
    if k == 0 {
      ExpandNone(runs[..0], false);
    } else {
      ExpandSplit(runs, k - 1);
      assert runs[..k] == runs[..k - 1] + [runs[k - 1]];
      ExpandLast(runs[..k - 1], runs[k - 1]);
      assert runs == runs[..k] + runs[k..];
      ExpandAppend(runs[..k], runs[k..], false);
    }
  }

  /** Run k stands at its place in the line. */
  lemma RunPlace(runs: seq<nat>, k: nat)
    requires k < |runs|
    ensures Before(runs, k + 1) == Before(runs, k) + runs[k] <= |Expand(runs, false)|
    ensures Stretch(Expand(runs, false), Before(runs, k), Before(runs, k + 1), Black(k))
  {
    hide Expand;
    ExpandSplit(runs, k + 1);
    ExpandSplit(runs, k);
    var line := Expand(runs, false);
    assert runs[..k + 1] == runs[..k] + [runs[k]];
    ExpandLast(runs[..k], runs[k]);
    forall i | Before(runs, k) <= i < Before(runs, k + 1)
      ensures line[i] == Black(k)
    {
      assert line[..Before(runs, k + 1)][i] == line[i];
    }
  }

  lemma WholeLine(runs: seq<nat>)
    ensures Before(runs, |runs|) == |Expand(runs, false)|
  {
    ExpandSplit(runs, |runs|);
    assert runs[..|runs|] == runs;
  }

  /** A stretch of its colour that starts with run k is part of the run, and all of it if the other colour follows. */
  lemma StretchInRun(runs: seq<nat>, k: nat, n: nat)
    requires Positive(runs) && k < |runs| && n > 0
    requires Stretch(Expand(runs, false), Before(runs, k), Before(runs, k) + n, Black(k))
    ensures runs[k] >= n
    ensures Before(runs, k) + n < |Expand(runs, false)| && Expand(runs, false)[Before(runs, k) + n] != Black(k) ==>
      runs[k] == n && k + 1 < |runs|
  {
    hide Expand;
    RunPlace(runs, k);
    WholeLine(runs);
    if k + 1 < |runs| {
      RunPlace(runs, k + 1);
      assert Expand(runs, false)[Before(runs, k + 1)] == Black(k + 1);
    }
  }

  /** The same for a stretch that ends with run k. */
  lemma StretchBeforeEnd(runs: seq<nat>, k: nat, n: nat)
    requires Positive(runs) && k < |runs| && n > 0
    requires Stretch(Expand(runs, false), Before(runs, k + 1) - n, Before(runs, k + 1), Black(k))
    ensures runs[k] >= n
  {
    hide Expand;
    RunPlace(runs, k);
    if k > 0 {
      RunPlace(runs, k - 1);
      assert Expand(runs, false)[Before(runs, k) - 1] == Black(k - 1);
    }
  }

  lemma SubStretch(line: seq<bool>, a: int, b: int, c: int, d: int, colour: bool)
    requires Stretch(line, a, b, colour) && a <= c <= d <= b
    ensures Stretch(line, c, d, colour)
  {}

  /** The runs around a pattern that ends at white run k, with lead and tail for its light margins. */
  ghost predicate FinderRuns(runs: seq<nat>, k: nat, n: nat, lead: nat, tail: nat)
    requires 6 <= k < |runs|
  {
    FinderCore(runs, k, n) && runs[k - 6] >= lead && runs[k] >= tail
  }

  lemma RunsToModules(runs: seq<nat>, k: nat, n: nat, lead: nat, tail: nat)
    requires 6 <= k < |runs| && !Black(k) && FinderRuns(runs, k, n, lead, tail)
    ensures FinderAt(Expand(runs, false), Before(runs, k - 5), n, lead, tail)
  {
    hide Expand, Stretch, Before;
    var line := Expand(runs, false);
    var s := Before(runs, k - 5);
    RunHere(runs, k - 6, s - runs[k - 6], false);
    SubStretch(line, s - runs[k - 6], s, s - lead, s, false);
    RunHere(runs, k - 5, s, true);
    RunHere(runs, k - 4, s + n, false);
    RunHere(runs, k - 3, s + 2 * n, true);
    RunHere(runs, k - 2, s + 5 * n, false);
    RunHere(runs, k - 1, s + 6 * n, true);
    RunHere(runs, k, s + 7 * n, false);
    SubStretch(line, s + 7 * n, s + 7 * n + runs[k], s + 7 * n, s + 7 * n + tail, false);
  }

  lemma RunHere(runs: seq<nat>, k: nat, s: int, colour: bool)
    requires k < |runs| && (s == Before(runs, k) || s + runs[k] == Before(runs, k + 1)) && colour == Black(k)
    ensures s + runs[k] == Before(runs, k + 1) && Stretch(Expand(runs, false), s, s + runs[k], colour)
  {
    hide Expand, Stretch;
    RunPlace(runs, k);
  }

  lemma FirstModule(line: seq<bool>, a: int, b: int, colour: bool)
    requires Stretch(line, a, b, colour) && a < b
    ensures 0 <= a < |line| && line[a] == colour
  {}

  /** A stretch followed by the other colour is the whole of the run it starts with. */
  lemma RunEnds(runs: seq<nat>, k: nat, n: nat, m: nat)
    requires Positive(runs) && k < |runs| && n > 0 && m > 0
    requires Stretch(Expand(runs, false), Before(runs, k), Before(runs, k) + n, Black(k))
    requires Stretch(Expand(runs, false), Before(runs, k) + n, Before(runs, k) + n + m, !Black(k))
    ensures runs[k] == n && k + 1 < |runs| && Before(runs, k + 1) == Before(runs, k) + n && Black(k + 1) == !Black(k)
  {
    hide Expand, Stretch;
    FirstModule(Expand(runs, false), Before(runs, k) + n, Before(runs, k) + n + m, !Black(k));
    StretchInRun(runs, k, n);
    RunPlace(runs, k);
  }

  lemma ModulesToRuns(runs: seq<nat>, j: nat, n: nat, lead: nat, tail: nat)
    requires Positive(runs) && 1 <= j < |runs| && Black(j) && lead > 0 && tail > 0
    requires FinderAt(Expand(runs, false), Before(runs, j), n, lead, tail)
    ensures j + 5 < |runs| && !Black(j + 5) && FinderRuns(runs, j + 5, n, lead, tail)
  {
    hide Expand, Stretch;
    RunEnds(runs, j, n, n);
    RunEnds(runs, j + 1, n, 3 * n);
    RunEnds(runs, j + 2, 3 * n, n);
    RunEnds(runs, j + 3, n, n);
    RunEnds(runs, j + 4, n, tail);
    StretchInRun(runs, j + 5, tail);
    StretchBeforeEnd(runs, j - 1, lead);
  }

  /** A dark module after a light one starts a run. */
  lemma {:induction false} RunStart(runs: seq<nat>, s: nat, m: nat) returns (j: nat)
    requires m <= |runs| && 0 < s < Before(runs, m) <= |Expand(runs, false)|
    requires Expand(runs, false)[s] && !Expand(runs, false)[s - 1]
    ensures 1 <= j < |runs| && Before(runs, j) == s && Black(j)
  {
    hide Expand;
    RunPlace(runs, m - 1);
    if s < Before(runs, m - 1) {
      j := RunStart(runs, s, m - 1);
    } else {
      j := m - 1;
    }
  }

  lemma FinderStart(runs: seq<nat>, s: nat, n: nat, lead: nat, tail: nat) returns (k: nat)
    requires Positive(runs) && lead > 0 && tail > 0 && FinderAt(Expand(runs, false), s, n, lead, tail)
    ensures 6 <= k < |runs| && !Black(k) && Before(runs, k - 5) == s && FinderRuns(runs, k, n, lead, tail)
  {
    hide Expand;
    WholeLine(runs);
    var j := RunStart(runs, s, |runs|);
    ModulesToRuns(runs, j, n, lead, tail);
    k := j + 5;
  }

  /** A pattern with four units of light on one side and one on the other. */
  ghost predicate Finder(line: seq<bool>, s: nat, n: nat, leading: bool) {
    if leading then FinderAt(line, s, n, 4 * n, n) else FinderAt(line, s, n, n, 4 * n)
  }

  ghost predicate FinderFrom(line: seq<bool>, s: nat, leading: bool) {
    exists n: nat :: Finder(line, s, n, leading)
  }

  /** Where the patterns with the wide margin on one side start. */
  ghost function FinderStarts(line: seq<bool>, leading: bool): set<nat> {
    set s: nat | s < |line| && FinderFrom(line, s, leading)
  }

  ghost predicate PatternEnds(runs: seq<nat>, k: nat, leading: bool)
    requires k < |runs|
  {
    && 6 <= k && !Black(k) && var n := runs[k - 1];
    if leading then FinderRuns(runs, k, n, 4 * n, n) else FinderRuns(runs, k, n, n, 4 * n)
  }

  /** The starts of the patterns that end at one of the first m runs. */
  ghost function StartsTo(runs: seq<nat>, m: nat, leading: bool): set<nat>
    requires m <= |runs|
  {
    if m == 0 then {}
    else StartsTo(runs, m - 1, leading) + if PatternEnds(runs, m - 1, leading) then {Before(runs, m - 6)} else {}
  }

  lemma {:induction false} BeforeMono(runs: seq<nat>, i: nat, j: nat)
    requires Positive(runs) && i < j <= |runs|
    ensures Before(runs, i) < Before(runs, j)
  {
    if i + 1 < j {
      BeforeMono(runs, i, j - 1);
    }
  }

  lemma {:induction false} StartOf(runs: seq<nat>, m: nat, leading: bool, s: nat) returns (k: nat)
    requires m <= |runs| && s in StartsTo(runs, m, leading)
    ensures 6 <= k < m && PatternEnds(runs, k, leading) && Before(runs, k - 5) == s
  {
    if s in StartsTo(runs, m - 1, leading) {
      k := StartOf(runs, m - 1, leading, s);
    } else {
      k := m - 1;
    }
  }

  lemma {:induction false} StartIn(runs: seq<nat>, m: nat, leading: bool, k: nat)
    requires k < m <= |runs| && PatternEnds(runs, k, leading)
    ensures Before(runs, k - 5) in StartsTo(runs, m, leading)
  {
    if k < m - 1 {
      StartIn(runs, m - 1, leading, k);
    }
  }

  lemma NewStart(runs: seq<nat>, m: nat, leading: bool)
    requires Positive(runs) && 6 <= m < |runs|
    ensures Before(runs, m - 5) !in StartsTo(runs, m, leading)
  {
    if Before(runs, m - 5) in StartsTo(runs, m, leading) {
      var k := StartOf(runs, m, leading, Before(runs, m - 5));
      BeforeMono(runs, k - 5, m - 5);
    }
  }

  lemma NoStarts(runs: seq<nat>, leading: bool)
    ensures |StartsTo(runs, 0, leading)| == 0
  {}

  lemma StartsNext(runs: seq<nat>, k: nat, leading: bool)
    requires Positive(runs) && k < |runs|
    ensures |StartsTo(runs, k + 1, leading)| ==
      |StartsTo(runs, k, leading)| + if PatternEnds(runs, k, leading) then 1 else 0
  {
    hide FinderRuns, Before, Positive;
    if PatternEnds(runs, k, leading) {
      NewStart(runs, k, leading);
    }
  }

  lemma PatternsAt(runs: seq<nat>, k: nat)
    requires k < |runs|
    ensures FinderPatterns(runs, k) ==
      (if PatternEnds(runs, k, true) then 1 else 0) + if PatternEnds(runs, k, false) then 1 else 0
  {}

  lemma {:induction false} CountStarts(runs: seq<nat>, m: nat)
    requires Positive(runs) && m <= |runs|
    ensures FinderCount(runs, m) == |StartsTo(runs, m, true)| + |StartsTo(runs, m, false)|
  {
    hide FinderPatterns, PatternEnds, StartsTo, Positive;
    if m == 0 {
      NoStarts(runs, true);
      NoStarts(runs, false);
    } else {
      CountStarts(runs, m - 1);
      PatternsAt(runs, m - 1);
      StartsNext(runs, m - 1, true);
      StartsNext(runs, m - 1, false);
    }
  }

  /** The starts found on the runs are the starts seen on the modules. */
  lemma StartsAgree(runs: seq<nat>, leading: bool)
    requires Positive(runs)
    ensures StartsTo(runs, |runs|, leading) == FinderStarts(Expand(runs, false), leading)
  {
    hide Expand, Before, StartsTo, FinderRuns, FinderAt;
    var line := Expand(runs, false);
    forall s | s in StartsTo(runs, |runs|, leading)
      ensures s in FinderStarts(line, leading)
    {
      var k := StartOf(runs, |runs|, leading, s);
      var n := runs[k - 1];
      RunsToModules(runs, k, n, if leading then 4 * n else n, if leading then n else 4 * n);
      assert Finder(line, s, n, leading);
      FinderInside(line, s, n, if leading then 4 * n else n, if leading then n else 4 * n);
    }
    forall s | s in FinderStarts(line, leading)
      ensures s in StartsTo(runs, |runs|, leading)
    {
      var n: nat :| Finder(line, s, n, leading);
      FinderInside(line, s, n, if leading then 4 * n else n, if leading then n else 4 * n);
      var k := FinderStart(runs, s, n, if leading then 4 * n else n, if leading then n else 4 * n);
      CoreUnit(runs, k, n, if leading then 4 * n else n, if leading then n else 4 * n);
      StartIn(runs, |runs|, leading, k);
    }
  }

  lemma FinderInside(line: seq<bool>, s: nat, n: nat, lead: nat, tail: nat)
    requires FinderAt(line, s, n, lead, tail)
    ensures n > 0 && s < |line|
  {}

  lemma CoreUnit(runs: seq<nat>, k: nat, n: nat, lead: nat, tail: nat)
    requires 6 <= k < |runs| && FinderRuns(runs, k, n, lead, tail)
    ensures runs[k - 1] == n
  {}

  /** What a line costs, read off its modules: its stretches of five and more, and forty points for every finder-like
      pattern of the line between its borders. */
  lemma LineMeans(line: seq<bool>, size: nat)
    requires size > 0
    ensures LinePenalty(line, size) == FivesTo(line, |line|) +
      40 * (|FinderStarts(Bordered(line, size), true)| + |FinderStarts(Bordered(line, size), false)|)
  {
    hide Expand, BorderedRuns, Bordered, FinderCount, RunCosts, Runs, FivesTo, FinderStarts, StartsTo;
    var runs := BorderedRuns(line, size);
    BorderedRunsCorrect(line, size);
    CountStarts(runs, |runs|);
    StartsAgree(runs, true);
    StartsAgree(runs, false);
    RunCostsMean(line, |line|);
    assert line[..|line|] == line;
  }

  // ---------- blocks and black modules ----------

  /** The corners, in reading order before (n, y), of the two-by-two blocks of one colour. */
  ghost function BlocksTo(g: Grid, y: nat, n: nat): set<Cell>
    requires Square(g, |g|)
  {
    set i: nat, j: nat | i + 1 < |g| && j + 1 < |g| && (j < y || (j == y && i < n)) && UniformBlock(g, i, j) ::
      Cell(i, j)
  }

  /** The black modules in reading order before (n, y). */
  ghost function BlacksTo(g: Grid, y: nat, n: nat): set<Cell>
    requires Square(g, |g|)
  {
    set i: nat, j: nat | i < |g| && j < |g| && (j < y || (j == y && i < n)) && g[j][i] :: Cell(i, j)
  }

  ghost function BlockCells(g: Grid): set<Cell>
    requires Square(g, |g|)
  {
    set i: nat, j: nat | i + 1 < |g| && j + 1 < |g|
      && g[j][i] == g[j][i + 1] == g[j + 1][i] == g[j + 1][i + 1] :: Cell(i, j)
  }

  ghost function BlackCells(g: Grid): set<Cell>
    requires Square(g, |g|)
  {
    set i: nat, j: nat | i < |g| && j < |g| && g[j][i] :: Cell(i, j)
  }

  lemma BlocksNext(g: Grid, y: nat, x: nat)
    requires Square(g, |g|) && x + 1 < |g| && y + 1 < |g|
    ensures |BlocksTo(g, y, x + 1)| == |BlocksTo(g, y, x)| + if UniformBlock(g, x, y) then 1 else 0
  {
    hide UniformBlock;
    assert BlocksTo(g, y, x + 1) == BlocksTo(g, y, x) + if UniformBlock(g, x, y) then {Cell(x, y)} else {};
  }

  lemma BlocksNextRow(g: Grid, y: nat)
    requires Square(g, |g|) && |g| > 0
    ensures BlocksTo(g, y + 1, 0) == BlocksTo(g, y, |g| - 1) && BlocksTo(g, 0, 0) == {}
  {}

  lemma {:induction false} BlocksCounted(g: Grid, y: nat, n: nat)
    requires Square(g, |g|) && n < |g| && y + 1 < |g|
    ensures UniformBlocks(g, y) + BlocksInRow(g, y, n) == |BlocksTo(g, y, n)|
    decreases y, n
  {
    hide BlocksTo, UniformBlock;
    if n > 0 {
      BlocksCounted(g, y, n - 1);
      BlocksNext(g, y, n - 1);
    } else if y > 0 {
      BlocksCounted(g, y - 1, |g| - 1);
      BlocksNextRow(g, y - 1);
    } else {
      BlocksNextRow(g, 0);
    }
  }

  lemma BlacksNext(g: Grid, y: nat, x: nat)
    requires Square(g, |g|) && x < |g| && y < |g|
    ensures |BlacksTo(g, y, x + 1)| == |BlacksTo(g, y, x)| + if g[y][x] then 1 else 0
  {
    assert BlacksTo(g, y, x + 1) == BlacksTo(g, y, x) + if g[y][x] then {Cell(x, y)} else {};
  }

  lemma {:induction false} BlacksCounted(g: Grid, y: nat, n: nat)
    requires Square(g, |g|) && n <= |g| && y < |g|
    ensures BlackModules(g, y) + BlackIn(g[y][..n]) == |BlacksTo(g, y, n)|
    decreases y, n
  {
    if n > 0 {
      BlacksCounted(g, y, n - 1);
      assert g[y][..n][..n - 1] == g[y][..n - 1];
      BlacksNext(g, y, n - 1);
      hide BlacksTo;
    } else if y > 0 {
      BlacksCounted(g, y - 1, |g|);
      assert g[y - 1][..|g|] == g[y - 1];
      assert BlacksTo(g, y, 0) == BlacksTo(g, y - 1, |g|);
    } else {
      assert BlacksTo(g, 0, 0) == {};
    }
  }

  /** The two area counts are the sizes of the sets of blocks and of black modules. */
  lemma AreasMean(g: Grid)
    requires Square(g, |g|) && |g| > 0
    ensures UniformBlocks(g, |g| - 1) == |BlockCells(g)|
    ensures BlackModules(g, |g|) == |BlackCells(g)|
  {
    var n := |g|;
    BlacksCounted(g, n - 1, n);
    assert g[n - 1][..n] == g[n - 1];
    assert BlacksTo(g, n - 1, n) == BlackCells(g);
    if n > 1 {
      BlocksCounted(g, n - 2, n - 1);
      assert BlocksTo(g, n - 2, n - 1) == BlockCells(g);
    } else {
      assert BlockCells(g) == {};
    }
  }

  // ---------- the score ----------

  /** What some lines cost together. */
  ghost function LinesCost(lines: seq<seq<bool>>, size: nat): nat {
    if lines == [] then 0
    else
      var line := lines[|lines| - 1];
      LinesCost(lines[..|lines| - 1], size) + FivesTo(line, |line|) +
      40 * (|FinderStarts(Bordered(line, size), true)| + |FinderStarts(Bordered(line, size), false)|)
  }

  lemma {:induction false} LinesMean(g: Grid, n: nat, columns: seq<seq<bool>>)
    requires Square(g, |g|) && n <= |g| == |columns| && forall x | 0 <= x < |g| :: columns[x] == Column(g, x)
    ensures RowPenalties(g, n) == LinesCost(g[..n], |g|)
    ensures ColumnPenalties(g, n) == LinesCost(columns[..n], |g|)
  {
    hide LinePenalty, FivesTo, FinderStarts, Bordered;
    if n > 0 {
      LinesMean(g, n - 1, columns);
      LineMeans(g[n - 1], |g|);
      LineMeans(columns[n - 1], |g|);
      assert g[..n][..n - 1] == g[..n - 1];
      assert columns[..n][..n - 1] == columns[..n - 1];
    }
  }

  lemma ColumnsAre(g: Grid, t: Grid)
    requires Square(g, |g|) && Transposed(g, t)
    ensures |t| == |g| && forall x | 0 <= x < |g| :: t[x] == Column(g, x)
  {}

  /** The score of a symbol, read off its modules. */
  lemma ScoreMeans(g: Grid, t: Grid)
    requires Square(g, |g|) && |g| > 0 && Transposed(g, t)
    ensures PenaltyScore(g) == LinesCost(g, |g|) + LinesCost(t, |g|) + 3 * |BlockCells(g)|
      + 10 * Imbalance(|BlackCells(g)|, |g| * |g|)
  {
    hide LinesCost, RowPenalties, ColumnPenalties, Imbalance, BlockCells, BlackCells, Transposed;
    ColumnsAre(g, t);
    LinesMean(g, |g|, t);
    assert g[..|g|] == g && t[..|g|] == t;
    AreasMean(g);
  }

  // ---------- transposition ----------

  /** t is g with rows and columns exchanged. */
  ghost predicate Transposed(g: Grid, t: Grid)
    requires Square(g, |g|)
  {
    |t| == |g| && Square(t, |t|) && forall x, y | 0 <= x < |g| && 0 <= y < |g| :: t[y][x] == g[x][y]
  }

  ghost function Swapped(s: set<Cell>): set<Cell> {
    set c | c in s :: Cell(c.y, c.x)
  }

  lemma {:induction false} SwappedSize(s: set<Cell>)
    ensures |Swapped(s)| == |s|
  {
    if s != {} {
      var c :| c in s;
      SwappedSize(s - {c});
      assert Swapped(s) == Swapped(s - {c}) + {Cell(c.y, c.x)};
    }
  }

  lemma AreasTransposed(g: Grid, t: Grid)
    requires Square(g, |g|) && Transposed(g, t)
    ensures |BlockCells(t)| == |BlockCells(g)| && |BlackCells(t)| == |BlackCells(g)|
  {
    SwappedSize(BlockCells(g));
    SwappedSize(BlackCells(g));
    forall c | c in BlockCells(t)
      ensures c in Swapped(BlockCells(g))
    {
      assert Cell(c.y, c.x) in BlockCells(g);
    }
    assert BlockCells(t) == Swapped(BlockCells(g));
    forall c | c in BlackCells(t)
      ensures c in Swapped(BlackCells(g))
    {
      assert Cell(c.y, c.x) in BlackCells(g);
    }
    assert BlackCells(t) == Swapped(BlackCells(g));
  }

  /** Exchanging rows and columns does not change the score. */
  lemma TransposedScore(g: Grid, t: Grid)
    requires Square(g, |g|) && |g| > 0 && Transposed(g, t)
    ensures PenaltyScore(t) == PenaltyScore(g)
  {
    hide LinesCost, PenaltyScore, Imbalance, BlockCells, BlackCells;
    ScoreMeans(g, t);
    ScoreMeans(t, g);
    AreasTransposed(g, t);
  }
}
