/** The penalty score of a symbol: what it means, and the streaming computation of it. */
module Penalty {
  import opened Basics
  import opened Grids
  import opened Wrappers

  const PENALTY_N1 := 3
  const PENALTY_N2 := 3
  const PENALTY_N3 := 40
  const PENALTY_N4 := 10

  // ---------- runs of a line ----------

  function Repeat(colour: bool, n: nat): (s: seq<bool>)
    ensures |s| == n && forall i | 0 <= i < n :: s[i] == colour
  {
    seq(n, _ => colour)
  }

  /** The line that a list of run lengths denotes; colours alternate from the given one. */
  function Expand(runs: seq<nat>, colour: bool): seq<bool> {
    if runs == [] then [] else Repeat(colour, runs[0]) + Expand(runs[1..], !colour)
  }

  predicate Positive(runs: seq<nat>) {
    forall i | 0 <= i < |runs| :: runs[i] > 0
  }

  /** A line has one list of maximal runs. */
  lemma {:induction false} RunsUnique(a: seq<nat>, b: seq<nat>, colour: bool)
    requires Positive(a) && Positive(b) && Expand(a, colour) == Expand(b, colour)
    ensures a == b
  {
    var line := Expand(a, colour);
    if a == [] || b == [] {
      assert a == b == [];
    } else {
      LeadingRun(a, colour);
      LeadingRun(b, colour);
      assert a[0] == b[0];
      assert Expand(a[1..], !colour) == line[a[0]..] == Expand(b[1..], !colour);
      RunsUnique(a[1..], b[1..], !colour);
    }
  }

  /** A maximal run is followed by the other colour. */
  lemma LeadingRun(runs: seq<nat>, colour: bool)
    requires runs != [] && Positive(runs)
    ensures var line := Expand(runs, colour);
      && runs[0] <= |line|
      && (forall i | 0 <= i < runs[0] :: line[i] == colour)
      && (runs[0] < |line| ==> line[runs[0]] != colour)
  {
    if |runs| > 1 {
      assert Expand(runs[1..], !colour)[0] == !colour;
    }
  }

  /** Colour of the run after n runs of a line that starts with white. */
  predicate Black(n: nat) {
    n % 2 == 1
  }

  lemma {:induction false} ExpandAppend(a: seq<nat>, b: seq<nat>, colour: bool)
    ensures Expand(a + b, colour) == Expand(a, colour) + Expand(b, colour != Black(|a|))
  {
    hide Expand, Repeat;
    if a == [] {
      assert a + b == b;
      ExpandNone(a, colour);
    } else {
      ExpandAppend(a[1..], b, !colour);
      assert (a + b)[1..] == a[1..] + b && (a + b)[0] == a[0];
      ExpandFirst(a, colour);
      ExpandFirst(a + b, colour);
    }
  }

  lemma ExpandNone(runs: seq<nat>, colour: bool)
    requires runs == []
    ensures Expand(runs, colour) == []
  {}

  lemma ExpandOne(n: nat, colour: bool)
    ensures Expand([n], colour) == Repeat(colour, n)
  {
    assert Expand([n][1..], !colour) == [];
  }

  lemma ExpandFirst(runs: seq<nat>, colour: bool)
    requires runs != []
    ensures Expand(runs, colour) == Repeat(colour, runs[0]) + Expand(runs[1..], !colour)
  {}

  lemma RepeatAdd(colour: bool, m: nat, n: nat)
    ensures Repeat(colour, m + n) == Repeat(colour, m) + Repeat(colour, n)
  {}

  lemma ExpandLast(a: seq<nat>, n: nat)
    ensures Expand(a + [n], false) == Expand(a, false) + Repeat(Black(|a|), n)
  {
    ExpandAppend(a, [n], false);
    ExpandOne(n, Black(|a|));
  }

  /** One more module: the last run grows, or a new one starts. */
  function Advance(runs: seq<nat>, b: bool): (r: seq<nat>)
    requires runs != []
    ensures r != []
  {
    var n := |runs| - 1;
    if b == Black(n) then runs[n := runs[n] + 1] else runs + [1]
  }

  /** The runs of a line read from the left, white first; only the first may be empty. */
  function Runs(line: seq<bool>): (r: seq<nat>)
    ensures r != []
  {
    if line == [] then [0] else Advance(Runs(line[..|line| - 1]), line[|line| - 1])
  }

  lemma AdvanceExpand(r: seq<nat>, b: bool)
    requires r != []
    ensures Expand(Advance(r, b), false) == Expand(r, false) + [b]
    ensures Positive(r[1..]) ==> Positive(Advance(r, b)[1..])
  {
    hide Expand, Repeat;
    var n := |r| - 1;
    if b == Black(n) {
      assert r == r[..n] + [r[n]] && r[n := r[n] + 1] == r[..n] + [r[n] + 1];
      ExpandLast(r[..n], r[n]);
      ExpandLast(r[..n], r[n] + 1);
      RepeatAdd(b, r[n], 1);
      assert Repeat(b, 1) == [b];
    } else {
      ExpandLast(r, 1);
      assert Repeat(b, 1) == [b];
    }
  }

  /** The runs denote the line, and all but the first are maximal. */
  lemma {:induction false} RunsExpand(line: seq<bool>)
    ensures Expand(Runs(line), false) == line && Positive(Runs(line)[1..])
  {
    hide Expand, Repeat, Advance;
    if line == [] {
      ExpandOne(0, false);
    } else {
      var m := |line| - 1;
      RunsExpand(line[..m]);
      AdvanceExpand(Runs(line[..m]), line[m]);
      assert line == line[..m] + [line[m]];
    }
  }

  /** The line between two white borders as wide as the symbol. */
  function Bordered(line: seq<bool>, size: nat): seq<bool> {
    Repeat(false, size) + line + Repeat(false, size)
  }

  /** The runs of the bordered line: the border joins a white first run and a white last run. */
  function BorderedRuns(line: seq<bool>, size: nat): (r: seq<nat>) {
    BordersAdded(Runs(line), size)
  }

  lemma BorderedRunsCorrect(line: seq<bool>, size: nat)
    requires size > 0
    ensures Expand(BorderedRuns(line, size), false) == Bordered(line, size)
    ensures Positive(BorderedRuns(line, size))
  {
    hide Expand, Repeat, Runs, Positive;
    RunsExpand(line);
    var r := Runs(line);
    var n := |r| - 1;
    var first := r[0 := r[0] + size];
    assert Expand(first, false) == Repeat(false, size) + line by {
      ExpandFirst(r, false);
      ExpandFirst(first, false);
      assert first[1..] == r[1..];
      RepeatAdd(false, size, r[0]);
      assert Repeat(false, size) + Repeat(false, r[0]) + Expand(r[1..], true) == Repeat(false, size) + line;
    }
    if Black(n) {
      ExpandLast(first, size);
    } else {
      assert first == first[..n] + [first[n]];
      ExpandLast(first[..n], first[n]);
      ExpandLast(first[..n], first[n] + size);
      assert first[n := first[n] + size] == first[..n] + [first[n] + size];
      RepeatAdd(false, first[n], size);
    }
    PositiveBordered(line, size);
  }

  lemma PositiveBordered(line: seq<bool>, size: nat)
    requires size > 0
    ensures Positive(BorderedRuns(line, size))
  {
    hide Expand, Runs;
    RunsExpand(line);
    var r, b := Runs(line), BorderedRuns(line, size);
    forall i | 0 <= i < |b|
      ensures b[i] > 0
    {
      if 0 < i < |r| {
        assert Runs(line)[1..][i - 1] > 0;
      }
    }
  }

  // ---------- what a line costs ----------

  /** A run of five or more modules costs its length less two. */
  function RunCost(n: nat): nat {
    if n >= 5 then PENALTY_N1 + (n - 5) else 0
  }

  function RunCosts(runs: seq<nat>): nat {
    if runs == [] then 0 else RunCosts(runs[..|runs| - 1]) + RunCost(runs[|runs| - 1])
  }

  /** Runs 1:1:3:1:1 of a finder-like pattern around run k - 3, n modules to the unit, with white
      runs k and k - 6 beside it. */
  predicate FinderCore(runs: seq<nat>, k: nat, n: nat)
    requires 6 <= k < |runs|
  {
    n > 0 && runs[k - 1] == n && runs[k - 2] == n && runs[k - 3] == 3 * n && runs[k - 4] == n && runs[k - 5] == n
  }

  /** Finder-like patterns that end at white run k: one for four units of white on the right with
      one on the left, and one for the mirror image. */
  function FinderPatterns(runs: seq<nat>, k: nat): nat
    requires k < |runs|
  {
    if k < 6 || Black(k) then 0
    else
      var n := runs[k - 1];
      if !FinderCore(runs, k, n) then 0
      else
        (if runs[k] >= 4 * n && runs[k - 6] >= n then 1 else 0) +
        (if runs[k - 6] >= 4 * n && runs[k] >= n then 1 else 0)
  }

  /** Finder-like patterns that end at one of the first m runs. */
  function FinderCount(runs: seq<nat>, m: nat): nat
    requires m <= |runs|
  {
    if m == 0 then 0 else FinderCount(runs, m - 1) + FinderPatterns(runs, m - 1)
  }

  function LinePenalty(line: seq<bool>, size: nat): nat {
    var runs := BorderedRuns(line, size);
    RunCosts(Runs(line)) + PENALTY_N3 * FinderCount(runs, |runs|)
  }

  // ---------- the run history ----------

  /** The last seven runs, latest first, zero where there are fewer. */
  function Recent(runs: seq<nat>): (h: seq<nat>)
    ensures |h| == 7 && forall i | 0 <= i < 7 :: h[i] == if i < |runs| then runs[|runs| - 1 - i] else 0
  {
    seq(7, i requires 0 <= i < 7 => if i < |runs| then runs[|runs| - 1 - i] else 0)
  }

  /** The history with a run pushed to the front; the first run of a line takes in the border. */
  function Push(h: seq<nat>, run: nat, size: nat): (r: seq<nat>)
    requires |h| == 7
    ensures |r| == 7
  {
    [if h[0] == 0 then run + size else run] + h[..6]
  }

  method FinderPenaltyAddHistory(currentRunLength: nat, runHistory: array<nat>, size: nat)
    requires runHistory.Length == 7
    modifies runHistory
    ensures runHistory[..] == Push(old(runHistory[..]), currentRunLength, size)
  {
    var run := currentRunLength;
    if runHistory[0] == 0 {
      run := run + size;
    }
    ghost var before := runHistory[..];
    for i := 6 downto 0
      invariant forall k | 0 <= k <= i :: runHistory[k] == before[k]
      invariant forall k | i < k < 7 :: runHistory[k] == before[k - 1]
    {
      runHistory[i + 1] := runHistory[i];
    }
    runHistory[0] := run;
  }

  /** Finder-like patterns in a history, as the code tests for them. */
  function CountOf(h: seq<nat>): nat
    requires |h| == 7
  {
    var n := h[1];
    var core := n > 0 && h[2] == n && h[3] == n * 3 && h[4] == n && h[5] == n;
    (if core && h[0] >= n * 4 && h[6] >= n then 1 else 0) + (if core && h[6] >= n * 4 && h[0] >= n then 1 else 0)
  }

  lemma CountIsPatterns(runs: seq<nat>)
    requires runs != [] && !Black(|runs| - 1)
    ensures CountOf(Recent(runs)) == FinderPatterns(runs, |runs| - 1)
  {
    var h, k := Recent(runs), |runs| - 1;
    if k < 6 {
      assert k <= 4;
      assert h[5] == 0;
    }
  }

  /** Counts the patterns that end at the last run; a run longer than three sides is the logic error. */
  method FinderPenaltyCountPatterns(runHistory: array<nat>, size: nat) returns (count: Result<nat>)
    requires runHistory.Length == 7
    ensures count == if runHistory[1] > size * 3 then Fail(LogicError) else Ok(CountOf(runHistory[..]))
  {
    var n := runHistory[1];
    if n > size * 3 {
      return Fail(LogicError);
    }
    var core := n > 0 && runHistory[2] == n && runHistory[3] == n * 3 && runHistory[4] == n && runHistory[5] == n;
    count := Ok((if core && runHistory[0] >= n * 4 && runHistory[6] >= n then 1 else 0)
              + (if core && runHistory[6] >= n * 4 && runHistory[0] >= n then 1 else 0));
  }

  lemma RecentPush(runs: seq<nat>, n: nat)
    ensures Recent(runs + [n]) == [n] + Recent(runs)[..6]
  {}

  lemma {:induction false} FinderCountPrefix(runs: seq<nat>, more: seq<nat>, m: nat)
    requires m <= |runs|
    ensures FinderCount(runs + more, m) == FinderCount(runs, m)
  {
    if m > 0 {
      FinderCountPrefix(runs, more, m - 1);
    }
  }

  lemma FinderCountPush(runs: seq<nat>, n: nat)
    ensures FinderCount(runs + [n], |runs| + 1) == FinderCount(runs, |runs|) + FinderPatterns(runs + [n], |runs|)
  {
    FinderCountPrefix(runs, [n], |runs|);
  }

  // ---------- scanning a line ----------

  /** The completed runs of a partly read line, the first with the border added. */
  function Completed(runs: seq<nat>, size: nat): (r: seq<nat>)
    requires runs != []
    ensures |r| == |runs| - 1
    ensures forall i | 0 <= i < |r| :: r[i] == if i == 0 then runs[0] + size else runs[i]
  {
    seq(|runs| - 1, i requires 0 <= i < |runs| - 1 => if i == 0 then runs[0] + size else runs[i])
  }

  /** What the scan knows after reading part of a line. */
  ghost predicate Scanned(runs: seq<nat>, size: nat, history: seq<nat>, result: int)
    requires runs != []
  {
    var done := Completed(runs, size);
    && Positive(runs[1..])
    && history == Recent(done)
    && result == RunCosts(runs) + PENALTY_N3 * FinderCount(done, |done|)
  }

  lemma ScanSame(runs: seq<nat>, size: nat, history: seq<nat>, result: int)
    requires runs != [] && Scanned(runs, size, history, result)
    ensures var n := runs[|runs| - 1] + 1;
      Scanned(runs[|runs| - 1 := n], size, history, result + if n == 5 then PENALTY_N1 else if n > 5 then 1 else 0)
  {
    var m := |runs| - 1;
    var after := runs[m := runs[m] + 1];
    assert after[..m] == runs[..m];
    assert Completed(after, size) == Completed(runs, size);
    assert forall i | 0 <= i < m :: after[1..][i] >= runs[1..][i];
  }

  /** The history is empty exactly before the first run ends. */
  lemma HistoryStart(runs: seq<nat>, size: nat)
    requires size > 0 && runs != [] && Positive(runs[1..])
    ensures Recent(Completed(runs, size))[0] == 0 <==> |runs| == 1
  {
    var m := |runs| - 1;
    if m > 1 {
      assert runs[1..][m - 2] > 0;
    }
  }

  lemma ScanChange(runs: seq<nat>, size: nat, history: seq<nat>, result: int)
    requires size > 0 && runs != [] && Scanned(runs, size, history, result)
    requires forall i | 0 <= i < |runs| :: runs[i] <= size
    ensures var m := |runs| - 1;
      var h := Push(history, runs[m], size);
      && h[1] <= 3 * size
      && Scanned(runs + [1], size, h, result + if Black(m) then 0 else PENALTY_N3 * CountOf(h))
  {
    hide RunCosts, FinderCount, CountOf;
    var m := |runs| - 1;
    var done := Completed(runs, size);
    var run := if m == 0 then runs[m] + size else runs[m];
    HistoryStart(runs, size);
    assert Completed(runs + [1], size) == done + [run];
    RecentPush(done, run);
    FinderCountPush(done, run);
    if !Black(m) {
      CountIsPatterns(done + [run]);
    } else {
      NoPatterns(done + [run]);
    }
    NewRun(runs);
  }

  lemma NoPatterns(runs: seq<nat>)
    requires runs != [] && Black(|runs| - 1)
    ensures FinderPatterns(runs, |runs| - 1) == 0
  {}

  lemma NewRun(runs: seq<nat>)
    requires runs != []
    ensures RunCosts(runs + [1]) == RunCosts(runs)
    ensures Positive(runs[1..]) ==> Positive((runs + [1])[1..])
  {
    assert (runs + [1])[..|runs|] == runs;
    assert (runs + [1])[1..] == runs[1..] + [1];
  }

  /** The history at the end of a line: a black run is closed, and the border is added to the last
      white run. */
  function Closed(h: seq<nat>, colour: bool, run: nat, size: nat): (r: seq<nat>)
    requires |h| == 7
    ensures |r| == 7
  {
    if colour then Push(Push(h, run, size), size, size) else Push(h, run + size, size)
  }

  lemma ClosedRuns(runs: seq<nat>, size: nat)
    requires size > 0 && runs != [] && Positive(runs[1..])
    requires forall i | 0 <= i < |runs| :: runs[i] <= size
    ensures var m, done, b := |runs| - 1, Completed(runs, size), BordersAdded(runs, size);
      var h := Closed(Recent(done), Black(m), runs[m], size);
      h == Recent(b) && h[1] <= 3 * size && FinderCount(b, |b|) == FinderCount(done, |done|) + CountOf(h)
  {
    hide FinderCount, CountOf, FinderPatterns;
    var m, done, b := |runs| - 1, Completed(runs, size), BordersAdded(runs, size);
    HistoryStart(runs, size);
    if Black(m) {
      var closed := done + [runs[m]];
      assert runs[1..][m - 1] > 0;
      RecentPush(done, runs[m]);
      FinderCountPush(done, runs[m]);
      NoPatterns(closed);
      RecentPush(closed, size);
      FinderCountPush(closed, size);
      assert b == closed + [size];
    } else {
      var last := if m == 0 then runs[m] + size + size else runs[m] + size;
      RecentPush(done, last);
      FinderCountPush(done, last);
      assert b == done + [last];
    }
    CountIsPatterns(b);
  }

  method FinderPenaltyTerminateAndCount(currentRunColor: bool, currentRunLength: nat, runHistory: array<nat>, size: nat)
    returns (count: Result<nat>)
    requires runHistory.Length == 7
    modifies runHistory
    ensures runHistory[..] == Closed(old(runHistory[..]), currentRunColor, currentRunLength, size)
    ensures count == if runHistory[1] > size * 3 then Fail(LogicError) else Ok(CountOf(runHistory[..]))
  {
    hide Push, CountOf;
    var length := currentRunLength;
    if currentRunColor {
      FinderPenaltyAddHistory(length, runHistory, size);
      length := 0;
    }
    length := length + size;
    FinderPenaltyAddHistory(length, runHistory, size);
    assert runHistory[1] == runHistory[..][1];
    count := FinderPenaltyCountPatterns(runHistory, size);
  }

  /** Runs of the bordered line, from the runs of the line. */
  function BordersAdded(r: seq<nat>, size: nat): seq<nat>
    requires r != []
  {
    var n := |r| - 1;
    var first := r[0 := r[0] + size];
    if Black(n) then first + [size] else first[n := first[n] + size]
  }

  /** Scans one row or column. */
  method ScanLine(line: seq<bool>, size: nat) returns (result: nat)
    requires |line| == size > 0
    ensures result == LinePenalty(line, size)
  {
    hide Runs, Advance, Black, Completed, BordersAdded, Push, Closed, CountOf, RunCosts, FinderCount, Recent, Scanned;
    hide LinePenalty, Positive, Repeat;
    result := 0;
    var runColor := false;
    var run := 0;
    var runHistory := new nat[7](_ => 0);
    ghost var runs: seq<nat> := [0];
    ScanStart(size, runHistory[..]);
    assert line[..0] == [];
    for x := 0 to size
      invariant runs == Runs(line[..x])
      invariant forall i | 0 <= i < |runs| :: runs[i] <= x
      invariant runColor == Black(|runs| - 1) && run == runs[|runs| - 1]
      invariant Scanned(runs, size, runHistory[..], result)
    {
      RunsNext(line, x);
      if line[x] == runColor {
        ScanSame(runs, size, runHistory[..], result);
        run := run + 1;
        if run == 5 {
          result := result + PENALTY_N1;
        } else if run > 5 {
          result := result + 1;
        }
        runs := runs[|runs| - 1 := run];
      } else {
        ScanChange(runs, size, runHistory[..], result);
        FinderPenaltyAddHistory(run, runHistory, size);
        assert runHistory[1] == runHistory[..][1];
        if !runColor {
          var count := FinderPenaltyCountPatterns(runHistory, size);
          assert count.Ok?;   // the history's second run is never longer than three sides
          result := result + count.value * PENALTY_N3;
        }
        runColor := line[x];
        run := 1;
        runs := runs + [1];
      }
    }
    assert line[..size] == line;
    ScanEnd(line, size, runHistory[..], result);
    var count := FinderPenaltyTerminateAndCount(runColor, run, runHistory, size);
    assert runHistory[1] == runHistory[..][1];
    assert count.Ok?;
    result := result + count.value * PENALTY_N3;
  }

  lemma RunsNext(line: seq<bool>, x: nat)
    requires x < |line|
    ensures var r := Runs(line[..x]); var n := |r| - 1;
      Runs(line[..x + 1]) == if line[x] == Black(n) then r[n := r[n] + 1] else r + [1]
    ensures forall n: nat :: Black(n + 1) == !Black(n)
  {
    assert line[..x + 1][..x] == line[..x];
  }

  lemma ScanEnd(line: seq<bool>, size: nat, history: seq<nat>, result: int)
    requires |line| == size > 0 && Scanned(Runs(line), size, history, result)
    requires forall i | 0 <= i < |Runs(line)| :: Runs(line)[i] <= size
    ensures |history| == 7
    ensures var r := Runs(line);
      var h := Closed(history, Black(|r| - 1), r[|r| - 1], size);
      h[1] <= 3 * size && result + PENALTY_N3 * CountOf(h) == LinePenalty(line, size)
  {
    hide Runs, Closed, CountOf, RunCosts, FinderCount, BordersAdded, Completed, Recent;
    ClosedRuns(Runs(line), size);
  }

  lemma ScanStart(size: nat, history: seq<nat>)
    requires history == [0, 0, 0, 0, 0, 0, 0]
    ensures Scanned([0], size, history, 0) && Runs([]) == [0] && !Black(0)
  {
    assert Completed([0], size) == [];
  }

  /** The runs scored are the only maximal runs of the bordered line. */
  lemma BorderedRunsUnique(line: seq<bool>, size: nat, runs: seq<nat>)
    requires size > 0 && Positive(runs) && Expand(runs, false) == Bordered(line, size)
    ensures runs == BorderedRuns(line, size)
  {
    hide Expand, BorderedRuns, Positive, Bordered;
    BorderedRunsCorrect(line, size);
    RunsUnique(runs, BorderedRuns(line, size), false);
  }

  // ---------- what a symbol costs ----------

  function Column(g: Grid, x: nat): (c: seq<bool>)
    requires Square(g, |g|) && x < |g|
    ensures |c| == |g| && forall y | 0 <= y < |g| :: c[y] == g[y][x]
  {
    seq(|g|, y requires 0 <= y < |g| => g[y][x])
  }

  function RowPenalties(g: Grid, n: nat): nat
    requires Square(g, |g|) && n <= |g|
  {
    if n == 0 then 0 else RowPenalties(g, n - 1) + LinePenalty(g[n - 1], |g|)
  }

  function ColumnPenalties(g: Grid, n: nat): nat
    requires Square(g, |g|) && n <= |g|
  {
    if n == 0 then 0 else ColumnPenalties(g, n - 1) + LinePenalty(Column(g, n - 1), |g|)
  }

  /** The two-by-two block with its top left corner at (x, y) has one colour. */
  predicate UniformBlock(g: Grid, x: nat, y: nat)
    requires Square(g, |g|) && x + 1 < |g| && y + 1 < |g|
  {
    g[y][x] == g[y][x + 1] == g[y + 1][x] == g[y + 1][x + 1]
  }

  function BlocksInRow(g: Grid, y: nat, n: nat): nat
    requires Square(g, |g|) && n < |g| && y + 1 < |g|
  {
    if n == 0 then 0 else BlocksInRow(g, y, n - 1) + if UniformBlock(g, n - 1, y) then 1 else 0
  }

  function UniformBlocks(g: Grid, n: nat): nat
    requires Square(g, |g|) && n < |g|
  {
    if n == 0 then 0 else UniformBlocks(g, n - 1) + BlocksInRow(g, n - 1, |g| - 1)
  }

  function BlackIn(row: seq<bool>): (n: nat)
    ensures n <= |row|
  {
    if row == [] then 0 else BlackIn(row[..|row| - 1]) + if row[|row| - 1] then 1 else 0
  }

  function BlackModules(g: Grid, n: nat): (k: nat)
    requires Square(g, |g|) && n <= |g|
    ensures k <= n * |g|
  {
    if n == 0 then 0 else BlackModules(g, n - 1) + BlackIn(g[n - 1])
  }

  /** The source's measure of imbalance. */
  function Imbalance(black: nat, total: nat): int
    requires total > 0
  {
    (Abs(black * 20 - total * 10) + total - 1) / total - 1
  }

  /** black / total lies between (45 - 5k)% and (55 + 5k)%. */
  predicate Balanced(black: nat, total: nat, k: int) {
    (45 - 5 * k) * total <= 100 * black <= (55 + 5 * k) * total
  }

  /** On an odd number of modules it is the least k >= 0 for which the proportion is balanced. */
  lemma ImbalanceLeast(black: nat, total: nat)
    requires total % 2 == 1
    ensures var k := Imbalance(black, total);
      k >= 0 && Balanced(black, total, k) && forall j | 0 <= j < k :: !Balanced(black, total, j)
  {
    var d := Abs(black * 20 - total * 10);
    var q := (d + total - 1) / total;
    assert d > 0 && Imbalance(black, total) == q - 1;
    hide Balanced, Imbalance, Abs;
    CeilingQuotient(d, total, q);
    BalancedMeans(black, total, q - 1);
    forall j | 0 <= j < q - 1
      ensures !Balanced(black, total, j)
    {
      BalancedMeans(black, total, j);
      MulMono(j + 1, total, q - 1, total);
    }
  }

  lemma CeilingQuotient(d: nat, total: nat, q: int)
    requires d > 0 && total > 0 && q == (d + total - 1) / total
    ensures q >= 1 && (q - 1) * total < d <= q * total
  {
    var r := (d + total - 1) % total;
    assert d + total - 1 == total * q + r;
    assert total * q >= d;
    PositiveFactor(total, q);
    assert (q - 1) * total == total * q - total;
  }

  lemma PositiveFactor(a: int, b: int)
    requires a > 0 && a * b > 0
    ensures b > 0
  {}

  lemma MulMono(a: nat, b: nat, c: nat, d: nat)
    requires a <= c && b <= d
    ensures a * b <= c * d
  {
    assert a * b <= c * b && c * b <= c * d;
  }

  lemma BalancedMeans(black: nat, total: nat, j: nat)
    ensures Balanced(black, total, j) <==> Abs(black * 20 - total * 10) <= (j + 1) * total
  {
    assert (45 - 5 * j) * total == 50 * total - 5 * ((j + 1) * total);
    assert (55 + 5 * j) * total == 50 * total + 5 * ((j + 1) * total);
  }

  function PenaltyScore(g: Grid): int
    requires Square(g, |g|) && |g| > 0
  {
    var size := |g|;
    RowPenalties(g, size) + ColumnPenalties(g, size) + PENALTY_N2 * UniformBlocks(g, size - 1)
    + PENALTY_N4 * Imbalance(BlackModules(g, size), size * size)
  }

  /** The first two passes: all rows, and then all columns. */
  method ScoreLines(g: Grid) returns (result: int)
    requires Square(g, |g|) && |g| > 0
    ensures result == RowPenalties(g, |g|) + ColumnPenalties(g, |g|)
  {
    hide LinePenalty, Column;
    var size := |g|;
    result := 0;
    for y := 0 to size
      invariant result == RowPenalties(g, y)
    {
      var p := ScanLine(g[y], size);
      result := result + p;
    }
    for x := 0 to size
      invariant result == RowPenalties(g, size) + ColumnPenalties(g, x)
    {
      var p := ScanLine(Column(g, x), size);
      result := result + p;
    }
  }

  method GetPenaltyScore(g: Grid) returns (result: int)
    requires Square(g, |g|) && |g| > 0
    ensures result == PenaltyScore(g)
  {
    hide LinePenalty, RowPenalties, ColumnPenalties;
    var size := |g|;
    result := ScoreLines(g);
    ghost var lines := result;
    for y := 0 to size - 1
      invariant result == lines + PENALTY_N2 * UniformBlocks(g, y)
    {
      for x := 0 to size - 1
        invariant result == lines + PENALTY_N2 * (UniformBlocks(g, y) + BlocksInRow(g, y, x))
      {
        var color := g[y][x];
        if color == g[y][x + 1] && color == g[y + 1][x] && color == g[y + 1][x + 1] {
          result := result + PENALTY_N2;
        }
      }
    }
    var black := 0;
    for y := 0 to size
      invariant black == BlackModules(g, y)
    {
      for x := 0 to size
        invariant black == BlackModules(g, y) + BlackIn(g[y][..x])
      {
        assert g[y][..x + 1][..x] == g[y][..x];
        if g[y][x] {
          black := black + 1;
        }
      }
      assert g[y][..size] == g[y];
    }
    var total := size * size;
    var k := (Abs(black * 20 - total * 10) + total - 1) / total - 1;
    result := result + k * PENALTY_N4;
  }

  // ---------- the score fits a long ----------

  function Sum(runs: seq<nat>): nat {
    if runs == [] then 0 else Sum(runs[..|runs| - 1]) + runs[|runs| - 1]
  }

  lemma {:induction false} RunsBound(line: seq<bool>)
    ensures Sum(Runs(line)) == |line| && |Runs(line)| <= |line| + 1
  {
    if line == [] {
      assert [0][..0] == [];
    } else {
      var r, b := Runs(line[..|line| - 1]), line[|line| - 1];
      RunsBound(line[..|line| - 1]);
      var n := |r| - 1;
      assert r[n := r[n] + 1][..n] == r[..n];
      assert (r + [1])[..n + 1] == r;
    }
  }

  lemma {:induction false} RunCostsBound(runs: seq<nat>)
    ensures RunCosts(runs) <= Sum(runs)
  {
    if runs != [] {
      RunCostsBound(runs[..|runs| - 1]);
    }
  }

  lemma {:induction false} FinderCountBound(runs: seq<nat>, m: nat)
    requires m <= |runs|
    ensures FinderCount(runs, m) <= 2 * m
  {
    if m > 0 {
      FinderCountBound(runs, m - 1);
    }
  }

  lemma LineBound(line: seq<bool>, size: nat)
    requires |line| == size
    ensures LinePenalty(line, size) <= 81 * size + 160
  {
    hide RunCosts, FinderCount, Runs, Sum;
    RunsBound(line);
    RunCostsBound(Runs(line));
    var b := BorderedRuns(line, size);
    FinderCountBound(b, |b|);
  }

  lemma {:induction false} LinesBound(g: Grid, n: nat)
    requires Square(g, |g|) && n <= |g|
    ensures RowPenalties(g, n) <= n * (81 * |g| + 160) && ColumnPenalties(g, n) <= n * (81 * |g| + 160)
  {
    hide LinePenalty;
    if n > 0 {
      LinesBound(g, n - 1);
      LineBound(g[n - 1], |g|);
      LineBound(Column(g, n - 1), |g|);
      var c := 81 * |g| + 160;
      assert n * c == (n - 1) * c + c;
    }
  }

  lemma {:induction false} BlocksBound(g: Grid, y: nat, n: nat)
    requires Square(g, |g|) && n < |g| && y + 1 < |g|
    ensures BlocksInRow(g, y, n) <= n
  {
    if n > 0 {
      BlocksBound(g, y, n - 1);
    }
  }

  lemma {:induction false} UniformBlocksBound(g: Grid, n: nat)
    requires Square(g, |g|) && n < |g|
    ensures UniformBlocks(g, n) <= n * |g|
  {
    hide UniformBlock, BlocksInRow;
    if n > 0 {
      UniformBlocksBound(g, n - 1);
      BlocksBound(g, n - 1, |g| - 1);
      assert n * |g| == (n - 1) * |g| + |g|;
    }
  }

  lemma ImbalanceBound(black: nat, total: nat)
    requires total > 0 && black <= total
    ensures Imbalance(black, total) <= 9
  {
    var d := Abs(black * 20 - total * 10);
    var n := d + total - 1;
    assert n == total * (n / total) + n % total;
    assert total * (11 - n / total) == total * 11 - total * (n / total);
    PositiveFactor(total, 11 - n / total);
  }

  /** For every symbol size the score is below 2^31 - 1, so no sum overflows and the first trial
      of the mask search always beats the initial minimum. */
  lemma ScoreBound(g: Grid)
    requires Square(g, |g|) && 0 < |g| <= 177
    ensures PenaltyScore(g) < 0x7FFF_FFFF
  {
    hide RowPenalties, ColumnPenalties, UniformBlocks, BlackModules, Imbalance;
    var n := |g|;
    LinesBound(g, n);
    UniformBlocksBound(g, n - 1);
    ImbalanceBound(BlackModules(g, n), n * n);
    MulMono(n, 81 * n + 160, 177, 81 * 177 + 160);
    MulMono(n - 1, n, 177, 177);
    assert PENALTY_N4 * Imbalance(BlackModules(g, n), n * n) <= 90;
  }
}
