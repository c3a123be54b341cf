/** The penalty score of a symbol.

    A line of modules is specified by its maximal runs. `ScoreLine` is the source's single pass with
    a seven-entry history; it is proved to score exactly the runs of the line and the 1:1:3:1:1
    windows of the runs of the line with a light border of `size` modules at either end. */
module Penalty {
  import opened Zigzag

  const N1 := 3
  const N2 := 3
  const N3 := 40
  const N4 := 10

  // ---- Maximal runs ----

  /** A list of run lengths, alternately light and dark, of which only the first may be empty. */
  predicate Alternating(r: seq<nat>) {
    |r| > 0 && forall i :: 0 < i < |r| ==> r[i] > 0
  }

  predicate LastIsDark(r: seq<nat>) {
    |r| % 2 == 0
  }

  /** Appends one module to a line given by its runs. */
  function Push(r: seq<nat>, dark: bool): (s: seq<nat>)
    requires Alternating(r)
    ensures Alternating(s) && LastIsDark(s) == dark
  {
    if dark == LastIsDark(r) then r[|r| - 1 := r[|r| - 1] + 1] else r + [1]
  }

  /** Run lengths of a line, the first of them light. */
  function Runs(line: seq<bool>): (r: seq<nat>)
    ensures Alternating(r)
    decreases |line|
  {
    if line == [] then [0] else Push(Runs(line[..|line| - 1]), line[|line| - 1])
  }

  lemma RunsPush(line: seq<bool>, dark: bool)
    ensures Runs(line + [dark]) == Push(Runs(line), dark)
  {
    assert (line + [dark])[..|line|] == line;
  }

  function Repeat(n: nat, dark: bool): (s: seq<bool>)
    ensures |s| == n
  {
    seq(n, _ => dark)
  }

  lemma RepeatPush(n: nat, dark: bool)
    ensures Repeat(n + 1, dark) == Repeat(n, dark) + [dark]
  {
  }

  /** The line that a list of alternating run lengths stands for. */
  function Expand(r: seq<nat>): seq<bool>
    decreases |r|
  {
    if r == [] then [] else Expand(r[..|r| - 1]) + Repeat(r[|r| - 1], LastIsDark(r))
  }

  lemma ExpandPush(r: seq<nat>, dark: bool)
    requires Alternating(r)
    ensures Expand(Push(r, dark)) == Expand(r) + [dark]
  {
    var k := |r| - 1;
    if dark == LastIsDark(r) {
      assert Push(r, dark)[..k] == r[..k];
      RepeatPush(r[k], dark);
    } else {
      assert (r + [1])[..|r|] == r;
      RepeatPush(0, dark);
    }
  }

  lemma ExpandNothing()
    ensures Expand([0]) == []
  {
    assert Expand([0]) == Expand([]) + Repeat(0, false);
  }

  /** Expanding the runs gives back the line. */
  lemma {:induction false} ExpandRuns(line: seq<bool>)
    ensures Expand(Runs(line)) == line
    decreases |line|
  {
    hide Push, Expand;
    if line == [] {
      ExpandNothing();
    } else {
      var p, b := line[..|line| - 1], line[|line| - 1];
      ExpandRuns(p);
      ExpandPush(Runs(p), b);
      assert line == p + [b];
    }
  }

  /** The list whose last module is taken away. */
  function Pop(r: seq<nat>): (q: seq<nat>)
    requires Alternating(r) && r != [0]
    ensures Alternating(q) && Push(q, LastIsDark(r)) == r
  {
    var k := |r| - 1;
    if k > 0 && r[k] == 1 then r[..k] else r[k := r[k] - 1]
  }

  /** The sum of the lengths, as a measure. */
  function Total(r: seq<nat>): nat {
    if r == [] then 0 else Total(r[..|r| - 1]) + r[|r| - 1]
  }

  lemma TotalPush(r: seq<nat>, dark: bool)
    requires Alternating(r)
    ensures Total(Push(r, dark)) == Total(r) + 1
  {
    var k := |r| - 1;
    if dark == LastIsDark(r) {
      assert Push(r, dark)[..k] == r[..k];
    } else {
      assert (r + [1])[..|r|] == r;
    }
  }

  /** `Runs` is the only decomposition of a line into maximal runs. */
  lemma {:induction false} RunsOfExpand(r: seq<nat>)
    requires Alternating(r)
    ensures Runs(Expand(r)) == r
    decreases Total(r)
  {
    hide Expand, Total;
    if r == [0] {
      ExpandNothing();
    } else {
      var q, dark := Pop(r), LastIsDark(r);
      TotalPush(q, dark);
      RunsOfExpand(q);
      ExpandPush(q, dark);
      RunsPush(Expand(q), dark);
    }
  }

  // ---- The score of a line ----

  function RunPenalty(len: nat): nat {
    if len >= 5 then N1 + (len - 5) else 0
  }

  function RunPenalties(r: seq<nat>): nat {
    if r == [] then 0 else RunPenalties(r[..|r| - 1]) + RunPenalty(r[|r| - 1])
  }

  /** Seven consecutive runs light, dark, light, dark, light, dark, light: how often they hold the
      finder proportions with four units of light on one side and one on the other. */
  function Window(w: seq<nat>): nat
    requires |w| == 7
  {
    var n := w[5];
    if n > 0 && w[4] == n && w[3] == 3 * n && w[2] == n && w[1] == n then
      (if w[0] >= 4 * n && w[6] >= n then 1 else 0) + (if w[6] >= 4 * n && w[0] >= n then 1 else 0)
    else 0
  }

  /** The finder-like patterns of a list of runs that starts light. */
  function Finders(r: seq<nat>): nat
    decreases |r|
  {
    if |r| < 7 then 0
    else Finders(r[..|r| - 1]) + if LastIsDark(r) then 0 else Window(r[|r| - 7..])
  }

  function Bordered(line: seq<bool>, size: nat): seq<bool> {
    Repeat(size, false) + line + Repeat(size, false)
  }

  function LineScore(line: seq<bool>, size: nat): nat {
    RunPenalties(Runs(line)) + N3 * Finders(Runs(Bordered(line, size)))
  }

  // ---- Borders ----

  function WidenFirst(r: seq<nat>, size: nat): (w: seq<nat>)
    ensures |w| == |r|
  {
    if r == [] then [] else r[0 := r[0] + size]
  }

  /** The runs of a bordered line from the runs of the line. */
  function CloseRuns(r: seq<nat>, size: nat): seq<nat>
    requires |r| > 0
  {
    var k := |r| - 1;
    WidenFirst(if LastIsDark(r) then r + [size] else r[k := r[k] + size], size)
  }

  lemma WidenPush(r: seq<nat>, size: nat, dark: bool)
    requires Alternating(r)
    ensures Alternating(WidenFirst(r, size))
    ensures WidenFirst(Push(r, dark), size) == Push(WidenFirst(r, size), dark)
  {
  }

  lemma {:induction false} RunsOfLight(size: nat)
    ensures Runs(Repeat(size, false)) == [size]
  {
    if size > 0 {
      RunsOfLight(size - 1);
      RepeatPush(size - 1, false);
      RunsPush(Repeat(size - 1, false), false);
    }
  }

  lemma {:induction false} LightPrefix(line: seq<bool>, size: nat)
    ensures Runs(Repeat(size, false) + line) == WidenFirst(Runs(line), size)
    decreases |line|
  {
    if line == [] {
      RunsOfLight(size);
      assert Repeat(size, false) + line == Repeat(size, false);
    } else {
      hide Push, WidenFirst, Repeat;
      var p, b := line[..|line| - 1], line[|line| - 1];
      LightPrefix(p, size);
      WidenPush(Runs(p), size, b);
      RunsPush(Repeat(size, false) + p, b);
      assert Repeat(size, false) + line == Repeat(size, false) + p + [b];
    }
  }

  lemma {:induction false} LightSuffix(line: seq<bool>, size: nat)
    requires size > 0
    ensures var r := Runs(line); var k := |r| - 1;
            Runs(line + Repeat(size, false)) == if LastIsDark(r) then r + [size] else r[k := r[k] + size]
  {
    hide Runs;
    var s := line + Repeat(size - 1, false);
    RepeatPush(size - 1, false);
    assert line + Repeat(size, false) == s + [false];
    RunsPush(s, false);
    if size == 1 {
      assert s == line;
    } else {
      LightSuffix(line, size - 1);
    }
  }

  lemma BorderedRuns(line: seq<bool>, size: nat)
    requires size > 0
    ensures Runs(Bordered(line, size)) == CloseRuns(Runs(line), size)
  {
    hide Runs, Repeat;
    LightPrefix(line, size);
    LightSuffix(Repeat(size, false) + line, size);
  }

  // ---- The single pass ----

  /** What the history holds after the runs `c` were pushed: the latest seven, newest first. */
  function Recent(c: seq<nat>): (h: seq<nat>)
    ensures |h| == 7
  {
    seq(7, k requires 0 <= k < 7 => if k < |c| then c[|c| - 1 - k] else 0)
  }

  /** finderPenaltyAddHistory. */
  method AddHistory(size: nat, currentRunLength: nat, history: array<nat>, ghost pushed: seq<nat>)
    requires history.Length == 7 && history[..] == Recent(WidenFirst(pushed, size))
    requires size > 0 && forall i :: 0 < i < |pushed| ==> pushed[i] > 0
    modifies history
    ensures history[..] == Recent(WidenFirst(pushed + [currentRunLength], size))
  {
    var length := currentRunLength;
    assert history[0] == Recent(WidenFirst(pushed, size))[0];
    if history[0] == 0 {
      length := length + size;
    }
    ghost var was := history[..];
    var i := 6;
    while i > 0
      invariant 0 <= i <= 6
      invariant forall k :: i < k < 7 ==> history[k] == was[k - 1]
      invariant forall k :: 0 <= k <= i ==> history[k] == was[k]
    {
      history[i] := history[i - 1];
      i := i - 1;
    }
    history[0] := length;
  }

  /** finderPenaltyCountPatterns. */
  method CountPatterns(history: array<nat>, ghost runs: seq<nat>) returns (count: nat)
    requires history.Length == 7 && history[..] == Recent(runs)
    requires runs != [] && !LastIsDark(runs)
    ensures count == Finders(runs) - Finders(runs[..|runs| - 1])
  {
    assert forall k :: 0 <= k < 7 ==> history[k] == Recent(runs)[k];
    var n := history[1];
    var core := n > 0 && history[2] == n && history[3] == n * 3 && history[4] == n && history[5] == n;
    if |runs| < 7 {
      assert !core;
    }
    count := (if core && history[0] >= n * 4 && history[6] >= n then 1 else 0)
           + (if core && history[6] >= n * 4 && history[0] >= n then 1 else 0);
  }

  /** finderPenaltyTerminateAndCount. */
  method TerminateAndCount(size: nat, runColor: bool, run: nat, history: array<nat>, ghost done: seq<nat>)
    returns (count: nat)
    requires history.Length == 7 && history[..] == Recent(WidenFirst(done, size))
    requires size > 0 && forall i :: 0 < i < |done| ==> done[i] > 0
    requires runColor == LastIsDark(done + [run]) && (runColor ==> run > 0)
    modifies history
    ensures count + Finders(WidenFirst(done, size)) == Finders(CloseRuns(done + [run], size))
  {
    var currentRunLength := run;
    ghost var pushed := done;
    if runColor {
      AddHistory(size, currentRunLength, history, pushed);
      pushed := pushed + [currentRunLength];
      assert WidenFirst(pushed, size)[..|done|] == WidenFirst(done, size);
      currentRunLength := 0;
    }
    currentRunLength := currentRunLength + size;
    AddHistory(size, currentRunLength, history, pushed);
    var all := WidenFirst(pushed + [currentRunLength], size);
    assert all[..|pushed|] == WidenFirst(pushed, size);
    assert all == CloseRuns(done + [run], size);
    count := CountPatterns(history, all);
  }

  lemma RunPenaltiesPush(r: seq<nat>, len: nat)
    ensures RunPenalties(r + [len]) == RunPenalties(r) + RunPenalty(len)
  {
    assert (r + [len])[..|r|] == r;
  }

  /** The current run grows: what the pass adds. */
  lemma SameColour(done: seq<nat>, run: nat, size: nat, dark: bool)
    requires Alternating(done + [run]) && dark == LastIsDark(done + [run])
    ensures Push(done + [run], dark) == done + [run + 1]
    ensures RunPenalties(done + [run + 1]) ==
            RunPenalties(done + [run]) + if run + 1 == 5 then N1 else if run + 1 > 5 then 1 else 0
  {
    RunPenaltiesPush(done, run);
    RunPenaltiesPush(done, run + 1);
  }

  /** The current run ends: only the history changes the score. */
  lemma OtherColour(done: seq<nat>, run: nat, size: nat, dark: bool)
    requires Alternating(done + [run]) && dark != LastIsDark(done + [run])
    ensures Push(done + [run], dark) == done + [run] + [1]
    ensures RunPenalties(done + [run] + [1]) == RunPenalties(done + [run])
    ensures var next := WidenFirst(done + [run], size);
            next[..|next| - 1] == WidenFirst(done, size) &&
            (LastIsDark(done + [run]) ==> Finders(next) == Finders(WidenFirst(done, size)))
  {
    RunPenaltiesPush(done + [run], 1);
    var next := WidenFirst(done + [run], size);
    assert next[..|done|] == WidenFirst(done, size);
  }

  lemma DoneIsPositive(done: seq<nat>, run: nat)
    requires Alternating(done + [run])
    ensures forall i :: 0 < i < |done| ==> done[i] > 0
    ensures LastIsDark(done + [run]) ==> run > 0
  {
    var r := done + [run];
    assert r[|done|] == run;
    forall i | 0 < i < |done| ensures done[i] > 0 {
      assert r[i] > 0;
    }
  }

  /** One line of getPenaltyScore: the body of its row loop and of its column loop. */
  method ScoreLine(line: seq<bool>, size: nat) returns (result: nat)
    requires size > 0
    ensures result == LineScore(line, size)
  {
    hide Runs, RunPenalties, Finders, Recent, WidenFirst, Push, CloseRuns, Bordered;
    result := 0;
    var runColor, run := false, 0;
    var history := new nat[7](_ => 0);
    ghost var done: seq<nat> := [];
    StartOfLine(size);
    assert line[..0] == [] && history[..] == Recent([]);
    for x := 0 to |line|
      invariant done + [run] == Runs(line[..x])
      invariant runColor == LastIsDark(done + [run])
      invariant history[..] == Recent(WidenFirst(done, size))
      invariant result == RunPenalties(done + [run]) + N3 * Finders(WidenFirst(done, size))
    {
      assert line[..x + 1] == line[..x] + [line[x]];
      RunsPush(line[..x], line[x]);
      DoneIsPositive(done, run);
      if line[x] == runColor {
        SameColour(done, run, size, runColor);
        run := run + 1;
        if run == 5 {
          result := result + N1;
        } else if run > 5 {
          result := result + 1;
        }
      } else {
        OtherColour(done, run, size, line[x]);
        AddHistory(size, run, history, done);
        done := done + [run];
        if !runColor {
          var patterns := CountPatterns(history, WidenFirst(done, size));
          result := result + patterns * N3;
        }
        runColor := line[x];
        run := 1;
      }
    }
    assert line[..|line|] == line;
    DoneIsPositive(done, run);
    BorderedRuns(line, size);
    var patterns := TerminateAndCount(size, runColor, run, history, done);
    result := result + patterns * N3;
  }

  lemma StartOfLine(size: nat)
    ensures Runs([]) == [0] == [] + [0]
    ensures RunPenalties([] + [0]) == 0 && Finders(WidenFirst([], size)) == 0 && WidenFirst([], size) == []
    ensures Recent([]) == seq(7, _ => 0)
  {
    RunPenaltiesPush([], 0);
  }

  // ---- The whole symbol ----

  function Column(g: Grid, n: nat, x: nat): seq<bool>
    requires Square(g, n) && x < n
  {
    seq(n, y requires 0 <= y < n => g[y][x])
  }

  function RowScores(g: Grid, n: nat, rows: nat): nat
    requires Square(g, n) && rows <= n
  {
    if rows == 0 then 0 else RowScores(g, n, rows - 1) + LineScore(g[rows - 1], n)
  }

  function ColumnScores(g: Grid, n: nat, columns: nat): nat
    requires Square(g, n) && columns <= n
  {
    if columns == 0 then 0 else ColumnScores(g, n, columns - 1) + LineScore(Column(g, n, columns - 1), n)
  }

  /** Whether the 2 by 2 block with top left corner (x, y) has one colour. */
  predicate Uniform(g: Grid, n: nat, x: nat, y: nat)
    requires Square(g, n) && x + 1 < n && y + 1 < n
  {
    g[y][x] == g[y][x + 1] == g[y + 1][x] == g[y + 1][x + 1]
  }

  function BlocksInRow(g: Grid, n: nat, y: nat, columns: nat): nat
    requires Square(g, n) && y + 1 < n && columns < n
  {
    if columns == 0 then 0 else BlocksInRow(g, n, y, columns - 1) + if Uniform(g, n, columns - 1, y) then 1 else 0
  }

  function BlockCount(g: Grid, n: nat, rows: nat): nat
    requires Square(g, n) && rows < n
  {
    if rows == 0 then 0 else BlockCount(g, n, rows - 1) + BlocksInRow(g, n, rows - 1, n - 1)
  }

  function DarkInLine(line: seq<bool>): (d: nat)
    ensures d <= |line|
  {
    if line == [] then 0 else DarkInLine(line[..|line| - 1]) + if line[|line| - 1] then 1 else 0
  }

  function DarkCount(g: Grid, rows: nat): nat
    requires rows <= |g|
  {
    if rows == 0 then 0 else DarkCount(g, rows - 1) + DarkInLine(g[rows - 1])
  }

  function Abs(x: int): nat {
    if x < 0 then -x else x
  }

  /** The balance formula of the source. */
  function Balance(dark: nat, total: nat): int
    requires total > 0
  {
    (Abs(dark * 20 - total * 10) + total - 1) / total - 1
  }

  /** (45 - 5k)% <= dark/total <= (55 + 5k)%. */
  predicate WithinBalance(dark: nat, total: nat, k: int) {
    (45 - 5 * k) * total <= 100 * dark <= (55 + 5 * k) * total
  }

  function Score(g: Grid, n: nat): int
    requires Square(g, n) && n > 0
  {
    RowScores(g, n, n) + ColumnScores(g, n, n) + N2 * BlockCount(g, n, n - 1)
      + N4 * Balance(DarkCount(g, n), n * n)
  }

  /** (a + t - 1) / t is the ceiling of a / t. */
  lemma CeilingBounds(a: nat, t: nat)
    requires t > 0 && a > 0
    ensures var q := (a + t - 1) / t; q >= 1 && (q - 1) * t < a <= q * t
  {
    var b := a + t - 1;
    var q := b / t;
    assert b == q * t + b % t;
    assert (q - 1) * t == q * t - t;
  }

  lemma CeilingIsLeast(a: nat, t: nat, k: nat)
    requires t > 0 && a > 0
    ensures var q := (a + t - 1) / t; a <= k * t <==> q <= k
  {
    CeilingBounds(a, t);
    var q := (a + t - 1) / t;
    if q <= k {
      assert q * t <= k * t;
    } else {
      assert k * t <= (q - 1) * t;
    }
  }

  /** The balance formula is the least k >= 0 whose percentage band holds the dark share, and it
      never exceeds 9. */
  lemma BalanceIsLeast(dark: nat, total: nat, k: nat)
    requires total % 2 == 1 && dark <= total
    ensures 0 <= Balance(dark, total) <= 9
    ensures WithinBalance(dark, total, k) <==> Balance(dark, total) <= k
  {
    var a := Abs(dark * 20 - total * 10);
    assert a > 0;
    hide Abs, WithinBalance;
    CeilingBounds(a, total);
    CeilingIsLeast(a, total, 10);
    CeilingIsLeast(a, total, k + 1);
    BandWidth(dark, total, k);
  }

  /** The band is a distance from one half: |20 dark - 10 total| <= (k + 1) total. */
  lemma BandWidth(dark: nat, total: nat, k: int)
    ensures WithinBalance(dark, total, k) <==> Abs(dark * 20 - total * 10) <= (k + 1) * total
  {
    assert (45 - 5 * k) * total == 50 * total - 5 * ((k + 1) * total);
    assert (55 + 5 * k) * total == 50 * total + 5 * ((k + 1) * total);
  }

  lemma {:induction false} DarkBound(g: Grid, n: nat, rows: nat)
    requires Square(g, n) && rows <= n
    ensures DarkCount(g, rows) <= rows * n
  {
    if rows > 0 {
      DarkBound(g, n, rows - 1);
      assert rows * n == (rows - 1) * n + n;
    }
  }

  lemma OddSquare(n: nat)
    requires n % 2 == 1
    ensures (n * n) % 2 == 1
  {
    var m := n / 2;
    assert n * n == 2 * (2 * (m * m) + 2 * m) + 1;
  }

  // ---- The range of a score ----

  lemma {:induction false} RunPenaltiesBound(r: seq<nat>)
    ensures RunPenalties(r) <= Total(r)
  {
    if r != [] {
      RunPenaltiesBound(r[..|r| - 1]);
    }
  }

  lemma {:induction false} TotalRuns(line: seq<bool>)
    ensures Total(Runs(line)) == |line|
  {
    if line == [] {
      assert Total([0]) == Total([]) + 0;
    } else {
      hide Push, Total;
      TotalRuns(line[..|line| - 1]);
      TotalPush(Runs(line[..|line| - 1]), line[|line| - 1]);
    }
  }

  /** Sum of the runs strictly between the first and the last two: the ones windows do not share. */
  function Inner(r: seq<nat>): nat {
    if |r| < 4 then 0 else Inner(r[..|r| - 1]) + r[|r| - 3]
  }

  lemma WindowBound(w: seq<nat>)
    requires |w| == 7
    ensures Window(w) <= 2 && (Window(w) > 0 ==> w[3] >= 3)
  {
  }

  /** Two counted patterns need four modules of their own: a centre of three and a light run. */
  lemma {:induction false} FindersBound(r: seq<nat>)
    requires Alternating(r)
    ensures 2 * Finders(r) <= Inner(r)
    decreases |r|
  {
    hide Window, Inner;
    if |r| >= 7 {
      var p := r[..|r| - 1];
      var q := p[..|p| - 1];
      InnerStep(r);
      InnerStep(p);
      if LastIsDark(r) {
        FindersBound(p);
      } else {
        FindersBound(q);
        WindowBound(r[|r| - 7..]);
        assert Finders(p) == Finders(q);
      }
    } else {
      InnerStep([]);
    }
  }

  lemma InnerStep(r: seq<nat>)
    ensures Inner(r) == if |r| < 4 then 0 else Inner(r[..|r| - 1]) + r[|r| - 3]
  {
  }

  lemma {:induction false} InnerBound(r: seq<nat>)
    requires |r| > 1
    ensures Inner(r) + r[0] + r[|r| - 1] <= Total(r)
    decreases |r|
  {
    if |r| == 2 {
      assert Total(r) == Total(r[..1]) + r[1] && Total(r[..1]) == Total(r[..1][..0]) + r[0];
    } else {
      InnerBound(r[..|r| - 1]);
      if |r| >= 4 {
        InnerDrop(r[..|r| - 1]);
      }
    }
  }

  lemma {:induction false} InnerDrop(r: seq<nat>)
    requires |r| >= 3
    ensures Inner(r) + r[0] + r[|r| - 2] + r[|r| - 1] <= Total(r)
    decreases |r|
  {
    var p := r[..|r| - 1];
    if |r| == 3 {
      assert Total(r) == Total(p) + r[2] && Total(p) == Total(p[..1]) + r[1] &&
             Total(p[..1]) == Total(p[..1][..0]) + r[0];
    } else {
      InnerDrop(p);
    }
  }

  lemma LineScoreBound(line: seq<bool>, size: nat)
    requires size > 0
    ensures LineScore(line, size) <= 21 * |line|
  {
    var r := Runs(line);
    TotalRuns(line);
    RunPenaltiesBound(r);
    BorderedRuns(line, size);
    var c := CloseRuns(r, size);
    FindersBound(c);
    if |c| >= 7 {
      TotalRuns(Bordered(line, size));
      InnerBound(c);
      assert c[0] >= size && c[|c| - 1] >= size;
    }
  }

  lemma {:induction false} LinesBound(g: Grid, n: nat, k: nat)
    requires Square(g, n) && k <= n && n > 0
    ensures RowScores(g, n, k) <= k * (21 * n) && ColumnScores(g, n, k) <= k * (21 * n)
  {
    hide LineScore;
    if k > 0 {
      LinesBound(g, n, k - 1);
      LineScoreBound(g[k - 1], n);
      LineScoreBound(Column(g, n, k - 1), n);
      assert k * (21 * n) == (k - 1) * (21 * n) + 21 * n;
    }
  }

  lemma {:induction false} BlocksBound(g: Grid, n: nat, y: nat, columns: nat)
    requires Square(g, n) && y + 1 < n && columns < n
    ensures BlocksInRow(g, n, y, columns) <= columns
  {
    if columns > 0 {
      BlocksBound(g, n, y, columns - 1);
    }
  }

  lemma {:induction false} BlockCountBound(g: Grid, n: nat, rows: nat)
    requires Square(g, n) && rows < n
    ensures BlockCount(g, n, rows) <= rows * n
  {
    if rows > 0 {
      BlockCountBound(g, n, rows - 1);
      BlocksBound(g, n, rows - 1, n - 1);
      assert rows * n == (rows - 1) * n + n;
    }
  }

  /** The range the source asserts for the score of every symbol size. */
  lemma ScoreRange(g: Grid, n: nat)
    requires Square(g, n) && n % 2 == 1 && n <= 177
    ensures 0 <= Score(g, n) <= 2568888
  {
    hide RowScores, ColumnScores, BlockCount, DarkCount, Balance;
    LinesBound(g, n, n);
    BlockCountBound(g, n, n - 1);
    DarkBound(g, n, n);
    OddSquare(n);
    BalanceIsLeast(DarkCount(g, n), n * n, 0);
    assert n * (21 * n) <= 177 * (21 * 177);
    assert (n - 1) * n <= 176 * 177;
  }

  /** The third part of getPenaltyScore: 2 by 2 blocks of one colour. */
  method ScoreBlocks(modules: Grid, size: nat) returns (result: int)
    requires Square(modules, size) && size > 0
    ensures result == N2 * BlockCount(modules, size, size - 1)
  {
    hide Uniform;
    result := 0;
    for y := 0 to size - 1
      invariant result == N2 * BlockCount(modules, size, y)
    {
      for x := 0 to size - 1
        invariant result == N2 * (BlockCount(modules, size, y) + BlocksInRow(modules, size, y, x))
      {
        if Uniform(modules, size, x, y) {
          result := result + N2;
        }
      }
    }
  }

  /** The fourth part of getPenaltyScore: the dark modules. */
  method CountDark(modules: Grid) returns (dark: nat)
    ensures dark == DarkCount(modules, |modules|)
  {
    dark := 0;
    for y := 0 to |modules|
      invariant dark == DarkCount(modules, y)
    {
      var row := modules[y];
      assert row[..0] == [];
      for x := 0 to |row|
        invariant dark == DarkCount(modules, y) + DarkInLine(row[..x])
      {
        assert row[..x + 1][..x] == row[..x];
        if row[x] {
          dark := dark + 1;
        }
      }
      assert row[..|row|] == row;
    }
  }

  /** getPenaltyScore. */
  method GetPenaltyScore(modules: Grid, size: nat) returns (result: int)
    requires Square(modules, size) && size > 0
    ensures result == Score(modules, size)
  {
    hide LineScore, BlockCount, DarkCount;
    result := 0;
    for y := 0 to size
      invariant result == RowScores(modules, size, y)
    {
      var score := ScoreLine(modules[y], size);
      result := result + score;
    }
    for x := 0 to size
      invariant result == RowScores(modules, size, size) + ColumnScores(modules, size, x)
    {
      var score := ScoreLine(Column(modules, size, x), size);
      result := result + score;
    }
    var blocks := ScoreBlocks(modules, size);
    result := result + blocks;
    var dark := CountDark(modules);
    var total := size * size;
    var k := (Abs(dark * 20 - total * 10) + total - 1) / total - 1;
    result := result + k * N4;
  }
}
