/** Scores that can be told from the rules alone: they tie the weights and the four parts together. */
module PenaltyExamples {
  import opened Penalty
  import opened Zigzag

  /** Which seven runs count, and how often: dark, light, dark, light, dark in the proportions 1:1:3:1:1, with
      four units of light before and one after, or one before and four after. */
  lemma WindowLaw(w: seq<nat>, u: nat)
    requires |w| == 7 && u > 0
    ensures w[1..6] == [u, u, 3 * u, u, u] ==>
              Window(w) == (if w[0] >= 4 * u && w[6] >= u then 1 else 0) + (if w[0] >= u && w[6] >= 4 * u then 1 else 0)
    ensures Window(w) > 0 ==> w[1] > 0 && w[1..6] == [w[1], w[1], 3 * w[1], w[1], w[1]]
  {
    assert w[1..6] == [w[1], w[2], w[3], w[4], w[5]];
  }

  /** A line that holds the proportions once, between runs of four: 40 for either side, and nothing else. */
  lemma FinderLine(size: nat)
    requires size > 0
    ensures LineScore(Expand([4, 1, 1, 3, 1, 1, 4]), size) == 80
  {
    var r := [4, 1, 1, 3, 1, 1, 4];
    RunsOfExpand(r);
    BorderedRuns(Expand(r), size);
    var closed := [4 + size, 1, 1, 3, 1, 1, 4 + size];
    assert CloseRuns(r, size) == closed;
    NoLongRuns(r);
    WindowLaw(closed, 1);
    assert closed[1..6] == [1, 1, 3, 1, 1];
    assert Finders(closed) == Window(closed) by {
      assert closed[|closed| - 7..] == closed && Finders(closed[..6]) == 0;
    }
  }

  lemma {:induction false} NoLongRuns(r: seq<nat>)
    requires forall i :: 0 <= i < |r| ==> r[i] < 5
    ensures RunPenalties(r) == 0
  {
    if r != [] {
      NoLongRuns(r[..|r| - 1]);
    }
  }

  // ---- Symbols of one colour ----

  ghost predicate OneColour(g: Grid, n: nat, dark: bool) {
    Square(g, n) && forall y, x :: 0 <= y < n && 0 <= x < n ==> g[y][x] == dark
  }

  /** A block scores exactly if its four modules have one colour. */
  lemma UniformLaw(g: Grid, n: nat, x: nat, y: nat)
    requires Square(g, n) && x + 1 < n && y + 1 < n
    ensures var a, b := At(g, Cell(x, y)), At(g, Cell(x + 1, y));
            var c, d := At(g, Cell(x, y + 1)), At(g, Cell(x + 1, y + 1));
            Uniform(g, n, x, y) <==> (a && b && c && d) || (!a && !b && !c && !d)
  {
  }

  function PlainRuns(n: nat, dark: bool): (r: seq<nat>)
    requires n > 0
    ensures Alternating(r) && |r| <= 2
  {
    if dark then [0, n] else [n]
  }

  lemma PlainExpands(n: nat, dark: bool)
    requires n > 0
    ensures Expand(PlainRuns(n, dark)) == Repeat(n, dark)
  {
    var r := PlainRuns(n, dark);
    assert r[..|r| - 1] == if dark then [0] else [];
    assert [0][..0] == [];
    assert Expand([0]) == [];
  }

  lemma PlainPenalties(n: nat, dark: bool)
    requires n >= 5
    ensures RunPenalties(PlainRuns(n, dark)) == 3 + (n - 5)
  {
    var r := PlainRuns(n, dark);
    assert r[..|r| - 1] == if dark then [0] else [];
    assert [0][..0] == [];
    assert RunPenalties([0]) == 0;
  }

  /** A line of one colour scores 3 for its first five modules and 1 for each further one. */
  lemma PlainLine(n: nat, dark: bool, size: nat)
    requires n >= 5 && size > 0
    ensures LineScore(Repeat(n, dark), size) == 3 + (n - 5)
  {
    var r, line := PlainRuns(n, dark), Repeat(n, dark);
    PlainExpands(n, dark);
    RunsOfExpand(r);
    BorderedRuns(line, size);
    PlainPenalties(n, dark);
    hide Expand, RunPenalties, PlainRuns, Bordered;
    assert |CloseRuns(r, size)| <= 3;
  }

  lemma {:induction false} PlainRows(g: Grid, n: nat, dark: bool, k: nat)
    requires OneColour(g, n, dark) && n >= 5 && k <= n
    ensures RowScores(g, n, k) == k * (n - 2) && ColumnScores(g, n, k) == k * (n - 2)
    decreases k
  {
    hide LineScore;
    if k > 0 {
      PlainRows(g, n, dark, k - 1);
      PlainLine(n, dark, n);
      assert g[k - 1] == Repeat(n, dark) && Column(g, n, k - 1) == Repeat(n, dark);
      assert k * (n - 2) == (k - 1) * (n - 2) + (n - 2);
    }
  }

  lemma {:induction false} PlainBlocksInRow(g: Grid, n: nat, dark: bool, y: nat, k: nat)
    requires OneColour(g, n, dark) && y + 1 < n && k < n
    ensures BlocksInRow(g, n, y, k) == k
    decreases k
  {
    if k > 0 {
      PlainBlocksInRow(g, n, dark, y, k - 1);
    }
  }

  lemma {:induction false} PlainBlocks(g: Grid, n: nat, dark: bool, k: nat)
    requires OneColour(g, n, dark) && k < n
    ensures BlockCount(g, n, k) == k * (n - 1)
    decreases k
  {
    if k > 0 {
      PlainBlocks(g, n, dark, k - 1);
      PlainBlocksInRow(g, n, dark, k - 1, n - 1);
      assert k * (n - 1) == (k - 1) * (n - 1) + (n - 1);
    }
  }

  lemma {:induction false} PlainDarkLine(line: seq<bool>, dark: bool)
    requires forall x :: 0 <= x < |line| ==> line[x] == dark
    ensures DarkInLine(line) == if dark then |line| else 0
    decreases |line|
  {
    if line != [] {
      PlainDarkLine(line[..|line| - 1], dark);
    }
  }

  lemma {:induction false} PlainDark(g: Grid, n: nat, dark: bool, k: nat)
    requires OneColour(g, n, dark) && k <= n
    ensures DarkCount(g, k) == if dark then k * n else 0
    decreases k
  {
    if k > 0 {
      PlainDark(g, n, dark, k - 1);
      PlainDarkLine(g[k - 1], dark);
      assert k * n == (k - 1) * n + n;
    }
  }

  lemma PlainBalance(total: nat, dark: nat)
    requires total > 0 && (dark == 0 || dark == total)
    ensures Balance(dark, total) == 9
  {
    CeilingIsLeast(10 * total, total, 10);
    CeilingIsLeast(10 * total, total, 9);
  }

  /** A symbol of one colour: every line is one run, every block has one colour, and the balance is worst. */
  lemma PlainSymbol(g: Grid, n: nat, dark: bool)
    requires OneColour(g, n, dark) && n >= 5
    ensures Score(g, n) == 2 * (n * (n - 2)) + 3 * ((n - 1) * (n - 1)) + 10 * 9
  {
    PlainRows(g, n, dark, n);
    PlainBlocks(g, n, dark, n - 1);
    PlainDark(g, n, dark, n);
    PlainBalance(n * n, DarkCount(g, n));
    hide Balance, OneColour;
  }
}
