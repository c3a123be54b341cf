/** The cells that the function patterns of a version occupy, and how many they leave free.

    The count is what the source's closed formula for the number of data modules must be. */
module FunctionCells {
  import opened Format
  import opened QrTables
  import opened Zigzag

  predicate ValidVersion(ver: nat) {
    MIN_VERSION <= ver <= MAX_VERSION
  }

  function SizeOf(ver: nat): (n: nat)
    requires ValidVersion(ver)
    ensures ValidSize(n) && 21 <= n <= 177
  {
    4 * ver + 17
  }

  // ---- Alignment positions ----

  function NumAlign(ver: nat): nat {
    if ver == 1 then 0 else ver / 7 + 2
  }

  function AlignStep(ver: nat): nat
    requires ver >= 2
  {
    StepFor(ver, NumAlign(ver))
  }

  function StepFor(ver: nat, numAlign: nat): nat
    requires numAlign >= 2
  {
    (ver * 8 + numAlign * 3 + 5) / (numAlign * 4 - 4) * 2
  }

  /** The centre lines of the alignment patterns, first to last. */
  function AlignAt(ver: nat, i: nat): int
    requires ValidVersion(ver) && i < NumAlign(ver)
  {
    if i == 0 then 6 else SizeOf(ver) - 7 - (NumAlign(ver) - 1 - i) * AlignStep(ver)
  }

  /** The three finder patterns have no alignment pattern. */
  predicate Aligned(ver: nat, i: nat, j: nat) {
    var m := NumAlign(ver);
    i < m && j < m && !(i == 0 && j == 0) && !(i == 0 && j == m - 1) && !(i == m - 1 && j == 0)
  }

  /** The steps leave the patterns apart, evaluated for each number of lines. */
  lemma StepBounds(ver: nat, m: nat)
    requires 2 <= ver <= MAX_VERSION && m == ver / 7 + 2
    ensures StepFor(ver, m) >= 12 && StepFor(ver, m) % 2 == 0
    ensures 4 * ver + 10 - (m - 2) * StepFor(ver, m) >= 18
  {
    if m == 2 {
      assert StepFor(ver, 2) == (ver * 8 + 11) / 4 * 2;
    } else if m == 3 {
      assert StepFor(ver, 3) == (ver * 8 + 14) / 8 * 2;
    } else if m == 4 {
      assert StepFor(ver, 4) == (ver * 8 + 17) / 12 * 2;
    } else if m == 5 {
      assert StepFor(ver, 5) == (ver * 8 + 20) / 16 * 2;
    } else if m == 6 {
      assert StepFor(ver, 6) == (ver * 8 + 23) / 20 * 2;
    } else {
      assert StepFor(ver, 7) == (ver * 8 + 26) / 24 * 2;
    }
  }

  /** Later lines than the first start at 18, are at least 12 apart, and end at the lower right
      pattern; all are even. */
  lemma Positions(ver: nat, i: nat)
    requires 2 <= ver <= MAX_VERSION && 1 <= i < NumAlign(ver)
    ensures 18 <= AlignAt(ver, i) <= SizeOf(ver) - 7 && AlignAt(ver, i) % 2 == 0
    ensures i < NumAlign(ver) - 1 ==> AlignAt(ver, i) <= SizeOf(ver) - 19
    ensures i > 1 ==> AlignAt(ver, i - 1) + 12 <= AlignAt(ver, i)
    ensures AlignAt(ver, NumAlign(ver) - 1) == SizeOf(ver) - 7
  {
    hide StepFor;
    var m := NumAlign(ver);
    StepBounds(ver, m);
    var step, k := AlignStep(ver), m - 1 - i;
    assert k * step <= (m - 2) * step by {
      assert (m - 2 - k) * step >= 0;
    }
    assert k >= 1 ==> k * step >= step by {
      if k >= 1 {
        assert (k - 1) * step >= 0;
      }
    }
    assert (k * step) % 2 == 0 by {
      assert step == 2 * (step / 2);
      assert k * step == 2 * (k * (step / 2));
    }
    assert (k + 1) * step == k * step + step;
  }

  lemma {:induction false} Apart(ver: nat, i: nat, k: nat)
    requires 2 <= ver <= MAX_VERSION && 1 <= i < k < NumAlign(ver)
    ensures AlignAt(ver, i) + 12 <= AlignAt(ver, k)
    decreases k
  {
    hide AlignAt;
    Positions(ver, k);
    if i < k - 1 {
      Apart(ver, i, k - 1);
    }
  }

  // ---- The cells ----

  function Abs(a: int): nat {
    if a < 0 then -a else a
  }

  /** The Chebyshev norm. */
  function Norm(dx: int, dy: int): nat {
    if Abs(dx) > Abs(dy) then Abs(dx) else Abs(dy)
  }

  /** The distance of a cell from a centre. */
  function Dist(c: Cell, x: int, y: int): nat {
    Norm(c.x - x, c.y - y)
  }

  predicate NearFinder(n: nat, c: Cell) {
    Dist(c, 3, 3) <= 4 || Dist(c, n - 4, 3) <= 4 || Dist(c, 3, n - 4) <= 4
  }

  predicate NearAlignment(ver: nat, c: Cell)
    requires ValidVersion(ver)
  {
    exists i, j :: 0 <= i < NumAlign(ver) && 0 <= j < NumAlign(ver) && Aligned(ver, i, j) &&
        Dist(c, AlignAt(ver, i), AlignAt(ver, j)) <= 2
  }

  predicate InVersion(ver: nat, c: Cell)
    requires ValidVersion(ver)
  {
    var n := SizeOf(ver);
    ver >= 7 && ((n - 11 <= c.x < n - 8 && c.y < 6) || (n - 11 <= c.y < n - 8 && c.x < 6))
  }

  predicate IsFunctionCell(ver: nat, c: Cell)
    requires ValidVersion(ver)
  {
    c.x == 6 || c.y == 6 || NearFinder(SizeOf(ver), c) || NearAlignment(ver, c) ||
    IsFormatCell(SizeOf(ver), c) || InVersion(ver, c)
  }

  function FunctionGrid(ver: nat): (g: Grid)
    requires ValidVersion(ver)
    ensures Square(g, SizeOf(ver))
    ensures forall c: Cell :: Inside(SizeOf(ver), c) ==> At(g, c) == IsFunctionCell(ver, c)
  {
    var n := SizeOf(ver);
    seq(n, y requires 0 <= y < n => seq(n, x requires 0 <= x < n => IsFunctionCell(ver, Cell(x, y))))
  }

  // ---- Counting rectangles ----

  function Rect(x0: nat, x1: nat, y0: nat, y1: nat): set<Cell> {
    set x: nat, y: nat | x0 <= x < x1 && y0 <= y < y1 :: Cell(x, y)
  }

  lemma {:induction false} ColumnSize(x: nat, y0: nat, y1: nat)
    requires y0 <= y1
    ensures |Rect(x, x + 1, y0, y1)| == y1 - y0
    decreases y1
  {
    if y0 == y1 {
      assert Rect(x, x + 1, y0, y1) == {};
    } else {
      ColumnSize(x, y0, y1 - 1);
      assert Rect(x, x + 1, y0, y1) == Rect(x, x + 1, y0, y1 - 1) + {Cell(x, y1 - 1)};
    }
  }

  lemma NextColumn(w: nat, h: nat)
    ensures w * h == (w - 1) * h + h
  {
  }

  lemma {:induction false} RectSize(x0: nat, x1: nat, y0: nat, y1: nat)
    requires x0 <= x1 && y0 <= y1
    ensures |Rect(x0, x1, y0, y1)| == (x1 - x0) * (y1 - y0)
    decreases x1
  {
    if x0 == x1 {
      assert Rect(x0, x1, y0, y1) == {};
    } else {
      var front, last := Rect(x0, x1 - 1, y0, y1), Rect(x1 - 1, x1, y0, y1);
      RectSize(x0, x1 - 1, y0, y1);
      ColumnSize(x1 - 1, y0, y1);
      assert Rect(x0, x1, y0, y1) == front + last && front * last == {};
      NextColumn(x1 - x0, y1 - y0);
    }
  }

  lemma InRect(x0: nat, x1: nat, y0: nat, y1: nat, c: Cell)
    ensures c in Rect(x0, x1, y0, y1) <==> x0 <= c.x < x1 && y0 <= c.y < y1
  {
    assert c == Cell(c.x, c.y);
  }

  predicate Disjoint(a: set<Cell>, b: set<Cell>) {
    a !! b
  }

  lemma JoinedSize(a: set<Cell>, b: set<Cell>)
    requires Disjoint(a, b)
    ensures |a + b| == |a| + |b|
  {
  }

  lemma RectsApart(x0: nat, x1: nat, y0: nat, y1: nat, u0: nat, u1: nat, v0: nat, v1: nat)
    requires x1 <= u0 || u1 <= x0 || y1 <= v0 || v1 <= y0
    ensures Disjoint(Rect(x0, x1, y0, y1), Rect(u0, u1, v0, v1))
  {
  }
}
