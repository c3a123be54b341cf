/** The zigzag scan of a symbol and the drawing of codeword bits along it.

    Columns are taken in pairs from the right, skipping column 6 (the vertical timing pattern);
    each pair is scanned alternately upward and downward. `CellAt` and `StepOf` are shown to be
    inverse bijections between step numbers and the cells outside column 6. */
module Zigzag {
  import opened Gf256

  type Grid = seq<seq<bool>>

  datatype Cell = Cell(x: nat, y: nat)

  predicate Square(g: Grid, n: nat) {
    |g| == n && forall y :: 0 <= y < n ==> |g[y]| == n
  }

  predicate ValidSize(n: nat) {
    n >= 7 && n % 2 == 1
  }

  predicate Inside(n: nat, c: Cell) {
    c.x < n && c.y < n
  }

  function At(g: Grid, c: Cell): bool
    requires c.y < |g| && c.x < |g[c.y]|
  {
    g[c.y][c.x]
  }

  function Put(g: Grid, n: nat, c: Cell, dark: bool): (h: Grid)
    requires Square(g, n) && Inside(n, c)
    ensures Square(h, n)
    ensures forall d: Cell :: Inside(n, d) ==> At(h, d) == if d == c then dark else At(g, d)
  {
    g[c.y := g[c.y][c.x := dark]]
  }

  lemma GridsEqual(n: nat, g: Grid, h: Grid)
    requires Square(g, n) && Square(h, n)
    requires forall c: Cell :: Inside(n, c) ==> At(g, c) == At(h, c)
    ensures g == h
  {
    forall y | 0 <= y < n ensures g[y] == h[y] {
      forall x | 0 <= x < n ensures g[y][x] == h[y][x] {
        assert At(g, Cell(x, y)) == At(h, Cell(x, y));
      }
    }
  }

  /** Number of steps before pair `p`: 2n cells for each earlier pair. */
  function PairStart(n: nat, p: nat): nat {
    if p == 0 then 0 else PairStart(n, p - 1) + 2 * n
  }

  /** Number of steps of the whole scan. */
  function Steps(n: nat): nat
    requires n > 0
  {
    PairStart(n, (n - 1) / 2)
  }

  /** The pair in which step `t` falls. */
  function PairOf(n: nat, t: nat): (p: nat)
    requires n > 0
    ensures PairStart(n, p) <= t < PairStart(n, p) + 2 * n
  {
    if t < 2 * n then 0 else PairOf(n, t - 2 * n) + 1
  }

  /** The right-hand column of pair `p`. */
  function RightColumn(n: nat, p: nat): int {
    if n - 1 - 2 * p > 6 then n - 1 - 2 * p else n - 2 - 2 * p
  }

  predicate Upward(right: int) {
    ((right + 1) / 2) % 2 == 0
  }

  function CellOf(n: nat, p: nat, vert: nat, j: nat): Cell
    requires ValidSize(n) && p < (n - 1) / 2 && vert < n && j < 2
  {
    var right := RightColumn(n, p);
    Cell(right - j, if Upward(right) then n - 1 - vert else vert)
  }

  function StepNumber(n: nat, p: nat, vert: nat, j: nat): nat {
    PairStart(n, p) + (2 * vert + j)
  }

  function CellAt(n: nat, t: nat): Cell
    requires ValidSize(n) && t < Steps(n)
  {
    PairBound(n, t);
    var p := PairOf(n, t);
    var r := t - PairStart(n, p);
    CellOf(n, p, r / 2, r % 2)
  }

  /** Position of column `x` counted from the right with column 6 removed. */
  function ColumnRank(n: nat, x: nat): nat
    requires x < n && x != 6 && ValidSize(n)
  {
    if x > 6 then n - 1 - x else n - 2 - x
  }

  function StepOf(n: nat, c: Cell): nat
    requires ValidSize(n) && Inside(n, c) && c.x != 6
  {
    var p := ColumnRank(n, c.x) / 2;
    var vert := if Upward(RightColumn(n, p)) then n - 1 - c.y else c.y;
    StepNumber(n, p, vert, ColumnRank(n, c.x) % 2)
  }

  lemma {:induction false} PairStartMonotone(n: nat, p: nat, q: nat)
    requires p <= q
    ensures PairStart(n, p) <= PairStart(n, q)
    decreases q - p
  {
    if p < q {
      PairStartMonotone(n, p, q - 1);
    }
  }

  lemma PairBound(n: nat, t: nat)
    requires ValidSize(n) && t < Steps(n)
    ensures PairOf(n, t) < (n - 1) / 2
  {
    if PairOf(n, t) >= (n - 1) / 2 {
      PairStartMonotone(n, (n - 1) / 2, PairOf(n, t));
    }
  }

  lemma PairOfStep(n: nat, p: nat, r: nat)
    requires n > 0 && r < 2 * n
    ensures PairOf(n, PairStart(n, p) + r) == p
  {
    var q := PairOf(n, PairStart(n, p) + r);
    if q < p {
      PairStartMonotone(n, q + 1, p);
    } else if p < q {
      PairStartMonotone(n, p + 1, q);
    }
  }

  /** The scan has as many steps as the symbol has cells outside column 6. */
  lemma {:induction false} StepsClosed(n: nat, p: nat)
    requires ValidSize(n)
    ensures PairStart(n, p) == p * (2 * n)
    ensures Steps(n) == (n - 1) * n
  {
    PairStartClosed(n, p);
    PairStartClosed(n, (n - 1) / 2);
    var k := (n - 1) / 2;
    assert k * (2 * n) == (k * 2) * n;
  }

  lemma {:induction false} PairStartClosed(n: nat, p: nat)
    ensures PairStart(n, p) == p * (2 * n)
  {
    if p > 0 {
      PairStartClosed(n, p - 1);
    }
  }

  /** The loops' cell is the scan's cell at their step number. */
  lemma CellAtStepNumber(n: nat, p: nat, vert: nat, j: nat)
    requires ValidSize(n) && p < (n - 1) / 2 && vert < n && j < 2
    ensures StepNumber(n, p, vert, j) < Steps(n)
    ensures CellAt(n, StepNumber(n, p, vert, j)) == CellOf(n, p, vert, j)
  {
    PairStartMonotone(n, p + 1, (n - 1) / 2);
    PairOfStep(n, p, 2 * vert + j);
  }

  /** Every step visits a cell of the symbol outside column 6, and its rank is that step. */
  lemma ScanIsInjective(n: nat, t: nat)
    requires ValidSize(n) && t < Steps(n)
    ensures Inside(n, CellAt(n, t)) && CellAt(n, t).x != 6
    ensures StepOf(n, CellAt(n, t)) == t
  {
    PairBound(n, t);
    var p := PairOf(n, t);
    var r := t - PairStart(n, p);
    var c := CellAt(n, t);
    assert ColumnRank(n, c.x) == 2 * p + r % 2;
  }

  /** Every cell outside column 6 is visited, at the step that StepOf names. */
  lemma ScanIsSurjective(n: nat, c: Cell)
    requires ValidSize(n) && Inside(n, c) && c.x != 6
    ensures StepOf(n, c) < Steps(n) && CellAt(n, StepOf(n, c)) == c
  {
    var rank := ColumnRank(n, c.x);
    var p := rank / 2;
    var vert := if Upward(RightColumn(n, p)) then n - 1 - c.y else c.y;
    CellAtStepNumber(n, p, vert, rank % 2);
  }

  // ---- The path of the scan ----

  /** The scan of every symbol size starts at the lower right corner. */
  lemma ScanStarts(n: nat)
    requires ValidSize(n) && n % 4 == 1
    ensures Steps(n) > 0 && CellAt(n, 0) == Cell(n - 1, n - 1)
  {
    CellAtStepNumber(n, 0, 0, 0);
  }

  /** From the right-hand column of a pair the scan goes to the cell on the left; from there one row up or
      down and back to the right, or, at the top or bottom edge, to the next pair of columns, past column 6. */
  lemma ScanMoves(n: nat, t: nat)
    requires ValidSize(n) && t + 1 < Steps(n)
    ensures var c, d := CellAt(n, t), CellAt(n, t + 1);
            if t % 2 == 0 then d.x == c.x - 1 && d.y == c.y
            else
              || (d.x == c.x + 1 && (d.y == c.y - 1 || d.y == c.y + 1))
              || (d.y == c.y && (c.y == 0 || c.y == n - 1) && d.x == if c.x == 7 then 5 else c.x - 1)
  {
    hide CellAt, PairStart, CellOf;
    PairBound(n, t);
    var p := PairOf(n, t);
    var r := t - PairStart(n, p);
    hide PairOf;
    EvenStart(n, p);
    var vert := r / 2;
    CellAtStepNumber(n, p, vert, r % 2);
    Moves(n, p, vert);
    if r % 2 == 0 {
      CellAtStepNumber(n, p, vert, 1);
      assert t == StepNumber(n, p, vert, 0) && t + 1 == StepNumber(n, p, vert, 1);
    } else if vert + 1 < n {
      CellAtStepNumber(n, p, vert + 1, 0);
      assert t == StepNumber(n, p, vert, 1) && t + 1 == StepNumber(n, p, vert + 1, 0);
    } else {
      NextPair(n, p);
      CellAtStepNumber(n, p + 1, 0, 0);
      assert t == StepNumber(n, p, n - 1, 1) && t + 1 == StepNumber(n, p + 1, 0, 0);
    }
  }

  lemma {:induction false} EvenStart(n: nat, p: nat)
    ensures PairStart(n, p) % 2 == 0
  {
    if p > 0 {
      EvenStart(n, p - 1);
    }
  }

  /** Pairs alternate in direction, whether or not column 6 lies between them. */
  lemma DirectionOf(n: nat, p: nat)
    requires ValidSize(n) && p < (n - 1) / 2
    ensures Upward(RightColumn(n, p)) <==> ((n - 1) / 2 - p) % 2 == 0
  {
    var m := (n - 1) / 2 - p;
    assert RightColumn(n, p) == if 2 * m > 6 then 2 * m else 2 * m - 1;
  }

  lemma Moves(n: nat, p: nat, vert: nat)
    requires ValidSize(n) && p < (n - 1) / 2 && vert < n
    ensures var c, d := CellOf(n, p, vert, 0), CellOf(n, p, vert, 1); d.x == c.x - 1 && d.y == c.y
    ensures vert + 1 < n ==>
              var c, d := CellOf(n, p, vert, 1), CellOf(n, p, vert + 1, 0);
              d.x == c.x + 1 && (d.y == c.y - 1 || d.y == c.y + 1)
    ensures vert + 1 == n && p + 1 < (n - 1) / 2 ==>
              var c, d := CellOf(n, p, vert, 1), CellOf(n, p + 1, 0, 0);
              d.y == c.y && (c.y == 0 || c.y == n - 1) && d.x == if c.x == 7 then 5 else c.x - 1
  {
    DirectionOf(n, p);
    if p + 1 < (n - 1) / 2 {
      DirectionOf(n, p + 1);
    }
    hide Upward;
  }

  lemma NextPair(n: nat, p: nat)
    requires ValidSize(n) && PairStart(n, p) + 2 * n < Steps(n)
    ensures p + 1 < (n - 1) / 2 && PairStart(n, p + 1) == PairStart(n, p) + 2 * n
  {
    if p + 1 >= (n - 1) / 2 {
      PairStartMonotone(n, (n - 1) / 2, p + 1);
    }
  }

  // ---- Free cells in scan order ----

  function Free(n: nat, isFunction: Grid, t: nat): (cells: seq<Cell>)
    requires ValidSize(n) && Square(isFunction, n) && t <= Steps(n)
    ensures |cells| <= t
    ensures forall k :: 0 <= k < |cells| ==> Inside(n, cells[k]) && !At(isFunction, cells[k])
  {
    if t == 0 then [] else
      ScanIsInjective(n, t - 1);
      var c := CellAt(n, t - 1);
      Free(n, isFunction, t - 1) + if At(isFunction, c) then [] else [c]
  }

  function FreeCells(n: nat, isFunction: Grid): seq<Cell>
    requires ValidSize(n) && Square(isFunction, n)
  {
    Free(n, isFunction, Steps(n))
  }

  lemma FreeGrows(n: nat, isFunction: Grid, t: nat)
    requires ValidSize(n) && Square(isFunction, n) && t < Steps(n)
    ensures Inside(n, CellAt(n, t))
    ensures |Free(n, isFunction, t + 1)| == |Free(n, isFunction, t)| + if At(isFunction, CellAt(n, t)) then 0 else 1
  {
    ScanIsInjective(n, t);
  }

  lemma {:induction false} FreeSteps(n: nat, isFunction: Grid, t: nat, k: nat)
    requires ValidSize(n) && Square(isFunction, n) && t <= Steps(n) && k < |Free(n, isFunction, t)|
    ensures var c := Free(n, isFunction, t)[k]; c.x != 6 && StepOf(n, c) < t
  {
    hide CellAt, StepOf;
    ScanIsInjective(n, t - 1);
    if k < |Free(n, isFunction, t - 1)| {
      FreeSteps(n, isFunction, t - 1, k);
    }
  }

  lemma {:induction false} FreeDistinct(n: nat, isFunction: Grid, t: nat, j: nat, k: nat)
    requires ValidSize(n) && Square(isFunction, n) && t <= Steps(n) && j < k < |Free(n, isFunction, t)|
    ensures Free(n, isFunction, t)[j] != Free(n, isFunction, t)[k]
  {
    hide CellAt, StepOf;
    var before := Free(n, isFunction, t - 1);
    if k < |before| {
      FreeDistinct(n, isFunction, t - 1, j, k);
    } else {
      FreeSteps(n, isFunction, t - 1, j);
      ScanIsInjective(n, t - 1);
    }
  }

  /** The free cells are exactly the cells outside column 6 that no function pattern owns. */
  lemma {:induction false} FreeComplete(n: nat, isFunction: Grid, t: nat, c: Cell)
    requires ValidSize(n) && Square(isFunction, n) && t <= Steps(n)
    requires Inside(n, c) && c.x != 6 && !At(isFunction, c) && StepOf(n, c) < t
    ensures c in Free(n, isFunction, t)
  {
    hide CellAt, StepOf;
    ScanIsSurjective(n, c);
    if StepOf(n, c) < t - 1 {
      FreeComplete(n, isFunction, t - 1, c);
    }
  }

  // ---- Drawing and reading ----

  function CodewordBit(data: seq<bv8>, i: nat): bool
    requires i < 8 * |data|
  {
    Bit(data[i / 8], 7 - i % 8)
  }

  function Min(a: nat, b: nat): nat {
    if a < b then a else b
  }

  /** `after` is `before` with the data bits written to the listed cells, in their order. */
  ghost predicate DrawnOn(n: nat, free: seq<Cell>, data: seq<bv8>, before: Grid, after: Grid)
    requires Square(before, n)
  {
    var count := Min(|free|, 8 * |data|);
    && Square(after, n)
    && (forall k :: 0 <= k < count ==> Inside(n, free[k]) && At(after, free[k]) == CodewordBit(data, k))
    && (forall c: Cell :: Inside(n, c) && c !in free[..count] ==> At(after, c) == At(before, c))
  }

  /** The state of the drawing after `t` steps of the scan. */
  ghost predicate DrawnUpTo(n: nat, isFunction: Grid, data: seq<bv8>, before: Grid, after: Grid, t: nat)
    requires ValidSize(n) && Square(isFunction, n) && Square(before, n) && t <= Steps(n)
  {
    DrawnOn(n, Free(n, isFunction, t), data, before, after)
  }

  lemma DrawMore(n: nat, free: seq<Cell>, c: Cell, data: seq<bv8>, before: Grid, after: Grid)
    requires Square(before, n) && DrawnOn(n, free, data, before, after)
    requires Inside(n, c) && c !in free
    ensures DrawnOn(n, free + [c], data, before,
                    if |free| < 8 * |data| then Put(after, n, c, CodewordBit(data, |free|)) else after)
  {
    hide Bit, CodewordBit;
    var count := Min(|free|, 8 * |data|);
    if |free| < 8 * |data| {
      assert (free + [c])[..|free| + 1] == free + [c] && free[..|free|] == free;
    } else {
      assert (free + [c])[..count] == free[..count];
    }
  }

  lemma DrawStep(n: nat, isFunction: Grid, data: seq<bv8>, before: Grid, after: Grid, t: nat)
    requires ValidSize(n) && Square(isFunction, n) && Square(before, n) && t < Steps(n)
    requires DrawnUpTo(n, isFunction, data, before, after, t)
    ensures Inside(n, CellAt(n, t))
    ensures var c, count := CellAt(n, t), Min(|Free(n, isFunction, t)|, 8 * |data|);
            var next := if !At(isFunction, c) && count < 8 * |data| then Put(after, n, c, CodewordBit(data, count))
                        else after;
            DrawnUpTo(n, isFunction, data, before, next, t + 1)
  {
    hide Bit, CellAt, StepOf, Put, CodewordBit, DrawnOn;
    ScanIsInjective(n, t);
    var free, c := Free(n, isFunction, t), CellAt(n, t);
    if At(isFunction, c) {
      assert Free(n, isFunction, t + 1) == free;
    } else {
      assert Free(n, isFunction, t + 1) == free + [c];
      forall k | 0 <= k < |free| ensures free[k] != c {
        FreeSteps(n, isFunction, t, k);
      }
      DrawMore(n, free, c, data, before, after);
    }
  }

  /** What a reader sees along the scan. */
  function ReadBits(n: nat, isFunction: Grid, g: Grid): (bits: seq<bool>)
    requires ValidSize(n) && Square(isFunction, n) && Square(g, n)
    ensures |bits| == |FreeCells(n, isFunction)|
  {
    var free := FreeCells(n, isFunction);
    seq(|free|, k requires 0 <= k < |free| => At(g, free[k]))
  }

  /** Rereading returns the drawn codewords bit for bit; remainder bits and function cells keep
      what they held. */
  lemma ReadInvertsDraw(n: nat, isFunction: Grid, data: seq<bv8>, before: Grid, after: Grid)
    requires ValidSize(n) && Square(isFunction, n) && Square(before, n)
    requires DrawnUpTo(n, isFunction, data, before, after, Steps(n))
    requires 8 * |data| <= |FreeCells(n, isFunction)|
    ensures var bits := ReadBits(n, isFunction, after);
            && (forall i :: 0 <= i < 8 * |data| ==> bits[i] == CodewordBit(data, i))
            && (forall i :: 8 * |data| <= i < |bits| ==> bits[i] == ReadBits(n, isFunction, before)[i])
    ensures forall c: Cell :: Inside(n, c) && At(isFunction, c) ==> At(after, c) == At(before, c)
  {
    hide Bit, Free, CellAt, Square;
    assert Square(after, n) && Square(before, n) && Square(isFunction, n);
    var free, count := FreeCells(n, isFunction), 8 * |data|;
    forall i | count <= i < |free| ensures free[i] !in free[..count] {
      forall k | 0 <= k < count ensures free[k] != free[i] {
        FreeDistinct(n, isFunction, Steps(n), k, i);
      }
    }
  }
}
