/** The colours of the function patterns, and that no pattern spoils another that was drawn before. */
module Patterns {
  import opened Format
  import opened FunctionCells
  import opened QrTables
  import opened Zigzag

  // ---- Square patterns ----

  /** The rings of a finder pattern (radius 4, with its light border) or an alignment pattern (radius 2). */
  predicate SquareDark(c: Cell, x: int, y: int, r: int) {
    if r == 4 then Dist(c, x, y) != 2 && Dist(c, x, y) != 4 else Dist(c, x, y) != 1
  }

  ghost predicate SquareDrawn(g: Grid, n: nat, x: int, y: int, r: int) {
    Square(g, n) && forall c: Cell :: Inside(n, c) && Dist(c, x, y) <= r ==> At(g, c) == SquareDark(c, x, y, r)
  }

  /** The cells of a square that come before offset (dx, dy) in the order of the drawing loops. */
  predicate Swept(c: Cell, x: int, y: int, r: int, dx: int, dy: int) {
    Dist(c, x, y) <= r && (c.y - y < dy || (c.y - y == dy && c.x - x < dx))
  }

  ghost predicate Painted(before: Grid, after: Grid, n: nat, x: int, y: int, r: int, dx: int, dy: int) {
    && Square(before, n) && Square(after, n)
    && forall c: Cell :: Inside(n, c) ==>
         At(after, c) == if Swept(c, x, y, r, dx, dy) then SquareDark(c, x, y, r) else At(before, c)
  }

  ghost predicate Reserved(before: Grid, after: Grid, n: nat, x: int, y: int, r: int, dx: int, dy: int) {
    && Square(before, n) && Square(after, n)
    && forall c: Cell :: Inside(n, c) ==> At(after, c) == (At(before, c) || Swept(c, x, y, r, dx, dy))
  }

  lemma SweepStep(c: Cell, x: int, y: int, r: int, dx: int, dy: int)
    requires -r <= dx <= r && -r <= dy <= r
    ensures Swept(c, x, y, r, dx + 1, dy) <==> Swept(c, x, y, r, dx, dy) || (c.x == x + dx && c.y == y + dy)
  {
  }

  lemma SweepRow(c: Cell, x: int, y: int, r: int, dy: int)
    ensures Swept(c, x, y, r, r + 1, dy) <==> Swept(c, x, y, r, -r, dy + 1)
    ensures !Swept(c, x, y, r, -r, -r)
    ensures Swept(c, x, y, r, -r, r + 1) <==> Dist(c, x, y) <= r
  {
  }

  lemma PaintStep(before: Grid, after: Grid, n: nat, x: int, y: int, r: int, dx: int, dy: int)
    requires -r <= dx <= r && -r <= dy <= r && Painted(before, after, n, x, y, r, dx, dy)
    ensures 0 <= x + dx < n && 0 <= y + dy < n ==>
              Painted(before, Put(after, n, Cell(x + dx, y + dy), SquareDark(Cell(x + dx, y + dy), x, y, r)), n, x,
                  y, r, dx + 1, dy)
    ensures !(0 <= x + dx < n && 0 <= y + dy < n) ==> Painted(before, after, n, x, y, r, dx + 1, dy)
  {
    hide SquareDark, Swept, Put;
    forall c: Cell
      ensures Swept(c, x, y, r, dx + 1, dy) <==> Swept(c, x, y, r, dx, dy) || (c.x == x + dx && c.y == y + dy)
    {
      SweepStep(c, x, y, r, dx, dy);
    }
  }

  lemma ReserveStep(before: Grid, after: Grid, n: nat, x: int, y: int, r: int, dx: int, dy: int)
    requires -r <= dx <= r && -r <= dy <= r && Reserved(before, after, n, x, y, r, dx, dy)
    ensures 0 <= x + dx < n && 0 <= y + dy < n ==>
              Reserved(before, Put(after, n, Cell(x + dx, y + dy), true), n, x, y, r, dx + 1, dy)
    ensures !(0 <= x + dx < n && 0 <= y + dy < n) ==> Reserved(before, after, n, x, y, r, dx + 1, dy)
  {
    hide Swept, Put;
    forall c: Cell
      ensures Swept(c, x, y, r, dx + 1, dy) <==> Swept(c, x, y, r, dx, dy) || (c.x == x + dx && c.y == y + dy)
    {
      SweepStep(c, x, y, r, dx, dy);
    }
  }

  /** The end of one row of the loops is the start of the next. */
  lemma SweptRow(before: Grid, after: Grid, g: Grid, h: Grid, n: nat, x: int, y: int, r: int, dy: int)
    ensures Painted(before, after, n, x, y, r, r + 1, dy) ==> Painted(before, after, n, x, y, r, -r, dy + 1)
    ensures Reserved(g, h, n, x, y, r, r + 1, dy) ==> Reserved(g, h, n, x, y, r, -r, dy + 1)
  {
    hide SquareDark, Swept;
    var first, last, next := -r, r + 1, dy + 1;
    forall c: Cell ensures Swept(c, x, y, r, last, dy) <==> Swept(c, x, y, r, first, next) {
      SweepRow(c, x, y, r, dy);
    }
  }

  lemma SweepStart(g: Grid, h: Grid, n: nat, x: int, y: int, r: int)
    requires Square(g, n) && Square(h, n)
    ensures Painted(g, g, n, x, y, r, -r, -r) && Reserved(h, h, n, x, y, r, -r, -r)
  {
  }

  /** What the loops leave: the square and nothing else. */
  ghost predicate SquareAdded(before: Grid, after: Grid, n: nat, x: int, y: int, r: int) {
    && Square(before, n) && Square(after, n)
    && forall c: Cell :: Inside(n, c) ==>
         At(after, c) == if Dist(c, x, y) <= r then SquareDark(c, x, y, r) else At(before, c)
  }

  ghost predicate SquareTaken(before: Grid, after: Grid, n: nat, x: int, y: int, r: int) {
    && Square(before, n) && Square(after, n)
    && forall c: Cell :: Inside(n, c) ==> At(after, c) == (At(before, c) || Dist(c, x, y) <= r)
  }

  lemma SweepEnd(before: Grid, after: Grid, g: Grid, h: Grid, n: nat, x: int, y: int, r: int)
    ensures Painted(before, after, n, x, y, r, -r, r + 1) ==> SquareAdded(before, after, n, x, y, r)
    ensures Reserved(g, h, n, x, y, r, -r, r + 1) ==> SquareTaken(g, h, n, x, y, r)
  {
    hide SquareDark, Swept;
    var first, next := -r, r + 1;
    forall c: Cell ensures Swept(c, x, y, r, first, next) <==> Dist(c, x, y) <= r {
      SweepRow(c, x, y, r, 0);
    }
  }

  /** The middle row and column of a finder pattern are 1:1:3:1:1 with light at both ends, its outer ring is
      dark and its border light; those of an alignment pattern are 1:1:1:1:1. */
  lemma PatternProportions(x: int, y: int, c: Cell)
    requires Dist(c, x, y) <= 4
    ensures c.y == y || c.x == x ==>
              var d := if c.y == y then c.x - x else c.y - y;
              && (SquareDark(c, x, y, 4) <==> d == -3 || -1 <= d <= 1 || d == 3)
              && (Dist(c, x, y) <= 2 ==> (SquareDark(c, x, y, 2) <==> d == -2 || d == 0 || d == 2))
    ensures Dist(c, x, y) == 4 ==> !SquareDark(c, x, y, 4)
    ensures Dist(c, x, y) == 3 ==> SquareDark(c, x, y, 4)
  {
  }

  // ---- Version blocks ----

  function VersionStep(rem: bv32): bv32 {
    (rem << 1) ^ ((rem >> 11) * 0x1F25)
  }

  function VersionRemainder(data: bv32, rounds: nat): bv32
    decreases rounds, data
  {
    if rounds == 0 then data else VersionStep(VersionRemainder(data, rounds - 1))
  }

  function VersionWord(ver: nat): bv32
    requires ValidVersion(ver)
  {
    VersionPacked(ver as bv32)
  }

  function VersionPacked(data: bv32): bv32 {
    (data << 12) | VersionRemainder(data, 12)
  }

  function FourSteps(d: bv32): bv32 {
    VersionStep(VersionStep(VersionStep(VersionStep(d))))
  }

  lemma TwelveSteps(d: bv32)
    ensures VersionRemainder(d, 12) == FourSteps(FourSteps(FourSteps(d)))
  {
    hide VersionStep;
    assert VersionRemainder(d, 0) == d;
    assert VersionRemainder(d, 2) == VersionStep(VersionStep(VersionRemainder(d, 0)));
    assert VersionRemainder(d, 4) == VersionStep(VersionStep(VersionRemainder(d, 2)));
    assert VersionRemainder(d, 6) == VersionStep(VersionStep(VersionRemainder(d, 4)));
    assert VersionRemainder(d, 8) == VersionStep(VersionStep(VersionRemainder(d, 6)));
    assert VersionRemainder(d, 10) == VersionStep(VersionStep(VersionRemainder(d, 8)));
  }

  /** The bit of the version word that a cell of the two blocks holds. */
  function VersionIndex(ver: nat, c: Cell): (i: nat)
    requires ValidVersion(ver) && InVersion(ver, c)
    ensures i < 18
  {
    var a := SizeOf(ver) - 11;
    if c.y < 6 then 3 * c.y + (c.x - a) else 3 * c.x + (c.y - a)
  }

  ghost predicate VersionAdded(before: Grid, after: Grid, ver: nat, word: bv32, k: nat)
    requires ValidVersion(ver)
  {
    && Square(before, SizeOf(ver)) && Square(after, SizeOf(ver))
    && forall c: Cell :: Inside(SizeOf(ver), c) ==>
         At(after, c) == if InVersion(ver, c) && VersionIndex(ver, c) < k then WordBit(word, VersionIndex(ver, c))
             else At(before, c)
  }

  ghost predicate VersionTaken(before: Grid, after: Grid, ver: nat, k: nat)
    requires ValidVersion(ver)
  {
    && Square(before, SizeOf(ver)) && Square(after, SizeOf(ver))
    && forall c: Cell :: Inside(SizeOf(ver), c) ==>
         At(after, c) == (At(before, c) || (InVersion(ver, c) && VersionIndex(ver, c) < k))
  }

  lemma VersionStart(g: Grid, f: Grid, ver: nat, word: bv32)
    requires ValidVersion(ver) && Square(g, SizeOf(ver)) && Square(f, SizeOf(ver))
    ensures VersionAdded(g, g, ver, word, 0) && VersionTaken(f, f, ver, 0)
  {
  }

  lemma VersionCells(ver: nat, i: nat, c: Cell)
    requires 7 <= ver <= MAX_VERSION && i < 18
    ensures var a, b := SizeOf(ver) - 11 + i % 3, i / 3;
            Inside(SizeOf(ver), Cell(a, b)) &&
                (InVersion(ver, c) && VersionIndex(ver, c) == i <==> c == Cell(a, b) || c == Cell(b, a))
  {
    if c.y < 6 {
      assert 3 * (i / 3) + i % 3 == i;
    }
  }

  lemma VersionBitAdded(before: Grid, after: Grid, ver: nat, word: bv32, i: nat)
    requires 7 <= ver <= MAX_VERSION && i < 18 && VersionAdded(before, after, ver, word, i)
    ensures var n, a, b := SizeOf(ver), SizeOf(ver) - 11 + i % 3, i / 3;
            Inside(n, Cell(a, b)) &&
            VersionAdded(before, Put(Put(after, n, Cell(a, b), WordBit(word, i)), n, Cell(b, a), WordBit(word, i)),
                ver, word, i + 1)
  {
    hide InVersion, VersionIndex, WordBit, Put;
    VersionCells(ver, i, Cell(0, 0));
    forall c: Cell
      ensures InVersion(ver, c) && VersionIndex(ver, c) == i <==>
              c == Cell(SizeOf(ver) - 11 + i % 3, i / 3) || c == Cell(i / 3, SizeOf(ver) - 11 + i % 3)
    {
      VersionCells(ver, i, c);
    }
  }

  lemma VersionBitTaken(before: Grid, after: Grid, ver: nat, i: nat)
    requires 7 <= ver <= MAX_VERSION && i < 18 && VersionTaken(before, after, ver, i)
    ensures var n, a, b := SizeOf(ver), SizeOf(ver) - 11 + i % 3, i / 3;
            Inside(n, Cell(a, b)) &&
            VersionTaken(before, Put(Put(after, n, Cell(a, b), true), n, Cell(b, a), true), ver, i + 1)
  {
    hide InVersion, VersionIndex, Put;
    VersionCells(ver, i, Cell(0, 0));
    forall c: Cell
      ensures InVersion(ver, c) && VersionIndex(ver, c) == i <==>
              c == Cell(SizeOf(ver) - 11 + i % 3, i / 3) || c == Cell(i / 3, SizeOf(ver) - 11 + i % 3)
    {
      VersionCells(ver, i, c);
    }
  }

  // ---- The finished patterns ----

  ghost predicate TimingDrawn(g: Grid, n: nat) {
    Square(g, n) && forall c: Cell :: Inside(n, c) && (c.x == 6 || c.y == 6) && !NearFinder(n, c) ==>
      At(g, c) == ((c.x + c.y) % 2 == 0)
  }

  ghost predicate FindersDrawn(g: Grid, n: nat) {
    SquareDrawn(g, n, 3, 3, 4) && SquareDrawn(g, n, n - 4, 3, 4) && SquareDrawn(g, n, 3, n - 4, 4)
  }

  /** The alignment patterns that come before line pair (i, j) in the order of the loops. */
  ghost predicate AlignmentsDrawn(g: Grid, ver: nat, i: nat, j: nat)
    requires ValidVersion(ver)
  {
    forall a, b ::
      0 <= a < NumAlign(ver) && 0 <= b < NumAlign(ver) && Aligned(ver, a, b) && (a < i || (a == i && b < j)) ==>
      SquareDrawn(g, SizeOf(ver), AlignAt(ver, a), AlignAt(ver, b), 2)
  }

  ghost predicate FormatDrawn(g: Grid, n: nat, word: bv32) {
    n >= 21 && Square(g, n) && forall k :: 0 <= k < FORMAT_WRITES ==> At(g, FormatCell(n, k)) == FormatBit(word, k)
  }

  ghost predicate VersionDrawn(g: Grid, ver: nat)
    requires ValidVersion(ver)
  {
    Square(g, SizeOf(ver)) && forall c: Cell :: Inside(SizeOf(ver), c) && InVersion(ver, c) ==>
      At(g, c) == WordBit(VersionWord(ver), VersionIndex(ver, c))
  }

  /** Every function pattern stands undamaged. */
  ghost predicate AllDrawn(g: Grid, ver: nat, word: bv32)
    requires ValidVersion(ver)
  {
    var n := SizeOf(ver);
    TimingDrawn(g, n) && FindersDrawn(g, n) && AlignmentsDrawn(g, ver, NumAlign(ver), 0) &&
    FormatDrawn(g, n, word) && VersionDrawn(g, ver)
  }

  /** Where the centre of an alignment pattern can be. */
  predicate Centre(n: nat, x: int, y: int) {
    && x % 2 == 0 && y % 2 == 0
    && ((18 <= x <= n - 7 && 18 <= y <= n - 7) || (y == 6 && 18 <= x <= n - 19) || (x == 6 && 18 <= y <= n - 19))
  }

  lemma AlignmentCentre(ver: nat, i: nat, j: nat)
    requires ValidVersion(ver) && Aligned(ver, i, j)
    ensures Centre(SizeOf(ver), AlignAt(ver, i), AlignAt(ver, j))
  {
    if i > 0 {
      Positions(ver, i);
    }
    if j > 0 {
      Positions(ver, j);
    }
    assert i == 0 ==> AlignAt(ver, i) == 6;
    assert j == 0 ==> AlignAt(ver, j) == 6;
    hide AlignAt;
  }

  /** An alignment pattern meets neither a finder pattern nor a format cell nor a version block, and
      on the timing patterns its colours are theirs. */
  lemma AlignmentFits(ver: nat, x: int, y: int, c: Cell)
    requires ValidVersion(ver) && Centre(SizeOf(ver), x, y) && Inside(SizeOf(ver), c) && Dist(c, x, y) <= 2
    ensures !NearFinder(SizeOf(ver), c) && !IsFormatCell(SizeOf(ver), c) && !InVersion(ver, c)
    ensures c.x == 6 || c.y == 6 ==> (SquareDark(c, x, y, 2) <==> (c.x + c.y) % 2 == 0)
  {
    if c.x == 6 || c.y == 6 {
      TimingAgrees(SizeOf(ver), x, y, c);
    }
    hide SquareDark;
  }

  lemma TimingAgrees(n: nat, x: int, y: int, c: Cell)
    requires Centre(n, x, y) && Dist(c, x, y) <= 2 && (c.x == 6 || c.y == 6)
    ensures SquareDark(c, x, y, 2) <==> (c.x + c.y) % 2 == 0
  {
    if y == 6 {
      assert c.x == x - 2 || c.x == x - 1 || c.x == x || c.x == x + 1 || c.x == x + 2;
    } else {
      assert c.y == y - 2 || c.y == y - 1 || c.y == y || c.y == y + 1 || c.y == y + 2;
    }
  }

  /** Two alignment patterns do not meet. */
  lemma AlignmentsApart(ver: nat, i: nat, j: nat, a: nat, b: nat, c: Cell)
    requires ValidVersion(ver) && Aligned(ver, i, j) && Aligned(ver, a, b) && (i != a || j != b)
    requires Dist(c, AlignAt(ver, i), AlignAt(ver, j)) <= 2
    ensures Dist(c, AlignAt(ver, a), AlignAt(ver, b)) > 2
  {
    LinesDiffer(ver, i, a);
    LinesDiffer(ver, j, b);
    hide AlignAt;
  }

  lemma LinesDiffer(ver: nat, i: nat, a: nat)
    requires ValidVersion(ver) && i < NumAlign(ver) && a < NumAlign(ver)
    ensures i != a ==> Abs(AlignAt(ver, i) - AlignAt(ver, a)) >= 12
  {
    if i == 0 && a > 0 {
      Positions(ver, a);
    } else if a == 0 && i > 0 {
      Positions(ver, i);
    } else if i < a {
      Apart(ver, i, a);
    } else if a < i {
      Apart(ver, a, i);
    }
  }

  /** Finder patterns, format cells and version blocks keep clear of each other and of the free part
      of the timing patterns. */
  lemma FixedApart(ver: nat, c: Cell)
    requires ValidVersion(ver) && Inside(SizeOf(ver), c)
    ensures IsFormatCell(SizeOf(ver), c) ==> !NearFinder(SizeOf(ver), c) && !InVersion(ver, c) && c.x != 6 && c.y != 6
    ensures InVersion(ver, c) ==> !NearFinder(SizeOf(ver), c) && c.x != 6 && c.y != 6
    ensures Dist(c, 3, 3) <= 4 ==> Dist(c, SizeOf(ver) - 4, 3) > 4 && Dist(c, 3, SizeOf(ver) - 4) > 4
    ensures Dist(c, SizeOf(ver) - 4, 3) <= 4 ==> Dist(c, 3, SizeOf(ver) - 4) > 4
  {
  }

  // ---- What survives the later steps ----

  lemma FindersAdded(g0: Grid, g1: Grid, g2: Grid, g3: Grid, ver: nat)
    requires ValidVersion(ver)
    requires var n := SizeOf(ver);
             TimingDrawn(g0, n) && SquareAdded(g0, g1, n, 3, 3, 4) && SquareAdded(g1, g2, n, n - 4, 3, 4) &&
             SquareAdded(g2, g3, n, 3, n - 4, 4)
    ensures TimingDrawn(g3, SizeOf(ver)) && FindersDrawn(g3, SizeOf(ver))
  {
    hide SquareDark, Dist, IsFormatCell, InVersion;
    var n := SizeOf(ver);
    forall c: Cell | Inside(n, c)
      ensures Dist(c, 3, 3) <= 4 ==> Dist(c, n - 4, 3) > 4 && Dist(c, 3, n - 4) > 4
      ensures Dist(c, n - 4, 3) <= 4 ==> Dist(c, 3, n - 4) > 4
    {
      FixedApart(ver, c);
    }
  }

  lemma AlignmentKeeps(g: Grid, h: Grid, ver: nat, i: nat, j: nat)
    requires ValidVersion(ver) && Aligned(ver, i, j)
    requires SquareAdded(g, h, SizeOf(ver), AlignAt(ver, i), AlignAt(ver, j), 2)
    requires TimingDrawn(g, SizeOf(ver)) && FindersDrawn(g, SizeOf(ver)) && AlignmentsDrawn(g, ver, i, j)
    ensures TimingDrawn(h, SizeOf(ver)) && FindersDrawn(h, SizeOf(ver)) && AlignmentsDrawn(h, ver, i, j + 1)
  {
    hide SquareDark, Dist, IsFormatCell, InVersion, AlignAt;
    var n, x, y := SizeOf(ver), AlignAt(ver, i), AlignAt(ver, j);
    AlignmentCentre(ver, i, j);
    forall c: Cell | Inside(n, c) && Dist(c, x, y) <= 2
      ensures !NearFinder(n, c) && (c.x == 6 || c.y == 6 ==> (SquareDark(c, x, y, 2) <==> (c.x + c.y) % 2 == 0))
    {
      AlignmentFits(ver, x, y, c);
    }
    forall a, b | 0 <= a < NumAlign(ver) && 0 <= b < NumAlign(ver) && Aligned(ver, a, b) &&
        (a < i || (a == i && b < j + 1))
      ensures SquareDrawn(h, n, AlignAt(ver, a), AlignAt(ver, b), 2)
    {
      if a != i || b != j {
        forall c: Cell | Inside(n, c) && Dist(c, AlignAt(ver, a), AlignAt(ver, b)) <= 2 ensures Dist(c, x, y) > 2 {
          AlignmentsApart(ver, a, b, i, j, c);
        }
        assert SquareDrawn(g, n, AlignAt(ver, a), AlignAt(ver, b), 2);
      }
    }
  }

  lemma FormatKeeps(g: Grid, ver: nat, word: bv32)
    requires ValidVersion(ver) && Square(g, SizeOf(ver))
    requires TimingDrawn(g, SizeOf(ver)) && FindersDrawn(g, SizeOf(ver)) && AlignmentsDrawn(g, ver, NumAlign(ver), 0)
    ensures var h := Stamped(g, SizeOf(ver), word, FORMAT_WRITES);
            TimingDrawn(h, SizeOf(ver)) && FindersDrawn(h, SizeOf(ver)) && AlignmentsDrawn(h, ver, NumAlign(ver), 0) &&
            FormatDrawn(h, SizeOf(ver), word)
  {
    hide SquareDark, Dist, InVersion, AlignAt, FormatCell, Stamped, FormatBit;
    var n, h := SizeOf(ver), Stamped(g, SizeOf(ver), word, FORMAT_WRITES);
    forall c: Cell | Inside(n, c) && !IsFormatCell(n, c) ensures At(h, c) == At(g, c) {
      StampFrame(g, n, word, FORMAT_WRITES, c);
    }
    forall k | 0 <= k < FORMAT_WRITES
      ensures Inside(n, FormatCell(n, k)) && At(h, FormatCell(n, k)) == FormatBit(word, k)
    {
      StampHolds(g, n, word, FORMAT_WRITES, k);
    }
    hide IsFormatCell;
    forall c: Cell | Inside(n, c) && (NearFinder(n, c) || c.x == 6 || c.y == 6) ensures !IsFormatCell(n, c) {
      FixedApart(ver, c);
    }
    forall a, b | 0 <= a < NumAlign(ver) && 0 <= b < NumAlign(ver) && Aligned(ver, a, b)
      ensures SquareDrawn(h, n, AlignAt(ver, a), AlignAt(ver, b), 2)
    {
      assert SquareDrawn(g, n, AlignAt(ver, a), AlignAt(ver, b), 2);
      AlignmentCentre(ver, a, b);
      forall c: Cell | Inside(n, c) && Dist(c, AlignAt(ver, a), AlignAt(ver, b)) <= 2 ensures !IsFormatCell(n, c) {
        AlignmentFits(ver, AlignAt(ver, a), AlignAt(ver, b), c);
      }
    }
  }

  lemma VersionKeeps(g: Grid, h: Grid, ver: nat, word: bv32)
    requires ValidVersion(ver) && VersionAdded(g, h, ver, VersionWord(ver), 18)
    requires TimingDrawn(g, SizeOf(ver)) && FindersDrawn(g, SizeOf(ver)) && AlignmentsDrawn(g, ver, NumAlign(ver), 0)
    requires FormatDrawn(g, SizeOf(ver), word)
    ensures AllDrawn(h, ver, word)
  {
    hide SquareDark, Dist, AlignAt, FormatCell, FormatBit, InVersion, VersionIndex, WordBit, VersionWord;
    var n := SizeOf(ver);
    forall c: Cell | Inside(n, c) && !InVersion(ver, c) ensures At(h, c) == At(g, c) {
    }
    forall c: Cell | Inside(n, c) && (NearFinder(n, c) || c.x == 6 || c.y == 6) ensures !InVersion(ver, c) {
      FixedApart(ver, c);
    }
    forall k | 0 <= k < FORMAT_WRITES
      ensures Inside(n, FormatCell(n, k)) && At(h, FormatCell(n, k)) == FormatBit(word, k)
    {
      FormatCellInside(n, k);
      FixedApart(ver, FormatCell(n, k));
      assert IsFormatCell(n, FormatCell(n, k));
    }
    hide IsFormatCell;
    forall a, b | 0 <= a < NumAlign(ver) && 0 <= b < NumAlign(ver) && Aligned(ver, a, b)
      ensures SquareDrawn(h, n, AlignAt(ver, a), AlignAt(ver, b), 2)
    {
      assert SquareDrawn(g, n, AlignAt(ver, a), AlignAt(ver, b), 2);
      AlignmentCentre(ver, a, b);
      forall c: Cell | Inside(n, c) && Dist(c, AlignAt(ver, a), AlignAt(ver, b)) <= 2 ensures !InVersion(ver, c) {
        AlignmentFits(ver, AlignAt(ver, a), AlignAt(ver, b), c);
      }
    }
  }

  lemma NoVersion(g: Grid, ver: nat, word: bv32)
    requires ValidVersion(ver) && ver < 7
    requires TimingDrawn(g, SizeOf(ver)) && FindersDrawn(g, SizeOf(ver)) && AlignmentsDrawn(g, ver, NumAlign(ver), 0)
    requires FormatDrawn(g, SizeOf(ver), word)
    ensures AllDrawn(g, ver, word)
  {
    hide FindersDrawn, AlignmentsDrawn, FormatDrawn;
  }

  // ---- Which cells are taken ----

  predicate AlignedBefore(ver: nat, i: nat, j: nat, c: Cell)
    requires ValidVersion(ver)
  {
    exists a, b :: 0 <= a < NumAlign(ver) && 0 <= b < NumAlign(ver) && Aligned(ver, a, b) &&
        (a < i || (a == i && b < j)) &&
                   Dist(c, AlignAt(ver, a), AlignAt(ver, b)) <= 2
  }

  ghost predicate TakenSoFar(f: Grid, ver: nat, i: nat, j: nat)
    requires ValidVersion(ver)
  {
    Square(f, SizeOf(ver)) && forall c: Cell :: Inside(SizeOf(ver), c) ==>
      At(f, c) == (c.x == 6 || c.y == 6 || NearFinder(SizeOf(ver), c) || AlignedBefore(ver, i, j, c))
  }

  lemma AlignmentTaken(f: Grid, h: Grid, ver: nat, i: nat, j: nat)
    requires ValidVersion(ver) && TakenSoFar(f, ver, i, j) && i < NumAlign(ver) && j < NumAlign(ver)
    ensures Aligned(ver, i, j) && SquareTaken(f, h, SizeOf(ver), AlignAt(ver, i), AlignAt(ver, j), 2) ==>
            TakenSoFar(h, ver, i, j + 1)
    ensures !Aligned(ver, i, j) ==> TakenSoFar(f, ver, i, j + 1)
    ensures j + 1 == NumAlign(ver) ==> (TakenSoFar(h, ver, i, j + 1) ==> TakenSoFar(h, ver, i + 1, 0))
    ensures j + 1 == NumAlign(ver) ==> (TakenSoFar(f, ver, i, j + 1) ==> TakenSoFar(f, ver, i + 1, 0))
  {
    hide Dist, AlignAt, Aligned;
    forall c: Cell
      ensures AlignedBefore(ver, i, j + 1, c) <==>
              AlignedBefore(ver, i, j, c) || (Aligned(ver, i, j) && Dist(c, AlignAt(ver, i), AlignAt(ver, j)) <= 2)
      ensures j + 1 == NumAlign(ver) ==> (AlignedBefore(ver, i, j + 1, c) <==> AlignedBefore(ver, i + 1, 0, c))
    {
    }
    hide AlignedBefore, NearFinder;
  }

  /** Once everything is drawn, the taken cells are the function cells. */
  lemma AllTaken(f: Grid, g: Grid, h: Grid, ver: nat)
    requires ValidVersion(ver) && TakenSoFar(f, ver, NumAlign(ver), 0)
    requires Square(g, SizeOf(ver)) && forall c: Cell :: Inside(SizeOf(ver), c) ==>
             At(g, c) == (At(f, c) || IsFormatCell(SizeOf(ver), c))
    requires if ver < 7 then h == g else VersionTaken(g, h, ver, 18)
    ensures h == FunctionGrid(ver)
  {
    hide Dist, AlignAt, IsFormatCell, NearFinder, Aligned;
    var n := SizeOf(ver);
    forall c: Cell | Inside(n, c) ensures At(h, c) == At(FunctionGrid(ver), c) {
      assert AlignedBefore(ver, NumAlign(ver), 0, c) <==> NearAlignment(ver, c);
    }
    GridsEqual(n, h, FunctionGrid(ver));
  }

  // ---- The start ----

  function Blank(n: nat): (g: Grid)
    ensures Square(g, n)
  {
    seq(n, _ => seq(n, _ => false))
  }

  /** The timing cells that `i` turns of the first loop have drawn. */
  predicate OnTiming(c: Cell, i: nat) {
    (c.x == 6 && c.y < i) || (c.y == 6 && c.x < i)
  }

  ghost predicate TimingUpTo(g: Grid, f: Grid, n: nat, i: nat) {
    && Square(g, n) && Square(f, n)
    && (forall c: Cell :: Inside(n, c) && OnTiming(c, i) ==> At(g, c) == ((c.x + c.y) % 2 == 0))
    && (forall c: Cell :: Inside(n, c) ==> At(f, c) == OnTiming(c, i))
  }

  lemma TimingStart(g: Grid, n: nat)
    requires Square(g, n)
    ensures TimingUpTo(g, Blank(n), n, 0)
  {
  }

  lemma TimingStep(g: Grid, f: Grid, n: nat, i: nat)
    requires TimingUpTo(g, f, n, i) && i < n && n >= 7
    ensures TimingUpTo(Put(Put(g, n, Cell(6, i), i % 2 == 0), n, Cell(i, 6), i % 2 == 0),
                       Put(Put(f, n, Cell(6, i), true), n, Cell(i, 6), true), n, i + 1)
  {
    hide Put;
  }

  lemma TimingEnd(g: Grid, f: Grid, n: nat)
    requires TimingUpTo(g, f, n, n)
    ensures TimingDrawn(g, n)
    ensures forall c: Cell :: Inside(n, c) ==> At(f, c) == (c.x == 6 || c.y == 6)
  {
  }

  /** The three finder patterns join the timing cells. */
  lemma FindersTaken(f0: Grid, f1: Grid, f2: Grid, f3: Grid, ver: nat)
    requires ValidVersion(ver)
    requires var n := SizeOf(ver);
             SquareTaken(f0, f1, n, 3, 3, 4) && SquareTaken(f1, f2, n, n - 4, 3, 4) &&
                 SquareTaken(f2, f3, n, 3, n - 4, 4)
    requires forall c: Cell :: Inside(SizeOf(ver), c) ==> At(f0, c) == (c.x == 6 || c.y == 6)
    ensures TakenSoFar(f3, ver, 0, 0)
  {
    hide Norm;
  }

  /** A grid that agrees on the function cells, once stamped with another word, has all its patterns. */
  lemma StampAgain(g: Grid, h: Grid, ver: nat, word: bv32, next: bv32)
    requires ValidVersion(ver) && AllDrawn(g, ver, word) && Square(h, SizeOf(ver))
    requires forall c: Cell :: Inside(SizeOf(ver), c) && IsFunctionCell(ver, c) ==> At(h, c) == At(g, c)
    ensures AllDrawn(Stamped(h, SizeOf(ver), next, FORMAT_WRITES), ver, next)
  {
    hide Norm, AlignAt, IsFormatCell, VersionIndex, WordBit, VersionWord, FormatCell, FormatBit, Stamped;
    var n, s := SizeOf(ver), Stamped(h, SizeOf(ver), next, FORMAT_WRITES);
    assert TimingDrawn(h, n) && FindersDrawn(h, n);
    forall a, b | 0 <= a < NumAlign(ver) && 0 <= b < NumAlign(ver) && Aligned(ver, a, b)
      ensures SquareDrawn(h, n, AlignAt(ver, a), AlignAt(ver, b), 2)
    {
      assert SquareDrawn(g, n, AlignAt(ver, a), AlignAt(ver, b), 2);
    }
    FormatKeeps(h, ver, next);
    forall c: Cell | Inside(n, c) && InVersion(ver, c) ensures At(s, c) == At(h, c) {
      FixedApart(ver, c);
      assert !IsFormatCell(n, c);
      NotStamped(h, n, next, c);
    }
  }

  lemma NotStamped(h: Grid, n: nat, word: bv32, c: Cell)
    requires Square(h, n) && n >= 21 && Inside(n, c) && !IsFormatCell(n, c)
    ensures At(Stamped(h, n, word, FORMAT_WRITES), c) == At(h, c)
  {
    StampFrame(h, n, word, FORMAT_WRITES, c);
  }
}
