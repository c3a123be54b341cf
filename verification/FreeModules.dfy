/** How many cells the function patterns leave free: exactly as many as the closed formula says. */
module FreeModules {
  import opened Format
  import opened FunctionCells
  import opened QrTables
  import opened Zigzag

  // ---- The alignment patterns outside column 6 and row 6 ----

  function Square5(ver: nat, i: nat, j: nat): (s: set<Cell>)
    requires 2 <= ver <= MAX_VERSION && 1 <= i < NumAlign(ver) && 1 <= j < NumAlign(ver)
  {
    Positions(ver, i);
    Positions(ver, j);
    var x: nat, y: nat := AlignAt(ver, i) - 2, AlignAt(ver, j) - 2;
    Rect(x, x + 5, y, y + 5)
  }

  /** The patterns of line `i` below those of line 0, up to line `j`. */
  function Strip(ver: nat, i: nat, j: nat): set<Cell>
    requires 2 <= ver <= MAX_VERSION && 1 <= i < NumAlign(ver) && 1 <= j <= NumAlign(ver)
    decreases j
  {
    if j == 1 then {} else Strip(ver, i, j - 1) + Square5(ver, i, j - 1)
  }

  function Inner(ver: nat, i: nat): set<Cell>
    requires 2 <= ver <= MAX_VERSION && 1 <= i <= NumAlign(ver)
    decreases i
  {
    if i == 1 then {} else Inner(ver, i - 1) + Strip(ver, i - 1, NumAlign(ver))
  }

  predicate InLine(ver: nat, i: nat, a: nat)
    requires 2 <= ver <= MAX_VERSION && 1 <= i < NumAlign(ver)
  {
    AlignAt(ver, i) - 2 <= a <= AlignAt(ver, i) + 2
  }

  lemma InSquare5(ver: nat, i: nat, j: nat, c: Cell)
    requires 2 <= ver <= MAX_VERSION && 1 <= i < NumAlign(ver) && 1 <= j < NumAlign(ver)
    ensures c in Square5(ver, i, j) <==> InLine(ver, i, c.x) && InLine(ver, j, c.y)
    ensures |Square5(ver, i, j)| == 25
  {
    hide AlignAt;
    Positions(ver, i);
    Positions(ver, j);
    var x: nat, y: nat := AlignAt(ver, i) - 2, AlignAt(ver, j) - 2;
    RectSize(x, x + 5, y, y + 5);
    assert c == Cell(c.x, c.y);
  }

  /** One of the lines before line `k`, line 0 apart. */
  predicate OnLines(ver: nat, k: nat, a: nat)
    requires 2 <= ver <= MAX_VERSION && 1 <= k <= NumAlign(ver)
  {
    exists i :: 1 <= i < k && InLine(ver, i, a)
  }

  lemma {:induction false} InStrip(ver: nat, i: nat, j: nat, c: Cell)
    requires 2 <= ver <= MAX_VERSION && 1 <= i < NumAlign(ver) && 1 <= j <= NumAlign(ver)
    ensures c in Strip(ver, i, j) <==> InLine(ver, i, c.x) && OnLines(ver, j, c.y)
    decreases j
  {
    hide Square5, InLine;
    if j > 1 {
      InStrip(ver, i, j - 1, c);
      InSquare5(ver, i, j - 1, c);
    }
  }

  /** Two lines share no row or column. */
  lemma LinesApart(ver: nat, i: nat, k: nat, a: nat)
    requires 2 <= ver <= MAX_VERSION && 1 <= i < k < NumAlign(ver)
    ensures !(InLine(ver, i, a) && InLine(ver, k, a))
  {
    hide AlignAt;
    Apart(ver, i, k);
  }

  lemma {:induction false} StripSize(ver: nat, i: nat, j: nat)
    requires 2 <= ver <= MAX_VERSION && 1 <= i < NumAlign(ver) && 1 <= j <= NumAlign(ver)
    ensures |Strip(ver, i, j)| == 25 * (j - 1)
    decreases j
  {
    hide Square5, InLine;
    if j > 1 {
      StripSize(ver, i, j - 1);
      var front, last := Strip(ver, i, j - 1), Square5(ver, i, j - 1);
      InSquare5(ver, i, j - 1, Cell(0, 0));
      forall c: Cell ensures !(c in front && c in last) {
        InStrip(ver, i, j - 1, c);
        InSquare5(ver, i, j - 1, c);
        forall k | 1 <= k < j - 1 ensures !(InLine(ver, k, c.y) && InLine(ver, j - 1, c.y)) {
          LinesApart(ver, k, j - 1, c.y);
        }
      }
      assert front * last == {};
    }
  }

  lemma {:induction false} InInner(ver: nat, i: nat, c: Cell)
    requires 2 <= ver <= MAX_VERSION && 1 <= i <= NumAlign(ver)
    ensures c in Inner(ver, i) <==> OnLines(ver, i, c.x) && OnLines(ver, NumAlign(ver), c.y)
    decreases i
  {
    hide Strip, InLine;
    if i > 1 {
      InInner(ver, i - 1, c);
      InStrip(ver, i - 1, NumAlign(ver), c);
    }
  }

  function StripsSize(m: nat, i: nat): int {
    25 * (m - 1) * (i - 1)
  }

  lemma NextStrip(m: nat, i: nat)
    ensures StripsSize(m, 1) == 0
    ensures i > 1 ==> StripsSize(m, i) == StripsSize(m, i - 1) + 25 * (m - 1)
  {
  }

  lemma {:induction false} InnerSize(ver: nat, i: nat)
    requires 2 <= ver <= MAX_VERSION && 1 <= i <= NumAlign(ver)
    ensures |Inner(ver, i)| == StripsSize(NumAlign(ver), i)
    decreases i
  {
    hide Strip, InLine, StripsSize, NumAlign;
    NextStrip(NumAlign(ver), i);
    if i > 1 {
      InnerSize(ver, i - 1);
      StripSize(ver, i - 1, NumAlign(ver));
      var front, last := Inner(ver, i - 1), Strip(ver, i - 1, NumAlign(ver));
      forall c: Cell ensures !(c in front && c in last) {
        InInner(ver, i - 1, c);
        InStrip(ver, i - 1, NumAlign(ver), c);
        forall k | 1 <= k < i - 1 ensures !(InLine(ver, k, c.x) && InLine(ver, i - 1, c.x)) {
          LinesApart(ver, k, i - 1, c.x);
        }
      }
      JoinedSize(front, last);
    }
  }

  // ---- The alignment patterns across row 6 and column 6 ----

  /** A pattern on line 0 without its middle row (or column), which the timing pattern owns. */
  function Across(ver: nat, i: nat, tall: bool): set<Cell>
    requires 2 <= ver <= MAX_VERSION && 1 <= i < NumAlign(ver)
  {
    Positions(ver, i);
    var a: nat := AlignAt(ver, i) - 2;
    if tall then Rect(4, 6, a, a + 5) + Rect(7, 9, a, a + 5) else Rect(a, a + 5, 4, 6) + Rect(a, a + 5, 7, 9)
  }

  function Edge(ver: nat, i: nat, tall: bool): set<Cell>
    requires 2 <= ver <= MAX_VERSION && 1 <= i <= NumAlign(ver)
    decreases i
  {
    if i == 1 then {} else Edge(ver, i - 1, tall) + Across(ver, i - 1, tall)
  }

  /** The rows (or columns) of line 0 other than 6. */
  predicate Beside(b: nat) {
    4 <= b <= 8 && b != 6
  }

  function Along(c: Cell, tall: bool): nat {
    if tall then c.y else c.x
  }

  lemma InAcross(ver: nat, i: nat, tall: bool, c: Cell)
    requires 2 <= ver <= MAX_VERSION && 1 <= i < NumAlign(ver)
    ensures c in Across(ver, i, tall) <==> InLine(ver, i, Along(c, tall)) && Beside(Along(c, !tall))
    ensures |Across(ver, i, tall)| == 20
  {
    hide AlignAt, Rect;
    Positions(ver, i);
    var a: nat := AlignAt(ver, i) - 2;
    if tall {
      InRect(4, 6, a, a + 5, c);
      InRect(7, 9, a, a + 5, c);
      RectSize(4, 6, a, a + 5);
      RectSize(7, 9, a, a + 5);
      RectsApart(4, 6, a, a + 5, 7, 9, a, a + 5);
    } else {
      InRect(a, a + 5, 4, 6, c);
      InRect(a, a + 5, 7, 9, c);
      RectSize(a, a + 5, 4, 6);
      RectSize(a, a + 5, 7, 9);
      RectsApart(a, a + 5, 4, 6, a, a + 5, 7, 9);
    }
  }

  lemma {:induction false} InEdge(ver: nat, i: nat, tall: bool, c: Cell)
    requires 2 <= ver <= MAX_VERSION && 1 <= i <= NumAlign(ver)
    ensures c in Edge(ver, i, tall) <==> Beside(Along(c, !tall)) && OnLines(ver, i, Along(c, tall))
    decreases i
  {
    hide Across, InLine, Beside, Along;
    if i > 1 {
      InEdge(ver, i - 1, tall, c);
      InAcross(ver, i - 1, tall, c);
    }
  }

  lemma {:induction false} EdgeSize(ver: nat, i: nat, tall: bool)
    requires 2 <= ver <= MAX_VERSION && 1 <= i <= NumAlign(ver)
    ensures |Edge(ver, i, tall)| == 20 * (i - 1)
    decreases i
  {
    hide Across, InLine, Beside, Along;
    if i > 1 {
      EdgeSize(ver, i - 1, tall);
      var front, last := Edge(ver, i - 1, tall), Across(ver, i - 1, tall);
      InAcross(ver, i - 1, tall, Cell(0, 0));
      forall c: Cell ensures !(c in front && c in last) {
        InEdge(ver, i - 1, tall, c);
        InAcross(ver, i - 1, tall, c);
        forall k | 1 <= k < i - 1 ensures !(InLine(ver, k, Along(c, tall)) && InLine(ver, i - 1, Along(c, tall))) {
          LinesApart(ver, k, i - 1, Along(c, tall));
        }
      }
      assert front * last == {};
    }
  }

  // ---- The corners, the timing row and the version blocks ----

  function Corners(n: nat): set<Cell>
    requires n >= 21
  {
    Rect(0, 6, 0, 9) + Rect(7, 9, 0, 9) + Rect(n - 8, n, 0, 9) + Rect(0, 6, n - 8, n) + Rect(7, 9, n - 8, n)
  }

  predicate InCorners(n: nat, c: Cell) {
    Inside(n, c) && c.x != 6 && ((c.x < 9 && c.y < 9) || (c.x >= n - 8 && c.y < 9) || (c.x < 9 && c.y >= n - 8))
  }

  lemma CornersAre(n: nat, c: Cell)
    requires n >= 21
    ensures c in Corners(n) <==> InCorners(n, c)
  {
    hide Rect;
    InRect(0, 6, 0, 9, c);
    InRect(7, 9, 0, 9, c);
    InRect(n - 8, n, 0, 9, c);
    InRect(0, 6, n - 8, n, c);
    InRect(7, 9, n - 8, n, c);
  }

  lemma CornerSizes(n: nat)
    requires n >= 21
    ensures |Rect(0, 6, 0, 9)| == 54 && |Rect(7, 9, 0, 9)| == 18 && |Rect(n - 8, n, 0, 9)| == 72
    ensures |Rect(0, 6, n - 8, n)| == 48 && |Rect(7, 9, n - 8, n)| == 16
  {
    hide Rect;
    RectSize(0, 6, 0, 9);
    RectSize(7, 9, 0, 9);
    RectSize(n - 8, n, 0, 9);
    RectSize(0, 6, n - 8, n);
    RectSize(7, 9, n - 8, n);
  }

  lemma CornersSize(n: nat)
    requires n >= 21
    ensures |Corners(n)| == 208
  {
    hide Rect, Disjoint;
    CornerSizes(n);
    RectsApart(0, 6, 0, 9, 7, 9, 0, 9);
    RectsApart(0, 6, 0, 9, n - 8, n, 0, 9);
    RectsApart(7, 9, 0, 9, n - 8, n, 0, 9);
    RectsApart(0, 6, 0, 9, 0, 6, n - 8, n);
    RectsApart(7, 9, 0, 9, 0, 6, n - 8, n);
    RectsApart(n - 8, n, 0, 9, 0, 6, n - 8, n);
    RectsApart(0, 6, 0, 9, 7, 9, n - 8, n);
    RectsApart(7, 9, 0, 9, 7, 9, n - 8, n);
    RectsApart(n - 8, n, 0, 9, 7, 9, n - 8, n);
    RectsApart(0, 6, n - 8, n, 7, 9, n - 8, n);
    FiveApart(Rect(0, 6, 0, 9), Rect(7, 9, 0, 9), Rect(n - 8, n, 0, 9), Rect(0, 6, n - 8, n), Rect(7, 9, n - 8, n));
  }

  lemma FiveApart(a: set<Cell>, b: set<Cell>, c: set<Cell>, d: set<Cell>, e: set<Cell>)
    requires Disjoint(a, b) && Disjoint(a, c) && Disjoint(a, d) && Disjoint(a, e) && Disjoint(b, c)
    requires Disjoint(b, d) && Disjoint(b, e) && Disjoint(c, d) && Disjoint(c, e) && Disjoint(d, e)
    ensures |a + b + c + d + e| == |a| + |b| + |c| + |d| + |e|
  {
    JoinedSize(a, b);
    JoinedSize(a + b, c);
    JoinedSize(a + b + c, d);
    JoinedSize(a + b + c + d, e);
  }

  function Blocks(ver: nat): set<Cell>
    requires ValidVersion(ver)
  {
    var n := SizeOf(ver);
    if ver < 7 then {} else Rect(n - 11, n - 8, 0, 6) + Rect(0, 6, n - 11, n - 8)
  }

  lemma BlocksAre(ver: nat, c: Cell)
    requires ValidVersion(ver)
    ensures c in Blocks(ver) <==> InVersion(ver, c)
    ensures |Blocks(ver)| == if ver >= 7 then 36 else 0
  {
    hide Rect;
    var n := SizeOf(ver);
    InRect(n - 11, n - 8, 0, 6, c);
    InRect(0, 6, n - 11, n - 8, c);
    RectSize(n - 11, n - 8, 0, 6);
    RectSize(0, 6, n - 11, n - 8);
    if ver >= 7 {
      RectsApart(n - 11, n - 8, 0, 6, 0, 6, n - 11, n - 8);
      JoinedSize(Rect(n - 11, n - 8, 0, 6), Rect(0, 6, n - 11, n - 8));
    }
  }

  /** Finder patterns, format cells and the crossing of the timing patterns fill the corners. */
  lemma CornerCells(n: nat, c: Cell)
    requires n >= 21 && Inside(n, c) && c.x != 6
    ensures InCorners(n, c) <==> NearFinder(n, c) || IsFormatCell(n, c) || (c.y == 6 && (c.x < 9 || c.x >= n - 8))
  {
    if InCorners(n, c) && !NearFinder(n, c) && c.y != 6 {
      var k :=
        if c.x == 8 && c.y <= 5 then c.y
        else if c == Cell(8, 7) then 6
        else if c == Cell(8, 8) then 7
        else if c == Cell(7, 8) then 8
        else if c.x < 9 && c.y == 8 then 14 - c.x
        else if c.x >= n - 8 then n - 1 - c.x + 15
        else if c.y == n - 8 then 30
        else c.y + 30 - n;
      assert FormatCell(n, k) == c;
    }
    if IsFormatCell(n, c) {
      var k :| 0 <= k < FORMAT_WRITES && FormatCell(n, k) == c;
    }
  }

  // ---- All function cells outside column 6 ----

  function Alignments(ver: nat): set<Cell>
    requires 2 <= ver <= MAX_VERSION
  {
    var m := NumAlign(ver);
    Inner(ver, m) + Edge(ver, m - 1, false) + Edge(ver, m - 1, true)
  }

  lemma LineBounds(ver: nat, i: nat, a: nat)
    requires 2 <= ver <= MAX_VERSION && 1 <= i < NumAlign(ver) && InLine(ver, i, a)
    ensures 16 <= a <= SizeOf(ver) - 5
    ensures i < NumAlign(ver) - 1 ==> a <= SizeOf(ver) - 17
  {
    hide AlignAt;
    Positions(ver, i);
  }

  /** A cell is near an alignment pattern exactly if it lies on the lines of one. */
  predicate OnPattern(ver: nat, c: Cell)
    requires 2 <= ver <= MAX_VERSION
  {
    exists i, j :: 0 <= i < NumAlign(ver) && 0 <= j < NumAlign(ver) && Aligned(ver, i, j) && OnLine(ver, i, c.x) &&
        OnLine(ver, j, c.y)
  }

  lemma NearIsOn(ver: nat, c: Cell)
    requires 2 <= ver <= MAX_VERSION
    ensures NearAlignment(ver, c) <==> OnPattern(ver, c)
  {
    hide AlignAt, NumAlign, Dist, Aligned, OnLine;
    forall i, j | 0 <= i < NumAlign(ver) && 0 <= j < NumAlign(ver) && Aligned(ver, i, j)
      ensures Dist(c, AlignAt(ver, i), AlignAt(ver, j)) <= 2 <==> OnLine(ver, i, c.x) && OnLine(ver, j, c.y)
    {
      DistOnLines(ver, i, j, c);
    }
  }

  /** The three families by lines. */
  predicate InFamilies(ver: nat, c: Cell)
    requires 2 <= ver <= MAX_VERSION
  {
    var m := NumAlign(ver);
    || (OnLines(ver, m, c.x) && OnLines(ver, m, c.y))
    || (Beside(c.y) && OnLines(ver, m - 1, c.x))
    || (Beside(c.x) && OnLines(ver, m - 1, c.y))
  }

  lemma LinesExist(ver: nat)
    requires ver >= 2
    ensures NumAlign(ver) >= 2
  {
  }

  lemma FamiliesAre(ver: nat, c: Cell)
    requires 2 <= ver <= MAX_VERSION
    ensures c in Alignments(ver) <==> InFamilies(ver, c)
  {
    hide Inner, Edge, OnLines, NumAlign, Beside;
    LinesExist(ver);
    var m := NumAlign(ver);
    InInner(ver, m, c);
    InEdge(ver, m - 1, false, c);
    InEdge(ver, m - 1, true, c);
    InThree(Inner(ver, m), Edge(ver, m - 1, false), Edge(ver, m - 1, true), c);
  }

  lemma InThree(a: set<Cell>, b: set<Cell>, d: set<Cell>, c: Cell)
    ensures c in a + b + d <==> c in a || c in b || c in d
  {
  }

  lemma FamiliesOnPattern(ver: nat, c: Cell)
    requires 2 <= ver <= MAX_VERSION && InFamilies(ver, c)
    ensures OnPattern(ver, c)
  {
    var m := NumAlign(ver);
    hide InLine, NumAlign;
    if i, j :| 1 <= i < m && InLine(ver, i, c.x) && 1 <= j < m && InLine(ver, j, c.y) {
      assert Aligned(ver, i, j) && OnLine(ver, i, c.x) && OnLine(ver, j, c.y);
    } else if i :| 1 <= i < m - 1 && InLine(ver, i, c.x) && Beside(c.y) {
      assert Aligned(ver, i, 0) && OnLine(ver, i, c.x) && OnLine(ver, 0, c.y);
    } else {
      var j :| 1 <= j < m - 1 && InLine(ver, j, c.y) && Beside(c.x);
      assert Aligned(ver, 0, j) && OnLine(ver, 0, c.x) && OnLine(ver, j, c.y);
    }
  }

  lemma PatternInFamilies(ver: nat, c: Cell)
    requires 2 <= ver <= MAX_VERSION && OnPattern(ver, c) && c.x != 6 && c.y != 6
    ensures InFamilies(ver, c)
  {
    hide InLine, NumAlign;
    var i, j :| 0 <= i < NumAlign(ver) && 0 <= j < NumAlign(ver) && Aligned(ver, i, j) && OnLine(ver, i, c.x) &&
                OnLine(ver, j, c.y);
    assert i > 0 ==> InLine(ver, i, c.x);
    assert j > 0 ==> InLine(ver, j, c.y);
  }

  lemma AlignmentsAre(ver: nat, c: Cell)
    requires 2 <= ver <= MAX_VERSION && c.x != 6 && c.y != 6
    ensures c in Alignments(ver) <==> NearAlignment(ver, c)
  {
    hide Alignments, NearAlignment, OnPattern, InFamilies;
    NearIsOn(ver, c);
    FamiliesAre(ver, c);
    if InFamilies(ver, c) {
      FamiliesOnPattern(ver, c);
    }
    if OnPattern(ver, c) {
      PatternInFamilies(ver, c);
    }
  }

  predicate OnLine(ver: nat, i: nat, a: nat)
    requires 2 <= ver <= MAX_VERSION && i < NumAlign(ver)
  {
    if i == 0 then 4 <= a <= 8 else InLine(ver, i, a)
  }

  lemma DistOnLines(ver: nat, i: nat, j: nat, c: Cell)
    requires 2 <= ver <= MAX_VERSION && i < NumAlign(ver) && j < NumAlign(ver)
    ensures Dist(c, AlignAt(ver, i), AlignAt(ver, j)) <= 2 <==> OnLine(ver, i, c.x) && OnLine(ver, j, c.y)
  {
    assert AlignAt(ver, 0) == 6;
    hide AlignAt;
  }

  lemma AlignmentsSize(ver: nat)
    requires 2 <= ver <= MAX_VERSION
    ensures var m := NumAlign(ver); |Alignments(ver)| == 25 * (m - 1) * (m - 1) + 40 * (m - 2)
  {
    hide Inner, Edge;
    var m := NumAlign(ver);
    InnerSize(ver, m);
    EdgeSize(ver, m - 1, false);
    EdgeSize(ver, m - 1, true);
    hide InLine, NumAlign;
    var inner, top, left := Inner(ver, m), Edge(ver, m - 1, false), Edge(ver, m - 1, true);
    forall c: Cell ensures !(c in inner && c in top) && !(c in inner && c in left) && !(c in top && c in left) {
      InInner(ver, m, c);
      InEdge(ver, m - 1, false, c);
      InEdge(ver, m - 1, true, c);
      forall i, a: nat | 1 <= i < m && InLine(ver, i, a) ensures a >= 16 {
        LineBounds(ver, i, a);
      }
    }
    assert inner !! top && (inner + top) !! left;
  }

  /** The function cells that the scan meets. */
  function Outside(ver: nat): set<Cell>
    requires ValidVersion(ver)
  {
    set c | c in Rect(0, SizeOf(ver), 0, SizeOf(ver)) && c.x != 6 && IsFunctionCell(ver, c)
  }

  function Timing(n: nat): set<Cell>
    requires n >= 21
  {
    Rect(9, n - 8, 6, 7)
  }

  function Patterns(ver: nat): set<Cell>
    requires ValidVersion(ver)
  {
    if ver == 1 then {} else Alignments(ver)
  }

  /** The alignment patterns keep clear of everything else but the timing patterns. */
  lemma PatternsApart(ver: nat, c: Cell)
    requires ValidVersion(ver) && c in Patterns(ver)
    ensures c.x != 6 && c.y != 6 && Inside(SizeOf(ver), c) && !InCorners(SizeOf(ver), c) && !InVersion(ver, c)
  {
    PatternBounds(ver, c);
    hide Patterns;
  }

  /** Where the cells of alignment patterns are. */
  predicate InMiddle(n: nat, c: Cell) {
    || (16 <= c.x <= n - 5 && 16 <= c.y <= n - 5)
    || (16 <= c.x <= n - 17 && Beside(c.y))
    || (16 <= c.y <= n - 17 && Beside(c.x))
  }

  lemma PatternBounds(ver: nat, c: Cell)
    requires ValidVersion(ver) && c in Patterns(ver)
    ensures InMiddle(SizeOf(ver), c)
  {
    hide Alignments, InLine, NumAlign, Beside, SizeOf;
    FamiliesAre(ver, c);
    var m := NumAlign(ver);
    if Beside(c.y) && OnLines(ver, m - 1, c.x) {
      var i :| 1 <= i < m - 1 && InLine(ver, i, c.x);
      LineBounds(ver, i, c.x);
    } else if Beside(c.x) && OnLines(ver, m - 1, c.y) {
      var j :| 1 <= j < m - 1 && InLine(ver, j, c.y);
      LineBounds(ver, j, c.y);
    } else {
      var i :| 1 <= i < m && InLine(ver, i, c.x);
      var j :| 1 <= j < m && InLine(ver, j, c.y);
      LineBounds(ver, i, c.x);
      LineBounds(ver, j, c.y);
    }
  }

  lemma OutsideIs(ver: nat, c: Cell)
    requires ValidVersion(ver)
    ensures c in Outside(ver) <==>
            c in Corners(SizeOf(ver)) || c in Timing(SizeOf(ver)) || c in Blocks(ver) || c in Patterns(ver)
  {
    hide Rect, Corners, Blocks, Alignments, NearFinder, IsFormatCell, NearAlignment;
    var n := SizeOf(ver);
    InRect(0, n, 0, n, c);
    InRect(9, n - 8, 6, 7, c);
    CornersAre(n, c);
    BlocksAre(ver, c);
    if c in Patterns(ver) {
      PatternsApart(ver, c);
    }
    if Inside(n, c) && c.x != 6 {
      CornerCells(n, c);
      if ver == 1 {
        NoAlignment(c);
      } else if c.y != 6 {
        AlignmentsAre(ver, c);
      }
    }
  }

  lemma NoAlignment(c: Cell)
    ensures !NearAlignment(1, c)
  {
  }

  lemma OutsideSize(ver: nat)
    requires ValidVersion(ver)
    ensures |Outside(ver)| == SizeOf(ver) * (SizeOf(ver) - 1) - RawDataModules(ver)
  {
    hide Rect, Corners, Blocks, Patterns, Outside, InVersion, InCorners, RawDataModules, PatternCells, SizeOf;
    var n := SizeOf(ver);
    var corners, timing, blocks, patterns := Corners(n), Timing(n), Blocks(ver), Patterns(ver);
    forall c: Cell
      ensures c in Outside(ver) <==> c in corners + timing + blocks + patterns
      ensures !(c in corners && c in timing) && !(c in corners + timing && c in blocks) &&
              !(c in corners + timing + blocks && c in patterns)
    {
      OutsideIs(ver, c);
      CornersAre(n, c);
      InRect(9, n - 8, 6, 7, c);
      BlocksAre(ver, c);
      PiecesApart(ver, c);
      if c in patterns {
        PatternsApart(ver, c);
      }
    }
    assert Outside(ver) == corners + timing + blocks + patterns;
    assert corners !! timing && (corners + timing) !! blocks && (corners + timing + blocks) !! patterns;
    CornersSize(n);
    RectSize(9, n - 8, 6, 7);
    BlocksAre(ver, Cell(0, 0));
    PatternsSize(ver);
    Formula(ver);
  }

  lemma PiecesApart(ver: nat, c: Cell)
    requires ValidVersion(ver)
    ensures !(InCorners(SizeOf(ver), c) && InVersion(ver, c))
    ensures 9 <= c.x < SizeOf(ver) - 8 && c.y == 6 ==> !InCorners(SizeOf(ver), c) && !InVersion(ver, c)
  {
  }

  function PatternCells(ver: nat): int {
    var m := NumAlign(ver);
    if ver == 1 then 0 else 25 * (m - 1) * (m - 1) + 40 * (m - 2)
  }

  lemma PatternsSize(ver: nat)
    requires ValidVersion(ver)
    ensures |Patterns(ver)| == PatternCells(ver)
  {
    hide Alignments;
    if ver >= 2 {
      AlignmentsSize(ver);
    }
  }

  /** The closed formula is what remains of the scanned cells. */
  lemma Formula(ver: nat)
    requires ValidVersion(ver)
    ensures var n := SizeOf(ver);
            208 + (n - 17) + (if ver >= 7 then 36 else 0) + PatternCells(ver) == n * (n - 1) - RawDataModules(ver)
  {
    var n, m := SizeOf(ver), ver / 7 + 2;
    assert n * (n - 1) == 16 * ver * ver + 132 * ver + 272;
    assert (16 * ver + 128) * ver == 16 * ver * ver + 128 * ver;
    assert 25 * (m - 1) * (m - 1) == 25 * m * m - 50 * m + 25;
    assert (25 * m - 10) * m == 25 * m * m - 10 * m;
  }

  // ---- What the scan meets ----

  /** The function cells among the first `t` cells of the scan. */
  function Met(n: nat, isFunction: Grid, t: nat): set<Cell>
    requires ValidSize(n) && Square(isFunction, n) && t <= Steps(n)
    decreases t
  {
    if t == 0 then {} else
      ScanIsInjective(n, t - 1);
      var c := CellAt(n, t - 1);
      Met(n, isFunction, t - 1) + if At(isFunction, c) then {c} else {}
  }

  lemma {:induction false} InMet(n: nat, isFunction: Grid, t: nat, c: Cell)
    requires ValidSize(n) && Square(isFunction, n) && t <= Steps(n)
    ensures c in Met(n, isFunction, t) <==> Inside(n, c) && c.x != 6 && At(isFunction, c) && StepOf(n, c) < t
    decreases t
  {
    hide CellAt, StepOf;
    if t > 0 {
      InMet(n, isFunction, t - 1, c);
      ScanIsInjective(n, t - 1);
      if Inside(n, c) && c.x != 6 {
        ScanIsSurjective(n, c);
      }
    }
  }

  lemma MetGrows(n: nat, isFunction: Grid, t: nat)
    requires ValidSize(n) && Square(isFunction, n) && t < Steps(n)
    ensures Inside(n, CellAt(n, t))
    ensures Met(n, isFunction, t + 1) ==
            Met(n, isFunction, t) + if At(isFunction, CellAt(n, t)) then {CellAt(n, t)} else {}
    ensures CellAt(n, t) !in Met(n, isFunction, t)
  {
    hide CellAt, StepOf;
    ScanIsInjective(n, t);
    InMet(n, isFunction, t, CellAt(n, t));
  }

  lemma MetNothing(n: nat, isFunction: Grid)
    requires ValidSize(n) && Square(isFunction, n)
    ensures Met(n, isFunction, 0) == {} && Free(n, isFunction, 0) == []
  {
  }

  lemma {:induction false} MetSize(n: nat, isFunction: Grid, t: nat)
    requires ValidSize(n) && Square(isFunction, n) && t <= Steps(n)
    ensures |Met(n, isFunction, t)| + |Free(n, isFunction, t)| == t
    decreases t
  {
    hide Met, Free, Steps, CellAt, At;
    if t == 0 {
      MetNothing(n, isFunction);
    } else {
      MetSize(n, isFunction, t - 1);
      MetGrows(n, isFunction, t - 1);
      FreeGrows(n, isFunction, t - 1);
    }
  }

  lemma MetIsOutside(ver: nat, c: Cell)
    requires ValidVersion(ver)
    ensures c in Met(SizeOf(ver), FunctionGrid(ver), Steps(SizeOf(ver))) <==> c in Outside(ver)
  {
    var n := SizeOf(ver);
    InRect(0, n, 0, n, c);
    hide Free, Met, CellAt, StepOf, Rect, IsFunctionCell, Steps, FunctionGrid, SizeOf;
    InMet(n, FunctionGrid(ver), Steps(n), c);
    if Inside(n, c) && c.x != 6 {
      ScanIsSurjective(n, c);
    }
  }

  lemma AllMet(ver: nat)
    requires ValidVersion(ver)
    ensures Met(SizeOf(ver), FunctionGrid(ver), Steps(SizeOf(ver))) == Outside(ver)
  {
    hide Met, Outside, Steps, FunctionGrid, SizeOf, Square, CellAt;
    forall c: Cell ensures c in Met(SizeOf(ver), FunctionGrid(ver), Steps(SizeOf(ver))) <==> c in Outside(ver) {
      MetIsOutside(ver, c);
    }
  }

  /** The cells left for codewords are exactly as many as getNumRawDataModules says. */
  lemma FreeCount(ver: nat)
    requires ValidVersion(ver)
    ensures |FreeCells(SizeOf(ver), FunctionGrid(ver))| == RawDataModules(ver)
  {
    hide Free, Met, Outside, Steps, FunctionGrid, RawDataModules, SizeOf, Square, CellAt;
    var n := SizeOf(ver);
    StepsClosed(n, 0);
    MetSize(n, FunctionGrid(ver), Steps(n));
    AllMet(ver);
    OutsideSize(ver);
    Commute(n, n - 1);
  }

  lemma Commute(a: int, b: int)
    ensures a * b == b * a
  {
  }
}
