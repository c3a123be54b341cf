/** The symbol under construction: drawing codewords, masking, format bits and mask choice. */
module Symbol {
  import opened Format
  import opened FunctionCells
  import opened Gf256
  import opened FreeModules
  import opened Patterns
  import opened QrTables
  import opened Penalty
  import opened Zigzag

  const LONG_MAX := 0x7FFF_FFFF_FFFF_FFFF

  // ---- Masks ----

  predicate Invert(msk: nat, x: nat, y: nat) {
    match msk
    case 0 => (x + y) % 2 == 0
    case 1 => y % 2 == 0
    case 2 => x % 3 == 0
    case 3 => (x + y) % 3 == 0
    case 4 => (x / 3 + y / 2) % 2 == 0
    case 5 => x * y % 2 + x * y % 3 == 0
    case 6 => (x * y % 2 + x * y % 3) % 2 == 0
    case _ => ((x + y) % 2 + x * y % 3) % 2 == 0
  }

  function MaskedCell(g: Grid, isFunction: Grid, n: nat, msk: nat, c: Cell): bool
    requires Square(g, n) && Square(isFunction, n) && Inside(n, c)
  {
    At(g, c) != (Invert(msk, c.x, c.y) && !At(isFunction, c))
  }

  function Masked(g: Grid, isFunction: Grid, n: nat, msk: nat): (h: Grid)
    requires Square(g, n) && Square(isFunction, n)
    ensures Square(h, n)
    ensures forall c: Cell :: Inside(n, c) ==> At(h, c) == MaskedCell(g, isFunction, n, msk, c)
  {
    seq(n, y requires 0 <= y < n =>
      seq(n, x requires 0 <= x < n => MaskedCell(g, isFunction, n, msk, Cell(x, y))))
  }

  /** Masking twice with one mask restores the grid. */
  lemma MaskInvolution(g: Grid, isFunction: Grid, n: nat, msk: nat)
    requires Square(g, n) && Square(isFunction, n)
    ensures Masked(Masked(g, isFunction, n, msk), isFunction, n, msk) == g
  {
    hide Invert;
    GridsEqual(n, Masked(Masked(g, isFunction, n, msk), isFunction, n, msk), g);
  }

  // ---- Candidates ----

  /** The symbol that mask `msk` leads to, from the unmasked grid. */
  function Candidate(g: Grid, isFunction: Grid, n: nat, ecl: Ecc, msk: nat): (h: Grid)
    requires Square(g, n) && Square(isFunction, n) && n >= 21 && msk < 8
    ensures Square(h, n)
  {
    Stamped(Masked(g, isFunction, n, msk), n, FormatWord(ecl, msk), FORMAT_WRITES)
  }

  function CandidateScore(g: Grid, isFunction: Grid, n: nat, ecl: Ecc, msk: nat): int
    requires Square(g, n) && Square(isFunction, n) && n >= 21 && msk < 8
  {
    Score(Candidate(g, isFunction, n, ecl, msk), n)
  }

  /** `msk` is the first mask of the first `k` whose candidate has the least score. */
  ghost predicate FirstBest(g: Grid, isFunction: Grid, n: nat, ecl: Ecc, msk: nat, k: nat)
    requires Square(g, n) && Square(isFunction, n) && n >= 21 && k <= 8
  {
    && msk < k
    && (forall i :: 0 <= i < k ==>
        CandidateScore(g, isFunction, n, ecl, msk) <= CandidateScore(g, isFunction, n, ecl, i))
    && (forall i :: 0 <= i < msk ==>
        CandidateScore(g, isFunction, n, ecl, msk) < CandidateScore(g, isFunction, n, ecl, i))
  }

  /** The two grids differ at format cells only. */
  ghost predicate SameButFormat(g: Grid, h: Grid, n: nat)
    requires n >= 21
  {
    Square(g, n) && Square(h, n) && forall c: Cell :: Inside(n, c) && !IsFormatCell(n, c) ==> At(g, c) == At(h, c)
  }

  /** A trial does not depend on the format bits earlier trials left behind. */
  lemma CandidateIgnoresFormat(g: Grid, h: Grid, isFunction: Grid, n: nat, ecl: Ecc, msk: nat)
    requires FormatReserved(isFunction, n) && SameButFormat(g, h, n) && msk < 8
    ensures Candidate(g, isFunction, n, ecl, msk) == Candidate(h, isFunction, n, ecl, msk)
  {
    hide Invert, Stamped, Masked, FormatCell, FormatWord;
    var w := FormatWord(ecl, msk);
    var mg, mh := Masked(g, isFunction, n, msk), Masked(h, isFunction, n, msk);
    forall c: Cell | Inside(n, c)
      ensures At(Stamped(mg, n, w, FORMAT_WRITES), c) == At(Stamped(mh, n, w, FORMAT_WRITES), c)
    {
      StampForgets(mg, mh, n, w, FORMAT_WRITES, c);
    }
    GridsEqual(n, Stamped(mg, n, w, FORMAT_WRITES), Stamped(mh, n, w, FORMAT_WRITES));
  }

  /** Undoing the mask of a candidate gives back the unmasked grid outside the format cells. */
  lemma CandidateUnmasks(g: Grid, isFunction: Grid, n: nat, ecl: Ecc, msk: nat)
    requires FormatReserved(isFunction, n) && Square(g, n) && msk < 8
    ensures SameButFormat(Masked(Candidate(g, isFunction, n, ecl, msk), isFunction, n, msk), g, n)
  {
    hide Invert, Stamped, FormatWord, FormatCell;
    var w, m := FormatWord(ecl, msk), Masked(g, isFunction, n, msk);
    var u := Masked(Candidate(g, isFunction, n, ecl, msk), isFunction, n, msk);
    forall c: Cell | Inside(n, c) && !IsFormatCell(n, c) ensures At(u, c) == At(g, c) {
      StampFrame(m, n, w, FORMAT_WRITES, c);
    }
  }

  /** Function modules other than the format cells are the same in every candidate. */
  lemma CandidateKeepsFunctions(g: Grid, isFunction: Grid, n: nat, ecl: Ecc, msk: nat, c: Cell)
    requires FormatReserved(isFunction, n) && Square(g, n) && msk < 8
    requires Inside(n, c) && At(isFunction, c) && !IsFormatCell(n, c)
    ensures At(Candidate(g, isFunction, n, ecl, msk), c) == At(g, c)
  {
    StampFrame(Masked(g, isFunction, n, msk), n, FormatWord(ecl, msk), FORMAT_WRITES, c);
  }

  /** The reader's side: unmasking the finished symbol and rereading it in scan order returns the
      drawn codewords bit for bit. */
  lemma FinishedSymbolReadsBack(n: nat, isFunction: Grid, data: seq<bv8>, blank: Grid, drawn: Grid, ecl: Ecc, msk: nat)
    requires FormatReserved(isFunction, n) && ValidSize(n) && Square(blank, n) && msk < 8
    requires DrawnUpTo(n, isFunction, data, blank, drawn, Steps(n))
    requires 8 * |data| <= |FreeCells(n, isFunction)|
    ensures Square(drawn, n) && Square(isFunction, n)
    ensures var bits := ReadBits(n, isFunction, Masked(Candidate(drawn, isFunction, n, ecl, msk), isFunction, n, msk));
            forall i :: 0 <= i < 8 * |data| ==> bits[i] == CodewordBit(data, i)
  {
    CandidateUnmasks(drawn, isFunction, n, ecl, msk);
    ReadInvertsDraw(n, isFunction, data, blank, drawn);
    hide Masked, Candidate, FreeCells, DrawnUpTo, CodewordBit, FormatCell;
    var u := Masked(Candidate(drawn, isFunction, n, ecl, msk), isFunction, n, msk);
    forall i | 0 <= i < |FreeCells(n, isFunction)|
      ensures ReadBits(n, isFunction, u)[i] == ReadBits(n, isFunction, drawn)[i]
    {
      assert !At(isFunction, FreeCells(n, isFunction)[i]) by { FreeIsFree(n, isFunction, i); }
    }
  }

  lemma FreeIsFree(n: nat, isFunction: Grid, i: nat)
    requires ValidSize(n) && Square(isFunction, n) && i < |FreeCells(n, isFunction)|
    ensures var c := FreeCells(n, isFunction)[i]; Inside(n, c) && !At(isFunction, c)
  {
  }

  class QrCode {
    const version: nat
    const size: nat
    const errorCorrectionLevel: Ecc
    var modules: Grid
    var isFunction: Grid
    var mask: int

    ghost predicate Valid()
      reads this
    {
      ValidVersion(version) && size == SizeOf(version) && Square(modules, size) && Square(isFunction, size)
    }

    /** The first lines of the constructor: a blank symbol. */
    constructor (ver: nat, ecl: Ecc)
      requires ValidVersion(ver)
      ensures Valid() && version == ver && errorCorrectionLevel == ecl
      ensures modules == isFunction == Blank(size)
    {
      this.version := ver;
      this.size := SizeOf(ver);
      this.errorCorrectionLevel := ecl;
      this.modules := Blank(SizeOf(ver));
      this.isFunction := Blank(SizeOf(ver));
      this.mask := -1;
    }

    // ---- Function patterns ----

    /** drawFinderPattern: three rings and a light border, clipped to the symbol. */
    method DrawFinderPattern(x: int, y: int)
      requires Valid()
      modifies this`modules, this`isFunction
      ensures Valid()
      ensures SquareAdded(old(modules), modules, size, x, y, 4)
      ensures SquareTaken(old(isFunction), isFunction, size, x, y, 4)
    {
      hide Square, Swept, Norm;
      ghost var g, f := modules, isFunction;
      SweepStart(g, f, size, x, y, 4);
      for dy := -4 to 5
        invariant Valid() && Painted(g, modules, size, x, y, 4, -4, dy) &&
                  Reserved(f, isFunction, size, x, y, 4, -4, dy)
      {
        for dx := -4 to 5
          invariant Valid() && Painted(g, modules, size, x, y, 4, dx, dy) &&
                    Reserved(f, isFunction, size, x, y, 4, dx, dy)
        {
          PaintStep(g, modules, size, x, y, 4, dx, dy);
          ReserveStep(f, isFunction, size, x, y, 4, dx, dy);
          var dist := Norm(dx, dy);
          var xx, yy := x + dx, y + dy;
          if 0 <= xx < size && 0 <= yy < size {
            SetFunctionModule(xx, yy, dist != 2 && dist != 4);
          }
        }
        SweptRow(g, modules, f, isFunction, size, x, y, 4, dy);
      }
      SweepEnd(g, modules, f, isFunction, size, x, y, 4);
    }

    /** drawAlignmentPattern. */
    method DrawAlignmentPattern(x: int, y: int)
      requires Valid() && 2 <= x < size - 2 && 2 <= y < size - 2
      modifies this`modules, this`isFunction
      ensures Valid()
      ensures SquareAdded(old(modules), modules, size, x, y, 2)
      ensures SquareTaken(old(isFunction), isFunction, size, x, y, 2)
    {
      hide Square, Swept, Norm;
      ghost var g, f := modules, isFunction;
      SweepStart(g, f, size, x, y, 2);
      for dy := -2 to 3
        invariant Valid() && Painted(g, modules, size, x, y, 2, -2, dy) &&
                  Reserved(f, isFunction, size, x, y, 2, -2, dy)
      {
        for dx := -2 to 3
          invariant Valid() && Painted(g, modules, size, x, y, 2, dx, dy) &&
                    Reserved(f, isFunction, size, x, y, 2, dx, dy)
        {
          PaintStep(g, modules, size, x, y, 2, dx, dy);
          ReserveStep(f, isFunction, size, x, y, 2, dx, dy);
          SetFunctionModule(x + dx, y + dy, Norm(dx, dy) != 1);
        }
        SweptRow(g, modules, f, isFunction, size, x, y, 2, dy);
      }
      SweepEnd(g, modules, f, isFunction, size, x, y, 2);
    }

    /** drawVersion: nothing below version 7. */
    method DrawVersion()
      requires Valid()
      modifies this`modules, this`isFunction
      ensures Valid()
      ensures version < 7 ==> modules == old(modules) && isFunction == old(isFunction)
      ensures version >= 7 ==> VersionAdded(old(modules), modules, version, VersionWord(version), 18)
      ensures version >= 7 ==> VersionTaken(old(isFunction), isFunction, version, 18)
    {
      if version < 7 {
        return;
      }
      hide VersionStep, WordBit, Put, VersionAdded, VersionTaken, SizeOf, Square;
      ghost var g, f := modules, isFunction;
      var data := version as bv32;
      var rem := data;
      for i := 0 to 12
        invariant rem == VersionRemainder(data, i)
      {
        rem := VersionStep(rem);
      }
      var bits := (data << 12) | rem;
      VersionStart(g, f, version, bits);
      for i := 0 to 18
        invariant Valid() && VersionAdded(g, modules, version, bits, i) && VersionTaken(f, isFunction, version, i)
      {
        VersionBitAdded(g, modules, version, bits, i);
        VersionBitTaken(f, isFunction, version, i);
        var bit := WordBit(bits, i);
        var a := size - 11 + i % 3;
        var b := i / 3;
        SetFunctionModule(a, b, bit);
        SetFunctionModule(b, a, bit);
      }
    }

    /** getAlignmentPatternPositions: each position is inserted before those found so far. */
    method GetAlignmentPatternPositions() returns (result: seq<int>)
      requires Valid()
      ensures |result| == NumAlign(version)
      ensures forall i :: 0 <= i < |result| ==> result[i] == AlignAt(version, i)
    {
      if version == 1 {
        return [];
      }
      var numAlign := version / 7 + 2;
      var step := (version * 8 + numAlign * 3 + 5) / (numAlign * 4 - 4) * 2;
      result := [];
      var pos: int := size - 7;
      for i := 0 to numAlign - 1
        invariant |result| == i && pos == size - 7 - i * step
        invariant forall k :: 0 <= k < i ==> result[k] == size - 7 - (i - 1 - k) * step
      {
        result := [pos] + result;
        pos := pos - step;
      }
      result := [6] + result;
    }

    /** The first loop of drawFunctionPatterns. */
    method DrawTimingPatterns()
      requires Valid() && isFunction == Blank(size)
      modifies this`modules, this`isFunction
      ensures Valid() && TimingDrawn(modules, size)
      ensures forall c: Cell :: Inside(size, c) ==> At(isFunction, c) == (c.x == 6 || c.y == 6)
    {
      hide Blank, Put, TimingUpTo, SizeOf;
      TimingStart(modules, size);
      for i := 0 to size
        invariant Valid() && TimingUpTo(modules, isFunction, size, i)
      {
        TimingStep(modules, isFunction, size, i);
        SetFunctionModule(6, i, i % 2 == 0);
        SetFunctionModule(i, 6, i % 2 == 0);
      }
      TimingEnd(modules, isFunction, size);
    }

    /** The loops of drawFunctionPatterns over the alignment patterns. */
    method DrawAlignmentPatterns()
      requires Valid() && TimingDrawn(modules, size) && FindersDrawn(modules, size) &&
               TakenSoFar(isFunction, version, 0, 0)
      modifies this`modules, this`isFunction
      ensures Valid() && TimingDrawn(modules, size) && FindersDrawn(modules, size)
      ensures AlignmentsDrawn(modules, version, NumAlign(version), 0) &&
              TakenSoFar(isFunction, version, NumAlign(version), 0)
    {
      var alignPatPos := GetAlignmentPatternPositions();
      var numAlign := |alignPatPos|;
      hide TimingDrawn, FindersDrawn, TakenSoFar, AlignAt, NumAlign, SquareAdded, SquareTaken, SizeOf;
      for i := 0 to numAlign
        invariant Valid() && TimingDrawn(modules, size) && FindersDrawn(modules, size)
        invariant AlignmentsDrawn(modules, version, i, 0) && TakenSoFar(isFunction, version, i, 0)
      {
        for j := 0 to numAlign
          invariant Valid() && TimingDrawn(modules, size) && FindersDrawn(modules, size)
          invariant AlignmentsDrawn(modules, version, i, j) && TakenSoFar(isFunction, version, i, j)
          invariant j == numAlign ==> TakenSoFar(isFunction, version, i + 1, 0)
        {
          ghost var g, f := modules, isFunction;
          if !((i == 0 && j == 0) || (i == 0 && j == numAlign - 1) || (i == numAlign - 1 && j == 0)) {
            AlignmentCentre(version, i, j);
            DrawAlignmentPattern(alignPatPos[i], alignPatPos[j]);
            AlignmentKeeps(g, modules, version, i, j);
          }
          AlignmentTaken(f, isFunction, version, i, j);
        }
      }
    }

    /** drawFunctionPatterns: afterwards every pattern stands undamaged, and exactly the function
        cells are reserved. */
    method DrawFunctionPatterns()
      requires Valid() && isFunction == Blank(size)
      modifies this`modules, this`isFunction
      ensures Valid() && isFunction == FunctionGrid(version)
      ensures AllDrawn(modules, version, FormatWord(errorCorrectionLevel, 0))
    {
      hide FunctionGrid, AllDrawn, SquareAdded, FormatWord, AlignmentsDrawn, NumAlign, FindersDrawn, TimingDrawn,
           VersionTaken, VersionAdded,
           Stamped, IsFormatCell, FormatDrawn;
      DrawTimingPatterns();
      ghost var g0, f0 := modules, isFunction;
      DrawFinderPattern(3, 3);
      ghost var g1, f1 := modules, isFunction;
      DrawFinderPattern(size - 4, 3);
      ghost var g2, f2 := modules, isFunction;
      DrawFinderPattern(3, size - 4);
      FindersAdded(g0, g1, g2, modules, version);
      FindersTaken(f0, f1, f2, isFunction, version);
      DrawAlignmentPatterns();
      ghost var g3, f3 := modules, isFunction;
      DrawFormatBits(0);
      ghost var g4, f4 := modules, isFunction;
      FormatKeeps(g3, version, FormatWord(errorCorrectionLevel, 0));
      DrawVersion();
      if version >= 7 {
        VersionKeeps(g4, modules, version, FormatWord(errorCorrectionLevel, 0));
      } else {
        NoVersion(modules, version, FormatWord(errorCorrectionLevel, 0));
      }
      AllTaken(f3, f4, isFunction, version);
    }

    /** The innermost body of drawCodewords, at step `t` of the scan. */
    method DrawModule(data: seq<bv8>, i: nat, x: nat, y: nat, ghost before: Grid, ghost t: nat) returns (next: nat)
      requires Valid() && Square(before, size) && t < Steps(size) && CellAt(size, t) == Cell(x, y)
      requires DrawnUpTo(size, isFunction, data, before, modules, t)
      requires i == Min(|Free(size, isFunction, t)|, 8 * |data|)
      modifies this`modules
      ensures Valid() && DrawnUpTo(size, isFunction, data, before, modules, t + 1)
      ensures next == Min(|Free(size, isFunction, t + 1)|, 8 * |data|)
    {
      hide Bit, CellAt, Free, DrawnOn, Put, SizeOf;
      DrawStep(size, isFunction, data, before, modules, t);
      FreeGrows(size, isFunction, t);
      next := i;
      if !At(isFunction, Cell(x, y)) && i < |data| * 8 {
        modules := Put(modules, size, Cell(x, y), Bit(data[i / 8], 7 - i % 8));
        next := i + 1;
      }
    }

    /** drawCodewords: data of the wrong length is refused. Once the function patterns are reserved, all
        bits find a place. */
    method DrawCodewords(data: seq<bv8>) returns (ok: bool, ghost drawn: nat)
      requires Valid()
      modifies this`modules
      ensures Valid() && (ok <==> |data| == RawDataModules(version) / 8)
      ensures !ok ==> modules == old(modules)
      ensures ok ==> DrawnUpTo(size, isFunction, data, old(modules), modules, Steps(size))
      ensures ok ==> drawn == Min(|FreeCells(size, isFunction)|, 8 * |data|)
      ensures ok && isFunction == FunctionGrid(version) ==> drawn == 8 * |data|
    {
      hide Steps, DrawnUpTo, FunctionGrid, FreeCells, RawDataModules, SizeOf, Square;
      if |data| != RawDataModules(version) / 8 {
        return false, 0;
      }
      FreeCount(version);
      drawn := ScanAndDraw(data);
      ok := true;
    }

    /** The zigzag scan of drawCodewords; `drawn` is the final bit index. */
    method ScanAndDraw(data: seq<bv8>) returns (drawn: nat)
      requires Valid()
      modifies this`modules
      ensures Valid()
      ensures DrawnUpTo(size, isFunction, data, old(modules), modules, Steps(size))
      ensures drawn == Min(|FreeCells(size, isFunction)|, 8 * |data|)
    {
      hide SizeOf;
      hide Bit, CodewordBit, CellAt, CellOf, Free, DrawnOn, PairStart, Put, PairOf, Steps, StepOf;
      var i := 0;
      var right: int := size - 1;
      ghost var p := 0;
      StartOfScan(size, isFunction, data, modules);
      while right >= 1
        invariant 0 <= p <= (size - 1) / 2
        invariant right == if size - 1 - 2 * p >= 6 then size - 1 - 2 * p else size - 2 - 2 * p
        invariant Valid() && PairStart(size, p) <= Steps(size)
        invariant DrawnUpTo(size, isFunction, data, old(modules), modules, PairStart(size, p))
        invariant i == Min(|Free(size, isFunction, PairStart(size, p))|, 8 * |data|)
        decreases right
      {
        if right == 6 {
          right := 5;
        }
        for vert := 0 to size
          invariant Valid() && StepNumber(size, p, vert, 0) <= Steps(size)
          invariant DrawnUpTo(size, isFunction, data, old(modules), modules, StepNumber(size, p, vert, 0))
          invariant i == Min(|Free(size, isFunction, StepNumber(size, p, vert, 0))|, 8 * |data|)
        {
          for j := 0 to 2
            invariant Valid() && StepNumber(size, p, vert, j) <= Steps(size)
            invariant DrawnUpTo(size, isFunction, data, old(modules), modules, StepNumber(size, p, vert, j))
            invariant i == Min(|Free(size, isFunction, StepNumber(size, p, vert, j))|, 8 * |data|)
          {
            CellAtStepNumber(size, p, vert, j);
            CellOfLoop(size, p, vert, j);
            var x := right - j;
            var upward := ((right + 1) / 2) % 2 == 0;
            var y := if upward then size - 1 - vert else vert;
            i := DrawModule(data, i, x, y, old(modules), StepNumber(size, p, vert, j));
          }
        }
        PairStartStep(size, p);
        right := right - 2;
        p := p + 1;
      }
      StepsAre(size);
      drawn := i;
    }

    /** applyMask. */
    method ApplyMask(msk: int) returns (ok: bool)
      requires Valid()
      modifies this`modules
      ensures Valid() && (ok <==> 0 <= msk <= 7)
      ensures modules == if ok then Masked(old(modules), isFunction, size, msk) else old(modules)
    {
      hide Invert;
      if msk < 0 || msk > 7 {
        return false;
      }
      ghost var want := Masked(modules, isFunction, size, msk);
      for y := 0 to size
        invariant Valid()
        invariant forall c: Cell :: Inside(size, c) ==>
                  At(modules, c) == if c.y < y then At(want, c) else At(old(modules), c)
      {
        for x := 0 to size
          invariant Valid()
          invariant forall c: Cell :: Inside(size, c) ==>
                      At(modules, c) == if c.y < y || (c.y == y && c.x < x) then At(want, c) else At(old(modules), c)
        {
          var c := Cell(x, y);
          modules := Put(modules, size, c, At(modules, c) != (Invert(msk, x, y) && !At(isFunction, c)));
        }
      }
      GridsEqual(size, modules, want);
      return true;
    }

    /** setFunctionModule. */
    method SetFunctionModule(x: nat, y: nat, isDark: bool)
      requires Valid() && x < size && y < size
      modifies this`modules, this`isFunction
      ensures Valid()
      ensures modules == Put(old(modules), size, Cell(x, y), isDark)
      ensures isFunction == Put(old(isFunction), size, Cell(x, y), true)
    {
      modules := Put(modules, size, Cell(x, y), isDark);
      isFunction := Put(isFunction, size, Cell(x, y), true);
    }

    /** drawFormatBits. */
    method DrawFormatBits(msk: nat)
      requires Valid() && msk < 8
      modifies this`modules, this`isFunction
      ensures Valid()
      ensures modules == Stamped(old(modules), size, FormatWord(errorCorrectionLevel, msk), FORMAT_WRITES)
      ensures forall c: Cell :: Inside(size, c) ==>
              At(isFunction, c) == (At(old(isFunction), c) || IsFormatCell(size, c))
      ensures FormatReserved(isFunction, size)
      ensures FormatReserved(old(isFunction), size) ==> isFunction == old(isFunction)
    {
      hide FormatLevel, WordBit, FormatData, BchStep, PackFormat, Stamped;
      var data := FormatData(errorCorrectionLevel, msk);
      var rem := data;
      for i := 0 to 10
        invariant rem == BchRemainder(data, i)
      {
        rem := BchStep(rem);
      }
      var bits := PackFormat(data, rem);
      ghost var f := isFunction;
      DrawFormatWord(bits);
      AllFormatTaken(f, isFunction, size);
    }

    /** The drawing half of drawFormatBits. */
    method DrawFormatWord(bits: bv32)
      requires Valid()
      modifies this`modules, this`isFunction
      ensures Valid()
      ensures modules == Stamped(old(modules), size, bits, FORMAT_WRITES)
      ensures FormatTaken(old(isFunction), isFunction, size, FORMAT_WRITES)
    {
      hide WordBit, FormatTaken, Put, FormatCell, Stamped;
      ghost var g, f := modules, isFunction;
      NothingTaken(f, size);
      FormatCells(size);
      StampSteps(g, size, bits);
      for i := 0 to 6
        invariant Valid() && modules == Stamped(g, size, bits, i) && FormatTaken(f, isFunction, size, i)
      {
        SetFormatModule(f, 8, i, bits, i);
      }
      SetFormatModule(f, 8, 7, bits, 6);
      SetFormatModule(f, 8, 8, bits, 7);
      SetFormatModule(f, 7, 8, bits, 8);
      for i := 9 to 15
        invariant Valid() && modules == Stamped(g, size, bits, i) && FormatTaken(f, isFunction, size, i)
      {
        SetFormatModule(f, 14 - i, 8, bits, i);
      }
      for i := 0 to 8
        invariant Valid() && modules == Stamped(g, size, bits, 15 + i) && FormatTaken(f, isFunction, size, 15 + i)
      {
        SetFormatModule(f, size - 1 - i, 8, bits, 15 + i);
      }
      for i := 8 to 15
        invariant Valid() && modules == Stamped(g, size, bits, 15 + i) && FormatTaken(f, isFunction, size, 15 + i)
      {
        SetFormatModule(f, 8, size - 15 + i, bits, 15 + i);
      }
      SetFormatModule(f, 8, size - 8, bits, 30);
    }

    /** One setFunctionModule call of drawFormatBits, the `k`-th. */
    method SetFormatModule(ghost f: Grid, x: nat, y: nat, bits: bv32, k: nat)
      requires Valid() && k < FORMAT_WRITES && Cell(x, y) == FormatCell(size, k) && FormatTaken(f, isFunction, size, k)
      modifies this`modules, this`isFunction
      ensures Valid()
      ensures modules == Put(old(modules), size, Cell(x, y), FormatBit(bits, k))
      ensures FormatTaken(f, isFunction, size, k + 1)
    {
      FormatCellInside(size, k);
      TakeStep(f, isFunction, size, k);
      SetFunctionModule(x, y, FormatBit(bits, k));
    }

    /** The masking part of the constructor: `msk` is -1 for automatic choice. */
    method ChooseMask(msk: int)
      requires Valid() && FormatReserved(isFunction, size) && -1 <= msk <= 7
      modifies this
      ensures Valid() && isFunction == old(isFunction) && 0 <= mask <= 7
      ensures modules == Candidate(old(modules), isFunction, size, errorCorrectionLevel, mask)
      ensures if msk == -1 then FirstBest(old(modules), isFunction, size, errorCorrectionLevel, mask, 8)
              else mask == msk
    {
      hide Invert, Masked, Stamped, FormatWord, FormatCell, Score;
      ghost var g := modules;
      var chosen := msk;
      if msk == -1 {
        var minPenalty := LONG_MAX;
        for i := 0 to 8
          invariant Valid() && isFunction == old(isFunction)
          invariant SameButFormat(modules, g, size)
          invariant i == 0 ==> minPenalty == LONG_MAX
          invariant -1 <= chosen < 8 && (i > 0 ==> chosen >= 0)
          invariant i > 0 ==> FirstBest(g, isFunction, size, errorCorrectionLevel, chosen, i) &&
                              minPenalty == CandidateScore(g, isFunction, size, errorCorrectionLevel, chosen)
        {
          CandidateIgnoresFormat(modules, g, isFunction, size, errorCorrectionLevel, i);
          CandidateUnmasks(g, isFunction, size, errorCorrectionLevel, i);
          var _ := ApplyMask(i);
          DrawFormatBits(i);
          assert modules == Candidate(g, isFunction, size, errorCorrectionLevel, i);
          ScoreRange(modules, size);
          var penalty := GetPenaltyScore(modules, size);
          if penalty < minPenalty {
            chosen := i;
            minPenalty := penalty;
          }
          var _ := ApplyMask(i);
        }
      }
      assert 0 <= chosen < 8;
      CandidateIgnoresFormat(modules, g, isFunction, size, errorCorrectionLevel, chosen);
      mask := chosen;
      var _ := ApplyMask(chosen);
      DrawFormatBits(chosen);
    }
  }

  lemma StartOfScan(n: nat, isFunction: Grid, data: seq<bv8>, g: Grid)
    requires ValidSize(n) && Square(isFunction, n) && Square(g, n)
    ensures PairStart(n, 0) == 0 && |Free(n, isFunction, 0)| == 0
    ensures DrawnUpTo(n, isFunction, data, g, g, 0)
  {
  }

  lemma StepsAre(n: nat)
    requires n > 0
    ensures Steps(n) == PairStart(n, (n - 1) / 2)
  {
  }

  lemma PairStartStep(n: nat, p: nat)
    ensures PairStart(n, p + 1) == StepNumber(n, p, n, 0)
  {
  }

  lemma CellOfLoop(n: nat, p: nat, vert: nat, j: nat)
    requires ValidSize(n) && p < (n - 1) / 2 && vert < n && j < 2
    ensures var right := RightColumn(n, p);
            1 <= right < n && CellOf(n, p, vert, j) == Cell(right - j, if Upward(right) then n - 1 - vert else vert)
  {
  }
}
