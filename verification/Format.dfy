/** The format word of a symbol and the cells that hold its two copies. */
module Format {
  import opened Zigzag

  datatype Ecc = Low | Medium | Quartile | High

  // ---- The word ----

  function FormatLevel(ecl: Ecc): bv32 {
    match ecl
    case Low => 1
    case Medium => 0
    case Quartile => 3
    case High => 2
  }

  function BchStep(rem: bv32): bv32 {
    (rem << 1) ^ ((rem >> 9) * 0x537)
  }

  function BchRemainder(data: bv32, rounds: nat): bv32
    decreases rounds, data
  {
    if rounds == 0 then data else BchStep(BchRemainder(data, rounds - 1))
  }

  function FormatData(ecl: Ecc, msk: nat): bv32
    requires msk < 8
  {
    (FormatLevel(ecl) << 3) | msk as bv32
  }

  function PackFormat(data: bv32, rem: bv32): bv32 {
    ((data << 10) | rem) ^ 0x5412
  }

  function FormatWord(ecl: Ecc, msk: nat): bv32
    requires msk < 8
  {
    FormatPacked(FormatData(ecl, msk))
  }

  function FormatPacked(data: bv32): bv32 {
    PackFormat(data, BchRemainder(data, 10))
  }

  lemma TenSteps(d: bv32)
    ensures BchRemainder(d, 10)
            == BchStep(BchStep(BchStep(BchStep(BchStep(BchStep(BchStep(BchStep(BchStep(BchStep(d))))))))))
  {
    hide BchStep;
    assert BchRemainder(d, 0) == d;
    assert BchRemainder(d, 2) == BchStep(BchStep(BchRemainder(d, 0)));
    assert BchRemainder(d, 4) == BchStep(BchStep(BchRemainder(d, 2)));
    assert BchRemainder(d, 6) == BchStep(BchStep(BchRemainder(d, 4)));
    assert BchRemainder(d, 8) == BchStep(BchStep(BchRemainder(d, 6)));
  }

  const FORMAT_WRITES := 31

  /** The cells of the two copies of the format bits and the always dark module, in drawing order. */
  function FormatCell(n: nat, k: nat): Cell
    requires n >= 21 && k < FORMAT_WRITES
  {
    if k <= 5 then Cell(8, k)
    else if k == 6 then Cell(8, 7)
    else if k == 7 then Cell(8, 8)
    else if k == 8 then Cell(7, 8)
    else if k < 15 then Cell(14 - k, 8)
    else if k < 23 then Cell(n - 1 - (k - 15), 8)
    else if k < 30 then Cell(8, n - 15 + (k - 15))
    else Cell(8, n - 8)
  }

  function WordBit(word: bv32, i: nat): bool
    requires i < 32
  {
    (word >> i) & 1 != 0
  }

  function FormatBit(word: bv32, k: nat): bool
    requires k < FORMAT_WRITES
  {
    if k < 15 then WordBit(word, k) else if k < 30 then WordBit(word, k - 15) else true
  }

  function Stamped(g: Grid, n: nat, word: bv32, k: nat): (h: Grid)
    requires Square(g, n) && n >= 21 && k <= FORMAT_WRITES
    ensures Square(h, n)
  {
    if k == 0 then g
    else Put(Stamped(g, n, word, k - 1), n, FormatCell(n, k - 1), FormatBit(word, k - 1))
  }

  lemma FormatCellInside(n: nat, i: nat)
    requires n >= 21 && i < FORMAT_WRITES
    ensures Inside(n, FormatCell(n, i))
  {
  }

  predicate IsFormatCell(n: nat, c: Cell)
    requires n >= 21
  {
    exists k :: 0 <= k < FORMAT_WRITES && FormatCell(n, k) == c
  }

  /** Stamping leaves every other cell alone and forgets what the format cells held. */
  lemma {:induction false} StampFrame(g: Grid, n: nat, word: bv32, k: nat, c: Cell)
    requires Square(g, n) && n >= 21 && k <= FORMAT_WRITES && Inside(n, c)
    requires forall i :: 0 <= i < k ==> FormatCell(n, i) != c
    ensures At(Stamped(g, n, word, k), c) == At(g, c)
  {
    if k > 0 {
      StampFrame(g, n, word, k - 1, c);
    }
  }

  lemma {:induction false} StampForgets(g: Grid, h: Grid, n: nat, word: bv32, k: nat, c: Cell)
    requires Square(g, n) && Square(h, n) && n >= 21 && k <= FORMAT_WRITES && Inside(n, c)
    requires At(g, c) == At(h, c) || exists i :: 0 <= i < k && FormatCell(n, i) == c
    ensures At(Stamped(g, n, word, k), c) == At(Stamped(h, n, word, k), c)
  {
    if k > 0 && FormatCell(n, k - 1) != c {
      StampForgets(g, h, n, word, k - 1, c);
    }
  }

  /** Every format cell is marked as a function module. */
  predicate FormatReserved(isFunction: Grid, n: nat) {
    n >= 21 && Square(isFunction, n) && forall k :: 0 <= k < FORMAT_WRITES ==> At(isFunction, FormatCell(n, k))
  }

  /** The first `k` format cells have become function modules. */
  predicate FormatTaken(before: Grid, after: Grid, n: nat, k: nat)
    requires n >= 21 && k <= FORMAT_WRITES
  {
    && Square(before, n) && Square(after, n)
    && forall x, y :: 0 <= x < n && 0 <= y < n ==>
         At(after, Cell(x, y)) == (At(before, Cell(x, y)) || exists i :: 0 <= i < k && FormatCell(n, i) == Cell(x, y))
  }

  lemma NothingTaken(f: Grid, n: nat)
    requires n >= 21 && Square(f, n)
    ensures FormatTaken(f, f, n, 0)
  {
  }

  lemma TakeStep(before: Grid, after: Grid, n: nat, k: nat)
    requires n >= 21 && k < FORMAT_WRITES && FormatTaken(before, after, n, k) && Inside(n, FormatCell(n, k))
    ensures FormatTaken(before, Put(after, n, FormatCell(n, k), true), n, k + 1)
  {
    hide FormatCell;
  }

  lemma AllFormatTaken(before: Grid, after: Grid, n: nat)
    requires n >= 21 && FormatTaken(before, after, n, FORMAT_WRITES)
    ensures forall c: Cell :: Inside(n, c) ==> At(after, c) == (At(before, c) || IsFormatCell(n, c))
    ensures FormatReserved(after, n)
    ensures FormatReserved(before, n) ==> after == before
  {
    hide FormatCell;
    forall c: Cell | Inside(n, c) ensures At(after, c) == (At(before, c) || IsFormatCell(n, c)) {
      assert c == Cell(c.x, c.y);
    }
    forall k | 0 <= k < FORMAT_WRITES ensures Inside(n, FormatCell(n, k)) {
      FormatCellInside(n, k);
    }
    if FormatReserved(before, n) {
      GridsEqual(n, after, before);
    }
  }

  /** The cells by index, as the drawing loops compute them. */
  lemma FormatCells(n: nat)
    requires n >= 21
    ensures forall i :: 0 <= i < 6 ==> FormatCell(n, i) == Cell(8, i)
    ensures FormatCell(n, 6) == Cell(8, 7) && FormatCell(n, 7) == Cell(8, 8) && FormatCell(n, 8) == Cell(7, 8)
    ensures forall i :: 9 <= i < 15 ==> FormatCell(n, i) == Cell(14 - i, 8)
    ensures forall i :: 15 <= i < 23 ==> FormatCell(n, i) == Cell(n - 1 - (i - 15), 8)
    ensures forall i :: 23 <= i < 30 ==> FormatCell(n, i) == Cell(8, n - 15 + (i - 15))
    ensures FormatCell(n, 30) == Cell(8, n - 8)
  {
  }

  /** The first copy runs down column 8 past the timing row to the corner, then left past the timing column;
      the second copy runs left along row 8 from the right edge, then down column 8 to the bottom. */
  lemma FormatPath(n: nat, k: nat)
    requires n >= 21 && k < 29
    ensures FormatCell(n, 0) == Cell(8, 0) && FormatCell(n, 14) == Cell(0, 8)
    ensures FormatCell(n, 15) == Cell(n - 1, 8) && FormatCell(n, 23) == Cell(8, n - 7) &&
            FormatCell(n, 30) == Cell(8, n - 8)
    ensures var c, d := FormatCell(n, k), FormatCell(n, k + 1);
            && (k < 7 ==> d.x == c.x && d.y == if c.y == 5 then 7 else c.y + 1)
            && (7 <= k < 14 ==> d.y == c.y && d.x == if c.x == 7 then 5 else c.x - 1)
            && (15 <= k < 22 ==> d.y == c.y && d.x == c.x - 1)
            && (23 <= k ==> d.x == c.x && d.y == c.y + 1)
  {
  }

  lemma StampSteps(g: Grid, n: nat, word: bv32)
    requires Square(g, n) && n >= 21
    ensures Stamped(g, n, word, 0) == g
    ensures forall k :: 0 <= k < FORMAT_WRITES ==>
              Inside(n, FormatCell(n, k)) &&
              Stamped(g, n, word, k + 1) == Put(Stamped(g, n, word, k), n, FormatCell(n, k), FormatBit(word, k))
  {
  }

  // ---- Reading the word back ----

  lemma FormatCellsDistinct(n: nat, i: nat, j: nat)
    requires n >= 21 && i < j < FORMAT_WRITES
    ensures FormatCell(n, i) != FormatCell(n, j)
  {
  }

  /** After stamping, every format cell holds its bit of the word. */
  lemma {:induction false} StampHolds(g: Grid, n: nat, word: bv32, k: nat, i: nat)
    requires Square(g, n) && n >= 21 && i < k <= FORMAT_WRITES
    ensures Inside(n, FormatCell(n, i)) && At(Stamped(g, n, word, k), FormatCell(n, i)) == FormatBit(word, i)
  {
    FormatCellInside(n, i);
    hide FormatCell, FormatBit;
    if i < k - 1 {
      StampHolds(g, n, word, k - 1, i);
      FormatCellsDistinct(n, i, k - 1);
    }
  }

  function BitIf(on: bool, value: bv32): bv32 {
    if on then value else 0
  }

  /** The highest five bits of the first copy, without the fixed mask. */
  function ReadFormatData(g: Grid, n: nat): bv32
    requires Square(g, n) && n >= 21
  {
    (BitIf(At(g, FormatCell(n, 14)), 16) | BitIf(At(g, FormatCell(n, 13)), 8) | BitIf(At(g, FormatCell(n, 12)), 4) |
     BitIf(At(g, FormatCell(n, 11)), 2) | BitIf(At(g, FormatCell(n, 10)), 1)) ^ 0x15
  }

  function LevelOf(data: bv32): Ecc {
    var l := (data >> 3) & 3;
    if l == 0 then Medium else if l == 1 then Low else if l == 2 then High else Quartile
  }

  function MaskOf(data: bv32): (msk: nat)
    ensures msk < 8
  {
    var m := data & 7;
    m as nat
  }

  function TopBits(word: bv32): bv32 {
    BitIf(WordBit(word, 14), 16) | BitIf(WordBit(word, 13), 8) | BitIf(WordBit(word, 12), 4) |
    BitIf(WordBit(word, 11), 2) | BitIf(WordBit(word, 10), 1)
  }

  lemma TopWordBits(word: bv32)
    ensures WordBit(word, 14) == (word & 0x4000 != 0)
    ensures WordBit(word, 13) == (word & 0x2000 != 0)
    ensures WordBit(word, 12) == (word & 0x1000 != 0)
    ensures WordBit(word, 11) == (word & 0x800 != 0)
    ensures WordBit(word, 10) == (word & 0x400 != 0)
  {
  }

  lemma TopBitsShift(word: bv32)
    requires word < 0x8000
    ensures TopBits(word) == word >> 10
  {
    hide WordBit;
    TopWordBits(word);
  }

  lemma BchStepBound(rem: bv32)
    requires rem < 0x400
    ensures BchStep(rem) < 0x400
  {
  }

  lemma {:induction false} BchRemainderBound(data: bv32, rounds: nat)
    requires data < 0x400
    ensures BchRemainder(data, rounds) < 0x400
  {
    hide BchStep;
    if rounds > 0 {
      BchRemainderBound(data, rounds - 1);
      BchStepBound(BchRemainder(data, rounds - 1));
    }
  }

  lemma PackedTop(data: bv32, rem: bv32)
    requires data < 32 && rem < 0x400
    ensures PackFormat(data, rem) < 0x8000 && (PackFormat(data, rem) >> 10) ^ 0x15 == data
  {
  }

  lemma DataReadsBack(ecl: Ecc, msk: nat)
    requires msk < 8
    ensures FormatData(ecl, msk) < 32
    ensures LevelOf(FormatData(ecl, msk)) == ecl && MaskOf(FormatData(ecl, msk)) == msk
  {
    if msk == 0 {} else if msk == 1 {} else if msk == 2 {} else if msk == 3 {}
    else if msk == 4 {} else if msk == 5 {} else if msk == 6 {} else { assert msk == 7; }
  }

  /** A reader recovers level and mask from the format cells of any symbol that was stamped. */
  lemma FormatReadsBack(g: Grid, n: nat, ecl: Ecc, msk: nat)
    requires Square(g, n) && n >= 21 && msk < 8
    ensures var data := ReadFormatData(Stamped(g, n, FormatWord(ecl, msk), FORMAT_WRITES), n);
            LevelOf(data) == ecl && MaskOf(data) == msk
  {
    hide Stamped, FormatCell, WordBit, FormatData, BchRemainder, PackFormat, BitIf, LevelOf, MaskOf;
    var word := FormatWord(ecl, msk);
    StampHolds(g, n, word, FORMAT_WRITES, 10);
    StampHolds(g, n, word, FORMAT_WRITES, 11);
    StampHolds(g, n, word, FORMAT_WRITES, 12);
    StampHolds(g, n, word, FORMAT_WRITES, 13);
    StampHolds(g, n, word, FORMAT_WRITES, 14);
    var data := FormatData(ecl, msk);
    DataReadsBack(ecl, msk);
    BchRemainderBound(data, 10);
    PackedTop(data, BchRemainder(data, 10));
    TopBitsShift(word);
  }

  /** Different levels or masks have different words. */
  lemma FormatWordInjective(e: Ecc, m: nat, f: Ecc, k: nat)
    requires m < 8 && k < 8 && FormatWord(e, m) == FormatWord(f, k)
    ensures e == f && m == k
  {
    hide BchRemainder, FormatData, PackFormat, LevelOf, MaskOf;
    DataReadsBack(e, m);
    DataReadsBack(f, k);
    BchRemainderBound(FormatData(e, m), 10);
    BchRemainderBound(FormatData(f, k), 10);
    PackedTop(FormatData(e, m), BchRemainder(FormatData(e, m), 10));
    PackedTop(FormatData(f, k), BchRemainder(FormatData(f, k), 10));
  }
}
