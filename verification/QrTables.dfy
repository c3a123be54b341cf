/** The capacity tables of the symbol versions and the relations the encoder relies on. */
module QrTables {
  import opened BitStream
  import opened Interleave
  import opened Format

  const MIN_VERSION := 1
  const MAX_VERSION := 40

  /** One table row: an entry for each error correction level. */
  datatype Levels = Levels(low: nat, medium: nat, quartile: nat, high: nat) {
    function Get(ecl: Ecc): nat {
      match ecl
      case Low => low
      case Medium => medium
      case Quartile => quartile
      case High => high
    }
  }

  /** ECC_CODEWORDS_PER_BLOCK. */
  function EccPerBlock(ver: nat): Levels
    requires MIN_VERSION <= ver <= MAX_VERSION
  {
    match ver
    case 1 => Levels(7, 10, 13, 17)
    case 2 => Levels(10, 16, 22, 28)
    case 3 => Levels(15, 26, 18, 22)
    case 4 => Levels(20, 18, 26, 16)
    case 5 => Levels(26, 24, 18, 22)
    case 6 => Levels(18, 16, 24, 28)
    case 7 => Levels(20, 18, 18, 26)
    case 8 => Levels(24, 22, 22, 26)
    case 9 => Levels(30, 22, 20, 24)
    case 10 => Levels(18, 26, 24, 28)
    case 11 => Levels(20, 30, 28, 24)
    case 12 => Levels(24, 22, 26, 28)
    case 13 => Levels(26, 22, 24, 22)
    case 14 => Levels(30, 24, 20, 24)
    case 15 => Levels(22, 24, 30, 24)
    case 16 => Levels(24, 28, 24, 30)
    case 17 => Levels(28, 28, 28, 28)
    case 18 => Levels(30, 26, 28, 28)
    case 19 => Levels(28, 26, 26, 26)
    case 20 => Levels(28, 26, 30, 28)
    case 21 => Levels(28, 26, 28, 30)
    case 22 => Levels(28, 28, 30, 24)
    case 23 => Levels(30, 28, 30, 30)
    case 24 => Levels(30, 28, 30, 30)
    case 25 => Levels(26, 28, 30, 30)
    case 26 => Levels(28, 28, 28, 30)
    case 27 => Levels(30, 28, 30, 30)
    case 28 => Levels(30, 28, 30, 30)
    case 29 => Levels(30, 28, 30, 30)
    case 30 => Levels(30, 28, 30, 30)
    case 31 => Levels(30, 28, 30, 30)
    case 32 => Levels(30, 28, 30, 30)
    case 33 => Levels(30, 28, 30, 30)
    case 34 => Levels(30, 28, 30, 30)
    case 35 => Levels(30, 28, 30, 30)
    case 36 => Levels(30, 28, 30, 30)
    case 37 => Levels(30, 28, 30, 30)
    case 38 => Levels(30, 28, 30, 30)
    case 39 => Levels(30, 28, 30, 30)
    case _ => Levels(30, 28, 30, 30)
  }

  /** NUM_ERROR_CORRECTION_BLOCKS. */
  function BlockCounts(ver: nat): Levels
    requires MIN_VERSION <= ver <= MAX_VERSION
  {
    match ver
    case 1 => Levels(1, 1, 1, 1)
    case 2 => Levels(1, 1, 1, 1)
    case 3 => Levels(1, 1, 2, 2)
    case 4 => Levels(1, 2, 2, 4)
    case 5 => Levels(1, 2, 4, 4)
    case 6 => Levels(2, 4, 4, 4)
    case 7 => Levels(2, 4, 6, 5)
    case 8 => Levels(2, 4, 6, 6)
    case 9 => Levels(2, 5, 8, 8)
    case 10 => Levels(4, 5, 8, 8)
    case 11 => Levels(4, 5, 8, 11)
    case 12 => Levels(4, 8, 10, 11)
    case 13 => Levels(4, 9, 12, 16)
    case 14 => Levels(4, 9, 16, 16)
    case 15 => Levels(6, 10, 12, 18)
    case 16 => Levels(6, 10, 17, 16)
    case 17 => Levels(6, 11, 16, 19)
    case 18 => Levels(6, 13, 18, 21)
    case 19 => Levels(7, 14, 21, 25)
    case 20 => Levels(8, 16, 20, 25)
    case 21 => Levels(8, 17, 23, 25)
    case 22 => Levels(9, 17, 23, 34)
    case 23 => Levels(9, 18, 25, 30)
    case 24 => Levels(10, 20, 27, 32)
    case 25 => Levels(12, 21, 29, 35)
    case 26 => Levels(12, 23, 34, 37)
    case 27 => Levels(12, 25, 34, 40)
    case 28 => Levels(13, 26, 35, 42)
    case 29 => Levels(14, 28, 38, 45)
    case 30 => Levels(15, 29, 40, 48)
    case 31 => Levels(16, 31, 43, 51)
    case 32 => Levels(17, 33, 45, 54)
    case 33 => Levels(18, 35, 48, 57)
    case 34 => Levels(19, 37, 51, 60)
    case 35 => Levels(19, 38, 53, 63)
    case 36 => Levels(20, 40, 56, 66)
    case 37 => Levels(21, 43, 59, 70)
    case 38 => Levels(22, 45, 62, 74)
    case 39 => Levels(24, 47, 65, 77)
    case _ => Levels(25, 49, 68, 81)
  }

  /** getNumRawDataModules. */
  function RawDataModules(ver: nat): int {
    var base := (16 * ver + 128) * ver + 64;
    if ver < 2 then base
    else
      var numAlign := ver / 7 + 2;
      base - ((25 * numAlign - 10) * numAlign - 55) - if ver >= 7 then 36 else 0
  }

  /** getNumDataCodewords. */
  function DataCodewords(ver: nat, ecl: Ecc): int
    requires MIN_VERSION <= ver <= MAX_VERSION
  {
    RawDataModules(ver) / 8 - EccPerBlock(ver).Get(ecl) * BlockCounts(ver).Get(ecl)
  }

  /** Every level has a usable block structure, and capacity falls as the level rises. */
  predicate GoodVersion(ver: nat)
    requires MIN_VERSION <= ver <= MAX_VERSION
  {
    var raw, e, b := RawDataModules(ver), EccPerBlock(ver), BlockCounts(ver);
    && 208 <= raw <= 29648
    && b.low > 0 && b.medium > 0 && b.quartile > 0 && b.high > 0
    && 1 <= e.low <= 30 && 1 <= e.medium <= 30 && 1 <= e.quartile <= 30 && 1 <= e.high <= 30
    && raw / 8 < 154 * b.low && raw / 8 < 154 * b.medium && raw / 8 < 154 * b.quartile && raw / 8 < 154 * b.high
    && e.low * b.low <= e.medium * b.medium <= e.quartile * b.quartile <= e.high * b.high < raw / 8
  }

  lemma Versions1To4()
    ensures GoodVersion(1) && GoodVersion(2) && GoodVersion(3) && GoodVersion(4)
  {
  }

  lemma Versions5To8()
    ensures GoodVersion(5) && GoodVersion(6) && GoodVersion(7) && GoodVersion(8)
  {
  }

  lemma Versions9To12()
    ensures GoodVersion(9) && GoodVersion(10) && GoodVersion(11) && GoodVersion(12)
  {
  }

  lemma Versions13To16()
    ensures GoodVersion(13) && GoodVersion(14) && GoodVersion(15) && GoodVersion(16)
  {
  }

  lemma Versions17To20()
    ensures GoodVersion(17) && GoodVersion(18) && GoodVersion(19) && GoodVersion(20)
  {
  }

  lemma Versions21To24()
    ensures GoodVersion(21) && GoodVersion(22) && GoodVersion(23) && GoodVersion(24)
  {
  }

  lemma Versions25To28()
    ensures GoodVersion(25) && GoodVersion(26) && GoodVersion(27) && GoodVersion(28)
  {
  }

  lemma Versions29To32()
    ensures GoodVersion(29) && GoodVersion(30) && GoodVersion(31) && GoodVersion(32)
  {
  }

  lemma Versions33To36()
    ensures GoodVersion(33) && GoodVersion(34) && GoodVersion(35) && GoodVersion(36)
  {
  }

  lemma Versions37To40()
    ensures GoodVersion(37) && GoodVersion(38) && GoodVersion(39) && GoodVersion(40)
  {
  }

  lemma TableRelations(ver: nat)
    requires MIN_VERSION <= ver <= MAX_VERSION
    ensures GoodVersion(ver)
  {
    hide GoodVersion;
    if ver <= 4 {
      Versions1To4();
    } else if ver <= 8 {
      Versions5To8();
    } else if ver <= 12 {
      Versions9To12();
    } else if ver <= 16 {
      Versions13To16();
    } else if ver <= 20 {
      Versions17To20();
    } else if ver <= 24 {
      Versions21To24();
    } else if ver <= 28 {
      Versions25To28();
    } else if ver <= 32 {
      Versions29To32();
    } else if ver <= 36 {
      Versions33To36();
    } else {
      Versions37To40();
    }
  }

  lemma WholeBlocks(raw: nat, b: nat, e: nat)
    requires b > 0 && e * b <= raw
    ensures e <= raw / b
  {
    var q := raw / b;
    assert raw == q * b + raw % b;
    assert (e - q) * b == e * b - q * b;
    if e > q {
      MulAtLeast(e - q, b);
    }
  }

  lemma BlockLength(raw: nat, b: nat, n: nat)
    requires b > 0 && raw < n * b
    ensures raw / b < n
  {
    var q := raw / b;
    assert raw == q * b + raw % b;
  }

  function LayoutOf(ver: nat, ecl: Ecc): (l: Layout)
    requires MIN_VERSION <= ver <= MAX_VERSION
    ensures l.Valid() && l.DataSize() == DataCodewords(ver, ecl) > 0
  {
    TableRelations(ver);
    var raw, b, e := RawDataModules(ver) / 8, BlockCounts(ver).Get(ecl), EccPerBlock(ver).Get(ecl);
    WholeBlocks(raw, b, e);
    Layout(raw, b, e)
  }

  function Rank(ecl: Ecc): nat {
    match ecl
    case Low => 0
    case Medium => 1
    case Quartile => 2
    case High => 3
  }

  lemma CapacityFalls(ver: nat, a: Ecc, b: Ecc)
    requires MIN_VERSION <= ver <= MAX_VERSION && Rank(a) <= Rank(b)
    ensures DataCodewords(ver, a) >= DataCodewords(ver, b) > 0
  {
    TableRelations(ver);
  }
}
