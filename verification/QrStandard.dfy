/** Values that ISO/IEC 18004:2015 prints, against which the formulas of the encoder are checked. */
module QrStandard {
  import opened Format
  import opened FunctionCells
  import opened Patterns
  import opened QrTables
  import opened Symbol

  // ---- Mask patterns (section 7.8.2) ----

  /** The eight patterns, as far as they do not repeat; '#' inverts. */
  function MaskPicture(msk: nat): (rows: seq<string>)
    ensures |rows| > 0 && |rows[0]| > 0 && forall y :: 0 <= y < |rows| ==> |rows[y]| == |rows[0]|
  {
    match msk
    case 0 => ["#.", ".#"]
    case 1 => ["#", "."]
    case 2 => ["#.."]
    case 3 => ["#..", "..#", ".#."]
    case 4 => ["###...", "###...", "...###", "...###"]
    case 5 => ["######", "#.....", "#..#..", "#.#.#.", "#..#..", "#....."]
    case 6 => ["######", "###...", "##.##.", "#.#.#.", "#.##.#", "#...##"]
    case _ => ["#.#.#.", "...###", "#...##", ".#.#.#", "###...", ".###.."]
  }

  predicate Pictured(msk: nat, x: nat, y: nat) {
    var rows := MaskPicture(msk);
    rows[y % |rows|][x % |rows[0]|] == '#'
  }

  lemma SixTimes(q: nat, r: nat, a: nat, b: nat)
    ensures (6 * q + a) * (6 * r + b) == 6 * (6 * (q * r) + q * b + r * a) + a * b
  {
  }

  lemma SixFold(k: nat, p: nat)
    ensures (6 * k + p) % 2 == p % 2 && (6 * k + p) % 3 == p % 3
  {
    assert 6 * k + p == 2 * (3 * k + p / 2) + p % 2;
    assert 6 * k + p == 3 * (2 * k + p / 3) + p % 3;
  }

  lemma ProductModulo(x: nat, y: nat)
    ensures (x * y) % 2 == ((x % 6) * (y % 6)) % 2 && (x * y) % 3 == ((x % 6) * (y % 6)) % 3
  {
    var a, b, q, r := x % 6, y % 6, x / 6, y / 6;
    SixTimes(q, r, a, b);
    SixFold(6 * (q * r) + q * b + r * a, a * b);
  }

  /** The mask conditions give the patterns of the standard, everywhere. */
  lemma MasksAreStandard(msk: nat, x: nat, y: nat)
    requires msk < 8
    ensures Invert(msk, x, y) <==> Pictured(msk, x, y)
  {
    if msk < 3 {
      SimpleMasks(msk, x, y);
    } else if msk == 3 {
      DiagonalMask(x, y, x % 3, y % 3);
    } else if msk == 4 {
      BlockMask(x, y);
    } else {
      ProductModulo(x, y);
      PictureSize(msk);
      hide MaskPicture;
      SumModulo(x, y);
      ProductPicture(msk, x % 6, y % 6, (x % 6) * (y % 6));
    }
  }

  lemma PictureSize(msk: nat)
    requires 5 <= msk < 8
    ensures |MaskPicture(msk)| == 6 && |MaskPicture(msk)[0]| == 6
  {
  }

  lemma SumModulo(x: nat, y: nat)
    ensures (x + y) % 2 == (x % 6 + y % 6) % 2
  {
  }

  lemma SimpleMasks(msk: nat, x: nat, y: nat)
    requires msk < 3
    ensures Invert(msk, x, y) <==> Pictured(msk, x, y)
  {
  }

  lemma DiagonalMask(x: nat, y: nat, a: nat, b: nat)
    requires a == x % 3 && b == y % 3
    ensures Invert(3, x, y) <==> Pictured(3, x, y)
  {
    assert (x + y) % 3 == (a + b) % 3;
    DiagonalPicture(a, b);
    assert |MaskPicture(3)| == 3 && |MaskPicture(3)[0]| == 3;
    hide MaskPicture;
  }

  lemma DiagonalPicture(a: nat, b: nat)
    requires a < 3 && b < 3
    ensures |MaskPicture(3)| == 3 && |MaskPicture(3)[b]| == 3
    ensures (a + b) % 3 == 0 <==> MaskPicture(3)[b][a] == '#'
  {
  }

  lemma BlockMask(x: nat, y: nat)
    ensures Invert(4, x, y) <==> Pictured(4, x, y)
  {
    var a, b := x % 6, y % 4;
    Halves(x / 6, a, y / 4, b);
    BlockPicture(a, b);
  }

  lemma Halves(q: nat, a: nat, r: nat, b: nat)
    requires a < 6 && b < 4
    ensures ((6 * q + a) / 3 + (4 * r + b) / 2) % 2 == (a / 3 + b / 2) % 2
  {
    assert (6 * q + a) / 3 == 2 * q + a / 3 && (4 * r + b) / 2 == 2 * r + b / 2;
  }

  lemma BlockPicture(a: nat, b: nat)
    requires a < 6 && b < 4
    ensures (a / 3 + b / 2) % 2 == 0 <==> MaskPicture(4)[b][a] == '#'
  {
  }

  /** The last three masks depend on the product of the coordinates modulo 6 and on their sum. */
  lemma ProductPicture(msk: nat, a: nat, b: nat, p: nat)
    requires 5 <= msk < 8 && a < 6 && b < 6 && p == a * b
    ensures |MaskPicture(msk)| == 6 && |MaskPicture(msk)[b]| == 6
    ensures msk == 5 ==> (p % 2 + p % 3 == 0 <==> MaskPicture(msk)[b][a] == '#')
    ensures msk == 6 ==> ((p % 2 + p % 3) % 2 == 0 <==> MaskPicture(msk)[b][a] == '#')
    ensures msk == 7 ==> (((a + b) % 2 + p % 3) % 2 == 0 <==> MaskPicture(msk)[b][a] == '#')
  {
    PictureSize(msk);
    hide MaskPicture;
    if msk == 5 {
      Picture5(a, b, p);
    } else if msk == 6 {
      Picture6(a, b, p);
    } else {
      Picture7(a, b, p);
    }
  }

  lemma Picture5(a: nat, b: nat, p: nat)
    requires a < 6 && b < 6 && p == a * b
    ensures |MaskPicture(5)| == 6 && |MaskPicture(5)[b]| == 6
    ensures p % 2 + p % 3 == 0 <==> MaskPicture(5)[b][a] == '#'
  {
    if b == 0 {
      assert p == 0;
    } else if b == 1 {
      assert p == a;
    } else if b == 2 {
      assert p == 2 * a;
    } else if b == 3 {
      assert p == 3 * a;
    } else if b == 4 {
      assert p == 4 * a;
    } else {
      assert p == 5 * a;
    }
  }

  lemma Picture6(a: nat, b: nat, p: nat)
    requires a < 6 && b < 6 && p == a * b
    ensures |MaskPicture(6)| == 6 && |MaskPicture(6)[b]| == 6
    ensures (p % 2 + p % 3) % 2 == 0 <==> MaskPicture(6)[b][a] == '#'
  {
    if b == 0 {
      assert p == 0;
    } else if b == 1 {
      assert p == a;
    } else if b == 2 {
      assert p == 2 * a;
    } else if b == 3 {
      assert p == 3 * a;
    } else if b == 4 {
      assert p == 4 * a;
    } else {
      assert p == 5 * a;
    }
  }

  lemma Picture7(a: nat, b: nat, p: nat)
    requires a < 6 && b < 6 && p == a * b
    ensures |MaskPicture(7)| == 6 && |MaskPicture(7)[b]| == 6
    ensures ((a + b) % 2 + p % 3) % 2 == 0 <==> MaskPicture(7)[b][a] == '#'
  {
    if b == 0 {
      assert p == 0;
    } else if b == 1 {
      assert p == a;
    } else if b == 2 {
      assert p == 2 * a;
    } else if b == 3 {
      assert p == 3 * a;
    } else if b == 4 {
      assert p == 4 * a;
    } else {
      assert p == 5 * a;
    }
  }

  // ---- Format and version information (Annexes C and D) ----

  function FormatTable(ecl: Ecc): (words: seq<bv32>)
    ensures |words| == 8
  {
    match ecl
    case Low => [0x77C4, 0x72F3, 0x7DAA, 0x789D, 0x662F, 0x6318, 0x6C41, 0x6976]
    case Medium => [0x5412, 0x5125, 0x5E7C, 0x5B4B, 0x45F9, 0x40CE, 0x4F97, 0x4AA0]
    case Quartile => [0x355F, 0x3068, 0x3F31, 0x3A06, 0x24B4, 0x2183, 0x2EDA, 0x2BED]
    case High => [0x1689, 0x13BE, 0x1CE7, 0x19D0, 0x0762, 0x0255, 0x0D0C, 0x083B]
  }

  lemma FormatWordsLow()
    ensures FormatPacked(0x08) == 0x77C4
    ensures FormatPacked(0x09) == 0x72F3
    ensures FormatPacked(0x0A) == 0x7DAA
    ensures FormatPacked(0x0B) == 0x789D
    ensures FormatPacked(0x0C) == 0x662F
    ensures FormatPacked(0x0D) == 0x6318
    ensures FormatPacked(0x0E) == 0x6C41
    ensures FormatPacked(0x0F) == 0x6976
  {
    hide BchRemainder;
    TenSteps(0x08);
    TenSteps(0x09);
    TenSteps(0x0A);
    TenSteps(0x0B);
    TenSteps(0x0C);
    TenSteps(0x0D);
    TenSteps(0x0E);
    TenSteps(0x0F);
  }

  lemma FormatWordsMedium()
    ensures FormatPacked(0x00) == 0x5412
    ensures FormatPacked(0x01) == 0x5125
    ensures FormatPacked(0x02) == 0x5E7C
    ensures FormatPacked(0x03) == 0x5B4B
    ensures FormatPacked(0x04) == 0x45F9
    ensures FormatPacked(0x05) == 0x40CE
    ensures FormatPacked(0x06) == 0x4F97
    ensures FormatPacked(0x07) == 0x4AA0
  {
    hide BchRemainder;
    TenSteps(0x00);
    TenSteps(0x01);
    TenSteps(0x02);
    TenSteps(0x03);
    TenSteps(0x04);
    TenSteps(0x05);
    TenSteps(0x06);
    TenSteps(0x07);
  }

  lemma FormatWordsQuartile()
    ensures FormatPacked(0x18) == 0x355F
    ensures FormatPacked(0x19) == 0x3068
    ensures FormatPacked(0x1A) == 0x3F31
    ensures FormatPacked(0x1B) == 0x3A06
    ensures FormatPacked(0x1C) == 0x24B4
    ensures FormatPacked(0x1D) == 0x2183
    ensures FormatPacked(0x1E) == 0x2EDA
    ensures FormatPacked(0x1F) == 0x2BED
  {
    hide BchRemainder;
    TenSteps(0x18);
    TenSteps(0x19);
    TenSteps(0x1A);
    TenSteps(0x1B);
    TenSteps(0x1C);
    TenSteps(0x1D);
    TenSteps(0x1E);
    TenSteps(0x1F);
  }

  lemma FormatWordsHigh()
    ensures FormatPacked(0x10) == 0x1689
    ensures FormatPacked(0x11) == 0x13BE
    ensures FormatPacked(0x12) == 0x1CE7
    ensures FormatPacked(0x13) == 0x19D0
    ensures FormatPacked(0x14) == 0x0762
    ensures FormatPacked(0x15) == 0x0255
    ensures FormatPacked(0x16) == 0x0D0C
    ensures FormatPacked(0x17) == 0x083B
  {
    hide BchRemainder;
    TenSteps(0x10);
    TenSteps(0x11);
    TenSteps(0x12);
    TenSteps(0x13);
    TenSteps(0x14);
    TenSteps(0x15);
    TenSteps(0x16);
    TenSteps(0x17);
  }

  /** The masked format words are those of the standard's table. */
  lemma FormatWordsAreStandard(ecl: Ecc, msk: nat)
    requires msk < 8
    ensures FormatWord(ecl, msk) == FormatTable(ecl)[msk]
  {
    FormatWordsLow();
    FormatWordsMedium();
    FormatWordsQuartile();
    FormatWordsHigh();
    hide FormatPacked;
    if msk == 0 {
    } else if msk == 1 {
    } else if msk == 2 {
    } else if msk == 3 {
    } else if msk == 4 {
    } else if msk == 5 {
    } else if msk == 6 {
    } else {
      assert msk == 7;
    }
  }

  function VersionTable(ver: nat): bv32 {
    match ver
    case 7 => 0x07C94
    case 8 => 0x085BC
    case 9 => 0x09A99
    case 10 => 0x0A4D3
    case 11 => 0x0BBF6
    case 12 => 0x0C762
    case 13 => 0x0D847
    case 14 => 0x0E60D
    case 15 => 0x0F928
    case 16 => 0x10B78
    case 17 => 0x1145D
    case 18 => 0x12A17
    case 19 => 0x13532
    case 20 => 0x149A6
    case 21 => 0x15683
    case 22 => 0x168C9
    case 23 => 0x177EC
    case 24 => 0x18EC4
    case 25 => 0x191E1
    case 26 => 0x1AFAB
    case 27 => 0x1B08E
    case 28 => 0x1CC1A
    case 29 => 0x1D33F
    case 30 => 0x1ED75
    case 31 => 0x1F250
    case 32 => 0x209D5
    case 33 => 0x216F0
    case 34 => 0x228BA
    case 35 => 0x2379F
    case 36 => 0x24B0B
    case 37 => 0x2542E
    case 38 => 0x26A64
    case 39 => 0x27541
    case _ => 0x28C69
  }

  lemma VersionWords7To12()
    ensures VersionWord(7) == 0x07C94
    ensures VersionWord(8) == 0x085BC
    ensures VersionWord(9) == 0x09A99
    ensures VersionWord(10) == 0x0A4D3
    ensures VersionWord(11) == 0x0BBF6
    ensures VersionWord(12) == 0x0C762
  {
    hide VersionRemainder;
    TwelveSteps(7);
    TwelveSteps(8);
    TwelveSteps(9);
    TwelveSteps(10);
    TwelveSteps(11);
    TwelveSteps(12);
  }

  lemma VersionWords13To18()
    ensures VersionWord(13) == 0x0D847
    ensures VersionWord(14) == 0x0E60D
    ensures VersionWord(15) == 0x0F928
    ensures VersionWord(16) == 0x10B78
    ensures VersionWord(17) == 0x1145D
    ensures VersionWord(18) == 0x12A17
  {
    hide VersionRemainder;
    TwelveSteps(13);
    TwelveSteps(14);
    TwelveSteps(15);
    TwelveSteps(16);
    TwelveSteps(17);
    TwelveSteps(18);
  }

  lemma VersionWords19To24()
    ensures VersionWord(19) == 0x13532
    ensures VersionWord(20) == 0x149A6
    ensures VersionWord(21) == 0x15683
    ensures VersionWord(22) == 0x168C9
    ensures VersionWord(23) == 0x177EC
    ensures VersionWord(24) == 0x18EC4
  {
    hide VersionRemainder;
    TwelveSteps(19);
    TwelveSteps(20);
    TwelveSteps(21);
    TwelveSteps(22);
    TwelveSteps(23);
    TwelveSteps(24);
  }

  lemma VersionWords25To30()
    ensures VersionWord(25) == 0x191E1
    ensures VersionWord(26) == 0x1AFAB
    ensures VersionWord(27) == 0x1B08E
    ensures VersionWord(28) == 0x1CC1A
    ensures VersionWord(29) == 0x1D33F
    ensures VersionWord(30) == 0x1ED75
  {
    hide VersionRemainder;
    TwelveSteps(25);
    TwelveSteps(26);
    TwelveSteps(27);
    TwelveSteps(28);
    TwelveSteps(29);
    TwelveSteps(30);
  }

  lemma VersionWords31To36()
    ensures VersionWord(31) == 0x1F250
    ensures VersionWord(32) == 0x209D5
    ensures VersionWord(33) == 0x216F0
    ensures VersionWord(34) == 0x228BA
    ensures VersionWord(35) == 0x2379F
    ensures VersionWord(36) == 0x24B0B
  {
    hide VersionRemainder;
    TwelveSteps(31);
    TwelveSteps(32);
    TwelveSteps(33);
    TwelveSteps(34);
    TwelveSteps(35);
    TwelveSteps(36);
  }

  lemma VersionWords37To40()
    ensures VersionWord(37) == 0x2542E
    ensures VersionWord(38) == 0x26A64
    ensures VersionWord(39) == 0x27541
    ensures VersionWord(40) == 0x28C69
  {
    hide VersionRemainder;
    TwelveSteps(37);
    TwelveSteps(38);
    TwelveSteps(39);
    TwelveSteps(40);
  }

  /** The version words are those of the standard's table. */
  lemma VersionWordsAreStandard(ver: nat)
    requires 7 <= ver <= MAX_VERSION
    ensures VersionWord(ver) == VersionTable(ver)
  {
    hide VersionWord;
    if ver <= 12 {
      VersionWords7To12();
    } else if ver <= 18 {
      VersionWords13To18();
    } else if ver <= 24 {
      VersionWords19To24();
    } else if ver <= 30 {
      VersionWords25To30();
    } else if ver <= 36 {
      VersionWords31To36();
    } else {
      VersionWords37To40();
    }
  }

  // ---- Positions of the alignment patterns (Annex E) ----

  function Lines(ver: nat): seq<int>
    requires ValidVersion(ver)
  {
    seq(NumAlign(ver), i requires 0 <= i < NumAlign(ver) => AlignAt(ver, i))
  }

  lemma Evenly(ver: nat, m: nat, step: nat)
    requires 2 <= ver <= MAX_VERSION && NumAlign(ver) == m >= 2 && StepFor(ver, m) == step
    ensures |Lines(ver)| == m && Lines(ver)[0] == 6
    ensures forall i :: 1 <= i < m ==> Lines(ver)[i] == 4 * ver + 10 - (m - 1 - i) * step
  {
    hide StepFor;
  }

  function LineTable(ver: nat): seq<int> {
    match ver
    case 1 => []
    case 2 => [6, 18]
    case 3 => [6, 22]
    case 4 => [6, 26]
    case 5 => [6, 30]
    case 6 => [6, 34]
    case 7 => [6, 22, 38]
    case 8 => [6, 24, 42]
    case 9 => [6, 26, 46]
    case 10 => [6, 28, 50]
    case 11 => [6, 30, 54]
    case 12 => [6, 32, 58]
    case 13 => [6, 34, 62]
    case 14 => [6, 26, 46, 66]
    case 15 => [6, 26, 48, 70]
    case 16 => [6, 26, 50, 74]
    case 17 => [6, 30, 54, 78]
    case 18 => [6, 30, 56, 82]
    case 19 => [6, 30, 58, 86]
    case 20 => [6, 34, 62, 90]
    case 21 => [6, 28, 50, 72, 94]
    case 22 => [6, 26, 50, 74, 98]
    case 23 => [6, 30, 54, 78, 102]
    case 24 => [6, 28, 54, 80, 106]
    case 25 => [6, 32, 58, 84, 110]
    case 26 => [6, 30, 58, 86, 114]
    case 27 => [6, 34, 62, 90, 118]
    case 28 => [6, 26, 50, 74, 98, 122]
    case 29 => [6, 30, 54, 78, 102, 126]
    case 30 => [6, 26, 52, 78, 104, 130]
    case 31 => [6, 30, 56, 82, 108, 134]
    case 32 => [6, 34, 60, 86, 112, 138]
    case 33 => [6, 30, 58, 86, 114, 142]
    case 34 => [6, 34, 62, 90, 118, 146]
    case 35 => [6, 30, 54, 78, 102, 126, 150]
    case 36 => [6, 24, 50, 76, 102, 128, 154]
    case 37 => [6, 28, 54, 80, 106, 132, 158]
    case 38 => [6, 32, 58, 84, 110, 136, 162]
    case 39 => [6, 26, 54, 82, 110, 138, 166]
    case _ => [6, 30, 58, 86, 114, 142, 170]
  }

  predicate StandardLines(ver: nat)
    requires ValidVersion(ver)
  {
    Lines(ver) == LineTable(ver)
  }

  lemma Alignment2To5()
    ensures StandardLines(2) && StandardLines(3) && StandardLines(4) && StandardLines(5)
  {
    Evenly(2, 2, 12);
    Evenly(3, 2, 16);
    Evenly(4, 2, 20);
    Evenly(5, 2, 24);
    hide Lines;
  }

  lemma Alignment6To9()
    ensures StandardLines(6) && StandardLines(7) && StandardLines(8) && StandardLines(9)
  {
    Evenly(6, 2, 28);
    Evenly(7, 3, 16);
    Evenly(8, 3, 18);
    Evenly(9, 3, 20);
    hide Lines;
  }

  lemma Alignment10To13()
    ensures StandardLines(10) && StandardLines(11) && StandardLines(12) && StandardLines(13)
  {
    Evenly(10, 3, 22);
    Evenly(11, 3, 24);
    Evenly(12, 3, 26);
    Evenly(13, 3, 28);
    hide Lines;
  }

  lemma Alignment14To17()
    ensures StandardLines(14) && StandardLines(15) && StandardLines(16) && StandardLines(17)
  {
    Evenly(14, 4, 20);
    Evenly(15, 4, 22);
    Evenly(16, 4, 24);
    Evenly(17, 4, 24);
    hide Lines;
  }

  lemma Alignment18To21()
    ensures StandardLines(18) && StandardLines(19) && StandardLines(20) && StandardLines(21)
  {
    Evenly(18, 4, 26);
    Evenly(19, 4, 28);
    Evenly(20, 4, 28);
    Evenly(21, 5, 22);
    hide Lines;
  }

  lemma Alignment22To25()
    ensures StandardLines(22) && StandardLines(23) && StandardLines(24) && StandardLines(25)
  {
    Evenly(22, 5, 24);
    Evenly(23, 5, 24);
    Evenly(24, 5, 26);
    Evenly(25, 5, 26);
    hide Lines;
  }

  lemma Alignment26To29()
    ensures StandardLines(26) && StandardLines(27) && StandardLines(28) && StandardLines(29)
  {
    Evenly(26, 5, 28);
    Evenly(27, 5, 28);
    Evenly(28, 6, 24);
    Evenly(29, 6, 24);
    hide Lines;
  }

  lemma Alignment30To33()
    ensures StandardLines(30) && StandardLines(31) && StandardLines(32) && StandardLines(33)
  {
    Evenly(30, 6, 26);
    Evenly(31, 6, 26);
    Evenly(32, 6, 26);
    Evenly(33, 6, 28);
    hide Lines;
  }

  lemma Alignment34To37()
    ensures StandardLines(34) && StandardLines(35) && StandardLines(36) && StandardLines(37)
  {
    Evenly(34, 6, 28);
    Evenly(35, 7, 24);
    Evenly(36, 7, 26);
    Evenly(37, 7, 26);
    hide Lines;
  }

  lemma Alignment38To40()
    ensures StandardLines(38) && StandardLines(39) && StandardLines(40)
  {
    Evenly(38, 7, 26);
    Evenly(39, 7, 28);
    Evenly(40, 7, 28);
    hide Lines;
  }

  /** The lines of the alignment patterns are those of the standard's table. */
  lemma AlignmentAreStandard(ver: nat)
    requires 2 <= ver <= MAX_VERSION
    ensures StandardLines(ver)
  {
    hide StandardLines;
    if ver <= 5 {
      Alignment2To5();
    } else if ver <= 9 {
      Alignment6To9();
    } else if ver <= 13 {
      Alignment10To13();
    } else if ver <= 17 {
      Alignment14To17();
    } else if ver <= 21 {
      Alignment18To21();
    } else if ver <= 25 {
      Alignment22To25();
    } else if ver <= 29 {
      Alignment26To29();
    } else if ver <= 33 {
      Alignment30To33();
    } else if ver <= 37 {
      Alignment34To37();
    } else {
      Alignment38To40();
    }
  }

  // ---- Capacities (Tables 7 and 9) ----

  /** The data codewords of the four levels, and those of a level's shorter blocks. */
  predicate Capacity(ver: nat, total: Levels, block: Levels)
    requires ValidVersion(ver)
  {
    var raw, e, b := RawDataModules(ver) / 8, EccPerBlock(ver), BlockCounts(ver);
    && raw == total.low + e.low * b.low == total.medium + e.medium * b.medium
    && raw == total.quartile + e.quartile * b.quartile == total.high + e.high * b.high
    && (block.low + e.low) * b.low <= raw < (block.low + e.low + 1) * b.low
    && (block.medium + e.medium) * b.medium <= raw < (block.medium + e.medium + 1) * b.medium
    && (block.quartile + e.quartile) * b.quartile <= raw < (block.quartile + e.quartile + 1) * b.quartile
    && (block.high + e.high) * b.high <= raw < (block.high + e.high + 1) * b.high
  }

  function TotalTable(ver: nat): Levels {
    match ver
    case 1 => Levels(19, 16, 13, 9)
    case 2 => Levels(34, 28, 22, 16)
    case 3 => Levels(55, 44, 34, 26)
    case 4 => Levels(80, 64, 48, 36)
    case 5 => Levels(108, 86, 62, 46)
    case 6 => Levels(136, 108, 76, 60)
    case 7 => Levels(156, 124, 88, 66)
    case 8 => Levels(194, 154, 110, 86)
    case 9 => Levels(232, 182, 132, 100)
    case 10 => Levels(274, 216, 154, 122)
    case 11 => Levels(324, 254, 180, 140)
    case 12 => Levels(370, 290, 206, 158)
    case 13 => Levels(428, 334, 244, 180)
    case 14 => Levels(461, 365, 261, 197)
    case 15 => Levels(523, 415, 295, 223)
    case 16 => Levels(589, 453, 325, 253)
    case 17 => Levels(647, 507, 367, 283)
    case 18 => Levels(721, 563, 397, 313)
    case 19 => Levels(795, 627, 445, 341)
    case 20 => Levels(861, 669, 485, 385)
    case 21 => Levels(932, 714, 512, 406)
    case 22 => Levels(1006, 782, 568, 442)
    case 23 => Levels(1094, 860, 614, 464)
    case 24 => Levels(1174, 914, 664, 514)
    case 25 => Levels(1276, 1000, 718, 538)
    case 26 => Levels(1370, 1062, 754, 596)
    case 27 => Levels(1468, 1128, 808, 628)
    case 28 => Levels(1531, 1193, 871, 661)
    case 29 => Levels(1631, 1267, 911, 701)
    case 30 => Levels(1735, 1373, 985, 745)
    case 31 => Levels(1843, 1455, 1033, 793)
    case 32 => Levels(1955, 1541, 1115, 845)
    case 33 => Levels(2071, 1631, 1171, 901)
    case 34 => Levels(2191, 1725, 1231, 961)
    case 35 => Levels(2306, 1812, 1286, 986)
    case 36 => Levels(2434, 1914, 1354, 1054)
    case 37 => Levels(2566, 1992, 1426, 1096)
    case 38 => Levels(2702, 2102, 1502, 1142)
    case 39 => Levels(2812, 2216, 1582, 1222)
    case _ => Levels(2956, 2334, 1666, 1276)
  }

  function BlockTable(ver: nat): Levels {
    match ver
    case 1 => Levels(19, 16, 13, 9)
    case 2 => Levels(34, 28, 22, 16)
    case 3 => Levels(55, 44, 17, 13)
    case 4 => Levels(80, 32, 24, 9)
    case 5 => Levels(108, 43, 15, 11)
    case 6 => Levels(68, 27, 19, 15)
    case 7 => Levels(78, 31, 14, 13)
    case 8 => Levels(97, 38, 18, 14)
    case 9 => Levels(116, 36, 16, 12)
    case 10 => Levels(68, 43, 19, 15)
    case 11 => Levels(81, 50, 22, 12)
    case 12 => Levels(92, 36, 20, 14)
    case 13 => Levels(107, 37, 20, 11)
    case 14 => Levels(115, 40, 16, 12)
    case 15 => Levels(87, 41, 24, 12)
    case 16 => Levels(98, 45, 19, 15)
    case 17 => Levels(107, 46, 22, 14)
    case 18 => Levels(120, 43, 22, 14)
    case 19 => Levels(113, 44, 21, 13)
    case 20 => Levels(107, 41, 24, 15)
    case 21 => Levels(116, 42, 22, 16)
    case 22 => Levels(111, 46, 24, 13)
    case 23 => Levels(121, 47, 24, 15)
    case 24 => Levels(117, 45, 24, 16)
    case 25 => Levels(106, 47, 24, 15)
    case 26 => Levels(114, 46, 22, 16)
    case 27 => Levels(122, 45, 23, 15)
    case 28 => Levels(117, 45, 24, 15)
    case 29 => Levels(116, 45, 23, 15)
    case 30 => Levels(115, 47, 24, 15)
    case 31 => Levels(115, 46, 24, 15)
    case 32 => Levels(115, 46, 24, 15)
    case 33 => Levels(115, 46, 24, 15)
    case 34 => Levels(115, 46, 24, 16)
    case 35 => Levels(121, 47, 24, 15)
    case 36 => Levels(121, 47, 24, 15)
    case 37 => Levels(122, 46, 24, 15)
    case 38 => Levels(122, 46, 24, 15)
    case 39 => Levels(117, 47, 24, 15)
    case _ => Levels(118, 47, 24, 15)
  }

  predicate StandardCapacity(ver: nat)
    requires ValidVersion(ver)
  {
    Capacity(ver, TotalTable(ver), BlockTable(ver))
  }

  lemma Capacities1To2()
    ensures StandardCapacity(1) && StandardCapacity(2)
  {
  }

  lemma Capacities3To4()
    ensures StandardCapacity(3) && StandardCapacity(4)
  {
  }

  lemma Capacities5To6()
    ensures StandardCapacity(5) && StandardCapacity(6)
  {
  }

  lemma Capacities7To8()
    ensures StandardCapacity(7) && StandardCapacity(8)
  {
  }

  lemma Capacities9To10()
    ensures StandardCapacity(9) && StandardCapacity(10)
  {
  }

  lemma Capacities11To12()
    ensures StandardCapacity(11) && StandardCapacity(12)
  {
  }

  lemma Capacities13To14()
    ensures StandardCapacity(13) && StandardCapacity(14)
  {
  }

  lemma Capacities15To16()
    ensures StandardCapacity(15) && StandardCapacity(16)
  {
  }

  lemma Capacities17To18()
    ensures StandardCapacity(17) && StandardCapacity(18)
  {
  }

  lemma Capacities19To20()
    ensures StandardCapacity(19) && StandardCapacity(20)
  {
  }

  lemma Capacities21To22()
    ensures StandardCapacity(21) && StandardCapacity(22)
  {
  }

  lemma Capacities23To24()
    ensures StandardCapacity(23) && StandardCapacity(24)
  {
  }

  lemma Capacities25To26()
    ensures StandardCapacity(25) && StandardCapacity(26)
  {
  }

  lemma Capacities27To28()
    ensures StandardCapacity(27) && StandardCapacity(28)
  {
  }

  lemma Capacities29To30()
    ensures StandardCapacity(29) && StandardCapacity(30)
  {
  }

  lemma Capacities31To32()
    ensures StandardCapacity(31) && StandardCapacity(32)
  {
  }

  lemma Capacities33To34()
    ensures StandardCapacity(33) && StandardCapacity(34)
  {
  }

  lemma Capacities35To36()
    ensures StandardCapacity(35) && StandardCapacity(36)
  {
  }

  lemma Capacities37To38()
    ensures StandardCapacity(37) && StandardCapacity(38)
  {
  }

  lemma Capacities39To40()
    ensures StandardCapacity(39) && StandardCapacity(40)
  {
  }

  /** The data codewords of every version and level, and of its shorter blocks, are those of the standard. */
  lemma CapacitiesAreStandard(ver: nat)
    requires ValidVersion(ver)
    ensures StandardCapacity(ver)
  {
    hide StandardCapacity;
    if ver <= 2 {
      Capacities1To2();
    } else if ver <= 4 {
      Capacities3To4();
    } else if ver <= 6 {
      Capacities5To6();
    } else if ver <= 8 {
      Capacities7To8();
    } else if ver <= 10 {
      Capacities9To10();
    } else if ver <= 12 {
      Capacities11To12();
    } else if ver <= 14 {
      Capacities13To14();
    } else if ver <= 16 {
      Capacities15To16();
    } else if ver <= 18 {
      Capacities17To18();
    } else if ver <= 20 {
      Capacities19To20();
    } else if ver <= 22 {
      Capacities21To22();
    } else if ver <= 24 {
      Capacities23To24();
    } else if ver <= 26 {
      Capacities25To26();
    } else if ver <= 28 {
      Capacities27To28();
    } else if ver <= 30 {
      Capacities29To30();
    } else if ver <= 32 {
      Capacities31To32();
    } else if ver <= 34 {
      Capacities33To34();
    } else if ver <= 36 {
      Capacities35To36();
    } else if ver <= 38 {
      Capacities37To38();
    } else {
      Capacities39To40();
    }
  }
}
