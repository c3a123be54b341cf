/** The modes of ISO/IEC 18004:2015 and the examples of encoding that it works out. */
module QrExamples {
  import opened BitStream
  import opened QrTables
  import opened Segments
  import opened Wrappers
  import Gf256
  import Zigzag

  // ---- Modes and characters (Tables 2, 3 and 5) ----

  /** Mode indicators, and the widths of the count fields for the three ranges of versions. */
  lemma ModesAreStandard(ver: nat)
    requires MIN_VERSION <= ver <= MAX_VERSION
    ensures NUMERIC.ModeBits() == 1 && ALPHANUMERIC.ModeBits() == 2 && BYTE.ModeBits() == 4
    ensures ver <= 9 ==> NUMERIC.CountBits(ver) == 10 && ALPHANUMERIC.CountBits(ver) == 9 && BYTE.CountBits(ver) == 8
    ensures 10 <= ver <= 26 ==>
              NUMERIC.CountBits(ver) == 12 && ALPHANUMERIC.CountBits(ver) == 11 && BYTE.CountBits(ver) == 16
    ensures ver >= 27 ==> NUMERIC.CountBits(ver) == 14 && ALPHANUMERIC.CountBits(ver) == 13 && BYTE.CountBits(ver) == 16
  {
  }

  /** The alphanumeric characters by value: digits, capital letters, and nine others. */
  function StandardChar(k: nat): char
    requires k < 45
  {
    if k < 10 then ('0' as int + k) as char
    else if k < 36 then ('A' as int + (k - 10)) as char
    else if k == 36 then ' '
    else if k == 37 then '$'
    else if k == 38 then '%'
    else if k == 39 then '*'
    else if k == 40 then '+'
    else if k == 41 then '-'
    else if k == 42 then '.'
    else if k == 43 then '/'
    else ':'
  }

  /** The character set of the source, spelled out. */
  lemma CharsetAt(k: nat)
    requires k < 45
    ensures |ALPHANUMERIC_CHARSET| == 45 && ALPHANUMERIC_CHARSET[k] == StandardChar(k)
  {
    CharsetSize();
    if k < 10 {
      DigitAt(k);
    } else if k < 36 {
      LetterAt(k);
    } else {
      OtherAt(k);
    }
  }

  lemma DigitAt(k: nat)
    requires k < 10 && |ALPHANUMERIC_CHARSET| == 45
    ensures ALPHANUMERIC_CHARSET[k] == ('0' as int + k) as char
  {
  }

  lemma LetterAt(k: nat)
    requires 10 <= k < 36 && |ALPHANUMERIC_CHARSET| == 45
    ensures ALPHANUMERIC_CHARSET[k] == ('A' as int + (k - 10)) as char
  {
  }

  lemma OtherAt(k: nat)
    requires 36 <= k < 45 && |ALPHANUMERIC_CHARSET| == 45
    ensures ALPHANUMERIC_CHARSET[k] == StandardChar(k)
  {
  }

  lemma CharactersDiffer(i: nat, k: nat)
    requires i < k < 45
    ensures StandardChar(i) != StandardChar(k)
  {
  }

  lemma {:induction false} FoundAt(i: nat, k: nat)
    requires i <= k < 45
    ensures CharsetIndex(StandardChar(k), i) == Some(k)
    decreases k - i
  {
    hide StandardChar;
    CharsetAt(i);
    if i < k {
      CharactersDiffer(i, k);
      FoundAt(i + 1, k);
    }
  }

  /** Every character has the value of the standard, and no other character has one. */
  lemma CharactersAreStandard(k: nat)
    requires k < 45
    ensures CharsetSymbol(StandardChar(k)) == k
  {
    hide StandardChar;
    FoundAt(0, k);
  }

  // ---- Bit strings as numbers ----

  lemma OneMoreBit(a: nat, b: nat, c: nat, bit: nat)
    ensures 2 * (a * b + c) + bit == a * (2 * b) + (2 * c + bit)
  {
  }

  lemma LastBit(p: seq<bool>)
    requires p != []
    ensures ValueOf(p) == 2 * ValueOf(p[..|p| - 1]) + if p[|p| - 1] then 1 else 0
  {
  }

  /** The value of a bit string, built from the front. */
  lemma {:induction false} ValueOfJoined(p: seq<bool>, q: seq<bool>)
    ensures ValueOf(p + q) == ValueOf(p) * Pow2(|q|) + ValueOf(q)
    decreases |q|
  {
    if q == [] {
      assert p + q == p;
    } else {
      var n := |q| - 1;
      hide ValueOf;
      assert (p + q)[..|p| + n] == p + q[..n];
      ValueOfJoined(p, q[..n]);
      OneMoreBit(ValueOf(p), Pow2(n), ValueOf(q[..n]), if q[n] then 1 else 0);
      LastBit(p + q);
      LastBit(q);
      assert Pow2(|q|) == 2 * Pow2(n);
    }
  }

  /** The value after a field of `n` bits that holds `v`. */
  function Then(value: nat, n: nat, v: nat): nat {
    value * Pow2(n) + v
  }

  /** Appending the bits of a number to a bit string. */
  lemma Appended(p: seq<bool>, v: nat, n: nat)
    requires v < Pow2(n)
    ensures ValueOf(p + BitsOf(v, n)) == Then(ValueOf(p), n, v) && |p + BitsOf(v, n)| == |p| + n
  {
    ValueOfJoined(p, BitsOf(v, n));
    ValueOfBits(v, n);
  }

  lemma SmallPowers()
    ensures Pow2(0) == 1 && Pow2(3) == 8 && Pow2(4) == 16 && Pow2(6) == 64 && Pow2(7) == 128 && Pow2(8) == 256
    ensures Pow2(9) == 512 && Pow2(10) == 1024 && Pow2(11) == 2048
  {
  }

  // ---- The worked examples ----

  /** The stream of one segment. */
  lemma OneSegment(c: Content, ver: nat)
    ensures Stream(SegmentsOf([c]), ver) == SegmentBits(SegmentOf(c), ver)
  {
    var segs := SegmentsOf([c]);
    assert segs == [SegmentOf(c)] && segs[1..] == [];
  }

  /** Section 7.4.3: the digits 01234567 in version 1. */
  lemma DigitsExample()
    ensures var bits := Stream(SegmentsOf([NumericText("01234567")]), 1);
            |bits| == 41 && ValueOf(bits) == (((1 * 1024 + 8) * 1024 + 12) * 1024 + 345) * 128 + 67
  {
    var c := NumericText("01234567");
    hide BitsOf, ValueOf, Pow2, Pack, Stream, SegmentsOf;
    OneSegment(c, 1);
    DigitsPacked();
    SmallPowers();
    assert Symbols(c) == [0, 1, 2, 3, 4, 5, 6, 7];
    FiveFields(1, 4, 8, 10, 12, 10, 345, 10, 67, 7);
    Regroup(BitsOf(1, 4), BitsOf(8, 10), BitsOf(12, 10), BitsOf(345, 10), BitsOf(67, 7));
  }

  lemma FiveFields(a: nat, i: nat, b: nat, j: nat, c: nat, k: nat, d: nat, l: nat, e: nat, m: nat)
    requires a < Pow2(i) && b < Pow2(j) && c < Pow2(k) && d < Pow2(l) && e < Pow2(m)
    ensures var bits := BitsOf(a, i) + BitsOf(b, j) + BitsOf(c, k) + BitsOf(d, l) + BitsOf(e, m);
            && |bits| == i + j + k + l + m
            && ValueOf(bits) == Then(Then(Then(Then(a, j, b), k, c), l, d), m, e)
  {
    hide BitsOf, ValueOf, Pow2, Then;
    ValueOfBits(a, i);
    var p := BitsOf(a, i) + BitsOf(b, j);
    Appended(BitsOf(a, i), b, j);
    var q := p + BitsOf(c, k);
    Appended(p, c, k);
    var r := q + BitsOf(d, l);
    Appended(q, d, l);
    Appended(r, e, m);
  }

  lemma Regroup(a: seq<bool>, b: seq<bool>, c: seq<bool>, d: seq<bool>, e: seq<bool>)
    ensures a + b + (c + d + e) == a + b + c + d + e
  {
  }

  lemma DigitsPacked()
    ensures Pack(Coding(10, 3, 3), [0, 1, 2, 3, 4, 5, 6, 7]) == BitsOf(12, 10) + BitsOf(345, 10) + BitsOf(67, 7)
  {
    hide BitsOf;
    var c := Coding(10, 3, 3);
    var s := [0, 1, 2, 3, 4, 5, 6, 7];
    assert s[..3] == [0, 1, 2] && s[3..] == [3, 4, 5, 6, 7];
    assert s[3..][..3] == [3, 4, 5] && s[3..][3..] == [6, 7];
    Number3(10, 0, 1, 2);
    Number3(10, 3, 4, 5);
    Number2(10, 6, 7);
    hide NumberOf;
    assert Pack(c, [6, 7]) == BitsOf(67, 7);
    assert Pack(c, s[3..]) == BitsOf(345, 10) + Pack(c, [6, 7]);
  }

  lemma Number2(base: nat, a: nat, b: nat)
    ensures NumberOf(base, [a, b]) == a * base + b
  {
    assert [a, b][..1] == [a] && [a][..0] == [];
    assert NumberOf(base, [a]) == NumberOf(base, []) * base + a;
  }

  lemma Number3(base: nat, a: nat, b: nat, c: nat)
    ensures NumberOf(base, [a, b, c]) == (a * base + b) * base + c
  {
    assert [a, b, c][..2] == [a, b];
    Number2(base, a, b);
  }

  /** Section 7.4.4: the characters AC-42 in version 1. */
  lemma CharactersExample()
    ensures var bits := Stream(SegmentsOf([AlphanumericText("AC-42")]), 1);
            |bits| == 41 && ValueOf(bits) == (((2 * 512 + 5) * 2048 + 462) * 2048 + 1849) * 64 + 2
  {
    var c := AlphanumericText("AC-42");
    hide BitsOf, ValueOf, Pow2, Pack, CharsetSymbol, Stream, SegmentsOf;
    OneSegment(c, 1);
    CharactersPacked();
    ExampleSymbols();
    SmallPowers();
    FiveFields(2, 4, 5, 9, 462, 11, 1849, 11, 2, 6);
    Regroup(BitsOf(2, 4), BitsOf(5, 9), BitsOf(462, 11), BitsOf(1849, 11), BitsOf(2, 6));
  }

  lemma ExampleSymbols()
    ensures Symbols(AlphanumericText("AC-42")) == [10, 12, 41, 4, 2]
  {
    hide CharsetSymbol;
    CharactersAreStandard(10);
    CharactersAreStandard(12);
    CharactersAreStandard(41);
    CharactersAreStandard(4);
    CharactersAreStandard(2);
  }

  lemma CharactersPacked()
    ensures Pack(Coding(45, 2, 5), [10, 12, 41, 4, 2]) == BitsOf(462, 11) + BitsOf(1849, 11) + BitsOf(2, 6)
  {
    hide BitsOf;
    var c := Coding(45, 2, 5);
    var s := [10, 12, 41, 4, 2];
    assert s[..2] == [10, 12] && s[2..] == [41, 4, 2];
    assert s[2..][..2] == [41, 4] && s[2..][2..] == [2];
    Number2(45, 10, 12);
    Number2(45, 41, 4);
    assert NumberOf(45, [2]) == 2 by {
      assert [2][..0] == [];
    }
    hide NumberOf;
    assert Pack(c, [2]) == BitsOf(2, 6);
    assert Pack(c, s[2..]) == BitsOf(1849, 11) + Pack(c, [2]);
  }

  /** Annex I: the sixteen data codewords of 01234567 in version 1, level M. */
  lemma CodewordsExample(e: Encoded)
    requires e.version == 1 && |e.codewords| == 16 && HoldsStream(SegmentsOf([NumericText("01234567")]), e)
    ensures ValueOf(BitsIn(e.codewords)) == 0x1020_0C56_6180_EC11_EC11_EC11_EC11_EC11
  {
    DigitsExample();
    var stream := Stream(SegmentsOf([NumericText("01234567")]), 1);
    hide Stream, BitsOf, ValueOf, Pow2;
    SmallPowers();
    PaddedExample(stream);
  }

  lemma PaddedExample(stream: seq<bool>)
    requires |stream| == 41
    ensures ValueOf(stream + Padding(41, 128)) ==
            (ValueOf(stream) * 128) * 0x1_0000_0000_0000_0000_0000 + 0xEC11_EC11_EC11_EC11_EC11
  {
    hide BitsOf, ValueOf, Pow2;
    SmallPowers();
    PadPairs();
    var zeros := BitsOf(0, 4) + BitsOf(0, 3);
    Appended(stream, 0, 4);
    Appended(stream + BitsOf(0, 4), 0, 3);
    ValueOfJoined(stream + BitsOf(0, 4) + BitsOf(0, 3), PadBytes(10, false));
    assert stream + Padding(41, 128) == stream + BitsOf(0, 4) + BitsOf(0, 3) + PadBytes(10, false);
  }

  /** Two pad bytes more at the front. */
  lemma PadPair(n: nat)
    requires n >= 2
    ensures ValueOf(PadBytes(n, false)) == 0xEC11 * Pow2(8 * (n - 2)) + ValueOf(PadBytes(n - 2, false))
  {
    hide BitsOf, ValueOf, Pow2;
    SmallPowers();
    var rest := PadBytes(n - 2, false);
    assert PadBytes(n, false) == BitsOf(0xEC, 8) + BitsOf(0x11, 8) + rest;
    ValueOfBits(0xEC, 8);
    Appended(BitsOf(0xEC, 8), 0x11, 8);
    ValueOfJoined(BitsOf(0xEC, 8) + BitsOf(0x11, 8), rest);
  }

  lemma PadPairs()
    ensures ValueOf(PadBytes(10, false)) == 0xEC11_EC11_EC11_EC11_EC11 && Pow2(80) == 0x1_0000_0000_0000_0000_0000
  {
    Powers16();
    PadPair(10);
    PadPair(8);
    PadPair(6);
    PadPair(4);
    PadPair(2);
    assert ValueOf(PadBytes(0, false)) == 0;
    hide PadBytes, ValueOf, Pow2;
  }

  lemma {:induction false} PowersAdd(m: nat, n: nat)
    ensures Pow2(m + n) == Pow2(m) * Pow2(n)
  {
    if m > 0 {
      PowersAdd(m - 1, n);
      assert 2 * (Pow2(m - 1) * Pow2(n)) == (2 * Pow2(m - 1)) * Pow2(n);
    }
  }

  lemma Powers16()
    ensures Pow2(0) == 1 && Pow2(16) == 0x1_0000 && Pow2(32) == 0x1_0000_0000 && Pow2(48) == 0x1_0000_0000_0000
    ensures Pow2(64) == 0x1_0000_0000_0000_0000 && Pow2(80) == 0x1_0000_0000_0000_0000_0000
  {
    hide Pow2;
    SmallPowers();
    PowersAdd(8, 8);
    PowersAdd(16, 16);
    PowersAdd(16, 32);
    PowersAdd(16, 48);
    PowersAdd(16, 64);
  }

  // ---- The bits of a codeword ----

  function Half(y: bv8): bv8 {
    y >> 1
  }

  lemma HalfIsQuotient(y: bv8)
    ensures Half(y) as nat == y as nat / 2 && (Gf256.Bit(y, 0) <==> y as nat % 2 == 1)
  {
  }

  lemma BitOfHalf(y: bv8, i: nat)
    requires i < 7
    ensures Gf256.Bit(Half(y), i) == Gf256.Bit(y, i + 1)
  {
    if i == 0 {} else if i == 1 {} else if i == 2 {} else if i == 3 {} else if i == 4 {} else if i == 5 {}
    else { assert i == 6; }
  }

  lemma {:induction false} BitsOfByte(y: bv8, n: nat, j: nat)
    requires j < n <= 8
    ensures BitsOf(y as nat, n)[j] == Gf256.Bit(y, n - 1 - j)
    decreases n
  {
    hide Gf256.Bit, Half;
    HalfIsQuotient(y);
    if j < n - 1 {
      BitsOfByte(Half(y), n - 1, j);
      BitOfHalf(y, n - 2 - j);
    }
  }

  /** Codewords are drawn and read with the bit of highest value first. */
  lemma CodewordBitsInOrder(codewords: seq<bv8>, i: nat, j: nat)
    requires i < |codewords| && j < 8
    ensures Zigzag.CodewordBit(codewords, 8 * i + j) == BitsOf(codewords[i] as nat, 8)[j]
  {
    hide Gf256.Bit, BitsOf;
    assert (8 * i + j) / 8 == i && (8 * i + j) % 8 == j;
    BitsOfByte(codewords[i], 8, j);
  }
}
